/** The string operations a condition goes through: stripping, splitting on white
    space, taking a word out of its parentheses, joining with single spaces. */
module ConditionText {

  /** The characters Python's `str.split()` and `str.strip()` treat as white space. */
  predicate IsSpace(c: char) {
    || '\t' <= c <= '\r' || c == ' '
    || '\U{1C}' <= c <= '\U{1F}' || c == '\U{85}' || c == '\U{A0}' || c == '\U{1680}'
    || '\U{2000}' <= c <= '\U{200A}' || c == '\U{2028}' || c == '\U{2029}'
    || c == '\U{202F}' || c == '\U{205F}' || c == '\U{3000}'
  }

  predicate IsOpen(c: char) {
    c == '('
  }

  predicate IsClose(c: char) {
    c == ')'
  }

  predicate IsParen(c: char) {
    IsOpen(c) || IsClose(c)
  }

  predicate IsNonSpace(c: char) {
    !IsSpace(c)
  }

  predicate IsNonBlank(c: char) {
    c != ' '
  }

  /** The length of the longest prefix whose characters all satisfy `p`. */
  function PrefixLength(p: char -> bool, s: string): (n: nat)
    ensures n <= |s|
    ensures forall i :: 0 <= i < n ==> p(s[i])
    ensures n < |s| ==> !p(s[n])
  {
    if s == "" || !p(s[0]) then 0
    else
      var n := PrefixLength(p, s[1..]);
      assert forall i :: 1 <= i < n + 1 ==> s[i] == s[1..][i - 1];
      n + 1
  }

  /** The length of the longest suffix whose characters all satisfy `p`. */
  function SuffixLength(p: char -> bool, s: string): (n: nat)
    ensures n <= |s|
    ensures forall i :: |s| - n <= i < |s| ==> p(s[i])
    ensures n < |s| ==> !p(s[|s| - 1 - n])
  {
    if s == "" || !p(s[|s| - 1]) then 0 else SuffixLength(p, s[..|s| - 1]) + 1
  }

  function StripLeft(p: char -> bool, s: string): string {
    s[PrefixLength(p, s)..]
  }

  function StripRight(p: char -> bool, s: string): string {
    s[..|s| - SuffixLength(p, s)]
  }

  function Strip(p: char -> bool, s: string): string {
    StripRight(p, StripLeft(p, s))
  }

  lemma {:induction false} PrefixLengthIs(p: char -> bool, s: string, n: nat)
    requires n <= |s| && (forall i :: 0 <= i < n ==> p(s[i])) && (n < |s| ==> !p(s[n]))
    ensures PrefixLength(p, s) == n
  {
  }

  lemma {:induction false} SuffixLengthIs(p: char -> bool, s: string, n: nat)
    requires n <= |s| && (forall i :: |s| - n <= i < |s| ==> p(s[i]))
    requires n < |s| ==> !p(s[|s| - 1 - n])
    ensures SuffixLength(p, s) == n
  {
  }

  lemma NothingToStrip(p: char -> bool, s: string)
    requires s != "" ==> !p(s[0]) && !p(s[|s| - 1])
    ensures Strip(p, s) == s
  {
  }

  /** Stripping takes away what is to be stripped at both ends, and nothing else. */
  lemma StripTakesAway(p: char -> bool, a: string, w: string, b: string)
    requires (forall i :: 0 <= i < |a| ==> p(a[i])) && (forall i :: 0 <= i < |b| ==> p(b[i]))
    requires w != "" ==> !p(w[0]) && !p(w[|w| - 1])
    ensures Strip(p, a + w + b) == w
  {
    var s := a + w + b;
    if w == "" {
      PrefixLengthIs(p, s, |s|);
      assert s[|s|..] == "";
    } else {
      PrefixLengthIs(p, s, |a|);
      assert s[|a|..] == w + b;
      SuffixLengthIs(p, w + b, |b|);
    }
  }

  // ------------------------------------------------------------ splitting, joining

  predicate NoSpace(w: string) {
    forall i :: 0 <= i < |w| ==> !IsSpace(w[i])
  }

  predicate IsWord(w: string) {
    w != "" && NoSpace(w)
  }

  predicate AllWords(ws: seq<string>) {
    forall i :: 0 <= i < |ws| ==> IsWord(ws[i])
  }

  /** The maximal runs of characters that are not white space. */
  function Split(s: string): (ws: seq<string>)
    ensures AllWords(ws)
    decreases |s|
  {
    if s == "" then []
    else if IsSpace(s[0]) then Split(s[1..])
    else
      var n := PrefixLength(IsNonSpace, s);
      [s[..n]] + Split(s[n..])
  }

  function Join(ws: seq<string>): string {
    if ws == [] then ""
    else if |ws| == 1 then ws[0]
    else ws[0] + " " + Join(ws[1..])
  }

  lemma {:induction false} SplitFirstWord(w: string, rest: string)
    requires IsWord(w) && (rest == "" || IsSpace(rest[0]))
    ensures Split(w + rest) == [w] + Split(rest)
  {
    var s := w + rest;
    PrefixLengthIs(IsNonSpace, s, |w|);
    assert s[0] == w[0] && s[..|w|] == w && s[|w|..] == rest;
  }

  lemma {:induction false} SplitSpaceFirst(c: char, s: string)
    requires IsSpace(c)
    ensures Split([c] + s) == Split(s)
  {
    assert ([c] + s)[1..] == s;
  }

  /** A text that does not begin with white space begins with a word. */
  lemma FirstWord(s: string) returns (w: string, rest: string)
    requires s != "" && !IsSpace(s[0])
    ensures s == w + rest && IsWord(w) && (rest == "" || IsSpace(rest[0]))
  {
    var n := PrefixLength(IsNonSpace, s);
    w, rest := s[..n], s[n..];
  }

  lemma Regroup<T>(a: seq<T>, b: seq<T>, c: seq<T>)
    ensures (a + b) + c == a + (b + c)
  {
  }

  lemma {:induction false} SplitBehindSpace(x: char, u: string, c: char, v: string)
    requires IsSpace(x) && Split(u + [c] + v) == Split(u) + Split(v)
    ensures Split([x] + u + [c] + v) == Split([x] + u) + Split(v)
  {
    SplitSpaceFirst(x, u);
    SplitSpaceFirst(x, u + [c] + v);
    assert [x] + u + [c] + v == [x] + (u + [c] + v);
  }

  lemma {:induction false} SplitBehindWord(w: string, u: string, c: char, v: string)
    requires IsWord(w) && (u == "" || IsSpace(u[0])) && IsSpace(c)
    requires Split(u + [c] + v) == Split(u) + Split(v)
    ensures Split(w + u + [c] + v) == Split(w + u) + Split(v)
  {
    SplitFirstWord(w, u);
    SplitFirstWord(w, u + [c] + v);
    assert w + u + [c] + v == w + (u + [c] + v);
    Regroup([w], Split(u), Split(v));
  }

  /** Every white space character splits, wherever it stands. */
  lemma {:induction false} SplitsAtSpace(u: string, c: char, v: string)
    requires IsSpace(c)
    ensures Split(u + [c] + v) == Split(u) + Split(v)
    decreases |u|
  {
    if u == "" {
      assert u + [c] + v == [c] + v;
      SplitSpaceFirst(c, v);
    } else if IsSpace(u[0]) {
      SplitsAtSpace(u[1..], c, v);
      SplitBehindSpace(u[0], u[1..], c, v);
      assert u == [u[0]] + u[1..];
    } else {
      var w, rest := FirstWord(u);
      SplitsAtSpace(rest, c, v);
      SplitBehindWord(w, rest, c, v);
    }
  }

  /** And nothing else does. */
  lemma {:induction false} WordIsOne(w: string)
    requires IsWord(w)
    ensures Split(w) == [w]
  {
    SplitFirstWord(w, "");
    assert w + "" == w;
  }

  lemma {:induction false} JoinCons(w: string, ws: seq<string>)
    requires ws != []
    ensures Join([w] + ws) == w + " " + Join(ws)
  {
  }

  /** Splitting undoes joining. */
  lemma {:induction false} SplitJoin(ws: seq<string>)
    requires AllWords(ws)
    ensures Split(Join(ws)) == ws
  {
    if |ws| == 1 {
      SplitFirstWord(ws[0], "");
      assert ws[0] + "" == ws[0] && ws == [ws[0]];
    } else if ws != [] {
      var rest := ws[1..];
      SplitJoin(rest);
      SplitFirstWord(ws[0], " " + Join(rest));
      assert (" " + Join(rest))[1..] == Join(rest);
      assert ws[0] + " " + Join(rest) == ws[0] + (" " + Join(rest));
      assert ws == [ws[0]] + rest;
    }
  }

  lemma RegroupBlanks(x: string, y: string, z: string)
    ensures (x + " " + y) + " " + z == x + " " + (y + " " + z)
  {
  }

  lemma {:induction false} JoinConcat(a: seq<string>, b: seq<string>)
    requires a != [] && b != []
    ensures Join(a + b) == Join(a) + " " + Join(b)
  {
    var first, rest := a[0], a[1..];
    assert a == [first] + rest;
    if rest == [] {
      assert a == [first];
      JoinCons(first, b);
    } else {
      JoinConcat(rest, b);
      JoinCons(first, rest);
      JoinCons(first, rest + b);
      Regroup([first], rest, b);
      RegroupBlanks(first, Join(rest), Join(b));
    }
  }

  lemma {:induction false} JoinFirst(ws: seq<string>)
    requires ws != [] && ws[0] != ""
    ensures Join(ws) != "" && Join(ws)[0] == ws[0][0]
  {
  }

  lemma JoinLast(ws: seq<string>)
    requires ws != [] && ws[|ws| - 1] != ""
    ensures var s, last := Join(ws), ws[|ws| - 1]; s != "" && s[|s| - 1] == last[|last| - 1]
  {
    if |ws| > 1 {
      var rest := ws[1..];
      assert rest[|rest| - 1] == ws[|ws| - 1];
      JoinLast(rest);
      var t, before := Join(rest), ws[0] + " ";
      assert (before + t)[|before| + (|t| - 1)] == t[|t| - 1];
    }
  }

  /** A joined list of words starts and ends with characters of its words. */
  lemma {:induction false} JoinEnds(ws: seq<string>)
    requires AllWords(ws) && ws != []
    ensures var s, last := Join(ws), ws[|ws| - 1];
            s != "" && s[0] == ws[0][0] && s[|s| - 1] == last[|last| - 1]
  {
    JoinFirst(ws);
    JoinLast(ws);
  }

  lemma {:induction false} StripJoined(ws: seq<string>)
    requires AllWords(ws)
    ensures Strip(IsSpace, Join(ws)) == Join(ws)
  {
    if ws != [] {
      JoinEnds(ws);
    }
    NothingToStrip(IsSpace, Join(ws));
  }

  // ------------------------------------------------- a word and its parentheses

  /** A token of the condition: opening parentheses, a word, closing parentheses. */
  datatype Chunk = Chunk(opens: nat, word: string, closes: nat)

  function Repeat(c: char, n: nat): (s: string)
    ensures |s| == n && forall i :: 0 <= i < n ==> s[i] == c
  {
    if n == 0 then "" else [c] + Repeat(c, n - 1)
  }

  function Text(c: Chunk): string {
    Repeat('(', c.opens) + c.word + Repeat(')', c.closes)
  }

  function Texts(cs: seq<Chunk>): (ts: seq<string>)
    ensures |ts| == |cs| && forall i :: 0 <= i < |cs| ==> ts[i] == Text(cs[i])
  {
    seq(|cs|, i requires 0 <= i < |cs| => Text(cs[i]))
  }

  /** The token taken apart: its leading `(`, its trailing `)` and, independently of
      both, what remains when parentheses of either kind are stripped from its ends. */
  function Analyse(t: string): Chunk {
    Chunk(PrefixLength(IsOpen, t), Strip(IsParen, t), SuffixLength(IsClose, t))
  }

  predicate IsBareWord(w: string) {
    IsWord(w) && !IsParen(w[0]) && !IsParen(w[|w| - 1])
  }

  lemma ShapeOfText(c: Chunk)
    ensures var t := Text(c);
            && |t| == c.opens + |c.word| + c.closes
            && (forall i :: 0 <= i < c.opens ==> t[i] == '(')
            && (forall i :: 0 <= i < |c.word| ==> t[c.opens + i] == c.word[i])
            && (forall i :: c.opens + |c.word| <= i < |t| ==> t[i] == ')')
            && t[c.opens..] == c.word + Repeat(')', c.closes)
  {
  }

  lemma OpensOfText(c: Chunk)
    requires IsBareWord(c.word)
    ensures PrefixLength(IsOpen, Text(c)) == PrefixLength(IsParen, Text(c)) == c.opens
  {
    var t := Text(c);
    ShapeOfText(c);
    assert t[c.opens + 0] == c.word[0];
    PrefixLengthIs(IsOpen, t, c.opens);
    PrefixLengthIs(IsParen, t, c.opens);
  }

  lemma ClosesOfText(c: Chunk)
    requires IsBareWord(c.word)
    ensures SuffixLength(IsClose, Text(c)) == c.closes
    ensures SuffixLength(IsParen, c.word + Repeat(')', c.closes)) == c.closes
  {
    var t, left, n := Text(c), c.word + Repeat(')', c.closes), |c.word|;
    ShapeOfText(c);
    assert t[c.opens + (n - 1)] == left[n - 1] == c.word[n - 1];
    SuffixLengthIs(IsClose, t, c.closes);
    SuffixLengthIs(IsParen, left, c.closes);
  }

  lemma {:induction false} StripIs(p: char -> bool, a: string, w: string, b: string)
    requires PrefixLength(p, a + w + b) == |a| && SuffixLength(p, w + b) == |b|
    ensures Strip(p, a + w + b) == w
  {
    assert (a + w + b)[|a|..] == w + b;
    assert (w + b)[..|w|] == w;
  }

  /** Parentheses glued to a bare word come apart again. */
  lemma AnalyseText(c: Chunk)
    requires IsBareWord(c.word)
    ensures Analyse(Text(c)) == c
  {
    OpensOfText(c);
    ClosesOfText(c);
    StripIs(IsParen, Repeat('(', c.opens), c.word, Repeat(')', c.closes));
  }

  lemma TextIsWord(c: Chunk)
    requires IsBareWord(c.word)
    ensures IsWord(Text(c))
  {
  }

  // ---------------------------------------------------------- quantifier patterns

  /** The last piece when splitting at every single blank. */
  function LastPiece(s: string): string {
    s[|s| - SuffixLength(IsNonBlank, s)..]
  }

  function WithoutStars(s: string): string {
    if s == "" then ""
    else (if s[0] == '*' then "" else [s[0]]) + WithoutStars(s[1..])
  }
}
