/** What is used of the JSON texts that are hashed: string literals are closed, and bars
    and backslashes stand nowhere but in them (RFC 8259, section 7). */
module CanonicalJson {

  /** Where a reader of JSON stands: outside the string literals, in one, behind a
      backslash in one, or nowhere because the text was not JSON. */
  datatype Mode = Outside | Inside | Escaped | Broken

  function Step(m: Mode, c: char): Mode {
    match m
    case Outside => if c == '"' then Inside else if c == '|' || c == '\\' then Broken else Outside
    case Inside => if c == '"' then Outside else if c == '\\' then Escaped else Inside
    case Escaped => if c == '|' then Broken else Inside
    case Broken => Broken
  }

  function Run(m: Mode, s: string): Mode
    decreases |s|
  {
    if s == "" then m else Run(Step(m, s[0]), s[1..])
  }

  type JsonText = s: string | Run(Outside, s) == Outside witness ""

  lemma {:induction false} RunConcat(m: Mode, a: string, b: string)
    ensures Run(m, a + b) == Run(Run(m, a), b)
    decreases |a|
  {
    if a == "" {
      assert a + b == b;
    } else {
      RunConcat(Step(m, a[0]), a[1..], b);
      assert (a + b)[1..] == a[1..] + b;
    }
  }

  lemma {:induction false} StaysBroken(s: string)
    ensures Run(Broken, s) == Broken
  {
    if s != "" {
      StaysBroken(s[1..]);
    }
  }

  /** No text closes its literals both when it starts outside one and when it starts in one. */
  lemma {:induction false} OneStart(s: string)
    ensures !(Run(Outside, s) == Outside && Run(Inside, s) == Outside)
  {
    if s != "" {
      OneStart(s[1..]);
      StaysBroken(s[1..]);
    }
  }

  /** What follows a bar in a JSON text is not a JSON text. */
  lemma {:induction false} NoTextBehindBar(u: string, v: string)
    requires Run(Outside, u + "|" + v) == Outside
    ensures Run(Outside, v) != Outside
  {
    var m := Run(Outside, u);
    RunConcat(Outside, u + "|", v);
    RunConcat(Outside, u, "|");
    assert Run(m, "|") == Step(m, '|');
    StaysBroken(v);
    OneStart(v);
  }

  // ------------------------------------------------------------------ the writer

  /** No quote, bar or backslash, and nothing that separates or encloses values. */
  predicate IsLiteral(s: string) {
    forall i :: 0 <= i < |s| ==> s[i] !in "\"|\\,:[]{}"
  }

  /** Numbers, truth values and null. */
  type Literal = s: string | s != "" && IsLiteral(s) witness "0"

  /** Objects list their members in the order of the sorted keys. */
  datatype Json =
    | Bare(literal: Literal)
    | Text(text: string)
    | Items(items: seq<Json>)
    | Object(members: seq<Member>)

  datatype Member = Member(key: string, value: Json)

  function HexDigit(n: nat): (c: char)
    requires n < 16
    ensures c != '"' && c != '\\'
  {
    "0123456789abcdef"[n]
  }

  function Unicode(n: nat): string
    requires n < 0x1_0000
  {
    ['\\', 'u', HexDigit(n / 4096), HexDigit(n / 256 % 16), HexDigit(n / 16 % 16), HexDigit(n % 16)]
  }

  /** A character of a string: printable ASCII as it is, all else as an escape. */
  function EscapeChar(c: char): string {
    if c == '"' || c == '\\' then ['\\', c]
    else if c == '\n' then "\\n"
    else if c == '\r' then "\\r"
    else if c == '\t' then "\\t"
    else if c as int == 8 then "\\b"
    else if c as int == 12 then "\\f"
    else if ' ' <= c <= '~' then [c]
    else if c as int < 0x1_0000 then Unicode(c as int)
    else
      var n := c as int - 0x1_0000;
      Unicode(0xD800 + n / 0x400) + Unicode(0xDC00 + n % 0x400)
  }

  function EscapeAll(s: string): string {
    if s == "" then "" else EscapeChar(s[0]) + EscapeAll(s[1..])
  }

  function Quoted(s: string): string {
    "\"" + EscapeAll(s) + "\""
  }

  /** Canonical text: no white space around the separators. */
  function Write(j: Json): string
    decreases j, 0
  {
    match j
    case Bare(literal) => literal
    case Text(text) => Quoted(text)
    case Items(items) => "[" + WriteItems(items) + "]"
    case Object(members) => "{" + WriteMembers(members) + "}"
  }

  function WriteItems(items: seq<Json>): string
    decreases items, 1
  {
    if items == [] then ""
    else if |items| == 1 then Write(items[0])
    else Write(items[0]) + "," + WriteItems(items[1..])
  }

  function WriteMembers(members: seq<Member>): string
    decreases members, 1
  {
    if members == [] then ""
    else
      var first := Quoted(members[0].key) + ":" + Write(members[0].value);
      if |members| == 1 then first else first + "," + WriteMembers(members[1..])
  }

  lemma {:induction false} LiteralRuns(s: string)
    requires IsLiteral(s)
    ensures Run(Outside, s) == Outside
  {
    if s != "" {
      LiteralRuns(s[1..]);
    }
  }

  lemma ShortEscapeRuns(c: char)
    requires c != '|'
    ensures Run(Inside, ['\\', c]) == Inside
  {
    assert ['\\', c][1..] == [c] && [c][1..] == "";
    assert Run(Escaped, [c]) == Inside;
  }

  lemma {:induction false} PlainRuns(s: string)
    requires forall i :: 0 <= i < |s| ==> s[i] != '"' && s[i] != '\\'
    ensures Run(Inside, s) == Inside
  {
    if s != "" {
      PlainRuns(s[1..]);
    }
  }

  lemma UnicodeRuns(n: nat)
    requires n < 0x1_0000
    ensures Run(Inside, Unicode(n)) == Inside
  {
    var hex := Unicode(n)[2..];
    assert Unicode(n) == ['\\', 'u'] + hex;
    ShortEscapeRuns('u');
    RunConcat(Inside, ['\\', 'u'], hex);
    PlainRuns(hex);
  }

  lemma EscapeRuns(c: char)
    ensures Run(Inside, EscapeChar(c)) == Inside
  {
    if c as int >= 0x1_0000 {
      var n := c as int - 0x1_0000;
      UnicodeRuns(0xD800 + n / 0x400);
      UnicodeRuns(0xDC00 + n % 0x400);
      RunConcat(Inside, Unicode(0xD800 + n / 0x400), Unicode(0xDC00 + n % 0x400));
    } else if ' ' <= c <= '~' && c != '"' && c != '\\' {
      PlainRuns([c]);
    } else if EscapeChar(c) == Unicode(c as int) {
      UnicodeRuns(c as int);
    } else {
      assert |EscapeChar(c)| == 2;
      ShortEscapeRuns(EscapeChar(c)[1]);
      assert EscapeChar(c) == ['\\', EscapeChar(c)[1]];
    }
  }

  lemma {:induction false} EscapeAllRuns(s: string)
    ensures Run(Inside, EscapeAll(s)) == Inside
  {
    if s != "" {
      EscapeRuns(s[0]);
      EscapeAllRuns(s[1..]);
      RunConcat(Inside, EscapeChar(s[0]), EscapeAll(s[1..]));
    }
  }

  lemma QuotedRuns(s: string)
    ensures Run(Outside, Quoted(s)) == Outside
  {
    EscapeAllRuns(s);
    RunConcat(Outside, "\"" + EscapeAll(s), "\"");
    RunConcat(Outside, "\"", EscapeAll(s));
  }

  lemma {:induction false} OutsideBetween(a: string, b: string, c: string)
    requires Run(Outside, a) == Outside && Run(Outside, b) == Outside && Run(Outside, c) == Outside
    ensures Run(Outside, a + b + c) == Outside
  {
    RunConcat(Outside, a + b, c);
    RunConcat(Outside, a, b);
  }

  /** Every canonical text has the properties of a `JsonText`. */
  lemma {:induction false} WriteIsJsonText(j: Json)
    ensures Run(Outside, Write(j)) == Outside
    decreases j, 0
  {
    match j {
      case Bare(literal) =>
        LiteralRuns(literal);
      case Text(text) =>
        QuotedRuns(text);
      case Items(items) =>
        ItemsRun(items);
        OutsideBetween("[", WriteItems(items), "]");
      case Object(members) =>
        MembersRun(members);
        OutsideBetween("{", WriteMembers(members), "}");
    }
  }

  lemma {:induction false} ItemsRun(items: seq<Json>)
    ensures Run(Outside, WriteItems(items)) == Outside
    decreases items, 1
  {
    if items != [] {
      WriteIsJsonText(items[0]);
      ItemsRun(items[1..]);
      OutsideBetween(Write(items[0]), ",", WriteItems(items[1..]));
    }
  }

  lemma {:induction false} MembersRun(members: seq<Member>)
    ensures Run(Outside, WriteMembers(members)) == Outside
    decreases members, 1
  {
    if members != [] {
      var Member(key, value) := members[0];
      WriteIsJsonText(value);
      QuotedRuns(key);
      OutsideBetween(Quoted(key), ":", Write(value));
      MembersRun(members[1..]);
      OutsideBetween(Quoted(key) + ":" + Write(value), ",", WriteMembers(members[1..]));
    }
  }
}
