/** The canonical text of a payload fixes the payload: what is written can be read back
    in one way only, also inside longer texts. */
module CanonicalValues {
  import opened CanonicalJson

  // ---------------------------------------------------------------------- escapes

  lemma HexDecodes(m: nat, n: nat)
    requires m < 16 && n < 16 && HexDigit(m) == HexDigit(n)
    ensures m == n
  {
    var digits := "0123456789abcdef";
    assert forall i, j :: 0 <= i < j < 16 ==> digits[i] != digits[j];
  }

  lemma InDigits(n: nat)
    requires n < 0x1_0000
    ensures n == 4096 * (n / 4096) + 256 * (n / 256 % 16) + 16 * (n / 16 % 16) + n % 16
  {
    assert n / 256 == 16 * (n / 256 / 16) + n / 256 % 16 && n / 256 / 16 == n / 4096;
    assert n / 16 == 16 * (n / 16 / 16) + n / 16 % 16 && n / 16 / 16 == n / 256;
  }

  lemma UnicodeDecodes(m: nat, n: nat, s: string, t: string)
    requires m < 0x1_0000 && n < 0x1_0000 && Unicode(m) + s == Unicode(n) + t
    ensures m == n && s == t
  {
    var u, v := Unicode(m) + s, Unicode(n) + t;
    assert u[2] == v[2] && u[3] == v[3] && u[4] == v[4] && u[5] == v[5];
    HexDecodes(m / 4096, n / 4096);
    HexDecodes(m / 256 % 16, n / 256 % 16);
    HexDecodes(m / 16 % 16, n / 16 % 16);
    HexDecodes(m % 16, n % 16);
    InDigits(m);
    InDigits(n);
    assert u[6..] == s && v[6..] == t;
  }

  /** The two halves of a character beyond the basic plane. */
  function High(c: char): nat
    requires c as int >= 0x1_0000
  {
    0xD800 + (c as int - 0x1_0000) / 0x400
  }

  function Low(c: char): nat
    requires c as int >= 0x1_0000
  {
    0xDC00 + (c as int - 0x1_0000) % 0x400
  }

  /** The kinds of escapes: the character itself, a letter behind a backslash, or `\u`. */
  datatype Kind = Itself | Short(letter: char) | Long | Pair

  function KindOf(c: char): (k: Kind)
    ensures k.Short? ==> k.letter != 'u'
  {
    if c == '"' || c == '\\' then Short(c)
    else if c == '\n' then Short('n')
    else if c == '\r' then Short('r')
    else if c == '\t' then Short('t')
    else if c as int == 8 then Short('b')
    else if c as int == 12 then Short('f')
    else if ' ' <= c <= '~' then Itself
    else if c as int < 0x1_0000 then Long
    else Pair
  }

  lemma EscapeOf(c: char)
    ensures EscapeChar(c) ==
            match KindOf(c)
            case Itself => [c]
            case Short(letter) => ['\\', letter]
            case Long => Unicode(c as int)
            case Pair => Unicode(High(c)) + Unicode(Low(c))
    ensures KindOf(c).Itself? ==> c != '\\' && c != '"'
    ensures KindOf(c).Pair? ==> 0xD800 <= High(c) < 0xDC00
    ensures KindOf(c).Long? ==> c as int < 0xD800 || 0xDFFF < c as int
  {
  }

  lemma ShortDecodes(c: char, d: char)
    requires KindOf(c).Short? && KindOf(c) == KindOf(d)
    ensures c == d
  {
  }

  lemma PairDecodes(c: char, d: char)
    requires c as int >= 0x1_0000 && d as int >= 0x1_0000 && High(c) == High(d) && Low(c) == Low(d)
    ensures c == d
  {
    var m, n := c as int - 0x1_0000, d as int - 0x1_0000;
    assert m == 0x400 * (m / 0x400) + m % 0x400 && n == 0x400 * (n / 0x400) + n % 0x400;
  }

  /** What an escape looks like from its first two characters on. */
  lemma EscapeBegins(c: char, s: string)
    ensures var u := EscapeChar(c) + s;
            && u != "" && u[0] != '"'
            && (KindOf(c).Itself? <==> u[0] != '\\') && (KindOf(c).Itself? ==> u[0] == c && u[1..] == s)
            && (!KindOf(c).Itself? ==> |u| >= 2)
            && (KindOf(c).Short? <==> u[0] == '\\' && u[1] != 'u')
            && (KindOf(c).Short? ==> u[1] == KindOf(c).letter && u[2..] == s)
  {
    EscapeOf(c);
  }

  /** A long escape read as its first half and what follows. */
  lemma LongText(c: char, s: string) returns (half: nat, rest: string)
    requires KindOf(c).Long? || KindOf(c).Pair?
    ensures half < 0x1_0000 && EscapeChar(c) + s == Unicode(half) + rest
    ensures KindOf(c).Pair? <==> 0xD800 <= half < 0xDC00
    ensures if KindOf(c).Long? then half == c as int && rest == s
            else half == High(c) && rest == Unicode(Low(c)) + s
  {
    EscapeOf(c);
    if KindOf(c).Long? {
      half, rest := c as int, s;
    } else {
      half, rest := High(c), Unicode(Low(c)) + s;
    }
  }

  lemma LongDecodes(c: char, d: char, s: string, t: string)
    requires EscapeChar(c) + s == EscapeChar(d) + t
    requires (KindOf(c).Long? || KindOf(c).Pair?) && (KindOf(d).Long? || KindOf(d).Pair?)
    ensures c == d && s == t
  {
    var m, u := LongText(c, s);
    var n, v := LongText(d, t);
    UnicodeDecodes(m, n, u, v);
    if KindOf(c).Pair? {
      UnicodeDecodes(Low(c), Low(d), s, t);
      PairDecodes(c, d);
    }
  }

  /** No escape begins another. */
  lemma EscapeDecodes(c: char, d: char, s: string, t: string)
    requires EscapeChar(c) + s == EscapeChar(d) + t
    ensures c == d && s == t
  {
    EscapeBegins(c, s);
    EscapeBegins(d, t);
    if KindOf(c).Short? {
      ShortDecodes(c, d);
    } else if !KindOf(c).Itself? {
      LongDecodes(c, d, s, t);
    }
  }

  lemma {:induction false} EscapedText(a: string, s: string)
    ensures if a == "" then EscapeAll(a) + s == s
            else EscapeAll(a) + s == EscapeChar(a[0]) + (EscapeAll(a[1..]) + s)
    ensures a != "" ==> EscapeAll(a) + s != "" && (EscapeAll(a) + s)[0] != '"'
  {
    if a != "" {
      var first, others := EscapeChar(a[0]), EscapeAll(a[1..]);
      EscapeBegins(a[0], others + s);
      assert EscapeAll(a) == first + others;
      Regrouped(first, others, s);
    }
  }

  lemma Regrouped(u: string, v: string, s: string)
    ensures (u + v) + s == u + (v + s)
  {
  }

  lemma {:induction false} EscapedDecodes(a: string, b: string, s: string, t: string)
    requires s != "" && s[0] == '"' && t != "" && t[0] == '"' && EscapeAll(a) + s == EscapeAll(b) + t
    ensures a == b && s == t
    decreases |a|
  {
    EscapedText(a, s);
    EscapedText(b, t);
    if a != "" && b != "" {
      EscapeDecodes(a[0], b[0], EscapeAll(a[1..]) + s, EscapeAll(b[1..]) + t);
      EscapedDecodes(a[1..], b[1..], s, t);
    }
  }

  lemma QuotedDecodes(a: string, b: string, s: string, t: string)
    requires Quoted(a) + s == Quoted(b) + t
    ensures a == b && s == t
  {
    var u, v := EscapeAll(a) + ("\"" + s), EscapeAll(b) + ("\"" + t);
    assert Quoted(a) + s == "\"" + u && Quoted(b) + t == "\"" + v;
    assert ("\"" + u)[1..] == u && ("\"" + v)[1..] == v;
    EscapedDecodes(a, b, "\"" + s, "\"" + t);
    assert ("\"" + s)[1..] == s && ("\"" + t)[1..] == t;
  }

  // ----------------------------------------------------------------------- values

  /** What may follow a value. */
  predicate Ends(s: string) {
    s == "" || s[0] in ",]}"
  }

  lemma LiteralDecodes(a: string, b: string, s: string, t: string)
    requires IsLiteral(a) && IsLiteral(b) && Ends(s) && Ends(t) && a + s == b + t
    ensures a == b && s == t
    decreases |a|
  {
    if a != "" && b != "" {
      assert (a + s)[0] == a[0] && (b + t)[0] == b[0];
      assert (a + s)[1..] == a[1..] + s && (b + t)[1..] == b[1..] + t;
      LiteralDecodes(a[1..], b[1..], s, t);
    } else {
      assert a == "" ==> s == b + t;
      assert b == "" ==> t == a + s;
    }
  }

  /** The first character tells the kind of a value. */
  lemma {:induction false} FirstTells(j: Json, s: string)
    ensures var u := Write(j) + s;
            && u != "" && u[0] !in ",]}"
            && (j.Text? <==> u[0] == '"') && (j.Items? <==> u[0] == '[') && (j.Object? <==> u[0] == '{')
  {
  }

  /** Behind the opening bracket. */
  lemma Unbracketed(open: char, a: string, close: char, s: string)
    ensures ([open] + a + [close] + s)[1..] == a + ([close] + s)
  {
  }

  /** A value read from a text is the only one that the text begins with. */
  lemma {:induction false} WriteDecodes(a: Json, b: Json, s: string, t: string)
    requires Ends(s) && Ends(t) && Write(a) + s == Write(b) + t
    ensures a == b && s == t
    decreases a, 0
  {
    FirstTells(a, s);
    FirstTells(b, t);
    match a {
      case Bare(literal) =>
        LiteralDecodes(literal, b.literal, s, t);
      case Text(text) =>
        QuotedDecodes(text, b.text, s, t);
      case Items(items) =>
        Unbracketed('[', WriteItems(items), ']', s);
        Unbracketed('[', WriteItems(b.items), ']', t);
        ItemsDecode(items, b.items, s, t);
      case Object(members) =>
        Unbracketed('{', WriteMembers(members), '}', s);
        Unbracketed('{', WriteMembers(b.members), '}', t);
        MembersDecode(members, b.members, s, t);
    }
  }

  /** What follows the first of several values. */
  function Rest(more: bool, others: string, close: char, s: string): string {
    if more then "," + (others + ([close] + s)) else [close] + s
  }

  lemma RestDecodes(more: bool, others: string, more': bool, others': string, close: char, s: string, t: string)
    requires close != ',' && Rest(more, others, close, s) == Rest(more', others', close, t)
    ensures more == more'
    ensures if more then others + ([close] + s) == others' + ([close] + t) else s == t
  {
    var u, v := Rest(more, others, close, s), Rest(more', others', close, t);
    assert u[0] == v[0] && u[1..] == v[1..];
    assert u[1..] == if more then others + ([close] + s) else s;
    assert v[1..] == if more' then others' + ([close] + t) else t;
  }

  lemma {:induction false} ItemsText(items: seq<Json>, s: string)
    ensures var u := WriteItems(items) + ([']'] + s);
            && (items == [] <==> u[0] == ']') && (items == [] ==> u[1..] == s)
            && (items != [] ==> u == Write(items[0]) + Rest(|items| > 1, WriteItems(items[1..]), ']', s))
  {
    if items != [] {
      FirstTells(items[0], Rest(|items| > 1, WriteItems(items[1..]), ']', s));
    }
  }

  lemma {:induction false} ItemsDecode(xs: seq<Json>, ys: seq<Json>, s: string, t: string)
    requires WriteItems(xs) + ([']'] + s) == WriteItems(ys) + ([']'] + t)
    ensures xs == ys && s == t
    decreases xs, 1
  {
    ItemsText(xs, s);
    ItemsText(ys, t);
    if xs != [] {
      var u := Rest(|xs| > 1, WriteItems(xs[1..]), ']', s);
      var v := Rest(|ys| > 1, WriteItems(ys[1..]), ']', t);
      WriteDecodes(xs[0], ys[0], u, v);
      RestDecodes(|xs| > 1, WriteItems(xs[1..]), |ys| > 1, WriteItems(ys[1..]), ']', s, t);
      if |xs| > 1 {
        ItemsDecode(xs[1..], ys[1..], s, t);
      }
      assert xs == [xs[0]] + xs[1..] && ys == [ys[0]] + ys[1..];
    }
  }

  lemma {:induction false} MembersText(members: seq<Member>, s: string)
    ensures var u := WriteMembers(members) + (['}'] + s);
            && (members == [] <==> u[0] == '}') && (members == [] ==> u[1..] == s)
            && (members != [] ==>
                  u == Quoted(members[0].key)
                       + (":" + (Write(members[0].value) + Rest(|members| > 1, WriteMembers(members[1..]), '}', s))))
  {
    if members != [] {
      var key, value := Quoted(members[0].key), Write(members[0].value);
      var others := if |members| > 1 then "," + WriteMembers(members[1..]) else "";
      assert WriteMembers(members) == key + ":" + value + others;
      assert others + (['}'] + s) == Rest(|members| > 1, WriteMembers(members[1..]), '}', s);
      MemberFirst(key, value, others, ['}'] + s);
    }
  }

  lemma MemberFirst(key: string, value: string, others: string, s: string)
    ensures key + ":" + value + others + s == key + (":" + (value + (others + s)))
  {
  }

  lemma {:induction false} MembersDecode(xs: seq<Member>, ys: seq<Member>, s: string, t: string)
    requires WriteMembers(xs) + (['}'] + s) == WriteMembers(ys) + (['}'] + t)
    ensures xs == ys && s == t
    decreases xs, 1
  {
    MembersText(xs, s);
    MembersText(ys, t);
    if xs != [] {
      var u := Rest(|xs| > 1, WriteMembers(xs[1..]), '}', s);
      var v := Rest(|ys| > 1, WriteMembers(ys[1..]), '}', t);
      QuotedDecodes(xs[0].key, ys[0].key, ":" + (Write(xs[0].value) + u), ":" + (Write(ys[0].value) + v));
      assert (":" + (Write(xs[0].value) + u))[1..] == Write(xs[0].value) + u;
      assert (":" + (Write(ys[0].value) + v))[1..] == Write(ys[0].value) + v;
      WriteDecodes(xs[0].value, ys[0].value, u, v);
      RestDecodes(|xs| > 1, WriteMembers(xs[1..]), |ys| > 1, WriteMembers(ys[1..]), '}', s, t);
      if |xs| > 1 {
        MembersDecode(xs[1..], ys[1..], s, t);
      }
      assert xs == [xs[0]] + xs[1..] && ys == [ys[0]] + ys[1..];
    }
  }

  /** Different payloads have different canonical texts. */
  lemma {:induction false} WriteInjective(a: Json, b: Json)
    requires Write(a) == Write(b)
    ensures a == b
  {
    assert Write(a) + "" == Write(a) && Write(b) + "" == Write(b);
    WriteDecodes(a, b, "", "");
  }
}
