/** Records and verified chains that have a double: other contents under the same hashed
    texts, which no digest can tell apart. Exactly those with a bar in the wrong place. */
module LedgerDoubles {
  import opened CanonicalJson
  import opened LedgerRecord
  import opened LedgerChain

  // ------------------------------------------------------------------ counting bars

  function Bars(s: string): nat {
    if s == "" then 0 else (if s[0] == '|' then 1 else 0) + Bars(s[1..])
  }

  lemma {:induction false} BarsConcat(a: string, b: string)
    ensures Bars(a + b) == Bars(a) + Bars(b)
  {
    if a == "" {
      assert a + b == b;
    } else {
      BarsConcat(a[1..], b);
      assert (a + b)[1..] == a[1..] + b;
    }
  }

  lemma {:induction false} NoBarIffNone(s: string)
    ensures NoBar(s) <==> Bars(s) == 0
  {
    if s != "" {
      NoBarIffNone(s[1..]);
      assert NoBar(s) <==> s[0] != '|' && NoBar(s[1..]);
    }
  }

  /** Bars of two texts with a bar between them. */
  lemma {:induction false} BarsBetween(a: string, b: string)
    ensures Bars(a + "|" + b) == Bars(a) + 1 + Bars(b)
  {
    BarsConcat(a + "|", b);
    BarsConcat(a, "|");
    assert Bars("|") == 1;
  }

  // ------------------------------------------------------------ the parts of the text

  /** The hashed text up to the bar before the payload. */
  function Lead(r: Record): string {
    Decimal(r.sequenceNumber) + "|" + EventText(r) + "|" + r.previousHash
  }

  /** Time stamp, action and actor as they stand in it. */
  function EventText(r: Record): string {
    r.timestamp + "|" + (r.action + "|" + r.actor)
  }

  lemma PreimageParts(r: Record)
    ensures Preimage(r) == Lead(r) + "|" + r.payload
    ensures Lead(r) == JoinBars(Fields(r)[..5])
  {
    JoinedParts(Decimal(r.sequenceNumber), r.timestamp, r.action, r.actor, r.previousHash);
    JoinedMore(Fields(r)[..5], r.payload);
    assert Fields(r)[..5] == [Decimal(r.sequenceNumber), r.timestamp, r.action, r.actor, r.previousHash];
    assert Fields(r) == Fields(r)[..5] + [r.payload];
  }

  lemma JoinedParts(n: string, t: string, action: string, actor: string, link: string)
    ensures JoinBars([n, t, action, actor, link]) == n + "|" + (t + "|" + (action + "|" + actor)) + "|" + link
  {
    JoinCons(actor, [link]);
    JoinCons(action, [actor, link]);
    JoinCons(t, [action, actor, link]);
    JoinCons(n, [t, action, actor, link]);
    assert [actor] + [link] == [actor, link] && [action] + [actor, link] == [action, actor, link];
    assert [t] + [action, actor, link] == [t, action, actor, link];
    assert [n] + [t, action, actor, link] == [n, t, action, actor, link];
    assert (t + "|" + (action + "|" + actor)) + "|" + link == t + "|" + (action + "|" + (actor + "|" + link));
  }

  lemma {:induction false} JoinedMore(fields: seq<string>, last: string)
    requires fields != []
    ensures JoinBars(fields + [last]) == JoinBars(fields) + "|" + last
  {
    if |fields| == 1 {
      JoinCons(fields[0], [last]);
      assert fields == [fields[0]];
    } else {
      JoinedMore(fields[1..], last);
      JoinCons(fields[0], fields[1..] + [last]);
      assert fields + [last] == [fields[0]] + (fields[1..] + [last]);
    }
  }

  lemma EventBars(r: Record)
    ensures Bars(EventText(r)) >= 2 && (BarFreeEvent(r) <==> Bars(EventText(r)) == 2)
  {
    BarsBetween(r.timestamp, r.action + "|" + r.actor);
    BarsBetween(r.action, r.actor);
    NoBarIffNone(r.timestamp);
    NoBarIffNone(r.action);
    NoBarIffNone(r.actor);
  }

  lemma LeadBars(r: Record)
    ensures Bars(Lead(r)) == 2 + Bars(EventText(r)) + Bars(r.previousHash)
  {
    ReadDecimalInverts(r.sequenceNumber);
    NoBarIffNone(Decimal(r.sequenceNumber));
    BarsBetween(Decimal(r.sequenceNumber) + "|" + EventText(r), r.previousHash);
    BarsBetween(Decimal(r.sequenceNumber), EventText(r));
  }

  /** Without bars in the event, the lead gives back its five parts. */
  lemma LeadFixesParts(r: Record, d: Record)
    requires BarFreeEvent(r) && BarFreeEvent(d) && Lead(d) == Lead(r)
    ensures d.timestamp == r.timestamp && d.action == r.action && d.actor == r.actor
    ensures d.previousHash == r.previousHash
  {
    LeadCuts(r);
    LeadCuts(d);
    var f, g := Fields(r)[..5], Fields(d)[..5];
    assert f[1] == g[1] && f[2] == g[2] && f[3] == g[3] && f[4] == g[4];
  }

  lemma LeadCuts(r: Record)
    requires BarFreeEvent(r)
    ensures CutBars(Lead(r), 4) == Fields(r)[..5]
  {
    ReadDecimalInverts(r.sequenceNumber);
    PreimageParts(r);
    CutJoined(Fields(r)[..5]);
  }

  // -------------------------------------------------------------- doubles of a record

  /** `d` differs from `r`, and neither the hashed text nor the hash shows it. */
  predicate Doubles(r: Record, d: Record) {
    d != r && Preimage(d) == Preimage(r) && d.recordHash == r.recordHash
  }

  /** Where one text is cut in two ways at a bar, the later cut has the earlier one before it. */
  lemma LaterCut(lead: string, tail: string, shorter: string, longerTail: string)
    requires lead + "|" + tail == shorter + "|" + longerTail && |shorter| < |lead|
    ensures var u := lead[|shorter| + 1..];
            lead == shorter + "|" + u && longerTail == u + "|" + tail
  {
    var text, n := lead + "|" + tail, |shorter|;
    assert text[..n] == shorter == lead[..n];
    assert text[n] == '|' == lead[n];
    assert text[n + 1..] == longerTail == lead[n + 1..] + "|" + tail;
  }

  /** Records of one text have their payloads at the same place in it: neither payload is
      what follows a bar in the other. */
  lemma SameLead(r: Record, d: Record)
    requires Preimage(d) == Preimage(r)
    ensures Lead(d) == Lead(r) && d.payload == r.payload
  {
    PreimageParts(r);
    PreimageParts(d);
    if |Lead(d)| < |Lead(r)| {
      LaterCut(Lead(r), r.payload, Lead(d), d.payload);
      NoTextBehindBar(Lead(r)[|Lead(d)| + 1..], r.payload);
      assert false;
    } else if |Lead(d)| > |Lead(r)| {
      LaterCut(Lead(d), d.payload, Lead(r), r.payload);
      NoTextBehindBar(Lead(d)[|Lead(r)| + 1..], d.payload);
      assert false;
    } else {
      SameLengthCut(Lead(d), d.payload, Lead(r), r.payload);
    }
  }

  lemma SameLengthCut(a: string, x: string, b: string, y: string)
    requires a + "|" + x == b + "|" + y && |a| == |b|
    ensures a == b && x == y
  {
    assert (a + "|" + x)[..|a|] == a && (b + "|" + y)[..|a|] == b;
    assert (a + "|" + x)[|a| + 1..] == x && (b + "|" + y)[|a| + 1..] == y;
  }

  lemma BarBetween(u: string, v: string)
    ensures !NoBar(u + "|" + v)
  {
    assert (u + "|" + v)[|u|] == '|';
  }

  lemma LastCut(a: string, x: string, b: string, y: string)
    requires a + "|" + x == b + "|" + y && NoBar(x) && NoBar(y)
    ensures a == b && x == y
  {
    if |a| < |b| {
      LaterCut(b, y, a, x);
      BarBetween(b[|a| + 1..], y);
      assert false;
    } else if |b| < |a| {
      LaterCut(a, x, b, y);
      BarBetween(a[|b| + 1..], x);
      assert false;
    } else {
      SameLengthCut(a, x, b, y);
    }
  }

  /** Where no link holds a bar, the text fixes everything but where the event is cut into
      time stamp, action and actor. */
  lemma SameTextSameParts(r: Record, d: Record)
    requires NoBar(r.previousHash) && NoBar(d.previousHash)
    ensures Preimage(d) == Preimage(r)
            <==> d.sequenceNumber == r.sequenceNumber && d.previousHash == r.previousHash
                 && EventText(d) == EventText(r) && d.payload == r.payload
  {
    PreimageParts(r);
    PreimageParts(d);
    if Preimage(d) == Preimage(r) {
      SameLead(r, d);
      PreimageFixesSequence(d, r);
      var n := Decimal(r.sequenceNumber) + "|";
      LastCut(n + EventText(d), d.previousHash, n + EventText(r), r.previousHash);
      assert (n + EventText(d))[|n|..] == EventText(d) && (n + EventText(r))[|n|..] == EventText(r);
    }
  }

  /** A record with a bar-free event is fixed by its text, up to bars in the link. */
  lemma SameTextSameRecord(r: Record, d: Record)
    requires BarFreeEvent(r) && Preimage(d) == Preimage(r)
    requires Bars(r.previousHash) <= Bars(d.previousHash)
    ensures d == r.(recordHash := d.recordHash)
  {
    SameLead(r, d);
    EventBars(r);
    EventBars(d);
    LeadBars(r);
    LeadBars(d);
    LeadFixesParts(r, d);
    PreimageFixesSequence(d, r);
  }

  lemma CutAtBar(s: string) returns (x: string, y: string)
    requires !NoBar(s)
    ensures s == x + "|" + y && |x| < |s|
  {
    var i :| 0 <= i < |s| && s[i] == '|';
    x, y := s[..i], s[i + 1..];
  }

  /** A bar in time stamp, action or actor can move to the neighbouring field. */
  lemma MovedBar(r: Record) returns (d: Record)
    requires !BarFreeEvent(r)
    ensures EventText(d) == EventText(r) && d != r
    ensures d == r.(timestamp := d.timestamp, action := d.action, actor := d.actor)
  {
    if !NoBar(r.timestamp) {
      var x, y := CutAtBar(r.timestamp);
      d := r.(timestamp := x, action := y + "|" + r.action);
      assert (x + "|" + y) + "|" + (r.action + "|" + r.actor) == x + "|" + ((y + "|" + r.action) + "|" + r.actor);
    } else if !NoBar(r.action) {
      var x, y := CutAtBar(r.action);
      d := r.(action := x, actor := y + "|" + r.actor);
      assert (x + "|" + y) + "|" + r.actor == x + "|" + (y + "|" + r.actor);
    } else {
      var x, y := CutAtBar(r.actor);
      d := r.(action := r.action + "|" + x, actor := y);
      assert r.action + "|" + (x + "|" + y) == (r.action + "|" + x) + "|" + y;
    }
  }

  /** One in the link can move to the actor. */
  lemma MovedLinkBar(r: Record) returns (d: Record)
    requires !NoBar(r.previousHash)
    ensures Lead(d) == Lead(r) && d != r
    ensures d == r.(actor := d.actor, previousHash := d.previousHash)
  {
    var x, y := CutAtBar(r.previousHash);
    d := r.(actor := r.actor + "|" + x, previousHash := y);
    assert EventText(d) == EventText(r) + "|" + x;
  }

  /** A record has a double that keeps its link exactly when time stamp, action or actor
      hold a bar, and then one that keeps its payload too. */
  lemma DoubleWithLinkIff(r: Record)
    ensures (exists d :: Doubles(r, d) && d.previousHash == r.previousHash) <==> !BarFreeEvent(r)
    ensures (exists d :: Doubles(r, d) && d.previousHash == r.previousHash && d.payload == r.payload)
            <==> !BarFreeEvent(r)
  {
    if !BarFreeEvent(r) {
      var d := MovedBar(r);
      PreimageParts(r);
      PreimageParts(d);
      assert Doubles(r, d) && d.previousHash == r.previousHash && d.payload == r.payload;
    }
    forall d | Doubles(r, d) && d.previousHash == r.previousHash && BarFreeEvent(r)
      ensures false
    {
      SameTextSameRecord(r, d);
    }
  }

  /** It has a double at all exactly when one of these or the link holds a bar. */
  lemma DoubleIff(r: Record)
    ensures (exists d :: Doubles(r, d)) <==> !BarFree(r)
  {
    DoubleWithLinkIff(r);
    NoBarIffNone(r.previousHash);
    if !NoBar(r.previousHash) {
      var d := MovedLinkBar(r);
      PreimageParts(r);
      PreimageParts(d);
      assert Doubles(r, d);
    }
    forall d | Doubles(r, d) && BarFree(r)
      ensures false
    {
      SameTextSameRecord(r, d);
    }
  }

  // --------------------------------------------------------------- doubles of a chain

  /** The same hashed texts, one by one. */
  predicate OneText(a: seq<Record>, b: seq<Record>) {
    |b| == |a| && forall i :: 0 <= i < |a| ==> Preimage(b[i]) == Preimage(a[i])
  }

  /** Another verified list with the same hashed texts. */
  predicate ChainDoubles(h: HashFn, a: seq<Record>, b: seq<Record>) {
    ValidChain(h, b) && b != a && OneText(a, b)
  }

  predicate SamePayloads(a: seq<Record>, b: seq<Record>)
    requires |a| == |b|
  {
    forall i :: 0 <= i < |a| ==> b[i].payload == a[i].payload
  }

  lemma SameHash(h: HashFn, a: seq<Record>, b: seq<Record>, k: nat)
    requires ValidChain(h, a) && ValidChain(h, b) && OneText(a, b) && k < |a|
    ensures b[k].recordHash == a[k].recordHash
  {
    LinkAndHash(h, a, k);
    LinkAndHash(h, b, k);
  }

  lemma HeadOfPrefix(rs: seq<Record>, k: nat)
    requires k <= |rs|
    ensures Head(rs[..k]) == if k == 0 then GENESIS_HASH else rs[k - 1].recordHash
  {
  }

  lemma SameHeadAt(h: HashFn, a: seq<Record>, b: seq<Record>, k: nat)
    requires ValidChain(h, a) && ValidChain(h, b) && OneText(a, b) && k <= |a|
    ensures Head(b[..k]) == Head(a[..k])
  {
    HeadOfPrefix(a, k);
    HeadOfPrefix(b, k);
    if k > 0 {
      SameHash(h, a, b, k - 1);
    }
  }

  lemma SameLink(h: HashFn, a: seq<Record>, b: seq<Record>, k: nat)
    requires ValidChain(h, a) && ValidChain(h, b) && OneText(a, b) && k < |a|
    ensures b[k].previousHash == a[k].previousHash
  {
    LinkAndHash(h, a, k);
    LinkAndHash(h, b, k);
    SameHeadAt(h, a, b, k);
  }

  lemma SameHead(h: HashFn, a: seq<Record>, b: seq<Record>)
    requires ValidChain(h, a) && ValidChain(h, b) && OneText(a, b)
    ensures Head(b) == Head(a)
  {
    if a != [] {
      SameHash(h, a, b, |a| - 1);
    }
  }

  /** Such a list ends in the same head hash, and somewhere holds a double. */
  lemma DoubledSomewhere(h: HashFn, a: seq<Record>, b: seq<Record>) returns (i: nat)
    requires ValidChain(h, a) && ChainDoubles(h, a, b)
    ensures i < |a| && Doubles(a[i], b[i]) && b[i].previousHash == a[i].previousHash
    ensures Head(b) == Head(a)
  {
    i :| 0 <= i < |a| && a[i] != b[i];
    SameHash(h, a, b, i);
    SameLink(h, a, b, i);
    SameHead(h, a, b);
  }

  /** A double of one record makes a double of the whole chain. */
  lemma DoubleInChain(h: HashFn, a: seq<Record>, i: nat, d: Record)
    requires ValidChain(h, a) && i < |a| && Doubles(a[i], d) && d.previousHash == a[i].previousHash
    ensures ChainDoubles(h, a, a[i := d])
  {
    LinkAndHash(h, a, i);
    PreimageFixesSequence(d, a[i]);
    ReplacementBreaksAt(h, a, i, d);
    ValidIffNoBreak(h, a[i := d]);
    assert a[i := d][i] == d;
  }

  /** The double of a chain with a bar: it verifies and ends in the same head hash. */
  lemma BarsDefeatTheHead(h: HashFn, a: seq<Record>) returns (b: seq<Record>)
    requires ValidChain(h, a) && !BarFreeEvents(a)
    ensures ChainDoubles(h, a, b) && SamePayloads(a, b) && Head(b) == Head(a)
  {
    var i :| 0 <= i < |a| && !BarFreeEvent(a[i]);
    DoubleWithLinkIff(a[i]);
    var d :| Doubles(a[i], d) && d.previousHash == a[i].previousHash && d.payload == a[i].payload;
    b := a[i := d];
    DoubleInChain(h, a, i, d);
    var j := DoubledSomewhere(h, a, b);
  }

  /** A verified chain has a double exactly when some time stamp, action or actor in it
      holds a bar, and then one with the same payloads. */
  lemma ChainDoubleIff(h: HashFn, a: seq<Record>)
    requires ValidChain(h, a)
    ensures (exists b :: ChainDoubles(h, a, b)) <==> !BarFreeEvents(a)
    ensures (exists b :: ChainDoubles(h, a, b) && SamePayloads(a, b)) <==> !BarFreeEvents(a)
    ensures forall b :: ChainDoubles(h, a, b) ==> Head(b) == Head(a)
  {
    forall b | ChainDoubles(h, a, b)
      ensures Head(b) == Head(a) && !BarFreeEvents(a)
    {
      var i := DoubledSomewhere(h, a, b);
      DoubleWithLinkIff(a[i]);
    }
    if !BarFreeEvents(a) {
      var b := BarsDefeatTheHead(h, a);
    }
  }

  /** For every digest there are such chains: a flow ingested by an actor is one event,
      and a flow by an ingesting actor another, under one hash. */
  lemma BarredChainExists(h: HashFn) returns (a: seq<Record>, b: seq<Record>)
    ensures ValidChain(h, a) && a != [] && a[0].action == "FLOW|INGESTED"
    ensures ChainDoubles(h, a, b) && Head(b) == Head(a)
  {
    var r := Record(1, "t", "FLOW|INGESTED", "api", GENESIS_HASH, "{}", "");
    a := [r.(recordHash := h(Preimage(r)))];
    assert Fields(a[0]) == Fields(r) && a[..0] == [];
    assert r.action[4] == '|' && !BarFreeEvent(a[0]);
    b := BarsDefeatTheHead(h, a);
  }
}
