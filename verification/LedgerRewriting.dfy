/** Histories whose records are altered and whose hashes are all recomputed: they verify,
    and only the head hash gives them away. */
module LedgerRewriting {
  import opened LedgerRecord
  import opened LedgerChain
  import opened LedgerDoubles
  import opened LedgerHead
  import opened LedgerVerifiers
  import opened LedgerProtocol
  import opened LedgerAppend
  import opened LedgerFile

  /** The chain that appends these events one by one behind a prefix. */
  function Resealed(h: HashFn, prefix: seq<Record>, es: seq<Event>): (rs: seq<Record>)
    ensures |rs| == |prefix| + |es| && prefix <= rs
  {
    if es == [] then prefix
    else
      var n := |es| - 1;
      var init := Resealed(h, prefix, es[..n]);
      init + [Draft(h, init, es[n])]
  }

  function EventOf(r: Record): Event {
    Event(r.timestamp, r.action, r.actor, r.payload)
  }

  lemma ResealedLast(h: HashFn, prefix: seq<Record>, es: seq<Event>)
      returns (init: seq<Record>, last: Record)
    requires es != []
    ensures init == Resealed(h, prefix, es[..|es| - 1]) && Resealed(h, prefix, es) == init + [last]
    ensures EventOf(last) == es[|es| - 1]
  {
    init := Resealed(h, prefix, es[..|es| - 1]);
    last := Draft(h, init, es[|es| - 1]);
  }

  ghost predicate HoldsBehind(t: seq<Record>, n: nat, es: seq<Event>) {
    |t| == n + |es| && forall j :: 0 <= j < |es| ==> EventOf(t[n + j]) == es[j]
  }

  lemma HoldsSnoc(t: seq<Record>, n: nat, es: seq<Event>, r: Record, e: Event)
    requires HoldsBehind(t, n, es) && EventOf(r) == e
    ensures HoldsBehind(t + [r], n, es + [e])
  {
  }

  lemma {:induction false} ResealedHoldsAll(h: HashFn, prefix: seq<Record>, es: seq<Event>, t: seq<Record>)
    requires t == Resealed(h, prefix, es)
    ensures HoldsBehind(t, |prefix|, es)
  {
    if es != [] {
      var init, last := ResealedLast(h, prefix, es);
      ResealedHoldsAll(h, prefix, es[..|es| - 1], init);
      HoldsSnoc(init, |prefix|, es[..|es| - 1], last, es[|es| - 1]);
      assert es == es[..|es| - 1] + [es[|es| - 1]];
    }
  }

  /** That chain holds these events, in their order. */
  lemma {:induction false} ResealedHolds(h: HashFn, prefix: seq<Record>, es: seq<Event>, j: nat)
    requires j < |es|
    ensures EventOf(Resealed(h, prefix, es)[|prefix| + j]) == es[j]
  {
    ResealedHoldsAll(h, prefix, es, Resealed(h, prefix, es));
  }

  lemma {:induction false} ResealedVerifies(h: HashFn, prefix: seq<Record>, es: seq<Event>)
    requires ValidChain(h, prefix)
    ensures ValidChain(h, Resealed(h, prefix, es))
  {
    if es != [] {
      var n := |es| - 1;
      var init := Resealed(h, prefix, es[..n]);
      ResealedVerifies(h, prefix, es[..n]);
      DraftExtends(h, init, es[n]);
      ValidChainSnoc(h, init, Draft(h, init, es[n]));
    }
  }

  /** Written to both ledgers, a valid chain passes every verifier. */
  lemma ValidIsFullyVerified(h: HashFn, rs: seq<Record>)
    requires ValidChain(h, rs)
    ensures FullyVerified(h, rs, LinesOf(rs))
  {
    ChainVerdictValidIff(h, rs);
    WrittenLinesReadBack(rs);
    VerifiersAgree(h, rs, LinesOf(rs));
    MatchingLists(rs, rs);
  }

  /** Whatever events are put in place of the records behind a prefix, the history with
      recomputed hashes keeps the prefix and passes every verifier. */
  lemma RewritingGoesUnnoticed(h: HashFn, prefix: seq<Record>, rest: seq<Record>, es: seq<Event>)
      returns (t: seq<Record>)
    requires ValidChain(h, prefix + rest)
    ensures t == Resealed(h, prefix, es) && FullyVerified(h, t, LinesOf(t))
  {
    TruncationVerifies(h, prefix + rest, |prefix|);
    assert (prefix + rest)[..|prefix|] == prefix;
    ResealedVerifies(h, prefix, es);
    t := Resealed(h, prefix, es);
    ValidIsFullyVerified(h, t);
  }

  lemma EqualLengthOtherHead(h: HashFn, a: seq<Record>, t: seq<Record>, k: nat)
      returns (x: string, y: string)
    requires IsDigest(h) && ValidChain(h, a) && ValidChain(h, t) && BarFreeEvents(a)
    requires |a| == |t| && k < |a| && EventOf(a[k]) != EventOf(t[k])
    ensures Head(t) != Head(a) || TextsCollide(h, a, x, t, y)
  {
    x, y := "", "";
    if Head(t) == Head(a) {
      x, y := HeadDeterminesChain(h, a, t);
    }
  }

  /** Of a history without bars in its events, a rewriting of the same length that changes
      some event ends in another head hash; of any history, one that changes a payload does;
      or `x` and `y` are texts of the two with one digest. */
  lemma {:induction false} RewritingChangesTheHead(h: HashFn, prefix: seq<Record>, rest: seq<Record>,
                                                   es: seq<Event>, j: nat)
      returns (x: string, y: string)
    requires IsDigest(h) && ValidChain(h, prefix + rest)
    requires |es| == |rest| && j < |es| && es[j] != EventOf(rest[j])
    requires BarFreeEvents(prefix + rest) || es[j].payload != rest[j].payload
    ensures var t := Resealed(h, prefix, es);
            Head(t) != Head(prefix + rest) || TextsCollide(h, prefix + rest, x, t, y)
  {
    var a, t := prefix + rest, Resealed(h, prefix, es);
    TruncationVerifies(h, a, |prefix|);
    assert a[..|prefix|] == prefix;
    ResealedVerifies(h, prefix, es);
    ResealedHoldsAll(h, prefix, es, t);
    x, y := ChangedOtherHead(h, prefix, rest, es, j, a, t);
  }

  lemma ChangedOtherHead(h: HashFn, prefix: seq<Record>, rest: seq<Record>, es: seq<Event>, j: nat,
                         a: seq<Record>, t: seq<Record>)
      returns (x: string, y: string)
    requires IsDigest(h) && ValidChain(h, a) && ValidChain(h, t)
    requires a == prefix + rest && |es| == |rest| && HoldsBehind(t, |prefix|, es)
    requires j < |es| && es[j] != EventOf(rest[j])
    requires BarFreeEvents(a) || es[j].payload != rest[j].payload
    ensures Head(t) != Head(a) || TextsCollide(h, a, x, t, y)
  {
    assert a[|prefix| + j] == rest[j] && EventOf(t[|prefix| + j]) == es[j];
    x, y := OtherEventOtherHead(h, a, t, |prefix| + j);
  }

  lemma OtherEventOtherHead(h: HashFn, a: seq<Record>, t: seq<Record>, k: nat)
      returns (x: string, y: string)
    requires IsDigest(h) && ValidChain(h, a) && ValidChain(h, t)
    requires |a| == |t| && k < |a| && EventOf(a[k]) != EventOf(t[k])
    requires BarFreeEvents(a) || a[k].payload != t[k].payload
    ensures Head(t) != Head(a) || TextsCollide(h, a, x, t, y)
  {
    if BarFreeEvents(a) {
      x, y := EqualLengthOtherHead(h, a, t, k);
    } else {
      x, y := OtherPayloadOtherHead(h, a, t, k);
    }
  }

  lemma OtherPayloadOtherHead(h: HashFn, a: seq<Record>, t: seq<Record>, k: nat)
      returns (x: string, y: string)
    requires IsDigest(h) && ValidChain(h, a) && ValidChain(h, t)
    requires |a| == |t| && k < |a| && a[k].payload != t[k].payload
    ensures Head(t) != Head(a) || TextsCollide(h, a, x, t, y)
  {
    x, y := "", "";
    if Head(t) == Head(a) {
      x, y := SharedHeadIsOneText(h, a, t);
      if OneText(a, t) {
        SameLead(a[k], t[k]);
        assert false;
      }
    }
  }

  // -------------------------------------------------------- exactly when the head stays

  /** The event enters the hashed text as the record's event does. */
  predicate HashedAlike(e: Event, r: Record) {
    e.timestamp + "|" + (e.action + "|" + e.actor) == EventText(r) && e.payload == r.payload
  }

  /** Two verified histories that begin alike have one text everywhere exactly when their
      events are hashed alike. */
  lemma OneTextIff(h: HashFn, a: seq<Record>, t: seq<Record>, n: nat, k: nat)
    requires IsDigest(h) && ValidChain(h, a) && ValidChain(h, t)
    requires n <= k <= |a| && |t| == |a| && a[..n] == t[..n]
    ensures OneText(a[..k], t[..k]) <==> forall i :: n <= i < k ==> HashedAlike(EventOf(t[i]), a[i])
    decreases k
  {
    if k > n {
      OneTextIff(h, a, t, n, k - 1);
      NextText(h, a, t, k - 1);
    }
  }

  lemma NextText(h: HashFn, a: seq<Record>, t: seq<Record>, i: nat)
    requires IsDigest(h) && ValidChain(h, a) && ValidChain(h, t) && i < |a| == |t|
    ensures OneText(a[..i + 1], t[..i + 1]) <==> OneText(a[..i], t[..i]) && HashedAlike(EventOf(t[i]), a[i])
  {
    OneTextPrefixIff(a, t, i);
    OneTextPrefixIff(a, t, i + 1);
    LinkHoldsNoBar(h, a, i);
    LinkHoldsNoBar(h, t, i);
    SameTextSameParts(a[i], t[i]);
    if OneText(a[..i], t[..i]) {
      SameLinkBehind(h, a, t, i);
    }
  }

  lemma SameLinkBehind(h: HashFn, a: seq<Record>, t: seq<Record>, i: nat)
    requires ValidChain(h, a) && ValidChain(h, t) && i < |a| == |t| && OneText(a[..i], t[..i])
    ensures a[i].sequenceNumber == t[i].sequenceNumber && a[i].previousHash == t[i].previousHash
  {
    LinkAndHash(h, a, i);
    LinkAndHash(h, t, i);
    TruncationVerifies(h, a, i);
    TruncationVerifies(h, t, i);
    SameHead(h, a[..i], t[..i]);
  }

  lemma AlikeIff(prefix: seq<Record>, rest: seq<Record>, es: seq<Event>, a: seq<Record>, t: seq<Record>)
    requires |es| == |rest| && a == prefix + rest && HoldsBehind(t, |prefix|, es)
    ensures (forall i :: |prefix| <= i < |a| ==> HashedAlike(EventOf(t[i]), a[i]))
            <==> forall j :: 0 <= j < |es| ==> HashedAlike(es[j], rest[j])
  {
    var n := |prefix|;
    if forall j :: 0 <= j < |es| ==> HashedAlike(es[j], rest[j]) {
      forall i | n <= i < |a|
        ensures HashedAlike(EventOf(t[i]), a[i])
      {
        assert EventOf(t[n + (i - n)]) == es[i - n] && a[n + (i - n)] == rest[i - n];
      }
    } else {
      var j :| 0 <= j < |es| && !HashedAlike(es[j], rest[j]);
      assert !HashedAlike(EventOf(t[n + j]), a[n + j]);
    }
  }

  /** Of any history, a rewriting of the same length keeps the head hash exactly when each
      event is hashed as the one in its place was, or `x` and `y` are texts of the two with
      one digest. */
  lemma RewritingKeepsTheHeadIff(h: HashFn, prefix: seq<Record>, rest: seq<Record>, es: seq<Event>)
      returns (x: string, y: string)
    requires IsDigest(h) && ValidChain(h, prefix + rest) && |es| == |rest|
    ensures var a, t := prefix + rest, Resealed(h, prefix, es);
            TextsCollide(h, a, x, t, y)
            || (Head(t) == Head(a) <==> forall j :: 0 <= j < |es| ==> HashedAlike(es[j], rest[j]))
  {
    var a, t, n := prefix + rest, Resealed(h, prefix, es), |prefix|;
    TruncationVerifies(h, a, n);
    assert a[..n] == prefix == t[..n] && a[..|a|] == a && t[..|a|] == t;
    ResealedVerifies(h, prefix, es);
    ResealedHoldsAll(h, prefix, es, t);
    AlikeIff(prefix, rest, es, a, t);
    OneTextIff(h, a, t, n, |a|);
    OneTextPrefixIff(a, t, |a|);
    x, y := HeadsAgreeIff(h, a, t, |a|);
  }
}
