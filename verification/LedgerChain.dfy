/** What it means for a list of audit records to be a verified chain, where the
    first fault of a list lies, and what a verified chain rules out. */
module LedgerChain {
  import opened LedgerRecord

  /** The hash the next record has to carry as its previous hash. */
  function Head(rs: seq<Record>): string {
    if rs == [] then GENESIS_HASH else rs[|rs| - 1].recordHash
  }

  /** The three checks on one record: position, link and digest. */
  predicate Extends(h: HashFn, prefix: seq<Record>, r: Record) {
    && r.sequenceNumber == |prefix| + 1
    && r.previousHash == Head(prefix)
    && h(Preimage(r)) == r.recordHash
  }

  predicate ValidChain(h: HashFn, rs: seq<Record>) {
    forall i {:trigger Extends(h, rs[..i], rs[i])} :: 0 <= i < |rs| ==> Extends(h, rs[..i], rs[i])
  }

  ghost predicate Collision(h: HashFn, x: string, y: string) {
    x != y && h(x) == h(y)
  }

  lemma ValidChainSnoc(h: HashFn, rs: seq<Record>, r: Record)
    ensures ValidChain(h, rs + [r]) <==> ValidChain(h, rs) && Extends(h, rs, r)
  {
    var t := rs + [r];
    assert forall i :: 0 <= i < |rs| ==> t[..i] == rs[..i] && t[i] == rs[i];
    assert t[..|rs|] == rs && t[|rs|] == r;
  }

  lemma ValidPrefixIff(h: HashFn, rs: seq<Record>, k: nat)
    requires k <= |rs|
    ensures ValidChain(h, rs[..k]) <==> forall i :: 0 <= i < k ==> Extends(h, rs[..i], rs[i])
  {
    assert forall i :: 0 <= i < k ==> rs[..k][..i] == rs[..i] && rs[..k][i] == rs[i];
  }

  /** Every prefix of a verified chain verifies: chain verification alone cannot
      notice that the newest records are missing. */
  lemma TruncationVerifies(h: HashFn, rs: seq<Record>, k: nat)
    requires ValidChain(h, rs) && k <= |rs|
    ensures ValidChain(h, rs[..k])
  {
    ValidPrefixIff(h, rs, k);
  }

  function FirstBreakFrom(h: HashFn, rs: seq<Record>, i: nat): (k: nat)
    requires i <= |rs|
    ensures i <= k <= |rs|
    ensures forall j :: i <= j < k ==> Extends(h, rs[..j], rs[j])
    ensures k < |rs| ==> !Extends(h, rs[..k], rs[k])
    decreases |rs| - i
  {
    if i < |rs| && Extends(h, rs[..i], rs[i]) then FirstBreakFrom(h, rs, i + 1) else i
  }

  /** The position of the first record that fails to extend a valid chain, or the
      length of the list when there is none. */
  function FirstBreak(h: HashFn, rs: seq<Record>): (k: nat)
    ensures k <= |rs| && ValidChain(h, rs[..k])
    ensures k < |rs| ==> !Extends(h, rs[..k], rs[k])
  {
    var k := FirstBreakFrom(h, rs, 0);
    ValidPrefixIff(h, rs, k);
    k
  }

  /** The first break is the only position with those properties. */
  lemma FirstBreakIs(h: HashFn, rs: seq<Record>, k: nat)
    requires k <= |rs| && ValidChain(h, rs[..k])
    requires k < |rs| ==> !Extends(h, rs[..k], rs[k])
    ensures FirstBreak(h, rs) == k
  {
    ValidPrefixIff(h, rs, k);
    ValidPrefixIff(h, rs, FirstBreak(h, rs));
  }

  lemma ValidIffNoBreak(h: HashFn, rs: seq<Record>)
    ensures ValidChain(h, rs) <==> FirstBreak(h, rs) == |rs|
  {
  }

  // ------------------------------------------------------- tampering: one record

  lemma LinkAndHash(h: HashFn, rs: seq<Record>, i: nat)
    requires ValidChain(h, rs) && i < |rs|
    ensures rs[i].sequenceNumber == i + 1 && rs[i].previousHash == Head(rs[..i])
    ensures rs[i].recordHash == h(Preimage(rs[i]))
  {
    assert Extends(h, rs[..i], rs[i]);
  }

  lemma ReplacedHeads(rs: seq<Record>, i: nat, r: Record, j: nat)
    requires i < |rs| && j <= |rs|
    ensures rs[i := r][..i] == rs[..i]
    ensures Head(rs[i := r][..j]) == if j == i + 1 then r.recordHash else Head(rs[..j])
  {
  }

  /** The records other than the replaced one and its successor fit as before. */
  lemma ReplacementSpares(h: HashFn, rs: seq<Record>, i: nat, r: Record, j: nat)
    requires ValidChain(h, rs) && i < |rs| && j < |rs| && j != i
    requires j == i + 1 ==> r.recordHash == rs[i].recordHash
    ensures Extends(h, rs[i := r][..j], rs[i := r][j])
  {
    LinkAndHash(h, rs, j);
    ReplacedHeads(rs, i, r, j);
  }

  lemma ReplacementUnseen(h: HashFn, rs: seq<Record>, i: nat, r: Record)
    requires ValidChain(h, rs) && i < |rs| && Extends(h, rs[..i], r)
    requires r.recordHash == rs[i].recordHash || i + 1 == |rs|
    ensures ValidChain(h, rs[i := r])
  {
    var t := rs[i := r];
    ReplacedHeads(rs, i, r, i);
    forall j | 0 <= j < |t|
      ensures Extends(h, t[..j], t[j])
    {
      if j != i {
        ReplacementSpares(h, rs, i, r, j);
      }
    }
  }

  lemma ReplacementSeenNext(h: HashFn, rs: seq<Record>, i: nat, r: Record)
    requires ValidChain(h, rs) && i + 1 < |rs| && Extends(h, rs[..i], r)
    requires r.recordHash != rs[i].recordHash
    ensures FirstBreak(h, rs[i := r]) == i + 1
  {
    var t := rs[i := r];
    TruncationVerifies(h, rs, i);
    ReplacedHeads(rs, i, r, i + 1);
    LinkAndHash(h, rs, i + 1);
    ValidChainSnoc(h, rs[..i], r);
    assert t[..i + 1] == rs[..i] + [r];
    FirstBreakIs(h, t, i + 1);
  }

  /** What replacing one record of a verified chain does, in every case. A record
      that does not fit is reported where it stands; one that fits but carries
      another hash is reported at its successor; only a new tail record, or a
      record with the old hash that still fits, goes unnoticed. */
  lemma ReplacementBreaksAt(h: HashFn, rs: seq<Record>, i: nat, r: Record)
    requires ValidChain(h, rs) && i < |rs|
    ensures FirstBreak(h, rs[i := r]) ==
            if !Extends(h, rs[..i], r) then i
            else if r.recordHash == rs[i].recordHash || i + 1 == |rs| then |rs|
            else i + 1
  {
    if !Extends(h, rs[..i], r) {
      TruncationVerifies(h, rs, i);
      ReplacedHeads(rs, i, r, i);
      FirstBreakIs(h, rs[i := r], i);
    } else if r.recordHash == rs[i].recordHash || i + 1 == |rs| {
      ReplacementUnseen(h, rs, i, r);
      ValidIffNoBreak(h, rs[i := r]);
    } else {
      ReplacementSeenNext(h, rs, i, r);
    }
  }

  /** A record whose hashed contents were edited but whose stored hash was left alone
      is reported exactly where it stands, or two colliding texts are at hand. */
  lemma EditedContentsDetected(h: HashFn, rs: seq<Record>, i: nat, r: Record)
    requires ValidChain(h, rs) && i < |rs|
    requires r.recordHash == rs[i].recordHash && Preimage(r) != Preimage(rs[i])
    ensures FirstBreak(h, rs[i := r]) == i || Collision(h, Preimage(r), Preimage(rs[i]))
  {
    ReplacementBreaksAt(h, rs, i, r);
    assert Extends(h, rs[..i], rs[i]);
  }

  lemma {:induction false} JoinEndsInLast(f: seq<string>, g: seq<string>)
    requires |f| == |g| > 0 && f[..|f| - 1] == g[..|g| - 1]
    ensures JoinBars(f) == JoinBars(g) ==> f == g
  {
    if |f| > 1 {
      assert f[0] == f[..|f| - 1][0] == g[0];
      assert f[1..][..|f| - 2] == f[..|f| - 1][1..] && g[1..][..|g| - 2] == g[..|g| - 1][1..];
      JoinEndsInLast(f[1..], g[1..]);
      if JoinBars(f) == JoinBars(g) {
        var p := f[0] + "|";
        assert JoinBars(f)[|p|..] == JoinBars(f[1..]) && JoinBars(g)[|p|..] == JoinBars(g[1..]);
        assert f == [f[0]] + f[1..] && g == [g[0]] + g[1..];
      }
    }
  }

  /** Editing a payload always changes the hashed text, whatever bars occur anywhere. */
  lemma EditedPayloadDetected(h: HashFn, rs: seq<Record>, i: nat, payload: Payload)
    requires ValidChain(h, rs) && i < |rs| && payload != rs[i].payload
    ensures var r := rs[i].(payload := payload);
            FirstBreak(h, rs[i := r]) == i || Collision(h, Preimage(r), Preimage(rs[i]))
  {
    var r := rs[i].(payload := payload);
    assert Fields(r)[..5] == Fields(rs[i])[..5];
    assert Fields(r)[5] != Fields(rs[i])[5];
    JoinEndsInLast(Fields(r), Fields(rs[i]));
    EditedContentsDetected(h, rs, i, r);
  }

  /** A record slipped in before the tail is reported, itself or its successor. */
  lemma InsertionBreaksAt(h: HashFn, rs: seq<Record>, i: nat, r: Record)
    requires ValidChain(h, rs) && i < |rs|
    ensures FirstBreak(h, rs[..i] + [r] + rs[i..]) == if Extends(h, rs[..i], r) then i + 1 else i
  {
    var t := rs[..i] + [r] + rs[i..];
    TruncationVerifies(h, rs, i);
    assert t[..i] == rs[..i] && t[i] == r && t[i + 1] == rs[i];
    assert Extends(h, rs[..i], rs[i]);
    if Extends(h, rs[..i], r) {
      ValidChainSnoc(h, t[..i], r);
      assert t[..i + 1] == t[..i] + [r];
      FirstBreakIs(h, t, i + 1);
    } else {
      FirstBreakIs(h, t, i);
    }
  }

  // ------------------------------------- tampering: deletions, repeats, reordering

  function Select(rs: seq<Record>, idx: seq<nat>): (t: seq<Record>)
    requires forall j :: 0 <= j < |idx| ==> idx[j] < |rs|
    ensures |t| == |idx| && forall j :: 0 <= j < |idx| ==> t[j] == rs[idx[j]]
  {
    seq(|idx|, j requires 0 <= j < |idx| => rs[idx[j]])
  }

  /** Any list made of records of a verified chain, by deleting, repeating or
      reordering them, breaks at the first record that left its place. */
  lemma SelectionBreaksAt(h: HashFn, rs: seq<Record>, idx: seq<nat>, g: nat)
    requires ValidChain(h, rs)
    requires forall j :: 0 <= j < |idx| ==> idx[j] < |rs|
    requires g <= |idx| && (forall j :: 0 <= j < g ==> idx[j] == j)
    requires g < |idx| ==> idx[g] != g
    ensures FirstBreak(h, Select(rs, idx)) == g
  {
    var t := Select(rs, idx);
    if g > 0 {
      assert idx[g - 1] == g - 1;
    }
    TruncationVerifies(h, rs, g);
    assert t[..g] == rs[..g];
    if g < |idx| {
      assert Extends(h, rs[..idx[g]], rs[idx[g]]);
    }
    FirstBreakIs(h, t, g);
  }

  lemma FirstMoved(idx: seq<nat>) returns (g: nat)
    ensures g <= |idx| && forall j :: 0 <= j < g ==> idx[j] == j
    ensures g < |idx| ==> idx[g] != g
  {
    g := 0;
    while g < |idx| && idx[g] == g
      invariant g <= |idx| && forall j :: 0 <= j < g ==> idx[j] == j
    {
      g := g + 1;
    }
  }

  /** Hence such a list verifies exactly when it is an initial stretch of the chain. */
  lemma SelectionVerifiesIff(h: HashFn, rs: seq<Record>, idx: seq<nat>)
    requires ValidChain(h, rs)
    requires forall j :: 0 <= j < |idx| ==> idx[j] < |rs|
    ensures ValidChain(h, Select(rs, idx)) <==> forall j :: 0 <= j < |idx| ==> idx[j] == j
  {
    var g := FirstMoved(idx);
    SelectionBreaksAt(h, rs, idx, g);
    ValidIffNoBreak(h, Select(rs, idx));
  }

  lemma SelectSkipping(rs: seq<Record>, idx: seq<nat>, i: nat)
    requires i < |rs| == |idx| + 1
    requires forall j :: 0 <= j < |idx| ==> idx[j] == if j < i then j else j + 1
    ensures Select(rs, idx) == rs[..i] + rs[i + 1..]
  {
  }

  /** The record behind a deleted one is the one reported, with its own number. */
  lemma DeletionBreaksAt(h: HashFn, rs: seq<Record>, i: nat)
    requires ValidChain(h, rs) && i < |rs|
    ensures var t := rs[..i] + rs[i + 1..];
            FirstBreak(h, t) == i && (i < |t| ==> t[i].sequenceNumber == i + 2)
  {
    var t := rs[..i] + rs[i + 1..];
    var idx: seq<nat> := seq(|rs| - 1, j requires j >= 0 => if j < i then j else j + 1);
    SelectionBreaksAt(h, rs, idx, i);
    SelectSkipping(rs, idx, i);
    if i < |t| {
      assert Extends(h, rs[..i + 1], rs[i + 1]);
    }
  }

  // ------------------------------------------------------------------ bars in events

  ghost predicate BarFreeEvents(rs: seq<Record>) {
    forall i :: 0 <= i < |rs| ==> BarFreeEvent(rs[i])
  }
}
