/** How far the head hash fixes a verified history. */
module LedgerHead {
  import opened LedgerRecord
  import opened LedgerChain
  import opened LedgerDoubles

  /** What is used of a hexadecimal SHA-256 digest: 64 characters, none of them a bar. */
  ghost predicate IsDigest(h: HashFn) {
    forall s :: |h(s)| == 64 && NoBar(h(s))
  }

  ghost predicate HashedIn(x: string, rs: seq<Record>) {
    exists i :: 0 <= i < |rs| && Preimage(rs[i]) == x
  }

  /** A text hashed for `a` and another one hashed for `b` that have one digest. */
  ghost predicate TextsCollide(h: HashFn, a: seq<Record>, x: string, b: seq<Record>, y: string) {
    Collision(h, x, y) && HashedIn(x, a) && HashedIn(y, b)
  }

  lemma CollideInPrefix(h: HashFn, a: seq<Record>, x: string, b: seq<Record>, y: string, m: nat, n: nat)
    requires m <= |a| && n <= |b| && TextsCollide(h, a[..m], x, b[..n], y)
    ensures TextsCollide(h, a, x, b, y)
  {
    var i :| 0 <= i < m && Preimage(a[..m][i]) == x;
    var j :| 0 <= j < n && Preimage(b[..n][j]) == y;
    assert Preimage(a[i]) == x && Preimage(b[j]) == y;
  }

  lemma LinkHoldsNoBar(h: HashFn, a: seq<Record>, k: nat)
    requires IsDigest(h) && ValidChain(h, a) && k < |a|
    ensures NoBar(a[k].previousHash)
  {
    LinkAndHash(h, a, k);
    if k > 0 {
      LinkAndHash(h, a, k - 1);
    }
  }

  /** Tail records with one hashed text have one number and one link. */
  lemma SameTextSameLink(h: HashFn, a: seq<Record>, b: seq<Record>)
    requires IsDigest(h) && ValidChain(h, a) && ValidChain(h, b) && a != [] && b != []
    requires Preimage(a[|a| - 1]) == Preimage(b[|b| - 1])
    ensures |a| == |b| && Head(a[..|a| - 1]) == Head(b[..|b| - 1])
  {
    var m, n := |a| - 1, |b| - 1;
    LinkAndHash(h, a, m);
    LinkAndHash(h, b, n);
    LinkHoldsNoBar(h, a, m);
    LinkHoldsNoBar(h, b, n);
    SameTextSameParts(b[n], a[m]);
  }

  lemma OneTextSnoc(a: seq<Record>, b: seq<Record>)
    requires a != [] && |a| == |b| && Preimage(a[|a| - 1]) == Preimage(b[|b| - 1])
    requires OneText(a[..|a| - 1], b[..|b| - 1])
    ensures OneText(a, b)
  {
    var m := |a| - 1;
    forall i | 0 <= i < |a|
      ensures Preimage(b[i]) == Preimage(a[i])
    {
      if i < m {
        assert Preimage(b[..m][i]) == Preimage(a[..m][i]);
      }
    }
  }

  lemma SharedBefore(h: HashFn, a: seq<Record>, x: string, b: seq<Record>, y: string)
    requires a != [] && |a| == |b| && Preimage(a[|a| - 1]) == Preimage(b[|b| - 1])
    ensures OneText(a[..|a| - 1], b[..|b| - 1]) ==> OneText(a, b)
    ensures TextsCollide(h, a[..|a| - 1], x, b[..|b| - 1], y) ==> TextsCollide(h, a, x, b, y)
  {
    if OneText(a[..|a| - 1], b[..|b| - 1]) {
      OneTextSnoc(a, b);
    }
    if TextsCollide(h, a[..|a| - 1], x, b[..|b| - 1], y) {
      CollideInPrefix(h, a, x, b, y, |a| - 1, |b| - 1);
    }
  }

  /** A list that shares the genesis hash with the empty one ends in a text hashed to it. */
  lemma GenesisShared(h: HashFn, c: seq<Record>) returns (x: string)
    requires ValidChain(h, c) && c != [] && Head(c) == GENESIS_HASH
    ensures HashedIn(x, c) && h(x) == GENESIS_HASH
  {
    LinkAndHash(h, c, |c| - 1);
    x := Preimage(c[|c| - 1]);
  }

  /** Two verified lists with one head hash, whatever they hold, have the same hashed texts
      throughout; otherwise `x` and `y` are texts of theirs with one digest, or one list is
      empty and `x` is a text of the other whose digest is the genesis hash. */
  lemma SharedHeadIsOneText(h: HashFn, a: seq<Record>, b: seq<Record>)
      returns (x: string, y: string)
    requires IsDigest(h) && ValidChain(h, a) && ValidChain(h, b) && Head(a) == Head(b)
    ensures OneText(a, b) || TextsCollide(h, a, x, b, y)
            || (|a| != |b| && (a == [] || b == []) && HashedIn(x, a + b) && h(x) == GENESIS_HASH)
    decreases |a|
  {
    x, y := "", "";
    if a == [] || b == [] {
      if a != b {
        assert a + b == if a == [] then b else a;
        x := GenesisShared(h, a + b);
      }
    } else {
      var m, n := |a| - 1, |b| - 1;
      LinkAndHash(h, a, m);
      LinkAndHash(h, b, n);
      x, y := Preimage(a[m]), Preimage(b[n]);
      if x == y {
        SameTextSameLink(h, a, b);
        TruncationVerifies(h, a, m);
        TruncationVerifies(h, b, n);
        x, y := SharedHeadIsOneText(h, a[..m], b[..n]);
        SharedBefore(h, a, x, b, y);
      }
    }
  }

  lemma OneTextPrefixIff(a: seq<Record>, b: seq<Record>, k: nat)
    requires k <= |a| && k <= |b|
    ensures OneText(a[..k], b[..k]) <==> forall i :: 0 <= i < k ==> Preimage(b[i]) == Preimage(a[i])
  {
    assert forall i :: 0 <= i < k ==> a[..k][i] == a[i] && b[..k][i] == b[i];
  }

  /** At every length, the head hashes of two verified lists agree exactly when all texts
      hashed up to there do, or `x` and `y` are texts of theirs with one digest. */
  lemma HeadsAgreeIff(h: HashFn, a: seq<Record>, b: seq<Record>, k: nat) returns (x: string, y: string)
    requires IsDigest(h) && ValidChain(h, a) && ValidChain(h, b) && k <= |a| && k <= |b|
    ensures TextsCollide(h, a, x, b, y)
            || (Head(a[..k]) == Head(b[..k]) <==> forall i :: 0 <= i < k ==> Preimage(b[i]) == Preimage(a[i]))
  {
    x, y := "", "";
    var c, d := a[..k], b[..k];
    TruncationVerifies(h, a, k);
    TruncationVerifies(h, b, k);
    OneTextPrefixIff(a, b, k);
    if OneText(c, d) {
      SameHead(h, c, d);
    } else if Head(c) == Head(d) {
      x, y := SharedHeadIsOneText(h, c, d);
      CollideInPrefix(h, a, x, b, y, k, k);
    }
  }

  /** A verified list without bars in its events is the only verified list with its head
      hash, of whatever length and with whatever contents, up to a collision. */
  lemma HeadDeterminesChain(h: HashFn, a: seq<Record>, b: seq<Record>) returns (x: string, y: string)
    requires IsDigest(h)
    requires ValidChain(h, a) && ValidChain(h, b) && BarFreeEvents(a)
    requires Head(a) == Head(b)
    ensures a == b || TextsCollide(h, a, x, b, y)
            || ((a == [] || b == []) && HashedIn(x, a + b) && h(x) == GENESIS_HASH)
  {
    x, y := SharedHeadIsOneText(h, a, b);
    ChainDoubleIff(h, a);
    assert OneText(a, b) && a != b ==> ChainDoubles(h, a, b);
  }

  /** A verified history that differs from it in one record has other head hashes from
      that record on, at every length, or `x` and `y` are texts of theirs with one digest. */
  lemma DifferenceReachesTheHead(h: HashFn, a: seq<Record>, b: seq<Record>, i: nat, k: nat)
      returns (x: string, y: string)
    requires IsDigest(h)
    requires ValidChain(h, a) && ValidChain(h, b) && BarFreeEvents(a)
    requires i < k <= |a| && k <= |b| && a[i] != b[i]
    ensures Head(a[..k]) != Head(b[..k]) || TextsCollide(h, a, x, b, y)
  {
    x, y := "", "";
    if Head(a[..k]) == Head(b[..k]) {
      TruncationVerifies(h, a, k);
      TruncationVerifies(h, b, k);
      assert a[..k][i] == a[i] && b[..k][i] == b[i];
      x, y := HeadDeterminesChain(h, a[..k], b[..k]);
      CollideInPrefix(h, a, x, b, y, k, k);
    }
  }
}
