/** Audit records, the text that is hashed for each of them, and what can be
    read back from that text.

    The digest (SHA-256 in hexadecimal, FIPS 180-4) is a parameter `h`: every
    result below holds for every function from texts to texts, and where the
    source relies on the digest being hard to collide the result hands back the
    two colliding texts instead. */
module LedgerRecord {
  import opened CanonicalJson

  type HashFn = string -> string

  /** The text of a payload, written canonically before every hashing. */
  type Payload = JsonText

  const EMPTY_PAYLOAD: Payload := "{}"

  /** One row of `audit_logs`. `timestamp` is the UTC ISO text and `payload` the
      canonical JSON text, the forms in which both enter the hash. */
  datatype Record = Record(
    sequenceNumber: int,
    timestamp: string,
    action: string,
    actor: string,
    previousHash: string,
    payload: Payload,
    recordHash: string)

  function Zeros(n: nat): (z: string)
    ensures |z| == n && forall i :: 0 <= i < n ==> z[i] == '0'
  {
    if n == 0 then "" else Zeros(n - 1) + "0"
  }

  const GENESIS_HASH: string := Zeros(64)

  // ---------------------------------------------------------------- decimals

  function Digit(d: nat): char
    requires d < 10
  {
    "0123456789"[d]
  }

  function DecimalNat(n: nat): string {
    if n < 10 then [Digit(n)] else DecimalNat(n / 10) + [Digit(n % 10)]
  }

  /** The text Python's formatting gives an integer. */
  function Decimal(n: int): string {
    if n < 0 then "-" + DecimalNat(-n) else DecimalNat(n)
  }

  function DigitValue(c: char): nat {
    if '0' <= c <= '9' then c as int - '0' as int else 0
  }

  function ReadNat(s: string): nat {
    if s == "" then 0 else 10 * ReadNat(s[..|s| - 1]) + DigitValue(s[|s| - 1])
  }

  function ReadDecimal(s: string): int {
    if s != "" && s[0] == '-' then -(ReadNat(s[1..]) as int) else ReadNat(s)
  }

  ghost predicate NoBar(s: string) {
    forall i :: 0 <= i < |s| ==> s[i] != '|'
  }

  lemma {:induction false} ReadDecimalNat(n: nat)
    ensures ReadNat(DecimalNat(n)) == n
    ensures NoBar(DecimalNat(n))
    ensures DecimalNat(n) != "" && DecimalNat(n)[0] != '-'
  {
    if n < 10 {
      assert DecimalNat(n)[..0] == "";
    } else {
      ReadDecimalNat(n / 10);
      var s := DecimalNat(n);
      assert s[..|s| - 1] == DecimalNat(n / 10);
    }
  }

  lemma {:induction false} ReadNegative(d: string)
    requires NoBar(d)
    ensures ReadDecimal("-" + d) == -(ReadNat(d) as int) && NoBar("-" + d)
  {
  }

  /** The sequence number can be read back from its text, and the text holds no bar. */
  lemma ReadDecimalInverts(n: int)
    ensures ReadDecimal(Decimal(n)) == n && NoBar(Decimal(n))
  {
    if n < 0 {
      ReadDecimalNat(-n);
      ReadNegative(DecimalNat(-n));
    } else {
      ReadDecimalNat(n);
    }
  }

  // ---------------------------------------------------------------- preimage

  /** The six fields in the order in which they are hashed. */
  function Fields(r: Record): seq<string> {
    [Decimal(r.sequenceNumber), r.timestamp, r.action, r.actor, r.previousHash, r.payload]
  }

  function JoinBars(fields: seq<string>): string
    requires fields != []
  {
    if |fields| == 1 then fields[0] else fields[0] + "|" + JoinBars(fields[1..])
  }

  /** The text whose digest is the record's hash. */
  function Preimage(r: Record): string {
    JoinBars(Fields(r))
  }

  function FirstBar(s: string): (i: nat)
    ensures i <= |s| && NoBar(s[..i])
    ensures i < |s| ==> s[i] == '|'
  {
    if s == "" || s[0] == '|' then 0
    else
      var k := FirstBar(s[1..]);
      assert s[..1 + k] == [s[0]] + s[1..][..k];
      1 + k
  }

  /** Cuts `s` at its first `cuts` bars (or at all of them, when there are fewer). */
  function CutBars(s: string, cuts: nat): (pieces: seq<string>)
    ensures pieces != []
    ensures forall i :: 0 <= i < |pieces| - 1 ==> NoBar(pieces[i])
    decreases cuts
  {
    var i := FirstBar(s);
    if cuts == 0 || i == |s| then [s] else [s[..i]] + CutBars(s[i + 1..], cuts - 1)
  }

  lemma CutFirst(a: string, b: string, cuts: nat)
    requires NoBar(a)
    ensures CutBars(a + "|" + b, cuts + 1) == [a] + CutBars(b, cuts)
  {
    var s := a + "|" + b;
    var i := FirstBar(s);
    assert s[|a|] == '|';
    assert forall k :: 0 <= k < |a| ==> s[k] == a[k];
    assert forall k :: 0 <= k < i ==> s[..i][k] == s[k];
    assert i == |a|;
    assert s[..i] == a && s[i + 1..] == b;
  }

  lemma {:induction false} JoinCons(first: string, rest: seq<string>)
    requires rest != []
    ensures JoinBars([first] + rest) == first + "|" + JoinBars(rest)
  {
  }

  ghost predicate BarsOnlyInLast(fields: seq<string>) {
    forall i :: 0 <= i < |fields| - 1 ==> NoBar(fields[i])
  }

  lemma CutCons(first: string, rest: seq<string>)
    requires rest != [] && NoBar(first)
    ensures CutBars(JoinBars([first] + rest), |rest|) == [first] + CutBars(JoinBars(rest), |rest| - 1)
  {
    JoinCons(first, rest);
    CutFirst(first, JoinBars(rest), |rest| - 1);
  }

  lemma DropFirst(fields: seq<string>)
    requires |fields| > 1 && BarsOnlyInLast(fields)
    ensures BarsOnlyInLast(fields[1..]) && NoBar(fields[0]) && fields == [fields[0]] + fields[1..]
  {
  }

  /** Cutting recovers a joined list of fields when all but the last are free of bars. */
  lemma {:induction false} CutJoined(fields: seq<string>)
    requires fields != [] && BarsOnlyInLast(fields)
    ensures CutBars(JoinBars(fields), |fields| - 1) == fields
    decreases |fields|
  {
    if |fields| > 1 {
      DropFirst(fields);
      CutJoined(fields[1..]);
      CutCons(fields[0], fields[1..]);
    }
  }

  ghost predicate BarFreeEvent(r: Record) {
    NoBar(r.timestamp) && NoBar(r.action) && NoBar(r.actor)
  }

  ghost predicate BarFree(r: Record) {
    BarFreeEvent(r) && NoBar(r.previousHash)
  }

  /** Cutting the hashed text at its first five bars recovers the record's fields
      exactly when timestamp, action, actor and previous hash hold no bar; the
      payload may hold any number of them. */
  lemma PreimageDecodesIff(r: Record)
    ensures CutBars(Preimage(r), 5) == Fields(r) <==> BarFree(r)
  {
    ReadDecimalInverts(r.sequenceNumber);
    if BarFree(r) {
      CutJoined(Fields(r));
    }
    var p := CutBars(Preimage(r), 5);
    assert |p| == 6 ==> NoBar(p[1]) && NoBar(p[2]) && NoBar(p[3]) && NoBar(p[4]);
  }

  lemma FirstPiece(r: Record)
    ensures CutBars(Preimage(r), 1)[0] == Decimal(r.sequenceNumber)
  {
    ReadDecimalInverts(r.sequenceNumber);
    var rest := Fields(r)[1..];
    CutFirst(Decimal(r.sequenceNumber), JoinBars(rest), 0);
  }

  /** The sequence number is recoverable whatever the other fields hold. */
  lemma PreimageFixesSequence(a: Record, b: Record)
    requires Preimage(a) == Preimage(b)
    ensures a.sequenceNumber == b.sequenceNumber
  {
    ReadDecimalInverts(a.sequenceNumber);
    ReadDecimalInverts(b.sequenceNumber);
    FirstPiece(a);
    FirstPiece(b);
  }

  /** Among records without bars in those four fields, distinct contents have
      distinct hashed texts. */
  lemma PreimageInjective(a: Record, b: Record)
    requires BarFree(a) && BarFree(b)
    requires Preimage(a) == Preimage(b)
    ensures a == b.(recordHash := a.recordHash)
  {
    PreimageDecodesIff(a);
    PreimageDecodesIff(b);
    PreimageFixesSequence(a, b);
    var f, g := Fields(a), Fields(b);
    assert f == g;
    assert f[1] == g[1] && f[2] == g[2] && f[3] == g[3] && f[4] == g[4] && f[5] == g[5];
  }
}
