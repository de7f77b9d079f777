/** The checksum of the ICMP transport (core/transport_icmp.go), against the one's complement
    sum of section 1 of RFC 1071. */
module IcmpChecksum {
  import opened Bytes

  function Word(hi: Byte, lo: Byte): (w: nat)
    ensures w <= 0xFFFF
  {
    hi as int * 256 + lo as int
  }

  /** The sum of the 16-bit words; an odd last byte is the high half of a word. */
  function WordSum(s: seq<Byte>): (n: nat) {
    if s == [] then 0
    else if |s| == 1 then Word(s[0], 0)
    else Word(s[0], s[1]) + WordSum(s[2..])
  }

  /** What is left when all carries out of 16 bits have been added back. */
  function Folded(n: nat): (f: nat)
    ensures f <= 0xFFFF
  {
    if n == 0 then 0 else (n - 1) % 0xFFFF + 1
  }

  /** The checksum, its sum held in 32 bits. */
  function Checksum(s: seq<Byte>): (c: nat)
    ensures c <= 0xFFFF
  {
    0xFFFF - Folded(WordSum(s) % U32)
  }

  // ---- The sum of RFC 1071 ----

  /** Addition with the carry brought round to the low end. */
  function OnesAdd(a: nat, b: nat): (r: nat)
    requires a <= 0xFFFF && b <= 0xFFFF
    ensures r <= 0xFFFF
  {
    if a + b > 0xFFFF then a + b - 0xFFFF else a + b
  }

  function OnesSum(s: seq<Byte>): (r: nat)
    ensures r <= 0xFFFF
  {
    if s == [] then 0
    else if |s| == 1 then Word(s[0], 0)
    else OnesAdd(Word(s[0], s[1]), OnesSum(s[2..]))
  }

  lemma FoldAdds(a: nat, n: nat)
    requires a <= 0xFFFF
    ensures Folded(a + n) == OnesAdd(a, Folded(n))
  {
  }

  /** Adding up first and folding at the end is adding with end-around carry throughout. */
  lemma {:induction false} FoldedIsOnesSum(s: seq<Byte>)
    ensures Folded(WordSum(s)) == OnesSum(s)
  {
    if |s| >= 2 {
      FoldedIsOnesSum(s[2..]);
      FoldAdds(Word(s[0], s[1]), WordSum(s[2..]));
    }
  }

  lemma {:induction false} SumBound(s: seq<Byte>, words: nat)
    requires |s| <= 2 * words
    ensures WordSum(s) <= words * 0xFFFF
  {
    if |s| >= 2 { SumBound(s[2..], words - 1); }
  }

  lemma SmallSum(s: seq<Byte>, n: nat)
    requires n == WordSum(s) && n < U32
    ensures Checksum(s) == 0xFFFF - Folded(n)
  {
  }

  lemma SumFits(s: seq<Byte>)
    requires |s| <= 131074
    ensures WordSum(s) < U32
    ensures Checksum(s) == 0xFFFF - Folded(WordSum(s))
  {
    SumBound(s, 65537);
    SmallSum(s, WordSum(s));
  }

  /** Up to 131074 bytes, twice the size of any IP packet, the 32-bit sum cannot wrap, and the
      checksum is the complement of the standard's sum. */
  lemma MeetsStandard(s: seq<Byte>)
    requires |s| <= 131074
    ensures Checksum(s) == 0xFFFF - OnesSum(s)
  {
    SumFits(s);
    FoldedIsOnesSum(s);
  }

  // ---- A message with its checksum in place ----

  function PutWord(s: seq<Byte>, k: nat, w: nat): (r: seq<Byte>)
    requires 2 * k + 1 < |s| && w <= 0xFFFF
    ensures |r| == |s|
  {
    s[2 * k := (w / 256) as Byte][2 * k + 1 := (w % 256) as Byte]
  }

  lemma {:induction false} SumAfterPut(s: seq<Byte>, k: nat, w: nat)
    requires 2 * k + 1 < |s| && w <= 0xFFFF
    ensures WordSum(PutWord(s, k, w)) == WordSum(s) - Word(s[2 * k], s[2 * k + 1]) + w
    decreases k
  {
    var t := PutWord(s, k, w);
    if k == 0 {
      assert t[2..] == s[2..];
    } else {
      assert t[2..] == PutWord(s[2..], k - 1, w);
      SumAfterPut(s[2..], k - 1, w);
      assert s[2..][2 * (k - 1)] == s[2 * k] && s[2..][2 * (k - 1) + 1] == s[2 * k + 1];
    }
  }

  /** Adding the complement of a folded 32-bit sum never leaves 32 bits and folds to all ones. */
  lemma ComplementCompletes(n: nat)
    requires n < U32
    ensures n + (0xFFFF - Folded(n)) < U32
    ensures Folded(n + (0xFFFF - Folded(n))) == 0xFFFF
  {
    if n > 0 {
      var q := (n - 1) / 0xFFFF;
      assert n == 0xFFFF * q + Folded(n);
      assert q <= 65536;
      assert n + (0xFFFF - Folded(n)) == 0xFFFF * (q + 1);
      MultipleFolds(q + 1);
    }
  }

  lemma MultipleFolds(q: nat)
    requires q > 0
    ensures Folded(0xFFFF * q) == 0xFFFF
  {
    assert 0xFFFF * q - 1 == 0xFFFF * (q - 1) + 0xFFFE;
  }

  /** A message of any length whose own checksum is put into a word that was zero has the
      checksum zero. */
  lemma FilledChecksumIsZero(s: seq<Byte>, k: nat)
    requires 2 * k + 1 < |s| && s[2 * k] == 0 && s[2 * k + 1] == 0
    ensures Checksum(PutWord(s, k, Checksum(s))) == 0
  {
    var n := WordSum(s) % U32;
    var c := Checksum(s);
    SumAfterPut(s, k, c);
    ComplementCompletes(n);
    assert WordSum(s) == U32 * (WordSum(s) / U32) + n;
    AddedMod(WordSum(s) / U32, n, c);
  }

  lemma AddedMod(q: nat, n: nat, c: nat)
    requires n + c < U32
    ensures (U32 * q + n + c) % U32 == n + c
  {
  }

  /** A sum that folds to all ones. */
  predicate Whole(n: nat) {
    n > 0 && n % 0xFFFF == 0
  }

  lemma AllOnes(n: nat)
    ensures Folded(n) == 0xFFFF <==> Whole(n)
  {
  }

  lemma ZeroIffWhole(s: seq<Byte>)
    requires |s| <= 131074
    ensures Checksum(s) == 0 <==> Whole(WordSum(s))
  {
    SumFits(s);
    AllOnes(WordSum(s));
  }

  lemma ReplacedTerm(n: nat, was: nat, w: nat)
    requires n >= was && was <= 0xFFFF && w <= 0xFFFF && Whole(n)
    ensures Whole(n - was + w) <==>
      n - was + w > 0 && (w == was || (w == 0 && was == 0xFFFF) || (w == 0xFFFF && was == 0))
  {
    var q, r := n / 0xFFFF, (n - was + w) / 0xFFFF;
    assert n == 0xFFFF * q;
    assert n - was + w == 0xFFFF * r + (n - was + w) % 0xFFFF;
    assert w - was == 0xFFFF * (r - q) + (n - was + w) % 0xFFFF;
  }

  /** A receiver that checks sees every change of one word, except between 0 and 0xFFFF in a
      message that is not all zero. */
  lemma OneWordIsDetected(s: seq<Byte>, k: nat, w: nat)
    requires |s| <= 131074 && 2 * k + 1 < |s| && w <= 0xFFFF && Checksum(s) == 0
    ensures var was := Word(s[2 * k], s[2 * k + 1]);
      Checksum(PutWord(s, k, w)) == 0 <==>
      WordSum(PutWord(s, k, w)) > 0 && (w == was || (w == 0 && was == 0xFFFF) || (w == 0xFFFF && was == 0))
  {
    var was := Word(s[2 * k], s[2 * k + 1]);
    var t := PutWord(s, k, w);
    SumAfterPut(s, k, w);
    SumAfterPut(s, k, 0);
    ZeroIffWhole(s);
    ZeroIffWhole(t);
    ReplacedTerm(WordSum(s), was, w);
  }

  // ---- The loops ----

  /** Addition in 32 bits. */
  function Add32(a: nat, b: nat): (r: nat)
    requires a < U32 && b < U32
    ensures r < U32 && (r == a + b || r + U32 == a + b)
  {
    (a + b) % U32
  }

  method AddWords(data: array<Byte>) returns (sum: nat)
    ensures sum == WordSum(data[..]) % U32
  {
    var n := data.Length;
    sum := 0;
    var i := 0;
    ghost var carries := 0;
    assert data[0..] == data[..];
    while i + 1 < n
      invariant 0 <= i <= n && i % 2 == 0 && sum < U32
      invariant U32 * carries + sum + WordSum(data[i..]) == WordSum(data[..])
    {
      var w := Word(data[i], data[i + 1]);
      assert data[i..][2..] == data[i + 2..];
      carries := if sum + w < U32 then carries else carries + 1;
      sum := Add32(sum, w);
      i := i + 2;
    }
    assert i == n || i == n - 1;
    if n % 2 == 1 {
      var w := Word(data[n - 1], 0);
      carries := if sum + w < U32 then carries else carries + 1;
      sum := Add32(sum, w);
    }
    AddedMod(carries, sum, 0);
  }

  method Fold(n: nat) returns (sum: nat)
    ensures sum == Folded(n)
  {
    sum := n;
    while sum / 0x10000 > 0
      invariant Folded(sum) == Folded(n)
      decreases sum
    {
      FoldStep(sum);
      sum := sum % 0x10000 + sum / 0x10000;
    }
  }

  lemma FoldStep(n: nat)
    requires n >= 0x10000
    ensures Folded(n % 0x10000 + n / 0x10000) == Folded(n)
    ensures n % 0x10000 + n / 0x10000 < n
  {
    var hi, lo := n / 0x10000, n % 0x10000;
    assert n == 0xFFFF * hi + (hi + lo);
    FoldShift(hi, hi + lo);
  }

  lemma FoldShift(q: nat, n: nat)
    requires n > 0
    ensures Folded(0xFFFF * q + n) == Folded(n)
  {
    var d := (n - 1) / 0xFFFF;
    assert n - 1 == 0xFFFF * d + (n - 1) % 0xFFFF;
    assert 0xFFFF * q + n - 1 == 0xFFFF * (q + d) + (n - 1) % 0xFFFF;
  }

  /** `icmpChecksum`. */
  method Compute(data: array<Byte>) returns (c: nat)
    ensures c == Checksum(data[..])
  {
    var sum := AddWords(data);
    sum := Fold(sum);
    c := 0xFFFF - sum;
  }

  const ECHO_REQUEST: Byte := 8
  const HEADER_LEN := 8

  /** Type, code and payload; the other header bytes stay zero. */
  method Unchecked(payload: seq<Byte>) returns (msg: array<Byte>)
    ensures fresh(msg) && msg.Length == HEADER_LEN + |payload|
    ensures msg[..] == [ECHO_REQUEST, 0, 0, 0, 0, 0, 0, 0] + payload
  {
    msg := new Byte[HEADER_LEN + |payload|](_ => 0);
    msg[0] := ECHO_REQUEST;
    forall i | 0 <= i < |payload| { msg[HEADER_LEN + i] := payload[i]; }
  }

  /** The message that `Send` writes to an IPv4 peer: an echo request with the payload behind
      the header and a checksum that any receiver recomputes to zero. */
  method EchoRequest(payload: seq<Byte>) returns (msg: array<Byte>)
    ensures fresh(msg) && msg.Length == HEADER_LEN + |payload|
    ensures msg[0] == ECHO_REQUEST && msg[1] == 0
    ensures msg[4..8] == [0, 0, 0, 0] && msg[8..] == payload
    ensures Checksum(msg[..]) == 0
  {
    msg := Unchecked(payload);
    ghost var before := msg[..];
    assert before[4..8] == [0, 0, 0, 0] && before[8..] == payload;
    var c := Compute(msg);
    FilledChecksumIsZero(before, 1);
    msg[2] := (c / 256) as Byte;
    msg[3] := (c % 256) as Byte;
    assert msg[..] == PutWord(before, 1, c);
    assert msg[4..8] == before[4..8] && msg[8..] == before[8..];
  }
}
