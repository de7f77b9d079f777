/** Bytes, their exclusive-or, and big-endian fields (Go's encoding/binary). */
module Bytes {
  newtype Byte = n: int | 0 <= n < 256

  type Frame = seq<Byte>

  /** How many 32-bit words there are. */
  const U32 := 0x1_0000_0000

  // ---- exclusive-or, bit by bit ---------------------------------------------

  function XorBits(a: nat, b: nat, k: nat): (r: nat)
    decreases k
  {
    if k == 0 then 0 else (a + b) % 2 + 2 * XorBits(a / 2, b / 2, k - 1)
  }

  function Pow2(k: nat): (p: nat) {
    if k == 0 then 1 else 2 * Pow2(k - 1)
  }

  lemma {:induction false} XorBound(a: nat, b: nat, k: nat)
    ensures XorBits(a, b, k) < Pow2(k)
  {
    if k > 0 { XorBound(a / 2, b / 2, k - 1); }
  }

  lemma {:induction false} XorComm(a: nat, b: nat, k: nat)
    ensures XorBits(a, b, k) == XorBits(b, a, k)
  {
    if k > 0 { XorComm(a / 2, b / 2, k - 1); }
  }

  lemma Split(r: nat, bit: nat, rest: nat)
    requires r == bit + 2 * rest && bit < 2
    ensures r % 2 == bit && r / 2 == rest
  {
  }

  /** Low bit and rest of an exclusive-or. */
  lemma Halves(a: nat, b: nat, k: nat)
    requires k > 0
    ensures XorBits(a, b, k) == (a + b) % 2 + 2 * XorBits(a / 2, b / 2, k - 1)
    ensures XorBits(a, b, k) % 2 == (a + b) % 2
    ensures XorBits(a, b, k) / 2 == XorBits(a / 2, b / 2, k - 1)
  {
    Split(XorBits(a, b, k), (a + b) % 2, XorBits(a / 2, b / 2, k - 1));
  }

  lemma BitsAssoc(a: nat, b: nat, c: nat, ab: nat, bc: nat)
    requires ab % 2 == (a + b) % 2 && bc % 2 == (b + c) % 2
    ensures (ab + c) % 2 == (a + bc) % 2
  {
    var p, q := ab / 2 - (a + b) / 2, bc / 2 - (b + c) / 2;
    assert ab == a + b + 2 * p && bc == b + c + 2 * q;
  }

  lemma {:induction false} XorAssoc(a: nat, b: nat, c: nat, k: nat)
    ensures XorBits(XorBits(a, b, k), c, k) == XorBits(a, XorBits(b, c, k), k)
  {
    if k > 0 {
      var ab, bc := XorBits(a, b, k), XorBits(b, c, k);
      Halves(a, b, k);
      Halves(b, c, k);
      BitsAssoc(a, b, c, ab, bc);
      XorAssoc(a / 2, b / 2, c / 2, k - 1);
      Halves(ab, c, k);
      Halves(a, bc, k);
    }
  }

  lemma {:induction false} XorZero(a: nat, k: nat)
    requires a < Pow2(k)
    ensures XorBits(a, 0, k) == a && XorBits(a, a, k) == 0
  {
    if k > 0 { XorZero(a / 2, k - 1); }
  }

  lemma Pow2Of8()
    ensures Pow2(8) == 256
  {
    assert Pow2(4) == 16;
  }

  function Xor(a: Byte, b: Byte): (r: Byte) {
    XorBound(a as nat, b as nat, 8);
    Pow2Of8();
    XorBits(a as nat, b as nat, 8) as Byte
  }

  /** Exclusive-or is a commutative group in which every byte is its own inverse. */
  lemma XorLaws(a: Byte, b: Byte, c: Byte)
    ensures Xor(a, b) == Xor(b, a)
    ensures Xor(Xor(a, b), c) == Xor(a, Xor(b, c))
    ensures Xor(a, 0) == a && Xor(a, a) == 0
  {
    Pow2Of8();
    XorComm(a as nat, b as nat, 8);
    XorAssoc(a as nat, b as nat, c as nat, 8);
    XorZero(a as nat, 8);
  }

  function Zeros(n: nat): (s: seq<Byte>)
    ensures |s| == n && forall i :: 0 <= i < n ==> s[i] == 0
  {
    seq(n, i => 0)
  }

  // ---- big-endian fields ------------------------------------------------------

  function Be16(n: nat): (s: seq<Byte>)
    requires n < 0x1_0000
    ensures |s| == 2 && FromBe16(s) == n
  {
    [(n / 256) as Byte, (n % 256) as Byte]
  }

  function FromBe16(s: seq<Byte>): (n: nat)
    requires |s| == 2
    ensures n < 0x1_0000
  {
    s[0] as nat * 256 + s[1] as nat
  }

  function Be32(n: nat): (s: seq<Byte>)
    requires n < 0x1_0000_0000
    ensures |s| == 4 && FromBe32(s) == n
  {
    var s := Be16(n / 0x1_0000) + Be16(n % 0x1_0000);
    assert s[..2] == Be16(n / 0x1_0000) && s[2..] == Be16(n % 0x1_0000);
    s
  }

  function FromBe32(s: seq<Byte>): (n: nat)
    requires |s| == 4
    ensures n < 0x1_0000_0000
  {
    FromBe16(s[..2]) * 0x1_0000 + FromBe16(s[2..])
  }
}
