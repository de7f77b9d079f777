/** Address keys of the allowed-IPs trie, most significant bit first, and the bit tricks
    that compare them (`fls`, `fls128`, `common_bits` of panel/awgsrc/src/allowedips.c). */
module BitKeys {
  type Key = seq<bool>

  /** The first `n` bits of `a` and `b` are the same. */
  ghost predicate Agree(a: Key, b: Key, n: nat)
    requires n <= |a| && n <= |b|
  {
    forall i :: 0 <= i < n ==> a[i] == b[i]
  }

  function Xor(a: Key, b: Key): (x: Key)
    requires |a| == |b|
  {
    seq(|a|, i requires 0 <= i < |a| => a[i] != b[i])
  }

  /** Find-last-set: one plus the significance of the highest set bit, 0 for a zero word. */
  function Fls(x: Key): (n: nat)
    ensures n <= |x|
    ensures n == 0 <==> forall i :: 0 <= i < |x| ==> !x[i]
    ensures n > 0 ==> x[|x| - n]
    ensures forall i :: 0 <= i < |x| - n ==> !x[i]
  {
    if |x| == 0 then 0
    else if x[0] then |x|
    else
      var n := Fls(x[1..]);
      assert forall i :: 0 < i < |x| ==> x[i] == x[1..][i - 1];
      n
  }

  /** The two-word form used for 128-bit keys. */
  function Fls128(hi: Key, lo: Key): (n: nat)
  {
    if Fls(hi) != 0 then Fls(hi) + |lo| else Fls(lo)
  }

  /** Splitting a key into words does not change where its highest set bit is. */
  lemma Fls128IsFls(hi: Key, lo: Key)
    ensures Fls128(hi, lo) == Fls(hi + lo)
  {
    var x := hi + lo;
    var n := Fls128(hi, lo);
    assert forall i :: 0 <= i < |x| ==> x[i] == if i < |hi| then hi[i] else lo[i - |hi|];
    if n == 0 {
      assert Fls(lo) == 0;
      assert forall i :: 0 <= i < |x| ==> !x[i];
    } else {
      assert x[|x| - n];
      assert forall i :: 0 <= i < |x| - n ==> !x[i];
    }
  }

  /** Number of leading bits two keys share, computed as the C code does: from the
      highest set bit of the exclusive-or, one word for IPv4 and two for IPv6. */
  function CommonBits(a: Key, b: Key): (n: nat)
    requires |a| == |b|
    ensures n <= |a| && Agree(a, b, n)
    ensures n < |a| ==> a[n] != b[n]
  {
    var x := Xor(a, b);
    assert forall i :: 0 <= i < |x| ==> x[i] == (a[i] != b[i]);
    if |a| == 128 then
      Fls128IsFls(x[..64], x[64..]);
      assert x[..64] + x[64..] == x;
      assert forall i :: 0 <= i < |x| - Fls(x) ==> !x[i] && a[i] == b[i];
      128 - Fls128(x[..64], x[64..])
    else |a| - Fls(x)
  }

  /** Agreement on `n` bits is equality of the first `n` bits. */
  lemma AgreeIsSamePrefix(a: Key, b: Key, n: nat)
    requires n <= |a| && n <= |b|
    ensures Agree(a, b, n) <==> a[..n] == b[..n]
  {
    if a[..n] == b[..n] {
      forall i | 0 <= i < n ensures a[i] == b[i] {
        assert a[..n][i] == b[..n][i];
      }
    }
  }
}
