/** Fixed-size slots of the XOR code (core/fec.go) and the algebra recovery rests on. */
module FecSlots {
  import opened Bytes

  const SLOT: nat := 2048

  type Slot = s: seq<Byte> | |s| == SLOT witness Zeros(SLOT)

  const ZERO: Slot := Zeros(SLOT)

  function XorSeq(a: seq<Byte>, b: seq<Byte>): (r: seq<Byte>)
    requires |a| == |b|
    ensures |r| == |a|
  {
    if a == [] then [] else XorSeq(a[..|a| - 1], b[..|b| - 1]) + [Xor(a[|a| - 1], b[|b| - 1])]
  }

  function XorSlot(a: Slot, b: Slot): (r: Slot) {
    XorSeq(a, b)
  }

  lemma {:induction false} XorSeqAt(a: seq<Byte>, b: seq<Byte>, i: nat)
    requires i < |a| == |b|
    ensures XorSeq(a, b)[i] == Xor(a[i], b[i])
    decreases |a|
  {
    if i < |a| - 1 { XorSeqAt(a[..|a| - 1], b[..|b| - 1], i); }
  }

  /** What holds of every byte holds of the slot. */
  lemma IsXorSlot(a: Slot, b: Slot, r: Slot)
    requires forall i :: 0 <= i < SLOT ==> r[i] == Xor(a[i], b[i])
    ensures r == XorSlot(a, b)
  {
    forall i | 0 <= i < SLOT ensures r[i] == XorSlot(a, b)[i] { XorSeqAt(a, b, i); }
  }

  lemma XorSlotComm(a: Slot, b: Slot)
    ensures XorSlot(a, b) == XorSlot(b, a)
  {
    forall i | 0 <= i < SLOT ensures XorSlot(b, a)[i] == Xor(a[i], b[i]) {
      XorSeqAt(b, a, i);
      XorLaws(a[i], b[i], 0);
    }
    IsXorSlot(a, b, XorSlot(b, a));
  }

  lemma XorSlotAssoc(a: Slot, b: Slot, c: Slot)
    ensures XorSlot(XorSlot(a, b), c) == XorSlot(a, XorSlot(b, c))
  {
    var l, bc := XorSlot(XorSlot(a, b), c), XorSlot(b, c);
    forall i | 0 <= i < SLOT ensures l[i] == Xor(a[i], bc[i]) {
      XorSeqAt(a, b, i);
      XorSeqAt(b, c, i);
      XorSeqAt(XorSlot(a, b), c, i);
      XorLaws(a[i], b[i], c[i]);
    }
    IsXorSlot(a, bc, l);
  }

  lemma XorSlotInverse(a: Slot)
    ensures XorSlot(a, ZERO) == a && XorSlot(a, a) == ZERO
  {
    forall i | 0 <= i < SLOT ensures a[i] == Xor(a[i], ZERO[i]) && ZERO[i] == Xor(a[i], a[i]) {
      XorLaws(a[i], 0, 0);
    }
    IsXorSlot(a, ZERO, a);
    IsXorSlot(a, a, ZERO);
  }

  /** Slots form a commutative group in which each is its own inverse. */
  lemma XorSlotLaws(a: Slot, b: Slot, c: Slot)
    ensures XorSlot(a, b) == XorSlot(b, a)
    ensures XorSlot(XorSlot(a, b), c) == XorSlot(a, XorSlot(b, c))
    ensures XorSlot(a, ZERO) == a && XorSlot(a, a) == ZERO
  {
    XorSlotComm(a, b);
    XorSlotAssoc(a, b, c);
    XorSlotInverse(a);
  }

  /** Length prefix, frame, zero padding; a frame that does not fit contributes nothing. */
  function SlotOf(frame: Frame): (s: Slot) {
    if |frame| <= SLOT - 2
    then Be16(|frame|) + frame + Zeros(SLOT - 2 - |frame|)
    else ZERO
  }

  /** The frame stored in a slot, if its length prefix is possible. Go's append of no bytes
      to nil is nil, so an empty frame is indistinguishable from none. */
  function FrameOf(s: Slot): (f: Frame) {
    var n := FromBe16(s[..2]);
    if n > SLOT - 2 then [] else s[2..2 + n]
  }

  /** A frame that fits is read back from its slot; one that does not, reads as empty. */
  lemma FrameOfSlotOf(frame: Frame)
    ensures FrameOf(SlotOf(frame)) == if |frame| <= SLOT - 2 then frame else []
  {
    var s := SlotOf(frame);
    if |frame| <= SLOT - 2 {
      assert s[..2] == Be16(|frame|);
      assert s[2..2 + |frame|] == frame;
    } else {
      assert s[..2] == [0, 0];
    }
  }

  /** Combine items[i], i < n, whose index is in `mask`. */
  ghost function MaskFold<T>(op: (T, T) -> T, zero: T, items: seq<T>, mask: set<nat>, n: nat): (r: T)
    requires n <= |items|
    decreases n
  {
    if n == 0 then zero
    else if n - 1 in mask then op(MaskFold(op, zero, items, mask, n - 1), items[n - 1])
    else MaskFold(op, zero, items, mask, n - 1)
  }

  lemma {:induction false} MaskFoldAdd<T(!new)>(op: (T, T) -> T, zero: T, items: seq<T>, mask: set<nat>, j: nat, n: nat)
    requires n <= |items| && j !in mask
    requires forall x, a, b :: op(op(x, a), b) == op(op(x, b), a)
    ensures MaskFold(op, zero, items, mask + {j}, n) ==
            if j < n then op(MaskFold(op, zero, items, mask, n), items[j]) else MaskFold(op, zero, items, mask, n)
    decreases n
  {
    if n > 0 { MaskFoldAdd(op, zero, items, mask, j, n - 1); }
  }

  lemma {:induction false} MaskFoldSame<T>(op: (T, T) -> T, zero: T, items: seq<T>, items': seq<T>, mask: set<nat>, mask': set<nat>, n: nat)
    requires n <= |items| && n <= |items'| && forall i :: 0 <= i < n ==> items[i] == items'[i]
    requires forall i :: 0 <= i < n ==> (i in mask <==> i in mask')
    ensures MaskFold(op, zero, items, mask, n) == MaskFold(op, zero, items', mask', n)
    decreases n
  {
    if n > 0 { MaskFoldSame(op, zero, items, items', mask, mask', n - 1); }
  }

  function Slots(frames: seq<Frame>): (s: seq<Slot>)
    ensures |s| == |frames| && forall i :: 0 <= i < |s| ==> s[i] == SlotOf(frames[i])
  {
    seq(|frames|, i requires 0 <= i < |frames| => SlotOf(frames[i]))
  }

  /** The running accumulator: XOR of the slots of frames[i], i < n, whose index is in `mask`. */
  ghost function XorMask(frames: seq<Frame>, mask: set<nat>, n: nat): (s: Slot)
    requires n <= |frames|
  {
    MaskFold(XorSlot, ZERO, Slots(frames), mask, n)
  }

  /** The order of the last two terms does not matter. */
  lemma XorSlotSwap(x: Slot, a: Slot, b: Slot)
    ensures XorSlot(XorSlot(x, a), b) == XorSlot(XorSlot(x, b), a)
  {
    XorSlotAssoc(x, a, b);
    XorSlotAssoc(x, b, a);
    XorSlotComm(a, b);
  }

  lemma XorMaskAdd(frames: seq<Frame>, mask: set<nat>, j: nat, n: nat)
    requires n <= |frames| && j !in mask
    ensures XorMask(frames, mask + {j}, n) ==
            if j < n then XorSlot(XorMask(frames, mask, n), SlotOf(frames[j])) else XorMask(frames, mask, n)
  {
    forall x: Slot, a: Slot, b: Slot ensures XorSlot(XorSlot(x, a), b) == XorSlot(XorSlot(x, b), a) {
      XorSlotSwap(x, a, b);
    }
    MaskFoldAdd(XorSlot, ZERO, Slots(frames), mask, j, n);
  }

  lemma {:induction false} NothingSeen(frames: seq<Frame>, n: nat)
    requires n <= |frames|
    ensures XorMask(frames, {}, n) == ZERO
  {
    if n > 0 { NothingSeen(frames, n - 1); }
  }

  /** Only indices below `n` matter. */
  lemma XorMaskSame(frames: seq<Frame>, frames': seq<Frame>, mask: set<nat>, mask': set<nat>, n: nat)
    requires n <= |frames| && n <= |frames'| && forall i :: 0 <= i < n ==> frames[i] == frames'[i]
    requires forall i :: 0 <= i < n ==> (i in mask <==> i in mask')
    ensures XorMask(frames, mask, n) == XorMask(frames', mask', n)
  {
    MaskFoldSame(XorSlot, ZERO, Slots(frames), Slots(frames'), mask, mask', n);
  }

  /** The index set 0..n-1. */
  ghost function Below(n: nat): (s: set<nat>)
    ensures forall i: nat :: i in s <==> i < n
  {
    if n == 0 then {} else Below(n - 1) + {n - 1}
  }

  /** The parity of a whole group. */
  ghost function GroupParity(frames: seq<Frame>): (s: Slot) {
    XorMask(frames, Below(|frames|), |frames|)
  }

  lemma ParityOfMore(frames: seq<Frame>, frame: Frame)
    ensures GroupParity(frames + [frame]) == XorSlot(GroupParity(frames), SlotOf(frame))
  {
    var n := |frames|;
    assert (frames + [frame])[..n] == frames == frames[..n];
    XorMaskSame(frames + [frame], frames, Below(n + 1), Below(n), n);
  }

  lemma {:induction false} BelowSize(n: nat)
    ensures |Below(n)| == n
  {
    if n > 0 {
      BelowSize(n - 1);
    }
  }

  lemma SubsetCount(got: set<nat>, n: nat)
    requires got <= Below(n)
    ensures |got| <= n && (|got| == n ==> got == Below(n))
  {
    BelowSize(n);
    assert |Below(n) - got| == n - |got|;
    if |got| == n { assert Below(n) - got == {}; }
  }

  lemma EmptySlot()
    ensures SlotOf([]) == ZERO
  {
  }

  /** The one index a mask with `n - 1` of `n` bits set is missing. */
  lemma TheMissing(mask: set<nat>, n: nat) returns (j: nat)
    requires mask <= Below(n) && |mask| + 1 == n
    ensures j < n && j !in mask && mask + {j} == Below(n)
  {
    BelowSize(n);
    var rest := Below(n) - mask;
    assert |rest| == 1;
    j :| j in rest;
    assert |rest - {j}| == 0;
    assert rest == {j};
  }

  /** With one frame missing, the accumulator and the parity differ by exactly its slot. */
  lemma RecoverMissing(frames: seq<Frame>, mask: set<nat>, j: nat)
    requires j < |frames| && j !in mask && mask + {j} == Below(|frames|)
    ensures XorSlot(XorMask(frames, mask, |frames|), GroupParity(frames)) == SlotOf(frames[j])
  {
    var x, sj := XorMask(frames, mask, |frames|), SlotOf(frames[j]);
    XorMaskAdd(frames, mask, j, |frames|);
    XorSlotLaws(x, x, sj);
    XorSlotLaws(sj, x, x);
    XorSlotLaws(ZERO, sj, x);
  }
}
