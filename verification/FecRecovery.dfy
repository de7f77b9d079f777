/** What a parity packet recovers, and why one `sendData` must not be torn by a resize. */
module FecRecovery {
  import opened Bytes
  import opened FecSlots
  import opened Fec

  datatype Arrival = Arrival(gid: nat, index: nat, size: nat, frame: Frame, now: int)

  function Feed(groups: Groups, arrivals: seq<Arrival>): (groups': Groups) {
    if arrivals == [] then groups
    else
      var a := arrivals[|arrivals| - 1];
      OnData(Feed(groups, arrivals[..|arrivals| - 1]), a.gid, a.index, a.size, a.frame, a.now)
  }

  lemma FeedMore(groups: Groups, rest: seq<Arrival>, a: Arrival)
    ensures Feed(groups, rest + [a]) == OnData(Feed(groups, rest), a.gid, a.index, a.size, a.frame, a.now)
  {
    assert (rest + [a])[..|rest|] == rest;
  }

  /** Arrivals of group `gid` carry its frames, under whatever size; those of other groups
      are anything. */
  ghost predicate Own(arrivals: seq<Arrival>, gid: nat, frames: seq<Frame>) {
    forall i :: 0 <= i < |arrivals| && arrivals[i].gid == gid ==>
      arrivals[i].size > 0 && arrivals[i].index < |frames| && arrivals[i].frame == frames[arrivals[i].index]
  }

  /** Each arrival of the group is stamped with the size that belongs to its index: `last` on
      the last frame of the group, the size of the group on the others. */
  ghost predicate Stamped(arrivals: seq<Arrival>, gid: nat, size: nat, last: nat) {
    forall i :: 0 <= i < |arrivals| && arrivals[i].gid == gid ==>
      arrivals[i].size == if arrivals[i].index + 1 == size then last else size
  }

  ghost predicate Honest(arrivals: seq<Arrival>, gid: nat, frames: seq<Frame>) {
    Own(arrivals, gid, frames) && Stamped(arrivals, gid, |frames|, |frames|)
  }

  /** The indices of group `gid` that arrived. */
  ghost function Arrived(arrivals: seq<Arrival>, gid: nat): (s: set<nat>)
    ensures forall i :: 0 <= i < |arrivals| && arrivals[i].gid == gid ==> arrivals[i].index in s
  {
    if arrivals == [] then {}
    else
      var a := arrivals[|arrivals| - 1];
      Arrived(arrivals[..|arrivals| - 1], gid) + (if a.gid == gid then {a.index} else {})
  }

  /** The decoder's record of `gid` is exactly the frames with index in `got`, under the size
      `size` or `last`. */
  ghost predicate HoldsExactly(groups: Groups, gid: nat, frames: seq<Frame>, got: set<nat>, last: nat) {
    && got <= Below(|frames|)
    && (gid in groups <==> got != {})
    && (gid in groups ==>
          && groups[gid].mask == got && groups[gid].seen == |got|
          && (groups[gid].size == |frames| || groups[gid].size == last)
          && groups[gid].accum == XorMask(frames, got, |frames|))
  }

  lemma HoldsOneMore(groups: Groups, gid: nat, frames: seq<Frame>, got: set<nat>, last: nat, i: nat, size: nat, now: int)
    requires HoldsExactly(groups, gid, frames, got, last) && i < |frames| <= 64
    requires size > 0 && (size == |frames| || size == last)
    ensures HoldsExactly(OnData(groups, gid, i, size, frames[i], now), gid, frames, got + {i}, last)
  {
    NothingSeen(frames, |frames|);
    if i in got {
      assert got + {i} == got;
    } else {
      XorMaskAdd(frames, got, i, |frames|);
    }
  }

  lemma HoldsOthers(groups: Groups, gid: nat, frames: seq<Frame>, got: set<nat>, last: nat, a: Arrival)
    requires HoldsExactly(groups, gid, frames, got, last) && a.gid != gid
    ensures HoldsExactly(OnData(groups, a.gid, a.index, a.size, a.frame, a.now), gid, frames, got, last)
  {
  }

  /** However the packets of a group are ordered, repeated and mixed with other groups, the
      decoder holds exactly the distinct ones. */
  lemma {:induction false} FeedHolds(groups: Groups, arrivals: seq<Arrival>, gid: nat, frames: seq<Frame>, last: nat)
    requires gid !in groups && 2 <= |frames| <= 64
    requires Own(arrivals, gid, frames) && Stamped(arrivals, gid, |frames|, last)
    ensures HoldsExactly(Feed(groups, arrivals), gid, frames, Arrived(arrivals, gid), last)
    decreases |arrivals|
  {
    if arrivals != [] {
      var rest, a := arrivals[..|arrivals| - 1], arrivals[|arrivals| - 1];
      FeedHolds(groups, rest, gid, frames, last);
      if a.gid == gid {
        HoldsOneMore(Feed(groups, rest), gid, frames, Arrived(rest, gid), last, a.index, a.size, a.now);
      } else {
        HoldsOthers(Feed(groups, rest), gid, frames, Arrived(rest, gid), last, a);
        assert Arrived(arrivals, gid) == Arrived(rest, gid);
      }
    }
  }

  /** When the parity of a group arrives, the missing frame comes out exactly when one is
      missing; it is that frame, unless it is too long to have been protected. */
  lemma RecoversExactlyTheMissing(groups: Groups, arrivals: seq<Arrival>, gid: nat, frames: seq<Frame>)
    requires gid !in groups && 2 <= |frames| <= 64 && Honest(arrivals, gid, frames)
    ensures var missing := Below(|frames|) - Arrived(arrivals, gid);
            var out := Recovered(Feed(groups, arrivals), gid, |frames|, GroupParity(frames));
            && (|missing| != 1 ==> out == [])
            && (forall j :: missing == {j} ==> out == if |frames[j]| <= SLOT - 2 then frames[j] else [])
  {
    var got, after := Arrived(arrivals, gid), Feed(groups, arrivals);
    var missing := Below(|frames|) - got;
    FeedHolds(groups, arrivals, gid, frames, |frames|);
    BelowSize(|frames|);
    assert |missing| == |frames| - |got|;
    forall j | missing == {j}
      ensures Recovered(after, gid, |frames|, GroupParity(frames)) == if |frames[j]| <= SLOT - 2 then frames[j] else []
    {
      assert got + {j} == Below(|frames|);
      RecoverMissing(frames, got, j);
      FrameOfSlotOf(frames[j]);
    }
  }

  // ---- a resize in the middle of a send -------------------------------------------

  /** The encoder has folded `frames` into the group it is filling. */
  ghost predicate Holding(e: Enc, frames: seq<Frame>) {
    2 <= e.groupSize <= 64 && |frames| == e.index < e.groupSize && e.accum == GroupParity(frames)
  }

  /** A tear changes nothing but the sizes on the last data packet and on the parity. */
  lemma TornPackets(e: Enc, frames: seq<Frame>, frame: Frame, n1: int, n2: int)
    requires Holding(e, frames)
    ensures |frames| + 1 < e.groupSize ==> TornSent(e, frame, n1, n2) == Sent(e, frame)
    ensures |frames| + 1 == e.groupSize ==>
              TornSent(e, frame, n1, n2) ==
              [Data(e.groupID, |frames|, Clamp(n1), frame), Parity(e.groupID, Clamp(n2), GroupParity(frames + [frame]))]
  {
    ParityOfMore(frames, frame);
  }

  /** Whatever the frames of a group of `size` and whatever arrives of them, in any order: with
      the size `last` on the last frame and `parity` on the parity packet, the receiver
      recovers nothing or one of the frames. */
  ghost predicate Harmless(size: nat, last: nat, parity: nat) {
    forall groups, arrivals, gid, frames ::
      |frames| == size && gid !in groups && Own(arrivals, gid, frames) && Stamped(arrivals, gid, size, last) ==>
        Recovers(groups, arrivals, gid, frames, parity)
  }

  ghost predicate Recovers(groups: Groups, arrivals: seq<Arrival>, gid: nat, frames: seq<Frame>, parity: nat) {
    var out := Recovered(Feed(groups, arrivals), gid, parity, GroupParity(frames));
    out == [] || out in frames
  }

  /** With the sizes `last` and `parity` not the same smaller size, only frames come out. */
  lemma OtherSizesAreSafe(groups: Groups, arrivals: seq<Arrival>, gid: nat, frames: seq<Frame>, last: nat, parity: nat)
    requires gid !in groups && 2 <= |frames| <= 64 && last > 0
    requires Own(arrivals, gid, frames) && Stamped(arrivals, gid, |frames|, last)
    requires !(last == parity < |frames|)
    ensures Recovers(groups, arrivals, gid, frames, parity)
  {
    var after, got := Feed(groups, arrivals), Arrived(arrivals, gid);
    FeedHolds(groups, arrivals, gid, frames, last);
    BelowSize(|frames|);
    if Recovered(after, gid, parity, GroupParity(frames)) != [] {
      SubsetCount(got, |frames|);
      if |got| + 1 == |frames| {
        var j := TheMissing(got, |frames|);
        RecoverMissing(frames, got, j);
        FrameOfSlotOf(frames[j]);
      } else {
        XorSlotInverse(GroupParity(frames));
        FrameOfSlotOf([]);
        EmptySlot();
      }
    }
  }

  /** Two frames of different lengths, then empty ones. */
  function OddGroup(size: nat): (frames: seq<Frame>)
    requires size >= 2
    ensures |frames| == size && frames[0] == [7] && frames[1] == [7, 7]
    ensures forall i :: 2 <= i < size ==> frames[i] == []
  {
    [[7], [7, 7]] + seq(size - 2, _ => [])
  }

  lemma {:induction false} OddParity(size: nat)
    requires size >= 2
    ensures GroupParity(OddGroup(size)) == XorSlot(SlotOf([7]), SlotOf([7, 7]))
    decreases size
  {
    if size == 2 {
      assert OddGroup(2) == [[7]] + [[7, 7]] && [[7]] == [] + [[7]];
      ParityOfMore([], [7]);
      ParityOfMore([[7]], [7, 7]);
      NothingSeen([], 0);
      XorSlotLaws(ZERO, SlotOf([7]), ZERO);
      XorSlotInverse(SlotOf([7]));
    } else {
      OddParity(size - 1);
      assert OddGroup(size) == OddGroup(size - 1) + [[]];
      ParityOfMore(OddGroup(size - 1), []);
      EmptySlot();
      XorSlotInverse(GroupParity(OddGroup(size - 1)));
    }
  }

  /** The last `n` frames of the group arrive, the very last one first. */
  function LastFirst(size: nat, last: nat, n: nat): (arrivals: seq<Arrival>)
    requires n <= size
    ensures |arrivals| == n
    ensures forall i :: 0 <= i < n ==> arrivals[i] == Arrival(1, size - 1 - i, if i == 0 then last else size, [], 0)
  {
    seq(n, i requires 0 <= i < n => Arrival(1, size - 1 - i, if i == 0 then last else size, [], 0))
  }

  /** The decoder has seen `n` empty frames of group 1, the first under the size `last`. */
  ghost predicate EmptyHeld(groups: Groups, size: nat, last: nat, n: nat) {
    && 1 in groups && groups[1].size == last && groups[1].seen == n && groups[1].accum == ZERO
    && forall i :: i in groups[1].mask ==> size - n <= i
  }

  lemma EmptyArrives(groups: Groups, size: nat, last: nat, n: nat, stamp: nat)
    requires 0 < n < size <= 64 && stamp > 0
    requires if n == 1 then groups == map[] && stamp == last else EmptyHeld(groups, size, last, n - 1)
    ensures EmptyHeld(OnData(groups, 1, size - n, stamp, [], 0), size, last, n)
  {
    EmptySlot();
    XorSlotInverse(ZERO);
  }

  lemma {:induction false} LastFirstHeld(size: nat, last: nat, n: nat)
    requires 0 < n < size <= 64 && last > 0
    ensures EmptyHeld(Feed(map[], LastFirst(size, last, n)), size, last, n)
    decreases n
  {
    var rest, a := LastFirst(size, last, n - 1), Arrival(1, size - n, if n == 1 then last else size, [], 0);
    assert LastFirst(size, last, n) == rest + [a];
    FeedMore(map[], rest, a);
    if n > 1 { LastFirstHeld(size, last, n - 1); } else { assert rest == []; }
    EmptyArrives(Feed(map[], rest), size, last, n, a.size);
  }

  lemma MixedLengths()
    ensures |FrameOf(XorSlot(SlotOf([7]), SlotOf([7, 7])))| == 3
  {
    var s0, s1 := SlotOf([7]), SlotOf([7, 7]);
    assert s0[0] == 0 && s0[1] == 1 && s1[0] == 0 && s1[1] == 2;
    XorOneTwo();
    XorSeqAt(s0, s1, 0);
    XorSeqAt(s0, s1, 1);
    assert XorSlot(s0, s1)[..2] == [0, 3];
  }

  lemma XorOneTwo()
    ensures Xor(0, 0) == 0 && Xor(1, 2) == 3
  {
    XorLaws(0, 0, 0);
    assert XorBits(0, 0, 6) == 0 by { XorZero(0, 6); }
    assert XorBits(0, 1, 7) == 1 + 2 * XorBits(0, 0, 6);
    assert XorBits(1, 2, 8) == 1 + 2 * XorBits(0, 1, 7);
  }

  lemma OddYield(groups: Groups, size: nat, last: nat)
    requires size >= 2 && 1 in groups && groups[1].size == last == groups[1].seen + 1 && groups[1].accum == ZERO
    ensures |Recovered(groups, 1, last, GroupParity(OddGroup(size)))| == 3
  {
    var parity := GroupParity(OddGroup(size));
    OddParity(size);
    XorSlotComm(ZERO, parity);
    XorSlotInverse(parity);
    MixedLengths();
  }

  lemma OddIsShort(size: nat, f: Frame)
    requires size >= 2 && |f| == 3
    ensures f !in OddGroup(size)
  {
  }

  /** A group whose last frame and parity both carry a smaller size: when the last frame and
      enough others arrive, the receiver writes the exclusive-or of all that are missing, a
      frame nobody sent. */
  lemma SmallerSizeInvents(size: nat, last: nat)
    requires 2 <= last < size <= 64
    ensures var arrivals, frames := LastFirst(size, last, last - 1), OddGroup(size);
            && Own(arrivals, 1, frames) && Stamped(arrivals, 1, size, last)
            && !Recovers(map[], arrivals, 1, frames, last)
  {
    var after := Feed(map[], LastFirst(size, last, last - 1));
    LastFirstHeld(size, last, last - 1);
    OddYield(after, size, last);
    OddIsShort(size, Recovered(after, 1, last, GroupParity(OddGroup(size))));
  }

  /** A send torn by resizes to `n1` and `n2` is harmless exactly when these do not both put
      the same smaller size on the group; one tear point alone is harmless exactly when the
      resize does not shrink the group before the data packet is stamped. */
  lemma TornIsHarmlessIff(size: nat, n1: int, n2: int)
    requires 2 <= size <= 64
    ensures Harmless(size, Clamp(n1), Clamp(n2)) <==> !(Clamp(n1) == Clamp(n2) < size)
    ensures Harmless(size, Clamp(n1), Clamp(n1)) <==> Clamp(n1) >= size
    ensures Harmless(size, size, Clamp(n2))
  {
    HarmlessIff(size, Clamp(n1), Clamp(n2));
    HarmlessIff(size, Clamp(n1), Clamp(n1));
    HarmlessIff(size, size, Clamp(n2));
  }

  lemma HarmlessIff(size: nat, last: nat, parity: nat)
    requires 2 <= size <= 64 && 2 <= last
    ensures Harmless(size, last, parity) <==> !(last == parity < size)
  {
    if last == parity < size {
      SmallerSizeInvents(size, last);
      assert !Recovers(map[], LastFirst(size, last, last - 1), 1, OddGroup(size), parity);
    } else {
      forall groups, arrivals, gid, frames |
        |frames| == size && gid !in groups && Own(arrivals, gid, frames) && Stamped(arrivals, gid, size, last)
        ensures Recovers(groups, arrivals, gid, frames, parity)
      {
        OtherSizesAreSafe(groups, arrivals, gid, frames, last, parity);
      }
    }
  }
}
