/** Whole runs of one direction of the tunnel: an encoder, a network that loses, repeats and
    reorders, and a decoder that collects stale groups. */
module FecRun {
  import opened Bytes
  import opened FecSlots
  import opened Fec

  /** The sizes on the last data packet and on the parity packet of a group. */
  datatype Stamps = Stamps(last: nat, parity: nat)

  /** `hist` records the frames given to `sendData`, by group, and `stamps` what the packets of
      a finished group carry; everything else is what the two ends and the network hold. */
  datatype Sys = Sys(enc: Enc, groups: Groups, sent: set<Packet>, sink: seq<Frame>,
                     hist: map<nat, seq<Frame>>, stamps: map<nat, Stamps>)

  datatype Event =
    | Send(frame: Frame)
    | Tear(frame: Frame, n1: int, n2: int)
    | Resize(n: int)
    | Deliver(p: Packet, now: int)
    | Collect(maxAge: int, now: int)

  function Start(groupSize: int): (s: Sys) {
    Sys(EncInit(groupSize), map[], {}, [], map[], map[])
  }

  function FramesOf(s: Sys, gid: nat): (fs: seq<Frame>) {
    if gid in s.hist then s.hist[gid] else []
  }

  /** Only packets that were sent arrive; how often and in which order is free. */
  predicate Possible(s: Sys, ev: Event) {
    ev.Deliver? ==> ev.p in s.sent && Fits(ev.p)
  }

  /** The event completes the group being filled. */
  predicate Completes(s: Sys, ev: Event) {
    (ev.Send? || ev.Tear?) && s.enc.index + 1 >= s.enc.groupSize
  }

  /** A frame is sent: the encoder, the packets and, if the group is complete, its stamps. */
  function Sending(s: Sys, frame: Frame, enc: Enc, ps: seq<Packet>, complete: bool, st: Stamps): (s': Sys) {
    s.(enc := enc, sent := s.sent + (set p | p in ps),
       hist := s.hist[s.enc.groupID := FramesOf(s, s.enc.groupID) + [frame]],
       stamps := if complete then s.stamps[s.enc.groupID := st] else s.stamps)
  }

  /** `Tear` is a send with resizes inside it, as in `TornSent`. */
  function Step(s: Sys, ev: Event): (s': Sys)
    requires Possible(s, ev)
  {
    match ev
    case Send(frame) =>
      Sending(s, frame, AfterSend(s.enc, frame), Sent(s.enc, frame), Completes(s, ev),
              Stamps(s.enc.groupSize, s.enc.groupSize))
    case Tear(frame, n1, n2) =>
      Sending(s, frame, AfterTorn(s.enc, frame, n1, n2), TornSent(s.enc, frame, n1, n2), Completes(s, ev),
              Stamps(Clamp(n1), Clamp(n2)))
    case Resize(n) => s.(enc := EncResize(s.enc, n))
    case Deliver(p, now) =>
      s.(groups := AfterPlain(s.groups, Plain(p), now), sink := s.sink + Written(s.groups, Plain(p)))
    case Collect(maxAge, now) => s.(groups := Collected(s.groups, maxAge, now))
  }

  // ---- invariant ------------------------------------------------------------------

  /** Frames per group: the final count for a finished group, the size in force for the
      group being filled. */
  function SizeOf(s: Sys, gid: nat): (n: nat) {
    if gid < s.enc.groupID then |FramesOf(s, gid)| else s.enc.groupSize
  }

  /** The two sizes are not one size smaller than the group. */
  predicate StampsOk(st: Stamps, size: nat) {
    2 <= st.last <= 64 && 2 <= st.parity <= 64 && !(st.last == st.parity < size)
  }

  /** The group being filled. */
  ghost predicate FillingOk(s: Sys) {
    && 2 <= s.enc.groupSize <= 64 && s.enc.index < s.enc.groupSize && 1 <= s.enc.groupID
    && |FramesOf(s, s.enc.groupID)| == s.enc.index
    && s.enc.accum == GroupParity(FramesOf(s, s.enc.groupID))
  }

  /** The finished ones. */
  ghost predicate HistOk(s: Sys) {
    && (forall gid :: gid in s.hist ==> gid <= s.enc.groupID && 0 < |s.hist[gid]| <= 64
                                        && (gid < s.enc.groupID ==> 2 <= |s.hist[gid]|))
    && (forall gid :: gid in s.hist && gid < s.enc.groupID ==> gid in s.stamps && StampsOk(s.stamps[gid], |s.hist[gid]|))
  }

  ghost predicate EncOk(s: Sys) {
    FillingOk(s) && HistOk(s)
  }

  /** The size on a packet of group `gid`: that of the group, but its last data packet and its
      parity carry the stamps. */
  ghost predicate SizeOk(s: Sys, p: Packet) {
    if p.gid < s.enc.groupID && (p.Data? ==> p.index + 1 == |FramesOf(s, p.gid)|)
    then p.gid in s.stamps && p.size == if p.Data? then s.stamps[p.gid].last else s.stamps[p.gid].parity
    else p.size == SizeOf(s, p.gid)
  }

  ghost predicate PacketOk(s: Sys, p: Packet) {
    && p.gid in s.hist && SizeOk(s, p) && 2 <= p.size <= 64
    && match p
       case Data(gid, i, _, frame) => i < |s.hist[gid]| && s.hist[gid][i] == frame
       case Parity(gid, _, parity) => gid < s.enc.groupID && parity == GroupParity(s.hist[gid])
  }

  /** The decoder files a group under the size on the packet that came first. */
  ghost predicate FiledOk(s: Sys, gid: nat, size: nat) {
    size == SizeOf(s, gid) || (gid < s.enc.groupID && gid in s.stamps && size == s.stamps[gid].last)
  }

  /** `seen` counts the one-bits of `mask`, and `accum` is the XOR of the slots they name. */
  ghost predicate GroupOk(s: Sys, gid: nat) {
    gid in s.groups ==>
      var g := s.groups[gid];
      && gid in s.hist && FiledOk(s, gid, g.size)
      && g.mask <= Below(|s.hist[gid]|) && g.seen == |g.mask|
      && g.accum == XorMask(s.hist[gid], g.mask, |s.hist[gid]|)
  }

  ghost predicate Given(s: Sys, f: Frame) {
    exists gid, i :: gid in s.hist && 0 <= i < |s.hist[gid]| && s.hist[gid][i] == f
  }

  ghost predicate Inv(s: Sys) {
    && EncOk(s)
    && (forall p :: p in s.sent ==> PacketOk(s, p))
    && (forall gid {:trigger GroupOk(s, gid)} :: GroupOk(s, gid))
    && (forall f :: f in s.sink ==> Given(s, f))
  }

  // ---- each step keeps it -----------------------------------------------------------

  /** Appending a frame to its group does not disturb what is known of the group so far. */
  lemma HistGrows(fs: seq<Frame>, frame: Frame, mask: set<nat>)
    requires mask <= Below(|fs|)
    ensures XorMask(fs + [frame], mask, |fs| + 1) == XorMask(fs, mask, |fs|)
    ensures mask <= Below(|fs| + 1)
  {
    assert (fs + [frame])[..|fs|] == fs[..|fs|];
    XorMaskSame(fs + [frame], fs, mask, mask, |fs|);
    assert |fs| !in mask;
  }

  lemma GivenStays(s: Sys, s': Sys, f: Frame)
    requires Given(s, f)
    requires forall gid :: gid in s.hist ==> gid in s'.hist && s.hist[gid] <= s'.hist[gid]
    ensures Given(s', f)
  {
    var gid, i :| gid in s.hist && 0 <= i < |s.hist[gid]| && s.hist[gid][i] == f;
    assert s'.hist[gid][i] == f;
  }

  /** What one send changes: the group's history grows by the frame, and the encoder moves
      on in the group or to the next one. */
  ghost predicate SendsOne(s: Sys, s': Sys, frame: Frame, st: Stamps) {
    var gid, size, last := s.enc.groupID, s.enc.groupSize, s.enc.index + 1 >= s.enc.groupSize;
    var acc := XorSlot(s.enc.accum, SlotOf(frame));
    && s'.groups == s.groups && s'.sink == s.sink && s'.hist == s.hist[gid := FramesOf(s, gid) + [frame]]
    && s'.stamps == (if last then s.stamps[gid := st] else s.stamps)
    && s'.enc == (if last then Enc(st.parity, gid + 1, 0, ZERO) else Enc(size, gid, s.enc.index + 1, acc))
    && s'.sent == s.sent + {Data(gid, s.enc.index, if last then st.last else size, frame)}
                  + (if last then {Parity(gid, st.parity, acc)} else {})
  }

  /** The event does not complete the last group before the 32-bit group id starts over. */
  predicate KeepsIdsApart(s: Sys, ev: Event) {
    Completes(s, ev) ==> s.enc.groupID + 1 < 0x1_0000_0000
  }

  /** The resizes inside the send do not put one smaller size on the group's last two packets. */
  predicate KeepsSizes(s: Sys, ev: Event) {
    ev.Tear? && Completes(s, ev) ==> !(Clamp(ev.n1) == Clamp(ev.n2) < s.enc.groupSize)
  }

  /** The packets of one send, spelled out. */
  lemma SentSet(e: Enc, frame: Frame)
    ensures var last := e.index + 1 >= e.groupSize;
            (set p | p in Sent(e, frame)) ==
              {Data(e.groupID, e.index, e.groupSize, frame)}
              + (if last then {Parity(e.groupID, e.groupSize, XorSlot(e.accum, SlotOf(frame)))} else {})
  {
    assert Sent(e, frame)[0] == Data(e.groupID, e.index, e.groupSize, frame);
  }

  lemma TornSet(e: Enc, frame: Frame, n1: int, n2: int)
    ensures var last := e.index + 1 >= e.groupSize;
            (set p | p in TornSent(e, frame, n1, n2)) ==
              {Data(e.groupID, e.index, if last then Clamp(n1) else e.groupSize, frame)}
              + (if last then {Parity(e.groupID, Clamp(n2), XorSlot(e.accum, SlotOf(frame)))} else {})
  {
    assert TornSent(e, frame, n1, n2)[0].Data?;
  }

  /** The encoder after a send, spelled out. */
  lemma AfterSends(e: Enc, frame: Frame, n1: int, n2: int)
    requires e.index + 1 >= e.groupSize ==> e.groupID + 1 < 0x1_0000_0000
    ensures var acc := XorSlot(e.accum, SlotOf(frame));
            if e.index + 1 >= e.groupSize
            then AfterSend(e, frame) == Enc(e.groupSize, e.groupID + 1, 0, ZERO)
                 && AfterTorn(e, frame, n1, n2) == Enc(Clamp(n2), e.groupID + 1, 0, ZERO)
            else AfterSend(e, frame) == AfterTorn(e, frame, n1, n2) == Enc(e.groupSize, e.groupID, e.index + 1, acc)
  {
  }

  lemma SendDoes(s: Sys, frame: Frame)
    requires KeepsIdsApart(s, Send(frame))
    ensures SendsOne(s, Step(s, Send(frame)), frame, Stamps(s.enc.groupSize, s.enc.groupSize))
  {
    SentSet(s.enc, frame);
    AfterSends(s.enc, frame, 0, 0);
  }

  lemma TearDoes(s: Sys, frame: Frame, n1: int, n2: int)
    requires KeepsIdsApart(s, Tear(frame, n1, n2))
    ensures SendsOne(s, Step(s, Tear(frame, n1, n2)), frame, Stamps(Clamp(n1), Clamp(n2)))
  {
    TornSet(s.enc, frame, n1, n2);
    AfterSends(s.enc, frame, n1, n2);
  }

  lemma SendKeepsFilling(s: Sys, s': Sys, frame: Frame, st: Stamps)
    requires EncOk(s) && SendsOne(s, s', frame, st) && StampsOk(st, s.enc.groupSize)
    ensures FillingOk(s')
  {
    if s.enc.index + 1 >= s.enc.groupSize {
      assert s.enc.groupID + 1 !in s.hist;
      assert GroupParity([]) == ZERO;
    } else {
      ParityOfMore(FramesOf(s, s.enc.groupID), frame);
    }
  }

  lemma SendKeepsHist(s: Sys, s': Sys, frame: Frame, st: Stamps)
    requires EncOk(s) && SendsOne(s, s', frame, st) && StampsOk(st, s.enc.groupSize)
    ensures HistOk(s')
  {
    forall gid | gid in s'.hist && gid < s'.enc.groupID
      ensures gid in s'.stamps && StampsOk(s'.stamps[gid], |s'.hist[gid]|)
    {
      if gid != s.enc.groupID { assert gid in s.hist; }
    }
  }

  lemma SendKeepsPacket(s: Sys, s': Sys, frame: Frame, st: Stamps, p: Packet)
    requires EncOk(s) && SendsOne(s, s', frame, st) && StampsOk(st, s.enc.groupSize)
    requires p in s'.sent && (p in s.sent ==> PacketOk(s, p))
    ensures PacketOk(s', p)
  {
    ParityOfMore(FramesOf(s, s.enc.groupID), frame);
  }

  lemma SendKeepsOwnGroup(s: Sys, s': Sys, frame: Frame, st: Stamps, gid: nat)
    requires EncOk(s) && SendsOne(s, s', frame, st) && GroupOk(s, gid) && gid == s.enc.groupID && gid in s.groups
    ensures GroupOk(s', gid)
  {
    var fs := s.hist[gid];
    HistGrows(fs, frame, s.groups[gid].mask);
    assert s'.hist[gid] == fs + [frame] && |s'.hist[gid]| == |fs| + 1;
    assert FiledOk(s', gid, s.groups[gid].size);
  }

  lemma SendKeepsGroup(s: Sys, s': Sys, frame: Frame, st: Stamps, gid: nat)
    requires EncOk(s) && SendsOne(s, s', frame, st) && GroupOk(s, gid)
    ensures GroupOk(s', gid)
  {
    if gid in s.groups {
      if gid == s.enc.groupID {
        SendKeepsOwnGroup(s, s', frame, st, gid);
      } else {
        assert s'.hist[gid] == s.hist[gid];
        assert FiledOk(s', gid, s.groups[gid].size);
      }
    }
  }

  /** A send keeps the invariant, also one torn by resizes. */
  lemma SendKeeps(s: Sys, s': Sys, frame: Frame, st: Stamps)
    requires Inv(s) && SendsOne(s, s', frame, st)
    requires s.enc.index + 1 >= s.enc.groupSize ==> StampsOk(st, s.enc.groupSize)
    ensures Inv(s')
  {
    var st' := if s.enc.index + 1 >= s.enc.groupSize then st else Stamps(s.enc.groupSize, s.enc.groupSize);
    SendKeepsFilling(s, s', frame, st');
    SendKeepsHist(s, s', frame, st');
    forall p | p in s'.sent ensures PacketOk(s', p) { SendKeepsPacket(s, s', frame, st', p); }
    forall gid ensures GroupOk(s', gid) { assert GroupOk(s, gid); SendKeepsGroup(s, s', frame, st', gid); }
    forall f | f in s'.sink ensures Given(s', f) { GivenStays(s, s', f); }
  }

  lemma ResizeKeeps(s: Sys, n: int)
    requires Inv(s)
    ensures Inv(Step(s, Resize(n)))
  {
    var s' := Step(s, Resize(n));
    forall p | p in s'.sent ensures PacketOk(s', p) { assert PacketOk(s, p); }
    forall gid ensures GroupOk(s', gid) { assert GroupOk(s, gid); }
    forall f | f in s'.sink ensures Given(s', f) { GivenStays(s, s', f); }
  }

  lemma CollectKeeps(s: Sys, maxAge: int, now: int)
    requires Inv(s)
    ensures Inv(Step(s, Collect(maxAge, now)))
  {
    var s' := Step(s, Collect(maxAge, now));
    forall p | p in s'.sent ensures PacketOk(s', p) { assert PacketOk(s, p); }
    forall gid ensures GroupOk(s', gid) { assert GroupOk(s, gid); }
    forall f | f in s'.sink ensures Given(s', f) { GivenStays(s, s', f); }
  }

  /** A data packet of a group of `hist` is folded into what the decoder holds of it. */
  lemma FoldKeepsGroup(hist: seq<Frame>, g: Group, i: nat, now: int)
    requires i < |hist| && g.mask <= Below(|hist|) && g.seen == |g.mask| && g.accum == XorMask(hist, g.mask, |hist|)
    requires i !in g.mask
    ensures var mask := g.mask + {i};
            mask <= Below(|hist|) && g.seen + 1 == |mask| && XorSlot(g.accum, SlotOf(hist[i])) == XorMask(hist, mask, |hist|)
  {
    XorMaskAdd(hist, g.mask, i, |hist|);
  }

  lemma DeliverDataKeepsGroup(s: Sys, p: Packet, now: int, gid: nat)
    requires PacketOk(s, p) && p.Data? && GroupOk(s, gid)
    ensures GroupOk(s.(groups := OnData(s.groups, p.gid, p.index, p.size, p.frame, now)), gid)
  {
    if gid == p.gid {
      var g := GroupFor(s.groups, gid, p.size);
      NothingSeen(s.hist[gid], |s.hist[gid]|);
      if p.index !in g.mask { FoldKeepsGroup(s.hist[gid], g, p.index, now); }
    }
  }

  lemma DeliverDataKeeps(s: Sys, p: Packet, now: int)
    requires Inv(s) && Possible(s, Deliver(p, now)) && p.Data?
    ensures Inv(Step(s, Deliver(p, now)))
  {
    var s' := Step(s, Deliver(p, now));
    assert PacketOk(s, p);
    PlainRoundTrip(s.groups, p, now);
    forall q | q in s'.sent ensures PacketOk(s', q) { assert PacketOk(s, q); }
    forall gid ensures GroupOk(s', gid) {
      assert GroupOk(s, gid);
      DeliverDataKeepsGroup(s, p, now, gid);
    }
    forall f | f in s'.sink ensures Given(s', f) {
      if f in s.sink { GivenStays(s, s', f); } else { assert s'.hist[p.gid][p.index] == f; }
    }
  }

  /** The indices of a group that the decoder holds. */
  function Held(s: Sys, gid: nat): (mask: set<nat>) {
    if gid in s.groups then s.groups[gid].mask else {}
  }

  /** Parity and record of the group carry the number of its frames. A group whose sends were
      not torn is never anything else. */
  predicate Intact(s: Sys, p: Packet) {
    p.gid in s.hist && p.size == |s.hist[p.gid]| && (p.gid in s.groups ==> s.groups[p.gid].size == p.size)
  }

  /** The one missing frame of a group, if it is not too long to be protected. */
  ghost predicate IsTheMissing(fs: seq<Frame>, missing: set<nat>, out: Frame) {
    && (|missing| != 1 ==> out == [])
    && (forall j :: missing == {j} ==> j < |fs| && out == if |fs[j]| <= SLOT - 2 then fs[j] else [])
  }

  /** What a parity packet recovers from a group under its own size. */
  lemma RecoveredIsMissing(s: Sys, p: Packet)
    requires Inv(s) && p in s.sent && p.Parity? && Intact(s, p)
    ensures var fs := s.hist[p.gid];
            var missing := Below(|fs|) - Held(s, p.gid);
            IsTheMissing(fs, missing, Recovered(s.groups, p.gid, p.size, p.parity))
  {
    assert PacketOk(s, p) && GroupOk(s, p.gid);
    var fs, mask := s.hist[p.gid], Held(s, p.gid);
    BelowSize(|fs|);
    assert |Below(|fs|) - mask| == |fs| - |mask|;
    forall j | Below(|fs|) - mask == {j}
      ensures j < |fs| && Recovered(s.groups, p.gid, p.size, p.parity) == if |fs[j]| <= SLOT - 2 then fs[j] else []
    {
      assert j in {j};
      assert mask + {j} == Below(|fs|);
      RecoverMissing(fs, mask, j);
      FrameOfSlotOf(fs[j]);
    }
  }

  /** Under other sizes nothing is recovered: if they agree they exceed the group, whose frames
      have then all arrived, and they cancel the parity. */
  lemma OtherSizesGiveNothing(s: Sys, p: Packet)
    requires Inv(s) && p in s.sent && p.Parity? && !Intact(s, p)
    ensures p.gid in s.hist && Recovered(s.groups, p.gid, p.size, p.parity) == []
  {
    assert PacketOk(s, p) && GroupOk(s, p.gid);
    if p.gid in s.groups && s.groups[p.gid].size == p.size && p.size - s.groups[p.gid].seen == 1 {
      var fs := s.hist[p.gid];
      SubsetCount(s.groups[p.gid].mask, |fs|);
      XorSlotInverse(GroupParity(fs));
      FrameOfSlotOf([]);
      EmptySlot();
    }
  }

  lemma UntornIsIntact(s: Sys, p: Packet)
    requires Inv(s) && p in s.sent && p.Parity?
    ensures p.gid in s.hist && p.gid in s.stamps
    ensures s.stamps[p.gid].last == s.stamps[p.gid].parity == |s.hist[p.gid]| ==> Intact(s, p)
  {
    assert PacketOk(s, p) && GroupOk(s, p.gid);
  }

  /** Whatever a parity packet makes the decoder write is a frame of its own group. */
  lemma RecoveredIsOwn(s: Sys, p: Packet)
    requires Inv(s) && p in s.sent && p.Parity?
    ensures p.gid in s.hist
    ensures var out := Recovered(s.groups, p.gid, p.size, p.parity); out != [] ==> out in s.hist[p.gid]
  {
    if Intact(s, p) {
      RecoveredIsMissing(s, p);
      var missing := Below(|s.hist[p.gid]|) - Held(s, p.gid);
      if |missing| == 1 {
        var j :| j in missing;
        assert |missing - {j}| == 0;
        assert missing == {j};
      }
    } else {
      OtherSizesGiveNothing(s, p);
    }
  }

  /** A parity packet drops its group and may add one of its frames to the sink. */
  ghost predicate TakesParity(s: Sys, s': Sys, gid: nat) {
    && s'.enc == s.enc && s'.sent == s.sent && s'.hist == s.hist && s'.stamps == s.stamps && s'.groups == s.groups - {gid}
    && gid in s.hist
    && (s'.sink == s.sink || exists f :: f in s.hist[gid] && s'.sink == s.sink + [f])
  }

  lemma ParityStep(s: Sys, p: Packet, now: int)
    requires Possible(s, Deliver(p, now)) && p.Parity?
    ensures var out := Recovered(s.groups, p.gid, p.size, p.parity);
            Step(s, Deliver(p, now)) == s.(groups := s.groups - {p.gid}, sink := s.sink + if out == [] then [] else [out])
  {
    PlainRoundTrip(s.groups, p, now);
  }

  lemma ParityDoes(s: Sys, p: Packet, now: int)
    requires Inv(s) && Possible(s, Deliver(p, now)) && p.Parity?
    ensures TakesParity(s, Step(s, Deliver(p, now)), p.gid)
  {
    var s', out := Step(s, Deliver(p, now)), Recovered(s.groups, p.gid, p.size, p.parity);
    ParityStep(s, p, now);
    RecoveredIsOwn(s, p);
    if out != [] { assert s'.sink == s.sink + [out]; } else { assert s'.sink == s.sink; }
  }

  lemma ParityKeepsSink(s: Sys, s': Sys, gid: nat, f: Frame)
    requires TakesParity(s, s', gid) && f in s'.sink && (f in s.sink ==> Given(s, f))
    ensures Given(s', f)
  {
    if f in s.sink {
      GivenStays(s, s', f);
    } else {
      var i :| 0 <= i < |s.hist[gid]| && s.hist[gid][i] == f;
      assert s'.hist[gid][i] == f;
    }
  }

  lemma DeliverParityKeeps(s: Sys, p: Packet, now: int)
    requires Inv(s) && Possible(s, Deliver(p, now)) && p.Parity?
    ensures Inv(Step(s, Deliver(p, now)))
  {
    var s' := Step(s, Deliver(p, now));
    ParityDoes(s, p, now);
    forall q | q in s'.sent ensures PacketOk(s', q) { assert PacketOk(s, q); }
    forall gid ensures GroupOk(s', gid) { assert GroupOk(s, gid); }
    forall f | f in s'.sink ensures Given(s', f) { ParityKeepsSink(s, s', p.gid, f); }
  }

  lemma StepKeeps(s: Sys, ev: Event)
    requires Inv(s) && Possible(s, ev) && KeepsIdsApart(s, ev) && KeepsSizes(s, ev)
    ensures Inv(Step(s, ev))
  {
    match ev
    case Send(frame) =>
      SendDoes(s, frame);
      SendKeeps(s, Step(s, ev), frame, Stamps(s.enc.groupSize, s.enc.groupSize));
    case Tear(frame, n1, n2) =>
      TearDoes(s, frame, n1, n2);
      SendKeeps(s, Step(s, ev), frame, Stamps(Clamp(n1), Clamp(n2)));
    case Resize(n) => ResizeKeeps(s, n);
    case Deliver(p, now) => if p.Data? { DeliverDataKeeps(s, p, now); } else { DeliverParityKeeps(s, p, now); }
    case Collect(maxAge, now) => CollectKeeps(s, maxAge, now);
  }

  // ---- runs -------------------------------------------------------------------------

  /** `states` is a run under `evs` from `Start(groupSize)`. */
  ghost predicate IsRun(groupSize: int, evs: seq<Event>, states: seq<Sys>) {
    && |states| == |evs| + 1 && states[0] == Start(groupSize)
    && forall i :: 0 <= i < |evs| ==> Possible(states[i], evs[i]) && states[i + 1] == Step(states[i], evs[i])
  }

  /** No group id is used twice, and no tear puts one smaller size on the last two packets of
      its group. */
  ghost predicate IsOrderly(evs: seq<Event>, states: seq<Sys>) {
    forall i :: 0 <= i < |evs| && i < |states| ==> KeepsIdsApart(states[i], evs[i]) && KeepsSizes(states[i], evs[i])
  }

  lemma {:induction false} RunKeeps(groupSize: int, evs: seq<Event>, states: seq<Sys>, k: nat)
    requires IsRun(groupSize, evs, states) && IsOrderly(evs, states) && k <= |evs|
    ensures Inv(states[k])
  {
    if k == 0 {
      assert GroupParity([]) == ZERO;
    } else {
      RunKeeps(groupSize, evs, states, k - 1);
      StepKeeps(states[k - 1], evs[k - 1]);
    }
  }

  /** In every orderly run, every frame written to the sink is a frame that was given to
      `sendData`. */
  lemma OnlySentFramesArrive(groupSize: int, evs: seq<Event>, states: seq<Sys>, f: Frame)
    requires IsRun(groupSize, evs, states) && IsOrderly(evs, states)
    requires f in states[|evs|].sink
    ensures Given(states[|evs|], f)
  {
    RunKeeps(groupSize, evs, states, |evs|);
  }

  /** What recovering a frame writes. */
  function Rescued(f: Frame): (out: seq<Frame>) {
    if 0 < |f| <= SLOT - 2 then [f] else []
  }

  /** A parity packet takes the sink from `s` to `sink'`: it writes the missing frame of its
      group if exactly one is missing, the sizes are those of the group and the frame can be
      recovered, and nothing otherwise. */
  ghost predicate WritesTheMissing(s: Sys, p: Packet, sink': seq<Frame>) {
    p.gid in s.hist &&
    var fs := s.hist[p.gid];
    var missing := Below(|fs|) - Held(s, p.gid);
    && (|missing| != 1 || !Intact(s, p) ==> sink' == s.sink)
    && (forall j :: missing == {j} && Intact(s, p) ==> j < |fs| && sink' == s.sink + Rescued(fs[j]))
  }

  lemma WritingOf(s: Sys, p: Packet, out: Frame)
    requires p.gid in s.hist
    requires if Intact(s, p) then IsTheMissing(s.hist[p.gid], Below(|s.hist[p.gid]|) - Held(s, p.gid), out) else out == []
    ensures WritesTheMissing(s, p, s.sink + if out == [] then [] else [out])
  {
    assert s.sink + [] == s.sink;
  }

  lemma ParityWrites(s: Sys, p: Packet, now: int)
    requires Inv(s) && Possible(s, Deliver(p, now)) && p.Parity?
    ensures WritesTheMissing(s, p, Step(s, Deliver(p, now)).sink)
  {
    if Intact(s, p) { RecoveredIsMissing(s, p); } else { OtherSizesGiveNothing(s, p); }
    WritingOf(s, p, Recovered(s.groups, p.gid, p.size, p.parity));
    ParityStep(s, p, now);
  }

  /** In every orderly run, whatever was sent, torn, lost, repeated, reordered, resized and
      collected before, a parity packet that arrives writes just the missing frame. In a group
      whose sends were not torn, the sizes are those of the group. */
  lemma ParityWritesTheMissing(groupSize: int, evs: seq<Event>, states: seq<Sys>, k: nat)
    requires IsRun(groupSize, evs, states) && IsOrderly(evs, states)
    requires k < |evs| && evs[k].Deliver? && evs[k].p.Parity?
    ensures WritesTheMissing(states[k], evs[k].p, states[k + 1].sink)
    ensures var gid := evs[k].p.gid;
            && gid in states[k].stamps
            && (states[k].stamps[gid].last == states[k].stamps[gid].parity == |states[k].hist[gid]| ==> Intact(states[k], evs[k].p))
  {
    RunKeeps(groupSize, evs, states, k);
    assert Possible(states[k], evs[k]) && states[k + 1] == Step(states[k], evs[k]);
    ParityWrites(states[k], evs[k].p, evs[k].now);
    UntornIsIntact(states[k], evs[k].p);
  }
}
