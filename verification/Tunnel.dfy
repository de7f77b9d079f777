/** A tunnel between two ends: what one end reads from its sink, fails to read or tells by its
    ticks arrives at the other end, and its sink is told just that, in order. */
module Tunnel {
  import opened Options
  import opened Bytes
  import opened FecSlots
  import opened Fec
  import opened Customer
  import opened CustomerTraffic

  ghost predicate OpensWhatIsSealed(calls: Calls) {
    forall key, plain, rnd {:trigger calls.seal(key, plain, rnd)} :: calls.open(key, calls.seal(key, plain, rnd)) == Some(plain)
  }

  /** The decoder has counted what the encoder has put into the group it is filling, and holds
      no other group. */
  predicate InStep(e: Enc, groups: Groups) {
    && e.index < e.groupSize && groups.Keys == (if e.index == 0 then {} else {e.groupID})
    && (e.index > 0 ==>
          var g := groups[e.groupID];
          g.size == e.groupSize && g.seen == e.index && forall i :: i in g.mask ==> i < e.index)
  }

  /** `a` sends to `b`: one session key, and `b` hears it at the address `from`. */
  predicate Linked(a: Cust, b: Cust, from: Addr) {
    && Ok(a) && Ok(b) && a.current.Some? && b.current.Some?
    && a.current.value.key == b.current.value.key && b.current.value.peer == from
    && (a.fec && b.fec ==> InStep(a.enc, b.groups))
  }

  function Arriving(o: Out, from: Addr, now: int): (ev: Event)
    requires |o.envelope| >= 4
  {
    Body(from, FromBe16(o.envelope[2..4]), o.envelope[4..], 0, now)
  }

  /** The other end after these envelopes. */
  function ArriveAll(b: Cust, calls: Calls, cfg: int, from: Addr, outs: seq<Out>, now: int): (b': Cust)
    requires Ok(b) && forall i :: 0 <= i < |outs| ==> |outs[i].envelope| >= 4
    ensures Ok(b')
  {
    if outs == [] then b
    else
      var n := |outs| - 1;
      StepOne(ArriveAll(b, calls, cfg, from, outs[..n], now), calls, cfg, Arriving(outs[n], from, now)).0
  }

  /** The envelope is not taken for a hello, and does not make its receiver end the session. */
  predicate Passes(b: Cust, calls: Calls, o: Out) {
    && |o.envelope| > 4 && o.envelope[4] != MSG_HELLO
    && !calls.banned(b.seen + [FromBe16(o.envelope[2..4])])
  }

  predicate PassAll(b: Cust, calls: Calls, cfg: int, from: Addr, outs: seq<Out>, now: int)
    requires Ok(b) && forall i :: 0 <= i < |outs| ==> |outs[i].envelope| >= 4
  {
    outs == [] ||
    var n := |outs| - 1;
    PassAll(b, calls, cfg, from, outs[..n], now) && Passes(ArriveAll(b, calls, cfg, from, outs[..n], now), calls, outs[n])
  }

  // ---- one envelope ------------------------------------------------------------------------

  lemma OneArrives(b: Cust, calls: Calls, cfg: int, from: Addr, o: Out, now: int)
    requires Ok(b) && |o.envelope| >= 4
    ensures ArriveAll(b, calls, cfg, from, [o], now) == StepOne(b, calls, cfg, Arriving(o, from, now)).0
    ensures PassAll(b, calls, cfg, from, [o], now) <==> Passes(b, calls, o)
  {
    assert [o][..0] == [];
    assert ArriveAll(b, calls, cfg, from, [], now) == b && PassAll(b, calls, cfg, from, [], now);
  }

  lemma TwoArrive(b: Cust, calls: Calls, cfg: int, from: Addr, o: Out, o': Out, now: int)
    requires Ok(b) && |o.envelope| >= 4 && |o'.envelope| >= 4
    ensures var b1 := StepOne(b, calls, cfg, Arriving(o, from, now)).0;
            && ArriveAll(b, calls, cfg, from, [o, o'], now) == StepOne(b1, calls, cfg, Arriving(o', from, now)).0
            && (PassAll(b, calls, cfg, from, [o, o'], now) <==> Passes(b, calls, o) && Passes(b1, calls, o'))
  {
    assert [o, o'][..1] == [o];
    OneArrives(b, calls, cfg, from, o, now);
  }

  /** The receiver accepts what the sender sealed. */
  lemma SealedIsAccepted(a: Cust, b: Cust, from: Addr, calls: Calls, outs: seq<Out>, plains: seq<seq<Byte>>, rnd: Random,
                         i: nat, now: int)
    requires OpensWhatIsSealed(calls) && a.current.Some? && b.current.Some? && b.current.value.peer == from
    requires a.current.value.key == b.current.value.key
    requires Seals(a, calls, outs, plains, rnd) && i < |outs| && Passes(b, calls, outs[i])
    ensures Accepts(b, calls, Arriving(outs[i], from, now), plains[i])
  {
    assert outs[i].envelope[4..] == calls.seal(a.current.value.key, plains[i], rnd + i);
  }

  // ---- encoder and decoder in step ------------------------------------------------------------

  lemma DataInStep(e: Enc, groups: Groups, frame: Frame, now: int)
    requires EncFits(e) && InStep(e, groups)
    ensures var groups' := OnData(groups, e.groupID, e.index, e.groupSize, frame, now);
            if e.index + 1 < e.groupSize then InStep(EncAdd(e, frame), groups')
            else groups'.Keys == {e.groupID} && groups'[e.groupID].seen == e.groupSize
  {
  }

  /** The plaintext of a data packet, as `handlePlain` reads it. */
  lemma DataPlain(e: Enc, groups: Groups, frame: Frame, now: int)
    requires EncFits(e)
    ensures var plain := Plain(Data(e.groupID, e.index, e.groupSize, frame));
            && |plain| >= 7 && plain[0] == PKT_DATA && plain[7..] == frame
            && AfterPlain(groups, plain, now) == OnData(groups, e.groupID, e.index, e.groupSize, frame, now)
  {
    var p := Data(e.groupID, e.index, e.groupSize, frame);
    PlainRoundTrip(groups, p, now);
  }

  lemma ParityPlain(gid: nat, size: nat, parity: Slot)
    requires gid < 0x1_0000_0000 && size < 256
    ensures var plain := Plain(Parity(gid, size, parity));
            && |plain| >= 6 && plain[0] == PKT_PARITY && FromBe32(plain[1..5]) == gid && plain[5] as int == size
  {
    var plain := Plain(Parity(gid, size, parity));
    assert plain[1..5] == Be32(gid);
  }

  // ---- one event ------------------------------------------------------------------------------

  /** What an event at one end tells the other end's sink. */
  function Told(ev: Event): (ops: seq<SinkOp>) {
    match ev
    case Frame(frame, _) => [Write(frame)]
    case SinkError(_) => [CloseCurrent]
    case _ => []
  }

  /** A frame without parity, or the first of its two envelopes, is written. */
  lemma DataGoesThrough(a: Cust, b: Cust, from: Addr, calls: Calls, cfg: int, frame: Frame, ev: Event)
    requires Linked(a, b, from) && Accepts(b, calls, ev, PlainsOf(a, frame)[0])
    ensures var b' := StepOne(b, calls, cfg, ev).0;
            && b'.sink == b.sink + [Write(frame)] && b'.current == b.current && b'.fec == b.fec && Ok(b')
            && (a.fec && b.fec ==> b'.groups == OnData(b.groups, a.enc.groupID, a.enc.index, a.enc.groupSize, frame, ev.now))
  {
    var plain := PlainsOf(a, frame)[0];
    if a.fec {
      DataPlain(a.enc, b.groups, frame, ev.now);
    } else {
      assert plain[7..] == frame;
    }
    DataIsWritten(b, calls, cfg, ev, plain);
  }

  /** The parity of a group that came whole writes nothing. */
  lemma ParityGoesThrough(e: Enc, b: Cust, calls: Calls, cfg: int, ev: Event)
    requires Ok(b) && EncFits(e) && Accepts(b, calls, ev, Plain(Parity(e.groupID, e.groupSize, e.accum)))
    requires b.fec ==> b.groups.Keys == {e.groupID} && b.groups[e.groupID].seen == e.groupSize
    ensures var b' := StepOne(b, calls, cfg, ev).0;
            && b'.sink == b.sink && b'.current == b.current && b'.fec == b.fec && Ok(b')
            && (b.fec ==> b'.groups.Keys == {})
  {
    ParityPlain(e.groupID, e.groupSize, e.accum);
    ParityIsTaken(b, calls, cfg, ev, Plain(Parity(e.groupID, e.groupSize, e.accum)));
    assert b.sink + [] == b.sink;
  }

  lemma FrameGoesThrough(a: Cust, b: Cust, from: Addr, calls: Calls, cfg: int, frame: Frame, rnd: Random, now: int)
    requires OpensWhatIsSealed(calls) && Linked(a, b, from)
    requires PassAll(b, calls, cfg, from, StepOne(a, calls, cfg, Event.Frame(frame, rnd)).1, now)
    ensures var (a', outs) := StepOne(a, calls, cfg, Event.Frame(frame, rnd));
            var b' := ArriveAll(b, calls, cfg, from, outs, now);
            Linked(a', b', from) && b'.sink == b.sink + [Write(frame)]
  {
    var (a', outs) := StepOne(a, calls, cfg, Event.Frame(frame, rnd));
    var plains := PlainsOf(a, frame);
    FrameIsSent(a, calls, cfg, frame, rnd);
    var ev := Arriving(outs[0], from, now);
    var b1 := StepOne(b, calls, cfg, ev).0;
    if |outs| == 1 {
      assert outs == [outs[0]];
      OneArrives(b, calls, cfg, from, outs[0], now);
    } else {
      assert outs == [outs[0], outs[1]];
      TwoArrive(b, calls, cfg, from, outs[0], outs[1], now);
    }
    SealedIsAccepted(a, b, from, calls, outs, plains, rnd, 0, now);
    DataGoesThrough(a, b, from, calls, cfg, frame, ev);
    if a.fec && b.fec { DataInStep(a.enc, b.groups, frame, now); }
    if |outs| == 2 {
      SealedIsAccepted(a, b1, from, calls, outs, plains, rnd, 1, now);
      ParityGoesThrough(EncAdd(a.enc, frame), b1, calls, cfg, Arriving(outs[1], from, now));
    }
  }

  lemma ControlGoesThrough(a: Cust, a': Cust, b: Cust, from: Addr, calls: Calls, cfg: int, outs: seq<Out>,
                           plain: seq<Byte>, rnd: Random, now: int)
    requires OpensWhatIsSealed(calls) && Linked(a, b, from) && Linked(a', b, from)
    requires plain != [] && (plain[0] == PKT_CLOSE || plain[0] == PKT_KEEPALIVE)
    requires Seals(a, calls, outs, [plain], rnd) && PassAll(b, calls, cfg, from, outs, now)
    ensures var b' := ArriveAll(b, calls, cfg, from, outs, now);
            Linked(a', b', from) && b'.sink == b.sink + if plain[0] == PKT_CLOSE then [CloseCurrent] else []
  {
    assert outs == [outs[0]];
    OneArrives(b, calls, cfg, from, outs[0], now);
    SealedIsAccepted(a, b, from, calls, outs, [plain], rnd, 0, now);
    ControlIsTaken(b, calls, cfg, Arriving(outs[0], from, now), plain);
  }

  lemma EventGoesThrough(a: Cust, b: Cust, from: Addr, calls: Calls, cfg: int, ev: Event, now: int)
    requires OpensWhatIsSealed(calls) && Linked(a, b, from) && !ev.Body?
    requires PassAll(b, calls, cfg, from, StepOne(a, calls, cfg, ev).1, now)
    ensures var (a', outs) := StepOne(a, calls, cfg, ev);
            var b' := ArriveAll(b, calls, cfg, from, outs, now);
            Linked(a', b', from) && b'.sink == b.sink + Told(ev)
  {
    var (a', outs) := StepOne(a, calls, cfg, ev);
    match ev {
      case Frame(frame, rnd) => FrameGoesThrough(a, b, from, calls, cfg, frame, rnd, now);
      case SinkError(rnd) =>
        SinkErrorIsSent(a, calls, cfg, rnd);
        ControlGoesThrough(a, a', b, from, calls, cfg, outs, [PKT_CLOSE], rnd, now);
      case Tick(rnd, when) =>
        TickIsSent(a, calls, cfg, rnd, when);
        var q: Byte :| Seals(a, calls, outs, [[PKT_KEEPALIVE, q]], rnd);
        ControlGoesThrough(a, a', b, from, calls, cfg, outs, [PKT_KEEPALIVE, q], rnd, now);
    }
  }

  // ---- any number of events -------------------------------------------------------------------

  /** Both ends after these events at `a`, each with the time its envelopes arrive at `b`. */
  function Through(a: Cust, b: Cust, calls: Calls, cfg: int, from: Addr, evs: seq<(Event, int)>): (r: (Cust, Cust))
    requires Ok(a) && Ok(b)
    ensures Ok(r.0) && Ok(r.1)
  {
    if evs == [] then (a, b)
    else
      var n := |evs| - 1;
      var (a1, b1) := Through(a, b, calls, cfg, from, evs[..n]);
      var (a2, outs) := StepOne(a1, calls, cfg, evs[n].0);
      (a2, ArriveAll(b1, calls, cfg, from, outs, evs[n].1))
  }

  /** Events of the sending end, whose envelopes all pass. */
  predicate Smooth(a: Cust, b: Cust, calls: Calls, cfg: int, from: Addr, evs: seq<(Event, int)>)
    requires Ok(a) && Ok(b)
  {
    evs == [] ||
    var n := |evs| - 1;
    var (a1, b1) := Through(a, b, calls, cfg, from, evs[..n]);
    && Smooth(a, b, calls, cfg, from, evs[..n]) && !evs[n].0.Body?
    && PassAll(b1, calls, cfg, from, StepOne(a1, calls, cfg, evs[n].0).1, evs[n].1)
  }

  function AllTold(evs: seq<(Event, int)>): (ops: seq<SinkOp>) {
    if evs == [] then [] else AllTold(evs[..|evs| - 1]) + Told(evs[|evs| - 1].0)
  }

  lemma ThroughMore(a: Cust, b: Cust, calls: Calls, cfg: int, from: Addr, evs: seq<(Event, int)>, n: nat, a1: Cust, b1: Cust)
    requires Ok(a) && Ok(b) && |evs| == n + 1 && (a1, b1) == Through(a, b, calls, cfg, from, evs[..n])
    ensures var (a2, outs) := StepOne(a1, calls, cfg, evs[n].0);
            && Through(a, b, calls, cfg, from, evs) == (a2, ArriveAll(b1, calls, cfg, from, outs, evs[n].1))
            && (Smooth(a, b, calls, cfg, from, evs) <==>
                && Smooth(a, b, calls, cfg, from, evs[..n]) && !evs[n].0.Body?
                && PassAll(b1, calls, cfg, from, outs, evs[n].1))
  {
  }

  /** The ends are still linked, and the sink of the second was told `ops`. */
  predicate Delivered(r: (Cust, Cust), from: Addr, sink: seq<SinkOp>, ops: seq<SinkOp>) {
    Linked(r.0, r.1, from) && r.1.sink == sink + ops
  }

  lemma OneMoreDelivered(a: Cust, b: Cust, from: Addr, calls: Calls, cfg: int, ev: Event, now: int, sink: seq<SinkOp>, ops: seq<SinkOp>)
    requires OpensWhatIsSealed(calls) && Delivered((a, b), from, sink, ops) && !ev.Body?
    requires PassAll(b, calls, cfg, from, StepOne(a, calls, cfg, ev).1, now)
    ensures var (a', outs) := StepOne(a, calls, cfg, ev);
            Delivered((a', ArriveAll(b, calls, cfg, from, outs, now)), from, sink, ops + Told(ev))
  {
    EventGoesThrough(a, b, from, calls, cfg, ev, now);
    assert sink + ops + Told(ev) == sink + (ops + Told(ev));
  }

  /** Whatever one end reads, fails to read and ticks, with error correction or without, in
      groups of whatever size: if its envelopes arrive in order and pass, the other end's sink
      is told exactly the frames and the failures, in order. */
  lemma {:induction false} TunnelDelivers(a: Cust, b: Cust, calls: Calls, cfg: int, from: Addr, evs: seq<(Event, int)>)
    requires OpensWhatIsSealed(calls) && Linked(a, b, from) && Smooth(a, b, calls, cfg, from, evs)
    ensures Delivered(Through(a, b, calls, cfg, from, evs), from, b.sink, AllTold(evs))
    decreases |evs|
  {
    if evs == [] {
      assert b.sink + [] == b.sink;
    } else {
      var n := |evs| - 1;
      var r := Through(a, b, calls, cfg, from, evs[..n]);
      ThroughMore(a, b, calls, cfg, from, evs, n, r.0, r.1);
      TunnelDelivers(a, b, calls, cfg, from, evs[..n]);
      OneMoreDelivered(r.0, r.1, from, calls, cfg, evs[n].0, evs[n].1, b.sink, AllTold(evs[..n]));
    }
  }
}
