/** What a customer of the multi-client server does with its traffic: what each kind of message
    leads to, and that frames go through a tunnel between two ends unchanged and in order. */
module CustomerTraffic {
  import opened Options
  import opened Bytes
  import opened Fec
  import opened Customer

  // ---- one message --------------------------------------------------------------------------

  /** The body comes from the peer of the session and opens to `plain`. */
  predicate Opens(c: Cust, calls: Calls, ev: Event, plain: seq<Byte>) {
    && ev.Body? && c.current.Some? && ev.from == c.current.value.peer
    && ev.body != [] && ev.body[0] != MSG_HELLO && calls.open(c.current.value.key, ev.body) == Some(plain)
  }

  /** So it does, and the packets seen so far are good enough to stay. */
  predicate Accepts(c: Cust, calls: Calls, ev: Event, plain: seq<Byte>) {
    Opens(c, calls, ev, plain) && !calls.banned(c.seen + [ev.seqNo])
  }

  /** The session, the keys and the sending side are as they were. */
  predicate SameSession(c: Cust, c': Cust) {
    c'.current == c.current && c'.seqCounter == c.seqCounter && c'.enc == c.enc && c'.fec == c.fec && c'.bytesOut == c.bytesOut
  }

  /** What is noted of every accepted message. */
  predicate Noted(c: Cust, c': Cust, calls: Calls, ev: Event)
    requires ev.Body?
  {
    && c'.bytesIn == c.bytesIn + |ev.body| && c'.lastRx == ev.now
    && c'.seen == c.seen + [ev.seqNo] && c'.recvPct == calls.pct(c'.seen)
  }

  /** A data message is written to the sink, with error correction or without, and nothing else
      is. */
  lemma DataIsWritten(c: Cust, calls: Calls, cfg: int, ev: Event, plain: seq<Byte>)
    requires Ok(c) && Accepts(c, calls, ev, plain) && |plain| >= 7 && plain[0] == PKT_DATA
    ensures var (c', outs) := StepOne(c, calls, cfg, ev);
            && c'.sink == c.sink + [Write(plain[7..])] && outs == []
            && SameSession(c, c') && Noted(c, c', calls, ev) && c'.peerPct == c.peerPct
            && c'.groups == if c.fec then AfterPlain(c.groups, plain, ev.now) else c.groups
  {
    assert Writes([plain[7..]]) == [Write(plain[7..])];
  }

  /** A parity message writes the frame it recovers, if any, and ends its group; without error
      correction it does nothing. */
  lemma ParityIsTaken(c: Cust, calls: Calls, cfg: int, ev: Event, plain: seq<Byte>)
    requires Ok(c) && Accepts(c, calls, ev, plain) && |plain| >= 6 && plain[0] == PKT_PARITY
    ensures var (c', outs) := StepOne(c, calls, cfg, ev);
            var gid := FromBe32(plain[1..5]);
            var f := if c.fec then Recovered(c.groups, gid, plain[5] as int, plain[6..]) else [];
            && c'.sink == c.sink + (if f == [] then [] else [Write(f)]) && outs == []
            && SameSession(c, c') && Noted(c, c', calls, ev) && c'.peerPct == c.peerPct
            && c'.groups == if c.fec then c.groups - {gid} else c.groups
  {
    assert Writes([]) == [];
    var f := Recovered(c.groups, FromBe32(plain[1..5]), plain[5] as int, plain[6..]);
    assert Writes([f]) == [Write(f)];
  }

  /** Close ends the sink's connection; a keepalive tells how well the peer receives; nothing is
      sent or written. */
  lemma ControlIsTaken(c: Cust, calls: Calls, cfg: int, ev: Event, plain: seq<Byte>)
    requires Ok(c) && Accepts(c, calls, ev, plain) && plain != []
    requires plain[0] == PKT_CLOSE || plain[0] == PKT_KEEPALIVE
    ensures var (c', outs) := StepOne(c, calls, cfg, ev);
            && c'.sink == c.sink + (if plain[0] == PKT_CLOSE then [CloseCurrent] else []) && outs == []
            && SameSession(c, c') && Noted(c, c', calls, ev) && c'.groups == c.groups
            && c'.peerPct == if plain[0] == PKT_KEEPALIVE && |plain| >= 2 then plain[1] as nat else c.peerPct
  {
    assert c.sink + [] == c.sink;
  }

  /** A ping of nine bytes is answered by one pong with its eight bytes, sealed for the session;
      a shorter one is not. */
  lemma PingIsAnswered(c: Cust, calls: Calls, cfg: int, ev: Event, plain: seq<Byte>)
    requires Ok(c) && Accepts(c, calls, ev, plain) && plain != [] && plain[0] == PKT_PING
    ensures var (c', outs) := StepOne(c, calls, cfg, ev);
            && c'.sink == c.sink && c'.current == c.current && Noted(c, c', calls, ev)
            && if |plain| >= 9 then Seals(c, calls, outs, [[PKT_PONG] + plain[1..9]], ev.rnd) else outs == []
  {
    if |plain| >= 9 {
      var seen := c.seen + [ev.seqNo];
      var c1 := c.(bytesIn := c.bytesIn + |ev.body|, lastRx := ev.now, seen := seen, recvPct := calls.pct(seen));
      OneIsSealed(c1, calls, [PKT_PONG] + plain[1..9], ev.rnd);
    }
  }

  /** Whoever is not the peer of the session, and whoever is but sends what does not open,
      changes nothing. */
  lemma OthersAreIgnored(c: Cust, calls: Calls, cfg: int, ev: Event)
    requires Ok(c) && ev.Body? && (ev.body == [] || ev.body[0] != MSG_HELLO)
    requires forall plain :: !Opens(c, calls, ev, plain)
    ensures StepOne(c, calls, cfg, ev) == (c, [])
  {
    if ev.body != [] && c.current.Some? && ev.from == c.current.value.peer {
      var r := calls.open(c.current.value.key, ev.body);
      assert r.Some? ==> Opens(c, calls, ev, r.value);
    }
  }

  /** A customer whose packets are too bad loses the session and nothing else. */
  lemma BanEndsTheSession(c: Cust, calls: Calls, cfg: int, ev: Event, plain: seq<Byte>)
    requires Ok(c) && Opens(c, calls, ev, plain) && !Accepts(c, calls, ev, plain)
    ensures var (c', outs) := StepOne(c, calls, cfg, ev);
            c'.current == None && c'.sink == c.sink && outs == [] && Noted(c, c', calls, ev)
            && c'.enc == c.enc && c'.groups == c.groups && c'.peerPct == c.peerPct
  {
  }

  /** A hello that the handshake accepts moves the session to its key and address and is
      acknowledged there; any other is ignored. Encoder and decoder go on as they are. */
  lemma HelloMovesTheSession(c: Cust, calls: Calls, cfg: int, ev: Event)
    requires Ok(c) && ev.Body? && ev.body != [] && ev.body[0] == MSG_HELLO
    ensures var (c', outs) := StepOne(c, calls, cfg, ev);
            match calls.hello(c.password, ev.body[1..], ev.rnd)
            case None => c' == c && outs == []
            case Some((key, ack)) =>
              && c'.current == Some(Session(key, ev.from)) && c'.lastRx == ev.now
              && |outs| == 1 && outs[0].dest == ev.from && outs[0].envelope[4..] == ack
              && FromBe16(outs[0].envelope[2..4]) == Low16(c.seqCounter + 1) && Low16(c'.seqCounter + 1) == Low16(c.seqCounter + 2)
              && c'.sink == c.sink && c'.enc == c.enc && c'.groups == c.groups && c'.bytesIn == c.bytesIn
  {
    Low16Wraps(c.seqCounter + 1, 0);
    Low16Wraps(c.seqCounter + 1, 1);
  }

  // ---- sending --------------------------------------------------------------------------------

  /** The sequence number an envelope carries. */
  function Low16(n: nat): (m: nat) {
    n % 0x1_0000
  }

  lemma Low16Wraps(n: nat, k: nat)
    ensures Low16(n % 0x1_0000_0000 + k) == Low16(n + k)
  {
    var q, r := n / 0x1_0000_0000, n % 0x1_0000_0000;
    assert n + k == 0x1_0000 * (0x1_0000 * q) + (r + k);
    Shifted(0x1_0000 * q, r + k);
  }

  lemma Shifted(a: nat, r: nat)
    ensures (0x1_0000 * a + r) % 0x1_0000 == r % 0x1_0000
  {
  }

  /** The envelopes go to the peer, are numbered on from the last one, and hold these plaintexts,
      sealed in order. */
  ghost predicate Seals(c: Cust, calls: Calls, outs: seq<Out>, plains: seq<seq<Byte>>, rnd: Random) {
    && |outs| == |plains| && c.current.Some?
    && forall i :: 0 <= i < |outs| ==>
         && outs[i].dest == c.current.value.peer && |outs[i].envelope| >= 4
         && FromBe16(outs[i].envelope[2..4]) == Low16(c.seqCounter + 1 + i)
         && outs[i].envelope[4..] == calls.seal(c.current.value.key, plains[i], rnd + i)
  }

  /** The plaintexts of one frame. */
  function PlainsOf(c: Cust, frame: Frame): (ps: seq<seq<Byte>>)
    requires Ok(c)
  {
    if !c.fec then [[PKT_DATA, 0, 0, 0, 0, 0, 0] + frame]
    else
      var data := Plain(Data(c.enc.groupID, c.enc.index, c.enc.groupSize, frame));
      var e := EncAdd(c.enc, frame);
      if e.index == 0 then [data, Plain(Parity(e.groupID, e.groupSize, e.accum))] else [data]
  }

  lemma OneIsSealed(c: Cust, calls: Calls, plain: seq<Byte>, rnd: Random)
    requires Ok(c) && c.current.Some?
    ensures var (c', outs) := SendPlain(c, calls, plain, rnd);
            && Seals(c, calls, outs, [plain], rnd) && c' == c.(seqCounter := c'.seqCounter)
            && Low16(c'.seqCounter + 1) == Low16(c.seqCounter + 2)
  {
    var n := (c.seqCounter + 1) % 0x1_0000_0000;
    Low16Wraps(c.seqCounter + 1, 0);
    Low16Wraps(c.seqCounter + 1, 1);
    var env := Envelope(c.sessID, n, calls.seal(c.current.value.key, plain, rnd));
    assert FromBe16(env[2..4]) == Low16(c.seqCounter + 1);
    assert SendPlain(c, calls, plain, rnd).1 == [Out(c.current.value.peer, env)];
  }

  lemma SealsMore(c: Cust, c1: Cust, calls: Calls, outs: seq<Out>, outs': seq<Out>, plain: seq<Byte>, plain': seq<Byte>, rnd: Random)
    requires c1.current == c.current && Low16(c1.seqCounter + 1) == Low16(c.seqCounter + 2)
    requires Seals(c, calls, outs, [plain], rnd) && Seals(c1, calls, outs', [plain'], rnd + 1)
    ensures Seals(c, calls, outs + outs', [plain, plain'], rnd)
  {
  }

  lemma TwoAreSealed(c: Cust, calls: Calls, plain: seq<Byte>, plain': seq<Byte>, rnd: Random)
    requires Ok(c) && c.current.Some?
    ensures var (c1, outs) := SendPlain(c, calls, plain, rnd);
            var (c2, outs') := SendPlain(c1, calls, plain', rnd + 1);
            Seals(c, calls, outs + outs', [plain, plain'], rnd) && c2 == c.(seqCounter := c2.seqCounter)
  {
    var (c1, outs) := SendPlain(c, calls, plain, rnd);
    OneIsSealed(c, calls, plain, rnd);
    OneIsSealed(c1, calls, plain', rnd + 1);
    SealsMore(c, c1, calls, outs, SendPlain(c1, calls, plain', rnd + 1).1, plain, plain', rnd);
  }

  lemma SameSeals(c: Cust, c': Cust, calls: Calls, outs: seq<Out>, plains: seq<seq<Byte>>, rnd: Random)
    requires Seals(c', calls, outs, plains, rnd) && c'.current == c.current && c'.seqCounter == c.seqCounter
    ensures Seals(c, calls, outs, plains, rnd)
  {
  }

  lemma PacketsAreSealed(c: Cust, calls: Calls, ps: seq<Packet>, rnd: Random, plains: seq<seq<Byte>>)
    requires Ok(c) && c.current.Some? && 1 <= |ps| <= 2 && |plains| == |ps|
    requires forall i :: 0 <= i < |ps| ==> Fits(ps[i]) && plains[i] == Plain(ps[i])
    ensures var (c', outs) := SendPackets(c, calls, ps, rnd);
            Seals(c, calls, outs, plains, rnd) && c' == c.(seqCounter := c'.seqCounter)
  {
    if |ps| == 2 {
      TwoAreSealed(c, calls, plains[0], plains[1], rnd);
      assert plains == [plains[0], plains[1]];
    } else {
      OneIsSealed(c, calls, plains[0], rnd);
      assert plains == [plains[0]];
    }
  }

  lemma PlainsOfSent(c: Cust, frame: Frame)
    requires Ok(c) && c.fec
    ensures var ps, plains := Sent(c.enc, frame), PlainsOf(c, frame);
            1 <= |ps| == |plains| <= 2 && forall i :: 0 <= i < |ps| ==> Fits(ps[i]) && plains[i] == Plain(ps[i])
  {
  }

  lemma FecFrameIsSent(c: Cust, calls: Calls, frame: Frame, rnd: Random)
    requires Ok(c) && c.current.Some? && c.fec
    ensures var (c', outs) := OnFrame(c, calls, frame, rnd);
            && Seals(c, calls, outs, PlainsOf(c, frame), rnd)
            && c' == c.(bytesOut := c.bytesOut + |frame|, enc := AfterSend(c.enc, frame), seqCounter := c'.seqCounter)
  {
    PlainsOfSent(c, frame);
    var c0, ps := Folded(c, frame), Sent(c.enc, frame);
    var r := SendPackets(c0, calls, ps, rnd);
    assert OnFrame(c, calls, frame, rnd) == r;
    PacketsAreSealed(c0, calls, ps, rnd, PlainsOf(c, frame));
    SameSeals(c, c0, calls, r.1, PlainsOf(c, frame), rnd);
  }

  /** A frame of the sink goes out under the session, with the parity of its group if it is the
      last one of it; without a session it is dropped and belongs to no group. */
  lemma FrameIsSent(c: Cust, calls: Calls, cfg: int, frame: Frame, rnd: Random)
    requires Ok(c)
    ensures var (c', outs) := StepOne(c, calls, cfg, Event.Frame(frame, rnd));
            && c'.bytesOut == c.bytesOut + |frame| && c'.sink == c.sink && c'.current == c.current
            && c'.groups == c.groups && c'.seen == c.seen && c'.fec == c.fec
            && (if c.current.None? then outs == [] && c'.enc == c.enc
                else Seals(c, calls, outs, PlainsOf(c, frame), rnd)
                     && c'.enc == if c.fec then AfterSend(c.enc, frame) else c.enc)
  {
    if c.current.Some? {
      if c.fec {
        FecFrameIsSent(c, calls, frame, rnd);
      } else {
        OneIsSealed(c.(bytesOut := c.bytesOut + |frame|), calls, [PKT_DATA, 0, 0, 0, 0, 0, 0] + frame, rnd);
      }
    }
  }

  /** A tick sends a keepalive with the share of packets received, at most 100, adapts the group
      size between groups and collects groups older than five seconds. */
  lemma TickIsSent(c: Cust, calls: Calls, cfg: int, rnd: Random, now: int)
    requires Ok(c)
    ensures var (c', outs) := StepOne(c, calls, cfg, Tick(rnd, now));
            && c'.sink == c.sink && c'.current == c.current && c'.seen == c.seen && c'.fec == c.fec
            && (if c.current.None? then outs == []
                else exists q: Byte :: Seals(c, calls, outs, [[PKT_KEEPALIVE, q]], rnd) && q as int <= 100
                                       && q as int <= c.recvPct && (q as int == 100 || q as int == c.recvPct))
            && c'.enc == (if c.fec && c.enc.index == 0 then c.enc.(groupSize := Clamp(AdaptiveGroupSize(cfg, c.peerPct))) else c.enc)
            && (forall gid :: gid in c'.groups ==> gid in c.groups && c'.groups[gid] == c.groups[gid])
            && (forall gid :: gid in c.groups ==> (gid in c'.groups <==> !c.fec || now - c.groups[gid].lastSeen <= 5000))
  {
    var q := if c.recvPct > 100 then 100 else c.recvPct;
    if c.current.Some? {
      OneIsSealed(c, calls, [PKT_KEEPALIVE, q as Byte], rnd);
      var outs := StepOne(c, calls, cfg, Tick(rnd, now)).1;
      assert Seals(c, calls, outs, [[PKT_KEEPALIVE, q as Byte]], rnd);
    }
  }

  /** When reading the sink fails the peer is told so. */
  lemma SinkErrorIsSent(c: Cust, calls: Calls, cfg: int, rnd: Random)
    requires Ok(c)
    ensures var (c', outs) := StepOne(c, calls, cfg, SinkError(rnd));
            && c' == c.(seqCounter := c'.seqCounter)
            && if c.current.None? then outs == [] else Seals(c, calls, outs, [[PKT_CLOSE]], rnd)
  {
    if c.current.Some? { OneIsSealed(c, calls, [PKT_CLOSE], rnd); }
  }

  /** The peer that receives worse is never sent larger groups, and until it has reported the
      configured size stays. */
  lemma WorseMeansSmaller(configured: int, pct: int, better: int)
    requires 0 < pct <= better
    ensures AdaptiveGroupSize(configured, pct) <= AdaptiveGroupSize(configured, better)
    ensures 4 <= AdaptiveGroupSize(configured, pct) <= 16
    ensures AdaptiveGroupSize(configured, pct) == 16 <==> pct >= 95
    ensures AdaptiveGroupSize(configured, pct) == 4 <==> pct < 80
    ensures AdaptiveGroupSize(configured, 0) == configured
  {
  }
}
