/** One customer of the multi-client server (core/multiserver.go): its slice of state and
    what each event does to it. Cryptography, quality scoring and randomness are parameters. */
module Customer {
  import opened Options
  import opened Bytes
  import opened Fec

  type Addr = string
  type SessKey = string
  type Random = nat

  const MSG_HELLO: Byte := 0xF0
  const PKT_PING: Byte := 0x04
  const PKT_PONG: Byte := 0x05
  const PKT_CLOSE: Byte := 0x06

  /** What the customer code calls into and does not own. */
  datatype Calls = Calls(
    hello: (string, seq<Byte>, Random) -> Option<(SessKey, seq<Byte>)>,
    seal: (SessKey, seq<Byte>, Random) -> seq<Byte>,
    open: (SessKey, seq<Byte>) -> Option<seq<Byte>>,
    pct: seq<nat> -> nat,
    banned: seq<nat> -> bool)

  datatype Session = Session(key: SessKey, peer: Addr)

  /** What the customer's sink is told, in order. */
  datatype SinkOp = Write(frame: Frame) | CloseCurrent

  datatype Cust = Cust(
    name: string, password: string, sessID: nat,
    current: Option<Session>, seqCounter: nat, lastRx: int,
    seen: seq<nat>, recvPct: nat, peerPct: nat,
    fec: bool, enc: Enc, groups: Groups, bytesIn: nat, bytesOut: nat, sink: seq<SinkOp>)

  datatype Out = Out(dest: Addr, envelope: seq<Byte>)

  function Envelope(sessID: nat, seqNo: nat, body: seq<Byte>): (env: seq<Byte>)
    requires sessID < 0x1_0000
    ensures |env| == 4 + |body| && FromBe16(env[..2]) == sessID && env[4..] == body
    ensures FromBe16(env[2..4]) == seqNo % 0x1_0000
  {
    var env := Be16(sessID) + Be16(seqNo % 0x1_0000) + body;
    assert env[..2] == Be16(sessID) && env[2..4] == Be16(seqNo % 0x1_0000);
    env
  }

  /** The encoder's numbers fit the packet header. */
  predicate EncFits(e: Enc) {
    e.groupID < 0x1_0000_0000 && 2 <= e.groupSize <= 64 && e.index < 64
  }

  predicate Ok(c: Cust) {
    c.sessID < 0x1_0000 && EncFits(c.enc)
  }

  /** Still the same customer, in a state it may be in. */
  predicate Follows(c: Cust, c': Cust) {
    Ok(c') && c'.sessID == c.sessID && c'.name == c.name && c'.password == c.password
  }

  /** The envelope carries the customer's id and goes to the peer of its session. */
  predicate OwnEnvelope(c: Cust, o: Out) {
    c.current.Some? && o.dest == c.current.value.peer && |o.envelope| >= 4 && FromBe16(o.envelope[..2]) == c.sessID
  }

  predicate OwnEnvelopes(c: Cust, outs: seq<Out>) {
    forall i :: 0 <= i < |outs| ==> OwnEnvelope(c, outs[i])
  }

  /** `seal` and `nextSeq` and `Send` on the current session; nothing without one. */
  function SendPlain(c: Cust, calls: Calls, plain: seq<Byte>, rnd: Random): (r: (Cust, seq<Out>))
    requires Ok(c)
    ensures Follows(c, r.0) && OwnEnvelopes(r.0, r.1)
  {
    if c.current.None? then (c, [])
    else
      var n := (c.seqCounter + 1) % 0x1_0000_0000;
      (c.(seqCounter := n),
       [Out(c.current.value.peer, Envelope(c.sessID, n, calls.seal(c.current.value.key, plain, rnd)))])
  }

  /** `handleCustomerHello`: a valid hello replaces the session and is acknowledged. */
  function OnHello(c: Cust, calls: Calls, from: Addr, body: seq<Byte>, rnd: Random, now: int): (r: (Cust, seq<Out>))
    requires Ok(c) && body != []
    ensures Follows(c, r.0) && OwnEnvelopes(r.0, r.1)
  {
    match calls.hello(c.password, body[1..], rnd)
    case None => (c, [])
    case Some((key, ack)) =>
      var n := (c.seqCounter + 1) % 0x1_0000_0000;
      (c.(current := Some(Session(key, from)), lastRx := now, seqCounter := n),
       [Out(from, Envelope(c.sessID, n, ack))])
  }

  /** `handleSessionPlain` of a decrypted message. */
  function OnPlain(c: Cust, calls: Calls, plain: seq<Byte>, rnd: Random, now: int): (r: (Cust, seq<Out>))
    requires Ok(c)
    ensures Follows(c, r.0) && OwnEnvelopes(r.0, r.1)
  {
    if |plain| == 0 then (c, [])
    else if plain[0] == PKT_PING then
      if |plain| < 9 then (c, []) else SendPlain(c, calls, [PKT_PONG] + plain[1..9], rnd)
    else if plain[0] == PKT_PONG then (c, [])
    else if plain[0] == PKT_KEEPALIVE then
      (if |plain| >= 2 then c.(peerPct := plain[1] as nat) else c, [])
    else if plain[0] == PKT_CLOSE then (c.(sink := c.sink + [CloseCurrent]), [])
    else if c.fec then
      (c.(groups := AfterPlain(c.groups, plain, now), sink := c.sink + Writes(Written(c.groups, plain))), [])
    else (c.(sink := c.sink + Writes(Written(map[], plain))), [])
  }

  function Writes(fs: seq<Frame>): (ops: seq<SinkOp>) {
    seq(|fs|, i requires 0 <= i < |fs| => Write(fs[i]))
  }

  /** One received envelope body addressed to this customer. */
  function OnBody(c: Cust, calls: Calls, from: Addr, seqNo: nat, body: seq<Byte>, rnd: Random, now: int): (r: (Cust, seq<Out>))
    requires Ok(c)
    ensures Follows(c, r.0) && OwnEnvelopes(r.0, r.1)
  {
    if body == [] then (c, [])
    else if body[0] == MSG_HELLO then OnHello(c, calls, from, body, rnd, now)
    else if c.current.None? || from != c.current.value.peer then (c, [])
    else
      match calls.open(c.current.value.key, body)
      case None => (c, [])
      case Some(plain) =>
        var seen := c.seen + [seqNo];
        var c1 := c.(bytesIn := c.bytesIn + |body|, lastRx := now, seen := seen, recvPct := calls.pct(seen));
        if calls.banned(seen) then (c1.(current := None), []) else OnPlain(c1, calls, plain, rnd, now)
  }

  function AdaptiveGroupSize(configured: int, peerPct: int): (n: int) {
    if peerPct <= 0 then configured else if peerPct < 80 then 4 else if peerPct < 95 then 8 else 16
  }

  /** One turn of `runCustomerTicker` for this customer. */
  function OnTick(c: Cust, calls: Calls, configured: int, rnd: Random, now: int): (r: (Cust, seq<Out>))
    requires Ok(c)
    ensures Follows(c, r.0) && OwnEnvelopes(r.0, r.1)
  {
    var q := if c.recvPct > 100 then 100 else c.recvPct;
    var (c1, outs) := SendPlain(c, calls, [PKT_KEEPALIVE, q as Byte], rnd);
    if c.fec then
      (c1.(enc := EncResize(c1.enc, AdaptiveGroupSize(configured, c1.peerPct)),
           groups := Collected(c1.groups, 5000, now)), outs)
    else (c1, outs)
  }

  /** A data packet and, if there is one, the parity after it. */
  function SendPackets(c: Cust, calls: Calls, ps: seq<Packet>, rnd: Random): (r: (Cust, seq<Out>))
    requires Ok(c) && 1 <= |ps| <= 2 && forall i :: 0 <= i < |ps| ==> Fits(ps[i])
    ensures Follows(c, r.0) && OwnEnvelopes(r.0, r.1)
  {
    var (c1, outs1) := SendPlain(c, calls, Plain(ps[0]), rnd);
    if |ps| == 1 then (c1, outs1)
    else
      var (c2, outs2) := SendPlain(c1, calls, Plain(ps[1]), rnd + 1);
      (c2, outs1 + outs2)
  }

  /** The frame is counted and folded into its group. */
  function Folded(c: Cust, frame: Frame): (c': Cust)
    requires Ok(c)
    ensures Follows(c, c') && c'.current == c.current
  {
    c.(bytesOut := c.bytesOut + |frame|, enc := AfterSend(c.enc, frame))
  }

  /** One frame read from this customer's sink. */
  function OnFrame(c: Cust, calls: Calls, frame: Frame, rnd: Random): (r: (Cust, seq<Out>))
    requires Ok(c)
    ensures Follows(c, r.0) && OwnEnvelopes(r.0, r.1)
  {
    var c0 := c.(bytesOut := c.bytesOut + |frame|);
    if c.current.None? then (c0, [])
    else if !c.fec then SendPlain(c0, calls, [PKT_DATA, 0, 0, 0, 0, 0, 0] + frame, rnd)
    else SendPackets(Folded(c, frame), calls, Sent(c.enc, frame), rnd)
  }

  /** A sink read error: tell the peer its connection is over. */
  function OnSinkError(c: Cust, calls: Calls, rnd: Random): (r: (Cust, seq<Out>))
    requires Ok(c)
    ensures Follows(c, r.0) && OwnEnvelopes(r.0, r.1)
  {
    SendPlain(c, calls, [PKT_CLOSE], rnd)
  }

  // ---- events of one customer -------------------------------------------------------

  datatype Event =
    | Body(from: Addr, seqNo: nat, body: seq<Byte>, rnd: Random, now: int)
    | Tick(rnd: Random, now: int)
    | Frame(frame: Frame, rnd: Random)
    | SinkError(rnd: Random)

  function StepOne(c: Cust, calls: Calls, configured: int, ev: Event): (r: (Cust, seq<Out>))
    requires Ok(c)
    ensures Follows(c, r.0) && OwnEnvelopes(r.0, r.1)
  {
    match ev
    case Body(from, seqNo, body, rnd, now) => OnBody(c, calls, from, seqNo, body, rnd, now)
    case Tick(rnd, now) => OnTick(c, calls, configured, rnd, now)
    case Frame(frame, rnd) => OnFrame(c, calls, frame, rnd)
    case SinkError(rnd) => OnSinkError(c, calls, rnd)
  }

  /** Whatever a customer sends carries its own session id and goes to the peer of the
      session it has at that point. */
  lemma SendsToOwnPeer(c: Cust, calls: Calls, configured: int, ev: Event, i: nat)
    requires Ok(c) && i < |StepOne(c, calls, configured, ev).1|
    ensures var (c', outs) := StepOne(c, calls, configured, ev);
            && c'.current.Some? && outs[i].dest == c'.current.value.peer
            && |outs[i].envelope| >= 4 && FromBe16(outs[i].envelope[..2]) == c.sessID
  {
    var (c', outs) := StepOne(c, calls, configured, ev);
    assert OwnEnvelope(c', outs[i]);
  }
}
