/** The multi-client server of core/multiserver.go: one receive loop and one ticker over a
    map of customers, demultiplexed by session id. Each customer behaves as if alone. */
module MultiServer {
  import opened Options
  import opened Bytes
  import opened Customer

  type States = map<nat, Cust>

  /** The state map as `runServerMulti` builds it: each customer under its own session id. */
  ghost predicate Good(st: States) {
    forall id :: id in st ==> Ok(st[id]) && st[id].sessID == id
  }

  datatype Input =
    | Recv(from: Addr, envelope: seq<Byte>, rnd: Random, now: int)
    | TickAll(order: seq<nat>, rnds: map<nat, Random>, now: int)
    | SinkFrame(id: nat, frame: Frame, rnd: Random)
    | SinkFails(id: nat, rnd: Random)

  /** A tick visits every customer once, in whatever order the map iterates. */
  ghost predicate Possible(st: States, inp: Input) {
    match inp
    case Recv(_, _, _, _) => true
    case TickAll(order, rnds, _) =>
      && (forall id :: id in order <==> id in st) && (forall id :: id in st ==> id in rnds)
      && (forall i, j :: 0 <= i < j < |order| ==> order[i] != order[j])
    case SinkFrame(id, _, _) => id in st
    case SinkFails(id, _) => id in st
  }

  ghost function Touch(st: States, calls: Calls, cfg: int, id: nat, ev: Event): (r: (States, seq<Out>))
    requires Good(st) && id in st
    ensures Good(r.0) && r.0.Keys == st.Keys
  {
    var (c, outs) := StepOne(st[id], calls, cfg, ev);
    (st[id := c], outs)
  }

  ghost function TickEach(st: States, calls: Calls, cfg: int, order: seq<nat>, rnds: map<nat, Random>, now: int): (r: (States, seq<Out>))
    requires Good(st) && forall id :: id in order ==> id in st && id in rnds
    ensures Good(r.0) && r.0.Keys == st.Keys
    decreases |order|
  {
    if order == [] then (st, [])
    else
      var last := order[|order| - 1];
      var (st1, outs1) := TickEach(st, calls, cfg, order[..|order| - 1], rnds, now);
      var (st2, outs2) := Touch(st1, calls, cfg, last, Tick(rnds[last], now));
      (st2, outs1 + outs2)
  }

  lemma TickOneMore(st: States, calls: Calls, cfg: int, order: seq<nat>, id: nat, rnds: map<nat, Random>, now: int)
    requires Good(st) && id in st && id in rnds && forall i :: i in order ==> i in st && i in rnds
    ensures var (st1, outs1) := TickEach(st, calls, cfg, order, rnds, now);
            var (st2, outs2) := Touch(st1, calls, cfg, id, Tick(rnds[id], now));
            TickEach(st, calls, cfg, order + [id], rnds, now) == (st2, outs1 + outs2)
  {
    assert (order + [id])[..|order + [id]| - 1] == order;
  }

  /** The customer an envelope is for, if it is long enough and the id is known. */
  function Target(st: States, envelope: seq<Byte>): (id: Option<nat>) {
    if |envelope| < 4 || FromBe16(envelope[..2]) !in st then None else Some(FromBe16(envelope[..2]))
  }

  function AsBody(inp: Input): (ev: Event)
    requires inp.Recv? && |inp.envelope| >= 4
  {
    Body(inp.from, FromBe16(inp.envelope[2..4]), inp.envelope[4..], inp.rnd, inp.now)
  }

  ghost function StepAll(st: States, calls: Calls, cfg: int, inp: Input): (r: (States, seq<Out>))
    requires Good(st) && Possible(st, inp)
    ensures Good(r.0) && r.0.Keys == st.Keys
  {
    match inp
    case Recv(from, envelope, rnd, now) =>
      var id := Target(st, envelope);
      if id.None? then (st, []) else Touch(st, calls, cfg, id.value, AsBody(inp))
    case TickAll(order, rnds, now) => TickEach(st, calls, cfg, order, rnds, now)
    case SinkFrame(id, frame, rnd) => Touch(st, calls, cfg, id, Event.Frame(frame, rnd))
    case SinkFails(id, rnd) => Touch(st, calls, cfg, id, SinkError(rnd))
  }

  // ---- one customer's view -------------------------------------------------------------

  /** What an input is for customer `id`: one event or none. */
  function View(inp: Input, id: nat): (evs: seq<Event>) {
    match inp
    case Recv(_, envelope, _, _) =>
      if |envelope| >= 4 && FromBe16(envelope[..2]) == id then [AsBody(inp)] else []
    case TickAll(_, rnds, now) => if id in rnds then [Tick(rnds[id], now)] else []
    case SinkFrame(i, frame, rnd) => if i == id then [Event.Frame(frame, rnd)] else []
    case SinkFails(i, rnd) => if i == id then [SinkError(rnd)] else []
  }

  /** The envelopes that carry session id `id`. */
  function Only(outs: seq<Out>, id: nat): (r: seq<Out>) {
    if outs == [] then []
    else
      var o := outs[|outs| - 1];
      Only(outs[..|outs| - 1], id) + if |o.envelope| >= 2 && FromBe16(o.envelope[..2]) == id then [o] else []
  }

  lemma {:induction false} OnlyConcat(a: seq<Out>, b: seq<Out>, id: nat)
    ensures Only(a + b, id) == Only(a, id) + Only(b, id)
    decreases |b|
  {
    if b == [] {
      assert a + b == a;
    } else {
      assert (a + b)[..|a + b| - 1] == a + b[..|b| - 1];
      OnlyConcat(a, b[..|b| - 1], id);
    }
  }

  lemma {:induction false} OnlyOf(outs: seq<Out>, owner: nat, id: nat)
    requires forall i :: 0 <= i < |outs| ==> |outs[i].envelope| >= 4 && FromBe16(outs[i].envelope[..2]) == owner
    ensures Only(outs, id) == if owner == id then outs else []
    decreases |outs|
  {
    if outs != [] {
      OnlyOf(outs[..|outs| - 1], owner, id);
      assert outs == outs[..|outs| - 1] + [outs[|outs| - 1]];
    }
  }

  lemma TouchView(st: States, calls: Calls, cfg: int, id: nat, ev: Event, me: nat)
    requires Good(st) && id in st && me in st
    ensures var (st', outs) := Touch(st, calls, cfg, id, ev);
            && st'[me] == (if me == id then StepOne(st[me], calls, cfg, ev).0 else st[me])
            && Only(outs, me) == (if me == id then StepOne(st[me], calls, cfg, ev).1 else [])
  {
    var outs := StepOne(st[id], calls, cfg, ev).1;
    forall i | 0 <= i < |outs| ensures |outs[i].envelope| >= 4 && FromBe16(outs[i].envelope[..2]) == id {
      SendsToOwnPeer(st[id], calls, cfg, ev, i);
    }
    OnlyOf(outs, id, me);
  }

  lemma {:induction false} TickEachView(st: States, calls: Calls, cfg: int, order: seq<nat>, rnds: map<nat, Random>, now: int, me: nat)
    requires Good(st) && me in st && forall id :: id in order ==> id in st && id in rnds
    requires forall i, j :: 0 <= i < j < |order| ==> order[i] != order[j]
    ensures var (st', outs) := TickEach(st, calls, cfg, order, rnds, now);
            && st'[me] == (if me in order then StepOne(st[me], calls, cfg, Tick(rnds[me], now)).0 else st[me])
            && Only(outs, me) == (if me in order then StepOne(st[me], calls, cfg, Tick(rnds[me], now)).1 else [])
    decreases |order|
  {
    if order != [] {
      var rest, last := order[..|order| - 1], order[|order| - 1];
      assert order == rest + [last] && last !in rest;
      TickEachView(st, calls, cfg, rest, rnds, now, me);
      var (st1, outs1) := TickEach(st, calls, cfg, rest, rnds, now);
      TickOneMore(st, calls, cfg, rest, last, rnds, now);
      TouchView(st1, calls, cfg, last, Tick(rnds[last], now), me);
      OnlyConcat(outs1, Touch(st1, calls, cfg, last, Tick(rnds[last], now)).1, me);
    }
  }

  /** One customer alone. */
  ghost function RunOne(c: Cust, calls: Calls, cfg: int, evs: seq<Event>): (r: (Cust, seq<Out>))
    requires Ok(c)
    ensures Ok(r.0)
    decreases |evs|
  {
    if evs == [] then (c, [])
    else
      var (c1, outs1) := RunOne(c, calls, cfg, evs[..|evs| - 1]);
      var (c2, outs2) := StepOne(c1, calls, cfg, evs[|evs| - 1]);
      (c2, outs1 + outs2)
  }

  lemma RunOneMore(c: Cust, calls: Calls, cfg: int, evs: seq<Event>, ev: Event)
    requires Ok(c)
    ensures var (c1, outs1) := RunOne(c, calls, cfg, evs);
            RunOne(c, calls, cfg, evs + [ev]) ==
              (StepOne(c1, calls, cfg, ev).0, outs1 + StepOne(c1, calls, cfg, ev).1)
  {
    assert (evs + [ev])[..|evs + [ev]| - 1] == evs;
  }

  /** One input seen by one customer. */
  lemma StepView(st: States, calls: Calls, cfg: int, inp: Input, me: nat)
    requires Good(st) && Possible(st, inp) && me in st
    ensures var (st', outs) := StepAll(st, calls, cfg, inp);
            var evs := View(inp, me);
            && (inp.TickAll? ==> evs != [])
            && st'[me] == (if evs == [] then st[me] else StepOne(st[me], calls, cfg, evs[0]).0)
            && Only(outs, me) == (if evs == [] then [] else StepOne(st[me], calls, cfg, evs[0]).1)
  {
    match inp
    case Recv(from, envelope, rnd, now) =>
      var id := Target(st, envelope);
      if id.Some? { TouchView(st, calls, cfg, id.value, AsBody(inp), me); }
    case TickAll(order, rnds, now) => TickEachView(st, calls, cfg, order, rnds, now, me);
    case SinkFrame(id, frame, rnd) => TouchView(st, calls, cfg, id, Event.Frame(frame, rnd), me);
    case SinkFails(id, rnd) => TouchView(st, calls, cfg, id, SinkError(rnd), me);
  }

  // ---- runs --------------------------------------------------------------------------------

  /** `sts[k]` and `outs[k]` are the server's states and everything sent after `k` inputs. */
  ghost predicate IsRun(calls: Calls, cfg: int, inps: seq<Input>, sts: seq<States>, outs: seq<seq<Out>>) {
    && |sts| == |outs| == |inps| + 1 && Good(sts[0]) && outs[0] == []
    && forall k :: 0 <= k < |inps| ==>
         && Good(sts[k]) && Possible(sts[k], inps[k])
         && sts[k + 1] == StepAll(sts[k], calls, cfg, inps[k]).0
         && outs[k + 1] == outs[k] + StepAll(sts[k], calls, cfg, inps[k]).1
  }

  function Views(inps: seq<Input>, id: nat): (evs: seq<Event>) {
    if inps == [] then [] else Views(inps[..|inps| - 1], id) + View(inps[|inps| - 1], id)
  }

  /** One more input extends one customer's lone run by what the input is for it. */
  lemma OneMoreInput(st: States, calls: Calls, cfg: int, inp: Input, me: nat, sent: seq<Out>, c: Cust, evs: seq<Event>)
    requires Good(st) && Possible(st, inp) && me in st && Ok(c)
    requires (st[me], Only(sent, me)) == RunOne(c, calls, cfg, evs)
    ensures var (st', outs) := StepAll(st, calls, cfg, inp);
            (st'[me], Only(sent + outs, me)) == RunOne(c, calls, cfg, evs + View(inp, me))
  {
    StepView(st, calls, cfg, inp, me);
    OnlyConcat(sent, StepAll(st, calls, cfg, inp).1, me);
    var more := View(inp, me);
    if more == [] {
      assert evs + more == evs && Only(sent, me) + [] == Only(sent, me);
    } else {
      assert more == [more[0]];
      RunOneMore(c, calls, cfg, evs, more[0]);
    }
  }

  /** In every run, a customer's state and the envelopes carrying its id are exactly those of
      a run of that customer alone on the inputs meant for it. */
  lemma {:induction false} RunsAsIfAlone(calls: Calls, cfg: int, inps: seq<Input>, sts: seq<States>, outs: seq<seq<Out>>, me: nat, k: nat)
    requires IsRun(calls, cfg, inps, sts, outs) && me in sts[0] && k <= |inps|
    ensures Good(sts[k]) && sts[k].Keys == sts[0].Keys
    ensures (sts[k][me], Only(outs[k], me)) == RunOne(sts[0][me], calls, cfg, Views(inps[..k], me))
    decreases k
  {
    if k > 0 {
      var before := inps[..k - 1];
      RunsAsIfAlone(calls, cfg, inps, sts, outs, me, k - 1);
      assert inps[..k][..k - 1] == before;
      OneMoreInput(sts[k - 1], calls, cfg, inps[k - 1], me, outs[k - 1], sts[0][me], Views(before, me));
    }
  }
}
