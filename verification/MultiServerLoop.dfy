/** The loops of core/multiserver.go and core/customers.go: loading the customer list,
    building the state map, receiving, and ticking. */
module MultiServerLoop {
  import opened Options
  import opened Bytes
  import opened Fec
  import opened Customer
  import opened MultiServer
  import opened CustomerTraffic

  datatype Entry = Entry(name: string, password: string)

  datatype LoadError = NoCustomers | MissingName | MissingPassword | DuplicateName | SameSession

  datatype Loaded = Customers(ids: seq<nat>) | Refused(error: LoadError)

  /** The first `n` entries pass validation. */
  ghost predicate Acceptable(list: seq<Entry>, sid: string -> nat, n: nat)
    requires n <= |list|
  {
    && (forall i :: 0 <= i < n ==> list[i].name != "" && list[i].password != "")
    && (forall i, j :: 0 <= i < j < n ==> list[i].name != list[j].name)
    && (forall i, j :: 0 <= i < j < n ==> sid(list[i].password) != sid(list[j].password))
  }

  /** Why entry `i` is refused, given that the ones before it are acceptable. */
  ghost predicate Faulty(list: seq<Entry>, sid: string -> nat, i: nat, e: LoadError)
    requires i < |list|
  {
    match e
    case NoCustomers => false
    case MissingName => list[i].name == ""
    case MissingPassword => list[i].name != "" && list[i].password == ""
    case DuplicateName => exists j :: 0 <= j < i && list[j].name == list[i].name
    case SameSession => exists j :: 0 <= j < i && sid(list[j].password) == sid(list[i].password)
  }

  /** The validation loop of `loadCustomers`: accepted exactly when names and session ids are
      distinct and nothing is missing, otherwise refused at the first bad entry. */
  method LoadCustomers(list: seq<Entry>, sid: string -> nat) returns (r: Loaded)
    ensures r.Customers? <==> list != [] && Acceptable(list, sid, |list|)
    ensures r.Customers? ==> |r.ids| == |list| && forall i :: 0 <= i < |list| ==> r.ids[i] == sid(list[i].password)
    ensures r.Refused? && list != [] ==> exists i :: 0 <= i < |list| && Acceptable(list, sid, i) && Faulty(list, sid, i, r.error)
    ensures list == [] ==> r == Refused(NoCustomers)
  {
    if list == [] { return Refused(NoCustomers); }
    var seenNames: set<string>, seenIds: set<nat>, ids: seq<nat> := {}, {}, [];
    for i := 0 to |list|
      invariant Acceptable(list, sid, i) && |ids| == i
      invariant forall j :: 0 <= j < i ==> ids[j] == sid(list[j].password)
      invariant seenNames == NamesOf(list[..i]) && seenIds == IdsOf(list[..i], sid)
    {
      var fault := CheckEntry(list, sid, i, seenNames, seenIds);
      if fault.Some? { return Refused(fault.value); }
      SeenBefore(list, sid, i);
      var id := sid(list[i].password);
      seenNames, seenIds := seenNames + {list[i].name}, seenIds + {id};
      ids := ids + [id];
    }
    r := Customers(ids);
  }

  /** The checks on one entry. */
  method CheckEntry(list: seq<Entry>, sid: string -> nat, i: nat, seenNames: set<string>, seenIds: set<nat>)
    returns (fault: Option<LoadError>)
    requires i < |list| && seenNames == NamesOf(list[..i]) && seenIds == IdsOf(list[..i], sid)
    ensures fault.Some? ==> Faulty(list, sid, i, fault.value) && !Acceptable(list, sid, |list|)
    ensures fault.None? && Acceptable(list, sid, i) ==> Acceptable(list, sid, i + 1)
  {
    SeenBefore(list, sid, i);
    FaultRefuses(list, sid, i);
    if list[i].name == "" { return Some(MissingName); }
    if list[i].password == "" { return Some(MissingPassword); }
    if list[i].name in seenNames { return Some(DuplicateName); }
    if sid(list[i].password) in seenIds { return Some(SameSession); }
    fault := None;
  }

  lemma FaultRefuses(list: seq<Entry>, sid: string -> nat, i: nat)
    requires i < |list|
    ensures forall e :: Faulty(list, sid, i, e) ==> !Acceptable(list, sid, |list|)
    ensures Acceptable(list, sid, i) && (forall e :: !Faulty(list, sid, i, e)) ==> Acceptable(list, sid, i + 1)
  {
    if Acceptable(list, sid, i) && forall e :: !Faulty(list, sid, i, e) {
      assert !Faulty(list, sid, i, MissingName) && !Faulty(list, sid, i, MissingPassword);
      assert !Faulty(list, sid, i, DuplicateName) && !Faulty(list, sid, i, SameSession);
    }
  }

  ghost function NamesOf(list: seq<Entry>): (s: set<string>) {
    set j | 0 <= j < |list| :: list[j].name
  }

  ghost function IdsOf(list: seq<Entry>, sid: string -> nat): (s: set<nat>) {
    set j | 0 <= j < |list| :: sid(list[j].password)
  }

  /** What the two sets say about the next entry, and what they become with it. */
  lemma SeenBefore(list: seq<Entry>, sid: string -> nat, i: nat)
    requires i < |list|
    ensures list[i].name in NamesOf(list[..i]) <==> Faulty(list, sid, i, DuplicateName)
    ensures sid(list[i].password) in IdsOf(list[..i], sid) <==> Faulty(list, sid, i, SameSession)
    ensures NamesOf(list[..i + 1]) == NamesOf(list[..i]) + {list[i].name}
    ensures IdsOf(list[..i + 1], sid) == IdsOf(list[..i], sid) + {sid(list[i].password)}
  {
    var pre, more := list[..i], list[..i + 1];
    assert more == pre + [list[i]];
    assert forall j :: 0 <= j < i ==> pre[j] == list[j] == more[j];
    forall n | n in NamesOf(pre) + {list[i].name} ensures n in NamesOf(more) {
      if n != list[i].name { var j :| 0 <= j < |pre| && pre[j].name == n; assert more[j].name == n; } else { assert more[i].name == n; }
    }
    forall n | n in IdsOf(pre, sid) + {sid(list[i].password)} ensures n in IdsOf(more, sid) {
      if n != sid(list[i].password) { var j :| 0 <= j < |pre| && sid(pre[j].password) == n; assert sid(more[j].password) == n; }
      else { assert sid(more[i].password) == n; }
    }
  }

  function NewCust(e: Entry, id: nat, fec: bool, fecGroup: int): (c: Cust) {
    Cust(e.name, e.password, id, None, 0, 0, [], 0, 0, fec, EncInit(fecGroup), map[], 0, 0, [])
  }

  /** The state map of an accepted list: every customer has an entry of its own. */
  ghost predicate Built(st: States, list: seq<Entry>, sid: string -> nat, fec: bool, fecGroup: int, n: nat)
    requires n <= |list|
  {
    && (forall i :: 0 <= i < n ==>
          && sid(list[i].password) in st
          && st[sid(list[i].password)] == NewCust(list[i], sid(list[i].password), fec, fecGroup))
    && (forall id :: id in st ==> exists i :: 0 <= i < n && sid(list[i].password) == id)
  }

  method BuildStates(list: seq<Entry>, sid: string -> nat, fec: bool, fecGroup: int) returns (st: States)
    requires Acceptable(list, sid, |list|) && forall s :: sid(s) < 0x1_0000
    ensures Good(st) && Built(st, list, sid, fec, fecGroup, |list|)
  {
    st := map[];
    for i := 0 to |list|
      invariant Good(st) && Built(st, list, sid, fec, fecGroup, i)
    {
      var id := sid(list[i].password);
      assert id !in st;
      st := st[id := NewCust(list[i], id, fec, fecGroup)];
    }
  }

  /** From a list that was accepted, every listed customer runs as if alone from its own new
      state, whatever the others do. */
  lemma ListedRunAsIfAlone(list: seq<Entry>, sid: string -> nat, fec: bool, calls: Calls, fecGroup: int,
                           inps: seq<Input>, sts: seq<States>, outs: seq<seq<Out>>, i: nat, k: nat)
    requires IsRun(calls, fecGroup, inps, sts, outs) && Built(sts[0], list, sid, fec, fecGroup, |list|)
    requires i < |list| && k <= |inps|
    ensures var id := sid(list[i].password);
            var me := NewCust(list[i], id, fec, fecGroup);
            && Ok(me) && id in sts[k]
            && (sts[k][id], Only(outs[k], id)) == RunOne(me, calls, fecGroup, Views(inps[..k], id))
  {
    var id := sid(list[i].password);
    assert id in sts[0] && Ok(sts[0][id]);
    RunsAsIfAlone(calls, fecGroup, inps, sts, outs, id, k);
  }

  /** What an envelope is for the customer it names. */
  function Addressed(from: Addr, envelope: seq<Byte>, rnd: Random, now: int): (ev: Event)
    requires |envelope| >= 4
  {
    Body(from, FromBe16(envelope[2..4]), envelope[4..], rnd, now)
  }

  /** A data message in an envelope of customer `id`, from its peer: its frame is written to the
      sink of `id`, nothing is sent, and no other customer is touched. */
  lemma ReceivedFrameIsWritten(st: States, calls: Calls, cfg: int, from: Addr, envelope: seq<Byte>, rnd: Random, now: int,
                               id: nat, plain: seq<Byte>)
    requires Good(st) && |envelope| >= 4 && id == FromBe16(envelope[..2]) && id in st
    requires Accepts(st[id], calls, Addressed(from, envelope, rnd, now), plain) && |plain| >= 7 && plain[0] == PKT_DATA
    ensures var (st', outs) := StepAll(st, calls, cfg, Recv(from, envelope, rnd, now));
            && st'[id].sink == st[id].sink + [Write(plain[7..])] && st'[id].current == st[id].current && outs == []
            && st'.Keys == st.Keys && forall i :: i in st && i != id ==> st'[i] == st[i]
  {
    DataIsWritten(st[id], calls, cfg, Addressed(from, envelope, rnd, now), plain);
  }

  /** The server can take the input: a tick has a draw for every customer, and a sink belongs to
      one. In which order a tick visits them is not up to the input. */
  predicate Serviceable(st: States, inp: Input) {
    match inp
    case Recv(_, _, _, _) => true
    case TickAll(_, rnds, _) => forall id :: id in st ==> id in rnds
    case SinkFrame(id, _, _) => id in st
    case SinkFails(id, _) => id in st
  }

  lemma SameKeys(st: States, st': States, inp: Input)
    requires st.Keys == st'.Keys && Serviceable(st, inp)
    ensures Serviceable(st', inp)
  {
    assert forall id :: id in st.Keys <==> id in st'.Keys;
  }

  predicate SameInput(inp: Input, done: Input) {
    if inp.TickAll? then done.TickAll? && inp.(order := done.order) == done else inp == done
  }

  /** One more input makes a longer run. */
  lemma RunGrows(calls: Calls, cfg: int, inps: seq<Input>, sts: seq<States>, outs: seq<seq<Out>>,
                 inp: Input, st: States, sent: seq<Out>)
    requires IsRun(calls, cfg, inps, sts, outs) && Good(sts[|inps|]) && Possible(sts[|inps|], inp)
    requires (st, sent) == StepAll(sts[|inps|], calls, cfg, inp)
    ensures IsRun(calls, cfg, inps + [inp], sts + [st], outs + [outs[|inps|] + sent])
  {
    var inps', sts', outs' := inps + [inp], sts + [st], outs + [outs[|inps|] + sent];
    forall k | 0 <= k < |inps'|
      ensures && Good(sts'[k]) && Possible(sts'[k], inps'[k])
              && sts'[k + 1] == StepAll(sts'[k], calls, cfg, inps'[k]).0
              && outs'[k + 1] == outs'[k] + StepAll(sts'[k], calls, cfg, inps'[k]).1
    {
      if k < |inps| { assert sts'[k] == sts[k] && inps'[k] == inps[k] && sts'[k + 1] == sts[k + 1]; }
    }
  }

  class Server {
    var states: States
    const calls: Calls
    const fecGroup: int

    /** An accepted list gives every customer a state of its own. */
    constructor (list: seq<Entry>, sid: string -> nat, calls: Calls, fec: bool, fecGroup: int)
      requires Acceptable(list, sid, |list|) && forall s :: sid(s) < 0x1_0000
      ensures Good(states) && this.calls == calls && this.fecGroup == fecGroup
      ensures Built(states, list, sid, fec, fecGroup, |list|)
    {
      this.calls, this.fecGroup := calls, fecGroup;
      var st := BuildStates(list, sid, fec, fecGroup);
      states := st;
    }

    /** One event on one customer. */
    method Handle(id: nat, ev: Event) returns (outs: seq<Out>)
      requires Good(states) && id in states
      modifies `states
      ensures Good(states) && (states, outs) == Touch(old(states), calls, fecGroup, id, ev)
    {
      var (c, sent) := StepOne(states[id], calls, fecGroup, ev);
      states, outs := states[id := c], sent;
    }

    /** One turn of the receive loop. */
    method Receive(from: Addr, envelope: seq<Byte>, rnd: Random, now: int) returns (outs: seq<Out>)
      requires Good(states)
      modifies `states
      ensures Good(states)
      ensures (states, outs) == StepAll(old(states), calls, fecGroup, Recv(from, envelope, rnd, now))
    {
      outs := [];
      if |envelope| < 4 { return; }
      var id := FromBe16(envelope[..2]);
      if id !in states { return; }
      outs := Handle(id, Body(from, FromBe16(envelope[2..4]), envelope[4..], rnd, now));
    }

    /** One round of the shared ticker, in whatever order the map yields its customers. */
    method TickRound(rnds: map<nat, Random>, now: int) returns (outs: seq<Out>, ghost order: seq<nat>)
      requires Good(states) && forall id :: id in states ==> id in rnds
      modifies `states
      ensures Good(states) && Possible(old(states), TickAll(order, rnds, now))
      ensures (states, outs) == StepAll(old(states), calls, fecGroup, TickAll(order, rnds, now))
    {
      outs, order := [], [];
      var rest := states.Keys;
      while rest != {}
        invariant rest <= old(states).Keys && Good(states) && states.Keys == old(states).Keys
        invariant forall id :: id in order <==> id in old(states) && id !in rest
        invariant forall i, j :: 0 <= i < j < |order| ==> order[i] != order[j]
        invariant (states, outs) == TickEach(old(states), calls, fecGroup, order, rnds, now)
        decreases rest
      {
        var id :| id in rest;
        rest := rest - {id};
        TickOneMore(old(states), calls, fecGroup, order, id, rnds, now);
        order := order + [id];
        var sent := Handle(id, Tick(rnds[id], now));
        outs := outs + sent;
      }
    }

    /** One frame read from a customer's sink. */
    method ReadSink(id: nat, frame: Frame, rnd: Random) returns (outs: seq<Out>)
      requires Good(states) && id in states
      modifies `states
      ensures Good(states)
      ensures (states, outs) == StepAll(old(states), calls, fecGroup, SinkFrame(id, frame, rnd))
    {
      outs := Handle(id, Event.Frame(frame, rnd));
    }

    /** One input of any kind. */
    method Take(inp: Input) returns (outs: seq<Out>, ghost done: Input)
      requires Good(states) && Serviceable(states, inp)
      modifies `states
      ensures Possible(old(states), done) && SameInput(inp, done)
      ensures Good(states) && (states, outs) == StepAll(old(states), calls, fecGroup, done)
    {
      done := inp;
      match inp
      case Recv(from, envelope, rnd, now) => outs := Receive(from, envelope, rnd, now);
      case TickAll(_, rnds, now) =>
        ghost var order;
        outs, order := TickRound(rnds, now);
        done := TickAll(order, rnds, now);
      case SinkFrame(id, frame, rnd) => outs := ReadSink(id, frame, rnd);
      case SinkFails(id, rnd) => outs := Handle(id, SinkError(rnd));
    }

    /** Whatever comes in, in whatever order: the server goes through a run of the whole, so
        each customer is served as if it were alone (`ListedRunAsIfAlone`). */
    method Serve(inps: seq<Input>)
      returns (sent: seq<Out>, ghost done: seq<Input>, ghost sts: seq<States>, ghost outs: seq<seq<Out>>)
      requires Good(states) && forall k :: 0 <= k < |inps| ==> Serviceable(states, inps[k])
      modifies `states
      ensures IsRun(calls, fecGroup, done, sts, outs) && |done| == |inps|
      ensures forall k :: 0 <= k < |inps| ==> SameInput(inps[k], done[k])
      ensures sts[0] == old(states) && states == sts[|inps|] && sent == outs[|inps|]
    {
      sent, done, sts, outs := [], [], [states], [[]];
      for i := 0 to |inps|
        invariant Good(states) && states.Keys == old(states).Keys
        invariant IsRun(calls, fecGroup, done, sts, outs) && |done| == i
        invariant forall k :: 0 <= k < i ==> SameInput(inps[k], done[k])
        invariant sts[0] == old(states) && states == sts[i] && sent == outs[i]
      {
        SameKeys(old(states), states, inps[i]);
        var more, inp := Take(inps[i]);
        RunGrows(calls, fecGroup, done, sts, outs, inp, states, more);
        sent := sent + more;
        done, sts, outs := done + [inp], sts + [states], outs + [sent];
      }
    }
  }
}
