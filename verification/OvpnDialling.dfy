/** How long a dial may take. Runs in which no dial takes longer than `dial` are safe if and only
    if `dial` is at most the reclaim grace less the status lag. */
module OvpnDialling {
  import opened Options
  import opened OvpnHooks
  import opened OvpnWorld
  import opened OvpnSafety
  import opened OvpnExamples

  /** A step in which a dial takes at most `dial`. */
  ghost predicate DialNext(b: Blocks, dial: int, w: World, ev: Event, w': World) {
    if ev.Establish? then
      && ev.key in w.devices && w.devices[ev.key].since.None? && w.now - w.devices[ev.key].leased <= dial
      && w' == w.(devices := w.devices[ev.key := w.devices[ev.key].(since := Some(w.now))])
    else Next(b, w, ev, w')
  }

  ghost predicate IsDialRun(b: Blocks, dial: int, evs: seq<Event>, ws: seq<World>) {
    && |ws| == |evs| + 1 && Initial(ws[0])
    && forall i :: 0 <= i < |evs| ==> DialNext(b, dial, ws[i], evs[i], ws[i + 1])
  }

  /** A run in which no dial takes longer than `dial` leads to `w`. */
  ghost predicate Reached(b: Blocks, dial: int, w: World) {
    exists evs, ws :: IsDialRun(b, dial, evs, ws) && ws[|evs|] == w
  }

  lemma Reach(b: Blocks, dial: int, w: World, ev: Event, w': World)
    requires Reached(b, dial, w) && DialNext(b, dial, w, ev, w')
    ensures Reached(b, dial, w')
  {
    var evs, ws :| IsDialRun(b, dial, evs, ws) && ws[|evs|] == w;
    var evs', ws' := evs + [ev], ws + [w'];
    forall i | 0 <= i < |evs'| ensures DialNext(b, dial, ws'[i], evs'[i], ws'[i + 1]) {
      if i < |evs| { assert DialNext(b, dial, ws[i], evs[i], ws[i + 1]); }
    }
    assert IsDialRun(b, dial, evs', ws');
  }

  /** Connected devices never share an address. */
  ghost predicate AlwaysApart(dial: int) {
    forall b, w, k, k' :: BlocksOk(b) && Reached(b, dial, w) ==> Apart(w, k, k')
  }

  /** Ghost reclaim never takes a connected device's address. */
  ghost predicate AlwaysSpared(dial: int) {
    forall b, w, tr, ip :: BlocksOk(b) && Reached(b, dial, w) && Ghost(w.D(tr), w.now, ip) ==> !HeldLive(w, tr, ip)
  }

  /** No account ever exceeds its limit. */
  ghost predicate AlwaysWithin(dial: int) {
    forall b, w, a :: BlocksOk(b) && Reached(b, dial, w) ==> WithinLimit(b, w, a)
  }

  lemma QuickDialsKeep(b: Blocks, dial: int, w: World)
    requires BlocksOk(b) && dial <= DIAL_TIME && Reached(b, dial, w)
    ensures Inv(b, w)
  {
    var evs, ws :| IsDialRun(b, dial, evs, ws) && ws[|evs|] == w;
    forall i | 0 <= i < |evs| ensures Next(b, ws[i], evs[i], ws[i + 1]) {
      assert DialNext(b, dial, ws[i], evs[i], ws[i + 1]);
    }
    RunKeeps(b, evs, ws, |evs|);
  }

  lemma QuickDialsAreSafe(dial: int)
    requires dial <= DIAL_TIME
    ensures AlwaysApart(dial) && AlwaysSpared(dial) && AlwaysWithin(dial)
  {
    forall b, w, k, k' | BlocksOk(b) && Reached(b, dial, w) ensures Apart(w, k, k') { QuickDialsKeep(b, dial, w); }
    forall b, w, tr, ip | BlocksOk(b) && Reached(b, dial, w) && Ghost(w.D(tr), w.now, ip) ensures !HeldLive(w, tr, ip) {
      QuickDialsKeep(b, dial, w);
      GhostIsNotLive(b, w, tr, ip);
    }
    forall b, w, a | BlocksOk(b) && Reached(b, dial, w) ensures WithinLimit(b, w, a) { QuickDialsKeep(b, dial, w); }
  }

  lemma OldestIsSecond(x: Ip, y: Ip, d: Dir, now: int)
    requires !Ghost(d, now, x)
    ensures OldestGhost(d, now, [x, y]) == if Ghost(d, now, y) then Some(y) else None
  {
    assert [x, y][..1] == [x] && [x][..0] == [];
    assert OldestGhost(d, now, [x]) == None;
  }

  // ---- a dial of 5001 ms ------------------------------------------------------------------------

  const LEASES: map<Ip, Lease> := map["a" := Lease(0, "k1"), "b" := Lease(0, "k2")]
  const TAKEN: map<Ip, Lease> := map["a" := Lease(0, "k1"), "b" := Lease(10001, "k3")]

  const K1: Device := Device(Udp, "a", 0, None)
  const K2: Device := Device(Udp, "b", 0, None)
  const K3: Device := Device(Udp, "b", 10001, None)

  /** The first device is connected, the second one dials. */
  const BUSY: map<Key, Device> := map["k1" := K1.(since := Some(0)), "k2" := K2]
  /** The second one too is connected, at last. */
  const LATE: map<Key, Device> := map["k1" := K1.(since := Some(0)), "k2" := K2.(since := Some(5001))]

  /** A world in which only UDP is in use and nothing is marked released. */
  function OnUdp(now: int, udpWrote: int, tcpWrote: int, leases: map<Ip, Lease>, status: set<Ip>,
                 devices: map<Key, Device>, used: set<Key>): (w: World) {
    World(now, Dir(leases, map[], status), EMPTY, udpWrote, tcpWrote, devices, used)
  }

  lemma SecondDial()
    ensures Next(OneAccount(), OneDialled(), Connect(Udp, "acc", "k2"),
                 OnUdp(0, 0, 0, LEASES, {}, map["k1" := K1, "k2" := K2], {"k1", "k2"}))
  {
    SecondGets();
    assert Leased(Pruned(OneDialled().udp, 0), "b", "k2", 0) == Dir(LEASES, map[], {});
  }

  lemma BusyIps(w: World)
    requires w.devices == BUSY
    ensures LiveIps(w, Udp) == {"a"} && LiveIps(w, Tcp) == {}
  {
    assert w.devices["k1"].ip == "a";
  }

  /** Up to five seconds pass and both status files are rewritten. */
  lemma Wait(dial: int, now: int, dt: nat, status: set<Ip>)
    requires dt <= STATUS_LAG && Reached(OneAccount(), dial, OnUdp(now, now, now, LEASES, status, BUSY, {"k1", "k2"}))
    ensures Reached(OneAccount(), dial, OnUdp(now + dt, now + dt, now + dt, LEASES, {"a"}, BUSY, {"k1", "k2"}))
  {
    var b, u, later := OneAccount(), {"k1", "k2"}, now + dt;
    var w1, w2 := OnUdp(later, now, now, LEASES, status, BUSY, u), OnUdp(later, later, now, LEASES, {"a"}, BUSY, u);
    BusyIps(w1);
    BusyIps(w2);
    Reach(b, dial, OnUdp(now, now, now, LEASES, status, BUSY, u), Tick(dt), w1);
    Reach(b, dial, w1, Rewrite(Udp), w2);
    Reach(b, dial, w2, Rewrite(Tcp), OnUdp(later, later, later, LEASES, {"a"}, BUSY, u));
  }

  lemma BothDialled(dial: int)
    ensures Reached(OneAccount(), dial, OnUdp(0, 0, 0, LEASES, {}, map["k1" := K1, "k2" := K2], {"k1", "k2"}))
  {
    var b := OneAccount();
    FirstDial();
    SecondDial();
    assert IsDialRun(b, dial, [], [Fresh0()]);
    Reach(b, dial, Fresh0(), Connect(Udp, "acc", "k1"), OneDialled());
    Reach(b, dial, OneDialled(), Connect(Udp, "acc", "k2"), OnUdp(0, 0, 0, LEASES, {}, map["k1" := K1, "k2" := K2], {"k1", "k2"}));
  }

  lemma Connects(b: Blocks, dial: int, w: World, tr: Transport, a: Account, ip: Ip, key: Key, w': World)
    requires Reached(b, dial, w) && Gets(b, w, tr, a) == Some(ip) && b.Ips(tr, a) != [] && key != "" && key !in w.used
    requires w' == Put(w, tr, Leased(Pruned(w.D(tr), w.now), ip, key, w.now), Some(ip), key)
    ensures Reached(b, dial, w')
  {
    Reach(b, dial, w, Connect(tr, a, key), w');
  }

  lemma Establishes(b: Blocks, dial: int, w: World, key: Key, w': World)
    requires Reached(b, dial, w) && key in w.devices && w.devices[key].since.None? && w.now - w.devices[key].leased <= dial
    requires w' == w.(devices := w.devices[key := w.devices[key].(since := Some(w.now))])
    ensures Reached(b, dial, w')
  {
    Reach(b, dial, w, Establish(key), w');
  }

  /** Ten seconds after its hook, five after it was connected, and just before it gets into the
      status file. */
  function AtTheGrace(): (w: World) {
    OnUdp(10001, 5001, 5001, LEASES, {"a"}, LATE, {"k1", "k2"})
  }

  lemma GraceIsReached(dial: int)
    requires dial > DIAL_TIME
    ensures Reached(OneAccount(), dial, AtTheGrace())
  {
    var b, u := OneAccount(), {"k1", "k2"};
    var start := OnUdp(0, 0, 0, LEASES, {}, map["k1" := K1, "k2" := K2], u);
    BothDialled(dial);
    assert start.devices["k1" := K1.(since := Some(0))] == BUSY;
    Establishes(b, dial, start, "k1", OnUdp(0, 0, 0, LEASES, {}, BUSY, u));
    Wait(dial, 0, 5000, {});
    Wait(dial, 5000, 1, {"a"});
    assert BUSY["k2" := K2.(since := Some(5001))] == LATE;
    Establishes(b, dial, OnUdp(5001, 5001, 5001, LEASES, {"a"}, BUSY, u), "k2", OnUdp(5001, 5001, 5001, LEASES, {"a"}, LATE, u));
    Reach(b, dial, OnUdp(5001, 5001, 5001, LEASES, {"a"}, LATE, u), Tick(5000), AtTheGrace());
  }

  /** The connected device's lease passes for a ghost. */
  lemma LiveGhost()
    ensures Ghost(AtTheGrace().udp, 10001, "b") && !Ghost(AtTheGrace().udp, 10001, "a") && HeldLive(AtTheGrace(), Udp, "b")
  {
    assert IsLive(AtTheGrace(), "k2");
  }

  lemma ThirdGets()
    ensures Gets(OneAccount(), AtTheGrace(), Udp, "acc") == Some("b")
  {
    var w := AtTheGrace();
    LiveGhost();
    TwoIps("a", "b", w.udp, 10001);
    TwoIps("c", "d", EMPTY, 10001);
    OldestIsSecond("a", "b", w.udp, 10001);
  }

  /** It is taken by a third device, which is then connected at the same address. */
  function Shared(): (w: World) {
    OnUdp(10001, 5001, 5001, TAKEN, {"a"}, LATE["k3" := K3.(since := Some(10001))], {"k1", "k2", "k3"})
  }

  lemma ThirdDials(dial: int, w: World)
    requires dial > DIAL_TIME && w == OnUdp(10001, 5001, 5001, TAKEN, {"a"}, LATE["k3" := K3], {"k1", "k2", "k3"})
    ensures Reached(OneAccount(), dial, w)
  {
    GraceIsReached(dial);
    ThirdGets();
    assert Leased(Pruned(AtTheGrace().udp, 10001), "b", "k3", 10001) == Dir(TAKEN, map[], {"a"});
    Connects(OneAccount(), dial, AtTheGrace(), Udp, "acc", "b", "k3", w);
  }

  lemma SharedIsReached(dial: int)
    requires dial > DIAL_TIME
    ensures Reached(OneAccount(), dial, Shared()) && !Apart(Shared(), "k2", "k3")
  {
    var w := OnUdp(10001, 5001, 5001, TAKEN, {"a"}, LATE["k3" := K3], {"k1", "k2", "k3"});
    ThirdDials(dial, w);
    assert w.devices["k3" := K3.(since := Some(10001))] == Shared().devices;
    Establishes(OneAccount(), dial, w, "k3", Shared());
  }

  // ---- and the limit ---------------------------------------------------------------------------

  lemma Leaves(b: Blocks, dial: int, w: World, key: Key, ip: Ip, w': World)
    requires Reached(b, dial, w) && IsLive(w, key) && w.devices[key].tr == Udp && key != ""
    requires ip in w.udp.leases && w.udp.leases[ip].key == key
    requires w' == w.(udp := w.udp.(leases := w.udp.leases - {ip}, released := w.udp.released[ip := w.now]),
                      devices := w.devices - {key})
    ensures Reached(b, dial, w')
  {
    assert Disconnected(w.D(w.devices[key].tr), w'.udp, w.now, key);
    assert w' == w.WithDir(Udp, w'.udp).(devices := w.devices - {key});
    Reach(b, dial, w, Disconnect(key), w');
  }

  /** The other two hang up. The second device is connected at `b`, which is marked free. */
  function OneLeft(leases: map<Ip, Lease>, released: map<Ip, int>, status: set<Ip>, wrote: int, devices: map<Key, Device>): (w: World) {
    World(10001, Dir(leases, released, status), EMPTY, wrote, 5001, devices, {"k1", "k2", "k3"})
  }

  const ALONE: map<Key, Device> := map["k2" := K2.(since := Some(5001))]
  const MARKS: map<Ip, int> := map["a" := 10001, "b" := 10001]

  lemma ThirdLeaves(dial: int)
    requires dial > DIAL_TIME
    ensures Reached(OneAccount(), dial, OneLeft(map["a" := Lease(0, "k1")], map["b" := 10001], {"a"}, 5001, LATE))
  {
    var w' := OneLeft(map["a" := Lease(0, "k1")], map["b" := 10001], {"a"}, 5001, LATE);
    SharedIsReached(dial);
    assert TAKEN - {"b"} == w'.udp.leases;
    assert Shared().devices - {"k3"} == LATE;
    Leaves(OneAccount(), dial, Shared(), "k3", "b", w');
  }

  lemma FirstLeaves(dial: int)
    requires dial > DIAL_TIME
    ensures Reached(OneAccount(), dial, OneLeft(map[], MARKS, {"a"}, 5001, ALONE))
  {
    var w, w' := OneLeft(map["a" := Lease(0, "k1")], map["b" := 10001], {"a"}, 5001, LATE), OneLeft(map[], MARKS, {"a"}, 5001, ALONE);
    ThirdLeaves(dial);
    assert w.udp.leases - {"a"} == map[] && w.udp.released["a" := 10001] == MARKS;
    assert LATE - {"k1"} == ALONE;
    Leaves(OneAccount(), dial, w, "k1", "a", w');
  }

  lemma StatusShowsIt(dial: int)
    requires dial > DIAL_TIME
    ensures Reached(OneAccount(), dial, OneLeft(map[], MARKS, {"b"}, 10001, ALONE))
  {
    var w := OneLeft(map[], MARKS, {"a"}, 5001, ALONE);
    FirstLeaves(dial);
    assert w.devices["k2"].ip == "b";
    assert LiveIps(w, Udp) == {"b"};
    Reach(OneAccount(), dial, w, Rewrite(Udp), OneLeft(map[], MARKS, {"b"}, 10001, ALONE));
  }

  const K4: Device := Device(Tcp, "c", 10001, None)
  const K5: Device := Device(Udp, "a", 10001, None)

  /** A device dials on TCP, where `b` still counts. */
  function OnTcpToo(): (w: World) {
    World(10001, Dir(map[], MARKS, {"b"}), Dir(map["c" := Lease(10001, "k4")], map[], {}), 10001, 5001,
          ALONE["k4" := K4], {"k1", "k2", "k3", "k4"})
  }

  /** Another dials on UDP, where `b` does not. */
  function OneTooMany(): (w: World) {
    World(10001, Dir(map["a" := Lease(10001, "k5")], map["b" := 10001], {"b"}), Dir(map["c" := Lease(10001, "k4")], map[], {}),
          10001, 5001, ALONE["k4" := K4]["k5" := K5], {"k1", "k2", "k3", "k4", "k5"})
  }

  lemma FourthGets(w: World)
    requires w == OneLeft(map[], MARKS, {"b"}, 10001, ALONE)
    ensures Gets(OneAccount(), w, Tcp, "acc") == Some("c")
  {
    TwoIps("a", "b", w.udp, 10001);
    TwoIps("c", "d", w.tcp, 10001);
  }

  lemma FourthDials(dial: int)
    requires dial > DIAL_TIME
    ensures Reached(OneAccount(), dial, OnTcpToo())
  {
    var w := OneLeft(map[], MARKS, {"b"}, 10001, ALONE);
    StatusShowsIt(dial);
    FourthGets(w);
    assert Leased(Pruned(w.tcp, 10001), "c", "k4", 10001) == OnTcpToo().tcp;
    Connects(OneAccount(), dial, w, Tcp, "acc", "c", "k4", OnTcpToo());
  }

  lemma FifthGets()
    ensures Gets(OneAccount(), OnTcpToo(), Udp, "acc") == Some("a")
  {
    TwoIps("a", "b", OnTcpToo().udp, 10001);
    TwoIps("c", "d", OnTcpToo().tcp, 10001);
  }

  lemma OneTooManyExceeds()
    ensures !WithinLimit(OneAccount(), OneTooMany(), "acc")
  {
    var w := OneTooMany();
    assert IsLive(w, "k2");
    assert Occupied(w, Udp, "a") && Occupied(w, Udp, "b") && Occupied(w, Tcp, "c");
    assert {"a", "b"} <= OccupiedOf(w, Udp, ["a", "b"]) && {"c"} <= OccupiedOf(w, Tcp, ["c", "d"]);
    SubsetSize({"a", "b"}, OccupiedOf(w, Udp, ["a", "b"]));
    SubsetSize({"c"}, OccupiedOf(w, Tcp, ["c", "d"]));
  }

  lemma FifthDials(dial: int)
    requires dial > DIAL_TIME
    ensures Reached(OneAccount(), dial, OneTooMany()) && !WithinLimit(OneAccount(), OneTooMany(), "acc")
  {
    OneTooManyExceeds();
    FourthDials(dial);
    FifthGets();
    assert Leased(Pruned(OnTcpToo().udp, 10001), "a", "k5", 10001) == OneTooMany().udp;
    Connects(OneAccount(), dial, OnTcpToo(), Udp, "acc", "a", "k5", OneTooMany());
  }

  // ---- the bound is exact ----------------------------------------------------------------------

  /** In every run in which no dial takes longer than `dial`, connected devices have addresses of
      their own, what would be reclaimed belongs to no connected device, and no account exceeds
      its limit: each of the three if and only if `dial <= RECLAIM_GRACE - STATUS_LAG`. */
  lemma DialBoundIsExact(dial: int)
    ensures AlwaysApart(dial) <==> dial <= RECLAIM_GRACE - STATUS_LAG
    ensures AlwaysSpared(dial) <==> dial <= RECLAIM_GRACE - STATUS_LAG
    ensures AlwaysWithin(dial) <==> dial <= RECLAIM_GRACE - STATUS_LAG
  {
    if dial <= RECLAIM_GRACE - STATUS_LAG {
      QuickDialsAreSafe(dial);
    } else {
      OneAccountOk();
      SharedIsReached(dial);
      GraceIsReached(dial);
      LiveGhost();
      assert Ghost(AtTheGrace().D(Udp), AtTheGrace().now, "b");
      FifthDials(dial);
    }
  }
}
