/** Two connects of one account that overlap. */
module OvpnExamples {
  import opened Options
  import opened OvpnHooks
  import opened OvpnWorld
  import opened OvpnSafety

  lemma TwoIps(x: Ip, y: Ip, d: Dir, now: int)
    ensures CountInUse(d, now, [x, y]) == (if InUse(d, now, x) then 1 else 0) + (if InUse(d, now, y) then 1 else 0)
    ensures CountOther(d, now, [x, y]) == (if OtherUse(d, now, x) then 1 else 0) + (if OtherUse(d, now, y) then 1 else 0)
    ensures FirstFree(d, now, [x, y]) == if !InUse(d, now, x) then Some(x) else if !InUse(d, now, y) then Some(y) else None
  {
    assert [x, y][..1] == [x] && [x][..0] == [];
    assert [x, y][1..] == [y] && [y][1..] == [];
    assert CountInUse(d, now, [x]) == (if InUse(d, now, x) then 1 else 0);
    assert CountOther(d, now, [x]) == (if OtherUse(d, now, x) then 1 else 0);
  }

  lemma OldestOfTwo(x: Ip, y: Ip, d: Dir, now: int)
    requires !Ghost(d, now, y)
    ensures OldestGhost(d, now, [x, y]) == if Ghost(d, now, x) then Some(x) else None
  {
    assert [x, y][..1] == [x] && [x][..0] == [];
    assert OldestGhost(d, now, [x]) == if Ghost(d, now, x) then Some(x) else None;
  }

  /** One account with K = 2 on both transports. */
  function OneAccount(): (b: Blocks) {
    Blocks(map["acc" := ["a", "b"]], map["acc" := ["c", "d"]])
  }

  lemma OneAccountOk()
    ensures BlocksOk(OneAccount()) && K(OneAccount(), "acc") == 2
  {
  }

  const EMPTY: Dir := Dir(map[], map[], {})

  function Fresh0(): (w: World) {
    World(0, EMPTY, EMPTY, 0, 0, map[], {})
  }

  /** One device has dialled on UDP. */
  function OneDialled(): (w: World) {
    World(0, Dir(map["a" := Lease(0, "k1")], map[], {}), EMPTY, 0, 0, map["k1" := Device(Udp, "a", 0, None)], {"k1"})
  }

  lemma FirstDial()
    ensures Next(OneAccount(), Fresh0(), Connect(Udp, "acc", "k1"), OneDialled())
  {
    TwoIps("a", "b", EMPTY, 0);
    TwoIps("c", "d", EMPTY, 0);
    assert Gets(OneAccount(), Fresh0(), Udp, "acc") == Some("a");
  }

  /** With K = 2 and one device dialling, a UDP and a TCP connect that overlap are both admitted
      and exceed the limit; one after the other, the second is refused. */
  lemma OverlapExceedsLimit()
    ensures BlocksOk(OneAccount()) && IsRun(OneAccount(), [Connect(Udp, "acc", "k1")], [Fresh0(), OneDialled()])
    ensures !WithinLimit(OneAccount(), Overlapped(OneAccount(), OneDialled(), "acc", "acc", "k2", "k3"), "acc")
    ensures Gets(OneAccount(), ConnectStep(OneAccount(), OneDialled(), Udp, "acc", "k2"), Tcp, "acc") == None
  {
    var b, w := OneAccount(), OneDialled();
    OneAccountOk();
    FirstDial();
    TwoIps("a", "b", w.udp, 0);
    TwoIps("c", "d", w.tcp, 0);
    assert Gets(b, w, Udp, "acc") == Some("b") && Gets(b, w, Tcp, "acc") == Some("c");
    OneOccupied();
    RunKeeps(b, [Connect(Udp, "acc", "k1")], [Fresh0(), w], 1);
    OverlapExceedsIff(b, w, "acc", "k2", "k3");
    SecondInLine();
  }

  lemma OneOccupied()
    ensures OccupiedOf(OneDialled(), Udp, ["a", "b"]) == {"a"} && OccupiedOf(OneDialled(), Tcp, ["c", "d"]) == {}
    ensures !Occupied(OneDialled(), Udp, "b") && !Occupied(OneDialled(), Tcp, "c")
  {
    var w := OneDialled();
    assert forall k :: !IsLive(w, k);
    assert Occupied(w, Udp, "a");
  }

  lemma SecondGets()
    ensures Gets(OneAccount(), OneDialled(), Udp, "acc") == Some("b")
  {
    TwoIps("a", "b", OneDialled().udp, 0);
    TwoIps("c", "d", EMPTY, 0);
  }

  lemma SecondInLine()
    ensures Gets(OneAccount(), ConnectStep(OneAccount(), OneDialled(), Udp, "acc", "k2"), Tcp, "acc") == None
  {
    var b, w := OneAccount(), OneDialled();
    SecondGets();
    var w' := ConnectStep(b, w, Udp, "acc", "k2");
    assert w'.udp == Leased(Pruned(w.udp, 0), "b", "k2", 0) && w'.tcp == EMPTY;
    TwoIps("a", "b", w'.udp, 0);
    TwoIps("c", "d", w'.tcp, 0);
    OldestOfTwo("c", "d", w'.tcp, 0);
  }
}
