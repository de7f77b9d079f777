/** Every run of the device-slot hooks keeps every account within its User Limit. */
module OvpnSafety {
  import opened Options
  import opened OvpnHooks
  import opened OvpnWorld

  lemma StartIsGood(b: Blocks, w: World)
    requires Initial(w)
    ensures Inv(b, w)
  {
    forall a ensures WithinLimit(b, w, a) {
      assert OccupiedOf(w, Udp, b.Ips(Udp, a)) == {};
      assert OccupiedOf(w, Tcp, b.Ips(Tcp, a)) == {};
    }
  }

  lemma TickKeeps(b: Blocks, w: World, dt: nat)
    requires Inv(b, w) && Possible(b, w, Tick(dt))
    ensures Inv(b, w.(now := w.now + dt))
  {
    var w' := w.(now := w.now + dt);
    forall k ensures DeviceOk(w', k) { assert DeviceOk(w, k); }
    forall tr, ip ensures LeaseOk(w', tr, ip) { assert LeaseOk(w, tr, ip); }
    forall k, k' ensures Apart(w', k, k') { assert Apart(w, k, k'); }
    HeldSame(w, w');
    forall a ensures WithinLimit(b, w', a) { assert WithinLimit(b, w, a); FewerIsWithin(b, w, w', a); }
  }

  /** Which addresses connected devices hold depends on the devices alone. */
  lemma HeldSame(w: World, w': World)
    requires forall k {:trigger IsLive(w', k)} :: IsLive(w', k) ==> IsLive(w, k) && w'.devices[k] == w.devices[k]
    ensures forall tr, ip {:trigger HeldLive(w', tr, ip)} :: HeldLive(w', tr, ip) ==> HeldLive(w, tr, ip)
  {
    forall tr, ip | HeldLive(w', tr, ip) ensures HeldLive(w, tr, ip) {
      var k :| IsLive(w', k) && w'.devices[k].tr == tr && w'.devices[k].ip == ip;
      assert IsLive(w, k);
    }
  }

  lemma RewriteKeeps(b: Blocks, w: World, tr: Transport, w': World)
    requires Inv(b, w) && Next(b, w, Rewrite(tr), w')
    ensures Inv(b, w')
  {
    forall k ensures DeviceOk(w', k) {
      assert DeviceOk(w, k);
      if IsLive(w, k) { assert w.devices[k].ip in LiveIps(w, w.devices[k].tr); }
    }
    forall tr, ip ensures LeaseOk(w', tr, ip) { assert LeaseOk(w, tr, ip); }
    forall k, k' ensures Apart(w', k, k') { assert Apart(w, k, k'); }
    HeldSame(w, w');
    forall a ensures WithinLimit(b, w', a) { assert WithinLimit(b, w, a); FewerIsWithin(b, w, w', a); }
  }

  lemma EstablishKeeps(b: Blocks, w: World, key: Key)
    requires Inv(b, w) && Possible(b, w, Establish(key))
    ensures Inv(b, w.(devices := w.devices[key := w.devices[key].(since := Some(w.now))]))
  {
    var v := w.devices[key];
    var w' := w.(devices := w.devices[key := v.(since := Some(w.now))]);
    assert DeviceOk(w, key);
    forall k ensures DeviceOk(w', k) { assert DeviceOk(w, k); }
    forall tr, ip ensures LeaseOk(w', tr, ip) { assert LeaseOk(w, tr, ip); }
    forall k, k' ensures Apart(w', k, k') {
      assert Apart(w, k, k') && DeviceOk(w, k) && DeviceOk(w, k');
    }
    forall tr, ip | Occupied(w', tr, ip) ensures Occupied(w, tr, ip) {
      if HeldLive(w', tr, ip) {
        var k :| IsLive(w', k) && w'.devices[k].tr == tr && w'.devices[k].ip == ip;
        assert k != key ==> IsLive(w, k);
      }
    }
    forall a ensures WithinLimit(b, w', a) { assert WithinLimit(b, w, a); FewerIsWithin(b, w, w', a); }
  }

  lemma FailDialKeeps(b: Blocks, w: World, key: Key)
    requires Inv(b, w) && Possible(b, w, FailDial(key))
    ensures Inv(b, w.(devices := w.devices - {key}))
  {
    var w' := w.(devices := w.devices - {key});
    forall k ensures DeviceOk(w', k) { assert DeviceOk(w, k); }
    forall tr, ip ensures LeaseOk(w', tr, ip) { assert LeaseOk(w, tr, ip); }
    forall k, k' ensures Apart(w', k, k') { assert Apart(w, k, k'); }
    HeldSame(w, w');
    forall a ensures WithinLimit(b, w', a) { assert WithinLimit(b, w, a); FewerIsWithin(b, w, w', a); }
  }

  /** The world after a disconnect that left the files `d`. */
  function AfterDisconnect(w: World, key: Key, d: Dir): (w': World)
    requires key in w.devices
  {
    w.WithDir(w.devices[key].tr, d).(devices := w.devices - {key})
  }

  /** A disconnect marks its own address released and no other. */
  lemma DisconnectFrees(b: Blocks, w: World, key: Key, d: Dir)
    requires Inv(b, w) && IsLive(w, key) && Disconnected(w.D(w.devices[key].tr), d, w.now, key)
    ensures var v := w.devices[key];
            var was := w.D(v.tr);
            d == was || d == was.(leases := was.leases - {v.ip}, released := was.released[v.ip := w.now])
  {
    var v := w.devices[key];
    if d != w.D(v.tr) {
      var ip :| ip in w.D(v.tr).leases && w.D(v.tr).leases[ip].key == key
                && d == w.D(v.tr).(leases := w.D(v.tr).leases - {ip}, released := w.D(v.tr).released[ip := w.now]);
      assert LeaseOk(w, v.tr, ip);
    }
  }

  lemma DisconnectKeepsDevice(b: Blocks, w: World, key: Key, d: Dir, k: Key)
    requires Inv(b, w) && IsLive(w, key) && Disconnected(w.D(w.devices[key].tr), d, w.now, key)
    ensures DeviceOk(AfterDisconnect(w, key, d), k)
  {
    DisconnectFrees(b, w, key, d);
    assert DeviceOk(w, key) && DeviceOk(w, k) && Apart(w, k, key);
  }

  lemma DisconnectKeeps(b: Blocks, w: World, key: Key, d: Dir)
    requires Inv(b, w) && IsLive(w, key) && Disconnected(w.D(w.devices[key].tr), d, w.now, key)
    ensures Inv(b, AfterDisconnect(w, key, d))
  {
    var w' := AfterDisconnect(w, key, d);
    DisconnectFrees(b, w, key, d);
    forall k ensures DeviceOk(w', k) { DisconnectKeepsDevice(b, w, key, d, k); }
    forall tr, ip ensures LeaseOk(w', tr, ip) { assert LeaseOk(w, tr, ip); }
    forall k, k' ensures Apart(w', k, k') { assert Apart(w, k, k'); }
    HeldSame(w, w');
    forall a ensures WithinLimit(b, w', a) { assert WithinLimit(b, w, a); FewerIsWithin(b, w, w', a); }
  }

  // ---- connect -------------------------------------------------------------------------

  /** The address a connect hands out: one nobody occupies, while the count allows another,
      or one already counted whose device is gone. */
  lemma AdmittedIsSafe(b: Blocks, w: World, tr: Transport, a: Account)
    requires Inv(b, w)
    ensures var r := Admitted(w.D(tr), w.D(Other(tr)), w.now, b.Ips(tr, a), b.Ips(Other(tr), a));
            r.Some? ==>
              && r.value in b.Ips(tr, a) && !HeldLive(w, tr, r.value)
              && (FreshLease(w.D(tr), w.now, r.value) ==> w.now - w.D(tr).leases[r.value].mtime > RECLAIM_GRACE)
  {
    var r := Admitted(w.D(tr), w.D(Other(tr)), w.now, b.Ips(tr, a), b.Ips(Other(tr), a));
    if r.Some? {
      if Ghost(w.D(tr), w.now, r.value) {
        GhostIsNotLive(b, w, tr, r.value);
      } else if Occupied(w, tr, r.value) {
        OccupiedIsSeen(b, w, tr, r.value);
      }
    }
  }

  lemma ConnectKeepsDevice(b: Blocks, w: World, tr: Transport, a: Account, key: Key, k: Key)
    requires Inv(b, w) && Possible(b, w, Connect(tr, a, key))
    ensures DeviceOk(ConnectStep(b, w, tr, a, key), k)
  {
    AdmittedIsSafe(b, w, tr, a);
    assert DeviceOk(w, k);
    if IsLive(w, k) { assert HeldLive(w, w.devices[k].tr, w.devices[k].ip); }
  }

  lemma ConnectKeepsLease(b: Blocks, w: World, tr: Transport, a: Account, key: Key, tr': Transport, ip: Ip)
    requires Inv(b, w) && Possible(b, w, Connect(tr, a, key))
    ensures LeaseOk(ConnectStep(b, w, tr, a, key), tr', ip)
  {
    assert LeaseOk(w, tr', ip);
  }

  /** Only the admitted address is newly occupied. */
  lemma ConnectOccupies(b: Blocks, w: World, tr: Transport, a: Account, key: Key, tr': Transport, ip: Ip)
    requires Inv(b, w) && Possible(b, w, Connect(tr, a, key))
    requires Occupied(ConnectStep(b, w, tr, a, key), tr', ip)
    ensures Occupied(w, tr', ip)
            || (tr' == tr && Admitted(w.D(tr), w.D(Other(tr)), w.now, b.Ips(tr, a), b.Ips(Other(tr), a)) == Some(ip))
  {
    var w' := ConnectStep(b, w, tr, a, key);
    if HeldLive(w', tr', ip) {
      var k :| IsLive(w', k) && w'.devices[k].tr == tr' && w'.devices[k].ip == ip;
      assert IsLive(w, k);
    }
  }

  lemma ConnectKeepsLimit(b: Blocks, w: World, tr: Transport, a: Account, key: Key, a': Account)
    requires BlocksOk(b) && Inv(b, w) && Possible(b, w, Connect(tr, a, key))
    ensures WithinLimit(b, ConnectStep(b, w, tr, a, key), a')
  {
    var w' := ConnectStep(b, w, tr, a, key);
    var r := Admitted(w.D(tr), w.D(Other(tr)), w.now, b.Ips(tr, a), b.Ips(Other(tr), a));
    assert WithinLimit(b, w, a');
    forall tr', ip | Occupied(w', tr', ip) ensures Occupied(w, tr', ip) || (tr' == tr && r == Some(ip)) {
      ConnectOccupies(b, w, tr, a, key, tr', ip);
    }
    if a' != a || r.None? || Occupied(w, tr, r.value) {
      FewerIsWithin(b, w, w', a');
    } else {
      NewSlotFits(b, w, tr, a, w', r.value);
    }
  }

  /** A free slot is handed out only while the account is under its limit on both transports
      together. */
  lemma FreeSlotMeansRoom(b: Blocks, w: World, tr: Transport, a: Account, ip: Ip)
    requires BlocksOk(b) && Inv(b, w) && b.Ips(tr, a) != [] && !Occupied(w, tr, ip)
    requires Admitted(w.D(tr), w.D(Other(tr)), w.now, b.Ips(tr, a), b.Ips(Other(tr), a)) == Some(ip)
    ensures |OccupiedOf(w, tr, b.Ips(tr, a))| + |OccupiedOf(w, Other(tr), b.Ips(Other(tr), a))| < K(b, a)
  {
    var own, other := OccupiedOf(w, tr, b.Ips(tr, a)), OccupiedOf(w, Other(tr), b.Ips(Other(tr), a));
    forall x | x in own ensures InUse(w.D(tr), w.now, x) { OccupiedIsSeen(b, w, tr, x); }
    forall x | x in other ensures OtherUse(w.D(Other(tr)), w.now, x) { OccupiedIsSeen(b, w, Other(tr), x); }
    CountCoversOwn(w.D(tr), w.now, b.Ips(tr, a), own);
    CountCoversOther(w.D(Other(tr)), w.now, b.Ips(Other(tr), a), other);
    assert !Ghost(w.D(tr), w.now, ip);
  }

  lemma NewSlotFits(b: Blocks, w: World, tr: Transport, a: Account, w': World, ip: Ip)
    requires BlocksOk(b) && Inv(b, w) && b.Ips(tr, a) != [] && !Occupied(w, tr, ip)
    requires Admitted(w.D(tr), w.D(Other(tr)), w.now, b.Ips(tr, a), b.Ips(Other(tr), a)) == Some(ip)
    requires forall tr', x {:trigger Occupied(w', tr', x)} ::
               Occupied(w', tr', x) ==> Occupied(w, tr', x) || (tr' == tr && x == ip)
    ensures WithinLimit(b, w', a)
  {
    var own, other := OccupiedOf(w, tr, b.Ips(tr, a)), OccupiedOf(w, Other(tr), b.Ips(Other(tr), a));
    FreeSlotMeansRoom(b, w, tr, a, ip);
    SubsetSize(OccupiedOf(w', tr, b.Ips(tr, a)), own + {ip});
    SubsetSize(OccupiedOf(w', Other(tr), b.Ips(Other(tr), a)), other);
  }

  lemma ConnectKeeps(b: Blocks, w: World, tr: Transport, a: Account, key: Key)
    requires BlocksOk(b) && Inv(b, w) && Possible(b, w, Connect(tr, a, key))
    ensures Inv(b, ConnectStep(b, w, tr, a, key))
  {
    var w' := ConnectStep(b, w, tr, a, key);
    forall k ensures DeviceOk(w', k) { ConnectKeepsDevice(b, w, tr, a, key, k); }
    forall tr', ip ensures LeaseOk(w', tr', ip) { ConnectKeepsLease(b, w, tr, a, key, tr', ip); }
    forall k, k' ensures Apart(w', k, k') {
      assert Apart(w, k, k') && DeviceOk(w, k) && DeviceOk(w, k');
    }
    forall a' ensures WithinLimit(b, w', a') { ConnectKeepsLimit(b, w, tr, a, key, a'); }
  }

  // ---- runs ------------------------------------------------------------------------------

  lemma NextKeeps(b: Blocks, w: World, ev: Event, w': World)
    requires BlocksOk(b) && Inv(b, w) && Next(b, w, ev, w')
    ensures Inv(b, w')
  {
    match ev
    case Tick(dt) => TickKeeps(b, w, dt);
    case Rewrite(tr) => RewriteKeeps(b, w, tr, w');
    case Connect(tr, a, key) => ConnectKeeps(b, w, tr, a, key);
    case Establish(key) => EstablishKeeps(b, w, key);
    case FailDial(key) => FailDialKeeps(b, w, key);
    case Disconnect(key) =>
      var d :| Disconnected(w.D(w.devices[key].tr), d, w.now, key)
               && w' == w.WithDir(w.devices[key].tr, d).(devices := w.devices - {key});
      DisconnectKeeps(b, w, key, d);
  }

  ghost predicate IsRun(b: Blocks, evs: seq<Event>, ws: seq<World>) {
    && |ws| == |evs| + 1 && Initial(ws[0])
    && forall i :: 0 <= i < |evs| ==> Next(b, ws[i], evs[i], ws[i + 1])
  }

  lemma {:induction false} RunKeeps(b: Blocks, evs: seq<Event>, ws: seq<World>, n: nat)
    requires BlocksOk(b) && IsRun(b, evs, ws) && n <= |evs|
    ensures Inv(b, ws[n])
  {
    if n == 0 {
      StartIsGood(b, ws[0]);
    } else {
      RunKeeps(b, evs, ws, n - 1);
      NextKeeps(b, ws[n - 1], evs[n - 1], ws[n]);
    }
  }

  /** In every run, at every moment: each account's freshly leased or connected addresses
      number at most K over both transports, connected devices of a transport have distinct
      addresses, and what a connect would reclaim as a ghost belongs to no connected device. */
  lemma UserLimitHolds(b: Blocks, evs: seq<Event>, ws: seq<World>, n: nat)
    requires BlocksOk(b) && IsRun(b, evs, ws) && n <= |evs|
    ensures forall a :: WithinLimit(b, ws[n], a)
    ensures forall k, k' :: Apart(ws[n], k, k')
    ensures forall tr, ip :: Ghost(ws[n].D(tr), ws[n].now, ip) ==> !HeldLive(ws[n], tr, ip)
  {
    RunKeeps(b, evs, ws, n);
    forall a ensures WithinLimit(b, ws[n], a) { }
    forall tr, ip | Ghost(ws[n].D(tr), ws[n].now, ip) ensures !HeldLive(ws[n], tr, ip) {
      GhostIsNotLive(b, ws[n], tr, ip);
    }
  }

  // ---- connects on the two transports that overlap -----------------------------------------

  /** The address a connect of account `a` on `tr` gets when it reads the files of `w`. */
  function Gets(b: Blocks, w: World, tr: Transport, a: Account): (r: Option<Ip>) {
    Admitted(w.D(tr), w.D(Other(tr)), w.now, b.Ips(tr, a), b.Ips(Other(tr), a))
  }

  /** Both hooks read before either writes. Any other overlap is one after the other: a hook
      writes its own transport's files only, so what counts is whether the other has read
      them. */
  function Overlapped(b: Blocks, w: World, a: Account, a': Account, udpKey: Key, tcpKey: Key): (w': World) {
    var u, t := ConnectStep(b, w, Udp, a, udpKey), ConnectStep(b, w, Tcp, a', tcpKey);
    w.(udp := u.udp, tcp := t.tcp, devices := u.devices + t.devices, used := u.used + t.used)
  }

  /** A connect occupies what was occupied and the address it gets, no more. */
  lemma OverlapOccupies(b: Blocks, w: World, a: Account, a': Account, udpKey: Key, tcpKey: Key, tr: Transport, ip: Ip)
    requires Inv(b, w) && Possible(b, w, Connect(Udp, a, udpKey)) && Possible(b, w, Connect(Tcp, a', tcpKey))
    requires udpKey != tcpKey
    ensures var got := Gets(b, w, tr, if tr == Udp then a else a');
            Occupied(Overlapped(b, w, a, a', udpKey, tcpKey), tr, ip) <==> Occupied(w, tr, ip) || got == Some(ip)
  {
    var w' := Overlapped(b, w, a, a', udpKey, tcpKey);
    OverlapHeld(b, w, a, a', udpKey, tcpKey, tr, ip);
    var got := Gets(b, w, tr, if tr == Udp then a else a');
    assert FreshLease(w'.D(tr), w.now, ip) <==> FreshLease(w.D(tr), w.now, ip) || got == Some(ip);
  }

  lemma OverlapHeld(b: Blocks, w: World, a: Account, a': Account, udpKey: Key, tcpKey: Key, tr: Transport, ip: Ip)
    requires Inv(b, w) && Possible(b, w, Connect(Udp, a, udpKey)) && Possible(b, w, Connect(Tcp, a', tcpKey))
    requires udpKey != tcpKey
    ensures HeldLive(Overlapped(b, w, a, a', udpKey, tcpKey), tr, ip) <==> HeldLive(w, tr, ip)
  {
    var w' := Overlapped(b, w, a, a', udpKey, tcpKey);
    assert DeviceOk(w, udpKey) && DeviceOk(w, tcpKey);
    assert forall k :: IsLive(w', k) <==> IsLive(w, k);
    assert forall k :: IsLive(w, k) ==> w'.devices[k] == w.devices[k];
  }

  /** The addresses of `ips` occupied after an overlap, counted. */
  lemma OverlapCount(b: Blocks, w: World, w': World, tr: Transport, ips: seq<Ip>, got: Option<Ip>)
    requires forall ip {:trigger Occupied(w', tr, ip)} :: Occupied(w', tr, ip) <==> Occupied(w, tr, ip) || got == Some(ip)
    ensures |OccupiedOf(w', tr, ips)| ==
            |OccupiedOf(w, tr, ips)| + if got.Some? && got.value in ips && !Occupied(w, tr, got.value) then 1 else 0
  {
    var before, after := OccupiedOf(w, tr, ips), OccupiedOf(w', tr, ips);
    if got.Some? && got.value in ips && !Occupied(w, tr, got.value) {
      assert Occupied(w', tr, got.value);
      assert after == before + {got.value};
    } else {
      assert after == before;
    }
  }

  /** The hook's own test for a free slot, before it looks for a ghost. */
  predicate HasFree(b: Blocks, w: World, tr: Transport, a: Account) {
    var ips := b.Ips(tr, a);
    && CountInUse(w.D(tr), w.now, ips) + CountOther(w.D(Other(tr)), w.now, b.Ips(Other(tr), a)) < |ips|
    && FirstFree(w.D(tr), w.now, ips).Some?
  }

  /** A connect gets an address nobody occupies if and only if it finds a free slot. */
  lemma FreeIsNew(b: Blocks, w: World, tr: Transport, a: Account)
    requires Inv(b, w)
    ensures HasFree(b, w, tr, a) <==> Gets(b, w, tr, a).Some? && !Occupied(w, tr, Gets(b, w, tr, a).value)
  {
    var got := Gets(b, w, tr, a);
    if HasFree(b, w, tr, a) && HeldLive(w, tr, got.value) {
      var k :| IsLive(w, k) && w.devices[k].tr == tr && w.devices[k].ip == got.value;
      LiveIsSeen(b, w, k);
    }
  }

  /** Two overlapping connects of one account exceed its limit if and only if each finds a
      free slot and there was room for one of them only. */
  lemma OverlapExceedsIff(b: Blocks, w: World, a: Account, udpKey: Key, tcpKey: Key)
    requires BlocksOk(b) && Inv(b, w) && udpKey != tcpKey
    requires Possible(b, w, Connect(Udp, a, udpKey)) && Possible(b, w, Connect(Tcp, a, tcpKey))
    ensures !WithinLimit(b, Overlapped(b, w, a, a, udpKey, tcpKey), a) <==>
            && HasFree(b, w, Udp, a) && HasFree(b, w, Tcp, a)
            && |OccupiedOf(w, Udp, b.Ips(Udp, a))| + |OccupiedOf(w, Tcp, b.Ips(Tcp, a))| + 1 == K(b, a)
  {
    var w' := Overlapped(b, w, a, a, udpKey, tcpKey);
    forall tr, ip ensures Occupied(w', tr, ip) <==> Occupied(w, tr, ip) || Gets(b, w, tr, a) == Some(ip) {
      OverlapOccupies(b, w, a, a, udpKey, tcpKey, tr, ip);
    }
    AdmittedIsSafe(b, w, Udp, a);
    AdmittedIsSafe(b, w, Tcp, a);
    OverlapCount(b, w, w', Udp, b.Ips(Udp, a), Gets(b, w, Udp, a));
    OverlapCount(b, w, w', Tcp, b.Ips(Tcp, a), Gets(b, w, Tcp, a));
    assert WithinLimit(b, w, a);
    FreeIsNew(b, w, Udp, a);
    FreeIsNew(b, w, Tcp, a);
    if HasFree(b, w, Udp, a) { FreeSlotMeansRoom(b, w, Udp, a, Gets(b, w, Udp, a).value); }
    if HasFree(b, w, Tcp, a) { FreeSlotMeansRoom(b, w, Tcp, a, Gets(b, w, Tcp, a).value); }
  }

  lemma {:induction false} CountOtherSame(d: Dir, d': Dir, now: int, ips: seq<Ip>)
    requires forall ip :: ip in ips ==> (OtherUse(d, now, ip) <==> OtherUse(d', now, ip))
    ensures CountOther(d, now, ips) == CountOther(d', now, ips)
  {
    if ips != [] { CountOtherSame(d, d', now, ips[..|ips| - 1]); }
  }

  /** What a connect of another account gets on the other transport does not change. */
  lemma OtherAccountGetsSame(b: Blocks, w: World, tr: Transport, a: Account, a': Account, key: Key)
    requires BlocksOk(b) && a != a'
    ensures Gets(b, ConnectStep(b, w, tr, a, key), Other(tr), a') == Gets(b, w, Other(tr), a')
  {
    var w' := ConnectStep(b, w, tr, a, key);
    forall ip | ip in b.Ips(tr, a') ensures OtherUse(w.D(tr), w.now, ip) <==> OtherUse(w'.D(tr), w.now, ip) {
      assert Gets(b, w, tr, a) != Some(ip);
    }
    CountOtherSame(w.D(tr), w'.D(tr), w.now, b.Ips(tr, a'));
  }

  /** A connect that writes `d` and gets `r`. */
  function Put(w: World, tr: Transport, d: Dir, r: Option<Ip>, key: Key): (w': World) {
    w.WithDir(tr, d).(used := w.used + {key},
                      devices := if r.Some? then w.devices[key := Device(tr, r.value, w.now, None)] else w.devices)
  }

  lemma PutInTurn(w: World, d: Dir, d': Dir, r: Option<Ip>, r': Option<Ip>, udpKey: Key, tcpKey: Key)
    requires udpKey !in w.devices && tcpKey !in w.devices && udpKey != tcpKey
    ensures var u, t := Put(w, Udp, d, r, udpKey), Put(w, Tcp, d', r', tcpKey);
            Put(u, Tcp, d', r', tcpKey)
            == w.(udp := u.udp, tcp := t.tcp, devices := u.devices + t.devices, used := u.used + t.used)
  {
    var u, t := Put(w, Udp, d, r, udpKey), Put(w, Tcp, d', r', tcpKey);
    assert Put(u, Tcp, d', r', tcpKey).devices == u.devices + t.devices;
    assert Put(u, Tcp, d', r', tcpKey).used == u.used + t.used;
  }

  /** Overlapping connects of two accounts do what they do one after the other. */
  lemma OverlapInTurn(b: Blocks, w: World, a: Account, a': Account, udpKey: Key, tcpKey: Key)
    requires BlocksOk(b) && a != a' && udpKey !in w.devices && tcpKey !in w.devices && udpKey != tcpKey
    ensures Overlapped(b, w, a, a', udpKey, tcpKey) == ConnectStep(b, ConnectStep(b, w, Udp, a, udpKey), Tcp, a', tcpKey)
  {
    var u, t := ConnectStep(b, w, Udp, a, udpKey), ConnectStep(b, w, Tcp, a', tcpKey);
    OtherAccountGetsSame(b, w, Udp, a, a', udpKey);
    PutInTurn(w, u.udp, t.tcp, Gets(b, w, Udp, a), Gets(b, w, Tcp, a'), udpKey, tcpKey);
    assert ConnectStep(b, u, Tcp, a', tcpKey) == Put(u, Tcp, t.tcp, Gets(b, w, Tcp, a'), tcpKey);
  }

  /** So every run in which connects overlap across accounts is a run in which none do. */
  lemma OverlapOfTwoAccounts(b: Blocks, w: World, a: Account, a': Account, udpKey: Key, tcpKey: Key)
    requires BlocksOk(b) && Inv(b, w) && a != a' && udpKey != tcpKey
    requires Possible(b, w, Connect(Udp, a, udpKey)) && Possible(b, w, Connect(Tcp, a', tcpKey))
    ensures Overlapped(b, w, a, a', udpKey, tcpKey) == ConnectStep(b, ConnectStep(b, w, Udp, a, udpKey), Tcp, a', tcpKey)
    ensures Inv(b, Overlapped(b, w, a, a', udpKey, tcpKey))
  {
    assert DeviceOk(w, udpKey) && DeviceOk(w, tcpKey);
    OverlapInTurn(b, w, a, a', udpKey, tcpKey);
    NextKeeps(b, w, Connect(Udp, a, udpKey), ConnectStep(b, w, Udp, a, udpKey));
    ConnectKeeps(b, ConnectStep(b, w, Udp, a, udpKey), Tcp, a', tcpKey);
  }
}
