/** What a disconnect is for: the address is free at once, although the status file goes on
    reporting it, and the device can dial again. */
module OvpnRelease {
  import opened Options
  import opened OvpnHooks
  import opened OvpnWorld
  import opened OvpnSafety

  /** A device that dialled too long ago to be connected any more. */
  predicate TooLate(w: World, k: Key, tr: Transport, ip: Ip) {
    k in w.devices && w.devices[k].tr == tr && w.devices[k].ip == ip ==>
      w.devices[k].since.None? && w.now - w.devices[k].leased > DIAL_TIME
  }

  /** Nobody has the address or is about to, and where the status file reports it, a marker is
      newer than the file. */
  ghost predicate FreeAgain(w: World, tr: Transport, ip: Ip) {
    && ip !in w.D(tr).leases
    && (forall k {:trigger TooLate(w, k, tr, ip)} :: TooLate(w, k, tr, ip))
    && (ip in w.D(tr).status ==> ip in w.D(tr).released && w.Wrote(tr) <= w.D(tr).released[ip])
  }

  lemma FreeIsNotInUse(b: Blocks, w: World, tr: Transport, ip: Ip)
    requires Inv(b, w) && FreeAgain(w, tr, ip)
    ensures !InUse(w.D(tr), w.now, ip)
  {
  }

  /** Whose lease a disconnect removes. */
  lemma OwnLeaseGoes(b: Blocks, w: World, key: Key, d: Dir)
    requires Inv(b, w) && IsLive(w, key) && Disconnected(w.D(w.devices[key].tr), d, w.now, key)
    ensures var v := w.devices[key];
            if v.ip in w.D(v.tr).leases
            then d == w.D(v.tr).(leases := w.D(v.tr).leases - {v.ip}, released := w.D(v.tr).released[v.ip := w.now])
            else d == w.D(v.tr)
  {
    var v := w.devices[key];
    assert DeviceOk(w, key);
    forall ip | ip in w.D(v.tr).leases && w.D(v.tr).leases[ip].key == key ensures ip == v.ip {
      assert LeaseOk(w, v.tr, ip);
    }
  }

  /** After a disconnect the address is in use for the hook if and only if the device's lease
      had expired and been deleted, and the status file still reports it. */
  lemma FreedAtOnceIff(b: Blocks, w: World, key: Key, w': World)
    requires Inv(b, w) && Next(b, w, Disconnect(key), w')
    ensures var v := w.devices[key];
            InUse(w'.D(v.tr), w'.now, v.ip) <==> v.ip !in w.D(v.tr).leases && v.ip in w.D(v.tr).status
  {
    var v := w.devices[key];
    var d :| Disconnected(w.D(v.tr), d, w.now, key) && w' == w.WithDir(v.tr, d).(devices := w.devices - {key});
    OwnLeaseGoes(b, w, key, d);
    assert DeviceOk(w, key);
  }

  lemma DisconnectFrees(b: Blocks, w: World, key: Key, w': World)
    requires Inv(b, w) && Next(b, w, Disconnect(key), w') && w.devices[key].ip in w.D(w.devices[key].tr).leases
    ensures FreeAgain(w', w.devices[key].tr, w.devices[key].ip)
  {
    var v := w.devices[key];
    var d :| Disconnected(w.D(v.tr), d, w.now, key) && w' == w.WithDir(v.tr, d).(devices := w.devices - {key});
    OwnLeaseGoes(b, w, key, d);
    assert DeviceOk(w, key);
    forall k ensures TooLate(w', k, v.tr, v.ip) { assert DeviceOk(w, k) && Apart(w, k, key); }
  }

  /** The event leases the address again. */
  predicate LeasesIt(b: Blocks, w: World, ev: Event, tr: Transport, ip: Ip) {
    ev.Connect? && ev.tr == tr && Gets(b, w, tr, ev.a) == Some(ip)
  }

  lemma StaysFreeDevices(b: Blocks, w: World, ev: Event, w': World, tr: Transport, ip: Ip, k: Key)
    requires Inv(b, w) && Next(b, w, ev, w') && TooLate(w, k, tr, ip) && !LeasesIt(b, w, ev, tr, ip)
    ensures TooLate(w', k, tr, ip)
  {
  }

  lemma StaysFreeFiles(b: Blocks, w: World, ev: Event, w': World, tr: Transport, ip: Ip)
    requires Inv(b, w) && Next(b, w, ev, w') && FreeAgain(w, tr, ip) && !LeasesIt(b, w, ev, tr, ip)
    ensures ip !in w'.D(tr).leases
    ensures ip in w'.D(tr).status ==> ip in w'.D(tr).released && w'.Wrote(tr) <= w'.D(tr).released[ip]
  {
    match ev {
      case Rewrite(tr') =>
        if tr' == tr {
          forall k | k in w.devices && w.devices[k].since.Some? && w.devices[k].tr == tr ensures w.devices[k].ip != ip {
            assert TooLate(w, k, tr, ip);
          }
        }
      case Disconnect(key) =>
        var v := w.devices[key];
        var d :| Disconnected(w.D(v.tr), d, w.now, key) && w' == w.WithDir(v.tr, d).(devices := w.devices - {key});
      case _ =>
    }
  }

  lemma StaysFree(b: Blocks, w: World, ev: Event, w': World, tr: Transport, ip: Ip)
    requires Inv(b, w) && Next(b, w, ev, w') && FreeAgain(w, tr, ip) && !LeasesIt(b, w, ev, tr, ip)
    ensures FreeAgain(w', tr, ip)
  {
    StaysFreeFiles(b, w, ev, w', tr, ip);
    forall k ensures TooLate(w', k, tr, ip) {
      assert TooLate(w, k, tr, ip);
      StaysFreeDevices(b, w, ev, w', tr, ip, k);
    }
  }

  // ---- runs ------------------------------------------------------------------------------

  /** Event `i` is the disconnect of a device at `ip` whose lease is there, and until `j` nobody
      is given the address. */
  ghost predicate LeftAlone(b: Blocks, evs: seq<Event>, ws: seq<World>, i: nat, j: nat, tr: Transport, ip: Ip) {
    && i < j <= |evs| < |ws| && evs[i].Disconnect? && IsLive(ws[i], evs[i].key)
    && ws[i].devices[evs[i].key].tr == tr && ws[i].devices[evs[i].key].ip == ip && ip in ws[i].D(tr).leases
    && forall m :: i < m < j ==> !LeasesIt(b, ws[m], evs[m], tr, ip)
  }

  lemma {:induction false} LeftAloneIsFree(b: Blocks, evs: seq<Event>, ws: seq<World>, i: nat, j: nat, tr: Transport, ip: Ip)
    requires BlocksOk(b) && IsRun(b, evs, ws) && LeftAlone(b, evs, ws, i, j, tr, ip)
    ensures FreeAgain(ws[j], tr, ip)
    decreases j
  {
    var m := j - 1;
    RunKeeps(b, evs, ws, m);
    assert Next(b, ws[m], evs[m], ws[m + 1]);
    if m == i {
      DisconnectFrees(b, ws[i], evs[i].key, ws[i + 1]);
    } else {
      LeftAloneIsFree(b, evs, ws, i, m, tr, ip);
      StaysFree(b, ws[m], evs[m], ws[j], tr, ip);
    }
  }

  /** In every run: from the disconnect of a device whose lease is there until the address is
      given out again, the hook does not count it as in use, however the status file lags. */
  lemma ReleasedIsFree(b: Blocks, evs: seq<Event>, ws: seq<World>, i: nat, j: nat, tr: Transport, ip: Ip)
    requires BlocksOk(b) && IsRun(b, evs, ws) && LeftAlone(b, evs, ws, i, j, tr, ip)
    ensures !InUse(ws[j].D(tr), ws[j].now, ip)
  {
    RunKeeps(b, evs, ws, j);
    LeftAloneIsFree(b, evs, ws, i, j, tr, ip);
    FreeIsNotInUse(b, ws[j], tr, ip);
  }

  /** In every run: what the status file of a transport reports counts on the other transport
      until that file is rewritten, whatever is released meanwhile. */
  lemma {:induction false} ReportedCountsElsewhere(b: Blocks, evs: seq<Event>, ws: seq<World>, i: nat, j: nat, tr: Transport, ip: Ip)
    requires IsRun(b, evs, ws) && i <= j <= |evs| && ip in ws[i].D(tr).status
    requires forall m :: i <= m < j ==> evs[m] != Rewrite(tr)
    ensures ip in ws[j].D(tr).status && OtherUse(ws[j].D(tr), ws[j].now, ip)
    decreases j
  {
    if i < j {
      ReportedCountsElsewhere(b, evs, ws, i, j - 1, tr, ip);
      assert Next(b, ws[j - 1], evs[j - 1], ws[j - 1 + 1]) && evs[j - 1] != Rewrite(tr);
    }
  }

  // ---- and the next connect gets an address ------------------------------------------------

  ghost predicate NoRepeats(ips: seq<Ip>) {
    forall i, j :: 0 <= i < j < |ips| ==> ips[i] != ips[j]
  }

  /** Reported or freshly leased, other than `free`. */
  function Busy(w: World, tr: Transport, ips: seq<Ip>, free: set<Ip>): (s: set<Ip>) {
    set ip | ip in ips && ip !in free && OtherUse(w.D(tr), w.now, ip)
  }

  lemma {:induction false} CountWithin(d: Dir, now: int, ips: seq<Ip>, s: set<Ip>)
    requires NoRepeats(ips) && forall ip :: ip in ips && InUse(d, now, ip) ==> ip in s
    ensures CountInUse(d, now, ips) <= |s|
  {
    if ips != [] {
      var n := |ips| - 1;
      if InUse(d, now, ips[n]) { CountWithin(d, now, ips[..n], s - {ips[n]}); } else { CountWithin(d, now, ips[..n], s); }
    }
  }

  lemma {:induction false} OtherWithin(d: Dir, now: int, ips: seq<Ip>, s: set<Ip>)
    requires NoRepeats(ips) && forall ip :: ip in ips && OtherUse(d, now, ip) ==> ip in s
    ensures CountOther(d, now, ips) <= |s|
  {
    if ips != [] {
      var n := |ips| - 1;
      if OtherUse(d, now, ips[n]) { OtherWithin(d, now, ips[..n], s - {ips[n]}); } else { OtherWithin(d, now, ips[..n], s); }
    }
  }

  lemma {:induction false} AllInUse(d: Dir, now: int, ips: seq<Ip>)
    requires forall ip :: ip in ips ==> InUse(d, now, ip)
    ensures CountInUse(d, now, ips) == |ips|
  {
    if ips != [] { AllInUse(d, now, ips[..|ips| - 1]); }
  }

  /** A connect gets an address if fewer than K of its account's are reported or freshly leased
      on the two transports, not counting one that is free. */
  lemma RoomIsGiven(b: Blocks, w: World, tr: Transport, a: Account, free: Ip)
    requires NoRepeats(b.Ips(tr, a)) && NoRepeats(b.Ips(Other(tr), a)) && !InUse(w.D(tr), w.now, free)
    requires |Busy(w, tr, b.Ips(tr, a), {free})| + |Busy(w, Other(tr), b.Ips(Other(tr), a), {})| < |b.Ips(tr, a)|
    ensures HasFree(b, w, tr, a) && Gets(b, w, tr, a).Some?
  {
    CountWithin(w.D(tr), w.now, b.Ips(tr, a), Busy(w, tr, b.Ips(tr, a), {free}));
    OtherWithin(w.D(Other(tr)), w.now, b.Ips(Other(tr), a), Busy(w, Other(tr), b.Ips(Other(tr), a), {}));
    if FirstFree(w.D(tr), w.now, b.Ips(tr, a)).None? { AllInUse(w.D(tr), w.now, b.Ips(tr, a)); }
  }

  /** In every run: after such a disconnect, a connect of the account gets an address whenever
      fewer than K of its other addresses are reported or freshly leased. */
  lemma RedialGets(b: Blocks, evs: seq<Event>, ws: seq<World>, i: nat, j: nat, tr: Transport, ip: Ip, a: Account)
    requires BlocksOk(b) && IsRun(b, evs, ws) && LeftAlone(b, evs, ws, i, j, tr, ip)
    requires ip in b.Ips(tr, a) && NoRepeats(b.Ips(tr, a)) && NoRepeats(b.Ips(Other(tr), a))
    requires |Busy(ws[j], tr, b.Ips(tr, a), {ip})| + |Busy(ws[j], Other(tr), b.Ips(Other(tr), a), {})| < K(b, a)
    ensures Gets(b, ws[j], tr, a).Some?
  {
    ReleasedIsFree(b, evs, ws, i, j, tr, ip);
    RoomIsGiven(b, ws[j], tr, a, ip);
  }

  // ---- abandoned leases ---------------------------------------------------------------------

  /** What the status file says of a lease that is older than the file. */
  ghost predicate StatusOk(w: World, tr: Transport, ip: Ip) {
    ip in w.D(tr).status && ip in w.D(tr).leases && w.D(tr).leases[ip].mtime < w.Wrote(tr) ==>
      IsLive(w, w.D(tr).leases[ip].key)
  }

  lemma RewriteKeepsStatus(b: Blocks, w: World, tr: Transport, ip: Ip)
    requires Inv(b, w) && ip in LiveIps(w, tr) && ip in w.D(tr).leases
    ensures IsLive(w, w.D(tr).leases[ip].key)
  {
    var k :| k in w.devices && w.devices[k].since.Some? && w.devices[k].tr == tr && w.devices[k].ip == ip;
    assert DeviceOk(w, k);
  }

  lemma ConnectKeepsStatus(b: Blocks, w: World, ev: Event, w': World, tr: Transport, ip: Ip)
    requires Inv(b, w) && ev.Connect? && Next(b, w, ev, w') && StatusOk(w, tr, ip)
    ensures StatusOk(w', tr, ip)
  {
    assert DeviceOk(w, ev.key);
  }

  lemma DisconnectKeepsStatus(b: Blocks, w: World, key: Key, w': World, tr: Transport, ip: Ip)
    requires Inv(b, w) && Next(b, w, Disconnect(key), w') && StatusOk(w, tr, ip)
    ensures StatusOk(w', tr, ip)
  {
    var v := w.devices[key];
    var d :| Disconnected(w.D(v.tr), d, w.now, key) && w' == w.WithDir(v.tr, d).(devices := w.devices - {key});
    OwnLeaseGoes(b, w, key, d);
    assert LeaseOk(w, tr, ip);
  }

  lemma NextKeepsStatus(b: Blocks, w: World, ev: Event, w': World, tr: Transport, ip: Ip)
    requires Inv(b, w) && Next(b, w, ev, w') && StatusOk(w, tr, ip)
    ensures StatusOk(w', tr, ip)
  {
    match ev {
      case Rewrite(tr') =>
        if tr' == tr && ip in LiveIps(w, tr) && ip in w.D(tr).leases { RewriteKeepsStatus(b, w, tr, ip); }
      case Connect(_, _, _) => ConnectKeepsStatus(b, w, ev, w', tr, ip);
      case Disconnect(key) => DisconnectKeepsStatus(b, w, key, w', tr, ip);
      case _ =>
    }
  }

  lemma {:induction false} RunKeepsStatus(b: Blocks, evs: seq<Event>, ws: seq<World>, n: nat, tr: Transport, ip: Ip)
    requires BlocksOk(b) && IsRun(b, evs, ws) && n <= |evs|
    ensures StatusOk(ws[n], tr, ip)
  {
    if n > 0 {
      var m := n - 1;
      RunKeepsStatus(b, evs, ws, m, tr, ip);
      RunKeeps(b, evs, ws, m);
      assert Next(b, ws[m], evs[m], ws[m + 1]);
      NextKeepsStatus(b, ws[m], evs[m], ws[n], tr, ip);
    }
  }

  /** In every run, what passes for a ghost are exactly the leases past the grace whose session
      is not connected; and an account with such a lease is given an address. */
  lemma GhostIffAbandoned(b: Blocks, evs: seq<Event>, ws: seq<World>, n: nat, tr: Transport, ip: Ip)
    requires BlocksOk(b) && IsRun(b, evs, ws) && n <= |evs|
    ensures var w := ws[n];
            Ghost(w.D(tr), w.now, ip) <==>
            && FreshLease(w.D(tr), w.now, ip) && w.now - w.D(tr).leases[ip].mtime > RECLAIM_GRACE
            && !IsLive(w, w.D(tr).leases[ip].key)
    ensures forall a :: Ghost(ws[n].D(tr), ws[n].now, ip) && ip in b.Ips(tr, a) ==> Gets(b, ws[n], tr, a).Some?
  {
    var w := ws[n];
    RunKeeps(b, evs, ws, n);
    RunKeepsStatus(b, evs, ws, n, tr, ip);
    assert LeaseOk(w, tr, ip);
    if Ghost(w.D(tr), w.now, ip) { GhostIsNotLive(b, w, tr, ip); }
  }
}
