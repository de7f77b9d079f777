/** Timed runs of the device-slot hooks: connects, dials that complete or fail, disconnects,
    status rewrites and the passage of time, with the sessions OpenVPN really holds. */
module OvpnWorld {
  import opened Options
  import opened OvpnHooks

  type Account = string

  /** The status file is rewritten at least this often, and a dial that completes does so
      early enough after its client-connect hook to be in that file within the grace. */
  const STATUS_LAG: int := 5000
  const DIAL_TIME: int := RECLAIM_GRACE - STATUS_LAG

  datatype Transport = Udp | Tcp

  function Other(tr: Transport): (o: Transport) {
    if tr == Udp then Tcp else Udp
  }

  /** A device: its transport, its address, when it got its lease, and since when it is
      connected (None while still dialling). */
  datatype Device = Device(tr: Transport, ip: Ip, leased: int, since: Option<int>)

  datatype World = World(
    now: int, udp: Dir, tcp: Dir, udpWrote: int, tcpWrote: int,
    devices: map<Key, Device>, used: set<Key>)
  {
    function D(tr: Transport): (d: Dir) {
      if tr == Udp then udp else tcp
    }

    function Wrote(tr: Transport): (t: int) {
      if tr == Udp then udpWrote else tcpWrote
    }

    function WithDir(tr: Transport, d: Dir): (w: World) {
      if tr == Udp then this.(udp := d) else this.(tcp := d)
    }
  }

  /** The published blocks: an account's addresses on each transport. */
  datatype Blocks = Blocks(udp: map<Account, seq<Ip>>, tcp: map<Account, seq<Ip>>) {
    function Ips(tr: Transport, a: Account): (ips: seq<Ip>) {
      var m := if tr == Udp then udp else tcp;
      if a in m then m[a] else []
    }
  }

  /** The User Limit of an account. */
  function K(b: Blocks, a: Account): (k: nat) {
    if b.Ips(Udp, a) != [] then |b.Ips(Udp, a)| else |b.Ips(Tcp, a)|
  }

  /** Blocks as the panel publishes them: K addresses per account on each transport it
      serves, and no address in two accounts' blocks. */
  ghost predicate BlocksOk(b: Blocks) {
    && (forall tr, a {:trigger b.Ips(tr, a)} :: b.Ips(tr, a) != [] ==> |b.Ips(tr, a)| == K(b, a))
    && (forall tr, a, a', ip {:trigger ip in b.Ips(tr, a), ip in b.Ips(tr, a')} ::
          ip in b.Ips(tr, a) && ip in b.Ips(tr, a') ==> a == a')
  }

  // ---- steps -----------------------------------------------------------------------

  datatype Event =
    | Tick(dt: nat)
    | Rewrite(tr: Transport)
    | Connect(tr: Transport, a: Account, key: Key)
    | Establish(key: Key)
    | FailDial(key: Key)
    | Disconnect(key: Key)

  predicate IsLive(w: World, key: Key) {
    key in w.devices && w.devices[key].since.Some?
  }

  ghost predicate Possible(b: Blocks, w: World, ev: Event) {
    match ev
    case Tick(dt) => w.now + dt - w.udpWrote <= STATUS_LAG && w.now + dt - w.tcpWrote <= STATUS_LAG
    case Rewrite(_) => true
    case Connect(tr, a, key) => b.Ips(tr, a) != [] && key != "" && key !in w.used
    case Establish(key) => key in w.devices && w.devices[key].since.None? && w.now - w.devices[key].leased <= DIAL_TIME
    case FailDial(key) => key in w.devices && w.devices[key].since.None?
    case Disconnect(key) => IsLive(w, key)
  }

  function LiveIps(w: World, tr: Transport): (s: set<Ip>) {
    set k | k in w.devices && w.devices[k].since.Some? && w.devices[k].tr == tr :: w.devices[k].ip
  }

  function ConnectStep(b: Blocks, w: World, tr: Transport, a: Account, key: Key): (w': World) {
    var r := Admitted(w.D(tr), w.D(Other(tr)), w.now, b.Ips(tr, a), b.Ips(Other(tr), a));
    var d := Connected(w.D(tr), w.D(Other(tr)), w.now, b.Ips(tr, a), b.Ips(Other(tr), a), key);
    var w1 := w.WithDir(tr, d).(used := w.used + {key});
    if r.Some? then w1.(devices := w.devices[key := Device(tr, r.value, w.now, None)]) else w1
  }

  /** `w'` follows `w` by `ev`. */
  ghost predicate Next(b: Blocks, w: World, ev: Event, w': World) {
    Possible(b, w, ev) &&
    match ev
    case Tick(dt) => w' == w.(now := w.now + dt)
    case Rewrite(Udp) => w' == w.(udp := w.udp.(status := LiveIps(w, Udp)), udpWrote := w.now)
    case Rewrite(Tcp) => w' == w.(tcp := w.tcp.(status := LiveIps(w, Tcp)), tcpWrote := w.now)
    case Connect(tr, a, key) => w' == ConnectStep(b, w, tr, a, key)
    case Establish(key) => w' == w.(devices := w.devices[key := w.devices[key].(since := Some(w.now))])
    case FailDial(key) => w' == w.(devices := w.devices - {key})
    case Disconnect(key) =>
      exists d :: Disconnected(w.D(w.devices[key].tr), d, w.now, key)
                  && w' == w.WithDir(w.devices[key].tr, d).(devices := w.devices - {key})
  }

  ghost predicate Initial(w: World) {
    w == World(w.now, Dir(map[], map[], {}), Dir(map[], map[], {}), w.now, w.now, map[], {})
  }

  // ---- what is bounded --------------------------------------------------------------

  /** An address an account occupies: freshly leased, or held by a connected device. */
  ghost predicate Occupied(w: World, tr: Transport, ip: Ip) {
    FreshLease(w.D(tr), w.now, ip) || HeldLive(w, tr, ip)
  }

  ghost predicate HeldLive(w: World, tr: Transport, ip: Ip) {
    exists k :: IsLive(w, k) && w.devices[k].tr == tr && w.devices[k].ip == ip
  }

  ghost function OccupiedOf(w: World, tr: Transport, ips: seq<Ip>): (s: set<Ip>) {
    set ip | ip in ips && Occupied(w, tr, ip)
  }

  ghost predicate WithinLimit(b: Blocks, w: World, a: Account) {
    |OccupiedOf(w, Udp, b.Ips(Udp, a))| + |OccupiedOf(w, Tcp, b.Ips(Tcp, a))| <= K(b, a)
  }

  // ---- invariant --------------------------------------------------------------------

  /** What the files say about one device. While its lease can still be trusted the lease is
      its own; a connected device is in the status file once that is newer than it. */
  ghost predicate DeviceOk(w: World, k: Key) {
    k in w.devices ==>
      var v := w.devices[k];
      var d := w.D(v.tr);
      && k in w.used && k != "" && v.leased <= w.now
      && (v.since.Some? ==>
            && v.leased <= v.since.value <= w.now && v.since.value <= v.leased + DIAL_TIME
            && v.ip !in d.released
            && (v.ip in d.leases ==> d.leases[v.ip] == Lease(v.leased, k))
            && (v.ip !in d.leases ==> w.now - v.leased > LEASE_TTL)
            && (v.since.value < w.Wrote(v.tr) ==> v.ip in d.status))
      && (v.since.None? && w.now - v.leased <= DIAL_TIME ==>
            && v.ip in d.leases && d.leases[v.ip] == Lease(v.leased, k) && v.ip !in d.released)
  }

  ghost predicate LeaseOk(w: World, tr: Transport, ip: Ip) {
    ip in w.D(tr).leases ==>
      var l := w.D(tr).leases[ip];
      && l.mtime <= w.now && l.key in w.used
      && (l.key in w.devices ==> w.devices[l.key].tr == tr && w.devices[l.key].ip == ip)
  }

  /** Two connected devices never share an address. */
  ghost predicate Apart(w: World, k: Key, k': Key) {
    (IsLive(w, k) && IsLive(w, k') && w.devices[k].tr == w.devices[k'].tr && w.devices[k].ip == w.devices[k'].ip)
    ==> k == k'
  }

  ghost predicate Inv(b: Blocks, w: World) {
    && w.udpWrote <= w.now <= w.udpWrote + STATUS_LAG && w.tcpWrote <= w.now <= w.tcpWrote + STATUS_LAG
    && (forall k {:trigger DeviceOk(w, k)} :: DeviceOk(w, k))
    && (forall tr, ip {:trigger LeaseOk(w, tr, ip)} :: LeaseOk(w, tr, ip))
    && (forall k, k' {:trigger Apart(w, k, k')} :: Apart(w, k, k'))
    && (forall a {:trigger WithinLimit(b, w, a)} :: WithinLimit(b, w, a))
  }

  // ---- what the files see ------------------------------------------------------------

  /** A connected device's address is in use as far as the hook can tell. */
  lemma LiveIsSeen(b: Blocks, w: World, k: Key)
    requires Inv(b, w) && IsLive(w, k)
    ensures var v := w.devices[k]; InUse(w.D(v.tr), w.now, v.ip) && OtherUse(w.D(v.tr), w.now, v.ip)
  {
    assert DeviceOk(w, k);
  }

  /** Ghost reclaim never takes a connected device's address. */
  lemma GhostIsNotLive(b: Blocks, w: World, tr: Transport, ip: Ip)
    requires Inv(b, w) && Ghost(w.D(tr), w.now, ip)
    ensures !HeldLive(w, tr, ip)
  {
    forall k | IsLive(w, k) && w.devices[k].tr == tr ensures w.devices[k].ip != ip {
      LiveIsNoGhost(b, w, k);
    }
  }

  lemma LiveIsNoGhost(b: Blocks, w: World, k: Key)
    requires Inv(b, w) && IsLive(w, k)
    ensures !Ghost(w.D(w.devices[k].tr), w.now, w.devices[k].ip)
  {
    assert DeviceOk(w, k);
  }

  lemma OccupiedIsSeen(b: Blocks, w: World, tr: Transport, ip: Ip)
    requires Inv(b, w) && Occupied(w, tr, ip)
    ensures InUse(w.D(tr), w.now, ip) && OtherUse(w.D(tr), w.now, ip)
  {
    if HeldLive(w, tr, ip) {
      var k :| IsLive(w, k) && w.devices[k].tr == tr && w.devices[k].ip == ip;
      LiveIsSeen(b, w, k);
    }
  }

  // ---- counting ------------------------------------------------------------------------

  lemma {:induction false} CountCoversOwn(d: Dir, now: int, ips: seq<Ip>, s: set<Ip>)
    requires forall ip :: ip in s ==> ip in ips && InUse(d, now, ip)
    ensures |s| <= CountInUse(d, now, ips)
    decreases |ips|
  {
    if ips != [] {
      var rest, ip := ips[..|ips| - 1], ips[|ips| - 1];
      assert ips == rest + [ip];
      CountCoversOwn(d, now, rest, s - {ip});
    }
  }

  lemma {:induction false} CountCoversOther(d: Dir, now: int, ips: seq<Ip>, s: set<Ip>)
    requires forall ip :: ip in s ==> ip in ips && OtherUse(d, now, ip)
    ensures |s| <= CountOther(d, now, ips)
    decreases |ips|
  {
    if ips != [] {
      var rest, ip := ips[..|ips| - 1], ips[|ips| - 1];
      assert ips == rest + [ip];
      CountCoversOther(d, now, rest, s - {ip});
    }
  }

  /** Fewer occupied addresses keep an account within its limit. */
  lemma FewerIsWithin(b: Blocks, w: World, w': World, a: Account)
    requires WithinLimit(b, w, a)
    requires forall tr, ip {:trigger Occupied(w', tr, ip)} :: ip in b.Ips(tr, a) && Occupied(w', tr, ip) ==> Occupied(w, tr, ip)
    ensures WithinLimit(b, w', a)
  {
    assert OccupiedOf(w', Udp, b.Ips(Udp, a)) <= OccupiedOf(w, Udp, b.Ips(Udp, a));
    assert OccupiedOf(w', Tcp, b.Ips(Tcp, a)) <= OccupiedOf(w, Tcp, b.Ips(Tcp, a));
    SubsetSize(OccupiedOf(w', Udp, b.Ips(Udp, a)), OccupiedOf(w, Udp, b.Ips(Udp, a)));
    SubsetSize(OccupiedOf(w', Tcp, b.Ips(Tcp, a)), OccupiedOf(w, Tcp, b.Ips(Tcp, a)));
  }

  lemma SubsetSize<T>(a: set<T>, b: set<T>)
    requires a <= b
    ensures |a| <= |b|
  {
    assert b == a + (b - a);
  }
}
