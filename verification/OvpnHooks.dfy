/** The OpenVPN device-slot hooks of panel/main.go on the files they share: gap-leases,
    release markers and the status file of each transport. */
module OvpnHooks {
  import opened Options

  type Ip = string
  type Key = string

  const LEASE_TTL: int := 30000
  const RECLAIM_GRACE: int := 10000
  const RELEASE_TTL: int := 15000

  /** A lease file, named by its address: when it was written and the session it holds. */
  datatype Lease = Lease(mtime: int, key: Key)

  /** The files of one transport. Times are milliseconds. */
  datatype Dir = Dir(leases: map<Ip, Lease>, released: map<Ip, int>, status: set<Ip>)

  predicate FreshLease(d: Dir, now: int, ip: Ip) {
    ip in d.leases && now - d.leases[ip].mtime <= LEASE_TTL
  }

  /** A release marker that still counts and that nothing leased since. */
  predicate Freed(d: Dir, now: int, ip: Ip) {
    ip in d.released && now - d.released[ip] <= RELEASE_TTL && !FreshLease(d, now, ip)
  }

  /** Status says connected and no release contradicts it. */
  predicate LiveStatus(d: Dir, now: int, ip: Ip) {
    ip in d.status && !Freed(d, now, ip)
  }

  predicate InUse(d: Dir, now: int, ip: Ip) {
    (ip in d.status || FreshLease(d, now, ip)) && !Freed(d, now, ip)
  }

  /** How the other transport's addresses are counted. */
  predicate OtherUse(d: Dir, now: int, ip: Ip) {
    ip in d.status || FreshLease(d, now, ip)
  }

  /** Expired leases and markers are deleted by every connect. */
  function Pruned(d: Dir, now: int): (d': Dir) {
    d.(leases := map ip | ip in d.leases && now - d.leases[ip].mtime <= LEASE_TTL :: d.leases[ip],
       released := map ip | ip in d.released && now - d.released[ip] <= RELEASE_TTL :: d.released[ip])
  }

  function CountInUse(d: Dir, now: int, ips: seq<Ip>): (n: nat) {
    if ips == [] then 0
    else CountInUse(d, now, ips[..|ips| - 1]) + if InUse(d, now, ips[|ips| - 1]) then 1 else 0
  }

  function CountOther(d: Dir, now: int, ips: seq<Ip>): (n: nat) {
    if ips == [] then 0
    else CountOther(d, now, ips[..|ips| - 1]) + if OtherUse(d, now, ips[|ips| - 1]) then 1 else 0
  }

  /** All addresses listed before `ip` are in use. */
  ghost predicate First(d: Dir, now: int, ips: seq<Ip>, ip: Ip) {
    exists i :: 0 <= i < |ips| && ips[i] == ip && forall j :: 0 <= j < i ==> InUse(d, now, ips[j])
  }

  function FirstFree(d: Dir, now: int, ips: seq<Ip>): (r: Option<Ip>)
    ensures r.Some? ==> r.value in ips && !InUse(d, now, r.value)
    ensures r.Some? ==> First(d, now, ips, r.value)
    ensures r.None? ==> forall ip :: ip in ips ==> InUse(d, now, ip)
  {
    if ips == [] then None
    else if !InUse(d, now, ips[0]) then Some(ips[0])
    else
      var r := FirstFree(d, now, ips[1..]);
      assert r.Some? ==> First(d, now, ips, r.value) by {
        if r.Some? {
          var i :| 0 <= i < |ips[1..]| && ips[1..][i] == r.value && forall j :: 0 <= j < i ==> InUse(d, now, ips[1..][j]);
          assert ips[i + 1] == r.value && forall j :: 0 <= j < i + 1 ==> InUse(d, now, ips[j]);
        }
      }
      r
  }

  /** A lease past the grace whose address no connected device reports. */
  predicate Ghost(d: Dir, now: int, ip: Ip) {
    FreshLease(d, now, ip) && now - d.leases[ip].mtime > RECLAIM_GRACE && !LiveStatus(d, now, ip)
  }

  /** The oldest ghost, the first listed of equals. */
  function OldestGhost(d: Dir, now: int, ips: seq<Ip>): (r: Option<Ip>)
    ensures r.Some? ==> r.value in ips && Ghost(d, now, r.value)
    ensures r.None? ==> forall ip :: ip in ips ==> !Ghost(d, now, ip)
    ensures r.Some? ==> forall ip :: ip in ips && Ghost(d, now, ip) ==> d.leases[r.value].mtime <= d.leases[ip].mtime
  {
    if ips == [] then None
    else
      var r, ip := OldestGhost(d, now, ips[..|ips| - 1]), ips[|ips| - 1];
      assert ips == ips[..|ips| - 1] + [ip];
      if Ghost(d, now, ip) && (r.None? || d.leases[ip].mtime < d.leases[r.value].mtime) then Some(ip) else r
  }

  /** The address a connect gets under the "reject" strategy, if any. */
  function Admitted(own: Dir, other: Dir, now: int, ips: seq<Ip>, otherIps: seq<Ip>): (r: Option<Ip>) {
    if CountInUse(own, now, ips) + CountOther(other, now, otherIps) < |ips| && FirstFree(own, now, ips).Some?
    then FirstFree(own, now, ips)
    else OldestGhost(own, now, ips)
  }

  function Leased(d: Dir, ip: Ip, key: Key, now: int): (d': Dir) {
    d.(leases := d.leases[ip := Lease(now, key)], released := d.released - {ip})
  }

  /** The transport's files after a connect. */
  function Connected(own: Dir, other: Dir, now: int, ips: seq<Ip>, otherIps: seq<Ip>, key: Key): (d': Dir) {
    var r := Admitted(own, other, now, ips, otherIps);
    if r.Some? then Leased(Pruned(own, now), r.value, key, now) else Pruned(own, now)
  }

  /** The transport's files after a disconnect: the session's lease goes and its address is
      marked released. No lease, no marker. */
  ghost predicate Disconnected(d: Dir, d': Dir, now: int, key: Key) {
    || (d' == d && (key == "" || forall ip :: ip in d.leases ==> d.leases[ip].key != key))
    || (key != "" && exists ip :: ip in d.leases && d.leases[ip].key == key
                      && d' == d.(leases := d.leases - {ip}, released := d.released[ip := now]))
  }

  // ---- the hooks -----------------------------------------------------------------

  class Files {
    var leases: map<Ip, Lease>
    var released: map<Ip, int>
    var status: set<Ip>

    ghost function View(): (d: Dir)
      reads this
    {
      Dir(leases, released, status)
    }

    /** `ovpnReleasedIPs`: the markers that still count; the others are deleted. */
    method ReleasedIPs(now: int) returns (r: set<Ip>)
      modifies `released
      ensures View() == old(View()).(released := Pruned(old(View()), now).released)
      ensures r == released.Keys
    {
      var rest := released.Keys;
      r := {};
      while rest != {}
        invariant rest <= old(released).Keys
        invariant released == map ip | ip in old(released)
                                       && (ip in rest || now - old(released)[ip] <= RELEASE_TTL) :: old(released)[ip]
        invariant r == released.Keys - rest
        decreases rest
      {
        var ip :| ip in rest;
        rest := rest - {ip};
        if now - released[ip] > RELEASE_TTL { released := released - {ip}; } else { r := r + {ip}; }
      }
    }

    /** The lease scan of a connect: ages of fresh leases, expired ones deleted. */
    method LeaseAges(now: int) returns (age: map<Ip, int>)
      modifies `leases
      ensures View() == old(View()).(leases := Pruned(old(View()), now).leases)
      ensures age == map ip | ip in leases :: now - leases[ip].mtime
    {
      var rest := leases.Keys;
      age := map[];
      while rest != {}
        invariant rest <= old(leases).Keys
        invariant leases == map ip | ip in old(leases)
                                     && (ip in rest || now - old(leases)[ip].mtime <= LEASE_TTL) :: old(leases)[ip]
        invariant age == map ip | ip in leases && ip !in rest :: now - leases[ip].mtime
        decreases rest
      {
        var ip :| ip in rest;
        rest := rest - {ip};
        if now - leases[ip].mtime > LEASE_TTL {
          leases := leases - {ip};
        } else {
          age := age[ip := now - leases[ip].mtime];
        }
      }
    }

    /** `ovpnLeasedIPs`: fresh leases of a transport, nothing deleted. */
    method LeasedIPs(now: int) returns (r: set<Ip>)
      ensures forall ip :: ip in r <==> FreshLease(View(), now, ip)
    {
      r := set ip | ip in leases && now - leases[ip].mtime <= LEASE_TTL;
    }

    /** `ovpnRemoveLeaseBySession` followed by `ovpnWriteRelease`. */
    method Disconnect(key: Key, now: int)
      modifies this
      ensures Disconnected(old(View()), View(), now, key)
    {
      var rest := leases.Keys;
      while rest != {}
        invariant View() == old(View()) && rest <= leases.Keys
        invariant forall ip :: ip in leases && ip !in rest ==> key == "" || leases[ip].key != key
        decreases rest
      {
        var ip :| ip in rest;
        rest := rest - {ip};
        if key != "" && leases[ip].key == key {
          leases := leases - {ip};
          released := released[ip := now];
          return;
        }
      }
    }
  }

  /** The reads of a connect: addresses in use, addresses a connected device reports, and the
      ages of the fresh leases. */
  method Scan(own: Files, now: int) returns (inUse: set<Ip>, liveStatus: set<Ip>, leaseAge: map<Ip, int>)
    modifies own
    ensures own.View() == Pruned(old(own.View()), now)
    ensures forall x :: x in inUse <==> InUse(old(own.View()), now, x)
    ensures forall x :: x in liveStatus <==> LiveStatus(old(own.View()), now, x)
    ensures forall x :: x in leaseAge <==> FreshLease(old(own.View()), now, x)
    ensures forall x :: x in leaseAge ==> x in old(own.leases) && leaseAge[x] == now - old(own.leases)[x].mtime
  {
    liveStatus := own.status;
    inUse := liveStatus;
    var released := own.ReleasedIPs(now);
    leaseAge := own.LeaseAges(now);
    inUse := inUse + leaseAge.Keys;
    inUse := inUse - (released - leaseAge.Keys);
    liveStatus := liveStatus - (released - leaseAge.Keys);
  }

  /** The count over both transports. */
  method CountUsed(inUse: set<Ip>, other: Files, now: int, ips: seq<Ip>, otherIps: seq<Ip>, ghost d: Dir)
    returns (usedCount: nat)
    requires forall x :: x in inUse <==> InUse(d, now, x)
    ensures usedCount == CountInUse(d, now, ips) + CountOther(other.View(), now, otherIps)
  {
    usedCount := 0;
    for i := 0 to |ips|
      invariant usedCount == CountInUse(d, now, ips[..i])
    {
      assert ips[..i + 1][..i] == ips[..i];
      if ips[i] in inUse { usedCount := usedCount + 1; }
    }
    assert ips[..|ips|] == ips;
    var oLease := other.LeasedIPs(now);
    for i := 0 to |otherIps|
      invariant usedCount == CountInUse(d, now, ips) + CountOther(other.View(), now, otherIps[..i])
    {
      assert otherIps[..i + 1][..i] == otherIps[..i];
      if otherIps[i] in other.status || otherIps[i] in oLease { usedCount := usedCount + 1; }
    }
    assert otherIps[..|otherIps|] == otherIps;
  }

  method PickFree(inUse: set<Ip>, now: int, ips: seq<Ip>, ghost d: Dir) returns (ip: Option<Ip>)
    requires forall x :: x in inUse <==> InUse(d, now, x)
    ensures ip == FirstFree(d, now, ips)
  {
    for i := 0 to |ips|
      invariant FirstFree(d, now, ips) == FirstFree(d, now, ips[i..])
    {
      if ips[i] !in inUse { return Some(ips[i]); }
      assert ips[i..][1..] == ips[i + 1..];
    }
    ip := None;
  }

  method PickGhost(liveStatus: set<Ip>, leaseAge: map<Ip, int>, now: int, ips: seq<Ip>, ghost d: Dir)
    returns (ghostIP: Option<Ip>)
    requires forall x :: x in liveStatus <==> LiveStatus(d, now, x)
    requires forall x :: x in leaseAge <==> FreshLease(d, now, x)
    requires forall x :: x in leaseAge ==> x in d.leases && leaseAge[x] == now - d.leases[x].mtime
    ensures ghostIP == OldestGhost(d, now, ips)
  {
    var ghostAge := 0;
    ghostIP := None;
    for i := 0 to |ips|
      invariant ghostIP == OldestGhost(d, now, ips[..i])
      invariant ghostAge == if ghostIP.Some? then now - d.leases[ghostIP.value].mtime else 0
    {
      assert ips[..i + 1][..i] == ips[..i];
      if ips[i] !in liveStatus && ips[i] in leaseAge && leaseAge[ips[i]] > RECLAIM_GRACE && leaseAge[ips[i]] > ghostAge {
        ghostIP, ghostAge := Some(ips[i]), leaseAge[ips[i]];
      }
    }
    assert ips[..|ips|] == ips;
  }

  /** `ovpnLeaseBlockIP` under the "reject" strategy, for an account whose block is published. */
  method LeaseBlockIP(own: Files, other: Files, now: int, ips: seq<Ip>, otherIps: seq<Ip>, key: Key)
    returns (ip: Option<Ip>)
    requires own != other
    modifies own
    ensures ip == Admitted(old(own.View()), other.View(), now, ips, otherIps)
    ensures own.View() == Connected(old(own.View()), other.View(), now, ips, otherIps, key)
  {
    ghost var d := own.View();
    var inUse, liveStatus, leaseAge := Scan(own, now);
    var usedCount := CountUsed(inUse, other, now, ips, otherIps, d);
    ip := None;
    if usedCount < |ips| { ip := PickFree(inUse, now, ips, d); }
    if ip.None? { ip := PickGhost(liveStatus, leaseAge, now, ips, d); }
    if ip.Some? {
      own.leases := own.leases[ip.value := Lease(now, key)];
      own.released := own.released - {ip.value};
    }
  }
}
