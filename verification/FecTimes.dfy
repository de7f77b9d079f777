/** What the decoder of a run holds and recovers, in terms of the events alone: which packets
    were delivered, when, and how long after the last new one stale groups were collected. */
module FecTimes {
  import opened Bytes
  import opened FecSlots
  import opened Fec
  import opened FecRun

  predicate Brings(ev: Event, gid: nat) {
    ev.Deliver? && ev.p.Data? && ev.p.gid == gid
  }

  /** The indices of group `gid` delivered by events `lo` to `n - 1`. */
  function Came(evs: seq<Event>, gid: nat, lo: nat, n: nat): (s: set<nat>)
    requires lo <= n <= |evs|
    decreases n
  {
    if n == lo then {}
    else Came(evs, gid, lo, n - 1) + if Brings(evs[n - 1], gid) then {evs[n - 1].p.index} else {}
  }

  /** When the latest of them that was new came. */
  function LastNew(evs: seq<Event>, gid: nat, lo: nat, n: nat): (t: int)
    requires lo <= n <= |evs|
    decreases n
  {
    if n == lo then 0
    else if Brings(evs[n - 1], gid) && evs[n - 1].p.index !in Came(evs, gid, lo, n - 1) then evs[n - 1].now
    else LastNew(evs, gid, lo, n - 1)
  }

  predicate Ends(ev: Event, gid: nat) {
    ev.Deliver? && ev.p.Parity? && ev.p.gid == gid
  }

  /** Event `c` collects group `gid`: more than `maxAge` has passed since a new packet came. */
  predicate TooOld(evs: seq<Event>, gid: nat, lo: nat, c: nat)
    requires lo <= c < |evs|
  {
    evs[c].Collect? && evs[c].now - LastNew(evs, gid, lo, c) > evs[c].maxAge
  }

  /** From `lo` to `n` no parity of the group comes, and it is not collected once begun. */
  ghost predicate Undisturbed(evs: seq<Event>, gid: nat, lo: nat, n: nat)
    requires lo <= n <= |evs|
  {
    forall c :: lo <= c < n ==> !Ends(evs[c], gid) && (Came(evs, gid, lo, c) != {} ==> !TooOld(evs, gid, lo, c))
  }

  ghost predicate Records(groups: Groups, gid: nat, came: set<nat>, last: int) {
    && (gid in groups <==> came != {})
    && (gid in groups ==> groups[gid].mask == came && groups[gid].lastSeen == last)
  }

  /** What an event does to the groups of the decoder. */
  lemma StepGroups(s: Sys, ev: Event)
    requires Inv(s) && Possible(s, ev)
    ensures ev.Deliver? && ev.p.Data? ==>
              Step(s, ev).groups == OnData(s.groups, ev.p.gid, ev.p.index, ev.p.size, ev.p.frame, ev.now)
              && ev.p.index < 64 && ev.p.size > 0
    ensures ev.Deliver? && ev.p.Parity? ==> Step(s, ev).groups == s.groups - {ev.p.gid}
    ensures ev.Collect? ==> Step(s, ev).groups == Collected(s.groups, ev.maxAge, ev.now)
    ensures !ev.Deliver? && !ev.Collect? ==> Step(s, ev).groups == s.groups
  {
    if ev.Deliver? {
      assert PacketOk(s, ev.p);
      PlainRoundTrip(s.groups, ev.p, ev.now);
    }
  }

  lemma DataRecords(groups: Groups, p: Packet, now: int, gid: nat, came: set<nat>, last: int)
    requires p.Data? && p.index < 64 && p.size > 0 && Records(groups, gid, came, last)
    ensures var groups' := OnData(groups, p.gid, p.index, p.size, p.frame, now);
            if p.gid != gid then Records(groups', gid, came, last)
            else Records(groups', gid, came + {p.index}, if p.index in came then last else now)
  {
    if p.gid == gid {
      assert p.index in came + {p.index};
      if p.index in came { assert came + {p.index} == came; }
    }
  }

  lemma CollectRecords(groups: Groups, maxAge: int, now: int, gid: nat, came: set<nat>, last: int)
    requires Records(groups, gid, came, last) && (came != {} ==> now - last <= maxAge)
    ensures Records(Collected(groups, maxAge, now), gid, came, last)
  {
  }

  /** One event on the decoder's record of a group. */
  lemma StepRecords(s: Sys, ev: Event, s': Sys, gid: nat, came: set<nat>, last: int)
    requires Inv(s) && Possible(s, ev) && s' == Step(s, ev) && Records(s.groups, gid, came, last) && !Ends(ev, gid)
    requires ev.Collect? && came != {} ==> ev.now - last <= ev.maxAge
    ensures if Brings(ev, gid) then Records(s'.groups, gid, came + {ev.p.index}, if ev.p.index in came then last else ev.now)
            else Records(s'.groups, gid, came, last)
  {
    StepGroups(s, ev);
    if ev.Deliver? && ev.p.Data? {
      DataRecords(s.groups, ev.p, ev.now, gid, came, last);
    } else if ev.Collect? {
      CollectRecords(s.groups, ev.maxAge, ev.now, gid, came, last);
    }
  }

  lemma CameMore(evs: seq<Event>, gid: nat, lo: nat, m: nat)
    requires lo <= m < |evs|
    ensures var came, last := Came(evs, gid, lo, m), LastNew(evs, gid, lo, m);
            if Brings(evs[m], gid)
            then Came(evs, gid, lo, m + 1) == came + {evs[m].p.index}
                 && LastNew(evs, gid, lo, m + 1) == if evs[m].p.index in came then last else evs[m].now
            else Came(evs, gid, lo, m + 1) == came && LastNew(evs, gid, lo, m + 1) == last
  {
  }

  /** One event of a run, with what is known before it. */
  lemma EventOfRun(groupSize: int, evs: seq<Event>, states: seq<Sys>, m: nat)
    requires IsRun(groupSize, evs, states) && IsOrderly(evs, states) && m < |evs|
    ensures Inv(states[m]) && Possible(states[m], evs[m]) && states[m + 1] == Step(states[m], evs[m])
  {
    RunKeeps(groupSize, evs, states, m);
  }

  lemma RecordsGoOn(evs: seq<Event>, s: Sys, s': Sys, gid: nat, lo: nat, m: nat)
    requires lo <= m < |evs| && Inv(s) && Possible(s, evs[m]) && s' == Step(s, evs[m])
    requires Undisturbed(evs, gid, lo, m + 1) && Records(s.groups, gid, Came(evs, gid, lo, m), LastNew(evs, gid, lo, m))
    ensures Records(s'.groups, gid, Came(evs, gid, lo, m + 1), LastNew(evs, gid, lo, m + 1))
  {
    assert !Ends(evs[m], gid) && (Came(evs, gid, lo, m) != {} ==> !TooOld(evs, gid, lo, m));
    StepRecords(s, evs[m], s', gid, Came(evs, gid, lo, m), LastNew(evs, gid, lo, m));
    CameMore(evs, gid, lo, m);
  }

  lemma UndisturbedBefore(evs: seq<Event>, gid: nat, lo: nat, n: nat)
    requires lo < n <= |evs| && Undisturbed(evs, gid, lo, n)
    ensures Undisturbed(evs, gid, lo, n - 1)
  {
  }

  /** The decoder's record of a group is what came of it since it was last without one. */
  lemma {:induction false} HoldsWhatCame(groupSize: int, evs: seq<Event>, states: seq<Sys>, gid: nat, lo: nat, n: nat)
    requires IsRun(groupSize, evs, states) && IsOrderly(evs, states) && lo <= n <= |evs|
    requires gid !in states[lo].groups && Undisturbed(evs, gid, lo, n)
    ensures Records(states[n].groups, gid, Came(evs, gid, lo, n), LastNew(evs, gid, lo, n))
    decreases n
  {
    if n > lo {
      UndisturbedBefore(evs, gid, lo, n);
      HoldsWhatCame(groupSize, evs, states, gid, lo, n - 1);
      EventOfRun(groupSize, evs, states, n - 1);
      RecordsGoOn(evs, states[n - 1], states[n], gid, lo, n - 1);
    }
  }

  /** In every orderly run, collecting drops a group if and only if more than `maxAge` has passed
      since a new packet of it came; otherwise the decoder holds what it held. */
  lemma CollectsTheOld(groupSize: int, evs: seq<Event>, states: seq<Sys>, gid: nat, lo: nat, c: nat)
    requires IsRun(groupSize, evs, states) && IsOrderly(evs, states) && lo <= c < |evs| && evs[c].Collect?
    requires gid !in states[lo].groups && Undisturbed(evs, gid, lo, c) && Came(evs, gid, lo, c) != {}
    ensures gid in states[c + 1].groups <==> !TooOld(evs, gid, lo, c)
    ensures Held(states[c + 1], gid) == if TooOld(evs, gid, lo, c) then {} else Came(evs, gid, lo, c)
  {
    HoldsWhatCame(groupSize, evs, states, gid, lo, c);
    EventOfRun(groupSize, evs, states, c);
    StepGroups(states[c], evs[c]);
  }

  // ---- recovery ------------------------------------------------------------------------------

  /** The last frame of the group is not sent in a torn send. */
  ghost predicate Untorn(evs: seq<Event>, states: seq<Sys>, gid: nat, k: nat) {
    forall i :: 0 <= i < k && i < |evs| && i < |states| && evs[i].Tear? && Completes(states[i], evs[i]) ==>
      states[i].enc.groupID != gid
  }

  lemma {:induction false} UntornStamps(groupSize: int, evs: seq<Event>, states: seq<Sys>, gid: nat, k: nat)
    requires IsRun(groupSize, evs, states) && IsOrderly(evs, states) && k <= |evs| && Untorn(evs, states, gid, k)
    ensures gid in states[k].stamps ==>
              gid in states[k].hist && gid < states[k].enc.groupID
              && states[k].stamps[gid].last == states[k].stamps[gid].parity == |states[k].hist[gid]|
  {
    if k > 0 {
      var m := k - 1;
      UntornStamps(groupSize, evs, states, gid, m);
      RunKeeps(groupSize, evs, states, m);
      assert KeepsIdsApart(states[m], evs[m]) && states[m + 1] == Step(states[m], evs[m]);
      StampsOfStep(states[m], evs[m], gid);
    }
  }

  lemma StampsOfStep(s: Sys, ev: Event, gid: nat)
    requires Inv(s) && Possible(s, ev) && KeepsIdsApart(s, ev)
    requires ev.Tear? && Completes(s, ev) ==> s.enc.groupID != gid
    requires gid in s.stamps ==> gid in s.hist && gid < s.enc.groupID
                                 && s.stamps[gid].last == s.stamps[gid].parity == |s.hist[gid]|
    ensures var s' := Step(s, ev);
            gid in s'.stamps ==> gid in s'.hist && gid < s'.enc.groupID
                                 && s'.stamps[gid].last == s'.stamps[gid].parity == |s'.hist[gid]|
  {
    if ev.Send? {
      SendDoes(s, ev.frame);
    } else if ev.Tear? {
      TearDoes(s, ev.frame, ev.n1, ev.n2);
    }
  }

  /** In every orderly run: let a group be new to the decoder at `lo`, its last send not torn,
      and its parity come at `k`. If after the first of its packets it was never more than
      `maxAge` without a new one when collected, the parity writes the one frame none of whose
      packets came, and nothing if all came or several did not. */
  lemma WritesWhatDidNotCome(groupSize: int, evs: seq<Event>, states: seq<Sys>, lo: nat, k: nat)
    requires IsRun(groupSize, evs, states) && IsOrderly(evs, states) && lo <= k < |evs|
    requires evs[k].Deliver? && evs[k].p.Parity?
    requires Untorn(evs, states, evs[k].p.gid, k) && evs[k].p.gid !in states[lo].groups
    requires Undisturbed(evs, evs[k].p.gid, lo, k)
    ensures evs[k].p.gid in states[k].hist
    ensures var fs := states[k].hist[evs[k].p.gid];
            var lost := Below(|fs|) - Came(evs, evs[k].p.gid, lo, k);
            && (|lost| != 1 ==> states[k + 1].sink == states[k].sink)
            && (forall j :: lost == {j} ==> j < |fs| && states[k + 1].sink == states[k].sink + Rescued(fs[j]))
  {
    var gid := evs[k].p.gid;
    ParityWritesTheMissing(groupSize, evs, states, k);
    UntornStamps(groupSize, evs, states, gid, k);
    HoldsWhatCame(groupSize, evs, states, gid, lo, k);
    assert Held(states[k], gid) == Came(evs, gid, lo, k);
  }
}
