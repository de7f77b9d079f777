/** Runs with torn sends. Only frames that were sent arrive if and only if no tear puts one
    smaller size on the last two packets of its group. */
module FecTorn {
  import opened Bytes
  import opened FecSlots
  import opened Fec
  import opened FecRun
  import FecRecovery

  /** A step that reuses no group id and whose tear, if it completes a group, is by `n1` and
      `n2` and of a group of `size`. */
  predicate TornStep(size: nat, n1: int, n2: int, s: Sys, ev: Event, s': Sys) {
    && Possible(s, ev) && s' == Step(s, ev) && KeepsIdsApart(s, ev)
    && (ev.Tear? && Completes(s, ev) ==> s.enc.groupSize == size && ev.n1 == n1 && ev.n2 == n2)
  }

  ghost predicate IsChain<S(!new), E(!new)>(next: (S, E, S) -> bool, evs: seq<E>, states: seq<S>) {
    |states| == |evs| + 1 && forall i :: 0 <= i < |evs| ==> next(states[i], evs[i], states[i + 1])
  }

  lemma ChainGrows<S(!new), E(!new)>(next: (S, E, S) -> bool, evs: seq<E>, states: seq<S>, ev: E, s': S)
    requires IsChain(next, evs, states) && next(states[|evs|], ev, s')
    ensures IsChain(next, evs + [ev], states + [s'])
  {
    var evs', states' := evs + [ev], states + [s'];
    forall i | 0 <= i < |evs'| ensures next(states'[i], evs'[i], states'[i + 1]) {
      if i < |evs| { assert next(states[i], evs[i], states[i + 1]); }
    }
  }

  function TornSteps(size: nat, n1: int, n2: int): (next: (Sys, Event, Sys) -> bool) {
    (s, ev, s') => TornStep(size, n1, n2, s, ev, s')
  }

  ghost predicate IsTornRun(groupSize: int, size: nat, n1: int, n2: int, evs: seq<Event>, states: seq<Sys>) {
    IsChain(TornSteps(size, n1, n2), evs, states) && states[0] == Start(groupSize)
  }

  /** In every run whose tears are by `n1` and `n2` and of groups of `size`, what arrives was
      sent. */
  ghost predicate OnlySentArrive(size: nat, n1: int, n2: int) {
    forall groupSize, evs, states: seq<Sys>, f ::
      IsTornRun(groupSize, size, n1, n2, evs, states) && f in states[|evs|].sink ==> Given(states[|evs|], f)
  }

  ghost predicate Reached(size: nat, n1: int, n2: int, s: Sys) {
    exists evs, states :: IsTornRun(size, size, n1, n2, evs, states) && states[|evs|] == s
  }

  lemma Reach(size: nat, n1: int, n2: int, s: Sys, ev: Event, s': Sys)
    requires Reached(size, n1, n2, s) && TornStep(size, n1, n2, s, ev, s')
    ensures Reached(size, n1, n2, s')
  {
    var evs, states :| IsTornRun(size, size, n1, n2, evs, states) && states[|evs|] == s;
    ChainGrows(TornSteps(size, n1, n2), evs, states, ev, s');
    assert IsTornRun(size, size, n1, n2, evs + [ev], states + [s']);
  }

  // ---- a run that invents a frame ----------------------------------------------------------

  /** The first `k` frames of the group are sent. */
  ghost predicate Filled(s: Sys, frames: seq<Frame>, k: nat) {
    && k < |frames| && s.enc == Enc(|frames|, 1, k, GroupParity(frames[..k]))
    && s.groups == map[] && FramesOf(s, 1) == frames[..k] && s.hist.Keys <= {1}
    && forall i :: 0 <= i < k ==> Data(1, i, |frames|, frames[i]) in s.sent
  }

  lemma FillsOne(s: Sys, s': Sys, frames: seq<Frame>, k: nat)
    requires Filled(s, frames, k) && k + 1 < |frames|
    requires SendsOne(s, s', frames[k], Stamps(|frames|, |frames|))
    ensures Filled(s', frames, k + 1)
  {
    ParityOfMore(frames[..k], frames[k]);
    assert frames[..k] + [frames[k]] == frames[..k + 1];
  }

  lemma {:induction false} Fill(n1: int, n2: int, frames: seq<Frame>, k: nat) returns (s: Sys)
    requires 2 <= |frames| <= 64 && k < |frames|
    ensures Reached(|frames|, n1, n2, s) && Filled(s, frames, k)
  {
    if k == 0 {
      s := Start(|frames|);
      assert GroupParity([]) == ZERO && frames[..0] == [];
      assert IsTornRun(|frames|, |frames|, n1, n2, [], [s]);
    } else {
      var s0 := Fill(n1, n2, frames, k - 1);
      SendDoes(s0, frames[k - 1]);
      s := Step(s0, Send(frames[k - 1]));
      Reach(|frames|, n1, n2, s0, Send(frames[k - 1]), s);
      FillsOne(s0, s, frames, k - 1);
    }
  }

  /** All are sent, the last one and the parity under the size `last`. */
  ghost predicate AllSent(s: Sys, frames: seq<Frame>, last: nat) {
    && s.hist == map[1 := frames] && frames != []
    && (forall i :: 0 <= i < |frames| - 1 ==> Data(1, i, |frames|, frames[i]) in s.sent)
    && Data(1, |frames| - 1, last, frames[|frames| - 1]) in s.sent
    && Parity(1, last, GroupParity(frames)) in s.sent
  }

  lemma FillsLast(s: Sys, s': Sys, frames: seq<Frame>, last: nat)
    requires 2 <= |frames| && Filled(s, frames, |frames| - 1)
    requires SendsOne(s, s', frames[|frames| - 1], Stamps(last, last))
    ensures AllSent(s', frames, last) && s'.groups == map[]
  {
    var k := |frames| - 1;
    ParityOfMore(frames[..k], frames[k]);
    assert frames[..k] + [frames[k]] == frames;
  }

  lemma TearLast(frames: seq<Frame>, n1: int, n2: int) returns (s: Sys)
    requires 2 <= |frames| <= 64 && Clamp(n1) == Clamp(n2)
    ensures Reached(|frames|, n1, n2, s) && AllSent(s, frames, Clamp(n1)) && s.groups == map[]
  {
    var k := |frames| - 1;
    var s0 := Fill(n1, n2, frames, k);
    TearDoes(s0, frames[k], n1, n2);
    s := Step(s0, Tear(frames[k], n1, n2));
    Reach(|frames|, n1, n2, s0, Tear(frames[k], n1, n2), s);
    FillsLast(s0, s, frames, Clamp(n1));
  }

  lemma DataDelivered(size: nat, n1: int, n2: int, s: Sys, p: Packet) returns (s': Sys)
    requires Reached(size, n1, n2, s) && p in s.sent && Fits(p) && p.Data? && p.size > 0
    ensures Reached(size, n1, n2, s')
    ensures s'.hist == s.hist && s'.sent == s.sent && s'.groups == OnData(s.groups, p.gid, p.index, p.size, p.frame, 0)
  {
    s' := Step(s, Deliver(p, 0));
    Reach(size, n1, n2, s, Deliver(p, 0), s');
    PlainRoundTrip(s.groups, p, 0);
  }

  lemma EmptyIsSent(s: Sys, size: nat, last: nat, i: nat)
    requires 2 <= i < size && AllSent(s, FecRecovery.OddGroup(size), last)
    ensures Data(1, i, if i == size - 1 then last else size, []) in s.sent
  {
    var frames := FecRecovery.OddGroup(size);
    assert frames[i] == [];
    assert i < |frames| - 1 ==> Data(1, i, |frames|, frames[i]) in s.sent;
  }

  /** The last `n` frames have arrived, the very last one first. */
  ghost predicate Drained(s: Sys, size: nat, last: nat, n: nat) {
    && size >= 2 && AllSent(s, FecRecovery.OddGroup(size), last)
    && if n == 0 then s.groups == map[] else FecRecovery.EmptyHeld(s.groups, size, last, n)
  }

  lemma StillSent(s: Sys, s': Sys, frames: seq<Frame>, last: nat)
    requires AllSent(s, frames, last) && s'.hist == s.hist && s'.sent == s.sent
    ensures AllSent(s', frames, last)
  {
  }

  lemma DrainOne(size: nat, n1: int, n2: int, s: Sys, n: nat) returns (s': Sys)
    requires Reached(size, n1, n2, s) && Drained(s, size, Clamp(n1), n) && n + 3 <= size <= 64
    ensures Reached(size, n1, n2, s') && Drained(s', size, Clamp(n1), n + 1)
  {
    var last, i := Clamp(n1), size - n - 1;
    var p := Data(1, i, if n == 0 then last else size, []);
    EmptyIsSent(s, size, last, i);
    s' := DataDelivered(size, n1, n2, s, p);
    StillSent(s, s', FecRecovery.OddGroup(size), last);
    FecRecovery.EmptyArrives(s.groups, size, last, n + 1, p.size);
  }

  lemma {:induction false} Drain(size: nat, n1: int, n2: int, n: nat) returns (s: Sys)
    requires Clamp(n1) == Clamp(n2) && n + 2 <= size <= 64
    ensures Reached(size, n1, n2, s) && Drained(s, size, Clamp(n1), n)
  {
    if n == 0 {
      s := TearLast(FecRecovery.OddGroup(size), n1, n2);
    } else {
      s := Drain(size, n1, n2, n - 1);
      s := DrainOne(size, n1, n2, s, n - 1);
    }
  }

  lemma TornRunInvents(size: nat, n1: int, n2: int)
    requires Clamp(n1) == Clamp(n2) < size <= 64
    ensures !OnlySentArrive(size, n1, n2)
  {
    var frames, last := FecRecovery.OddGroup(size), Clamp(n1);
    var s := Drain(size, n1, n2, last - 1);
    var p := Parity(1, last, GroupParity(frames));
    var out := Recovered(s.groups, 1, last, p.parity);
    FecRecovery.OddYield(s.groups, size, last);
    FecRecovery.OddIsShort(size, out);
    ParityStep(s, p, 0);
    var s' := Step(s, Deliver(p, 0));
    Reach(size, n1, n2, s, Deliver(p, 0), s');
    assert s'.sink == s.sink + [out];
    assert out in s'.sink && !Given(s', out);
  }

  lemma TornRunIsOrderly(groupSize: int, size: nat, n1: int, n2: int, evs: seq<Event>, states: seq<Sys>)
    requires IsTornRun(groupSize, size, n1, n2, evs, states) && !(Clamp(n1) == Clamp(n2) < size)
    ensures IsRun(groupSize, evs, states) && IsOrderly(evs, states)
  {
    forall i | 0 <= i < |evs|
      ensures Possible(states[i], evs[i]) && states[i + 1] == Step(states[i], evs[i])
      ensures KeepsIdsApart(states[i], evs[i]) && KeepsSizes(states[i], evs[i])
    {
      assert TornSteps(size, n1, n2)(states[i], evs[i], states[i + 1]);
    }
  }

  /** The run theorem is exact: with completing sends of groups of `size` torn by `n1` and `n2`,
      only frames that were sent arrive in every run, if and only if the two do not put one
      smaller size on the group. */
  lemma TornRunsAreSafeIff(size: nat, n1: int, n2: int)
    requires 2 <= size <= 64
    ensures OnlySentArrive(size, n1, n2) <==> !(Clamp(n1) == Clamp(n2) < size)
  {
    if Clamp(n1) == Clamp(n2) < size {
      TornRunInvents(size, n1, n2);
    } else {
      forall groupSize, evs, states: seq<Sys>, f | IsTornRun(groupSize, size, n1, n2, evs, states) && f in states[|evs|].sink
        ensures Given(states[|evs|], f)
      {
        TornRunIsOrderly(groupSize, size, n1, n2, evs, states);
        OnlySentFramesArrive(groupSize, evs, states, f);
      }
    }
  }
}
