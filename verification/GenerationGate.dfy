/** The generation gate of a node (node/server.go): concurrent apply requests, each checking
    under the lock, applying outside it and committing under it again. */
module GenerationGate {
  /** `seen` are the entries of the apply log that were committed when the request was let in. */
  datatype Phase = Fresh | Refused | Running(seen: set<nat>) | Failed | Applied(at: nat) | Done(at: nat)

  /** `last` is the gate; `log` the requests whose state was applied, in that order; `seen`
      what each of them had seen at its check. */
  datatype Node = Node(last: int, phases: seq<Phase>, log: seq<nat>, seen: seq<set<nat>>)

  datatype Event = Check(i: nat) | Finish(i: nat, ok: bool) | Commit(i: nat)

  function Max(a: int, b: int): (m: int) {
    if a >= b then a else b
  }

  function Committed(phases: seq<Phase>): (s: set<nat>) {
    set i | 0 <= i < |phases| && phases[i].Done? :: phases[i].at
  }

  predicate Possible(n: Node, ev: Event) {
    ev.i < |n.phases|
    && match ev
       case Check(i) => n.phases[i].Fresh?
       case Finish(i, _) => n.phases[i].Running?
       case Commit(i) => n.phases[i].Applied?
  }

  function Step(gens: seq<int>, n: Node, ev: Event): (r: Node)
    requires |gens| == |n.phases| && Possible(n, ev)
    ensures |r.phases| == |n.phases|
  {
    match ev
    case Check(i) =>
      n.(phases := n.phases[i := if gens[i] <= n.last then Refused else Running(Committed(n.phases))])
    case Finish(i, ok) =>
      if !ok then n.(phases := n.phases[i := Failed])
      else Node(n.last, n.phases[i := Applied(|n.log|)], n.log + [i], n.seen + [n.phases[i].seen])
    case Commit(i) =>
      n.(phases := n.phases[i := Done(n.phases[i].at)], last := Max(n.last, gens[i]))
  }

  /** Every entry of `s` is in the log and older than generation `g`. */
  predicate AllOlder(gens: seq<int>, log: seq<nat>, s: set<nat>, g: int) {
    forall k :: k in s ==> k < |log| && log[k] < |gens| && gens[log[k]] < g
  }

  ghost predicate PhaseOk(gens: seq<int>, n: Node, i: nat)
    requires |gens| == |n.phases| && i < |gens|
  {
    match n.phases[i]
    case Running(seen) => AllOlder(gens, n.log, seen, gens[i])
    case Applied(at) => at < |n.log| && n.log[at] == i
    case Done(at) => at < |n.log| && n.log[at] == i && gens[i] <= n.last
    case _ => true
  }

  ghost predicate EntryOk(gens: seq<int>, n: Node, k: nat)
    requires |gens| == |n.phases| && |n.seen| == |n.log| && k < |n.log|
  {
    n.log[k] < |gens| && AllOlder(gens, n.log, n.seen[k], gens[n.log[k]])
    && (n.phases[n.log[k]] == Applied(k) || n.phases[n.log[k]] == Done(k))
  }

  /** The gate is at the highest generation that was committed, `start` if none was. */
  ghost predicate GateOk(gens: seq<int>, n: Node, start: int)
    requires |gens| == |n.phases|
  {
    n.last >= start
    && (n.last == start || exists i :: 0 <= i < |gens| && n.phases[i].Done? && gens[i] == n.last)
  }

  ghost predicate Inv(gens: seq<int>, n: Node, start: int) {
    |gens| == |n.phases| && |n.seen| == |n.log| && GateOk(gens, n, start)
    && (forall i {:trigger n.phases[i]} :: 0 <= i < |gens| ==> PhaseOk(gens, n, i))
    && (forall k {:trigger n.log[k]} :: 0 <= k < |n.log| ==> EntryOk(gens, n, k))
  }

  lemma CheckKeeps(gens: seq<int>, n: Node, start: int, i: nat)
    requires Inv(gens, n, start) && Possible(n, Check(i))
    ensures Inv(gens, Step(gens, n, Check(i)), start)
  {
    var r := Step(gens, n, Check(i));
    if gens[i] > n.last {
      forall k | k in Committed(n.phases) ensures k < |n.log| && n.log[k] < |gens| && gens[n.log[k]] < gens[i] {
        var j :| 0 <= j < |n.phases| && n.phases[j].Done? && n.phases[j].at == k;
        assert PhaseOk(gens, n, j);
      }
      assert PhaseOk(gens, r, i);
    }
    GateSurvives(gens, n, r, start, i);
    forall j | 0 <= j < |gens| ensures PhaseOk(gens, r, j) { assert PhaseOk(gens, n, j); }
    forall k | 0 <= k < |n.log| ensures EntryOk(gens, r, k) { assert EntryOk(gens, n, k); }
  }

  lemma GateSurvives(gens: seq<int>, n: Node, r: Node, start: int, i: nat)
    requires |gens| == |n.phases| && i < |gens| && !n.phases[i].Done? && GateOk(gens, n, start)
    requires r.last == n.last && |r.phases| == |n.phases| && r.phases == n.phases[i := r.phases[i]]
    ensures GateOk(gens, r, start)
  {
    if n.last != start {
      var j :| 0 <= j < |gens| && n.phases[j].Done? && gens[j] == n.last;
      assert r.phases[j] == n.phases[j];
    }
  }

  lemma FinishKeeps(gens: seq<int>, n: Node, start: int, i: nat, ok: bool)
    requires Inv(gens, n, start) && Possible(n, Finish(i, ok))
    ensures Inv(gens, Step(gens, n, Finish(i, ok)), start)
  {
    var r := Step(gens, n, Finish(i, ok));
    GateSurvives(gens, n, r, start, i);
    assert PhaseOk(gens, n, i);
    forall j | 0 <= j < |gens| ensures PhaseOk(gens, r, j) {
      assert PhaseOk(gens, n, j);
      if ok && n.phases[j].Running? { AllOlderMore(gens, n.log, i, n.phases[j].seen, gens[j]); }
    }
    forall k | 0 <= k < |r.log| ensures EntryOk(gens, r, k) {
      if k < |n.log| {
        assert EntryOk(gens, n, k);
        if ok { AllOlderMore(gens, n.log, i, n.seen[k], gens[n.log[k]]); }
      } else {
        AllOlderMore(gens, n.log, i, n.phases[i].seen, gens[i]);
      }
    }
  }

  lemma AllOlderMore(gens: seq<int>, log: seq<nat>, i: nat, s: set<nat>, g: int)
    requires AllOlder(gens, log, s, g)
    ensures AllOlder(gens, log + [i], s, g)
  {
  }

  lemma CommitKeeps(gens: seq<int>, n: Node, start: int, i: nat)
    requires Inv(gens, n, start) && Possible(n, Commit(i))
    ensures Inv(gens, Step(gens, n, Commit(i)), start)
  {
    var r := Step(gens, n, Commit(i));
    assert PhaseOk(gens, n, i);
    if gens[i] <= n.last {
      if n.last != start {
        var j :| 0 <= j < |gens| && n.phases[j].Done? && gens[j] == n.last;
        assert r.phases[j].Done?;
      }
    } else {
      assert r.phases[i].Done? && gens[i] == r.last;
    }
    forall j | 0 <= j < |gens| ensures PhaseOk(gens, r, j) { assert PhaseOk(gens, n, j); }
    forall k | 0 <= k < |n.log| ensures EntryOk(gens, r, k) { assert EntryOk(gens, n, k); }
  }

  // ---- Runs ----

  /** All interleavings: any number of requests, their steps in any order, applies that fail. */
  ghost predicate IsRun(gens: seq<int>, start: int, evs: seq<Event>, states: seq<Node>) {
    |states| == |evs| + 1
    && states[0] == Node(start, seq(|gens|, _ => Fresh), [], [])
    && (forall t :: 0 <= t < |states| ==> |states[t].phases| == |gens|)
    && forall t :: 0 <= t < |evs| ==>
      Possible(states[t], evs[t]) && states[t + 1] == Step(gens, states[t], evs[t])
  }

  /** In every run, a request whose state could not be applied is in no log and moves no gate,
      then or later. */
  lemma {:induction false} FailedIsNotApplied(gens: seq<int>, start: int, evs: seq<Event>, states: seq<Node>, k: nat, t: nat)
    requires IsRun(gens, start, evs, states) && k < t <= |evs| && evs[k].Finish? && !evs[k].ok
    ensures states[k + 1].log == states[k].log && states[k + 1].last == states[k].last
    ensures evs[k].i < |gens| && states[t].phases[evs[k].i] == Failed && evs[k].i !in states[t].log
    decreases t
  {
    var i := evs[k].i;
    assert Possible(states[k], evs[k]) && states[k + 1] == Step(gens, states[k], evs[k]);
    if t > k + 1 {
      FailedIsNotApplied(gens, start, evs, states, k, t - 1);
      assert Possible(states[t - 1], evs[t - 1]) && states[t - 1 + 1] == Step(gens, states[t - 1], evs[t - 1]);
    }
    RunKeeps(gens, start, evs, states, t);
    forall j | 0 <= j < |states[t].log| ensures states[t].log[j] != i { assert EntryOk(gens, states[t], j); }
  }

  lemma StepKeeps(gens: seq<int>, n: Node, start: int, ev: Event)
    requires Inv(gens, n, start) && Possible(n, ev)
    ensures Inv(gens, Step(gens, n, ev), start)
    ensures Step(gens, n, ev).last >= n.last
  {
    match ev
    case Check(i) => CheckKeeps(gens, n, start, i);
    case Finish(i, ok) => FinishKeeps(gens, n, start, i, ok);
    case Commit(i) => CommitKeeps(gens, n, start, i);
  }

  lemma {:induction false} RunKeeps(gens: seq<int>, start: int, evs: seq<Event>, states: seq<Node>, t: nat)
    requires IsRun(gens, start, evs, states) && t <= |evs|
    ensures Inv(gens, states[t], start)
  {
    if t > 0 {
      RunKeeps(gens, start, evs, states, t - 1);
      StepKeeps(gens, states[t - 1], start, evs[t - 1]);
    } else {
      forall i | 0 <= i < |gens| ensures PhaseOk(gens, states[0], i) { assert states[0].phases[i].Fresh?; }
    }
  }

  lemma {:induction false} GateNeverFalls(gens: seq<int>, start: int, evs: seq<Event>, states: seq<Node>, t: nat, u: nat)
    requires IsRun(gens, start, evs, states) && t <= u <= |evs|
    ensures states[t].last <= states[u].last
    decreases u
  {
    if t < u {
      GateNeverFalls(gens, start, evs, states, t, u - 1);
      RunKeeps(gens, start, evs, states, u - 1);
      StepKeeps(gens, states[u - 1], start, evs[u - 1]);
    }
  }

  /** In every run the gate only rises and is at the highest generation committed so far. */
  lemma GateIsHighestCommitted(gens: seq<int>, start: int, evs: seq<Event>, states: seq<Node>, t: nat)
    requires IsRun(gens, start, evs, states) && t <= |evs|
    ensures forall i :: 0 <= i < |gens| && states[t].phases[i].Done? ==> gens[i] <= states[t].last
    ensures GateOk(gens, states[t], start)
  {
    RunKeeps(gens, start, evs, states, t);
    forall i | 0 <= i < |gens| && states[t].phases[i].Done? ensures gens[i] <= states[t].last {
      assert PhaseOk(gens, states[t], i);
    }
  }

  /** A request is let in if and only if no generation as high has been committed by then (nor
      held at the start): replays are refused, and what failed can be tried again. */
  lemma LetInIffNewer(gens: seq<int>, start: int, evs: seq<Event>, states: seq<Node>, t: nat)
    requires IsRun(gens, start, evs, states) && t < |evs| && evs[t].Check?
    ensures states[t + 1].phases[evs[t].i].Running? <==>
      gens[evs[t].i] > start
      && forall j :: 0 <= j < |gens| && states[t].phases[j].Done? ==> gens[j] < gens[evs[t].i]
  {
    GateIsHighestCommitted(gens, start, evs, states, t);
    assert Possible(states[t], evs[t]) && states[t + 1] == Step(gens, states[t], evs[t]);
  }

  // ---- The order in which states are applied ----

  /** The state applied as number `k` is newer than the one applied as number `j`. */
  predicate Newer(gens: seq<int>, log: seq<nat>, j: nat, k: nat) {
    j < |log| && k < |log| && log[j] < |gens| && log[k] < |gens| && gens[log[j]] < gens[log[k]]
  }

  ghost predicate Increasing(gens: seq<int>, log: seq<nat>) {
    forall j: nat, k: nat :: j < k < |log| ==> Newer(gens, log, j, k)
  }

  /** `k` was applied after `j`, but let in before `j` was committed. */
  predicate Overlaps(n: Node, j: nat, k: nat) {
    j < k < |n.log| && k < |n.seen| && j !in n.seen[k]
  }

  /** States are applied in strictly rising order if and only if every applied request is newer
      than those it overlapped: all others the gate takes care of. */
  lemma RisingIffOverlapsRise(gens: seq<int>, start: int, evs: seq<Event>, states: seq<Node>, t: nat)
    requires IsRun(gens, start, evs, states) && t <= |evs|
    ensures var n := states[t];
      Increasing(gens, n.log) <==>
      forall j: nat, k: nat :: Overlaps(n, j, k) ==> Newer(gens, n.log, j, k)
  {
    var n := states[t];
    RunKeeps(gens, start, evs, states, t);
    forall j: nat, k: nat | j < k < |n.log| ensures Newer(gens, n.log, j, k) || Overlaps(n, j, k) {
      assert EntryOk(gens, n, k) && EntryOk(gens, n, j);
    }
  }

  predicate Active(p: Phase) {
    p.Running? || p.Applied?
  }

  /** One request at a time is between its check and its commit. */
  ghost predicate OneAtATime(n: Node) {
    forall i, j :: 0 <= i < j < |n.phases| && Active(n.phases[i]) ==> !Active(n.phases[j])
  }

  /** Whoever is let in has seen the whole log. */
  ghost predicate SeesAll(n: Node) {
    (forall i, k: nat :: 0 <= i < |n.phases| && n.phases[i].Running? && k < |n.log| ==> k in n.phases[i].seen)
    && (forall j: nat, k: nat :: !Overlaps(n, j, k))
  }

  lemma OneAtATimeSees(gens: seq<int>, n: Node, start: int, ev: Event)
    requires Inv(gens, n, start) && Possible(n, ev) && SeesAll(n) && OneAtATime(n) && OneAtATime(Step(gens, n, ev))
    ensures SeesAll(Step(gens, n, ev))
  {
    var r := Step(gens, n, ev);
    if ev.Check? && r.phases[ev.i].Running? {
      forall k: nat | k < |n.log| ensures k in Committed(n.phases) {
        assert EntryOk(gens, n, k);
        var j := n.log[k];
        assert j != ev.i && r.phases[j] == n.phases[j] && Active(r.phases[ev.i]);
        assert !Active(r.phases[j]);
        assert n.phases[j] == Done(k);
      }
      forall j: nat, k: nat ensures !Overlaps(r, j, k) { assert !Overlaps(n, j, k); }
    } else if ev.Finish? && ev.ok {
      forall j: nat | 0 <= j < |n.phases| && j != ev.i ensures !r.phases[j].Running? {
        assert Active(n.phases[ev.i]) && r.phases[j] == n.phases[j];
      }
      forall j: nat, k: nat ensures !Overlaps(r, j, k) {
        assert !Overlaps(n, j, k);
        if j < k == |n.log| { assert j in n.phases[ev.i].seen; }
      }
    } else {
      forall j: nat, k: nat ensures !Overlaps(r, j, k) { assert !Overlaps(n, j, k); }
    }
  }

  lemma {:induction false} OneAtATimeRun(gens: seq<int>, start: int, evs: seq<Event>, states: seq<Node>, t: nat)
    requires IsRun(gens, start, evs, states) && t <= |evs|
    requires forall u :: 0 <= u <= t ==> OneAtATime(states[u])
    ensures SeesAll(states[t])
  {
    if t > 0 {
      OneAtATimeRun(gens, start, evs, states, t - 1);
      RunKeeps(gens, start, evs, states, t - 1);
      assert OneAtATime(states[t - 1]) && OneAtATime(states[t]);
      OneAtATimeSees(gens, states[t - 1], start, evs[t - 1]);
    }
  }

  /** If requests are handled one at a time, states are applied in strictly rising order. */
  lemma OneAtATimeRises(gens: seq<int>, start: int, evs: seq<Event>, states: seq<Node>)
    requires IsRun(gens, start, evs, states) && forall u :: 0 <= u <= |evs| ==> OneAtATime(states[u])
    ensures Increasing(gens, states[|evs|].log)
  {
    OneAtATimeRun(gens, start, evs, states, |evs|);
    RisingIffOverlapsRise(gens, start, evs, states, |evs|);
  }

  /** Two requests let in together can be applied newest first, and the node is then left with
      the older state while the gate stands at the newer generation. */
  lemma OlderStateCanWin() returns (gens: seq<int>, evs: seq<Event>, states: seq<Node>)
    ensures IsRun(gens, 0, evs, states) && |states| > 0
    ensures var n := states[|states| - 1]; n.log == [0, 1] && gens == [2, 1] && n.last == 2
  {
    gens := [2, 1];
    evs := [Check(0), Check(1), Finish(0, true), Commit(0), Finish(1, true), Commit(1)];
    var s0 := Node(0, [Fresh, Fresh], [], []);
    assert s0.phases == seq(2, _ => Fresh);
    var s1 := Node(0, [Running({}), Fresh], [], []);
    var s2 := Node(0, [Running({}), Running({})], [], []);
    var s3 := Node(0, [Applied(0), Running({})], [0], [{}]);
    var s4 := Node(2, [Done(0), Running({})], [0], [{}]);
    var s5 := Node(2, [Done(0), Applied(1)], [0, 1], [{}, {}]);
    var s6 := Node(2, [Done(0), Done(1)], [0, 1], [{}, {}]);
    assert Committed(s0.phases) == {} && Committed(s1.phases) == {};
    assert Step(gens, s0, evs[0]) == s1;
    assert Step(gens, s1, evs[1]) == s2;
    assert Step(gens, s2, evs[2]) == s3;
    assert Step(gens, s3, evs[3]) == s4;
    assert Step(gens, s4, evs[4]) == s5;
    assert Step(gens, s5, evs[5]) == s6;
    states := [s0, s1, s2, s3, s4, s5, s6];
  }

  // ---- The handler ----

  datatype Reply = Ok | Conflict | ServerError

  class Server {
    var lastGeneration: int

    constructor ()
      ensures lastGeneration == 0
    {
      lastGeneration := 0;
    }

    /** The first locked section. */
    method LetIn(g: int) returns (ok: bool)
      ensures ok <==> g > lastGeneration
    {
      ok := !(g <= lastGeneration);
    }

    /** The second locked section. */
    method Commit(g: int)
      modifies this
      ensures lastGeneration == Max(old(lastGeneration), g)
    {
      if g > lastGeneration { lastGeneration := g; }
    }

    /** `handleApply` with nobody else in it; `works` is what the runner says. */
    method HandleApply(g: int, works: bool) returns (reply: Reply)
      modifies this
      ensures reply == if g <= old(lastGeneration) then Conflict else if works then Ok else ServerError
      ensures lastGeneration == if reply == Ok then g else old(lastGeneration)
      ensures lastGeneration > old(lastGeneration) <==> reply == Ok
    {
      var ok := LetIn(g);
      if !ok { return Conflict; }
      if !works { return ServerError; }
      Commit(g);
      reply := Ok;
    }
  }
}
