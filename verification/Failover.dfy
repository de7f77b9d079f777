/** Server selection of the multi-path client (`runHealthChecks` of core/multipath.go), with
    scores as reals. */
module Failover {
  import opened Options

  /** One configured server: rounds in a row it was best, and its last score. */
  datatype Candidate = Candidate(better: nat, score: real)

  datatype State = State(cands: seq<Candidate>, active: nat)

  datatype Config = Config(margin: real, confirm: int)

  /** What one round measures: the active path, each probe (None when it failed), and whether
      the handshake of a confirmed switch would succeed. */
  datatype Round = Round(rtt: real, loss: real, probes: seq<Option<real>>, ack: bool)

  function PathScore(rtt: real, loss: real): (s: real) {
    rtt + loss * 20.0
  }

  predicate Fits(s: State, r: Round) {
    s.active < |s.cands| == |r.probes|
  }

  function Probed(c: Candidate, probe: Option<real>): (c': Candidate) {
    match probe
    case None => Candidate(0, PathScore(2000.0, 100.0))
    case Some(rtt) => c.(score := PathScore(rtt, 0.0))
  }

  /** The candidates after their probes; the active one is not probed. */
  function ProbedAll(s: State, r: Round): (cs: seq<Candidate>)
    requires Fits(s, r)
    ensures |cs| == |s.cands|
    ensures forall i :: 0 <= i < |cs| ==> cs[i] == if i == s.active then s.cands[i] else Probed(s.cands[i], r.probes[i])
  {
    seq(|s.cands|, i requires 0 <= i < |s.cands| => if i == s.active then s.cands[i] else Probed(s.cands[i], r.probes[i]))
  }

  predicate Eligible(cs: seq<Candidate>, active: nat, cfg: Config, r: Round, i: nat)
    requires i < |cs|
  {
    i != active && (r.rtt == 0.0 || cs[i].score < PathScore(r.rtt, r.loss) - cfg.margin)
  }

  /** `b` is the selected best: eligible, no eligible one scores lower, the first of equals. */
  ghost predicate IsBest(cs: seq<Candidate>, active: nat, cfg: Config, r: Round, n: nat, b: Option<nat>)
    requires n <= |cs|
  {
    match b
    case None => forall i :: 0 <= i < n ==> !Eligible(cs, active, cfg, r, i)
    case Some(k) =>
      && k < n && Eligible(cs, active, cfg, r, k)
      && forall i :: 0 <= i < n && Eligible(cs, active, cfg, r, i) ==>
           cs[k].score <= cs[i].score && (cs[i].score == cs[k].score ==> k <= i)
  }

  function Best(cs: seq<Candidate>, active: nat, cfg: Config, r: Round, n: nat): (b: Option<nat>)
    requires n <= |cs|
    ensures IsBest(cs, active, cfg, r, n, b)
  {
    if n == 0 then None
    else
      var b := Best(cs, active, cfg, r, n - 1);
      if Eligible(cs, active, cfg, r, n - 1) && (b.None? || cs[n - 1].score < cs[b.value].score) then Some(n - 1) else b
  }

  function Counted(cs: seq<Candidate>, active: nat, best: Option<nat>): (cs': seq<Candidate>)
    ensures |cs'| == |cs|
    ensures forall i :: 0 <= i < |cs| ==>
              cs'[i] == if best == Some(i) then cs[i].(better := cs[i].better + 1)
                        else if i != active then cs[i].(better := 0) else cs[i]
  {
    seq(|cs|, i requires 0 <= i < |cs| =>
      if best == Some(i) then cs[i].(better := cs[i].better + 1)
      else if i != active then cs[i].(better := 0) else cs[i])
  }

  function BestOf(s: State, cfg: Config, r: Round): (b: Option<nat>)
    requires Fits(s, r)
  {
    Best(ProbedAll(s, r), s.active, cfg, r, |s.cands|)
  }

  function CountedOf(s: State, cfg: Config, r: Round): (cs: seq<Candidate>)
    requires Fits(s, r)
  {
    Counted(ProbedAll(s, r), s.active, BestOf(s, cfg, r))
  }

  /** The round switches: measured link, a best that is confirmed, and its handshake works. */
  predicate Switches(s: State, cfg: Config, r: Round)
    requires Fits(s, r)
  {
    var b := BestOf(s, cfg, r);
    r.rtt != 0.0 && b.Some? && CountedOf(s, cfg, r)[b.value].better >= cfg.confirm && r.ack
  }

  function AfterRound(s: State, cfg: Config, r: Round): (s': State)
    requires Fits(s, r)
    ensures |s'.cands| == |s.cands| && s'.active < |s.cands|
  {
    var cs := CountedOf(s, cfg, r);
    if Switches(s, cfg, r) then
      var b := BestOf(s, cfg, r).value;
      State(cs[b := cs[b].(better := 0)], b)
    else State(cs, s.active)
  }

  // ---- runs of rounds ---------------------------------------------------------------------

  ghost predicate IsRun(cfg: Config, rs: seq<Round>, ss: seq<State>) {
    && |ss| == |rs| + 1 && (forall i :: 0 <= i < |ss[0].cands| ==> ss[0].cands[i].better == 0)
    && forall k :: 0 <= k < |rs| ==> Fits(ss[k], rs[k]) && ss[k + 1] == AfterRound(ss[k], cfg, rs[k])
  }

  /** Candidate `i` was best in round `j`, and that round did not switch. */
  ghost predicate Led(cfg: Config, rs: seq<Round>, ss: seq<State>, j: nat, i: nat) {
    j < |rs| < |ss| && Fits(ss[j], rs[j]) && BestOf(ss[j], cfg, rs[j]) == Some(i) && !Switches(ss[j], cfg, rs[j])
  }

  /** One round on the counters: only the best's grows, by one at most, and a switch leaves
      them all at 0. */
  lemma RoundCounts(s: State, cfg: Config, r: Round, i: nat)
    requires Fits(s, r) && i < |s.cands| && s.cands[s.active].better == 0
    ensures var s' := AfterRound(s, cfg, r);
            && s'.cands[s'.active].better == 0
            && (Switches(s, cfg, r) || BestOf(s, cfg, r) != Some(i) ==> s'.cands[i].better == 0)
            && s'.cands[i].better <= s.cands[i].better + 1
  {
  }

  /** Candidate `i`'s counter claims no more than the streak behind it. */
  ghost predicate Streak(cfg: Config, rs: seq<Round>, ss: seq<State>, k: nat, i: nat) {
    k < |ss| && i < |ss[k].cands| ==>
      ss[k].cands[i].better <= k && forall j :: k - ss[k].cands[i].better <= j < k ==> Led(cfg, rs, ss, j, i)
  }

  lemma StreakGrows(cfg: Config, rs: seq<Round>, ss: seq<State>, k: nat, i: nat)
    requires 0 < k < |ss| && |ss[k - 1].cands| == |ss[k].cands| && Streak(cfg, rs, ss, k - 1, i)
    requires i < |ss[k].cands| ==>
               ss[k].cands[i].better == 0
               || (ss[k].cands[i].better <= ss[k - 1].cands[i].better + 1 && Led(cfg, rs, ss, k - 1, i))
    ensures Streak(cfg, rs, ss, k, i)
  {
  }

  lemma StreakStep(cfg: Config, rs: seq<Round>, ss: seq<State>, k: nat, i: nat)
    requires IsRun(cfg, rs, ss) && 0 < k <= |rs| && Streak(cfg, rs, ss, k - 1, i)
    requires ss[k - 1].cands[ss[k - 1].active].better == 0
    ensures Streak(cfg, rs, ss, k, i)
  {
    if i < |ss[k - 1].cands| { RoundCounts(ss[k - 1], cfg, rs[k - 1], i); }
    StreakGrows(cfg, rs, ss, k, i);
  }

  lemma {:induction false} CounterIsStreak(cfg: Config, rs: seq<Round>, ss: seq<State>, k: nat, i: nat)
    requires IsRun(cfg, rs, ss) && k < |rs|
    ensures ss[k].cands[ss[k].active].better == 0
    ensures Streak(cfg, rs, ss, k, i)
  {
    if k > 0 {
      CounterIsStreak(cfg, rs, ss, k - 1, i);
      RoundCounts(ss[k - 1], cfg, rs[k - 1], ss[k - 1].active);
      StreakStep(cfg, rs, ss, k, i);
    }
  }

  /** A switch to `c` in round `k` means that `c` was the selected best in each of the last
      `confirm` rounds, that none of the earlier ones of these switched, and that `c` beats
      the active path by more than the margin. */
  lemma SwitchIsConfirmed(cfg: Config, rs: seq<Round>, ss: seq<State>, k: nat)
    requires IsRun(cfg, rs, ss) && k < |rs| && Switches(ss[k], cfg, rs[k])
    ensures k + 1 >= cfg.confirm
    ensures var c := BestOf(ss[k], cfg, rs[k]).value;
            && ss[k + 1].active == c != ss[k].active
            && (forall j :: 0 <= j < k && k + 1 - cfg.confirm <= j ==> Led(cfg, rs, ss, j, c))
            && ProbedAll(ss[k], rs[k])[c].score < PathScore(rs[k].rtt, rs[k].loss) - cfg.margin
  {
    var c := BestOf(ss[k], cfg, rs[k]).value;
    CounterIsStreak(cfg, rs, ss, k, c);
    assert CountedOf(ss[k], cfg, rs[k])[c].better <= ss[k].cands[c].better + 1;
  }

  /** The active server changes only by a switch, and two switches are at least `confirm`
      rounds apart. */
  lemma SwitchesAreApart(cfg: Config, rs: seq<Round>, ss: seq<State>, j: nat, k: nat)
    requires IsRun(cfg, rs, ss) && j < k < |rs|
    requires ss[j + 1].active != ss[j].active && ss[k + 1].active != ss[k].active
    ensures k - j >= cfg.confirm
  {
    SwitchIsConfirmed(cfg, rs, ss, k);
    assert !Led(cfg, rs, ss, j, BestOf(ss[k], cfg, rs[k]).value);
  }

  // ---- the loops -----------------------------------------------------------------------------

  class Client {
    var cands: seq<Candidate>
    var active: nat

    constructor (n: nat)
      requires n > 0
      ensures |cands| == n && active == 0 && forall i :: 0 <= i < n ==> cands[i].better == 0
    {
      cands, active := seq(n, _ => Candidate(0, 0.0)), 0;
    }

    ghost function View(): (s: State)
      reads this
    {
      State(cands, active)
    }

    method Probe(r: Round)
      requires Fits(View(), r)
      modifies `cands
      ensures cands == ProbedAll(old(View()), r)
    {
      for i := 0 to |cands|
        invariant |cands| == |old(cands)|
        invariant forall j :: 0 <= j < |cands| ==>
                    cands[j] == if j < i && j != active then Probed(old(cands)[j], r.probes[j]) else old(cands)[j]
      {
        if i == active { continue; }
        cands := cands[i := Probed(cands[i], r.probes[i])];
      }
    }

    method Select(cfg: Config, r: Round) returns (best: Option<nat>)
      requires Fits(View(), r)
      ensures best == Best(cands, active, cfg, r, |cands|)
    {
      var bestScore := PathScore(r.rtt, r.loss);
      best := None;
      for i := 0 to |cands|
        invariant best == Best(cands, active, cfg, r, i)
        invariant best.Some? ==> bestScore == cands[best.value].score
      {
        if i == active { continue; }
        if r.rtt == 0.0 || cands[i].score < PathScore(r.rtt, r.loss) - cfg.margin {
          if best.None? || cands[i].score < bestScore {
            best, bestScore := Some(i), cands[i].score;
          }
        }
      }
    }

    method Count(best: Option<nat>)
      requires active < |cands|
      modifies `cands
      ensures cands == Counted(old(cands), active, best)
    {
      for i := 0 to |cands|
        invariant |cands| == |old(cands)|
        invariant forall j :: 0 <= j < i ==> cands[j] == Counted(old(cands), active, best)[j]
        invariant forall j :: i <= j < |cands| ==> cands[j] == old(cands)[j]
      {
        if best == Some(i) {
          cands := cands[i := cands[i].(better := cands[i].better + 1)];
        } else if i != active {
          cands := cands[i := cands[i].(better := 0)];
        }
      }
    }

    method RunHealthChecks(cfg: Config, r: Round)
      requires Fits(View(), r)
      modifies this
      ensures View() == AfterRound(old(View()), cfg, r)
    {
      Probe(r);
      var best := Select(cfg, r);
      Count(best);
      if r.rtt == 0.0 || best.None? || cands[best.value].better < cfg.confirm { return; }
      if !r.ack { return; }
      active := best.value;
      cands := cands[active := cands[active].(better := 0)];
    }
  }
}
