/** What the rounds of `Failover` prefer and when they switch, in terms of what was measured. */
module FailoverChoice {
  import opened Options
  import opened Failover

  predicate Rival(s: State, r: Round, i: nat) {
    Fits(s, r) && i < |s.cands| && i != s.active
  }

  predicate Answered(s: State, r: Round, i: nat) {
    Rival(s, r, i) && r.probes[i].Some?
  }

  predicate Failed(s: State, r: Round, i: nat) {
    Rival(s, r, i) && r.probes[i].None?
  }

  /** Candidate `i` is clearly better than the active path in this round. */
  predicate Clear(s: State, cfg: Config, r: Round, i: nat)
    requires Rival(s, r, i)
  {
    Eligible(ProbedAll(s, r), s.active, cfg, r, i)
  }

  /** An answering candidate is clearly better if its round trip plus the margin is below the
      active one's, with twenty milliseconds for every percent the active path loses; one that
      does not answer counts as a round trip of four seconds. Before the active path is
      measured every candidate is. */
  lemma ClearIff(s: State, cfg: Config, r: Round, i: nat)
    requires Rival(s, r, i)
    ensures Clear(s, cfg, r, i) <==>
            || r.rtt == 0.0
            || (if r.probes[i].Some? then r.probes[i].value else 4000.0) + cfg.margin < r.rtt + 20.0 * r.loss
  {
  }

  /** A failed candidate is not selected while one answered in less than four seconds; probes
      wait for one and a half. */
  lemma FailedIsNotBest(s: State, cfg: Config, r: Round, i: nat, j: nat)
    requires Failed(s, r, i) && Answered(s, r, j) && r.probes[j].value < 4000.0
    ensures BestOf(s, cfg, r) != Some(i)
  {
    ClearIff(s, cfg, r, i);
    ClearIff(s, cfg, r, j);
  }

  /** Of two that answered the faster is preferred, of equals the one configured first. */
  lemma FasterIsPreferred(s: State, cfg: Config, r: Round, i: nat, j: nat)
    requires Answered(s, r, i) && Answered(s, r, j)
    requires r.probes[i].value < r.probes[j].value || (r.probes[i].value == r.probes[j].value && i < j)
    ensures BestOf(s, cfg, r) != Some(j)
  {
    ClearIff(s, cfg, r, i);
    ClearIff(s, cfg, r, j);
  }

  /** Somebody is selected if and only if somebody is clearly better. */
  lemma SelectsIff(s: State, cfg: Config, r: Round)
    requires Fits(s, r)
    ensures BestOf(s, cfg, r).Some? <==> exists i :: Rival(s, r, i) && Clear(s, cfg, r, i)
  {
    var b := BestOf(s, cfg, r);
    if b.Some? {
      assert Rival(s, r, b.value) && Clear(s, cfg, r, b.value);
    } else {
      forall i | Rival(s, r, i) ensures !Clear(s, cfg, r, i) { }
    }
  }

  /** More loss on the active path takes nobody's place: who was clearly better still is, and
      the selected one stays selected. */
  lemma MoreLossKeepsTheBest(s: State, cfg: Config, r: Round, loss: real)
    requires Fits(s, r) && loss >= r.loss
    ensures forall i :: Rival(s, r, i) && Clear(s, cfg, r, i) ==> Clear(s, cfg, r.(loss := loss), i)
    ensures BestOf(s, cfg, r).Some? ==> BestOf(s, cfg, r.(loss := loss)) == BestOf(s, cfg, r)
  {
    var r' := r.(loss := loss);
    assert ProbedAll(s, r') == ProbedAll(s, r);
    forall i | Rival(s, r, i) && Clear(s, cfg, r, i) ensures Clear(s, cfg, r', i) {
      ClearIff(s, cfg, r, i);
      ClearIff(s, cfg, r', i);
    }
    var b, b' := BestOf(s, cfg, r), BestOf(s, cfg, r');
    if b.Some? {
      assert Rival(s, r, b.value) && Clear(s, cfg, r, b.value);
      assert Clear(s, cfg, r', b.value);
      ClearIff(s, cfg, r, b'.value);
      ClearIff(s, cfg, r', b'.value);
    }
  }

  /** With enough loss every candidate that answers is clearly better. */
  lemma EnoughLoss(s: State, cfg: Config, r: Round) returns (bound: real)
    requires Fits(s, r)
    ensures forall loss, i: nat :: loss >= bound && Answered(s, r, i) ==> Clear(s, cfg, r.(loss := loss), i)
  {
    var worst := Slowest(r.probes, |r.probes|);
    bound := (worst + cfg.margin - r.rtt) / 20.0 + 1.0;
    forall loss, i: nat | loss >= bound && Answered(s, r, i) ensures Clear(s, cfg, r.(loss := loss), i) {
      assert r.probes[i].value <= worst;
      ClearIff(s, cfg, r.(loss := loss), i);
    }
  }

  ghost function Slowest(probes: seq<Option<real>>, n: nat): (t: real)
    requires n <= |probes|
    ensures forall i :: 0 <= i < n && probes[i].Some? ==> probes[i].value <= t
  {
    if n == 0 then 0.0
    else
      var t := Slowest(probes, n - 1);
      if probes[n - 1].Some? && probes[n - 1].value > t then probes[n - 1].value else t
  }

  // ---- when a round switches --------------------------------------------------------------

  /** A failed probe clears the streak before the round is counted. */
  lemma FailureClearsTheStreak(s: State, cfg: Config, r: Round, i: nat)
    requires Failed(s, r, i)
    ensures AfterRound(s, cfg, r).cands[i].better ==
            if BestOf(s, cfg, r) == Some(i) && !Switches(s, cfg, r) then 1 else 0
  {
  }

  /** One round on the counter of the candidate that led it. */
  lemma LeadCounts(s: State, cfg: Config, r: Round, i: nat)
    requires Rival(s, r, i) && BestOf(s, cfg, r) == Some(i)
    ensures CountedOf(s, cfg, r)[i].better == if r.probes[i].Some? then s.cands[i].better + 1 else 1
    ensures !Switches(s, cfg, r) ==> AfterRound(s, cfg, r).cands[i] == CountedOf(s, cfg, r)[i]
  {
  }

  /** Candidate `i` led the `n` rounds before `k`, and answered in all but the first of them. */
  ghost predicate Leads(cfg: Config, rs: seq<Round>, ss: seq<State>, k: nat, i: nat, n: nat) {
    && n <= k <= |rs| < |ss|
    && (forall j :: k - n <= j < k ==> Led(cfg, rs, ss, j, i))
    && (forall j :: k - n < j < k ==> Answered(ss[j], rs[j], i))
  }

  lemma LedIsRival(cfg: Config, rs: seq<Round>, ss: seq<State>, j: nat, i: nat)
    requires Led(cfg, rs, ss, j, i)
    ensures Rival(ss[j], rs[j], i)
  {
  }

  lemma LeadsLess(cfg: Config, rs: seq<Round>, ss: seq<State>, k: nat, i: nat, n: nat)
    requires n > 0 && Leads(cfg, rs, ss, k, i, n)
    ensures Leads(cfg, rs, ss, k - 1, i, n - 1) && Led(cfg, rs, ss, k - 1, i)
    ensures n > 1 ==> Answered(ss[k - 1], rs[k - 1], i)
  {
  }

  /** One round of a run that `i` led, on its counter. */
  lemma LedRound(cfg: Config, rs: seq<Round>, ss: seq<State>, k: nat, i: nat)
    requires IsRun(cfg, rs, ss) && 0 < k <= |rs| && Led(cfg, rs, ss, k - 1, i)
    ensures i < |ss[k].cands| && i < |ss[k - 1].cands|
    ensures ss[k].cands[i].better == if Answered(ss[k - 1], rs[k - 1], i) then ss[k - 1].cands[i].better + 1 else 1
  {
    LedIsRival(cfg, rs, ss, k - 1, i);
    LeadCounts(ss[k - 1], cfg, rs[k - 1], i);
    assert ss[k] == AfterRound(ss[k - 1], cfg, rs[k - 1]);
  }

  lemma ActiveIsNotCounted(cfg: Config, rs: seq<Round>, ss: seq<State>, k: nat)
    requires IsRun(cfg, rs, ss) && k < |rs|
    ensures ss[k].cands[ss[k].active].better == 0
  {
    CounterIsStreak(cfg, rs, ss, k, 0);
  }

  lemma OnlyTheBestCounts(s: State, cfg: Config, r: Round, s': State, i: nat)
    requires Fits(s, r) && s' == AfterRound(s, cfg, r) && i < |s'.cands| && s'.cands[i].better > 0
    requires s.cands[s.active].better == 0
    ensures BestOf(s, cfg, r) == Some(i) && !Switches(s, cfg, r)
  {
    RoundCounts(s, cfg, r, i);
  }

  lemma OnlyLeadersCount(cfg: Config, rs: seq<Round>, ss: seq<State>, k: nat, i: nat)
    requires IsRun(cfg, rs, ss) && 0 < k <= |rs| && i < |ss[k].cands| && ss[k].cands[i].better > 0
    ensures Led(cfg, rs, ss, k - 1, i)
  {
    var j := k - 1;
    assert Fits(ss[j], rs[j]) && ss[j + 1] == AfterRound(ss[j], cfg, rs[j]);
    ActiveIsNotCounted(cfg, rs, ss, j);
    OnlyTheBestCounts(ss[j], cfg, rs[j], ss[k], i);
  }

  lemma {:induction false} CounterCovers(cfg: Config, rs: seq<Round>, ss: seq<State>, k: nat, i: nat, n: nat)
    requires IsRun(cfg, rs, ss) && Leads(cfg, rs, ss, k, i, n)
    ensures n > 0 ==> i < |ss[k].cands| && ss[k].cands[i].better >= n
    decreases n
  {
    if n > 0 {
      LeadsLess(cfg, rs, ss, k, i, n);
      CounterCovers(cfg, rs, ss, k - 1, i, n - 1);
      LedRound(cfg, rs, ss, k, i);
    }
  }

  lemma LeadsMore(cfg: Config, rs: seq<Round>, ss: seq<State>, k: nat, i: nat, n: nat)
    requires n > 0 && k > 0 && Leads(cfg, rs, ss, k - 1, i, n - 1) && k <= |rs| && Led(cfg, rs, ss, k - 1, i)
    requires n > 1 ==> Answered(ss[k - 1], rs[k - 1], i)
    ensures Leads(cfg, rs, ss, k, i, n)
  {
    forall j | k - n < j < k ensures Answered(ss[j], rs[j], i) { }
  }

  lemma {:induction false} CounterIsLead(cfg: Config, rs: seq<Round>, ss: seq<State>, k: nat, i: nat, n: nat)
    requires IsRun(cfg, rs, ss) && k <= |rs| && i < |ss[k].cands| && n == ss[k].cands[i].better
    ensures Leads(cfg, rs, ss, k, i, n)
    decreases k
  {
    if k > 0 && n > 0 {
      OnlyLeadersCount(cfg, rs, ss, k, i);
      LedRound(cfg, rs, ss, k, i);
      if n > 1 { CounterIsLead(cfg, rs, ss, k - 1, i, n - 1); }
      LeadsMore(cfg, rs, ss, k, i, n);
    }
  }

  /** The rounds that must have been led before the one that switches. */
  function Before(cfg: Config): (n: nat) {
    if cfg.confirm > 1 then cfg.confirm - 1 else 0
  }

  /** In every run, round `k` switches to `c` if and only if the active path is measured, `c` is
      selected, it led the `confirm - 1` rounds before without a switch, it answered in each but
      the first of these `confirm` rounds, and its handshake works. */
  lemma SwitchesIff(cfg: Config, rs: seq<Round>, ss: seq<State>, k: nat, c: nat)
    requires IsRun(cfg, rs, ss) && k < |rs|
    ensures (ss[k + 1].active == c != ss[k].active) <==>
            && rs[k].rtt != 0.0 && rs[k].ack && BestOf(ss[k], cfg, rs[k]) == Some(c)
            && Leads(cfg, rs, ss, k, c, Before(cfg)) && (cfg.confirm > 1 ==> Answered(ss[k], rs[k], c))
  {
    var s, r := ss[k], rs[k];
    assert ss[k + 1] == AfterRound(s, cfg, r);
    if BestOf(s, cfg, r) == Some(c) {
      LeadCounts(s, cfg, r, c);
      CounterIsLead(cfg, rs, ss, k, c, s.cands[c].better);
      if Leads(cfg, rs, ss, k, c, Before(cfg)) { CounterCovers(cfg, rs, ss, k, c, Before(cfg)); }
    }
  }
}
