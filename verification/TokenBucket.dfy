/** The bandwidth cap of core/ratelimit.go over real numbers and a monotone clock. */
module TokenBucket {
  datatype Bucket = Bucket(capacity: real, tokens: real, fill: real, last: real)

  ghost predicate Ok(b: Bucket) {
    0.0 <= b.tokens <= b.capacity && b.fill > 0.0
  }

  function NewBucket(mbps: real, now: real): (b: Bucket) {
    var bytesPerSec := mbps * 1000000.0 / 8.0;
    Bucket(bytesPerSec, bytesPerSec, bytesPerSec, now)
  }

  /** The level after `inflow` bytes ran into the bucket, never above its capacity. */
  function Topped(b: Bucket, inflow: real, now: real): (b': Bucket) {
    b.(tokens := if b.tokens + inflow > b.capacity then b.capacity else b.tokens + inflow, last := now)
  }

  /** What flows in during `dt`. */
  function Inflow(dt: real, fill: real): (f: real)
    ensures dt >= 0.0 && fill > 0.0 ==> f >= 0.0
  {
    dt * fill
  }

  function Refilled(b: Bucket, now: real): (b': Bucket) {
    Topped(b, Inflow(now - b.last, b.fill), now)
  }

  /** One turn of the loop in `wait`: refill, then take `n` tokens if they are there. */
  predicate Granted(b: Bucket, now: real, n: nat) {
    Refilled(b, now).tokens >= n as real
  }

  function Polled(b: Bucket, now: real, n: nat): (b': Bucket) {
    var r := Refilled(b, now);
    if Granted(b, now, n) then r.(tokens := r.tokens - n as real) else r
  }

  lemma ToppedKeeps(b: Bucket, inflow: real, now: real)
    requires Ok(b) && inflow >= 0.0
    ensures Ok(Topped(b, inflow, now))
  {
  }

  lemma TakenKeeps(r: Bucket, n: nat)
    requires Ok(r)
    ensures r.tokens >= n as real ==> Ok(r.(tokens := r.tokens - n as real))
  {
  }

  lemma PollKeeps(b: Bucket, now: real, n: nat)
    requires Ok(b) && b.last <= now
    ensures Ok(Polled(b, now, n)) && Polled(b, now, n).last == now
  {
    var inflow := Inflow(now - b.last, b.fill);
    ToppedKeeps(b, inflow, now);
    TakenKeeps(Topped(b, inflow, now), n);
  }

  lemma Grows(fill: real, dt: real)
    requires fill > 0.0 && dt >= 0.0
    ensures dt * fill >= 0.0
  {
  }

  // ---- any sequence of polls -----------------------------------------------------------------

  /** A poll of some caller of `wait`, at some time. */
  datatype Poll = Poll(now: real, n: nat)

  /** `bs[k]` is the bucket after `k` polls; the clock does not run backwards. */
  ghost predicate IsRun(ps: seq<Poll>, bs: seq<Bucket>) {
    && |bs| == |ps| + 1 && Ok(bs[0])
    && forall k :: 0 <= k < |ps| ==> bs[k].last <= ps[k].now && bs[k + 1] == Polled(bs[k], ps[k].now, ps[k].n)
  }

  /** Bytes granted by polls i..j-1. */
  ghost function Bytes(ps: seq<Poll>, bs: seq<Bucket>, i: nat, j: nat): (total: nat)
    requires i <= j <= |ps| < |bs|
    decreases j - i
  {
    if i == j then 0
    else Bytes(ps, bs, i, j - 1) + if Granted(bs[j - 1], ps[j - 1].now, ps[j - 1].n) then ps[j - 1].n else 0
  }

  lemma {:induction false} RunKeeps(ps: seq<Poll>, bs: seq<Bucket>, k: nat)
    requires IsRun(ps, bs) && k <= |ps|
    ensures Ok(bs[k]) && bs[k].capacity == bs[0].capacity && bs[k].fill == bs[0].fill
    ensures k > 0 ==> bs[k].last == ps[k - 1].now
  {
    if k > 0 {
      RunKeeps(ps, bs, k - 1);
      PollKeeps(bs[k - 1], ps[k - 1].now, ps[k - 1].n);
    }
  }

  function Given(b: Bucket, now: real, n: nat): (g: real) {
    if Granted(b, now, n) then n as real else 0.0
  }

  lemma Distrib(fill: real, a: real, b: real)
    ensures (b - a) * fill == b * fill - a * fill
  {
  }

  lemma OnePoll(b: Bucket, now: real, n: nat)
    ensures Polled(b, now, n).tokens + Given(b, now, n) <= b.tokens + now * b.fill - b.last * b.fill
    ensures Polled(b, now, n).tokens + Given(b, now, n) <= b.capacity
  {
    Distrib(b.fill, b.last, now);
  }

  ghost function Sum(xs: seq<real>, i: nat, j: nat): (t: real)
    requires i <= j <= |xs|
    decreases j - i
  {
    if i == j then 0.0 else Sum(xs, i, j - 1) + xs[j - 1]
  }

  /** The bookkeeping of a run: levels before each poll, grants, and the total that has
      flowed in by each poll. */
  ghost predicate Ledger(level: seq<real>, grant: seq<real>, flowed: seq<real>, cap: real) {
    && |level| == |grant| + 1 == |flowed| + 1
    && (forall k :: 0 <= k < |grant| ==> level[k + 1] + grant[k] <= cap)
    && (forall k :: 0 < k < |grant| ==> level[k + 1] + grant[k] <= level[k] + flowed[k] - flowed[k - 1])
  }

  /** What was granted since poll `i`, plus what is left, is at most a full bucket plus what
      flowed in since. */
  lemma {:induction false} LedgerBound(level: seq<real>, grant: seq<real>, flowed: seq<real>, cap: real, i: nat, j: nat)
    requires Ledger(level, grant, flowed, cap) && i < j <= |grant|
    ensures Sum(grant, i, j) + level[j] <= cap + flowed[j - 1] - flowed[i]
    decreases j
  {
    assert level[j] + grant[j - 1] <= cap;
    if j == i + 1 {
      assert Sum(grant, i, i) == 0.0;
    } else {
      LedgerBound(level, grant, flowed, cap, i, j - 1);
    }
  }

  ghost function Levels(bs: seq<Bucket>): (s: seq<real>) {
    seq(|bs|, k requires 0 <= k < |bs| => bs[k].tokens)
  }

  ghost function Grants(ps: seq<Poll>, bs: seq<Bucket>): (s: seq<real>)
    requires |ps| < |bs|
  {
    seq(|ps|, k requires 0 <= k < |ps| => Given(bs[k], ps[k].now, ps[k].n))
  }

  ghost function Flowed(ps: seq<Poll>, fill: real): (s: seq<real>) {
    seq(|ps|, k requires 0 <= k < |ps| => ps[k].now * fill)
  }

  lemma LedgerLine(ps: seq<Poll>, bs: seq<Bucket>, k: nat)
    requires IsRun(ps, bs) && k < |ps|
    ensures bs[k + 1].tokens + Given(bs[k], ps[k].now, ps[k].n) <= bs[0].capacity
    ensures k > 0 ==> bs[k + 1].tokens + Given(bs[k], ps[k].now, ps[k].n)
                      <= bs[k].tokens + ps[k].now * bs[0].fill - ps[k - 1].now * bs[0].fill
  {
    RunKeeps(ps, bs, k);
    OnePoll(bs[k], ps[k].now, ps[k].n);
  }

  lemma LedgerEntry(ps: seq<Poll>, bs: seq<Bucket>, k: nat)
    requires IsRun(ps, bs) && k < |ps|
    ensures Levels(bs)[k + 1] + Grants(ps, bs)[k] <= bs[0].capacity
    ensures k > 0 ==> Levels(bs)[k + 1] + Grants(ps, bs)[k]
                      <= Levels(bs)[k] + Flowed(ps, bs[0].fill)[k] - Flowed(ps, bs[0].fill)[k - 1]
  {
    LedgerLine(ps, bs, k);
  }

  lemma RunIsLedger(ps: seq<Poll>, bs: seq<Bucket>)
    requires IsRun(ps, bs)
    ensures Ledger(Levels(bs), Grants(ps, bs), Flowed(ps, bs[0].fill), bs[0].capacity)
  {
    forall k | 0 <= k < |ps|
      ensures Levels(bs)[k + 1] + Grants(ps, bs)[k] <= bs[0].capacity
      ensures k > 0 ==> Levels(bs)[k + 1] + Grants(ps, bs)[k]
                        <= Levels(bs)[k] + Flowed(ps, bs[0].fill)[k] - Flowed(ps, bs[0].fill)[k - 1]
    {
      LedgerEntry(ps, bs, k);
    }
  }

  lemma {:induction false} BytesAreGrants(ps: seq<Poll>, bs: seq<Bucket>, i: nat, j: nat)
    requires i <= j <= |ps| < |bs|
    ensures Bytes(ps, bs, i, j) as real == Sum(Grants(ps, bs), i, j)
    decreases j - i
  {
    if i < j { BytesAreGrants(ps, bs, i, j - 1); }
  }

  /** In every run, the bytes granted by polls i..j-1 are at most the capacity plus the fill
      rate times the time between the first and the last of them. */
  lemma WindowIsBounded(ps: seq<Poll>, bs: seq<Bucket>, i: nat, j: nat)
    requires IsRun(ps, bs) && i < j <= |ps|
    ensures Bytes(ps, bs, i, j) as real <= bs[0].capacity + (ps[j - 1].now - ps[i].now) * bs[0].fill
  {
    var flowed := Flowed(ps, bs[0].fill);
    RunKeeps(ps, bs, j);
    Distrib(bs[0].fill, ps[i].now, ps[j - 1].now);
    assert flowed[j - 1] - flowed[i] == (ps[j - 1].now - ps[i].now) * bs[0].fill;
    RunIsLedger(ps, bs);
    LedgerBound(Levels(bs), Grants(ps, bs), flowed, bs[0].capacity, i, j);
    BytesAreGrants(ps, bs, i, j);
  }

  /** In every run of a bucket made for `mbps`: no more bits are granted than `mbps` million for
      every second between the first poll and the last, and one second's more. */
  lemma RateIsMegabits(mbps: real, start: real, ps: seq<Poll>, bs: seq<Bucket>, i: nat, j: nat, bits: real, seconds: real)
    requires IsRun(ps, bs) && bs[0] == NewBucket(mbps, start) && i < j <= |ps|
    requires bits == mbps * 1000000.0 && seconds == ps[j - 1].now - ps[i].now
    ensures 8.0 * Bytes(ps, bs, i, j) as real <= (1.0 + seconds) * bits
  {
    WindowIsBounded(ps, bs, i, j);
    InBits(bs[0].fill, bits, seconds, Bytes(ps, bs, i, j) as real);
  }

  lemma InBits(rate: real, bits: real, dt: real, granted: real)
    requires rate == bits / 8.0 && granted <= rate + dt * rate
    ensures 8.0 * granted <= (1.0 + dt) * bits
  {
    assert 8.0 * (dt * rate) == dt * (8.0 * rate);
    assert (1.0 + dt) * bits == bits + dt * bits;
  }

  /** As much can be had: polls a second and more apart, each for no more than a second's bits,
      are all granted. */
  lemma SecondsWorthIsGranted(mbps: real, start: real, ps: seq<Poll>, bs: seq<Bucket>, k: nat)
    requires IsRun(ps, bs) && bs[0] == NewBucket(mbps, start) && k < |ps|
    requires k > 0 ==> ps[k].now - ps[k - 1].now >= 1.0
    requires 8.0 * ps[k].n as real <= mbps * 1000000.0
    ensures Granted(bs[k], ps[k].now, ps[k].n)
  {
    RunKeeps(ps, bs, k);
    var b, dt := bs[k], ps[k].now - bs[k].last;
    Faster(b.fill, if k > 0 then 1.0 else 0.0, dt);
    assert Inflow(dt, b.fill) >= if k > 0 then b.fill else 0.0;
    assert Refilled(b, ps[k].now).tokens == b.capacity;
  }

  // ---- one caller ---------------------------------------------------------------------------

  function SleepFor(b: Bucket, n: nat): (t: real)
    requires b.fill > 0.0
  {
    var t := (n as real - b.tokens) / b.fill;
    if t > 0.25 then 0.25 else t
  }

  /** A request larger than the bucket is refused by every poll, whatever the time. */
  lemma TooLargeIsNeverGranted(b: Bucket, now: real, n: nat)
    requires Ok(b) && n as real > b.capacity
    ensures !Granted(b, now, n)
  {
  }

  lemma QuotientTimes(x: real, y: real)
    requires y > 0.0
    ensures x / y * y == x
  {
  }

  /** A sleep at least as long as told brings in the deficit, or a quarter second's worth. */
  lemma SleepBrings(b: Bucket, n: nat, dt: real)
    requires b.fill > 0.0 && dt >= SleepFor(b, n)
    ensures Inflow(dt, b.fill) >= n as real - b.tokens || Inflow(dt, b.fill) >= b.fill / 4.0
  {
    var t := (n as real - b.tokens) / b.fill;
    if t > 0.25 {
      Faster(b.fill, 0.25, dt);
    } else {
      QuotientTimes(n as real - b.tokens, b.fill);
      Faster(b.fill, t, dt);
    }
  }

  lemma ToppedEnough(b: Bucket, n: nat, inflow: real, now: real)
    requires b.tokens < n as real <= b.capacity
    requires inflow >= n as real - b.tokens || inflow >= b.fill / 4.0
    ensures Topped(b, inflow, now).tokens >= n as real || Topped(b, inflow, now).tokens >= b.tokens + b.fill / 4.0
  {
  }

  /** After sleeping as told, either the request is granted, or a quarter second's worth of
      the deficit is gone. */
  lemma SleepHelps(b: Bucket, n: nat, now: real)
    requires Ok(b) && b.tokens < n as real <= b.capacity && now >= b.last + SleepFor(b, n)
    ensures !Granted(b, now, n) ==> Refilled(b, now).tokens >= b.tokens + b.fill / 4.0
  {
    SleepBrings(b, n, now - b.last);
    ToppedEnough(b, n, Inflow(now - b.last, b.fill), now);
  }

  lemma SlowerBrings(b: Bucket, n: nat, dt: real)
    requires b.fill > 0.0 && dt < SleepFor(b, n)
    ensures Inflow(dt, b.fill) < n as real - b.tokens
  {
    var t := (n as real - b.tokens) / b.fill;
    QuotientTimes(n as real - b.tokens, b.fill);
    Strictly(b.fill, dt, t);
  }

  lemma Strictly(fill: real, a: real, b: real)
    requires fill > 0.0 && a < b
    ensures a * fill < b * fill
  {
    Positive(b - a, 1.0 / fill);
    assert (b - a) * fill > 0.0;
    Distrib(fill, a, b);
  }

  /** Nothing is slept away: no sleep is longer than a quarter second, and before its end the
      request would not have been granted. */
  lemma SleepIsNotTooLong(b: Bucket, n: nat, now: real)
    requires Ok(b) && b.tokens < n as real && now < b.last + SleepFor(b, n)
    ensures SleepFor(b, n) <= 0.25 && !Granted(b, now, n)
  {
    SlowerBrings(b, n, now - b.last);
  }

  lemma Faster(fill: real, a: real, b: real)
    requires fill > 0.0 && a <= b
    ensures a * fill <= b * fill
  {
    Grows(fill, b - a);
    assert b * fill - a * fill == (b - a) * fill;
  }

  lemma FewSleeps(n: real, quarter: real, k: nat)
    requires quarter > 0.0 && k as real * quarter < n
    ensures 0 <= k <= (n / quarter).Floor
  {
    assert n / quarter * quarter == n;
    if k as real > n / quarter { Faster(quarter, n / quarter, k as real); }
  }

  lemma OneMore(k: nat, q: real)
    ensures (k + 1) as real * q == k as real * q + q
  {
  }

  lemma Positive(a: real, b: real)
    requires a > 0.0 && b > 0.0
    ensures a / b > 0.0
  {
    assert a / b * b == a;
    if a / b <= 0.0 { Faster(b, a / b, 0.0); }
  }

  /** With a bucket of one second's bytes, four sleeps suffice. */
  lemma FourSleeps(fill: real, n: nat, sleeps: nat)
    requires fill > 0.0 && n as real <= fill && (sleeps > 0 ==> (sleeps - 1) as real * (fill / 4.0) < n as real)
    ensures sleeps <= 4
  {
    if sleeps > 4 { Faster(fill / 4.0, 4.0, (sleeps - 1) as real); }
  }

  class Limiter {
    const capacity: real
    const fillPerSec: real
    var tokens: real
    var last: real

    ghost function View(): (b: Bucket)
      reads this
    {
      Bucket(capacity, tokens, fillPerSec, last)
    }

    constructor (mbps: real, now: real)
      requires mbps > 0.0
      ensures View() == NewBucket(mbps, now) && Ok(View())
    {
      var bytesPerSec := mbps * 1000000.0 / 8.0;
      capacity, tokens, fillPerSec, last := bytesPerSec, bytesPerSec, bytesPerSec, now;
    }

    /** What one turn of the loop does under the lock. */
    method Turn(n: nat, now: real) returns (granted: bool)
      modifies `tokens, `last
      ensures View() == Polled(old(View()), now, n) && granted == Granted(old(View()), now, n)
    {
      ghost var b := View();
      var inflow := Inflow(now - last, fillPerSec);
      last := now;
      tokens := tokens + inflow;
      if tokens > capacity { tokens := capacity; }
      assert View() == Topped(b, inflow, now) == Refilled(b, now);
      granted := tokens >= n as real;
      if granted { tokens := tokens - n as real; }
    }

    /** One sleep and the turn after it; `late` is how much longer the sleep took. */
    method SleepAndTurn(n: nat, late: real) returns (granted: bool)
      requires Ok(View()) && tokens < n as real <= capacity && late >= 0.0
      modifies `tokens, `last
      ensures Ok(View()) && last >= old(last)
      ensures !granted ==> tokens < n as real && tokens >= old(tokens) + fillPerSec / 4.0
    {
      ghost var b := View();
      Positive(n as real - tokens, fillPerSec);
      var sleepFor := (n as real - tokens) / fillPerSec;
      if sleepFor > 0.25 { sleepFor := 0.25; }
      var wake := last + sleepFor + late;
      SleepHelps(b, n, wake);
      PollKeeps(b, wake, n);
      granted := Turn(n, wake);
    }

    /** The loop of `wait` after a first turn that did not grant. */
    method SleepUntilGranted(n: nat, late: nat -> real) returns (sleeps: nat)
      requires Ok(View()) && tokens < n as real <= capacity && forall k :: late(k) >= 0.0
      modifies `tokens, `last
      ensures Ok(View()) && sleeps > 0 && (sleeps - 1) as real * (fillPerSec / 4.0) < n as real
    {
      ghost var quarter := fillPerSec / 4.0;
      ghost var limit := (n as real / quarter).Floor + 1;
      ghost var claimed := 0.0;
      sleeps := 0;
      while true
        invariant Ok(View())
        invariant tokens < n as real && tokens >= claimed == sleeps as real * quarter
        decreases limit - sleeps
      {
        FewSleeps(n as real, quarter, sleeps);
        OneMore(sleeps, quarter);
        var granted := SleepAndTurn(n, late(sleeps));
        sleeps := sleeps + 1;
        if granted { return; }
        claimed := claimed + quarter;
      }
    }

    /** `wait` by a single caller: a request no larger than the bucket is granted after a
        bounded number of sleeps, at most four for a bucket of one second's bytes, as
        `newTokenBucket` makes it; `late(k)` is by how much the k-th overslept. */
    method Wait(n: nat, start: real, late: nat -> real) returns (sleeps: nat)
      requires Ok(View()) && last <= start && n as real <= capacity
      requires forall k :: late(k) >= 0.0
      modifies `tokens, `last
      ensures Ok(View())
      ensures sleeps == 0 <==> Granted(old(View()), start, n)
      ensures sleeps > 0 ==> (sleeps - 1) as real * (fillPerSec / 4.0) < n as real
      ensures capacity == fillPerSec ==> sleeps <= 4
    {
      PollKeeps(View(), start, n);
      var granted := Turn(n, start);
      if granted { return 0; }
      sleeps := SleepUntilGranted(n, late);
      if capacity == fillPerSec { FourSleeps(fillPerSec, n, sleeps); }
    }
  }
}
