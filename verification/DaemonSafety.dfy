/** How long a countdown has to be so that the bmc-watchdog daemon never lets it
    run out, with and without the ignore-state workaround. */
module DaemonSafety {
  import opened BmcTimer
  import opened DaemonRun

  // ----- Which runs are spoken about -----

  /** Iterations without a successful Reset just before iteration k.  The one that
      declares the timer stopped ends the run and does not count. */
  function Streak(log: seq<Iter>, k: nat): nat
    requires k <= |log|
  {
    if k == 0 || log[k - 1].resetOk || log[k - 1].declared then 0 else Streak(log, k - 1) + 1
  }

  predicate StreaksAtMost(log: seq<Iter>, n: nat) {
    forall k :: 0 <= k <= |log| ==> Streak(log, k) <= n
  }

  /** During the sleep other processes do nothing, or stop the timer, or restart
      it with the countdown it began with.  Under the workaround the daemon may
      start a stopped timer again, so that its countdown matters. */
  predicate Harmless(c: Config, r: Iter, initial: nat) {
    || r.after == r.mid
    || (!r.after.running && (c.ignoreState ==> r.after.initial == initial))
    || (r.after.running && r.after.initial == initial && r.finish <= StartOf(r.after) <= r.wake)
  }

  predicate OthersHarmless(c: Config, log: seq<Iter>) {
    forall i :: 0 <= i < |log| ==> Harmless(c, log[i], log[0].before.initial)
  }

  /** The loop is entered right after the Reset that ends the setup, whose answer
      took at most `a`; under the workaround a second later. */
  predicate Entry(c: Config, log: seq<Iter>, a: nat) {
    log != [] ==>
      && log[0].before.running
      && var from := StartOf(log[0].before) + if c.ignoreState then SECOND else 0;
         from <= log[0].start <= from + a
  }

  /** Commands return within `l` and the answer to a successful Reset within `a`,
      at most `n` consecutive iterations go without a successful Reset, and others
      do no harm. */
  predicate Regular(c: Config, log: seq<Iter>, n: nat, l: nat, a: nat) {
    && Run(c, log) && AllWithin(log, l) && AllAnswered(log, a) && StreaksAtMost(log, n)
    && OthersHarmless(c, log) && Entry(c, log, a)
  }

  // ----- The timer never expires -----

  /** A timer that another process has not stopped is never reached by its
      deadline. */
  predicate Kept(r: Iter) {
    r.before.running && !r.declared ==>
      AliveUntil(r.before, r.hits, r.wake) && r.mid.flags == r.before.flags
  }

  /** Every Reset is delivered to a timer that is running at that very instant,
      and "stopped by another process" is said only when it is so. */
  predicate Honest(r: Iter) {
    && (r.resetSent ==>
          r.before.running && forall x :: r.getDone <= x <= r.resetDone ==> Expire(r.before, x).running)
    && (r.declared ==> !r.resetSent && !r.before.running)
  }

  predicate Safe(c: Config, r: Iter) {
    Kept(r) && (!c.ignoreState ==> Honest(r))
  }

  predicate AllSafe(c: Config, log: seq<Iter>) {
    forall k :: 0 <= k < |log| ==> Safe(c, log[k])
  }

  /** The longest that `j` iterations without a successful Reset can take, the first
      of which starts at microsecond `f` of a second.  Two commands that use up the
      period are not made up for; shorter ones are, but for what they add to the
      microseconds. */
  function Ahead(c: Config, l: nat, j: nat, f: nat): nat
    requires f < SECOND
  {
    if j == 0 then 0
    else if c.period * SECOND <= f + 2 * l then
      c.period * SECOND + 2 * l + Ahead(c, l, j - 1, (f + 2 * l) % SECOND)
    else
      c.period * SECOND + Climb(l, f) + Ahead(c, l, j - 1, f + Climb(l, f))
  }

  function Climb(l: nat, f: nat): (d: nat)
    requires f < SECOND
    ensures f + d < SECOND && d <= 2 * l
  {
    if 2 * l < SECOND - f then 2 * l else SECOND - 1 - f
  }

  function Min(x: nat, y: nat): nat {
    if x < y then x else y
  }

  /** The longest from the landing of a successful Reset to the next iteration,
      which starts at microsecond `f`: its answer, and under the workaround what
      follows it, and the sleep, which makes up for whole seconds unless the
      iteration used up the period. */
  function First(c: Config, l: nat, a: nat, f: nat): nat {
    c.period * SECOND +
    if f + c.period * SECOND < SECOND + 2 * l + Extra(c, l) then a + Extra(c, l)
    else Min(a + if c.ignoreState then l else 0, f)
  }

  /** How old the countdown can be at the start of an iteration, if the first one
      after the Reset starts at microsecond `f` and `n` more follow. */
  function Late(c: Config, n: nat, l: nat, a: nat, f: nat): nat
    requires f < SECOND
  {
    First(c, l, a, f) + Ahead(c, l, n, f)
  }

  /** What a countdown has to exceed: the latest start, and the Get and the Reset
      that follow it. */
  predicate Enough(c: Config, initial: nat, n: nat, l: nat, a: nat) {
    forall f :: 0 <= f < SECOND ==> Late(c, n, l, a, f) + 2 * l < initial * CHUNK
  }

  // ----- Iterations without a successful Reset -----

  lemma {:induction false} AheadGrows(c: Config, l: nat, j: nat, f: nat)
    requires f < SECOND
    ensures Ahead(c, l, j, f) <= Ahead(c, l, j + 1, f)
  {
    if j != 0 {
      if c.period * SECOND <= f + 2 * l {
        AheadGrows(c, l, j - 1, (f + 2 * l) % SECOND);
      } else {
        AheadGrows(c, l, j - 1, f + Climb(l, f));
      }
    }
  }

  lemma {:induction false} AheadGrowsTo(c: Config, l: nat, i: nat, j: nat, f: nat)
    requires f < SECOND && i <= j
    ensures Ahead(c, l, i, f) <= Ahead(c, l, j, f)
  {
    if i < j {
      AheadGrowsTo(c, l, i, j - 1, f);
      AheadGrows(c, l, j - 1, f);
    }
  }

  /** Two commands use up the period, or the sleep lasts the period in any case. */
  predicate Full(c: Config, l: nat) {
    c.period * SECOND <= 2 * l || c.period <= 1
  }

  lemma {:induction false} AheadFull(c: Config, l: nat, j: nat, f: nat)
    requires Full(c, l) && f < SECOND
    ensures Ahead(c, l, j, f) == Times(j, c.period * SECOND + 2 * l)
  {
    if j != 0 {
      if c.period * SECOND <= f + 2 * l {
        AheadFull(c, l, j - 1, (f + 2 * l) % SECOND);
      } else {
        AheadFull(c, l, j - 1, f + Climb(l, f));
      }
    }
  }

  lemma {:induction false} AheadPunctual(c: Config, l: nat, j: nat, f: nat)
    requires StallsPunctual(c, l) && f < SECOND
    ensures Ahead(c, l, j, f) == Times(j, c.period * SECOND) + Min(Times(j, 2 * l), SECOND - 1 - f)
  {
    if j != 0 {
      AheadPunctual(c, l, j - 1, f + Climb(l, f));
    }
  }

  /** Neither: whether an iteration uses up the period depends on the microsecond
      at which it starts. */
  predicate Mixed(c: Config, l: nat) {
    !Full(c, l) && !StallsPunctual(c, l)
  }

  lemma MixedStep(c: Config, l: nat, j: nat, f: nat)
    requires Mixed(c, l) && f < SECOND
    ensures var short := c.period * SECOND - 2 * l;
            && 0 < short < SECOND <= 2 * l
            && Ahead(c, l, j + 1, f) ==
               if short <= f then c.period * SECOND + 2 * l + Ahead(c, l, j, f - short)
               else c.period * SECOND + SECOND - 1 - f + Ahead(c, l, j, SECOND - 1)
  {
    var short := c.period * SECOND - 2 * l;
    assert 2 * SECOND <= c.period * SECOND;
    if short <= f {
      assert f + 2 * l == f - short + c.period * SECOND;
      assert (f - short + c.period * SECOND) / SECOND == c.period;
    }
  }

  /** What `MixedStep` says in terms of where the next iteration starts. */
  lemma MixedNext(c: Config, l: nat, j: nat, f: nat) returns (g: nat, gain: nat)
    requires Mixed(c, l) && f < SECOND
    ensures g < SECOND && Ahead(c, l, j + 1, f) + f == c.period * SECOND + gain + g + Ahead(c, l, j, g)
    ensures if c.period * SECOND - 2 * l <= f then gain == c.period * SECOND && g == f - (c.period * SECOND - 2 * l)
            else gain == 0 && g == SECOND - 1
  {
    MixedStep(c, l, j, f);
    hide Ahead;
    var short := c.period * SECOND - 2 * l;
    if short <= f {
      g, gain := f - short, c.period * SECOND;
    } else {
      g, gain := SECOND - 1, 0;
    }
  }

  /** To start later in the second is to end later, but the start of the next
      second is not worse by more than a period. */
  lemma {:induction false} MixedOrder(c: Config, l: nat, j: nat, f: nat, g: nat)
    requires Mixed(c, l) && f <= g < SECOND
    ensures Ahead(c, l, j, f) + f <= Ahead(c, l, j, g) + g
    decreases j, 0
  {
    if j != 0 {
      var f', u := MixedNext(c, l, j - 1, f);
      var g', v := MixedNext(c, l, j - 1, g);
      hide Ahead;
      if u == v {
        MixedOrder(c, l, j - 1, f', g');
      } else {
        MixedWrap(c, l, j - 1);
        MixedOrder(c, l, j - 1, 0, g');
      }
    }
  }

  lemma {:induction false} MixedWrap(c: Config, l: nat, j: nat)
    requires Mixed(c, l)
    ensures Ahead(c, l, j, SECOND - 1) + SECOND - 1 <= c.period * SECOND + Ahead(c, l, j, 0)
    decreases j, 1
  {
    MixedStep(c, l, 0, 0);
    if j != 0 {
      var i, p := j - 1, c.period * SECOND;
      var short := p - 2 * l;
      MixedStep(c, l, i, SECOND - 1);
      MixedStep(c, l, i, 0);
      hide Ahead;
      MixedOrder(c, l, i, SECOND - 1 - short, SECOND - 1);
    }
  }

  /** The end of the sleep, had no signal cut it short. */
  function FullWake(c: Config, r: Iter): Instant
    requires r.start <= r.finish
  {
    r.finish + Nap(c.period, r.start, r.finish) * SECOND
  }

  /** An iteration that lasts `d` before its sleep, from microsecond `f`. */
  lemma SleepMakesUp(c: Config, x: Instant, d: nat) returns (spent: nat)
    ensures spent * SECOND + (x + d) % SECOND == x % SECOND + d
    ensures Nap(c.period, x, x + d) == if spent < c.period then c.period - spent else c.period
    ensures spent < c.period <==> x % SECOND + d < c.period * SECOND
    ensures (x + d + Nap(c.period, x, x + d) * SECOND) % SECOND == (x + d) % SECOND
  {
    spent := (x + d) / SECOND - x / SECOND;
    var nap := Nap(c.period, x, x + d);
    assert (x + d + nap * SECOND) / SECOND == (x + d) / SECOND + nap;
    if spent < c.period {
      AtMost(spent + 1, c.period, SECOND, SECOND);
    } else {
      AtMost(c.period, spent, SECOND, SECOND);
    }
  }

  /** Nothing that happens in an iteration without a successful Reset is worse than
      what `Ahead` takes into account. */
  lemma StallIsAhead(c: Config, l: nat, j: nat, x: Instant, d: nat)
    requires d <= 2 * l
    ensures var wake := x + d + Nap(c.period, x, x + d) * SECOND;
            wake - x + Ahead(c, l, j, wake % SECOND) <= Ahead(c, l, j + 1, x % SECOND)
  {
    var f, g := x % SECOND, (x + d) % SECOND;
    var spent := SleepMakesUp(c, x, d);
    if Full(c, l) {
      AheadFull(c, l, j, g);
      AheadFull(c, l, j + 1, f);
    } else if StallsPunctual(c, l) {
      AheadPunctual(c, l, j, g);
      AheadPunctual(c, l, j + 1, f);
    } else {
      MixedStall(c, l, j, f, g, d, spent);
    }
  }

  lemma MixedStall(c: Config, l: nat, j: nat, f: nat, g: nat, d: nat, spent: nat)
    requires Mixed(c, l) && d <= 2 * l && f < SECOND && g < SECOND && spent * SECOND + g == f + d
    requires spent < c.period <==> f + d < c.period * SECOND
    ensures var nap := if spent < c.period then c.period - spent else c.period;
            d + nap * SECOND + Ahead(c, l, j, g) <= Ahead(c, l, j + 1, f)
  {
    var p := c.period * SECOND;
    var short := p - 2 * l;
    MixedStep(c, l, j, f);
    hide Ahead;
    if spent < c.period {
      assert (c.period - spent) * SECOND == p - spent * SECOND;
      MixedOrder(c, l, j, g, SECOND - 1);
      if short <= f {
        MixedWrap(c, l, j);
        MixedOrder(c, l, j, 0, f - short);
      }
    } else {
      OneOver(c.period, spent);
      MixedOrder(c, l, j, g, f - short);
    }
  }

  lemma OneOver(m: nat, n: nat)
    requires m <= n && n * SECOND < m * SECOND + SECOND
    ensures m == n
  {
  }

  // ----- Countdowns are renewed in time -----

  /** At `x` the countdown of `t` is young enough for `j` more iterations without a
      successful Reset, and a Get and a Reset after them. */
  predicate Young(c: Config, t: Timer, x: Instant, j: nat, l: nat) {
    StartOf(t) <= x && x - StartOf(t) + Ahead(c, l, j, x % SECOND) + 2 * l < t.initial * CHUNK
  }

  /** A countdown that began when Enough allows for is young. */
  lemma YoungFirst(c: Config, t: Timer, x: Instant, j: nat, n: nat, l: nat, a: nat)
    requires Enough(c, t.initial, n, l, a) && j <= n
    requires StartOf(t) <= x <= StartOf(t) + First(c, l, a, x % SECOND)
    ensures Young(c, t, x, j, l)
  {
    var f := x % SECOND;
    AheadGrowsTo(c, l, j, n, f);
    assert Late(c, n, l, a, f) + 2 * l < t.initial * CHUNK;
  }

  lemma YoungStall(c: Config, r: Iter, t: Timer, j: nat, l: nat)
    requires Law(c, r) && !r.declared && !r.resetOk && Within(r, l)
    requires Young(c, r.before, r.start, j + 1, l)
    requires t.initial == r.before.initial && StartOf(r.before) <= StartOf(t) <= r.finish
    ensures Young(c, t, FullWake(c, r), j, l)
  {
    StallIsAhead(c, l, j, r.start, r.finish - r.start);
  }

  /** A Reset that landed, although reported as failed, on a stopped timer. */
  lemma YoungLanded(c: Config, r: Iter, t: Timer, j: nat, n: nat, l: nat, a: nat)
    requires Law(c, r) && !r.declared && !r.resetOk && Within(r, l)
    requires Enough(c, t.initial, n, l, a) && j < n && r.start <= StartOf(t) <= r.finish
    ensures Young(c, t, FullWake(c, r), j, l)
  {
    hide Ahead;
    hide First;
    var f := r.start % SECOND;
    StallIsAhead(c, l, j, r.start, r.finish - r.start);
    AheadGrowsTo(c, l, j + 1, n, f);
    assert Late(c, n, l, a, f) + 2 * l < t.initial * CHUNK;
  }

  /** The iteration of a successful Reset that landed at `h` ends in time. */
  lemma RenewedInTime(c: Config, r: Iter, h: Instant, l: nat, a: nat)
    requires Law(c, r) && !r.declared && r.resetOk && Within(r, l)
    requires r.getDone <= h <= r.resetDone <= h + a
    ensures var x := FullWake(c, r); h <= x <= h + First(c, l, a, x % SECOND)
  {
    var d := r.finish - r.start;
    var spent := SleepMakesUp(c, r.start, d);
    var nap := Nap(c.period, r.start, r.finish);
    AtMost(nap, c.period, SECOND, SECOND);
    if spent < c.period {
      assert nap * SECOND == c.period * SECOND - spent * SECOND;
      if c.ignoreState {
        AtMost(1, spent, SECOND, SECOND);
      }
    } else {
      AtMost(c.period, spent, SECOND, SECOND);
    }
  }

  lemma EntryIsYoung(c: Config, log: seq<Iter>, n: nat, l: nat, a: nat)
    requires Entry(c, log, a) && log != [] && a <= l && Enough(c, log[0].before.initial, n, l, a)
    ensures Young(c, log[0].before, log[0].start, n, l)
  {
    YoungFirst(c, log[0].before, log[0].start, n, n, l, a);
  }

  /** One iteration leaves a young countdown behind. */
  lemma MidIsYoung(c: Config, r: Iter, j: nat, n: nat, l: nat, a: nat)
    requires Law(c, r) && !r.declared && Within(r, l) && Answered(r, a)
    requires Enough(c, r.before.initial, n, l, a) && (!r.resetOk ==> j < n)
    requires !r.resetOk && r.before.running ==> Young(c, r.before, r.start, j + 1, l)
    ensures r.mid.initial == r.before.initial
    ensures r.mid.running ==> Young(c, r.mid, FullWake(c, r), if r.resetOk then n else j, l)
  {
    DeliverReset(r.before, r.hits);
    if r.resetOk {
      RenewedInTime(c, r, r.hits[|r.hits| - 1], l, a);
      YoungFirst(c, r.mid, FullWake(c, r), n, n, l, a);
    } else if r.before.running {
      YoungStall(c, r, r.mid, j, l);
    } else if r.hits != [] {
      YoungLanded(c, r, r.mid, j, n, l, a);
    }
  }

  /** One iteration: the timer is kept. */
  lemma IterationKeeps(c: Config, r: Iter, i: nat, j: nat, n: nat, l: nat, a: nat)
    requires Law(c, r) && !r.declared && Within(r, l) && Answered(r, a)
    requires Enough(c, r.before.initial, n, l, a) && (!r.resetOk ==> i == j + 1 <= n)
    requires r.before.running && Young(c, r.before, r.start, i, l)
    ensures Kept(r)
  {
    MidIsYoung(c, r, j, n, l, a);
    DeliverReset(r.before, r.hits);
    ResetsKeepAlive(r.before, r.hits, r.getDone, r.resetDone, r.wake);
    AliveMeansUntouched(r.before, r.hits, r.wake);
  }

  /** A timer that another process restarted during the sleep. */
  lemma RestartedIsYoung(c: Config, r: Iter, t: Timer, j: nat, n: nat, l: nat, a: nat)
    requires Law(c, r) && !r.declared && !r.signal && r.finish <= StartOf(t) <= r.wake
    requires Enough(c, t.initial, n, l, a) && j <= n
    ensures Young(c, t, r.wake, j, l)
  {
    AtMost(Nap(c.period, r.start, r.finish), c.period, SECOND, SECOND);
    YoungFirst(c, t, r.wake, j, n, l, a);
  }

  /** Without the workaround a timer seen stopped is never sent a Reset. */
  lemma StoppedIsNotReset(c: Config, r: Iter)
    requires Law(c, r) && !c.ignoreState && !r.before.running
    ensures !r.resetSent && r.mid == r.before
    ensures r.getOk ==> r.declared
  {
  }

  /** The countdown of `t` is the one of the run, and young. */
  predicate InTime(c: Config, t: Timer, x: Instant, initial: nat, j: nat, l: nat) {
    (t.running || c.ignoreState ==> t.initial == initial) && (t.running ==> Young(c, t, x, j, l))
  }

  lemma NextInTime(c: Config, r: Iter, initial: nat, i: nat, j: nat, n: nat, l: nat, a: nat)
    requires Law(c, r) && !r.declared && !r.signal && Within(r, l) && Answered(r, a) && Harmless(c, r, initial)
    requires Enough(c, initial, n, l, a) && InTime(c, r.before, r.start, initial, i, l)
    requires if r.resetOk then j == n else i == j + 1 <= n
    ensures InTime(c, r.after, r.wake, initial, j, l)
  {
    if r.after != r.mid {
      if r.after.running {
        RestartedIsYoung(c, r, r.after, j, n, l, a);
      }
    } else if r.before.running || c.ignoreState {
      MidIsYoung(c, r, j, n, l, a);
    } else {
      StoppedIsNotReset(c, r);
    }
  }

  lemma {:induction false} CountdownYoung(c: Config, log: seq<Iter>, k: nat, n: nat, l: nat, a: nat)
    requires Regular(c, log, n, l, a) && a <= l
    requires k < |log| && Enough(c, log[0].before.initial, n, l, a)
    ensures Streak(log, k) <= n
    ensures InTime(c, log[k].before, log[k].start, log[0].before.initial, n - Streak(log, k), l)
  {
    hide Law;
    hide Enough;
    hide Young;
    hide Harmless;
    if k == 0 {
      EntryIsYoung(c, log, n, l, a);
    } else {
      CountdownYoung(c, log, k - 1, n, l, a);
      var r := log[k - 1];
      assert Linked(r, log[k]) && Within(r, l) && Answered(r, a) && Streak(log, k) <= n;
      NextInTime(c, r, log[0].before.initial, n - Streak(log, k - 1), n - Streak(log, k), n, l, a);
    }
  }

  /** While a Reset is under way the timer is stopped exactly when its countdown
      ran out after the Get that saw it running. */
  lemma StoppedOnlyByExpiry(c: Config, r: Iter, x: Instant)
    requires Law(c, r) && !c.ignoreState && r.resetSent && r.getAt <= x
    ensures r.before.running && r.getAt < r.before.deadline
    ensures !Expire(r.before, x).running <==> r.before.deadline <= x
  {
  }

  lemma SafeIteration(c: Config, r: Iter, i: nat, j: nat, n: nat, l: nat, a: nat)
    requires Law(c, r) && Within(r, l) && Answered(r, a)
    requires r.before.running ==> Young(c, r.before, r.start, i, l) && Enough(c, r.before.initial, n, l, a)
    requires !r.declared && !r.resetOk ==> i == j + 1 <= n
    ensures Safe(c, r)
  {
    if r.before.running && !r.declared {
      IterationKeeps(c, r, i, j, n, l, a);
    }
    if !c.ignoreState && r.resetSent {
      forall x | r.getDone <= x <= r.resetDone
        ensures r.before.running && Expire(r.before, x).running
      {
        StoppedOnlyByExpiry(c, r, x);
      }
    }
  }

  /** The safety theorem of the daemon.  Let commands return within `l` and the
      answer to a successful Reset within `a`, let at most `n` consecutive
      iterations go without one, and let the initial countdown be long enough.
      Then every iteration is safe. */
  lemma NeverExpires(c: Config, log: seq<Iter>, k: nat, n: nat, l: nat, a: nat)
    requires Regular(c, log, n, l, a) && a <= l
    requires k < |log| && Enough(c, log[0].before.initial, n, l, a)
    ensures Safe(c, log[k])
  {
    CountdownYoung(c, log, k, n, l, a);
    assert Law(c, log[k]) && Within(log[k], l) && Answered(log[k], a);
    assert Streak(log, k) <= n && Streak(log, k + 1) <= n;
    SafeIteration(c, log[k], n - Streak(log, k), n - Streak(log, k + 1), n, l, a);
  }

  lemma RunIsSafe(c: Config, log: seq<Iter>, n: nat, l: nat, a: nat)
    requires Regular(c, log, n, l, a) && a <= l
    requires log != [] ==> Enough(c, log[0].before.initial, n, l, a)
    ensures AllSafe(c, log)
  {
    forall k | 0 <= k < |log|
      ensures Safe(c, log[k])
    {
      NeverExpires(c, log, k, n, l, a);
    }
  }

  // ----- The bound in closed form -----

  /** What is left of `x` where sleeps make up for whole seconds. */
  function Capped(x: nat): nat {
    if x < SECOND then x else SECOND - 1
  }

  /** By how much the start of an iteration can exceed n + 1 periods: the answer to
      the Reset and all commands after it, as far as the sleeps do not make up for
      whole seconds of them.  The iteration with the Reset and those without it do
      so, or do not. */
  function Drift(c: Config, n: nat, l: nat, a: nat): nat {
    if Punctual(c, l) then Capped(n * (2 * l) + a + Rest(c, l))
    else a + Extra(c, l) + if StallsPunctual(c, l) then Capped(n * (2 * l)) else n * (2 * l)
  }

  function Latest(c: Config, n: nat, l: nat, a: nat): nat {
    (n + 1) * (c.period * SECOND) + Drift(c, n, l, a)
  }

  /** The microsecond at which the latest run goes on after its Reset. */
  function Worst(c: Config, l: nat, a: nat): (f: nat)
    ensures f < SECOND
  {
    if Punctual(c, l) then Capped(a + Rest(c, l)) else 0
  }

  lemma AheadIs(c: Config, l: nat, n: nat, f: nat)
    requires f < SECOND && !(Mixed(c, l) && n != 0)
    ensures Ahead(c, l, n, f) == n * (c.period * SECOND)
                               + if Full(c, l) then n * (2 * l) else Min(n * (2 * l), SECOND - 1 - f)
  {
    TimesIs(n, c.period * SECOND);
    TimesIs(n, 2 * l);
    if Full(c, l) {
      AheadFull(c, l, n, f);
      TimesIs(n, c.period * SECOND + 2 * l);
      assert n * (c.period * SECOND + 2 * l) == n * (c.period * SECOND) + n * (2 * l);
    } else if StallsPunctual(c, l) {
      AheadPunctual(c, l, n, f);
    }
  }

  lemma LateIs(c: Config, n: nat, l: nat, a: nat, f: nat)
    requires f < SECOND && a <= l && !(Mixed(c, l) && n != 0)
    ensures Late(c, n, l, a, f) <= Latest(c, n, l, a)
    ensures f == Worst(c, l, a) ==> Late(c, n, l, a, f) == Latest(c, n, l, a)
  {
    hide Ahead;
    AheadIs(c, l, n, f);
    OneMore(n, c.period * SECOND);
  }

  /** The bound in closed form, but for failed iterations that use up the period or
      not, depending on where in a second they start. */
  lemma EnoughIs(c: Config, initial: nat, n: nat, l: nat, a: nat)
    requires a <= l && !(Mixed(c, l) && n != 0)
    ensures Enough(c, initial, n, l, a) <==> Latest(c, n, l, a) + 2 * l < initial * CHUNK
  {
    hide Late;
    hide Latest;
    forall f | 0 <= f < SECOND
      ensures Late(c, n, l, a, f) <= Latest(c, n, l, a)
    {
      LateIs(c, n, l, a, f);
    }
    LateIs(c, n, l, a, Worst(c, l, a));
  }
}
