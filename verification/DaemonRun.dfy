/** Runs of the bmc-watchdog daemon's main loop, one record per iteration, and
    what holds in all of them.  `WatchdogDaemon.MainLoop` proves that the loop
    produces only such runs. */
module DaemonRun {
  import opened BmcTimer

  /** `period` is `reset_period` in seconds, `ignoreState` the workaround flag. */
  datatype Config = Config(period: nat, ignoreState: bool)

  datatype Iter = Iter(
    start: Instant,            // gettimeofday at the top of the loop
    before: Timer,             // the BMC timer at that instant
    prevIn: nat,               // previous_present_countdown_seconds
    getOk: bool,               // the first Get returned 0
    getAt: Instant,            // when the BMC answered it
    lag: nat,                  // how far that reading trailed the countdown
    view: View,
    getDone: Instant,
    declared: bool,            // "timer stopped by another process"
    resetSent: bool,
    resetOk: bool,
    hits: seq<Instant>,        // when Resets took effect
    resetDone: Instant,
    mid: Timer,                // the BMC timer after the Reset
    regetOk: bool,             // the Get after the Reset returned 0
    regetAt: Instant,
    relag: nat,
    finish: Instant,           // gettimeofday at sleep_now
    prevOut: nat,
    signal: bool,              // shutdown_flag was cleared
    wake: Instant,
    after: Timer)              // the BMC timer once other processes acted during the sleep

  /** `adjusted_period`, from whole seconds of the two clock readings. */
  function Nap(period: nat, start: Instant, finish: Instant): (s: nat)
    requires start <= finish
    ensures s <= period
    ensures 1 <= period ==> 1 <= s
  {
    var spent := finish / SECOND - start / SECOND;
    if spent < period then period - spent else period
  }

  predicate GetLaw(c: Config, r: Iter) {
    && r.start <= r.getDone
    && (r.getOk ==> r.start <= r.getAt <= r.getDone && r.view == ViewOf(r.before, r.getAt, r.lag))
    && r.declared == (r.getOk && if c.ignoreState then r.prevIn == r.view.presentSeconds else !r.view.state)
    && r.resetSent == (r.getOk && !r.declared)
  }

  predicate ResetLaw(r: Iter) {
    && r.getDone <= r.resetDone
    && Ordered(r.hits, r.getDone, r.resetDone)
    && r.mid == Deliver(Reset, r.before, r.hits)
    && (r.resetOk ==> r.resetSent && r.hits != [])
    && (!r.resetSent ==> r.hits == [] && r.resetDone == r.getDone)
  }

  predicate RereadLaw(c: Config, r: Iter) {
    && r.resetDone <= r.finish
    && (c.ignoreState && r.resetOk ==> r.resetDone + SECOND <= r.finish)
    && (!(c.ignoreState && r.resetOk) ==> r.finish == r.resetDone && !r.regetOk)
    && (r.regetOk ==> r.resetDone + SECOND <= r.regetAt <= r.finish)
    && r.prevOut == (if r.regetOk then ViewOf(r.mid, r.regetAt, r.relag).presentSeconds
                     else if c.ignoreState && r.getOk then r.view.presentSeconds
                     else r.prevIn)
  }

  predicate SleepLaw(c: Config, r: Iter) {
    && r.start <= r.finish
    && r.finish <= r.wake <= r.finish + Nap(c.period, r.start, r.finish) * SECOND
    && (!r.signal ==> r.wake == r.finish + Nap(c.period, r.start, r.finish) * SECOND)
  }

  predicate Law(c: Config, r: Iter) {
    GetLaw(c, r) && ResetLaw(r) && (!r.declared ==> RereadLaw(c, r) && SleepLaw(c, r))
  }

  predicate Linked(r: Iter, s: Iter) {
    && !r.declared && !r.signal
    && s.start == r.wake && s.before == r.after && s.prevIn == r.prevOut
  }

  /** A run of the main loop.  Only its last iteration may have been ended by
      a shutdown signal or by the verdict that the timer was stopped. */
  predicate Run(c: Config, log: seq<Iter>) {
    && (forall i :: 0 <= i < |log| ==> Law(c, log[i]))
    && (forall i :: 0 < i < |log| ==> Linked(log[i - 1], log[i]))
    && (log != [] ==> log[0].prevIn == 0)
  }

  lemma RunExtends(c: Config, log: seq<Iter>, r: Iter)
    requires Run(c, log) && Law(c, r)
    requires if log == [] then r.prevIn == 0 else Linked(log[|log| - 1], r)
    ensures Run(c, log + [r])
  {
  }

  // ----- Simple records -----

  /** The iteration was left before its sleep. */
  predicate Unslept(r: Iter) {
    && r.finish == r.wake == r.getDone && r.prevOut == r.prevIn
    && !r.signal && !r.regetOk && r.after == r.before
  }

  /** No command has to be retried: what the record says can be had from one
      answer for each command, and what it leaves open is as in the source. */
  predicate Simple(c: Config, r: Iter) {
    && |r.hits| <= 1
    && r.start <= r.getAt <= r.getDone && r.view == ViewOf(r.before, r.getAt, r.lag)
    && (if c.ignoreState && r.resetOk then r.resetDone + SECOND <= r.regetAt <= r.finish
        else !r.regetOk && r.regetAt == r.getDone && r.relag == 0)
    && (r.declared ==> Unslept(r))
  }

  predicate AllSimple(c: Config, log: seq<Iter>) {
    forall i :: 0 <= i < |log| ==> Simple(c, log[i])
  }

  /** No other process acts, every Reset that took effect was followed by a
      successful Get, and the Get at the top trails by at most `trail`. */
  predicate CleanIter(r: Iter, trail: nat) {
    r.after == r.mid && (r.hits != [] ==> r.regetOk) && r.lag <= trail
  }

  predicate Clean(log: seq<Iter>, trail: nat) {
    forall i :: 0 <= i < |log| ==> CleanIter(log[i], trail)
  }

  /** The answer to a successful Reset took at most `a` to come back. */
  predicate Answered(r: Iter, a: nat) {
    r.resetOk && r.hits != [] ==> r.resetDone <= r.hits[|r.hits| - 1] + a
  }

  predicate AllAnswered(log: seq<Iter>, a: nat) {
    forall i :: 0 <= i < |log| ==> Answered(log[i], a)
  }

  lemma AllAnsweredExtends(log: seq<Iter>, r: Iter, a: nat)
    requires AllAnswered(log, a) && Answered(r, a)
    ensures AllAnswered(log + [r], a)
  {
  }

  // ----- How long iterations last and how far apart Resets can be -----

  /** Every Get and every Reset of the iteration returned within `l`, also the
      Get that the workaround sends a second after the Reset. */
  predicate Within(r: Iter, l: nat) {
    && r.getDone - r.start <= l
    && r.resetDone - r.getDone <= l
    && r.finish - r.resetDone <= SECOND + l
  }

  predicate AllWithin(log: seq<Iter>, l: nat) {
    forall i :: 0 <= i < |log| ==> Within(log[i], l)
  }

  lemma AllWithinExtends(log: seq<Iter>, r: Iter, l: nat)
    requires AllWithin(log, l) && Within(r, l)
    ensures AllWithin(log + [r], l)
  {
  }

  /** What the workaround adds to an iteration with a successful Reset. */
  function Extra(c: Config, l: nat): nat {
    if c.ignoreState then SECOND + l else 0
  }

  /** The commands of an iteration leave a whole second of the period over, so
      that no iteration can use up its period. */
  predicate Punctual(c: Config, l: nat) {
    2 * l + Extra(c, l) + SECOND <= c.period * SECOND
  }

  /** The same for the commands of an iteration without a successful Reset. */
  predicate StallsPunctual(c: Config, l: nat) {
    2 * l + SECOND <= c.period * SECOND
  }

  /** The part of `Extra` that the sleep does not make up for. */
  function Rest(c: Config, l: nat): nat {
    if Punctual(c, l) && c.ignoreState then l else Extra(c, l)
  }

  /** An iteration without a successful Reset lasts at most the period and two
      commands; one with it ends at most the period and `Rest` after the Reset;
      and a punctual one is over, in whole seconds, when the period is. */
  lemma IterationLength(c: Config, r: Iter, l: nat)
    requires Law(c, r) && !r.declared && Within(r, l)
    ensures !r.resetOk ==> r.wake <= r.start + c.period * SECOND + 2 * l
    ensures r.resetOk ==> r.wake <= r.resetDone + c.period * SECOND + Rest(c, l)
    ensures Punctual(c, l) ==> r.wake / SECOND <= r.start / SECOND + c.period
    ensures Punctual(c, l) && !r.signal ==> r.wake / SECOND == r.start / SECOND + c.period
    ensures StallsPunctual(c, l) && !r.resetOk ==> r.wake / SECOND <= r.start / SECOND + c.period
  {
    var spent := r.finish / SECOND - r.start / SECOND;
    var nap := Nap(c.period, r.start, r.finish);
    assert nap * SECOND <= c.period * SECOND;
    if Punctual(c, l) || (StallsPunctual(c, l) && !r.resetOk) {
      assert r.finish <= r.start + (c.period - 1) * SECOND;
      assert spent < c.period;
      assert nap * SECOND == c.period * SECOND - spent * SECOND;
    }
  }

  /** How one iteration leads to the next. */
  lemma NextStart(c: Config, log: seq<Iter>, k: nat, l: nat)
    requires Run(c, log) && AllWithin(log, l) && 0 < k < |log|
    ensures Punctual(c, l) ==> log[k].start / SECOND == log[k - 1].start / SECOND + c.period
    ensures log[k].start <= log[k - 1].start + c.period * SECOND + 2 * l + Extra(c, l)
    ensures log[k - 1].resetOk ==> log[k].start <= log[k - 1].resetDone + c.period * SECOND + Extra(c, l)
  {
    var r := log[k - 1];
    assert Linked(r, log[k]) && Law(c, r) && Within(r, l);
    IterationLength(c, r, l);
  }

  lemma {:induction false} SecondsAdvance(c: Config, log: seq<Iter>, i: nat, k: nat, l: nat)
    requires Run(c, log) && AllWithin(log, l) && Punctual(c, l)
    requires i <= k < |log|
    ensures log[k].start / SECOND == log[i].start / SECOND + Times(k - i, c.period)
  {
    if i < k {
      SecondsAdvance(c, log, i, k - 1, l);
      NextStart(c, log, k, l);
    }
  }

  /** The daemon does not drift: as long as commands leave a second of the period
      over, iteration k starts exactly k - i periods after iteration i on a clock
      of whole seconds, whatever the commands take. */
  lemma StartsOnTheSecond(c: Config, log: seq<Iter>, i: nat, k: nat, l: nat)
    requires Run(c, log) && AllWithin(log, l) && Punctual(c, l)
    requires i <= k < |log|
    ensures log[k].start / SECOND == log[i].start / SECOND + (k - i) * c.period
  {
    SecondsAdvance(c, log, i, k, l);
    TimesIs(k - i, c.period);
  }

  /** After a successful Reset, iteration k starts at most one period plus the
      spans of the iterations in between later. */
  lemma {:induction false} StartAfterReset(c: Config, log: seq<Iter>, i: nat, k: nat, l: nat, span: nat)
    requires Run(c, log) && AllWithin(log, l) && span == c.period * SECOND + 2 * l + Extra(c, l)
    requires i < k < |log| && log[i].resetOk
    ensures log[k].start + 2 * l <= log[i].resetDone + Times(k - i, span)
  {
    NextStart(c, log, k, l);
    if k != i + 1 {
      StartAfterReset(c, log, i, k - 1, l, span);
    } else {
      assert Times(1, span) == Times(0, span) + span;
    }
  }

  lemma FloorGap(x: nat, y: nat, m: nat, period: nat)
    requires y / SECOND == x / SECOND + m * period
    ensures y < x + m * (period * SECOND) + SECOND
  {
    assert m * period * SECOND == m * (period * SECOND);
  }

  lemma ResetLasts(c: Config, log: seq<Iter>, i: nat, l: nat)
    requires Run(c, log) && AllWithin(log, l) && i < |log| && log[i].resetOk
    ensures log[i].start <= log[i].resetDone <= log[i].start + 2 * l
  {
    assert Within(log[i], l) && Law(c, log[i]);
  }

  /** Two successful Resets with n = j - i - 1 iterations between them complete
      at most n + 1 times period + 2 l apart, plus what the workaround adds each
      time; and if the commands leave a second of the period over, less than
      (n + 1) * period + 1 s + 2 l apart: the second lost by dropping microseconds
      is lost once, not in every iteration. */
  lemma ResetGap(c: Config, log: seq<Iter>, i: nat, j: nat, l: nat)
    requires Run(c, log) && AllWithin(log, l)
    requires i < j < |log| && log[i].resetOk && log[j].resetOk
    ensures log[j].resetDone - log[i].resetDone <= (j - i) * (c.period * SECOND + 2 * l + Extra(c, l))
    ensures Punctual(c, l) ==> log[j].resetDone - log[i].resetDone < (j - i) * (c.period * SECOND) + SECOND + 2 * l
  {
    var span := c.period * SECOND + 2 * l + Extra(c, l);
    StartAfterReset(c, log, i, j, l, span);
    TimesIs(j - i, span);
    ResetLasts(c, log, i, l);
    ResetLasts(c, log, j, l);
    if Punctual(c, l) {
      StartsOnTheSecond(c, log, i, j, l);
      FloorGap(log[i].start, log[j].start, j - i, c.period);
    }
  }
}
