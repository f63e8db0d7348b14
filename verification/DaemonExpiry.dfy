/** Runs of the bmc-watchdog daemon in which the timer expires, for every period
    and every bound on the commands: the bound of `DaemonSafety` is exact. */
module DaemonExpiry {
  import opened BmcTimer
  import opened DaemonRun
  import opened DaemonSafety

  // ----- Single iterations -----

  /** A timer set to `initial` chunks that was started at `s`. */
  function Started(initial: nat, s: Instant): Timer {
    Timer(Settings(4, 0, 1, 0, 0), {}, initial, true, s + initial * CHUNK, initial)
  }

  /** Under the workaround the daemon sleeps before it enters the loop. */
  function Lead(c: Config): nat {
    if c.ignoreState then SECOND else 0
  }

  /** The timer that a run which begins at `x` finds. */
  function AtEntry(c: Config, initial: nat, x: Instant): Timer
    requires Lead(c) <= x
  {
    Started(initial, x - Lead(c))
  }

  /** A Get at `x` can let the iteration go on.  Under the workaround that takes a
      countdown of more than a second, so that two different readings of it are
      possible. */
  predicate GoesOn(c: Config, t: Timer, x: Instant) {
    t.running && x < t.deadline && (c.ignoreState ==> 0 <= StartOf(t) && StartOf(t) + SECOND <= x)
  }

  /** How far the reading at `x` has to trail so that it is not the remembered one:
      not at all, unless that one still shows. */
  function Trail(c: Config, t: Timer, prev: nat, x: Instant): nat {
    if c.ignoreState && prev == Present(t, x) / 10 then x else 0
  }

  lemma TrailedReading(c: Config, t: Timer, prev: nat, x: Instant)
    requires GoesOn(c, t, x)
    ensures var v := ViewOf(t, x, Trail(c, t, prev, x));
            v.state && (c.ignoreState ==> v.presentSeconds != prev)
  {
    if c.ignoreState {
      var s := Sample(t, x, x);
      assert s == StartOf(t);
      ReadingsDiffer(t, s, x);
    }
  }

  /** An iteration in which everything succeeds: the Get is answered at once and
      done after `g`, the Reset takes effect after `h` and is done after `r`, and
      the Get of the workaround is answered `w` after it was sent. */
  function Renewal(c: Config, t: Timer, prev: nat, x: Instant, g: nat, h: nat, r: nat, w: nat): Iter {
    var finish := x + r + if c.ignoreState then SECOND + w else 0;
    var mid, lag := Deliver(Reset, t, [x + h]), Trail(c, t, prev, x);
    Iter(x, t, prev, true, x, lag, ViewOf(t, x, lag), x + g, false, true, true, [x + h], x + r, mid,
         c.ignoreState, if c.ignoreState then finish else x + g, 0, finish,
         if c.ignoreState then ViewOf(mid, finish, 0).presentSeconds else prev,
         false, finish + Nap(c.period, x, finish) * SECOND, mid)
  }

  lemma RenewalLaw(c: Config, t: Timer, prev: nat, x: Instant, g: nat, h: nat, r: nat, w: nat)
    requires GoesOn(c, t, x) && g <= h <= r
    ensures var i := Renewal(c, t, prev, x, g, h, r, w);
            && Law(c, i) && i.mid.running && StartOf(i.mid) == x + h && i.mid.initial == t.initial
  {
    TrailedReading(c, t, prev, x);
    DeliverReset(t, [x + h]);
  }

  /** An iteration whose Reset fails without effect, after `d` in all. */
  function Stall(c: Config, t: Timer, prev: nat, x: Instant, g: nat, d: nat): Iter {
    var lag := Trail(c, t, prev, x);
    var v := ViewOf(t, x, lag);
    Iter(x, t, prev, true, x, lag, v, x + g, false, true, false, [], x + d, t,
         false, x + g, 0, x + d, if c.ignoreState then v.presentSeconds else prev,
         false, x + d + Nap(c.period, x, x + d) * SECOND, t)
  }

  /** An iteration whose Get fails at once. */
  function Failure(c: Config, t: Timer, prev: nat, x: Instant): Iter {
    Iter(x, t, prev, false, x, 0, ViewOf(t, x, 0), x, false, false, false, [], x, t,
         false, x, 0, x, prev, false, x + Nap(c.period, x, x) * SECOND, t)
  }

  /** The iteration, at `x`, in which the timer is declared stopped. */
  function Verdict(c: Config, t: Timer, prev: nat, x: Instant, lag: nat): Iter {
    Iter(x, t, prev, true, x, lag, ViewOf(t, x, lag), x, true, false, false, [], x, t,
         false, x, 0, x, prev, false, x, t)
  }

  // ----- Runs that go on -----

  lemma {:induction false} StreakOfPrefix(log: seq<Iter>, r: Iter, k: nat)
    requires k <= |log|
    ensures Streak(log + [r], k) == Streak(log, k)
  {
    if k != 0 {
      StreakOfPrefix(log, r, k - 1);
    }
  }

  lemma RegularExtends(c: Config, log: seq<Iter>, r: Iter, m: nat, n: nat, l: nat, a: nat)
    requires Regular(c, log, m, l, a) && log != [] && Linked(log[|log| - 1], r)
    requires Law(c, r) && Within(r, l) && Answered(r, a) && r.after == r.mid
    requires m <= n && (!r.resetOk && !r.declared ==> m < n)
    ensures Regular(c, log + [r], n, l, a)
  {
    RunExtends(c, log, r);
    AllWithinExtends(log, r, l);
    AllAnsweredExtends(log, r, a);
    forall k | 0 <= k <= |log|
      ensures Streak(log + [r], k) == Streak(log, k)
    {
      StreakOfPrefix(log, r, k);
    }
    assert forall i :: 0 <= i < |log| ==> Harmless(c, log[i], log[0].before.initial);
  }

  /** The run can go on: at the end of its last sleep the timer is alive, and
      under the workaround its countdown has run for a second; unless the period is
      zero, the reading remembered shows more than the one to come. */
  predicate Waiting(c: Config, log: seq<Iter>) {
    && log != []
    && var r := log[|log| - 1];
       && !r.declared && !r.signal && GoesOn(c, r.after, r.wake)
       && (c.ignoreState && 1 <= c.period ==> Present(r.after, r.wake) / 10 < r.prevOut)
  }

  /** The countdown is long enough for an iteration with a Reset. */
  predicate CanGoOn(c: Config, initial: nat) {
    if c.ignoreState then 11 <= initial else 1 <= initial
  }

  /** Every reading is taken at once, and every Reset that took effect was followed
      by one. */
  predicate Prompt(c: Config, log: seq<Iter>, initial: nat) {
    c.ignoreState && 1 <= c.period && 20 <= initial ==> Clean(log, 0)
  }

  lemma PromptExtends(c: Config, log: seq<Iter>, r: Iter, initial: nat)
    requires Prompt(c, log, initial) && (c.ignoreState && 1 <= c.period ==> CleanIter(r, 0))
    ensures Prompt(c, log + [r], initial)
  {
  }

  /** The first iteration of a run. */
  lemma Opens(c: Config, initial: nat, x: Instant, g: nat, h: nat, r: nat, w: nat, l: nat, a: nat)
    requires CanGoOn(c, initial) && Lead(c) <= x
    requires g <= l && g <= h <= r <= g + l && r <= h + a && w <= l
    ensures var i := Renewal(c, AtEntry(c, initial, x), 0, x, g, h, r, w);
            && Regular(c, [i], 0, l, a) && i.mid.running && StartOf(i.mid) == x + h && i.mid.initial == initial
            && AllSimple(c, [i]) && Prompt(c, [i], initial) && (i.wake < i.after.deadline ==> Waiting(c, [i]))
  {
    var t := AtEntry(c, initial, x);
    var i := Renewal(c, t, 0, x, g, h, r, w);
    RenewalLaw(c, t, 0, x, g, h, r, w);
    if c.ignoreState && 1 <= c.period && i.wake < i.after.deadline {
      ReadingsDiffer(i.mid, i.finish, i.wake);
    }
  }

  /** One more iteration without a successful Reset. */
  lemma Stalls(c: Config, log: seq<Iter>, m: nat, l: nat, a: nat, g: nat, d: nat)
    requires Regular(c, log, m, l, a) && Waiting(c, log)
    requires g <= l && g <= d <= g + l
    ensures var p := log[|log| - 1]; var i := Stall(c, p.after, p.prevOut, p.wake, g, d);
            && Regular(c, log + [i], m + 1, l, a) && (AllSimple(c, log) ==> AllSimple(c, log + [i]))
            && (c.ignoreState && 1 <= c.period ==> CleanIter(i, 0))
            && (i.wake < i.after.deadline ==> Waiting(c, log + [i]))
  {
    var p := log[|log| - 1];
    var i := Stall(c, p.after, p.prevOut, p.wake, g, d);
    TrailedReading(c, p.after, p.prevOut, p.wake);
    assert Law(c, i);
    RegularExtends(c, log, i, m, m + 1, l, a);
    hide Regular;
    if c.ignoreState && 1 <= c.period && i.wake < i.after.deadline {
      ReadingsDiffer(p.after, p.wake, i.wake);
    }
  }

  // ----- Runs that are as late as can be -----

  /** The run `log` brought the timer to the end of a sleep, as late as can be. */
  predicate Arrived(c: Config, log: seq<Iter>, initial: nat, late: nat) {
    && Waiting(c, log)
    && var r := log[|log| - 1]; r.after.initial == initial && r.wake == StartOf(r.after) + late
  }

  /** A run observed on a countdown of `initial` chunks. */
  predicate RunOn(c: Config, log: seq<Iter>, n: nat, l: nat, a: nat, initial: nat) {
    Regular(c, log, n, l, a) && log != [] && log[0].before.initial == initial
  }

  /** A run as late as that, unless the timer ran out before; it goes on at the
      microsecond `f` of a second. */
  predicate Arrives(c: Config, log: seq<Iter>, n: nat, l: nat, a: nat, initial: nat, late: nat, f: nat) {
    && RunOn(c, log, n, l, a, initial) && AllSimple(c, log) && Prompt(c, log, initial)
    && (if Arrived(c, log, initial, late) then log[|log| - 1].wake % SECOND == f
        else !AllSafe(c, log) && initial * CHUNK <= late)
  }

  lemma Opening(c: Config, initial: nat, x: Instant, g: nat, h: nat, r: nat, w: nat, l: nat, a: nat,
                late: nat, f: nat)
    requires CanGoOn(c, initial) && Lead(c) <= x
    requires g <= l && g <= h <= r <= g + l && r <= h + a && w <= l
    requires var i := Renewal(c, AtEntry(c, initial, x), 0, x, g, h, r, w);
             x + h + late == i.wake && i.wake % SECOND == f
    ensures var i := Renewal(c, AtEntry(c, initial, x), 0, x, g, h, r, w);
            Arrives(c, [i], 0, l, a, initial, late, f)
  {
    var i := Renewal(c, AtEntry(c, initial, x), 0, x, g, h, r, w);
    Opens(c, initial, x, g, h, r, w, l, a);
    if i.mid.deadline <= i.wake {
      assert !AliveUntil(i.before, i.hits, i.wake);
      assert !Safe(c, [i][0]);
    }
  }

  lemma WholePeriods(x: nat, d: nat, period: nat)
    ensures (x + d + period * SECOND) % SECOND == (x % SECOND + d) % SECOND
  {
    assert (x + d + period * SECOND) / SECOND == (x + d) / SECOND + period;
    assert (x % SECOND + d) / SECOND == (x + d) / SECOND - x / SECOND;
  }

  lemma RegularStill(c: Config, log: seq<Iter>, n: nat, l: nat, a: nat)
    requires Regular(c, log, n, l, a)
    ensures Regular(c, log, n + 1, l, a)
  {
  }

  lemma StallMore(c: Config, log: seq<Iter>, n: nat, l: nat, a: nat, initial: nat, late: nat, f: nat, g: nat, d: nat)
    returns (longer: seq<Iter>)
    requires CanGoOn(c, initial) && Arrives(c, log, n, l, a, initial, late, f)
    requires g <= l && g <= d <= g + l
    requires Arrived(c, log, initial, late) ==>
               Nap(c.period, log[|log| - 1].wake, log[|log| - 1].wake + d) == c.period
    ensures Arrives(c, longer, n + 1, l, a, initial, late + c.period * SECOND + d, (f + d) % SECOND)
  {
    hide Regular;
    hide AllSimple;
    hide Prompt;
    longer := log;
    if Arrived(c, log, initial, late) {
      var p := log[|log| - 1];
      var i := Stall(c, p.after, p.prevOut, p.wake, g, d);
      Stalls(c, log, n, l, a, g, d);
      PromptExtends(c, log, i, initial);
      longer := log + [i];
      WholePeriods(p.wake, d, c.period);
      if i.after.deadline <= i.wake {
        assert !Safe(c, longer[|log|]);
      }
    } else {
      RegularStill(c, log, n, l, a);
    }
  }

  // ----- Stalls that are as long as can be -----

  lemma UsedUp(period: nat, x: Instant, l: nat)
    requires period * SECOND <= x % SECOND + 2 * l
    ensures Nap(period, x, x + 2 * l) == period
  {
    assert (x + 2 * l) / SECOND >= x / SECOND + period by {
      assert (x / SECOND * SECOND + period * SECOND) / SECOND == x / SECOND + period;
    }
  }

  /** Command times that stay within a second of the clock are not made up for. */
  lemma SameSecond(period: nat, x: Instant, d: nat)
    requires x % SECOND + d < SECOND
    ensures Nap(period, x, x + d) == period && (x + d) % SECOND == x % SECOND + d
  {
    assert (x + d) / SECOND == x / SECOND;
  }

  lemma ClimbOn(c: Config, n: nat, l: nat, a: nat, initial: nat, log: seq<Iter>, late: nat, e: nat, f: nat)
    returns (longer: seq<Iter>)
    requires CanGoOn(c, initial) && Arrives(c, log, n, l, a, initial, late, e)
    requires e <= f < SECOND && f <= e + 2 * l
    ensures Arrives(c, longer, n + 1, l, a, initial, late + c.period * SECOND + (f - e), f)
  {
    hide Regular;
    hide AllSimple;
    hide Prompt;
    var d := f - e;
    if Arrived(c, log, initial, late) {
      SameSecond(c.period, log[|log| - 1].wake, d);
    }
    longer := StallMore(c, log, n, l, a, initial, late, e, if l < d then l else d, d);
  }

  lemma OverrunOn(c: Config, n: nat, l: nat, a: nat, initial: nat, log: seq<Iter>, late: nat, f: nat)
    returns (longer: seq<Iter>)
    requires CanGoOn(c, initial) && Arrives(c, log, n, l, a, initial, late, f)
    requires c.period * SECOND <= f + 2 * l
    ensures Arrives(c, longer, n + 1, l, a, initial, late + c.period * SECOND + 2 * l, (f + 2 * l) % SECOND)
  {
    hide Regular;
    hide AllSimple;
    hide Prompt;
    if Arrived(c, log, initial, late) {
      UsedUp(c.period, log[|log| - 1].wake, l);
    }
    longer := StallMore(c, log, n, l, a, initial, late, f, l, 2 * l);
  }

  /** One iteration more, as long as can be. */
  lemma LongestStall(c: Config, n: nat, l: nat, a: nat, initial: nat, log: seq<Iter>, late: nat, f: nat)
    returns (longer: seq<Iter>, d: nat, g: nat)
    requires CanGoOn(c, initial) && Arrives(c, log, n, l, a, initial, late, f) && f < SECOND
    ensures g < SECOND && forall j: nat :: Ahead(c, l, j + 1, f) == d + Ahead(c, l, j, g)
    ensures d <= c.period * SECOND + 2 * l
    ensures Arrives(c, longer, n + 1, l, a, initial, late + d, g)
  {
    hide Arrives;
    if c.period * SECOND <= f + 2 * l {
      d, g := c.period * SECOND + 2 * l, (f + 2 * l) % SECOND;
      longer := OverrunOn(c, n, l, a, initial, log, late, f);
    } else {
      d, g := c.period * SECOND + Climb(l, f), f + Climb(l, f);
      longer := ClimbOn(c, n, l, a, initial, log, late, f, g);
    }
  }

  /** `j` iterations more, each as long as can be. */
  lemma {:induction false} Stalling(c: Config, n: nat, j: nat, l: nat, a: nat, initial: nat, log: seq<Iter>, late: nat,
                                    f: nat) returns (longer: seq<Iter>, g: nat)
    requires CanGoOn(c, initial) && Arrives(c, log, n, l, a, initial, late, f) && f < SECOND
    ensures Arrives(c, longer, n + j, l, a, initial, late + Ahead(c, l, j, f), g)
    decreases j
  {
    hide Arrives;
    longer, g := log, f;
    if j != 0 {
      var d;
      longer, d, g := LongestStall(c, n, l, a, initial, log, late, f);
      assert Ahead(c, l, j - 1 + 1, f) == d + Ahead(c, l, j - 1, g);
      longer, g := Stalling(c, n + 1, j - 1, l, a, initial, longer, late + d, g);
    }
  }

  /** `j` iterations more that take no time but their sleeps. */
  lemma {:induction false} Idle(c: Config, n: nat, j: nat, l: nat, a: nat, initial: nat, log: seq<Iter>, late: nat,
                                f: nat) returns (longer: seq<Iter>)
    requires CanGoOn(c, initial) && Arrives(c, log, n, l, a, initial, late, f) && f < SECOND
    ensures Arrives(c, longer, n + j, l, a, initial, late + Times(j, c.period * SECOND), f)
    decreases j
  {
    hide Arrives;
    longer := log;
    if j != 0 {
      longer := Idle(c, n, j - 1, l, a, initial, log, late, f);
      longer := ClimbOn(c, n + j - 1, l, a, initial, longer, late + Times(j - 1, c.period * SECOND), f, f);
    }
  }

  // ----- How a run begins -----

  lemma GentleNap(c: Config, initial: nat, x: Instant, r: nat, w: nat)
    requires Lead(c) <= x && x % SECOND + r + w < SECOND && (if c.ignoreState then 2 <= c.period else w == 0)
    ensures var i := Renewal(c, AtEntry(c, initial, x), 0, x, 0, 0, r, w);
            i.wake == x + c.period * SECOND + r + w && i.wake % SECOND == x % SECOND + r + w
  {
    hide Deliver;
    hide ViewOf;
    if c.ignoreState {
      assert (x + r + SECOND + w) / SECOND == x / SECOND + 1;
      assert Nap(c.period, x, x + r + SECOND + w) * SECOND == c.period * SECOND - SECOND;
    } else {
      assert (x + r) / SECOND == x / SECOND;
    }
    WholePeriods(x, r + w, c.period);
  }

  /** With the Reset at once, and `e` for its answer and what follows it, up to
      microsecond `f`. */
  lemma GentleStart(c: Config, l: nat, a: nat, initial: nat, e: nat, f: nat) returns (log: seq<Iter>)
    requires CanGoOn(c, initial) && a <= l && e <= f < SECOND
    requires if c.ignoreState then 2 <= c.period && e <= a + l else e <= a
    ensures Arrives(c, log, 0, l, a, initial, c.period * SECOND + e, f)
  {
    hide Arrives;
    var r, x := Min(a, e), Lead(c) + f - e;
    GentleNap(c, initial, x, r, e - r);
    Opening(c, initial, x, 0, 0, r, e - r, l, a, c.period * SECOND + e, f);
    log := [Renewal(c, AtEntry(c, initial, x), 0, x, 0, 0, r, e - r)];
  }

  lemma LongNap(period: nat, x: Instant, d: nat, k: nat, f: nat)
    requires x + d == k * SECOND + f && f < SECOND && f + period * SECOND < d + SECOND
    ensures Nap(period, x, x + d) == period
  {
    assert (x + d) / SECOND == k;
    if 1 <= period {
      assert x < (k - period + 1) * SECOND;
    }
  }

  lemma LongWake(c: Config, l: nat, a: nat, initial: nat, f: nat, k: nat) returns (x: Instant)
    requires a <= l && f < SECOND && f + c.period * SECOND < SECOND + 2 * l + Extra(c, l)
    requires k == (2 * l + Extra(c, l)) / SECOND + 2
    ensures Lead(c) <= x == k * SECOND + f - 2 * l - Extra(c, l)
    ensures var i := Renewal(c, AtEntry(c, initial, x), 0, x, l, 2 * l - a, 2 * l, l);
            i.wake == k * SECOND + f + c.period * SECOND && i.wake % SECOND == f
  {
    hide Deliver;
    hide ViewOf;
    x := k * SECOND + f - 2 * l - Extra(c, l);
    LongNap(c.period, x, 2 * l + Extra(c, l), k, f);
    WholePeriods(k * SECOND, f, c.period);
  }

  /** With every command as long as it can be, done at microsecond `f`, so that the
      period is used up. */
  lemma LongStart(c: Config, l: nat, a: nat, initial: nat, f: nat) returns (log: seq<Iter>)
    requires CanGoOn(c, initial) && a <= l && f < SECOND
    requires f + c.period * SECOND < SECOND + 2 * l + Extra(c, l)
    ensures Arrives(c, log, 0, l, a, initial, c.period * SECOND + a + Extra(c, l), f)
  {
    hide Arrives;
    var k := (2 * l + Extra(c, l)) / SECOND + 2;
    var x := LongWake(c, l, a, initial, f, k);
    Opening(c, initial, x, l, 2 * l - a, 2 * l, l, l, a, c.period * SECOND + a + Extra(c, l), f);
    log := [Renewal(c, AtEntry(c, initial, x), 0, x, l, 2 * l - a, 2 * l, l)];
  }

  // ----- The exact condition -----

  /** The beginning of a run that goes on at microsecond `f`, as late as can be. */
  lemma StartAt(c: Config, l: nat, a: nat, initial: nat, f: nat) returns (log: seq<Iter>)
    requires CanGoOn(c, initial) && a <= l && f < SECOND
    ensures Arrives(c, log, 0, l, a, initial, First(c, l, a, f), f)
  {
    hide Arrives;
    if f + c.period * SECOND < SECOND + 2 * l + Extra(c, l) {
      log := LongStart(c, l, a, initial, f);
    } else {
      log := GentleStart(c, l, a, initial, Min(a + if c.ignoreState then l else 0, f), f);
    }
  }

  /** For every microsecond there is a run as late as `Late` says. */
  lemma LateRun(c: Config, n: nat, l: nat, a: nat, initial: nat, f: nat) returns (log: seq<Iter>, g: nat)
    requires CanGoOn(c, initial) && a <= l && f < SECOND
    ensures Arrives(c, log, n, l, a, initial, Late(c, n, l, a, f), g)
  {
    hide Arrives;
    log := StartAt(c, l, a, initial, f);
    log, g := Stalling(c, 0, n, l, a, initial, log, First(c, l, a, f), f);
  }

  /** The Reset finds the timer stopped when it lands. */
  predicate ReachesStopped(r: Iter) {
    r.hits != [] && !Expire(r.before, r.hits[0]).running
  }

  /** A Get sees the timer running, and two commands later the Reset lands. */
  lemma LateReset(c: Config, log: seq<Iter>, n: nat, l: nat, a: nat, initial: nat, late: nat)
    returns (longer: seq<Iter>)
    requires RunOn(c, log, n, l, a, initial) && AllSimple(c, log)
    requires Arrived(c, log, initial, late) && initial * CHUNK <= late + 2 * l
    ensures RunOn(c, longer, n, l, a, initial) && AllSimple(c, longer) && !AllSafe(c, longer)
    ensures var r := longer[|longer| - 1]; r.getOk && Expire(r.before, r.getAt).running && ReachesStopped(r)
  {
    var p := log[|log| - 1];
    var i := Renewal(c, p.after, p.prevOut, p.wake, l, 2 * l, 2 * l, l);
    RenewalLaw(c, p.after, p.prevOut, p.wake, l, 2 * l, 2 * l, l);
    RegularExtends(c, log, i, n, n, l, a);
    longer := log + [i];
    assert !AliveUntil(i.before, [], i.hits[0]);
    assert !Safe(c, longer[|log|]);
  }

  /** Countdowns too short for the first Get to see them run, but for the one that
      the workaround never lets a Reset be sent to. */
  lemma ShortRun(c: Config, n: nat, l: nat, a: nat, initial: nat) returns (log: seq<Iter>)
    requires !CanGoOn(c, initial) && (c.ignoreState ==> n != 0)
    ensures RunOn(c, log, n, l, a, initial) && AllSimple(c, log) && !AllSafe(c, log)
  {
    var t := AtEntry(c, initial, Lead(c));
    log := [if c.ignoreState then Failure(c, t, 0, Lead(c)) else Verdict(c, t, 0, Lead(c), 0)];
    assert Law(c, log[0]) && Streak(log, 0) == 0 && Streak(log, 1) <= n;
    assert !Safe(c, log[0]);
  }

  lemma ShortIsLate(c: Config, n: nat, l: nat, a: nat, initial: nat, f: nat)
    requires !CanGoOn(c, initial) && f < SECOND
    ensures initial * CHUNK <= Late(c, n, l, a, f)
  {
  }

  /** With a countdown that is not longer than that and two commands there is a run,
      as regular as any, in which the timer runs out.  If the countdown lasts to the
      start of the iteration, it is a Reset, sent to a timer seen running, that
      reaches it stopped. */
  lemma ExpiringRun(c: Config, n: nat, l: nat, a: nat, initial: nat, f: nat) returns (log: seq<Iter>)
    requires a <= l && f < SECOND && initial * CHUNK <= Late(c, n, l, a, f) + 2 * l
    requires CanGoOn(c, initial) || !c.ignoreState || n != 0
    ensures RunOn(c, log, n, l, a, initial) && AllSimple(c, log) && !AllSafe(c, log)
    ensures Late(c, n, l, a, f) < initial * CHUNK ==>
              var r := log[|log| - 1];
              r.getOk && Expire(r.before, r.getAt).running && ReachesStopped(r)
  {
    if !CanGoOn(c, initial) {
      ShortIsLate(c, n, l, a, initial, f);
      log := ShortRun(c, n, l, a, initial);
    } else {
      hide Regular;
      hide AllSimple;
      hide AllSafe;
      var g;
      log, g := LateRun(c, n, l, a, initial, f);
      if Arrived(c, log, initial, Late(c, n, l, a, f)) {
        log := LateReset(c, log, n, l, a, initial, Late(c, n, l, a, f));
      }
    }
  }

  /** Under the workaround a countdown of at most a second has run out when the loop
      begins, and the first Get that is answered ends it. */
  predicate OverAtOnce(c: Config, n: nat, initial: nat) {
    c.ignoreState && n == 0 && initial <= 10
  }

  lemma OverBeforeHarm(c: Config, log: seq<Iter>, l: nat, a: nat, initial: nat)
    requires OverAtOnce(c, 0, initial) && RunOn(c, log, 0, l, a, initial)
    ensures AllSafe(c, log)
  {
    assert Law(c, log[0]) && Streak(log, 1) == 0;
    assert 1 < |log| ==> Linked(log[0], log[1]);
  }

  /** Exactly the countdowns that are long enough are safe in all runs, and those
      with which the daemon ends before a timer could run out. */
  lemma SafeExactly(c: Config, n: nat, l: nat, a: nat, initial: nat)
    requires a <= l
    ensures (forall log :: RunOn(c, log, n, l, a, initial) ==> AllSafe(c, log))
       <==> (Enough(c, initial, n, l, a) || OverAtOnce(c, n, initial))
  {
    if Enough(c, initial, n, l, a) || OverAtOnce(c, n, initial) {
      forall log | RunOn(c, log, n, l, a, initial)
        ensures AllSafe(c, log)
      {
        if Enough(c, initial, n, l, a) {
          RunIsSafe(c, log, n, l, a);
        } else {
          OverBeforeHarm(c, log, l, a, initial);
        }
      }
    } else {
      var f :| 0 <= f < SECOND && initial * CHUNK <= Late(c, n, l, a, f) + 2 * l;
      var log := ExpiringRun(c, n, l, a, initial, f);
      assert RunOn(c, log, n, l, a, initial);
    }
  }

  // ----- Resets that reach a stopped timer -----

  predicate NoneReachesStopped(log: seq<Iter>) {
    forall k :: 0 <= k < |log| ==> !ReachesStopped(log[k])
  }

  lemma SafeReachesRunning(c: Config, log: seq<Iter>)
    requires Run(c, log) && AllSafe(c, log) && !c.ignoreState
    ensures NoneReachesStopped(log)
  {
    forall k | 0 <= k < |log|
      ensures !ReachesStopped(log[k])
    {
      assert Law(c, log[k]) && Safe(c, log[k]);
    }
  }

  /** A timer with a countdown of zero is never seen running. */
  lemma {:induction false} NothingToReach(c: Config, log: seq<Iter>, n: nat, l: nat, a: nat, k: nat)
    requires RunOn(c, log, n, l, a, 0) && !c.ignoreState && k < |log|
    ensures log[k].before.running ==> log[k].before.deadline <= log[k].start
    ensures log[k].hits == []
  {
    assert Law(c, log[k]);
    if k != 0 {
      NothingToReach(c, log, n, l, a, k - 1);
      assert Linked(log[k - 1], log[k]) && Law(c, log[k - 1]) && Harmless(c, log[k - 1], 0);
    }
  }

  /** Commands that take no time leave none between the Get and the Reset. */
  lemma InstantResets(c: Config, log: seq<Iter>, n: nat, a: nat, initial: nat, k: nat)
    requires RunOn(c, log, n, 0, a, initial) && !c.ignoreState && k < |log|
    ensures !ReachesStopped(log[k])
  {
    assert Law(c, log[k]) && Within(log[k], 0);
  }

  /** From `late` on, with `j` iterations to go, a run that arrives when two
      commands are more than the countdown has left. */
  lemma {:induction false} Reach(c: Config, n: nat, j: nat, l: nat, a: nat, initial: nat, log: seq<Iter>, late: nat,
                                 f: nat) returns (longer: seq<Iter>, end: nat, g: nat)
    requires CanGoOn(c, initial) && Arrives(c, log, n, l, a, initial, late, f) && f < SECOND
    requires late + Times(j, c.period * SECOND) < initial * CHUNK <= late + Ahead(c, l, j, f) + 2 * l
    ensures Arrives(c, longer, n + j, l, a, initial, end, g) && end < initial * CHUNK <= end + 2 * l
    decreases j
  {
    hide Arrives;
    if initial * CHUNK <= late + Times(j, c.period * SECOND) + 2 * l {
      longer := Idle(c, n, j, l, a, initial, log, late, f);
      end, g := late + Times(j, c.period * SECOND), f;
    } else {
      var d;
      longer, d, g := LongestStall(c, n, l, a, initial, log, late, f);
      assert Ahead(c, l, j - 1 + 1, f) == d + Ahead(c, l, j - 1, g);
      longer, end, g := Reach(c, n + 1, j - 1, l, a, initial, longer, late + d, g);
    }
  }

  /** Countdowns longer than n + 1 periods: the run goes on until two commands are
      more than is left. */
  lemma StoppedLate(c: Config, n: nat, l: nat, a: nat, initial: nat) returns (log: seq<Iter>, end: nat, g: nat)
    requires !c.ignoreState && a <= l && !Enough(c, initial, n, l, a)
    requires c.period * SECOND + Times(n, c.period * SECOND) < initial * CHUNK
    ensures Arrives(c, log, n, l, a, initial, end, g) && end < initial * CHUNK <= end + 2 * l
  {
    hide Arrives;
    var f :| 0 <= f < SECOND && initial * CHUNK <= Late(c, n, l, a, f) + 2 * l;
    if First(c, l, a, f) + Times(n, c.period * SECOND) < initial * CHUNK {
      log := StartAt(c, l, a, initial, f);
      log, end, g := Reach(c, 0, n, l, a, initial, log, First(c, l, a, f), f);
    } else {
      log := GentleStart(c, l, a, initial, 0, 0);
      log := Idle(c, 0, n, l, a, initial, log, c.period * SECOND, 0);
      end, g := c.period * SECOND + Times(n, c.period * SECOND), 0;
    }
  }

  /** The first iteration of a run in which another process restarts the timer
      `age` before the sleep ends. */
  function Renewed(c: Config, initial: nat, age: nat): Iter
    requires !c.ignoreState && age <= c.period * SECOND
  {
    var i := Renewal(c, AtEntry(c, initial, 0), 0, 0, 0, 0, 0, 0);
    i.(after := Started(initial, c.period * SECOND - age))
  }

  lemma RenewedArrives(c: Config, l: nat, a: nat, initial: nat, age: nat)
    requires !c.ignoreState && age <= c.period * SECOND && age < initial * CHUNK
    ensures Arrives(c, [Renewed(c, initial, age)], 0, l, a, initial, age, 0)
  {
    var i := Renewal(c, AtEntry(c, initial, 0), 0, 0, 0, 0, 0, 0);
    RenewalLaw(c, AtEntry(c, initial, 0), 0, 0, 0, 0, 0, 0);
    assert Nap(c.period, 0, 0) == c.period;
    WholePeriods(0, 0, c.period);
  }

  /** Shorter ones: another process restarts the timer in such a way that it runs
      out while some later Reset is under way. */
  lemma {:induction false} StoppedEarly(c: Config, n: nat, l: nat, a: nat, initial: nat, age: nat)
    returns (log: seq<Iter>, m: nat)
    requires !c.ignoreState && age < c.period * SECOND + Times(n, c.period * SECOND) && age < initial * CHUNK
    ensures m <= n && Arrives(c, log, m, l, a, initial, age, 0)
  {
    if age <= c.period * SECOND || n == 0 {
      RenewedArrives(c, l, a, initial, age);
      log, m := [Renewed(c, initial, age)], 0;
    } else {
      log, m := StoppedEarly(c, n - 1, l, a, initial, age - c.period * SECOND);
      log := ClimbOn(c, m, l, a, initial, log, age - c.period * SECOND, 0, 0);
      m := m + 1;
    }
  }

  lemma RegularUpTo(c: Config, log: seq<Iter>, m: nat, n: nat, l: nat, a: nat)
    requires Regular(c, log, m, l, a) && m <= n
    ensures Regular(c, log, n, l, a)
  {
  }

  lemma StoppedRun(c: Config, n: nat, l: nat, a: nat, initial: nat) returns (log: seq<Iter>)
    requires !c.ignoreState && a <= l && l != 0 && initial != 0 && !Enough(c, initial, n, l, a)
    ensures RunOn(c, log, n, l, a, initial) && AllSimple(c, log) && !NoneReachesStopped(log)
  {
    hide Regular;
    hide AllSimple;
    hide AllSafe;
    if c.period * SECOND + Times(n, c.period * SECOND) < initial * CHUNK {
      var end, g;
      log, end, g := StoppedLate(c, n, l, a, initial);
      log := LateReset(c, log, n, l, a, initial, end);
    } else {
      var m, age := 0, initial * CHUNK - 1;
      log, m := StoppedEarly(c, n, l, a, initial, age);
      log := LateReset(c, log, m, l, a, initial, age);
      RegularUpTo(c, log, m, n, l, a);
    }
    assert ReachesStopped(log[|log| - 1]);
  }

  /** Without the workaround, no Reset in any run reaches a stopped timer: exactly
      if the countdown is long enough, or zero, or commands take no time at all. */
  lemma ResetsMeetRunningExactly(c: Config, n: nat, l: nat, a: nat, initial: nat)
    requires !c.ignoreState && a <= l
    ensures (forall log :: RunOn(c, log, n, l, a, initial) ==> NoneReachesStopped(log))
       <==> (Enough(c, initial, n, l, a) || initial == 0 || l == 0)
  {
    if Enough(c, initial, n, l, a) || initial == 0 || l == 0 {
      forall log | RunOn(c, log, n, l, a, initial)
        ensures NoneReachesStopped(log)
      {
        if Enough(c, initial, n, l, a) {
          RunIsSafe(c, log, n, l, a);
          SafeReachesRunning(c, log);
        } else {
          forall k | 0 <= k < |log|
            ensures !ReachesStopped(log[k])
          {
            if l == 0 { InstantResets(c, log, n, a, initial, k); } else { NothingToReach(c, log, n, l, a, k); }
          }
        }
      }
    } else {
      var log := StoppedRun(c, n, l, a, initial);
      assert RunOn(c, log, n, l, a, initial);
    }
  }
}
