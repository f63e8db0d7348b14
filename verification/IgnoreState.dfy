/** The ignore-state workaround of the bmc-watchdog daemon, which takes a timer
    for stopped when two readings show the same second: when that is never said
    of a healthy timer, and when a stop by another process is noticed. */
module IgnoreState {
  import opened BmcTimer
  import opened DaemonRun
  import opened DaemonSafety
  import opened DaemonExpiry

  predicate Naps(c: Config, r: Iter, w: nat) {
    r.start <= r.finish && w <= Nap(c.period, r.start, r.finish)
  }

  predicate NapsAtLeast(c: Config, log: seq<Iter>, w: nat) {
    forall i :: 0 <= i < |log| && !log[i].declared ==> Naps(c, log[i], w)
  }

  /** The Get found the timer running, with a second left at least. */
  predicate Healthy(r: Iter) {
    r.getOk && var e := Expire(r.before, r.getAt); e.running && 10 <= Present(e, r.getAt)
  }

  predicate FalseStop(r: Iter) {
    r.declared && Healthy(r)
  }

  predicate NoneFalse(log: seq<Iter>) {
    forall k :: 0 <= k < |log| ==> !FalseStop(log[k])
  }

  // ----- No false verdicts -----

  /** The remembered reading is zero, or it was taken from the countdown that is
      still in force, a whole nap before the iteration starts. */
  lemma {:induction false} RememberedReading(c: Config, log: seq<Iter>, k: nat, w: nat, trail: nat) returns (x: Instant)
    requires Run(c, log) && c.ignoreState && Clean(log, trail) && NapsAtLeast(c, log, w)
    requires k < |log|
    ensures var r := log[k];
            r.prevIn == 0 || !r.before.running || (ReadingOf(r.before, r.prevIn, x) && x + w * SECOND <= r.start)
  {
    if k == 0 {
      x := 0;
    } else {
      var r := log[k - 1];
      assert Linked(r, log[k]) && Law(c, r) && CleanIter(r, trail) && Naps(c, r, w);
      AtMost(w, Nap(c.period, r.start, r.finish), SECOND, SECOND);
      x := RememberedReading(c, log, k - 1, w, trail);
      if r.regetOk {
        x := Sample(r.mid, r.regetAt, r.relag);
      } else if r.getOk {
        x := Sample(r.before, r.getAt, r.lag);
      }
    }
  }

  /** In ignore-state mode, over every clean run whose naps are a second longer
      than readings may trail, a healthy timer is never declared stopped.  With
      readings that do not trail a nap of one second is enough, with the 100 ms
      of section 27.7 a nap of two; the reading after a Reset may trail by any
      time. */
  lemma NoFalseStop(c: Config, log: seq<Iter>, k: nat, w: nat, trail: nat)
    requires Run(c, log) && c.ignoreState && Clean(log, trail) && NapsAtLeast(c, log, w)
    requires trail + SECOND <= w * SECOND
    requires k < |log| && Healthy(log[k])
    ensures !log[k].declared
  {
    var r := log[k];
    assert Law(c, r) && CleanIter(r, trail);
    var x := RememberedReading(c, log, k, w, trail);
    if r.prevIn != 0 {
      ReadingsDiffer(r.before, x, Sample(r.before, r.getAt, r.lag));
    }
  }

  // ----- Naps of one second -----

  lemma PresentIs(t: Timer, x: Instant)
    requires t.running && x < t.deadline
    ensures Present(t, x) == t.initial - (x - StartOf(t)) / CHUNK
  {
  }

  /** An iteration in which every command succeeds, and the next Get. */
  function Pair(c: Config, initial: nat, x: Instant, g: nat, h: nat, r: nat, w: nat, lag: nat): seq<Iter>
    requires Lead(c) <= x
  {
    var i := Renewal(c, AtEntry(c, initial, x), 0, x, g, h, r, w);
    [i, Verdict(c, i.mid, i.prevOut, i.wake, lag)]
  }

  lemma PairStops(c: Config, initial: nat, x: Instant, g: nat, h: nat, r: nat, w: nat, lag: nat, l: nat)
    requires c.ignoreState && 20 <= initial && SECOND <= x
    requires g <= l && g <= h <= r <= g + l && w <= l
    requires var i := Renewal(c, AtEntry(c, initial, x), 0, x, g, h, r, w);
             && i.wake < i.mid.deadline && 10 <= Present(i.mid, i.wake)
             && i.prevOut == ViewOf(i.mid, i.wake, lag).presentSeconds
    ensures var log := Pair(c, initial, x, g, h, r, w, lag);
            && Regular(c, log, 0, l, l) && Entry(c, log, 0) && AllSimple(c, log) && Clean(log, lag)
            && FalseStop(log[1]) && log[0].before.initial == initial
  {
    Opens(c, initial, x, g, h, r, w, l, l);
    RenewalLaw(c, AtEntry(c, initial, x), 0, x, g, h, r, w);
    var log := Pair(c, initial, x, g, h, r, w, lag);
    assert Law(c, log[1]);
    RegularExtends(c, [log[0]], log[1], 0, 0, l, l);
    assert [log[0]] + [log[1]] == log;
  }

  /** A second later the countdown shows ten chunks less, 100 ms before that nine. */
  lemma TenthsLater(t: Timer, s: Instant, y: nat)
    requires t.running && StartOf(t) == s && s + y + SECOND < t.deadline
    ensures Present(t, s + y) == t.initial - y / CHUNK
    ensures Present(t, s + y + SECOND - CHUNK) == t.initial - y / CHUNK - 9
    ensures Present(t, s + y + SECOND) == t.initial - y / CHUNK - 10
  {
    PresentIs(t, s + y);
    PresentIs(t, s + y + SECOND - CHUNK);
    PresentIs(t, s + y + SECOND);
  }

  /** A nap of one second and a reading that trails by 100 ms are enough for a
      false verdict, if the countdown is read in the right tenth of its second. */
  lemma ShortNapStops(c: Config, seconds: nat, x: Instant, g: nat, h: nat, r: nat, w: nat, l: nat)
    requires c.ignoreState && SECOND <= x && Nap(c.period, x, x + r + SECOND + w) == 1
    requires g <= l && g <= h <= r <= g + l && w <= l
    requires var y := r - h + SECOND + w; CHUNK <= y % SECOND < 2 * CHUNK && 4 + y / SECOND <= seconds
    ensures var log := Pair(c, 10 * seconds, x, g, h, r, w, CHUNK);
            && Regular(c, log, 0, l, l) && Entry(c, log, 0) && AllSimple(c, log) && Clean(log, CHUNK)
            && FalseStop(log[1]) && log[0].before.initial == 10 * seconds
  {
    var i := Renewal(c, AtEntry(c, 10 * seconds, x), 0, x, g, h, r, w);
    RenewalLaw(c, AtEntry(c, 10 * seconds, x), 0, x, g, h, r, w);
    assert i.wake == i.finish + SECOND;
    TenthsLater(i.mid, x + h, r - h + SECOND + w);
    SecondTenth(r - h + SECOND + w);
    PairStops(c, 10 * seconds, x, g, h, r, w, CHUNK, l);
  }

  lemma SecondTenth(y: nat)
    requires CHUNK <= y % SECOND < 2 * CHUNK
    ensures y / CHUNK == 10 * (y / SECOND) + 1
  {
  }

  /** With a period of zero the second Get shows what the first one did. */
  lemma NoNapStops(c: Config, l: nat)
    requires c.ignoreState && c.period == 0
    ensures var log := Pair(c, 50, SECOND, 0, 0, 0, 0, 0);
            && Regular(c, log, 0, l, l) && Entry(c, log, 0) && AllSimple(c, log) && Clean(log, 0)
            && FalseStop(log[1]) && log[0].before.initial == 50
  {
    var i := Renewal(c, AtEntry(c, 50, SECOND), 0, SECOND, 0, 0, 0, 0);
    RenewalLaw(c, AtEntry(c, 50, SECOND), 0, SECOND, 0, 0, 0, 0);
    PresentIs(i.mid, i.finish);
    PairStops(c, 50, SECOND, 0, 0, 0, 0, 0, l);
  }

  /** For every period there is a run with every command succeeding, a countdown
      of whole seconds and naps of one second in which a reading that trails by
      100 ms makes the daemon give up a healthy timer. */
  lemma FalseStopRun(c: Config) returns (log: seq<Iter>)
    requires c.ignoreState
    ensures Run(c, log) && Clean(log, CHUNK) && NapsAtLeast(c, log, if c.period == 0 then 0 else 1)
    ensures |log| == 2 && log[0].resetOk && log[0].regetOk && log[0].before.initial == 50
    ensures AllSimple(c, log) && Entry(c, log, 0) && FalseStop(log[1])
  {
    if c.period == 0 {
      NoNapStops(c, 0);
      log := Pair(c, 50, SECOND, 0, 0, 0, 0, 0);
    } else {
      var g := if c.period == 1 then 0 else (c.period - 2) * SECOND;
      var d := SECOND + g + SECOND + CHUNK;
      assert d / SECOND == if c.period == 1 then 2 else c.period;
      assert Nap(c.period, SECOND, SECOND + g + SECOND + CHUNK) == 1;
      ShortNapStops(c, 5, SECOND, g, g, g, CHUNK, g + CHUNK);
      log := Pair(c, 50, SECOND, g, g, g, CHUNK, CHUNK);
    }
  }

  /** A clean run with readings up to 100 ms late and naps of `w` seconds. */
  predicate Trailing(c: Config, log: seq<Iter>, w: nat) {
    Run(c, log) && Clean(log, CHUNK) && NapsAtLeast(c, log, w)
  }

  /** No false verdict, in all clean runs with naps of at least `w` seconds and
      readings up to 100 ms late: exactly if `w` is two or more. */
  lemma NoFalseStopExactly(c: Config, w: nat)
    requires c.ignoreState && w <= c.period
    ensures (forall log :: Trailing(c, log, w) ==> NoneFalse(log)) <==> 2 <= w
  {
    if 2 <= w {
      forall log: seq<Iter>, k | Trailing(c, log, w) && 0 <= k < |log|
        ensures !FalseStop(log[k])
      {
        if Healthy(log[k]) {
          NoFalseStop(c, log, k, w, CHUNK);
        }
      }
    } else {
      var log := FalseStopRun(c);
      assert Trailing(c, log, w) && FalseStop(log[1]);
    }
  }

  // ----- The same in terms of the commands: what they must not take -----

  /** A run as the daemon has it: commands return within `l`, at most `n` iterations
      in a row go without a successful Reset, the countdown is one of whole seconds,
      and readings at the top of an iteration trail by up to 100 ms. */
  predicate Timely(c: Config, log: seq<Iter>, n: nat, l: nat) {
    Regular(c, log, n, l, l) && Clean(log, CHUNK) && (log != [] ==> log[0].before.initial % 10 == 0)
  }

  /** No command is so long that a nap of one second can meet a countdown in the
      wrong tenth of its second. */
  predicate Steady(c: Config, n: nat, l: nat) {
    if c.period == 0 then false
    else if c.period <= 2 then (if n == 0 then 2 * l else n * (2 * l) + l) < CHUNK
    else if c.period == 3 then 2 * l < CHUNK
    else if c.period == 4 then l <= 4 * CHUNK
    else 3 * l + 3 * SECOND <= c.period * SECOND
  }

  /** Readings taken at `x` and at `y` that show the same second, with `e` between
      them and 900 ms before `y`: both `x` and `e` lie in the second tenth of a
      second of the countdown, or `x` after it. */
  lemma ReadAlike(t: Timer, x: Instant, e: Instant, y: Instant) returns (s: int)
    requires t.running && t.initial % 10 == 0 && x <= e && e + 9 * CHUNK <= y < t.deadline
    requires Present(t, x) / 10 == Present(t, y) / 10
    ensures s * SECOND + CHUNK <= x - StartOf(t) && e - StartOf(t) < s * SECOND + 2 * CHUNK
  {
    PresentIs(t, x);
    PresentIs(t, y);
    var p, q := (x - StartOf(t)) / CHUNK, (y - StartOf(t)) / CHUNK;
    s := (q - 1) / 10;
    assert 10 * s + 1 <= p && q <= 10 * s + 10;
  }

  /** The instant at which an iteration took the reading it leaves behind. */
  function ReadAt(r: Iter): Instant {
    if r.regetOk then r.regetAt else r.getAt
  }

  /** The sample behind the reading that iteration k leaves in force. */
  lemma {:induction false} LastReading(c: Config, log: seq<Iter>, k: nat) returns (x: Instant)
    requires Run(c, log) && c.ignoreState && 1 <= c.period && Clean(log, CHUNK) && k < |log|
    requires !log[k].declared && log[k].prevOut != 0 && log[k].mid.running
    ensures var r := log[k];
            ReadingOf(r.mid, r.prevOut, x) && if r.getOk then x <= ReadAt(r) <= r.finish else x + SECOND <= r.finish
  {
    var r := log[k];
    assert Law(c, r) && CleanIter(r, CHUNK);
    if r.regetOk {
      x := Sample(r.mid, r.regetAt, r.relag);
    } else if r.getOk {
      x := Sample(r.before, r.getAt, r.lag);
    } else {
      var p := log[k - 1];
      assert Linked(p, r) && Law(c, p) && CleanIter(p, CHUNK);
      x := LastReading(c, log, k - 1);
      AtMost(1, Nap(c.period, p.start, p.finish), SECOND, SECOND);
    }
  }

  /** The iteration was read and ended in the second tenth of a second. */
  predicate WrongTenth(r: Iter, s: int) {
    s * SECOND + CHUNK <= ReadAt(r) - StartOf(r.mid) && r.finish - StartOf(r.mid) < s * SECOND + 2 * CHUNK
  }

  /** The reading that a false verdict is based on. */
  lemma StopReading(c: Config, v: Iter) returns (y: Instant)
    requires Law(c, v) && c.ignoreState && CleanIter(v, CHUNK) && FalseStop(v)
    ensures v.prevIn != 0 && v.start <= y + CHUNK && ReadingOf(v.before, v.prevIn, y)
  {
    y := Sample(v.before, v.getAt, v.lag);
    ReadEarlier(v.before, y, v.getAt);
  }

  /** The two readings behind a false verdict. */
  lemma FalseStopSeen(c: Config, log: seq<Iter>, k: nat) returns (x: Instant, y: Instant)
    requires Run(c, log) && c.ignoreState && 1 <= c.period && Clean(log, CHUNK) && k < |log| && FalseStop(log[k])
    ensures k != 0
    ensures var r, t := log[k - 1], log[k].before;
            && r.mid == t && t.running && r.start <= r.finish
            && (if r.getOk then x <= ReadAt(r) <= r.finish else x + SECOND <= r.finish)
            && r.finish + Nap(c.period, r.start, r.finish) * SECOND <= y + CHUNK && y < t.deadline
            && Present(t, x) / 10 == Present(t, y) / 10
  {
    var v := log[k];
    assert Law(c, v) && CleanIter(v, CHUNK);
    y := StopReading(c, v);
    x := y;
    if k != 0 {
      var r := log[k - 1];
      assert Linked(r, v) && Law(c, r) && CleanIter(r, CHUNK);
      x := LastReading(c, log, k - 1);
      AtMost(1, Nap(c.period, r.start, r.finish), SECOND, SECOND);
    }
  }

  /** Where a false verdict comes from: a nap of one second before it, and an
      iteration that was read and ended in the second tenth of a second. */
  lemma FalseStopComesFrom(c: Config, log: seq<Iter>, k: nat) returns (s: int)
    requires Run(c, log) && c.ignoreState && 1 <= c.period && Clean(log, CHUNK) && k < |log| && FalseStop(log[k])
    requires log[k].before.initial % 10 == 0
    ensures k != 0
    ensures var r := log[k - 1];
            r.getOk && r.start <= r.finish && Nap(c.period, r.start, r.finish) == 1 && WrongTenth(r, s)
  {
    var x, y := FalseStopSeen(c, log, k);
    AlikeIsClose(log[k].before, x, y);
    s := ReadAlike(log[k].before, x, log[k - 1].finish, y);
  }

  lemma AlikeIsClose(t: Timer, x: Instant, y: Instant)
    requires t.running && y < t.deadline && Present(t, x) / 10 == Present(t, y) / 10
    ensures y < x + SECOND
  {
    if x + SECOND <= y {
      ReadingsDiffer(t, x, y);
    }
  }

  lemma ReadEarlier(t: Timer, x: Instant, y: Instant)
    requires t.running && x <= y < t.deadline
    ensures Present(t, y) <= Present(t, x)
  {
  }

  /** Resets and clean sleeps leave the initial countdown alone. */
  lemma {:induction false} SameInitial(c: Config, log: seq<Iter>, k: nat)
    requires Run(c, log) && Clean(log, CHUNK) && k < |log|
    ensures log[k].before.initial == log[0].before.initial
  {
    if k != 0 {
      var p := log[k - 1];
      assert Linked(p, log[k]) && Law(c, p) && CleanIter(p, CHUNK);
      DeliverReset(p.before, p.hits);
      SameInitial(c, log, k - 1);
    }
  }

  /** The age of a countdown: whole seconds, and what the commands of `m + 1`
      iterations add. */
  predicate Aged(t: Timer, x: Instant, s: int, m: nat, l: nat) {
    s * SECOND <= x - StartOf(t) <= s * SECOND + 2 * l + Times(m, 2 * l)
  }

  lemma AgeAfter(c: Config, r: Iter, s: int, m: nat, l: nat) returns (t: int)
    requires Law(c, r) && c.ignoreState && !r.declared && !r.signal && CleanIter(r, CHUNK)
    requires Within(r, l) && Answered(r, l) && r.after.running
    requires !r.resetOk ==> Aged(r.before, r.start, s, m, l)
    ensures Aged(r.after, r.wake, t, if r.resetOk then 0 else m + 1, l)
  {
    var nap := Nap(c.period, r.start, r.finish);
    DeliverReset(r.before, r.hits);
    t := nap + if r.resetOk then 1 else s;
    assert t * SECOND == nap * SECOND + if r.resetOk then SECOND else s * SECOND;
  }

  /** What is known of the iteration before iteration k. */
  lemma TimelyBefore(c: Config, log: seq<Iter>, k: nat, n: nat, l: nat)
    requires Timely(c, log, n, l) && 0 < k < |log|
    ensures Linked(log[k - 1], log[k]) && Law(c, log[k - 1]) && CleanIter(log[k - 1], CHUNK)
    ensures Within(log[k - 1], l) && Answered(log[k - 1], l) && Streak(log, k) <= n
  {
  }

  lemma AgeAtEntry(c: Config, log: seq<Iter>, n: nat, l: nat)
    requires Timely(c, log, n, l) && c.ignoreState && log != []
    ensures Aged(log[0].before, log[0].start, 1, Streak(log, 0), l)
  {
  }

  /** How old the countdown is when iteration k starts. */
  lemma {:induction false} AgeAtStart(c: Config, log: seq<Iter>, k: nat, n: nat, l: nat) returns (s: int)
    requires Timely(c, log, n, l) && c.ignoreState && k < |log| && log[k].before.running
    ensures Aged(log[k].before, log[k].start, s, Streak(log, k), l)
  {
    hide Timely;
    hide Law;
    hide CleanIter;
    hide Within;
    hide Answered;
    hide Aged;
    if k == 0 {
      AgeAtEntry(c, log, n, l);
      s := 1;
    } else {
      TimelyBefore(c, log, k, n, l);
      var p := log[k - 1];
      s := 0;
      if !p.resetOk {
        UnresetIsBefore(c, p);
        s := AgeAtStart(c, log, k - 1, n, l);
      }
      s := AgeAfter(c, p, s, Streak(log, k - 1), l);
    }
  }

  lemma ResetIsReread(c: Config, r: Iter)
    requires Law(c, r) && CleanIter(r, CHUNK) && r.resetOk
    ensures r.regetOk
  {
  }

  lemma UnresetIsBefore(c: Config, r: Iter)
    requires Law(c, r) && c.ignoreState && !r.declared && CleanIter(r, CHUNK) && !r.resetOk
    ensures r.hits == [] && r.after == r.mid == r.before
  {
  }

  /** Commands that return within `l` leave naps of two seconds if three of them,
      the second of the workaround and two more seconds fit into the period. */
  lemma LongNaps(c: Config, r: Iter, l: nat)
    requires Law(c, r) && !r.declared && Within(r, l) && c.ignoreState
    requires 3 * l + 3 * SECOND <= c.period * SECOND
    ensures Naps(c, r, 2)
  {
    assert r.finish <= r.start + (c.period - 2) * SECOND;
    assert (r.start + (c.period - 2) * SECOND) / SECOND == r.start / SECOND + c.period - 2;
  }

  lemma NapOfOne(c: Config, r: Iter) returns (d: nat)
    requires r.start <= r.finish && Nap(c.period, r.start, r.finish) == 1
    ensures d == r.finish - r.start && (c.period <= 1 || (c.period - 2) * SECOND < d)
  {
    d := r.finish - r.start;
    var spent := SleepMakesUp(c, r.start, d);
    if 2 <= c.period {
      assert spent == c.period - 1;
      assert (c.period - 1) * SECOND == (c.period - 2) * SECOND + SECOND;
    }
  }

  /** After a successful Reset the wrong tenth of a second is out of reach. */
  lemma SteadyRenewal(c: Config, r: Iter, n: nat, l: nat, s: int)
    requires Law(c, r) && c.ignoreState && !r.declared && r.resetOk && r.regetOk && Within(r, l) && Answered(r, l)
    requires Steady(c, n, l) && Nap(c.period, r.start, r.finish) == 1
    ensures !WrongTenth(r, s)
  {
    DeliverReset(r.before, r.hits);
    var d := NapOfOne(c, r);
    var age := r.finish - StartOf(r.mid);
    assert SECOND <= age <= SECOND + 2 * l;
    if c.period <= 3 {
      if c.period <= 2 && n != 0 {
        AtMost(1, n, 2 * l, 2 * l);
      }
      assert s <= 0 || s * SECOND >= SECOND;
      assert s >= 1 || s * SECOND <= 0;
    } else if c.period == 4 {
      assert SECOND + 2 * CHUNK < age;
      assert s >= 2 || s * SECOND <= SECOND;
      assert s <= 1 || s * SECOND >= 2 * SECOND;
    } else {
      LongNaps(c, r, l);
    }
  }

  /** Nor is it in reach after iterations without one. */
  lemma SteadyStall(c: Config, r: Iter, m: nat, n: nat, l: nat, s: int, t: int)
    requires Law(c, r) && c.ignoreState && !r.declared && !r.resetOk && r.getOk && r.hits == [] && Within(r, l)
    requires Steady(c, n, l) && Nap(c.period, r.start, r.finish) == 1 && m < n
    requires Aged(r.before, r.start, t, m, l)
    ensures !WrongTenth(r, s)
  {
    var d := NapOfOne(c, r);
    if c.period <= 2 {
      TimesIs(m + 1, 2 * l);
      AtMost(m + 1, n, 2 * l, 2 * l);
      assert s >= t || s * SECOND <= t * SECOND - SECOND;
      assert s < t || t * SECOND <= s * SECOND;
    } else if c.period == 3 {
    } else if c.period == 4 {
    } else {
      LongNaps(c, r, l);
    }
  }

  lemma SteadyBefore(c: Config, log: seq<Iter>, k: nat, n: nat, l: nat, s: int)
    requires Timely(c, log, n, l) && c.ignoreState && Steady(c, n, l) && 0 < k < |log| && log[k].before.running
    requires var r := log[k - 1]; r.getOk && r.start <= r.finish && Nap(c.period, r.start, r.finish) == 1
    ensures !WrongTenth(log[k - 1], s)
  {
    var r := log[k - 1];
    TimelyBefore(c, log, k, n, l);
    hide Timely;
    if r.resetOk {
      ResetIsReread(c, r);
      SteadyRenewal(c, r, n, l, s);
    } else {
      UnresetIsBefore(c, r);
      hide Law;
      hide Steady;
      var t := AgeAtStart(c, log, k - 1, n, l);
      SteadyStall(c, r, Streak(log, k - 1), n, l, s, t);
    }
  }

  /** Steady commands give no healthy timer up. */
  lemma SteadyRun(c: Config, log: seq<Iter>, k: nat, n: nat, l: nat)
    requires Timely(c, log, n, l) && c.ignoreState && Steady(c, n, l) && k < |log|
    ensures !FalseStop(log[k])
  {
    if FalseStop(log[k]) {
      SameInitial(c, log, k);
      var s := FalseStopComesFrom(c, log, k);
      hide Law;
      SteadyBefore(c, log, k, n, l, s);
    }
  }

  // ----- And commands that are not steady do -----

  /** `ShortNapStops` as a counterexample. */
  lemma ShortNapRun(c: Config, seconds: nat, x: Instant, g: nat, h: nat, r: nat, w: nat, n: nat, l: nat)
    returns (log: seq<Iter>)
    requires c.ignoreState && SECOND <= x && Nap(c.period, x, x + r + SECOND + w) == 1
    requires g <= l && g <= h <= r <= g + l && w <= l
    requires var y := r - h + SECOND + w; CHUNK <= y % SECOND < 2 * CHUNK && 4 + y / SECOND <= seconds
    ensures Timely(c, log, n, l) && AllSimple(c, log) && !NoneFalse(log)
  {
    hide Regular;
    hide AllSimple;
    hide Clean;
    ShortNapStops(c, seconds, x, g, h, r, w, l);
    log := Pair(c, 10 * seconds, x, g, h, r, w, CHUNK);
    RegularUpTo(c, log, 0, n, l, l);
    assert FalseStop(log[1]);
  }

  /** A false verdict right after a successful Reset, if commands are long enough
      for the second reading to fall into the wrong tenth of a second. */
  lemma UnsteadyShort(c: Config, n: nat, l: nat) returns (log: seq<Iter>)
    requires c.ignoreState && 1 <= c.period <= 4
    requires if c.period == 4 then 4 * CHUNK < l else CHUNK <= 2 * l
    ensures Timely(c, log, n, l) && AllSimple(c, log) && !NoneFalse(log)
  {
    hide Timely;
    hide AllSimple;
    hide NoneFalse;
    if c.period == 4 {
      var g := 4 * CHUNK + 1;
      log := ShortNapRun(c, 5, 2 * SECOND - 1, g, 2 * g, 2 * g, 2 * CHUNK - 1, n, l);
    } else {
      var r := Min(l, CHUNK);
      log := ShortNapRun(c, 5, if c.period == 3 then SECOND + 9 * CHUNK else SECOND, 0, 0, r, CHUNK - r, n, l);
    }
  }

  /** The same for longer periods, with three commands that fill all but three
      seconds of them. */
  lemma UnsteadyLong(c: Config, n: nat, l: nat) returns (log: seq<Iter>)
    requires c.ignoreState && 5 <= c.period && c.period * SECOND < 3 * l + 3 * SECOND
    ensures Timely(c, log, n, l) && AllSimple(c, log) && !NoneFalse(log)
  {
    hide Timely;
    hide AllSimple;
    hide NoneFalse;
    var total := (c.period - 3) * SECOND + 1;
    var third := (total + 2) / 3;
    var u, r := (SECOND + CHUNK - third % SECOND) % SECOND, total - third;
    TenthAfter(third, u);
    log := ShortNapRun(c, 4 + (u + SECOND + third) / SECOND, 2 * SECOND - 1, r - third, r - u, r, third, n, l);
  }

  lemma TenthAfter(third: nat, u: nat)
    requires u == (SECOND + CHUNK - third % SECOND) % SECOND
    ensures (u + SECOND + third) % SECOND == CHUNK
  {
  }

  /** Failed iterations that together shift the start of the next one to `f`. */
  lemma {:induction false} Creep(c: Config, m: nat, j: nat, l: nat, initial: nat, log: seq<Iter>, late: nat, e: nat,
                                 f: nat) returns (longer: seq<Iter>)
    requires CanGoOn(c, initial) && Arrives(c, log, m, l, l, initial, late, e)
    requires e <= f < SECOND && f <= e + Times(j, 2 * l)
    ensures Arrives(c, longer, m + j, l, l, initial, late + Times(j, c.period * SECOND) + (f - e), f)
    decreases j
  {
    hide Arrives;
    longer := log;
    if j != 0 {
      var d := Min(e + 2 * l, f);
      longer := ClimbOn(c, m, l, l, initial, log, late, e, d);
      longer := Creep(c, m + 1, j - 1, l, initial, longer, late + c.period * SECOND + (d - e), d, f);
    }
  }

  /** An iteration whose Get is answered after `l` and whose Reset fails at once. */
  function LateGet(t: Timer, prev: nat, x: Instant, l: nat): Iter {
    var v := ViewOf(t, x + l, 0);
    Iter(x, t, prev, true, x + l, 0, v, x + l, false, true, false, [], x + l, t,
         false, x + l, 0, x + l, v.presentSeconds, false, x + l + SECOND, t)
  }

  lemma LateGetLaw(c: Config, t: Timer, prev: nat, x: Instant, l: nat)
    requires c.ignoreState && 1 <= c.period <= 2 && l < SECOND && x % SECOND == SECOND - l
    requires t.running && x + l < t.deadline && Present(t, x) / 10 < prev
    ensures var i := LateGet(t, prev, x, l); Law(c, i) && Simple(c, i) && CleanIter(i, 0) && Within(i, l)
  {
    ReadEarlier(t, x, x + l);
    assert Nap(c.period, x, x + l) == 1;
  }

  lemma LateGetOn(c: Config, log: seq<Iter>, n: nat, l: nat)
    requires c.ignoreState && 1 <= c.period <= 2 && n != 0 && l < SECOND
    requires Regular(c, log, n - 1, l, l) && AllSimple(c, log) && Clean(log, 0) && Waiting(c, log)
    requires var p := log[|log| - 1]; p.wake % SECOND == SECOND - l && p.wake + l < p.after.deadline
    ensures var p := log[|log| - 1];
            var longer := log + [LateGet(p.after, p.prevOut, p.wake, l)];
            Regular(c, longer, n, l, l) && AllSimple(c, longer) && Clean(longer, 0)
  {
    hide Law;
    hide Simple;
    hide CleanIter;
    hide Within;
    var p := log[|log| - 1];
    var i := LateGet(p.after, p.prevOut, p.wake, l);
    LateGetLaw(c, p.after, p.prevOut, p.wake, l);
    RegularExtends(c, log, i, n - 1, n, l, l);
    hide Regular;
  }

  lemma LateReading(t: Timer, x: Instant, l: nat, k: nat, seconds: nat)
    requires t.running && 0 <= StartOf(t) && t.initial == 10 * seconds && k + 4 <= seconds
    requires x == StartOf(t) + k * SECOND + CHUNK - l
    ensures x + l + SECOND < t.deadline && 10 <= Present(t, x + l + SECOND)
    ensures ViewOf(t, x + l, 0).presentSeconds == ViewOf(t, x + l + SECOND, CHUNK).presentSeconds
  {
    TenthsLater(t, StartOf(t), k * SECOND + CHUNK);
    SecondTenth(k * SECOND + CHUNK);
  }

  /** A Get that is answered a tenth into a second of the countdown, and a nap of
      one second after it. */
  lemma LateGetStops(c: Config, log: seq<Iter>, n: nat, l: nat, k: nat, seconds: nat) returns (longer: seq<Iter>)
    requires c.ignoreState && 1 <= c.period <= 2 && n != 0 && l <= CHUNK && k + 4 <= seconds
    requires Regular(c, log, n - 1, l, l) && AllSimple(c, log) && Clean(log, 0)
    requires log != [] && log[0].before.initial == 10 * seconds
    requires Arrived(c, log, 10 * seconds, k * SECOND + CHUNK - l)
    requires log[|log| - 1].wake % SECOND == SECOND - l
    ensures Timely(c, longer, n, l) && AllSimple(c, longer) && !NoneFalse(longer)
  {
    hide Regular;
    hide AllSimple;
    hide Clean;
    hide Timely;
    hide NoneFalse;
    var p := log[|log| - 1];
    LateReading(p.after, p.wake, l, k, seconds);
    var i := LateGet(p.after, p.prevOut, p.wake, l);
    LateGetOn(c, log, n, l);
    longer := VerdictStops(c, log + [i], n, l);
  }

  /** The daemon gives up a healthy timer whose reading 100 ms ago is remembered. */
  lemma VerdictStops(c: Config, log: seq<Iter>, n: nat, l: nat) returns (longer: seq<Iter>)
    requires c.ignoreState && Regular(c, log, n, l, l) && AllSimple(c, log) && Clean(log, 0) && log != []
    requires log[0].before.initial % 10 == 0
    requires var i := log[|log| - 1];
             && !i.declared && !i.signal && i.after.running && i.wake < i.after.deadline
             && 10 <= Present(i.after, i.wake) && i.prevOut == ViewOf(i.after, i.wake, CHUNK).presentSeconds
    ensures Timely(c, longer, n, l) && AllSimple(c, longer) && !NoneFalse(longer)
  {
    var i := log[|log| - 1];
    var v := Verdict(c, i.after, i.prevOut, i.wake, CHUNK);
    assert Law(c, v) && FalseStop(v);
    RegularExtends(c, log, v, n, n, l, l);
    longer := log + [v];
    assert longer[|log|] == v;
  }

  lemma CreepOpens(c: Config, initial: nat, x: Instant, r: nat, w: nat, l: nat)
    requires c.ignoreState && 1 <= c.period <= 2 && 11 <= initial && x == SECOND + 9 * CHUNK
    requires r <= l && w <= l && r + w < CHUNK
    ensures var i := Renewal(c, AtEntry(c, initial, x), 0, x, 0, 0, r, w);
            Arrives(c, [i], 0, l, l, initial, 2 * SECOND + r + w, 9 * CHUNK + r + w)
  {
    assert Nap(c.period, x, x + r + SECOND + w) == 1;
    Opening(c, initial, x, 0, 0, r, w, l, l, 2 * SECOND + r + w, 9 * CHUNK + r + w);
  }

  /** The arithmetic of `m` failed iterations that shift the start by `2 * l` each. */
  lemma CreepSum(period: nat, m: nat, l: nat) returns (k: nat)
    ensures Times(m, period * SECOND) == k * SECOND && Times(m, 2 * l) == m * (2 * l)
  {
    k := m * period;
    TimesIs(m, period * SECOND);
    TimesIs(m, 2 * l);
    assert m * (period * SECOND) == m * period * SECOND;
  }

  /** A run that goes on `l` before a full second, with a countdown that is 100 ms
      into one of its seconds by then. */
  lemma CreepRun(c: Config, n: nat, l: nat) returns (log: seq<Iter>, k: nat)
    requires c.ignoreState && 1 <= c.period <= 2 && n != 0
    requires 2 * l < CHUNK <= n * (2 * l) + l
    ensures Arrives(c, log, n - 1, l, l, 10 * (k + 4), k * SECOND + CHUNK - l, SECOND - l)
  {
    hide Arrives;
    k := CreepSum(c.period, n - 1, l);
    k := k + 2;
    var x, e, initial := SECOND + 9 * CHUNK, Min(2 * l, CHUNK - l), 10 * (k + 4);
    var r := Min(l, e);
    CreepOpens(c, initial, x, r, e - r, l);
    log := [Renewal(c, AtEntry(c, initial, x), 0, x, 0, 0, r, e - r)];
    OneMore(n - 1, 2 * l);
    log := Creep(c, 0, n - 1, l, initial, log, 2 * SECOND + e, 9 * CHUNK + e, SECOND - l);
  }

  /** A false verdict after `n` failed iterations, each of which shifts the start of
      the next one a little. */
  lemma UnsteadyCreep(c: Config, n: nat, l: nat) returns (log: seq<Iter>)
    requires c.ignoreState && 1 <= c.period <= 2 && n != 0
    requires 2 * l < CHUNK <= n * (2 * l) + l
    ensures Timely(c, log, n, l) && AllSimple(c, log) && !NoneFalse(log)
  {
    hide Regular;
    hide AllSimple;
    hide AllSafe;
    hide Timely;
    hide NoneFalse;
    var k;
    log, k := CreepRun(c, n, l);
    log := LateGetStops(c, log, n, l, k, k + 4);
  }

  lemma NoNapRun(c: Config, n: nat, l: nat) returns (log: seq<Iter>)
    requires c.ignoreState && c.period == 0
    ensures Timely(c, log, n, l) && AllSimple(c, log) && !NoneFalse(log)
  {
    NoNapStops(c, l);
    log := Pair(c, 50, SECOND, 0, 0, 0, 0, 0);
    RegularUpTo(c, log, 0, n, l, l);
    assert FalseStop(log[1]);
  }

  /** With commands that are not steady a healthy timer can be given up in a run in
      which no command is retried. */
  lemma UnsteadyRun(c: Config, n: nat, l: nat) returns (log: seq<Iter>)
    requires c.ignoreState && !Steady(c, n, l)
    ensures Timely(c, log, n, l) && AllSimple(c, log) && !NoneFalse(log)
  {
    hide Timely;
    hide AllSimple;
    hide NoneFalse;
    if c.period == 0 {
      log := NoNapRun(c, n, l);
    } else if c.period <= 2 && 2 * l < CHUNK {
      log := UnsteadyCreep(c, n, l);
    } else if c.period <= 4 {
      log := UnsteadyShort(c, n, l);
    } else {
      log := UnsteadyLong(c, n, l);
    }
  }

  /** No healthy timer is ever given up with commands that return within `l` and at
      most `n` iterations in a row without a successful Reset: exactly if those
      are steady. */
  lemma TimelyExactly(c: Config, n: nat, l: nat)
    requires c.ignoreState
    ensures (forall log :: Timely(c, log, n, l) ==> NoneFalse(log)) <==> Steady(c, n, l)
  {
    if Steady(c, n, l) {
      forall log: seq<Iter>, k | Timely(c, log, n, l) && 0 <= k < |log|
        ensures !FalseStop(log[k])
      {
        SteadyRun(c, log, k, n, l);
      }
    } else {
      var log := UnsteadyRun(c, n, l);
    }
  }

  // ----- The other conditions cannot be dropped either -----

  /** Seconds from a Reset to the next Get when nothing takes time but the
      daemon's own sleeps. */
  function ToNextGet(period: nat): nat {
    if period <= 1 then period + 1 else period
  }

  /** Two iterations.  The first Get is answered `ToNextGet(period)` seconds after
      the timer was started; the Reset succeeds; the Get after it succeeds or
      fails as `reget` says; the second Get finds the timer running. */
  function TwoIterations(period: nat, seconds: nat, reget: bool): seq<Iter>
    requires ToNextGet(period) < seconds
  {
    var w := ToNextGet(period) * SECOND;
    var t0, t1 := Started(10 * seconds, 0), Started(10 * seconds, w);
    var seen := View(t0.settings, true, seconds, seconds - ToNextGet(period));
    var reread := seconds - 1;
    var remembered := if reget then reread else seconds - ToNextGet(period);
    var first := Iter(w, t0, 0, true, w, 0, seen, w, false,
                      true, true, [w], w, t1,
                      reget, w + SECOND, 0, w + SECOND, remembered,
                      false, w + w, t1);
    var stop := remembered == seconds - ToNextGet(period);
    var c := Config(period, true);
    var second := if stop then Verdict(c, t1, remembered, w + w, 0) else Stall(c, t1, remembered, w + w, 0, 0);
    [first, second]
  }

  lemma PresentAfter(seconds: nat, s: Instant, d: nat)
    requires d < seconds
    ensures Present(Started(10 * seconds, s), s + d * SECOND) == 10 * (seconds - d)
  {
    assert d * SECOND / CHUNK == 10 * d;
    PresentIs(Started(10 * seconds, s), s + d * SECOND);
  }

  lemma FirstOfTwo(period: nat, seconds: nat, reget: bool)
    requires ToNextGet(period) + 1 < seconds
    ensures var c, r := Config(period, true), TwoIterations(period, seconds, reget)[0]; Law(c, r) && Simple(c, r)
  {
    var c, r := Config(period, true), TwoIterations(period, seconds, reget)[0];
    var w := ToNextGet(period) * SECOND;
    PresentAfter(seconds, 0, ToNextGet(period));
    PresentAfter(seconds, w, 1);
    assert Deliver(Reset, Started(10 * seconds, 0), []) == Started(10 * seconds, 0);
    assert [w][..0] == [];
    assert Deliver(Reset, Started(10 * seconds, 0), [w]) == Started(10 * seconds, w);
    assert (w + SECOND) / SECOND == ToNextGet(period) + 1 && w / SECOND == ToNextGet(period);
    assert Nap(period, w, w + SECOND) * SECOND + SECOND == w;
  }

  /** The condition on the Get after a Reset cannot be dropped: for every period
      and every countdown long enough to survive it, one failed Get after a
      Reset makes the daemon declare a healthy timer stopped, and with that Get
      succeeding the same run goes on unless the two readings fall into the
      same second because the period is zero. */
  lemma FailedRereadStopsHealthyTimer(period: nat, seconds: nat, reget: bool)
    requires ToNextGet(period) + 1 < seconds
    ensures var c, log := Config(period, true), TwoIterations(period, seconds, reget);
            && Run(c, log) && AllSimple(c, log) && Healthy(log[1])
            && (log[1].declared <==> !reget || period == 0)
  {
    var c, log := Config(period, true), TwoIterations(period, seconds, reget);
    var w := ToNextGet(period) * SECOND;
    FirstOfTwo(period, seconds, reget);
    PresentAfter(seconds, w, ToNextGet(period));
    assert Nap(period, w + w, w + w) == period;
    assert Law(c, log[1]);
  }

  /** A Reset that took effect although it was reported as failed: the first Get
      is answered one period after the timer was started, the second one period
      after that Reset. */
  function LandedReset(period: nat, seconds: nat): seq<Iter> {
    var x := period * SECOND;
    var t, v := Started(10 * seconds, 0), ViewOf(Started(10 * seconds, 0), period * SECOND, 0);
    var u := Deliver(Reset, t, [x]);
    [Iter(x, t, 0, true, x, 0, v, x, false, true, false, [x], x, u, false, x, 0, x, v.presentSeconds, false, x + x, u),
     Verdict(Config(period, true), u, v.presentSeconds, x + x, 0)]
  }

  lemma LandedResetStopsHealthyTimer(period: nat, seconds: nat)
    requires period < seconds
    ensures var c, log := Config(period, true), LandedReset(period, seconds);
            && Run(c, log) && AllSimple(c, log) && FalseStop(log[1])
            && !log[0].resetOk && log[0].hits != [] && log[0].after == log[0].mid && log[0].lag == log[1].lag == 0
  {
    var c, log := Config(period, true), LandedReset(period, seconds);
    var x := period * SECOND;
    assert [x][..0] == [];
    assert Deliver(Reset, Started(10 * seconds, 0), []) == Started(10 * seconds, 0);
    assert log[0].mid == Started(10 * seconds, x);
    PresentAfter(seconds, 0, period);
    PresentAfter(seconds, x, period);
    assert Nap(period, x, x) == period;
  }

  // ----- When a stop is noticed -----

  /** A timer stopped during a sleep: the daemon says so exactly if the countdown
      left in it shows the second that it remembers. */
  lemma StopSeenExactly(c: Config, log: seq<Iter>, k: nat)
    requires Run(c, log) && c.ignoreState && k < |log| && log[k].getOk && !log[k].before.running
    ensures log[k].declared <==> log[k].before.held / 10 == log[k].prevIn
  {
    assert Law(c, log[k]);
  }

  /** A stopping Set puts the whole countdown back, and so it is not noticed by
      the Get that follows: the remembered reading was taken a second after the
      countdown began. */
  lemma ReloadedStopGoesUnnoticed(c: Config, log: seq<Iter>, k: nat)
    requires Run(c, log) && c.ignoreState && 0 < k < |log|
    requires var p := log[k - 1]; p.regetOk && p.relag <= CHUNK && p.mid.initial % 10 == 0 && p.mid.initial != 0
    requires log[k].getOk && !log[k].before.running && log[k].before.held == log[k - 1].mid.initial
    ensures !log[k].declared
  {
    var p := log[k - 1];
    assert Linked(p, log[k]) && Law(c, p);
    DeliverReset(p.before, p.hits);
    var x := Sample(p.mid, p.regetAt, p.relag);
    if x < p.mid.deadline {
      assert (x - StartOf(p.mid)) / CHUNK >= 9;
      PresentIs(p.mid, x);
    }
    StopSeenExactly(c, log, k);
  }

  /** What becomes of a stop that is not noticed at once and that others leave
      alone: a Reset that takes effect undoes it, and if none does the next Get
      notices it. */
  lemma StopUndoneOrNoticed(c: Config, log: seq<Iter>, k: nat)
    requires Run(c, log) && c.ignoreState && k + 1 < |log| && log[k].getOk && log[k + 1].getOk
    requires !log[k].before.running && log[k].after == log[k].mid
    ensures if log[k].hits != [] then log[k].mid.running else log[k + 1].declared
  {
    var r := log[k];
    assert Linked(r, log[k + 1]) && Law(c, r);
    DeliverReset(r.before, r.hits);
    if r.hits == [] {
      StopSeenExactly(c, log, k + 1);
    }
  }
}
