/** The bmc-watchdog process, its clock and the BMC it talks to: the retry
    layer, the three watchdog commands and the one-shot tool commands.

    The answers the driver will give are a script fixed in advance; a command
    that needs an answer the script no longer holds returns `Cut`, which marks
    the point up to which the run is observed.  Statements about all scripts
    are therefore statements about every finite prefix of every run, also of
    those in which a retry loop never ends.
 */
module WatchdogHost {
  import opened Common
  import opened BmcTimer
  import opened ErrorLimiter

  const RETRY_WAIT_TIME_DEFAULT: nat := 1
  const RETRY_ATTEMPTS_DEFAULT: nat := 5

  datatype BusyKind = DriverSide | BmcSide | Unspecified

  /** `described` tells whether the library knows a text for the code. */
  datatype Answer = Ok | NotNow(kind: BusyKind) | BadCode(comp: nat, described: bool) | Broken(code: nat)

  /** One request: microseconds until the BMC sees it and until its answer is
      back, whether a request answered with an error took effect all the same,
      how far a reading trails, whether a field the caller wants is absent from
      the response, and by how much a signal cuts a retry sleep after it short. */
  datatype Attempt = Attempt(answer: Answer, transit: nat, reply: nat, applied: bool, lag: nat, missing: bool, cut: nat)

  /** The sleep before a retry. */
  function Slept(wait: nat, a: Attempt): (d: nat)
    ensures d <= wait * SECOND
  {
    if a.cut < wait * SECOND then wait * SECOND - a.cut else 0
  }

  /** What a caller reads from the response object. */
  datatype Response = Response(at: Instant, lag: nat, missing: bool)

  datatype Ret = Done | Failed | Cut

  /** The `last_*` globals after a request that failed: the completion code is
      kept only when the library has no text for it. */
  function Recorded(c: Command, a: Answer): Failure {
    Failure(ErrnumOf(a), c, if a.BadCode? && !a.described then a.comp else 0)
  }

  function ErrnumOf(a: Answer): (e: Errnum)
    ensures Busy(e) <==> a.NotNow?
    ensures e.Fatal? <==> a.Broken?
    ensures !e.NoErrnum?
  {
    match a
    case Ok => Success
    case NotNow(k) => (match k case DriverSide => DriverBusy case BmcSide => BmcBusy case Unspecified => IpmiError)
    case BadCode(_, _) => BadCompletionCode
    case Broken(code) => Fatal(code)
  }

  /** What tells one failure of a command from another: the kind of busy answer, the
      error number of the driver, or the completion code unless its text is known. */
  predicate SameFailure(a: Answer, b: Answer) {
    match a
    case Ok => b.Ok?
    case NotNow(k) => b == NotNow(k)
    case BadCode(comp, described) =>
      b.BadCode? && (if described then 0 else comp) == (if b.described then 0 else b.comp)
    case Broken(code) => b == Broken(code)
  }

  /** Failures are remembered as the same exactly if they are.  So any two completion
      codes with a known text count as one failure. */
  lemma RecordedExactly(c: Command, a: Answer, d: Command, b: Answer)
    ensures Recorded(c, a) == Recorded(d, b) <==> c == d && SameFailure(a, b)
    ensures a.BadCode? && b.BadCode? && a.described && b.described ==> Recorded(c, a) == Recorded(c, b)
  {
  }

  /** The error number that a number of failed requests leaves behind. */
  function LastErr(used: seq<Attempt>): Errnum {
    if used == [] then NoErrnum else ErrnumOf(used[|used| - 1].answer)
  }

  /** What a command that succeeds in the end leaves behind of its retries. */
  function BusyBefore(used: seq<Attempt>): Errnum
    requires used != []
  {
    LastErr(used[..|used| - 1])
  }

  /** Clock, last delivery and timer. */
  datatype Progress = Progress(now: Instant, at: Instant, timer: Timer)

  predicate TakesEffect(a: Attempt) {
    a.answer.Ok? || a.applied
  }

  /** `ipmi_cmd`: one request and its answer. */
  function Sent(q: Request, p: Progress, a: Attempt): Progress {
    var at := p.now + a.transit;
    Progress(at + a.reply, at, if TakesEffect(a) then Apply(q, p.timer, at) else p.timer)
  }

  /** Requests that are all retried: each is followed by a sleep. */
  function Retries(q: Request, p: Progress, wait: nat, used: seq<Attempt>): Progress {
    if used == [] then p
    else
      var a := used[|used| - 1];
      var r := Sent(q, Retries(q, p, wait, used[..|used| - 1]), a);
      r.(now := r.now + Slept(wait, a))
  }

  /** A command: the last request is not retried unless the script was cut. */
  function Effect(q: Request, p: Progress, wait: nat, ret: Ret, used: seq<Attempt>): Progress {
    if ret.Cut? || used == [] then Retries(q, p, wait, used)
    else Sent(q, Retries(q, p, wait, used[..|used| - 1]), used[|used| - 1])
  }

  function HitOf(p: Progress, a: Attempt): seq<Instant> {
    if TakesEffect(a) then [p.now + a.transit] else []
  }

  /** The instants at which a request took effect. */
  function Hits(q: Request, p: Progress, wait: nat, used: seq<Attempt>): seq<Instant> {
    if used == [] then []
    else
      var pre := used[..|used| - 1];
      Hits(q, p, wait, pre) + HitOf(Retries(q, p, wait, pre), used[|used| - 1])
  }

  /** The first `n` requests were answered busy. */
  predicate Busied(s: seq<Attempt>, n: nat) {
    n <= |s| && forall i :: 0 <= i < n ==> s[i].answer.NotNow?
  }

  /** What the answers to one command look like, given how it ended. */
  predicate Retried(ret: Ret, used: seq<Attempt>, attempts: nat) {
    if ret.Cut? then
      Busied(used, |used|) && |used| <= attempts
    else
      && 0 < |used| <= attempts + 1 && Busied(used, |used| - 1)
      && var final := used[|used| - 1].answer;
         && (ret.Done? <==> final.Ok?)
         && (final.NotNow? ==> |used| == attempts + 1)
  }

  predicate Quick(s: seq<Attempt>, a: nat) {
    forall i :: 0 <= i < |s| ==> s[i].transit + s[i].reply <= a
  }

  lemma QuickSplit(s: seq<Attempt>, used: seq<Attempt>, rest: seq<Attempt>, a: nat)
    requires s == used + rest && Quick(s, a)
    ensures Quick(used, a) && Quick(rest, a)
  {
    assert forall i :: 0 <= i < |used| ==> used[i] == s[i];
    assert forall i :: 0 <= i < |rest| ==> rest[i] == s[|used| + i];
  }

  function Start(t: Timer, now: Instant): Progress {
    Progress(now, now, t)
  }

  /** Requests take effect in order, between the start and the current time. */
  predicate Sequenced(q: Request, t: Timer, now: Instant, p: Progress, hits: seq<Instant>) {
    now <= p.at <= p.now && Ordered(hits, now, p.now) && p.timer == Deliver(q, t, hits)
  }

  lemma SentLands(q: Request, t: Timer, now: Instant, p: Progress, hits: seq<Instant>, at: Instant, reply: nat)
    requires Sequenced(q, t, now, p, hits) && p.now <= at
    ensures Sequenced(q, t, now, Progress(at + reply, at, Apply(q, p.timer, at)), hits + [at])
  {
    OneHitMore(q, t, hits, at, now, p.now);
    OrderedWider(hits + [at], now, at, at + reply);
  }

  lemma SentQuiet(q: Request, t: Timer, now: Instant, p: Progress, hits: seq<Instant>, at: Instant, reply: nat)
    requires Sequenced(q, t, now, p, hits) && p.now <= at
    ensures Sequenced(q, t, now, Progress(at + reply, at, p.timer), hits)
  {
    OrderedWider(hits, now, p.now, at + reply);
  }

  lemma SentSequenced(q: Request, t: Timer, now: Instant, p: Progress, hits: seq<Instant>, a: Attempt)
    requires Sequenced(q, t, now, p, hits)
    ensures Sequenced(q, t, now, Sent(q, p, a), hits + HitOf(p, a))
  {
    hide Sequenced;
    if TakesEffect(a) {
      SentLands(q, t, now, p, hits, p.now + a.transit, a.reply);
    } else {
      SentQuiet(q, t, now, p, hits, p.now + a.transit, a.reply);
      assert hits + HitOf(p, a) == hits;
    }
  }

  lemma NapSequenced(q: Request, t: Timer, now: Instant, p: Progress, hits: seq<Instant>, nap: nat)
    requires Sequenced(q, t, now, p, hits)
    ensures Sequenced(q, t, now, p.(now := p.now + nap), hits)
  {
    OrderedWider(hits, now, p.now, p.now + nap);
  }

  lemma {:induction false} RetriesSequenced(q: Request, t: Timer, now: Instant, wait: nat, used: seq<Attempt>)
    ensures Sequenced(q, t, now, Retries(q, Start(t, now), wait, used), Hits(q, Start(t, now), wait, used))
    decreases |used|
  {
    if used != [] {
      var pre := used[..|used| - 1];
      var p, hits, a := Retries(q, Start(t, now), wait, pre), Hits(q, Start(t, now), wait, pre), used[|used| - 1];
      RetriesSequenced(q, t, now, wait, pre);
      SentSequenced(q, t, now, p, hits, a);
      NapSequenced(q, t, now, Sent(q, p, a), hits + HitOf(p, a), Slept(wait, a));
    }
  }

  /** What a command does to the BMC: its request takes effect in order within
      the command's time, and at least once if the command succeeded. */
  lemma EffectSequenced(q: Request, t: Timer, now: Instant, wait: nat, attempts: nat, ret: Ret, used: seq<Attempt>)
    requires Retried(ret, used, attempts)
    ensures var p, hits := Effect(q, Start(t, now), wait, ret, used), Hits(q, Start(t, now), wait, used);
            && Sequenced(q, t, now, p, hits)
            && (ret.Done? ==> hits != [] && hits[|hits| - 1] == p.at && p.now == p.at + used[|used| - 1].reply)
  {
    if ret.Cut? {
      RetriesSequenced(q, t, now, wait, used);
    } else {
      var pre := used[..|used| - 1];
      RetriesSequenced(q, t, now, wait, pre);
      var p := Start(t, now);
      SentSequenced(q, t, now, Retries(q, p, wait, pre), Hits(q, p, wait, pre), used[|used| - 1]);
    }
  }

  predicate NoneLanded(s: seq<Attempt>) {
    forall i :: 0 <= i < |s| ==> !TakesEffect(s[i])
  }

  lemma {:induction false} NothingHits(q: Request, p: Progress, wait: nat, used: seq<Attempt>)
    requires NoneLanded(used)
    ensures Hits(q, p, wait, used) == []
    decreases |used|
  {
    if used != [] {
      NothingHits(q, p, wait, used[..|used| - 1]);
    }
  }

  lemma {:induction false} RetriesTime(q: Request, p: Progress, wait: nat, used: seq<Attempt>, a: nat, step: nat)
    requires Quick(used, a) && step == a + wait * SECOND
    ensures Retries(q, p, wait, used).now <= p.now + |used| * step
    decreases |used|
  {
    if used != [] {
      RetriesTime(q, p, wait, used[..|used| - 1], a, step);
      OneMore(|used| - 1, step);
    }
  }

  /** The most a command can take when no request takes longer than `a`:
      `attempts` retries with their sleeps, and one request more. */
  function CommandTime(a: nat, attempts: nat, wait: nat): nat {
    attempts * (a + wait * SECOND) + a
  }

  lemma EffectTime(q: Request, p: Progress, wait: nat, attempts: nat, ret: Ret, used: seq<Attempt>, a: nat)
    requires Retried(ret, used, attempts) && Quick(used, a)
    ensures Effect(q, p, wait, ret, used).now <= p.now + CommandTime(a, attempts, wait)
  {
    var step := a + wait * SECOND;
    var n := if ret.Cut? then |used| else |used| - 1;
    RetriesTime(q, p, wait, used[..n], a, step);
    AtMost(n, attempts, step, step);
    assert ret.Cut? ==> used[..n] == used;
  }

  /** What the requests themselves take. */
  function RequestTime(used: seq<Attempt>): nat {
    if used == [] then 0
    else RequestTime(used[..|used| - 1]) + used[|used| - 1].transit + used[|used| - 1].reply
  }

  /** By how much signals shorten the sleeps of `wait` seconds after requests: each
      by its own cut, down to nothing. */
  function Shortening(used: seq<Attempt>, wait: nat): nat {
    if used == [] then 0
    else
      var cut := used[|used| - 1].cut;
      Shortening(used[..|used| - 1], wait) + if cut <= wait * SECOND then cut else wait * SECOND
  }

  predicate Uncut(used: seq<Attempt>) {
    forall i :: 0 <= i < |used| ==> used[i].cut == 0
  }

  lemma {:induction false} UncutIsFull(used: seq<Attempt>, wait: nat)
    requires Uncut(used)
    ensures Shortening(used, wait) == 0
    decreases |used|
  {
    if used != [] {
      UncutIsFull(used[..|used| - 1], wait);
    }
  }

  /** From `from` to `to` the requests and a sleep after each of the first `n` passed. */
  predicate TookTime(used: seq<Attempt>, n: nat, wait: nat, from: Instant, to: Instant)
    requires n <= |used|
  {
    && to + Shortening(used[..n], wait) == from + RequestTime(used) + n * (wait * SECOND)
    && (Uncut(used) ==> to == from + RequestTime(used) + n * (wait * SECOND))
  }

  lemma {:induction false} RetriesTake(q: Request, p: Progress, wait: nat, used: seq<Attempt>)
    ensures Retries(q, p, wait, used).now + Shortening(used, wait) ==
            p.now + RequestTime(used) + |used| * (wait * SECOND)
    decreases |used|
  {
    if used != [] {
      RetriesTake(q, p, wait, used[..|used| - 1]);
      OneMore(|used| - 1, wait * SECOND);
    }
  }

  /** A command takes its requests, and a sleep of `wait` seconds after every one
      that is retried. */
  lemma CommandTakes(q: Request, p: Progress, wait: nat, ret: Ret, used: seq<Attempt>)
    requires !ret.Cut? ==> used != []
    ensures TookTime(used, if ret.Cut? then |used| else |used| - 1, wait, p.now, Effect(q, p, wait, ret, used).now)
  {
    var n := if ret.Cut? then |used| else |used| - 1;
    RetriesTake(q, p, wait, used[..n]);
    assert ret.Cut? ==> used[..n] == used;
    if Uncut(used) {
      UncutIsFull(used[..n], wait);
    }
  }

  // ----- Retry tuning for the main loop -----

  /** `retry_attempts` and `retry_wait_time` after the adjustment to the reset
      period, with the three branches of the source. */
  function Tuned(wait: nat, attempts: nat, period: nat): (nat, nat)
    requires 0 < wait
  {
    var fitting: nat := period / wait;
    if wait * attempts > period then (0, 0)
    else if period > wait && period < wait * attempts then (fitting, wait)
    else (attempts, wait)
  }

  /** The second branch is never entered: what does not fit into the period was
      taken by the first one, so that retries are kept as they are or given up
      altogether, and what remains fits. */
  lemma TunedFitsPeriod(wait: nat, attempts: nat, period: nat)
    requires 0 < wait
    ensures Tuned(wait, attempts, period) == if wait * attempts > period then (0, 0) else (attempts, wait)
    ensures Tuned(wait, attempts, period).0 * Tuned(wait, attempts, period).1 <= period
  {
  }

  // ----- Options and the values they choose -----

  datatype Options = Options(
    timerUse: Option<nat>, stopTimer: Option<bool>, log: Option<nat>, action: Option<nat>,
    preInterrupt: Option<nat>, preInterval: Option<nat>, seconds: Option<nat>, clear: set<nat>,
    startAfterSet: bool, resetAfterSet: bool, startIfStopped: bool, resetIfRunning: bool)

  predicate ValidOptions(o: Options) {
    o.seconds.Some? ==> o.seconds.value <= MAX_SECONDS
  }

  function Chosen(o: Options, s: Settings): Settings {
    Settings(o.timerUse.GetOr(s.timerUse), o.log.GetOr(s.log), o.action.GetOr(s.action),
             o.preInterrupt.GetOr(s.preInterrupt), o.preInterval.GetOr(s.preInterval))
  }

  /** "pre-timeout interval greater than initial countdown seconds" */
  predicate PreTimeoutTooLong(s: Settings, seconds: nat) {
    s.preInterrupt != INTERRUPT_NONE && s.preInterval > seconds
  }

  /** The value asked for, or if none was the one that was there. */
  predicate Asked(o: Option<nat>, was: nat, now: nat) {
    match o case Some(v) => now == v case None => now == was
  }

  predicate SettingsAsked(o: Options, s: Settings, t: Settings) {
    && Asked(o.timerUse, s.timerUse, t.timerUse)
    && Asked(o.log, s.log, t.log)
    && Asked(o.action, s.action, t.action)
    && Asked(o.preInterrupt, s.preInterrupt, t.preInterrupt)
    && Asked(o.preInterval, s.preInterval, t.preInterval)
  }

  /** The pre-timeout interval asked for does not fit into the countdown asked for. */
  ghost predicate DoesNotFit(o: Options, t: Timer) {
    exists interrupt, interval, seconds ::
      && Asked(o.preInterrupt, t.settings.preInterrupt, interrupt)
      && Asked(o.preInterval, t.settings.preInterval, interval)
      && Asked(o.seconds, t.initial / 10, seconds)
      && interrupt != INTERRUPT_NONE && interval > seconds
  }

  lemma FitsExactly(o: Options, t: Timer)
    ensures PreTimeoutTooLong(Chosen(o, t.settings), o.seconds.GetOr(t.initial / 10)) <==> DoesNotFit(o, t)
  {
    var s, seconds := Chosen(o, t.settings), o.seconds.GetOr(t.initial / 10);
    assert Asked(o.preInterrupt, t.settings.preInterrupt, s.preInterrupt);
    assert Asked(o.preInterval, t.settings.preInterval, s.preInterval);
    assert Asked(o.seconds, t.initial / 10, seconds);
  }

  /** The Set stops the timer: because it was asked for, or because the timer was
      stopped and nothing was asked for. */
  predicate StopAsked(o: Options, v: View) {
    o.stopTimer == Some(true) || (o.stopTimer.None? && !v.state)
  }

  /** The Set leaves the timer running, and neither the old nor the new
      countdown can run out while the command lasts. */
  predicate KeepsRunning(o: Options, v: View, t: Timer, d: Timer, start: Instant, end: Instant) {
    !StopAsked(o, v) && t.running && start <= end < t.deadline && end - start < d.initial * CHUNK
  }

  /** The timer `d` after the Set of the chosen values, on a timer `t` that a Get
      showed as `v`. */
  predicate SetAsChosen(o: Options, v: View, t: Timer, d: Timer, start: Instant, end: Instant) {
    && SettingsAsked(o, t.settings, d.settings)
    && Asked(o.seconds, t.initial / 10, d.initial / 10) && d.initial % 10 == 0
    && (StopAsked(o, v) ==> !d.running)
    && d.flags !! o.clear && t.flags - o.clear <= d.flags
    && (KeepsRunning(o, v, t, d, start, end) ==> d.running && start <= StartOf(d) <= end)
  }

  /** What the two restart options make of the timer `d`, read at `again`. */
  predicate RestartedAs(o: Options, d: Timer, again: Instant, t: Timer, end: Instant) {
    && t.settings == d.settings && t.initial == d.initial
    && d.flags <= t.flags <= d.flags + {d.settings.timerUse}
    && if (if Expire(d, again).running then o.resetAfterSet else o.startAfterSet) then
         t.running && again <= StartOf(t) <= end
       else
         t == d
  }

  /** What the two options come to, seen from the end of the command. */
  lemma RestartedAfterSet(o: Options, v: View, t: Timer, d: Timer, from: Instant, start: Instant, mid: Instant,
                          again: Instant, u: Timer, to: Instant)
    requires SetAsChosen(o, v, t, d, start, mid) && RestartedAs(o, d, again, u, to)
    requires from <= start <= mid <= again <= to
    ensures SetAsChosen(o, v, t, d, from, to)
    ensures o.startAfterSet ==> u.running
    ensures o.resetAfterSet && KeepsRunning(o, v, t, d, from, to) ==> u.running && again <= StartOf(u) <= to
  {
  }

  /** The Set request that stops the timer and writes back what a Get showed. */
  function StopRequest(v: View): SetRequest {
    SetRequest(v.settings, true, {}, ChunksOf(v.initialSeconds))
  }

  /** `--start-if-stopped` and `--reset-if-running` replace the Set. */
  predicate SkipsSet(o: Options, v: View) {
    if v.state then o.resetIfRunning else o.startIfStopped
  }

  /** What a Get showed of the timer `t` at some instant of the command. */
  ghost predicate ShownWithin(t: Timer, v: View, from: Instant, to: Instant) {
    && v.settings == t.settings && v.initialSeconds == t.initial / 10
    && exists x :: from <= x <= to && v.state == Expire(t, x).running
  }

  datatype Outcome = Finished | Exited | Unfinished

  /** The next `n` requests are answered, with all the data asked for. */
  predicate Answering(s: seq<Attempt>, n: nat) {
    n <= |s| && forall i :: 0 <= i < n ==> s[i].answer.Ok? && !s[i].missing
  }

  lemma AnswerDecides(ret: Ret, used: seq<Attempt>, rest: seq<Attempt>, attempts: nat, n: nat)
    requires Retried(ret, used, attempts) && (ret.Cut? ==> rest == []) && 1 <= n && Answering(used + rest, n)
    ensures ret.Done? && |used| == 1 && !used[0].missing && Answering(rest, n - 1)
  {
    var s := used + rest;
    assert s[0].answer.Ok? && !s[0].missing;
    assert used != [];
    assert s[0] == used[0];
    assert |used| == 1;
    forall i | 0 <= i < n - 1
      ensures rest[i].answer.Ok? && !rest[i].missing
    {
      assert rest[i] == s[i + 1];
    }
  }

  /** Whatever ends a command early: the script, or a request that failed. */
  predicate EndsRightly(r: Outcome, was: seq<Attempt>, now: seq<Attempt>, n: nat) {
    (r.Unfinished? ==> now == []) && (Answering(was, n) ==> r.Finished?)
  }

  /** The timer was stopped by a request that wrote back its own settings: the
      countdown lost its fraction of a second, and no flag changed but the one
      the old countdown may have raised before the request arrived. */
  predicate StoppedInPlace(t: Timer, d: Timer, end: Instant) {
    && !d.running
    && d.settings == t.settings
    && d.initial <= t.initial < d.initial + 10 && d.initial % 10 == 0
    && t.flags <= d.flags <= t.flags + (if t.running then {t.settings.timerUse} else {})
    && (end < t.deadline ==> d.flags == t.flags)
  }

  /** A stopping Set took effect, perhaps more than once: its record is in
      force, the timer is stopped, and no flag changed but the cleared ones and
      the one the old countdown may have raised before. */
  predicate SetStopped(r: SetRequest, t: Timer, d: Timer, end: Instant) {
    && d == Timer(r.settings, d.flags, r.chunks, false, d.deadline, r.chunks)
    && t.flags - r.clear <= d.flags <= t.flags + (if t.running then {t.settings.timerUse} else {})
    && d.flags !! r.clear
    && (end < t.deadline ==> d.flags == t.flags - r.clear)
  }

  lemma DeliverStop(r: SetRequest, t: Timer, hits: seq<Instant>, lo: Instant, hi: Instant)
    requires r.stop && hits != [] && Ordered(hits, lo, hi)
    ensures SetStopped(r, t, Deliver(Set(r), t, hits), hi)
  {
    DeliverSet(r, t, hits);
    StopKeepsFlags(r, t, hits, lo, hi);
  }

  lemma DeliverStopAgain(r: SetRequest, t: Timer, d: Timer, hits: seq<Instant>, lo: Instant, mid: Instant, hi: Instant)
    requires r.stop && SetStopped(r, t, d, mid) && Ordered(hits, lo, hi) && mid <= hi
    ensures SetStopped(r, t, Deliver(Set(r), d, hits), hi)
  {
    if hits != [] {
      DeliverStop(r, d, hits, lo, hi);
      assert !d.running ==> Deliver(Set(r), d, hits).flags == d.flags - r.clear by {
        StopKeepsFlags(r, d, hits, lo, hi);
      }
    }
  }

  lemma StopInPlace(t: Timer, v: View, at: Instant, lag: nat, d: Timer, end: Instant)
    requires t.initial <= MAX_CHUNKS && v == ViewOf(t, at, lag) && SetStopped(StopRequest(v), t, d, end)
    ensures StoppedInPlace(t, d, end)
  {
  }

  // ----- Fatal errors during the setup -----

  /** What the limiter can remember while every fatal error ends the process. */
  predicate NeverFatal(l: Limiter) {
    && !l.repeat.err.Fatal? && !l.repeat.err.Success?
    && (l.repeat.err.NoErrnum? ==> l.repeat.cmd.NoCommand?)
  }

  /** No request follows one that failed fatally, and that one ends the process. */
  predicate FatalEnds(used: seq<Attempt>, exited: bool) {
    forall i :: 0 <= i < |used| && used[i].answer.Broken? ==> exited && i == |used| - 1
  }

  /** The process ends only for a fatal error or for a response without the
      data asked for. */
  predicate ExitHasCause(used: seq<Attempt>) {
    used != [] && var x := used[|used| - 1]; x.answer.Broken? || (x.answer.Ok? && x.missing)
  }

  lemma RetriedFatal(ret: Ret, used: seq<Attempt>, attempts: nat)
    requires Retried(ret, used, attempts)
    ensures FatalEnds(used, ret.Failed? && used[|used| - 1].answer.Broken?)
  {
  }

  lemma FatalJoin(used: seq<Attempt>, more: seq<Attempt>, exited: bool)
    requires FatalEnds(used, false) && FatalEnds(more, exited)
    ensures FatalEnds(used + more, exited)
  {
  }

  /** A Get whose data is missing is reported with the error number of an
      earlier, busy request of the same command, or with none.  With none it
      always ends the setup; otherwise exactly if the limiter lets it through. */
  lemma MissingDataExits(l: Limiter, last: Failure, verbose: bool)
    requires NeverFatal(l) && !last.cmd.NoCommand? && (last.err.NoErrnum? || Busy(last.err))
    ensures Report(l, last, Success, verbose, true).exit
       <==> verbose || l.repeat != last || l.count + 1 >= LOG_REPEAT_LIMIT
    ensures last.err.NoErrnum? ==> Report(l, last, Success, verbose, true).exit
  {
  }

  /** Seven busy answers, and then one without the data asked for. */
  predicate BusyThenMissing(s: seq<Attempt>) {
    && |s| == RETRY_ATTEMPTS_DEFAULT + 3
    && (forall i :: 0 <= i < |s| - 1 ==> s[i].answer.NotNow? && s[i].answer == s[0].answer)
    && s[|s| - 1].answer.Ok? && s[|s| - 1].missing
  }

  /** The limiter of a fresh process on those answers: the first Get uses up its
      retries and is reported, and the second, whose response lacks the data, is
      taken for a repetition of that failure and ignored. */
  lemma MissingDataHidden(s: seq<Attempt>)
    requires BusyThenMissing(s)
    ensures var busy := Recorded(Command.GetTimer, s[0].answer);
            var first := Report(Limiter(Failure(NoErrnum, NoCommand, 0), 0), busy, busy.err, false, true);
            && first.passed && !first.exit
            && var second := Report(first.limiter, busy, Success, false, true); !second.passed && !second.exit
  {
  }

  class Host {
    const verbose: bool
    var retryWait: nat
    var retryAttempts: nat
    var last: Failure
    var limiter: Limiter
    var lines: seq<Failure>    // what `_daemon_cmd_err` has logged
    var ctxErr: Errnum
    var now: Instant
    var timer: Timer
    var script: seq<Attempt>

    constructor (verbose: bool, now: Instant, timer: Timer, script: seq<Attempt>)
      ensures this.verbose == verbose && this.now == now && this.timer == timer && this.script == script
      ensures retryWait == RETRY_WAIT_TIME_DEFAULT && retryAttempts == RETRY_ATTEMPTS_DEFAULT
      ensures limiter == Limiter(Failure(NoErrnum, NoCommand, 0), 0) && lines == []
    {
      this.verbose, this.now, this.timer, this.script := verbose, now, timer, script;
      retryWait, retryAttempts := RETRY_WAIT_TIME_DEFAULT, RETRY_ATTEMPTS_DEFAULT;
      last := Failure(NoErrnum, NoCommand, 0);
      limiter, lines := Limiter(Failure(NoErrnum, NoCommand, 0), 0), [];
      ctxErr := Success;
    }

    function World(): Progress
      reads this
    {
      Start(timer, now)
    }

    function Notes(): Journal
      reads this
    {
      Journal(limiter, lines)
    }

    method Send(q: Request, ghost p: Progress) returns (a: Attempt, at: Instant)
      requires script != [] && p.now == now && p.timer == timer
      modifies `ctxErr, `now, `timer, `script
      ensures a == old(script)[0] && script == old(script)[1..]
      ensures now == Sent(q, p, a).now && timer == Sent(q, p, a).timer && at == Sent(q, p, a).at
      ensures ctxErr == ErrnumOf(a.answer)
    {
      a, script := script[0], script[1..];
      now := now + a.transit;
      at := now;
      if a.answer.Ok? || a.applied {
        timer := Apply(q, timer, now);
      }
      now := now + a.reply;
      ctxErr := ErrnumOf(a.answer);
    }

    /** `_cmd`: at most `retryAttempts + 1` requests, all but the last answered
        busy, and `retryWait` seconds of sleep between them.  `used` lists the
        requests. */
    method Cmd(q: Request, c: Command) returns (ret: Ret, rs: Response, ghost used: seq<Attempt>)
      modifies `last, `ctxErr, `now, `timer, `script
      ensures old(script) == used + script
      ensures Retried(ret, used, retryAttempts)
      ensures ret.Cut? ==> script == []
      ensures var p := Effect(q, old(World()), retryWait, ret, used);
              now == p.now && timer == p.timer && rs.at == p.at
      ensures TookTime(used, if ret.Cut? then |used| else |used| - 1, retryWait, old(now), now)
      ensures !ret.Cut? ==> rs.lag == used[|used| - 1].lag && rs.missing == used[|used| - 1].missing
      ensures last.cmd == c
      ensures ret.Done? ==> ctxErr == Success && last == Failure(BusyBefore(used), c, 0)
      ensures ret.Failed? ==> last == Recorded(c, used[|used| - 1].answer) && ctxErr == last.err
    {
      ghost var p := World();
      ret, rs, used := Exchange(q, c);
      CommandTakes(q, p, retryWait, ret, used);
    }

    /** The loop of `_cmd` */
    method Exchange(q: Request, c: Command) returns (ret: Ret, rs: Response, ghost used: seq<Attempt>)
      modifies `last, `ctxErr, `now, `timer, `script
      ensures old(script) == used + script
      ensures Retried(ret, used, retryAttempts)
      ensures ret.Cut? ==> script == []
      ensures var p := Effect(q, old(World()), retryWait, ret, used);
              now == p.now && timer == p.timer && rs.at == p.at
      ensures !ret.Cut? ==> rs.lag == used[|used| - 1].lag && rs.missing == used[|used| - 1].missing
      ensures last.cmd == c
      ensures ret.Done? ==> ctxErr == Success && last == Failure(BusyBefore(used), c, 0)
      ensures ret.Failed? ==> last == Recorded(c, used[|used| - 1].answer) && ctxErr == last.err
    {
      used, rs := [], Response(now, 0, true);
      last := Failure(NoErrnum, c, 0);
      var retryCount := 0;
      while true
        invariant old(script) == used + script
        invariant retryCount == |used| <= retryAttempts && Busied(used, |used|)
        invariant var p := Retries(q, old(World()), retryWait, used);
                  now == p.now && timer == p.timer && rs.at == p.at
        invariant last == Failure(LastErr(used), c, 0)
        decreases |script|
      {
        if script == [] {
          return Cut, rs, used;
        }
        ghost var usedBefore := used;
        var a: Attempt;
        var at: Instant;
        a, at := Send(q, Retries(q, old(World()), retryWait, used));
        rs := Response(at, a.lag, a.missing);
        used := used + [a];
        assert used[..|used| - 1] == usedBefore;
        assert old(script) == used + script;
        assert BusyBefore(used) == last.err;
        if a.answer.Ok? {
          return Done, rs, used;
        }
        last := last.(err := ctxErr);
        if !Busy(ctxErr) {
          if a.answer.BadCode? && !a.answer.described {
            last := last.(comp := a.answer.comp);
          }
          return Failed, rs, used;
        }
        if retryCount >= retryAttempts {
          return Failed, rs, used;
        }
        now := now + Slept(retryWait, a);
        retryCount := retryCount + 1;
      }
    }

    /** `_daemon_cmd_err` */
    method DaemonCmdErr(exitOnFatal: bool) returns (exit: bool)
      modifies `limiter, `lines
      ensures exit == Report(old(limiter), last, ctxErr, verbose, exitOnFatal).exit
      ensures Notes() == Noted(old(Notes()), Fault(last, ctxErr), verbose, exitOnFatal)
    {
      if !verbose && limiter.repeat == last {
        limiter := limiter.(count := limiter.count + 1);
        if limiter.count < LOG_REPEAT_LIMIT {
          return false;
        }
      }
      if ctxErr.BadCompletionCode? {
        lines := lines + [last];
      } else if !Busy(ctxErr) {
        lines := lines + [last];
        if exitOnFatal {
          return true;
        }
      }
      limiter := Limiter(last, 0);
      exit := false;
    }

    // ----- The three watchdog commands -----

    /** `_get_watchdog_timer_cmd`.  `inner` is what `_cmd` returned: a response
        without the data asked for turns success into failure. */
    method GetTimer() returns (ret: Ret, view: View, rs: Response, ghost used: seq<Attempt>, ghost inner: Ret)
      modifies `last, `ctxErr, `now, `timer, `script
      ensures old(script) == used + script && Retried(inner, used, retryAttempts)
      ensures ret == if inner.Done? && used[|used| - 1].missing then Failed else inner
      ensures ret.Cut? ==> script == []
      ensures var p := Effect(Get, old(World()), retryWait, inner, used); now == p.now && rs.at == p.at
      ensures timer == old(timer) && old(now) <= rs.at <= now
      ensures view == ViewOf(timer, rs.at, rs.lag) && (!inner.Cut? ==> rs.lag == used[|used| - 1].lag)
      ensures last.cmd == Command.GetTimer
      ensures inner.Done? ==> ctxErr == Success && last == Failure(BusyBefore(used), Command.GetTimer, 0)
      ensures forall n :: 1 <= n && Answering(old(script), n) ==> ret.Done? && Answering(script, n - 1)
      ensures inner.Failed? ==> last == Recorded(Command.GetTimer, used[|used| - 1].answer) && ctxErr == last.err
    {
      ghost var t, start, before := timer, now, script;
      ret, rs, used := Cmd(Get, Command.GetTimer);
      inner := ret;
      EffectSequenced(Get, t, start, retryWait, retryAttempts, ret, used);
      forall n | 1 <= n && Answering(before, n)
        ensures ret.Done? && !rs.missing && Answering(script, n - 1)
      {
        AnswerDecides(ret, used, script, retryAttempts, n);
      }
      DeliverGet(t, Hits(Get, Start(t, start), retryWait, used));
      view := ViewOf(timer, rs.at, rs.lag);
      if ret.Done? && rs.missing {
        ret := Failed;
      }
    }

    /** `_reset_watchdog_timer_cmd` */
    method ResetTimer() returns (ret: Ret, ghost used: seq<Attempt>, ghost hits: seq<Instant>)
      modifies `last, `ctxErr, `now, `timer, `script
      ensures old(script) == used + script && Retried(ret, used, retryAttempts)
      ensures ret.Cut? ==> script == []
      ensures now == Effect(Reset, old(World()), retryWait, ret, used).now && old(now) <= now
      ensures hits == Hits(Reset, old(World()), retryWait, used)
      ensures timer == Deliver(Reset, old(timer), hits) && Ordered(hits, old(now), now)
      ensures ret.Done? ==> hits != [] && now == hits[|hits| - 1] + used[|used| - 1].reply
      ensures NoneLanded(used) ==> hits == []
      ensures last.cmd == Command.ResetTimer
      ensures forall n :: 1 <= n && Answering(old(script), n) ==> ret.Done? && Answering(script, n - 1)
      ensures ret.Failed? ==> last == Recorded(Command.ResetTimer, used[|used| - 1].answer) && ctxErr == last.err
    {
      ghost var t, start, before := timer, now, script;
      var rs;
      ret, rs, used := Cmd(Reset, Command.ResetTimer);
      EffectSequenced(Reset, t, start, retryWait, retryAttempts, ret, used);
      forall n | 1 <= n && Answering(before, n)
        ensures ret.Done? && Answering(script, n - 1)
      {
        AnswerDecides(ret, used, script, retryAttempts, n);
      }
      hits := Hits(Reset, Start(t, start), retryWait, used);
      if NoneLanded(used) {
        NothingHits(Reset, Start(t, start), retryWait, used);
      }
    }

    /** `_set_watchdog_timer_cmd`: the countdown is given in seconds. */
    method SetTimer(s: Settings, stop: bool, clear: set<nat>, seconds: nat)
      returns (ret: Ret, ghost used: seq<Attempt>, ghost hits: seq<Instant>)
      modifies `last, `ctxErr, `now, `timer, `script
      ensures old(script) == used + script && Retried(ret, used, retryAttempts)
      ensures ret.Cut? ==> script == []
      ensures old(now) <= now
      ensures TookTime(used, if ret.Cut? then |used| else |used| - 1, retryWait, old(now), now)
      ensures timer == Deliver(Set(SetRequest(s, stop, clear, ChunksOf(seconds))), old(timer), hits)
      ensures Ordered(hits, old(now), now) && (ret.Done? ==> hits != [])
      ensures last.cmd == Command.SetTimer
      ensures forall n :: 1 <= n && Answering(old(script), n) ==> ret.Done? && Answering(script, n - 1)
      ensures ret.Failed? ==> last == Recorded(Command.SetTimer, used[|used| - 1].answer) && ctxErr == last.err
    {
      ghost var t, start, before := timer, now, script;
      var rs;
      var q := Set(SetRequest(s, stop, clear, ChunksOf(seconds)));
      ret, rs, used := Cmd(q, Command.SetTimer);
      EffectSequenced(q, t, start, retryWait, retryAttempts, ret, used);
      forall n | 1 <= n && Answering(before, n)
        ensures ret.Done? && Answering(script, n - 1)
      {
        AnswerDecides(ret, used, script, retryAttempts, n);
      }
      hits := Hits(q, Start(t, start), retryWait, used);
    }

    // ----- One-shot commands of the tool -----

    /** `_stop_cmd` */
    method StopCommand() returns (r: Outcome)
      requires WellFormed(timer)
      modifies `last, `ctxErr, `now, `timer, `script
      ensures WellFormed(timer)
      ensures EndsRightly(r, old(script), script, 2)
      ensures r.Finished? ==> StoppedInPlace(old(timer), timer, now)
    {
      hide TookTime;
      hide Retried;
      hide Effect;
      hide Deliver;
      ghost var t := timer;
      ghost var used, inner, hits;
      var ret, v, rs;
      ret, v, rs, used, inner := GetTimer();
      if !ret.Done? {
        return if ret.Cut? then Unfinished else Exited;
      }
      ghost var from := now;
      ret, used, hits := SetTimer(v.settings, true, {}, v.initialSeconds);
      DeliverKeepsWellFormed(Set(StopRequest(v)), t, hits);
      if hits != [] {
        DeliverStop(StopRequest(v), t, hits, from, now);
        StopInPlace(t, v, rs.at, rs.lag, timer, now);
      }
      r := match ret case Done => Finished case Failed => Exited case Cut => Unfinished;
    }

    /** `_clear_cmd` */
    method ClearCommand() returns (r: Outcome)
      requires WellFormed(timer)
      modifies `last, `ctxErr, `now, `timer, `script
      ensures WellFormed(timer)
      ensures EndsRightly(r, old(script), script, 2)
      ensures r.Finished? ==>
                && !timer.running && timer.initial == 0
                && timer.settings == Settings(old(timer).settings.timerUse, LOG_DISABLE, NO_ACTION, INTERRUPT_NONE, 0)
                && old(timer).flags <= timer.flags <= old(timer).flags + {old(timer).settings.timerUse}
    {
      hide TookTime;
      hide Retried;
      ghost var t := timer;
      ghost var used, inner, hits;
      var ret, v, rs;
      ret, v, rs, used, inner := GetTimer();
      if !ret.Done? {
        return if ret.Cut? then Unfinished else Exited;
      }
      ghost var from := now;
      var s := Settings(v.settings.timerUse, LOG_DISABLE, NO_ACTION, INTERRUPT_NONE, 0);
      ret, used, hits := SetTimer(s, true, {}, 0);
      DeliverKeepsWellFormed(Set(SetRequest(s, true, {}, 0)), t, hits);
      if hits != [] {
        DeliverStop(SetRequest(s, true, {}, 0), t, hits, from, now);
      }
      r := match ret case Done => Finished case Failed => Exited case Cut => Unfinished;
    }

    /** `_start_cmd` without its ARP options */
    method StartCommand() returns (r: Outcome, ghost seen: Instant)
      requires WellFormed(timer)
      modifies `last, `ctxErr, `now, `timer, `script
      ensures WellFormed(timer)
      ensures EndsRightly(r, old(script), script, 2)
      ensures timer.settings == old(timer).settings && timer.initial == old(timer).initial
      ensures r.Finished? ==> timer.running && old(now) <= seen <= now
      ensures r.Finished? && Expire(old(timer), seen).running ==> timer == old(timer)
      ensures r.Finished? && !Expire(old(timer), seen).running ==> seen <= StartOf(timer) <= now
    {
      ghost var used, inner, hits;
      ghost var t := timer;
      var ret, v, rs;
      ret, v, rs, used, inner := GetTimer();
      seen := rs.at;
      if !ret.Done? {
        return if ret.Cut? then Unfinished else Exited, seen;
      }
      if !v.state {
        ret, used, hits := ResetTimer();
        DeliverReset(t, hits);
        DeliverKeepsWellFormed(Reset, t, hits);
        if !ret.Done? {
          return if ret.Cut? then Unfinished else Exited, seen;
        }
      }
      r := Finished;
    }

    /** `_reset_cmd` */
    method ResetCommand() returns (r: Outcome)
      requires WellFormed(timer)
      modifies `last, `ctxErr, `now, `timer, `script
      ensures WellFormed(timer)
      ensures EndsRightly(r, old(script), script, 1)
      ensures timer.settings == old(timer).settings && timer.initial == old(timer).initial
      ensures r.Finished? ==> timer.running && old(now) <= StartOf(timer) <= now
    {
      ghost var t := timer;
      ghost var used, hits;
      var ret;
      ret, used, hits := ResetTimer();
      DeliverReset(t, hits);
      DeliverKeepsWellFormed(Reset, t, hits);
      r := match ret case Done => Finished case Failed => Exited case Cut => Unfinished;
    }

    /** The Set of `_set_cmd`, after a Get showed `view` */
    method SetChosen(o: Options, view: View) returns (ret: Ret)
      requires ValidOptions(o) && WellFormed(timer)
      requires view.settings == timer.settings && view.initialSeconds == timer.initial / 10
      requires !PreTimeoutTooLong(Chosen(o, view.settings), o.seconds.GetOr(view.initialSeconds))
      modifies `last, `ctxErr, `now, `timer, `script
      ensures WellFormed(timer) && old(now) <= now && (ret.Cut? ==> script == [])
      ensures forall n :: 1 <= n && Answering(old(script), n) ==> ret.Done? && Answering(script, n - 1)
      ensures ret.Done? ==> SetAsChosen(o, view, old(timer), timer, old(now), now)
    {
      hide TookTime;
      hide Retried;
      ghost var t, used, hits := timer, [], [];
      var s, seconds := Chosen(o, view.settings), o.seconds.GetOr(view.initialSeconds);
      var stop := o.stopTimer.GetOr(!view.state);
      ret, used, hits := SetTimer(s, stop, o.clear, seconds);
      ghost var body := SetRequest(s, stop, o.clear, ChunksOf(seconds));
      WriteThenRead(seconds);
      DeliverKeepsWellFormed(Set(body), t, hits);
      if hits != [] {
        DeliverSet(body, t, hits);
        if !stop && t.running && now < t.deadline && now - old(now) < body.chunks * CHUNK {
          DeliverSetRunning(body, t, hits, old(now), now);
        }
      }
    }

    /** `_set_cmd`.  `v` is what the first Get showed, `d` the timer once the Set
        was done, `again` the instant of the reading that decided on the restart. */
    method SetCommand(o: Options) returns (r: Outcome, ghost v: View, ghost d: Timer, ghost again: Instant)
      requires ValidOptions(o) && WellFormed(timer)
      modifies `last, `ctxErr, `now, `timer, `script
      ensures WellFormed(timer)
      ensures r.Unfinished? ==> script == []
      ensures Answering(old(script), 4) ==>
                (r.Exited? <==> !SkipsSet(o, v) && DoesNotFit(o, old(timer))) && (r.Exited? ==> timer == old(timer))
      ensures r.Finished? ==> ShownWithin(old(timer), v, old(now), now)
      ensures r.Finished? && SkipsSet(o, v) ==>
                && timer.settings == old(timer).settings && timer.initial == old(timer).initial
                && timer.running && old(now) <= StartOf(timer) <= now
      // The Set puts the chosen values in force.
      ensures r.Finished? && !SkipsSet(o, v) ==>
                SetAsChosen(o, v, old(timer), d, old(now), now)
      // Afterwards the timer is restarted exactly if it was asked for.
      ensures r.Finished? && !SkipsSet(o, v) ==> old(now) <= again <= now && RestartedAs(o, d, again, timer, now)
      ensures r.Finished? && !SkipsSet(o, v) && o.startAfterSet ==> timer.running
      ensures r.Finished? && !SkipsSet(o, v) && o.resetAfterSet && KeepsRunning(o, v, old(timer), d, old(now), now) ==>
                timer.running && again <= StartOf(timer) <= now
    {
      hide SetAsChosen;
      hide RestartedAs;
      hide KeepsRunning;
      hide DoesNotFit;
      ghost var t := timer;
      ghost var used, inner, hits;
      var ret, view, rs;
      d, again := timer, now;
      ret, view, rs, used, inner := GetTimer();
      v := view;
      if !ret.Done? {
        return if ret.Cut? then Unfinished else Exited, v, d, again;
      }
      if (!view.state && o.startIfStopped) || (view.state && o.resetIfRunning) {
        ret, used, hits := ResetTimer();
        DeliverReset(t, hits);
        DeliverKeepsWellFormed(Reset, t, hits);
        r := match ret case Done => Finished case Failed => Exited case Cut => Unfinished;
        return;
      }
      FitsExactly(o, timer);
      var s, seconds := Chosen(o, view.settings), o.seconds.GetOr(view.initialSeconds);
      if s.preInterrupt != INTERRUPT_NONE && s.preInterval > seconds {
        return Exited, v, d, again;
      }
      ghost var start := now;
      ret := SetChosen(o, view);
      if !ret.Done? {
        return if ret.Cut? then Unfinished else Exited, v, d, again;
      }
      d := timer;
      ghost var mid := now;
      ret, again := RestartAfterSet(o);
      if ret.Done? {
        RestartedAfterSet(o, v, t, d, old(now), start, mid, again, timer, now);
      }
      r := match ret case Done => Finished case Failed => Exited case Cut => Unfinished;
    }

    /** The end of `_set_cmd`: `--start-after-set` and `--reset-after-set` */
    method RestartAfterSet(o: Options) returns (ret: Ret, ghost again: Instant)
      requires WellFormed(timer)
      modifies `last, `ctxErr, `now, `timer, `script
      ensures WellFormed(timer) && old(now) <= again <= now
      ensures timer.settings == old(timer).settings && timer.initial == old(timer).initial
      ensures (ret.Cut? ==> script == []) && (Answering(old(script), 2) ==> ret.Done?)
      ensures ret.Done? ==> RestartedAs(o, old(timer), again, timer, now)
    {
      ret, again := Done, now;
      if o.startAfterSet || o.resetAfterSet {
        ghost var used, inner, hits;
        ghost var t := timer;
        var view, rs;
        ret, view, rs, used, inner := GetTimer();
        again := rs.at;
        if ret.Done? && ((!view.state && o.startAfterSet) || (view.state && o.resetAfterSet)) {
          ret, used, hits := ResetTimer();
          DeliverReset(t, hits);
          DeliverKeepsWellFormed(Reset, t, hits);
        }
      }
    }
  }
}
