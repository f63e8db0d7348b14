/** The bmc-watchdog daemon: setup, main loop and shutdown, run on a `Host`. */
module WatchdogDaemon {
  import opened Common
  import opened BmcTimer
  import opened ErrorLimiter
  import opened WatchdogHost
  import opened DaemonRun
  import opened LoopTrace
  import opened FailureReports
  import opened DaemonSafety
  import opened IgnoreState

  // ----- Commands repeated until they succeed -----

  /** The outcome of one round of a `while (1)` loop around a command:
      `None` means that the failure was reported and a second slept away. */
  method Round(h: Host, ret: Ret, exitOnFatal: bool, ghost c: Command, ghost used: seq<Attempt>, ghost inner: Ret)
    returns (r: Option<Outcome>)
    requires exitOnFatal ==> NeverFatal(h.limiter)
    requires Retried(inner, used, h.retryAttempts)
    requires ret == if inner.Done? && c.GetTimer? && used[|used| - 1].missing then Failed else inner
    requires ret.Failed? ==> Fault(h.last, h.ctxErr) == FaultOf(c, used)
    requires inner.Failed? ==> h.last.err == h.ctxErr == ErrnumOf(used[|used| - 1].answer)
    requires inner.Done? && ret.Failed? ==> h.ctxErr == Success && (h.last.err.NoErrnum? || Busy(h.last.err))
    requires !h.last.cmd.NoCommand?
    modifies h`limiter, h`lines, h`now
    ensures exitOnFatal ==> NeverFatal(h.limiter)
    ensures ret.Done? <==> r == Some(Finished)
    ensures ret.Cut? <==> r == Some(Unfinished)
    ensures r == Some(Exited) ==> ret.Failed? && exitOnFatal && ExitHasCause(used)
    ensures exitOnFatal ==> FatalEnds(used, r == Some(Exited))
    ensures h.Notes() == Reporting(old(h.Notes()), LoopFaults(c, used, h.retryAttempts), h.verbose, exitOnFatal)
    ensures r.None? ==> Whole(used, h.retryAttempts)
    ensures h.now == old(h.now) + if r.None? then RETRY_WAIT_TIME_DEFAULT * SECOND else 0
  {
    RetriedFatal(inner, used, h.retryAttempts);
    OneRound(c, inner, used, h.retryAttempts);
    if ret.Done? {
      return Some(Finished);
    } else if ret.Cut? {
      return Some(Unfinished);
    }
    var exit := h.DaemonCmdErr(exitOnFatal);
    if exit {
      return Some(Exited);
    }
    h.now := h.now + RETRY_WAIT_TIME_DEFAULT * SECOND;
    r := None;
  }

  /** The loops around a Get. */
  method GetUntilDone(h: Host, exitOnFatal: bool)
    returns (r: Outcome, view: View, rs: Response, ghost used: seq<Attempt>)
    requires exitOnFatal ==> NeverFatal(h.limiter)
    modifies h`last, h`ctxErr, h`now, h`timer, h`script, h`limiter, h`lines
    ensures exitOnFatal ==> NeverFatal(h.limiter)
    ensures old(h.script) == used + h.script && h.timer == old(h.timer)
    ensures old(h.now) <= rs.at <= h.now
    ensures r.Finished? ==> view == ViewOf(h.timer, rs.at, rs.lag)
    ensures r.Exited? ==> exitOnFatal && ExitHasCause(used)
    ensures exitOnFatal ==> FatalEnds(used, r.Exited?)
    ensures h.Notes() ==
            Reporting(old(h.Notes()), LoopFaults(Command.GetTimer, used, h.retryAttempts), h.verbose, exitOnFatal)
    ensures r.Unfinished? ==> h.script == []
  {
    hide Reporting;
    hide LoopFaults;
    hide Whole;
    NoFaults(h.Notes(), Command.GetTimer, h.retryAttempts, h.verbose, exitOnFatal);
    used := [];
    while true
      invariant exitOnFatal ==> NeverFatal(h.limiter) && FatalEnds(used, false)
      invariant Whole(used, h.retryAttempts)
      invariant h.Notes() ==
                Reporting(old(h.Notes()), LoopFaults(Command.GetTimer, used, h.retryAttempts), h.verbose, exitOnFatal)
      invariant old(h.script) == used + h.script && h.timer == old(h.timer)
      invariant old(h.now) <= h.now
      decreases |h.script|
    {
      var ret;
      ghost var more, inner;
      ghost var before := used;
      ret, view, rs, more, inner := h.GetTimer();
      used := before + more;
      assert old(h.script) == used + h.script;
      var round := Round(h, ret, exitOnFatal, Command.GetTimer, more, inner);
      ReportedMore(old(h.Notes()), Command.GetTimer, before, more, h.retryAttempts, h.verbose, exitOnFatal);
      if exitOnFatal {
        FatalJoin(before, more, round == Some(Exited));
      }
      if round.Some? {
        assert round == Some(Exited) ==> used[|used| - 1] == more[|more| - 1];
        return round.value, view, rs, used;
      }
    }
  }

  /** What stopping Sets may have done to the timer `t` so far. */
  predicate StopTried(body: SetRequest, t: Timer, d: Timer, end: Instant) {
    d == t || SetStopped(body, t, d, end)
  }

  /** One round of a loop around a stopping Set; `t` is the timer before the
      loop. */
  method SetRound(h: Host, exitOnFatal: bool, s: Settings, clear: set<nat>, seconds: nat, ghost t: Timer)
    returns (round: Option<Outcome>, ghost used: seq<Attempt>)
    requires exitOnFatal ==> NeverFatal(h.limiter)
    requires StopTried(SetRequest(s, true, clear, ChunksOf(seconds)), t, h.timer, h.now)
    modifies h`last, h`ctxErr, h`now, h`timer, h`script, h`limiter, h`lines
    ensures exitOnFatal ==> NeverFatal(h.limiter) && FatalEnds(used, round == Some(Exited))
    ensures h.Notes() ==
            Reporting(old(h.Notes()), LoopFaults(Command.SetTimer, used, h.retryAttempts), h.verbose, exitOnFatal)
    ensures round.None? ==> Whole(used, h.retryAttempts)
    ensures old(h.script) == used + h.script && old(h.now) <= h.now
    ensures round.None? ==> |h.script| < |old(h.script)|
    ensures StopTried(SetRequest(s, true, clear, ChunksOf(seconds)), t, h.timer, h.now)
    ensures round == Some(Finished) ==> SetStopped(SetRequest(s, true, clear, ChunksOf(seconds)), t, h.timer, h.now)
    ensures round == Some(Exited) ==> exitOnFatal && ExitHasCause(used)
    ensures round == Some(Unfinished) ==> h.script == []
  {
    ghost var body := SetRequest(s, true, clear, ChunksOf(seconds));
    ghost var hits, d, from := [], h.timer, h.now;
    var ret;
    ret, used, hits := h.SetTimer(s, true, clear, seconds);
    if d != t {
      DeliverStopAgain(body, t, d, hits, from, from, h.now);
    } else if hits != [] {
      DeliverStop(body, t, hits, from, h.now);
    }
    round := Round(h, ret, exitOnFatal, Command.SetTimer, used, ret);
  }

  /** The loops around a stopping Set. */
  method SetUntilDone(h: Host, exitOnFatal: bool, s: Settings, clear: set<nat>, seconds: nat)
    returns (r: Outcome, ghost used: seq<Attempt>)
    requires exitOnFatal ==> NeverFatal(h.limiter)
    modifies h`last, h`ctxErr, h`now, h`timer, h`script, h`limiter, h`lines
    ensures exitOnFatal ==> NeverFatal(h.limiter)
    ensures old(h.script) == used + h.script && old(h.now) <= h.now
    ensures StopTried(SetRequest(s, true, clear, ChunksOf(seconds)), old(h.timer), h.timer, h.now)
    ensures r.Finished? ==> SetStopped(SetRequest(s, true, clear, ChunksOf(seconds)), old(h.timer), h.timer, h.now)
    ensures r.Exited? ==> exitOnFatal && ExitHasCause(used)
    ensures exitOnFatal ==> FatalEnds(used, r.Exited?)
    ensures h.Notes() ==
            Reporting(old(h.Notes()), LoopFaults(Command.SetTimer, used, h.retryAttempts), h.verbose, exitOnFatal)
    ensures r.Unfinished? ==> h.script == []
  {
    hide Reporting;
    hide LoopFaults;
    hide Whole;
    NoFaults(h.Notes(), Command.SetTimer, h.retryAttempts, h.verbose, exitOnFatal);
    used := [];
    while true
      invariant exitOnFatal ==> NeverFatal(h.limiter) && FatalEnds(used, false)
      invariant Whole(used, h.retryAttempts)
      invariant h.Notes() ==
                Reporting(old(h.Notes()), LoopFaults(Command.SetTimer, used, h.retryAttempts), h.verbose, exitOnFatal)
      invariant old(h.script) == used + h.script && old(h.now) <= h.now
      invariant StopTried(SetRequest(s, true, clear, ChunksOf(seconds)), old(h.timer), h.timer, h.now)
      decreases |h.script|
    {
      var round;
      ghost var more;
      ghost var before := used;
      round, more := SetRound(h, exitOnFatal, s, clear, seconds, old(h.timer));
      used := before + more;
      assert old(h.script) == used + h.script;
      ReportedMore(old(h.Notes()), Command.SetTimer, before, more, h.retryAttempts, h.verbose, exitOnFatal);
      if exitOnFatal {
        FatalJoin(before, more, round == Some(Exited));
      }
      if round.Some? {
        assert round == Some(Exited) ==> used[|used| - 1] == more[|more| - 1];
        return round.value, used;
      }
    }
  }

  /** One round of the loop around a Reset. */
  method ResetRound(h: Host, exitOnFatal: bool)
    returns (round: Option<Outcome>, ghost used: seq<Attempt>, ghost hits: seq<Instant>)
    requires exitOnFatal ==> NeverFatal(h.limiter)
    modifies h`last, h`ctxErr, h`now, h`timer, h`script, h`limiter, h`lines
    ensures exitOnFatal ==> NeverFatal(h.limiter) && FatalEnds(used, round == Some(Exited))
    ensures h.Notes() ==
            Reporting(old(h.Notes()), LoopFaults(Command.ResetTimer, used, h.retryAttempts), h.verbose, exitOnFatal)
    ensures round.None? ==> Whole(used, h.retryAttempts) && |h.script| < |old(h.script)|
    ensures old(h.script) == used + h.script && old(h.now) <= h.now
    ensures h.timer == Deliver(Reset, old(h.timer), hits)
    ensures round == Some(Finished) ==> used != [] && h.timer.running
                                        && StartOf(h.timer) == h.now - used[|used| - 1].reply
    ensures round == Some(Exited) ==> exitOnFatal && ExitHasCause(used)
    ensures round == Some(Unfinished) ==> h.script == []
  {
    hide Effect;
    hide Hits;
    ghost var t := h.timer;
    var ret;
    ret, used, hits := h.ResetTimer();
    DeliverReset(t, hits);
    round := Round(h, ret, exitOnFatal, Command.ResetTimer, used, ret);
  }

  /** One of these answers took that long to come back. */
  predicate ReplyTime(used: seq<Attempt>, delay: nat) {
    exists i :: 0 <= i < |used| && delay == used[i].reply
  }

  lemma ExitJoin(used: seq<Attempt>, more: seq<Attempt>)
    ensures ExitHasCause(more) ==> ExitHasCause(used + more)
  {
  }

  lemma ReplyJoin(used: seq<Attempt>, more: seq<Attempt>, delay: nat)
    ensures ReplyTime(more, delay) ==> ReplyTime(used + more, delay)
  {
    assert forall i :: 0 <= i < |more| ==> more[i] == (used + more)[|used| + i];
  }

  /** The loop around a Reset.  When it ends, the countdown began `delay` ago,
      the time the last answer took to come back. */
  method ResetUntilDone(h: Host, exitOnFatal: bool)
    returns (r: Outcome, ghost used: seq<Attempt>, ghost hits: seq<Instant>, ghost delay: nat)
    requires exitOnFatal ==> NeverFatal(h.limiter)
    modifies h`last, h`ctxErr, h`now, h`timer, h`script, h`limiter, h`lines
    ensures exitOnFatal ==> NeverFatal(h.limiter)
    ensures old(h.script) == used + h.script && old(h.now) <= h.now
    ensures h.timer == Deliver(Reset, old(h.timer), hits)
    ensures r.Finished? ==> h.timer.running && StartOf(h.timer) == h.now - delay && ReplyTime(used, delay)
    ensures r.Exited? ==> exitOnFatal && ExitHasCause(used)
    ensures exitOnFatal ==> FatalEnds(used, r.Exited?)
    ensures h.Notes() ==
            Reporting(old(h.Notes()), LoopFaults(Command.ResetTimer, used, h.retryAttempts), h.verbose, exitOnFatal)
    ensures r.Unfinished? ==> h.script == []
  {
    hide Reporting;
    hide LoopFaults;
    hide Whole;
    NoFaults(h.Notes(), Command.ResetTimer, h.retryAttempts, h.verbose, exitOnFatal);
    used, hits, delay := [], [], 0;
    while true
      invariant exitOnFatal ==> NeverFatal(h.limiter) && FatalEnds(used, false)
      invariant Whole(used, h.retryAttempts)
      invariant h.Notes() ==
                Reporting(old(h.Notes()), LoopFaults(Command.ResetTimer, used, h.retryAttempts), h.verbose, exitOnFatal)
      invariant old(h.script) == used + h.script && old(h.now) <= h.now
      invariant h.timer == Deliver(Reset, old(h.timer), hits)
      decreases |h.script|
    {
      var round;
      ghost var more, g;
      ghost var before := used;
      round, more, g := ResetRound(h, exitOnFatal);
      used := before + more;
      assert old(h.script) == used + h.script;
      DeliverTwice(Reset, old(h.timer), hits, g);
      hits := hits + g;
      ReportedMore(old(h.Notes()), Command.ResetTimer, before, more, h.retryAttempts, h.verbose, exitOnFatal);
      if exitOnFatal {
        FatalJoin(before, more, round == Some(Exited));
      }
      if round.Some? {
        if more != [] {
          assert used[|used| - 1] == more[|more| - 1];
          delay := more[|more| - 1].reply;
        }
        return round.value, used, hits, delay;
      }
    }
  }

  // ----- Setup -----

  const RESET_PERIOD_DEFAULT: nat := 60

  function ChosenSeconds(o: Options, t: Timer): nat {
    o.seconds.GetOr(t.initial / 10)
  }

  /** The second half of `_daemon_setup`: write the settings, start the timer.
      `delay` is the age of the countdown when it ends. */
  method ProgramAndStart(h: Host, s: Settings, clear: set<nat>, seconds: nat)
    returns (r: Outcome, ghost u: Phases, ghost delay: nat)
    requires NeverFatal(h.limiter) && WellFormed(h.timer)
    requires seconds <= MAX_SECONDS && !PreTimeoutTooLong(s, seconds)
    modifies h`last, h`ctxErr, h`now, h`timer, h`script, h`limiter, h`lines
    ensures WellFormed(h.timer)
    ensures u.get == [] && old(h.script) == u.All() + h.script && old(h.now) <= h.now
    ensures FatalEnds(u.All(), r.Exited?) && (r.Exited? ==> ExitHasCause(u.All())) && (r.Unfinished? ==> h.script == [])
    ensures h.Notes() == Reporting(Reporting(old(h.Notes()), LoopFaults(Command.SetTimer, u.put, h.retryAttempts),
                                             h.verbose, true),
                                   LoopFaults(Command.ResetTimer, u.reset, h.retryAttempts), h.verbose, true)
    ensures r.Finished? ==>
              && h.timer.settings == s && h.timer.initial == 10 * seconds
              && old(h.timer).flags - clear <= h.timer.flags && h.timer.flags * clear <= {s.timerUse}
              && h.timer.running && StartOf(h.timer) == h.now - delay
              && ReplyTime(u.All(), delay)
  {
    hide ReplyTime;
    hide ExitHasCause;
    hide Reporting;
    hide LoopFaults;
    ghost var put, reset, hits := [], [], [];
    delay := 0;
    WriteThenRead(seconds);
    r, put := SetUntilDone(h, true, s, clear, seconds);
    NoFaults(h.Notes(), Command.ResetTimer, h.retryAttempts, h.verbose, true);
    u := Phases([], put, []);
    assert u.All() == put;
    if r.Finished? {
      ghost var d := h.timer;
      r, reset, hits, delay := ResetUntilDone(h, true);
      DeliverKeepsWellFormed(Reset, d, hits);
      DeliverReset(d, hits);
      FatalJoin(put, reset, r.Exited?);
      ReplyJoin(put, reset, delay);
      ExitJoin(put, reset);
      u := Phases([], put, reset);
      assert u.All() == put + reset;
    }
  }

  /** What the setup makes of the options and of what its Get showed. */
  method ProgramAsked(h: Host, o: Options, v: View, period: nat)
    returns (r: Outcome, ghost u: Phases, ghost delay: nat)
    requires NeverFatal(h.limiter) && WellFormed(h.timer) && ValidOptions(o)
    requires v.settings == h.timer.settings && v.initialSeconds == h.timer.initial / 10
    modifies h`last, h`ctxErr, h`now, h`timer, h`script, h`limiter, h`lines
    ensures WellFormed(h.timer)
    ensures u.get == [] && old(h.script) == u.All() + h.script && old(h.now) <= h.now
    ensures FatalEnds(u.All(), r.Exited?) && (r.Unfinished? ==> h.script == [])
    ensures h.Notes() == Reporting(Reporting(old(h.Notes()), LoopFaults(Command.SetTimer, u.put, h.retryAttempts),
                                             h.verbose, true),
                                   LoopFaults(Command.ResetTimer, u.reset, h.retryAttempts), h.verbose, true)
    ensures r.Finished? ==>
              && SettingsAsked(o, old(h.timer).settings, h.timer.settings) && !DoesNotFit(o, old(h.timer))
              && Asked(o.seconds, old(h.timer).initial / 10, h.timer.initial / 10) && h.timer.initial % 10 == 0
              && 10 * period <= h.timer.initial
              && old(h.timer).flags - o.clear <= h.timer.flags && h.timer.flags * o.clear <= {h.timer.settings.timerUse}
              && h.timer.running && StartOf(h.timer) == h.now - delay
              && ReplyTime(u.All(), delay)
    ensures r.Exited? && !ExitHasCause(u.All()) ==>
              && h.timer == old(h.timer)
              && (DoesNotFit(o, old(h.timer))
                  || exists s :: Asked(o.seconds, old(h.timer).initial / 10, s) && period > s)
  {
    hide ReplyTime;
    hide Reporting;
    hide LoopFaults;
    u, delay := Phases([], [], []), 0;
    NoFaults(h.Notes(), Command.SetTimer, h.retryAttempts, h.verbose, true);
    NoFaults(h.Notes(), Command.ResetTimer, h.retryAttempts, h.verbose, true);
    var s, seconds := Chosen(o, v.settings), o.seconds.GetOr(v.initialSeconds);
    FitsExactly(o, h.timer);
    assert Asked(o.seconds, h.timer.initial / 10, seconds);
    if (s.preInterrupt != INTERRUPT_NONE && s.preInterval > seconds) || period > seconds {
      return Exited, u, delay;
    }
    r, u, delay := ProgramAndStart(h, s, o.clear, seconds);
  }

  /** `_daemon_setup` without its ARP options.  `seen` is the instant of the
      reading it trusted. */
  method Setup(h: Host, o: Options, period: nat)
    returns (r: Outcome, ghost u: Phases, ghost seen: Instant, ghost delay: nat)
    requires NeverFatal(h.limiter) && WellFormed(h.timer) && ValidOptions(o)
    modifies h`last, h`ctxErr, h`now, h`timer, h`script, h`limiter, h`lines
    ensures WellFormed(h.timer)
    ensures old(h.script) == u.All() + h.script && old(h.now) <= seen <= h.now
    // The first fatal driver error ends the daemon.
    ensures FatalEnds(u.All(), r.Exited?) && (r.Unfinished? ==> h.script == [])
    ensures r.Finished? ==>
              && !Expire(old(h.timer), seen).running
              && SettingsAsked(o, old(h.timer).settings, h.timer.settings) && !DoesNotFit(o, old(h.timer))
              && Asked(o.seconds, old(h.timer).initial / 10, h.timer.initial / 10) && h.timer.initial % 10 == 0
              && 10 * period <= h.timer.initial
              && old(h.timer).flags - o.clear <= h.timer.flags && h.timer.flags * o.clear <= {h.timer.settings.timerUse}
              && h.timer.running && StartOf(h.timer) == h.now - delay
              && ReplyTime(u.All(), delay)
    // Every failed command is reported.
    ensures h.Notes() == Reporting(old(h.Notes()), PhaseFaults(u, h.retryAttempts), h.verbose, true)
    // Short of an error the daemon exits only before it changed anything.
    ensures r.Exited? && !ExitHasCause(u.All()) ==>
              && h.timer == old(h.timer)
              && (Expire(old(h.timer), seen).running || DoesNotFit(o, old(h.timer))
                  || exists s :: Asked(o.seconds, old(h.timer).initial / 10, s) && period > s)
  {
    hide ReplyTime;
    hide Reporting;
    hide LoopFaults;
    hide SettingsAsked;
    hide DoesNotFit;
    hide Asked;
    ghost var was := h.Notes();
    var v, rs;
    ghost var get;
    delay := 0;
    r, v, rs, get := GetUntilDone(h, true);
    seen, u := rs.at, Phases(get, [], []);
    NoFaults(h.Notes(), Command.SetTimer, h.retryAttempts, h.verbose, true);
    NoFaults(h.Notes(), Command.ResetTimer, h.retryAttempts, h.verbose, true);
    assert u.All() == get;
    PhasesReported(was, u, h.retryAttempts, h.verbose, true);
    if r.Finished? {
      if v.state {
        return Exited, u, seen, delay;
      }
      ghost var more;
      r, more, delay := ProgramAsked(h, o, v, period);
      FatalJoin(get, more.All(), r.Exited?);
      u := Phases(get, more.put, more.reset);
      assert u.All() == get + more.All();
      ReplyJoin(get, more.All(), delay);
      PhasesReported(was, u, h.retryAttempts, h.verbose, true);
    }
  }

  /** Missing data that the setup does not notice: two rounds of its loop around
      the Get, on seven busy answers and a response without the data. */
  method UnnoticedMissingData(s: seq<Attempt>, timer: Timer) returns (first: bool, second: bool, final: Ret)
    requires BusyThenMissing(s)
    ensures !first && !second && final == Failed
  {
    var h := new Host(false, 0, timer, s);
    ghost var n := RETRY_ATTEMPTS_DEFAULT + 1;
    ghost var used, inner;
    var ret, view, rs;
    MissingDataHidden(s);
    ret, view, rs, used, inner := h.GetTimer();
    OneWayToUse(used, s[..n], RETRY_ATTEMPTS_DEFAULT, h.script, s[n..]);
    first := h.DaemonCmdErr(true);
    ret, view, rs, used, inner := h.GetTimer();
    OneWayToUse(used, s[n..], RETRY_ATTEMPTS_DEFAULT, h.script, []);
    second := h.DaemonCmdErr(true);
    final := ret;
  }

  // ----- Shutdown -----

  /** The closing loops of `_daemon_cmd`: never exit, never give up. */
  method Shutdown(h: Host) returns (r: Outcome, ghost u: Phases)
    requires WellFormed(h.timer)
    modifies h`last, h`ctxErr, h`now, h`timer, h`script, h`limiter, h`lines, h`retryWait, h`retryAttempts
    ensures WellFormed(h.timer) && !r.Exited?
    ensures r.Finished? ==> StoppedInPlace(old(h.timer), h.timer, h.now)
    ensures r.Unfinished? ==> h.script == []
    ensures u.reset == [] && old(h.script) == u.All() + h.script
    // The retries are no longer tuned to the reset period.
    ensures Retrying(h) == Retry(RETRY_ATTEMPTS_DEFAULT, RETRY_WAIT_TIME_DEFAULT)
    ensures h.Notes() == Reporting(old(h.Notes()), PhaseFaults(u, h.retryAttempts), h.verbose, false)
  {
    hide SetStopped;
    hide Reporting;
    hide LoopFaults;
    h.retryWait, h.retryAttempts := RETRY_WAIT_TIME_DEFAULT, RETRY_ATTEMPTS_DEFAULT;
    ghost var t, was, put := h.timer, h.Notes(), [];
    ghost var get;
    var v, rs;
    r, v, rs, get := GetUntilDone(h, false);
    NoFaults(h.Notes(), Command.SetTimer, h.retryAttempts, h.verbose, false);
    if r.Finished? {
      r, put := SetUntilDone(h, false, v.settings, {}, v.initialSeconds);
      if r.Finished? || h.timer != t {
        StopInPlace(t, v, rs.at, rs.lag, h.timer, h.now);
      }
    }
    u := Phases(get, put, []);
    NoFaults(h.Notes(), Command.ResetTimer, h.retryAttempts, h.verbose, false);
    PhasesReported(was, u, h.retryAttempts, h.verbose, false);
  }

  // ----- Main loop -----

  datatype Next = GoOn | TimerStopped | LoopCut

  ghost function Retrying(h: Host): Retry
    reads h
  {
    Retry(h.retryAttempts, h.retryWait)
  }

  predicate NotBusy(s: seq<Attempt>) {
    forall i :: 0 <= i < |s| ==> !s[i].answer.NotNow?
  }

  /** Where no request is answered busy, no command sends a second one. */
  predicate Unretried(s: seq<Attempt>) {
    NotBusy(s) ==> |s| <= 1
  }

  /** The Get at the top of an iteration and what is concluded from it. */
  method CheckTimer(h: Host, c: Config, prevIn: nat)
    returns (ret: Ret, stopped: bool, prevOut: nat, ghost r: Iter, ghost used: seq<Attempt>)
    modifies h`last, h`ctxErr, h`now, h`timer, h`script, h`limiter, h`lines
    ensures h.timer == old(h.timer) && old(h.now) <= h.now
    ensures old(h.script) == used + h.script && Unretried(used) && (ret.Cut? ==> h.script == [])
    ensures r == Iter(old(h.now), h.timer, prevIn, ret.Done?, r.getAt, r.lag, r.view, h.now, stopped,
                      ret.Done? && !stopped, false, [], h.now, h.timer,
                      false, h.now, 0, h.now, prevIn, false, h.now, h.timer)
    ensures !ret.Cut? ==> GetLaw(c, r) && GetTimed(r, Retrying(h), used)
    ensures h.Notes() == if ret.Cut? then old(h.Notes())
                         else Reporting(old(h.Notes()), Faults(Command.GetTimer, used), h.verbose, false)
    ensures stopped ==> ret.Done?
    ensures prevOut == if c.ignoreState && ret.Done? && !stopped then r.view.presentSeconds else prevIn
  {
    ghost var start, inner := h.now, Cut;
    var view, rs;
    prevOut, stopped := prevIn, false;
    ret, view, rs, used, inner := h.GetTimer();
    if ret.Failed? {
      var exit := h.DaemonCmdErr(false);
    } else if ret.Done? && c.ignoreState {
      if prevIn == view.presentSeconds {
        stopped := true;
      } else {
        prevOut := view.presentSeconds;
      }
    } else if ret.Done? && !view.state {
      stopped := true;
    }
    r := Iter(start, h.timer, prevIn, ret.Done?, rs.at, rs.lag, view, h.now, stopped,
              ret.Done? && !stopped, false, [], h.now, h.timer, false, h.now, 0, h.now, prevIn, false, h.now, h.timer);
  }

  /** With the workaround, the Get that follows a successful Reset. */
  method Reread(h: Host, prevIn: nat, ghost i: Iter)
    returns (ret: Ret, prevOut: nat, ghost r: Iter, ghost used: seq<Attempt>)
    requires i.mid == h.timer && i.resetDone == h.now
    modifies h`last, h`ctxErr, h`now, h`timer, h`script, h`limiter, h`lines
    ensures r == i.(regetOk := ret.Done?, regetAt := r.regetAt, relag := r.relag, finish := h.now)
    ensures old(h.script) == used + h.script && Unretried(used) && (ret.Cut? ==> h.script == [])
    ensures h.timer == old(h.timer) && i.resetDone + SECOND <= r.regetAt <= h.now
    ensures !ret.Cut? ==> RereadTimed(r, Retrying(h), used)
    ensures h.Notes() == if ret.Cut? then old(h.Notes())
                         else Reporting(old(h.Notes()), Faults(Command.GetTimer, used), h.verbose, false)
    ensures prevOut == if ret.Done? then ViewOf(r.mid, r.regetAt, r.relag).presentSeconds else prevIn
  {
    ghost var inner := Cut;
    h.now := h.now + SECOND;
    prevOut := prevIn;
    var view, rs;
    ret, view, rs, used, inner := h.GetTimer();
    r := i.(regetOk := ret.Done?, regetAt := rs.at, relag := rs.lag, finish := h.now);
    if ret.Failed? {
      var exit := h.DaemonCmdErr(false);
    } else if ret.Done? {
      prevOut := view.presentSeconds;
    }
  }

  /** The Reset itself. */
  method TimedReset(h: Host, ghost i: Iter) returns (ret: Ret, ghost r: Iter, ghost used: seq<Attempt>)
    requires i.getOk && i.resetSent && i.getDone == h.now && i.before == h.timer
    modifies h`last, h`ctxErr, h`now, h`timer, h`script
    ensures r == i.(resetOk := ret.Done?, hits := r.hits, resetDone := h.now, mid := h.timer)
    ensures old(h.now) <= h.now && (WellFormed(old(h.timer)) ==> WellFormed(h.timer))
    ensures old(h.script) == used + h.script && Unretried(used) && (ret.Cut? ==> h.script == [])
    ensures !ret.Cut? ==> ResetLaw(r) && ResetTimed(r, Retrying(h), used)
    ensures !ret.Cut? ==>
              Faults(Command.ResetTimer, used) == if ret.Failed? then [Fault(h.last, h.ctxErr)] else []
  {
    hide Faults;
    hide Recorded;
    ghost var t, hits := h.timer, [];
    ret, used, hits := h.ResetTimer();
    r := i.(resetOk := ret.Done?, hits := hits, resetDone := h.now, mid := h.timer);
    DeliverKeepsWellFormedIf(t, hits);
    if !ret.Cut? {
      ResetFaults(ret, used, h.retryAttempts, h.last, h.ctxErr);
    }
  }

  lemma DeliverKeepsWellFormedIf(t: Timer, hits: seq<Instant>)
    ensures WellFormed(t) ==> WellFormed(Deliver(Reset, t, hits))
  {
    if WellFormed(t) {
      DeliverKeepsWellFormed(Reset, t, hits);
    }
  }

  /** The Reset of an iteration and what follows it. */
  method RestartTimer(h: Host, c: Config, prevIn: nat, ghost i: Iter)
    returns (ret: Ret, prevOut: nat, ghost r: Iter, ghost q: seq<Attempt>, ghost w: seq<Attempt>)
    requires i.getOk && i.resetSent && i.getDone == h.now && i.before == h.timer && !i.regetOk
    requires prevIn == if c.ignoreState then i.view.presentSeconds else i.prevIn
    modifies h`last, h`ctxErr, h`now, h`timer, h`script, h`limiter, h`lines
    ensures r == i.(resetOk := r.resetOk, hits := r.hits, resetDone := r.resetDone, mid := h.timer,
                    regetOk := r.regetOk, regetAt := r.regetAt, relag := r.relag,
                    finish := h.now, prevOut := prevOut)
    ensures old(h.now) <= h.now && (WellFormed(old(h.timer)) ==> WellFormed(h.timer))
    ensures old(h.script) == q + (w + h.script) && Unretried(q) && Unretried(w) && (ret.Cut? ==> h.script == [])
    ensures !ret.Cut? ==> ResetLaw(r) && RereadLaw(c, r) && ResetTimed(r, Retrying(h), q)
    ensures !ret.Cut? ==> if c.ignoreState && r.resetOk then RereadTimed(r, Retrying(h), w)
                          else w == [] && r.regetAt == i.regetAt && r.relag == i.relag
    ensures h.Notes() == if ret.Cut? then old(h.Notes())
                         else Reporting(old(h.Notes()), Faults(Command.ResetTimer, q) + Faults(Command.GetTimer, w),
                                        h.verbose, false)
  {
    hide Effect;
    hide Hits;
    hide Retried;
    ghost var was := h.Notes();
    prevOut := prevIn;
    ret, r, q := TimedReset(h, i);
    w := [];
    assert w + h.script == h.script;
    r := r.(finish := h.now);
    if ret.Failed? {
      var exit := h.DaemonCmdErr(false);
    } else if ret.Done? && c.ignoreState {
      ret, prevOut, r, w := Reread(h, prevIn, r);
    }
    if !ret.Cut? {
      ReportingJoin(was, Faults(Command.ResetTimer, q), Faults(Command.GetTimer, w), h.verbose, false);
    }
    r := r.(prevOut := prevOut);
  }

  /** From the label `sleep_now` on. */
  method SleepNow(h: Host, c: Config, start: Instant, s: Sleep, ghost i: Iter) returns (ghost r: Iter)
    requires i.start == start <= i.finish == h.now && i.mid == h.timer
    modifies h`now, h`timer
    ensures r == i.(signal := s.signal, wake := h.now, after := h.timer)
    ensures SleepLaw(c, r) && SleptAs(c, r, s) && old(h.now) <= h.now
  {
    var nap := SleptFor(s, Nap(c.period, start, h.now));
    h.now := h.now + nap;
    h.timer := s.others.GetOr(h.timer);
    r := i.(signal := s.signal, wake := h.now, after := h.timer);
  }

  /** An iteration up to its sleep: lawful, and what its answers make of it. */
  predicate Talked(c: Config, r: Iter, k: Retry, x: Part) {
    && GetLaw(c, r) && ResetLaw(r) && (!r.declared ==> RereadLaw(c, r))
    && Exchanged(c, r, k, x) && (r.declared ==> r.wake == r.finish)
  }

  /** The commands of an iteration; `x` are the answers it used. */
  method Talk(h: Host, c: Config, prevIn: nat)
    returns (ret: Ret, stopped: bool, prevOut: nat, ghost r: Iter, ghost x: Part)
    modifies h`last, h`ctxErr, h`now, h`timer, h`script, h`limiter, h`lines
    ensures old(h.now) <= h.now && (WellFormed(old(h.timer)) ==> WellFormed(h.timer))
    ensures old(h.script) == x.get + (x.reset + (x.reget + h.script)) && (ret.Cut? ==> h.script == [])
    ensures Unretried(x.get) && Unretried(x.reset) && Unretried(x.reget)
    ensures !ret.Cut? ==> Talked(c, r, Retrying(h), x)
    ensures h.Notes() == if ret.Cut? then old(h.Notes())
                         else Reporting(old(h.Notes()), PartFaults(x), h.verbose, false)
    ensures r.start == old(h.now) && r.before == old(h.timer) && r.prevIn == prevIn && r.declared == stopped
    ensures r.finish == h.now && r.mid == h.timer && (!stopped ==> r.prevOut == prevOut)
    // A timer seen stopped ends the daemon with no further command.
    ensures stopped ==> !ret.Cut? && h.timer == r.before && h.now == r.getDone && x.reset == x.reget == []
  {
    ghost var was := h.Notes();
    ghost var g, q, w := [], [], [];
    ret, stopped, prevOut, r, g := CheckTimer(h, c, prevIn);
    assert q + (w + h.script) == h.script;
    if ret.Done? && !stopped {
      ret, prevOut, r, q, w := RestartTimer(h, c, prevOut, r);
    }
    if !ret.Cut? {
      ReportingJoin(was, Faults(Command.GetTimer, g), Faults(Command.ResetTimer, q) + Faults(Command.GetTimer, w),
                    h.verbose, false);
    }
    x := Part(g, q, w);
  }

  /** One pass through `while (shutdown_flag)` */
  method Iteration(h: Host, c: Config, prevIn: nat, s: Sleep)
    returns (next: Next, prevOut: nat, ghost r: Iter, ghost x: Part)
    modifies h`last, h`ctxErr, h`now, h`timer, h`script, h`limiter, h`lines
    ensures old(h.now) <= h.now
    ensures old(h.script) == x.get + (x.reset + (x.reget + h.script))
    ensures Unretried(x.get) && Unretried(x.reset) && Unretried(x.reget)
    ensures next.LoopCut? ==> h.script == [] && h.Notes() == old(h.Notes())
    // Its failed commands are reported.
    ensures !next.LoopCut? ==> h.Notes() == Reporting(old(h.Notes()), PartFaults(x), h.verbose, false)
    ensures !next.LoopCut? ==>
              && Law(c, r) && Exchanged(c, r, Retrying(h), x)
              && r.start == old(h.now) && r.before == old(h.timer) && r.prevIn == prevIn
    // A timer seen stopped ends the daemon with no further command.
    ensures next.TimerStopped? ==> r.declared && h.timer == r.before && h.now == r.getDone && x.reset == x.reget == []
    ensures next.GoOn? ==>
              && !r.declared && SleptAs(c, r, s)
              && h.now == r.wake && h.timer == r.after && prevOut == r.prevOut
    ensures WellFormed(old(h.timer)) && (s.others.Some? ==> WellFormed(s.others.value)) ==> WellFormed(h.timer)
  {
    var start := h.now;
    var ret, stopped;
    ret, stopped, prevOut, r, x := Talk(h, c, prevIn);
    if stopped {
      return TimerStopped, prevOut, r, x;
    }
    if ret.Cut? {
      return LoopCut, prevOut, r, x;
    }
    ghost var awake := r;
    r := SleepNow(h, c, start, s, awake);
    SleptStillTalked(c, awake, r, Retrying(h), x);
    next := GoOn;
  }

  lemma SleptStillTalked(c: Config, i: Iter, r: Iter, k: Retry, x: Part)
    requires Talked(c, i, k, x) && !i.declared && SleepLaw(c, r)
    requires r == i.(signal := r.signal, wake := r.wake, after := r.after)
    ensures Law(c, r) && Exchanged(c, r, k, x)
  {
  }

  datatype LoopEnd = ShutDown | Declared | NotEnded

  /** What other processes leave behind satisfies the pre-timeout invariant. */
  predicate Benign(sleeps: seq<Sleep>) {
    forall i :: 0 <= i < |sleeps| && sleeps[i].others.Some? ==> WellFormed(sleeps[i].others.value)
  }

  /** The answers left after some iterations. */
  predicate Consumed(script: seq<Attempt>, parts: seq<Part>, rest: seq<Attempt>) {
    script == Flat(parts) + rest && Scripted(parts, script)
  }

  lemma ConsumedMore(script: seq<Attempt>, parts: seq<Part>, x: Part, rest: seq<Attempt>, less: seq<Attempt>)
    requires Consumed(script, parts, rest) && rest == x.get + (x.reset + (x.reget + less))
    ensures Consumed(script, parts + [x], less)
  {
    var more := parts + [x];
    assert more[..|parts|] == parts;
    assert Flat(more) == Flat(parts) + Used(x);
    assert Flat(more) + less == script;
    forall j | 0 <= j <= |more|
      ensures Flat(more[..j]) <= script
    {
      if j <= |parts| {
        assert more[..j] == parts[..j];
      } else {
        assert more[..j] == more;
      }
    }
  }

  /** What the loop did so far, and the answers it has left. */
  predicate SoFar(c: Config, log: seq<Iter>, parts: seq<Part>, k: Retry, sleeps: seq<Sleep>, script: seq<Attempt>,
                  rest: seq<Attempt>) {
    Run(c, log) && Traced(c, log, parts, k, sleeps) && Consumed(script, parts, rest)
  }

  lemma NothingPlayed(c: Config, k: Retry, sleeps: seq<Sleep>, script: seq<Attempt>)
    ensures SoFar(c, [], [], k, sleeps, script, script)
  {
  }

  lemma SoFarPlays(c: Config, log: seq<Iter>, parts: seq<Part>, k: Retry, sleeps: seq<Sleep>, script: seq<Attempt>,
                   rest: seq<Attempt>)
    requires SoFar(c, log, parts, k, sleeps, script, rest)
    ensures Play(c, log, parts, k, sleeps, script)
  {
  }

  lemma GoneFurther(c: Config, log: seq<Iter>, parts: seq<Part>, k: Retry, sleeps: seq<Sleep>, script: seq<Attempt>,
                    rest: seq<Attempt>, r: Iter, x: Part, less: seq<Attempt>)
    requires SoFar(c, log, parts, k, sleeps, script, rest) && rest == x.get + (x.reset + (x.reget + less))
    requires Law(c, r) && Exchanged(c, r, k, x)
    requires if log == [] then r.prevIn == 0 else Linked(log[|log| - 1], r)
    requires !r.declared ==> |log| < |sleeps| && SleptAs(c, r, sleeps[|log|])
    ensures SoFar(c, log + [r], parts + [x], k, sleeps, script, less)
  {
    hide Law;
    hide Exchanged;
    hide Consumed;
    RunExtends(c, log, r);
    ConsumedMore(script, parts, x, rest, less);
  }

  /** The state of the loop between two iterations. */
  ghost predicate Between(h: Host, log: seq<Iter>, flag: bool, start: Instant, timer: Timer, prev: nat, goOn: bool)
    reads h
  {
    if log == [] then prev == 0 && h.now == start && h.timer == timer && goOn == flag
    else
      var r := log[|log| - 1];
      && !r.declared && goOn == !r.signal
      && h.now == r.wake && h.timer == r.after && prev == r.prevOut
      && log[0].start == start && log[0].before == timer
  }

  /** Fewer than four answers, none of them busy, were left when a loop stopped for
      want of answers. */
  predicate RanDry(script: seq<Attempt>, parts: seq<Part>) {
    NotBusy(script) ==> |script| <= |Flat(parts)| + 3
  }

  lemma DryIteration(script: seq<Attempt>, parts: seq<Part>, rest: seq<Attempt>, x: Part)
    requires Consumed(script, parts, rest) && rest == x.get + (x.reset + (x.reget + []))
    requires Unretried(x.get) && Unretried(x.reset) && Unretried(x.reget)
    ensures RanDry(script, parts)
  {
    hide Flat;
    hide Scripted;
    if NotBusy(script) {
      var n, g, q, w := |Flat(parts)|, x.get, x.reset, x.reget;
      assert forall i :: 0 <= i < |g| ==> g[i] == script[n + i];
      assert forall i :: 0 <= i < |q| ==> q[i] == script[n + |g| + i];
      assert forall i :: 0 <= i < |w| ==> w[i] == script[n + |g| + |q| + i];
    }
  }

  /** The failed commands of the iterations so far were reported, in order. */
  ghost predicate Reported(h: Host, was: Journal, parts: seq<Part>)
    reads h
  {
    h.Notes() == Reporting(was, AllFaults(parts), h.verbose, false)
  }

  /** One iteration and its record. */
  method Pass(h: Host, c: Config, prevIn: nat, sleeps: seq<Sleep>, i: nat, ghost log: seq<Iter>, ghost parts: seq<Part>,
              ghost script: seq<Attempt>, ghost start: Instant, ghost timer: Timer, ghost was: Journal)
    returns (next: Next, prev: nat, ghost more: seq<Iter>, ghost others: seq<Part>)
    requires WellFormed(h.timer) && Benign(sleeps) && i == |log| < |sleeps|
    requires SoFar(c, log, parts, Retrying(h), sleeps, script, h.script)
    requires Between(h, log, true, start, timer, prevIn, true) && Reported(h, was, parts)
    modifies h`last, h`ctxErr, h`now, h`timer, h`script, h`limiter, h`lines
    ensures WellFormed(h.timer)
    ensures next.LoopCut? ==> more == log && others == parts && h.script == [] && RanDry(script, parts)
    ensures Reported(h, was, others)
    ensures !next.LoopCut? ==> |more| == |log| + 1 && SoFar(c, more, others, Retrying(h), sleeps, script, h.script)
    ensures !next.LoopCut? ==> more[0].start == start && more[0].before == timer
    ensures next.GoOn? ==> Between(h, more, true, start, timer, prev, !sleeps[i].signal)
    ensures next.TimerStopped? ==> var r := more[|log|]; r.declared && h.timer == r.before
  {
    hide Reporting;
    hide AllFaults;
    hide PartFaults;
    hide Law;
    hide Exchanged;
    hide Run;
    hide Traced;
    hide Consumed;
    ghost var r, x;
    ghost var rest := h.script;
    more, others := log, parts;
    next, prev, r, x := Iteration(h, c, prevIn, sleeps[i]);
    if next.LoopCut? {
      DryIteration(script, parts, rest, x);
      return;
    }
    GoneFurther(c, log, parts, Retrying(h), sleeps, script, rest, r, x, h.script);
    MoreFaults(was, parts, x, h.verbose);
    more, others := log + [r], parts + [x];
  }

  /** `while (shutdown_flag)`; `flag` is its value on entry.  `parts` are the
      answers each iteration used. */
  method MainLoop(h: Host, c: Config, flag: bool, sleeps: seq<Sleep>)
    returns (end: LoopEnd, ghost log: seq<Iter>, ghost parts: seq<Part>)
    requires WellFormed(h.timer) && Benign(sleeps)
    modifies h`last, h`ctxErr, h`now, h`timer, h`script, h`limiter, h`lines
    ensures WellFormed(h.timer)
    ensures Play(c, log, parts, Retrying(h), sleeps, old(h.script))
    ensures log != [] ==> log[0].start == old(h.now) && log[0].before == old(h.timer)
    // All failed commands are reported, in order.
    ensures h.Notes() == Reporting(old(h.Notes()), AllFaults(parts), h.verbose, false)
    ensures end.ShutDown? ==> if log == [] then !flag && h.timer == old(h.timer)
                              else log[|log| - 1].signal && h.timer == log[|log| - 1].after
    ensures end.NotEnded? ==> |log| == |sleeps| || (h.script == [] && RanDry(old(h.script), parts))
    ensures end.Declared? ==> log != [] && log[|log| - 1].declared && h.timer == log[|log| - 1].before
  {
    hide Reporting;
    hide AllFaults;
    hide SoFar;
    hide Play;
    log, parts := [], [];
    NoParts(h.Notes(), h.verbose);
    NothingPlayed(c, Retrying(h), sleeps, h.script);
    ghost var script, start, timer := h.script, h.now, h.timer;
    var prev, i, shutdownFlag := 0, 0, flag;
    ghost var was := h.Notes();
    SoFarPlays(c, log, parts, Retrying(h), sleeps, script, h.script);
    while shutdownFlag
      invariant Reported(h, was, parts)
      invariant WellFormed(h.timer) && i == |log| <= |sleeps|
      invariant SoFar(c, log, parts, Retrying(h), sleeps, script, h.script)
      invariant Play(c, log, parts, Retrying(h), sleeps, script)
      invariant Between(h, log, flag, start, timer, prev, shutdownFlag)
      decreases |sleeps| - i
    {
      if i == |sleeps| {
        return NotEnded, log, parts;
      }
      var next;
      next, prev, log, parts := Pass(h, c, prev, sleeps, i, log, parts, script, start, timer, was);
      if next.LoopCut? {
        return NotEnded, log, parts;
      }
      SoFarPlays(c, log, parts, Retrying(h), sleeps, script, h.script);
      if next.TimerStopped? {
        return Declared, log, parts;
      }
      i := i + 1;
      if sleeps[i - 1].signal {
        shutdownFlag := false;
      }
    }
    end := ShutDown;
  }

  // ----- The whole daemon -----

  /** The longest a command lasts in a main loop whose retries are tuned to the
      period: six requests and five sleeps, or a single request. */
  function LoopTime(c: Config, a: nat): nat {
    var tuned := Tuned(RETRY_WAIT_TIME_DEFAULT, RETRY_ATTEMPTS_DEFAULT, c.period);
    CommandTime(a, tuned.0, tuned.1)
  }

  /** What answers that come in time are good for: a long enough countdown never
      runs out, and the workaround never gives a healthy timer up. */
  predicate Guarded(c: Config, log: seq<Iter>, script: seq<Attempt>, initial: nat, a: nat, n: nat) {
    Quick(script, a) ==>
      && (StreaksAtMost(log, n) && OthersHarmless(c, log) && Enough(c, initial, n, LoopTime(c, a), a)
          ==> AllSafe(c, log))
      && (c.ignoreState && StreaksAtMost(log, n) && Clean(log, CHUNK) && Steady(c, n, LoopTime(c, a))
          ==> NoneFalse(log))
  }

  lemma CleanIsTimely(c: Config, log: seq<Iter>, n: nat, l: nat, a: nat)
    requires Run(c, log) && AllWithin(log, l) && AllAnswered(log, a) && Entry(c, log, a) && a <= l
    requires StreaksAtMost(log, n) && Clean(log, CHUNK) && (log != [] ==> log[0].before.initial % 10 == 0)
    ensures Timely(c, log, n, l)
  {
  }

  lemma RunIsGuarded(c: Config, log: seq<Iter>, script: seq<Attempt>, initial: nat, a: nat, n: nat)
    requires Run(c, log)
    requires Quick(script, a) ==> AllWithin(log, LoopTime(c, a)) && AllAnswered(log, a) && Entry(c, log, a)
    requires initial % 10 == 0 && (log != [] ==> log[0].before.initial == initial)
    ensures Guarded(c, log, script, initial, a, n)
  {
    if Quick(script, a) {
      if StreaksAtMost(log, n) && OthersHarmless(c, log) && Enough(c, initial, n, LoopTime(c, a), a) {
        RunIsSafe(c, log, n, LoopTime(c, a), a);
      }
      if c.ignoreState && StreaksAtMost(log, n) && Clean(log, CHUNK) {
        CleanIsTimely(c, log, n, LoopTime(c, a), a);
        TimelyExactly(c, n, LoopTime(c, a));
      }
    }
  }

  /** From the end of the setup to the end of the main loop: tune the retries,
      under the workaround wait a second, and loop.  `delay` is the age of the
      countdown. */
  method Watch(h: Host, c: Config, flag: bool, sleeps: seq<Sleep>, ghost delay: nat, ghost initial: nat, ghost a: nat,
               ghost n: nat)
    returns (end: LoopEnd, ghost log: seq<Iter>)
    requires WellFormed(h.timer) && Benign(sleeps)
    requires h.timer.running && StartOf(h.timer) == h.now - delay && h.timer.initial == initial
    requires initial % 10 == 0
    modifies h
    ensures WellFormed(h.timer)
    ensures Run(c, log) && AllSlept(c, log, sleeps)
    ensures delay <= a ==> Guarded(c, log, old(h.script), initial, a, n)
    ensures end.ShutDown? ==> if log == [] then !flag else log[|log| - 1].signal && h.timer == log[|log| - 1].after
    ensures end.NotEnded? ==> h.script == [] || |log| == |sleeps|
    ensures end.Declared? ==> log != [] && log[|log| - 1].declared && h.timer == log[|log| - 1].before
  {
    ghost var script := h.script;
    var tuned := Tuned(RETRY_WAIT_TIME_DEFAULT, RETRY_ATTEMPTS_DEFAULT, c.period);
    h.retryAttempts, h.retryWait := tuned.0, tuned.1;
    if c.ignoreState {
      h.now := h.now + SECOND;
    }
    ghost var parts;
    end, log, parts := MainLoop(h, c, flag, sleeps);
    if delay <= a {
      if Quick(script, a) {
        PlayInTime(c, log, parts, Retrying(h), sleeps, script, a);
      }
      RunIsGuarded(c, log, script, initial, a, n);
    }
  }

  /** `_daemon_cmd`.  `a` bounds the time of one request and `n` the number of
      consecutive iterations without a successful Reset; they only occur in the
      safety statement.  `left` is the timer when the main loop was left. */
  method Daemon(h: Host, o: Options, resetPeriod: Option<nat>, ignoreState: bool, flag: bool, sleeps: seq<Sleep>,
                ghost a: nat, ghost n: nat)
    returns (r: Outcome, stoppedByOther: bool, ghost log: seq<Iter>, ghost left: Timer)
    requires NeverFatal(h.limiter) && WellFormed(h.timer) && ValidOptions(o) && Benign(sleeps)
    modifies h
    ensures WellFormed(h.timer)
    ensures var c := Config(resetPeriod.GetOr(RESET_PERIOD_DEFAULT), ignoreState);
            && Run(c, log) && AllSlept(c, log, sleeps)
            && Guarded(c, log, old(h.script), 10 * ChosenSeconds(o, old(h.timer)), a, n)
    // Left through the shutdown flag, the daemon stops the timer and keeps the rest.
    ensures r.Finished? && !stoppedByOther ==>
              && StoppedInPlace(left, h.timer, h.now)
              && (if log == [] then !flag else log[|log| - 1].signal && left == log[|log| - 1].after)
    // It breaks off only where the observation does, and exits only in the setup.
    ensures r.Unfinished? ==> h.script == [] || |log| == |sleeps|
    ensures r.Exited? ==> log == []
    // Told that the timer was stopped, it touches nothing.
    ensures r.Finished? && stoppedByOther ==>
              log != [] && log[|log| - 1].declared && h.timer == log[|log| - 1].before == left
  {
    hide Reporting;
    hide PhaseFaults;
    hide SettingsAsked;
    hide DoesNotFit;
    var c := Config(resetPeriod.GetOr(RESET_PERIOD_DEFAULT), ignoreState);
    ghost var script := h.script;
    ghost var asked, seen, delay;
    log, left, stoppedByOther := [], h.timer, false;
    ghost var chosen := ChosenSeconds(o, h.timer);
    r, asked, seen, delay := Setup(h, o, c.period);
    if !r.Finished? {
      return;
    }
    ghost var rest := h.script;
    var end;
    end, log := Watch(h, c, flag, sleeps, delay, 10 * chosen, a, n);
    left := h.timer;
    if Quick(script, a) {
      QuickSplit(script, asked.All(), rest, a);
    }
    if end.NotEnded? {
      return Unfinished, false, log, left;
    } else if end.Declared? {
      return Finished, true, log, left;
    }
    ghost var closing;
    r, closing := Shutdown(h);
  }

  // ----- Every simple run comes out of the loop -----

  /** Four more answers, so that the loop does not stop for want of one. */
  function Spare(): (s: seq<Attempt>)
    ensures |s| == 4 && forall i :: 0 <= i < 4 ==> s[i].answer == BadCode(0xCC, true)
  {
    seq(4, _ => Attempt(BadCode(0xCC, true), 0, 0, false, 0, false, 0))
  }

  function ScriptOf(c: Config, log: seq<Iter>): seq<Attempt>
    requires Run(c, log) && AllSimple(c, log)
  {
    Flat(PartsOf(c, log)) + Spare()
  }

  lemma NotBusyJoin(s: seq<Attempt>, t: seq<Attempt>)
    requires NotBusy(s) && NotBusy(t)
    ensures NotBusy(s + t)
  {
  }

  lemma {:induction false} PartsNotBusy(parts: seq<Part>)
    requires forall i :: 0 <= i < |parts| ==> NotBusy(Used(parts[i]))
    ensures NotBusy(Flat(parts))
  {
    if parts != [] {
      var n := |parts| - 1;
      PartsNotBusy(parts[..n]);
      NotBusyJoin(Flat(parts[..n]), Used(parts[n]));
    }
  }

  lemma ScriptNotBusy(c: Config, log: seq<Iter>)
    requires Run(c, log) && AllSimple(c, log)
    ensures NotBusy(ScriptOf(c, log))
  {
    hide Flat;
    hide Law;
    var parts := PartsOf(c, log);
    forall i | 0 <= i < |parts|
      ensures NotBusy(Used(parts[i]))
    {
      var x := PartOf(c, log[i]);
      NotBusyJoin(x.reset, x.reget);
      NotBusyJoin(x.get, x.reset + x.reget);
    }
    PartsNotBusy(parts);
    NotBusyJoin(Flat(parts), Spare());
  }

  /** A loop that did what the beginning of the run says does not run dry. */
  lemma EnoughAnswers(c: Config, log: seq<Iter>, parts: seq<Part>, j: nat)
    requires Run(c, log) && AllSimple(c, log) && j <= |log| && parts == PartsOf(c, log)[..j]
    ensures !RanDry(ScriptOf(c, log), parts)
  {
    ScriptNotBusy(c, log);
    FlatGrows(PartsOf(c, log), j);
  }

  /** The loop does what the run says, as far as both go. */
  lemma LoopAgrees(c: Config, log: seq<Iter>, out: seq<Iter>, parts: seq<Part>, k: Retry, j: nat)
    requires Run(c, log) && AllSimple(c, log) && j <= |log| && j <= |out|
    requires Play(c, out, parts, k, SleepsOf(log), ScriptOf(c, log))
    requires j != 0 ==> out[0].start == log[0].start && out[0].before == log[0].before
    ensures |parts| == |out| && out[..j] == log[..j] && parts[..j] == PartsOf(c, log)[..j]
  {
    hide Flat;
    hide Scripted;
    hide Run;
    SimpleRunPlays(c, log, k, Spare());
    if j != 0 {
      Deterministic(c, out, parts, log, PartsOf(c, log), k, SleepsOf(log), ScriptOf(c, log), j);
    }
  }

  /** The main loop neither ends nor stops before the run does. */
  lemma GoesAllTheWay(c: Config, log: seq<Iter>, out: seq<Iter>, parts: seq<Part>, k: Retry)
    requires Run(c, log) && AllSimple(c, log) && log != []
    requires Play(c, out, parts, k, SleepsOf(log), ScriptOf(c, log))
    requires out != [] ==> out[0].start == log[0].start && out[0].before == log[0].before
    requires || RanDry(ScriptOf(c, log), parts) || |out| == |log|
             || (out != [] && (out[|out| - 1].signal || out[|out| - 1].declared))
    ensures log <= out
  {
    hide Play;
    hide RanDry;
    var j := if |out| < |log| then |out| else |log|;
    LoopAgrees(c, log, out, parts, k, j);
    if j < |log| {
      assert j != 0 ==> out[j - 1] == out[..j][j - 1] == log[j - 1] && Linked(log[j - 1], log[j]);
      assert parts == PartsOf(c, log)[..j];
      EnoughAnswers(c, log, parts, j);
    } else {
      assert log[..j] == log && out[..j] <= out;
    }
  }

  /** The converse of what `MainLoop` promises: every run in which no command has
      to be retried comes out of the loop, for the script of its answers. */
  method Replay(h: Host, c: Config, log: seq<Iter>) returns (ghost out: seq<Iter>)
    requires Run(c, log) && AllSimple(c, log) && log != []
    requires h.now == log[0].start && h.timer == log[0].before && h.script == ScriptOf(c, log)
    requires WellFormed(h.timer) && Benign(SleepsOf(log))
    modifies h`last, h`ctxErr, h`now, h`timer, h`script, h`limiter, h`lines
    ensures Run(c, out) && log <= out
  {
    var end;
    ghost var parts;
    end, out, parts := MainLoop(h, c, true, SleepsOf(log));
    GoesAllTheWay(c, log, out, parts, Retrying(h));
  }

  // ----- Sequences of tool runs -----

  datatype Tool =
    | SetTool(o: Options)
    | StopTool
    | ClearTool
    | StartTool
    | ResetTool
    | DaemonTool(o: Options, resetPeriod: Option<nat>, ignoreState: bool, flag: bool, sleeps: seq<Sleep>)

  predicate ValidTool(t: Tool) {
    && (t.SetTool? || t.DaemonTool? ==> ValidOptions(t.o))
    && (t.DaemonTool? ==> Benign(t.sleeps))
  }

  /** However often the tool is run, and however each run fails or breaks off,
      an enabled pre-timeout interrupt fits into the stored countdown. */
  method RunTools(tools: seq<Tool>, scripts: seq<seq<Attempt>>, verbose: bool, timer: Timer) returns (final: Timer)
    requires |scripts| == |tools| && WellFormed(timer)
    requires forall i :: 0 <= i < |tools| ==> ValidTool(tools[i])
    ensures WellFormed(final)
  {
    final := timer;
    var now: Instant := 0;
    for i := 0 to |tools|
      invariant WellFormed(final)
    {
      var h := new Host(verbose, now, final, scripts[i]);
      match tools[i] {
        case SetTool(o) =>
          var r;
          ghost var v, d, again;
          r, v, d, again := h.SetCommand(o);
        case StopTool =>
          var r := h.StopCommand();
        case ClearTool =>
          var r := h.ClearCommand();
        case StartTool =>
          var r;
          ghost var v;
          r, v := h.StartCommand();
        case ResetTool =>
          var r := h.ResetCommand();
        case DaemonTool(o, p, ignore, flag, sleeps) =>
          var r, s;
          ghost var log, left;
          r, s, log, left := Daemon(h, o, p, ignore, flag, sleeps, 0, 0);
      }
      final, now := h.timer, h.now;
    }
  }
}
