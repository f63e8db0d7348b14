/** Error numbers of the IPMI driver and the log-repeat limiter of the
    bmc-watchdog daemon. */
module ErrorLimiter {

  const LOG_REPEAT_LIMIT: nat := 10

  /** `NoErrnum` is the -1 to which `last_ipmi_ctx_errnum` is initialised;
      `Fatal` stands for every error number outside the named ones. */
  datatype Errnum = NoErrnum | Success | DriverBusy | BmcBusy | IpmiError | BadCompletionCode | Fatal(code: nat)

  /** Command byte and network function of the last request; `NoCommand` is the
      0xFF pair the globals start with. */
  datatype Command = NoCommand | GetTimer | SetTimer | ResetTimer

  /** The `last_*` globals, and in the limiter the `repeat_*` globals. */
  datatype Failure = Failure(err: Errnum, cmd: Command, comp: nat)

  datatype Limiter = Limiter(repeat: Failure, count: nat)

  datatype Verdict = Verdict(limiter: Limiter, passed: bool, exit: bool)

  predicate Busy(e: Errnum) {
    e.DriverBusy? || e.BmcBusy? || e.IpmiError?
  }

  /** `_daemon_cmd_err`: `last` is what `_cmd` recorded, `ctx` what the driver
      context reports.  The exit happens before the new failure is remembered. */
  function Report(l: Limiter, last: Failure, ctx: Errnum, verbose: bool, exitOnFatal: bool): Verdict {
    var repeated := !verbose && l.repeat == last;
    if repeated && l.count + 1 < LOG_REPEAT_LIMIT then
      Verdict(l.(count := l.count + 1), false, false)
    else if !ctx.BadCompletionCode? && !Busy(ctx) && exitOnFatal then
      Verdict(if repeated then l.(count := l.count + 1) else l, true, true)
    else
      Verdict(Limiter(last, 0), true, false)
  }

  /** The limiter after `n` reports of the same failure without exit, and how
      many of them passed. */
  function AfterReports(l: Limiter, f: Failure, ctx: Errnum, verbose: bool, n: nat): (Limiter, nat) {
    if n == 0 then (l, 0)
    else
      var (l', passed) := AfterReports(l, f, ctx, verbose, n - 1);
      var v := Report(l', f, ctx, verbose, false);
      (v.limiter, passed + if v.passed then 1 else 0)
  }

  lemma {:induction false} RepeatedReports(l: Limiter, f: Failure, ctx: Errnum, n: nat)
    requires l.repeat == f && l.count < LOG_REPEAT_LIMIT
    ensures AfterReports(l, f, ctx, false, n) == (Limiter(f, (l.count + n) % 10), (l.count + n) / 10)
  {
    if n != 0 {
      RepeatedReports(l, f, ctx, n - 1);
    }
  }

  /** From a different remembered failure, n identical reports pass ceil(n/10)
      times: the first one, and then every tenth. */
  lemma {:induction false} FreshReports(l: Limiter, f: Failure, ctx: Errnum, n: nat)
    requires l.repeat != f
    ensures AfterReports(l, f, ctx, false, n).1 == (n + 9) / 10
    ensures 1 <= n ==> AfterReports(l, f, ctx, false, n).0 == Limiter(f, (n - 1) % 10)
  {
    if n != 0 {
      FreshReports(l, f, ctx, n - 1);
    }
  }

  /** In verbose mode nothing is ever suppressed. */
  lemma {:induction false} VerboseReports(l: Limiter, f: Failure, ctx: Errnum, n: nat)
    ensures AfterReports(l, f, ctx, true, n).1 == n
  {
    if n != 0 {
      VerboseReports(l, f, ctx, n - 1);
    }
  }

  // ----- Whatever is reported, and the lines it leaves -----

  /** A failed command: what `_cmd` recorded and what the driver context says. */
  datatype Fault = Fault(last: Failure, ctx: Errnum)

  /** The limiter and the lines that `_daemon_cmd_err` has written so far. */
  datatype Journal = Journal(limiter: Limiter, lines: seq<Failure>)

  /** A busy driver or BMC passes the limiter without a line: `_cmd` has already
      written one of its own. */
  function Noted(j: Journal, f: Fault, verbose: bool, exitOnFatal: bool): Journal {
    var v := Report(j.limiter, f.last, f.ctx, verbose, exitOnFatal);
    Journal(v.limiter, if v.passed && !Busy(f.ctx) then j.lines + [f.last] else j.lines)
  }

  function Reporting(j: Journal, faults: seq<Fault>, verbose: bool, exitOnFatal: bool): Journal {
    if faults == [] then j
    else
      var n := |faults| - 1;
      Noted(Reporting(j, faults[..n], verbose, exitOnFatal), faults[n], verbose, exitOnFatal)
  }

  lemma {:induction false} ReportingJoin(j: Journal, one: seq<Fault>, more: seq<Fault>, verbose: bool,
                                         exitOnFatal: bool)
    ensures Reporting(j, one + more, verbose, exitOnFatal) ==
            Reporting(Reporting(j, one, verbose, exitOnFatal), more, verbose, exitOnFatal)
    decreases |more|
  {
    if more == [] {
      assert one + more == one;
    } else {
      var n := |more| - 1;
      assert (one + more)[..|one + more| - 1] == one + more[..n];
      ReportingJoin(j, one, more[..n], verbose, exitOnFatal);
    }
  }

  lemma {:induction false} CountStays(j: Journal, faults: seq<Fault>, verbose: bool)
    requires j.limiter.count < LOG_REPEAT_LIMIT
    ensures Reporting(j, faults, verbose, false).limiter.count < LOG_REPEAT_LIMIT
    decreases |faults|
  {
    if faults != [] {
      CountStays(j, faults[..|faults| - 1], verbose);
    }
  }

  /** How many reports of the same failure came just before report k, since it was
      last remembered. */
  function Repeats(l: Limiter, faults: seq<Fault>, k: nat): nat
    requires k < |faults|
  {
    if k == 0 then if l.repeat == faults[0].last then l.count + 1 else 0
    else if faults[k].last == faults[k - 1].last then Repeats(l, faults, k - 1) + 1
    else 0
  }

  lemma {:induction false} RemembersLast(j: Journal, faults: seq<Fault>, k: nat)
    requires k < |faults| && j.limiter.count < LOG_REPEAT_LIMIT
    ensures Reporting(j, faults[..k + 1], false, false).limiter ==
            Limiter(faults[k].last, Repeats(j.limiter, faults, k) % 10)
  {
    assert faults[..k + 1][..k] == faults[..k];
    if k != 0 {
      RemembersLast(j, faults, k - 1);
    }
  }

  /** Which of any sequence of failures get a line: every one in verbose mode, and
      otherwise the first of each stretch of equal ones and every tenth after it. */
  lemma LoggedExactly(j: Journal, faults: seq<Fault>, k: nat, verbose: bool)
    requires k < |faults| && j.limiter.count < LOG_REPEAT_LIMIT
    ensures Reporting(j, faults[..k + 1], verbose, false).lines ==
            Reporting(j, faults[..k], verbose, false).lines
            + if !Busy(faults[k].ctx) && (verbose || Repeats(j.limiter, faults, k) % 10 == 0) then [faults[k].last]
              else []
  {
    assert faults[..k + 1][..k] == faults[..k];
    var was := Reporting(j, faults[..k], verbose, false);
    assert Reporting(j, faults[..k + 1], verbose, false) == Noted(was, faults[k], verbose, false);
    if !verbose && k != 0 {
      RemembersLast(j, faults, k - 1);
    }
    hide Reporting;
  }

  /** Equal failures one after the other, in terms of `AfterReports`. */
  lemma {:induction false} AlikeReports(j: Journal, faults: seq<Fault>, f: Fault, verbose: bool)
    requires forall i :: 0 <= i < |faults| ==> faults[i] == f
    ensures var (l, passed) := AfterReports(j.limiter, f.last, f.ctx, verbose, |faults|);
            && Reporting(j, faults, verbose, false).limiter == l
            && Reporting(j, faults, verbose, false).lines ==
               j.lines + seq(if Busy(f.ctx) then 0 else passed, _ => f.last)
    decreases |faults|
  {
    if faults != [] {
      AlikeReports(j, faults[..|faults| - 1], f, verbose);
    }
  }
}
