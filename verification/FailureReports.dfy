/** Which commands of the bmc-watchdog daemon failed, as told by the answers they
    got, and what is logged of them. */
module FailureReports {
  import opened Common
  import opened BmcTimer
  import opened ErrorLimiter
  import opened WatchdogHost
  import opened DaemonRun
  import opened LoopTrace

  // ----- Failed commands -----

  /** A command that was not cut succeeded; a Get also needs the data asked for. */
  predicate Succeeded(c: Command, used: seq<Attempt>)
    requires used != []
  {
    var x := used[|used| - 1];
    x.answer.Ok? && (c.GetTimer? ==> !x.missing)
  }

  /** What there is to report: after an answer that lacks the data, the error of
      an earlier, busy request or none. */
  function FaultOf(c: Command, used: seq<Attempt>): Fault
    requires used != []
  {
    var x := used[|used| - 1].answer;
    if x.Ok? then Fault(Failure(BusyBefore(used), c, 0), Success) else Fault(Recorded(c, x), ErrnumOf(x))
  }

  function Faults(c: Command, used: seq<Attempt>): seq<Fault> {
    if used == [] || Succeeded(c, used) then [] else [FaultOf(c, used)]
  }

  // ----- Loops around one command -----

  /** How many answers the first of several commands uses, if there are as many. */
  function CommandLength(used: seq<Attempt>, attempts: nat): (n: nat)
    ensures n != 0
  {
    if used == [] || !used[0].answer.NotNow? || attempts == 0 then 1 else 1 + CommandLength(used[1..], attempts - 1)
  }

  /** The failures of a command that is repeated until it succeeds. */
  function LoopFaults(c: Command, used: seq<Attempt>, attempts: nat): seq<Fault>
    decreases |used|
  {
    var n := CommandLength(used, attempts);
    if |used| < n then [] else Faults(c, used[..n]) + LoopFaults(c, used[n..], attempts)
  }

  /** The answers to whole commands. */
  predicate Whole(used: seq<Attempt>, attempts: nat)
    decreases |used|
  {
    var n := CommandLength(used, attempts);
    used == [] || (n <= |used| && Whole(used[n..], attempts))
  }

  lemma {:induction false} OneCommand(ret: Ret, used: seq<Attempt>, attempts: nat)
    requires Retried(ret, used, attempts)
    ensures CommandLength(used, attempts) == if ret.Cut? then |used| + 1 else |used|
    decreases attempts
  {
    if used != [] && used[0].answer.NotNow? && attempts != 0 {
      if |used| != 1 || ret.Cut? {
        OneCommand(ret, used[1..], attempts - 1);
      }
    }
  }

  lemma {:induction false} SameLength(used: seq<Attempt>, more: seq<Attempt>, attempts: nat)
    requires CommandLength(used, attempts) <= |used|
    ensures CommandLength(used + more, attempts) == CommandLength(used, attempts)
  {
    if used[0].answer.NotNow? && attempts != 0 {
      SameLength(used[1..], more, attempts - 1);
      assert (used + more)[1..] == used[1..] + more;
    }
  }

  lemma {:induction false} LoopFaultsJoin(c: Command, used: seq<Attempt>, more: seq<Attempt>, attempts: nat)
    requires Whole(used, attempts)
    ensures LoopFaults(c, used + more, attempts) == LoopFaults(c, used, attempts) + LoopFaults(c, more, attempts)
    ensures Whole(more, attempts) ==> Whole(used + more, attempts)
    decreases |used|
  {
    hide Faults;
    hide CommandLength;
    if used == [] {
      assert used + more == more;
    } else {
      var n := CommandLength(used, attempts);
      SameLength(used, more, attempts);
      assert (used + more)[..n] == used[..n] && (used + more)[n..] == used[n..] + more;
      LoopFaultsJoin(c, used[n..], more, attempts);
    }
  }

  lemma NoFaults(j: Journal, c: Command, attempts: nat, verbose: bool, exitOnFatal: bool)
    ensures LoopFaults(c, [], attempts) == [] && Whole([], attempts) && Reporting(j, [], verbose, exitOnFatal) == j
  {
  }

  /** One command more. */
  lemma OneRound(c: Command, ret: Ret, used: seq<Attempt>, attempts: nat)
    requires Retried(ret, used, attempts)
    ensures LoopFaults(c, used, attempts) == if ret.Cut? then [] else Faults(c, used)
    ensures !ret.Cut? ==> Whole(used, attempts)
  {
    OneCommand(ret, used, attempts);
    if !ret.Cut? {
      assert used[..|used|] == used && used[|used|..] == [];
    }
  }

  /** What was reported of the commands before and of those after is what is to be
      reported of all of them. */
  lemma ReportedMore(j: Journal, c: Command, used: seq<Attempt>, more: seq<Attempt>, attempts: nat, verbose: bool,
                     exitOnFatal: bool)
    requires Whole(used, attempts)
    ensures Reporting(Reporting(j, LoopFaults(c, used, attempts), verbose, exitOnFatal),
                      LoopFaults(c, more, attempts), verbose, exitOnFatal) ==
            Reporting(j, LoopFaults(c, used + more, attempts), verbose, exitOnFatal)
    ensures Whole(more, attempts) ==> Whole(used + more, attempts)
  {
    LoopFaultsJoin(c, used, more, attempts);
    ReportingJoin(j, LoopFaults(c, used, attempts), LoopFaults(c, more, attempts), verbose, exitOnFatal);
  }

  /** The answers to three loops, around a Get, a Set and a Reset. */
  datatype Phases = Phases(get: seq<Attempt>, put: seq<Attempt>, reset: seq<Attempt>) {
    function All(): seq<Attempt> {
      get + (put + reset)
    }
  }

  function PhaseFaults(u: Phases, attempts: nat): seq<Fault> {
    LoopFaults(Command.GetTimer, u.get, attempts) +
    (LoopFaults(Command.SetTimer, u.put, attempts) + LoopFaults(Command.ResetTimer, u.reset, attempts))
  }

  /** What the three loops reported one after the other. */
  lemma PhasesReported(j: Journal, u: Phases, attempts: nat, verbose: bool, exitOnFatal: bool)
    ensures Reporting(j, PhaseFaults(u, attempts), verbose, exitOnFatal) ==
            Reporting(Reporting(Reporting(j, LoopFaults(Command.GetTimer, u.get, attempts), verbose, exitOnFatal),
                                LoopFaults(Command.SetTimer, u.put, attempts), verbose, exitOnFatal),
                      LoopFaults(Command.ResetTimer, u.reset, attempts), verbose, exitOnFatal)
  {
    hide LoopFaults;
    hide Reporting;
    var g, t := LoopFaults(Command.GetTimer, u.get, attempts), LoopFaults(Command.SetTimer, u.put, attempts);
    var q := LoopFaults(Command.ResetTimer, u.reset, attempts);
    ReportingJoin(j, g, t + q, verbose, exitOnFatal);
    ReportingJoin(Reporting(j, g, verbose, exitOnFatal), t, q, verbose, exitOnFatal);
  }

  // ----- The main loop -----

  /** The failed commands of an iteration, in order. */
  function PartFaults(x: Part): seq<Fault> {
    Faults(Command.GetTimer, x.get) + (Faults(Command.ResetTimer, x.reset) + Faults(Command.GetTimer, x.reget))
  }

  function AllFaults(parts: seq<Part>): seq<Fault> {
    if parts == [] then [] else AllFaults(parts[..|parts| - 1]) + PartFaults(parts[|parts| - 1])
  }

  lemma NoParts(j: Journal, verbose: bool)
    ensures Reporting(j, AllFaults([]), verbose, false) == j
  {
  }

  lemma MoreFaults(j: Journal, parts: seq<Part>, x: Part, verbose: bool)
    ensures Reporting(Reporting(j, AllFaults(parts), verbose, false), PartFaults(x), verbose, false) ==
            Reporting(j, AllFaults(parts + [x]), verbose, false)
  {
    assert (parts + [x])[..|parts|] == parts;
    ReportingJoin(j, AllFaults(parts), PartFaults(x), verbose, false);
  }

  lemma ResetFaults(ret: Ret, used: seq<Attempt>, attempts: nat, last: Failure, ctx: Errnum)
    requires !ret.Cut? && Retried(ret, used, attempts)
    requires ret.Failed? ==> last == Recorded(Command.ResetTimer, used[|used| - 1].answer) && ctx == last.err
    ensures Faults(Command.ResetTimer, used) == if ret.Failed? then [Fault(last, ctx)] else []
  {
  }

  lemma {:induction false} AllFaultsJoin(parts: seq<Part>, more: seq<Part>)
    ensures AllFaults(parts + more) == AllFaults(parts) + AllFaults(more)
    decreases |more|
  {
    if more == [] {
      assert parts + more == parts;
    } else {
      var n := |more| - 1;
      assert (parts + more)[..|parts + more| - 1] == parts + more[..n];
      AllFaultsJoin(parts, more[..n]);
    }
  }

  /** Which of its commands failed is also what the record of the iteration says. */
  lemma FailedAsRecorded(c: Config, r: Iter, k: Retry, x: Part)
    requires Law(c, r) && Exchanged(c, r, k, x)
    ensures Faults(Command.GetTimer, x.get) == [] <==> r.getOk
    ensures Faults(Command.ResetTimer, x.reset) == [] <==> !r.resetSent || r.resetOk
    ensures Faults(Command.GetTimer, x.reget) == [] <==> !(c.ignoreState && r.resetOk) || r.regetOk
  {
  }

  /** After a failed Get nothing else is sent. */
  lemma FailedGetOnly(c: Config, r: Iter, k: Retry, x: Part)
    requires Law(c, r) && Exchanged(c, r, k, x) && !r.getOk
    ensures PartFaults(x) == Faults(Command.GetTimer, x.get)
  {
  }

  lemma {:induction false} AlikeParts(parts: seq<Part>, f: Fault)
    requires forall m :: 0 <= m < |parts| ==> PartFaults(parts[m]) == [f]
    ensures |AllFaults(parts)| == |parts|
    ensures forall m :: 0 <= m < |parts| ==> AllFaults(parts)[m] == f
    decreases |parts|
  {
    if parts != [] {
      AlikeParts(parts[..|parts| - 1], f);
    }
  }

  /** Iterations `i` to `i + n - 1` of a run, whose Get fails alike, after another
      failure was remembered: they leave exactly ceil(n / 10) lines, and the counter
      at (n - 1) mod 10. */
  lemma FailingGetsLogged(c: Config, log: seq<Iter>, parts: seq<Part>, k: Retry, sleeps: seq<Sleep>, i: nat, n: nat,
                          f: Fault, j: Journal)
    requires Run(c, log) && Traced(c, log, parts, k, sleeps) && i + n <= |log|
    requires forall m :: i <= m < i + n ==> !log[m].getOk && Faults(Command.GetTimer, parts[m].get) == [f]
    requires Reporting(j, AllFaults(parts[..i]), false, false).limiter.repeat != f.last
    ensures var was := Reporting(j, AllFaults(parts[..i]), false, false);
            var now := Reporting(j, AllFaults(parts[..i + n]), false, false);
            && (1 <= n ==> now.limiter == Limiter(f.last, (n - 1) % 10))
            && now.lines == was.lines + seq(if Busy(f.ctx) then 0 else (n + 9) / 10, _ => f.last)
  {
    hide Reporting;
    hide Law;
    hide Exchanged;
    hide AllFaults;
    hide PartFaults;
    hide Faults;
    hide AfterReports;
    var some, was := parts[i..i + n], Reporting(j, AllFaults(parts[..i]), false, false);
    forall m | 0 <= m < n
      ensures PartFaults(some[m]) == [f]
    {
      assert some[m] == parts[i + m] && Law(c, log[i + m]) && Exchanged(c, log[i + m], k, parts[i + m]);
      FailedGetOnly(c, log[i + m], k, parts[i + m]);
    }
    AlikeParts(some, f);
    assert parts[..i + n] == parts[..i] + some;
    AllFaultsJoin(parts[..i], some);
    ReportingJoin(j, AllFaults(parts[..i]), AllFaults(some), false, false);
    AlikeReports(was, AllFaults(some), f, false);
    FreshReports(was.limiter, f.last, f.ctx, n);
  }
}
