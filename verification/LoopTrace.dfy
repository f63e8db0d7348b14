/** The main loop of the bmc-watchdog daemon and the answers it gets: which
    answers an iteration used and what they make of it, that the answers and the
    sleeps determine the run, and a script of answers for every simple run. */
module LoopTrace {
  import opened Common
  import opened BmcTimer
  import opened WatchdogHost
  import opened DaemonRun

  /** One sleep at the end of an iteration: whether a shutdown signal arrived,
      after how long, and what other processes did to the timer meanwhile. */
  datatype Sleep = Sleep(signal: bool, slept: nat, others: Option<Timer>)

  function SleptFor(s: Sleep, nap: nat): (d: nat)
    ensures d <= nap * SECOND
  {
    if s.signal && s.slept < nap * SECOND then s.slept else nap * SECOND
  }

  /** How the iteration slept. */
  predicate SleptAs(c: Config, r: Iter, s: Sleep) {
    && r.start <= r.finish
    && r.signal == s.signal
    && r.wake == r.finish + SleptFor(s, Nap(c.period, r.start, r.finish))
    && r.after == s.others.GetOr(r.mid)
  }

  /** `retry_attempts` and `retry_wait_time` */
  datatype Retry = Retry(attempts: nat, wait: nat)

  /** The answers an iteration used: to its Get, to its Reset, and to the Get that
      follows a successful Reset under the workaround. */
  datatype Part = Part(get: seq<Attempt>, reset: seq<Attempt>, reget: seq<Attempt>)

  // ----- What the answers make of an iteration -----

  /** Where a command that was not cut leads. */
  function After(q: Request, t: Timer, now: Instant, wait: nat, used: seq<Attempt>): Progress {
    Effect(q, Start(t, now), wait, Done, used)
  }

  /** The answers to a Get, given whether it returned 0. */
  predicate GetUsed(ok: bool, g: seq<Attempt>, attempts: nat) {
    if ok then Retried(Done, g, attempts) && !g[|g| - 1].missing
    else Retried(Failed, g, attempts) || (Retried(Done, g, attempts) && g[|g| - 1].missing)
  }

  predicate GetTimed(r: Iter, k: Retry, g: seq<Attempt>) {
    && GetUsed(r.getOk, g, k.attempts)
    && var p := After(Get, r.before, r.start, k.wait, g);
       && r.getDone == p.now && r.getAt == p.at && r.lag == g[|g| - 1].lag
       && r.view == ViewOf(r.before, r.getAt, r.lag)
  }

  predicate ResetTimed(r: Iter, k: Retry, q: seq<Attempt>) {
    && Retried(if r.resetOk then Done else Failed, q, k.attempts)
    && r.resetDone == After(Reset, r.before, r.getDone, k.wait, q).now
    && r.hits == Hits(Reset, Start(r.before, r.getDone), k.wait, q)
  }

  predicate RereadTimed(r: Iter, k: Retry, w: seq<Attempt>) {
    && GetUsed(r.regetOk, w, k.attempts)
    && var p := After(Get, r.mid, r.resetDone + SECOND, k.wait, w);
       r.finish == p.now && r.regetAt == p.at && r.relag == w[|w| - 1].lag
  }

  /** The Reset was really sent if the Get did not speak against it, the Get after
      it if it succeeded under the workaround, and nothing else. */
  predicate Exchanged(c: Config, r: Iter, k: Retry, x: Part) {
    && GetTimed(r, k, x.get)
    && (if r.resetSent then ResetTimed(r, k, x.reset) else x.reset == [])
    && (if c.ignoreState && r.resetOk then RereadTimed(r, k, x.reget)
        else x.reget == [] && r.regetAt == r.getDone && r.relag == 0)
    && (r.declared ==> Unslept(r))
  }

  function Used(x: Part): seq<Attempt> {
    x.get + (x.reset + x.reget)
  }

  /** A command whose answers come in time does not last longer than that. */
  lemma CommandInTime(q: Request, t: Timer, now: Instant, k: Retry, used: seq<Attempt>, ret: Ret, a: nat)
    requires !ret.Cut? && Retried(ret, used, k.attempts) && Quick(used, a)
    ensures After(q, t, now, k.wait, used).now <= now + CommandTime(a, k.attempts, k.wait)
    ensures ret.Done? ==> var hits := Hits(q, Start(t, now), k.wait, used);
              hits != [] && After(q, t, now, k.wait, used).now <= hits[|hits| - 1] + a
  {
    EffectTime(q, Start(t, now), k.wait, k.attempts, ret, used, a);
    EffectSequenced(q, t, now, k.wait, k.attempts, ret, used);
  }

  lemma GetInTime(ok: bool, t: Timer, now: Instant, k: Retry, used: seq<Attempt>, a: nat)
    requires GetUsed(ok, used, k.attempts) && Quick(used, a)
    ensures After(Get, t, now, k.wait, used).now <= now + CommandTime(a, k.attempts, k.wait)
  {
    CommandInTime(Get, t, now, k, used, if Retried(Done, used, k.attempts) then Done else Failed, a);
  }

  /** Answers that come in time keep the iteration within its bounds. */
  lemma ExchangedInTime(c: Config, r: Iter, k: Retry, x: Part, a: nat)
    requires Law(c, r) && Exchanged(c, r, k, x)
    requires Quick(x.get, a) && Quick(x.reset, a) && Quick(x.reget, a)
    ensures Within(r, CommandTime(a, k.attempts, k.wait)) && Answered(r, a)
  {
    hide Effect;
    hide Hits;
    GetInTime(r.getOk, r.before, r.start, k, x.get, a);
    if r.resetSent {
      CommandInTime(Reset, r.before, r.getDone, k, x.reset, if r.resetOk then Done else Failed, a);
    }
    if c.ignoreState && r.resetOk {
      GetInTime(r.regetOk, r.mid, r.resetDone + SECOND, k, x.reget, a);
    }
  }

  // ----- The answers and the sleeps determine the run -----

  /** A command that was not cut used these answers. */
  predicate Complete(u: seq<Attempt>, attempts: nat) {
    Retried(Done, u, attempts) || Retried(Failed, u, attempts)
  }

  lemma OneWayToUse(u: seq<Attempt>, v: seq<Attempt>, attempts: nat, rest: seq<Attempt>, more: seq<Attempt>)
    requires Complete(u, attempts) && Complete(v, attempts) && u + rest == v + more
    ensures u == v && rest == more
  {
    var s := u + rest;
    assert s[|u| - 1] == u[|u| - 1] && s[|v| - 1] == v[|v| - 1];
    assert forall i :: 0 <= i < |u| ==> s[i] == u[i];
    assert forall i :: 0 <= i < |v| ==> s[i] == v[i];
    assert |u| == |v|;
    assert u == s[..|u|] == v;
    assert rest == s[|u|..] == more;
  }

  /** Two iterations that start alike and get the same answers are the same, up
      to their sleep. */
  lemma SameExchange(c: Config, r: Iter, x: Part, s: Iter, y: Part, k: Retry, rest: seq<Attempt>, more: seq<Attempt>)
    requires Law(c, r) && Law(c, s) && Exchanged(c, r, k, x) && Exchanged(c, s, k, y)
    requires r.start == s.start && r.before == s.before && r.prevIn == s.prevIn
    requires x.get + (x.reset + (x.reget + rest)) == y.get + (y.reset + (y.reget + more))
    ensures x == y && rest == more
    ensures r == s.(signal := r.signal, wake := r.wake, after := r.after)
  {
    OneWayToUse(x.get, y.get, k.attempts, x.reset + (x.reget + rest), y.reset + (y.reget + more));
    if r.resetSent {
      OneWayToUse(x.reset, y.reset, k.attempts, x.reget + rest, y.reget + more);
    } else {
      assert [] + (x.reget + rest) == x.reget + rest && [] + (y.reget + more) == y.reget + more;
    }
    SameAnswers(c, r, s, k, x, y);
    if c.ignoreState && r.resetOk {
      OneWayToUse(x.reget, y.reget, k.attempts, rest, more);
    } else {
      assert [] + rest == rest && [] + more == more;
    }
    SameReread(c, r, s, k, x, y);
  }

  lemma SameAnswers(c: Config, r: Iter, s: Iter, k: Retry, x: Part, y: Part)
    requires Law(c, r) && Law(c, s) && Exchanged(c, r, k, x) && Exchanged(c, s, k, y)
    requires r.start == s.start && r.before == s.before && r.prevIn == s.prevIn
    requires x.get == y.get && x.reset == y.reset
    ensures r.getOk == s.getOk && r.getAt == s.getAt && r.lag == s.lag && r.view == s.view && r.getDone == s.getDone
    ensures r.declared == s.declared && r.resetSent == s.resetSent && r.resetOk == s.resetOk
    ensures r.hits == s.hits && r.resetDone == s.resetDone && r.mid == s.mid
  {
  }

  lemma SameReread(c: Config, r: Iter, s: Iter, k: Retry, x: Part, y: Part)
    requires Law(c, r) && Law(c, s) && Exchanged(c, r, k, x) && Exchanged(c, s, k, y)
    requires r.start == s.start && r.before == s.before && r.prevIn == s.prevIn && x == y
    ensures r == s.(signal := r.signal, wake := r.wake, after := r.after)
  {
    SameAnswers(c, r, s, k, x, y);
  }

  // ----- Whole runs -----

  /** All the answers used, in the order of the iterations. */
  function Flat(parts: seq<Part>): seq<Attempt> {
    if parts == [] then [] else Flat(parts[..|parts| - 1]) + Used(parts[|parts| - 1])
  }

  predicate AllSlept(c: Config, log: seq<Iter>, sleeps: seq<Sleep>) {
    forall i :: 0 <= i < |log| && !log[i].declared ==> i < |sleeps| && SleptAs(c, log[i], sleeps[i])
  }

  /** The records are those of the answers `parts` and of the sleeps. */
  predicate Traced(c: Config, log: seq<Iter>, parts: seq<Part>, k: Retry, sleeps: seq<Sleep>) {
    && |parts| == |log|
    && (forall i :: 0 <= i < |log| ==> Exchanged(c, log[i], k, parts[i]))
    && AllSlept(c, log, sleeps)
  }

  /** The answers up to every iteration are those the script holds. */
  predicate Scripted(parts: seq<Part>, script: seq<Attempt>) {
    forall j :: 0 <= j <= |parts| ==> Flat(parts[..j]) <= script
  }

  lemma ScriptSplit(parts: seq<Part>, script: seq<Attempt>, j: nat) returns (rest: seq<Attempt>)
    requires Scripted(parts, script) && j < |parts|
    ensures var x := parts[j]; script == Flat(parts[..j]) + (x.get + (x.reset + (x.reget + rest)))
  {
    var x := parts[j];
    assert parts[..j + 1][..j] == parts[..j];
    assert Flat(parts[..j + 1]) == Flat(parts[..j]) + Used(x) <= script;
    rest := script[|Flat(parts[..j + 1])|..];
    assert script == Flat(parts[..j]) + Used(x) + rest;
    assert Used(x) + rest == x.get + (x.reset + (x.reget + rest));
  }

  lemma QuickPart(parts: seq<Part>, script: seq<Attempt>, j: nat, a: nat)
    requires Scripted(parts, script) && j < |parts| && Quick(script, a)
    ensures Quick(parts[j].get, a) && Quick(parts[j].reset, a) && Quick(parts[j].reget, a)
  {
    var rest := ScriptSplit(parts, script, j);
    var x, flat := parts[j], Flat(parts[..j]);
    QuickSplit(script, flat, x.get + (x.reset + (x.reget + rest)), a);
    QuickSplit(x.get + (x.reset + (x.reget + rest)), x.get, x.reset + (x.reget + rest), a);
    QuickSplit(x.reset + (x.reget + rest), x.reset, x.reget + rest, a);
    QuickSplit(x.reget + rest, x.reget, rest, a);
  }

  /** What the loop does from an instant and a timer on. */
  predicate Play(c: Config, log: seq<Iter>, parts: seq<Part>, k: Retry, sleeps: seq<Sleep>, script: seq<Attempt>) {
    Run(c, log) && Traced(c, log, parts, k, sleeps) && Scripted(parts, script)
  }

  /** Answers that come in time keep every iteration within its bounds. */
  lemma PlayInTime(c: Config, log: seq<Iter>, parts: seq<Part>, k: Retry, sleeps: seq<Sleep>, script: seq<Attempt>,
                   a: nat)
    requires Play(c, log, parts, k, sleeps, script) && Quick(script, a)
    ensures AllWithin(log, CommandTime(a, k.attempts, k.wait)) && AllAnswered(log, a)
  {
    forall i | 0 <= i < |log|
      ensures Within(log[i], CommandTime(a, k.attempts, k.wait)) && Answered(log[i], a)
    {
      QuickPart(parts, script, i, a);
      ExchangedInTime(c, log[i], k, parts[i], a);
    }
  }

  /** From the same instant and timer, with the same script and sleeps, two runs
      agree as far as both go. */
  lemma {:induction false} Deterministic(c: Config, log: seq<Iter>, parts: seq<Part>,
                                         other: seq<Iter>, others: seq<Part>,
                                         k: Retry, sleeps: seq<Sleep>, script: seq<Attempt>, j: nat)
    requires Play(c, log, parts, k, sleeps, script) && Play(c, other, others, k, sleeps, script)
    requires log != [] && other != [] && log[0].start == other[0].start && log[0].before == other[0].before
    requires j <= |log| && j <= |other|
    ensures forall i :: 0 <= i < j ==> log[i] == other[i] && parts[i] == others[i]
  {
    if j != 0 {
      Deterministic(c, log, parts, other, others, k, sleeps, script, j - 1);
      assert parts[..j - 1] == others[..j - 1];
      SameStep(c, log, parts, other, others, k, sleeps, script, j - 1);
    }
  }

  lemma DeclaredUnslept(c: Config, r: Iter, k: Retry, x: Part)
    requires Exchanged(c, r, k, x)
    ensures r.declared ==> Unslept(r)
  {
  }

  lemma SameStep(c: Config, log: seq<Iter>, parts: seq<Part>, other: seq<Iter>, others: seq<Part>,
                 k: Retry, sleeps: seq<Sleep>, script: seq<Attempt>, i: nat)
    requires Play(c, log, parts, k, sleeps, script) && Play(c, other, others, k, sleeps, script)
    requires i < |log| && i < |other| && parts[..i] == others[..i]
    requires if i == 0 then log[0].start == other[0].start && log[0].before == other[0].before
             else log[i - 1] == other[i - 1]
    ensures log[i] == other[i] && parts[i] == others[i]
  {
    hide Law;
    hide Exchanged;
    hide Flat;
    hide Scripted;
    var r, s, x, y := log[i], other[i], parts[i], others[i];
    if i != 0 {
      assert Linked(log[i - 1], r) && Linked(other[i - 1], s);
    }
    var rest := ScriptSplit(parts, script, i);
    var more := ScriptSplit(others, script, i);
    var n := |Flat(parts[..i])|;
    assert x.get + (x.reset + (x.reget + rest)) == script[n..] == y.get + (y.reset + (y.reget + more));
    assert Law(c, r) && Law(c, s) && Exchanged(c, r, k, x) && Exchanged(c, s, k, y);
    SameExchange(c, r, x, s, y, k, rest, more);
    DeclaredUnslept(c, r, k, x);
    DeclaredUnslept(c, s, k, y);
  }

  // ----- A script for every simple run -----

  /** The answer to a command that starts at `from`, seen by the BMC at `at` and
      done at `to`. */
  function Single(ok: bool, applied: bool, from: Instant, at: Instant, to: Instant, lag: nat): seq<Attempt>
    requires from <= at <= to
  {
    [Attempt(if ok then Ok else BadCode(0xCC, true), at - from, to - at, applied, lag, false, 0)]
  }

  function PartOf(c: Config, r: Iter): Part
    requires Law(c, r) && Simple(c, r)
  {
    var at := if r.hits == [] then r.getDone else r.hits[0];
    Part(Single(r.getOk, false, r.start, r.getAt, r.getDone, r.lag),
         if r.resetSent then Single(r.resetOk, r.hits != [], r.getDone, at, r.resetDone, 0) else [],
         if c.ignoreState && r.resetOk then
           Single(r.regetOk, false, r.resetDone + SECOND, r.regetAt, r.finish, r.relag)
         else [])
  }

  function SleepOf(r: Iter): Sleep
    requires r.finish <= r.wake
  {
    Sleep(r.signal, r.wake - r.finish, Some(r.after))
  }

  lemma SingleIs(q: Request, t: Timer, from: Instant, wait: nat, used: seq<Attempt>)
    requires |used| == 1
    ensures After(q, t, from, wait, used) == Sent(q, Start(t, from), used[0])
    ensures Hits(q, Start(t, from), wait, used) == HitOf(Start(t, from), used[0])
  {
    assert used[..0] == [];
  }

  lemma PartExchanges(c: Config, r: Iter, k: Retry)
    requires Law(c, r) && Simple(c, r)
    ensures Exchanged(c, r, k, PartOf(c, r))
  {
    var x := PartOf(c, r);
    SingleIs(Get, r.before, r.start, k.wait, x.get);
    if r.resetSent {
      SingleIs(Reset, r.before, r.getDone, k.wait, x.reset);
    }
    if c.ignoreState && r.resetOk {
      SingleIs(Get, r.mid, r.resetDone + SECOND, k.wait, x.reget);
    }
  }

  function PartsOf(c: Config, log: seq<Iter>): (p: seq<Part>)
    requires Run(c, log) && AllSimple(c, log)
    ensures |p| == |log| && forall i :: 0 <= i < |log| ==> p[i] == PartOf(c, log[i])
  {
    seq(|log|, (i: int) requires 0 <= i < |log| && Law(c, log[i]) && Simple(c, log[i]) => PartOf(c, log[i]))
  }

  function SleepsOf(log: seq<Iter>): (s: seq<Sleep>)
    ensures |s| == |log|
    ensures forall i :: 0 <= i < |log| && log[i].finish <= log[i].wake ==> s[i] == SleepOf(log[i])
  {
    seq(|log|, (i: int) requires 0 <= i < |log| =>
      if log[i].finish <= log[i].wake then SleepOf(log[i]) else Sleep(false, 0, None))
  }

  lemma {:induction false} FlatGrows(parts: seq<Part>, j: nat)
    requires j <= |parts|
    ensures Flat(parts[..j]) <= Flat(parts)
    decreases |parts|
  {
    if j == |parts| {
      assert parts[..j] == parts;
    } else {
      var n := |parts| - 1;
      FlatGrows(parts[..n], j);
      assert parts[..n][..j] == parts[..j];
    }
  }

  lemma OwnScript(parts: seq<Part>, more: seq<Attempt>)
    ensures Scripted(parts, Flat(parts) + more)
  {
    forall j | 0 <= j <= |parts|
      ensures Flat(parts[..j]) <= Flat(parts) + more
    {
      FlatGrows(parts, j);
    }
  }

  lemma OwnAnswers(c: Config, log: seq<Iter>, k: Retry)
    requires Run(c, log) && AllSimple(c, log)
    ensures Traced(c, log, PartsOf(c, log), k, SleepsOf(log))
  {
    hide Exchanged;
    forall i | 0 <= i < |log|
      ensures Exchanged(c, log[i], k, PartsOf(c, log)[i])
    {
      PartExchanges(c, log[i], k);
    }
    forall i | 0 <= i < |log| && !log[i].declared
      ensures SleptAs(c, log[i], SleepsOf(log)[i])
    {
      assert Law(c, log[i]);
    }
  }

  /** A simple run is what its own script and sleeps make of its beginning. */
  lemma SimpleRunPlays(c: Config, log: seq<Iter>, k: Retry, more: seq<Attempt>)
    requires Run(c, log) && AllSimple(c, log)
    ensures Play(c, log, PartsOf(c, log), k, SleepsOf(log), Flat(PartsOf(c, log)) + more)
  {
    hide Flat;
    hide Scripted;
    hide Traced;
    OwnAnswers(c, log, k);
    OwnScript(PartsOf(c, log), more);
  }
}
