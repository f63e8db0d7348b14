/** The watchdog timer of a BMC, as sections 27.5 (Reset), 27.6 (Set) and
    27.7 (Get Watchdog Timer) of IPMI v2.0 describe it, and the seconds/100 ms
    arithmetic that bmc-watchdog wraps around it.

    Time is explicit: an `Instant` counts microseconds.  A running timer is
    stored as the instant at which it will expire, so no tick is needed; what
    the timer looks like at an instant is computed by `Expire`.
 */
module BmcTimer {

  const SECOND: nat := 1_000_000
  const CHUNK: nat := 100_000
  const MAX_CHUNKS: nat := 0xFFFF
  const MAX_SECONDS: nat := 6553
  const INTERRUPT_NONE: nat := 0
  const LOG_DISABLE: nat := 1
  const NO_ACTION: nat := 0

  type Instant = nat

  datatype Settings = Settings(timerUse: nat, log: nat, action: nat, preInterrupt: nat, preInterval: nat)

  /** `flags` holds the timer uses whose expiration flag is set; `deadline`
      matters while the timer runs, `held` is the countdown shown otherwise. */
  datatype Timer = Timer(settings: Settings, flags: set<nat>, initial: nat,
                         running: bool, deadline: Instant, held: nat)

  datatype SetRequest = SetRequest(settings: Settings, stop: bool, clear: set<nat>, chunks: nat)

  datatype Request = Get | Reset | Set(body: SetRequest)

  /** What a Get Watchdog Timer response yields after the divisions by ten. */
  datatype View = View(settings: Settings, state: bool, initialSeconds: nat, presentSeconds: nat)

  // ----- What the BMC does -----

  function Expire(t: Timer, now: Instant): Timer {
    if t.running && t.deadline <= now then
      t.(running := false, held := 0, flags := t.flags + {t.settings.timerUse})
    else
      t
  }

  function Restart(t: Timer, now: Instant): Timer {
    var e := Expire(t, now);
    e.(running := true, deadline := now + e.initial * CHUNK)
  }

  /** Set stops the timer unless told not to; a timer kept running restarts
      from the new countdown, and a stopped one stays stopped. */
  function Program(t: Timer, r: SetRequest, now: Instant): Timer {
    var e := Expire(t, now);
    Timer(r.settings, e.flags - r.clear, r.chunks, e.running && !r.stop, now + r.chunks * CHUNK, r.chunks)
  }

  function Apply(q: Request, t: Timer, now: Instant): Timer {
    match q
    case Get => t
    case Reset => Restart(t, now)
    case Set(r) => Program(t, r, now)
  }

  /** The timer after the BMC acted on `q` at each of `hits`. */
  function Deliver(q: Request, t: Timer, hits: seq<Instant>): Timer {
    if hits == [] then t
    else Apply(q, Deliver(q, t, hits[..|hits| - 1]), hits[|hits| - 1])
  }

  function Present(t: Timer, now: Instant): nat {
    if !t.running then t.held
    else if t.deadline <= now then 0
    else (t.deadline - now + CHUNK - 1) / CHUNK
  }

  function StartOf(t: Timer): int {
    t.deadline - t.initial * CHUNK
  }

  /** Section 27.7 lets a reading trail the countdown; it never trails past
      the instant at which the countdown began. */
  function Sample(t: Timer, at: Instant, lag: nat): (x: Instant)
    ensures x <= at
    ensures lag == 0 ==> x == at
  {
    var floor := if 0 <= StartOf(t) <= at then StartOf(t) else 0;
    if at - lag < floor then floor else at - lag
  }

  function ViewOf(t: Timer, at: Instant, lag: nat): View {
    var e := Expire(t, at);
    View(e.settings, e.running, e.initial / 10, Present(e, Sample(e, at, lag)) / 10)
  }

  // ----- Sixteen-bit seconds and chunks -----

  /** `initial_countdown_seconds * 10` stored into a `uint16_t`. */
  function ChunksOf(seconds: nat): nat {
    seconds * 10 % 0x1_0000
  }

  function SecondsOf(chunks: nat): nat {
    chunks / 10 % 0x1_0000
  }

  /** The stored countdown after `n` Get-then-Set rounds. */
  function Rounds(chunks: nat, n: nat): nat {
    if n == 0 then chunks else ChunksOf(SecondsOf(Rounds(chunks, n - 1)))
  }

  lemma WriteThenRead(seconds: nat)
    requires seconds <= MAX_SECONDS
    ensures ChunksOf(seconds) == 10 * seconds <= MAX_CHUNKS
    ensures SecondsOf(ChunksOf(seconds)) == seconds
  {
  }

  /** 6553 is the largest countdown for which that holds. */
  lemma WriteThenReadExactly(seconds: nat)
    requires seconds <= 0xFFFF
    ensures SecondsOf(ChunksOf(seconds)) == seconds <==> seconds <= MAX_SECONDS
  {
  }

  lemma {:induction false} RoundsSettleAtOnce(chunks: nat, n: nat)
    requires chunks <= MAX_CHUNKS
    ensures Rounds(chunks, n) <= chunks < Rounds(chunks, n) + 10
    ensures 1 <= n ==> Rounds(chunks, n) == Rounds(chunks, 1) == chunks / 10 * 10
  {
    if 2 <= n {
      RoundsSettleAtOnce(chunks, n - 1);
    }
  }

  // ----- The pre-timeout invariant -----

  predicate WellFormed(t: Timer) {
    && t.initial <= MAX_CHUNKS
    && (t.settings.preInterrupt != INTERRUPT_NONE ==> 10 * t.settings.preInterval <= t.initial)
  }

  predicate SoundRequest(q: Request) {
    q.Set? ==>
      && q.body.chunks <= MAX_CHUNKS
      && (q.body.settings.preInterrupt != INTERRUPT_NONE ==> 10 * q.body.settings.preInterval <= q.body.chunks)
  }

  lemma {:induction false} DeliverKeepsWellFormed(q: Request, t: Timer, hits: seq<Instant>)
    requires WellFormed(t) && SoundRequest(q)
    ensures WellFormed(Deliver(q, t, hits))
    decreases |hits|
  {
    if hits != [] {
      DeliverKeepsWellFormed(q, t, hits[..|hits| - 1]);
    }
  }

  // ----- Repeated delivery -----

  predicate Ordered(hits: seq<Instant>, lo: Instant, hi: Instant) {
    && (forall i :: 0 <= i < |hits| ==> lo <= hits[i] <= hi)
    && (forall i, j :: 0 <= i < j < |hits| ==> hits[i] <= hits[j])
  }

  lemma OneHitMore(q: Request, t: Timer, hits: seq<Instant>, x: Instant, lo: Instant, hi: Instant)
    requires Ordered(hits, lo, hi) && lo <= hi <= x
    ensures Deliver(q, t, hits + [x]) == Apply(q, Deliver(q, t, hits), x)
    ensures Ordered(hits + [x], lo, x)
  {
    assert (hits + [x])[..|hits + [x]| - 1] == hits;
  }

  lemma OrderedWider(hits: seq<Instant>, lo: Instant, hi: Instant, wider: Instant)
    requires Ordered(hits, lo, hi) && hi <= wider
    ensures Ordered(hits, lo, wider)
  {
  }

  lemma {:induction false} DeliverTwice(q: Request, t: Timer, h: seq<Instant>, g: seq<Instant>)
    ensures Deliver(q, Deliver(q, t, h), g) == Deliver(q, t, h + g)
    decreases |g|
  {
    if g == [] {
      assert h + g == h;
    } else {
      DeliverTwice(q, t, h, g[..|g| - 1]);
      assert (h + g)[..|h + g| - 1] == h + g[..|g| - 1];
    }
  }

  lemma {:induction false} DeliverGet(t: Timer, hits: seq<Instant>)
    ensures Deliver(Get, t, hits) == t
    decreases |hits|
  {
    if hits != [] {
      DeliverGet(t, hits[..|hits| - 1]);
    }
  }

  /** Setting the same record several times leaves that record in force; the
      timer is stopped if the request says so or if it was stopped before. */
  lemma {:induction false} DeliverSet(r: SetRequest, t: Timer, hits: seq<Instant>)
    requires hits != []
    ensures var d := Deliver(Set(r), t, hits);
            && d.settings == r.settings && d.initial == d.held == r.chunks
            && (r.stop || !t.running ==> !d.running)
            && d.flags !! r.clear && t.flags - r.clear <= d.flags
    decreases |hits|
  {
    var pre := hits[..|hits| - 1];
    if pre != [] {
      DeliverSet(r, t, pre);
    }
  }

  /** A Set that keeps the timer running does so, from the new countdown. */
  lemma {:induction false} DeliverSetRunning(r: SetRequest, t: Timer, hits: seq<Instant>, lo: Instant, hi: Instant)
    requires !r.stop && hits != [] && Ordered(hits, lo, hi)
    requires t.running && hi < t.deadline && hi - lo < r.chunks * CHUNK
    ensures var d := Deliver(Set(r), t, hits);
            d.running && StartOf(d) == hits[|hits| - 1]
    decreases |hits|
  {
    var pre := hits[..|hits| - 1];
    DeliverSet(r, t, hits);
    if pre != [] {
      DeliverSet(r, t, pre);
      DeliverSetRunning(r, t, pre, lo, hi);
    }
  }

  /** A stopping Set keeps every flag it was not asked to clear, and the only
      flag that may appear is the one the old countdown raised on its own. */
  lemma {:induction false} StopKeepsFlags(r: SetRequest, t: Timer, hits: seq<Instant>, lo: Instant, hi: Instant)
    requires r.stop && hits != [] && Ordered(hits, lo, hi)
    ensures var d := Deliver(Set(r), t, hits);
            && t.flags - r.clear <= d.flags
            && d.flags == Expire(t, hits[0]).flags - r.clear
            && (t.running && t.deadline <= lo ==> t.settings.timerUse in d.flags + r.clear)
            && (!t.running || hi < t.deadline ==> d.flags == t.flags - r.clear)
    decreases |hits|
  {
    var pre := hits[..|hits| - 1];
    if pre != [] {
      StopKeepsFlags(r, t, pre, lo, hi);
      DeliverSet(r, t, pre);
      assert pre[0] == hits[0];
    }
  }

  /** However often a Reset is delivered, the settings stay, the timer runs,
      and its countdown began at the last delivery. */
  lemma {:induction false} DeliverReset(t: Timer, hits: seq<Instant>)
    ensures var d := Deliver(Reset, t, hits);
            && d.settings == t.settings && d.initial == t.initial
            && t.flags <= d.flags <= t.flags + {t.settings.timerUse}
            && (hits != [] ==> d.running && StartOf(d) == hits[|hits| - 1])
    decreases |hits|
  {
    if hits != [] {
      DeliverReset(t, hits[..|hits| - 1]);
    }
  }

  /** The timer never reached zero before `x`, although restarted at `hits`. */
  predicate AliveUntil(t: Timer, hits: seq<Instant>, x: Instant)
    decreases |hits|
  {
    if hits == [] then t.running && x < t.deadline
    else
      && AliveUntil(t, hits[..|hits| - 1], hits[|hits| - 1])
      && x < hits[|hits| - 1] + t.initial * CHUNK
  }

  /** A timer that is alive across a window is a timer that was never touched
      by expiry: the BMC state shows no new flag and still runs. */
  lemma {:induction false} AliveMeansUntouched(t: Timer, hits: seq<Instant>, x: Instant)
    requires AliveUntil(t, hits, x)
    ensures var d := Deliver(Reset, t, hits);
            d.running && x < d.deadline && d.flags == t.flags && Expire(d, x) == d
    decreases |hits|
  {
    DeliverReset(t, hits);
    if hits != [] {
      AliveMeansUntouched(t, hits[..|hits| - 1], hits[|hits| - 1]);
    }
  }

  /** Delivering Resets before the countdown runs out keeps the timer alive. */
  lemma {:induction false} ResetsKeepAlive(t: Timer, hits: seq<Instant>, lo: Instant, hi: Instant, x: Instant)
    requires t.running && Ordered(hits, lo, hi)
    requires StartOf(t) <= lo <= hi
    requires hi < t.deadline
    requires if hits == [] then x < t.deadline else x < hits[|hits| - 1] + t.initial * CHUNK
    ensures AliveUntil(t, hits, x)
    decreases |hits|
  {
    if hits != [] {
      var pre := hits[..|hits| - 1];
      ResetsKeepAlive(t, pre, lo, hi, hits[|hits| - 1]);
    }
  }

  // ----- Products -----

  lemma OneMore(m: nat, s: nat)
    ensures (m + 1) * s == m * s + s
  {
  }

  lemma AtMost(m: nat, n: nat, s: nat, t: nat)
    requires m <= n && s <= t
    ensures m * s <= n * t
  {
    assert n * t == m * s + m * (t - s) + (n - m) * t;
  }

  /** n * s, in a form that proofs over runs can count up. */
  function Times(n: nat, s: nat): nat {
    if n == 0 then 0 else Times(n - 1, s) + s
  }

  lemma {:induction false} TimesIs(n: nat, s: nat)
    ensures Times(n, s) == n * s
  {
    if n != 0 {
      TimesIs(n - 1, s);
      OneMore(n - 1, s);
    }
  }

  // ----- Readings -----

  /** `prev` is a reading, in seconds, of the countdown `t` sampled at `x`. */
  predicate ReadingOf(t: Timer, prev: nat, x: Instant) {
    t.running && x < t.deadline && Present(t, x) / 10 == prev
  }

  /** Two readings of the same running countdown whose samples lie at least a
      second apart always differ in whole seconds. */
  lemma ReadingsDiffer(t: Timer, x: Instant, y: Instant)
    requires t.running && x + SECOND <= y <= t.deadline
    ensures Present(t, y) / 10 < Present(t, x) / 10
  {
    var a, b := t.deadline - x, t.deadline - y;
    assert (a + CHUNK - 1) / CHUNK >= (b + SECOND + CHUNK - 1) / CHUNK == (b + CHUNK - 1) / CHUNK + 10;
  }
}
