/** timer/timer_fd.cpp: the timespec a deadline is armed with, and what happens when it expires. */
module TimerFd {
  import opened Variants
  import opened Timers
  import opened TimerLaws

  datatype Timespec = Timespec(sec: int, nsec: int)

  /** The tick steady_clock counts in: the code takes the count for microseconds, common library clocks tick in
      nanoseconds. */
  datatype Tick = Microsecond | Nanosecond

  const BILLION: int := 1_000_000_000

  function Nanos(ts: Timespec): int {
    ts.sec * BILLION + ts.nsec
  }

  function TickNanos(tick: Tick): int {
    if tick.Microsecond? then 1000 else 1
  }

  /** The least delay, 100 microseconds. */
  const MIN_DELAY: int := 100_000

  /** What the descriptor should be armed for, in nanoseconds: the remaining time, but never less than the least
      delay. */
  function Wanted(tick: Tick, when: int, now: int): int {
    var remaining := TickNanos(tick) * (when - now);
    if remaining < MIN_DELAY then MIN_DELAY else remaining
  }

  /** how_much_time_from_now.  The committed code takes the count of ticks for microseconds, and splits it at 1000.
      Repaired: the count is converted by its tick, and split at a second. */
  function HowMuchTimeFromNow(v: Variant, tick: Tick, when: int, now: int): (ts: Timespec)
    ensures 0 <= ts.nsec < BILLION && ts.sec >= 0
  {
    match v
    case AsWritten =>
      var count := if when - now < 100 then 100 else when - now;
      Timespec(count / 1000, count % 1000 * 1000)
    case Repaired =>
      Timespec(Wanted(tick, when, now) / BILLION, Wanted(tick, when, now) % BILLION)
  }

  /** Repaired, the timespec is the wanted delay to the nanosecond, for either tick. */
  lemma RepairedIsExact(tick: Tick, when: int, now: int)
    ensures Nanos(HowMuchTimeFromNow(Repaired, tick, when, now)) == Wanted(tick, when, now)
  {
    var nanos := Wanted(tick, when, now);
    assert nanos == nanos / BILLION * BILLION + nanos % BILLION;
  }

  /** As committed it is the wanted delay only for less than 1000 microseconds, or, when the clock ticks in
      nanoseconds, for no more than 100 of them. */
  lemma CommittedIsExactExactlyWhen(tick: Tick, when: int, now: int)
    ensures Nanos(HowMuchTimeFromNow(AsWritten, tick, when, now)) == Wanted(tick, when, now)
       <==> when - now < 1000 && (tick.Microsecond? || when - now <= 100)
  {
    var count := if when - now < 100 then 100 else when - now;
    assert count == count / 1000 * 1000 + count % 1000;
  }

  /** In every variant and for either tick the timer is armed for at least the wanted delay. */
  lemma NeverEarly(v: Variant, tick: Tick, when: int, now: int)
    ensures Nanos(HowMuchTimeFromNow(v, tick, when, now)) >= Wanted(tick, when, now)
  {
    RepairedIsExact(tick, when, now);
    var count := if when - now < 100 then 100 else when - now;
    assert count == count / 1000 * 1000 + count % 1000;
  }

  /** Wake-ups make progress: when the descriptor armed at `armedAt` for an up-to-date deadline expires at `now`, the
      batch of the repaired queue is not empty. */
  lemma WakeUpFindsWork(v: Variant, s: State, armedAt: int, now: int, tick: Tick)
    requires Quiet(s) && Earliest(s) && s.queue != []
    requires var delay := Nanos(HowMuchTimeFromNow(v, tick, s.armed.when, armedAt));
      TickNanos(tick) * now >= TickNanos(tick) * armedAt + delay
    ensures Batch(Repaired, s, now) != []
  {
    NeverEarly(v, tick, s.armed.when, armedAt);
    assert TickNanos(tick) * (now - armedAt) >= TickNanos(tick) * (s.armed.when - armedAt);
    assert Expiration(s, s.queue[0]) <= now;
  }

  // ---------- expiry ----------

  /** timer_fd::handle_read drains the descriptor; the committed code does not call the callback it was given. */
  function HandleRead(v: Variant, s: State, now: int, script: nat -> seq<Op>): (n: State)
    requires s.Shape()
    ensures n.Shape()
  {
    if v.AsWritten? then s else HandleTimeout(v, s, now, script)
  }

  /** A run as the event loop sees it: calls of start and cancel, and expiries of the descriptor. */
  function Run(v: Variant, s: State, es: seq<Event>): (n: State)
    requires s.Shape()
    ensures n.Shape()
    decreases |es|
  {
    if es == [] then s
    else
      var n := match es[0]
        case Call(op) => Do(v, s, op)
        case Timeout(now, script) => if s.fault then s else HandleRead(v, s, now, script);
      Run(v, n, es[1..])
  }

  ghost predicate NoneFired(log: seq<Entry>) {
    forall k | 0 <= k < |log| :: !log[k].Fired?
  }

  /** In the committed code no timer ever fires, whatever is started and however long the loop runs. */
  lemma {:induction false} CommittedTimersNeverFire(s: State, es: seq<Event>)
    requires s.Shape() && NoneFired(s.log)
    ensures NoneFired(Run(AsWritten, s, es).log)
    decreases |es|
  {
    if es != [] {
      var n := if es[0].Call? then Do(AsWritten, s, es[0].op) else s;
      assert NoneFired(n.log);
      CommittedTimersNeverFire(n, es[1..]);
    }
  }

  /** The repaired code runs every expiry through the queue, so its runs are those of TimerLaws. */
  lemma {:induction false} RepairedRunsAreQueueRuns(s: State, es: seq<Event>)
    requires s.Shape()
    ensures Run(Repaired, s, es) == Steps(Repaired, s, es)
    decreases |es|
  {
    if es != [] {
      RepairedRunsAreQueueRuns(Step(Repaired, s, es[0]), es[1..]);
    }
  }
}
