/** Where the committed timer queue parts from the laws of TimerLaws, and exactly when. */
module TimerDepartures {
  import opened Variants
  import opened Timers

  // ---------- the scan ----------

  /** The committed scan looks at one timer, the one with the lowest address.  It takes every expired timer exactly
      when no other timer has expired. */
  lemma ScanTakesAllExactlyWhen(s: State, now: int)
    requires s.Shape() && Sorted(AsWritten, s.timers, s.queue)
    ensures (forall x: nat | x in s.queue && Expiration(s, x) <= now :: x in Batch(AsWritten, s, now))
       <==> (forall i | 1 <= i < |s.queue| :: Expiration(s, s.queue[i]) > now)
  {
    forall i | 1 <= i < |s.queue| ensures s.queue[i] in s.queue && s.queue[i] != s.queue[0] {
      assert Less(AsWritten, s.timers, s.queue[0], s.queue[i]);
    }
    forall x: nat | x in Batch(AsWritten, s, now) ensures x == s.queue[0] {
    }
  }

  // ---------- the armed deadline ----------

  ghost predicate ArmedForMinimum(s: State)
    requires s.Shape()
  {
    s.queue != [] ==>
      s.armed.At? && (exists x: nat | x in s.queue :: Expiration(s, x) == s.armed.when) && NoneBefore(s, s.armed.when)
  }

  ghost predicate NoneBefore(s: State, when: int)
    requires s.Shape()
  {
    forall x: nat | x in s.queue :: when <= Expiration(s, x)
  }

  /** add_timer compares with, and arms for, the timer with the lowest address.  It keeps the deadline at the earliest
      expiration exactly when the set was empty, or the new timer expires no earlier than that timer, or it takes that
      timer's place and expires no later than any other. */
  lemma AddArmsMinimumExactlyWhen(s: State, id: nat)
    requires s.Shape() && Sorted(AsWritten, s.timers, s.queue) && id < |s.timers| && id !in s.queue
        && ArmedForMinimum(s)
    ensures ArmedForMinimum(AddTimer(AsWritten, s, id))
       <==> (s.queue == []
             || Expiration(s, id) >= Expiration(s, s.queue[0])
             || (id < s.queue[0] && NoneBefore(s, Expiration(s, id))))
  {
    var n := AddTimer(AsWritten, s, id);
    assert id in n.queue;
    if s.queue != [] {
      assert s.queue[0] in s.queue && id != s.queue[0];
      assert n.queue[0] == if id < s.queue[0] then id else s.queue[0];
    }
  }

  /** Two timers, the later one at the lower address: the deadline stays at 10 although a timer expires at 5. */
  lemma AddressOrderArmsLate()
    ensures var s := State([Kind(0, true), Kind(0, true)], [Timer(10, true), Timer(5, false)], [0], {}, At(10), [],
                           false);
      s.Shape() && ArmedForMinimum(s)
      && AddTimer(AsWritten, s, 1).armed == At(10) && AddTimer(AsWritten, s, 1).queue == [0, 1]
  {
    var s := State([Kind(0, true), Kind(0, true)], [Timer(10, true), Timer(5, false)], [0], {}, At(10), [], false);
    assert 0 in s.queue && Expiration(s, 0) == 10;
    assert Insert(AsWritten, s.timers, [], 1) == [1];
    assert s.queue[1..] == [];
    assert Insert(AsWritten, s.timers, s.queue, 1) == [0] + [1];
  }

  /** cancel arms for the lowest address that is left, if it took the lowest away, and else leaves the deadline alone.
      It keeps the deadline at the earliest expiration exactly when nothing is left, or the lowest address that takes
      over is the earliest, or, behind the front, another timer expires at the deadline as well. */
  lemma CancelArmsMinimumExactlyWhen(s: State, id: nat)
    requires s.Shape() && Sorted(AsWritten, s.timers, s.queue) && id in s.queue && ArmedForMinimum(s)
    ensures var rest := Erase(s.queue, id);
      InRange(s.timers, rest)
      && (ArmedForMinimum(CancelQueued(s, id))
          <==> (rest == []
                || (id == s.queue[0] && forall x: nat | x in rest :: Expiration(s, rest[0]) <= Expiration(s, x))
                || (id != s.queue[0] && exists x: nat | x in rest :: Expiration(s, x) == s.armed.when)))
  {
    var rest, n := Erase(s.queue, id), CancelQueued(s, id);
    EraseSorted(AsWritten, s.timers, s.queue, id);
    assert n.queue == rest && n.timers == s.timers;
    ArmedAfterRemoval(s, n, id);
  }

  lemma ArmedAfterRemoval(s: State, n: State, id: nat)
    requires s.Shape() && n.Shape() && n.timers == s.timers && id in s.queue && ArmedForMinimum(s)
    requires forall x: nat :: x in n.queue <==> x in s.queue && x != id
    requires n.queue != [] ==> n.armed == if id == s.queue[0] then At(Expiration(s, n.queue[0])) else s.armed
    ensures ArmedForMinimum(n)
       <==> (n.queue == []
             || (id == s.queue[0] && forall x: nat | x in n.queue :: Expiration(s, n.queue[0]) <= Expiration(s, x))
             || (id != s.queue[0] && exists x: nat | x in n.queue :: Expiration(s, x) == s.armed.when))
  {
    if n.queue != [] {
      assert n.queue[0] in n.queue;
      assert forall x: nat :: x in n.queue ==> Expiration(n, x) == Expiration(s, x);
    }
  }

  /** Expirations 7, 10 and 8 at addresses 0, 1 and 2: cancelling the first arms for 10. */
  lemma CancelArmsLate()
    ensures var s := State(seq(3, i => Kind(0, true)), [Timer(7, true), Timer(10, true), Timer(8, true)], [0, 1, 2], {},
                           At(7), [], false);
      s.Shape() && ArmedForMinimum(s)
      && CancelQueued(s, 0).queue == [1, 2] && CancelQueued(s, 0).armed == At(10)
  {
    var s := State(seq(3, i => Kind(0, true)), [Timer(7, true), Timer(10, true), Timer(8, true)], [0, 1, 2], {},
                   At(7), [], false);
    assert 0 in s.queue && Expiration(s, 0) == 7;
  }

  // ---------- the first expiration ----------

  /** connection::start starts a repeater whose expiration was never set, so it is the epoch of the clock.  Whatever its
      interval, the committed queue takes it for due from the start: alone in the set, it fires at the first timeout. */
  lemma NeverSetIsDueAtOnce(s: State, id: nat, now: int, later: int)
    requires s.Shape() && id < |s.timers| && s.timers[id] == Timer(0, false) && s.kinds[id].Repeats()
    requires s.queue == [] && 0 <= now <= later
    ensures var n := Start(AsWritten, s, id, now);
      FiresFront(n, later) && Batch(AsWritten, n, later) == [id] && Expiration(n, id) < now + s.kinds[id].interval
  {
    var n := Start(AsWritten, s, id, now);
    assert n.queue == [id];
  }

  // ---------- the running flag ----------

  ghost predicate FlagsAgree(s: State)
    requires s.Shape()
  {
    forall x: nat | x < |s.timers| :: s.timers[x].running <==> x in s.queue
  }

  /** A state in which the committed queue works as meant: the set ordered by address, and the flags in agreement. */
  ghost predicate Healthy(s: State) {
    s.Shape() && !s.fault && Sorted(AsWritten, s.timers, s.queue) && FlagsAgree(s)
  }

  /** The timer a timeout fires: the front, when it has expired. */
  predicate FiresFront(s: State, now: int)
    requires s.Shape()
  {
    s.queue != [] && Expiration(s, s.queue[0]) <= now
  }

  /** The queued timers whose m_id is dead. */
  function Dangling(s: State): set<nat> {
    set x | x in s.stale && x in s.queue
  }

  /** A cancel that goes through a dead iterator while `id` fires: of `id` itself, or of a timer in `dangling`. */
  predicate Dangles(op: Op, id: nat, dangling: set<nat>) {
    op.CancelOp? && (op.id == id || op.id in dangling)
  }

  predicate SomeDangles(ops: seq<Op>, id: nat, dangling: set<nat>) {
    exists k :: 0 <= k < |ops| && Dangles(ops[k], id, dangling)
  }

  /** The guard of a committed timeout: it calls a callback that makes such a cancel. */
  predicate CallbackDangles(s: State, now: int, script: nat -> seq<Op>)
    requires s.Shape()
  {
    FiresFront(s, now) && s.kinds[s.queue[0]].handler && SomeDangles(script(s.queue[0]), s.queue[0], Dangling(s))
  }

  /** While the callback of `id` runs: `id` is out of the set with its flag still up, and the rest agrees. */
  ghost predicate Firing(t: State, id: nat, dangling: set<nat>) {
    && t.Shape() && !t.fault && Sorted(AsWritten, t.timers, t.queue)
    && id < |t.timers| && t.timers[id].running && id !in t.queue
    && (forall x: nat | x < |t.timers| && x != id :: t.timers[x].running <==> x in t.queue)
    && (forall x: nat :: x in dangling <==> x in t.stale && x in t.queue)
  }

  lemma FiringStart(t: State, id: nat, dangling: set<nat>, x: nat, at: int)
    requires Firing(t, id, dangling) && x < |t.timers|
    ensures Firing(Start(AsWritten, t, x, at), id, dangling)
  {
    if !t.timers[x].running {
      var n, when := Start(AsWritten, t, x, at), Expiration(t, x);
      var ts := t.timers[x := Timer(when, false)];
      SortedFrame(AsWritten, t.timers, ts, t.queue);
      InsertSorted(AsWritten, ts, t.queue, x);
      assert n.queue == Insert(AsWritten, ts, t.queue, x);
      SortedFrame(AsWritten, ts, n.timers, n.queue);
    }
  }

  lemma FiringCancel(t: State, id: nat, dangling: set<nat>, x: nat)
    requires Firing(t, id, dangling) && x < |t.timers|
    ensures var n := Cancel(AsWritten, t, x);
      if x == id || x in dangling then n.fault else Firing(n, id, dangling)
  {
    if t.timers[x].running && x != id && x !in dangling {
      var n := Cancel(AsWritten, t, x);
      EraseSorted(AsWritten, t.timers, t.queue, x);
      assert n.queue == Erase(t.queue, x);
      SortedFrame(AsWritten, t.timers, n.timers, n.queue);
    }
  }

  /** Starts and cancels of a callback, in any order, fault exactly when one of the cancels dangles; until then they
      keep the flags in agreement. */
  lemma {:induction false} CallbackOutcome(t: State, ops: seq<Op>, id: nat, dangling: set<nat>)
    requires Firing(t, id, dangling)
    ensures var n := DoAll(AsWritten, t, ops);
      if SomeDangles(ops, id, dangling) then n.fault else Firing(n, id, dangling)
    decreases |ops|
  {
    if ops != [] {
      var op, n := ops[0], Do(AsWritten, t, ops[0]);
      assert Dangles(op, id, dangling) ==> op.id < |t.timers|;
      if op.id < |t.timers| {
        match op {
          case StartOp(x, at) => FiringStart(t, id, dangling, x, at);
          case CancelOp(x) => FiringCancel(t, id, dangling, x);
        }
      }
      assert SomeDangles(ops, id, dangling) <==> Dangles(op, id, dangling) || SomeDangles(ops[1..], id, dangling) by {
        assert forall k | 1 <= k < |ops| :: ops[k] == ops[1..][k - 1];
      }
      if n.fault {
        FaultStays(n, ops[1..]);
      } else {
        CallbackOutcome(n, ops[1..], id, dangling);
      }
    }
  }

  lemma {:induction false} FaultStays(t: State, ops: seq<Op>)
    requires t.Shape() && t.fault
    ensures DoAll(AsWritten, t, ops) == t
    decreases |ops|
  {
    if ops != [] {
      FaultStays(t, ops[1..]);
    }
  }

  lemma BatchOfOne(s: State, now: int)
    requires s.Shape() && Sorted(AsWritten, s.timers, s.queue) && FiresFront(s, now)
    ensures Batch(AsWritten, s, now) == [s.queue[0]]
    ensures var t := TakeBatch(AsWritten, s, now); s.queue == [s.queue[0]] + t.queue && s.queue[0] !in t.queue
  {
    var t := TakeBatch(AsWritten, s, now);
    forall x: nat | x in t.queue ensures x != s.queue[0] {
      var i :| 0 <= i < |t.queue| && t.queue[i] == x;
      assert Less(AsWritten, s.timers, s.queue[0], s.queue[i + 1]);
    }
  }

  /** A committed timeout that fires runs one timer and puts it back. */
  lemma OneShotBatch(s: State, now: int, script: nat -> seq<Op>)
    requires s.Shape() && Sorted(AsWritten, s.timers, s.queue) && FiresFront(s, now)
    ensures var id := s.queue[0];
      HandleTimeout(AsWritten, s, now, script)
      == ArmForFront(Reinsert(AsWritten, Run(AsWritten, TakeBatch(AsWritten, s, now), id, now, script(id)), id, now))
  {
    var id, t := s.queue[0], TakeBatch(AsWritten, s, now);
    BatchOfOne(s, now);
    var r := Run(AsWritten, t, id, now, script(id));
    assert [id][1..] == [];
    assert RunBatch(AsWritten, t, [id], now, script) == RunBatch(AsWritten, r, [], now, script) == r;
    assert ReinsertAll(AsWritten, r, [id], now) == ReinsertAll(AsWritten, Reinsert(AsWritten, r, id, now), [], now);
  }

  /** What is left of a timer that fired: timer::run clears m_running behind the callback, and reset puts repeaters back
      all the same, with their m_id left behind. */
  ghost predicate AfterFiring(s: State, n: State, id: nat)
    requires s.Shape() && n.Shape() && id < |s.timers|
  {
    && n.kinds == s.kinds && |n.timers| == |s.timers| && Sorted(AsWritten, n.timers, n.queue)
    && (n.timers[id].running <==> !s.kinds[id].handler)
    && (id in n.queue <==> s.kinds[id].Repeats())
    && (id in n.queue ==> id in n.stale)
    && forall x: nat | x < |s.timers| && x != id ::
         (n.timers[x].running <==> x in n.queue) && (x in n.stale && x in n.queue <==> x in s.stale && x in s.queue)
  }

  /** The set when the front has just been taken out. */
  lemma TakenFires(s: State, now: int)
    requires Healthy(s) && FiresFront(s, now)
    ensures Firing(TakeBatch(AsWritten, s, now), s.queue[0], Dangling(s) - {s.queue[0]})
  {
    var id, t := s.queue[0], TakeBatch(AsWritten, s, now);
    BatchOfOne(s, now);
    assert id in s.queue;
    assert forall x: nat :: x in s.queue <==> x == id || x in t.queue;
    assert forall i | 0 <= i < |t.queue| :: t.queue[i] == s.queue[i + 1];
  }

  lemma ReinsertOutcome(s: State, r: State, id: nat, now: int, dangling: set<nat>)
    requires s.Shape() && id < |s.timers| && r.kinds == s.kinds && |r.timers| == |s.timers|
    requires r.Shape() && !r.fault && Sorted(AsWritten, r.timers, r.queue) && id !in r.queue
    requires r.timers[id].running <==> !s.kinds[id].handler
    requires forall x: nat | x < |s.timers| && x != id :: r.timers[x].running <==> x in r.queue
    requires forall x: nat | x != id :: x in r.stale && x in r.queue <==> x in s.stale && x in s.queue
    ensures var n := Reinsert(AsWritten, r, id, now); !n.fault && AfterFiring(s, n, id)
  {
    var n := Reinsert(AsWritten, r, id, now);
    if s.kinds[id].Repeats() {
      SortedFrame(AsWritten, r.timers, n.timers, r.queue);
      InsertSorted(AsWritten, n.timers, r.queue, id);
    }
  }

  /** timer::run on the timer just taken out, with a handler. */
  lemma RunOutcome(t: State, id: nat, now: int, ops: seq<Op>, dangling: set<nat>)
    requires Firing(t, id, dangling)
    ensures var r := Run(AsWritten, t, id, now, ops);
      if t.kinds[id].handler && SomeDangles(ops, id, dangling) then r.fault
      else
        && !r.fault && Sorted(AsWritten, r.timers, r.queue) && id !in r.queue
        && (r.timers[id].running <==> !t.kinds[id].handler)
        && (forall x: nat | x < |t.timers| && x != id :: r.timers[x].running <==> x in r.queue)
        && (forall x: nat :: x in dangling <==> x in r.stale && x in r.queue)
  {
    if t.kinds[id].handler {
      var f := Fire(t, id, now);
      CallbackOutcome(f, ops, id, dangling);
      var d := DoAll(AsWritten, f, ops);
      if !d.fault {
        SortedFrame(AsWritten, d.timers, Stop(d, id).timers, d.queue);
      }
    }
  }

  /** A committed timeout, whatever its callback starts and cancels.  It leaves defined behaviour exactly when the
      callback cancels its own timer, or one that went back into the set before; otherwise the front, if it fired, is
      left as `AfterFiring` says, and every other timer's flag agrees with the set. */
  lemma TimeoutOutcome(s: State, now: int, script: nat -> seq<Op>)
    requires Healthy(s)
    ensures var n := HandleTimeout(AsWritten, s, now, script);
      && (n.fault <==> CallbackDangles(s, now, script))
      && (!n.fault ==> if FiresFront(s, now) then AfterFiring(s, n, s.queue[0]) else Healthy(n) && n.stale == s.stale)
      && (!FiresFront(s, now) ==> n == ArmForFront(s))
  {
    if !FiresFront(s, now) {
      assert Batch(AsWritten, s, now) == [];
      assert TakeBatch(AsWritten, s, now).queue == s.queue;
    } else {
      OneShotBatch(s, now, script);
      TakenFires(s, now);
      hide HandleTimeout, Run, DoAll;
      var id, t, dangling := s.queue[0], TakeBatch(AsWritten, s, now), Dangling(s) - {s.queue[0]};
      var ops := script(id);
      RunOutcome(t, id, now, ops, dangling);
      SameGuard(ops, id, Dangling(s));
      var r := Run(AsWritten, t, id, now, ops);
      if !r.fault {
        ReinsertOutcome(s, r, id, now, dangling);
      }
    }
  }

  lemma SameGuard(ops: seq<Op>, id: nat, dangling: set<nat>)
    ensures SomeDangles(ops, id, dangling - {id}) <==> SomeDangles(ops, id, dangling)
  {
    assert forall op: Op :: Dangles(op, id, dangling - {id}) == Dangles(op, id, dangling);
  }

  /** After a timeout that does not fault, whatever its callback did, the flag agrees with the set exactly when nothing
      fired, or the timer that fired has one of a handler and an interval and not the other. */
  lemma FlagsAgreeExactlyWhen(s: State, now: int, script: nat -> seq<Op>)
    requires Healthy(s) && !CallbackDangles(s, now, script)
    ensures FlagsAgree(HandleTimeout(AsWritten, s, now, script))
       <==> !FiresFront(s, now) || s.kinds[s.queue[0]].handler != s.kinds[s.queue[0]].Repeats()
  {
    hide HandleTimeout;
    TimeoutOutcome(s, now, script);
    if FiresFront(s, now) {
      assert s.queue[0] < |s.timers|;
    }
  }

  /** After such a timeout a cancel erases through a dead iterator exactly when it is for the timer that fired and that
      timer has no handler, or for another timer that went back into the set before. */
  lemma CancelAfterTimeoutFaultsExactlyWhen(s: State, now: int, script: nat -> seq<Op>, id: nat)
    requires Healthy(s) && !CallbackDangles(s, now, script) && id < |s.timers|
    ensures Cancel(AsWritten, HandleTimeout(AsWritten, s, now, script), id).fault
       <==> if FiresFront(s, now) && id == s.queue[0] then !s.kinds[id].handler else id in Dangling(s)
  {
    hide HandleTimeout;
    TimeoutOutcome(s, now, script);
  }

  /** connection::handle_timeout cancels the timer that is firing.  In the committed code the set no longer holds it, so
      the cancel erases through a dead iterator, whatever else the callback does. */
  lemma SelfCancelFaults(s: State, now: int, script: nat -> seq<Op>)
    requires Healthy(s) && FiresFront(s, now) && s.kinds[s.queue[0]].handler
        && CancelOp(s.queue[0]) in script(s.queue[0])
    ensures HandleTimeout(AsWritten, s, now, script).fault
  {
    TimeoutOutcome(s, now, script);
    var ops, id := script(s.queue[0]), s.queue[0];
    var k :| 0 <= k < |ops| && ops[k] == CancelOp(id);
    assert Dangles(ops[k], id, Dangling(s));
  }

  /** A repeater with a handler that has fired is queued and not running; starting it again inserts it twice, which
      the assert behind the insertion does not survive. */
  lemma RestartAfterFiringFaults(s: State, id: nat, now: int)
    requires s.Shape() && id < |s.timers| && id in s.queue && !s.timers[id].running
    ensures Start(AsWritten, s, id, now).fault
  {
    assert id in Set(s, id, Timer(Expiration(s, id), false)).queue;
  }

  // ---------- the deadline after a timeout ----------

  function Queued(s: State): set<nat> {
    set x | x in s.queue
  }

  /** What one start or cancel of a callback makes of the set of queued timers, while `id` fires. */
  function OpLeaves(op: Op, q: set<nat>, id: nat, count: nat): (r: set<nat>)
    ensures (forall x: nat | x in q :: x < count) ==> forall x: nat | x in r :: x < count
  {
    match op
    case StartOp(x, _) => if x < count && x != id then q + {x} else q
    case CancelOp(x) => q - {x}
  }

  function OpsLeave(ops: seq<Op>, q: set<nat>, id: nat, count: nat): (r: set<nat>)
    ensures (forall x: nat | x in q :: x < count) ==> forall x: nat | x in r :: x < count
    decreases |ops|
  {
    if ops == [] then q else OpsLeave(ops[1..], OpLeaves(ops[0], q, id, count), id, count)
  }

  /** The timers queued after a committed timeout, read off the state before it and the callback. */
  function LeftBehind(s: State, now: int, script: nat -> seq<Op>): (r: set<nat>)
    requires s.Shape()
    ensures forall x: nat | x in r :: x < |s.timers|
  {
    assert forall x: nat | x in s.queue :: x < |s.timers|;
    if !FiresFront(s, now) then Queued(s)
    else
      var id := s.queue[0];
      var rest := Queued(s) - {id};
      var left := if s.kinds[id].handler then OpsLeave(script(id), rest, id, |s.timers|) else rest;
      if s.kinds[id].Repeats() then left + {id} else left
  }

  /** And their expirations: starts and cancels change none. */
  function ExpirationAfter(s: State, now: int, x: nat): int
    requires s.Shape() && x < |s.timers|
  {
    if FiresFront(s, now) && x == s.queue[0] then now + s.kinds[x].interval else Expiration(s, x)
  }

  /** The guard: of the timers left behind, the one at the lowest address is the earliest. */
  ghost predicate LowestIsEarliest(s: State, now: int, script: nat -> seq<Op>)
    requires s.Shape()
  {
    var left := LeftBehind(s, now, script);
    forall f: nat, x: nat | f in left && x in left && IsLowest(left, f) ::
      ExpirationAfter(s, now, f) <= ExpirationAfter(s, now, x)
  }

  ghost predicate IsLowest(q: set<nat>, f: nat) {
    forall x: nat | x in q :: f <= x
  }

  lemma OpQueue(t: State, op: Op, id: nat, dangling: set<nat>)
    requires Firing(t, id, dangling) && !Dangles(op, id, dangling)
    ensures var n := Do(AsWritten, t, op);
      && Queued(n) == OpLeaves(op, Queued(t), id, |t.timers|)
      && forall x: nat | x < |t.timers| :: Expiration(n, x) == Expiration(t, x)
  {
    assert forall x: nat | x in t.queue :: x < |t.timers|;
    if op.id < |t.timers| {
      match op {
        case StartOp(x, at) =>
        case CancelOp(x) => EraseSorted(AsWritten, t.timers, t.queue, x);
      }
    }
  }

  lemma {:induction false} CallbackQueue(t: State, ops: seq<Op>, id: nat, dangling: set<nat>)
    requires Firing(t, id, dangling) && !SomeDangles(ops, id, dangling)
    ensures var n := DoAll(AsWritten, t, ops);
      && Queued(n) == OpsLeave(ops, Queued(t), id, |t.timers|)
      && forall x: nat | x < |t.timers| :: Expiration(n, x) == Expiration(t, x)
    decreases |ops|
  {
    hide Do, OpLeaves, Dangles;
    if ops != [] {
      assert !Dangles(ops[0], id, dangling) && forall k | 0 <= k < |ops[1..]| :: ops[1..][k] == ops[k + 1];
      OpQueue(t, ops[0], id, dangling);
      OpKeepsFiring(t, ops[0], id, dangling);
      CallbackQueue(Do(AsWritten, t, ops[0]), ops[1..], id, dangling);
    }
  }

  lemma OpKeepsFiring(t: State, op: Op, id: nat, dangling: set<nat>)
    requires Firing(t, id, dangling) && !Dangles(op, id, dangling)
    ensures Firing(Do(AsWritten, t, op), id, dangling)
  {
    if op.id < |t.timers| {
      match op {
        case StartOp(x, at) => FiringStart(t, id, dangling, x, at);
        case CancelOp(x) => FiringCancel(t, id, dangling, x);
      }
    }
  }

  /** What timer::run leaves of the set and the expirations. */
  lemma RunQueue(t: State, id: nat, now: int, ops: seq<Op>, dangling: set<nat>)
    requires Firing(t, id, dangling) && (t.kinds[id].handler ==> !SomeDangles(ops, id, dangling))
    ensures var r := Run(AsWritten, t, id, now, ops);
      && Queued(r) == (if t.kinds[id].handler then OpsLeave(ops, Queued(t), id, |t.timers|) else Queued(t))
      && forall x: nat | x < |t.timers| :: Expiration(r, x) == Expiration(t, x)
  {
    hide DoAll;
    if t.kinds[id].handler {
      var f := Fire(t, id, now);
      assert Firing(f, id, dangling) && Queued(f) == Queued(t);
      CallbackQueue(f, ops, id, dangling);
      var d, r := DoAll(AsWritten, f, ops), Run(AsWritten, t, id, now, ops);
      assert !t.fault && r == Stop(d, id);
      assert forall x: nat | x < |t.timers| :: Expiration(r, x) == Expiration(d, x) == Expiration(f, x);
    }
  }

  lemma ReinsertQueue(r: State, id: nat, now: int)
    requires r.Shape() && !r.fault && id < |r.timers| && id !in r.queue
    ensures var n := Reinsert(AsWritten, r, id, now);
      && Queued(n) == (if r.kinds[id].Repeats() then Queued(r) + {id} else Queued(r))
      && (r.kinds[id].Repeats() ==> Expiration(n, id) == now + r.kinds[id].interval)
      && forall x: nat | x < |r.timers| && x != id :: Expiration(n, x) == Expiration(r, x)
  {
  }

  /** The set and the expirations after any committed timeout that does not fault. */
  lemma TimeoutLeaves(s: State, now: int, script: nat -> seq<Op>)
    requires Healthy(s) && !CallbackDangles(s, now, script)
    ensures var n := HandleTimeout(AsWritten, s, now, script);
      && Queued(n) == LeftBehind(s, now, script)
      && (forall x: nat | x in LeftBehind(s, now, script) :: Expiration(n, x) == ExpirationAfter(s, now, x))
      && (n.queue != [] ==> n.armed == At(Expiration(n, n.queue[0])))
  {
    if !FiresFront(s, now) {
      hide HandleTimeout;
      TimeoutOutcome(s, now, script);
    } else {
      var r := FiredLeaves(s, now, script);
      hide HandleTimeout, Reinsert, LeftBehind, ExpirationAfter, Healthy;
      var n, m := HandleTimeout(AsWritten, s, now, script), Reinsert(AsWritten, r, s.queue[0], now);
      assert n == ArmForFront(m) && n.timers == m.timers && n.queue == m.queue;
    }
  }

  lemma FiredLeaves(s: State, now: int, script: nat -> seq<Op>) returns (r: State)
    requires Healthy(s) && !CallbackDangles(s, now, script) && FiresFront(s, now)
    ensures r.Shape() && |r.timers| == |s.timers|
    ensures HandleTimeout(AsWritten, s, now, script) == ArmForFront(Reinsert(AsWritten, r, s.queue[0], now))
    ensures var m := Reinsert(AsWritten, r, s.queue[0], now);
      && Queued(m) == LeftBehind(s, now, script) && |m.timers| == |s.timers|
      && forall x: nat | x in LeftBehind(s, now, script) :: Expiration(m, x) == ExpirationAfter(s, now, x)
  {
    hide HandleTimeout, Run, Reinsert, OpsLeave, FlagsAgree;
    var id, t, dangling := s.queue[0], TakeBatch(AsWritten, s, now), Dangling(s) - {s.queue[0]};
    BatchOfOne(s, now);
    OneShotBatch(s, now, script);
    TakenFires(s, now);
    SameGuard(script(id), id, Dangling(s));
    hide Batch;
    assert Queued(t) == Queued(s) - {id};
    RunQueue(t, id, now, script(id), dangling);
    RunOutcome(t, id, now, script(id), dangling);
    r := Run(AsWritten, t, id, now, script(id));
    ReinsertQueue(r, id, now);
    var m := Reinsert(AsWritten, r, id, now);
    assert id !in Queued(r);
    forall x: nat | x in LeftBehind(s, now, script) ensures Expiration(m, x) == ExpirationAfter(s, now, x) {
      assert x < |t.timers| && Expiration(r, x) == Expiration(t, x) == Expiration(s, x);
    }
  }

  lemma ArmedForLowest(n: State)
    requires n.Shape() && Sorted(AsWritten, n.timers, n.queue)
    requires n.queue != [] ==> n.armed == At(Expiration(n, n.queue[0]))
    ensures ArmedForMinimum(n)
       <==> forall f: nat, x: nat | f in Queued(n) && x in Queued(n) && IsLowest(Queued(n), f) ::
              Expiration(n, f) <= Expiration(n, x)
  {
    if n.queue != [] {
      var f := n.queue[0];
      assert f in Queued(n);
      forall x: nat | x in Queued(n) ensures f <= x {
        var i :| 0 <= i < |n.queue| && n.queue[i] == x;
        assert i > 0 ==> Less(AsWritten, n.timers, n.queue[0], n.queue[i]);
      }
      assert IsLowest(Queued(n), f);
      assert forall g: nat | g in Queued(n) && IsLowest(Queued(n), g) :: g == f;
    }
  }

  /** A committed timeout arms for the lowest address.  Whatever its callback starts and cancels, that is the earliest
      expiration exactly when, of the timers the callback leaves queued and a returning repeater, the lowest address is
      the earliest. */
  lemma TimeoutArmsMinimumExactlyWhen(s: State, now: int, script: nat -> seq<Op>)
    requires Healthy(s) && !CallbackDangles(s, now, script)
    ensures ArmedForMinimum(HandleTimeout(AsWritten, s, now, script)) <==> LowestIsEarliest(s, now, script)
  {
    hide HandleTimeout, LeftBehind, ExpirationAfter;
    var n := HandleTimeout(AsWritten, s, now, script);
    TimeoutLeaves(s, now, script);
    SortedAfterTimeout(s, now, script);
    ArmedForLowest(n);
  }

  lemma SortedAfterTimeout(s: State, now: int, script: nat -> seq<Op>)
    requires Healthy(s) && !CallbackDangles(s, now, script)
    ensures var n := HandleTimeout(AsWritten, s, now, script);
      |n.timers| == |s.timers| && Sorted(AsWritten, n.timers, n.queue)
  {
    hide HandleTimeout;
    TimeoutOutcome(s, now, script);
  }

  /** In particular for a callback that leaves the queue alone: no timer left behind may expire before the front that is
      left, or before the repeater that returns to the front. */
  lemma QuietTimeoutArmsMinimumExactlyWhen(s: State, now: int, script: nat -> seq<Op>)
    requires Healthy(s) && (FiresFront(s, now) ==> script(s.queue[0]) == [])
    ensures ArmedForMinimum(HandleTimeout(AsWritten, s, now, script))
       <==> if !FiresFront(s, now) then s.queue == [] || NoneBefore(s, Expiration(s, s.queue[0]))
            else if s.kinds[s.queue[0]].Repeats() then
              forall x: nat | x in s.queue[1..] :: now + s.kinds[s.queue[0]].interval <= Expiration(s, x)
            else forall x: nat | x in s.queue[1..] :: Expiration(s, s.queue[1]) <= Expiration(s, x)
  {
    TimeoutArmsMinimumExactlyWhen(s, now, script);
    QuietGuard(s, now, script);
  }

  lemma SortedIsLowest(s: State, q: seq<nat>)
    requires Healthy(s) && InRange(s.timers, q) && q != [] && Sorted(AsWritten, s.timers, q)
    ensures forall x: nat | x in q :: q[0] <= x
  {
    forall x: nat | x in q ensures q[0] <= x {
      var i :| 0 <= i < |q| && q[i] == x;
      assert i > 0 ==> Less(AsWritten, s.timers, q[0], q[i]);
    }
  }

  lemma QuietGuard(s: State, now: int, script: nat -> seq<Op>)
    requires Healthy(s) && (FiresFront(s, now) ==> script(s.queue[0]) == [])
    ensures LowestIsEarliest(s, now, script)
       <==> if !FiresFront(s, now) then s.queue == [] || NoneBefore(s, Expiration(s, s.queue[0]))
            else if s.kinds[s.queue[0]].Repeats() then
              forall x: nat | x in s.queue[1..] :: now + s.kinds[s.queue[0]].interval <= Expiration(s, x)
            else forall x: nat | x in s.queue[1..] :: Expiration(s, s.queue[1]) <= Expiration(s, x)
  {
    if s.queue != [] {
      var id, rest := s.queue[0], s.queue[1..];
      QuietLeft(s, now, script);
      hide LeftBehind, Healthy;
      var left := LeftBehind(s, now, script);
      if !FiresFront(s, now) || s.kinds[id].Repeats() {
        GuardOfLowest(s, now, script, id);
      } else if rest != [] {
        GuardOfLowest(s, now, script, rest[0]);
      }
    }
  }

  lemma QuietLeft(s: State, now: int, script: nat -> seq<Op>)
    requires Healthy(s) && s.queue != [] && (FiresFront(s, now) ==> script(s.queue[0]) == [])
    ensures var left, id, rest := LeftBehind(s, now, script), s.queue[0], s.queue[1..];
      && (forall x: nat | x in rest :: x < |s.timers| && x != id)
      && (forall x: nat :: x in s.queue <==> x == id || x in rest)
      && (if !FiresFront(s, now) || s.kinds[id].Repeats() then
            (forall x: nat :: x in left <==> x == id || x in rest) && IsLowest(left, id)
          else
            (forall x: nat :: x in left <==> x in rest) && (rest != [] ==> IsLowest(left, rest[0])))
  {
    var id, rest := s.queue[0], s.queue[1..];
    SortedIsLowest(s, s.queue);
    assert s.queue == [id] + rest;
    forall j | 0 <= j < |rest| ensures rest[j] == s.queue[j + 1] && rest[j] != id {
      assert Less(AsWritten, s.timers, s.queue[0], s.queue[j + 1]);
    }
    if rest != [] {
      SortedIsLowest(s, rest);
    }
  }

  /** Read at its lowest timer. */
  lemma GuardOfLowest(s: State, now: int, script: nat -> seq<Op>, f: nat)
    requires s.Shape() && f in LeftBehind(s, now, script) && IsLowest(LeftBehind(s, now, script), f)
    ensures LowestIsEarliest(s, now, script)
       <==> forall x: nat | x in LeftBehind(s, now, script) :: ExpirationAfter(s, now, f) <= ExpirationAfter(s, now, x)
  {
    hide LeftBehind, ExpirationAfter;
    var left := LeftBehind(s, now, script);
    assert forall g: nat | g in left && IsLowest(left, g) :: g == f;
  }

  /** Three one-shots, expiring at 5, 10 and 8, at addresses 0, 1 and 2. */
  function Crossed(): (s: State)
    ensures s.Shape() && |s.timers| == 3 && s.queue == [0] + [1, 2] && s.armed == At(5) && !s.kinds[0].Repeats()
    ensures Expiration(s, 0) == 5 && Expiration(s, 1) == 10 && Expiration(s, 2) == 8
  {
    State(seq(3, i => Kind(0, true)), [Timer(5, true), Timer(10, true), Timer(8, true)], [0] + [1, 2], {},
          At(5), [], false)
  }

  lemma CrossedIsHealthy()
    ensures Healthy(Crossed()) && ArmedForMinimum(Crossed())
  {
    assert 0 in Crossed().queue;
  }

  /** Firing the first of them arms for 10, although one expires at 8. */
  lemma TimeoutArmsLate(script: nat -> seq<Op>)
    requires script(0) == []
    ensures Healthy(Crossed()) && ArmedForMinimum(Crossed())
    ensures !ArmedForMinimum(HandleTimeout(AsWritten, Crossed(), 5, script))
  {
    CrossedIsHealthy();
    hide HandleTimeout, Crossed, Healthy, ArmedForMinimum;
    var s := Crossed();
    QuietTimeoutArmsMinimumExactlyWhen(s, 5, script);
    assert s.queue[1..] == [1, 2];
    assert 2 in s.queue[1..];
  }

  // ---------- whole runs ----------

  /** The guard of one step, read off the state before it. */
  predicate StaysHealthy(s: State, e: Event)
    requires s.Shape()
  {
    match e
    case Call(StartOp(_, _)) => true
    case Call(CancelOp(id)) => id !in Dangling(s)
    case Timeout(now, script) =>
      FiresFront(s, now) ==>
        !CallbackDangles(s, now, script) && s.kinds[s.queue[0]].handler != s.kinds[s.queue[0]].Repeats()
  }

  lemma CallHealthyExactlyWhen(s: State, op: Op)
    requires Healthy(s)
    ensures Healthy(Do(AsWritten, s, op)) <==> StaysHealthy(s, Call(op))
  {
    var n := Do(AsWritten, s, op);
    if op.id >= |s.timers| {
      assert forall x: nat | x in s.queue :: x < |s.timers|;
    } else if op.StartOp? && !s.timers[op.id].running {
      var ts := s.timers[op.id := Timer(Expiration(s, op.id), false)];
      SortedFrame(AsWritten, s.timers, ts, s.queue);
      InsertSorted(AsWritten, ts, s.queue, op.id);
      assert n.queue == Insert(AsWritten, ts, s.queue, op.id);
      SortedFrame(AsWritten, ts, n.timers, n.queue);
    } else if op.CancelOp? && s.timers[op.id].running && op.id !in s.stale {
      EraseSorted(AsWritten, s.timers, s.queue, op.id);
      assert n.queue == Erase(s.queue, op.id);
      SortedFrame(AsWritten, s.timers, n.timers, n.queue);
    }
  }

  lemma StepHealthyExactlyWhen(s: State, e: Event)
    requires Healthy(s)
    ensures Healthy(Step(AsWritten, s, e)) <==> StaysHealthy(s, e)
  {
    match e {
      case Call(op) => CallHealthyExactlyWhen(s, op);
      case Timeout(now, script) =>
        hide HandleTimeout;
        TimeoutOutcome(s, now, script);
        if !CallbackDangles(s, now, script) {
          FlagsAgreeExactlyWhen(s, now, script);
        }
    }
  }

  /** Healthy in every state of a run. */
  ghost predicate HealthyThroughout(s: State, es: seq<Event>)
    requires s.Shape()
    decreases |es|
  {
    Healthy(s) && (es == [] || HealthyThroughout(Step(AsWritten, s, es[0]), es[1..]))
  }

  /** Every step of a run meets its guard. */
  ghost predicate StaysHealthyThroughout(s: State, es: seq<Event>)
    requires s.Shape()
    decreases |es|
  {
    es == [] || (StaysHealthy(s, es[0]) && StaysHealthyThroughout(Step(AsWritten, s, es[0]), es[1..]))
  }

  /** Under every interleaving of start, cancel, firing and repeat: the committed queue stays in defined behaviour with
      its flags in agreement exactly as long as no cancel is for a timer that went back into the set, no callback
      cancels such a timer or its own, and every timer that fires has a handler or an interval but not both. */
  lemma {:induction false} RunHealthyExactlyWhen(s: State, es: seq<Event>)
    requires Healthy(s)
    ensures HealthyThroughout(s, es) <==> StaysHealthyThroughout(s, es)
    decreases |es|
  {
    if es != [] {
      StepHealthyExactlyWhen(s, es[0]);
      if StaysHealthy(s, es[0]) {
        RunHealthyExactlyWhen(Step(AsWritten, s, es[0]), es[1..]);
      }
    }
  }

  /** The guard of one step for the deadline. */
  ghost predicate StaysArmed(s: State, e: Event)
    requires s.Shape()
  {
    match e
    case Call(StartOp(id, _)) => id < |s.timers| && !s.timers[id].running ==> AddsArmed(s, id)
    case Call(CancelOp(id)) => id in s.queue ==> CancelsArmed(s, id)
    case Timeout(now, script) => LowestIsEarliest(s, now, script)
  }

  ghost predicate AddsArmed(s: State, id: nat)
    requires s.Shape() && id < |s.timers|
  {
    s.queue == [] || Expiration(s, id) >= Expiration(s, s.queue[0])
    || (id < s.queue[0] && NoneBefore(s, Expiration(s, id)))
  }

  ghost predicate CancelsArmed(s: State, id: nat)
    requires s.Shape() && id in s.queue
  {
    var rest := Erase(s.queue, id);
    rest == []
    || (rest[0] < |s.timers| && id == s.queue[0]
        && forall x: nat | x in rest && x < |s.timers| :: Expiration(s, rest[0]) <= Expiration(s, x))
    || (id != s.queue[0] && s.armed.At?
        && exists x: nat | x in rest && x < |s.timers| :: Expiration(s, x) == s.armed.when)
  }

  lemma StartArmedExactlyWhen(s: State, id: nat, at: int)
    requires Healthy(s) && ArmedForMinimum(s) && id < |s.timers| && !s.timers[id].running
    ensures ArmedForMinimum(Start(AsWritten, s, id, at)) <==> AddsArmed(s, id)
  {
    hide ArmedForMinimum, NoneBefore, Insert;
    assert id !in s.queue;
    var when := Expiration(s, id);
    var t := Set(s, id, Timer(when, false));
    SortedFrame(AsWritten, s.timers, t.timers, s.queue);
    assert forall x: nat | x < |s.timers| :: Expiration(t, x) == Expiration(s, x);
    SameDeadline(s, t);
    AddArmsMinimumExactlyWhen(t, id);
    SameDeadline(AddTimer(AsWritten, t, id), Start(AsWritten, s, id, at));
  }

  /** Only the set, the expirations and the deadline matter. */
  lemma SameDeadline(s: State, t: State)
    requires s.Shape() && t.Shape() && |t.timers| == |s.timers| && t.queue == s.queue && t.armed == s.armed
    requires forall x: nat | x < |s.timers| :: Expiration(t, x) == Expiration(s, x)
    ensures ArmedForMinimum(t) <==> ArmedForMinimum(s)
    ensures forall when: int :: NoneBefore(t, when) <==> NoneBefore(s, when)
  {
    assert forall x: nat | x in s.queue :: x < |s.timers|;
  }

  lemma CancelArmedExactlyWhen(s: State, id: nat)
    requires Healthy(s) && ArmedForMinimum(s) && id in s.queue && id !in Dangling(s)
    ensures ArmedForMinimum(Cancel(AsWritten, s, id)) <==> CancelsArmed(s, id)
  {
    assert id < |s.timers| && s.timers[id].running;
    CancelArmsMinimumExactlyWhen(s, id);
    var c := CancelQueued(s, id);
    SameDeadline(c, Cancel(AsWritten, s, id));
    var rest := Erase(s.queue, id);
    assert forall x: nat | x in rest :: x in s.queue && x < |s.timers|;
    assert rest != [] ==> rest[0] in rest;
    assert s.queue != [] && s.armed.At?;
  }

  lemma StepArmedExactlyWhen(s: State, e: Event)
    requires Healthy(s) && ArmedForMinimum(s) && StaysHealthy(s, e)
    ensures ArmedForMinimum(Step(AsWritten, s, e)) <==> StaysArmed(s, e)
  {
    assert forall x: nat | x in s.queue :: x < |s.timers| && s.timers[x].running;
    match e {
      case Call(StartOp(id, at)) =>
        if id < |s.timers| && !s.timers[id].running {
          StartArmedExactlyWhen(s, id, at);
        }
      case Call(CancelOp(id)) =>
        if id in s.queue {
          CancelArmedExactlyWhen(s, id);
        }
      case Timeout(now, script) =>
        hide HandleTimeout;
        TimeoutArmsMinimumExactlyWhen(s, now, script);
    }
  }

  ghost predicate ArmedThroughout(s: State, es: seq<Event>)
    requires s.Shape()
    decreases |es|
  {
    ArmedForMinimum(s) && (es == [] || ArmedThroughout(Step(AsWritten, s, es[0]), es[1..]))
  }

  ghost predicate StaysArmedThroughout(s: State, es: seq<Event>)
    requires s.Shape()
    decreases |es|
  {
    es == [] || (StaysArmed(s, es[0]) && StaysArmedThroughout(Step(AsWritten, s, es[0]), es[1..]))
  }

  /** Over every committed run that stays healthy, with callbacks that start and cancel at will: the armed deadline is
      the earliest expiration throughout exactly as long as every addition, every cancel and every timeout meets its
      guard. */
  lemma {:induction false} RunArmedExactlyWhen(s: State, es: seq<Event>)
    requires Healthy(s) && ArmedForMinimum(s) && StaysHealthyThroughout(s, es)
    ensures ArmedThroughout(s, es) <==> StaysArmedThroughout(s, es)
    decreases |es|
  {
    hide StaysHealthy, StaysArmed, ArmedForMinimum, Step, FlagsAgree, Sorted;
    if es != [] {
      StepHealthyExactlyWhen(s, es[0]);
      StepArmedExactlyWhen(s, es[0]);
      if StaysArmed(s, es[0]) {
        RunArmedExactlyWhen(Step(AsWritten, s, es[0]), es[1..]);
      } else {
        assert !ArmedThroughout(Step(AsWritten, s, es[0]), es[1..]);
      }
    }
  }
}
