/** What a run of the repaired timer queue does, told timer by timer: the queue, its batches and its re-entrant
    callbacks refine one two-state automaton per timer that knows nothing of any of them. */
module TimerLaws {
  import opened Variants
  import opened Timers

  /** A single timer as its user thinks of it. */
  datatype Ideal = Idle | Armed(due: int)

  function Next(kind: Kind, i: Ideal, id: nat, e: Entry): Ideal {
    if e.id != id then i
    else match e
      case Started(_, when) => Armed(when)
      case Cancelled(_) => Idle
      case Fired(_, _, now) => if kind.Repeats() then Armed(now + kind.interval) else Idle
  }

  /** The automaton of timer `id` after a history. */
  function IdealOf(kinds: seq<Kind>, log: seq<Entry>, id: nat): Ideal
    requires id < |kinds|
    decreases |log|
  {
    if log == [] then Idle
    else Next(kinds[id], IdealOf(kinds, log[..|log| - 1], id), id, log[|log| - 1])
  }

  /** Start only what is idle, cancel only what is armed, fire only what is due and not before it is due. */
  predicate Allowed(i: Ideal, e: Entry) {
    match e
    case Started(_, _) => i.Idle?
    case Cancelled(_) => i.Armed?
    case Fired(_, due, now) => i == Armed(due) && due <= now
  }

  ghost predicate LogOk(kinds: seq<Kind>, log: seq<Entry>) {
    forall k | 0 <= k < |log| ::
      log[k].id < |kinds| && Allowed(IdealOf(kinds, log[..k], log[k].id), log[k])
  }

  lemma IdealAppend(kinds: seq<Kind>, log: seq<Entry>, e: Entry, id: nat)
    requires id < |kinds|
    ensures IdealOf(kinds, log + [e], id) == Next(kinds[id], IdealOf(kinds, log, id), id, e)
  {
    assert (log + [e])[..|log|] == log;
  }

  lemma LogAppend(kinds: seq<Kind>, log: seq<Entry>, e: Entry)
    requires LogOk(kinds, log) && e.id < |kinds| && Allowed(IdealOf(kinds, log, e.id), e)
    ensures LogOk(kinds, log + [e])
  {
    var l := log + [e];
    forall k | 0 <= k < |l| ensures l[k].id < |kinds| && Allowed(IdealOf(kinds, l[..k], l[k].id), l[k]) {
      assert l[..k] == log[..k];
      if k == |log| {
        assert log[..k] == log;
      }
    }
  }

  // ---------- the invariant ----------

  /** `id` fired or was cancelled since the history was `base` entries long. */
  ghost predicate Handled(log: seq<Entry>, base: nat, id: nat) {
    exists k | base <= k < |log| :: log[k].id == id && !log[k].Started?
  }

  /** One timer while a batch is fired: `todo` are the batch's timers still to run, `done` those that ran or were
      skipped.  Outside a batch both sets are empty, and then a timer runs exactly when it is in the set, with the
      expiration its automaton is armed for. */
  ghost predicate TimerOk(s: State, id: nat, done: set<nat>, todo: set<nat>, now: int, base: nat)
    requires s.Shape() && id < |s.timers|
  {
    var t, i := s.timers[id], IdealOf(s.kinds, s.log, id);
    && (id in s.queue ==> t.running)
    && (!t.running ==> i == Idle)
    && (t.running && id in s.queue ==> i == Armed(t.expiration))
    && (t.running && id !in s.queue ==>
          || (id in todo && i == Armed(t.expiration) && t.expiration <= now)
          || (id in done && s.kinds[id].Repeats() && i == Armed(now + s.kinds[id].interval)))
    && (id in todo ==> (t.running && id !in s.queue) || Handled(s.log, base, id))
    && (id in done ==> Handled(s.log, base, id))
  }

  ghost predicate Ok(s: State, done: set<nat>, todo: set<nat>, now: int, base: nat) {
    && s.Shape() && !s.fault && base <= |s.log| && done !! todo
    && Sorted(Repaired, s.timers, s.queue)
    && LogOk(s.kinds, s.log)
    && forall id: nat | id < |s.timers| :: TimerOk(s, id, done, todo, now, base)
  }

  ghost predicate Quiet(s: State) {
    Ok(s, {}, {}, 0, 0)
  }

  ghost predicate Earliest(s: State)
    requires s.Shape()
  {
    s.queue != [] ==> s.armed == At(Expiration(s, s.queue[0]))
  }

  /** A step that logs `e` and touches only `id` leaves every other timer as it was. */
  lemma OthersKeep(s: State, n: State, id: nat, e: Entry, done: set<nat>, todo: set<nat>, now: int, base: nat, x: nat)
    requires Ok(s, done, todo, now, base) && n.Shape() && n.kinds == s.kinds && |n.timers| == |s.timers|
    requires n.log == s.log + [e] && e.id == id && x < |s.timers| && x != id
    requires n.timers[x] == s.timers[x] && (x in n.queue <==> x in s.queue)
    ensures TimerOk(n, x, done, todo, now, base)
  {
    assert TimerOk(s, x, done, todo, now, base);
    IdealAppend(s.kinds, s.log, e, x);
    HandledGrows(s.log, e, base, x);
  }

  lemma HandledGrows(log: seq<Entry>, e: Entry, base: nat, id: nat)
    requires base <= |log|
    ensures Handled(log, base, id) ==> Handled(log + [e], base, id)
    ensures e.id == id && !e.Started? ==> Handled(log + [e], base, id)
  {
    if Handled(log, base, id) {
      var k :| base <= k < |log| && log[k].id == id && !log[k].Started?;
      assert (log + [e])[k] == log[k];
    }
    if e.id == id && !e.Started? {
      assert (log + [e])[|log|] == e;
    }
  }

  lemma StartKeeps(s: State, id: nat, at: int, done: set<nat>, todo: set<nat>, now: int, base: nat)
    requires Ok(s, done, todo, now, base) && id < |s.timers|
    ensures Ok(Start(Repaired, s, id, at), done, todo, now, base)
  {
    var n := Start(Repaired, s, id, at);
    if !s.timers[id].running {
      assert TimerOk(s, id, done, todo, now, base);
      var when := n.timers[id].expiration;
      var e := Started(id, when);
      var ts := s.timers[id := Timer(when, false)];
      SortedFrame(Repaired, s.timers, ts, s.queue);
      InsertSorted(Repaired, ts, s.queue, id);
      assert n.queue == Insert(Repaired, ts, s.queue, id);
      SortedFrame(Repaired, ts, n.timers, n.queue);
      LogAppend(s.kinds, s.log, e);
      forall x: nat | x < |n.timers| ensures TimerOk(n, x, done, todo, now, base) {
        if x != id {
          OthersKeep(s, n, id, e, done, todo, now, base, x);
        } else {
          IdealAppend(s.kinds, s.log, e, id);
          HandledGrows(s.log, e, base, id);
        }
      }
    }
  }

  lemma CancelKeeps(s: State, id: nat, done: set<nat>, todo: set<nat>, now: int, base: nat)
    requires Ok(s, done, todo, now, base) && id < |s.timers|
    ensures Ok(Cancel(Repaired, s, id), done, todo, now, base)
  {
    var n := Cancel(Repaired, s, id);
    if s.timers[id].running {
      assert TimerOk(s, id, done, todo, now, base);
      var e := Cancelled(id);
      EraseSorted(Repaired, s.timers, s.queue, id);
      assert n.queue == if id in s.queue then Erase(s.queue, id) else s.queue;
      SortedFrame(Repaired, s.timers, n.timers, n.queue);
      LogAppend(s.kinds, s.log, e);
      forall x: nat | x < |n.timers| ensures TimerOk(n, x, done, todo, now, base) {
        if x != id {
          OthersKeep(s, n, id, e, done, todo, now, base, x);
        } else {
          IdealAppend(s.kinds, s.log, e, id);
          HandledGrows(s.log, e, base, id);
        }
      }
    }
  }

  /** Starting, at any point of a batch: a timer that does not run is queued, a repeater for an interval from now and a
      one-shot for the expiration it was set to; one that runs is left alone, and so is every other timer. */
  lemma StartTakesEffect(s: State, id: nat, at: int, done: set<nat>, todo: set<nat>, now: int, base: nat)
    requires Ok(s, done, todo, now, base) && id < |s.timers|
    ensures s.timers[id].running ==> Start(Repaired, s, id, at) == s
    ensures !s.timers[id].running ==>
      var n := Start(Repaired, s, id, at);
      var when := if s.kinds[id].Repeats() then at + s.kinds[id].interval else Expiration(s, id);
      n.timers[id] == Timer(when, true) && id in n.queue && n.log == s.log + [Started(id, when)]
    ensures SameBut(s, Start(Repaired, s, id, at), id)
  {
    assert TimerOk(s, id, done, todo, now, base);
  }

  /** Cancelling, at any point of a batch, also of a timer that was taken out of the set to be fired: it does not run
      and is not queued afterwards, which the history tells if it did run; every other timer is left alone, and so is
      the deadline if none is left. */
  lemma CancelTakesEffect(s: State, id: nat, done: set<nat>, todo: set<nat>, now: int, base: nat)
    requires Ok(s, done, todo, now, base) && id < |s.timers|
    ensures var n := Cancel(Repaired, s, id);
      && !n.timers[id].running && id !in n.queue && IdealOf(n.kinds, n.log, id) == Idle
      && n.log == (if s.timers[id].running then s.log + [Cancelled(id)] else s.log)
      && SameBut(s, n, id) && (n.queue == [] ==> n.armed == s.armed)
  {
    assert TimerOk(s, id, done, todo, now, base);
    EraseSorted(Repaired, s.timers, s.queue, id);
    CancelKeeps(s, id, done, todo, now, base);
    assert TimerOk(Cancel(Repaired, s, id), id, done, todo, now, base);
  }

  ghost predicate SameBut(s: State, n: State, id: nat)
    requires s.Shape() && n.Shape() && |n.timers| == |s.timers|
  {
    forall x: nat | x < |s.timers| && x != id :: n.timers[x] == s.timers[x] && (x in n.queue <==> x in s.queue)
  }

  lemma DoKeeps(s: State, op: Op, done: set<nat>, todo: set<nat>, now: int, base: nat)
    requires Ok(s, done, todo, now, base)
    ensures Ok(Do(Repaired, s, op), done, todo, now, base)
  {
    if op.id < |s.timers| {
      match op {
        case StartOp(id, at) => StartKeeps(s, id, at, done, todo, now, base);
        case CancelOp(id) => CancelKeeps(s, id, done, todo, now, base);
      }
    }
  }

  lemma {:induction false} DoAllKeeps(s: State, ops: seq<Op>, done: set<nat>, todo: set<nat>, now: int, base: nat)
    requires Ok(s, done, todo, now, base)
    ensures Ok(DoAll(Repaired, s, ops), done, todo, now, base)
    decreases |ops|
  {
    if ops != [] {
      DoKeeps(s, ops[0], done, todo, now, base);
      DoAllKeeps(Do(Repaired, s, ops[0]), ops[1..], done, todo, now, base);
    }
  }

  // ---------- a batch ----------

  /** The states before and after firing `id`, related by what fires and nothing else. */
  ghost predicate FiresInto(s: State, g: State, id: nat, now: int)
    requires s.Shape() && g.Shape() && id < |s.timers|
  {
    && g.kinds == s.kinds && g.queue == s.queue && g.fault == s.fault
    && g.log == s.log + [Fired(id, s.timers[id].expiration, now)]
    && |g.timers| == |s.timers|
    && g.timers[id] == Timer(s.timers[id].expiration, s.timers[id].running && s.kinds[id].Repeats())
    && forall x: nat | x < |s.timers| && x != id :: g.timers[x] == s.timers[x]
  }

  lemma FireKeepsTimer(s: State, g: State, id: nat, done: set<nat>, todo: set<nat>, now: int, base: nat)
    requires Ok(s, done, todo, now, base) && id in todo && id < |s.timers| && s.timers[id].running && id !in s.queue
    requires g.Shape() && FiresInto(s, g, id, now)
    ensures TimerOk(g, id, done + {id}, todo - {id}, now, base)
  {
    var e := Fired(id, s.timers[id].expiration, now);
    assert TimerOk(s, id, done, todo, now, base);
    IdealAppend(s.kinds, s.log, e, id);
    HandledGrows(s.log, e, base, id);
  }

  lemma FireKeepsOther(s: State, g: State, id: nat, done: set<nat>, todo: set<nat>, now: int, base: nat, x: nat)
    requires Ok(s, done, todo, now, base) && id < |s.timers| && x < |s.timers| && x != id
    requires g.Shape() && FiresInto(s, g, id, now)
    ensures TimerOk(g, x, done + {id}, todo - {id}, now, base)
  {
    OthersKeep(s, g, id, Fired(id, s.timers[id].expiration, now), done, todo, now, base, x);
  }

  lemma FireKeepsLog(s: State, g: State, id: nat, done: set<nat>, todo: set<nat>, now: int, base: nat)
    requires Ok(s, done, todo, now, base) && id in todo && id < |s.timers| && s.timers[id].running && id !in s.queue
    requires g.Shape() && FiresInto(s, g, id, now)
    ensures LogOk(g.kinds, g.log) && Sorted(Repaired, g.timers, g.queue)
  {
    assert TimerOk(s, id, done, todo, now, base);
    LogAppend(s.kinds, s.log, Fired(id, s.timers[id].expiration, now));
    SortedFrame(Repaired, s.timers, g.timers, g.queue);
  }

  lemma FireKeeps(s: State, id: nat, done: set<nat>, todo: set<nat>, now: int, base: nat)
    requires Ok(s, done, todo, now, base) && id in todo && id < |s.timers|
    requires s.timers[id].running && id !in s.queue
    ensures Ok(AtCallback(s, id, now), done + {id}, todo - {id}, now, base)
  {
    var g := AtCallback(s, id, now);
    assert FiresInto(s, g, id, now);
    hide AtCallback, FiresInto, TimerOk, LogOk;
    FireKeepsLog(s, g, id, done, todo, now, base);
    FireKeepsTimer(s, g, id, done, todo, now, base);
    forall x: nat | x < |s.timers| && x != id ensures TimerOk(g, x, done + {id}, todo - {id}, now, base) {
      FireKeepsOther(s, g, id, done, todo, now, base, x);
    }
    assert !g.fault && |g.log| >= base && |g.timers| == |s.timers|;
  }

  lemma SkipKeeps(s: State, id: nat, done: set<nat>, todo: set<nat>, now: int, base: nat)
    requires Ok(s, done, todo, now, base) && id in todo && id < |s.timers|
    requires !s.timers[id].running || id in s.queue
    ensures Ok(s, done + {id}, todo - {id}, now, base)
  {
    forall x: nat | x < |s.timers| ensures TimerOk(s, x, done + {id}, todo - {id}, now, base) {
      assert TimerOk(s, x, done, todo, now, base);
    }
  }

  /** The next timer of the batch: it fires, or it was handled by an earlier callback. */
  lemma RunKeeps(s: State, id: nat, ops: seq<Op>, done: set<nat>, todo: set<nat>, now: int, base: nat)
    requires Ok(s, done, todo, now, base) && id in todo && id < |s.timers|
    ensures Ok(Run(Repaired, s, id, now, ops), done + {id}, todo - {id}, now, base)
  {
    if !s.timers[id].running || id in s.queue {
      SkipKeeps(s, id, done, todo, now, base);
    } else {
      FireKeeps(s, id, done, todo, now, base);
      DoAllKeeps(AtCallback(s, id, now), ops, done + {id}, todo - {id}, now, base);
    }
  }

  ghost function Members(q: seq<nat>): set<nat> {
    set x | x in q
  }

  ghost predicate Distinct(q: seq<nat>) {
    forall i, j | 0 <= i < j < |q| :: q[i] != q[j]
  }

  lemma MembersTail(q: seq<nat>)
    requires q != [] && Distinct(q)
    ensures Members(q[1..]) == Members(q) - {q[0]} && Distinct(q[1..])
  {
    assert q == [q[0]] + q[1..];
    forall x | x in q[1..] ensures x != q[0] {
      var j :| 0 <= j < |q[1..]| && q[1..][j] == x;
      assert q[j + 1] == x;
    }
  }

  lemma {:induction false} RunBatchKeeps(s: State, batch: seq<nat>, script: nat -> seq<Op>, done: set<nat>, now: int,
      base: nat)
    requires Ok(s, done, Members(batch), now, base) && Distinct(batch) && InRange(s.timers, batch)
    ensures Ok(RunBatch(Repaired, s, batch, now, script), done + Members(batch), {}, now, base)
    decreases |batch|
  {
    if batch == [] {
      assert done + Members(batch) == done && Members(batch) == {};
    } else {
      MembersTail(batch);
      var n := Run(Repaired, s, batch[0], now, script(batch[0]));
      RunKeeps(s, batch[0], script(batch[0]), done, Members(batch), now, base);
      RunBatchKeeps(n, batch[1..], script, done + {batch[0]}, now, base);
      assert done + {batch[0]} + Members(batch[1..]) == done + Members(batch);
    }
  }

  lemma ReinsertKeeps(s: State, id: nat, done: set<nat>, now: int, base: nat)
    requires Ok(s, done, {}, now, base) && id in done && id < |s.timers|
    ensures var n := Reinsert(Repaired, s, id, now); Ok(n, done - {id}, {}, now, base) && n.log == s.log
  {
    var n := Reinsert(Repaired, s, id, now);
    assert TimerOk(s, id, done, {}, now, base);
    if n != s {
      SortedFrame(Repaired, s.timers, n.timers, s.queue);
      InsertSorted(Repaired, n.timers, s.queue, id);
    }
    forall x: nat | x < |n.timers| ensures TimerOk(n, x, done - {id}, {}, now, base) {
      assert TimerOk(s, x, done, {}, now, base);
    }
  }

  lemma {:induction false} ReinsertAllKeeps(s: State, batch: seq<nat>, now: int, base: nat)
    requires Ok(s, Members(batch), {}, now, base) && Distinct(batch) && InRange(s.timers, batch)
    ensures var n := ReinsertAll(Repaired, s, batch, now); Ok(n, {}, {}, now, base) && n.log == s.log
    decreases |batch|
  {
    if batch == [] {
      assert Members(batch) == {};
    } else {
      MembersTail(batch);
      ReinsertKeeps(s, batch[0], Members(batch), now, base);
      ReinsertAllKeeps(Reinsert(Repaired, s, batch[0], now), batch[1..], now, base);
    }
  }

  // ---------- get_expired ----------

  /** The batch of the repaired scan is a true partition of the set: every expired timer, none that is not, both halves
      in the set's order. */
  lemma {:induction false} BatchIsPartition(ts: seq<Timer>, q: seq<nat>, now: int)
    requires InRange(ts, q) && Sorted(Repaired, ts, q)
    ensures var k := ExpiredCount(Repaired, ts, q, now);
      && (forall i | 0 <= i < k :: ts[q[i]].expiration <= now)
      && (forall i | k <= i < |q| :: ts[q[i]].expiration > now)
    decreases |q|
  {
    if q != [] {
      if ts[q[0]].expiration > now {
        forall i | 0 <= i < |q| ensures ts[q[i]].expiration > now {
          assert i > 0 ==> Less(Repaired, ts, q[0], q[i]);
        }
      } else {
        BatchIsPartition(ts, q[1..], now);
        var k := ExpiredCount(Repaired, ts, q[1..], now);
        forall i | 0 <= i < |q| ensures i < k + 1 <==> ts[q[i]].expiration <= now {
          assert i > 0 ==> q[i] == q[1..][i - 1];
        }
      }
    }
  }

  lemma SortedDistinct(v: Variant, ts: seq<Timer>, q: seq<nat>)
    requires InRange(ts, q) && Sorted(v, ts, q)
    ensures Distinct(q)
  {
    forall i, j | 0 <= i < j < |q| ensures q[i] != q[j] {
      assert Less(v, ts, q[i], q[j]);
    }
  }

  lemma TakeBatchKeeps(s: State, now: int)
    requires Quiet(s)
    ensures Distinct(Batch(Repaired, s, now))
    ensures Ok(TakeBatch(Repaired, s, now), {}, Members(Batch(Repaired, s, now)), now, |s.log|)
  {
    var k := ExpiredCount(Repaired, s.timers, s.queue, now);
    var b, n := Batch(Repaired, s, now), TakeBatch(Repaired, s, now);
    BatchIsPartition(s.timers, s.queue, now);
    SortedDistinct(Repaired, s.timers, s.queue);
    assert s.queue == b + n.queue;
    forall x: nat | x < |s.timers| ensures TimerOk(n, x, {}, Members(b), now, |s.log|) {
      assert TimerOk(s, x, {}, {}, 0, 0);
      assert !(x in b && x in n.queue);
      if x in b {
        var i :| 0 <= i < |b| && b[i] == x;
        assert s.queue[i] == x;
      }
    }
  }

  // ---------- steps and runs ----------

  lemma OkWeakens(s: State, now: int, base: nat)
    requires Ok(s, {}, {}, now, base)
    ensures Quiet(s)
  {
    forall x: nat | x < |s.timers| ensures TimerOk(s, x, {}, {}, 0, 0) {
      assert TimerOk(s, x, {}, {}, now, base);
    }
  }

  /** One timeout, whatever its callbacks do: a quiescent state again, with the front armed, and every timer that was
      due has fired or was cancelled by a callback. */
  lemma TimeoutKeeps(s: State, now: int, script: nat -> seq<Op>)
    requires Quiet(s)
    ensures var n := HandleTimeout(Repaired, s, now, script);
      && Quiet(n) && Earliest(n)
      && forall x: nat | x in s.queue && Expiration(s, x) <= now :: Handled(n.log, |s.log|, x)
  {
    var b, t, base := Batch(Repaired, s, now), TakeBatch(Repaired, s, now), |s.log|;
    TakeBatchKeeps(s, now);
    RunBatchKeeps(t, b, script, {}, now, base);
    var r := RunBatch(Repaired, t, b, now, script);
    assert {} + Members(b) == Members(b);
    ReinsertAllKeeps(r, b, now, base);
    var n := ReinsertAll(Repaired, r, b, now);
    OkWeakens(n, now, base);
    ArmKeeps(n);
    forall x: nat | x in s.queue && Expiration(s, x) <= now ensures Handled(n.log, base, x) {
      BatchIsPartition(s.timers, s.queue, now);
      var i :| 0 <= i < |s.queue| && s.queue[i] == x;
      assert b[i] == x;
      assert TimerOk(r, x, Members(b), {}, now, base);
    }
  }

  lemma ArmKeeps(s: State)
    requires Quiet(s)
    ensures Quiet(ArmForFront(s)) && Earliest(ArmForFront(s)) && ArmForFront(s).log == s.log
  {
    forall x: nat | x < |s.timers| ensures TimerOk(ArmForFront(s), x, {}, {}, 0, 0) {
      assert TimerOk(s, x, {}, {}, 0, 0);
    }
  }

  /** Adding and cancelling outside a batch keep the front armed. */
  lemma DoKeepsEarliest(s: State, op: Op)
    requires Quiet(s) && Earliest(s)
    ensures Earliest(Do(Repaired, s, op))
  {
    if op.id < |s.timers| {
      assert TimerOk(s, op.id, {}, {}, 0, 0);
      if s.queue != [] {
        assert s.queue[0] in s.queue && TimerOk(s, s.queue[0], {}, {}, 0, 0);
        if s.queue[0] != op.id && op.CancelOp? {
          assert Erase(s.queue, op.id)[0] == s.queue[0];
        }
      }
      var n := Do(Repaired, s, op);
      if n.queue != [] {
        assert n.queue[0] in n.queue;
      }
    }
  }

  /** Every run of the repaired queue, with callbacks that start and cancel timers at will: the history is one every
      timer's automaton allows, a timer runs exactly when it is in the set, the set is in order, and the armed deadline
      is its earliest expiration. */
  lemma {:induction false} RunsFollowIdeal(s: State, es: seq<Event>)
    requires Quiet(s) && Earliest(s)
    ensures var n := Steps(Repaired, s, es); Quiet(n) && Earliest(n)
    decreases |es|
  {
    if es != [] {
      var n := Step(Repaired, s, es[0]);
      match es[0] {
        case Call(op) =>
          DoKeeps(s, op, {}, {}, 0, 0);
          DoKeepsEarliest(s, op);
        case Timeout(now, script) => TimeoutKeeps(s, now, script);
      }
      RunsFollowIdeal(n, es[1..]);
    }
  }

  /** Before any timer is started. */
  lemma StartsQuiet(s: State)
    requires s.Shape() && s.queue == [] && s.log == [] && !s.fault
    requires forall x: nat | x < |s.timers| :: !s.timers[x].running
    ensures Quiet(s) && Earliest(s)
  {
  }

  /** What the invariant says at a quiescent state: the flag and the set agree, so starting a queued timer and
      cancelling one that is not queued change nothing, and the armed deadline is the least expiration queued. */
  lemma QuietMeans(s: State, id: nat, now: int)
    requires Quiet(s) && Earliest(s) && id < |s.timers|
    ensures s.timers[id].running <==> id in s.queue
    ensures id in s.queue ==> Start(Repaired, s, id, now) == s
    ensures id !in s.queue ==> Cancel(Repaired, s, id) == s
    ensures id in s.queue ==> s.armed.At? && s.armed.when <= Expiration(s, id)
  {
    assert TimerOk(s, id, {}, {}, 0, 0);
    if id in s.queue {
      var i :| 0 <= i < |s.queue| && s.queue[i] == id;
      assert i > 0 ==> Less(Repaired, s.timers, s.queue[0], s.queue[i]);
    }
  }

  /** Starting a stopped repeater queues it, armed for an interval from now, and the descriptor wakes up by then. */
  lemma StartSchedules(s: State, id: nat, now: int)
    requires Quiet(s) && Earliest(s) && id < |s.timers| && !s.timers[id].running && s.kinds[id].Repeats()
    ensures var n := Start(Repaired, s, id, now);
      && id in n.queue && IdealOf(n.kinds, n.log, id) == Armed(now + s.kinds[id].interval)
      && n.armed.At? && n.armed.when <= now + s.kinds[id].interval
  {
    var n := Start(Repaired, s, id, now);
    StartKeeps(s, id, now, {}, {}, 0, 0);
    assert Do(Repaired, s, StartOp(id, now)) == n;
    DoKeepsEarliest(s, StartOp(id, now));
    QuietMeans(n, id, now);
    assert TimerOk(n, id, {}, {}, 0, 0);
  }

  // ---------- what an allowed history means ----------

  function Count(log: seq<Entry>, id: nat, starts: bool): nat
    decreases |log|
  {
    if log == [] then 0
    else Count(log[..|log| - 1], id, starts)
         + var e := log[|log| - 1]; if e.id == id && ((starts && e.Started?) || (!starts && e.Fired?)) then 1 else 0
  }

  lemma LogOkPrefix(kinds: seq<Kind>, log: seq<Entry>, k: nat)
    requires LogOk(kinds, log) && k <= |log|
    ensures LogOk(kinds, log[..k])
  {
    var p := log[..k];
    forall i | 0 <= i < |p| ensures p[i].id < |kinds| && Allowed(IdealOf(kinds, p[..i], p[i].id), p[i]) {
      assert p[..i] == log[..i] && p[i] == log[i];
    }
  }

  /** A one-shot fires at most once per start. */
  lemma {:induction false} OneShotFiresOncePerStart(kinds: seq<Kind>, log: seq<Entry>, id: nat)
    requires LogOk(kinds, log) && id < |kinds| && !kinds[id].Repeats()
    ensures Count(log, id, false) <= Count(log, id, true)
    ensures IdealOf(kinds, log, id).Armed? ==> Count(log, id, false) < Count(log, id, true)
    decreases |log|
  {
    if log != [] {
      LogOkPrefix(kinds, log, |log| - 1);
      OneShotFiresOncePerStart(kinds, log[..|log| - 1], id);
      assert log[|log| - 1].id < |kinds|;
    }
  }

  /** Between two points of a history with no start and no cancel of `id`. */
  ghost predicate Untouched(log: seq<Entry>, i: nat, j: nat, id: nat) {
    forall k | i < k < j && k < |log| :: log[k].id == id ==> log[k].Fired?
  }

  /** A cancelled timer does not fire, in the same batch or later, until it is started again. */
  lemma {:induction false} CancelledStaysQuiet(kinds: seq<Kind>, log: seq<Entry>, id: nat, i: nat, j: nat)
    requires LogOk(kinds, log) && id < |kinds| && i < j <= |log| && log[i] == Cancelled(id) && Untouched(log, i, j, id)
    ensures IdealOf(kinds, log[..j], id) == Idle
    ensures j < |log| ==> !(log[j].Fired? && log[j].id == id)
    decreases j
  {
    assert log[..j] == log[..j - 1] + [log[j - 1]];
    IdealAppend(kinds, log[..j - 1], log[j - 1], id);
    if i < j - 1 {
      CancelledStaysQuiet(kinds, log, id, i, j - 1);
    }
    if j < |log| {
      assert log[j].id < |kinds| && Allowed(IdealOf(kinds, log[..j], log[j].id), log[j]);
    }
  }

  /** A repeater that is left alone next fires when the batch it fired in is an interval old, and not before. */
  lemma {:induction false} RepeaterDueAfterInterval(kinds: seq<Kind>, log: seq<Entry>, id: nat, i: nat, j: nat)
    requires LogOk(kinds, log) && id < |kinds| && kinds[id].Repeats() && i < j < |log|
    requires log[i].Fired? && log[i].id == id && log[j].Fired? && log[j].id == id
    requires forall k | i < k < j :: log[k].id != id
    ensures log[j].due == log[i].now + kinds[id].interval <= log[j].now
  {
    RepeaterArmed(kinds, log, id, i, j);
    assert Allowed(IdealOf(kinds, log[..j], log[j].id), log[j]);
  }

  lemma {:induction false} RepeaterArmed(kinds: seq<Kind>, log: seq<Entry>, id: nat, i: nat, j: nat)
    requires id < |kinds| && kinds[id].Repeats() && i < j <= |log| && log[i].Fired? && log[i].id == id
    requires forall k | i < k < j :: log[k].id != id
    ensures IdealOf(kinds, log[..j], id) == Armed(log[i].now + kinds[id].interval)
    decreases j
  {
    assert log[..j] == log[..j - 1] + [log[j - 1]];
    IdealAppend(kinds, log[..j - 1], log[j - 1], id);
    if i < j - 1 {
      RepeaterArmed(kinds, log, id, i, j - 1);
    }
  }
}
