/** timer/timer.cpp and timer/timer_queue.cpp on values: an ordered set of timers, the armed deadline, and callbacks
    that start and cancel timers while a batch fires.

    A timer is named by its address, a natural number below the number of timers.  AsWritten orders the set by address
    (timer_queue.h:25-32); Repaired orders it by expiration and then by address. */
module Timers {
  import opened Variants

  /** What is set up before a timer starts: m_interval and m_timeout_handler. */
  datatype Kind = Kind(interval: int, handler: bool) {
    predicate Repeats() {
      interval > 0
    }
  }

  datatype Timer = Timer(expiration: int, running: bool)

  /** The deadline last passed to timer_fd::reset. */
  datatype Deadline = Disarmed | At(when: int)

  /** The history a user of timers can see. */
  datatype Entry = Started(id: nat, when: int) | Cancelled(id: nat) | Fired(id: nat, due: int, now: int)

  /** `queue` lists the set in its own order.  `stale` are the timers that went back into the set without being told
      their new place: their m_id is the iterator of an erased element.  `fault` records that the run left defined
      behaviour: a failed assert on an insertion, or an erase through such an iterator. */
  datatype State = State(kinds: seq<Kind>, timers: seq<Timer>, queue: seq<nat>, stale: set<nat>, armed: Deadline,
                         log: seq<Entry>, fault: bool)
  {
    ghost predicate Shape() {
      |kinds| == |timers| && forall i | 0 <= i < |queue| :: queue[i] < |timers|
    }
  }

  predicate Less(v: Variant, ts: seq<Timer>, a: nat, b: nat)
    requires a < |ts| && b < |ts|
  {
    match v
    case AsWritten => a < b
    case Repaired => ts[a].expiration < ts[b].expiration || (ts[a].expiration == ts[b].expiration && a < b)
  }

  ghost predicate InRange(ts: seq<Timer>, q: seq<nat>) {
    forall i | 0 <= i < |q| :: q[i] < |ts|
  }

  ghost predicate Sorted(v: Variant, ts: seq<Timer>, q: seq<nat>)
    requires InRange(ts, q)
  {
    forall i, j | 0 <= i < j < |q| :: Less(v, ts, q[i], q[j])
  }

  // ---------- the ordered set ----------

  function Insert(v: Variant, ts: seq<Timer>, q: seq<nat>, id: nat): (r: seq<nat>)
    requires InRange(ts, q) && id < |ts|
    ensures InRange(ts, r) && |r| == |q| + 1
    ensures forall x: nat :: x in r <==> x in q || x == id
    decreases |q|
  {
    if q == [] || Less(v, ts, id, q[0]) then [id] + q
    else [q[0]] + Insert(v, ts, q[1..], id)
  }

  lemma {:induction false} InsertSorted(v: Variant, ts: seq<Timer>, q: seq<nat>, id: nat)
    requires InRange(ts, q) && id < |ts| && id !in q && Sorted(v, ts, q)
    ensures Sorted(v, ts, Insert(v, ts, q, id))
    decreases |q|
  {
    if q != [] && !Less(v, ts, id, q[0]) {
      InsertSorted(v, ts, q[1..], id);
      var r := Insert(v, ts, q[1..], id);
      forall j | 0 <= j < |r| ensures Less(v, ts, q[0], r[j]) {
        assert r[j] in r;
      }
    }
  }

  function Erase(q: seq<nat>, id: nat): (r: seq<nat>)
    ensures |r| <= |q| && forall x: nat :: x in r ==> x in q
    decreases |q|
  {
    if q == [] then []
    else if q[0] == id then q[1..]
    else [q[0]] + Erase(q[1..], id)
  }

  lemma {:induction false} EraseSorted(v: Variant, ts: seq<Timer>, q: seq<nat>, id: nat)
    requires InRange(ts, q) && Sorted(v, ts, q)
    ensures InRange(ts, Erase(q, id)) && Sorted(v, ts, Erase(q, id))
    ensures forall x: nat :: x in Erase(q, id) <==> x in q && x != id
    decreases |q|
  {
    if q != [] {
      if q[0] == id {
        forall x: nat | x in q[1..] ensures x != id {
          var j :| 0 <= j < |q[1..]| && q[1..][j] == x;
          assert Less(v, ts, q[0], q[j + 1]);
        }
        assert q == [q[0]] + q[1..];
      } else {
        EraseSorted(v, ts, q[1..], id);
        var r := Erase(q[1..], id);
        forall j | 0 <= j < |r| ensures Less(v, ts, q[0], r[j]) {
          assert r[j] in q[1..];
          var k :| 0 <= k < |q[1..]| && q[1..][k] == r[j];
          assert Less(v, ts, q[0], q[k + 1]);
        }
        assert q == [q[0]] + q[1..];
      }
    }
  }

  /** The order looks at the expirations of its members only. */
  lemma SortedFrame(v: Variant, ts: seq<Timer>, us: seq<Timer>, q: seq<nat>)
    requires InRange(ts, q) && |us| == |ts| && Sorted(v, ts, q)
    requires forall x: nat :: x in q ==> us[x].expiration == ts[x].expiration
    ensures InRange(us, q) && Sorted(v, us, q)
  {
    forall i, j | 0 <= i < j < |q| ensures Less(v, us, q[i], q[j]) {
      assert q[i] in q && q[j] in q && Less(v, ts, q[i], q[j]);
    }
  }

  // ---------- timer_queue ----------

  function Expiration(s: State, id: nat): int
    requires id < |s.timers|
  {
    s.timers[id].expiration
  }

  /** Arm for the front of the set (timer_queue.cpp:30-32, :40-41, :83-85). */
  function ArmForFront(s: State): (n: State)
    requires s.Shape()
    ensures n.Shape()
  {
    if s.queue == [] then s else s.(armed := At(Expiration(s, s.queue[0])))
  }

  function AddTimer(v: Variant, s: State, id: nat): (n: State)
    requires s.Shape() && id < |s.timers|
    ensures n.Shape() && n.timers == s.timers && n.kinds == s.kinds && n.log == s.log
  {
    if id in s.queue then s.(fault := true)
    else
      var earliest := s.queue == [] || Expiration(s, id) < Expiration(s, s.queue[0]);
      var n := s.(queue := Insert(v, s.timers, s.queue, id));
      if earliest then ArmForFront(n) else n
  }

  function CancelQueued(s: State, id: nat): (n: State)
    requires s.Shape() && id in s.queue
    ensures n.timers == s.timers && n.kinds == s.kinds && n.log == s.log && n.fault == s.fault
    ensures n.Shape()
  {
    assert forall x: nat :: x in s.queue ==> x < |s.timers|;
    var n := s.(queue := Erase(s.queue, id));
    assert forall i | 0 <= i < |n.queue| :: n.queue[i] in s.queue;
    if id == s.queue[0] then ArmForFront(n) else n
  }

  // ---------- timer ----------

  function Set(s: State, id: nat, t: Timer): (n: State)
    requires s.Shape() && id < |s.timers|
    ensures n.Shape()
  {
    s.(timers := s.timers[id := t])
  }

  /** timer::start.  Repaired: a repeating timer's first expiration is its interval from now. */
  function Start(v: Variant, s: State, id: nat, now: int): (n: State)
    requires s.Shape() && id < |s.timers|
    ensures n.Shape() && n.kinds == s.kinds && |n.timers| == |s.timers|
  {
    if s.timers[id].running then s
    else
      var when := if v.Repaired? && s.kinds[id].Repeats() then now + s.kinds[id].interval else Expiration(s, id);
      var a := AddTimer(v, Set(s, id, Timer(when, false)), id);
      Set(a, id, Timer(when, true)).(stale := s.stale - {id}, log := s.log + [Started(id, when)])
  }

  /** timer::cancel erases through m_id.  Repaired: a timer that was taken out of the set for the batch being fired is
      only marked. */
  function Cancel(v: Variant, s: State, id: nat): (n: State)
    requires s.Shape() && id < |s.timers|
    ensures n.Shape() && n.kinds == s.kinds && |n.timers| == |s.timers|
  {
    if !s.timers[id].running then s
    else
      var c := if id in s.queue && (v.Repaired? || id !in s.stale) then CancelQueued(s, id)
               else if v.Repaired? then s else s.(fault := true);
      Set(c, id, Timer(Expiration(s, id), false)).(log := s.log + [Cancelled(id)])
  }

  // ---------- callbacks ----------

  datatype Op = StartOp(id: nat, now: int) | CancelOp(id: nat)

  function Do(v: Variant, s: State, op: Op): (n: State)
    requires s.Shape()
    ensures n.Shape() && n.kinds == s.kinds && |n.timers| == |s.timers|
  {
    if s.fault || op.id >= |s.timers| then s
    else match op
      case StartOp(id, now) => Start(v, s, id, now)
      case CancelOp(id) => Cancel(v, s, id)
  }

  function DoAll(v: Variant, s: State, ops: seq<Op>): (n: State)
    requires s.Shape()
    ensures n.Shape() && n.kinds == s.kinds && |n.timers| == |s.timers|
    decreases |ops|
  {
    if ops == [] then s else DoAll(v, Do(v, s, ops[0]), ops[1..])
  }

  function Fire(s: State, id: nat, now: int): (n: State)
    requires s.Shape() && id < |s.timers|
    ensures n.Shape()
  {
    s.(log := s.log + [Fired(id, Expiration(s, id), now)])
  }

  function Stop(s: State, id: nat): (n: State)
    requires s.Shape() && id < |s.timers|
    ensures n.Shape()
  {
    Set(s, id, Timer(Expiration(s, id), false))
  }

  /** The state in which the repaired code calls the callback of `id`. */
  function AtCallback(s: State, id: nat, now: int): (n: State)
    requires s.Shape() && id < |s.timers|
    ensures n.Shape()
  {
    var f := Fire(s, id, now);
    if s.kinds[id].Repeats() then f else Stop(f, id)
  }

  /** timer::run on a timer of the batch; `ops` is what its callback does.  Repaired: a timer that was cancelled or
      started again since the batch was taken does not run, and a one-shot stops before its callback. */
  function Run(v: Variant, s: State, id: nat, now: int, ops: seq<Op>): (n: State)
    requires s.Shape() && id < |s.timers|
    ensures n.Shape() && n.kinds == s.kinds && |n.timers| == |s.timers|
  {
    if s.fault then s
    else match v
      case AsWritten =>
        if s.kinds[id].handler then Stop(DoAll(v, Fire(s, id, now), ops), id) else s
      case Repaired =>
        if !s.timers[id].running || id in s.queue then s
        else
          var g := AtCallback(s, id, now);
          if s.kinds[id].handler then DoAll(v, g, ops) else g
  }

  // ---------- timer_queue::handle_timeout ----------

  /** How many timers at the front get_expired takes.  The committed loop looks at one. */
  function ExpiredCount(v: Variant, ts: seq<Timer>, q: seq<nat>, now: int): (k: nat)
    requires InRange(ts, q)
    ensures k <= |q|
    decreases |q|
  {
    if q == [] || ts[q[0]].expiration > now then 0
    else if v.AsWritten? then 1
    else 1 + ExpiredCount(v, ts, q[1..], now)
  }

  function RunBatch(v: Variant, s: State, batch: seq<nat>, now: int, script: nat -> seq<Op>): (n: State)
    requires s.Shape() && InRange(s.timers, batch)
    ensures n.Shape() && n.kinds == s.kinds && |n.timers| == |s.timers|
    decreases |batch|
  {
    if batch == [] then s
    else RunBatch(v, Run(v, s, batch[0], now, script(batch[0])), batch[1..], now, script)
  }

  /** restart and insert.  The committed insert does not hand the new iterator to the timer.  Repaired: it does, and
      only a timer that still runs and is not back in the set is inserted. */
  function Reinsert(v: Variant, s: State, id: nat, now: int): (n: State)
    requires s.Shape() && id < |s.timers|
    ensures n.Shape() && n.kinds == s.kinds && |n.timers| == |s.timers|
  {
    if s.fault || !s.kinds[id].Repeats() then s
    else if v.Repaired? && (!s.timers[id].running || id in s.queue) then s
    else
      var r := Set(s, id, Timer(now + s.kinds[id].interval, s.timers[id].running));
      if id in s.queue then r.(fault := true)
      else r.(queue := Insert(v, r.timers, r.queue, id), stale := if v.AsWritten? then r.stale + {id} else r.stale)
  }

  function ReinsertAll(v: Variant, s: State, batch: seq<nat>, now: int): (n: State)
    requires s.Shape() && InRange(s.timers, batch)
    ensures n.Shape() && n.kinds == s.kinds && |n.timers| == |s.timers|
    decreases |batch|
  {
    if batch == [] then s else ReinsertAll(v, Reinsert(v, s, batch[0], now), batch[1..], now)
  }

  function Batch(v: Variant, s: State, now: int): (b: seq<nat>)
    requires s.Shape()
    ensures InRange(s.timers, b)
  {
    s.queue[..ExpiredCount(v, s.timers, s.queue, now)]
  }

  function TakeBatch(v: Variant, s: State, now: int): (n: State)
    requires s.Shape()
    ensures n.Shape() && n.kinds == s.kinds && n.timers == s.timers
  {
    s.(queue := s.queue[ExpiredCount(v, s.timers, s.queue, now)..])
  }

  function HandleTimeout(v: Variant, s: State, now: int, script: nat -> seq<Op>): (n: State)
    requires s.Shape()
    ensures n.Shape() && n.kinds == s.kinds && |n.timers| == |s.timers|
  {
    var b := Batch(v, s, now);
    ArmForFront(ReinsertAll(v, RunBatch(v, TakeBatch(v, s, now), b, now, script), b, now))
  }

  // ---------- runs ----------

  datatype Event = Call(op: Op) | Timeout(now: int, script: nat -> seq<Op>)

  function Step(v: Variant, s: State, e: Event): (n: State)
    requires s.Shape()
    ensures n.Shape() && n.kinds == s.kinds && |n.timers| == |s.timers|
  {
    if s.fault then s
    else match e
      case Call(op) => Do(v, s, op)
      case Timeout(now, script) => HandleTimeout(v, s, now, script)
  }

  function Steps(v: Variant, s: State, es: seq<Event>): (n: State)
    requires s.Shape()
    ensures n.Shape() && n.kinds == s.kinds && |n.timers| == |s.timers|
    decreases |es|
  {
    if es == [] then s else Steps(v, Step(v, s, es[0]), es[1..])
  }
}
