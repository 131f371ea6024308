/** timer_queue and the timers it refers to as the objects they are: fields updated in place by methods, each proved
    to compute its step of module Timers.  The timers are entries of `timers`, indexed by address. */
module TimerQueueObject {
  import opened Variants
  import opened Timers

  class TimerQueue {
    const kinds: seq<Kind>
    var timers: seq<Timer>
    /** m_timers, a std::set, in iteration order. */
    var queue: seq<nat>
    /** Timers whose m_id is a dead iterator. */
    var stale: set<nat>
    var armed: Deadline
    /** The process has left defined behaviour. */
    var fault: bool
    ghost var log: seq<Entry>

    ghost function View(): State
      reads this
    {
      State(kinds, timers, queue, stale, armed, log, fault)
    }

    ghost predicate Valid()
      reads this
    {
      View().Shape()
    }

    constructor (kinds: seq<Kind>, expirations: seq<int>)
      requires |kinds| == |expirations|
      ensures Valid() && this.kinds == kinds && queue == [] && stale == {} && armed == Disarmed && log == [] && !fault
      ensures timers == seq(|kinds|, i requires 0 <= i < |kinds| => Timer(expirations[i], false))
    {
      this.kinds := kinds;
      timers := seq(|kinds|, i requires 0 <= i < |kinds| => Timer(expirations[i], false));
      queue, stale, armed, fault, log := [], {}, Disarmed, false, [];
    }

    /** m_timer_fd.reset(m_timers.cbegin()->expiration()), when there is a front. */
    method Arm()
      requires Valid()
      modifies this`armed
      ensures View() == ArmForFront(old(View()))
    {
      if |queue| > 0 {
        armed := At(timers[queue[0]].expiration);
      }
    }

    method AddTimer(v: Variant, id: nat)
      requires Valid() && id < |timers|
      modifies this`queue, this`armed, this`fault
      ensures Valid() && View() == Timers.AddTimer(v, old(View()), id)
    {
      if id in queue {
        fault := true;
        return;
      }
      var earliest := |queue| == 0 || timers[id].expiration < timers[queue[0]].expiration;
      queue := Insert(v, timers, queue, id);
      if earliest {
        Arm();
      }
    }

    method CancelQueued(id: nat)
      requires Valid() && id in queue
      modifies this`queue, this`armed
      ensures Valid() && View() == Timers.CancelQueued(old(View()), id)
    {
      var first := id == queue[0];
      ghost var n := Timers.CancelQueued(View(), id);
      queue := Erase(queue, id);
      assert View().Shape() by {
        assert n.queue == queue;
      }
      if first {
        Arm();
      }
    }

    method Start(v: Variant, id: nat, now: int)
      requires Valid() && id < |timers|
      modifies this
      ensures Valid() && View() == Timers.Start(v, old(View()), id, now)
    {
      if timers[id].running {
        return;
      }
      var when := if v.Repaired? && kinds[id].Repeats() then now + kinds[id].interval else timers[id].expiration;
      timers := timers[id := Timer(when, false)];
      AddTimer(v, id);
      timers := timers[id := Timer(when, true)];
      stale := stale - {id};
      log := log + [Started(id, when)];
    }

    method Cancel(v: Variant, id: nat)
      requires Valid() && id < |timers|
      modifies this
      ensures Valid() && View() == Timers.Cancel(v, old(View()), id)
    {
      if !timers[id].running {
        return;
      }
      if id in queue && (v.Repaired? || id !in stale) {
        CancelQueued(id);
      } else if v.AsWritten? {
        fault := true;
      }
      timers := timers[id := Timer(timers[id].expiration, false)];
      log := log + [Cancelled(id)];
    }

    method DoOne(v: Variant, op: Op)
      requires Valid()
      modifies this
      ensures Valid() && View() == Do(v, old(View()), op)
    {
      if fault || op.id >= |timers| {
        return;
      }
      match op {
        case StartOp(id, now) => Start(v, id, now);
        case CancelOp(id) => Cancel(v, id);
      }
    }

    /** The body of a callback. */
    method Callback(v: Variant, ops: seq<Op>)
      requires Valid()
      modifies this
      ensures Valid() && View() == DoAll(v, old(View()), ops)
      decreases |ops|
    {
      if ops != [] {
        DoOne(v, ops[0]);
        Callback(v, ops[1..]);
      }
    }

    /** timer::run */
    method Run(v: Variant, id: nat, now: int, ops: seq<Op>)
      requires Valid() && id < |timers|
      modifies this
      ensures Valid() && View() == Timers.Run(v, old(View()), id, now, ops)
    {
      if fault {
        return;
      }
      if v.Repaired? {
        if !timers[id].running || id in queue {
          return;
        }
        log := log + [Fired(id, timers[id].expiration, now)];
        if !kinds[id].Repeats() {
          timers := timers[id := Timer(timers[id].expiration, false)];
        }
        if kinds[id].handler {
          Callback(v, ops);
        }
      } else if kinds[id].handler {
        log := log + [Fired(id, timers[id].expiration, now)];
        Callback(v, ops);
        timers := timers[id := Timer(timers[id].expiration, false)];
      }
    }

    /** The committed loop ends in an unconditional break (timer_queue.cpp:66). */
    method GetExpired(v: Variant, now: int) returns (expired: seq<nat>)
      requires Valid()
      modifies this`queue
      ensures Valid() && View() == TakeBatch(v, old(View()), now) && expired == Batch(v, old(View()), now)
    {
      expired := [];
      ghost var q, k: nat := queue, 0;
      while |queue| > 0
        invariant Valid() && k <= |q| && expired == q[..k] && queue == q[k..]
        invariant ExpiredCount(v, timers, q, now) == k + ExpiredCount(v, timers, q[k..], now)
        invariant v.AsWritten? ==> k == 0
        decreases |queue|
      {
        if timers[queue[0]].expiration <= now {
          assert q[k..][1..] == q[k + 1..] && q[..k] + [q[k]] == q[..k + 1];
          expired := expired + [queue[0]];
          queue := queue[1..];
          k := k + 1;
          if v.Repaired? {
            continue;
          }
        }
        break;
      }
    }

    method Reinsert(v: Variant, id: nat, now: int)
      requires Valid() && id < |timers|
      modifies this`timers, this`queue, this`stale, this`fault
      ensures Valid() && View() == Timers.Reinsert(v, old(View()), id, now)
    {
      if fault || !kinds[id].Repeats() {
        return;
      }
      if v.Repaired? && (!timers[id].running || id in queue) {
        return;
      }
      timers := timers[id := Timer(now + kinds[id].interval, timers[id].running)];
      if id in queue {
        fault := true;
      } else {
        queue := Insert(v, timers, queue, id);
        stale := if v.AsWritten? then stale + {id} else stale;
      }
    }

    method Reset(v: Variant, expired: seq<nat>, now: int)
      requires Valid() && InRange(timers, expired)
      modifies this`timers, this`queue, this`stale, this`fault, this`armed
      ensures Valid() && View() == ArmForFront(ReinsertAll(v, old(View()), expired, now))
    {
      var i := 0;
      while i < |expired|
        invariant 0 <= i <= |expired| && Valid() && |timers| == |old(timers)| && armed == old(armed)
        invariant ReinsertAll(v, View(), expired[i..], now) == ReinsertAll(v, old(View()), expired, now)
      {
        assert expired[i..][1..] == expired[i + 1..];
        Reinsert(v, expired[i], now);
        i := i + 1;
      }
      Arm();
    }

    method HandleTimeout(v: Variant, now: int, script: nat -> seq<Op>)
      requires Valid()
      modifies this
      ensures Valid() && View() == Timers.HandleTimeout(v, old(View()), now, script)
    {
      var expired := GetExpired(v, now);
      ghost var s := View();
      var i := 0;
      while i < |expired|
        invariant 0 <= i <= |expired| && Valid() && |timers| == |s.timers|
        invariant RunBatch(v, View(), expired[i..], now, script) == RunBatch(v, s, expired, now, script)
      {
        assert expired[i..][1..] == expired[i + 1..];
        Run(v, expired[i], now, script(expired[i]));
        i := i + 1;
      }
      Reset(v, expired, now);
    }
  }
}
