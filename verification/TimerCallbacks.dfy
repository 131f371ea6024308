/** What the callbacks of a batch do to the rest of the batch, while the repaired queue fires it: which timers fire in
    one timeout, and which do not any more. */
module TimerCallbacks {
  import opened Variants
  import opened Timers
  import opened TimerLaws

  /** `n` is `log` with entries behind it. */
  ghost predicate Extends(log: seq<Entry>, n: seq<Entry>) {
    |log| <= |n| && n[..|log|] == log
  }

  /** `id` fired since the history was `base` entries long. */
  ghost predicate FiredSince(log: seq<Entry>, base: nat, id: nat) {
    exists k | base <= k < |log| :: log[k].Fired? && log[k].id == id
  }

  lemma ExtendsTwice(a: seq<Entry>, b: seq<Entry>, c: seq<Entry>)
    requires Extends(a, b) && Extends(b, c)
    ensures Extends(a, c)
    ensures forall k | |a| <= k < |b| :: c[k] == b[k]
  {
    assert forall k | 0 <= k < |b| :: c[k] == c[..|b|][k];
    assert c[..|a|] == b[..|a|];
  }

  /** Fired in one of two stretches, or in neither. */
  lemma FiredInEither(a: seq<Entry>, b: seq<Entry>, c: seq<Entry>, id: nat)
    requires Extends(a, b) && Extends(b, c)
    ensures FiredSince(c, |a|, id) <==> FiredSince(b, |a|, id) || FiredSince(c, |b|, id)
  {
    ExtendsTwice(a, b, c);
    if FiredSince(b, |a|, id) {
      var k :| |a| <= k < |b| && b[k].Fired? && b[k].id == id;
      assert c[k] == b[k];
    }
    if FiredSince(c, |a|, id) {
      var k :| |a| <= k < |c| && c[k].Fired? && c[k].id == id;
      if k < |b| {
        assert b[k] == c[k];
      }
    }
  }

  // ---------- one callback ----------

  /** A callback starts what it asks to start, cancels what it asks to cancel, and fires nothing. */
  predicate AskedBy(e: Entry, ops: seq<Op>) {
    match e
    case Fired(_, _, _) => false
    case Cancelled(x) => CancelOp(x) in ops
    case Started(x, _) => exists k :: 0 <= k < |ops| && ops[k].StartOp? && ops[k].id == x
  }

  lemma {:induction false} CallbackLogs(s: State, ops: seq<Op>, done: set<nat>, todo: set<nat>, now: int, base: nat)
    requires Ok(s, done, todo, now, base)
    ensures var n := DoAll(Repaired, s, ops);
      Extends(s.log, n.log) && forall k | |s.log| <= k < |n.log| :: AskedBy(n.log[k], ops)
    decreases |ops|
  {
    if ops != [] {
      var m, tail := Do(Repaired, s, ops[0]), ops[1..];
      DoKeeps(s, ops[0], done, todo, now, base);
      DoLogs(s, ops[0], done, todo, now, base);
      hide Ok, Do;
      CallbackLogs(m, tail, done, todo, now, base);
      var n := DoAll(Repaired, m, tail);
      ExtendsTwice(s.log, m.log, n.log);
      forall k | |s.log| <= k < |n.log| ensures AskedBy(n.log[k], ops) {
        AskedByMore(n.log[k], ops);
        assert k < |m.log| ==> n.log[k] == m.log[k];
      }
    }
  }

  lemma AskedByMore(e: Entry, ops: seq<Op>)
    requires ops != []
    ensures AskedBy(e, [ops[0]]) || AskedBy(e, ops[1..]) ==> AskedBy(e, ops)
  {
    var tail := ops[1..];
    assert forall k | 0 <= k < |tail| :: tail[k] == ops[k + 1];
    assert [ops[0]][0] == ops[0];
    if e.Started? && AskedBy(e, tail) {
      var k :| 0 <= k < |tail| && tail[k].StartOp? && tail[k].id == e.id;
      assert ops[k + 1].StartOp?;
    }
  }

  lemma DoLogs(s: State, op: Op, done: set<nat>, todo: set<nat>, now: int, base: nat)
    requires Ok(s, done, todo, now, base)
    ensures var n := Do(Repaired, s, op);
      Extends(s.log, n.log) && forall k | |s.log| <= k < |n.log| :: AskedBy(n.log[k], [op])
  {
    if op.id < |s.timers| {
      assert [op][0] == op;
      match op {
        case StartOp(id, at) => StartTakesEffect(s, id, at, done, todo, now, base);
        case CancelOp(id) => CancelTakesEffect(s, id, done, todo, now, base);
      }
    }
  }

  /** Neither running nor queued. */
  ghost predicate Out(s: State, id: nat)
    requires s.Shape()
  {
    id < |s.timers| && !s.timers[id].running && id !in s.queue
  }

  ghost predicate NoStart(ops: seq<Op>, id: nat) {
    forall k | 0 <= k < |ops| && ops[k].StartOp? :: ops[k].id != id
  }

  lemma DoStaysOut(s: State, op: Op, id: nat, done: set<nat>, todo: set<nat>, now: int, base: nat)
    requires Ok(s, done, todo, now, base) && id < |s.timers|
    requires op == CancelOp(id) || (Out(s, id) && !(op.StartOp? && op.id == id))
    ensures Out(Do(Repaired, s, op), id)
  {
    if op.id < |s.timers| {
      match op {
        case StartOp(x, at) => StartTakesEffect(s, x, at, done, todo, now, base);
        case CancelOp(x) => CancelTakesEffect(s, x, done, todo, now, base);
      }
    }
  }

  /** What is out stays out until it is started. */
  lemma {:induction false} CallbackStaysOut(s: State, ops: seq<Op>, id: nat, done: set<nat>, todo: set<nat>, now: int,
                                            base: nat)
    requires Ok(s, done, todo, now, base) && Out(s, id) && NoStart(ops, id)
    ensures Out(DoAll(Repaired, s, ops), id)
    decreases |ops|
  {
    if ops != [] {
      assert forall k | 0 <= k < |ops[1..]| :: ops[1..][k] == ops[k + 1];
      DoKeeps(s, ops[0], done, todo, now, base);
      DoStaysOut(s, ops[0], id, done, todo, now, base);
      hide Ok, Do, Out;
      CallbackStaysOut(Do(Repaired, s, ops[0]), ops[1..], id, done, todo, now, base);
    }
  }

  /** A callback that cancels `id` at its point `c`, and does not start it behind that, leaves it out. */
  lemma {:induction false} CallbackCancels(s: State, ops: seq<Op>, c: nat, id: nat, done: set<nat>, todo: set<nat>,
                                           now: int, base: nat)
    requires Ok(s, done, todo, now, base) && id < |s.timers|
    requires c < |ops| && ops[c] == CancelOp(id) && NoStart(ops[c..], id)
    ensures Out(DoAll(Repaired, s, ops), id)
    decreases c
  {
    DoKeeps(s, ops[0], done, todo, now, base);
    if c == 0 {
      DoStaysOut(s, ops[0], id, done, todo, now, base);
      assert forall k | 0 <= k < |ops[1..]| :: ops[1..][k] == ops[0..][k + 1];
      hide Ok, Do, Out;
      CallbackStaysOut(Do(Repaired, s, ops[0]), ops[1..], id, done, todo, now, base);
    } else {
      hide Ok, Do, Out, NoStart;
      assert ops[1..][c - 1..] == ops[c..];
      CallbackCancels(Do(Repaired, s, ops[0]), ops[1..], c - 1, id, done, todo, now, base);
    }
  }

  // ---------- one timer of the batch ----------

  /** The timer of the batch whose turn it is fires exactly when it still runs and is not back in the set, and then its
      callback, if it has one, does what it asks for. */
  lemma RunTakesEffect(s: State, id: nat, ops: seq<Op>, done: set<nat>, todo: set<nat>, now: int, base: nat)
    requires Ok(s, done, todo, now, base) && id in todo && id < |s.timers|
    ensures var n := Run(Repaired, s, id, now, ops);
      if s.timers[id].running && id !in s.queue then
        exists g: State :: g.Shape() && FiresInto(s, g, id, now) && Ok(g, done + {id}, todo - {id}, now, base)
                           && n == (if s.kinds[id].handler then DoAll(Repaired, g, ops) else g)
      else n == s
  {
    if s.timers[id].running && id !in s.queue {
      FireKeeps(s, id, done, todo, now, base);
      assert FiresInto(s, AtCallback(s, id, now), id, now);
    }
  }

  /** The entries of one timer's turn: its own firing, and what its callback asks for. */
  predicate FromTurn(e: Entry, id: nat, ops: seq<Op>, now: int) {
    (e.Fired? && e.id == id && e.now == now) || AskedBy(e, ops)
  }

  lemma RunLogs(s: State, id: nat, ops: seq<Op>, done: set<nat>, todo: set<nat>, now: int, base: nat)
    requires Ok(s, done, todo, now, base) && id in todo && id < |s.timers|
    ensures var n := Run(Repaired, s, id, now, ops);
      && Extends(s.log, n.log) && (forall k | |s.log| <= k < |n.log| :: FromTurn(n.log[k], id, ops, now))
      && (FiredSince(n.log, |s.log|, id) <==> s.timers[id].running && id !in s.queue)
  {
    var n := Run(Repaired, s, id, now, ops);
    RunTakesEffect(s, id, ops, done, todo, now, base);
    if s.timers[id].running && id !in s.queue {
      var g: State :| g.Shape() && FiresInto(s, g, id, now) && Ok(g, done + {id}, todo - {id}, now, base)
        && n == if s.kinds[id].handler then DoAll(Repaired, g, ops) else g;
      assert Extends(s.log, g.log) && g.log[|s.log|].Fired?;
      hide Ok, Run, DoAll;
      if s.kinds[id].handler {
        CallbackLogs(g, ops, done + {id}, todo - {id}, now, base);
      }
      ExtendsTwice(s.log, g.log, n.log);
    }
  }

  lemma RunStaysOut(s: State, x: nat, ops: seq<Op>, id: nat, done: set<nat>, todo: set<nat>, now: int, base: nat)
    requires Ok(s, done, todo, now, base) && x in todo && x < |s.timers| && Out(s, id) && NoStart(ops, id)
    ensures var n := Run(Repaired, s, x, now, ops); Out(n, id) && !FiredSince(n.log, |s.log|, id)
  {
    var n := Run(Repaired, s, x, now, ops);
    RunTakesEffect(s, x, ops, done, todo, now, base);
    RunLogs(s, x, ops, done, todo, now, base);
    if s.timers[x].running && x !in s.queue {
      var g: State :| g.Shape() && FiresInto(s, g, x, now) && Ok(g, done + {x}, todo - {x}, now, base)
        && n == if s.kinds[x].handler then DoAll(Repaired, g, ops) else g;
      assert x != id && Out(g, id);
      if s.kinds[x].handler {
        CallbackStaysOut(g, ops, id, done + {x}, todo - {x}, now, base);
      }
    }
  }

  /** The turn of a timer that does fire, and whose callback cancels another. */
  lemma RunCancels(s: State, x: nat, ops: seq<Op>, c: nat, id: nat, done: set<nat>, todo: set<nat>, now: int, base: nat)
    requires Ok(s, done, todo, now, base) && x in todo && x < |s.timers| && id < |s.timers| && x != id
    requires s.kinds[x].handler && c < |ops| && ops[c] == CancelOp(id) && NoStart(ops[c..], id)
    requires s.timers[x].running && x !in s.queue
    ensures var n := Run(Repaired, s, x, now, ops); Out(n, id) && !FiredSince(n.log, |s.log|, id)
  {
    var n := Run(Repaired, s, x, now, ops);
    RunTakesEffect(s, x, ops, done, todo, now, base);
    RunLogs(s, x, ops, done, todo, now, base);
    var g: State :| g.Shape() && FiresInto(s, g, x, now) && Ok(g, done + {x}, todo - {x}, now, base)
      && n == if s.kinds[x].handler then DoAll(Repaired, g, ops) else g;
    CallbackCancels(g, ops, c, id, done + {x}, todo - {x}, now, base);
  }

  // ---------- a batch ----------

  predicate FromBatch(e: Entry, batch: seq<nat>, script: nat -> seq<Op>, now: int) {
    exists i :: 0 <= i < |batch| && FromTurn(e, batch[i], script(batch[i]), now)
  }

  lemma {:induction false} BatchLogs(s: State, batch: seq<nat>, script: nat -> seq<Op>, done: set<nat>, now: int,
                                     base: nat)
    requires Ok(s, done, Members(batch), now, base) && Distinct(batch) && InRange(s.timers, batch)
    ensures var n := RunBatch(Repaired, s, batch, now, script);
      Extends(s.log, n.log) && forall k | |s.log| <= k < |n.log| :: FromBatch(n.log[k], batch, script, now)
    decreases |batch|
  {
    if batch != [] {
      var x, tail := batch[0], batch[1..];
      var m := Run(Repaired, s, x, now, script(x));
      MembersTail(batch);
      RunKeeps(s, x, script(x), done, Members(batch), now, base);
      RunLogs(s, x, script(x), done, Members(batch), now, base);
      hide Ok, Run, FromTurn;
      BatchLogs(m, tail, script, done + {x}, now, base);
      var n := RunBatch(Repaired, m, tail, now, script);
      ExtendsTwice(s.log, m.log, n.log);
      forall k | |s.log| <= k < |n.log| ensures FromBatch(n.log[k], batch, script, now) {
        if k < |m.log| {
          assert n.log[k] == m.log[k] && FromTurn(n.log[k], batch[0], script(batch[0]), now);
        } else {
          var i :| 0 <= i < |tail| && FromTurn(n.log[k], tail[i], script(tail[i]), now);
          assert tail[i] == batch[i + 1];
        }
      }
    }
  }

  ghost predicate NoneStarts(batch: seq<nat>, script: nat -> seq<Op>, id: nat) {
    forall i | 0 <= i < |batch| :: NoStart(script(batch[i]), id)
  }

  lemma {:induction false} BatchStaysOut(s: State, batch: seq<nat>, script: nat -> seq<Op>, id: nat, done: set<nat>,
                                         now: int, base: nat)
    requires Ok(s, done, Members(batch), now, base) && Distinct(batch) && InRange(s.timers, batch)
    requires Out(s, id) && NoneStarts(batch, script, id)
    ensures var n := RunBatch(Repaired, s, batch, now, script);
      Extends(s.log, n.log) && Out(n, id) && !FiredSince(n.log, |s.log|, id)
    decreases |batch|
  {
    if batch != [] {
      var x, tail := batch[0], batch[1..];
      var m := Run(Repaired, s, x, now, script(x));
      MembersTail(batch);
      RunKeeps(s, x, script(x), done, Members(batch), now, base);
      RunLogs(s, x, script(x), done, Members(batch), now, base);
      RunStaysOut(s, x, script(x), id, done, Members(batch), now, base);
      assert forall i | 0 <= i < |tail| :: tail[i] == batch[i + 1];
      hide Ok, Run, Out, FiredSince, NoStart;
      BatchStaysOut(m, tail, script, id, done + {x}, now, base);
      var n := RunBatch(Repaired, m, tail, now, script);
      ExtendsTwice(s.log, m.log, n.log);
      FiredInEither(s.log, m.log, n.log, id);
    }
  }

  /** Member i of the batch fires and its callback cancels member j, behind it; nothing starts j again. */
  ghost predicate Cancels(batch: seq<nat>, script: nat -> seq<Op>, kinds: seq<Kind>, i: nat, j: nat, c: nat)
  {
    && i < j < |batch| && batch[i] < |kinds| && kinds[batch[i]].handler
    && c < |script(batch[i])| && script(batch[i])[c] == CancelOp(batch[j]) && NoStart(script(batch[i])[c..], batch[j])
    && forall k | i < k < |batch| :: NoStart(script(batch[k]), batch[j])
  }

  lemma {:induction false} BatchCancels(s: State, batch: seq<nat>, script: nat -> seq<Op>, i: nat, j: nat, c: nat,
                                        done: set<nat>, now: int, base: nat)
    requires Ok(s, done, Members(batch), now, base) && Distinct(batch) && InRange(s.timers, batch)
    requires Cancels(batch, script, s.kinds, i, j, c)
    requires FiredSince(RunBatch(Repaired, s, batch, now, script).log, |s.log|, batch[i])
    ensures var n := RunBatch(Repaired, s, batch, now, script);
      Out(n, batch[j]) && !FiredSince(n.log, |s.log|, batch[j])
    decreases |batch|
  {
    var x, tail := batch[0], batch[1..];
    var m, n := Run(Repaired, s, x, now, script(x)), RunBatch(Repaired, s, batch, now, script);
    MembersTail(batch);
    RunKeeps(s, x, script(x), done, Members(batch), now, base);
    RunLogs(s, x, script(x), done, Members(batch), now, base);
    BatchLogs(m, tail, script, done + {x}, now, base);
    FiredInEither(s.log, m.log, n.log, batch[i]);
    FiredInEither(s.log, m.log, n.log, batch[j]);
    assert forall k | 0 <= k < |tail| :: tail[k] == batch[k + 1];
    assert x != batch[j] && batch[j] < |s.timers|;
    NotFiredBy(m.log, |s.log|, x, script(x), now, batch[j]);
    if i == 0 {
      OnlyMembersFire(n.log, |m.log|, tail, script, now, x);
      RunCancels(s, x, script(x), c, batch[j], done, Members(batch), now, base);
      hide Ok, Run, Out, FiredSince, NoStart;
      BatchStaysOut(m, tail, script, batch[j], done + {x}, now, base);
    } else {
      NotFiredBy(m.log, |s.log|, x, script(x), now, batch[i]);
      hide Ok, Run, Out, FiredSince, NoStart;
      assert Cancels(tail, script, m.kinds, i - 1, j - 1, c);
      BatchCancels(m, tail, script, i - 1, j - 1, c, done + {x}, now, base);
    }
  }

  lemma NotFiredBy(log: seq<Entry>, base: nat, x: nat, ops: seq<Op>, now: int, id: nat)
    requires x != id && forall k | base <= k < |log| :: FromTurn(log[k], x, ops, now)
    ensures !FiredSince(log, base, id)
  {
  }

  lemma OnlyMembersFire(log: seq<Entry>, base: nat, batch: seq<nat>, script: nat -> seq<Op>, now: int, id: nat)
    requires id !in batch && forall k | base <= k < |log| :: FromBatch(log[k], batch, script, now)
    ensures !FiredSince(log, base, id)
  {
    forall k | base <= k < |log| && log[k].Fired? ensures log[k].id != id {
      var i :| 0 <= i < |batch| && FromTurn(log[k], batch[i], script(batch[i]), now);
    }
  }

  lemma {:induction false} ResetStaysOut(s: State, batch: seq<nat>, now: int, id: nat)
    requires s.Shape() && InRange(s.timers, batch) && Out(s, id) && !s.fault
    ensures var n := ReinsertAll(Repaired, s, batch, now); Out(n, id) && n.log == s.log
    decreases |batch|
  {
    if batch != [] {
      ResetStaysOut(Reinsert(Repaired, s, batch[0], now), batch[1..], now, id);
    }
  }

  // ---------- a timeout ----------

  /** Cancelling takes effect in the very batch that is fired: a timer of the batch that the callback of an earlier one
      cancels, and that nothing starts again, does not fire in this timeout and does not return to the set. */
  lemma CancelledInBatch(s: State, now: int, script: nat -> seq<Op>, i: nat, j: nat, c: nat)
    requires Quiet(s) && Cancels(Batch(Repaired, s, now), script, s.kinds, i, j, c)
    requires FiredSince(HandleTimeout(Repaired, s, now, script).log, |s.log|, Batch(Repaired, s, now)[i])
    ensures var n, id := HandleTimeout(Repaired, s, now, script), Batch(Repaired, s, now)[j];
      !FiredSince(n.log, |s.log|, id) && id !in n.queue && !n.timers[id].running
  {
    var b, t := Batch(Repaired, s, now), TakeBatch(Repaired, s, now);
    TakeBatchKeeps(s, now);
    RunBatchKeeps(t, b, script, {}, now, |s.log|);
    assert {} + Members(b) == Members(b);
    var r := RunBatch(Repaired, t, b, now, script);
    ReinsertAllKeeps(r, b, now, |s.log|);
    assert HandleTimeout(Repaired, s, now, script).log == r.log;
    BatchCancels(t, b, script, i, j, c, {}, now, |s.log|);
    hide Ok, RunBatch;
    ResetStaysOut(r, b, now, b[j]);
  }

  /** And nothing else keeps a timer of the batch from firing: one that no callback asks to cancel has fired. */
  lemma DueFires(s: State, now: int, script: nat -> seq<Op>, id: nat)
    requires Quiet(s) && id in Batch(Repaired, s, now)
    requires forall x | x in Batch(Repaired, s, now) :: CancelOp(id) !in script(x)
    ensures FiredSince(HandleTimeout(Repaired, s, now, script).log, |s.log|, id)
  {
    var b, t := Batch(Repaired, s, now), TakeBatch(Repaired, s, now);
    TakeBatchKeeps(s, now);
    RunBatchKeeps(t, b, script, {}, now, |s.log|);
    assert {} + Members(b) == Members(b);
    var r := RunBatch(Repaired, t, b, now, script);
    ReinsertAllKeeps(r, b, now, |s.log|);
    BatchLogs(t, b, script, {}, now, |s.log|);
    assert HandleTimeout(Repaired, s, now, script).log == r.log;
    assert TimerOk(r, id, Members(b), {}, now, |s.log|);
    var k :| |s.log| <= k < |r.log| && r.log[k].id == id && !r.log[k].Started?;
    assert FromBatch(r.log[k], b, script, now);
    var i :| 0 <= i < |b| && FromTurn(r.log[k], b[i], script(b[i]), now);
    assert b[i] in b;
  }

  /** Nothing fires in a timeout but timers of its batch. */
  lemma OnlyDueFire(s: State, now: int, script: nat -> seq<Op>, id: nat)
    requires Quiet(s) && id !in Batch(Repaired, s, now)
    ensures !FiredSince(HandleTimeout(Repaired, s, now, script).log, |s.log|, id)
  {
    var b, t := Batch(Repaired, s, now), TakeBatch(Repaired, s, now);
    TakeBatchKeeps(s, now);
    RunBatchKeeps(t, b, script, {}, now, |s.log|);
    assert {} + Members(b) == Members(b);
    var r := RunBatch(Repaired, t, b, now, script);
    ReinsertAllKeeps(r, b, now, |s.log|);
    BatchLogs(t, b, script, {}, now, |s.log|);
    OnlyMembersFire(r.log, |s.log|, b, script, now, id);
  }
}
