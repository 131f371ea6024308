/** server::run and check, scheduler::run, and acceptor: any number of workers pass the right to accept between their
    own pollers, by a try-lock and a one-shot registration.  A transition system: every step is one atomic action of one
    worker, of a client, or of the thread that stops the server. */
module Baton {
  import opened Variants

  datatype Option<T> = None | Some(value: T)

  /** An active event of scheduler::run: the listening socket of an acceptor, or anything else. */
  datatype Event = Ready(a: nat) | Other

  /** Where a worker is.
      Head: the test of m_stop_flag.  Check(i): in check(), about to try acceptor i.  Enable(i): it got the lock of i
      and registers the listening socket with its own poller.  Poll: in epoll_wait.  Serve: between two active events.
      Accept(a): in the accept loop, with the sockets accepted so far.  Unlock(a): behind the loop.  Deliver: the lock
      is released, the sockets still have to become connections.  Exit: run() has returned. */
  datatype Pc = Head | Check(i: nat) | Enable(i: nat) | Poll | Serve
    | Accept(a: nat, sockets: seq<nat>) | Unlock(a: nat, sockets: seq<nat>) | Deliver(sockets: seq<nat>) | Exit

  datatype Worker = Worker(pc: Pc, ready: seq<Event>)

  /** `armed[a]`: the workers in whose epoll the listening socket of `a` is enabled.  `backlog[a]`: connections waiting
      in the kernel.  `arrived` is the history of all clients, `connections` and `closed` the server's.  `code` says
      which code the workers run, and `fault` that one of them left defined behaviour. */
  datatype State = State(workers: seq<Worker>, lock: seq<Option<nat>>, armed: seq<set<nat>>, backlog: seq<seq<nat>>,
                         arrived: seq<nat>, connections: seq<nat>, closed: seq<nat>, stop: bool,
                         code: Variant, fault: bool)
  {
    predicate Shape() {
      |lock| == |armed| == |backlog|
    }

    function At(w: nat, pc: Pc): State
      requires w < |workers|
    {
      this.(workers := workers[w := Worker(pc, workers[w].ready)])
    }
  }

  datatype Action = Loop | TryLock | EnableEvent | EndCheck | PollReturns(events: seq<Event>) | NextEvent
      | CloseOne(k: nat)
    | AcceptOne | AcceptEnds | Release | DeliverOne | EndServe

  datatype Step = Act(w: nat, action: Action) | Arrive(a: nat, fd: nat) | Stop

  ghost predicate NoRepeats(events: seq<Event>) {
    forall i, j | 0 <= i < j < |events| && events[i].Ready? && events[j].Ready? :: events[i].a != events[j].a
  }

  /** When a step may happen.  epoll_wait reports a listening socket only to a poller it is enabled in. */
  ghost predicate Enabled(s: State, e: Step)
    requires s.Shape()
  {
    match e
    case Arrive(a, fd) => a < |s.lock| && fd !in s.arrived
    case Stop => true
    case Act(w, action) => w < |s.workers| && CanAct(s, w, action)
  }

  ghost predicate CanAct(s: State, w: nat, action: Action)
    requires s.Shape() && w < |s.workers|
  {
    var pc, ready := s.workers[w].pc, s.workers[w].ready;
    match action
    case Loop => pc.Head?
    case TryLock => pc.Check? && pc.i < |s.lock|
    case EnableEvent => pc.Enable? && pc.i < |s.lock|
    case EndCheck => pc.Check? && pc.i >= |s.lock|
    case PollReturns(events) =>
      pc.Poll? && NoRepeats(events) &&
      forall k | 0 <= k < |events| && events[k].Ready? :: events[k].a < |s.lock| && w in s.armed[events[k].a]
    case NextEvent => pc.Serve? && ready != []
    case CloseOne(k) => pc.Serve? && k < |s.connections|
    case AcceptOne => pc.Accept? && pc.a < |s.lock| && s.backlog[pc.a] != []
    case AcceptEnds => pc.Accept? && pc.a < |s.lock| && s.backlog[pc.a] == []
    case Release => pc.Unlock? && pc.a < |s.lock|
    case DeliverOne => pc.Deliver?
    case EndServe => pc.Serve? && ready == []
  }

  /** One-shot: reporting a listening socket disables it in the poller that reported it. */
  ghost function Disarm(armed: seq<set<nat>>, w: nat, events: seq<Event>): (r: seq<set<nat>>)
    ensures |r| == |armed|
    ensures forall a: nat | a < |armed| :: r[a] == if Ready(a) in events then armed[a] - {w} else armed[a]
  {
    seq(|armed|, a requires 0 <= a < |armed| => if Ready(a) in events then armed[a] - {w} else armed[a])
  }

  ghost function Do(s: State, e: Step): (n: State)
    requires s.Shape() && Enabled(s, e)
    ensures n.Shape() && |n.workers| == |s.workers| && |n.lock| == |s.lock| && n.code == s.code
  {
    if s.fault then s
    else match e
    case Arrive(a, fd) => s.(backlog := s.backlog[a := s.backlog[a] + [fd]], arrived := s.arrived + [fd])
    case Stop => s.(stop := true)
    case Act(w, action) => DoAction(s, w, action)
  }

  /** acceptor::try_lock, and where it leads.  try_lock on a mutex that the caller owns is undefined; repaired, a worker
      skips an acceptor that is still armed in its own poller. */
  ghost function Try(s: State, w: nat, i: nat): (n: State)
    requires s.Shape() && w < |s.workers| && i < |s.lock|
    ensures n.Shape() && |n.workers| == |s.workers| && |n.lock| == |s.lock|
    ensures n.arrived == s.arrived && n.stop == s.stop && n.code == s.code
  {
    if s.code.Repaired? && w in s.armed[i] then s.At(w, Check(i + 1))
    else if s.lock[i] == Some(w) then s.(fault := true)
    else if s.lock[i].None? then s.At(w, Enable(i)).(lock := s.lock[i := Some(w)])
    else s.At(w, Check(i + 1))
  }

  /** An action inside scheduler::run: between two active events, or in the acceptor's handle_read. */
  ghost function DoServe(s: State, w: nat, action: Action): (n: State)
    requires s.Shape() && w < |s.workers| && CanAct(s, w, action) && Serving(s.workers[w].pc)
    ensures n.Shape() && |n.workers| == |s.workers| && |n.lock| == |s.lock|
    ensures n.arrived == s.arrived && n.stop == s.stop && n.code == s.code
  {
    var pc, ready := s.workers[w].pc, s.workers[w].ready;
    match action
    case NextEvent =>
      s.(workers := s.workers[w := Worker(if ready[0].Ready? then Accept(ready[0].a, []) else Serve, ready[1..])])
    case CloseOne(k) =>
      s.(connections := s.connections[..k] + s.connections[k + 1..], closed := s.closed + [s.connections[k]])
    case AcceptOne =>
      s.At(w, Accept(pc.a, pc.sockets + [s.backlog[pc.a][0]])).(backlog := s.backlog[pc.a := s.backlog[pc.a][1..]])
    case AcceptEnds => s.At(w, Unlock(pc.a, pc.sockets))
    case Release => s.At(w, Deliver(pc.sockets)).(lock := s.lock[pc.a := None])
    case DeliverOne =>
      if pc.sockets == [] then s.At(w, Serve)
      else s.At(w, Deliver(pc.sockets[1..])).(connections := s.connections + [pc.sockets[0]])
    case EndServe => s.At(w, Head)
  }

  ghost function DoAction(s: State, w: nat, action: Action): (n: State)
    requires s.Shape() && w < |s.workers| && CanAct(s, w, action)
    ensures n.Shape() && |n.workers| == |s.workers| && |n.lock| == |s.lock|
    ensures n.arrived == s.arrived && n.stop == s.stop && n.code == s.code
  {
    var pc := s.workers[w].pc;
    if Serving(pc) then DoServe(s, w, action)
    else match action
    case Loop => s.At(w, if s.stop then Exit else Check(0))
    case TryLock => Try(s, w, pc.i)
    case EnableEvent => s.At(w, Check(pc.i + 1)).(armed := s.armed[pc.i := s.armed[pc.i] + {w}])
    case EndCheck => s.At(w, Poll)
    case PollReturns(events) =>
      s.(workers := s.workers[w := Worker(Serve, events)], armed := Disarm(s.armed, w, events))
  }

  // ---------- runs ----------

  ghost predicate Initial(s: State) {
    && s.Shape() && !s.stop && !s.fault
    && |s.workers| > 0 && (forall w | 0 <= w < |s.workers| :: s.workers[w] == Worker(Head, []))
    && (forall a | 0 <= a < |s.lock| :: s.lock[a].None? && s.armed[a] == {} && s.backlog[a] == [])
    && s.arrived == [] && s.connections == [] && s.closed == []
  }

  ghost predicate LegalRun(s: State, es: seq<Step>)
    requires s.Shape()
    decreases |es|
  {
    es == [] || (Enabled(s, es[0]) && LegalRun(Do(s, es[0]), es[1..]))
  }

  ghost function Run(s: State, es: seq<Step>): (n: State)
    requires s.Shape() && LegalRun(s, es)
    ensures n.Shape() && |n.lock| == |s.lock| && |n.workers| == |s.workers| && n.code == s.code
    decreases |es|
  {
    if es == [] then s else Run(Do(s, es[0]), es[1..])
  }

  // ---------- the baton ----------

  function Pending(ready: seq<Event>, a: nat): nat
    decreases |ready|
  {
    if ready == [] then 0 else (if ready[0] == Ready(a) then 1 else 0) + Pending(ready[1..], a)
  }

  /** How often the baton of `a` appears at worker `w`: about to be armed, armed in its poller, reported to it, or being
      used to accept. */
  ghost function Claims(s: State, w: nat, a: nat): nat
    requires s.Shape() && w < |s.workers| && a < |s.lock|
  {
    var pc := s.workers[w].pc;
    (if w in s.armed[a] then 1 else 0) + Pending(s.workers[w].ready, a)
    + (if pc == Enable(a) || (pc.Accept? && pc.a == a) || (pc.Unlock? && pc.a == a) then 1 else 0)
  }

  /** The holder of the lock has the baton in exactly one place, and nobody else has it anywhere. */
  ghost predicate BatonAt(s: State, w: nat, a: nat)
    requires s.Shape() && w < |s.workers| && a < |s.lock|
  {
    Claims(s, w, a) == if s.lock[a] == Some(w) then 1 else 0
  }

  /** The worker comes to `a` in a check() before it next waits in epoll_wait. */
  ghost predicate WillCheck(s: State, w: nat, a: nat)
    requires w < |s.workers|
  {
    match s.workers[w].pc
    case Check(i) => i <= a
    case Enable(i) => i < a
    case Poll => false
    case Exit => false
    case _ => true
  }

  ghost predicate SomeoneWillCheck(s: State, a: nat) {
    exists w: nat :: w < |s.workers| && WillCheck(s, w, a)
  }

  /** Holders and armed pollers exist, and only a worker inside scheduler::run has active events. */
  ghost predicate Ranges(s: State)
    requires s.Shape()
  {
    && (forall a: nat | a < |s.lock| && s.lock[a].Some? :: s.lock[a].value < |s.workers|)
    && (forall a: nat | a < |s.lock| :: forall w | w in s.armed[a] :: w < |s.workers|)
    && (forall w: nat | w < |s.workers| && !Serving(s.workers[w].pc) :: s.workers[w].ready == [])
  }

  ghost predicate Inv(s: State) {
    && s.Shape()
    && (forall w: nat, a: nat | w < |s.workers| && a < |s.lock| :: BatonAt(s, w, a))
    && Ranges(s)
    && (!s.stop ==> forall a: nat | a < |s.lock| && s.lock[a].None? :: SomeoneWillCheck(s, a))
  }

  predicate Serving(pc: Pc) {
    pc.Serve? || pc.Accept? || pc.Unlock? || pc.Deliver?
  }

  lemma {:induction false} PendingIsOne(events: seq<Event>, a: nat)
    requires NoRepeats(events)
    ensures Pending(events, a) == if Ready(a) in events then 1 else 0
    decreases |events|
  {
    if events != [] {
      var tail := events[1..];
      assert events == [events[0]] + tail;
      forall i, j | 0 <= i < j < |tail| && tail[i].Ready? && tail[j].Ready? ensures tail[i].a != tail[j].a {
        assert tail[i] == events[i + 1] && tail[j] == events[j + 1];
      }
      forall j | 0 <= j < |tail| ensures events[0].Ready? ==> tail[j] != events[0] {
        assert tail[j] == events[j + 1];
      }
      PendingIsOne(tail, a);
    }
  }

  /** What an action does to the worker that takes it. */
  lemma ActorKeepsBaton(s: State, w: nat, action: Action, a: nat)
    requires s.Shape() && w < |s.workers| && a < |s.lock| && CanAct(s, w, action) && BatonAt(s, w, a)
    requires !Serving(s.workers[w].pc) ==> s.workers[w].ready == []
    ensures BatonAt(DoAction(s, w, action), w, a)
  {
    if Serving(s.workers[w].pc) {
      ServeKeepsBaton(s, w, action, a);
    } else if action.PollReturns? {
      ReportKeepsBaton(s, w, action.events, a);
    } else if action.EnableEvent? && s.workers[w].pc.i == a {
      hide DoServe;
      assert w !in s.armed[a];
    } else {
      hide DoServe;
    }
  }

  lemma ServeKeepsBaton(s: State, w: nat, action: Action, a: nat)
    requires s.Shape() && w < |s.workers| && a < |s.lock| && CanAct(s, w, action) && BatonAt(s, w, a)
    requires Serving(s.workers[w].pc)
    ensures BatonAt(DoAction(s, w, action), w, a)
  {
  }

  lemma ReportKeepsBaton(s: State, w: nat, events: seq<Event>, a: nat)
    requires s.Shape() && w < |s.workers| && a < |s.lock| && CanAct(s, w, PollReturns(events)) && BatonAt(s, w, a)
    requires s.workers[w].ready == []
    ensures BatonAt(DoAction(s, w, PollReturns(events)), w, a)
  {
    ReportedOnce(s, w, events, a);
  }

  /** What it does to the others: nothing, since the lock changes hands only through its holder. */
  lemma OthersKeepBaton(s: State, w: nat, action: Action, x: nat, a: nat)
    requires s.Shape() && w < |s.workers| && x < |s.workers| && x != w && a < |s.lock| && CanAct(s, w, action)
    requires BatonAt(s, w, a) && BatonAt(s, x, a)
    ensures BatonAt(DoAction(s, w, action), x, a)
  {
    var n := DoAction(s, w, action);
    assert n.workers[x] == s.workers[x];
    assert x in n.armed[a] <==> x in s.armed[a];
    assert n.lock[a] == Some(x) <==> s.lock[a] == Some(x);
  }

  lemma StepKeepsBaton(s: State, e: Step)
    requires Inv(s) && Enabled(s, e)
    ensures var n := Do(s, e);
      forall w: nat, a: nat | w < |n.workers| && a < |n.lock| :: BatonAt(n, w, a)
  {
    var n := Do(s, e);
    forall w: nat, a: nat | w < |n.workers| && a < |n.lock| ensures BatonAt(n, w, a) {
      assert BatonAt(s, w, a);
      if e.Act? {
        assert BatonAt(s, e.w, a);
        if e.w == w {
          ActorKeepsBaton(s, w, e.action, a);
        } else {
          OthersKeepBaton(s, e.w, e.action, w, a);
        }
      }
    }
  }

  lemma ReportedOnce(s: State, w: nat, events: seq<Event>, a: nat)
    requires s.Shape() && w < |s.workers| && CanAct(s, w, PollReturns(events)) && a < |s.lock|
    ensures Pending(events, a) == if Ready(a) in events then 1 else 0
    ensures Ready(a) in events ==> w in s.armed[a]
  {
    PendingIsOne(events, a);
    if Ready(a) in events {
      var k :| 0 <= k < |events| && events[k] == Ready(a);
      assert w in s.armed[events[k].a];
    }
  }

  /** A worker that comes round to an acceptor holds its lock exactly when the acceptor is still armed in its poller. */
  lemma OwnerIsArmed(s: State, w: nat, a: nat)
    requires Inv(s) && w < |s.workers| && a < |s.lock| && s.workers[w].pc == Check(a)
    ensures s.lock[a] == Some(w) <==> w in s.armed[a]
  {
    assert BatonAt(s, w, a) && !Serving(s.workers[w].pc);
  }

  lemma StepKeepsWatch(s: State, e: Step)
    requires Inv(s) && Enabled(s, e)
    ensures var n := Do(s, e);
      !n.stop ==> forall a: nat | a < |n.lock| && n.lock[a].None? :: SomeoneWillCheck(n, a)
  {
    hide Do, Enabled, WillCheck;
    var n := Do(s, e);
    StopIsFinal(s, e);
    if !n.stop {
      forall a: nat | a < |n.lock| && n.lock[a].None? ensures SomeoneWillCheck(n, a) {
        if s.lock[a].None? {
          assert SomeoneWillCheck(s, a);
          var w: nat :| w < |s.workers| && WillCheck(s, w, a);
          FreeStaysWatched(s, e, w, a);
        } else {
          var w := ReleaserWillCheck(s, e, a);
        }
      }
    }
  }

  lemma StopIsFinal(s: State, e: Step)
    requires s.Shape() && Enabled(s, e)
    ensures s.stop ==> Do(s, e).stop
  {
    hide DoServe, Try;
  }

  /** A worker that tries a free lock takes it, so while the lock stays free the promise stays. */
  lemma FreeStaysWatched(s: State, e: Step, w: nat, a: nat)
    requires Inv(s) && Enabled(s, e) && w < |s.workers| && a < |s.lock| && WillCheck(s, w, a) && !s.stop
    requires s.lock[a].None? && Do(s, e).lock[a].None?
    ensures WillCheck(Do(s, e), w, a)
  {
    if e == Act(w, TryLock) && s.workers[w].pc == Check(a) {
      OwnerIsArmed(s, w, a);
      hide DoServe;
    } else {
      PromiseStays(s, e, w, a);
    }
  }

  lemma ReleaserWillCheck(s: State, e: Step, a: nat) returns (w: nat)
    requires Inv(s) && Enabled(s, e) && a < |s.lock| && s.lock[a].Some? && Do(s, e).lock[a].None?
    ensures w < |Do(s, e).workers| && WillCheck(Do(s, e), w, a)
  {
    w := e.w;
  }

  lemma StepKeepsInv(s: State, e: Step)
    requires Inv(s) && Enabled(s, e)
    ensures Inv(Do(s, e))
  {
    hide Do, Enabled, BatonAt, SomeoneWillCheck, Ranges;
    StepKeepsBaton(s, e);
    StepKeepsWatch(s, e);
    StepKeepsRanges(s, e);
  }

  lemma ServeKeepsRanges(s: State, w: nat, action: Action)
    requires s.Shape() && Ranges(s) && w < |s.workers| && CanAct(s, w, action) && Serving(s.workers[w].pc)
    ensures Ranges(DoServe(s, w, action))
  {
  }

  lemma CheckKeepsRanges(s: State, w: nat, action: Action)
    requires s.Shape() && Ranges(s) && w < |s.workers| && CanAct(s, w, action) && !Serving(s.workers[w].pc)
    ensures Ranges(DoAction(s, w, action))
  {
    hide DoServe, NoRepeats;
    if action.TryLock? {
      TryKeepsRanges(s, w, s.workers[w].pc.i);
    }
    hide Try;
  }

  lemma TryKeepsRanges(s: State, w: nat, i: nat)
    requires s.Shape() && Ranges(s) && w < |s.workers| && i < |s.lock| && !Serving(s.workers[w].pc)
    ensures Ranges(Try(s, w, i))
  {
  }

  lemma StepKeepsRanges(s: State, e: Step)
    requires s.Shape() && Ranges(s) && Enabled(s, e)
    ensures Ranges(Do(s, e))
  {
    hide DoServe, Try;
    if e.Act? && !s.fault {
      if Serving(s.workers[e.w].pc) {
        ServeKeepsRanges(s, e.w, e.action);
      } else {
        CheckKeepsRanges(s, e.w, e.action);
      }
    }
  }

  lemma InitialInv(s: State)
    requires Initial(s)
    ensures Inv(s)
  {
    forall a: nat | a < |s.lock| ensures SomeoneWillCheck(s, a) {
      assert WillCheck(s, 0, a);
    }
  }

  lemma {:induction false} RunKeepsInv(s: State, es: seq<Step>)
    requires Inv(s) && LegalRun(s, es)
    ensures Inv(Run(s, es))
    decreases |es|
  {
    if es != [] {
      StepKeepsInv(s, es[0]);
      RunKeepsInv(Do(s, es[0]), es[1..]);
    }
  }

  /** No lost baton, for any number of workers and acceptors and in every reachable state: a free lock has a worker
      that will try it before it waits again, and a held lock has its baton in exactly one place at the holder. */
  lemma NoLostBaton(s: State, es: seq<Step>, a: nat)
    requires Initial(s) && LegalRun(s, es) && a < |s.lock|
    ensures var n := Run(s, es);
      && (!n.stop && n.lock[a].None? ==> SomeoneWillCheck(n, a))
      && (n.lock[a].Some? ==> n.lock[a].value < |n.workers| && Claims(n, n.lock[a].value, a) == 1)
      && (forall w: nat | w < |n.workers| && n.lock[a] != Some(w) :: Claims(n, w, a) == 0)
  {
    InitialInv(s);
    RunKeepsInv(s, es);
    var n := Run(s, es);
    if n.lock[a].Some? {
      assert BatonAt(n, n.lock[a].value, a);
    }
    forall w: nat | w < |n.workers| && n.lock[a] != Some(w) ensures Claims(n, w, a) == 0 {
      assert BatonAt(n, w, a);
    }
  }

  /** On the way, worker `w` tries the lock of `a`. */
  ghost predicate Tries(s: State, es: seq<Step>, w: nat, a: nat)
    requires s.Shape() && LegalRun(s, es) && w < |s.workers|
    decreases |es|
  {
    es != [] && ((es[0] == Act(w, TryLock) && s.workers[w].pc == Check(a)) || Tries(Do(s, es[0]), es[1..], w, a))
  }

  lemma {:induction false} StopStays(s: State, es: seq<Step>)
    requires s.Shape() && LegalRun(s, es) && s.stop
    ensures Run(s, es).stop
    decreases |es|
  {
    if es != [] {
      StopStays(Do(s, es[0]), es[1..]);
    }
  }

  lemma OthersPromise(s: State, e: Step, w: nat)
    requires s.Shape() && Enabled(s, e) && w < |s.workers| && (e.Act? ==> e.w != w)
    ensures Do(s, e).workers[w] == s.workers[w]
  {
  }

  lemma OwnPromise(s: State, w: nat, action: Action, a: nat)
    requires s.Shape() && w < |s.workers| && CanAct(s, w, action) && a < |s.lock| && WillCheck(s, w, a) && !s.stop
    requires !(action.TryLock? && s.workers[w].pc == Check(a))
    ensures WillCheck(DoAction(s, w, action), w, a)
  {
  }

  /** No step but the try itself, and stopping, takes the promise back. */
  lemma PromiseStays(s: State, e: Step, w: nat, a: nat)
    requires s.Shape() && Enabled(s, e) && w < |s.workers| && a < |s.lock| && WillCheck(s, w, a) && !s.stop
    requires !(e == Act(w, TryLock) && s.workers[w].pc == Check(a))
    ensures WillCheck(Do(s, e), w, a)
  {
    hide DoAction;
    if e.Act? && e.w == w {
      OwnPromise(s, w, e.action, a);
    } else {
      OthersPromise(s, e, w);
    }
  }

  /** What WillCheck promises: in every continuation in which the worker comes to wait in epoll_wait before a stop, it
      has tried the lock of `a`. */
  lemma {:induction false} WillCheckTries(s: State, es: seq<Step>, w: nat, a: nat)
    requires s.Shape() && LegalRun(s, es) && w < |s.workers| && a < |s.lock| && WillCheck(s, w, a)
    requires !Run(s, es).stop && Run(s, es).workers[w].pc.Poll?
    ensures Tries(s, es, w, a)
    decreases |es|
  {
    if s.stop {
      StopStays(s, es);
    }
    if es != [] && !(es[0] == Act(w, TryLock) && s.workers[w].pc == Check(a)) {
      PromiseStays(s, es[0], w, a);
      hide Do, WillCheck;
      WillCheckTries(Do(s, es[0]), es[1..], w, a);
    }
  }

  /** So a free lock does not stay unnoticed: in every reachable state before a stop there is a worker that cannot come
      to wait without having tried it. */
  lemma FreeLockIsTried(s: State, es: seq<Step>, a: nat) returns (w: nat)
    requires Initial(s) && LegalRun(s, es) && a < |s.lock| && !Run(s, es).stop && Run(s, es).lock[a].None?
    ensures w < |Run(s, es).workers|
    ensures forall fs: seq<Step> | LegalRun(Run(s, es), fs) && !Run(Run(s, es), fs).stop
                                   && Run(Run(s, es), fs).workers[w].pc.Poll? :: Tries(Run(s, es), fs, w, a)
  {
    NoLostBaton(s, es, a);
    var n := Run(s, es);
    w :| w < |n.workers| && WillCheck(n, w, a);
    forall fs: seq<Step> | LegalRun(n, fs) && !Run(n, fs).stop && Run(n, fs).workers[w].pc.Poll?
      ensures Tries(n, fs, w, a)
    {
      WillCheckTries(n, fs, w, a);
    }
  }

  // ---------- check() never waits, and a round ends ----------

  /** What a try comes to: a free lock is taken, and the acceptor armed with the next step; a lock that another worker
      holds is passed, and everything but the worker's own place is as it was. */
  lemma TryTakesOrPasses(s: State, w: nat, a: nat)
    requires Inv(s) && w < |s.workers| && a < |s.lock| && !s.fault && s.workers[w].pc == Check(a)
    ensures var n := Do(s, Act(w, TryLock));
      && (s.lock[a].None? ==> n == s.(lock := s.lock[a := Some(w)], workers := n.workers)
                              && n.workers == s.workers[w := Worker(Enable(a), s.workers[w].ready)])
      && (s.lock[a].Some? && s.lock[a] != Some(w) ==>
            n == s.(workers := s.workers[w := Worker(Check(a + 1), s.workers[w].ready)]))
      && (s.lock[a] == Some(w) && !n.fault ==>
            n == s.(workers := s.workers[w := Worker(Check(a + 1), s.workers[w].ready)]))
  {
    OwnerIsArmed(s, w, a);
    assert BatonAt(s, w, a);
  }

  lemma EnableArms(s: State, w: nat, a: nat)
    requires s.Shape() && w < |s.workers| && a < |s.lock| && !s.fault && s.workers[w].pc == Enable(a)
    ensures Do(s, Act(w, EnableEvent)) ==
      s.(armed := s.armed[a := s.armed[a] + {w}], workers := s.workers[w := Worker(Check(a + 1), s.workers[w].ready)])
  {
  }

  /** The head of the loop starts a check() at the first acceptor, or ends run() when the server is stopping. */
  lemma LoopObeysStop(s: State, w: nat)
    requires s.Shape() && w < |s.workers| && !s.fault && s.workers[w].pc == Head
    ensures Do(s, Act(w, Loop)).workers[w].pc == (if s.stop then Exit else Check(0))
  {
  }

  predicate InCheck(pc: Pc) {
    pc.Check? || pc.Enable?
  }

  /** How many steps of check() are left, at most: a try and an enabling for each acceptor, and the way out. */
  function StepsLeft(s: State, w: nat): nat
    requires w < |s.workers|
  {
    match s.workers[w].pc
    case Check(i) => if i < |s.lock| then 2 * (|s.lock| - i) + 1 else 1
    case Enable(i) => if i < |s.lock| then 2 * (|s.lock| - i) else 2
    case _ => 0
  }

  /** A worker can always go on, whoever holds the locks, unless it waits in epoll_wait or run() has returned. */
  lemma NeverStuck(s: State, w: nat) returns (action: Action)
    requires s.Shape() && InBounds(s) && w < |s.workers| && !s.workers[w].pc.Poll? && !s.workers[w].pc.Exit?
    ensures Enabled(s, Act(w, action)) && !action.PollReturns?
  {
    var pc, ready := s.workers[w].pc, s.workers[w].ready;
    match pc {
      case Head => action := Loop;
      case Check(i) => action := if i < |s.lock| then TryLock else EndCheck;
      case Enable(_) => action := EnableEvent;
      case Serve => action := if ready == [] then EndServe else NextEvent;
      case Accept(a, _) => action := if s.backlog[a] == [] then AcceptEnds else AcceptOne;
      case Unlock(_, _) => action := Release;
      case Deliver(_) => action := DeliverOne;
    }
  }

  /** Workers are busy with acceptors that exist. */
  ghost predicate BusyInBounds(k: nat, worker: Worker) {
    && (worker.pc.Enable? ==> worker.pc.i < k) && (worker.pc.Accept? || worker.pc.Unlock? ==> worker.pc.a < k)
    && forall j | 0 <= j < |worker.ready| && worker.ready[j].Ready? :: worker.ready[j].a < k
  }

  ghost predicate InBounds(s: State) {
    forall w | 0 <= w < |s.workers| :: BusyInBounds(|s.lock|, s.workers[w])
  }

  lemma {:induction false} RunInBounds(s: State, es: seq<Step>)
    requires s.Shape() && LegalRun(s, es) && InBounds(s)
    ensures InBounds(Run(s, es))
    decreases |es|
  {
    if es != [] {
      StepInBounds(s, es[0]);
      RunInBounds(Do(s, es[0]), es[1..]);
    }
  }

  lemma StepInBounds(s: State, e: Step)
    requires s.Shape() && Enabled(s, e) && InBounds(s)
    ensures InBounds(Do(s, e))
  {
    if e.Act? && !s.fault {
      var n := Do(s, e);
      if Serving(s.workers[e.w].pc) {
        ServeInBounds(s, e.w, e.action);
      } else {
        hide DoServe, NoRepeats;
        assert BusyInBounds(|s.lock|, s.workers[e.w]);
      }
      forall x | 0 <= x < |n.workers| ensures BusyInBounds(|n.lock|, n.workers[x]) {
        if x != e.w {
          OthersPromise(s, e, x);
        }
      }
    }
  }

  lemma ServeInBounds(s: State, w: nat, action: Action)
    requires s.Shape() && w < |s.workers| && CanAct(s, w, action) && Serving(s.workers[w].pc)
    requires BusyInBounds(|s.lock|, s.workers[w])
    ensures BusyInBounds(|s.lock|, DoServe(s, w, action).workers[w])
  {
    var ready := s.workers[w].ready;
    assert forall j | 0 <= j < |ready| - 1 :: ready[1..][j] == ready[j + 1];
  }

  /** Every step of its own brings it nearer to epoll_wait: it does not wait for a lock. */
  lemma CheckGoesOn(s: State, w: nat, action: Action)
    requires s.Shape() && w < |s.workers| && InCheck(s.workers[w].pc) && CanAct(s, w, action) && !s.fault
    ensures var n := Do(s, Act(w, action));
      n.fault || (StepsLeft(n, w) < StepsLeft(s, w) && (InCheck(n.workers[w].pc) || n.workers[w].pc.Poll?))
  {
  }

  function OwnSteps(es: seq<Step>, w: nat): nat
    decreases |es|
  {
    if es == [] then 0 else (if es[0].Act? && es[0].w == w then 1 else 0) + OwnSteps(es[1..], w)
  }

  /** On the way, worker `w` comes to epoll_wait. */
  ghost predicate ComesToPoll(s: State, es: seq<Step>, w: nat)
    requires s.Shape() && LegalRun(s, es) && w < |s.workers|
    decreases |es|
  {
    s.workers[w].pc.Poll? || (es != [] && ComesToPoll(Do(s, es[0]), es[1..], w))
  }

  lemma PollingComes(s: State, es: seq<Step>, w: nat)
    requires s.Shape() && LegalRun(s, es) && w < |s.workers| && s.workers[w].pc.Poll?
    ensures ComesToPoll(s, es, w)
  {
  }

  /** So whatever the others do meanwhile, and whoever holds the locks: after so many steps of its own a worker inside
      check() has come to epoll_wait. */
  lemma {:induction false} CheckEnds(s: State, es: seq<Step>, w: nat)
    requires s.Shape() && LegalRun(s, es) && w < |s.workers| && InCheck(s.workers[w].pc) && !Run(s, es).fault
    requires OwnSteps(es, w) >= StepsLeft(s, w)
    ensures ComesToPoll(s, es, w)
    decreases |es|
  {
    if s.fault {
      FaultStays(s, es);
    }
    if es != [] {
      var n := Do(s, es[0]);
      if es[0].Act? && es[0].w == w {
        CheckGoesOn(s, w, es[0].action);
        if n.fault {
          FaultStays(n, es[1..]);
        }
      } else {
        OthersPromise(s, es[0], w);
        assert |n.lock| == |s.lock|;
      }
      if n.workers[w].pc.Poll? {
        PollingComes(n, es[1..], w);
      } else {
        CheckEnds(n, es[1..], w);
      }
    }
  }

  /** Where a worker stands between two polls: head, check and poll; before that its active events, one after the
      other, and inside accept the clients still to be accepted or handed over. */
  function Place(s: State, w: nat): (p: (nat, nat, nat, nat))
    requires s.Shape() && w < |s.workers|
  {
    var pc, ready := s.workers[w].pc, s.workers[w].ready;
    match pc
    case Accept(a, _) => (3, |ready|, 4, if a < |s.backlog| then |s.backlog[a]| else 0)
    case Unlock(_, _) => (3, |ready|, 3, 0)
    case Deliver(sockets) => (3, |ready|, 2, |sockets|)
    case Serve => (3, |ready|, 1, |s.connections|)
    case Head => (2, 0, 0, 0)
    case Poll => (0, 0, 0, 0)
    case Exit => (0, 0, 0, 0)
    case _ => (1, 0, 0, StepsLeft(s, w))
  }

  predicate Nearer(p: (nat, nat, nat, nat), q: (nat, nat, nat, nat)) {
    || p.0 < q.0
    || (p.0 == q.0 && p.1 < q.1)
    || (p.0 == q.0 && p.1 == q.1 && p.2 < q.2)
    || (p.0 == q.0 && p.1 == q.1 && p.2 == q.2 && p.3 < q.3)
  }

  /** Every step of a worker but the return of epoll_wait brings it nearer to its next epoll_wait, or to the end of
      run(): events are taken up one after the other, the accept loop ends with the backlog, every client is handed
      over, and the loop goes on. */
  lemma RoundGoesOn(s: State, w: nat, action: Action)
    requires s.Shape() && w < |s.workers| && CanAct(s, w, action) && !s.fault && !action.PollReturns?
    ensures var n := Do(s, Act(w, action)); n.fault || Nearer(Place(n, w), Place(s, w))
  {
    if Serving(s.workers[w].pc) {
      ServeGoesOn(s, w, action);
    } else if InCheck(s.workers[w].pc) {
      CheckGoesOn(s, w, action);
      hide DoServe, Try;
    }
  }

  lemma ServeGoesOn(s: State, w: nat, action: Action)
    requires s.Shape() && w < |s.workers| && CanAct(s, w, action) && Serving(s.workers[w].pc)
    ensures Nearer(Place(DoServe(s, w, action), w), Place(s, w))
  {
  }

  // ---------- trying a lock one holds ----------

  /** On the way, some worker comes round to an acceptor that is still armed in its own poller. */
  ghost predicate ComesRoundArmed(s: State, es: seq<Step>)
    requires s.Shape() && LegalRun(s, es)
    decreases |es|
  {
    es != [] && (TriesArmed(s, es[0]) || ComesRoundArmed(Do(s, es[0]), es[1..]))
  }

  ghost predicate TriesArmed(s: State, e: Step)
    requires s.Shape() && Enabled(s, e)
  {
    e.Act? && e.action.TryLock? && e.w in s.armed[s.workers[e.w].pc.i]
  }

  lemma StepFaultsExactlyWhen(s: State, e: Step)
    requires Inv(s) && Enabled(s, e) && !s.fault
    ensures Do(s, e).fault <==> s.code.AsWritten? && TriesArmed(s, e)
  {
    if e.Act? && e.action.TryLock? {
      OwnerIsArmed(s, e.w, s.workers[e.w].pc.i);
    }
  }

  lemma {:induction false} FaultStays(s: State, es: seq<Step>)
    requires s.Shape() && LegalRun(s, es) && s.fault
    ensures Run(s, es) == s
    decreases |es|
  {
    if es != [] {
      FaultStays(s, es[1..]);
    }
  }

  /** Over every run: the committed code tries a lock its own worker holds exactly when a worker comes round to an
      acceptor that is still armed in its poller; the repaired code never does. */
  lemma {:induction false} RunFaultsExactlyWhen(s: State, es: seq<Step>)
    requires Inv(s) && LegalRun(s, es) && !s.fault
    ensures Run(s, es).fault <==> s.code.AsWritten? && ComesRoundArmed(s, es)
    decreases |es|
  {
    if es != [] {
      StepFaultsExactlyWhen(s, es[0]);
      StepKeepsInv(s, es[0]);
      if Do(s, es[0]).fault {
        FaultStays(Do(s, es[0]), es[1..]);
      } else {
        hide Do, Inv, TriesArmed;
        RunFaultsExactlyWhen(Do(s, es[0]), es[1..]);
      }
    }
  }

  /** One worker and one acceptor. */
  function Lone(code: Variant, pc: Pc, lock: Option<nat>, armed: set<nat>): (s: State)
    ensures s.Shape()
  {
    State([Worker(pc, [])], [lock], [armed], [[]], [], [], [], false, code, false)
  }

  const ROUND: seq<Action> := [Loop, TryLock, EnableEvent, EndCheck, PollReturns([]), EndServe, Loop, TryLock]

  ghost predicate LoneStep(s: State, action: Action, n: State) {
    s.Shape() && Enabled(s, Act(0, action)) && Do(s, Act(0, action)) == n
  }

  /** Its first round takes the lock and arms the acceptor; poll returns without a client, and the second round tries
      the lock it holds. */
  lemma OwnerTriesAgain(code: Variant)
    ensures Initial(Lone(code, Head, None, {}))
    ensures LoneStep(Lone(code, Head, None, {}), ROUND[0], Lone(code, Check(0), None, {}))
    ensures LoneStep(Lone(code, Check(0), None, {}), ROUND[1], Lone(code, Enable(0), Some(0), {}))
    ensures LoneStep(Lone(code, Enable(0), Some(0), {}), ROUND[2], Lone(code, Check(1), Some(0), {0}))
    ensures LoneStep(Lone(code, Check(1), Some(0), {0}), ROUND[3], Lone(code, Poll, Some(0), {0}))
    ensures LoneStep(Lone(code, Poll, Some(0), {0}), ROUND[4], Lone(code, Serve, Some(0), {0}))
    ensures LoneStep(Lone(code, Serve, Some(0), {0}), ROUND[5], Lone(code, Head, Some(0), {0}))
    ensures LoneStep(Lone(code, Head, Some(0), {0}), ROUND[6], Lone(code, Check(0), Some(0), {0}))
    ensures LoneStep(Lone(code, Check(0), Some(0), {0}), ROUND[7],
                     if code.AsWritten? then Lone(code, Check(0), Some(0), {0}).(fault := true)
                     else Lone(code, Check(1), Some(0), {0}))
  {
    hide DoAction;
    LoneTries(code);
    LonePolls(code);
    LoneEnables(code);
    LoneLoops(code, None, {});
    LoneLoops(code, Some(0), {0});
    LoneEnds(code, Some(0), {0});
  }

  lemma LoneEnables(code: Variant)
    ensures LoneStep(Lone(code, Enable(0), Some(0), {}), EnableEvent, Lone(code, Check(1), Some(0), {0}))
  {
    hide Try, DoServe;
    assert {0 as nat} == {} + {0};
  }

  lemma LoneLoops(code: Variant, lock: Option<nat>, armed: set<nat>)
    ensures LoneStep(Lone(code, Head, lock, armed), Loop, Lone(code, Check(0), lock, armed))
    ensures LoneStep(Lone(code, Check(1), lock, armed), EndCheck, Lone(code, Poll, lock, armed))
  {
    hide Try, DoServe;
  }

  lemma LoneEnds(code: Variant, lock: Option<nat>, armed: set<nat>)
    ensures LoneStep(Lone(code, Serve, lock, armed), EndServe, Lone(code, Head, lock, armed))
  {
    hide Try;
  }

  lemma LoneTries(code: Variant)
    ensures LoneStep(Lone(code, Check(0), None, {}), TryLock, Lone(code, Enable(0), Some(0), {}))
    ensures LoneStep(Lone(code, Check(0), Some(0), {0}), TryLock,
                     if code.AsWritten? then Lone(code, Check(0), Some(0), {0}).(fault := true)
                     else Lone(code, Check(1), Some(0), {0}))
  {
  }

  lemma LonePolls(code: Variant)
    ensures LoneStep(Lone(code, Poll, Some(0), {0}), PollReturns([]), Lone(code, Serve, Some(0), {0}))
  {
    var s := Lone(code, Poll, Some(0), {0});
    assert Disarm(s.armed, 0, []) == s.armed;
  }

  /** A server at rest listens: when every worker waits in epoll_wait, each acceptor is enabled in one poller. */
  lemma RestingServerListens(s: State, es: seq<Step>, a: nat)
    requires Initial(s) && LegalRun(s, es) && a < |s.lock| && !Run(s, es).stop
    requires forall w | 0 <= w < |Run(s, es).workers| :: Run(s, es).workers[w].pc.Poll?
    ensures exists w: nat :: Run(s, es).lock[a] == Some(w) && Run(s, es).armed[a] == {w}
  {
    InitialInv(s);
    RunKeepsInv(s, es);
    var n := Run(s, es);
    assert !SomeoneWillCheck(n, a);
    var w := n.lock[a].value;
    assert BatonAt(n, w, a) && w in n.armed[a];
    forall x | x in n.armed[a] ensures x == w {
      assert BatonAt(n, x, a);
    }
    assert n.armed[a] == {w};
  }

  /** At most one worker is inside accept on an acceptor, and only the holder comes to unlock it. */
  lemma AcceptIsExclusive(s: State, es: seq<Step>, a: nat, w: nat, x: nat)
    requires Initial(s) && LegalRun(s, es)
    requires var n := Run(s, es); a < |n.lock| && w < |n.workers| && x < |n.workers|
    requires var p := Run(s, es).workers[w].pc; (p.Accept? && p.a == a) || (p.Unlock? && p.a == a)
    ensures Run(s, es).lock[a] == Some(w)
    ensures var q := Run(s, es).workers[x].pc; (q.Accept? && q.a == a) || (q.Unlock? && q.a == a) ==> x == w
  {
    InitialInv(s);
    RunKeepsInv(s, es);
    assert BatonAt(Run(s, es), w, a) && BatonAt(Run(s, es), x, a);
  }

  // ---------- every accepted descriptor is in one place ----------

  function Times(fd: nat, q: seq<nat>): nat {
    multiset(q)[fd]
  }

  /** How often a worker's local list holds `fd`. */
  function Held(w: Worker, fd: nat): nat {
    match w.pc
    case Accept(_, sockets) => Times(fd, sockets)
    case Unlock(_, sockets) => Times(fd, sockets)
    case Deliver(sockets) => Times(fd, sockets)
    case _ => 0
  }

  function AllHeld(ws: seq<Worker>, fd: nat): nat
    decreases |ws|
  {
    if ws == [] then 0 else Held(ws[0], fd) + AllHeld(ws[1..], fd)
  }

  function AllWaiting(backlog: seq<seq<nat>>, fd: nat): nat
    decreases |backlog|
  {
    if backlog == [] then 0 else Times(fd, backlog[0]) + AllWaiting(backlog[1..], fd)
  }

  /** In how many places a client is: kernel backlogs, workers' lists, the server's connections, and closed. */
  function Places(s: State, fd: nat): nat {
    AllWaiting(s.backlog, fd) + AllHeld(s.workers, fd) + Times(fd, s.connections) + Times(fd, s.closed)
  }

  lemma {:induction false} HeldUpdate(ws: seq<Worker>, w: nat, x: Worker, fd: nat)
    requires w < |ws|
    ensures AllHeld(ws[w := x], fd) + Held(ws[w], fd) == AllHeld(ws, fd) + Held(x, fd)
    decreases |ws|
  {
    if w == 0 {
      assert ws[0 := x][1..] == ws[1..];
    } else {
      assert ws[w := x][1..] == ws[1..][w - 1 := x];
      HeldUpdate(ws[1..], w - 1, x, fd);
    }
  }

  lemma {:induction false} WaitingUpdate(bs: seq<seq<nat>>, a: nat, x: seq<nat>, fd: nat)
    requires a < |bs|
    ensures AllWaiting(bs[a := x], fd) + Times(fd, bs[a]) == AllWaiting(bs, fd) + Times(fd, x)
    decreases |bs|
  {
    if a == 0 {
      assert bs[0 := x][1..] == bs[1..];
    } else {
      assert bs[a := x][1..] == bs[1..][a - 1 := x];
      WaitingUpdate(bs[1..], a - 1, x, fd);
    }
  }

  lemma TimesHead(q: seq<nat>, fd: nat)
    requires q != []
    ensures Times(fd, q) == (if fd == q[0] then 1 else 0) + Times(fd, q[1..])
  {
    assert q == [q[0]] + q[1..];
  }

  lemma TimesLast(q: seq<nat>, x: nat, fd: nat)
    ensures Times(fd, q + [x]) == Times(fd, q) + if fd == x then 1 else 0
  {
  }

  lemma TimesCut(q: seq<nat>, k: nat, fd: nat)
    requires k < |q|
    ensures Times(fd, q) == Times(fd, q[..k] + q[k + 1..]) + if fd == q[k] then 1 else 0
  {
    assert q == q[..k] + [q[k]] + q[k + 1..];
  }

  lemma ServeConserves(s: State, w: nat, action: Action, fd: nat)
    requires s.Shape() && w < |s.workers| && CanAct(s, w, action) && Serving(s.workers[w].pc)
    ensures Places(DoServe(s, w, action), fd) == Places(s, fd)
  {
    hide Times;
    var n, pc := DoServe(s, w, action), s.workers[w].pc;
    HeldUpdate(s.workers, w, n.workers[w], fd);
    assert n.workers == s.workers[w := n.workers[w]];
    TimesNone(fd);
    match action {
      case CloseOne(k) =>
        TimesCut(s.connections, k, fd);
        TimesLast(s.closed, s.connections[k], fd);
      case AcceptOne =>
        TimesHead(s.backlog[pc.a], fd);
        TimesLast(pc.sockets, s.backlog[pc.a][0], fd);
        WaitingUpdate(s.backlog, pc.a, s.backlog[pc.a][1..], fd);
      case DeliverOne =>
        if pc.sockets != [] {
          TimesHead(pc.sockets, fd);
          TimesLast(s.connections, pc.sockets[0], fd);
        }
      case _ =>
    }
  }

  lemma CheckConserves(s: State, w: nat, action: Action, fd: nat)
    requires s.Shape() && w < |s.workers| && CanAct(s, w, action) && !Serving(s.workers[w].pc)
    ensures Places(DoAction(s, w, action), fd) == Places(s, fd)
  {
    hide Times, AllHeld, AllWaiting, Disarm;
    var n := DoAction(s, w, action);
    HeldUpdate(s.workers, w, n.workers[w], fd);
    assert n.workers == s.workers[w := n.workers[w]];
  }

  lemma ActionConserves(s: State, w: nat, action: Action, fd: nat)
    requires s.Shape() && w < |s.workers| && CanAct(s, w, action)
    ensures Places(DoAction(s, w, action), fd) == Places(s, fd)
  {
    hide Places, DoServe;
    if Serving(s.workers[w].pc) {
      ServeConserves(s, w, action, fd);
    } else {
      CheckConserves(s, w, action, fd);
    }
  }

  lemma TimesNone(fd: nat)
    ensures Times(fd, []) == 0
  {
  }

  lemma StepConserves(s: State, e: Step, fd: nat)
    requires s.Shape() && Enabled(s, e) && Places(s, fd) == Times(fd, s.arrived)
    ensures Places(Do(s, e), fd) == Times(fd, Do(s, e).arrived)
  {
    match e {
      case Arrive(a, new_fd) =>
        WaitingUpdate(s.backlog, a, s.backlog[a] + [new_fd], fd);
        TimesLast(s.backlog[a], new_fd, fd);
        TimesLast(s.arrived, new_fd, fd);
      case Stop =>
      case Act(w, action) => ActionConserves(s, w, action, fd);
    }
  }

  lemma {:induction false} RunConserves(s: State, es: seq<Step>, fd: nat)
    requires s.Shape() && LegalRun(s, es) && Places(s, fd) == Times(fd, s.arrived) <= 1
    ensures Places(Run(s, es), fd) == Times(fd, Run(s, es).arrived) <= 1
    decreases |es|
  {
    if es != [] {
      StepConserves(s, es[0], fd);
      if es[0].Arrive? {
        TimesLast(s.arrived, es[0].fd, fd);
      }
      RunConserves(Do(s, es[0]), es[1..], fd);
    }
  }

  /** Every client that ever arrived is in exactly one place: a kernel backlog, one worker's list, the server's
      connections, or closed; although the lock is released before the hand-over. */
  lemma EachClientInOnePlace(s: State, es: seq<Step>, fd: nat)
    requires Initial(s) && LegalRun(s, es) && fd in Run(s, es).arrived
    ensures Places(Run(s, es), fd) == 1
  {
    InitiallyNowhere(s.workers, s.backlog, fd);
    RunConserves(s, es, fd);
  }

  lemma {:induction false} InitiallyNowhere(ws: seq<Worker>, bs: seq<seq<nat>>, fd: nat)
    requires forall w | 0 <= w < |ws| :: ws[w].pc == Head
    requires forall a | 0 <= a < |bs| :: bs[a] == []
    ensures AllHeld(ws, fd) == 0 && AllWaiting(bs, fd) == 0
    decreases |ws| + |bs|
  {
    if ws != [] {
      InitiallyNowhere(ws[1..], bs, fd);
    } else if bs != [] {
      InitiallyNowhere(ws, bs[1..], fd);
    }
  }
}
