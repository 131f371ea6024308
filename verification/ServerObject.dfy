/** The server as the objects it is made of: the list of connections and their indices as fields, and for each worker a
    Poller and a TimerQueue that its handlers call; all pollers share one table of events.  Each handler computes its
    step of modules Lifecycle and PollLists, and its contract says what that step means for the caller. */
module ServerObject {
  import opened Variants
  import Pollers
  import PollerObject
  import opened SharedTable
  import Timers
  import TimerQueueObject
  import Sockets
  import Connections
  import opened Lifecycle
  import opened PollLists
  import opened Turns

  /** Different pollers over one table. */
  ghost predicate PollersOk(ps: seq<PollerObject.Poller>, table: array<Pollers.Event>)
    reads ps, table
  {
    && (forall i, j | 0 <= i < j < |ps| :: ps[i] != ps[j])
    && forall i | 0 <= i < |ps| :: ps[i].Valid() && ps[i].events == table && !ps[i].fault
  }

  ghost predicate QueuesOk(qs: seq<TimerQueueObject.TimerQueue>)
    reads qs
  {
    && (forall i, j | 0 <= i < j < |qs| :: qs[i] != qs[j])
    && forall i | 0 <= i < |qs| :: qs[i].Valid()
  }

  method NewPollers(table: array<Pollers.Event>, n: nat) returns (ps: seq<PollerObject.Poller>)
    requires table.Length == Pollers.MAX_FD
    ensures |ps| == n && PollersOk(ps, table)
    ensures forall i | 0 <= i < n :: fresh(ps[i]) && ps[i].kernel == map[]
  {
    ps := [];
    while |ps| < n
      invariant |ps| <= n && PollersOk(ps, table)
      invariant forall i | 0 <= i < |ps| :: fresh(ps[i]) && ps[i].kernel == map[]
    {
      var p := new PollerObject.Poller(table);
      ps := ps + [p];
    }
  }

  method NewQueues(kinds: seq<seq<Timers.Kind>>) returns (qs: seq<TimerQueueObject.TimerQueue>)
    ensures |qs| == |kinds| && QueuesOk(qs)
    ensures forall i | 0 <= i < |kinds| :: fresh(qs[i]) && qs[i].View() == IdleQueue(kinds[i])
  {
    qs := [];
    while |qs| < |kinds|
      invariant |qs| <= |kinds| && QueuesOk(qs)
      invariant forall i | 0 <= i < |qs| :: fresh(qs[i]) && qs[i].View() == IdleQueue(kinds[i])
    {
      var k := kinds[|qs|];
      var q := new TimerQueueObject.TimerQueue(k, seq(|k|, i => 0));
      assert q.timers == IdleQueue(k).timers;
      qs := qs + [q];
    }
  }

  class ServerState {
    const events: array<Pollers.Event>
    const pollers: seq<PollerObject.Poller>
    const queues: seq<TimerQueueObject.TimerQueue>
    /** m_connections, and the connections themselves by descriptor. */
    var list: seq<Node>
    var nextId: nat
    var objects: map<nat, Obj>
    /** Connections that have ended and wait to be destroyed. */
    var condemned: seq<nat>
    /** A destroyed connection was touched: the process has left defined behaviour. */
    var fault: bool

    ghost function Kernels(): (ks: seq<map<nat, Pollers.Interest>>)
      reads pollers
      ensures |ks| == |pollers| && forall i | 0 <= i < |pollers| :: ks[i] == pollers[i].kernel
    {
      seq(|pollers|, i requires 0 <= i < |pollers| reads pollers => pollers[i].kernel)
    }

    ghost function Queues(): (ts: seq<Timers.State>)
      reads queues
      ensures |ts| == |queues| && forall i | 0 <= i < |queues| :: ts[i] == queues[i].View()
    {
      seq(|queues|, i requires 0 <= i < |queues| reads queues => queues[i].View())
    }

    ghost function View(): Server
      reads this, events, pollers, queues
    {
      Server(list, nextId, objects, Shared(events[..], Kernels()), Queues(), condemned, fault)
    }

    ghost predicate Valid()
      reads events, pollers, queues
    {
      && |pollers| == |queues| && events.Length == Pollers.MAX_FD
      && PollersOk(pollers, events) && QueuesOk(queues)
    }

    lemma ValidShape()
      requires Valid()
      ensures View().Shape() && |pollers| == |queues|
    {
    }

    constructor (kinds: seq<seq<Timers.Kind>>)
      requires forall w: nat, x: nat | w < |kinds| && x < |kinds[w]| :: kinds[w][x].Repeats() && kinds[w][x].handler
      ensures Valid() && View() == Idle(kinds) && Inv(View())
      ensures fresh(events) && forall i | 0 <= i < |kinds| :: fresh(pollers[i]) && fresh(queues[i])
    {
      var table := new Pollers.Event[Pollers.MAX_FD](i => Pollers.CLEARED);
      var ps := NewPollers(table, |kinds|);
      var qs := NewQueues(kinds);
      events, pollers, queues := table, ps, qs;
      list, nextId, objects, condemned, fault := [], 0, map[], [], false;
      new;
      hide Valid, Inv, Idle, PollersOk, QueuesOk, IdleQueue, View;
      IdleView(kinds);
    }

    lemma IdleView(kinds: seq<seq<Timers.Kind>>)
      requires forall w: nat, x: nat | w < |kinds| && x < |kinds[w]| :: kinds[w][x].Repeats() && kinds[w][x].handler
      requires |pollers| == |queues| == |kinds| && list == [] && condemned == [] && nextId == 0 && objects == map[]
      requires !fault && events.Length == Pollers.MAX_FD && PollersOk(pollers, events) && QueuesOk(queues)
      requires forall fd | 0 <= fd < events.Length :: events[fd] == Pollers.CLEARED
      requires forall i | 0 <= i < |kinds| :: pollers[i].kernel == map[] && queues[i].View() == IdleQueue(kinds[i])
      ensures Valid() && View() == Idle(kinds) && Inv(View())
    {
      hide PollersOk, QueuesOk, Inv;
      IdleInv(kinds);
      assert events[..] == Pollers.EmptyTable().events;
      assert Kernels() == Idle(kinds).table.kernels;
      assert Queues() == Idle(kinds).queues;
    }

    // ---------- one call of a poller, or of a queue ----------

    method AddEvent(w: nat, fd: nat)
      requires Valid() && w < |pollers|
      modifies events, pollers[w]
      ensures Valid()
      ensures View() == old(View()).(table := AddThrough(old(View()).table, w, fd, {Pollers.EV_READ}, fd))
    {
      ghost var before := View();
      var ret := pollers[w].AddEvent(Repaired, fd, {Pollers.EV_READ}, fd);
      assert Kernels() == before.table.kernels[w := pollers[w].kernel];
      assert Queues() == before.queues;
    }

    method DisableAll(w: nat, fd: nat)
      requires Valid() && w < |pollers|
      modifies events, pollers[w]
      ensures Valid()
      ensures View() == old(View()).(table := DelThrough(old(View()).table, w, fd, Pollers.ALL_EVENTS))
    {
      ghost var before := View();
      var ret := pollers[w].DelEvent(Repaired, fd, Pollers.ALL_EVENTS);
      assert Kernels() == before.table.kernels[w := pollers[w].kernel];
      assert Queues() == before.queues;
    }

    twostate lemma QueueChanged(w: nat)
      requires old(Valid()) && w < |queues|
      requires Valid() && forall i | 0 <= i < |queues| && i != w :: unchanged(queues[i])
      ensures Queues() == old(Queues())[w := queues[w].View()]
    {
    }

    method StartTimer(w: nat, fd: nat, now: int)
      requires Valid() && w < |queues| && fd < |queues[w].timers|
      modifies queues[w]
      ensures Valid() && |queues[w].timers| == |old(queues[w].timers)|
      ensures View() == WithQueue(old(View()), w, Timers.Start(Repaired, old(queues[w].View()), fd, now))
    {
      queues[w].Start(Repaired, fd, now);
      QueueChanged(w);
    }

    method CancelTimer(w: nat, fd: nat)
      requires Valid() && w < |queues| && fd < |queues[w].timers|
      modifies queues[w]
      ensures Valid() && |queues[w].timers| == |old(queues[w].timers)|
      ensures View() == WithQueue(old(View()), w, Timers.Cancel(Repaired, old(queues[w].View()), fd))
    {
      queues[w].Cancel(Repaired, fd);
      QueueChanged(w);
    }

    method RunTimer(w: nat, fd: nat, now: int)
      requires Valid() && w < |queues| && fd < |queues[w].timers|
      modifies queues[w]
      ensures Valid() && |queues[w].timers| == |old(queues[w].timers)|
      ensures View() ==
              WithQueue(old(View()), w, Timers.Run(Repaired, old(queues[w].View()), fd, now, CLOSE_SCRIPT(fd)))
    {
      queues[w].Run(Repaired, fd, now, CLOSE_SCRIPT(fd));
      QueueChanged(w);
    }

    method ReinsertTimer(w: nat, fd: nat, now: int)
      requires Valid() && w < |queues| && fd < |queues[w].timers|
      modifies queues[w]
      ensures Valid() && |queues[w].timers| == |old(queues[w].timers)|
      ensures View() == WithQueue(old(View()), w, Timers.Reinsert(Repaired, old(queues[w].View()), fd, now))
    {
      queues[w].Reinsert(Repaired, fd, now);
      QueueChanged(w);
    }

    // ---------- handlers ----------

    /** connection::start: the timer, and the registration. */
    method StartConnection(w: nat, fd: nat, now: int)
      requires Valid() && View().Fits(w, fd)
      modifies events, pollers[w], queues[w]
      ensures Valid()
      ensures View() == Started(old(View()), w, fd, now)
    {
      hide Valid, AddThrough, Timers.Start;
      ValidShape();
      StartTimer(w, fd, now);
      AddEvent(w, fd);
    }

    /** server::handle_new_connection on worker w: insert at the end, tell the connection where it is, start it. */
    method HandleNewConnection(w: nat, fd: nat, now: int)
      requires Valid() && View().Fits(w, fd)
      modifies this, events, pollers[w], queues[w]
      ensures Valid() && View() == NewConnection(old(View()), w, fd, now)
      ensures old(Core(View()) && fd !in objects) ==> Accepted(old(View()), View(), w, fd, now)
    {
      hide Valid, Started, Accepted, Core;
      ValidShape();
      AcceptMeaning(View(), w, fd, now);
      StartConnection(w, fd, now);
      list := list + [Node(nextId, fd)];
      objects := objects[fd := Obj(nextId, w)];
      nextId := nextId + 1;
    }

    /** m_timer.cancel() and m_io_event.disable_all(). */
    method CancelAndDisable(w: nat, fd: nat)
      requires Valid() && View().Fits(w, fd)
      modifies events, pollers[w], queues[w]
      ensures Valid() && View() == Disable(old(View()), w, fd)
    {
      hide Valid, DelThrough, Timers.Cancel;
      ValidShape();
      CancelTimer(w, fd);
      DisableAll(w, fd);
    }

    /** server::handle_close: m_connections.erase, with the destructor behind it. */
    method HandleClose(w: nat, fd: nat)
      requires Valid() && fd in objects && View().Fits(w, fd)
      modifies this, events, pollers[w], queues[w]
      ensures Valid() && View() == Destroy(old(View()), w, fd)
      ensures old(ListOk(View()) && fd !in condemned) ==> Removed(old(View()), View(), fd)
    {
      hide Valid, EraseNode, ListOk, Disable, Removed;
      ValidShape();
      RemoveMeaning(View(), w, fd);
      list := EraseNode(list, objects[fd].id);
      objects := map x | x in objects && x != fd :: objects[x];
      CancelAndDisable(w, fd);
    }

    /** The closing branch of handle_read. */
    method CloseConnection(p: Erasure, w: nat, fd: nat)
      requires Valid() && fd in objects && View().Fits(w, fd)
      modifies this, events, pollers[w], queues[w]
      ensures Valid() && View() == Close(p, old(View()), w, fd)
    {
      hide Valid, Disable;
      ValidShape();
      CancelAndDisable(w, fd);
      if p.AfterList? {
        condemned := condemned + [fd];
      } else {
        HandleClose(w, fd);
      }
    }

    /** connection::handle_read of the connection `id` that was reported, as far as the life cycle goes: it is touched
        after its end exactly when it is gone; else it ends exactly on the closing results, and nobody else does. */
    method HandleRead(v: Variant, p: Erasure, w: nat, fd: nat, id: nat, result: Sockets.ReadResult)
      requires Valid() && View().Fits(w, fd)
      modifies this, events, pollers[w], queues[w]
      ensures Valid() && View() == Read(v, p, old(View()), w, fd, id, result)
      ensures old(MidList(p, View(), w) && (View().Alive(fd, id) ==> objects[fd].worker == w)) ==>
                && (fault <==> !old(View().Alive(fd, id))) && (!fault ==> MidList(p, View(), w))
                && (old(View().Alive(fd, id) && fd !in condemned) ==>
                      EndsWhenClosed(v, old(View()), View(), fd, result))
    {
      hide Valid, Close, Core, MidList, EndsWhenClosed;
      ValidShape();
      ReadMeaning(v, p, View(), w, fd, id, result);
      if fd !in objects || objects[fd].id != id {
        fault := true;
      } else if fd !in condemned && Connections.Closes(v, result) {
        CloseConnection(p, w, fd);
      }
    }

    /** The rest of connection::handle_timeout, when its timer is cancelled. */
    method EndTimedOut(p: Erasure, w: nat, fd: nat)
      requires Valid() && fd in objects && View().Fits(w, fd)
      modifies this, events, pollers[w], queues[w]
      ensures Valid() && View() == TimedOut(p, old(View()), w, fd)
    {
      hide Valid, DelThrough, Destroy;
      ValidShape();
      DisableAll(w, fd);
      if p.AtOnce? {
        HandleClose(w, fd);
      } else {
        condemned := condemned + [fd];
      }
    }

    /** timer::run on a timer of the batch, with connection::handle_timeout in it. */
    method RunCallback(p: Erasure, w: nat, fd: nat, now: int)
      requires Valid() && View().Fits(w, fd)
      modifies this, events, pollers[w], queues[w]
      ensures Valid() && View() == Callback(p, old(View()), w, fd, now)
    {
      hide Valid, Timers.Run, TimedOut;
      ValidShape();
      if fault || fd !in objects {
        fault := true;
        return;
      }
      var q := queues[w];
      var calls := !q.fault && q.timers[fd].running && fd !in q.queue && q.kinds[fd].handler;
      RunTimer(w, fd, now);
      if calls {
        EndTimedOut(p, w, fd);
      }
    }

    method RunCallbacks(p: Erasure, w: nat, expired: seq<nat>, now: int)
      requires Valid() && AllFit(View(), w, expired) && w < |queues|
      modifies this, events, pollers[w], queues[w]
      ensures Valid() && View() == Callbacks(p, old(View()), w, expired, now)
    {
      hide Valid, Callback;
      ghost var s := View();
      ValidShape();
      var i := 0;
      while i < |expired|
        invariant 0 <= i <= |expired| && Valid() && View().Shape() && AllFit(View(), w, expired[i..])
        invariant Callbacks(p, View(), w, expired[i..], now) == Callbacks(p, s, w, expired, now)
      {
        assert expired[i..][1..] == expired[i + 1..];
        RunCallback(p, w, expired[i], now);
        ValidShape();
        i := i + 1;
      }
    }

    /** A timer of the batch that repeats is put back. */
    method ResetTimer(w: nat, fd: nat, now: int)
      requires Valid() && View().Fits(w, fd)
      modifies this`fault, queues[w]
      ensures Valid() && View() == ResetOne(old(View()), w, fd, now)
    {
      hide Valid, Timers.Reinsert;
      ValidShape();
      if fault || fd !in objects {
        fault := true;
      } else {
        ReinsertTimer(w, fd, now);
      }
    }

    /** timer_queue::reset. */
    method ResetTimers(w: nat, expired: seq<nat>, now: int)
      requires Valid() && AllFit(View(), w, expired) && w < |queues|
      modifies this`fault, queues[w]
      ensures Valid() && View() == Reset(old(View()), w, expired, now)
    {
      hide Valid, ResetOne;
      ghost var s := View();
      ValidShape();
      var i := 0;
      while i < |expired|
        invariant 0 <= i <= |expired| && Valid() && View().Shape() && AllFit(View(), w, expired[i..])
        invariant Reset(View(), w, expired[i..], now) == Reset(s, w, expired, now)
      {
        assert expired[i..][1..] == expired[i + 1..];
        ResetTimer(w, expired[i], now);
        ValidShape();
        i := i + 1;
      }
    }

    /** The erasure that was put off first. */
    method DestroyFirst(w: nat)
      requires Valid() && w < |queues| && condemned != []
      modifies this, events, pollers[w], queues[w]
      ensures Valid() && View() == Bury(old(View()), w)
    {
      hide Valid, Destroy, ListOk;
      ValidShape();
      var fd := condemned[0];
      condemned := condemned[1..];
      if fd in objects && fd < |queues[w].timers| && fd < Pollers.MAX_FD {
        HandleClose(w, fd);
      }
    }

    /** The erasures that were put off. */
    method DestroyCondemned(w: nat)
      requires Valid() && w < |queues|
      modifies this, events, pollers[w], queues[w]
      ensures Valid() && View() == BuryAll(old(View()), w)
    {
      hide Valid, Bury;
      ghost var s := View();
      ValidShape();
      while condemned != []
        invariant Valid() && View().Shape() && BuryAll(View(), w) == BuryAll(s, w)
        decreases |condemned|
      {
        DestroyFirst(w);
        ValidShape();
      }
    }

    method TakeExpired(w: nat, now: int) returns (expired: seq<nat>)
      requires Valid() && w < |queues|
      modifies queues[w]
      ensures Valid() && View() == Taken(old(View()), w, now) && expired == Expired(old(View()), w, now)
    {
      hide Timers.TakeBatch, Timers.Batch;
      ValidShape();
      expired := queues[w].GetExpired(Repaired, now);
      QueueChanged(w);
    }

    method ArmQueue(w: nat)
      requires Valid() && w < |queues|
      modifies queues[w]
      ensures Valid() && View() == Rearmed(old(View()), w)
    {
      ValidShape();
      queues[w].Arm();
      QueueChanged(w);
    }

    /** timer_queue::handle_timeout of worker w with the connections' callbacks: a destroyed connection is touched
        exactly when they are erased at once and one is due. */
    method HandleTimeout(p: Erasure, w: nat, now: int)
      requires Valid() && w < |queues| && AllFit(View(), w, Expired(View(), w, now))
      modifies this, events, pollers[w], queues[w]
      ensures Valid() && View() == Timeout(p, old(View()), w, now)
      ensures old(MidList(p, View(), w)) ==>
                (fault <==> p.AtOnce? && old(Expired(View(), w, now)) != []) && (!fault ==> MidList(p, View(), w))
    {
      hide Callbacks, Reset, BuryAll, Taken, Rearmed, Expired, MidList;
      ghost var s := View();
      ValidShape();
      FireBatch(p, w, now);
      if p.AfterBatch? && !fault {
        DestroyCondemned(w);
      }
      if MidList(p, s, w) {
        ClockKeeps(p, s, w, now);
      }
    }

    method FireBatch(p: Erasure, w: nat, now: int)
      requires Valid() && w < |queues| && AllFit(View(), w, Expired(View(), w, now))
      modifies this, events, pollers[w], queues[w]
      ensures Valid() && View() == Fired(p, old(View()), w, now)
    {
      hide Callbacks, Reset, Taken, Rearmed, Expired;
      ValidShape();
      var expired := TakeExpired(w, now);
      RunCallbacks(p, w, expired, now);
      ResetTimers(w, expired, now);
      ArmQueue(w);
    }

    /** One active event. */
    method RunOne(v: Variant, p: Erasure, w: nat, e: Entry)
      requires Valid() && w < |queues| && View().Shape() && EntryFits(View(), w, e)
      modifies this, events, pollers[w], queues[w]
      ensures Valid() && View() == RunEntry(v, p, old(View()), w, e)
    {
      hide Read, Timeout, NewConnection, Expired;
      if fault {
        return;
      }
      match e {
        case Sock(fd, id, result) => HandleRead(v, p, w, fd, id, result);
        case Clock(now) => HandleTimeout(p, w, now);
        case Client(fd, now) => HandleNewConnection(w, fd, now);
      }
    }

    /** scheduler::run of worker w over what its poller reported: a destroyed connection is touched exactly when an
        entry meets its guard, and never with the erasure behind the list; otherwise every connection has its entry,
        its registration and its timer again, those of the other workers are as they were, and the worker's own are just
        those that no event ended, with the clients handed over. */
    method RunTurn(v: Variant, p: Erasure, w: nat, es: seq<Entry>)
      requires Valid() && w < |queues| && View().Shape() && EntriesFit(v, p, View(), w, es)
      modifies this, events, pollers[w], queues[w]
      ensures Valid() && View() == PollList(v, p, old(View()), w, es)
      ensures old(Inv(View()) && Polled(View(), w, es)) ==>
                && (fault <==> !old(TouchesNothing(v, p, View(), w, es))) && (p.AfterList? ==> !fault)
                && (!fault ==> Inv(View()) && OthersKept(old(View()), View(), w))
                && (!fault ==> DoesAsTold(v, old(View()), w, es, View()))
                && (p.AfterList? ==> LeavesTheRest(v, old(View()), w, es, View()))
                && Local(old(View()), View(), w)
    {
      ghost var s := View();
      TurnMeaning(v, p, s, w, es);
      hide Valid, RunEntries, EntriesFit, Inv, Polled, TouchesNothing, OthersKept, Local, DoesAsTold, LeavesTheRest;
      ValidShape();
      RunAll(v, p, w, es);
      ValidShape();
      if !fault {
        DestroyCondemned(w);
      }
    }

    method RunAll(v: Variant, p: Erasure, w: nat, es: seq<Entry>)
      requires Valid() && w < |queues| && View().Shape() && EntriesFit(v, p, View(), w, es)
      modifies this, events, pollers[w], queues[w]
      ensures Valid() && View() == RunEntries(v, p, old(View()), w, es)
    {
      hide Valid, RunEntry, EntryFits, Local;
      ghost var s := View();
      var i := 0;
      while i < |es|
        invariant 0 <= i <= |es| && Valid() && View().Shape() && EntriesFit(v, p, View(), w, es[i..])
        invariant RunEntries(v, p, View(), w, es[i..]) == RunEntries(v, p, s, w, es)
      {
        assert es[i..][1..] == es[i + 1..];
        RunOne(v, p, w, es[i]);
        ValidShape();
        i := i + 1;
      }
    }
  }

  /** A connection of worker w began: its entry, its registration and its timer, and nothing else. */
  ghost predicate Accepted(s: Server, n: Server, w: nat, fd: nat, now: int)
    requires s.Shape() && n.Shape() && w < |n.queues| && s.Fits(w, fd) && n.Fits(w, fd)
  {
    && Core(n) && n.condemned == s.condemned
    && n.objects == s.objects[fd := Obj(s.nextId, w)] && n.list == s.list + [Node(s.nextId, fd)]
    && fd in n.table.kernels[w] && Pollers.EPOLLIN in n.table.kernels[w][fd]
    && fd in n.queues[w].queue && Timers.Expiration(n.queues[w], fd) == now + s.queues[w].kinds[fd].interval
  }

  lemma AcceptMeaning(s: Server, w: nat, fd: nat, now: int)
    requires s.Shape() && s.Fits(w, fd)
    ensures Core(s) && fd !in s.objects ==> Accepted(s, NewConnection(s, w, fd, now), w, fd, now)
  {
    if Core(s) && fd !in s.objects {
      NewConnectionMeaning(s, w, fd, now);
    }
  }

  /** One entry and its index are gone, and the others stay where their indices name them. */
  ghost predicate Removed(s: Server, n: Server, fd: nat) {
    && ListOk(n) && |n.list| == |s.list| - 1
    && fd in s.objects && n.objects == (map x | x in s.objects && x != fd :: s.objects[x])
    && Node(s.objects[fd].id, fd) in s.list
    && forall node: Node :: node in n.list <==> node in s.list && node.fd != fd
  }

  lemma RemoveMeaning(s: Server, w: nat, fd: nat)
    requires s.Shape() && fd in s.objects && s.Fits(w, fd)
    ensures ListOk(s) && fd !in s.condemned ==> Removed(s, Destroy(s, w, fd), fd)
  {
    hide EraseNode, ListOk, Timers.Cancel, DelThrough;
    if ListOk(s) && fd !in s.condemned {
      UnlinkKeeps(s, fd);
      SameList(Unlink(s, fd), Destroy(s, w, fd));
    }
  }

  /** The connection ends exactly on the results that close it, and then its registration and its timer are gone with
      it, everywhere; nobody else ends. */
  ghost predicate EndsWhenClosed(v: Variant, s: Server, n: Server, fd: nat, result: Sockets.ReadResult) {
    && (if Connections.Closes(v, result) then !Active(n, fd) else n == s)
    && (forall x: nat | x != fd :: Active(n, x) <==> Active(s, x))
    && (Connections.Closes(v, result) ==> forall q | 0 <= q < |n.table.kernels| :: fd !in n.table.kernels[q])
    && (Connections.Closes(v, result) ==> forall q | 0 <= q < |n.queues| :: fd !in n.queues[q].queue)
  }

  lemma ReadMeaning(v: Variant, p: Erasure, s: Server, w: nat, fd: nat, id: nat, result: Sockets.ReadResult)
    requires s.Shape() && s.Fits(w, fd)
    ensures MidList(p, s, w) && (s.Alive(fd, id) ==> s.objects[fd].worker == w) ==>
      var n := Read(v, p, s, w, fd, id, result);
      && (n.fault <==> !s.Alive(fd, id)) && (!n.fault ==> MidList(p, n, w))
      && (s.Alive(fd, id) && fd !in s.condemned ==> EndsWhenClosed(v, s, n, fd, result))
  {
    hide TableOk, QueueOk, ListOk, Close, CondemnedFit;
    if MidList(p, s, w) && (s.Alive(fd, id) ==> s.objects[fd].worker == w) {
      ReadKeeps(v, p, s, w, fd, id, result);
      if s.Alive(fd, id) && fd !in s.condemned && Connections.Closes(v, result) {
        CloseKeeps(p, s, w, fd);
        EndedIsNowhere(Close(p, s, w, fd), fd);
      }
    }
  }

  lemma EndedIsNowhere(s: Server, fd: nat)
    requires Core(s) && !Active(s, fd) && fd < Pollers.MAX_FD
    ensures forall q | 0 <= q < |s.table.kernels| :: fd !in s.table.kernels[q]
    ensures forall q | 0 <= q < |s.queues| :: fd !in s.queues[q].queue
  {
    assert Nowhere(s.table, fd);
    forall q: nat | q < |s.queues| ensures fd !in s.queues[q].queue {
      assert QueueOk(s, q);
    }
  }

  lemma TurnMeaning(v: Variant, p: Erasure, s: Server, w: nat, es: seq<Entry>)
    requires s.Shape() && w < |s.queues| && EntriesFit(v, p, s, w, es)
    ensures Inv(s) && Polled(s, w, es) ==>
      var n := PollList(v, p, s, w, es);
      && (n.fault <==> !TouchesNothing(v, p, s, w, es)) && (p.AfterList? ==> !n.fault)
      && (!n.fault ==> Inv(n) && OthersKept(s, n, w)) && Local(s, n, w)
      && (!n.fault ==> DoesAsTold(v, s, w, es, n)) && (p.AfterList? ==> LeavesTheRest(v, s, w, es, n))
  {
    hide PollList, TouchesNothing, OthersKept, Local, TableOk, QueueOk, ListOk, DoesAsTold, LeavesTheRest;
    if Inv(s) && Polled(s, w, es) {
      TurnFaultsExactlyWhen(v, p, s, w, es);
      if TouchesNothing(v, p, s, w, es) {
        TurnIsIdeal(v, p, s, w, es);
      }
      if p.AfterList? {
        RepairedTurnKeepsInv(v, s, w, es);
        RepairedTurnLeaves(v, s, w, es);
      }
    }
  }
}
