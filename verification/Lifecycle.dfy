/** server.cpp, scheduler.cpp and connection.cpp across components: the server's list of connections, and for each
    worker a poller and a timer queue of its own, through poll lists that accept, read, close and time out.  The
    pollers' shared table and the queues are the repaired ones.  What varies is which read results close a connection,
    and when a connection that ends is destroyed. */
module Lifecycle {
  import opened Variants
  import Seqs
  import Pollers
  import opened SharedTable
  import Timers
  import TimerLaws
  import TimerDepartures
  import Sockets
  import Connections

  /** A node of the std::list m_connections; its iterator is the node's identity. */
  datatype Node = Node(id: nat, fd: nat)

  /** A connection object: its m_index, and the worker whose scheduler it was started on. */
  datatype Obj = Obj(id: nat, worker: nat)

  /** When a connection that ends is destroyed: where m_connections.erase stands, which is in the connection's own
      handler, at the end of the timer batch, or at the end of the poll list.  The code is committed with the first, and
      repaired with the last. */
  datatype Erasure = AtOnce | AfterBatch | AfterList

  /** `objects` are the connections by descriptor; `nextId` is an identity no node had yet.  `queues[w]` is worker w's
      timer queue, `table.kernels[w]` its interest list.  `condemned` are the connections that have ended and wait to be
      destroyed.  `fault` records that a handler or the timer queue touched a destroyed connection. */
  datatype Server = Server(list: seq<Node>, nextId: nat, objects: map<nat, Obj>, table: Shared,
                           queues: seq<Timers.State>, condemned: seq<nat>, fault: bool)
  {
    ghost predicate Shape() {
      && table.Shape() && |table.kernels| == |queues|
      && forall w | 0 <= w < |queues| :: queues[w].Shape()
    }

    /** Worker w has a timer for every connection that gets descriptor `fd`. */
    predicate Fits(w: nat, fd: nat) {
      w < |queues| && fd < |queues[w].timers| && fd < Pollers.MAX_FD
    }

    predicate Alive(fd: nat, id: nat) {
      fd in objects && objects[fd].id == id
    }
  }

  /** Only worker w's own queue and kernel change, and no queue changes its size. */
  ghost predicate Local(s: Server, n: Server, w: nat) {
    && |n.queues| == |s.queues| && |n.table.kernels| == |s.table.kernels|
    && (forall q | 0 <= q < |s.queues| :: |n.queues[q].timers| == |s.queues[q].timers|)
    && (forall q | 0 <= q < |s.queues| && q != w :: n.queues[q] == s.queues[q])
    && (forall q | 0 <= q < |s.table.kernels| && q != w :: n.table.kernels[q] == s.table.kernels[q])
  }

  // ---------- the list ----------

  function EraseNode(list: seq<Node>, id: nat): (r: seq<Node>)
    decreases |list|
  {
    if list == [] then []
    else if list[0].id == id then list[1..]
    else [list[0]] + EraseNode(list[1..], id)
  }

  ghost predicate UniqueIds(list: seq<Node>) {
    forall i, j | 0 <= i < j < |list| :: list[i].id != list[j].id
  }

  lemma UniqueTail(list: seq<Node>)
    requires UniqueIds(list) && list != []
    ensures UniqueIds(list[1..]) && forall n: Node | n in list[1..] :: n.id != list[0].id
  {
    var tail := list[1..];
    assert forall i | 0 <= i < |tail| :: tail[i] == list[i + 1];
  }

  lemma {:induction false} EraseNodeKeepsOthers(list: seq<Node>, id: nat)
    requires UniqueIds(list)
    ensures UniqueIds(EraseNode(list, id))
    ensures forall n: Node :: n in EraseNode(list, id) <==> n in list && n.id != id
    decreases |list|
  {
    if list != [] {
      assert list == [list[0]] + list[1..];
      UniqueTail(list);
      if list[0].id != id {
        EraseNodeKeepsOthers(list[1..], id);
        var r := EraseNode(list[1..], id);
        forall j | 0 <= j < |r| ensures r[j].id != list[0].id {
          assert r[j] in r;
        }
      }
    }
  }

  lemma {:induction false} EraseNodeTakesOne(list: seq<Node>, p: nat)
    requires p < |list|
    ensures |EraseNode(list, list[p].id)| == |list| - 1
    decreases |list|
  {
    if list[0].id != list[p].id {
      EraseNodeTakesOne(list[1..], p - 1);
    }
  }

  // ---------- handlers ----------

  function WithQueue(s: Server, w: nat, t: Timers.State): (n: Server)
    requires s.Shape() && w < |s.queues| && t.Shape() && |t.timers| == |s.queues[w].timers|
    ensures n.Shape() && Local(s, n, w)
  {
    s.(queues := s.queues[w := t])
  }

  /** connection::start on worker w: the timer, and the registration. */
  function Started(s: Server, w: nat, fd: nat, now: int): (n: Server)
    requires s.Shape() && s.Fits(w, fd)
    ensures n.Shape() && Local(s, n, w)
  {
    WithQueue(s, w, Timers.Start(Repaired, s.queues[w], fd, now))
    .(table := AddThrough(s.table, w, fd, {Pollers.EV_READ}, fd))
  }

  /** server::handle_new_connection on worker w. */
  function NewConnection(s: Server, w: nat, fd: nat, now: int): (n: Server)
    requires s.Shape() && s.Fits(w, fd)
    ensures n.Shape() && Local(s, n, w)
  {
    Started(s, w, fd, now)
    .(list := s.list + [Node(s.nextId, fd)], nextId := s.nextId + 1, objects := s.objects[fd := Obj(s.nextId, w)])
  }

  /** m_timer.cancel() and m_io_event.disable_all(). */
  function Disable(s: Server, w: nat, fd: nat): (n: Server)
    requires s.Shape() && s.Fits(w, fd)
    ensures n.Shape() && Local(s, n, w)
  {
    WithQueue(s, w, Timers.Cancel(Repaired, s.queues[w], fd))
    .(table := DelThrough(s.table, w, fd, Pollers.ALL_EVENTS))
  }

  /** The node goes, and the object with its index and its timer. */
  function Unlink(s: Server, fd: nat): (n: Server)
    requires s.Shape() && fd in s.objects
    ensures n.Shape() && n.queues == s.queues && n.table == s.table
  {
    s.(list := EraseNode(s.list, s.objects[fd].id), objects := map x | x in s.objects && x != fd :: s.objects[x])
  }

  /** m_connections.erase(m_index), with the destructor, which cancels and disables. */
  function Destroy(s: Server, w: nat, fd: nat): (n: Server)
    requires s.Shape() && fd in s.objects && s.Fits(w, fd)
    ensures n.Shape() && Local(s, n, w)
  {
    Disable(Unlink(s, fd), w, fd)
  }

  /** The closing branch of handle_read (connection.cpp:50-52). */
  function Close(p: Erasure, s: Server, w: nat, fd: nat): (n: Server)
    requires s.Shape() && fd in s.objects && s.Fits(w, fd)
    ensures n.Shape() && Local(s, n, w)
  {
    var d := Disable(s, w, fd);
    if p.AfterList? then d.(condemned := d.condemned + [fd]) else Destroy(d, w, fd)
  }

  /** handle_read, as far as the life cycle goes, of the connection `id` that was reported.  Repaired: a connection that
      has ended meanwhile is passed over. */
  function Read(v: Variant, p: Erasure, s: Server, w: nat, fd: nat, id: nat, result: Sockets.ReadResult): (n: Server)
    requires s.Shape() && s.Fits(w, fd)
    ensures n.Shape() && Local(s, n, w)
  {
    if !s.Alive(fd, id) then s.(fault := true)
    else if fd in s.condemned || !Connections.Closes(v, result) then s
    else Close(p, s, w, fd)
  }

  // ---------- a timeout ----------

  /** connection::handle_timeout cancels its own timer. */
  const CLOSE_SCRIPT: nat -> seq<Timers.Op> := (id: nat) => [Timers.CancelOp(id)]

  /** timer::run will call the callback. */
  predicate CallsBack(t: Timers.State, id: nat)
    requires t.Shape() && id < |t.timers|
  {
    !t.fault && t.timers[id].running && id !in t.queue && t.kinds[id].handler
  }

  /** The rest of connection::handle_timeout, when its timer is cancelled. */
  function TimedOut(p: Erasure, s: Server, w: nat, fd: nat): (n: Server)
    requires s.Shape() && fd in s.objects && s.Fits(w, fd)
    ensures n.Shape() && Local(s, n, w)
  {
    var d := s.(table := DelThrough(s.table, w, fd, Pollers.ALL_EVENTS));
    if p.AtOnce? then Destroy(d, w, fd) else d.(condemned := d.condemned + [fd])
  }

  /** One timer of the batch: timer::run, with connection::handle_timeout in it. */
  function Callback(p: Erasure, s: Server, w: nat, fd: nat, now: int): (n: Server)
    requires s.Shape() && s.Fits(w, fd)
    ensures n.Shape() && Local(s, n, w)
  {
    if s.fault then s
    else if fd !in s.objects then s.(fault := true)
    else
      var r := WithQueue(s, w, Timers.Run(Repaired, s.queues[w], fd, now, CLOSE_SCRIPT(fd)));
      if CallsBack(s.queues[w], fd) then TimedOut(p, r, w, fd) else r
  }

  ghost predicate AllFit(s: Server, w: nat, fds: seq<nat>) {
    forall i | 0 <= i < |fds| :: s.Fits(w, fds[i])
  }

  ghost function Callbacks(p: Erasure, s: Server, w: nat, batch: seq<nat>, now: int): (n: Server)
    requires s.Shape() && AllFit(s, w, batch)
    ensures n.Shape() && Local(s, n, w)
    decreases |batch|
  {
    if batch == [] then s
    else
      var m := Callback(p, s, w, batch[0], now);
      Callbacks(p, m, w, batch[1..], now)
  }

  /** timer_queue::reset asks a timer of the batch whether it repeats, and puts it back. */
  function ResetOne(s: Server, w: nat, fd: nat, now: int): (n: Server)
    requires s.Shape() && s.Fits(w, fd)
    ensures n.Shape() && Local(s, n, w)
  {
    if s.fault then s
    else if fd !in s.objects then s.(fault := true)
    else WithQueue(s, w, Timers.Reinsert(Repaired, s.queues[w], fd, now))
  }

  ghost function Reset(s: Server, w: nat, batch: seq<nat>, now: int): (n: Server)
    requires s.Shape() && AllFit(s, w, batch)
    ensures n.Shape() && Local(s, n, w)
    decreases |batch|
  {
    if batch == [] then s else Reset(ResetOne(s, w, batch[0], now), w, batch[1..], now)
  }

  /** The connection condemned first is destroyed. */
  function Bury(s: Server, w: nat): (n: Server)
    requires s.Shape() && s.condemned != []
    ensures n.Shape() && Local(s, n, w) && n.condemned == s.condemned[1..]
  {
    var fd, t := s.condemned[0], s.(condemned := s.condemned[1..]);
    if fd in s.objects && s.Fits(w, fd) then Destroy(t, w, fd) else t
  }

  function BuryAll(s: Server, w: nat): (n: Server)
    requires s.Shape()
    ensures n.Shape() && Local(s, n, w) && n.condemned == []
    decreases |s.condemned|
  {
    if s.condemned == [] then s else BuryAll(Bury(s, w), w)
  }

  /** m_timers of worker w without the batch. */
  function Taken(s: Server, w: nat, now: int): (n: Server)
    requires s.Shape() && w < |s.queues|
    ensures n.Shape() && Local(s, n, w)
  {
    WithQueue(s, w, Timers.TakeBatch(Repaired, s.queues[w], now))
  }

  function Rearmed(s: Server, w: nat): (n: Server)
    requires s.Shape() && w < |s.queues|
    ensures n.Shape() && Local(s, n, w)
  {
    WithQueue(s, w, Timers.ArmForFront(s.queues[w]))
  }

  function Expired(s: Server, w: nat, now: int): seq<nat>
    requires s.Shape() && w < |s.queues|
  {
    Timers.Batch(Repaired, s.queues[w], now)
  }

  /** timer_queue::handle_timeout of worker w with the connections' callbacks. */
  ghost function Fired(p: Erasure, s: Server, w: nat, now: int): (n: Server)
    requires s.Shape() && w < |s.queues| && AllFit(s, w, Expired(s, w, now))
    ensures n.Shape() && Local(s, n, w)
  {
    var batch := Expired(s, w, now);
    Rearmed(Reset(Callbacks(p, Taken(s, w, now), w, batch, now), w, batch, now), w)
  }

  ghost function Timeout(p: Erasure, s: Server, w: nat, now: int): (n: Server)
    requires s.Shape() && w < |s.queues| && AllFit(s, w, Expired(s, w, now))
    ensures n.Shape() && Local(s, n, w)
  {
    var f := Fired(p, s, w, now);
    if p.AfterBatch? && !f.fault then BuryAll(f, w) else f
  }

  // ---------- the invariant ----------

  /** A connection that has not ended, of worker w. */
  predicate ActiveAt(s: Server, fd: nat, w: nat) {
    fd in s.objects && fd !in s.condemned && s.objects[fd].worker == w
  }

  predicate Active(s: Server, fd: nat) {
    fd in s.objects && fd !in s.condemned
  }

  /** The list holds exactly the nodes that the objects' indices name. */
  ghost predicate ListOk(s: Server) {
    && UniqueIds(s.list)
    && (forall n: Node | n in s.list :: n.id < s.nextId && n.fd in s.objects && s.objects[n.fd].id == n.id)
    && (forall fd: nat | fd in s.objects ::
          Node(s.objects[fd].id, fd) in s.list && fd < Pollers.MAX_FD && s.objects[fd].worker < |s.queues|)
    && (forall fd: nat | fd in s.condemned :: fd in s.objects) && TimerLaws.Distinct(s.condemned)
  }

  /** Every active connection is registered with its worker's poller alone, and nothing else is anywhere. */
  ghost predicate TableOk(s: Server)
    requires s.Shape()
  {
    forall fd: nat | fd < Pollers.MAX_FD ::
      if Active(s, fd) then Only(s.table, fd, s.objects[fd].worker) else Nowhere(s.table, fd)
  }

  /** set_timeout gave every connection's timer a positive interval, and start its callback. */
  ghost predicate KindsOk(t: Timers.State) {
    forall x: nat | x < |t.kinds| :: t.kinds[x].Repeats() && t.kinds[x].handler
  }

  /** Worker w's queue holds exactly its active connections. */
  ghost predicate QueueOk(s: Server, w: nat)
    requires s.Shape() && w < |s.queues|
  {
    var t := s.queues[w];
    && TimerLaws.Quiet(t) && TimerLaws.Earliest(t) && KindsOk(t)
    && forall fd: nat :: fd in t.queue <==> ActiveAt(s, fd, w)
  }

  ghost predicate Core(s: Server) {
    && s.Shape() && ListOk(s) && TableOk(s) && !s.fault
    && forall w: nat | w < |s.queues| :: QueueOk(s, w)
  }

  /** Between two turns nothing waits to be destroyed. */
  ghost predicate Inv(s: Server) {
    Core(s) && s.condemned == []
  }

  /** The server before its first client, with workers whose timers are of these kinds. */
  function Idle(kinds: seq<seq<Timers.Kind>>): (s: Server)
    ensures s.Shape() && |s.queues| == |kinds|
    ensures forall w | 0 <= w < |kinds| :: s.queues[w] == IdleQueue(kinds[w])
  {
    Server([], 0, map[], Shared(Pollers.EmptyTable().events, seq(|kinds|, i => map[])),
           seq(|kinds|, i requires 0 <= i < |kinds| => IdleQueue(kinds[i])), [], false)
  }

  function IdleQueue(kinds: seq<Timers.Kind>): (t: Timers.State)
    ensures t.Shape() && |t.timers| == |kinds|
  {
    Timers.State(kinds, seq(|kinds|, i => Timers.Timer(0, false)), [], {}, Timers.Disarmed, [], false)
  }

  lemma IdleInv(kinds: seq<seq<Timers.Kind>>)
    requires forall w: nat, x: nat | w < |kinds| && x < |kinds[w]| :: kinds[w][x].Repeats() && kinds[w][x].handler
    ensures Inv(Idle(kinds))
  {
    var s := Idle(kinds);
    forall w: nat | w < |s.queues| ensures QueueOk(s, w) {
      TimerLaws.StartsQuiet(s.queues[w]);
    }
    forall fd: nat | fd < Pollers.MAX_FD ensures Nowhere(s.table, fd) {
      assert s.table.events[fd] == Pollers.CLEARED;
    }
  }

  // ---------- the queue's own effects ----------

  lemma StartQueues(t: Timers.State, id: nat, now: int)
    requires TimerLaws.Quiet(t) && TimerLaws.Earliest(t) && id < |t.timers| && id !in t.queue
    ensures var n := Timers.Start(Repaired, t, id, now);
      && TimerLaws.Quiet(n) && TimerLaws.Earliest(n) && (forall x: nat :: x in n.queue <==> x in t.queue || x == id)
      && (t.kinds[id].Repeats() ==> Timers.Expiration(n, id) == now + t.kinds[id].interval)
      && forall x: nat | x < |t.timers| && x != id :: n.timers[x] == t.timers[x]
  {
    TimerLaws.QuietMeans(t, id, now);
    TimerLaws.StartTakesEffect(t, id, now, {}, {}, 0, 0);
    TimerLaws.DoKeeps(t, Timers.StartOp(id, now), {}, {}, 0, 0);
    TimerLaws.DoKeepsEarliest(t, Timers.StartOp(id, now));
    assert Timers.Do(Repaired, t, Timers.StartOp(id, now)) == Timers.Start(Repaired, t, id, now);
  }

  lemma CancelUnqueues(t: Timers.State, id: nat)
    requires TimerLaws.Quiet(t) && TimerLaws.Earliest(t) && id < |t.timers|
    ensures var n := Timers.Cancel(Repaired, t, id);
      TimerLaws.Quiet(n) && TimerLaws.Earliest(n) && forall x: nat :: x in n.queue <==> x in t.queue && x != id
  {
    TimerLaws.QuietMeans(t, id, 0);
    TimerLaws.DoKeeps(t, Timers.CancelOp(id), {}, {}, 0, 0);
    TimerLaws.DoKeepsEarliest(t, Timers.CancelOp(id));
    assert Timers.Do(Repaired, t, Timers.CancelOp(id)) == Timers.Cancel(Repaired, t, id);
    Timers.EraseSorted(Repaired, t.timers, t.queue, id);
  }

  // ---------- accepting and closing ----------

  /** One worker's queue and the table change; the list does not. */
  lemma SameList(s: Server, n: Server)
    requires ListOk(s) && n.list == s.list && n.nextId == s.nextId && n.objects == s.objects && |n.queues| == |s.queues|
    requires n.condemned == s.condemned
    ensures ListOk(n)
  {
  }

  /** The queues of the other workers stay as they are while a connection of worker w begins or ends. */
  lemma OtherQueues(s: Server, n: Server, w: nat, fd: nat)
    requires s.Shape() && n.Shape() && |n.queues| == |s.queues| && (forall q: nat | q < |s.queues| :: QueueOk(s, q))
    requires forall q: nat | q < |s.queues| && q != w :: n.queues[q] == s.queues[q]
    requires forall x: nat, q: nat | q != w :: ActiveAt(n, x, q) <==> ActiveAt(s, x, q)
    ensures forall q: nat | q < |s.queues| && q != w :: QueueOk(n, q)
  {
    hide TimerLaws.Quiet, TimerLaws.Earliest, KindsOk;
    forall q: nat | q < |s.queues| && q != w ensures QueueOk(n, q) {
      assert QueueOk(s, q);
    }
  }

  lemma AppendKeepsList(s: Server, fd: nat, w: nat, n: Server)
    requires ListOk(s) && fd !in s.objects && w < |s.queues| && fd < Pollers.MAX_FD
    requires n.list == s.list + [Node(s.nextId, fd)] && n.nextId == s.nextId + 1
    requires n.objects == s.objects[fd := Obj(s.nextId, w)] && n.condemned == s.condemned && |n.queues| == |s.queues|
    ensures ListOk(n)
  {
  }

  lemma NewQueue(s: Server, w: nat, fd: nat, now: int)
    requires Core(s) && s.Fits(w, fd) && fd !in s.objects
    ensures QueueOk(NewConnection(s, w, fd, now), w)
  {
    assert QueueOk(s, w);
    StartQueues(s.queues[w], fd, now);
    var n := NewConnection(s, w, fd, now);
    assert forall x: nat :: ActiveAt(n, x, w) <==> ActiveAt(s, x, w) || x == fd;
    hide TimerLaws.Quiet, TimerLaws.Earliest, Timers.Start;
  }

  /** It is due an interval after it was accepted, not before; no other timer is touched. */
  lemma NewTimer(s: Server, w: nat, fd: nat, now: int)
    requires Core(s) && s.Fits(w, fd) && fd !in s.objects
    ensures var t, n := s.queues[w], NewConnection(s, w, fd, now).queues[w];
      && n.kinds == t.kinds && Timers.Expiration(n, fd) == now + t.kinds[fd].interval
      && forall x: nat | x < |t.timers| && x != fd :: Timers.Expiration(n, x) == Timers.Expiration(t, x)
  {
    assert QueueOk(s, w) && s.queues[w].kinds[fd].Repeats();
    StartQueues(s.queues[w], fd, now);
    hide Timers.Start;
  }

  lemma NewTable(s: Server, w: nat, fd: nat, now: int)
    requires Core(s) && s.Fits(w, fd) && fd !in s.objects
    ensures TableOk(NewConnection(s, w, fd, now))
  {
    var n := NewConnection(s, w, fd, now);
    assert Nowhere(s.table, fd);
    AddPlaces(s.table, w, fd, {Pollers.EV_READ});
    hide Timers.Start, AddThrough, Only, Nowhere, SameBut;
    forall x: nat | x < Pollers.MAX_FD
      ensures if Active(n, x) then Only(n.table, x, n.objects[x].worker) else Nowhere(n.table, x)
    {
      if x != fd {
        OthersStay(s.table, n.table, fd, w, x);
      }
    }
  }

  lemma NewConnectionKeeps(s: Server, w: nat, fd: nat, now: int)
    requires Core(s) && s.Fits(w, fd) && fd !in s.objects
    ensures Core(NewConnection(s, w, fd, now)) && NewConnection(s, w, fd, now).condemned == s.condemned
  {
    hide Timers.Start, AddThrough, TableOk;
    var n := NewConnection(s, w, fd, now);
    AppendKeepsList(s, fd, w, n);
    NewQueue(s, w, fd, now);
    NewTable(s, w, fd, now);
    OtherQueues(s, n, w, fd);
    hide ListOk, QueueOk;
  }

  /** What accepting a client means to a caller: one entry more, at the place its index names, registered and queued
      with this worker. */
  lemma NewConnectionMeaning(s: Server, w: nat, fd: nat, now: int)
    requires Core(s) && s.Fits(w, fd) && fd !in s.objects
    ensures var n := NewConnection(s, w, fd, now);
      && Core(n) && n.condemned == s.condemned
      && n.objects == s.objects[fd := Obj(s.nextId, w)] && n.list == s.list + [Node(s.nextId, fd)]
      && n.nextId == s.nextId + 1
      && fd in n.table.kernels[w] && Pollers.EPOLLIN in n.table.kernels[w][fd] && fd in n.queues[w].queue
      && Timers.Expiration(n.queues[w], fd) == now + s.queues[w].kinds[fd].interval
  {
    var n := NewConnection(s, w, fd, now);
    NewConnectionKeeps(s, w, fd, now);
    NewTimer(s, w, fd, now);
    hide Timers.Start, AddThrough, ListOk;
    assert !(fd in s.condemned) by { CondemnedExist(s, fd); }
    assert Active(n, fd) && Only(n.table, fd, w) && QueueOk(n, w);
  }

  lemma CondemnedExist(s: Server, fd: nat)
    requires Core(s) && fd !in s.objects
    ensures fd !in s.condemned
  {
  }

  /** Unlinking a connection takes its list entry and its index, each once, and leaves every other connection's entry
      where its index names it. */
  lemma UnlinkKeeps(s: Server, fd: nat)
    requires s.Shape() && ListOk(s) && fd in s.objects && fd !in s.condemned
    ensures Node(s.objects[fd].id, fd) in s.list
    ensures var n := Unlink(s, fd);
      && ListOk(n) && |n.list| == |s.list| - 1
      && (forall x: nat :: x in n.objects <==> x in s.objects && x != fd)
      && (forall x: nat | x in n.objects :: n.objects[x] == s.objects[x])
      && (forall node: Node :: node in n.list <==> node in s.list && node.fd != fd)
  {
    var n := Unlink(s, fd);
    var id := s.objects[fd].id;
    EraseNodeKeepsOthers(s.list, id);
    var p :| 0 <= p < |s.list| && s.list[p] == Node(id, fd);
    EraseNodeTakesOne(s.list, p);
    forall node: Node | node in s.list ensures node.id == id <==> node.fd == fd {
      if node.id == id {
        var i :| 0 <= i < |s.list| && s.list[i] == node;
        assert i == p;
      }
    }
  }

  /** A table without `fd`, and otherwise the same. */
  lemma TableWithout(s: Server, n: Server, w: nat, fd: nat)
    requires s.Shape() && n.Shape() && ListOk(s) && TableOk(s) && w < |s.queues|
    requires fd in s.objects && (s.objects[fd].worker == w || fd in s.condemned)
    requires n.table == DelThrough(s.table, w, fd, Pollers.ALL_EVENTS)
    requires forall x: nat :: Active(n, x) <==> Active(s, x) && x != fd
    requires forall x: nat | Active(n, x) :: x in s.objects && n.objects[x] == s.objects[x]
    ensures TableOk(n)
  {
    assert fd < Pollers.MAX_FD;
    assert if Active(s, fd) then Only(s.table, fd, w) else Nowhere(s.table, fd);
    DelTakesOut(s.table, w, fd);
    hide DelThrough, Only, Nowhere, SameBut, ListOk;
    forall x: nat | x < Pollers.MAX_FD
      ensures if Active(n, x) then Only(n.table, x, n.objects[x].worker) else Nowhere(n.table, x)
    {
      if x != fd {
        OthersStay(s.table, n.table, fd, w, x);
        assert if Active(s, x) then Only(s.table, x, s.objects[x].worker) else Nowhere(s.table, x);
      }
    }
  }

  /** The queue without `fd`. */
  lemma QueueWithout(s: Server, n: Server, w: nat, fd: nat)
    requires s.Shape() && n.Shape() && w < |s.queues| && QueueOk(s, w) && fd < |s.queues[w].timers| && w < |n.queues|
    requires n.queues[w] == Timers.Cancel(Repaired, s.queues[w], fd)
    requires forall x: nat :: ActiveAt(n, x, w) <==> ActiveAt(s, x, w) && x != fd
    ensures QueueOk(n, w)
  {
    CancelUnqueues(s.queues[w], fd);
    hide TimerLaws.Quiet, TimerLaws.Earliest, Timers.Cancel;
  }

  /** A connection ends: it is disabled, and noted to be destroyed. */
  function Retire(s: Server, w: nat, fd: nat): (n: Server)
    requires s.Shape() && s.Fits(w, fd)
    ensures n.Shape() && Local(s, n, w)
  {
    var d := Disable(s, w, fd);
    d.(condemned := d.condemned + [fd])
  }

  lemma ActiveFits(s: Server, fd: nat, w: nat)
    requires Core(s) && ActiveAt(s, fd, w)
    ensures s.Fits(w, fd)
  {
    assert QueueOk(s, w);
  }

  lemma RetiredList(s: Server, n: Server, fd: nat)
    requires ListOk(s) && n.list == s.list && n.nextId == s.nextId && n.objects == s.objects && |n.queues| == |s.queues|
    requires n.condemned == s.condemned + [fd] && Active(s, fd)
    ensures ListOk(n)
  {
  }

  lemma RetireKeeps(s: Server, w: nat, fd: nat)
    requires Core(s) && ActiveAt(s, fd, w) && s.Fits(w, fd)
    ensures Core(Retire(s, w, fd))
  {
    hide Timers.Cancel, DelThrough, QueueOk, TableOk;
    var n := Retire(s, w, fd);
    assert forall x: nat :: x in n.condemned <==> x in s.condemned || x == fd;
    RetiredList(s, n, fd);
    hide ListOk;
    QueueWithout(s, n, w, fd);
    TableWithout(s, n, w, fd);
    OtherQueues(s, n, w, fd);
  }

  /** Destroying a connection that is disabled already takes its entry and its object. */
  lemma BuryKeeps(s: Server, w: nat)
    requires Core(s) && s.condemned != [] && s.Fits(w, s.condemned[0])
    ensures var n, fd := Bury(s, w), s.condemned[0];
      && Core(n) && n.condemned == s.condemned[1..] && |n.list| == |s.list| - 1
      && (forall x: nat :: x in n.objects <==> x in s.objects && x != fd)
      && (forall x: nat | x in n.objects :: n.objects[x] == s.objects[x])
      && n.queues == s.queues
  {
    hide Timers.Cancel, DelThrough, EraseNode;
    var fd, tail := s.condemned[0], s.condemned[1..];
    assert s.condemned == [fd] + tail && fd in s.condemned && fd in s.objects;
    TimerLaws.MembersTail(s.condemned);
    assert fd !in tail && (forall x: nat :: x in s.condemned <==> x == fd || x in tail) && TimerLaws.Distinct(tail);
    var t := s.(condemned := tail);
    assert ListOk(t);
    var u := Unlink(t, fd);
    UnlinkKeeps(t, fd);
    var n := Bury(s, w);
    IdleCancel(s, w, fd);
    assert n == Disable(u, w, fd) && n.queues == s.queues;
    SameList(u, n);
    hide ListOk;
    assert forall x: nat :: Active(n, x) <==> Active(s, x);
    BuriedTable(s, n, w, fd);
    forall q: nat | q < |n.queues| ensures QueueOk(n, q) {
      assert QueueOk(s, q);
      assert forall x: nat :: ActiveAt(n, x, q) <==> ActiveAt(s, x, q);
    }
  }

  lemma BuriedTable(s: Server, n: Server, w: nat, fd: nat)
    requires s.Shape() && n.Shape() && TableOk(s) && w < |s.queues| && fd in s.condemned && fd < Pollers.MAX_FD
    requires n.table == DelThrough(s.table, w, fd, Pollers.ALL_EVENTS)
    requires forall x: nat :: Active(n, x) <==> Active(s, x)
    requires forall x: nat | Active(n, x) :: x in s.objects && n.objects[x] == s.objects[x]
    ensures TableOk(n)
  {
    assert Nowhere(s.table, fd);
    DelTakesOut(s.table, w, fd);
    hide DelThrough, Only, Nowhere, SameBut;
    forall x: nat | x < Pollers.MAX_FD
      ensures if Active(n, x) then Only(n.table, x, n.objects[x].worker) else Nowhere(n.table, x)
    {
      if x != fd {
        OthersStay(s.table, n.table, fd, w, x);
        assert if Active(s, x) then Only(s.table, x, s.objects[x].worker) else Nowhere(s.table, x);
      }
    }
  }

  /** The destructor of a condemned connection finds its timer cancelled. */
  lemma IdleCancel(s: Server, w: nat, fd: nat)
    requires Core(s) && s.Fits(w, fd) && fd in s.condemned
    ensures Timers.Cancel(Repaired, s.queues[w], fd) == s.queues[w]
    ensures s.queues[w := s.queues[w]] == s.queues
  {
    assert QueueOk(s, w);
    TimerLaws.QuietMeans(s.queues[w], fd, 0);
  }

  /** All condemned connections are of worker w. */
  ghost predicate CondemnedFit(s: Server, w: nat) {
    forall i | 0 <= i < |s.condemned| :: s.Fits(w, s.condemned[i])
  }

  lemma {:induction false} BuryAllKeeps(s: Server, w: nat)
    requires Core(s) && CondemnedFit(s, w)
    ensures var n := BuryAll(s, w);
      && Inv(n) && n.queues == s.queues
      && (forall x: nat :: x in n.objects <==> Active(s, x))
      && (forall x: nat | x in n.objects :: n.objects[x] == s.objects[x])
    decreases |s.condemned|
  {
    hide TableOk, QueueOk, ListOk, Bury;
    if s.condemned != [] {
      BuryKeeps(s, w);
      var m, fd := Bury(s, w), s.condemned[0];
      assert s.condemned == [fd] + m.condemned;
      assert forall i | 0 <= i < |m.condemned| :: m.condemned[i] == s.condemned[i + 1];
      assert forall i | 0 <= i < |m.condemned| :: m.Fits(w, m.condemned[i]);
      BuryAllKeeps(m, w);
    } else {
      assert BuryAll(s, w) == s;
    }
  }

  /** Where a connection is destroyed at once, or noted: the same connections are left, and all of them as they were. */
  lemma CloseKeeps(p: Erasure, s: Server, w: nat, fd: nat)
    requires Core(s) && ActiveAt(s, fd, w) && s.Fits(w, fd) && (p.AfterList? || s.condemned == [])
    ensures var n := Close(p, s, w, fd);
      && Core(n)
      && (forall x: nat :: Active(n, x) <==> Active(s, x) && x != fd)
      && (forall x: nat | x in n.objects :: x in s.objects && n.objects[x] == s.objects[x])
      && n.condemned == (if p.AfterList? then s.condemned + [fd] else []) && (p.AfterList? ==> n.objects == s.objects)
      && n.queues == s.queues[w := Timers.Cancel(Repaired, s.queues[w], fd)] && n.nextId == s.nextId
  {
    hide Timers.Cancel, DelThrough, TableOk, QueueOk, ListOk, Local, Retire, Bury, Disable;
    var r := Retire(s, w, fd);
    RetireKeeps(s, w, fd);
    CloseIsRetire(p, s, w, fd);
    if !p.AfterList? {
      assert r.condemned == [fd];
      BuryKeeps(r, w);
    }
  }

  /** Closing at once is retiring and burying. */
  lemma CloseIsRetire(p: Erasure, s: Server, w: nat, fd: nat)
    requires s.Shape() && fd in s.objects && s.Fits(w, fd) && (p.AfterList? || s.condemned == [])
    ensures var r := Retire(s, w, fd);
      && r.objects == s.objects && r.nextId == s.nextId && r.condemned == s.condemned + [fd]
      && r.queues == s.queues[w := Timers.Cancel(Repaired, s.queues[w], fd)]
      && (p.AfterList? ==> Close(p, s, w, fd) == r)
      && (!p.AfterList? ==> r.condemned == [fd] && Close(p, s, w, fd) == Bury(r, w) && Bury(r, w).nextId == s.nextId)
  {
    hide Timers.Cancel, DelThrough, EraseNode;
    if !p.AfterList? {
      assert [fd][1..] == [] && s.condemned + [fd] == [fd];
    }
  }

  /** Closing a connection takes its list entry, registration and queued timer, and touches no other connection. */
  lemma CloseRemovesOnce(p: Erasure, s: Server, w: nat, fd: nat)
    requires Inv(s) && ActiveAt(s, fd, w) && s.Fits(w, fd) && !p.AfterList?
    ensures var n := Close(p, s, w, fd);
      && Inv(n) && |n.list| == |s.list| - 1
      && (forall x: nat :: x in n.objects <==> x in s.objects && x != fd)
      && (forall x: nat | x in n.objects :: n.objects[x] == s.objects[x])
  {
    RetireKeeps(s, w, fd);
    BuryKeeps(Retire(s, w, fd), w);
    CloseKeeps(p, s, w, fd);
    hide Timers.Cancel, DelThrough, TableOk, QueueOk, ListOk;
    assert Close(p, s, w, fd) == Bury(Retire(s, w, fd), w);
  }

  // ---------- a timeout ----------

  lemma SelfCancelOne(t: Timers.State, id: nat, now: int)
    requires t.Shape() && !t.fault && id < |t.timers| && id !in t.queue && t.kinds[id].handler
    ensures var r := Timers.Run(Repaired, t, id, now, CLOSE_SCRIPT(id));
      && !r.fault && r.queue == t.queue && !r.timers[id].running
      && (forall x: nat | x < |t.timers| && x != id :: r.timers[x] == t.timers[x])
  {
    var ops := CLOSE_SCRIPT(id);
    if t.timers[id].running {
      var a := Timers.AtCallback(t, id, now);
      assert ops[1..] == [];
      assert Timers.DoAll(Repaired, a, ops) == Timers.Do(Repaired, a, ops[0]);
    }
  }

  /** The batch is out of the set; its timers are cancelled one by one, and nothing else changes. */
  lemma {:induction false} SelfCancelBatch(t: Timers.State, batch: seq<nat>, now: int)
    requires t.Shape() && !t.fault && Timers.InRange(t.timers, batch)
    requires forall x: nat | x in batch :: x !in t.queue && t.kinds[x].handler
    ensures var n := Timers.RunBatch(Repaired, t, batch, now, CLOSE_SCRIPT);
      && !n.fault && n.queue == t.queue && n.kinds == t.kinds
      && (forall x: nat | x in batch :: !n.timers[x].running)
      && (forall x: nat | x < |t.timers| && !t.timers[x].running :: !n.timers[x].running)
      && (forall x: nat | x < |t.timers| && x !in batch :: n.timers[x] == t.timers[x])
    decreases |batch|
  {
    if batch != [] {
      var id := batch[0];
      var r := Timers.Run(Repaired, t, id, now, CLOSE_SCRIPT(id));
      SelfCancelOne(t, id, now);
      assert batch == [id] + batch[1..];
      SelfCancelBatch(r, batch[1..], now);
    }
  }

  lemma {:induction false} NothingReinserted(t: Timers.State, batch: seq<nat>, now: int)
    requires t.Shape() && Timers.InRange(t.timers, batch) && forall x: nat | x in batch :: !t.timers[x].running
    ensures Timers.ReinsertAll(Repaired, t, batch, now) == t
    decreases |batch|
  {
    if batch != [] {
      assert batch == [batch[0]] + batch[1..];
      NothingReinserted(t, batch[1..], now);
    }
  }

  /** Taking the batch splits the set in two. */
  lemma BatchSplitsQueue(t: Timers.State, now: int)
    requires TimerLaws.Quiet(t)
    ensures var b, rest := Timers.Batch(Repaired, t, now), Timers.TakeBatch(Repaired, t, now).queue;
      && TimerLaws.Distinct(b)
      && (forall x: nat | x in b :: x !in rest && x < |t.timers| && t.timers[x].running)
      && (forall x: nat :: x in t.queue <==> x in b || x in rest)
  {
    var b, rest := Timers.Batch(Repaired, t, now), Timers.TakeBatch(Repaired, t, now).queue;
    TimerLaws.SortedDistinct(Repaired, t.timers, t.queue);
    assert t.queue == b + rest;
    assert forall j | 0 <= j < |rest| :: rest[j] == t.queue[|b| + j];
    forall x: nat | x in b ensures x !in rest && x < |t.timers| && t.timers[x].running {
      var i :| 0 <= i < |b| && b[i] == x;
      assert t.queue[i] == x && TimerLaws.TimerOk(t, x, {}, {}, 0, 0);
    }
  }

  /** A batch whose callbacks cancel their own timers leaves the queue by exactly the batch, and all other timers as
      they were. */
  lemma TimeoutUnqueues(t: Timers.State, now: int)
    requires TimerLaws.Quiet(t) && forall x: nat | x < |t.kinds| :: t.kinds[x].handler
    ensures var n, b := Timers.HandleTimeout(Repaired, t, now, CLOSE_SCRIPT), Timers.Batch(Repaired, t, now);
      && TimerLaws.Quiet(n) && TimerLaws.Earliest(n) && n.kinds == t.kinds
      && (forall x: nat :: x in n.queue <==> x in t.queue && x !in b)
      && (forall x: nat | x in b :: x < |n.timers| && !n.timers[x].running)
      && (forall x: nat | x < |t.timers| && x !in b :: n.timers[x] == t.timers[x])
  {
    var b, taken := Timers.Batch(Repaired, t, now), Timers.TakeBatch(Repaired, t, now);
    TimerLaws.TimeoutKeeps(t, now, CLOSE_SCRIPT);
    BatchSplitsQueue(t, now);
    SelfCancelBatch(taken, b, now);
    var r := Timers.RunBatch(Repaired, taken, b, now, CLOSE_SCRIPT);
    NothingReinserted(r, b, now);
  }

  predicate Due(t: Timers.State, x: nat, now: int) {
    x < |t.timers| && Timers.Expiration(t, x) <= now
  }

  lemma DueIsBatch(t: Timers.State, now: int)
    requires TimerLaws.Quiet(t)
    ensures forall x: nat | x in t.queue :: x in Timers.Batch(Repaired, t, now) <==> Due(t, x, now)
  {
    TimerLaws.BatchIsPartition(t.timers, t.queue, now);
    var b := Timers.Batch(Repaired, t, now);
    forall x: nat | x in t.queue ensures x in b <==> Due(t, x, now) {
      var i :| 0 <= i < |t.queue| && t.queue[i] == x;
      if i < |b| {
        assert b[i] == x;
      }
      if x in b {
        var j :| 0 <= j < |b| && b[j] == x;
        assert t.queue[j] == x;
      }
    }
  }

  /** The connections of a batch before their callbacks. */
  ghost predicate Waits(s: Server, w: nat, fd: nat)
    requires s.Shape() && w < |s.queues|
  {
    s.Fits(w, fd) && fd in s.objects && CallsBack(s.queues[w], fd)
  }

  ghost predicate AllWait(s: Server, w: nat, batch: seq<nat>)
    requires s.Shape() && w < |s.queues|
  {
    forall i | 0 <= i < |batch| :: Waits(s, w, batch[i])
  }

  /** The table loses some descriptors and keeps the others where they were. */
  ghost predicate TableLess(t: Shared, n: Shared, gone: seq<nat>)
    requires t.Shape()
  {
    && n.Shape() && |n.kernels| == |t.kernels|
    && forall x: nat | x < Pollers.MAX_FD ::
         if x in gone then Nowhere(n, x)
         else (Nowhere(t, x) ==> Nowhere(n, x)) && forall q: nat :: Only(t, x, q) ==> Only(n, x, q)
  }

  /** What the callbacks of a batch leave behind, when they only note the connections. */
  ghost predicate Noted(s: Server, n: Server, w: nat, batch: seq<nat>, now: int)
    requires s.Shape() && w < |s.queues| && Timers.InRange(s.queues[w].timers, batch)
  {
    && n == s.(queues := s.queues[w := Timers.RunBatch(Repaired, s.queues[w], batch, now, CLOSE_SCRIPT)],
               table := n.table, condemned := s.condemned + batch)
    && TableLess(s.table, n.table, batch)
  }

  lemma OneLess(t: Shared, w: nat, fd: nat)
    requires t.Shape() && w < |t.kernels| && fd < Pollers.MAX_FD && (Only(t, fd, w) || Nowhere(t, fd))
    ensures TableLess(t, DelThrough(t, w, fd, Pollers.ALL_EVENTS), [fd])
  {
    var n := DelThrough(t, w, fd, Pollers.ALL_EVENTS);
    DelTakesOut(t, w, fd);
    hide DelThrough, Only, Nowhere, SameBut;
    forall x: nat | x < Pollers.MAX_FD && x != fd
      ensures (Nowhere(t, x) ==> Nowhere(n, x)) && forall q: nat :: Only(t, x, q) ==> Only(n, x, q)
    {
      OthersStay(t, n, fd, w, x);
    }
  }

  lemma LessTwice(t: Shared, m: Shared, n: Shared, fd: nat, tail: seq<nat>)
    requires t.Shape() && TableLess(t, m, [fd]) && TableLess(m, n, tail)
    ensures TableLess(t, n, [fd] + tail)
  {
    hide Only, Nowhere;
    assert forall x: nat :: x in [fd] + tail <==> x == fd || x in tail;
    forall x: nat | x < Pollers.MAX_FD
      ensures if x in [fd] + tail then Nowhere(n, x)
              else (Nowhere(t, x) ==> Nowhere(n, x)) && forall q: nat :: Only(t, x, q) ==> Only(n, x, q)
    {
      assert x in [fd] <==> x == fd;
    }
  }

  lemma CallbackNotes(p: Erasure, s: Server, w: nat, fd: nat, now: int)
    requires !p.AtOnce? && s.Shape() && !s.fault && w < |s.queues| && Waits(s, w, fd)
    requires Only(s.table, fd, w) || Nowhere(s.table, fd)
    ensures var n := Callback(p, s, w, fd, now);
      && n == s.(queues := s.queues[w := Timers.Run(Repaired, s.queues[w], fd, now, CLOSE_SCRIPT(fd))],
                 table := n.table, condemned := s.condemned + [fd])
      && TableLess(s.table, n.table, [fd])
      && forall x: nat | x != fd && Waits(s, w, x) :: Waits(n, w, x)
  {
    hide Timers.Run, DelThrough, TableLess;
    SelfCancelOne(s.queues[w], fd, now);
    OneLess(s.table, w, fd);
  }

  lemma NotedCons(s: Server, m: Server, n: Server, w: nat, fd: nat, tail: seq<nat>, now: int)
    requires s.Shape() && m.Shape() && s.Fits(w, fd) && Timers.InRange(s.queues[w].timers, tail)
    requires w < |m.queues| && Timers.InRange(m.queues[w].timers, tail) && Noted(m, n, w, tail, now)
    requires m == s.(queues := s.queues[w := Timers.Run(Repaired, s.queues[w], fd, now, CLOSE_SCRIPT(fd))],
                     table := m.table, condemned := s.condemned + [fd])
    requires TableLess(s.table, m.table, [fd])
    ensures Timers.InRange(s.queues[w].timers, [fd] + tail) && Noted(s, n, w, [fd] + tail, now)
  {
    hide Timers.Run, TableLess;
    Seqs.Cons(fd, tail);
    Seqs.Assoc(s.condemned, [fd], tail);
    LessTwice(s.table, m.table, n.table, fd, tail);
  }

  lemma {:induction false} CallbacksNote(p: Erasure, s: Server, w: nat, batch: seq<nat>, now: int)
    requires !p.AtOnce? && s.Shape() && !s.fault && w < |s.queues| && AllFit(s, w, batch)
    requires Timers.InRange(s.queues[w].timers, batch)
    requires AllWait(s, w, batch) && TimerLaws.Distinct(batch)
    requires forall x: nat | x in batch :: Only(s.table, x, w) || Nowhere(s.table, x)
    ensures Noted(s, Callbacks(p, s, w, batch, now), w, batch, now)
    decreases |batch|
  {
    if batch == [] {
      NoteNothing(s, w, now);
    } else {
      var fd, m, tail := batch[0], Callback(p, s, w, batch[0], now), batch[1..];
      assert Waits(s, w, batch[0]);
      CallbackNotes(p, s, w, fd, now);
      hide Callback, Waits, Noted, Timers.Run, Only, Nowhere;
      assert batch == [fd] + tail;
      forall i | 0 <= i < |tail| ensures Waits(m, w, tail[i]) {
        assert tail[i] == batch[i + 1] != fd && Waits(s, w, batch[i + 1]);
      }
      forall x: nat | x in tail ensures Only(m.table, x, w) || Nowhere(m.table, x) {
        var i :| 0 <= i < |tail| && tail[i] == x;
        assert batch[i + 1] == x && x < Pollers.MAX_FD && x !in [fd];
      }
      CallbacksNote(p, m, w, tail, now);
      NotedCons(s, m, Callbacks(p, m, w, tail, now), w, fd, tail, now);
    }
  }

  lemma NoteNothing(s: Server, w: nat, now: int)
    requires s.Shape() && w < |s.queues|
    ensures Timers.InRange(s.queues[w].timers, []) && Noted(s, s, w, [], now)
  {
    assert s.condemned + [] == s.condemned;
    assert s.queues[w := s.queues[w]] == s.queues;
  }

  lemma {:induction false} ResetIsReinsert(s: Server, w: nat, batch: seq<nat>, now: int)
    requires s.Shape() && !s.fault && w < |s.queues| && AllFit(s, w, batch) && Timers.InRange(s.queues[w].timers, batch)
    requires forall x: nat | x in batch :: x in s.objects
    ensures Reset(s, w, batch, now)
         == s.(queues := s.queues[w := Timers.ReinsertAll(Repaired, s.queues[w], batch, now)])
    decreases |batch|
  {
    if batch == [] {
      assert s.queues[w := s.queues[w]] == s.queues;
    } else {
      assert batch == [batch[0]] + batch[1..];
      hide Timers.Reinsert;
      ResetIsReinsert(ResetOne(s, w, batch[0], now), w, batch[1..], now);
    }
  }

  /** Before the callbacks: everything of the batch is active. */
  lemma BatchWaits(s: Server, w: nat, now: int)
    requires Core(s) && w < |s.queues|
    ensures var b := Expired(s, w, now);
      && AllFit(s, w, b) && TimerLaws.Distinct(b) && AllWait(Taken(s, w, now), w, b)
      && forall x: nat | x in b :: ActiveAt(s, x, w) && x < Pollers.MAX_FD && Only(s.table, x, w)
  {
    assert QueueOk(s, w);
    BatchSplitsQueue(s.queues[w], now);
    var b, t := Expired(s, w, now), Taken(s, w, now);
    forall x: nat | x in b ensures ActiveAt(s, x, w) && x < Pollers.MAX_FD && Only(s.table, x, w) {
      assert x in s.queues[w].queue;
      assert Active(s, x);
    }
    forall i | 0 <= i < |b| ensures Waits(t, w, b[i]) {
      assert b[i] in b;
    }
  }

  /** The timer queue's own timeout, and the batch's connections noted. */
  lemma FiredParts(p: Erasure, s: Server, w: nat, now: int)
    requires !p.AtOnce? && Core(s) && w < |s.queues| && AllFit(s, w, Expired(s, w, now))
    ensures var n, b := Fired(p, s, w, now), Expired(s, w, now);
      && n == s.(queues := s.queues[w := Timers.HandleTimeout(Repaired, s.queues[w], now, CLOSE_SCRIPT)],
                 table := n.table, condemned := s.condemned + b)
      && TableLess(s.table, n.table, b)
  {
    var b, t := Expired(s, w, now), Taken(s, w, now);
    BatchWaits(s, w, now);
    hide TableLess, Only, Nowhere, AllWait, TableOk, QueueOk, ListOk;
    assert !s.fault by { CoreFault(s); }
    CallbacksNote(p, t, w, b, now);
    var c := Callbacks(p, t, w, b, now);
    ResetIsReinsert(c, w, b, now);
  }

  lemma CoreFault(s: Server)
    requires Core(s)
    ensures !s.fault
  {
  }

  lemma FiredQueue(s: Server, n: Server, w: nat, now: int)
    requires Core(s) && n.Shape() && w < |s.queues| && |n.queues| == |s.queues|
    requires n.queues[w] == Timers.HandleTimeout(Repaired, s.queues[w], now, CLOSE_SCRIPT)
    requires forall x: nat :: ActiveAt(n, x, w) <==> ActiveAt(s, x, w) && x !in Expired(s, w, now)
    ensures QueueOk(n, w)
  {
    assert QueueOk(s, w);
    TimeoutUnqueues(s.queues[w], now);
    hide TimerLaws.Quiet, TimerLaws.Earliest, Timers.HandleTimeout, Timers.Batch;
  }

  lemma FiredTable(s: Server, n: Server, gone: seq<nat>)
    requires s.Shape() && n.Shape() && TableOk(s) && TableLess(s.table, n.table, gone)
    requires forall x: nat :: Active(n, x) <==> Active(s, x) && x !in gone
    requires forall x: nat | Active(n, x) :: x in s.objects && n.objects[x] == s.objects[x]
    ensures TableOk(n)
  {
    hide Only, Nowhere;
  }

  lemma CondemnedGrows(s: Server, n: Server, gone: seq<nat>)
    requires ListOk(s) && n == s.(queues := n.queues, table := n.table, condemned := s.condemned + gone)
    requires |n.queues| == |s.queues| && TimerLaws.Distinct(gone) && forall x: nat | x in gone :: Active(s, x)
    ensures ListOk(n) && forall x: nat :: Active(n, x) <==> Active(s, x) && x !in gone
  {
    var c := n.condemned;
    forall i, j | 0 <= i < j < |c| ensures c[i] != c[j] {
      if i < |s.condemned| && j >= |s.condemned| {
        assert c[j] == gone[j - |s.condemned|] && c[j] in gone && c[i] in s.condemned;
      } else if i >= |s.condemned| {
        assert c[i] == gone[i - |s.condemned|] && c[j] == gone[j - |s.condemned|];
      }
    }
  }

  /** Firing a batch notes exactly its connections. */
  lemma FiredKeeps(p: Erasure, s: Server, w: nat, now: int)
    requires !p.AtOnce? && Core(s) && w < |s.queues| && AllFit(s, w, Expired(s, w, now))
    ensures var n, b := Fired(p, s, w, now), Expired(s, w, now);
      && Core(n) && n.condemned == s.condemned + b && n.objects == s.objects && n.nextId == s.nextId && n.list == s.list
      && n.queues == s.queues[w := Timers.HandleTimeout(Repaired, s.queues[w], now, CLOSE_SCRIPT)]
      && forall x: nat :: Active(n, x) <==> Active(s, x) && x !in b
  {
    var n, b := Fired(p, s, w, now), Expired(s, w, now);
    FiredParts(p, s, w, now);
    BatchWaits(s, w, now);
    hide Fired, TableLess, Timers.HandleTimeout, Timers.Batch, AllWait, QueueOk, TableOk;
    CondemnedGrows(s, n, b);
    hide ListOk;
    assert forall x: nat, q: nat :: ActiveAt(n, x, q) <==> ActiveAt(s, x, q) && x !in b;
    FiredQueue(s, n, w, now);
    FiredTable(s, n, b);
    OtherQueues(s, n, w, 0);
  }

  ghost predicate NothingDue(s: Server, w: nat, now: int)
    requires s.Shape() && w < |s.queues|
  {
    forall x: nat | ActiveAt(s, x, w) :: !Due(s.queues[w], x, now)
  }

  lemma BatchIsActiveDue(s: Server, w: nat, now: int)
    requires Core(s) && w < |s.queues|
    ensures forall x: nat | ActiveAt(s, x, w) :: x in Expired(s, w, now) <==> Due(s.queues[w], x, now)
  {
    assert QueueOk(s, w);
    hide TableOk, ListOk;
    DueIsBatch(s.queues[w], now);
  }

  /** A timeout ends exactly the connections of its worker whose timers were due. */
  lemma TimeoutEndsDue(p: Erasure, s: Server, w: nat, now: int)
    requires !p.AtOnce? && Core(s) && w < |s.queues| && AllFit(s, w, Expired(s, w, now))
    requires p.AfterList? || s.condemned == []
    ensures var n := Timeout(p, s, w, now);
      && Core(n) && n.nextId == s.nextId
      && (p.AfterBatch? ==> n.condemned == []) && (p.AfterList? ==> n.objects == s.objects)
      && (forall x: nat :: Active(n, x) <==> Active(s, x) && !(ActiveAt(s, x, w) && Due(s.queues[w], x, now)))
      && (forall x: nat | x in n.objects :: x in s.objects && n.objects[x] == s.objects[x])
      && n.queues == s.queues[w := Timers.HandleTimeout(Repaired, s.queues[w], now, CLOSE_SCRIPT)]
      && n.condemned == (if p.AfterList? then s.condemned + Expired(s, w, now) else [])
  {
    hide Fired, Timers.HandleTimeout, Timers.Batch, Due, TableOk, QueueOk, ListOk, AllWait, Local;
    var f, b := Fired(p, s, w, now), Expired(s, w, now);
    FiredKeeps(p, s, w, now);
    BatchIsActiveDue(s, w, now);
    BatchWaits(s, w, now);
    hide Fired, Timers.HandleTimeout, Timers.Batch, Due, AllWait, TableOk, QueueOk, ListOk;
    if p.AfterBatch? {
      assert f.condemned == b by { Seqs.Nil(b); }
      assert CondemnedFit(f, w);
      BuryAllKeeps(f, w);
      BuryAllSameId(f, w);
    }
  }

  lemma {:induction false} BuryAllSameId(s: Server, w: nat)
    requires s.Shape()
    ensures BuryAll(s, w).nextId == s.nextId && BuryAll(s, w).fault == s.fault
    decreases |s.condemned|
  {
    hide Timers.Cancel, DelThrough, EraseNode;
    if s.condemned != [] {
      BuryAllSameId(Bury(s, w), w);
    }
  }

  // ---------- erasing at once ----------

  lemma {:induction false} DestroyedStays(s: Server, w: nat, batch: seq<nat>, now: int, fd: nat)
    requires s.Shape() && AllFit(s, w, batch) && (s.fault || fd !in s.objects)
    ensures var n := Callbacks(AtOnce, s, w, batch, now); n.fault || fd !in n.objects
    decreases |batch|
  {
    if batch != [] {
      hide Timers.Run, DelThrough, EraseNode, Timers.Cancel;
      DestroyedStays(Callback(AtOnce, s, w, batch[0], now), w, batch[1..], now, fd);
    }
  }

  lemma {:induction false} ResetFaultStays(s: Server, w: nat, batch: seq<nat>, now: int)
    requires s.Shape() && AllFit(s, w, batch) && s.fault
    ensures Reset(s, w, batch, now).fault
    decreases |batch|
  {
    if batch != [] {
      ResetFaultStays(s, w, batch[1..], now);
    }
  }

  lemma FirstWaits(s: Server, w: nat, batch: seq<nat>)
    requires s.Shape() && w < |s.queues| && AllWait(s, w, batch) && batch != []
    ensures Waits(s, w, batch[0])
  {
  }

  lemma AtOnceDestroys(s: Server, w: nat, fd: nat, now: int)
    requires s.Shape() && w < |s.queues| && !s.fault && Waits(s, w, fd)
    ensures fd !in Callback(AtOnce, s, w, fd, now).objects
  {
    hide Timers.Run, DelThrough, EraseNode, Timers.Cancel;
  }

  /** The first connection of the batch is destroyed by its callback, and reset asks its timer afterwards. */
  lemma AtOnceFaults(s: Server, w: nat, now: int)
    requires Core(s) && w < |s.queues| && AllFit(s, w, Expired(s, w, now)) && Expired(s, w, now) != []
    ensures Timeout(AtOnce, s, w, now).fault
  {
    hide TableOk, QueueOk, ListOk, Callback, Timers.Reinsert, Timers.Batch, AllWait;
    var b, t := Expired(s, w, now), Taken(s, w, now);
    var fd, tail := b[0], b[1..];
    BatchWaits(s, w, now);
    assert Waits(t, w, b[0]) by { FirstWaits(t, w, b); }
    AtOnceDestroys(t, w, fd, now);
    var f := Callback(AtOnce, t, w, fd, now);
    DestroyedStays(f, w, tail, now, fd);
    var c := Callbacks(AtOnce, t, w, b, now);
    assert c == Callbacks(AtOnce, f, w, tail, now);
    assert ResetOne(c, w, fd, now).fault;
    ResetFaultStays(ResetOne(c, w, fd, now), w, tail, now);
  }

  lemma EmptyBatchSame(p: Erasure, q: Erasure, s: Server, w: nat, now: int)
    requires s.Shape() && w < |s.queues| && Expired(s, w, now) == [] && s.condemned == []
    ensures Timeout(p, s, w, now) == Timeout(q, s, w, now)
  {
  }

  lemma BatchIsDue(s: Server, w: nat, now: int)
    requires Core(s) && w < |s.queues|
    ensures Expired(s, w, now) == [] <==> NothingDue(s, w, now)
  {
    assert QueueOk(s, w);
    DueIsBatch(s.queues[w], now);
    BatchWaits(s, w, now);
    if Expired(s, w, now) != [] {
      assert Expired(s, w, now)[0] in Expired(s, w, now);
    }
  }

  /** In the committed queue it does not come so far: the callback's own cancel faults, for every timer that fires. */
  lemma CommittedQueueFaultsExactlyWhen(t: Timers.State, now: int)
    requires TimerDepartures.Healthy(t) && forall x: nat | x < |t.kinds| :: t.kinds[x].handler
    ensures Timers.HandleTimeout(AsWritten, t, now, CLOSE_SCRIPT).fault <==> TimerDepartures.FiresFront(t, now)
  {
    TimerDepartures.TimeoutOutcome(t, now, CLOSE_SCRIPT);
    if TimerDepartures.FiresFront(t, now) {
      assert CLOSE_SCRIPT(t.queue[0])[0] == Timers.CancelOp(t.queue[0]);
      TimerDepartures.SelfCancelFaults(t, now, CLOSE_SCRIPT);
    }
  }

  /** What the invariant says of one descriptor: a live connection has exactly one list entry, at the place its index
      names; it is registered with its own worker's poller and no other, for reading and with its own callback, and
      queued with its own worker's timer queue and no other.  Any other descriptor has no entry, registration or queued
      timer anywhere. */
  lemma LiveConnection(s: Server, fd: nat)
    requires Inv(s)
    ensures fd in s.objects ==>
      var home := s.objects[fd].worker;
      && (exists i :: 0 <= i < |s.list| && s.list[i] == Node(s.objects[fd].id, fd))
      && (forall i, j | 0 <= i < |s.list| && 0 <= j < |s.list| && s.list[i].fd == fd && s.list[j].fd == fd :: i == j)
      && (forall w: nat | w < |s.queues| :: fd in s.table.kernels[w] <==> w == home)
      && fd < Pollers.MAX_FD && home < |s.queues| && Pollers.EPOLLIN in s.table.kernels[home][fd]
      && s.table.events[fd].read == Pollers.Handler(fd)
      && (forall w: nat | w < |s.queues| :: fd in s.queues[w].queue <==> w == home)
    ensures fd !in s.objects ==>
      && (forall i | 0 <= i < |s.list| :: s.list[i].fd != fd)
      && (forall w: nat | w < |s.queues| :: fd !in s.table.kernels[w] && fd !in s.queues[w].queue)
  {
    forall i | 0 <= i < |s.list| ensures s.list[i].fd in s.objects && s.objects[s.list[i].fd].id == s.list[i].id {
      assert s.list[i] in s.list;
    }
    forall w: nat | w < |s.queues|
      ensures fd in s.queues[w].queue <==> fd in s.objects && s.objects[fd].worker == w
      ensures fd in s.table.kernels[w] <==> fd in s.objects && s.objects[fd].worker == w
    {
      assert QueueOk(s, w);
      if fd < Pollers.MAX_FD {
        assert if Active(s, fd) then Only(s.table, fd, s.objects[fd].worker) else Nowhere(s.table, fd);
      }
    }
  }

  /** Which reads end a connection: end of file, and an error that is not just an empty socket; in the committed code
      end of file alone.  Every other read leaves the whole server as it is. */
  lemma ReadEndsExactlyWhen(v: Variant, p: Erasure, s: Server, w: nat, fd: nat, result: Sockets.ReadResult)
    requires Inv(s) && ActiveAt(s, fd, w) && s.Fits(w, fd)
    ensures var n := Read(v, p, s, w, fd, s.objects[fd].id, result);
      && (Active(n, fd) <==> result.Delivered? || result == Sockets.ReadFailed(Sockets.EAGAIN)
                             || (v.AsWritten? && !result.Eof?))
      && (Active(n, fd) ==> n == s)
  {
    CloseKeeps(p, s, w, fd);
    hide Close, TableOk, QueueOk, ListOk;
  }

  /** The committed handler closes on end of file only: it differs from the repaired one exactly on read errors other
      than EAGAIN, which it leaves registered and queued. */
  lemma CommittedReadDiffersExactlyOnErrors(p: Erasure, s: Server, w: nat, fd: nat, result: Sockets.ReadResult)
    requires Inv(s) && ActiveAt(s, fd, w) && s.Fits(w, fd)
    ensures var id := s.objects[fd].id;
      Read(AsWritten, p, s, w, fd, id, result) == Read(Repaired, p, s, w, fd, id, result)
      <==> result != Sockets.ReadFailed(Sockets.OTHER_ERROR)
  {
    ReadEndsExactlyWhen(AsWritten, p, s, w, fd, result);
    ReadEndsExactlyWhen(Repaired, p, s, w, fd, result);
    hide Read, TableOk, QueueOk, ListOk;
  }
}
