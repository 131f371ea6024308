/** scheduler.cpp:42-53: a worker collects everything its poller reports, and then runs one entry after the other.  An
    entry can end a connection that a later entry is for. */
module PollLists {
  import opened Variants
  import Seqs
  import Pollers
  import opened SharedTable
  import Timers
  import TimerLaws
  import Sockets
  import Connections
  import opened Lifecycle

  // ---------- poll lists ----------

  /** One active event of scheduler::run: a connection that was reported, the timer descriptor, or a client that an
      acceptor hands over. */
  datatype Entry = Sock(fd: nat, id: nat, result: Sockets.ReadResult) | Clock(now: int) | Client(fd: nat, now: int)

  /** A client gets a descriptor that is not in use. */
  ghost predicate EntryFits(s: Server, w: nat, e: Entry)
    requires s.Shape() && w < |s.queues|
  {
    match e
    case Sock(fd, _, _) => s.Fits(w, fd)
    case Clock(now) => AllFit(s, w, Expired(s, w, now))
    case Client(fd, _) => s.Fits(w, fd) && (fd !in s.objects || s.fault)
  }

  ghost function RunEntry(v: Variant, p: Erasure, s: Server, w: nat, e: Entry): (n: Server)
    requires s.Shape() && w < |s.queues| && EntryFits(s, w, e)
    ensures n.Shape() && Local(s, n, w)
  {
    if s.fault then s
    else match e
      case Sock(fd, id, result) => Read(v, p, s, w, fd, id, result)
      case Clock(now) => Timeout(p, s, w, now)
      case Client(fd, now) => NewConnection(s, w, fd, now)
  }

  ghost predicate EntriesFit(v: Variant, p: Erasure, s: Server, w: nat, es: seq<Entry>)
    requires s.Shape() && w < |s.queues|
    decreases |es|
  {
    es == [] || (EntryFits(s, w, es[0]) && EntriesFit(v, p, RunEntry(v, p, s, w, es[0]), w, es[1..]))
  }

  ghost function RunEntries(v: Variant, p: Erasure, s: Server, w: nat, es: seq<Entry>): (n: Server)
    requires s.Shape() && w < |s.queues| && EntriesFit(v, p, s, w, es)
    ensures n.Shape() && Local(s, n, w)
    decreases |es|
  {
    if es == [] then s else RunEntries(v, p, RunEntry(v, p, s, w, es[0]), w, es[1..])
  }

  /** epoll_wait reports registered connections, all before the first entry runs. */
  ghost predicate Polled(s: Server, w: nat, es: seq<Entry>)
    requires s.Shape() && w < |s.queues|
  {
    forall i | 0 <= i < |es| && es[i].Sock? :: es[i].fd in s.table.kernels[w] && s.Alive(es[i].fd, es[i].id)
  }

  /** One turn of scheduler::run on worker w. */
  ghost function PollList(v: Variant, p: Erasure, s: Server, w: nat, es: seq<Entry>): (n: Server)
    requires s.Shape() && w < |s.queues| && EntriesFit(v, p, s, w, es)
    ensures n.Shape() && Local(s, n, w)
  {
    var r := RunEntries(v, p, s, w, es);
    if r.fault then r else BuryAll(r, w)
  }

  // ---------- runs ----------

  datatype Step = Turn(w: nat, es: seq<Entry>)

  ghost predicate Enabled(v: Variant, p: Erasure, s: Server, e: Step)
    requires s.Shape()
  {
    e.w < |s.queues| && EntriesFit(v, p, s, e.w, e.es) && (s.fault || Polled(s, e.w, e.es))
  }

  ghost predicate LegalRun(v: Variant, p: Erasure, s: Server, steps: seq<Step>)
    requires s.Shape()
    decreases |steps|
  {
    steps == [] ||
    (Enabled(v, p, s, steps[0]) && LegalRun(v, p, PollList(v, p, s, steps[0].w, steps[0].es), steps[1..]))
  }

  ghost function Run(v: Variant, p: Erasure, s: Server, steps: seq<Step>): (n: Server)
    requires s.Shape() && LegalRun(v, p, s, steps)
    ensures n.Shape()
    decreases |steps|
  {
    if steps == [] then s else Run(v, p, PollList(v, p, s, steps[0].w, steps[0].es), steps[1..])
  }

  // ---------- one entry ----------

  /** The guard of one entry, read off the state before it. */
  predicate Touches(p: Erasure, s: Server, w: nat, e: Entry)
    requires s.Shape() && w < |s.queues|
  {
    match e
    case Sock(fd, id, _) => !s.Alive(fd, id)
    case Clock(now) => p.AtOnce? && Expired(s, w, now) != []
    case Client(_, _) => false
  }

  /** What a poll list keeps while it runs: besides the core, an entry's connection is its worker's. */
  ghost predicate MidList(p: Erasure, s: Server, w: nat) {
    && Core(s) && w < |s.queues| && CondemnedFit(s, w) && (p.AfterList? || s.condemned == [])
    && forall fd: nat | fd in s.condemned :: fd in s.objects && s.objects[fd].worker == w
  }

  /** An entry touches a destroyed connection exactly when its guard says so; else the core is kept. */
  lemma EntryFaultsExactlyWhen(v: Variant, p: Erasure, s: Server, w: nat, e: Entry)
    requires MidList(p, s, w) && EntryFits(s, w, e)
    requires e.Sock? && s.Alive(e.fd, e.id) ==> s.objects[e.fd].worker == w
    ensures var n := RunEntry(v, p, s, w, e);
      && (n.fault <==> Touches(p, s, w, e))
      && (!n.fault ==> MidList(p, n, w))
  {
    hide TableOk, QueueOk, ListOk, Read, Timeout, Timers.Start, AddThrough, Local;
    match e {
      case Sock(fd, id, result) => ReadKeeps(v, p, s, w, fd, id, result);
      case Clock(now) => ClockKeeps(p, s, w, now);
      case Client(fd, now) => ClientKeeps(p, s, w, fd, now);
    }
  }

  lemma ClientKeeps(p: Erasure, s: Server, w: nat, fd: nat, now: int)
    requires MidList(p, s, w) && s.Fits(w, fd) && fd !in s.objects
    ensures MidList(p, NewConnection(s, w, fd, now), w)
  {
    hide TableOk, QueueOk, ListOk, Timers.Start, AddThrough;
    NewConnectionKeeps(s, w, fd, now);
  }

  lemma ReadKeeps(v: Variant, p: Erasure, s: Server, w: nat, fd: nat, id: nat, result: Sockets.ReadResult)
    requires MidList(p, s, w) && s.Fits(w, fd) && (s.Alive(fd, id) ==> s.objects[fd].worker == w)
    ensures var n := Read(v, p, s, w, fd, id, result);
      && (n.fault <==> !s.Alive(fd, id))
      && (!n.fault ==> MidList(p, n, w))
  {
    hide TableOk, QueueOk, ListOk, Timers.Cancel, Close;
    if s.Alive(fd, id) && fd !in s.condemned && Connections.Closes(v, result) {
      CloseKeeps(p, s, w, fd);
      var n := Close(p, s, w, fd);
      if p.AfterList? {
        forall i | 0 <= i < |n.condemned|
          ensures n.Fits(w, n.condemned[i]) && n.condemned[i] in n.objects && n.objects[n.condemned[i]].worker == w
        {
          assert i < |s.condemned| ==> n.condemned[i] == s.condemned[i] && s.condemned[i] in s.condemned;
        }
      }
    }
  }

  lemma ClockKeeps(p: Erasure, s: Server, w: nat, now: int)
    requires MidList(p, s, w) && AllFit(s, w, Expired(s, w, now))
    ensures var n := Timeout(p, s, w, now);
      && (n.fault <==> p.AtOnce? && Expired(s, w, now) != [])
      && (!n.fault ==> MidList(p, n, w))
  {
    hide Timeout, Timers.HandleTimeout, Timers.Batch, TableOk, QueueOk, ListOk;
    if p.AtOnce? && Expired(s, w, now) != [] {
      AtOnceFaults(s, w, now);
    } else if p.AtOnce? {
      EmptyBatchSame(p, AfterBatch, s, w, now);
      NotingClockKeeps(AfterBatch, s, w, now);
    } else {
      NotingClockKeeps(p, s, w, now);
    }
  }

  lemma NotingClockKeeps(p: Erasure, s: Server, w: nat, now: int)
    requires MidList(p, s, w) && AllFit(s, w, Expired(s, w, now)) && !p.AtOnce?
    ensures MidList(p, Timeout(p, s, w, now), w)
  {
    hide Timeout, Timers.HandleTimeout, Expired, TableOk, QueueOk, ListOk, AllWait;
    TimeoutEndsDue(p, s, w, now);
    BatchWaits(s, w, now);
    if p.AfterList? {
      CondemnedMine(s, Timeout(p, s, w, now), w, Expired(s, w, now));
    }
  }

  lemma CondemnedMine(s: Server, n: Server, w: nat, b: seq<nat>)
    requires CondemnedFit(s, w) && forall fd: nat | fd in s.condemned :: fd in s.objects && s.objects[fd].worker == w
    requires AllFit(s, w, b) && forall fd: nat | fd in b :: fd in s.objects && s.objects[fd].worker == w
    requires n.condemned == s.condemned + b && n.objects == s.objects && w < |n.queues|
    requires w < |s.queues| && |n.queues[w].timers| == |s.queues[w].timers|
    ensures CondemnedFit(n, w) && forall fd: nat | fd in n.condemned :: fd in n.objects && n.objects[fd].worker == w
  {
  }

  // ---------- poll lists ----------

  /** Every entry of a list meets its guard. */
  ghost predicate TouchesNothing(v: Variant, p: Erasure, s: Server, w: nat, es: seq<Entry>)
    requires s.Shape() && w < |s.queues| && EntriesFit(v, p, s, w, es)
    decreases |es|
  {
    es == [] || (!Touches(p, s, w, es[0]) && TouchesNothing(v, p, RunEntry(v, p, s, w, es[0]), w, es[1..]))
  }

  /** The connections that entries of the list are for are worker w's, as long as they live. */
  ghost predicate Mine(s: Server, w: nat, es: seq<Entry>) {
    forall i | 0 <= i < |es| && es[i].Sock? && s.Alive(es[i].fd, es[i].id) :: s.objects[es[i].fd].worker == w
  }

  lemma PolledAreMine(s: Server, w: nat, es: seq<Entry>)
    requires Core(s) && w < |s.queues| && Polled(s, w, es)
    ensures Mine(s, w, es)
  {
    forall i | 0 <= i < |es| && es[i].Sock? ensures s.objects[es[i].fd].worker == w {
      var fd := es[i].fd;
      assert fd in s.table.kernels[w] && fd < Pollers.MAX_FD;
      assert if Active(s, fd) then Only(s.table, fd, s.objects[fd].worker) else Nowhere(s.table, fd);
    }
  }

  /** Connections keep their worker: what is alive under an old identity was there before. */
  lemma EntryKeepsMine(v: Variant, p: Erasure, s: Server, w: nat, e: Entry, es: seq<Entry>)
    requires MidList(p, s, w) && EntryFits(s, w, e) && !Touches(p, s, w, e) && Mine(s, w, [e] + es)
    ensures Mine(RunEntry(v, p, s, w, e), w, es)
  {
    hide RunEntry, TableOk, QueueOk, ListOk, Touches;
    var n := RunEntry(v, p, s, w, e);
    assert ([e] + es)[0] == e;
    EntryKeepsObjects(v, p, s, w, e);
    forall i | 0 <= i < |es| && es[i].Sock? && n.Alive(es[i].fd, es[i].id) ensures n.objects[es[i].fd].worker == w {
      assert ([e] + es)[i + 1] == es[i];
      var fd := es[i].fd;
      assert fd in s.objects ==> s.Alive(fd, es[i].id);
    }
  }

  /** Only connections of worker w come and go. */
  ghost predicate OthersKept(s: Server, n: Server, w: nat) {
    && (forall x: nat | x in n.objects :: n.objects[x].worker == w || (x in s.objects && n.objects[x] == s.objects[x]))
    && (forall x: nat | x in s.objects :: s.objects[x].worker == w || (x in n.objects && n.objects[x] == s.objects[x]))
  }

  lemma EntryKeepsObjects(v: Variant, p: Erasure, s: Server, w: nat, e: Entry)
    requires MidList(p, s, w) && EntryFits(s, w, e) && !Touches(p, s, w, e)
    requires e.Sock? && s.Alive(e.fd, e.id) ==> s.objects[e.fd].worker == w
    ensures var n := RunEntry(v, p, s, w, e);
      && OthersKept(s, n, w)
      && forall x: nat | x in n.objects ::
           if x in s.objects then n.objects[x] == s.objects[x]
           else e.Client? && x == e.fd && n.objects[x] == Obj(s.nextId, w)
  {
    hide TableOk, QueueOk, ListOk, Timers.Cancel, DelThrough, Timers.Start, AddThrough, Timeout, Close;
    match e {
      case Sock(fd, id, result) =>
        if fd !in s.condemned && Connections.Closes(v, result) {
          CloseKeeps(p, s, w, fd);
          var n := Close(p, s, w, fd);
          assert forall x: nat | x in s.objects && s.objects[x].worker != w :: Active(s, x) && Active(n, x);
        }
      case Clock(now) => ClockKeepsObjects(p, s, w, now);
      case Client(fd, now) =>
    }
  }

  lemma ClockKeepsObjects(p: Erasure, s: Server, w: nat, now: int)
    requires MidList(p, s, w) && AllFit(s, w, Expired(s, w, now)) && !(p.AtOnce? && Expired(s, w, now) != [])
    ensures var n := Timeout(p, s, w, now);
      OthersKept(s, n, w) && forall x: nat | x in n.objects :: x in s.objects && n.objects[x] == s.objects[x]
  {
    hide TableOk, QueueOk, ListOk, Timeout, Timers.HandleTimeout, Expired, Due;
    var q := if p.AtOnce? then AfterBatch else p;
    if p.AtOnce? {
      EmptyBatchSame(p, q, s, w, now);
    }
    TimeoutEndsDue(q, s, w, now);
    var n := Timeout(p, s, w, now);
    forall x: nat | x in s.objects && s.objects[x].worker != w ensures x in n.objects {
      assert Active(s, x) && Active(n, x);
    }
  }

  lemma {:induction false} FaultedEntries(v: Variant, p: Erasure, s: Server, w: nat, es: seq<Entry>)
    requires s.Shape() && w < |s.queues| && EntriesFit(v, p, s, w, es) && s.fault
    ensures RunEntries(v, p, s, w, es) == s
    decreases |es|
  {
    if es != [] {
      FaultedEntries(v, p, s, w, es[1..]);
    }
  }

  lemma {:induction false} EntriesKeep(v: Variant, p: Erasure, s: Server, w: nat, es: seq<Entry>)
    requires MidList(p, s, w) && EntriesFit(v, p, s, w, es) && Mine(s, w, es)
    ensures var n := RunEntries(v, p, s, w, es);
      && (n.fault <==> !TouchesNothing(v, p, s, w, es))
      && (!n.fault ==> MidList(p, n, w) && OthersKept(s, n, w))
    decreases |es|
  {
    hide RunEntry, Touches, TableOk, QueueOk, ListOk, OthersKept, EntryFits;
    if es == [] {
      KeptOnce(s, w);
    } else {
      var e, n := es[0], RunEntry(v, p, s, w, es[0]);
      assert es == [e] + es[1..];
      assert e.Sock? && s.Alive(e.fd, e.id) ==> s.objects[e.fd].worker == w;
      EntryFaultsExactlyWhen(v, p, s, w, e);
      if n.fault {
        FaultedEntries(v, p, n, w, es[1..]);
      } else {
        EntryKeepsMine(v, p, s, w, e, es[1..]);
        EntryObjects(v, p, s, w, e, es[1..]);
        hide MidList, Mine;
        EntriesKeep(v, p, n, w, es[1..]);
        if !RunEntries(v, p, n, w, es[1..]).fault {
          KeptTwice(s, n, RunEntries(v, p, n, w, es[1..]), w);
        }
      }
    }
  }

  lemma EntryObjects(v: Variant, p: Erasure, s: Server, w: nat, e: Entry, es: seq<Entry>)
    requires MidList(p, s, w) && EntryFits(s, w, e) && !Touches(p, s, w, e) && Mine(s, w, [e] + es)
    ensures OthersKept(s, RunEntry(v, p, s, w, e), w)
  {
    assert ([e] + es)[0] == e;
    EntryKeepsObjects(v, p, s, w, e);
  }

  lemma KeptOnce(s: Server, w: nat)
    ensures OthersKept(s, s, w)
  {
  }

  lemma KeptTwice(s: Server, m: Server, n: Server, w: nat)
    requires OthersKept(s, m, w) && OthersKept(m, n, w)
    ensures OthersKept(s, n, w)
  {
  }

  lemma LocalTwice(s: Server, m: Server, n: Server, w: nat)
    requires Local(s, m, w) && Local(m, n, w)
    ensures Local(s, n, w)
  {
  }

  lemma BuriedKept(p: Erasure, s: Server, w: nat)
    requires MidList(p, s, w)
    ensures OthersKept(s, BuryAll(s, w), w)
  {
    hide TableOk, QueueOk, ListOk, Local, BuryAll;
    BuryAllKeeps(s, w);
  }

  /** A turn touches a destroyed connection exactly when one of its entries does, by the guard; otherwise the invariant
      holds again behind it, and the other workers' connections, registrations and queues are as they were. */
  lemma TurnFaultsExactlyWhen(v: Variant, p: Erasure, s: Server, w: nat, es: seq<Entry>)
    requires Inv(s) && w < |s.queues| && EntriesFit(v, p, s, w, es) && Polled(s, w, es)
    ensures var n := PollList(v, p, s, w, es);
      && Local(s, n, w)
      && if TouchesNothing(v, p, s, w, es) then Inv(n) && OthersKept(s, n, w) else n.fault
  {
    hide RunEntries, TouchesNothing, TableOk, QueueOk, ListOk, OthersKept, Local, Mine, BuryAll;
    PolledAreMine(s, w, es);
    assert MidList(p, s, w);
    EntriesKeep(v, p, s, w, es);
    var r := RunEntries(v, p, s, w, es);
    LocalTwice(s, r, BuryAll(r, w), w);
    if !r.fault {
      BuryAllKeeps(r, w);
      BuriedKept(p, r, w);
      KeptTwice(s, r, BuryAll(r, w), w);
    }
  }

  // ---------- with erasure behind the list ----------

  /** All connections that entries of the list are for are still there. */
  ghost predicate AllAlive(s: Server, es: seq<Entry>) {
    forall i | 0 <= i < |es| && es[i].Sock? :: s.Alive(es[i].fd, es[i].id)
  }

  lemma {:induction false} RepairedTouchesNothing(v: Variant, s: Server, w: nat, es: seq<Entry>)
    requires MidList(AfterList, s, w) && EntriesFit(v, AfterList, s, w, es) && Mine(s, w, es) && AllAlive(s, es)
    ensures TouchesNothing(v, AfterList, s, w, es)
    decreases |es|
  {
    if es != [] {
      var e, n, tail := es[0], RunEntry(v, AfterList, s, w, es[0]), es[1..];
      assert es == [e] + tail;
      EntryFaultsExactlyWhen(v, AfterList, s, w, e);
      EntryKeepsMine(v, AfterList, s, w, e, tail);
      RepairedKeepsObjects(v, s, w, e);
      hide RunEntry, MidList;
      forall i | 0 <= i < |tail| && tail[i].Sock? ensures n.Alive(tail[i].fd, tail[i].id) {
        assert es[i + 1] == tail[i] && s.Alive(es[i + 1].fd, es[i + 1].id);
      }
      RepairedTouchesNothing(v, n, w, tail);
    }
  }

  lemma RepairedKeepsObjects(v: Variant, s: Server, w: nat, e: Entry)
    requires MidList(AfterList, s, w) && EntryFits(s, w, e) && !Touches(AfterList, s, w, e)
    ensures forall x: nat | x in s.objects ::
              x in RunEntry(v, AfterList, s, w, e).objects && RunEntry(v, AfterList, s, w, e).objects[x] == s.objects[x]
  {
    CoreFault(s);
    match e {
      case Sock(fd, id, result) =>
        hide Timers.Cancel, DelThrough, TableOk, QueueOk, ListOk;
      case Clock(now) =>
        TimeoutEndsDue(AfterList, s, w, now);
        hide Timeout, TableOk, QueueOk, ListOk;
      case Client(fd, now) =>
        hide Timers.Start, AddThrough, TableOk, QueueOk, ListOk;
    }
  }

  /** Repaired, no turn touches a destroyed connection, whatever its entries are and in whatever order they come. */
  lemma RepairedTurnKeepsInv(v: Variant, s: Server, w: nat, es: seq<Entry>)
    requires Inv(s) && w < |s.queues| && EntriesFit(v, AfterList, s, w, es) && Polled(s, w, es)
    ensures Inv(PollList(v, AfterList, s, w, es))
  {
    PolledAreMine(s, w, es);
    RepairedTouchesNothing(v, s, w, es);
    TurnFaultsExactlyWhen(v, AfterList, s, w, es);
  }

  // ---------- with erasure behind the batch ----------

  /** End of file ends a connection, and, repaired, an error other than EAGAIN. */
  predicate EndsRead(v: Variant, result: Sockets.ReadResult) {
    result.Eof? || (v.Repaired? && result == Sockets.ReadFailed(Sockets.OTHER_ERROR))
  }

  /** The entry ends the connection of `fd` that is there before the poll. */
  predicate Ends(v: Variant, s: Server, w: nat, e: Entry, fd: nat)
    requires s.Shape() && w < |s.queues|
  {
    match e
    case Sock(x, _, result) => x == fd && EndsRead(v, result)
    case Clock(now) => Due(s.queues[w], fd, now)
    case Client(_, _) => false
  }

  predicate Ended(v: Variant, s: Server, w: nat, es: seq<Entry>, fd: nat)
    requires s.Shape() && w < |s.queues|
  {
    exists i :: 0 <= i < |es| && Ends(v, s, w, es[i], fd)
  }

  lemma EndedSnoc(v: Variant, s: Server, w: nat, es: seq<Entry>, e: Entry, fd: nat)
    requires s.Shape() && w < |s.queues|
    ensures Ended(v, s, w, es + [e], fd) <==> Ended(v, s, w, es, fd) || Ends(v, s, w, e, fd)
  {
    hide Ends;
    var all := es + [e];
    assert all[|es|] == e && forall i | 0 <= i < |es| :: all[i] == es[i];
    if Ended(v, s, w, es, fd) {
      var i :| 0 <= i < |es| && Ends(v, s, w, es[i], fd);
      assert Ends(v, s, w, all[i], fd);
    }
  }

  /** Where the connections of worker w that were there before the poll are, `done` entries on. */
  ghost predicate Track(v: Variant, s0: Server, s: Server, w: nat, done: seq<Entry>)
    requires s0.Shape() && w < |s0.queues|
  {
    && MidList(AfterBatch, s, w) && |s.queues[w].timers| == |s0.queues[w].timers| && s0.nextId <= s.nextId
    && forall fd: nat | ActiveAt(s0, fd, w) :: TrackOne(v, s0, s, w, done, fd)
  }

  ghost predicate TrackOne(v: Variant, s0: Server, s: Server, w: nat, done: seq<Entry>, fd: nat)
    requires s0.Shape() && w < |s0.queues| && s.Shape() && w < |s.queues| && ActiveAt(s0, fd, w)
  {
    if Ended(v, s0, w, done, fd) then !s.Alive(fd, s0.objects[fd].id)
    else
      && s.Alive(fd, s0.objects[fd].id) && s.objects[fd].worker == w
      && fd < |s.queues[w].timers| && fd < |s0.queues[w].timers|
      && Timers.Expiration(s.queues[w], fd) == Timers.Expiration(s0.queues[w], fd)
  }

  lemma TrackStart(v: Variant, s: Server, w: nat)
    requires Inv(s) && w < |s.queues|
    ensures Track(v, s, s, w, [])
  {
    forall fd: nat | ActiveAt(s, fd, w) ensures TrackOne(v, s, s, w, [], fd) {
      ActiveFits(s, fd, w);
    }
  }

  lemma CancelKeepsOthers(t: Timers.State, id: nat, x: nat)
    requires t.Shape() && id < |t.timers| && x < |t.timers| && x != id
    ensures Timers.Expiration(Timers.Cancel(Repaired, t, id), x) == Timers.Expiration(t, x)
  {
  }

  lemma StartKeepsOthers(t: Timers.State, id: nat, now: int, x: nat)
    requires t.Shape() && id < |t.timers| && x < |t.timers| && x != id
    ensures Timers.Expiration(Timers.Start(Repaired, t, id, now), x) == Timers.Expiration(t, x)
  {
  }

  /** A read of the list ends its own connection or nothing. */
  lemma TrackRead(v: Variant, s0: Server, s: Server, w: nat, done: seq<Entry>, e: Entry)
    requires s0.Shape() && w < |s0.queues| && Track(v, s0, s, w, done) && e.Sock? && s.Fits(w, e.fd)
    requires ActiveAt(s0, e.fd, w) && e.id == s0.objects[e.fd].id && s.Alive(e.fd, e.id)
    ensures Track(v, s0, Read(v, AfterBatch, s, w, e.fd, e.id, e.result), w, done + [e])
  {
    hide TableOk, QueueOk, ListOk, Ended, Timers.Cancel, Close;
    var n := Read(v, AfterBatch, s, w, e.fd, e.id, e.result);
    assert TrackOne(v, s0, s, w, done, e.fd);
    ReadKeeps(v, AfterBatch, s, w, e.fd, e.id, e.result);
    if Connections.Closes(v, e.result) {
      CloseKeeps(AfterBatch, s, w, e.fd);
      assert n == Close(AfterBatch, s, w, e.fd);
      assert forall x: nat | x in s.objects && x != e.fd :: Active(n, x) && n.objects[x] == s.objects[x];
      assert !Active(n, e.fd);
    } else {
      assert n == s;
    }
    forall fd: nat | ActiveAt(s0, fd, w) ensures TrackOne(v, s0, n, w, done + [e], fd) {
      assert TrackOne(v, s0, s, w, done, fd);
      EndedSnoc(v, s0, w, done, e, fd);
      if fd != e.fd && fd < |s.queues[w].timers| {
        CancelKeepsOthers(s.queues[w], e.fd, fd);
      }
    }
  }

  /** A timeout ends what is due, which is what was due before the poll. */
  lemma TrackClock(v: Variant, s0: Server, s: Server, w: nat, done: seq<Entry>, e: Entry)
    requires s0.Shape() && w < |s0.queues| && Track(v, s0, s, w, done) && e.Clock? && EntryFits(s, w, e)
    ensures Track(v, s0, Timeout(AfterBatch, s, w, e.now), w, done + [e])
  {
    hide Timeout, TableOk, QueueOk, ListOk, Ended, Timers.HandleTimeout, Expired, EntryFits;
    ClockFits(s, w, e);
    var n := Timeout(AfterBatch, s, w, e.now);
    NotingClockKeeps(AfterBatch, s, w, e.now);
    TimeoutEndsDue(AfterBatch, s, w, e.now);
    ClockKeepsExpirations(s, w, e.now);
    hide Due, MidList;
    forall fd: nat | ActiveAt(s0, fd, w) ensures TrackOne(v, s0, n, w, done + [e], fd) {
      assert TrackOne(v, s0, s, w, done, fd);
      EndedSnoc(v, s0, w, done, e, fd);
      if !Ended(v, s0, w, done, fd) {
        assert ActiveAt(s, fd, w);
        SameDue(s0.queues[w], s.queues[w], fd, e.now);
        assert Active(n, fd) <==> !Due(s.queues[w], fd, e.now);
      }
    }
  }

  lemma ClockFits(s: Server, w: nat, e: Entry)
    requires s.Shape() && w < |s.queues| && e.Clock? && EntryFits(s, w, e)
    ensures AllFit(s, w, Expired(s, w, e.now))
  {
  }

  lemma SameDue(t: Timers.State, u: Timers.State, fd: nat, now: int)
    requires fd < |t.timers| && fd < |u.timers| && Timers.Expiration(t, fd) == Timers.Expiration(u, fd)
    ensures Due(t, fd, now) <==> Due(u, fd, now)
  {
  }

  /** A timeout leaves the expirations of what is not due. */
  lemma ClockKeepsExpirations(s: Server, w: nat, now: int)
    requires Core(s) && w < |s.queues|
    ensures var t := Timers.HandleTimeout(Repaired, s.queues[w], now, CLOSE_SCRIPT);
      && |t.timers| == |s.queues[w].timers|
      && forall x: nat | ActiveAt(s, x, w) && !Due(s.queues[w], x, now) ::
           x < |t.timers| && Timers.Expiration(t, x) == Timers.Expiration(s.queues[w], x)
  {
    assert QueueOk(s, w);
    hide TableOk, ListOk, Timers.HandleTimeout;
    TimeoutUnqueues(s.queues[w], now);
    DueIsBatch(s.queues[w], now);
  }

  /** A client gets an identity that no earlier connection had. */
  lemma TrackClient(v: Variant, s0: Server, s: Server, w: nat, done: seq<Entry>, e: Entry)
    requires Inv(s0) && w < |s0.queues| && Track(v, s0, s, w, done) && e.Client? && EntryFits(s, w, e) && !s.fault
    ensures Track(v, s0, NewConnection(s, w, e.fd, e.now), w, done + [e])
  {
    hide TableOk, QueueOk, ListOk, Ended, Timers.Start, AddThrough, EntryFits;
    ClientFits(s, w, e);
    var n := NewConnection(s, w, e.fd, e.now);
    NewConnectionKeeps(s, w, e.fd, e.now);
    forall fd: nat | ActiveAt(s0, fd, w) ensures TrackOne(v, s0, n, w, done + [e], fd) {
      assert TrackOne(v, s0, s, w, done, fd);
      EndedSnoc(v, s0, w, done, e, fd);
      OldIdentity(s0, fd);
      if fd != e.fd && fd < |s.queues[w].timers| {
        StartKeepsOthers(s.queues[w], e.fd, e.now, fd);
      }
    }
  }

  lemma ClientFits(s: Server, w: nat, e: Entry)
    requires s.Shape() && w < |s.queues| && e.Client? && EntryFits(s, w, e) && !s.fault
    ensures s.Fits(w, e.fd) && e.fd !in s.objects
  {
  }

  lemma OldIdentity(s: Server, fd: nat)
    requires Inv(s) && fd in s.objects
    ensures s.objects[fd].id < s.nextId
  {
    assert Node(s.objects[fd].id, fd) in s.list;
  }

  lemma TrackStep(v: Variant, s0: Server, s: Server, w: nat, done: seq<Entry>, e: Entry)
    requires Inv(s0) && w < |s0.queues| && Track(v, s0, s, w, done) && EntryFits(s, w, e)
    requires e.Sock? ==> ActiveAt(s0, e.fd, w) && e.id == s0.objects[e.fd].id && s.Alive(e.fd, e.id)
    ensures Track(v, s0, RunEntry(v, AfterBatch, s, w, e), w, done + [e])
  {
    CoreFault(s);
    hide Track, Timeout, NewConnection, Read;
    match e {
      case Sock(_, _, _) => TrackRead(v, s0, s, w, done, e);
      case Clock(_) => TrackClock(v, s0, s, w, done, e);
      case Client(_, _) => TrackClient(v, s0, s, w, done, e);
    }
  }

  /** Some entry is for a connection that an earlier one ends. */
  ghost predicate LateEntry(v: Variant, s0: Server, w: nat, done: seq<Entry>, es: seq<Entry>)
    requires s0.Shape() && w < |s0.queues|
  {
    exists j :: 0 <= j < |es| && es[j].Sock? && Ended(v, s0, w, done + es[..j], es[j].fd)
  }

  ghost predicate FromBefore(s0: Server, w: nat, es: seq<Entry>) {
    forall i | 0 <= i < |es| && es[i].Sock? :: ActiveAt(s0, es[i].fd, w) && es[i].id == s0.objects[es[i].fd].id
  }

  lemma LateEntryCons(v: Variant, s0: Server, w: nat, done: seq<Entry>, e: Entry, es: seq<Entry>)
    requires s0.Shape() && w < |s0.queues|
    ensures LateEntry(v, s0, w, done, [e] + es)
       <==> (e.Sock? && Ended(v, s0, w, done, e.fd)) || LateEntry(v, s0, w, done + [e], es)
  {
    hide Ended;
    var all := [e] + es;
    assert all[..0] == [] && done + [] == done;
    forall j | 0 <= j < |es| ensures all[j + 1] == es[j] && done + all[..j + 1] == (done + [e]) + es[..j] {
      assert all[..j + 1] == [e] + es[..j];
    }
    if LateEntry(v, s0, w, done, all) {
      var j :| 0 <= j < |all| && all[j].Sock? && Ended(v, s0, w, done + all[..j], all[j].fd);
      if j > 0 {
        assert all[(j - 1) + 1] == es[j - 1];
      }
    }
    if LateEntry(v, s0, w, done + [e], es) {
      var j :| 0 <= j < |es| && es[j].Sock? && Ended(v, s0, w, (done + [e]) + es[..j], es[j].fd);
      assert all[j + 1].Sock? && Ended(v, s0, w, done + all[..j + 1], all[j + 1].fd);
    }
    if e.Sock? && Ended(v, s0, w, done, e.fd) {
      assert all[0].Sock? && Ended(v, s0, w, done + all[..0], all[0].fd);
    }
  }

  lemma NothingLate(v: Variant, s0: Server, w: nat, done: seq<Entry>)
    requires s0.Shape() && w < |s0.queues|
    ensures !LateEntry(v, s0, w, done, [])
  {
  }

  lemma {:induction false} TouchesExactlyWhenLate(v: Variant, s0: Server, s: Server, w: nat, done: seq<Entry>,
      es: seq<Entry>)
    requires Inv(s0) && w < |s0.queues| && Track(v, s0, s, w, done) && EntriesFit(v, AfterBatch, s, w, es)
    requires FromBefore(s0, w, es)
    ensures !TouchesNothing(v, AfterBatch, s, w, es) <==> LateEntry(v, s0, w, done, es)
    decreases |es|
  {
    hide RunEntry, LateEntry, Ended, TableOk, QueueOk, ListOk;
    if es != [] {
      var e, tail := es[0], es[1..];
      assert es == [e] + tail && forall i | 0 <= i < |tail| :: tail[i] == es[i + 1];
      LateEntryCons(v, s0, w, done, e, tail);
      if e.Sock? {
        assert TrackOne(v, s0, s, w, done, e.fd);
      }
      if !Touches(AfterBatch, s, w, e) {
        TrackStep(v, s0, s, w, done, e);
        hide Track, Touches;
        TouchesExactlyWhenLate(v, s0, RunEntry(v, AfterBatch, s, w, e), w, done + [e], tail);
      }
    } else {
      NothingLate(v, s0, w, done);
    }
  }

  lemma PairMeansLate(v: Variant, s: Server, w: nat, es: seq<Entry>, i: nat, j: nat)
    requires s.Shape() && w < |s.queues|
    requires i < j < |es| && es[j].Sock? && Ends(v, s, w, es[i], es[j].fd)
    ensures LateEntry(v, s, w, [], es)
  {
    hide Ends;
    assert [] + es[..j] == es[..j] && es[..j][i] == es[i];
    assert Ended(v, s, w, [] + es[..j], es[j].fd);
  }

  lemma LateMeansPair(v: Variant, s: Server, w: nat, es: seq<Entry>) returns (i: nat, j: nat)
    requires s.Shape() && w < |s.queues| && LateEntry(v, s, w, [], es)
    ensures i < j < |es| && es[j].Sock? && Ends(v, s, w, es[i], es[j].fd)
  {
    hide Ends;
    j :| 0 <= j < |es| && es[j].Sock? && Ended(v, s, w, [] + es[..j], es[j].fd);
    assert [] + es[..j] == es[..j];
    i :| 0 <= i < |es[..j]| && Ends(v, s, w, es[..j][i], es[j].fd);
    assert es[..j][i] == es[i];
  }

  /** With the erasure behind the batch alone, a turn touches a destroyed connection exactly when some entry is for a
      connection that an earlier entry ends: a closing read of it, or a timeout for which it was due before the poll. */
  lemma LateEntryFaultsExactlyWhen(v: Variant, s: Server, w: nat, es: seq<Entry>)
    requires Inv(s) && w < |s.queues| && EntriesFit(v, AfterBatch, s, w, es) && Polled(s, w, es)
    ensures PollList(v, AfterBatch, s, w, es).fault
       <==> exists i, j :: 0 <= i < j < |es| && es[j].Sock? && Ends(v, s, w, es[i], es[j].fd)
  {
    hide PollList, Ends, MidList, TableOk, QueueOk, ListOk, TouchesNothing, Track, LateEntry;
    TurnFaultsExactlyWhen(v, AfterBatch, s, w, es);
    PolledAreMine(s, w, es);
    TrackStart(v, s, w);
    assert FromBefore(s, w, es);
    TouchesExactlyWhenLate(v, s, s, w, [], es);
    if LateEntry(v, s, w, [], es) {
      var i, j := LateMeansPair(v, s, w, es);
    }
    if i, j :| 0 <= i < j < |es| && es[j].Sock? && Ends(v, s, w, es[i], es[j].fd) {
      PairMeansLate(v, s, w, es, i, j);
    }
  }

  lemma ActiveIsRegistered(s: Server, fd: nat, w: nat)
    requires Core(s) && ActiveAt(s, fd, w)
    ensures w < |s.queues| && fd in s.table.kernels[w]
  {
    assert Active(s, fd) && fd < Pollers.MAX_FD && Only(s.table, fd, w);
  }

  lemma FirstTouches(v: Variant, p: Erasure, s: Server, w: nat, es: seq<Entry>)
    requires s.Shape() && w < |s.queues| && EntriesFit(v, p, s, w, es) && es != [] && Touches(p, s, w, es[0])
    ensures !TouchesNothing(v, p, s, w, es)
  {
  }

  lemma TwoFit(v: Variant, p: Erasure, s: Server, w: nat, es: seq<Entry>)
    requires Core(s) && w < |s.queues| && |es| == 2 && es[0].Clock? && es[1].Sock? && s.Fits(w, es[1].fd)
    ensures EntriesFit(v, p, s, w, es)
  {
    hide TableOk, QueueOk, ListOk, Expired, Timeout, AllWait;
    BatchWaits(s, w, es[0].now);
    var n := RunEntry(v, p, s, w, es[0]);
    assert es[1..][1..] == [] && es[1..][0] == es[1];
    assert EntryFits(n, w, es[1]);
    assert EntriesFit(v, p, RunEntry(v, p, n, w, es[1]), w, []);
    assert EntriesFit(v, p, n, w, es[1..]);
  }

  /** The input: one client whose timer is due, with the timer descriptor in front of it in the poll list.  Erased at
      once, the connection is touched by reset; erased behind the batch, by its own entry; erased behind the list,
      not at all. */
  lemma TimedOutConnectionIsTouched(v: Variant, p: Erasure, s: Server, w: nat, fd: nat, now: int,
      result: Sockets.ReadResult)
    requires Inv(s) && ActiveAt(s, fd, w) && w < |s.queues| && Due(s.queues[w], fd, now)
    ensures EntriesFit(v, p, s, w, [Clock(now), Sock(fd, s.objects[fd].id, result)])
    ensures Polled(s, w, [Clock(now), Sock(fd, s.objects[fd].id, result)])
    ensures PollList(v, p, s, w, [Clock(now), Sock(fd, s.objects[fd].id, result)]).fault <==> !p.AfterList?
  {
    hide PollList, TableOk, QueueOk, ListOk, Expired, Due, TouchesNothing, EntriesFit;
    var es := [Clock(now), Sock(fd, s.objects[fd].id, result)];
    ActiveFits(s, fd, w);
    ActiveIsRegistered(s, fd, w);
    TwoFit(v, p, s, w, es);
    match p {
      case AtOnce =>
        BatchIsDue(s, w, now);
        TurnFaultsExactlyWhen(v, p, s, w, es);
        FirstTouches(v, p, s, w, es);
      case AfterBatch =>
        LateEntryFaultsExactlyWhen(v, s, w, es);
        assert Ends(v, s, w, es[0], es[1].fd);
      case AfterList =>
        RepairedTurnKeepsInv(v, s, w, es);
    }
  }

  /** It is soon reached: one client of the first server, an interval after it was accepted. */
  lemma TimedOutClient(v: Variant, p: Erasure, kinds: seq<seq<Timers.Kind>>, w: nat, fd: nat, now: int)
    requires forall q: nat, x: nat | q < |kinds| && x < |kinds[q]| :: kinds[q][x].Repeats() && kinds[q][x].handler
    requires w < |kinds| && fd < |kinds[w]| && fd < Pollers.MAX_FD
    ensures var s := NewConnection(Idle(kinds), w, fd, now);
      var es := [Clock(now + kinds[w][fd].interval), Sock(fd, 0, Sockets.Eof)];
      Inv(s) && EntriesFit(v, p, s, w, es) && Polled(s, w, es) && (PollList(v, p, s, w, es).fault <==> !p.AfterList?)
  {
    hide PollList, NewConnection, Idle, Core, Due, EntriesFit, Polled;
    FirstClient(kinds, w, fd, now);
    var s, later := NewConnection(Idle(kinds), w, fd, now), now + kinds[w][fd].interval;
    TimedOutConnectionIsTouched(v, p, s, w, fd, later, Sockets.Eof);
  }

  lemma FirstClient(kinds: seq<seq<Timers.Kind>>, w: nat, fd: nat, now: int)
    requires forall q: nat, x: nat | q < |kinds| && x < |kinds[q]| :: kinds[q][x].Repeats() && kinds[q][x].handler
    requires w < |kinds| && fd < |kinds[w]| && fd < Pollers.MAX_FD
    ensures var s := NewConnection(Idle(kinds), w, fd, now);
      Inv(s) && ActiveAt(s, fd, w) && s.objects[fd].id == 0 && Due(s.queues[w], fd, now + kinds[w][fd].interval)
  {
    hide TableOk, ListOk, TimerLaws.Quiet, TimerLaws.Earliest, Timers.Start, AddThrough, Due;
    var i := Idle(kinds);
    IdleInv(kinds);
    NewConnectionKeeps(i, w, fd, now);
    assert QueueOk(i, w);
    FirstIsDue(i.queues[w], fd, now);
  }

  lemma FirstIsDue(t: Timers.State, fd: nat, now: int)
    requires TimerLaws.Quiet(t) && TimerLaws.Earliest(t) && fd < |t.timers| && fd !in t.queue && t.kinds[fd].Repeats()
    ensures Due(Timers.Start(Repaired, t, fd, now), fd, now + t.kinds[fd].interval)
  {
    TimerLaws.QuietMeans(t, fd, now);
    hide TimerLaws.Quiet, TimerLaws.Earliest;
  }

  // ---------- runs ----------

  /** Every turn of the run meets the guards of its entries. */
  ghost predicate TouchesNothingEver(v: Variant, p: Erasure, s: Server, steps: seq<Step>)
    requires s.Shape() && LegalRun(v, p, s, steps)
    decreases |steps|
  {
    steps == [] ||
    var w, es := steps[0].w, steps[0].es;
    !s.fault && TouchesNothing(v, p, s, w, es) && TouchesNothingEver(v, p, PollList(v, p, s, w, es), steps[1..])
  }

  lemma {:induction false} FaultedRun(v: Variant, p: Erasure, s: Server, steps: seq<Step>)
    requires s.Shape() && LegalRun(v, p, s, steps) && s.fault
    ensures Run(v, p, s, steps).fault
    decreases |steps|
  {
    if steps != [] {
      FaultedEntries(v, p, s, steps[0].w, steps[0].es);
      FaultedRun(v, p, s, steps[1..]);
    }
  }

  /** Over every run of any number of workers, whose turns accept, read, close and time out in any order: the invariant
      holds after it, and no destroyed connection was touched, with the repaired erasure always, and with the others
      exactly as long as every entry meets its guard. */
  lemma {:induction false} RunsKeepInvExactlyWhen(v: Variant, p: Erasure, s: Server, steps: seq<Step>)
    requires Inv(s) && LegalRun(v, p, s, steps)
    ensures Inv(Run(v, p, s, steps)) <==> p.AfterList? || TouchesNothingEver(v, p, s, steps)
    decreases |steps|
  {
    if steps != [] {
      var w, es := steps[0].w, steps[0].es;
      var n := PollList(v, p, s, w, es);
      CoreFault(s);
      TurnFaultsExactlyWhen(v, p, s, w, es);
      if p.AfterList? {
        RepairedTurnKeepsInv(v, s, w, es);
      }
      hide PollList, TouchesNothing, TableOk, QueueOk, ListOk;
      if n.fault {
        FaultedRun(v, p, n, steps[1..]);
        assert !Inv(Run(v, p, n, steps[1..])) by { FaultedNotInv(Run(v, p, n, steps[1..])); }
      } else {
        RunsKeepInvExactlyWhen(v, p, n, steps[1..]);
      }
    }
  }

  lemma FaultedNotInv(s: Server)
    requires s.fault
    ensures !Inv(s)
  {
  }
}
