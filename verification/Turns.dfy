/** What the turns of all workers come to, told without lists, tables, queues or erasure: a set of connections, each
    with its worker and the time at which it is due, that reads and timeouts end and clients join. */
module Turns {
  import opened Variants
  import Timers
  import TimerLaws
  import Sockets
  import Connections
  import opened SharedTable
  import opened Lifecycle
  import opened PollLists

  datatype Conn = Conn(obj: Obj, due: int)

  /** `next` is the identity of the next client. */
  datatype Ideal = Ideal(conns: map<nat, Conn>, next: nat)

  /** One active event of worker w, whose timers are of these kinds. */
  function IdealEntry(v: Variant, kinds: seq<Timers.Kind>, w: nat, i: Ideal, e: Entry): Ideal
    requires e.Client? ==> e.fd < |kinds|
  {
    match e
    case Sock(fd, id, result) =>
      if EndsRead(v, result) then i.(conns := map x | x in i.conns && x != fd :: i.conns[x]) else i
    case Clock(now) =>
      i.(conns := map x | x in i.conns && !(i.conns[x].obj.worker == w && i.conns[x].due <= now) :: i.conns[x])
    case Client(fd, now) =>
      Ideal(i.conns[fd := Conn(Obj(i.next, w), now + kinds[fd].interval)], i.next + 1)
  }

  predicate ClientsInRange(kinds: seq<Timers.Kind>, es: seq<Entry>) {
    forall k | 0 <= k < |es| && es[k].Client? :: es[k].fd < |kinds|
  }

  function IdealTurn(v: Variant, kinds: seq<Timers.Kind>, w: nat, i: Ideal, es: seq<Entry>): Ideal
    requires ClientsInRange(kinds, es)
    decreases |es|
  {
    if es == [] then i else IdealTurn(v, kinds, w, IdealEntry(v, kinds, w, i, es[0]), es[1..])
  }

  /** The connections of the server that have not ended, with what their timers are set to. */
  ghost predicate Shows(s: Server, i: Ideal) {
    && i.next == s.nextId
    && (forall x: nat :: x in i.conns <==> Active(s, x))
    && forall x: nat | x in i.conns :: ShowsOne(s, i.conns[x], x)
  }

  ghost predicate ShowsOne(s: Server, c: Conn, x: nat) {
    && x in s.objects && c.obj == s.objects[x]
    && c.obj.worker < |s.queues| && x < |s.queues[c.obj.worker].timers|
    && c.due == Timers.Expiration(s.queues[c.obj.worker], x)
  }

  // ---------- one event ----------

  lemma CancelKeepsExpirations(t: Timers.State, id: nat)
    requires t.Shape() && id < |t.timers|
    ensures forall x: nat | x < |t.timers| ::
              Timers.Expiration(Timers.Cancel(Repaired, t, id), x) == Timers.Expiration(t, x)
  {
  }

  /** Some connections end, all of one worker; those that are left keep what they have. */
  lemma FewerShown(s: Server, n: Server, w: nat, i: Ideal, j: Ideal)
    requires Shows(s, i) && j.next == i.next && n.nextId == s.nextId && w < |s.queues|
    requires forall x: nat | x in j.conns :: x in i.conns && j.conns[x] == i.conns[x]
    requires forall x: nat :: x in j.conns <==> Active(n, x)
    requires forall x: nat | x in n.objects :: x in s.objects && n.objects[x] == s.objects[x]
    requires |n.queues| == |s.queues| && |n.queues[w].timers| == |s.queues[w].timers|
    requires forall q | 0 <= q < |s.queues| && q != w :: n.queues[q] == s.queues[q]
    requires forall x: nat | ActiveAt(n, x, w) && x < |s.queues[w].timers| ::
               Timers.Expiration(n.queues[w], x) == Timers.Expiration(s.queues[w], x)
    ensures Shows(n, j)
  {
    forall x: nat | x in j.conns ensures ShowsOne(n, j.conns[x], x) {
      assert ShowsOne(s, i.conns[x], x);
    }
  }

  /** A read of a connection that has not ended ends it, or nothing; a read of one that has, nothing. */
  lemma ReadShows(v: Variant, p: Erasure, s: Server, w: nat, fd: nat, id: nat, result: Sockets.ReadResult, i: Ideal)
    requires MidList(p, s, w) && s.Fits(w, fd) && s.Alive(fd, id) && s.objects[fd].worker == w && Shows(s, i)
    ensures var n := Read(v, p, s, w, fd, id, result);
      Shows(n, IdealEntry(v, s.queues[w].kinds, w, i, Sock(fd, id, result))) && n.queues[w].kinds == s.queues[w].kinds
  {
    hide TableOk, QueueOk, ListOk, Close, CondemnedFit, Timers.Cancel, ShowsOne, Local;
    if fd !in s.condemned && Connections.Closes(v, result) {
      CloseKeeps(p, s, w, fd);
      CancelKeepsExpirations(s.queues[w], fd);
      FewerShown(s, Close(p, s, w, fd), w, i, IdealEntry(v, s.queues[w].kinds, w, i, Sock(fd, id, result)));
    } else {
      assert EndsRead(v, result) ==> fd !in i.conns;
      assert EndsRead(v, result) ==> (map x | x in i.conns && x != fd :: i.conns[x]) == i.conns;
    }
  }

  /** A timeout ends the worker's connections that are due, and no other. */
  lemma ClockShows(v: Variant, p: Erasure, s: Server, w: nat, now: int, i: Ideal)
    requires MidList(p, s, w) && AllFit(s, w, Expired(s, w, now)) && !(p.AtOnce? && Expired(s, w, now) != [])
    requires Shows(s, i)
    ensures var n := Timeout(p, s, w, now);
      Shows(n, IdealEntry(v, s.queues[w].kinds, w, i, Clock(now))) && n.queues[w].kinds == s.queues[w].kinds
  {
    hide Timeout, TableOk, QueueOk, ListOk, CondemnedFit, Timers.HandleTimeout, Expired, Local;
    var q := if p.AtOnce? then AfterBatch else p;
    if p.AtOnce? {
      EmptyBatchSame(p, q, s, w, now);
    }
    TimeoutEndsDue(q, s, w, now);
    var n, j := Timeout(p, s, w, now), IdealEntry(v, s.queues[w].kinds, w, i, Clock(now));
    forall x: nat ensures x in j.conns <==> Active(n, x) {
      assert x in i.conns ==> ShowsOne(s, i.conns[x], x);
    }
    ClockKeepsExpirations(s, w, now);
    hide ShowsOne;
    forall x: nat | ActiveAt(n, x, w) && x < |s.queues[w].timers|
      ensures Timers.Expiration(n.queues[w], x) == Timers.Expiration(s.queues[w], x)
    {
      assert Active(n, x) && ActiveAt(s, x, w);
    }
    FewerShown(s, n, w, i, j);
  }

  /** A client becomes a connection of the worker, due an interval from now. */
  lemma ClientShows(v: Variant, s: Server, w: nat, fd: nat, now: int, i: Ideal)
    requires Core(s) && s.Fits(w, fd) && fd !in s.objects && Shows(s, i)
    ensures var n := NewConnection(s, w, fd, now);
      Shows(n, IdealEntry(v, s.queues[w].kinds, w, i, Client(fd, now))) && n.queues[w].kinds == s.queues[w].kinds
  {
    NewConnectionMeaning(s, w, fd, now);
    NewTimer(s, w, fd, now);
    CondemnedExist(s, fd);
    hide Core, NewConnection;
    var n, j := NewConnection(s, w, fd, now), IdealEntry(v, s.queues[w].kinds, w, i, Client(fd, now));
    OneMoreShown(s, n, w, fd, now + s.queues[w].kinds[fd].interval, i, j);
  }

  lemma OneMoreShown(s: Server, n: Server, w: nat, fd: nat, due: int, i: Ideal, j: Ideal)
    requires Shows(s, i) && fd !in s.condemned && n.condemned == s.condemned && w < |s.queues|
    requires n.objects == s.objects[fd := Obj(s.nextId, w)] && n.nextId == s.nextId + 1
    requires j == Ideal(i.conns[fd := Conn(Obj(i.next, w), due)], i.next + 1)
    requires |n.queues| == |s.queues| && |n.queues[w].timers| == |s.queues[w].timers| > fd
    requires forall q | 0 <= q < |s.queues| && q != w :: n.queues[q] == s.queues[q]
    requires Timers.Expiration(n.queues[w], fd) == due
    requires forall x: nat | x < |s.queues[w].timers| && x != fd ::
               Timers.Expiration(n.queues[w], x) == Timers.Expiration(s.queues[w], x)
    ensures Shows(n, j)
  {
    forall x: nat | x in j.conns ensures ShowsOne(n, j.conns[x], x) {
      if x != fd {
        assert ShowsOne(s, i.conns[x], x);
      }
    }
  }

  /** One event, under any erasure, as long as it touches nothing that is destroyed. */
  lemma EntryShows(v: Variant, p: Erasure, s: Server, w: nat, e: Entry, i: Ideal)
    requires MidList(p, s, w) && EntryFits(s, w, e) && !Touches(p, s, w, e) && Shows(s, i)
    requires e.Sock? ==> s.objects[e.fd].worker == w
    ensures e.Client? ==> e.fd < |s.queues[w].kinds|
    ensures Shows(RunEntry(v, p, s, w, e), IdealEntry(v, s.queues[w].kinds, w, i, e))
    ensures RunEntry(v, p, s, w, e).queues[w].kinds == s.queues[w].kinds
  {
    CoreFault(s);
    hide TableOk, QueueOk, ListOk, Read, Timeout, NewConnection, Shows, CondemnedFit, IdealEntry;
    match e {
      case Sock(fd, id, result) => ReadShows(v, p, s, w, fd, id, result, i);
      case Clock(now) => ClockShows(v, p, s, w, now, i);
      case Client(fd, now) => ClientShows(v, s, w, fd, now, i);
    }
  }

  /** A closing read ends the connection it is for, a timeout exactly those of its worker that are due, a client joins
      with its worker, and everybody else stays. */
  ghost predicate TakesEffect(v: Variant, s: Server, w: nat, e: Entry, n: Server)
    requires s.Shape() && w < |s.queues|
  {
    match e
    case Sock(fd, _, result) => forall x: nat :: Active(n, x) <==> Active(s, x) && !(x == fd && EndsRead(v, result))
    case Clock(now) =>
      forall x: nat :: Active(n, x) <==> Active(s, x) && !(ActiveAt(s, x, w) && Due(s.queues[w], x, now))
    case Client(fd, _) =>
      ActiveAt(n, fd, w) && n.objects[fd].id == s.nextId && forall x: nat | x != fd :: Active(n, x) <==> Active(s, x)
  }

  lemma ShownTakesEffect(v: Variant, s: Server, w: nat, e: Entry, n: Server, i: Ideal)
    requires s.Shape() && w < |s.queues| && (e.Client? ==> e.fd < |s.queues[w].kinds|)
    requires Shows(s, i) && Shows(n, IdealEntry(v, s.queues[w].kinds, w, i, e))
    ensures TakesEffect(v, s, w, e, n)
  {
    var j := IdealEntry(v, s.queues[w].kinds, w, i, e);
    match e {
      case Sock(_, _, _) =>
      case Clock(now) =>
        forall x: nat ensures Active(n, x) <==> Active(s, x) && !(ActiveAt(s, x, w) && Due(s.queues[w], x, now)) {
          assert x in i.conns ==> ShowsOne(s, i.conns[x], x);
        }
      case Client(fd, _) => assert ShowsOne(n, j.conns[fd], fd);
    }
  }

  /** What one event does to the connections, under any erasure, as long as it touches nothing that is destroyed. */
  lemma EntryTakesEffect(v: Variant, p: Erasure, s: Server, w: nat, e: Entry)
    requires MidList(p, s, w) && EntryFits(s, w, e) && !Touches(p, s, w, e)
    requires e.Sock? ==> s.objects[e.fd].worker == w
    ensures TakesEffect(v, s, w, e, RunEntry(v, p, s, w, e))
  {
    hide TableOk, QueueOk, ListOk, RunEntry, Shows, IdealOf, IdealEntry, TakesEffect, EntryFits, Touches, CondemnedFit;
    CoreShows(s);
    EntryShows(v, p, s, w, e, IdealOf(s));
    ShownTakesEffect(v, s, w, e, RunEntry(v, p, s, w, e), IdealOf(s));
  }

  // ---------- one turn ----------

  lemma EntryGoesOn(v: Variant, p: Erasure, s: Server, w: nat, es: seq<Entry>, i: Ideal)
    requires MidList(p, s, w) && EntriesFit(v, p, s, w, es) && Mine(s, w, es) && TouchesNothing(v, p, s, w, es)
    requires Shows(s, i) && es != []
    ensures es[0].Client? ==> es[0].fd < |s.queues[w].kinds|
    ensures var n := RunEntry(v, p, s, w, es[0]);
      && MidList(p, n, w) && Mine(n, w, es[1..]) && Shows(n, IdealEntry(v, s.queues[w].kinds, w, i, es[0]))
      && n.queues[w].kinds == s.queues[w].kinds
  {
    hide TableOk, QueueOk, ListOk, CondemnedFit, RunEntry, Shows, IdealEntry;
    var e, tail := es[0], es[1..];
    assert es == [e] + tail;
    assert e.Sock? ==> s.objects[e.fd].worker == w;
    EntryFaultsExactlyWhen(v, p, s, w, e);
    EntryShows(v, p, s, w, e, i);
    EntryKeepsMine(v, p, s, w, e, tail);
  }

  lemma {:induction false} EntriesShow(v: Variant, p: Erasure, s: Server, w: nat, es: seq<Entry>, i: Ideal)
    requires MidList(p, s, w) && EntriesFit(v, p, s, w, es) && Mine(s, w, es) && TouchesNothing(v, p, s, w, es)
    requires Shows(s, i)
    ensures ClientsInRange(s.queues[w].kinds, es)
    ensures var n := RunEntries(v, p, s, w, es);
      Shows(n, IdealTurn(v, s.queues[w].kinds, w, i, es)) && n.queues[w].kinds == s.queues[w].kinds
    decreases |es|
  {
    hide TableOk, QueueOk, ListOk, CondemnedFit, RunEntry, Shows, IdealEntry, Mine, Touches, EntryFits;
    if es != [] {
      var e, tail := es[0], es[1..];
      EntryGoesOn(v, p, s, w, es, i);
      EntriesShow(v, p, RunEntry(v, p, s, w, e), w, tail, IdealEntry(v, s.queues[w].kinds, w, i, e));
      assert forall k | 1 <= k < |es| :: es[k] == tail[k - 1];
    }
  }

  lemma BuryShows(s: Server, w: nat, i: Ideal)
    requires Core(s) && CondemnedFit(s, w) && w < |s.queues| && Shows(s, i)
    ensures Shows(BuryAll(s, w), i)
  {
    hide TableOk, QueueOk, ListOk, BuryAll, CondemnedFit, ShowsOne, Local;
    BuryAllKeeps(s, w);
    BuryAllSameId(s, w);
    FewerShown(s, BuryAll(s, w), w, i, i);
  }

  lemma TurnShows(v: Variant, p: Erasure, s: Server, w: nat, es: seq<Entry>, i: Ideal)
    requires Inv(s) && w < |s.queues| && EntriesFit(v, p, s, w, es) && Polled(s, w, es)
    requires TouchesNothing(v, p, s, w, es) && Shows(s, i)
    ensures ClientsInRange(s.queues[w].kinds, es)
    ensures var n := PollList(v, p, s, w, es);
      Shows(n, IdealTurn(v, s.queues[w].kinds, w, i, es)) && n.queues[w].kinds == s.queues[w].kinds
  {
    hide RunEntries, TouchesNothing, TableOk, QueueOk, ListOk, OthersKept, Local, Mine, BuryAll, Shows, IdealTurn;
    PolledAreMine(s, w, es);
    assert MidList(p, s, w);
    EntriesKeep(v, p, s, w, es);
    EntriesShow(v, p, s, w, es, i);
    var r := RunEntries(v, p, s, w, es);
    BuryAllKeeps(r, w);
    BuryShows(r, w, IdealTurn(v, s.queues[w].kinds, w, i, es));
  }

  // ---------- the connections of a state ----------

  function DueAt(s: Server, x: nat): int
    requires x in s.objects
  {
    var w := s.objects[x].worker;
    if w < |s.queues| && x < |s.queues[w].timers| then Timers.Expiration(s.queues[w], x) else 0
  }

  /** A state's connections, each with its worker and the time at which it is due. */
  function IdealOf(s: Server): Ideal {
    Ideal(map x | x in s.objects && x !in s.condemned :: Conn(s.objects[x], DueAt(s, x)), s.nextId)
  }

  lemma CoreShows(s: Server)
    requires Core(s)
    ensures Shows(s, IdealOf(s))
  {
    forall x: nat | x in IdealOf(s).conns ensures ShowsOne(s, IdealOf(s).conns[x], x) {
      ActiveFits(s, x, s.objects[x].worker);
    }
  }

  lemma ShownIsIdeal(s: Server, i: Ideal)
    requires Shows(s, i)
    ensures i == IdealOf(s)
  {
    forall x: nat | x in i.conns ensures i.conns[x] == IdealOf(s).conns[x] {
      assert ShowsOne(s, i.conns[x], x);
    }
    assert i.conns == IdealOf(s).conns;
  }

  /** A turn that touches nothing destroyed does what its events say, one after the other, and nothing else. */
  lemma TurnIsIdeal(v: Variant, p: Erasure, s: Server, w: nat, es: seq<Entry>)
    requires Inv(s) && w < |s.queues| && EntriesFit(v, p, s, w, es) && Polled(s, w, es)
    requires TouchesNothing(v, p, s, w, es)
    ensures DoesAsTold(v, s, w, es, PollList(v, p, s, w, es))
  {
    hide Inv, EntriesFit, Polled, TouchesNothing, IdealTurn, IdealOf, Shows, PollList;
    CoreOf(s);
    CoreShows(s);
    TurnShows(v, p, s, w, es, IdealOf(s));
    ShownIsIdeal(PollList(v, p, s, w, es), IdealTurn(v, s.queues[w].kinds, w, IdealOf(s), es));
  }

  ghost predicate DoesAsTold(v: Variant, s: Server, w: nat, es: seq<Entry>, n: Server)
    requires w < |s.queues|
  {
    ClientsInRange(s.queues[w].kinds, es) && IdealOf(n) == IdealTurn(v, s.queues[w].kinds, w, IdealOf(s), es)
  }

  lemma CoreOf(s: Server)
    requires Inv(s)
    ensures Core(s)
  {
  }

  // ---------- whole runs ----------

  ghost predicate AllClientsInRange(kinds: seq<seq<Timers.Kind>>, steps: seq<Step>) {
    forall k | 0 <= k < |steps| :: steps[k].w < |kinds| && ClientsInRange(kinds[steps[k].w], steps[k].es)
  }

  ghost function IdealRun(v: Variant, kinds: seq<seq<Timers.Kind>>, i: Ideal, steps: seq<Step>): Ideal
    requires AllClientsInRange(kinds, steps)
    decreases |steps|
  {
    if steps == [] then i
    else
      var w, es := steps[0].w, steps[0].es;
      IdealRun(v, kinds, IdealTurn(v, kinds[w], w, i, es), steps[1..])
  }

  ghost predicate KindsAre(s: Server, kinds: seq<seq<Timers.Kind>>) {
    |kinds| == |s.queues| && forall w | 0 <= w < |kinds| :: s.queues[w].kinds == kinds[w]
  }

  /** Over every run of any number of workers, whose turns accept, read, close and time out in any order: the server's
      connections, their workers and the times at which they are due are what the events alone say, with the repaired
      erasure always, and with the others as long as nothing destroyed is touched. */
  lemma {:induction false} RunsAreIdeal(v: Variant, p: Erasure, s: Server, kinds: seq<seq<Timers.Kind>>,
      steps: seq<Step>)
    requires Inv(s) && LegalRun(v, p, s, steps) && KindsAre(s, kinds)
    requires p.AfterList? || TouchesNothingEver(v, p, s, steps)
    ensures AllClientsInRange(kinds, steps)
    ensures IdealOf(Run(v, p, s, steps)) == IdealRun(v, kinds, IdealOf(s), steps)
    decreases |steps|
  {
    hide PollList, TouchesNothing, TableOk, QueueOk, ListOk, IdealTurn, IdealOf, ClientsInRange, KindsAre;
    if steps != [] {
      var w, es := steps[0].w, steps[0].es;
      var n := PollList(v, p, s, w, es);
      CoreFault(s);
      TurnTouchesNothing(v, p, s, steps);
      TurnFaultsExactlyWhen(v, p, s, w, es);
      TurnIsIdeal(v, p, s, w, es);
      TurnKeepsKinds(v, p, s, w, es, kinds);
      KindsOfWorker(s, kinds, w);
      RunsAreIdeal(v, p, n, kinds, steps[1..]);
      assert forall k | 1 <= k < |steps| :: steps[k] == steps[1..][k - 1];
    }
  }

  lemma KindsOfWorker(s: Server, kinds: seq<seq<Timers.Kind>>, w: nat)
    requires KindsAre(s, kinds) && w < |s.queues|
    ensures w < |kinds| && s.queues[w].kinds == kinds[w]
  {
  }

  lemma TurnTouchesNothing(v: Variant, p: Erasure, s: Server, steps: seq<Step>)
    requires Inv(s) && LegalRun(v, p, s, steps) && steps != []
    requires p.AfterList? || TouchesNothingEver(v, p, s, steps)
    ensures !s.fault && TouchesNothing(v, p, s, steps[0].w, steps[0].es)
  {
    var w, es := steps[0].w, steps[0].es;
    CoreFault(s);
    hide TouchesNothing;
    if p.AfterList? {
      PolledAreMine(s, w, es);
      RepairedTouchesNothing(v, s, w, es);
    }
  }

  lemma TurnKeepsKinds(v: Variant, p: Erasure, s: Server, w: nat, es: seq<Entry>, kinds: seq<seq<Timers.Kind>>)
    requires Inv(s) && w < |s.queues| && EntriesFit(v, p, s, w, es) && Polled(s, w, es)
    requires TouchesNothing(v, p, s, w, es) && KindsAre(s, kinds)
    ensures KindsAre(PollList(v, p, s, w, es), kinds)
  {
    CoreShows(s);
    TurnShows(v, p, s, w, es, IdealOf(s));
    hide Inv, EntriesFit, Polled, TouchesNothing, PollList;
    assert Local(s, PollList(v, p, s, w, es), w);
  }

  // ---------- what is left behind a turn ----------

  /** The event ends connection `c` with descriptor x. */
  predicate EndsConn(v: Variant, w: nat, c: Conn, x: nat, e: Entry) {
    match e
    case Sock(fd, _, result) => fd == x && EndsRead(v, result)
    case Clock(now) => c.obj.worker == w && c.due <= now
    case Client(_, _) => false
  }

  /** No event of the list ends connection `c`. */
  ghost predicate Outlives(v: Variant, w: nat, c: Conn, x: nat, es: seq<Entry>) {
    forall k | 0 <= k < |es| :: !EndsConn(v, w, c, x, es[k])
  }

  function Joining(es: seq<Entry>): nat
    decreases |es|
  {
    if es == [] then 0 else (if es[0].Client? then 1 else 0) + Joining(es[1..])
  }

  /** What the client at place k of the list becomes. */
  function Joined(kinds: seq<Timers.Kind>, w: nat, next: nat, es: seq<Entry>, k: nat): Conn
    requires k < |es| && es[k].Client? && ClientsInRange(kinds, es)
  {
    Conn(Obj(next + Joining(es[..k]), w), es[k].now + kinds[es[k].fd].interval)
  }

  /** The client at place k gets descriptor x, and no later event ends it. */
  ghost predicate JoinsAt(v: Variant, kinds: seq<Timers.Kind>, w: nat, next: nat, es: seq<Entry>, x: nat, k: nat)
    requires ClientsInRange(kinds, es)
  {
    k < |es| && es[k].Client? && es[k].fd == x && Outlives(v, w, Joined(kinds, w, next, es, k), x, es[k + 1..])
  }

  /** The list brings in descriptor x at most once, and not while it is in use. */
  ghost predicate JoinsOnce(i: Ideal, es: seq<Entry>, x: nat) {
    (x in i.conns ==> NoClient(es, x)) && OneClient(es, x)
  }

  ghost predicate NoClient(es: seq<Entry>, x: nat) {
    forall k | 0 <= k < |es| && es[k].Client? :: es[k].fd != x
  }

  ghost predicate OneClient(es: seq<Entry>, x: nat) {
    forall j, k | 0 <= j < k < |es| && es[j].Client? && es[k].Client? && es[j].fd == x :: es[k].fd != x
  }

  lemma ClientsNext(es: seq<Entry>, x: nat)
    requires es != []
    ensures NoClient(es, x) <==> !(es[0].Client? && es[0].fd == x) && NoClient(es[1..], x)
    ensures OneClient(es, x) <==> (es[0].Client? && es[0].fd == x ==> NoClient(es[1..], x)) && OneClient(es[1..], x)
  {
    var tail := es[1..];
    assert forall k | 0 <= k < |tail| :: tail[k] == es[k + 1];
    assert forall k | 1 <= k < |es| :: es[k] == tail[k - 1];
  }

  lemma JoinsOnceNext(v: Variant, kinds: seq<Timers.Kind>, w: nat, i: Ideal, es: seq<Entry>, x: nat)
    requires es != [] && ClientsInRange(kinds, es) && JoinsOnce(i, es, x)
    ensures ClientsInRange(kinds, es[1..]) && JoinsOnce(IdealEntry(v, kinds, w, i, es[0]), es[1..], x)
  {
    var tail := es[1..];
    assert forall k | 0 <= k < |tail| :: tail[k] == es[k + 1];
    ClientsNext(es, x);
    hide NoClient, OneClient;
  }

  lemma OutlivesNext(v: Variant, w: nat, c: Conn, x: nat, es: seq<Entry>)
    requires es != []
    ensures Outlives(v, w, c, x, es) <==> !EndsConn(v, w, c, x, es[0]) && Outlives(v, w, c, x, es[1..])
  {
    var tail := es[1..];
    assert forall k | 0 <= k < |tail| :: tail[k] == es[k + 1];
    hide EndsConn;
    if Outlives(v, w, c, x, tail) && !EndsConn(v, w, c, x, es[0]) {
      forall k | 0 <= k < |es| ensures !EndsConn(v, w, c, x, es[k]) {
        assert k > 0 ==> es[k] == tail[k - 1];
      }
    }
  }

  /** A connection that is there before the events is there behind them, as it was, exactly when none ends it. */
  lemma {:induction false} OldOutlives(v: Variant, kinds: seq<Timers.Kind>, w: nat, i: Ideal, es: seq<Entry>, x: nat)
    requires ClientsInRange(kinds, es) && JoinsOnce(i, es, x) && x in i.conns
    ensures var n := IdealTurn(v, kinds, w, i, es);
      && (x in n.conns <==> Outlives(v, w, i.conns[x], x, es))
      && (x in n.conns ==> n.conns[x] == i.conns[x])
    decreases |es|
  {
    if es != [] {
      var m, tail := IdealEntry(v, kinds, w, i, es[0]), es[1..];
      assert es[0].Client? ==> es[0].fd != x;
      JoinsOnceNext(v, kinds, w, i, es, x);
      OutlivesNext(v, w, i.conns[x], x, es);
      if x in m.conns {
        OldOutlives(v, kinds, w, m, tail, x);
      } else {
        ClientsNext(es, x);
        NeverJoins(v, kinds, w, m, tail, x);
      }
    }
  }

  lemma {:induction false} NeverJoins(v: Variant, kinds: seq<Timers.Kind>, w: nat, i: Ideal, es: seq<Entry>, x: nat)
    requires ClientsInRange(kinds, es) && x !in i.conns && NoClient(es, x)
    ensures x !in IdealTurn(v, kinds, w, i, es).conns
    decreases |es|
  {
    if es != [] {
      var tail := es[1..];
      assert forall k | 0 <= k < |tail| :: tail[k] == es[k + 1];
      ClientsNext(es, x);
      NeverJoins(v, kinds, w, IdealEntry(v, kinds, w, i, es[0]), tail, x);
    }
  }

  lemma JoinsAtNext(v: Variant, kinds: seq<Timers.Kind>, w: nat, i: Ideal, es: seq<Entry>, x: nat, k: nat)
    requires k + 1 < |es| && ClientsInRange(kinds, es) && ClientsInRange(kinds, es[1..])
    ensures var next := IdealEntry(v, kinds, w, i, es[0]).next;
      && (JoinsAt(v, kinds, w, i.next, es, x, k + 1) <==> JoinsAt(v, kinds, w, next, es[1..], x, k))
      && (es[k + 1].Client? ==> Joined(kinds, w, i.next, es, k + 1) == Joined(kinds, w, next, es[1..], k))
  {
    assert es[1..][k] == es[k + 1] && es[1..][k + 1..] == es[k + 2..];
    assert es[..k + 1][1..] == es[1..][..k];
  }

  /** A client is a connection behind the events exactly when none behind it ends it. */
  lemma {:induction false} ClientOutlives(v: Variant, kinds: seq<Timers.Kind>, w: nat, i: Ideal, es: seq<Entry>, x: nat,
                                          k: nat)
    requires ClientsInRange(kinds, es) && JoinsOnce(i, es, x) && x !in i.conns
    requires k < |es| && es[k].Client? && es[k].fd == x
    ensures var n := IdealTurn(v, kinds, w, i, es);
      && (x in n.conns <==> JoinsAt(v, kinds, w, i.next, es, x, k))
      && (x in n.conns ==> n.conns[x] == Joined(kinds, w, i.next, es, k))
    decreases |es|
  {
    var m, tail := IdealEntry(v, kinds, w, i, es[0]), es[1..];
    JoinsOnceNext(v, kinds, w, i, es, x);
    if k == 0 {
      assert es[..0] == [];
      OldOutlives(v, kinds, w, m, tail, x);
    } else {
      assert es[0].Client? ==> es[0].fd != x;
      JoinsAtNext(v, kinds, w, i, es, x, k - 1);
      ClientOutlives(v, kinds, w, m, tail, x, k - 1);
    }
  }

  /** The connections behind the events are the old ones that no event ended, as they were, and the clients that no
      later event ended. */
  ghost predicate TurnLeaves(v: Variant, kinds: seq<Timers.Kind>, w: nat, i: Ideal, es: seq<Entry>, n: Ideal)
    requires ClientsInRange(kinds, es)
  {
    && (forall x: nat :: x in n.conns <==>
          || (x in i.conns && Outlives(v, w, i.conns[x], x, es))
          || exists k: nat :: JoinsAt(v, kinds, w, i.next, es, x, k))
    && (forall x: nat | x in i.conns && x in n.conns :: n.conns[x] == i.conns[x])
    && (forall x: nat, k: nat | JoinsAt(v, kinds, w, i.next, es, x, k) :: n.conns[x] == Joined(kinds, w, i.next, es, k))
  }

  lemma IdealTurnLeaves(v: Variant, kinds: seq<Timers.Kind>, w: nat, i: Ideal, es: seq<Entry>)
    requires ClientsInRange(kinds, es) && forall x: nat :: JoinsOnce(i, es, x)
    ensures TurnLeaves(v, kinds, w, i, es, IdealTurn(v, kinds, w, i, es))
  {
    hide Outlives, Joined, IdealTurn;
    var n := IdealTurn(v, kinds, w, i, es);
    forall x: nat
      ensures x in n.conns <==>
        (x in i.conns && Outlives(v, w, i.conns[x], x, es)) || exists k: nat :: JoinsAt(v, kinds, w, i.next, es, x, k)
      ensures x in i.conns && x in n.conns ==> n.conns[x] == i.conns[x]
    {
      assert JoinsOnce(i, es, x);
      if x in i.conns {
        OldOutlives(v, kinds, w, i, es, x);
      } else if k: nat :| k < |es| && es[k].Client? && es[k].fd == x {
        ClientOutlives(v, kinds, w, i, es, x, k);
      } else {
        NeverJoins(v, kinds, w, i, es, x);
      }
    }
    forall x: nat, k: nat | JoinsAt(v, kinds, w, i.next, es, x, k)
      ensures x in n.conns && n.conns[x] == Joined(kinds, w, i.next, es, k)
    {
      assert JoinsOnce(i, es, x);
      ClientOutlives(v, kinds, w, i, es, x, k);
    }
  }

  /** With the erasure behind the list, no descriptor is given out again before the list is through. */
  lemma {:induction false} RepairedJoinsOnce(v: Variant, s: Server, w: nat, es: seq<Entry>, x: nat)
    requires MidList(AfterList, s, w) && EntriesFit(v, AfterList, s, w, es) && Mine(s, w, es) && AllAlive(s, es)
    ensures x in s.objects ==> NoClient(es, x)
    ensures OneClient(es, x)
    decreases |es|
  {
    if es != [] {
      var n, tail := RunEntry(v, AfterList, s, w, es[0]), es[1..];
      RepairedEntryGoesOn(v, s, w, es);
      ClientsNext(es, x);
      hide RunEntry, MidList, Mine, AllAlive, EntryFits, NoClient, OneClient;
      RepairedJoinsOnce(v, n, w, tail, x);
    }
  }

  lemma RepairedEntryGoesOn(v: Variant, s: Server, w: nat, es: seq<Entry>)
    requires MidList(AfterList, s, w) && EntriesFit(v, AfterList, s, w, es) && Mine(s, w, es) && AllAlive(s, es)
    requires es != []
    ensures var n := RunEntry(v, AfterList, s, w, es[0]);
      && MidList(AfterList, n, w) && Mine(n, w, es[1..]) && AllAlive(n, es[1..])
      && (forall x: nat | x in s.objects :: x in n.objects)
      && (es[0].Client? ==> es[0].fd !in s.objects && es[0].fd in n.objects)
  {
    hide TableOk, QueueOk, ListOk, CondemnedFit, RunEntry;
    var e, n, tail := es[0], RunEntry(v, AfterList, s, w, es[0]), es[1..];
    assert es == [e] + tail;
    EntryFaultsExactlyWhen(v, AfterList, s, w, e);
    EntryKeepsMine(v, AfterList, s, w, e, tail);
    RepairedKeepsObjects(v, s, w, e);
    ClientIsNew(v, s, w, e);
    hide RunEntry, MidList, Mine;
    forall i | 0 <= i < |tail| && tail[i].Sock? ensures n.Alive(tail[i].fd, tail[i].id) {
      assert es[i + 1] == tail[i] && s.Alive(es[i + 1].fd, es[i + 1].id);
    }
  }

  lemma ClientIsNew(v: Variant, s: Server, w: nat, e: Entry)
    requires MidList(AfterList, s, w) && EntryFits(s, w, e)
    ensures e.Client? ==> e.fd !in s.objects && e.fd in RunEntry(v, AfterList, s, w, e).objects
  {
    CoreFault(s);
    hide Timers.Start, AddThrough, TableOk, QueueOk, ListOk;
  }

  ghost predicate LeavesTheRest(v: Variant, s: Server, w: nat, es: seq<Entry>, n: Server)
    requires w < |s.queues|
  {
    && ClientsInRange(s.queues[w].kinds, es)
    && TurnLeaves(v, s.queues[w].kinds, w, IdealOf(s), es, IdealOf(n))
  }

  /** So behind a repaired turn the server has exactly the connections that no event of its list ended, and the clients
      handed over that no later event ended, each with its worker, its identity and the time at which it is due. */
  lemma RepairedTurnLeaves(v: Variant, s: Server, w: nat, es: seq<Entry>)
    requires Inv(s) && w < |s.queues| && EntriesFit(v, AfterList, s, w, es) && Polled(s, w, es)
    ensures LeavesTheRest(v, s, w, es, PollList(v, AfterList, s, w, es))
  {
    hide TableOk, QueueOk, ListOk, TouchesNothing, PollList, EntriesFit, TurnLeaves, IdealTurn;
    PolledAreMine(s, w, es);
    RepairedTouchesNothing(v, s, w, es);
    TurnIsIdeal(v, AfterList, s, w, es);
    forall x: nat ensures JoinsOnce(IdealOf(s), es, x) {
      RepairedJoinsOnce(v, s, w, es, x);
    }
    IdealTurnLeaves(v, s.queues[w].kinds, w, IdealOf(s), es);
  }
}
