/** poller.hpp as the object it is: the event array is updated in place, and poll fills the caller's list. */
module PollerObject {
  import opened Variants
  import opened Pollers

  /** One entry of epoll_wait's answer. */
  datatype Report = Report(fd: nat, events: Interest)

  /** What poll emplaces: a slot bound to the bit it is called with. */
  datatype Emission = Emission(slot: Slot, bit: Bit)

  function EmissionsOf(e: Event, events: Interest): (es: seq<Emission>) {
    (if EPOLLIN in events then [Emission(e.read, EV_READ)] else [])
    + (if EPOLLOUT in events then [Emission(e.write, EV_WRITE)] else [])
    + (if EPOLLERR in events || EPOLLHUP in events then [Emission(e.error, EV_ERROR)] else [])
  }

  function Emissions(t: Table, reports: seq<Report>): (es: seq<Emission>)
    requires t.Shape() && forall k | 0 <= k < |reports| :: reports[k].fd < MAX_FD
    decreases |reports|
  {
    if reports == [] then []
    else
      var last := reports[|reports| - 1];
      Emissions(t, reports[..|reports| - 1]) + EmissionsOf(t.events[last.fd], last.events)
  }

  /** The kernel's list behind one call of epoll_wait. */
  function AfterReports(kernel: map<nat, Interest>, reports: seq<Report>): (k: map<nat, Interest>)
    ensures k.Keys == kernel.Keys
    decreases |reports|
  {
    if reports == [] then kernel
    else AfterReport(AfterReports(kernel, reports[..|reports| - 1]), reports[|reports| - 1].fd)
  }

  /** The reports as operations of a history. */
  function ReportOps(reports: seq<Report>): (ops: seq<Op>)
    decreases |reports|
  {
    if reports == [] then [] else ReportOps(reports[..|reports| - 1]) + [ReportOp(reports[|reports| - 1].fd)]
  }

  /** A poll carries a history on by its reports, so the laws over histories hold after it. */
  lemma {:induction false} PollContinuesHistory(v: Variant, ops: seq<Op>, reports: seq<Report>)
    ensures After(v, ops + ReportOps(reports)) == After(v, ops).(kernel := AfterReports(After(v, ops).kernel, reports))
    decreases |reports|
  {
    if reports == [] {
      assert ops + [] == ops;
    } else {
      var n := |reports| - 1;
      PollContinuesHistory(v, ops, reports[..n]);
      var before, op := ops + ReportOps(reports[..n]), ReportOp(reports[n].fd);
      assert ops + ReportOps(reports) == before + [op];
      assert (before + [op])[..|before|] == before;
    }
  }

  /** poll reads the table's entries alone. */
  lemma {:induction false} EmissionsSee(t: Table, u: Table, reports: seq<Report>)
    requires t.Shape() && u.Shape() && t.events == u.events
    requires forall k | 0 <= k < |reports| :: reports[k].fd < MAX_FD
    ensures Emissions(t, reports) == Emissions(u, reports)
    decreases |reports|
  {
    if reports != [] {
      EmissionsSee(t, u, reports[..|reports| - 1]);
    }
  }

  /** The kernel reports registered descriptors, with events it was asked for, and errors at any time. */
  ghost predicate Reportable(t: Table, reports: seq<Report>)
    requires t.Shape()
  {
    forall k | 0 <= k < |reports| ::
      reports[k].fd in t.kernel && reports[k].events <= t.kernel[reports[k].fd] + {EPOLLERR, EPOLLHUP}
  }

  /** The kernel bits a slot answers to. */
  function AnswersTo(bit: Bit): Interest {
    match bit
    case EV_READ => {EPOLLIN}
    case EV_WRITE => {EPOLLOUT}
    case EV_ERROR => {EPOLLERR, EPOLLHUP}
    case EV_ONESHOT => {}
  }

  /** A filled slot is the handler given last for its bit and a descriptor that was reported for it; only an error slot
      can be empty. */
  ghost predicate Faithful(ops: seq<Op>, reports: seq<Report>, e: Emission) {
    if e.slot == Empty then e.bit == EV_ERROR
    else exists k :: 0 <= k < |reports| && e.slot == Latest(ops, reports[k].fd, e.bit)
                     && AnswersTo(e.bit) * reports[k].events != {}
  }

  lemma OneReportIsFaithful(ops: seq<Op>, reports: seq<Report>, k: nat, e: Emission)
    requires AllAsserted(ops) && k < |reports| && reports[k].fd < MAX_FD
    requires var t := After(Repaired, ops);
      reports[k].fd in t.kernel && reports[k].events <= t.kernel[reports[k].fd] + {EPOLLERR, EPOLLHUP}
    requires e in EmissionsOf(After(Repaired, ops).events[reports[k].fd], reports[k].events)
    ensures Faithful(ops, reports, e)
  {
    var t, fd := After(Repaired, ops), reports[k].fd;
    hide After;
    HistoriesMirror(ops);
    assert MirrorAt(t, fd, fd in Disabled(ops)) && UpToDate(t, ops, fd);
    var both := AnswersTo(e.bit) * reports[k].events;
    assert e.bit == EV_READ ==> EPOLLIN in both;
    assert e.bit == EV_WRITE ==> EPOLLOUT in both;
    assert e.bit == EV_ERROR ==> EPOLLERR in both || EPOLLHUP in both;
  }

  /** After any history, whatever the kernel may report, every emission is the latest handler of a descriptor that was
      reported for it, and every read or write emission is callable. */
  lemma {:induction false} DispatchIsFaithful(ops: seq<Op>, reports: seq<Report>)
    requires AllAsserted(ops) && Reportable(After(Repaired, ops), reports)
    ensures forall k | 0 <= k < |reports| :: reports[k].fd < MAX_FD
    ensures forall e | e in Emissions(After(Repaired, ops), reports) :: Faithful(ops, reports, e)
    decreases |reports|
  {
    var t := After(Repaired, ops);
    if reports != [] {
      var n := |reports| - 1;
      var before, last := reports[..n], reports[n];
      assert reports[n].fd in t.kernel;
      assert forall k | 0 <= k < |before| :: before[k] == reports[k];
      DispatchIsFaithful(ops, before);
      forall e | e in Emissions(t, reports) ensures Faithful(ops, reports, e) {
        if e in Emissions(t, before) {
          assert Faithful(ops, before, e);
          if e.slot != Empty {
            var k :| 0 <= k < |before| && e.slot == Latest(ops, before[k].fd, e.bit)
                     && AnswersTo(e.bit) * before[k].events != {};
            assert reports[k] == before[k];
          }
        } else {
          OneReportIsFaithful(ops, reports, n, e);
        }
      }
    }
  }

  /** Nothing reported is left out: every reported bit has its slot in the list. */
  lemma {:induction false} EveryReportIsDispatched(t: Table, reports: seq<Report>, k: nat)
    requires t.Shape() && k < |reports| && forall j | 0 <= j < |reports| :: reports[j].fd < MAX_FD
    ensures forall e | e in EmissionsOf(t.events[reports[k].fd], reports[k].events) :: e in Emissions(t, reports)
    decreases |reports|
  {
    var n := |reports| - 1;
    if k < n {
      assert reports[..n][k] == reports[k];
      EveryReportIsDispatched(t, reports[..n], k);
    }
  }

  predicate Reports(events: Interest, bit: Bit) {
    AnswersTo(bit) * events != {}
  }

  function SlotOf(e: Event, bit: Bit): Slot {
    match bit
    case EV_READ => e.read
    case EV_WRITE => e.write
    case EV_ERROR => e.error
    case EV_ONESHOT => Empty
  }

  /** How many callbacks one report is worth, and how many of them come before the one for `bit`. */
  function Worth(events: Interest): nat {
    Rank(events, EV_ERROR) + if Reports(events, EV_ERROR) then 1 else 0
  }

  function Rank(events: Interest, bit: Bit): nat {
    match bit
    case EV_READ => 0
    case EV_WRITE => if Reports(events, EV_READ) then 1 else 0
    case _ => (if Reports(events, EV_READ) then 1 else 0) + if Reports(events, EV_WRITE) then 1 else 0
  }

  /** How many callbacks the first `k` reports are worth. */
  function Offset(reports: seq<Report>, k: nat): nat
    requires k <= |reports|
    decreases k
  {
    if k == 0 then 0 else Offset(reports, k - 1) + Worth(reports[k - 1].events)
  }

  lemma ReportsBits(events: Interest)
    ensures Reports(events, EV_READ) <==> EPOLLIN in events
    ensures Reports(events, EV_WRITE) <==> EPOLLOUT in events
    ensures Reports(events, EV_ERROR) <==> EPOLLERR in events || EPOLLHUP in events
  {
    assert EPOLLIN in events ==> EPOLLIN in AnswersTo(EV_READ) * events;
    assert EPOLLOUT in events ==> EPOLLOUT in AnswersTo(EV_WRITE) * events;
    assert EPOLLERR in events ==> EPOLLERR in AnswersTo(EV_ERROR) * events;
    assert EPOLLHUP in events ==> EPOLLHUP in AnswersTo(EV_ERROR) * events;
  }

  lemma OffsetPrefix(reports: seq<Report>, n: nat, k: nat)
    requires k <= n <= |reports|
    ensures Offset(reports[..n], k) == Offset(reports, k)
    decreases k
  {
    if k > 0 {
      OffsetPrefix(reports, n, k - 1);
    }
  }

  lemma OneReportInOrder(e: Event, events: Interest, bit: Bit)
    requires bit != EV_ONESHOT && Reports(events, bit)
    ensures |EmissionsOf(e, events)| == Worth(events)
    ensures Rank(events, bit) < Worth(events)
    ensures EmissionsOf(e, events)[Rank(events, bit)] == Emission(SlotOf(e, bit), bit)
  {
    ReportsBits(events);
  }

  lemma OneReportWorth(e: Event, events: Interest)
    ensures |EmissionsOf(e, events)| == Worth(events)
  {
    ReportsBits(events);
  }

  lemma EmissionsStep(t: Table, reports: seq<Report>)
    requires t.Shape() && reports != [] && forall j | 0 <= j < |reports| :: reports[j].fd < MAX_FD
    ensures var n := |reports| - 1;
      Emissions(t, reports) == Emissions(t, reports[..n]) + EmissionsOf(t.events[reports[n].fd], reports[n].events)
  {
  }

  lemma {:induction false} EmissionsCount(t: Table, reports: seq<Report>)
    requires t.Shape() && forall j | 0 <= j < |reports| :: reports[j].fd < MAX_FD
    ensures |Emissions(t, reports)| == Offset(reports, |reports|)
    decreases |reports|
  {
    if reports != [] {
      var n := |reports| - 1;
      EmissionsCount(t, reports[..n]);
      OffsetPrefix(reports, n, n);
      OneReportWorth(t.events[reports[n].fd], reports[n].events);
    }
  }

  /** The callbacks come in the order of the reports, and for one report in the order read, write, error, each once: the
      list has exactly one place for every bit of every report, and this is the place. */
  lemma {:induction false} EmissionsInOrder(t: Table, reports: seq<Report>, k: nat, bit: Bit)
    requires t.Shape() && forall j | 0 <= j < |reports| :: reports[j].fd < MAX_FD
    requires k < |reports| && bit != EV_ONESHOT && Reports(reports[k].events, bit)
    ensures |Emissions(t, reports)| == Offset(reports, |reports|)
    ensures var place := Offset(reports, k) + Rank(reports[k].events, bit);
      && place < Offset(reports, k + 1) <= |Emissions(t, reports)|
      && Emissions(t, reports)[place] == Emission(SlotOf(t.events[reports[k].fd], bit), bit)
    decreases |reports|
  {
    hide Emissions, EmissionsOf, Worth, Rank, Reports;
    var n := |reports| - 1;
    EmissionsStep(t, reports);
    EmissionsCount(t, reports);
    EmissionsCount(t, reports[..n]);
    OffsetPrefix(reports, n, n);
    OneReportInOrder(t.events[reports[k].fd], reports[k].events, bit);
    OneReportWorth(t.events[reports[n].fd], reports[n].events);
    if k < n {
      assert reports[..n][k] == reports[k];
      EmissionsInOrder(t, reports[..n], k, bit);
      OffsetPrefix(reports, n, k);
      OffsetPrefix(reports, n, k + 1);
    }
  }

  /** An error or hang-up is always reported, asked for or not: every callback of the list is callable exactly when
      each such report is for a descriptor with an error callback. */
  lemma {:induction false} AllCallableExactlyWhen(ops: seq<Op>, reports: seq<Report>)
    requires AllAsserted(ops) && Reportable(After(Repaired, ops), reports)
    requires forall k | 0 <= k < |reports| :: reports[k].fd < MAX_FD
    ensures var t := After(Repaired, ops);
      (forall e | e in Emissions(t, reports) :: e.slot.Handler?)
      <==> (forall k | 0 <= k < |reports| && (EPOLLERR in reports[k].events || EPOLLHUP in reports[k].events) ::
              t.events[reports[k].fd].error.Handler?)
  {
    var t := After(Repaired, ops);
    DispatchIsFaithful(ops, reports);
    if forall e | e in Emissions(t, reports) :: e.slot.Handler? {
      forall k | 0 <= k < |reports| && (EPOLLERR in reports[k].events || EPOLLHUP in reports[k].events)
        ensures t.events[reports[k].fd].error.Handler?
      {
        EveryReportIsDispatched(t, reports, k);
        var e := t.events[reports[k].fd];
        assert Emission(e.error, EV_ERROR) in EmissionsOf(e, reports[k].events);
      }
    } else {
      var e :| e in Emissions(t, reports) && !e.slot.Handler?;
      assert Faithful(ops, reports, e);
      ErrorEmissionHasReport(t, reports, e);
    }
  }

  lemma {:induction false} ErrorEmissionHasReport(t: Table, reports: seq<Report>, e: Emission)
    requires t.Shape() && forall k | 0 <= k < |reports| :: reports[k].fd < MAX_FD
    requires e in Emissions(t, reports) && e.bit != EV_READ && e.bit != EV_WRITE
    ensures exists k :: 0 <= k < |reports| && (EPOLLERR in reports[k].events || EPOLLHUP in reports[k].events)
              && e.slot == t.events[reports[k].fd].error
    decreases |reports|
  {
    var n := |reports| - 1;
    if e in Emissions(t, reports[..n]) {
      ErrorEmissionHasReport(t, reports[..n], e);
    } else {
      assert e in EmissionsOf(t.events[reports[n].fd], reports[n].events);
    }
  }

  class Poller {
    const events: array<Event>
    /** The kernel's interest list of m_epoll_fd. */
    var kernel: map<nat, Interest>
    var fault: bool

    ghost predicate Valid()
      reads this
    {
      events.Length == MAX_FD && forall fd: nat :: fd in kernel ==> fd < MAX_FD
    }

    ghost function View(): Table
      reads this, events
    {
      Table(events[..], kernel, fault)
    }

    /** All pollers share one table of events. */
    constructor (table: array<Event>)
      requires table.Length == MAX_FD
      ensures Valid() && events == table && kernel == map[] && !fault
    {
      events, kernel, fault := table, map[], false;
    }

    /** epoll_ctl */
    method EpollCtl(op: Ctl, fd: nat, interest: Interest) returns (ok: bool)
      requires Valid() && fd < MAX_FD
      modifies this`kernel
      ensures Valid() && kernel == Control(old(kernel), op, fd, interest) && ok == Accepts(old(kernel), op, fd)
    {
      ok := Accepts(kernel, op, fd);
      kernel := Control(kernel, op, fd, interest);
    }

    method AddEvent(v: Variant, fd: nat, mark: Mark, h: nat) returns (ret: int)
      requires Valid() && mark != EV_NONE
      modifies this`kernel, events
      ensures Valid() && (View(), ret) == Pollers.AddEvent(v, old(View()), fd, mark, h)
    {
      if fd >= MAX_FD {
        return -1;
      }
      events[fd] := WithCallback(events[fd], mark, h);
      var current := events[fd].mark;
      // as committed, the test of poller.hpp:56 assigns the stored mark to the argument
      var mark' := if v.AsWritten? then current else mark;
      if (if v.AsWritten? then mark' != EV_NONE else mark' == current && EV_ONESHOT !in current) {
        return 0;
      }
      var op := if current == EV_NONE then Add else Mod;
      assert v.AsWritten? ==> current + mark' == current;
      events[fd] := events[fd].(mark := current + mark');
      assert events[..] == old(events[..])[fd := WithCallback(old(events[fd]), mark, h).(mark := current + mark')];
      var ok := EpollCtl(op, fd, Encode(current + mark'));
      return if ok then 0 else -2;
    }

    method DelEvent(v: Variant, fd: nat, mark: Mark) returns (ret: int)
      requires Valid() && mark != EV_NONE
      modifies this`kernel, this`fault, events
      ensures Valid() && (View(), ret) == Pollers.DelEvent(v, old(View()), fd, mark)
    {
      if fd > MAX_FD || (v.Repaired? && fd == MAX_FD) {
        return -1;
      }
      if fd == MAX_FD {
        fault := true;
        return -2;
      }
      if events[fd].mark == EV_NONE {
        return -2;
      }
      var current := events[fd].mark;
      var newMark := if v.AsWritten? then mark - current else current - mark;
      var op, interest := Mod, {};
      if v.AsWritten? == Watches(newMark) {
        events[fd] := CLEARED;
        op := Del;
      } else {
        events[fd] := Trimmed(v, events[fd], newMark);
        interest := Encode(events[fd].mark);
      }
      var ok := EpollCtl(op, fd, interest);
      return if ok then 0 else -3;
    }

    /** epoll_wait: what is reported one-shot is disabled with it. */
    method EpollWait(reports: seq<Report>)
      requires Valid()
      modifies this`kernel
      ensures Valid() && kernel == AfterReports(old(kernel), reports)
    {
      var i := 0;
      while i < |reports|
        invariant 0 <= i <= |reports| && Valid() && kernel == AfterReports(old(kernel), reports[..i])
      {
        assert reports[..i + 1][..i] == reports[..i];
        kernel := AfterReport(kernel, reports[i].fd);
        i := i + 1;
      }
      assert reports[..i] == reports;
    }

    /** poll.  The committed code passes epoll_wait the size of an empty vector, which the kernel rejects. */
    method Poll(v: Variant, reports: seq<Report>) returns (ready: seq<Emission>, ret: int)
      requires Valid() && forall k | 0 <= k < |reports| :: reports[k].fd < MAX_FD
      modifies this`kernel
      ensures Valid()
      ensures v.AsWritten? ==> ready == [] && ret == -1 && View() == old(View())
      ensures v.Repaired? ==> ready == Emissions(old(View()), reports) && ret == 0
      ensures v.Repaired? ==> View() == old(View()).(kernel := AfterReports(old(kernel), reports))
    {
      ready := [];
      if v.AsWritten? {
        return ready, -1;
      }
      EpollWait(reports);
      ready := Callbacks(reports);
      EmissionsSee(View(), old(View()), reports);
      ret := 0;
    }

    /** The loop over what epoll_wait reported. */
    method Callbacks(reports: seq<Report>) returns (ready: seq<Emission>)
      requires Valid() && forall k | 0 <= k < |reports| :: reports[k].fd < MAX_FD
      ensures ready == Emissions(View(), reports)
    {
      ready := [];
      var i := 0;
      while i < |reports|
        invariant 0 <= i <= |reports| && ready == Emissions(View(), reports[..i])
      {
        var e := events[reports[i].fd];
        ghost var was := ready;
        if EPOLLIN in reports[i].events {
          ready := ready + [Emission(e.read, EV_READ)];
        }
        if EPOLLOUT in reports[i].events {
          ready := ready + [Emission(e.write, EV_WRITE)];
        }
        if EPOLLERR in reports[i].events || EPOLLHUP in reports[i].events {
          ready := ready + [Emission(e.error, EV_ERROR)];
        }
        assert ready == was + EmissionsOf(e, reports[i].events) by {
          hide Emissions;
        }
        assert reports[..i + 1][..i] == reports[..i];
        i := i + 1;
      }
      assert reports[..i] == reports;
    }
  }
}
