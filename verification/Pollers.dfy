/** event/event.hpp and event/poller.hpp: the per-descriptor table of marks and callbacks, and the kernel's interest
    list it has to mirror. */
module Pollers {
  import opened Variants

  /** The bits of event.hpp:14-21.  A mark is the set of its bits, so `|` is union, `& ~` is difference and EV_NONE is
      the empty set. */
  datatype Bit = EV_READ | EV_WRITE | EV_ONESHOT | EV_ERROR

  type Mark = set<Bit>

  const EV_NONE: Mark := {}

  /** What disable_all deletes. */
  const ALL_EVENTS: Mark := {EV_READ, EV_WRITE, EV_ONESHOT, EV_ERROR}

  /** The kernel's event bits that poller.hpp uses. */
  datatype KernelBit = EPOLLIN | EPOLLOUT | EPOLLONESHOT | EPOLLERR | EPOLLHUP

  type Interest = set<KernelBit>

  const MAX_FD: nat := 4096

  /** A std::function: empty, or some handler. */
  datatype Slot = Empty | Handler(id: nat)

  datatype Event = Event(mark: Mark, read: Slot, write: Slot, error: Slot)

  const CLEARED := Event(EV_NONE, Empty, Empty, Empty)

  /** The interest that a mark stands for, bit by bit; errors and hang-ups are reported unasked. */
  predicate AsksFor(events: Interest, mark: Mark) {
    && (EPOLLIN in events <==> EV_READ in mark)
    && (EPOLLOUT in events <==> EV_WRITE in mark)
    && (EPOLLONESHOT in events <==> EV_ONESHOT in mark)
    && EPOLLERR !in events && EPOLLHUP !in events
  }

  function Encode(mark: Mark): (events: Interest)
    ensures AsksFor(events, mark)
  {
    (if EV_READ in mark then {EPOLLIN} else {})
    + (if EV_WRITE in mark then {EPOLLOUT} else {})
    + (if EV_ONESHOT in mark then {EPOLLONESHOT} else {})
  }

  predicate Watches(mark: Mark) {
    EV_READ in mark || EV_WRITE in mark
  }

  // ---------- the kernel ----------

  datatype Ctl = Add | Mod | Del

  /** epoll_ctl rejects ADD of a descriptor it has, and MOD or DEL of one it has not. */
  predicate Accepts(kernel: map<nat, Interest>, op: Ctl, fd: nat) {
    if op.Add? then fd !in kernel else fd in kernel
  }

  function Control(kernel: map<nat, Interest>, op: Ctl, fd: nat, events: Interest): map<nat, Interest> {
    if !Accepts(kernel, op, fd) then kernel
    else if op.Del? then map k | k in kernel && k != fd :: kernel[k]
    else kernel[fd := events]
  }

  // ---------- the table ----------

  /** `fault`: the table was indexed out of bounds. */
  datatype Table = Table(events: seq<Event>, kernel: map<nat, Interest>, fault: bool) {
    ghost predicate Shape() {
      |events| == MAX_FD && forall fd: nat :: fd in kernel ==> fd < MAX_FD
    }
  }

  function EmptyTable(): (t: Table)
    ensures t.Shape()
  {
    Table(seq(MAX_FD, i => CLEARED), map[], false)
  }

  /** The three lines that store the callback under its mark bits. */
  function WithCallback(e: Event, mark: Mark, h: nat): Event {
    Event(e.mark,
          if EV_READ in mark then Handler(h) else e.read,
          if EV_WRITE in mark then Handler(h) else e.write,
          if EV_ERROR in mark then Handler(h) else e.error)
  }

  /** Store the entry and tell the kernel; the result code is 0 or `failure`. */
  function Commit(t: Table, fd: nat, e: Event, op: Ctl, events: Interest, failure: int): (r: (Table, int))
    requires t.Shape() && fd < MAX_FD
    ensures r.0.Shape()
  {
    (t.(events := t.events[fd := e], kernel := Control(t.kernel, op, fd, events)),
     if Accepts(t.kernel, op, fd) then 0 else failure)
  }

  /** add_event returns before it tells the kernel.  poller.hpp:56 assigns where it means to compare, so the committed
      code returns for any descriptor with a mark.  Repaired: for one that has just this mark, unless the mark is
      one-shot, since the kernel may have disabled the registration meanwhile. */
  predicate ReturnsEarly(v: Variant, mark: Mark, stored: Mark) {
    if v.AsWritten? then stored != EV_NONE else mark == stored && EV_ONESHOT !in mark
  }

  /** add_event.  As committed, it goes on with an empty mark. */
  function AddEvent(v: Variant, t: Table, fd: nat, mark: Mark, h: nat): (r: (Table, int))
    requires t.Shape()
    ensures r.0.Shape()
  {
    if fd >= MAX_FD then (t, -1)
    else
      var e := WithCallback(t.events[fd], mark, h);
      if ReturnsEarly(v, mark, e.mark) then (t.(events := t.events[fd := e]), 0)
      else
        var newMark := if v.AsWritten? then e.mark else e.mark + mark;
        Commit(t, fd, e.(mark := newMark), if e.mark == EV_NONE then Add else Mod, Encode(newMark), -2)
  }

  /** The callbacks that survive a deletion which leaves `kept` of the mark. */
  function Trimmed(v: Variant, e: Event, kept: Mark): Event {
    match v
    case AsWritten =>
      // `new_mark & EV_NONE` is always 0, and the stored mark stays
      Event(e.mark, if EV_READ in e.mark then Empty else e.read,
            if EV_WRITE in e.mark && EV_WRITE !in kept then Empty else e.write, e.error)
    case Repaired =>
      Event(kept, if EV_READ in e.mark && EV_READ !in kept then Empty else e.read,
            if EV_WRITE in e.mark && EV_WRITE !in kept then Empty else e.write, e.error)
  }

  /** del_event.  Repaired: the new mark is what stays of the old one, and the fd is given up when it keeps neither
      READ nor WRITE. */
  function DelEvent(v: Variant, t: Table, fd: nat, mark: Mark): (r: (Table, int))
    requires t.Shape()
    ensures r.0.Shape()
  {
    if fd > MAX_FD || (v.Repaired? && fd == MAX_FD) then (t, -1)
    else if mark == EV_NONE then (t, -2)
    else if fd == MAX_FD then (t.(fault := true), -2)
    else if t.events[fd].mark == EV_NONE then (t, -2)
    else
      var e := t.events[fd];
      var newMark := if v.AsWritten? then mark - e.mark else e.mark - mark;
      var gives := Watches(newMark);
      if (if v.AsWritten? then gives else !gives) then Commit(t, fd, CLEARED, Del, {}, -3)
      else Commit(t, fd, Trimmed(v, e, newMark), Mod, Encode(if v.AsWritten? then e.mark else newMark), -3)
  }

  // ---------- histories ----------

  /** An addition, a deletion, and a report of epoll_wait. */
  datatype Op = AddOp(fd: nat, mark: Mark, h: nat) | DelOp(fd: nat, mark: Mark) | ReportOp(fd: nat) {
    /** The assert at the head of both functions. */
    predicate Asserted() {
      ReportOp? || mark != EV_NONE
    }
  }

  /** The kernel disables a one-shot registration when it reports it. */
  function AfterReport(kernel: map<nat, Interest>, fd: nat): map<nat, Interest> {
    if fd in kernel && EPOLLONESHOT in kernel[fd] then kernel[fd := {}] else kernel
  }

  function Apply(v: Variant, t: Table, op: Op): (r: (Table, int))
    requires t.Shape()
    ensures r.0.Shape()
  {
    match op
    case AddOp(fd, mark, h) => AddEvent(v, t, fd, mark, h)
    case DelOp(fd, mark) => DelEvent(v, t, fd, mark)
    case ReportOp(fd) => (t.(kernel := AfterReport(t.kernel, fd)), 0)
  }

  function After(v: Variant, ops: seq<Op>): (t: Table)
    ensures t.Shape()
    decreases |ops|
  {
    if ops == [] then EmptyTable() else Apply(v, After(v, ops[..|ops| - 1]), ops[|ops| - 1]).0
  }

  ghost predicate AllAsserted(ops: seq<Op>) {
    forall k | 0 <= k < |ops| :: ops[k].Asserted()
  }

  /** The handler given last for `fd` under `bit`. */
  function Latest(ops: seq<Op>, fd: nat, bit: Bit): Slot
    decreases |ops|
  {
    if ops == [] then Empty
    else
      var op := ops[|ops| - 1];
      if op.AddOp? && op.fd == fd && bit in op.mark then Handler(op.h) else Latest(ops[..|ops| - 1], fd, bit)
  }

  /** A slot is filled exactly when its bit is set. */
  ghost predicate SlotsAgree(e: Event) {
    (e.read == Empty <==> EV_READ !in e.mark) && (e.write == Empty <==> EV_WRITE !in e.mark)
  }

  /** The table mirrors the kernel at `fd`: registered exactly when marked, and for exactly the marked events, or, where
      the kernel has disabled a one-shot mark, for none. */
  ghost predicate MirrorAt(t: Table, fd: nat, disabled: bool)
    requires t.Shape() && fd < MAX_FD
  {
    var e := t.events[fd];
    && (fd in t.kernel <==> e.mark != EV_NONE)
    && (fd in t.kernel ==> t.kernel[fd] == if disabled then {} else Encode(e.mark))
    && (disabled ==> EV_ONESHOT in e.mark)
    && SlotsAgree(e)
  }

  ghost predicate MirrorBut(t: Table, disabled: set<nat>)
    requires t.Shape()
  {
    !t.fault && forall fd: nat | fd < MAX_FD :: MirrorAt(t, fd, fd in disabled)
  }

  ghost predicate Mirror(t: Table)
    requires t.Shape()
  {
    MirrorBut(t, {})
  }

  lemma PlainMirror(t: Table)
    requires t.Shape()
    ensures Mirror(t) <==> !t.fault && forall fd: nat | fd < MAX_FD :: MirrorAt(t, fd, false)
  {
    var none: set<nat> := {};
    if Mirror(t) {
      forall fd: nat | fd < MAX_FD ensures MirrorAt(t, fd, false) {
        assert MirrorBut(t, none) && MirrorAt(t, fd, fd in none);
      }
    }
  }

  /** The slots of `fd` hold the handlers given last. */
  ghost predicate UpToDate(t: Table, ops: seq<Op>, fd: nat)
    requires t.Shape() && fd < MAX_FD
  {
    (t.events[fd].read != Empty ==> t.events[fd].read == Latest(ops, fd, EV_READ))
    && (t.events[fd].write != Empty ==> t.events[fd].write == Latest(ops, fd, EV_WRITE))
    && (t.events[fd].error != Empty ==> t.events[fd].error == Latest(ops, fd, EV_ERROR))
  }

  // ---------- repaired: every history ----------

  /** An addition on a mirroring table is accepted, and mirrors again; the mark becomes the union of the two, and a
      disabled descriptor is enabled. */
  lemma AddKeepsMirror(t: Table, fd: nat, mark: Mark, h: nat, disabled: set<nat>)
    requires t.Shape() && MirrorBut(t, disabled) && mark != EV_NONE
    ensures var (n, ret) := AddEvent(Repaired, t, fd, mark, h);
      MirrorBut(n, disabled - {fd}) && ret == (if fd < MAX_FD then 0 else -1)
      && (fd < MAX_FD ==> n.events[fd] == WithCallback(t.events[fd], mark, h).(mark := t.events[fd].mark + mark))
  {
    var n := AddEvent(Repaired, t, fd, mark, h).0;
    if fd < MAX_FD {
      assert MirrorAt(t, fd, fd in disabled);
      assert t.events[fd].mark + mark != {};
      assert mark == t.events[fd].mark ==> t.events[fd].mark + mark == mark;
      assert MirrorAt(n, fd, false);
    }
    forall x: nat | x < MAX_FD && x != fd ensures MirrorAt(n, x, x in disabled) {
      assert MirrorAt(t, x, x in disabled);
    }
  }

  /** A deletion on a mirroring table is never refused by the kernel, and mirrors again; it succeeds exactly on a
      descriptor with a mark. */
  lemma DelKeepsMirror(t: Table, fd: nat, mark: Mark, disabled: set<nat>)
    requires t.Shape() && MirrorBut(t, disabled) && mark != EV_NONE
    ensures var (n, ret) := DelEvent(Repaired, t, fd, mark);
      && MirrorBut(n, disabled - {fd})
      && ret == (if fd >= MAX_FD then -1 else if t.events[fd].mark == EV_NONE then -2 else 0)
  {
    var n := DelEvent(Repaired, t, fd, mark).0;
    if fd < MAX_FD {
      assert MirrorAt(t, fd, fd in disabled);
      assert MirrorAt(n, fd, false);
    }
    forall x: nat | x < MAX_FD && x != fd ensures MirrorAt(n, x, x in disabled) {
      assert MirrorAt(t, x, x in disabled);
    }
  }

  /** A report disables a one-shot descriptor and no other. */
  lemma ReportKeepsMirror(t: Table, fd: nat, disabled: set<nat>)
    requires t.Shape() && MirrorBut(t, disabled)
    ensures var n := t.(kernel := AfterReport(t.kernel, fd));
      MirrorBut(n, if fd < MAX_FD && EV_ONESHOT in t.events[fd].mark then disabled + {fd} else disabled)
  {
    var n := t.(kernel := AfterReport(t.kernel, fd));
    var d := if fd < MAX_FD && EV_ONESHOT in t.events[fd].mark then disabled + {fd} else disabled;
    forall x: nat | x < MAX_FD ensures MirrorAt(n, x, x in d) {
      assert MirrorAt(t, x, x in disabled);
    }
  }

  /** So a plain mirror survives a report exactly when the descriptor's mark is not one-shot. */
  lemma ReportKeepsMirrorExactlyWhen(t: Table, fd: nat)
    requires t.Shape() && Mirror(t) && fd < MAX_FD
    ensures Mirror(t.(kernel := AfterReport(t.kernel, fd))) <==> EV_ONESHOT !in t.events[fd].mark
  {
    var n := t.(kernel := AfterReport(t.kernel, fd));
    ReportKeepsMirror(t, fd, {});
    if EV_ONESHOT in t.events[fd].mark {
      assert {} + {fd} == {fd};
      assert MirrorAt(n, fd, fd in {fd}) && EPOLLONESHOT in Encode(n.events[fd].mark);
      assert !MirrorAt(n, fd, false);
    }
  }

  /** The mark that a history gives a descriptor. */
  function MarkAfter(ops: seq<Op>, fd: nat): Mark
    decreases |ops|
  {
    if ops == [] then EV_NONE
    else
      var mark, op := MarkAfter(ops[..|ops| - 1], fd), ops[|ops| - 1];
      if op.fd != fd || op.ReportOp? then mark
      else if op.AddOp? then mark + op.mark
      else if Watches(mark - op.mark) then mark - op.mark
      else EV_NONE
  }

  /** The descriptors whose one-shot mark was reported since they were last added or deleted. */
  function Disabled(ops: seq<Op>): set<nat>
    decreases |ops|
  {
    if ops == [] then {}
    else
      var before, op := ops[..|ops| - 1], ops[|ops| - 1];
      if !op.ReportOp? then Disabled(before) - {op.fd}
      else if op.fd < MAX_FD && EV_ONESHOT in MarkAfter(before, op.fd) then Disabled(before) + {op.fd}
      else Disabled(before)
  }

  /** The callback that a history leaves in the slot for a bit: the one added last, unless the descriptor was given up
      since, or, for reading and writing, the bit deleted. */
  function SlotAfter(ops: seq<Op>, fd: nat, bit: Bit): Slot
    decreases |ops|
  {
    if ops == [] then Empty
    else
      var before, op := ops[..|ops| - 1], ops[|ops| - 1];
      var slot, mark := SlotAfter(before, fd, bit), MarkAfter(before, fd);
      if op.fd != fd || op.ReportOp? then slot
      else if op.AddOp? then if bit in op.mark then Handler(op.h) else slot
      else if mark == EV_NONE then slot
      else if !Watches(mark - op.mark) || (bit in op.mark && bit != EV_ERROR) then Empty
      else slot
  }

  /** The entry of `fd` holds just what the history left there. */
  ghost predicate EntryIs(e: Event, ops: seq<Op>, fd: nat) {
    && e.mark == MarkAfter(ops, fd)
    && e.read == SlotAfter(ops, fd, EV_READ)
    && e.write == SlotAfter(ops, fd, EV_WRITE)
    && e.error == SlotAfter(ops, fd, EV_ERROR)
  }

  /** Over every history of additions, deletions and reports of the repaired code: the kernel accepts every request it
      is sent, every descriptor has the mark the history gives it and is registered for exactly that mark, or, if its
      one-shot mark was reported since, for nothing, and every slot holds the callback that the history leaves there,
      which is the handler given last if it is filled at all. */
  lemma {:induction false} HistoriesMirror(ops: seq<Op>)
    requires AllAsserted(ops)
    ensures MirrorBut(After(Repaired, ops), Disabled(ops))
    ensures forall fd: nat | fd < MAX_FD ::
              UpToDate(After(Repaired, ops), ops, fd) && EntryIs(After(Repaired, ops).events[fd], ops, fd)
    ensures ops != [] ==>
      var ret := Apply(Repaired, After(Repaired, ops[..|ops| - 1]), ops[|ops| - 1]).1;
      (ops[|ops| - 1].AddOp? ==> ret != -2) && ret != -3
    decreases |ops|
  {
    if ops == [] {
      EmptyMirrors();
    } else {
      var before, op := ops[..|ops| - 1], ops[|ops| - 1];
      HistoriesMirror(before);
      assert op.Asserted();
      StepMirrors(After(Repaired, before), op, Disabled(before));
      hide AddEvent, DelEvent, MirrorBut, UpToDate, EntryIs, SlotStep;
      var s, t := After(Repaired, before), After(Repaired, ops);
      forall fd: nat | fd < MAX_FD ensures UpToDate(t, ops, fd) && EntryIs(t.events[fd], ops, fd) {
        EntryFollows(s, t, ops, fd);
      }
    }
  }

  lemma EntryFollows(s: Table, t: Table, ops: seq<Op>, fd: nat)
    requires s.Shape() && t.Shape() && fd < MAX_FD && ops != []
    requires var before := ops[..|ops| - 1];
      UpToDate(s, before, fd) && EntryIs(s.events[fd], before, fd) && SlotStep(s, t, ops[|ops| - 1], fd)
    ensures UpToDate(t, ops, fd) && EntryIs(t.events[fd], ops, fd)
  {
  }

  lemma EmptyMirrors()
    ensures MirrorBut(EmptyTable(), {})
    ensures forall fd: nat | fd < MAX_FD :: EmptyTable().events[fd] == CLEARED
  {
    forall fd: nat | fd < MAX_FD ensures MirrorAt(EmptyTable(), fd, false) {
    }
  }

  /** What an operation does to the entry of a descriptor. */
  ghost predicate SlotStep(s: Table, t: Table, op: Op, fd: nat)
    requires s.Shape() && t.Shape() && fd < MAX_FD
  {
    var e, f := s.events[fd], t.events[fd];
    if op.fd != fd || op.ReportOp? then f == e
    else if op.AddOp? then f == WithCallback(e, op.mark, op.h).(mark := e.mark + op.mark)
    else if e.mark == EV_NONE then f == e
    else if !Watches(e.mark - op.mark) then f == CLEARED
    else f == Event(e.mark - op.mark, if EV_READ in op.mark then Empty else e.read,
                    if EV_WRITE in op.mark then Empty else e.write, e.error)
  }

  lemma DelSlots(s: Table, fd: nat, mark: Mark, disabled: set<nat>)
    requires s.Shape() && MirrorBut(s, disabled) && mark != EV_NONE
    ensures forall x: nat | x < MAX_FD :: SlotStep(s, DelEvent(Repaired, s, fd, mark).0, DelOp(fd, mark), x)
  {
    if fd < MAX_FD {
      assert MirrorAt(s, fd, fd in disabled);
    }
  }

  lemma StepMirrors(s: Table, op: Op, disabled: set<nat>)
    requires s.Shape() && MirrorBut(s, disabled) && op.Asserted()
    ensures var (t, ret) := Apply(Repaired, s, op);
      && (op.AddOp? ==> ret != -2) && ret != -3
      && (forall fd: nat | fd < MAX_FD :: SlotStep(s, t, op, fd))
      && MirrorBut(t, if !op.ReportOp? then disabled - {op.fd}
                      else if op.fd < MAX_FD && EV_ONESHOT in s.events[op.fd].mark then disabled + {op.fd}
                      else disabled)
  {
    hide MirrorBut;
    match op {
      case AddOp(fd, mark, h) => AddKeepsMirror(s, fd, mark, h, disabled);
      case DelOp(fd, mark) =>
        DelKeepsMirror(s, fd, mark, disabled);
        DelSlots(s, fd, mark, disabled);
      case ReportOp(fd) => ReportKeepsMirror(s, fd, disabled);
    }
  }

  /** What the kernel is asked for after a history, event by event: a descriptor is registered exactly when the history
      gives it a mark; EPOLLIN, EPOLLOUT and EPOLLONESHOT are asked for exactly when the mark has their bits, and
      nothing else; after a one-shot report, nothing at all. */
  lemma KernelAsksExactly(ops: seq<Op>, fd: nat)
    requires AllAsserted(ops)
    ensures fd in After(Repaired, ops).kernel <==> fd < MAX_FD && MarkAfter(ops, fd) != EV_NONE
    ensures fd in After(Repaired, ops).kernel ==>
      var events, mark := After(Repaired, ops).kernel[fd], MarkAfter(ops, fd);
      && (EPOLLIN in events <==> EV_READ in mark && fd !in Disabled(ops))
      && (EPOLLOUT in events <==> EV_WRITE in mark && fd !in Disabled(ops))
      && (EPOLLONESHOT in events <==> EV_ONESHOT in mark && fd !in Disabled(ops))
      && EPOLLERR !in events && EPOLLHUP !in events
  {
    HistoriesMirror(ops);
    if fd < MAX_FD {
      assert MirrorAt(After(Repaired, ops), fd, fd in Disabled(ops));
    }
  }

  /** The table mirrors the kernel after a history exactly when no one-shot report is unanswered. */
  lemma MirrorsExactlyWhen(ops: seq<Op>)
    requires AllAsserted(ops)
    ensures Mirror(After(Repaired, ops)) <==> Disabled(ops) == {}
  {
    HistoriesMirror(ops);
    DisabledInRange(ops);
    var t := After(Repaired, ops);
    if Disabled(ops) != {} {
      var fd :| fd in Disabled(ops);
      assert MirrorAt(t, fd, fd in Disabled(ops)) && EPOLLONESHOT in Encode(t.events[fd].mark);
      assert !MirrorAt(t, fd, fd in {});
    }
  }

  lemma {:induction false} DisabledInRange(ops: seq<Op>)
    ensures forall fd | fd in Disabled(ops) :: fd < MAX_FD
    decreases |ops|
  {
    if ops != [] {
      DisabledInRange(ops[..|ops| - 1]);
    }
  }

  // ---------- enabling a reported descriptor ----------

  /** add_event with a comparison at poller.hpp:56 and nothing more: it returns for any equal mark. */
  function AddIfChanged(t: Table, fd: nat, mark: Mark, h: nat): (n: Table)
    requires t.Shape() && fd < MAX_FD
    ensures n.Shape()
  {
    var e := WithCallback(t.events[fd], mark, h);
    if mark == e.mark then t.(events := t.events[fd := e])
    else Commit(t, fd, e.(mark := e.mark + mark), if e.mark == EV_NONE then Add else Mod, Encode(e.mark + mark), -2).0
  }

  /** That would leave a reported one-shot descriptor registered for nothing exactly when it is added with the mark it
      has, as the acceptors are; the repaired code enables it whatever the mark. */
  lemma ReportedIsEnabledExactlyWhen(t: Table, fd: nat, mark: Mark, h: nat)
    requires t.Shape() && fd < MAX_FD && MirrorAt(t, fd, true) && mark != EV_NONE
    ensures fd in AddIfChanged(t, fd, mark, h).kernel && fd in AddEvent(Repaired, t, fd, mark, h).0.kernel
    ensures AddIfChanged(t, fd, mark, h).kernel[fd] == Encode(t.events[fd].mark + mark) <==> mark != t.events[fd].mark
    ensures AddEvent(Repaired, t, fd, mark, h).0.kernel[fd] == Encode(t.events[fd].mark + mark)
  {
    assert EPOLLONESHOT in Encode(t.events[fd].mark + mark);
  }

  /** Every registered descriptor is watched for reading or writing. */
  ghost predicate Watched(t: Table)
    requires t.Shape()
  {
    forall fd: nat | fd < MAX_FD && fd in t.kernel :: Watches(t.events[fd].mark)
  }

  /** Registered means watched for READ or WRITE; an addition keeps that exactly when the descriptor's marks, old and
      new, contain one of the two.  Deletions always keep it. */
  lemma AddKeepsWatchedExactlyWhen(t: Table, fd: nat, mark: Mark, h: nat, disabled: set<nat>)
    requires t.Shape() && MirrorBut(t, disabled) && Watched(t) && mark != EV_NONE && fd < MAX_FD
    ensures Watched(AddEvent(Repaired, t, fd, mark, h).0) <==> Watches(t.events[fd].mark + mark)
  {
    var n := AddEvent(Repaired, t, fd, mark, h).0;
    AddKeepsMirror(t, fd, mark, h, disabled);
    assert MirrorAt(n, fd, false) && n.events[fd].mark == t.events[fd].mark + mark != {};
    forall x: nat | x < MAX_FD && x != fd ensures n.events[x] == t.events[x] && (x in n.kernel <==> x in t.kernel) {
    }
  }

  lemma DelKeepsWatched(t: Table, fd: nat, mark: Mark, disabled: set<nat>)
    requires t.Shape() && MirrorBut(t, disabled) && Watched(t)
    ensures Watched(DelEvent(Repaired, t, fd, mark).0)
  {
  }

  /** Watched after every prefix of a history. */
  ghost predicate WatchedThroughout(ops: seq<Op>)
    decreases |ops|
  {
    Watched(After(Repaired, ops)) && (ops != [] ==> WatchedThroughout(ops[..|ops| - 1]))
  }

  /** Every addition of a history leaves its descriptor's mark with READ or WRITE. */
  ghost predicate AddsWatch(ops: seq<Op>)
    decreases |ops|
  {
    ops == [] ||
    var before, op := ops[..|ops| - 1], ops[|ops| - 1];
    AddsWatch(before)
    && (op.AddOp? && op.fd < MAX_FD ==> Watches(After(Repaired, before).events[op.fd].mark + op.mark))
  }

  /** Over histories: a descriptor is registered exactly when its mark keeps READ or WRITE, throughout, if and only if
      every addition leaves a mark with one of the two. */
  lemma {:induction false} WatchedThroughoutExactlyWhen(ops: seq<Op>)
    requires AllAsserted(ops)
    ensures WatchedThroughout(ops) <==> AddsWatch(ops)
    decreases |ops|
  {
    if ops != [] {
      var before, op := ops[..|ops| - 1], ops[|ops| - 1];
      var s := After(Repaired, before);
      WatchedThroughoutExactlyWhen(before);
      HistoriesMirror(before);
      if WatchedThroughout(before) {
        assert Watched(s) && op.Asserted();
        hide AddEvent, DelEvent, Watched;
        match op {
          case AddOp(fd, mark, h) => AddWatchedOrOut(s, fd, mark, h, Disabled(before));
          case DelOp(fd, mark) => DelKeepsWatched(s, fd, mark, Disabled(before));
          case ReportOp(fd) => ReportKeepsWatched(s, fd);
        }
      }
    }
  }

  lemma ReportKeepsWatched(t: Table, fd: nat)
    requires t.Shape() && Watched(t)
    ensures Watched(t.(kernel := AfterReport(t.kernel, fd)))
  {
  }

  lemma AddWatchedOrOut(t: Table, fd: nat, mark: Mark, h: nat, disabled: set<nat>)
    requires t.Shape() && MirrorBut(t, disabled) && Watched(t) && mark != EV_NONE
    ensures Watched(AddEvent(Repaired, t, fd, mark, h).0) <==> (fd < MAX_FD ==> Watches(t.events[fd].mark + mark))
  {
    if fd < MAX_FD {
      AddKeepsWatchedExactlyWhen(t, fd, mark, h, disabled);
    }
  }

  /** In particular when every mark added has one of the two itself. */
  lemma {:induction false} MarksWatch(ops: seq<Op>)
    requires AllAsserted(ops) && forall k | 0 <= k < |ops| :: ops[k].AddOp? ==> Watches(ops[k].mark)
    ensures AddsWatch(ops) && Watched(After(Repaired, ops))
    decreases |ops|
  {
    if ops != [] {
      MarksWatch(ops[..|ops| - 1]);
    }
    WatchedThroughoutExactlyWhen(ops);
  }

  // ---------- as committed: every history ----------

  ghost predicate NoMarks(t: Table)
    requires t.Shape()
  {
    forall fd: nat | fd < MAX_FD :: t.events[fd].mark == EV_NONE
  }

  /** Some addition of the history was in range. */
  ghost predicate Adds(ops: seq<Op>) {
    exists k | 0 <= k < |ops| :: ops[k].AddOp? && ops[k].fd < MAX_FD
  }

  /** One committed step on a table without marks: an addition in range registers its descriptor for no event, and
      nothing else happens. */
  lemma CommittedStep(t: Table, op: Op)
    requires t.Shape() && NoMarks(t) && forall fd: nat | fd in t.kernel :: t.kernel[fd] == {}
    ensures var n := Apply(AsWritten, t, op).0;
      && NoMarks(n)
      && (forall fd: nat :: fd in n.kernel <==> fd in t.kernel || (op.AddOp? && op.fd < MAX_FD && op.fd == fd))
      && (forall fd: nat | fd in n.kernel :: n.kernel[fd] == {})
      && ((op.AddOp? && op.fd < MAX_FD) || (n.events == t.events && n.kernel == t.kernel))
  {
    assert Encode(EV_NONE) == {};
  }

  /** What the committed code does over any history: no mark is ever stored, an added descriptor is registered for
      nothing, and it stays that way. */
  lemma {:induction false} CommittedHistories(ops: seq<Op>)
    ensures NoMarks(After(AsWritten, ops))
    ensures forall k | 0 <= k < |ops| && ops[k].AddOp? && ops[k].fd < MAX_FD ::
              ops[k].fd in After(AsWritten, ops).kernel
    ensures forall fd: nat | fd in After(AsWritten, ops).kernel :: After(AsWritten, ops).kernel[fd] == {}
    ensures !Adds(ops) ==> After(AsWritten, ops).events == EmptyTable().events && After(AsWritten, ops).kernel == map[]
    decreases |ops|
  {
    if ops != [] {
      var before, op := ops[..|ops| - 1], ops[|ops| - 1];
      CommittedHistories(before);
      CommittedStep(After(AsWritten, before), op);
      hide Apply;
      assert forall k | 0 <= k < |before| :: ops[k] == before[k];
      if Adds(before) {
        var k :| 0 <= k < |before| && before[k].AddOp? && before[k].fd < MAX_FD;
        assert ops[k] == before[k];
        assert Adds(ops);
      }
    }
  }

  /** No deletion at 4096, which the committed range test lets through to the table. */
  ghost predicate InBounds(ops: seq<Op>) {
    forall k | 0 <= k < |ops| :: ops[k].DelOp? && ops[k].mark != EV_NONE ==> ops[k].fd != MAX_FD
  }

  lemma {:induction false} CommittedFaults(ops: seq<Op>)
    ensures After(AsWritten, ops).fault <==> !InBounds(ops)
    decreases |ops|
  {
    if ops != [] {
      var before, op := ops[..|ops| - 1], ops[|ops| - 1];
      CommittedHistories(before);
      CommittedFaults(before);
      assert InBounds(ops) <==> InBounds(before) && (op.DelOp? && op.mark != EV_NONE ==> op.fd != MAX_FD) by {
        assert forall k | 0 <= k < |before| :: ops[k] == before[k];
      }
    }
  }

  /** The committed table mirrors the kernel exactly when the history adds nothing and stays in bounds. */
  lemma CommittedMirrorsExactlyWhen(ops: seq<Op>)
    ensures Mirror(After(AsWritten, ops)) <==> !Adds(ops) && InBounds(ops)
  {
    var t := After(AsWritten, ops);
    CommittedHistories(ops);
    CommittedFaults(ops);
    if Adds(ops) {
      var k :| 0 <= k < |ops| && ops[k].AddOp? && ops[k].fd < MAX_FD;
      assert !MirrorAt(t, ops[k].fd, false);
    } else {
      forall fd: nat | fd < MAX_FD ensures MirrorAt(t, fd, false) {
        assert t.events[fd] == CLEARED;
      }
    }
    PlainMirror(t);
  }
}
