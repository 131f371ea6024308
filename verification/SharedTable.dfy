/** event/poller.hpp:141-144: every worker has an epoll instance of its own, but the table of marks and callbacks is
    static.  What one poller records, another poller goes by. */
module SharedTable {
  import opened Variants
  import opened Pollers

  /** `kernels[p]`: the interest list of poller p. */
  datatype Shared = Shared(events: seq<Event>, kernels: seq<map<nat, Interest>>) {
    ghost predicate Shape() {
      |events| == MAX_FD && forall p, fd: nat | 0 <= p < |kernels| && fd in kernels[p] :: fd < MAX_FD
    }

    /** What poller p goes by. */
    function Seen(p: nat): Table
      requires p < |kernels|
    {
      Table(events, kernels[p], false)
    }

    function Left(p: nat, t: Table): Shared
      requires p < |kernels|
    {
      Shared(t.events, kernels[p := t.kernel])
    }
  }

  /** add_event and del_event of poller p. */
  function AddThrough(s: Shared, p: nat, fd: nat, mark: Mark, h: nat): (n: Shared)
    requires s.Shape() && p < |s.kernels|
    ensures n.Shape() && |n.kernels| == |s.kernels|
  {
    s.Left(p, AddEvent(Repaired, s.Seen(p), fd, mark, h).0)
  }

  function DelThrough(s: Shared, p: nat, fd: nat, mark: Mark): (n: Shared)
    requires s.Shape() && p < |s.kernels|
    ensures n.Shape() && |n.kernels| == |s.kernels|
  {
    s.Left(p, DelEvent(Repaired, s.Seen(p), fd, mark).0)
  }

  /** epoll_wait of poller p reports the descriptor. */
  function ReportThrough(s: Shared, p: nat, fd: nat): (n: Shared)
    requires s.Shape() && p < |s.kernels|
    ensures n.Shape() && |n.kernels| == |s.kernels|
  {
    s.(kernels := s.kernels[p := AfterReport(s.kernels[p], fd)])
  }

  /** Poller p will be told of the descriptor: it is registered there, for all it is marked for. */
  predicate Armed(s: Shared, p: nat, fd: nat)
    requires |s.events| == MAX_FD && p < |s.kernels| && fd < MAX_FD
  {
    fd in s.kernels[p] && AsksFor(s.kernels[p][fd], s.events[fd].mark)
  }

  /** Whether an addition through poller p arms the descriptor there.  If no poller has marked it: exactly when p's
      kernel does not have it, or has it for the same.  If one has: exactly when p's kernel has it, and, should the mark
      be added that it has already, is told of it again or has it armed. */
  lemma AddArmsExactlyWhen(s: Shared, p: nat, fd: nat, mark: Mark, h: nat)
    requires s.Shape() && p < |s.kernels| && fd < MAX_FD && mark != EV_NONE
    ensures Armed(AddThrough(s, p, fd, mark, h), p, fd)
       <==> if s.events[fd].mark == EV_NONE then fd in s.kernels[p] ==> AsksFor(s.kernels[p][fd], mark)
            else fd in s.kernels[p] && (mark == s.events[fd].mark && EV_ONESHOT !in mark ==> Armed(s, p, fd))
    ensures fd in AddThrough(s, p, fd, mark, h).kernels[p] <==> s.events[fd].mark == EV_NONE || fd in s.kernels[p]
  {
    assert EV_NONE + mark == mark;
    assert mark == s.events[fd].mark ==> s.events[fd].mark + mark == mark;
  }

  /** The descriptor is marked, and registered with poller p and no other. */
  ghost predicate HeldBy(s: Shared, fd: nat, p: nat)
    requires s.Shape() && fd < MAX_FD
  {
    p < |s.kernels| && s.events[fd].mark != EV_NONE && forall q | 0 <= q < |s.kernels| :: fd in s.kernels[q] <==> q == p
  }

  const LISTENING: Mark := {EV_READ, EV_ONESHOT}

  /** An acceptor that is just enabled in the next worker's poller never arrives there, whatever it is enabled for: the
      server stops listening. */
  lemma HandOverWithoutReleaseIsLost(s: Shared, fd: nat, from: nat, to: nat, mark: Mark, h: nat)
    requires s.Shape() && fd < MAX_FD && HeldBy(s, fd, from) && to < |s.kernels| && to != from && mark != EV_NONE
    ensures fd !in AddThrough(s, to, fd, mark, h).kernels[to]
  {
    AddArmsExactlyWhen(s, to, fd, mark, h);
  }

  /** A hand-over that first takes the descriptor out of the holder's poller. */
  function HandOver(s: Shared, fd: nat, from: nat, to: nat, h: nat): (n: Shared)
    requires s.Shape() && from < |s.kernels| && to < |s.kernels|
    ensures n.Shape() && |n.kernels| == |s.kernels|
  {
    AddThrough(DelThrough(s, from, fd, ALL_EVENTS), to, fd, LISTENING, h)
  }

  lemma ReleaseFrees(s: Shared, fd: nat, p: nat)
    requires s.Shape() && fd < MAX_FD && HeldBy(s, fd, p)
    ensures var n := DelThrough(s, p, fd, ALL_EVENTS);
      n.events[fd].mark == EV_NONE && forall q | 0 <= q < |n.kernels| :: fd !in n.kernels[q]
  {
    forall b: Bit ensures b in ALL_EVENTS {
      match b {
        case EV_READ => case EV_WRITE => case EV_ONESHOT => case EV_ERROR =>
      }
    }
    assert s.events[fd].mark - ALL_EVENTS == {};
  }

  /** With the release, the descriptor moves to the next poller, for reading and one report. */
  lemma HandOverMoves(s: Shared, fd: nat, from: nat, to: nat, h: nat)
    requires s.Shape() && fd < MAX_FD && HeldBy(s, fd, from) && to < |s.kernels|
    ensures var n := HandOver(s, fd, from, to, h);
      HeldBy(n, fd, to) && n.kernels[to][fd] == {EPOLLIN, EPOLLONESHOT}
  {
    var r := DelThrough(s, from, fd, ALL_EVENTS);
    ReleaseFrees(s, fd, from);
    hide DelThrough;
    assert EV_READ in LISTENING && EV_NONE + LISTENING == LISTENING;
  }

  // ---------- an acceptor's listening socket over time ----------

  /** Its socket is reported to the holder, the holder enables it again, or hands it over. */
  datatype Pass = Reported | Enabled | GivenTo(to: nat)

  /** Held by p alone, for reading and one report, which may have been made. */
  ghost predicate Listens(s: Shared, fd: nat, p: nat, reported: bool)
    requires s.Shape() && fd < MAX_FD
  {
    && HeldBy(s, fd, p) && s.events[fd].mark == LISTENING
    && s.kernels[p][fd] == if reported then {} else {EPOLLIN, EPOLLONESHOT}
  }

  function Passed(s: Shared, fd: nat, holder: nat, pass: Pass, h: nat): (n: Shared)
    requires s.Shape() && holder < |s.kernels| && (pass.GivenTo? ==> pass.to < |s.kernels|)
    ensures n.Shape() && |n.kernels| == |s.kernels|
  {
    match pass
    case Reported => ReportThrough(s, holder, fd)
    case Enabled => AddThrough(s, holder, fd, LISTENING, h)
    case GivenTo(to) => HandOver(s, fd, holder, to, h)
  }

  lemma PassKeepsListening(s: Shared, fd: nat, p: nat, reported: bool, pass: Pass, h: nat)
    requires s.Shape() && fd < MAX_FD && Listens(s, fd, p, reported) && (pass.GivenTo? ==> pass.to < |s.kernels|)
    ensures Listens(Passed(s, fd, p, pass, h), fd, if pass.GivenTo? then pass.to else p, pass.Reported?)
  {
    assert EV_READ in LISTENING && EV_ONESHOT in LISTENING && LISTENING + LISTENING == LISTENING;
    assert EPOLLONESHOT in Encode(LISTENING);
    match pass {
      case GivenTo(to) => HandOverMoves(s, fd, p, to, h);
      case _ =>
    }
  }

  function AllPassed(s: Shared, fd: nat, holder: nat, passes: seq<Pass>, h: nat): (n: Shared)
    requires s.Shape() && holder < |s.kernels|
    requires forall i | 0 <= i < |passes| && passes[i].GivenTo? :: passes[i].to < |s.kernels|
    ensures n.Shape() && |n.kernels| == |s.kernels|
    decreases |passes|
  {
    if passes == [] then s
    else
      var next := if passes[0].GivenTo? then passes[0].to else holder;
      AllPassed(Passed(s, fd, holder, passes[0], h), fd, next, passes[1..], h)
  }

  function LastHolder(holder: nat, passes: seq<Pass>): nat
    decreases |passes|
  {
    if passes == [] then holder else LastHolder(if passes[0].GivenTo? then passes[0].to else holder, passes[1..])
  }

  /** However often it is reported, enabled again and handed over: the listening socket is registered with its last
      holder alone, and armed there exactly when the last thing that happened to it was not a report. */
  lemma {:induction false} ListeningGoesOn(s: Shared, fd: nat, p: nat, reported: bool, passes: seq<Pass>, h: nat)
    requires s.Shape() && fd < MAX_FD && Listens(s, fd, p, reported)
    requires forall i | 0 <= i < |passes| && passes[i].GivenTo? :: passes[i].to < |s.kernels|
    ensures Listens(AllPassed(s, fd, p, passes, h), fd, LastHolder(p, passes),
                    if passes == [] then reported else passes[|passes| - 1].Reported?)
    decreases |passes|
  {
    if passes != [] {
      PassKeepsListening(s, fd, p, reported, passes[0], h);
      hide Passed, Listens;
      var next := if passes[0].GivenTo? then passes[0].to else p;
      ListeningGoesOn(Passed(s, fd, p, passes[0], h), fd, next, passes[0].Reported?, passes[1..], h);
    }
  }

  /** With a comparison at poller.hpp:56 and nothing more, enabling the reported socket again would do nothing. */
  lemma ComparisonLeavesItDisabled(s: Shared, fd: nat, p: nat, h: nat)
    requires s.Shape() && fd < MAX_FD && Listens(s, fd, p, true)
    ensures AddIfChanged(s.Seen(p), fd, LISTENING, h).kernel == s.kernels[p]
    ensures Armed(AddThrough(s, p, fd, LISTENING, h), p, fd)
  {
    PassKeepsListening(s, fd, p, true, Enabled, h);
  }

  // ---------- one descriptor among others ----------

  /** Neither marked nor registered. */
  ghost predicate Nowhere(s: Shared, fd: nat)
    requires s.Shape() && fd < MAX_FD
  {
    s.events[fd].mark == EV_NONE && SlotsAgree(s.events[fd]) && forall q | 0 <= q < |s.kernels| :: fd !in s.kernels[q]
  }

  /** Marked for reading, with its own callback, and registered with poller p alone, for its mark. */
  ghost predicate Only(s: Shared, fd: nat, p: nat)
    requires s.Shape() && fd < MAX_FD
  {
    && HeldBy(s, fd, p) && s.kernels[p][fd] == Encode(s.events[fd].mark) && SlotsAgree(s.events[fd])
    && EPOLLIN in s.kernels[p][fd] && s.events[fd].read == Handler(fd)
  }

  /** Nothing differs but `fd`, and the kernels of the other pollers not even there. */
  ghost predicate SameBut(s: Shared, n: Shared, fd: nat, p: nat)
    requires s.Shape() && n.Shape()
  {
    && |n.kernels| == |s.kernels|
    && (forall x: nat | x < MAX_FD && x != fd :: n.events[x] == s.events[x])
    && (forall q | 0 <= q < |s.kernels| && q != p :: n.kernels[q] == s.kernels[q])
    && (p < |s.kernels| ==> forall x: nat | x != fd ::
          (x in n.kernels[p] <==> x in s.kernels[p]) && (x in s.kernels[p] ==> n.kernels[p][x] == s.kernels[p][x]))
  }

  lemma OthersStay(s: Shared, n: Shared, fd: nat, p: nat, x: nat)
    requires s.Shape() && n.Shape() && SameBut(s, n, fd, p) && x < MAX_FD && x != fd
    ensures Nowhere(s, x) ==> Nowhere(n, x)
    ensures forall q: nat :: Only(s, x, q) ==> Only(n, x, q)
  {
    forall q: nat | Only(s, x, q) ensures Only(n, x, q) {
      forall r | 0 <= r < |n.kernels| ensures x in n.kernels[r] <==> r == q {
        assert x in s.kernels[r] <==> r == q;
      }
    }
  }

  /** An addition for reading places an unmarked descriptor with its poller, and touches no other. */
  lemma AddPlaces(s: Shared, p: nat, fd: nat, mark: Mark)
    requires s.Shape() && p < |s.kernels| && fd < MAX_FD && Nowhere(s, fd) && EV_READ in mark
    ensures var n := AddThrough(s, p, fd, mark, fd);
      Only(n, fd, p) && n.events[fd].mark == mark && SameBut(s, n, fd, p)
  {
    assert EV_NONE + mark == mark;
  }

  /** A deletion of everything takes it out, and touches no other; again, it changes nothing. */
  lemma DelTakesOut(s: Shared, p: nat, fd: nat)
    requires s.Shape() && p < |s.kernels| && fd < MAX_FD && (Only(s, fd, p) || Nowhere(s, fd))
    ensures var n := DelThrough(s, p, fd, ALL_EVENTS); Nowhere(n, fd) && SameBut(s, n, fd, p)
  {
    if Only(s, fd, p) {
      ReleaseFrees(s, fd, p);
    }
    forall b: Bit ensures b in ALL_EVENTS {
      match b {
        case EV_READ => case EV_WRITE => case EV_ONESHOT => case EV_ERROR =>
      }
    }
    assert s.events[fd].mark - ALL_EVENTS == {};
  }
}
