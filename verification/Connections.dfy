/** net/connection.cpp on values: one connection's two buffers, its registration, and the logs of everything that went
    in and out. */
module Connections {
  import opened Variants
  import opened Machine
  import opened Seqs
  import opened Buffers
  import opened Sockets
  import opened Framing
  import Pollers

  /** Undefined: the send path formed a pointer in front of an array, or wrote with nothing to write and failed the
      assert at tcp_socket.cpp:54; nothing is claimed from there on. */
  datatype Status = Open | Closed | Undefined

  /** The code a connection is plugged into: the splitter, and the responses a packet is answered with at once. */
  datatype Handlers = Handlers(split: Splitter, respond: seq<byte> -> seq<seq<byte>>) {
    ghost predicate Valid() {
      Bounded(split) && forall p :: p != [] ==> AllNonempty(respond(p))
    }
  }

  ghost predicate AllNonempty(rs: seq<seq<byte>>) {
    forall j | 0 <= j < |rs| :: rs[j] != []
  }

  /** `interest` is what m_io_event is registered for.  `received`, `packets`, `responses` and `wire` are logs; `clean`
      records that no step so far took one of the departing branches of the committed code. */
  datatype Conn = Conn(recv: Buf, send: Buf, interest: Pollers.Mark, status: Status, clean: bool,
                       received: seq<byte>, packets: seq<seq<byte>>, responses: seq<byte>, wire: seq<byte>)
  {
    ghost predicate Valid() {
      recv.Valid() && (status.Undefined? || send.Valid()) && (clean ==> !status.Undefined?)
    }

    /** Bytes on the wire, then bytes queued, are the responses in the order they were sent. */
    ghost predicate Conserved()
      requires Valid()
    {
      !status.Undefined? && wire + send.Readable() == responses
    }
  }

  const INIT_SIZE: nat := 1024

  /** A connection after start(). */
  const FRESH := Conn(Buf([], 0, INIT_SIZE), Buf([], 0, INIT_SIZE), {Pollers.EV_READ}, Open, true, [], [], [], [])

  /** Repaired: writing is watched while bytes are queued.  The committed code never asks for it. */
  function WatchWrites(v: Variant, c: Conn): (n: Conn)
    requires c.Valid()
    ensures n.Valid() && n == c.(interest := n.interest)
  {
    if v.AsWritten? || !c.status.Open? then c
    else c.(interest := if c.send.ReadableBytes() > 0 then c.interest + {Pollers.EV_WRITE}
                        else c.interest - {Pollers.EV_WRITE})
  }

  /** An open connection is watched for reading, report after report, and for writing, repaired, exactly while bytes are
      queued, as committed never. */
  predicate Watched(v: Variant, c: Conn) {
    && (v.AsWritten? ==> Pollers.EV_WRITE !in c.interest)
    && (c.status.Closed? ==> c.interest == Pollers.EV_NONE)
    && (c.status.Open? ==>
          && Pollers.EV_READ in c.interest && Pollers.EV_ONESHOT !in c.interest
          && (Pollers.EV_WRITE in c.interest <==> v.Repaired? && c.send.ReadableBytes() > 0))
  }

  // ---------- sending ----------

  /** The slow path of connection::send: bytes are waiting, so the new ones queue up behind them. */
  function SendQueued(v: Variant, c: Conn, d: Buf, call: WriteCall): (n: Conn)
    requires c.Valid() && d.Valid() && d.ReadableBytes() > 0 && !c.status.Undefined? && c.send.ReadableBytes() > 0
    ensures n.Valid()
  {
    var q := Appended(v, c.send, d.Readable());
    var (b, sent) := WriteOut(v, q, call);
    c.(send := b, wire := c.wire + sent, responses := c.responses + d.Readable(),
       status := if b.r < 0 then Undefined else c.status,
       clean := c.clean && !Corrupts(v, c.send, d.ReadableBytes()) && !MisreadsResult(v, call))
  }

  /** The fast path: nothing is waiting, so the bytes are written at once and only what is left is queued. */
  function SendDirect(v: Variant, c: Conn, d: Buf, call: WriteCall): (n: Conn)
    requires c.Valid() && d.Valid() && d.ReadableBytes() > 0 && !c.status.Undefined? && c.send.ReadableBytes() == 0
    ensures n.Valid()
  {
    var (left, sent) := WriteOut(v, d, call);
    if left.r < 0 then c.(status := Undefined, clean := false, responses := c.responses + d.Readable())
    else
      c.(send := if left.ReadableBytes() > 0 then Appended(v, c.send, left.Readable()) else c.send,
         wire := c.wire + sent, responses := c.responses + d.Readable(),
         clean := c.clean && !MisreadsResult(v, call))
  }

  function Send(v: Variant, c: Conn, d: Buf, call: WriteCall): (n: Conn)
    requires c.Valid() && d.Valid() && d.ReadableBytes() > 0
    ensures n.Valid() && (n.clean ==> c.clean) && (n.status == c.status || n.status.Undefined?)
    ensures n.recv == c.recv && n.received == c.received && n.packets == c.packets
    ensures Watched(v, c) ==> Watched(v, n)
  {
    if c.status.Undefined? then c
    else if c.send.ReadableBytes() > 0 then WatchWrites(v, SendQueued(v, c, d, call))
    else WatchWrites(v, SendDirect(v, c, d, call))
  }

  lemma SendQueuedConserves(v: Variant, c: Conn, d: Buf, call: WriteCall)
    requires c.Valid() && d.Valid() && d.ReadableBytes() > 0 && c.Conserved() && c.send.ReadableBytes() > 0
    ensures MisreadsResult(v, call) ==> !SendQueued(v, c, d, call).Conserved()
    ensures !MisreadsResult(v, call) && !Corrupts(v, c.send, d.ReadableBytes())
        ==> SendQueued(v, c, d, call).Conserved()
  {
    hide Reserved, Corrupts;
    var n := SendQueued(v, c, d, call);
    var q := Appended(v, c.send, d.Readable());
    var (b, sent) := WriteOut(v, q, call);
    if MisreadsResult(v, call) {
      assert n.status.Undefined? || |n.wire| + |n.send.Readable()| == |n.responses| + 1;
    } else if !Corrupts(v, c.send, d.ReadableBytes()) {
      Assoc(c.wire, sent, b.Readable());
      Assoc(c.wire, c.send.Readable(), d.Readable());
    }
  }

  lemma SendDirectConserves(v: Variant, c: Conn, d: Buf, call: WriteCall)
    requires c.Valid() && d.Valid() && d.ReadableBytes() > 0 && c.Conserved() && c.send.ReadableBytes() == 0
    ensures SendDirect(v, c, d, call).Conserved() <==> !MisreadsResult(v, call)
  {
    hide Reserved;
    var n := SendDirect(v, c, d, call);
    var (left, sent) := WriteOut(v, d, call);
    Nil(c.wire);
    assert c.send.Readable() == [];
    if MisreadsResult(v, call) {
      assert n.status.Undefined? || |n.wire| + |n.send.Readable()| == |n.responses| + 1;
    } else {
      Assoc(c.wire, sent, left.Readable());
      Nil(left.Readable());
    }
  }

  /** One send keeps the output law when it takes no departing branch; when the result is misread, the law is broken on
      the spot, whatever the bytes are. */
  lemma SendConserves(v: Variant, c: Conn, d: Buf, call: WriteCall)
    requires c.Valid() && d.Valid() && d.ReadableBytes() > 0 && c.Conserved()
    ensures MisreadsResult(v, call) ==> !Send(v, c, d, call).Conserved()
    ensures !MisreadsResult(v, call) && (c.send.ReadableBytes() > 0 ==> !Corrupts(v, c.send, d.ReadableBytes()))
        ==> Send(v, c, d, call).Conserved()
  {
    if c.send.ReadableBytes() > 0 {
      SendQueuedConserves(v, c, d, call);
    } else {
      SendDirectConserves(v, c, d, call);
    }
  }

  /** How many of the offered bytes the kernel takes. */
  function TakenOf(call: WriteCall, offered: nat): nat
    requires offered > 0
  {
    if call.result.Accepted? then Taken(call.result.count, offered) else 0
  }

  /** Every send offers the kernel all that waits, the old bytes and the new ones in order; what it takes is on the
      wire, and the rest waits on. */
  lemma SendOffersAll(v: Variant, c: Conn, d: Buf, call: WriteCall)
    requires c.Valid() && d.Valid() && d.ReadableBytes() > 0 && !c.status.Undefined? && !MisreadsResult(v, call)
    requires c.send.ReadableBytes() > 0 ==> !Corrupts(v, c.send, d.ReadableBytes())
    ensures var n, all := Send(v, c, d, call), c.send.Readable() + d.Readable();
      var k := TakenOf(call, |all|);
      && n.status == c.status
      && n.wire == c.wire + all[..k] && n.send.Readable() == all[k..] && n.responses == c.responses + d.Readable()
  {
    hide Reserved, Corrupts;
    Nil(c.wire);
    var all := c.send.Readable() + d.Readable();
    if c.send.ReadableBytes() > 0 {
      assert Appended(v, c.send, d.Readable()).Readable() == all;
    } else {
      assert c.send.Readable() == [] && all == d.Readable();
      Nil(d.Readable());
      var left := WriteOut(v, d, call).0;
      Nil(left.Readable());
    }
  }

  /** Responses wrapped as session.h:28-33 wraps them, sent one after the other; `calls` are the kernel's answers. */
  function SendAll(v: Variant, c: Conn, rs: seq<seq<byte>>, calls: nat -> WriteCall, i: nat): (n: Conn)
    requires c.Valid() && AllNonempty(rs)
    ensures n.Valid() && (n.clean ==> c.clean) && (n.status == c.status || n.status.Undefined?)
    ensures Watched(v, c) ==> Watched(v, n)
    ensures n.recv == c.recv && n.received == c.received && n.packets == c.packets
    decreases |rs|
  {
    if rs == [] then c
    else SendAll(v, Send(v, c, Buf(rs[0], 0, |rs[0]|), calls(i)), rs[1..], calls, i + 1)
  }

  // ---------- the handlers ----------

  function Dispatched(c: Conn, n: nat): (d: Conn)
    requires c.Valid() && n <= c.recv.ReadableBytes()
    ensures d.Valid()
  {
    c.(recv := c.recv.(r := c.recv.r + n), packets := c.packets + [c.recv.Readable()[..n]])
  }

  /** One turn of the while loop of connection.cpp:56-59. */
  function Turn(v: Variant, h: Handlers, c: Conn, calls: nat -> WriteCall, i: nat): (n: Conn)
    requires h.Valid() && c.Valid() && 0 < h.split(c.recv.Readable()) <= c.recv.ReadableBytes()
    ensures n.Valid() && (n.clean ==> c.clean) && n.received == c.received
    ensures Watched(v, c) ==> Watched(v, n)
    ensures n.status == c.status || n.status.Undefined?
    ensures n.recv.Readable() == c.recv.Readable()[h.split(c.recv.Readable())..]
  {
    var n := h.split(c.recv.Readable());
    Dispatched(SendAll(v, c, h.respond(c.recv.Readable()[..n]), calls, i), n)
  }

  function WritesOf(h: Handlers, c: Conn): nat
    requires h.Valid() && c.Valid()
  {
    var n := h.split(c.recv.Readable());
    assert h.split(c.recv.Readable()) <= c.recv.ReadableBytes();
    |h.respond(c.recv.Readable()[..n])|
  }

  /** The loop; `i` counts the write calls made so far. */
  function Drain(v: Variant, h: Handlers, c: Conn, calls: nat -> WriteCall, i: nat): (n: Conn)
    requires h.Valid() && c.Valid()
    ensures n.Valid() && (n.clean ==> c.clean) && n.received == c.received
    ensures Watched(v, c) ==> Watched(v, n)
    ensures n.status == c.status || n.status.Undefined?
    decreases c.recv.ReadableBytes()
  {
    var n := h.split(c.recv.Readable());
    if c.status.Undefined? || n == 0 then c
    else
      assert h.split(c.recv.Readable()) <= c.recv.ReadableBytes();
      Drain(v, h, Turn(v, h, c, calls, i), calls, i + WritesOf(h, c))
  }

  lemma SplitFits(h: Handlers, s: seq<byte>)
    requires h.Valid()
    ensures h.split(s) <= |s|
  {
  }

  lemma DrainStops(v: Variant, h: Handlers, c: Conn, calls: nat -> WriteCall, i: nat)
    requires h.Valid() && c.Valid() && (c.status.Undefined? || h.split(c.recv.Readable()) == 0)
    ensures Drain(v, h, c, calls, i) == c
  {
  }

  lemma DrainTurns(v: Variant, h: Handlers, c: Conn, calls: nat -> WriteCall, i: nat)
    requires h.Valid() && c.Valid() && !c.status.Undefined? && 0 < h.split(c.recv.Readable()) <= c.recv.ReadableBytes()
    ensures Drain(v, h, c, calls, i) == Drain(v, h, Turn(v, h, c, calls, i), calls, i + WritesOf(h, c))
  {
    hide Turn, WritesOf, Bounded, Handlers.Valid, Watched;
  }

  /** connection.cpp:49: a std::size_t is never negative, so the committed code closes on end of file only. */
  predicate Closes(v: Variant, result: ReadResult) {
    result.Eof? || (v.Repaired? && result.ReadFailed? && result.e.OTHER_ERROR?)
  }

  function AfterRead(v: Variant, c: Conn, call: ReadCall): (n: Conn)
    requires c.Valid()
    ensures n.Valid()
  {
    c.(recv := ReadInto(v, c.recv, call), received := c.received + DeliveredBytes(call),
       clean := c.clean && !ReadCorrupts(v, c.recv, call))
  }

  function HandleRead(v: Variant, h: Handlers, c: Conn, call: ReadCall, calls: nat -> WriteCall): (n: Conn)
    requires h.Valid() && c.Valid()
    ensures n.Valid() && (n.clean ==> c.clean)
    ensures Watched(v, c) ==> Watched(v, n)
  {
    var r := AfterRead(v, c, call);
    if Closes(v, call.result) then
      r.(interest := Pollers.EV_NONE, status := if r.status.Open? then Closed else r.status)
    else Drain(v, h, r, calls, 0)
  }

  /** handle_write.  As committed, a write that leaves bytes registers for reading, one report only.  Writing an empty
      queue fails the assert. */
  function HandleWrite(v: Variant, c: Conn, call: WriteCall): (n: Conn)
    requires c.Valid() && !c.status.Undefined?
    ensures n.Valid() && (n.clean ==> c.clean)
  {
    if c.send.ReadableBytes() == 0 then c.(status := Undefined, clean := false)
    else
      var (b, sent) := WriteOut(v, c.send, call);
      var n := c.(send := b, wire := c.wire + sent, status := if b.r < 0 then Undefined else c.status,
                  clean := c.clean && !MisreadsResult(v, call));
      if v.AsWritten? && b.ReadableBytes() > 0 then
        n.(interest := n.interest + {Pollers.EV_READ, Pollers.EV_ONESHOT})
      else WatchWrites(v, n)
  }

  /** A writeable event offers all queued bytes; what the kernel takes is on the wire, and the rest waits on. */
  lemma WriteOffersAll(v: Variant, c: Conn, call: WriteCall)
    requires c.Valid() && !c.status.Undefined? && c.send.ReadableBytes() > 0 && !MisreadsResult(v, call)
    ensures var n, all := HandleWrite(v, c, call), c.send.Readable();
      var k := TakenOf(call, |all|);
      n.status == c.status && n.wire == c.wire + all[..k] && n.send.Readable() == all[k..]
  {
    Nil(c.wire);
  }

  /** Which reads close an open connection: end of file, and, repaired, an error other than EAGAIN.  It is unregistered
      then, and nothing is dispatched, written or queued any more. */
  lemma ReadClosesExactlyWhen(v: Variant, h: Handlers, c: Conn, call: ReadCall, calls: nat -> WriteCall)
    requires h.Valid() && c.Valid()
    ensures c.status.Open? ==> ClosesExactlyAtEnd(v, c, HandleRead(v, h, c, call, calls), call.result)
  {
    hide Drain, Reserved;
  }

  predicate ClosesExactlyAtEnd(v: Variant, c: Conn, n: Conn, result: ReadResult) {
    && (n.status.Closed? <==> result.Eof? || (v.Repaired? && result == ReadFailed(OTHER_ERROR)))
    && (n.status.Closed? ==> n.interest == Pollers.EV_NONE && SameTraffic(c, n))
  }

  /** Nothing came in, and nothing went out or was queued to go. */
  predicate SameTraffic(c: Conn, n: Conn) {
    && n.received == c.received && n.packets == c.packets
    && n.responses == c.responses && n.wire == c.wire && n.send == c.send
  }

  // ---------- runs ----------

  /** A socket turns readable, a response arrives from elsewhere, a socket turns writeable. */
  datatype Event = OnRead(read: ReadCall, calls: nat -> WriteCall) | OnSend(d: Buf, call: WriteCall)
      | OnWritable(call: WriteCall)

  /** All responses are sent by the dispatcher itself. */
  ghost predicate NoPush(es: seq<Event>) {
    forall j | 0 <= j < |es| :: !es[j].OnSend?
  }

  /** What the kernel (the registration, and Fits) and the callers (the assert at tcp_socket.cpp:54) promise. */
  ghost predicate Legal(v: Variant, c: Conn, e: Event)
    requires c.Valid()
  {
    match e
    case OnRead(read, _) => Pollers.EV_READ in c.interest && Fits(v, c.recv, read)
    case OnSend(d, _) => d.Valid() && d.ReadableBytes() > 0
    case OnWritable(_) => Pollers.EV_WRITE in c.interest
  }

  /** The kernel disables a one-shot registration when it reports it. */
  function Reported(c: Conn): (n: Conn)
    requires c.Valid()
    ensures n.Valid() && n == c.(interest := n.interest)
  {
    if Pollers.EV_ONESHOT in c.interest then c.(interest := Pollers.EV_NONE) else c
  }

  /** Handlers run on an open connection only: closing unregisters and destroys it. */
  ghost function Step(v: Variant, h: Handlers, c: Conn, e: Event): (n: Conn)
    requires h.Valid() && c.Valid() && Legal(v, c, e)
    ensures n.Valid() && (n.clean ==> c.clean)
  {
    if !c.status.Open? then c
    else match e
      case OnRead(read, calls) => HandleRead(v, h, Reported(c), read, calls)
      case OnSend(d, call) => Send(v, c, d, call)
      case OnWritable(call) => HandleWrite(v, Reported(c), call)
  }

  ghost predicate LegalRun(v: Variant, h: Handlers, c: Conn, es: seq<Event>)
    requires h.Valid() && c.Valid()
    decreases |es|
  {
    es == [] || (Legal(v, c, es[0]) && LegalRun(v, h, Step(v, h, c, es[0]), es[1..]))
  }

  ghost function Run(v: Variant, h: Handlers, c: Conn, es: seq<Event>): (n: Conn)
    requires h.Valid() && c.Valid() && LegalRun(v, h, c, es)
    ensures n.Valid() && (n.clean ==> c.clean)
    decreases |es|
  {
    if es == [] then c else Run(v, h, Step(v, h, c, es[0]), es[1..])
  }

  // ---------- when a connection is closed ----------

  /** On the way, an open connection meets end of file, or, repaired, a read error other than EAGAIN. */
  ghost predicate MeetsEnd(v: Variant, h: Handlers, c: Conn, es: seq<Event>)
    requires h.Valid() && c.Valid() && LegalRun(v, h, c, es)
    decreases |es|
  {
    es != [] &&
    ( || (c.status.Open? && es[0].OnRead?
          && (es[0].read.result.Eof? || (v.Repaired? && es[0].read.result == ReadFailed(OTHER_ERROR))))
      || MeetsEnd(v, h, Step(v, h, c, es[0]), es[1..]))
  }

  lemma StepClosesExactlyWhen(v: Variant, h: Handlers, c: Conn, e: Event)
    requires h.Valid() && c.Valid() && Legal(v, c, e) && c.status.Open?
    ensures Step(v, h, c, e).status.Closed? <==>
      e.OnRead? && (e.read.result.Eof? || (v.Repaired? && e.read.result == ReadFailed(OTHER_ERROR)))
  {
    hide HandleRead, Send, WriteOut;
    if e.OnRead? {
      ReadClosesExactlyWhen(v, h, Reported(c), e.read, e.calls);
    }
  }

  lemma {:induction false} EndedStays(v: Variant, h: Handlers, c: Conn, es: seq<Event>)
    requires h.Valid() && c.Valid() && LegalRun(v, h, c, es) && !c.status.Open?
    ensures Run(v, h, c, es) == c && !MeetsEnd(v, h, c, es)
    decreases |es|
  {
    if es != [] {
      EndedStays(v, h, c, es[1..]);
    }
  }

  /** Over every run: an open connection is closed exactly when some read, made while it was open, met its end. */
  lemma {:induction false} RunClosesExactlyWhen(v: Variant, h: Handlers, c: Conn, es: seq<Event>)
    requires h.Valid() && c.Valid() && LegalRun(v, h, c, es) && c.status.Open?
    ensures Run(v, h, c, es).status.Closed? <==> MeetsEnd(v, h, c, es)
    decreases |es|
  {
    if es != [] {
      var n := Step(v, h, c, es[0]);
      StepClosesExactlyWhen(v, h, c, es[0]);
      hide Step, Legal;
      if n.status.Open? {
        RunClosesExactlyWhen(v, h, n, es[1..]);
      } else {
        EndedStays(v, h, n, es[1..]);
      }
    }
  }

  // ---------- what is watched ----------

  lemma StepKeepsWatched(v: Variant, h: Handlers, c: Conn, e: Event)
    requires h.Valid() && c.Valid() && Legal(v, c, e) && Watched(v, c)
    ensures Watched(v, Step(v, h, c, e))
    ensures c.status.Open? ==> Reported(c) == c
    ensures c.status.Open? && e.OnWritable? ==> v.Repaired? && c.send.ReadableBytes() > 0
  {
    hide Drain, SendQueued, SendDirect, ReadInto, ReadCorrupts, WriteOut;
  }

  /** Over every run, an open connection is watched for writing, repaired, exactly while bytes are queued; as committed
      never. */
  lemma {:induction false} RunKeepsWatched(v: Variant, h: Handlers, c: Conn, es: seq<Event>)
    requires h.Valid() && c.Valid() && LegalRun(v, h, c, es) && Watched(v, c)
    ensures Watched(v, Run(v, h, c, es))
    decreases |es|
  {
    if es != [] {
      StepKeepsWatched(v, h, c, es[0]);
      RunKeepsWatched(v, h, Step(v, h, c, es[0]), es[1..]);
    }
  }

  /** No run of the committed code ever sees a socket turn writeable. */
  lemma {:induction false} CommittedNeverWritable(h: Handlers, c: Conn, es: seq<Event>)
    requires h.Valid() && c.Valid() && LegalRun(AsWritten, h, c, es) && Watched(AsWritten, c)
    ensures forall j | 0 <= j < |es| :: !es[j].OnWritable?
    decreases |es|
  {
    if es != [] {
      StepKeepsWatched(AsWritten, h, c, es[0]);
      CommittedNeverWritable(h, Step(AsWritten, h, c, es[0]), es[1..]);
      assert forall j | 1 <= j < |es| :: es[j] == es[1..][j - 1];
    }
  }

  /** No response came in between, or else the queue and the wire are as they were. */
  ghost predicate SentOrSame(c: Conn, n: Conn) {
    |c.responses| < |n.responses| || (n.responses == c.responses && n.send == c.send && n.wire == c.wire)
  }

  lemma SendSends(v: Variant, c: Conn, d: Buf, call: WriteCall)
    requires c.Valid() && d.Valid() && d.ReadableBytes() > 0
    ensures SentOrSame(c, Send(v, c, d, call))
  {
    hide Appended, WriteOut, Corrupts;
  }

  lemma {:induction false} SendAllSends(v: Variant, c: Conn, rs: seq<seq<byte>>, calls: nat -> WriteCall, i: nat)
    requires c.Valid() && AllNonempty(rs)
    ensures SentOrSame(c, SendAll(v, c, rs, calls, i))
    decreases |rs|
  {
    if rs != [] {
      SendSends(v, c, Buf(rs[0], 0, |rs[0]|), calls(i));
      hide Send;
      SendAllSends(v, Send(v, c, Buf(rs[0], 0, |rs[0]|), calls(i)), rs[1..], calls, i + 1);
    }
  }

  lemma TurnSends(v: Variant, h: Handlers, c: Conn, calls: nat -> WriteCall, i: nat)
    requires h.Valid() && c.Valid() && 0 < h.split(c.recv.Readable()) <= c.recv.ReadableBytes()
    ensures SentOrSame(c, Turn(v, h, c, calls, i))
  {
    SendAllSends(v, c, h.respond(c.recv.Readable()[..h.split(c.recv.Readable())]), calls, i);
  }

  lemma {:induction false} DrainSends(v: Variant, h: Handlers, c: Conn, calls: nat -> WriteCall, i: nat, n: Conn)
    requires h.Valid() && c.Valid() && n == Drain(v, h, c, calls, i)
    ensures SentOrSame(c, n)
    decreases c.recv.ReadableBytes()
  {
    hide Drain, Turn, WritesOf, Bounded, Handlers.Valid, Watched;
    var k := h.split(c.recv.Readable());
    SplitFits(h, c.recv.Readable());
    if c.status.Undefined? || k == 0 {
      DrainStops(v, h, c, calls, i);
    } else {
      var t, j := Turn(v, h, c, calls, i), i + WritesOf(h, c);
      DrainTurns(v, h, c, calls, i);
      TurnSends(v, h, c, calls, i);
      DrainSends(v, h, t, calls, j, n);
    }
  }

  lemma CommittedStepSends(h: Handlers, c: Conn, e: Event)
    requires h.Valid() && c.Valid() && Legal(AsWritten, c, e) && !e.OnWritable?
    ensures SentOrSame(c, Step(AsWritten, h, c, e))
  {
    if c.status.Open? {
      hide Drain, Send;
      match e {
        case OnRead(read, calls) =>
          var r := AfterRead(AsWritten, Reported(c), read);
          DrainSends(AsWritten, h, r, calls, 0, Drain(AsWritten, h, r, calls, 0));
        case OnSend(d, call) => SendSends(AsWritten, c, d, call);
      }
    }
  }

  /** So queued bytes move only with a later response: a committed run without one leaves queue and wire as they
      were. */
  lemma {:induction false} CommittedQueueWaits(h: Handlers, c: Conn, es: seq<Event>)
    requires h.Valid() && c.Valid() && LegalRun(AsWritten, h, c, es) && Watched(AsWritten, c)
    ensures SentOrSame(c, Run(AsWritten, h, c, es))
    decreases |es|
  {
    if es != [] {
      CommittedNeverWritable(h, c, es);
      CommittedStepSends(h, c, es[0]);
      StepKeepsWatched(AsWritten, h, c, es[0]);
      hide Step, Legal, Watched;
      CommittedQueueWaits(h, Step(AsWritten, h, c, es[0]), es[1..]);
    }
  }

  /** Were it registered, a committed write that leaves bytes would make the registration one-shot: the next report
      disables the connection altogether. */
  lemma PartialWriteSilences(c: Conn, call: WriteCall)
    requires c.Valid() && !c.status.Undefined? && HandleWrite(AsWritten, c, call).send.ReadableBytes() > 0
    requires c.send.ReadableBytes() > 0
    ensures Reported(HandleWrite(AsWritten, c, call)).interest == Pollers.EV_NONE
  {
  }

  ghost predicate AllAcceptedWrites(es: seq<Event>) {
    forall j | 0 <= j < |es| :: es[j].OnWritable? && es[j].call.result.Accepted?
  }

  /** Repaired, queued bytes do leave: every writeable event whose write is taken moves at least one, and as long as any
      are left another such event is watched for. */
  lemma {:induction false} WritableEventsDrain(h: Handlers, c: Conn, es: seq<Event>)
    requires h.Valid() && c.Valid() && LegalRun(Repaired, h, c, es) && Watched(Repaired, c) && c.status.Open?
    requires AllAcceptedWrites(es)
    ensures var n := Run(Repaired, h, c, es);
      && n.status.Open? && n.send.ReadableBytes() + |es| <= c.send.ReadableBytes()
      && (n.send.ReadableBytes() > 0 <==> Pollers.EV_WRITE in n.interest)
    decreases |es|
  {
    if es != [] {
      var n := Step(Repaired, h, c, es[0]);
      StepKeepsWatched(Repaired, h, c, es[0]);
      assert n.status.Open? && n.send.ReadableBytes() + 1 <= c.send.ReadableBytes();
      assert forall j | 0 <= j < |es[1..]| :: es[1..][j] == es[j + 1];
      hide Step;
      WritableEventsDrain(h, n, es[1..]);
    }
  }

  // ---------- the repaired code never leaves the clean branches ----------

  lemma {:induction false} SendAllStaysClean(c: Conn, rs: seq<seq<byte>>, calls: nat -> WriteCall, i: nat)
    requires c.Valid() && c.clean && AllNonempty(rs)
    ensures SendAll(Repaired, c, rs, calls, i).clean
    decreases |rs|
  {
    if rs != [] {
      SendAllStaysClean(Send(Repaired, c, Buf(rs[0], 0, |rs[0]|), calls(i)), rs[1..], calls, i + 1);
    }
  }

  lemma TurnStaysClean(h: Handlers, c: Conn, calls: nat -> WriteCall, i: nat)
    requires h.Valid() && c.Valid() && c.clean && 0 < h.split(c.recv.Readable()) <= c.recv.ReadableBytes()
    ensures Turn(Repaired, h, c, calls, i).clean
  {
    SendAllStaysClean(c, h.respond(c.recv.Readable()[..h.split(c.recv.Readable())]), calls, i);
  }

  lemma {:induction false} DrainStaysClean(h: Handlers, c: Conn, calls: nat -> WriteCall, i: nat, n: Conn)
    requires h.Valid() && c.Valid() && c.clean && n == Drain(Repaired, h, c, calls, i)
    ensures n.clean
    decreases c.recv.ReadableBytes()
  {
    var k := h.split(c.recv.Readable());
    if k > 0 {
      assert h.split(c.recv.Readable()) <= c.recv.ReadableBytes();
      var t, j := Turn(Repaired, h, c, calls, i), i + WritesOf(h, c);
      assert n == Drain(Repaired, h, t, calls, j);
      TurnStaysClean(h, c, calls, i);
      DrainStaysClean(h, t, calls, j, n);
    }
  }

  lemma RepairedStepStaysClean(h: Handlers, c: Conn, e: Event)
    requires h.Valid() && c.Valid() && c.clean && Legal(Repaired, c, e) && Watched(Repaired, c)
    ensures Step(Repaired, h, c, e).clean
  {
    StepKeepsWatched(Repaired, h, c, e);
    if c.status.Open? && e.OnRead? && !Closes(Repaired, e.read.result) {
      hide Drain, ReadInto, ReadCorrupts;
      var r := AfterRead(Repaired, c, e.read);
      assert r.clean by { RepairedReadIsClean(c, e.read); }
      DrainStaysClean(h, r, e.calls, 0, Drain(Repaired, h, r, e.calls, 0));
    }
  }

  lemma RepairedReadIsClean(c: Conn, call: ReadCall)
    requires c.Valid()
    ensures !ReadCorrupts(Repaired, c.recv, call)
  {
  }

  lemma {:induction false} RepairedRunStaysClean(h: Handlers, c: Conn, es: seq<Event>)
    requires h.Valid() && c.Valid() && c.clean && LegalRun(Repaired, h, c, es) && Watched(Repaired, c)
    ensures Run(Repaired, h, c, es).clean
    decreases |es|
  {
    if es != [] {
      RepairedStepStaysClean(h, c, es[0]);
      StepKeepsWatched(Repaired, h, c, es[0]);
      hide Step, Legal, Watched;
      RepairedRunStaysClean(h, Step(Repaired, h, c, es[0]), es[1..]);
    }
  }

  // ---------- output ----------

  lemma {:induction false} SendAllConserves(v: Variant, c: Conn, rs: seq<seq<byte>>, calls: nat -> WriteCall, i: nat)
    requires c.Valid() && c.Conserved() && AllNonempty(rs)
    ensures var n := SendAll(v, c, rs, calls, i);
      n.clean ==> n.Conserved() && n.responses == c.responses + Flatten(rs)
    decreases |rs|
  {
    if rs != [] && SendAll(v, c, rs, calls, i).clean {
      var d := Buf(rs[0], 0, |rs[0]|);
      var m := Send(v, c, d, calls(i));
      SendConserves(v, c, d, calls(i));
      SendAllConserves(v, m, rs[1..], calls, i + 1);
      assert d.Readable() == rs[0];
      Assoc(c.responses, rs[0], Flatten(rs[1..]));
    }
  }

  /** Everything the packets are answered with at once. */
  function Replies(h: Handlers, packets: seq<seq<byte>>): seq<byte>
    decreases |packets|
  {
    if packets == [] then [] else Flatten(h.respond(packets[0])) + Replies(h, packets[1..])
  }

  lemma {:induction false} RepliesAppend(h: Handlers, a: seq<seq<byte>>, b: seq<seq<byte>>)
    ensures Replies(h, a + b) == Replies(h, a) + Replies(h, b)
    decreases |a|
  {
    if a == [] {
      assert a + b == b;
    } else {
      ConsAppend(a, b);
      RepliesAppend(h, a[1..], b);
      Assoc(Flatten(h.respond(a[0])), Replies(h, a[1..]), Replies(h, b));
    }
  }

  // ---------- one handler call ----------

  lemma TurnDispatches(v: Variant, h: Handlers, c: Conn, calls: nat -> WriteCall, i: nat)
    requires h.Valid() && c.Valid() && c.Conserved() && 0 < h.split(c.recv.Readable()) <= c.recv.ReadableBytes()
    ensures var n, p := Turn(v, h, c, calls, i), c.recv.Readable()[..h.split(c.recv.Readable())];
      n.clean ==> n.Conserved() && n.packets == c.packets + [p] && n.responses == c.responses + Flatten(h.respond(p))
  {
    SendAllConserves(v, c, h.respond(c.recv.Readable()[..h.split(c.recv.Readable())]), calls, i);
  }

  /** What a stretch of dispatching does: it cuts the unread bytes greedily, answers every packet, and conserves the
      output. */
  ghost predicate Dispatches(h: Handlers, c: Conn, n: Conn)
    requires h.Valid() && c.Valid() && n.Valid()
  {
    var cut := Greedy(h.split, c.recv.Readable());
    n.Conserved() && n.packets == c.packets + cut.packets && n.recv.Readable() == cut.rest
    && n.responses == c.responses + Replies(h, cut.packets)
  }

  lemma DispatchesNothing(h: Handlers, c: Conn)
    requires h.Valid() && c.Valid() && c.Conserved() && h.split(c.recv.Readable()) == 0
    ensures Dispatches(h, c, c)
  {
    Nil(c.packets);
    Nil(c.responses);
  }

  lemma DispatchesOneMore(v: Variant, h: Handlers, c: Conn, calls: nat -> WriteCall, i: nat, n: Conn)
    requires h.Valid() && c.Valid() && n.Valid() && c.Conserved()
        && 0 < h.split(c.recv.Readable()) <= c.recv.ReadableBytes()
    requires Turn(v, h, c, calls, i).clean && Dispatches(h, Turn(v, h, c, calls, i), n)
    ensures Dispatches(h, c, n)
  {
    var unread, t := c.recv.Readable(), Turn(v, h, c, calls, i);
    var k := h.split(unread);
    var p, tail := unread[..k], Greedy(h.split, unread[k..]);
    TurnDispatches(v, h, c, calls, i);
    assert Greedy(h.split, unread) == Cut([p] + tail.packets, tail.rest);
    hide Turn, Handlers.Valid, Bounded, Watched, Replies, Flatten, AllNonempty;
    JoinDispatches(h, c, t, n, p, tail.packets);
  }

  /** The dispatch loop dispatches in one go, however the kernel treats the writes. */
  lemma {:induction false} DrainDispatches(v: Variant, h: Handlers, c: Conn, calls: nat -> WriteCall, i: nat, n: Conn)
    requires h.Valid() && c.Valid() && c.Conserved()
    requires n == Drain(v, h, c, calls, i) && n.clean
    ensures Dispatches(h, c, n)
    decreases c.recv.ReadableBytes()
  {
    hide Drain, Turn, WritesOf, Dispatches, Greedy, Replies, Handlers.Valid, Bounded, Watched;
    SplitFits(h, c.recv.Readable());
    if h.split(c.recv.Readable()) == 0 {
      DrainStops(v, h, c, calls, i);
      DispatchesNothing(h, c);
    } else {
      DrainTurns(v, h, c, calls, i);
      TurnDispatches(v, h, c, calls, i);
      DrainDispatches(v, h, Turn(v, h, c, calls, i), calls, i + WritesOf(h, c), n);
      DispatchesOneMore(v, h, c, calls, i, n);
    }
  }

  lemma JoinDispatches(h: Handlers, c: Conn, t: Conn, n: Conn, p: seq<byte>, packets: seq<seq<byte>>)
    requires t.packets == c.packets + [p] && t.responses == c.responses + Flatten(h.respond(p))
    requires n.packets == t.packets + packets && n.responses == t.responses + Replies(h, packets)
    ensures n.packets == c.packets + ([p] + packets) && n.responses == c.responses + Replies(h, [p] + packets)
  {
    Assoc(c.packets, [p], packets);
    RepliesCons(h, p, packets);
    Assoc(c.responses, Flatten(h.respond(p)), Replies(h, packets));
  }

  lemma RepliesCons(h: Handlers, p: seq<byte>, packets: seq<seq<byte>>)
    ensures Replies(h, [p] + packets) == Flatten(h.respond(p)) + Replies(h, packets)
  {
    Cons(p, packets);
  }

  // ---------- the laws over whole runs ----------

  /** Output conservation and order, and no byte of input lost or made up. */
  ghost predicate Lossless(c: Conn)
    requires c.Valid()
  {
    c.Conserved() && Flatten(c.packets) + c.recv.Readable() == c.received
  }

  /** The packets dispatched so far are the greedy cut of everything received, and the buffer holds its rest. */
  ghost predicate Framed(h: Handlers, c: Conn)
    requires h.Valid() && c.Valid()
  {
    Cut(c.packets, c.recv.Readable()) == Greedy(h.split, c.received)
  }

  lemma ReadStep(v: Variant, h: Handlers, c: Conn, call: ReadCall, calls: nat -> WriteCall)
    requires h.Valid() && c.Valid() && c.status.Open? && Lossless(c)
    requires HandleRead(v, h, c, call, calls).clean
    ensures var n := HandleRead(v, h, c, call, calls);
      && Lossless(n)
      && (PrefixStable(h.split) && Framed(h, c) ==> Framed(h, n))
      && (c.responses == Replies(h, c.packets) ==> n.responses == Replies(h, n.packets))
  {
    var r := AfterRead(v, c, call);
    var n := HandleRead(v, h, c, call, calls);
    var bytes := DeliveredBytes(call);
    assert r.recv.Readable() == c.recv.Readable() + bytes by { ScatterReadExact(v, c.recv, call); }
    if Closes(v, call.result) {
      Nil(c.recv.Readable());
      Nil(c.received);
    } else {
      var cut := Greedy(h.split, r.recv.Readable());
      DrainDispatches(v, h, r, calls, 0, n);
      assert n.received == c.received + bytes && n.packets == c.packets + cut.packets;
      assert Flatten(n.packets) + n.recv.Readable() == n.received by {
        FlattenAppend(c.packets, cut.packets);
        GreedyConserves(h.split, r.recv.Readable());
        Assoc(Flatten(c.packets), c.recv.Readable(), bytes);
        Assoc(Flatten(c.packets), Flatten(cut.packets), cut.rest);
      }
      RepliesAppend(h, c.packets, cut.packets);
      if PrefixStable(h.split) {
        StableImpliesResumable(h.split, c.received, bytes);
      }
    }
  }

  lemma WriteStep(v: Variant, c: Conn, call: WriteCall)
    requires c.Valid() && Lossless(c) && HandleWrite(v, c, call).clean
    ensures var n := HandleWrite(v, c, call);
      Lossless(n) && n.recv == c.recv && n.packets == c.packets && n.responses == c.responses
          && n.received == c.received
  {
    var (b, sent) := WriteOut(v, c.send, call);
    Assoc(c.wire, sent, b.Readable());
  }

  lemma StepKeepsLaws(v: Variant, h: Handlers, c: Conn, e: Event)
    requires h.Valid() && c.Valid() && Legal(v, c, e) && Lossless(c) && Step(v, h, c, e).clean
    ensures var n := Step(v, h, c, e);
      && Lossless(n)
      && (PrefixStable(h.split) && Framed(h, c) ==> Framed(h, n))
      && (!e.OnSend? && c.responses == Replies(h, c.packets) ==> n.responses == Replies(h, n.packets))
  {
    if c.status.Open? {
      var r := Reported(c);
      hide HandleRead, HandleWrite, Send, Greedy, Replies, PrefixStable, Handlers.Valid;
      match e {
        case OnRead(read, calls) => ReadStep(v, h, r, read, calls);
        case OnSend(d, call) => SendStep(v, c, d, call);
        case OnWritable(call) => WriteStep(v, r, call);
      }
    }
  }

  lemma SendStep(v: Variant, c: Conn, d: Buf, call: WriteCall)
    requires c.Valid() && d.Valid() && d.ReadableBytes() > 0 && Lossless(c) && Send(v, c, d, call).clean
    ensures Lossless(Send(v, c, d, call))
  {
    SendConserves(v, c, d, call);
  }

  /** Over any run that stays on the clean branches: output is conserved and in order, no input is lost, and with a
      prefix-stable splitter the packets are the greedy cut of all bytes received. */
  lemma {:induction false} RunKeepsLaws(v: Variant, h: Handlers, c: Conn, es: seq<Event>)
    requires h.Valid() && c.Valid() && LegalRun(v, h, c, es) && Lossless(c) && Run(v, h, c, es).clean
    ensures Lossless(Run(v, h, c, es))
    ensures PrefixStable(h.split) && Framed(h, c) ==> Framed(h, Run(v, h, c, es))
    ensures NoPush(es) && c.responses == Replies(h, c.packets)
        ==> Run(v, h, c, es).responses == Replies(h, Run(v, h, c, es).packets)
    decreases |es|
  {
    if es != [] {
      StepKeepsLaws(v, h, c, es[0]);
      RunKeepsLaws(v, h, Step(v, h, c, es[0]), es[1..]);
    }
  }
}
