/** The connection from end to end: bytes in, packets, responses, bytes out. */
module Pipeline {
  import opened Variants
  import opened Machine
  import opened Seqs
  import opened Buffers
  import opened Sockets
  import opened Framing
  import opened Connections
  import Pollers

  /** A run whose every step stays off the departing branches; all legal runs of the repaired code are of this kind. */
  ghost predicate CleanRun(v: Variant, h: Handlers, es: seq<Event>) {
    h.Valid() && FRESH.Valid() && LegalRun(v, h, FRESH, es) && Run(v, h, FRESH, es).clean
  }

  lemma RepairedRunsAreClean(h: Handlers, es: seq<Event>)
    requires h.Valid() && LegalRun(Repaired, h, FRESH, es)
    ensures CleanRun(Repaired, h, es)
  {
    RepairedRunStaysClean(h, FRESH, es);
  }

  lemma CleanRunLaws(v: Variant, h: Handlers, es: seq<Event>)
    requires CleanRun(v, h, es)
    ensures Lossless(Run(v, h, FRESH, es))
    ensures PrefixStable(h.split) ==> Framed(h, Run(v, h, FRESH, es))
    ensures NoPush(es) ==> Run(v, h, FRESH, es).responses == Replies(h, Run(v, h, FRESH, es).packets)
  {
    var nothing: seq<byte> := [];
    assert h.split(nothing) <= |nothing|;
    assert Lossless(FRESH) && Framed(h, FRESH);
    RunKeepsLaws(v, h, FRESH, es);
  }

  /** With a prefix-stable splitter, what a connection has written or queued is a function of the bytes it received
      alone: the replies to the greedy cut of the stream.  Chunking, spills, short writes, interrupts and blocked
      writes leave no trace. */
  lemma OutputIsFunctionOfInput(v: Variant, h: Handlers, es: seq<Event>)
    requires CleanRun(v, h, es) && PrefixStable(h.split) && NoPush(es)
    ensures var n := Run(v, h, FRESH, es);
      var cut := Greedy(h.split, n.received);
      !n.status.Undefined? && n.packets == cut.packets && n.recv.Readable() == cut.rest
      && n.wire + n.send.Readable() == Replies(h, cut.packets)
  {
    CleanRunLaws(v, h, es);
  }

  /** Two runs that received the same bytes, cut differently and under different kernels, cannot be told apart by
      the packets they dispatched, the bytes they hold back, or the bytes they owe and paid. */
  lemma ChunkingIsInvisible(v: Variant, h: Handlers, es: seq<Event>, fs: seq<Event>)
    requires CleanRun(v, h, es) && CleanRun(v, h, fs) && PrefixStable(h.split) && NoPush(es) && NoPush(fs)
    requires Run(v, h, FRESH, es).received == Run(v, h, FRESH, fs).received
    ensures var m, n := Run(v, h, FRESH, es), Run(v, h, FRESH, fs);
      !m.status.Undefined? && !n.status.Undefined? && m.packets == n.packets && m.recv.Readable() == n.recv.Readable()
      && m.wire + m.send.Readable() == n.wire + n.send.Readable()
  {
    OutputIsFunctionOfInput(v, h, es);
    OutputIsFunctionOfInput(v, h, fs);
  }

  /** So in every legal run of the repaired code. */
  lemma RepairedOutputIsFunctionOfInput(h: Handlers, es: seq<Event>)
    requires h.Valid() && PrefixStable(h.split) && NoPush(es) && LegalRun(Repaired, h, FRESH, es)
    ensures var n := Run(Repaired, h, FRESH, es);
      var cut := Greedy(h.split, n.received);
      !n.status.Undefined? && n.packets == cut.packets && n.recv.Readable() == cut.rest
      && n.wire + n.send.Readable() == Replies(h, cut.packets)
  {
    RepairedRunsAreClean(h, es);
    OutputIsFunctionOfInput(Repaired, h, es);
  }

  // ---------- the echo server of samples/echo.cpp ----------

  const ECHO := Handlers(EchoSplit, (p: seq<byte>) => [p])

  lemma EchoIsValid()
    ensures ECHO.Valid()
  {
    forall p: seq<byte> | p != [] ensures AllNonempty(ECHO.respond(p)) {
      assert ECHO.respond(p) == [p];
    }
  }

  lemma {:induction false} EchoReplies(packets: seq<seq<byte>>)
    ensures Replies(ECHO, packets) == Flatten(packets)
    decreases |packets|
  {
    if packets != [] {
      EchoReplies(packets[1..]);
      assert Flatten([packets[0]]) == packets[0] by { Nil(packets[0]); }
    }
  }

  /** Echo leaves nothing unread, although its splitter is not prefix-stable. */
  ghost predicate Drained(c: Conn)
    requires c.Valid()
  {
    c.clean && c.status.Open? ==> c.recv.ReadableBytes() == 0
  }

  lemma EchoDrainEmpties(v: Variant, c: Conn, calls: nat -> WriteCall, i: nat, n: Conn)
    requires ECHO.Valid() && c.Valid() && c.Conserved() && n == Drain(v, ECHO, c, calls, i) && n.clean
    ensures n.recv.ReadableBytes() == 0
  {
    DrainDispatches(v, ECHO, c, calls, i, n);
    EchoGreedy(c.recv.Readable());
  }

  lemma EchoStepDrains(v: Variant, c: Conn, e: Event)
    requires ECHO.Valid() && c.Valid() && Legal(v, c, e) && Lossless(c) && Drained(c)
    ensures Drained(Step(v, ECHO, c, e))
  {
    var n := Step(v, ECHO, c, e);
    if n.clean && c.status.Open? && e.OnRead? && !Closes(v, e.read.result) {
      var r := Reported(c);
      ScatterReadExact(v, r.recv, e.read);
      hide Drain, ReadInto, ReadCorrupts;
      EchoDrainEmpties(v, AfterRead(v, r, e.read), e.calls, 0, n);
    }
  }

  lemma {:induction false} EchoRunDrains(v: Variant, c: Conn, es: seq<Event>)
    requires ECHO.Valid() && c.Valid() && LegalRun(v, ECHO, c, es) && Lossless(c) && Drained(c)
    ensures Drained(Run(v, ECHO, c, es))
    decreases |es|
  {
    if es != [] && Run(v, ECHO, c, es).clean {
      EchoStepDrains(v, c, es[0]);
      StepKeepsLaws(v, ECHO, c, es[0]);
      hide Step, Legal, Lossless;
      EchoRunDrains(v, Step(v, ECHO, c, es[0]), es[1..]);
    }
  }

  /** Echo end to end, after every handler of every clean run: bytes on the wire followed by queued bytes are exactly
      the bytes received, as long as the connection is open. */
  lemma EchoEndToEnd(v: Variant, es: seq<Event>)
    requires CleanRun(v, ECHO, es) && NoPush(es)
    ensures var n := Run(v, ECHO, FRESH, es);
      !n.status.Undefined? && n.wire + n.send.Readable() == Flatten(n.packets)
      && (n.status.Open? ==> n.wire + n.send.Readable() == n.received)
  {
    var n := Run(v, ECHO, FRESH, es);
    assert EchoSplit([]) == 0;
    CleanRunLaws(v, ECHO, es);
    EchoReplies(n.packets);
    EchoRunDrains(v, FRESH, es);
    if n.status.Open? {
      assert n.recv.Readable() == [];
      Nil(Flatten(n.packets));
    }
  }

  /** So in every legal run of the repaired echo server. */
  lemma RepairedEchoEndToEnd(es: seq<Event>)
    requires ECHO.Valid() && NoPush(es) && LegalRun(Repaired, ECHO, FRESH, es)
    ensures var n := Run(Repaired, ECHO, FRESH, es);
      !n.status.Undefined? && n.wire + n.send.Readable() == Flatten(n.packets)
      && (n.status.Open? ==> n.wire + n.send.Readable() == n.received)
  {
    RepairedRunsAreClean(ECHO, es);
    EchoEndToEnd(Repaired, es);
  }

  // ---------- what the committed code does instead ----------

  /** A read of the committed echo server: the one packet is everything unread, and its answer is sent at once. */
  lemma EchoStep(c: Conn, bytes: seq<byte>, calls: nat -> WriteCall, m: Conn)
    requires ECHO.Valid() && c.Valid() && Reading(c) && 1 <= |bytes| <= SPILL_SIZE
    requires var r := AfterRead(AsWritten, c, ReadCall(0, Delivered(bytes)));
      r.recv.Readable() == bytes && m == Send(AsWritten, r, Buf(bytes, 0, |bytes|), calls(0)) && Reading(m)
    ensures var e := OnRead(ReadCall(0, Delivered(bytes)), calls);
      Legal(AsWritten, c, e) && Step(AsWritten, ECHO, c, e) == Dispatched(m, |bytes|)
  {
    hide Send, ReadInto, ReadCorrupts, Handlers.Valid;
    var r := AfterRead(AsWritten, c, ReadCall(0, Delivered(bytes)));
    var d := Dispatched(m, |bytes|);
    assert bytes[..|bytes|] == bytes;
    assert ECHO.split(r.recv.Readable()) == |bytes| && ECHO.respond(bytes) == [bytes];
    EchoSendAll(r, bytes, calls);
    assert Turn(AsWritten, ECHO, r, calls, 0) == d;
    assert d.recv.Readable() == [];
    DrainTurns(AsWritten, ECHO, r, calls, 0);
    DrainStops(AsWritten, ECHO, d, calls, WritesOf(ECHO, r));
  }

  lemma EchoSendAll(c: Conn, bytes: seq<byte>, calls: nat -> WriteCall)
    requires c.Valid() && bytes != []
    ensures SendAll(AsWritten, c, [bytes], calls, 0) == Send(AsWritten, c, Buf(bytes, 0, |bytes|), calls(0))
  {
    hide Send;
    assert [bytes][1..] == [];
  }

  const TAKE_ONE: nat -> WriteCall := (i: nat) => WriteCall(0, Accepted(1))

  const BLOCKED: nat -> WriteCall := (i: nat) => WriteCall(0, WriteFailed(EAGAIN))

  /** The server has paid 1 2 and owes 2 3 4 5. */
  predicate TwoTwice(n: Conn)
    requires n.Valid()
  {
    n.status.Open? && n.received == [1, 2, 3, 4, 5] && n.wire == [1, 2] && n.send.Readable() == [2, 3, 4, 5]
  }

  /** A client sends 1 2 3, then 4, then 5; the kernel takes a byte of the first two answers and none of the third.  The
      committed server then has paid or owes 1 2 2 3 4 5. */
  lemma CommittedEchoRepeatsByte() returns (es: seq<Event>, n: Conn)
    ensures ECHO.Valid()
    ensures es == [OnRead(ReadCall(0, Delivered([1, 2, 3])), TAKE_ONE), OnRead(ReadCall(0, Delivered([4])), TAKE_ONE),
                   OnRead(ReadCall(0, Delivered([5])), BLOCKED)]
    ensures LegalRun(AsWritten, ECHO, FRESH, es) && n == Run(AsWritten, ECHO, FRESH, es)
    ensures TwoTwice(n)
  {
    EchoIsValid();
    var c1, c2, c3 := EchoThree();
    hide Step, Legal, LegalRun, Run, Conn.Valid, Handlers.Valid, TwoTwice;
    es := RunThree(ECHO, FRESH, c1, c2, c3, OnRead(ReadCall(0, Delivered([1, 2, 3])), TAKE_ONE),
                   OnRead(ReadCall(0, Delivered([4])), TAKE_ONE), OnRead(ReadCall(0, Delivered([5])), BLOCKED));
    n := c3;
  }

  lemma EchoThree() returns (c1: Conn, c2: Conn, c3: Conn)
    requires ECHO.Valid()
    ensures c1.Valid() && c2.Valid() && c3.Valid()
    ensures var e := OnRead(ReadCall(0, Delivered([1, 2, 3])), TAKE_ONE);
      Legal(AsWritten, FRESH, e) && c1 == Step(AsWritten, ECHO, FRESH, e)
    ensures var e := OnRead(ReadCall(0, Delivered([4])), TAKE_ONE);
      Legal(AsWritten, c1, e) && c2 == Step(AsWritten, ECHO, c1, e)
    ensures var e := OnRead(ReadCall(0, Delivered([5])), BLOCKED);
      Legal(AsWritten, c2, e) && c3 == Step(AsWritten, ECHO, c2, e)
    ensures TwoTwice(c3)
  {
    c1 := EchoFirst();
    c2 := EchoSecond(c1);
    c3 := EchoThird(c2);
  }

  /** The two buffers and two logs that matter, between the reads. */
  predicate At(c: Conn, recv: Buf, send: Buf, received: seq<byte>, wire: seq<byte>) {
    Reading(c) && c.recv == recv && c.send == send && c.received == received && c.wire == wire
  }

  /** The receive buffer through the three reads: a reallocation and two compactions, all with nothing unread. */
  lemma EchoReads()
    ensures ReadInto(AsWritten, Buf([], 0, 1024), ReadCall(0, Delivered([1, 2, 3]))) == Buf([1, 2, 3], 0, 1500)
    ensures ReadInto(AsWritten, Buf([1, 2, 3], 3, 1500), ReadCall(0, Delivered([4]))) == Buf([4], 0, 1500)
    ensures ReadInto(AsWritten, Buf([4], 1, 1500), ReadCall(0, Delivered([5]))) == Buf([5], 0, 1500)
    ensures Buf([1, 2, 3], 0, 1500).Readable() == [1, 2, 3]
    ensures Buf([4], 0, 1500).Readable() == [4] && Buf([5], 0, 1500).Readable() == [5]
  {
  }

  /** The send buffer: what is left of the first answer, and the two behind it. */
  lemma EchoQueue()
    ensures Appended(AsWritten, Buf([], 0, 1024), [2, 3]) == Buf([2, 3], 0, 1024)
    ensures Appended(AsWritten, Buf([2, 3], 0, 1024), [4]) == Buf([2, 3, 4], 0, 1024)
    ensures Appended(AsWritten, Buf([2, 3, 4], 1, 1024), [5]) == Buf([2, 3, 4, 5], 1, 1024)
    ensures Buf([1, 2, 3], 0, 3).Readable() == [1, 2, 3] && Buf([1, 2, 3], 1, 3).Readable() == [2, 3]
    ensures Buf([4], 0, 1).Readable() == [4] && Buf([5], 0, 1).Readable() == [5]
    ensures Buf([2, 3, 4, 5], 0, 1024).Readable() == [2, 3, 4, 5]
  {
  }

  lemma OneTaken(b: Buf)
    requires b.Valid() && b.ReadableBytes() > 0
    ensures WriteOut(AsWritten, b, TAKE_ONE(0)) == (b.(r := b.r + 1), [b.mem[b.r]])
  {
    assert Taken(1, b.ReadableBytes()) == 1;
    assert b.Readable()[..1] == [b.mem[b.r]];
  }

  lemma EchoFirst() returns (n: Conn)
    requires ECHO.Valid()
    ensures var e := OnRead(ReadCall(0, Delivered([1, 2, 3])), TAKE_ONE);
      Legal(AsWritten, FRESH, e) && n == Step(AsWritten, ECHO, FRESH, e)
    ensures n.Valid() && At(n, Buf([1, 2, 3], 3, 1500), Buf([2, 3], 0, 1024), [1, 2, 3], [1])
  {
    hide ReadInto, ReadCorrupts, Appended, WriteOut, Handlers.Valid, Legal, Step;
    EchoReads();
    EchoQueue();
    OneTaken(Buf([1, 2, 3], 0, 3));
    var bytes: seq<byte> := [1, 2, 3];
    var r := AfterRead(AsWritten, FRESH, ReadCall(0, Delivered(bytes)));
    Nil(bytes);
    var m := Send(AsWritten, r, Buf(bytes, 0, 3), TAKE_ONE(0));
    EchoStep(FRESH, bytes, TAKE_ONE, m);
    n := Dispatched(m, 3);
  }

  lemma EchoSecond(c: Conn) returns (n: Conn)
    requires ECHO.Valid() && c.Valid() && At(c, Buf([1, 2, 3], 3, 1500), Buf([2, 3], 0, 1024), [1, 2, 3], [1])
    ensures var e := OnRead(ReadCall(0, Delivered([4])), TAKE_ONE);
      Legal(AsWritten, c, e) && n == Step(AsWritten, ECHO, c, e)
    ensures n.Valid() && At(n, Buf([4], 1, 1500), Buf([2, 3, 4], 1, 1024), [1, 2, 3, 4], [1, 2])
  {
    hide ReadInto, ReadCorrupts, Appended, WriteOut, Handlers.Valid, Legal, Step;
    EchoReads();
    EchoQueue();
    OneTaken(Buf([2, 3, 4], 0, 1024));
    var bytes: seq<byte> := [4];
    var r := AfterRead(AsWritten, c, ReadCall(0, Delivered(bytes)));
    var m := Send(AsWritten, r, Buf(bytes, 0, 1), TAKE_ONE(0));
    EchoStep(c, bytes, TAKE_ONE, m);
    n := Dispatched(m, 1);
  }

  lemma NoneTaken(b: Buf)
    requires b.Valid() && b.ReadableBytes() > 0
    ensures WriteOut(AsWritten, b, BLOCKED(0)) == (b.(r := b.r - 1), [])
  {
  }

  lemma EchoThird(c: Conn) returns (n: Conn)
    requires ECHO.Valid() && c.Valid() && At(c, Buf([4], 1, 1500), Buf([2, 3, 4], 1, 1024), [1, 2, 3, 4], [1, 2])
    ensures var e := OnRead(ReadCall(0, Delivered([5])), BLOCKED);
      Legal(AsWritten, c, e) && n == Step(AsWritten, ECHO, c, e)
    ensures n.Valid() && TwoTwice(n)
  {
    hide ReadInto, ReadCorrupts, Appended, WriteOut, Handlers.Valid, Legal, Step;
    EchoReads();
    EchoQueue();
    Nil(c.wire);
    NoneTaken(Buf([2, 3, 4, 5], 1, 1024));
    var bytes: seq<byte> := [5];
    var r := AfterRead(AsWritten, c, ReadCall(0, Delivered(bytes)));
    var m := Send(AsWritten, r, Buf(bytes, 0, 1), BLOCKED(0));
    EchoStep(c, bytes, BLOCKED, m);
    n := Dispatched(m, 1);
  }

  /** Two-byte packets: a prefix-stable splitter. */
  function Pairs(s: seq<byte>): nat {
    if |s| < 2 then 0 else 2
  }

  const MUTE := Handlers(Pairs, (p: seq<byte>) => [])

  const ANSWERS: nat -> WriteCall := (i: nat) => WriteCall(0, Accepted(1))

  function Arrival(bytes: seq<byte>): Event {
    OnRead(ReadCall(0, Delivered(bytes)), ANSWERS)
  }

  /** Open, and watched for reading alone. */
  predicate Reading(c: Conn) {
    c.status.Open? && c.interest == {Pollers.EV_READ}
  }

  /** A read that leaves two or three bytes unread, in the buffer `a`, dispatches one pair. */
  lemma OnePair(v: Variant, c: Conn, bytes: seq<byte>, a: Buf, p: seq<byte>)
    requires MUTE.Valid() && c.Valid() && Reading(c) && bytes != [] && |bytes| <= 3
    requires a == ReadInto(v, c.recv, Arrival(bytes).read) && 2 <= a.ReadableBytes() <= 3 && p == a.mem[a.r..a.r + 2]
    ensures Legal(v, c, Arrival(bytes))
    ensures var n := Step(v, MUTE, c, Arrival(bytes));
      Reading(n) && n.recv == a.(r := a.r + 2) && n.packets == c.packets + [p] && n.received == c.received + bytes
  {
    var r := AfterRead(v, c, Arrival(bytes).read);
    var d := Dispatched(r, 2);
    assert MUTE.respond(r.recv.Readable()[..2]) == [] && WritesOf(MUTE, r) == 0;
    assert Turn(v, MUTE, r, ANSWERS, 0) == d;
    assert Pairs(d.recv.Readable()) == 0;
    assert Drain(v, MUTE, d, ANSWERS, 0) == d;
    assert a.Readable()[..2] == a.mem[a.r..a.r + 2];
  }

  lemma MuteIsValid()
    ensures MUTE.Valid() && PrefixStable(MUTE.split)
  {
    assert forall s: seq<byte> :: MUTE.split(s) == Pairs(s) <= |s|;
    assert forall s: seq<byte>, t: seq<byte> {:trigger MUTE.split(s + t)} ::
        MUTE.split(s) > 0 ==> MUTE.split(s + t) == 2;
    forall p: seq<byte> | p != [] ensures AllNonempty(MUTE.respond(p)) {
      assert MUTE.respond(p) == [];
    }
  }

  /** The last pair, 3 8, does not occur in the stream. */
  predicate WrongPair(n: Conn) {
    n.received == [1, 2, 3, 4, 5, 6, 7, 8] && n.packets == [[1, 2], [3, 4], [5, 6], [3, 8]]
  }

  /** Reads of 3, 2, 2 and 1 bytes make the committed code dispatch a pair that was never sent to it. */
  lemma CommittedFramingFails() returns (es: seq<Event>, n: Conn)
    ensures MUTE.Valid() && PrefixStable(MUTE.split)
    ensures es == [Arrival([1, 2, 3]), Arrival([4, 5]), Arrival([6, 7]), Arrival([8])]
    ensures LegalRun(AsWritten, MUTE, FRESH, es) && n == Run(AsWritten, MUTE, FRESH, es)
    ensures WrongPair(n)
  {
    MuteIsValid();
    var c1, c2, c3, c4 := FourSteps();
    hide Step, Legal, LegalRun, Run, Conn.Valid, Handlers.Valid, WrongPair;
    es := RunFour(MUTE, FRESH, c1, c2, c3, c4, Arrival([1, 2, 3]), Arrival([4, 5]), Arrival([6, 7]), Arrival([8]));
    n := c4;
  }

  lemma FourSteps() returns (c1: Conn, c2: Conn, c3: Conn, c4: Conn)
    requires MUTE.Valid()
    ensures c1.Valid() && c2.Valid() && c3.Valid() && c4.Valid()
    ensures Legal(AsWritten, FRESH, Arrival([1, 2, 3])) && c1 == Step(AsWritten, MUTE, FRESH, Arrival([1, 2, 3]))
    ensures Legal(AsWritten, c1, Arrival([4, 5])) && c2 == Step(AsWritten, MUTE, c1, Arrival([4, 5]))
    ensures Legal(AsWritten, c2, Arrival([6, 7])) && c3 == Step(AsWritten, MUTE, c2, Arrival([6, 7]))
    ensures Legal(AsWritten, c3, Arrival([8])) && c4 == Step(AsWritten, MUTE, c3, Arrival([8]))
    ensures WrongPair(c4)
  {
    hide ReadInto, Step, Legal;
    FourReads();
    FourLogs();
    OnePair(AsWritten, FRESH, [1, 2, 3], Buf([1, 2, 3], 0, 1500), [1, 2]);
    c1 := Step(AsWritten, MUTE, FRESH, Arrival([1, 2, 3]));
    OnePair(AsWritten, c1, [4, 5], Buf([3, 4, 5], 0, 1503), [3, 4]);
    c2 := Step(AsWritten, MUTE, c1, Arrival([4, 5]));
    OnePair(AsWritten, c2, [6, 7], Buf([3, 4, 5, 6, 7], 2, 1503), [5, 6]);
    c3 := Step(AsWritten, MUTE, c2, Arrival([6, 7]));
    OnePair(AsWritten, c3, [8], Buf([3, 8], 0, 1503), [3, 8]);
    c4 := Step(AsWritten, MUTE, c3, Arrival([8]));
  }

  lemma FourLogs()
    ensures (([] + [1 as byte, 2, 3]) + [4, 5]) + [6, 7] + [8] == [1, 2, 3, 4, 5, 6, 7, 8]
    ensures (([] + [[1 as byte, 2]]) + [[3, 4]]) + [[5, 6]] + [[3, 8]] == [[1, 2], [3, 4], [5, 6], [3, 8]]
    ensures [1 as byte, 2, 3][0..2] == [1, 2] && [3 as byte, 4, 5][0..2] == [3, 4]
    ensures [3 as byte, 4, 5, 6, 7][2..4] == [5, 6] && [3 as byte, 8][0..2] == [3, 8]
  {
  }

  /** The buffer through the four reads: two reallocations, a plain read, and a compaction over an unread byte. */
  lemma FourReads()
    ensures ReadInto(AsWritten, Buf([], 0, 1024), Arrival([1, 2, 3]).read) == Buf([1, 2, 3], 0, 1500)
    ensures ReadInto(AsWritten, Buf([1, 2, 3], 2, 1500), Arrival([4, 5]).read) == Buf([3, 4, 5], 0, 1503)
    ensures ReadInto(AsWritten, Buf([3, 4, 5], 2, 1503), Arrival([6, 7]).read) == Buf([3, 4, 5, 6, 7], 2, 1503)
    ensures ReadInto(AsWritten, Buf([3, 4, 5, 6, 7], 4, 1503), Arrival([8]).read) == Buf([3, 8], 0, 1503)
  {
  }

  /** One event in front of a run. */
  lemma RunCons(h: Handlers, c: Conn, e: Event, m: Conn, es: seq<Event>, n: Conn)
    requires h.Valid() && c.Valid() && m.Valid() && Legal(AsWritten, c, e) && m == Step(AsWritten, h, c, e)
    requires LegalRun(AsWritten, h, m, es) && n == Run(AsWritten, h, m, es)
    ensures LegalRun(AsWritten, h, c, [e] + es) && Run(AsWritten, h, c, [e] + es) == n
  {
    hide Step, Legal;
    Cons(e, es);
  }

  lemma RunThree(h: Handlers, c0: Conn, c1: Conn, c2: Conn, c3: Conn, e1: Event, e2: Event, e3: Event)
      returns (es: seq<Event>)
    requires h.Valid() && c0.Valid() && c1.Valid() && c2.Valid() && c3.Valid()
    requires Legal(AsWritten, c0, e1) && c1 == Step(AsWritten, h, c0, e1)
    requires Legal(AsWritten, c1, e2) && c2 == Step(AsWritten, h, c1, e2)
    requires Legal(AsWritten, c2, e3) && c3 == Step(AsWritten, h, c2, e3)
    ensures es == [e1, e2, e3] && LegalRun(AsWritten, h, c0, es) && Run(AsWritten, h, c0, es) == c3
  {
    assert LegalRun(AsWritten, h, c3, []) && Run(AsWritten, h, c3, []) == c3;
    hide Step, Legal, LegalRun, Run, Conn.Valid, Handlers.Valid;
    RunCons(h, c2, e3, c3, [], c3);
    Nil([e3]);
    RunCons(h, c1, e2, c2, [e3], c3);
    RunCons(h, c0, e1, c1, [e2] + [e3], c3);
    es := [e1] + ([e2] + [e3]);
  }

  lemma RunFour(h: Handlers, c0: Conn, c1: Conn, c2: Conn, c3: Conn, c4: Conn, e1: Event, e2: Event, e3: Event,
      e4: Event)
      returns (es: seq<Event>)
    requires h.Valid() && c0.Valid() && c1.Valid() && c2.Valid() && c3.Valid() && c4.Valid()
    requires Legal(AsWritten, c0, e1) && c1 == Step(AsWritten, h, c0, e1)
    requires Legal(AsWritten, c1, e2) && c2 == Step(AsWritten, h, c1, e2)
    requires Legal(AsWritten, c2, e3) && c3 == Step(AsWritten, h, c2, e3)
    requires Legal(AsWritten, c3, e4) && c4 == Step(AsWritten, h, c3, e4)
    ensures es == [e1, e2, e3, e4] && LegalRun(AsWritten, h, c0, es) && Run(AsWritten, h, c0, es) == c4
  {
    hide Step, Legal, LegalRun, Run, Conn.Valid, Handlers.Valid;
    var tail := RunThree(h, c1, c2, c3, c4, e2, e3, e4);
    RunCons(h, c0, e1, c1, tail, c4);
    es := [e1] + tail;
  }

  /** A connection that still owes `mem[r..]`. */
  function Owing(mem: seq<byte>, r: nat, size: nat): (c: Conn)
    requires r <= |mem| <= size
    ensures c.Valid() && c.Conserved()
  {
    FRESH.(send := Buf(mem, r, size), responses := mem[r..])
  }

  /** Exactly when a committed send behind queued bytes keeps the output law, whatever the bytes are: its result is not
      misread, and the queue does not compact to make room. */
  lemma QueuedSendConservesExactlyWhen(r: nat, w: nat, size: nat, n: nat, call: WriteCall)
    requires r < w <= size && n > 0
    ensures (forall mem: seq<byte>, bytes: seq<byte> | |mem| == w && |bytes| == n ::
               SendQueued(AsWritten, Owing(mem, r, size), Buf(bytes, 0, n), call).Conserved())
       <==> !MisreadsResult(AsWritten, call) && !(size - w < n <= size - (w - r))
  {
    var mem, bytes := seq(w, i => if i < r then 0 as byte else 1), seq(n, i => 2 as byte);
    if MisreadsResult(AsWritten, call) {
      SendQueuedConserves(AsWritten, Owing(mem, r, size), Buf(bytes, 0, n), call);
    } else if size - w < n <= size - (w - r) {
      CompactingSendBreaks(mem, bytes, r, size, call);
    } else {
      forall mem: seq<byte>, bytes: seq<byte> | |mem| == w && |bytes| == n
        ensures SendQueued(AsWritten, Owing(mem, r, size), Buf(bytes, 0, n), call).Conserved()
      {
        SendQueuedConserves(AsWritten, Owing(mem, r, size), Buf(bytes, 0, n), call);
      }
    }
  }

  lemma CompactingSendBreaks(mem: seq<byte>, bytes: seq<byte>, r: nat, size: nat, call: WriteCall)
    requires r < |mem| <= size && !MisreadsResult(AsWritten, call) && mem[0] != mem[r]
    requires size - |mem| < |bytes| <= size - (|mem| - r)
    ensures !SendQueued(AsWritten, Owing(mem, r, size), Buf(bytes, 0, |bytes|), call).Conserved()
  {
    var c, d := Owing(mem, r, size), Buf(bytes, 0, |bytes|);
    var q := Appended(AsWritten, c.send, d.Readable());
    var (b, sent) := WriteOut(AsWritten, q, call);
    var n := SendQueued(AsWritten, c, d, call);
    assert q.Readable()[0] == mem[0] && n.responses[0] == mem[r];
    assert n.wire == sent by { Nil(sent); }
    assert n.wire + n.send.Readable() == q.Readable();
  }

  /** A write of queued bytes keeps the output law exactly when its result is not misread. */
  lemma QueuedWriteConservesExactly(v: Variant, c: Conn, call: WriteCall)
    requires c.Valid() && c.Conserved() && c.send.ReadableBytes() > 0
    ensures HandleWrite(v, c, call).Conserved() <==> !MisreadsResult(v, call)
  {
    var n := HandleWrite(v, c, call);
    var (b, sent) := WriteOut(v, c.send, call);
    if MisreadsResult(v, call) {
      assert n.status.Undefined? || |n.wire| + |n.send.Readable()| == |n.responses| + 1;
    } else {
      Assoc(c.wire, sent, b.Readable());
    }
  }
}
