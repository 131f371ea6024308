/** net/tcp_socket.cpp: scatter read into a buffer, short writes out of a buffer, and the accept loop.  The kernel's
    answers are arguments: how often a call is interrupted before it is answered, and the answer. */
module Sockets {
  import opened Variants
  import opened Machine
  import opened Seqs
  import opened Buffers

  const READ_ROOM: nat := 1500
  const SPILL_SIZE: nat := 65536
  /** The most bytes one ::write transfers. */
  const TRANSFER_LIMIT: nat := 0x7fff_f000

  datatype Errno = EAGAIN | OTHER_ERROR

  datatype ReadResult = Delivered(bytes: seq<byte>) | Eof | ReadFailed(e: Errno)

  datatype ReadCall = ReadCall(interrupts: nat, result: ReadResult)

  datatype WriteResult = Accepted(count: nat) | WriteFailed(e: Errno)

  datatype WriteCall = WriteCall(interrupts: nat, result: WriteResult)

  // ---------- reading ----------

  /** readv delivers at least one byte and at most what the two iovecs hold. */
  ghost predicate Fits(v: Variant, b: Buf, call: ReadCall)
    requires b.Valid()
  {
    call.result.Delivered? ==> 1 <= |call.result.bytes| <= Reserved(v, b, READ_ROOM).WriteableBytes() + SPILL_SIZE
  }

  function DeliveredBytes(call: ReadCall): seq<byte> {
    if call.result.Delivered? then call.result.bytes else []
  }

  /** `b` filled up to its capacity with the first bytes of a delivery that spills. */
  function Filled(b: Buf, bytes: seq<byte>): Buf
    requires 0 <= b.WriteableBytes() < |bytes|
  {
    b.(mem := b.mem + bytes[..b.WriteableBytes()])
  }

  /** A delivery goes behind the write index; what does not fit is appended from the spill array. */
  function Received(v: Variant, b: Buf, bytes: seq<byte>): (a: Buf)
    requires b.Valid()
    ensures a.Valid() && a.ReadableBytes() == b.ReadableBytes() + |bytes|
    ensures bytes == [] ==> a == b
  {
    if |bytes| <= b.WriteableBytes() then b.(mem := b.mem + bytes)
    else Appended(v, Filled(b, bytes), bytes[b.WriteableBytes()..])
  }

  function ReadInto(v: Variant, b: Buf, call: ReadCall): (a: Buf)
    requires b.Valid()
    ensures a.Valid() && a.ReadableBytes() == b.ReadableBytes() + |DeliveredBytes(call)|
  {
    Received(v, Reserved(v, b, READ_ROOM), DeliveredBytes(call))
  }

  function ReadReturn(call: ReadCall): nat {
    match call.result
    case Delivered(bytes) => |bytes|
    case Eof => 0
    case ReadFailed(_) => ToSize(-1)
  }

  /** The kernel is offered at least the 1500 bytes of room that are asked for and the 65536 of the spill array, and the
      buffer keeps a capacity of those 1500 beyond what was unread. */
  lemma ReadOffersRoom(v: Variant, b: Buf, call: ReadCall)
    requires b.Valid()
    ensures call.result.Delivered? && 1 <= |call.result.bytes| <= 1500 + 65536 ==> Fits(v, b, call)
    ensures ReadInto(v, b, call).size >= b.ReadableBytes() + 1500
  {
  }

  /** What a read returns tells how many bytes it added; zero tells end of file, and an unsigned -1 a failure. */
  lemma ReadReturnsCount(v: Variant, b: Buf, call: ReadCall)
    requires b.Valid() && Fits(v, b, call)
    ensures call.result.Delivered? ==> ReadReturn(call) == ReadInto(v, b, call).ReadableBytes() - b.ReadableBytes() > 0
    ensures ReadReturn(call) == 0 <==> call.result.Eof?
    ensures call.result.ReadFailed? ==> ReadReturn(call) == SIZE_RANGE - 1
  {
  }

  /** The read compacts over unread bytes in the committed code, before the call or when the spill is appended. */
  predicate ReadCorrupts(v: Variant, b: Buf, call: ReadCall)
    requires b.Valid()
  {
    Corrupts(v, b, READ_ROOM) ||
    var e := Reserved(v, b, READ_ROOM);
    var bytes := DeliveredBytes(call);
    e.WriteableBytes() < |bytes| && Corrupts(v, Filled(e, bytes), |bytes| - e.WriteableBytes())
  }

  /** Scatter read is exact, spill included: old content, then the delivered bytes in order. */
  lemma ScatterReadExact(v: Variant, b: Buf, call: ReadCall)
    requires b.Valid() && !ReadCorrupts(v, b, call)
    ensures ReadInto(v, b, call).Readable() == b.Readable() + DeliveredBytes(call)
  {
    var e := Reserved(v, b, READ_ROOM);
    var bytes := DeliveredBytes(call);
    var room := e.WriteableBytes();
    if |bytes| <= room {
      assert e.(mem := e.mem + bytes).Readable() == e.Readable() + bytes;
    } else {
      var f := Filled(e, bytes);
      assert f.Readable() == e.Readable() + bytes[..room];
      assert bytes == bytes[..room] + bytes[room..];
    }
  }

  /** A buffer that tells stale bytes (2) from unread ones (0), and a delivery of ones. */
  function Marked(r: nat, w: nat, size: nat): (b: Buf)
    requires r <= w <= size
    ensures b.Valid()
  {
    Buf(seq(w, i => if i < r then 2 as byte else 0), r, size)
  }

  function Ones(count: nat): ReadCall {
    ReadCall(0, Delivered(seq(count, i => 1 as byte)))
  }

  lemma CorruptedReadShowsStaleByte(r: nat, w: nat, size: nat, count: nat)
    requires r <= w <= size && ReadCorrupts(AsWritten, Marked(r, w, size), Ones(count))
    ensures var a := ReadInto(AsWritten, Marked(r, w, size), Ones(count));
      a.ReadableBytes() > 0 && a.Readable()[0] == 2
  {
    var b := Marked(r, w, size);
    var bytes := Ones(count).result.bytes;
    var e := Reserved(AsWritten, b, READ_ROOM);
    if Corrupts(AsWritten, b, READ_ROOM) {
      assert e.r == 0 && e.mem[0] == 2;
      if e.WriteableBytes() < |bytes| {
        assert Filled(e, bytes).mem[0] == 2;
      }
    } else {
      assert e == b;
      assert Filled(e, bytes).mem[0] == 2;
    }
  }

  /** The guard depends on lengths and indices only. */
  lemma ReadCorruptsByShape(b: Buf, c: Buf, bytes: seq<byte>, other: seq<byte>)
    requires b.Valid() && c.Valid() && |b.mem| == |c.mem| && b.r == c.r && b.size == c.size && |bytes| == |other|
    ensures ReadCorrupts(AsWritten, b, ReadCall(0, Delivered(bytes)))
        <==> ReadCorrupts(AsWritten, c, ReadCall(0, Delivered(other)))
  {
  }

  /** For the committed code the guard is exact: a read of this shape keeps every content just when neither of its
      two compaction points is reached with bytes unread. */
  lemma ScatterReadExactlyWhen(r: nat, w: nat, size: nat, count: nat)
    requires r <= w <= size
    ensures (forall mem: seq<byte>, bytes: seq<byte> | |mem| == w && |bytes| == count ::
               ReadInto(AsWritten, Buf(mem, r, size), ReadCall(0, Delivered(bytes))).Readable() == mem[r..] + bytes)
       <==> !ReadCorrupts(AsWritten, Marked(r, w, size), Ones(count))
  {
    var b, call := Marked(r, w, size), Ones(count);
    if ReadCorrupts(AsWritten, b, call) {
      CorruptedReadShowsStaleByte(r, w, size, count);
      assert (b.mem[r..] + call.result.bytes)[0] != 2;
      assert b == Buf(b.mem, r, size) && call == ReadCall(0, Delivered(call.result.bytes));
    } else {
      forall mem: seq<byte>, bytes: seq<byte> | |mem| == w && |bytes| == count
        ensures ReadInto(AsWritten, Buf(mem, r, size), ReadCall(0, Delivered(bytes))).Readable() == mem[r..] + bytes
      {
        ReadCorruptsByShape(b, Buf(mem, r, size), call.result.bytes, bytes);
        ScatterReadExact(AsWritten, Buf(mem, r, size), ReadCall(0, Delivered(bytes)));
      }
    }
  }

  // ---------- writing ----------

  /** The kernel takes at least one and at most the offered bytes. */
  function Taken(count: nat, offered: nat): (n: nat)
    requires offered > 0
    ensures 1 <= n <= offered && n <= TRANSFER_LIMIT
  {
    var most := if offered < TRANSFER_LIMIT then offered else TRANSFER_LIMIT;
    if count == 0 then 1 else if count > most then most else count
  }

  /** The committed code meets a negative result, which it stores in a std::size_t and takes for a count. */
  predicate MisreadsResult(v: Variant, call: WriteCall) {
    v.AsWritten? && (call.interrupts > 0 || call.result.WriteFailed?)
  }

  /** The result of a write: the buffer afterwards and the bytes that reached the wire. */
  function WriteOut(v: Variant, b: Buf, call: WriteCall): (out: (Buf, seq<byte>))
    requires b.Valid() && b.ReadableBytes() > 0
    ensures out.0.size == b.size && out.0.mem == b.mem
    ensures !MisreadsResult(v, call) ==> out.0.Valid() && out.1 + out.0.Readable() == b.Readable()
  {
    if MisreadsResult(v, call) then (b.(r := b.r - 1), [])
    else match call.result
      case WriteFailed(_) => (b, [])
      case Accepted(count) =>
        var n := Taken(count, b.ReadableBytes());
        (b.(r := b.r + n), b.Readable()[..n])
  }

  function WriteReturn(v: Variant, b: Buf, call: WriteCall): nat
    requires b.Valid() && b.ReadableBytes() > 0
  {
    if MisreadsResult(v, call) || call.result.WriteFailed? then ToSize(-1)
    else Taken(call.result.count, b.ReadableBytes())
  }

  /** What a write returns tells how many bytes it sent, an unsigned -1 that it sent none. */
  lemma WriteReturnsCount(v: Variant, b: Buf, call: WriteCall)
    requires b.Valid() && b.ReadableBytes() > 0
    ensures var (a, sent) := WriteOut(v, b, call);
      if MisreadsResult(v, call) || call.result.WriteFailed?
      then WriteReturn(v, b, call) == SIZE_RANGE - 1 && sent == []
      else WriteReturn(v, b, call) == |sent| == b.ReadableBytes() - a.ReadableBytes() > 0
  {
  }

  /** A write conserves bytes just when its result is not misread; misreading always moves the read index back, over
      a byte that was sent before or off the front of the array. */
  lemma WriteConservesExactly(v: Variant, b: Buf, call: WriteCall)
    requires b.Valid() && b.ReadableBytes() > 0
    ensures var (a, sent) := WriteOut(v, b, call);
      (a.Valid() && sent + a.Readable() == b.Readable()) <==> !MisreadsResult(v, call)
  {
    var (a, sent) := WriteOut(v, b, call);
    if MisreadsResult(v, call) && a.Valid() {
      assert |sent + a.Readable()| == |b.Readable()| + 1;
    }
  }

  /** A full socket buffer makes the committed code queue a byte twice. */
  lemma BlockedWriteRepeatsByte()
    ensures var b := Buf([10, 20], 1, 2);
      b.Valid() && WriteOut(AsWritten, b, WriteCall(0, WriteFailed(EAGAIN))).0 == Buf([10, 20], 0, 2)
  {
  }

  // ---------- accepting ----------

  /** What ::accept answers before it finally answers EAGAIN. */
  datatype AcceptAnswer = Client(fd: nat) | Interrupted | AcceptFailed

  function Clients(answers: seq<AcceptAnswer>): (fds: seq<nat>)
    decreases |answers|
  {
    if answers == [] then []
    else (if answers[0].Client? then [answers[0].fd] else []) + Clients(answers[1..])
  }

  lemma {:induction false} ClientsAppend(a: seq<AcceptAnswer>, b: seq<AcceptAnswer>)
    ensures Clients(a + b) == Clients(a) + Clients(b)
    decreases |a|
  {
    if a == [] {
      Nil(b);
      Nil(Clients(b));
    } else {
      var first := if a[0].Client? then [a[0].fd] else [];
      ConsAppend(a, b);
      ClientsAppend(a[1..], b);
      calc {
        Clients(a + b);
        { ClientsStep(a + b); }
        first + Clients(a[1..] + b);
        first + (Clients(a[1..]) + Clients(b));
        { Assoc(first, Clients(a[1..]), Clients(b)); }
        (first + Clients(a[1..])) + Clients(b);
        { ClientsStep(a); }
        Clients(a) + Clients(b);
      }
    }
  }

  lemma ClientsStep(a: seq<AcceptAnswer>)
    requires a != []
    ensures Clients(a) == (if a[0].Client? then [a[0].fd] else []) + Clients(a[1..])
  {
  }

  lemma ClientsOfOne(answer: AcceptAnswer)
    ensures Clients([answer]) == if answer.Client? then [answer.fd] else []
  {
    assert [answer][1..] == [];
  }

  /** Everything ::accept can answer, for ever. */
  datatype AcceptReply = Again | Answer(answer: AcceptAnswer)

  datatype Progress = Looping(fds: seq<nat>) | Returned(fds: seq<nat>)

  /** The accept loop after so many turns. */
  function AcceptLoop(replies: nat -> AcceptReply, turns: nat): (p: Progress)
    decreases turns
  {
    if turns == 0 then Looping([])
    else
      var before, reply := AcceptLoop(replies, turns - 1), replies(turns - 1);
      if before.Returned? then before
      else if reply.Again? then Returned(before.fds)
      else Looping(before.fds + Clients([reply.answer]))
  }

  /** As long as it is not told EAGAIN, it collects the clients it is given, in order. */
  lemma {:induction false} AcceptLoopCollects(replies: nat -> AcceptReply, answers: seq<AcceptAnswer>)
    requires forall i: nat | i < |answers| :: replies(i) == Answer(answers[i])
    ensures AcceptLoop(replies, |answers|) == Looping(Clients(answers))
    decreases |answers|
  {
    if answers != [] {
      var n := |answers| - 1;
      AcceptLoopCollects(replies, answers[..n]);
      ClientsAppend(answers[..n], [answers[n]]);
      assert answers == answers[..n] + [answers[n]];
    }
  }

  lemma {:induction false} LoopingMeansNoAgain(replies: nat -> AcceptReply, turns: nat)
    ensures AcceptLoop(replies, turns).Looping? <==> forall k: nat | k < turns :: replies(k).Answer?
    decreases turns
  {
    if turns > 0 {
      LoopingMeansNoAgain(replies, turns - 1);
    }
  }

  /** The loop returns exactly when ::accept answers EAGAIN some time: an error that persists keeps it running for ever,
      with the lock of the acceptor held. */
  lemma AcceptReturnsExactlyWhen(replies: nat -> AcceptReply)
    ensures (exists turns: nat :: AcceptLoop(replies, turns).Returned?) <==> (exists k: nat :: replies(k).Again?)
  {
    if turns: nat :| AcceptLoop(replies, turns).Returned? {
      LoopingMeansNoAgain(replies, turns);
    }
    if k: nat :| replies(k).Again? {
      LoopingMeansNoAgain(replies, k + 1);
      assert AcceptLoop(replies, k + 1).Returned?;
    }
  }

  // ---------- the class ----------

  class TcpSocket {
    /** Everything readv delivered on this socket, and everything write accepted. */
    ghost var received: seq<byte>
    ghost var wire: seq<byte>

    constructor ()
      ensures received == [] && wire == []
    {
      received, wire := [], [];
    }

    method Read(v: Variant, buf: Buffer, call: ReadCall) returns (ret: nat)
      requires buf.Valid() && Fits(v, buf.view, call)
      modifies this`received, buf, buf.data
      ensures buf.Valid() && buf.view == ReadInto(v, old(buf.view), call)
      ensures buf.data == old(buf.data) || fresh(buf.data)
      ensures received == old(received) + DeliveredBytes(call)
      ensures ret == ReadReturn(call)
    {
      hide Appended, Received;
      var commonBuffer := new byte[SPILL_SIZE];
      var pending := call.interrupts;
      while true
        invariant buf.Valid()
        invariant buf.view == old(buf.view) || buf.view == Reserved(v, old(buf.view), READ_ROOM)
        invariant buf.data == old(buf.data) || fresh(buf.data)
        invariant commonBuffer != buf.data && received == old(received)
        decreases pending
      {
        buf.EnsureWriteableBytes(v, READ_ROOM);
        if pending > 0 {
          pending := pending - 1;
          continue;
        }
        match call.result {
          case Eof => return 0;
          case ReadFailed(e) => return ToSize(-1);
          case Delivered(bytes) =>
            received := received + bytes;
            TakeDelivery(v, buf, commonBuffer, bytes);
            return |bytes|;
        }
      }
    }

    /** readv with an answer of |bytes|, and the index updates that follow it. */
    static method TakeDelivery(v: Variant, buf: Buffer, commonBuffer: array<byte>, bytes: seq<byte>)
      requires buf.Valid() && buf.data != commonBuffer && |bytes| <= buf.view.WriteableBytes() + commonBuffer.Length
      modifies buf, buf.data, commonBuffer
      ensures buf.Valid() && buf.view == Received(v, old(buf.view), bytes)
      ensures buf.data == old(buf.data) || fresh(buf.data)
    {
      hide Appended, Reserved;
      KernelReadv(buf, commonBuffer, bytes);
      var room := buf.WriteableBytes();
      if |bytes| <= room {
        buf.IncreaseWriteIndex(|bytes|);
      } else {
        buf.IncreaseWriteIndex(room);
        buf.Append(v, commonBuffer[..|bytes| - room]);
      }
    }

    /** The kernel's side of readv: fill the buffer's free room first, then the spill array. */
    static method KernelReadv(buf: Buffer, spill: array<byte>, bytes: seq<byte>)
      requires buf.Valid() && buf.data != spill && |bytes| <= buf.view.WriteableBytes() + spill.Length
      modifies buf.data, spill
      ensures buf.Valid()
      ensures |bytes| <= buf.view.WriteableBytes() ==> buf.data[..buf.writeIndex + |bytes|] == buf.view.mem + bytes
      ensures |bytes| > buf.view.WriteableBytes() ==>
                var room := buf.view.WriteableBytes();
                buf.data[..buf.size] == buf.view.mem + bytes[..room] && spill[..|bytes| - room] == bytes[room..]
    {
      var room := buf.WriteableBytes();
      if |bytes| <= room {
        buf.StoreAtWriteIndex(bytes);
      } else {
        buf.StoreAtWriteIndex(bytes[..room]);
        CopyToFront(spill, bytes[room..]);
      }
    }

    static method CopyToFront(target: array<byte>, bytes: seq<byte>)
      requires |bytes| <= target.Length
      modifies target
      ensures target[..|bytes|] == bytes
    {
      var i := 0;
      while i < |bytes|
        invariant 0 <= i <= |bytes|
        invariant forall k | 0 <= k < i :: target[k] == bytes[k]
      {
        target[i] := bytes[i];
        i := i + 1;
      }
    }

    method Write(v: Variant, buf: Buffer, call: WriteCall) returns (ret: nat)
      requires buf.Valid() && buf.view.ReadableBytes() > 0
      modifies this`wire, buf`readIndex, buf`view
      ensures buf.Rep() && buf.view == WriteOut(v, old(buf.view), call).0
      ensures wire == old(wire) + WriteOut(v, old(buf.view), call).1
      ensures ret == WriteReturn(v, old(buf.view), call)
    {
      var pending := call.interrupts;
      while true
        invariant buf.readIndex == old(buf.readIndex) && buf.view == old(buf.view) && wire == old(wire)
        invariant v.AsWritten? ==> pending == call.interrupts
        decreases pending
      {
        var result := -1;
        var offered := buf.ReadableBytes();
        if pending == 0 && call.result.Accepted? {
          result := Taken(call.result.count, offered);
          wire := wire + buf.view.Readable()[..result];
        }
        SizeRoundTrip(result);
        // the committed code declares the result std::size_t, so -1 is a large count here
        var writeBytes := if v.AsWritten? then ToSize(result) else result;
        if writeBytes > 0 {
          buf.IncreaseReadIndex(SignedReading(ToSize(result)));
          return ToSize(result);
        }
        if pending > 0 {
          pending := pending - 1;
          continue;
        }
        return ToSize(-1);
      }
    }

    static method Accept(answers: seq<AcceptAnswer>) returns (sockets: seq<nat>)
      ensures sockets == Clients(answers)
    {
      sockets := [];
      var i := 0;
      while i < |answers|
        invariant 0 <= i <= |answers|
        invariant sockets == Clients(answers[..i])
      {
        if answers[i].Client? {
          sockets := sockets + [answers[i].fd];
        }
        ClientsAppend(answers[..i], [answers[i]]);
        ClientsOfOne(answers[i]);
        assert answers[..i + 1] == answers[..i] + [answers[i]];
        i := i + 1;
      }
      assert answers[..i] == answers;
    }
  }
}
