/** net/connection.cpp as the object it is: handlers that update two buffers, the socket and the status in place.
    Each handler computes the step of module Connections that the laws are proved about. */
module ConnectionObject {
  import opened Variants
  import opened Machine
  import opened Buffers
  import opened Sockets
  import opened Framing
  import opened Connections
  import Pollers

  class Connection {
    const handlers: Handlers
    const socket: TcpSocket
    const recvBuffer: Buffer
    const sendBuffer: Buffer
    /** What m_io_event is registered for. */
    var interest: Pollers.Mark
    var status: Status
    ghost var clean: bool
    ghost var packets: seq<seq<byte>>
    ghost var responses: seq<byte>

    ghost function Parts(): set<object>
      reads this, recvBuffer, sendBuffer
    {
      {this, socket, recvBuffer, sendBuffer, recvBuffer.data, sendBuffer.data}
    }

    ghost predicate Shape()
      reads this, recvBuffer, sendBuffer, recvBuffer.data, sendBuffer.data
    {
      && recvBuffer != sendBuffer && recvBuffer.data != sendBuffer.data
      && recvBuffer.Rep() && sendBuffer.Rep()
    }

    ghost function View(): Conn
      reads this, socket, recvBuffer, sendBuffer
    {
      Conn(recvBuffer.view, sendBuffer.view, interest, status, clean, socket.received, packets, responses, socket.wire)
    }

    ghost predicate Valid()
      reads this, socket, recvBuffer, sendBuffer, recvBuffer.data, sendBuffer.data
    {
      Shape() && View().Valid()
    }

    constructor (h: Handlers)
      requires h.Valid()
      ensures Valid() && handlers.Valid() && View() == FRESH && handlers == h && fresh(Parts())
    {
      handlers := h;
      socket := new TcpSocket();
      recvBuffer := new Buffer(INIT_SIZE);
      sendBuffer := new Buffer(INIT_SIZE);
      interest, status, clean, packets, responses := {Pollers.EV_READ}, Open, true, [], [];
    }

    method Send(v: Variant, data: Buffer, call: WriteCall)
      requires Valid() && data.Valid() && data.view.ReadableBytes() > 0
      requires data != recvBuffer && data != sendBuffer && data.data != recvBuffer.data && data.data != sendBuffer.data
      modifies this`interest, this`status, this`clean, this`responses, socket`wire, sendBuffer, sendBuffer.data
      modifies data`readIndex, data`view
      ensures View() == Connections.Send(v, old(View()), old(data.view), call) && Valid()
      ensures sendBuffer.data == old(sendBuffer.data) || fresh(sendBuffer.data)
    {
      if status.Undefined? {
        return;
      }
      var waiting := sendBuffer.ReadableBytes();
      if waiting > 0 {
        SendQueued(v, data, call);
      } else {
        SendDirect(v, data, call);
      }
      UpdateInterest(v);
    }

    /** Repaired: enable or disable writing as the queue fills or empties.  The committed code has no such step. */
    method UpdateInterest(v: Variant)
      requires Valid()
      modifies this`interest
      ensures View() == WatchWrites(v, old(View())) && Valid()
    {
      if v.AsWritten? || !status.Open? {
        return;
      }
      var waiting := sendBuffer.ReadableBytes();
      interest := if waiting > 0 then interest + {Pollers.EV_WRITE} else interest - {Pollers.EV_WRITE};
    }

    method SendQueued(v: Variant, data: Buffer, call: WriteCall)
      requires Valid() && data.Valid() && data.view.ReadableBytes() > 0
      requires !status.Undefined? && sendBuffer.view.ReadableBytes() > 0
      requires data != recvBuffer && data != sendBuffer && data.data != recvBuffer.data && data.data != sendBuffer.data
      modifies this`status, this`clean, this`responses, socket`wire, sendBuffer, sendBuffer.data
      ensures View() == Connections.SendQueued(v, old(View()), data.view, call) && Valid()
      ensures sendBuffer.data == old(sendBuffer.data) || fresh(sendBuffer.data)
    {
      hide Appended, Corrupts, WriteOut;
      clean := clean && !Corrupts(v, sendBuffer.view, data.view.ReadableBytes()) && !MisreadsResult(v, call);
      responses := responses + data.view.Readable();
      AppendAndWrite(v, socket, sendBuffer, data, call);
      status := if sendBuffer.readIndex < 0 then Undefined else status;
    }

    static method AppendAndWrite(v: Variant, socket: TcpSocket, queue: Buffer, data: Buffer, call: WriteCall)
      requires queue.Valid() && data.Valid() && data.view.ReadableBytes() > 0 && data != queue
          && data.data != queue.data
      modifies socket`wire, queue, queue.data
      ensures queue.Rep() && (queue.data == old(queue.data) || fresh(queue.data))
      ensures var (b, sent) := WriteOut(v, Appended(v, old(queue.view), data.view.Readable()), call);
        queue.view == b && socket.wire == old(socket.wire) + sent
    {
      var bytes := data.Peek();
      queue.Append(v, bytes);
      var ret := socket.Write(v, queue, call);
    }

    method SendDirect(v: Variant, data: Buffer, call: WriteCall)
      requires Valid() && data.Valid() && data.view.ReadableBytes() > 0
      requires !status.Undefined? && sendBuffer.view.ReadableBytes() == 0
      requires data != recvBuffer && data != sendBuffer && data.data != recvBuffer.data && data.data != sendBuffer.data
      modifies this`status, this`clean, this`responses, socket`wire, sendBuffer, sendBuffer.data
      modifies data`readIndex, data`view
      ensures View() == Connections.SendDirect(v, old(View()), old(data.view), call) && Valid()
      ensures sendBuffer.data == old(sendBuffer.data) || fresh(sendBuffer.data)
    {
      hide Appended;
      clean := clean && !MisreadsResult(v, call);
      responses := responses + data.view.Readable();
      WriteAndAppend(v, socket, sendBuffer, data, call);
      status := if data.readIndex < 0 then Undefined else status;
    }

    static method WriteAndAppend(v: Variant, socket: TcpSocket, queue: Buffer, data: Buffer, call: WriteCall)
      requires queue.Valid() && data.Valid() && data.view.ReadableBytes() > 0 && data != queue
          && data.data != queue.data
      modifies socket`wire, queue, queue.data, data`readIndex, data`view
      ensures queue.Valid() && data.Rep() && (queue.data == old(queue.data) || fresh(queue.data))
      ensures var (left, sent) := WriteOut(v, old(data.view), call);
        && data.view == left && socket.wire == old(socket.wire) + sent
        && queue.view == if left.r < 0 || left.ReadableBytes() == 0 then old(queue.view)
                         else Appended(v, old(queue.view), left.Readable())
    {
      var ret := socket.Write(v, data, call);
      if data.readIndex < 0 {
        return;
      }
      var left := data.ReadableBytes();
      if left > 0 {
        var bytes := data.Peek();
        queue.Append(v, bytes);
      }
    }

    /** The dispatcher's answers to one packet, sent one after the other. */
    method SendResponses(v: Variant, rs: seq<seq<byte>>, calls: nat -> WriteCall, i: nat)
      requires Valid() && AllNonempty(rs)
      modifies this`interest, this`status, this`clean, this`responses, socket`wire, sendBuffer, sendBuffer.data
      ensures View() == SendAll(v, old(View()), rs, calls, i) && Valid()
      ensures sendBuffer.data == old(sendBuffer.data) || fresh(sendBuffer.data)
      decreases |rs|
    {
      if rs == [] {
        return;
      }
      SendResponse(v, rs[0], calls(i));
      SendResponses(v, rs[1..], calls, i + 1);
    }

    /** session::send_to_client: wrap the bytes in a buffer of their own. */
    method SendResponse(v: Variant, response: seq<byte>, call: WriteCall)
      requires Valid() && response != []
      modifies this`interest, this`status, this`clean, this`responses, socket`wire, sendBuffer, sendBuffer.data
      ensures View() == Connections.Send(v, old(View()), Buf(response, 0, |response|), call) && Valid()
      ensures sendBuffer.data == old(sendBuffer.data) || fresh(sendBuffer.data)
    {
      var data := new Buffer.FromBytes(response);
      Send(v, data, call);
    }

    method HandleRead(v: Variant, call: ReadCall, calls: nat -> WriteCall)
      requires Valid() && handlers.Valid() && Fits(v, recvBuffer.view, call)
      modifies this`interest, this`status, this`clean, this`responses, this`packets, socket
      modifies recvBuffer, recvBuffer.data, sendBuffer, sendBuffer.data
      ensures View() == Connections.HandleRead(v, handlers, old(View()), call, calls) && Valid()
      ensures old(status).Open? ==> ClosesExactlyAtEnd(v, old(View()), View(), call.result)
      ensures recvBuffer.data == old(recvBuffer.data) || fresh(recvBuffer.data)
      ensures sendBuffer.data == old(sendBuffer.data) || fresh(sendBuffer.data)
    {
      hide Drain, ReadInto, ReadCorrupts, Watched, Bounded, Handlers.Valid, Reserved;
      hide ClosesExactlyAtEnd;
      ReadClosesExactlyWhen(v, handlers, View(), call, calls);
      clean := clean && !ReadCorrupts(v, recvBuffer.view, call);
      var ret := socket.Read(v, recvBuffer, call);
      // ret is unsigned in the committed code, so only a zero passes its test
      if ret == 0 || (v.Repaired? && ret == ToSize(-1) && call.result == ReadFailed(OTHER_ERROR)) {
        interest := Pollers.EV_NONE;
        HandleClose();
        return;
      }
      DispatchPackets(v, calls);
    }

    /** m_close_handler drops the connection from the server's list. */
    method HandleClose()
      requires Valid()
      modifies this`status
      ensures Valid() && View() == old(View()).(status := if old(status).Open? then Closed else old(status))
    {
      if status.Open? {
        status := Closed;
      }
    }

    method DispatchPackets(v: Variant, calls: nat -> WriteCall)
      requires Valid() && handlers.Valid()
      modifies this`interest, this`status, this`clean, this`responses, this`packets, socket`wire
      modifies recvBuffer`readIndex, recvBuffer`view, sendBuffer, sendBuffer.data
      ensures View() == Drain(v, handlers, old(View()), calls, 0) && Valid()
      ensures sendBuffer.data == old(sendBuffer.data) || fresh(sendBuffer.data)
    {
      hide Drain, Turn, WritesOf, Bounded, Handlers.Valid;
      var i: nat := 0;
      ghost var goal := Drain(v, handlers, View(), calls, 0);
      while true
        invariant Valid()
        invariant goal == Drain(v, handlers, View(), calls, i)
        invariant sendBuffer.data == old(sendBuffer.data) || fresh(sendBuffer.data)
        decreases recvBuffer.view.ReadableBytes()
      {
        var unread := recvBuffer.Peek();
        var n := handlers.split(unread);
        if n == 0 || status.Undefined? {
          DrainStops(v, handlers, View(), calls, i);
          return;
        }
        SplitFits(handlers, unread);
        DrainTurns(v, handlers, View(), calls, i);
        var sent := Dispatch(v, n, calls, i);
        i := i + sent;
      }
    }

    /** One packet of length n: dispatch it, then consume it. */
    method Dispatch(v: Variant, n: nat, calls: nat -> WriteCall, i: nat) returns (sent: nat)
      requires Valid() && handlers.Valid()
      requires 0 < n == handlers.split(recvBuffer.view.Readable()) <= recvBuffer.view.ReadableBytes()
      modifies this`interest, this`status, this`clean, this`responses, this`packets, socket`wire
      modifies recvBuffer`readIndex, recvBuffer`view, sendBuffer, sendBuffer.data
      ensures View() == Turn(v, handlers, old(View()), calls, i) && Valid()
      ensures sent == WritesOf(handlers, old(View()))
          && recvBuffer.view.ReadableBytes() == old(recvBuffer.view.ReadableBytes()) - n
      ensures sendBuffer.data == old(sendBuffer.data) || fresh(sendBuffer.data)
    {
      var unread := recvBuffer.Peek();
      var packet := unread[..n];
      var rs := handlers.respond(packet);
      SendResponses(v, rs, calls, i);
      recvBuffer.IncreaseReadIndex(n);
      packets := packets + [packet];
      sent := |rs|;
    }

    method HandleWrite(v: Variant, call: WriteCall)
      requires Valid() && !status.Undefined?
      modifies this`interest, this`status, this`clean, socket`wire, sendBuffer`readIndex, sendBuffer`view
      ensures View() == Connections.HandleWrite(v, old(View()), call) && Valid()
    {
      var waiting := sendBuffer.ReadableBytes();
      if waiting == 0 {
        // the assert in tcp_socket::write
        status, clean := Undefined, false;
        return;
      }
      clean := clean && !MisreadsResult(v, call);
      var writeBytes := socket.Write(v, sendBuffer, call);
      status := if sendBuffer.readIndex < 0 then Undefined else status;
      waiting := sendBuffer.ReadableBytes();
      if v.AsWritten? {
        if waiting > 0 {
          interest := interest + {Pollers.EV_READ, Pollers.EV_ONESHOT};
        }
      } else {
        UpdateInterest(v);
      }
    }
  }
}
