/** net/buffer.h and net/buffer.cpp: a byte buffer with a read index and a write index that compacts or grows
    when it has too little room behind the write index. */
module Buffers {
  import opened Variants
  import opened Machine

  /** The value of a buffer: the bytes before the write index, the read index, and the capacity.  Bytes at or
      behind the write index are never read before they are written, so they are not part of the value. */
  datatype Buf = Buf(mem: seq<byte>, r: int, size: nat) {
    ghost predicate Valid() {
      0 <= r <= |mem| <= size
    }

    function ReadableBytes(): int {
      |mem| - r
    }

    function WriteableBytes(): int {
      size - |mem|
    }

    function Readable(): (s: seq<byte>)
      requires Valid()
      ensures |s| == ReadableBytes()
    {
      mem[r..]
    }
  }

  /** The request is served by moving the indices inside the array (buffer.cpp:51 and :55 both false). */
  predicate Compacts(b: Buf, n: nat) {
    b.WriteableBytes() < n <= b.size - b.ReadableBytes()
  }

  /** The committed code takes its one harmful branch: it compacts while bytes are still unread. */
  predicate Corrupts(v: Variant, b: Buf, n: nat) {
    v.AsWritten? && Compacts(b, n) && b.ReadableBytes() > 0
  }

  function Reserved(v: Variant, b: Buf, n: nat): (e: Buf)
    requires b.Valid()
    ensures e.Valid() && e.ReadableBytes() == b.ReadableBytes()
    ensures e.WriteableBytes() >= n
    ensures !Corrupts(v, b, n) ==> e.Readable() == b.Readable()
  {
    if b.WriteableBytes() >= n then b
    else if b.size - b.ReadableBytes() < n then Buf(b.Readable(), 0, |b.mem| + n)
    else if v.Repaired? then Buf(b.Readable(), 0, b.size)
    else Buf(b.mem[..b.ReadableBytes()], 0, b.size)
  }

  function Appended(v: Variant, b: Buf, data: seq<byte>): (a: Buf)
    requires b.Valid()
    ensures a.Valid() && a.ReadableBytes() == b.ReadableBytes() + |data|
    ensures !Corrupts(v, b, |data|) ==> a.Readable() == b.Readable() + data
  {
    var e := Reserved(v, b, |data|);
    e.(mem := e.mem + data)
  }

  /** Compaction as committed loses data: three bytes, two consumed, room asked for two. */
  lemma CompactionLosesBytes()
    ensures var b := Buf([10, 20, 30], 2, 4);
      b.Valid() && b.Readable() == [30] && Reserved(AsWritten, b, 2).Readable() == [10]
  {
    var b := Buf([10, 20, 30], 2, 4);
    assert b.Readable() == [30];
    assert Reserved(AsWritten, b, 2).mem == [10];
  }

  /** Exactly when the committed code keeps the readable bytes, whatever they are: when it does not compact, or
      nothing is unread.  The condition is on the indices, which a caller can read before the call. */
  lemma EnsureKeepsContentsExactly(r: nat, w: nat, size: nat, n: nat)
    requires r <= w <= size
    ensures (forall mem: seq<byte> | |mem| == w :: Reserved(AsWritten, Buf(mem, r, size), n).Readable() == mem[r..])
       <==> !(size - w < n <= size - (w - r) && r < w)
  {
    if size - w < n <= size - (w - r) && r < w {
      var mem := seq(w, i => if i < r then 0 as byte else 1);
      var e := Reserved(AsWritten, Buf(mem, r, size), n);
      assert e.Readable()[0] == 0 && mem[r..][0] == 1;
    } else {
      forall mem: seq<byte> | |mem| == w
        ensures Reserved(AsWritten, Buf(mem, r, size), n).Readable() == mem[r..]
      {
        assert !Corrupts(AsWritten, Buf(mem, r, size), n);
      }
    }
  }

  // ---------- runs of operations ----------

  datatype Op = AppendOp(data: seq<byte>) | ConsumeOp(count: nat) | ReserveOp(room: nat) {
    function Request(): nat {
      match this
      case AppendOp(data) => |data|
      case ConsumeOp(_) => 0
      case ReserveOp(room) => room
    }
  }

  function Apply(v: Variant, b: Buf, op: Op): (a: Buf)
    requires b.Valid() && (op.ConsumeOp? ==> op.count <= b.ReadableBytes())
    ensures a.Valid()
  {
    match op
    case AppendOp(data) => Appended(v, b, data)
    case ConsumeOp(count) => b.(r := b.r + count)
    case ReserveOp(room) => Reserved(v, b, room)
  }

  /** The same operations on a plain sequence of bytes. */
  function Meaning(s: seq<byte>, op: Op): seq<byte>
    requires op.ConsumeOp? ==> op.count <= |s|
  {
    match op
    case AppendOp(data) => s + data
    case ConsumeOp(count) => s[count..]
    case ReserveOp(_) => s
  }

  /** No operation consumes more than there is. */
  predicate Enabled(len: nat, ops: seq<Op>)
    decreases |ops|
  {
    ops == [] ||
    match ops[0]
    case AppendOp(data) => Enabled(len + |data|, ops[1..])
    case ConsumeOp(count) => count <= len && Enabled(len - count, ops[1..])
    case ReserveOp(_) => Enabled(len, ops[1..])
  }

  function RunOps(v: Variant, b: Buf, ops: seq<Op>): (a: Buf)
    requires b.Valid() && Enabled(b.ReadableBytes(), ops)
    ensures a.Valid()
    decreases |ops|
  {
    if ops == [] then b else RunOps(v, Apply(v, b, ops[0]), ops[1..])
  }

  function MeaningOfRun(s: seq<byte>, ops: seq<Op>): seq<byte>
    requires Enabled(|s|, ops)
    decreases |ops|
  {
    if ops == [] then s else MeaningOfRun(Meaning(s, ops[0]), ops[1..])
  }

  /** No operation of the run compacts over unread bytes in the committed code. */
  ghost predicate Clean(v: Variant, b: Buf, ops: seq<Op>)
    requires b.Valid() && Enabled(b.ReadableBytes(), ops)
    decreases |ops|
  {
    ops == [] || (!Corrupts(v, b, ops[0].Request()) && Clean(v, Apply(v, b, ops[0]), ops[1..]))
  }

  lemma StepRefinesSequence(v: Variant, b: Buf, op: Op)
    requires b.Valid() && (op.ConsumeOp? ==> op.count <= b.ReadableBytes())
    requires !Corrupts(v, b, op.Request())
    ensures Apply(v, b, op).Readable() == Meaning(b.Readable(), op)
  {
  }

  /** The buffer refines a byte sequence over any run: always when compaction moves the bytes, and in the committed
      code on every run that never compacts over unread bytes. */
  lemma {:induction false} RunRefinesSequence(v: Variant, b: Buf, ops: seq<Op>)
    requires b.Valid() && Enabled(b.ReadableBytes(), ops)
    requires v.Repaired? || Clean(v, b, ops)
    ensures RunOps(v, b, ops).Readable() == MeaningOfRun(b.Readable(), ops)
    decreases |ops|
  {
    if ops != [] {
      StepRefinesSequence(v, b, ops[0]);
      RunRefinesSequence(v, Apply(v, b, ops[0]), ops[1..]);
    }
  }

  /** At every step of a run, every content of the buffer's shape would be kept. */
  ghost predicate KeepsEveryContent(b: Buf, ops: seq<Op>)
    requires b.Valid() && Enabled(b.ReadableBytes(), ops)
    decreases |ops|
  {
    ops == [] ||
    (&& (forall mem: seq<byte> | |mem| == |b.mem| ::
           Reserved(AsWritten, Buf(mem, b.r, b.size), ops[0].Request()).Readable() == mem[b.r..])
     && KeepsEveryContent(Apply(AsWritten, b, ops[0]), ops[1..]))
  }

  /** The guard is exact over runs: a committed run is clean if and only if at each of its steps every content would be
      kept. */
  lemma {:induction false} CleanExactlyWhenEveryContentKept(b: Buf, ops: seq<Op>)
    requires b.Valid() && Enabled(b.ReadableBytes(), ops)
    ensures Clean(AsWritten, b, ops) <==> KeepsEveryContent(b, ops)
    decreases |ops|
  {
    if ops != [] {
      EnsureKeepsContentsExactly(b.r, |b.mem|, b.size, ops[0].Request());
      hide Reserved;
      CleanExactlyWhenEveryContentKept(Apply(AsWritten, b, ops[0]), ops[1..]);
    }
  }

  /** At every request of the run at most `peak` bytes are unread and at most `ask` bytes are asked for. */
  ghost predicate Within(v: Variant, b: Buf, ops: seq<Op>, peak: nat, ask: nat)
    requires b.Valid() && Enabled(b.ReadableBytes(), ops)
    decreases |ops|
  {
    ops == [] ||
    ((!ops[0].ConsumeOp? ==> b.ReadableBytes() <= peak && ops[0].Request() <= ask)
     && Within(v, Apply(v, b, ops[0]), ops[1..], peak, ask))
  }

  /** A buffer with enough room behind the write index stays as it is, and any other moves its read index to the front;
      it grows exactly when the request does not fit beside the unread bytes, by the request behind the old write index,
      which is a growth, and to less than the unread bytes plus twice the request. */
  lemma GrowthStep(v: Variant, b: Buf, n: nat)
    requires b.Valid()
    ensures var e := Reserved(v, b, n);
      && (b.WriteableBytes() >= n ==> e == b) && (b.WriteableBytes() < n ==> e.r == 0)
      && (e.size != b.size <==> b.size < b.ReadableBytes() + n)
      && (e.size != b.size ==> b.size < e.size == |b.mem| + n < b.ReadableBytes() + 2 * n)
  {
  }

  /** Capacity over a whole run, in both variants: it never shrinks, and never passes the larger of the initial
      capacity and the peak of unread bytes plus twice the largest request. */
  lemma {:induction false} CapacityBound(v: Variant, b: Buf, ops: seq<Op>, peak: nat, ask: nat)
    requires b.Valid() && Enabled(b.ReadableBytes(), ops) && Within(v, b, ops, peak, ask)
    ensures b.size <= RunOps(v, b, ops).size
    ensures RunOps(v, b, ops).size <= if b.size < peak + 2 * ask then peak + 2 * ask else b.size
    decreases |ops|
  {
    if ops != [] {
      GrowthStep(v, b, ops[0].Request());
      CapacityBound(v, Apply(v, b, ops[0]), ops[1..], peak, ask);
    }
  }

  // ---------- the class ----------

  class Buffer {
    var data: array<byte>
    var size: nat
    var readIndex: int
    var writeIndex: nat
    /** The value these fields stand for. */
    ghost var view: Buf

    ghost predicate Rep()
      reads this, data
    {
      size == data.Length && writeIndex <= size && view == Buf(data[..writeIndex], readIndex, size)
    }

    ghost predicate Valid()
      reads this, data
    {
      Rep() && view.Valid()
    }

    constructor (initSize: nat)
      ensures Valid() && fresh(data)
      ensures view == Buf([], 0, initSize)
    {
      data := new byte[initSize];
      size := initSize;
      readIndex, writeIndex := 0, 0;
      view := Buf([], 0, initSize);
    }

    constructor FromBytes(bytes: seq<byte>)
      ensures Valid() && fresh(data)
      ensures view == Buf(bytes, 0, |bytes|)
    {
      var store := new byte[|bytes|](i requires 0 <= i < |bytes| => bytes[i]);
      data := store;
      size := |bytes|;
      readIndex, writeIndex := 0, |bytes|;
      view := Buf(bytes, 0, |bytes|);
    }

    method ReadableBytes() returns (n: int)
      requires Rep()
      ensures n == view.ReadableBytes()
    {
      n := writeIndex - readIndex;
    }

    method WriteableBytes() returns (n: int)
      requires Rep()
      ensures n == view.WriteableBytes()
    {
      n := size - writeIndex;
    }

    /** What read_index() points at, readable_bytes() long. */
    method Peek() returns (bytes: seq<byte>)
      requires Valid()
      ensures bytes == view.Readable()
    {
      bytes := data[readIndex..writeIndex];
    }

    /** `count` is the signed reading of the std::size_t argument, so that an index of -1 stands for 2^64 - 1: a
        pointer formed from either points one byte before the array. */
    method IncreaseReadIndex(count: int)
      requires Rep()
      modifies this`readIndex, this`view
      ensures Rep() && view == old(view).(r := old(view).r + count)
    {
      readIndex := readIndex + count;
      view := view.(r := readIndex);
    }

    /** The bytes at the write index are in place already. */
    method IncreaseWriteIndex(count: nat)
      requires Rep() && writeIndex + count <= size
      modifies this`writeIndex, this`view
      ensures Rep() && view == old(view).(mem := data[..old(writeIndex) + count])
      ensures writeIndex == old(writeIndex) + count
    {
      writeIndex := writeIndex + count;
      view := view.(mem := data[..writeIndex]);
    }

    /** std::copy of the readable bytes to the front of `target`, first byte first.  `target` may be the buffer's own
        array: the copy moves down, so no byte is overwritten before it is read. */
    method CopyReadable(target: array<byte>)
      requires Valid() && view.ReadableBytes() <= target.Length
      modifies target
      ensures target[..view.ReadableBytes()] == old(view.Readable())
    {
      var i := 0;
      while i < writeIndex - readIndex
        invariant 0 <= i <= writeIndex - readIndex
        invariant target[..i] == old(data[readIndex..])[..i]
        invariant forall j | readIndex + i <= j < writeIndex :: data[j] == old(data[j])
      {
        target[i] := data[readIndex + i];
        i := i + 1;
      }
    }

    method EnsureWriteableBytes(v: Variant, n: nat)
      requires Valid()
      modifies this, data
      ensures Valid() && view == Reserved(v, old(view), n)
      ensures data == old(data) || fresh(data)
    {
      var writeable := WriteableBytes();
      if writeable >= n {
        return;
      }
      var readable := ReadableBytes();
      if size - readable < n {
        var newData := new byte[writeIndex + n];
        CopyReadable(newData);
        data := newData;
        size := writeIndex + n;
      } else if v.Repaired? {
        CopyReadable(data);
      }
      readIndex := 0;
      writeIndex := readIndex + readable;
      view := Buf(data[..writeIndex], readIndex, size);
      assert view.WriteableBytes() >= n;
    }

    method Append(v: Variant, bytes: seq<byte>)
      requires Valid()
      modifies this, data
      ensures Valid() && view == Appended(v, old(view), bytes)
      ensures data == old(data) || fresh(data)
    {
      EnsureWriteableBytes(v, |bytes|);
      StoreAtWriteIndex(bytes);
      IncreaseWriteIndex(|bytes|);
    }

    /** Copies bytes behind the write index: std::copy in `append`, and the kernel's part of a readv. */
    method StoreAtWriteIndex(bytes: seq<byte>)
      requires Valid() && |bytes| <= view.WriteableBytes()
      modifies data
      ensures Valid() && data[..writeIndex + |bytes|] == view.mem + bytes
    {
      var i := 0;
      while i < |bytes|
        invariant 0 <= i <= |bytes|
        invariant data[..writeIndex] == view.mem
        invariant forall k | 0 <= k < i :: data[writeIndex + k] == bytes[k]
      {
        data[writeIndex + i] := bytes[i];
        i := i + 1;
      }
      assert data[..writeIndex + i] == data[..writeIndex] + bytes;
    }
  }
}
