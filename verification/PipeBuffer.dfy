// The growable byte buffer of the pipe client: windows_clipboard/common/buffer.h.
//
// The bytes between the two indices are what the buffer holds.  Every assertion of the source
// is a precondition here, or is proved where the source makes it.
module PipeBuffer {
  import opened Bytes

  const CHEAP_PREPEND: nat := 8
  const INITIAL_SIZE: nat := 1024

  /** Storage size and the two indices. */
  datatype Layout = Layout(size: nat, reader: nat, writer: nat) {
    predicate Sound() {
      CHEAP_PREPEND <= size && reader <= writer <= size
    }

    function Readable(): int {
      writer - reader
    }

    function Writable(): int {
      size - writer
    }
  }

  function AfterRetrieve(l: Layout, len: nat): Layout {
    if len < l.Readable() then l.(reader := l.reader + len)
    else l.(reader := CHEAP_PREPEND, writer := CHEAP_PREPEND)
  }

  /** makeSpace: grow at the end, or move the readable bytes to the front. */
  function AfterMakeSpace(l: Layout, len: nat): Layout
    requires l.Sound()
  {
    if l.Writable() + l.reader < len + CHEAP_PREPEND then l.(size := l.writer + len)
    else l.(reader := CHEAP_PREPEND, writer := CHEAP_PREPEND + l.Readable())
  }

  function AfterEnsure(l: Layout, len: nat): (r: Layout)
    requires l.Sound()
    ensures r.Sound() && r.Writable() >= len && r.Readable() == l.Readable()
  {
    if l.Writable() < len then AfterMakeSpace(l, len) else l
  }

  function AfterAppend(l: Layout, len: nat): (r: Layout)
    requires l.Sound()
    ensures r.Sound() && r.Readable() == l.Readable() + len
  {
    var m := AfterEnsure(l, len);
    m.(writer := m.writer + len)
  }

  /** memcpy inside one array towards its front, byte by byte; the two stretches may overlap. */
  method MoveToFront(a: array<byte>, to: nat, from: nat, n: nat)
    requires to <= from && from + n <= a.Length
    modifies a
    ensures a[to..to + n] == old(a[from..from + n])
  {
    ghost var was := a[..];
    var i := 0;
    while i < n
      invariant 0 <= i <= n
      invariant forall k :: to <= k < to + i ==> a[k] == was[k - to + from]
      invariant forall k :: from + i <= k < from + n ==> a[k] == was[k]
    {
      a[to + i] := a[from + i];
      i := i + 1;
    }
  }

  /** Bytes written at the writer index join the readable ones. */
  lemma Joined(was: seq<byte>, now: seq<byte>, from: nat, end: nat, data: seq<byte>)
    requires from <= end && end + |data| <= |was| == |now|
    requires now[..end] == was[..end] && now[end..end + |data|] == data
    ensures now[from..end + |data|] == was[from..end] + data
  {
    assert now[from..end] == now[..end][from..] && was[from..end] == was[..end][from..];
  }

  class Buffer {
    var store: array<byte>
    var readerIndex: nat
    var writerIndex: nat

    ghost predicate Valid()
      reads this
    {
      At().Sound()
    }

    function At(): Layout
      reads this
    {
      Layout(store.Length, readerIndex, writerIndex)
    }

    ghost function Contents(): (c: seq<byte>)
      reads this, store
      requires Valid()
      ensures |c| == At().Readable()
    {
      store[readerIndex..writerIndex]
    }

    constructor (initialSize: nat := INITIAL_SIZE)
      ensures Valid() && fresh(store)
      ensures At() == Layout(8 + initialSize, 8, 8)
      ensures Contents() == []
    {
      store := new byte[CHEAP_PREPEND + initialSize](_ => 0);
      readerIndex, writerIndex := CHEAP_PREPEND, CHEAP_PREPEND;
    }

    method ReadableBytes() returns (n: nat)
      requires Valid()
      ensures n == |Contents()|
    {
      n := writerIndex - readerIndex;
    }

    /** The first len readable bytes; nothing is consumed. */
    method Peek(len: nat) returns (data: seq<byte>)
      requires Valid() && len <= |Contents()|
      ensures data == Contents()[..len]
    {
      data := store[readerIndex..readerIndex + len];
    }

    method RetrieveAll()
      requires Valid()
      modifies this`readerIndex, this`writerIndex
      ensures Valid() && Contents() == []
      ensures At() == old(At()).(reader := CHEAP_PREPEND, writer := CHEAP_PREPEND)
    {
      readerIndex := CHEAP_PREPEND;
      writerIndex := CHEAP_PREPEND;
    }

    method Retrieve(len: nat)
      requires Valid() && len <= |Contents()|
      modifies this`readerIndex, this`writerIndex
      ensures Valid() && Contents() == old(Contents())[len..]
      ensures len == old(|Contents()|) ==> readerIndex == writerIndex == 8
      ensures At() == AfterRetrieve(old(At()), len)
    {
      if len < writerIndex - readerIndex {
        readerIndex := readerIndex + len;
      } else {
        RetrieveAll();
      }
    }

    method RetrieveAsByteArray(len: nat) returns (data: seq<byte>)
      requires Valid() && len <= |Contents()|
      modifies this`readerIndex, this`writerIndex
      ensures Valid() && data == old(Contents())[..len] && Contents() == old(Contents())[len..]
      ensures At() == AfterRetrieve(old(At()), len)
    {
      data := Peek(len);
      Retrieve(len);
    }

    method RetrieveAllAsByteArray() returns (data: seq<byte>)
      requires Valid()
      modifies this`readerIndex, this`writerIndex
      ensures Valid() && data == old(Contents()) && Contents() == []
    {
      data := RetrieveAsByteArray(writerIndex - readerIndex);
    }

    /** The overlapping move is made front to back, byte by byte. */
    method MakeSpace(len: nat)
      requires Valid() && len > At().Writable()
      modifies this, store
      ensures Valid() && (store == old(store) || fresh(store))
      ensures Contents() == old(Contents())
      ensures At() == AfterMakeSpace(old(At()), len)
    {
      if store.Length - writerIndex + readerIndex < len + CHEAP_PREPEND {
        var grown := new byte[writerIndex + len](_ => 0);
        CopyInto(grown, 0, store[..writerIndex]);
        ghost var was := store[..writerIndex];
        assert grown[readerIndex..writerIndex] == was[readerIndex..writerIndex];
        store := grown;
      } else {
        assert CHEAP_PREPEND < readerIndex;
        var readable := writerIndex - readerIndex;
        MoveToFront(store, CHEAP_PREPEND, readerIndex, readable);
        readerIndex := CHEAP_PREPEND;
        writerIndex := readerIndex + readable;
        assert readable == writerIndex - readerIndex;
      }
    }

    method EnsureWritableBytes(len: nat)
      requires Valid()
      modifies this, store
      ensures Valid() && (store == old(store) || fresh(store))
      ensures Contents() == old(Contents())
      ensures At() == AfterEnsure(old(At()), len)
    {
      if store.Length - writerIndex < len {
        MakeSpace(len);
      }
      assert store.Length - writerIndex >= len;
    }

    method HasWritten(len: nat)
      requires Valid() && len <= At().Writable()
      modifies this`writerIndex
      ensures Valid() && At() == old(At()).(writer := old(writerIndex) + len)
    {
      writerIndex := writerIndex + len;
    }

    method Append(data: seq<byte>)
      requires Valid()
      modifies this, store
      ensures Valid() && (store == old(store) || fresh(store))
      ensures Contents() == old(Contents()) + data
      ensures At() == AfterAppend(old(At()), |data|)
    {
      hide AfterEnsure, AfterMakeSpace;
      EnsureWritableBytes(|data|);
      ghost var was := store[..];
      ghost var end := writerIndex;
      CopyInto(store, writerIndex, data);
      HasWritten(|data|);
      Joined(was, store[..], readerIndex, end, data);
    }

    method Unwrite(len: nat)
      requires Valid() && len <= |Contents()|
      modifies this`writerIndex
      ensures Valid() && Contents() == old(Contents())[..old(|Contents()|) - len]
      ensures At() == old(At()).(writer := old(writerIndex) - len)
    {
      writerIndex := writerIndex - len;
    }

    method Prepend(data: seq<byte>)
      requires Valid() && |data| <= At().reader
      modifies this`readerIndex, store
      ensures Valid() && Contents() == data + old(Contents())
      ensures At() == old(At()).(reader := old(readerIndex) - |data|)
    {
      ghost var was := Contents();
      readerIndex := readerIndex - |data|;
      CopyInto(store, readerIndex, data);
      assert store[readerIndex + |data|..writerIndex] == was;
    }

    /** appendUInt16, appendUInt32 and appendUInt64 for widths 2, 4 and 8. */
    method AppendUInt(width: nat, x: nat)
      requires Valid() && x < Limit(width)
      modifies this, store
      ensures Valid() && (store == old(store) || fresh(store))
      ensures Contents() == old(Contents()) + ToBigEndian(width, x)
    {
      Append(ToBigEndian(width, x));
    }

    method PrependUInt(width: nat, x: nat)
      requires Valid() && x < Limit(width) && width <= At().reader
      modifies this`readerIndex, store
      ensures Valid() && Contents() == ToBigEndian(width, x) + old(Contents())
    {
      Prepend(ToBigEndian(width, x));
    }

    method PeekUInt(width: nat) returns (x: nat)
      requires Valid() && width <= |Contents()|
      ensures x == FromBigEndian(Contents()[..width]) && x < Limit(width)
    {
      var data := Peek(width);
      x := FromBigEndian(data);
    }

    method ReadUInt(width: nat) returns (x: nat)
      requires Valid() && width <= |Contents()|
      modifies this`readerIndex, this`writerIndex
      ensures Valid() && Contents() == old(Contents())[width..]
      ensures x == FromBigEndian(old(Contents())[..width]) && x < Limit(width)
    {
      x := PeekUInt(width);
      Retrieve(width);
    }
  }

  // ---- Any run of operations ----

  datatype Op =
    | DoAppend(data: seq<byte>)
    | DoPrepend(data: seq<byte>)
    | DoRetrieve(len: nat)
    | DoRetrieveAll
    | DoUnwrite(len: nat)
    | DoEnsureWritable(len: nat)

  /** The source's assertions on the operation's argument. */
  predicate Allowed(l: Layout, op: Op) {
    match op
    case DoPrepend(data) => |data| <= l.reader
    case DoRetrieve(len) => len <= l.Readable()
    case DoUnwrite(len) => len <= l.Readable()
    case _ => true
  }

  function Apply(l: Layout, op: Op): (r: Layout)
    requires l.Sound() && Allowed(l, op)
    ensures r.Sound()
  {
    match op
    case DoAppend(data) => AfterAppend(l, |data|)
    case DoPrepend(data) => l.(reader := l.reader - |data|)
    case DoRetrieve(len) => AfterRetrieve(l, len)
    case DoRetrieveAll => l.(reader := CHEAP_PREPEND, writer := CHEAP_PREPEND)
    case DoUnwrite(len) => l.(writer := l.writer - len)
    case DoEnsureWritable(len) => AfterEnsure(l, len)
  }

  predicate Legal(l: Layout, ops: seq<Op>)
    requires l.Sound()
    decreases |ops|
  {
    ops == [] || (Allowed(l, ops[0]) && Legal(Apply(l, ops[0]), ops[1..]))
  }

  function Exec(l: Layout, ops: seq<Op>): (r: Layout)
    requires l.Sound() && Legal(l, ops)
    ensures r.Sound()
    decreases |ops|
  {
    if ops == [] then l else Exec(Apply(l, ops[0]), ops[1..])
  }

  /** The same operation on a plain byte string. */
  function OnBytes(bytes: seq<byte>, op: Op): seq<byte> {
    match op
    case DoAppend(data) => bytes + data
    case DoPrepend(data) => data + bytes
    case DoRetrieve(len) => if len <= |bytes| then bytes[len..] else []
    case DoRetrieveAll => []
    case DoUnwrite(len) => if len <= |bytes| then bytes[..|bytes| - len] else []
    case DoEnsureWritable(_) => bytes
  }

  function AllOnBytes(bytes: seq<byte>, ops: seq<Op>): seq<byte>
    decreases |ops|
  {
    if ops == [] then bytes else AllOnBytes(OnBytes(bytes, ops[0]), ops[1..])
  }

  method Perform(b: Buffer, op: Op)
    requires b.Valid() && Allowed(b.At(), op)
    modifies b, b.store
    ensures b.Valid() && (b.store == old(b.store) || fresh(b.store))
    ensures b.Contents() == OnBytes(old(b.Contents()), op)
    ensures b.At() == Apply(old(b.At()), op)
  {
    hide AfterEnsure, AfterMakeSpace, AfterRetrieve;
    match op {
      case DoAppend(data) => b.Append(data);
      case DoPrepend(data) => b.Prepend(data);
      case DoRetrieve(len) => b.Retrieve(len);
      case DoRetrieveAll => b.RetrieveAll();
      case DoUnwrite(len) => b.Unwrite(len);
      case DoEnsureWritable(len) => b.EnsureWritableBytes(len);
    }
  }

  /** A buffer refines a byte string: whatever allowed operations a client makes, in whatever
      order, the bytes between the indices are what the same operations make of a byte string. */
  method Client(b: Buffer, ops: seq<Op>)
    requires b.Valid() && Legal(b.At(), ops)
    modifies b, b.store
    ensures b.Valid() && (b.store == old(b.store) || fresh(b.store))
    ensures b.Contents() == AllOnBytes(old(b.Contents()), ops)
    ensures b.At() == Exec(old(b.At()), ops)
    decreases |ops|
  {
    hide Buffer.Contents, Apply, OnBytes, Allowed;
    if ops != [] {
      Perform(b, ops[0]);
      Client(b, ops[1..]);
    }
  }

  // ---- How large the storage can get ----

  /** The buffer grows only through append. */
  predicate GrowsByAppend(ops: seq<Op>) {
    forall k :: 0 <= k < |ops| ==> !ops[k].DoEnsureWritable?
  }

  function Max(a: int, b: int): int {
    if a < b then b else a
  }

  /** The largest number of readable bytes along a run. */
  function Peak(l: Layout, ops: seq<Op>): int
    requires l.Sound() && Legal(l, ops)
    decreases |ops|
  {
    if ops == [] then l.Readable() else Max(l.Readable(), Peak(Apply(l, ops[0]), ops[1..]))
  }

  lemma GrowthStep(l: Layout, len: nat)
    requires l.Sound()
    ensures var r := AfterAppend(l, len); r.size <= Max(l.size, 2 * r.Readable() + 7)
  {
  }

  lemma {:induction false} SpaceBoundFrom(l: Layout, ops: seq<Op>)
    requires l.Sound() && Legal(l, ops) && GrowsByAppend(ops)
    ensures Exec(l, ops).size <= Max(l.size, 2 * Peak(l, ops) + 7)
    decreases |ops|
  {
    if ops != [] {
      if ops[0].DoAppend? {
        GrowthStep(l, |ops[0].data|);
      }
      SpaceBoundFrom(Apply(l, ops[0]), ops[1..]);
    }
  }

  /** Started with initialSize bytes, the storage never exceeds initialSize + 8 or twice the
      largest readable amount plus 7, whichever is larger. */
  lemma SpaceBound(initialSize: nat, ops: seq<Op>)
    requires Legal(Layout(CHEAP_PREPEND + initialSize, CHEAP_PREPEND, CHEAP_PREPEND), ops) && GrowsByAppend(ops)
    ensures var l := Layout(CHEAP_PREPEND + initialSize, CHEAP_PREPEND, CHEAP_PREPEND);
            Exec(l, ops).size <= Max(initialSize + 8, 2 * Peak(l, ops) + 7)
  {
    SpaceBoundFrom(Layout(CHEAP_PREPEND + initialSize, CHEAP_PREPEND, CHEAP_PREPEND), ops);
  }
}
