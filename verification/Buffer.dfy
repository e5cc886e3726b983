// net/Buffer.cpp: a growable byte queue kept in one array, with a cheap front gap.
//
// `Layout` is the shape of the storage (its size and the two indices); the class ties every
// operation both to a sequence operation on the contents and to a function on the layout.
module NetBuffer {
  import opened Octets

  const CHEAP_PREPEND: nat := 8
  const INITIAL_SIZE: nat := 1024
  const EXTRA_SIZE: nat := 65536

  // ---------- the shape of the storage ----------

  datatype Layout = Layout(size: nat, reader: nat, writer: nat) {
    predicate Fits() {
      reader <= writer <= size && CHEAP_PREPEND <= size
    }

    function Readable(): nat
      requires Fits()
    {
      writer - reader
    }

    function Writable(): nat
      requires Fits()
    {
      size - writer
    }

    function Ensure(len: nat): (l: Layout)
      requires Fits()
      ensures l.Fits() && l.Writable() >= len && l.Readable() == Readable()
    {
      if len <= Writable() then
        this
      else if Writable() + reader < len + CHEAP_PREPEND then
        Layout(writer + len, reader, writer)
      else
        Layout(size, CHEAP_PREPEND, CHEAP_PREPEND + Readable())
    }

    function Append(len: nat): Layout
      requires Fits()
    {
      var l := Ensure(len);
      l.(writer := l.writer + len)
    }

    function Retrieve(len: nat): Layout
      requires Fits() && len <= Readable()
    {
      if len < Readable() then
        this.(reader := reader + len)
      else
        this.(reader := CHEAP_PREPEND, writer := CHEAP_PREPEND)
    }

    function Prepend(len: nat): Layout
      requires Fits() && len <= reader
    {
      this.(reader := reader - len)
    }

    function ReadFd(n: nat): Layout
      requires Fits()
    {
      if n <= Writable() then
        this.(writer := writer + n)
      else
        this.(writer := size).Append(n - Writable())
    }
  }

  const INITIAL: Layout := Layout(CHEAP_PREPEND + INITIAL_SIZE, CHEAP_PREPEND, CHEAP_PREPEND)

  // ---------- runs of operations ----------

  datatype Op = Append(len: nat) | Retrieve(len: nat) | Prepend(len: nat) | ReadFd(len: nat)

  predicate Legal(l: Layout, op: Op)
    requires l.Fits()
  {
    match op
    case Append(_) => true
    case Retrieve(len) => len <= l.Readable()
    case Prepend(len) => len <= l.reader
    case ReadFd(len) => len <= l.Writable() + EXTRA_SIZE
  }

  function Apply(l: Layout, op: Op): (l': Layout)
    requires l.Fits() && Legal(l, op)
    ensures l'.Fits()
  {
    match op
    case Append(len) => l.Append(len)
    case Retrieve(len) => l.Retrieve(len)
    case Prepend(len) => l.Prepend(len)
    case ReadFd(len) => l.ReadFd(len)
  }

  /** Readable plus requested bytes where the operation calls `ensureWritableBytes`; 0 if it does not. */
  function Demand(l: Layout, op: Op): nat
    requires l.Fits() && Legal(l, op)
  {
    match op
    case Append(len) => l.Readable() + len
    case ReadFd(len) => if len <= l.Writable() then 0 else l.Readable() + len
    case _ => 0
  }

  ghost predicate LegalRun(ops: seq<Op>)
    decreases |ops|, 0
  {
    ops == [] ||
    (LegalRun(ops[..|ops| - 1]) && Legal(Run(ops[..|ops| - 1]), ops[|ops| - 1]))
  }

  ghost function Run(ops: seq<Op>): (l: Layout)
    requires LegalRun(ops)
    ensures l.Fits()
    decreases |ops|, 1
  {
    if ops == [] then INITIAL
    else Apply(Run(ops[..|ops| - 1]), ops[|ops| - 1])
  }

  ghost function Peak(ops: seq<Op>): nat
    requires LegalRun(ops)
  {
    if ops == [] then 0
    else Max(Peak(ops[..|ops| - 1]), Demand(Run(ops[..|ops| - 1]), ops[|ops| - 1]))
  }

  /** An empty buffer always has its reader index back at 8: only `retrieve` empties it. */
  lemma {:induction false} EmptyIsReset(ops: seq<Op>)
    requires LegalRun(ops)
    ensures Run(ops).Readable() == 0 ==> Run(ops).reader == 8
  {
    if ops != [] {
      EmptyIsReset(ops[..|ops| - 1]);
    }
  }

  lemma StepBound(l: Layout, op: Op, peak: nat)
    requires l.Fits() && Legal(l, op)
    requires l.Readable() == 0 ==> l.reader == CHEAP_PREPEND
    requires l.size <= Max(CHEAP_PREPEND + INITIAL_SIZE, 2 * peak + 6)
    ensures Apply(l, op).size <= Max(CHEAP_PREPEND + INITIAL_SIZE, 2 * Max(peak, Demand(l, op)) + 6)
  {
  }

  /** The storage never grows past twice the peak demand plus 6, over any run. */
  lemma {:induction false} StorageBound(ops: seq<Op>)
    requires LegalRun(ops)
    ensures Run(ops).size <= Max(1032, 2 * Peak(ops) + 6)
  {
    if ops != [] {
      var init, op := ops[..|ops| - 1], ops[|ops| - 1];
      StorageBound(init);
      EmptyIsReset(init);
      StepBound(Run(init), op, Peak(init));
    }
  }

  /** ... and no smaller bound holds: every peak above the initial size reaches it. */
  lemma StorageBoundIsAttained(peak: nat)
    requires peak > INITIAL_SIZE + 1
    ensures exists ops :: LegalRun(ops) && Peak(ops) == peak && Run(ops).size == 2 * peak + 6
  {
    var len := peak - 1;
    var a := [Append(len)];
    var b := a + [Retrieve(len - 1)];
    var c := b + [Append(len)];
    assert a[..0] == [] && b[..1] == a && c[..2] == b;
    assert LegalRun([]) && Run([]) == INITIAL && Peak([]) == 0;
    assert LegalRun(a) && Run(a) == Layout(len + 8, 8, len + 8) && Peak(a) == len;
    assert LegalRun(b) && Run(b) == Layout(len + 8, len + 7, len + 8) && Peak(b) == len;
    assert LegalRun(c) && Run(c).size == 2 * len + 8 && Peak(c) == peak;
  }

  // ---------- the buffer ----------

  /** What `readv` gave: an error, or the bytes it read. */
  datatype Received = Failed | Got(data: Bytes)

  class Buffer {
    var storage: array<Octet>
    var readerIndex: nat
    var writerIndex: nat

    ghost predicate Valid()
      reads this
    {
      Shape().Fits()
    }

    function Shape(): Layout
      reads this
    {
      Layout(storage.Length, readerIndex, writerIndex)
    }

    /** The readable bytes, in order. */
    function Contents(): (s: Bytes)
      requires Valid()
      reads this, storage
      ensures |s| == Shape().Readable()
    {
      storage[readerIndex..writerIndex]
    }

    constructor ()
      ensures Valid() && fresh(storage)
      ensures Contents() == [] && Shape() == INITIAL == Layout(1032, 8, 8)
    {
      storage := new Octet[CHEAP_PREPEND + INITIAL_SIZE](_ => '\0');
      readerIndex := CHEAP_PREPEND;
      writerIndex := CHEAP_PREPEND;
    }

    function ReadableBytes(): nat
      requires Valid()
      reads this
    {
      writerIndex - readerIndex
    }

    function WritableBytes(): nat
      requires Valid()
      reads this
    {
      storage.Length - writerIndex
    }

    function PrependableBytes(): nat
      reads this
    {
      readerIndex
    }

    /** The offset of the first CRLF from `peek()`; `None` stands for the null pointer. */
    function FindCRLF(): (r: Option<nat>)
      requires Valid()
      reads this, storage
      ensures r.None? ==> CrlfFree(Contents())
      ensures r.Some? ==> CrlfAt(Contents(), r.value) && CrlfFree(Contents()[..r.value])
    {
      var n := Search(Contents());
      SearchUnique(Contents(), n);
      if n == ReadableBytes() then
        None
      else
        SearchSplit(Contents());
        Some(n)
    }

    method RetrieveAll()
      requires Valid()
      modifies this`readerIndex, this`writerIndex
      ensures Valid() && Contents() == []
      ensures readerIndex == CHEAP_PREPEND == writerIndex
    {
      readerIndex := CHEAP_PREPEND;
      writerIndex := CHEAP_PREPEND;
    }

    method Retrieve(len: nat)
      requires Valid() && len <= ReadableBytes()
      modifies this`readerIndex, this`writerIndex
      ensures Valid() && Shape() == old(Shape()).Retrieve(len)
      ensures Contents() == old(Contents())[len..]
    {
      if len < ReadableBytes() {
        readerIndex := readerIndex + len;
      } else {
        RetrieveAll();
      }
    }

    method RetrieveAsString(len: nat) returns (str: Bytes)
      requires Valid() && len <= ReadableBytes()
      modifies this`readerIndex, this`writerIndex
      ensures Valid() && Shape() == old(Shape()).Retrieve(len)
      ensures str == old(Contents())[..len] && Contents() == old(Contents())[len..]
    {
      str := storage[readerIndex..readerIndex + len];
      Retrieve(len);
    }

    /** `std::copy` to a lower address inside the same storage, one byte at a time. */
    method MoveDown(from: nat, to: nat, dest: nat)
      requires dest <= from <= to <= storage.Length
      modifies storage
      ensures storage[dest..dest + (to - from)] == old(storage[from..to])
    {
      var i := 0;
      while i < to - from
        invariant i <= to - from
        invariant forall k :: dest <= k < dest + i ==> storage[k] == old(storage[..])[k + (from - dest)]
        invariant forall k :: from + i <= k < storage.Length ==> storage[k] == old(storage[..])[k]
      {
        storage[dest + i] := storage[from + i];
        i := i + 1;
      }
    }

    /** Grows the storage, or moves the readable bytes back to offset 8. */
    method MakeSpace(len: nat)
      requires Valid() && WritableBytes() < len
      modifies this, storage
      ensures Valid() && Shape() == old(Shape()).Ensure(len)
      ensures Contents() == old(Contents())
      ensures fresh({storage} - {old(storage)})
    {
      if WritableBytes() + PrependableBytes() < len + CHEAP_PREPEND {
        var grown := new Octet[writerIndex + len](_ => '\0');
        forall i | 0 <= i < storage.Length {
          grown[i] := storage[i];
        }
        assert grown[readerIndex..writerIndex] == Contents();
        storage := grown;
        assert Contents() == grown[readerIndex..writerIndex];
      } else {
        assert CHEAP_PREPEND < readerIndex;
        var readable := ReadableBytes();
        MoveDown(readerIndex, writerIndex, CHEAP_PREPEND);
        readerIndex := CHEAP_PREPEND;
        writerIndex := readerIndex + readable;
        assert readable == ReadableBytes();
      }
    }

    method EnsureWritableBytes(len: nat)
      requires Valid()
      modifies this, storage
      ensures Valid() && Shape() == old(Shape()).Ensure(len)
      ensures Contents() == old(Contents())
      ensures fresh({storage} - {old(storage)})
    {
      if WritableBytes() < len {
        MakeSpace(len);
      }
      assert WritableBytes() >= len;
    }

    /** Bytes put in the free tail, by `std::copy` or by the kernel, then `hasWritten`. */
    method FillTail(data: Bytes)
      requires Valid() && |data| <= WritableBytes()
      modifies this`writerIndex, storage
      ensures Valid() && Shape() == old(Shape()).(writer := old(writerIndex) + |data|)
      ensures Contents() == old(Contents()) + data
    {
      forall i | 0 <= i < |data| {
        storage[writerIndex + i] := data[i];
      }
      writerIndex := writerIndex + |data|;
    }

    method Append(data: Bytes)
      requires Valid()
      modifies this, storage
      ensures Valid() && Shape() == old(Shape()).Append(|data|)
      ensures Contents() == old(Contents()) + data
      ensures fresh({storage} - {old(storage)})
    {
      EnsureWritableBytes(|data|);
      FillTail(data);
    }

    method Prepend(data: Bytes)
      requires Valid() && |data| <= PrependableBytes()
      modifies this, storage
      ensures Valid() && Shape() == old(Shape()).Prepend(|data|)
      ensures Contents() == data + old(Contents())
      ensures storage == old(storage)
    {
      readerIndex := readerIndex - |data|;
      forall i | 0 <= i < |data| {
        storage[readerIndex + i] := data[i];
      }
    }

    /** `readv` into the free tail and a 65536-byte stack buffer; `got` is what the kernel returned. */
    method ReadFd(got: Received) returns (n: int)
      requires Valid()
      requires got.Got? ==> |got.data| <= WritableBytes() + 65536
      modifies this, storage
      ensures Valid() && fresh({storage} - {old(storage)})
      ensures n == if got.Failed? then -1 else |got.data|
      ensures Contents() == old(Contents()) + (if got.Failed? then [] else got.data)
      ensures Shape() == if got.Failed? then old(Shape()) else old(Shape()).ReadFd(|got.data|)
    {
      if got.Failed? {
        return -1;
      }
      n := |got.data|;
      var writable := WritableBytes();
      ghost var start := Contents();
      var head := got.data[..Min(n, writable)];
      FillTail(head);
      if n > writable {
        var tail := got.data[writable..];
        Append(tail);
        Regroup(start, head, tail);
        assert head + tail == got.data;
      }
    }

    // ---------- network-order integers of 1, 2 or 4 bytes ----------

    method AppendInt(x: int, width: nat)
      requires Valid() && width in {1, 2, 4} && FitsInt(x, width)
      modifies this, storage
      ensures Valid() && Contents() == old(Contents()) + EncodeInt(x, width)
      ensures fresh({storage} - {old(storage)})
    {
      Append(EncodeInt(x, width));
    }

    method PrependInt(x: int, width: nat)
      requires Valid() && width in {1, 2, 4} && FitsInt(x, width) && width <= PrependableBytes()
      modifies this, storage
      ensures Valid() && Contents() == EncodeInt(x, width) + old(Contents())
      ensures storage == old(storage)
    {
      Prepend(EncodeInt(x, width));
    }

    method ReadInt(width: nat) returns (x: int)
      requires Valid() && width in {1, 2, 4} && width <= ReadableBytes()
      modifies this`readerIndex, this`writerIndex
      ensures Valid() && x == DecodeInt(old(Contents())[..width])
      ensures Contents() == old(Contents())[width..]
    {
      x := DecodeInt(Contents()[..width]);
      Retrieve(width);
    }
  }

  datatype Option<+T> = None | Some(value: T)

  // ---------- mixed-width integers read back in order ----------

  datatype Field = Field(x: int, width: nat)

  function EncodeAll(fields: seq<Field>): Bytes {
    if fields == [] then [] else EncodeInt(fields[0].x, fields[0].width) + EncodeAll(fields[1..])
  }

  /** The values of a series of `readInt` calls of these widths, and the bytes left. */
  function DecodeAll(widths: seq<nat>, s: Bytes): Option<(seq<int>, Bytes)> {
    if widths == [] then
      Some(([], s))
    else if |s| < widths[0] then
      None
    else match DecodeAll(widths[1..], s[widths[0]..])
      case None => None
      case Some((xs, rest)) => Some(([DecodeInt(s[..widths[0]])] + xs, rest))
  }

  function Widths(fields: seq<Field>): seq<nat> {
    if fields == [] then [] else [fields[0].width] + Widths(fields[1..])
  }

  function Values(fields: seq<Field>): seq<int> {
    if fields == [] then [] else [fields[0].x] + Values(fields[1..])
  }

  lemma HeadAndTail(head: Bytes, rest: Bytes)
    ensures (head + rest)[..|head|] == head && (head + rest)[|head|..] == rest
  {
  }

  lemma {:induction false} MixedIntegersRoundTrip(fields: seq<Field>, tail: Bytes)
    requires forall f <- fields :: FitsInt(f.x, f.width)
    ensures DecodeAll(Widths(fields), EncodeAll(fields) + tail) == Some((Values(fields), tail))
  {
    if fields == [] {
      assert EncodeAll(fields) + tail == tail;
    } else {
      var f, rest := fields[0], fields[1..];
      var head := EncodeInt(f.x, f.width);
      MixedIntegersRoundTrip(rest, tail);
      IntRoundTrip(f.x, f.width);
      Regroup(head, EncodeAll(rest), tail);
      HeadAndTail(head, EncodeAll(rest) + tail);
      assert Widths(fields)[1..] == Widths(rest);
    }
  }
}
