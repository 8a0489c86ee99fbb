// src/ImageSharp/Memory/DummyPackedBuffer.cs: a packed buffer that stores
// its elements as they are and hands the whole buffer out as one partition.

module DummyPackedBuffers {
  import opened Wrappers
  import opened Common
  import opened PackedBuffers
  import opened CompressedBuffers

  /** DummyPackedBuffer<T>: wraps one element buffer, owned or borrowed. */
  class DummyPackedBuffer<T(0)> {
    const totalLength: nat
    const buffer: Buffer<T>
    const isBufferOwner: bool
    var isDisposed: bool

    ghost predicate Valid()
      reads this
    {
      totalLength == buffer.data.Length
    }

    constructor Init(buffer: Buffer<T>, isBufferOwner: bool)
      ensures Valid() && this.buffer == buffer && this.isBufferOwner == isBufferOwner
      ensures totalLength == buffer.data.Length && !isDisposed
    {
      totalLength := buffer.data.Length;
      this.buffer := buffer;
      this.isBufferOwner := isBufferOwner;
      isDisposed := false;
    }

    /**
     * DummyPackedBuffer(Buffer<T>): borrows the caller's buffer. The base
     * constructor reads buffer.Length before the null guard runs, so a null
     * buffer fails with a NullReferenceException, not ArgumentNullException.
     */
    static method Borrow(b: Buffer?<T>) returns (r: Result<DummyPackedBuffer<T>, Error>)
      ensures b == null <==> r.Failure?
      ensures r.Failure? ==> r.error == NullReference
      ensures r.Success? ==> fresh(r.value) && r.value.Valid() && r.value.buffer == b
                             && !r.value.isBufferOwner && !r.value.isDisposed
    {
      if b == null {
        return Failure(NullReference);
      }
      var d := new DummyPackedBuffer.Init(b, false);
      return Success(d);
    }

    /** DummyPackedBuffer(int length): allocates a buffer of that length and owns it. */
    static method Allocate(length: nat) returns (d: DummyPackedBuffer<T>)
      ensures fresh(d) && fresh(d.buffer) && d.Valid() && d.totalLength == length
      ensures d.isBufferOwner && !d.isDisposed && d.buffer.disposeCalls == 0
    {
      var b := new Buffer<T>(length);
      d := new DummyPackedBuffer.Init(b, true);
    }

    /**
     * Dispose: the first call marks the buffer disposed and releases the
     * wrapped buffer if, and only if, this object allocated it; later calls
     * do nothing.
     */
    method Dispose()
      modifies this, buffer
      ensures isDisposed
      ensures buffer.disposeCalls ==
        old(buffer.disposeCalls) + (if !old(isDisposed) && isBufferOwner then 1 else 0)
    {
      if isDisposed {
        return;
      }
      isDisposed := true;
      if isBufferOwner {
        buffer.Dispose();
      }
    }

    /**
     * ReadAllPartitions: exactly one partition, the whole wrapped buffer,
     * even when that buffer is empty.
     */
    method ReadAllPartitions() returns (parts: seq<seq<T>>)
      requires Valid()
      ensures parts == [buffer.data[..]]
    {
      var cursor := new DummyIterator(buffer);
      parts := [];
      var more := cursor.MoveNext();
      while more
        invariant cursor.buffer == null && |parts| <= 1
        invariant more ==> parts == [] && cursor.current == Partition(buffer, 0, buffer.data.Length)
        invariant !more ==> parts == [buffer.data[..]]
        decreases 1 - |parts|
      {
        cursor.ReadCurrent();
        assert cursor.current.Span() == buffer.data[..];
        parts := parts + [cursor.current.Span()];
        more := cursor.MoveNext();
      }
      cursor.Dispose();
    }

    /**
     * WriteAllPartitions: the one partition aliases the wrapped buffer, so
     * the consumer's writes land in it directly. WriteCurrent is a no-op;
     * unlike a compressed buffer, a consumer that abandons after filling the
     * partition keeps what it wrote.
     */
    method WriteAllPartitions(fill: (nat, seq<T>) -> seq<T>, abandon: Abandon)
      returns (ghost written: seq<seq<T>>)
      requires Valid()
      requires forall pos: nat, span: seq<T> :: |fill(pos, span)| == |span|
      modifies buffer.data
      ensures written == if abandon == Some(0) then [] else [fill(0, old(buffer.data[..]))]
      ensures buffer.data[..] == if written == [] then old(buffer.data[..]) else written[0]
    {
      var cursor := new DummyIterator(buffer);
      written := [];
      var filled := 0;
      var more := cursor.MoveNext();
      while more
        invariant cursor.buffer == null && filled == |written| <= 1
        invariant more ==> written == [] && buffer.data[..] == old(buffer.data[..])
                           && cursor.current == Partition(buffer, 0, buffer.data.Length)
        invariant !more ==> written == [fill(0, old(buffer.data[..]))] && buffer.data[..] == written[0]
        invariant abandon != Some(0) || filled == 0
        decreases 1 - |written|
      {
        if abandon == Some(filled) {
          break;
        }
        assert cursor.current.Span() == buffer.data[..];
        var content := fill(0, cursor.current.Span());
        WriteSpan(cursor.current, content);
        assert buffer.data[..] == content;
        written := written + [content];
        filled := filled + 1;
        if abandon == Some(filled) {
          break;
        }
        cursor.WriteCurrent();
        more := cursor.MoveNext();
      }
      cursor.Dispose();
    }

    /** The write-then-read pass of the tests: reading back gives what was written. */
    method WriteThenReadAll(fill: (nat, seq<T>) -> seq<T>) returns (ghost written: seq<seq<T>>, parts: seq<seq<T>>)
      requires Valid()
      requires forall pos: nat, span: seq<T> :: |fill(pos, span)| == |span|
      modifies buffer.data
      ensures written == [fill(0, old(buffer.data[..]))]
      ensures parts == written && buffer.data[..] == written[0]
    {
      written := WriteAllPartitions(fill, None);
      parts := ReadAllPartitions();
    }
  }

  /**
   * The DummyPackedBuffer iterator: it holds the wrapped buffer until its
   * first MoveNext, which hands out the whole buffer and drops it.
   */
  class DummyIterator<T(0)> {
    var buffer: Buffer?<T>
    var current: Partition<T>

    constructor (buffer: Buffer<T>)
      ensures this.buffer == buffer && current == Empty
    {
      this.buffer := buffer;
      current := Empty;
    }

    /**
     * The first call yields the partition [0, Length) of the buffer and
     * forgets the buffer; every later call yields Empty and false.
     */
    method MoveNext() returns (more: bool)
      modifies this
      ensures buffer == null
      ensures more <==> old(buffer) != null
      ensures more ==> current == Partition(old(buffer), 0, old(buffer).data.Length) && current.InBounds()
      ensures !more ==> current == Empty
    {
      if buffer == null {
        current := Empty;
        return false;
      } else {
        current := NewPartition(buffer, 0, buffer.data.Length);
      }
      buffer := null;
      return true;
    }

    /** ReadCurrent: the partition already is the data, nothing to decompress. */
    method ReadCurrent()
      ensures current == old(current) && buffer == old(buffer)
    {
    }

    /** WriteCurrent: nothing to compress, the writes are already in place. */
    method WriteCurrent()
      ensures current == old(current) && buffer == old(buffer)
    {
    }

    method Dispose()
      ensures current == old(current) && buffer == old(buffer)
    {
    }
  }
}
