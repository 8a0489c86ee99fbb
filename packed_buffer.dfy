// src/ImageSharp/Memory/PackedBuffer.cs: the pooled element buffer a
// partition points into, and the Partition value itself.

module PackedBuffers {
  /**
   * Memory.Buffer<T>: a fixed-length array of elements that can be disposed.
   * disposeCalls counts the calls to Dispose, so that ownership rules can be stated.
   */
  class Buffer<T(0)> {
    const data: array<T>
    var disposeCalls: nat

    constructor (length: nat)
      ensures fresh(data) && data.Length == length && disposeCalls == 0
    {
      data := new T[length];
      disposeCalls := 0;
    }

    /** Buffer<T>(T[] array): wraps an existing array. */
    constructor Wrap(elements: array<T>)
      ensures data == elements && disposeCalls == 0
    {
      data := elements;
      disposeCalls := 0;
    }

    method Dispose()
      modifies this
      ensures disposeCalls == old(disposeCalls) + 1
    {
      disposeCalls := disposeCalls + 1;
    }
  }

  /**
   * A window [start, start + length) of a buffer. Empty is the default
   * value of the struct, whose buffer is null.
   */
  datatype Partition<T(0)> = Empty | Partition(buffer: Buffer<T>, start: nat, length: nat)
  {
    /** The bounds the constructor's debug guard checks. */
    predicate InBounds() {
      Empty? || start + length <= buffer.data.Length
    }

    /** The elements the partition exposes: a slice of the buffer, or nothing. */
    function Span(): (s: seq<T>)
      requires InBounds()
      reads if Partition? then {buffer.data} else {}
      ensures Empty? ==> s == []
      ensures Partition? ==> |s| == length
      ensures Partition? ==> forall i :: 0 <= i < length ==> s[i] == buffer.data[start + i]
    {
      if Empty? then [] else buffer.data[start..start + length]
    }
  }

  /**
   * The Partition constructor. Its guard (start and start + length within the
   * buffer) is a debug assertion on callers; every caller in this model meets it.
   */
  function NewPartition<T(0)>(buffer: Buffer<T>, start: nat, length: nat): (p: Partition<T>)
    requires start <= buffer.data.Length && start + length <= buffer.data.Length
    ensures p.Partition? && p.InBounds()
    ensures p.buffer == buffer && p.start == start && p.length == length
  {
    Partition(buffer, start, length)
  }

  /**
   * What a consumer does with a yielded partition: it writes new contents
   * through the span, straight into the buffer the partition points at.
   */
  method WriteSpan<T(0)>(p: Partition<T>, content: seq<T>)
    requires p.Partition? && p.InBounds() && |content| == p.length
    modifies p.buffer.data
    ensures p.buffer.data[..] ==
      old(p.buffer.data[..p.start]) + content + old(p.buffer.data[p.start + p.length..])
    ensures p.Span() == content
  {
    forall i | p.start <= i < p.start + p.length {
      p.buffer.data[i] := content[i - p.start];
    }
    assert p.buffer.data[..] ==
      old(p.buffer.data[..p.start]) + content + old(p.buffer.data[p.start + p.length..]);
  }
}
