// src/ImageSharp/Memory/CompressedBuffer.cs together with the enumerators of
// src/ImageSharp/Memory/PackedBuffer.cs that drive its cursor.

module CompressedBuffers {
  import opened Wrappers
  import opened Common
  import opened Compression
  import opened PackedBuffers
  import opened Partitioning

  /**
   * How a consumer of WriteAllPartitions leaves the enumeration: None drains
   * it; Some(m) abandons it right after filling its m-th partition (m = 0:
   * on receiving the first one, without filling it).
   */
  type Abandon = Option<nat>

  /** The number of partitions the consumer fills. */
  function Filled(count: nat, abandon: Abandon): nat {
    match abandon
    case None => count
    case Some(m) => Min(m, count)
  }

  /** The number of partitions compressed back into the store. */
  function Compressed(count: nat, abandon: Abandon): nat {
    match abandon
    case None => count
    case Some(m) => if m > count then count else if m == 0 then 0 else m - 1
  }

  /**
   * The contents a consumer writes: partition k holds fill(Mul(k, p), span), where
   * span is what the shared scratch buffer held when partition k was handed
   * out: the initial contents for the first one, the previous partition's
   * contents after that.
   */
  ghost predicate ConsumerRun<T>(fill: (nat, seq<T>) -> seq<T>, n: nat, p: nat,
                                 initial: seq<T>, written: seq<seq<T>>)
  {
    forall k :: 0 <= k < |written| ==> PartitionFilled(fill, n, p, initial, written, k)
  }

  /** The scratch contents when partition k is handed out. */
  function ScratchBefore<T>(initial: seq<T>, written: seq<seq<T>>, k: nat): seq<T>
    requires k <= |written|
  {
    if k == 0 then initial else written[k - 1]
  }

  /** Partition k was filled by the consumer from the scratch contents it was handed. */
  ghost predicate PartitionFilled<T>(fill: (nat, seq<T>) -> seq<T>, n: nat, p: nat,
                                     initial: seq<T>, written: seq<seq<T>>, k: nat)
    requires k < |written|
  {
    p > 0 && |initial| == p && Mul(k, p) < n
    && |written[k]| == PartitionLength(n, p, k)
    && PartitionLength(n, p, k) <= |ScratchBefore(initial, written, k)|
    && written[k] == fill(Mul(k, p), ScratchBefore(initial, written, k)[..PartitionLength(n, p, k)])
  }

  /** A run extended by the next partition, filled from the scratch contents it was handed. */
  lemma ConsumerRunExtended<T>(fill: (nat, seq<T>) -> seq<T>, n: nat, p: nat,
                               initial: seq<T>, written: seq<seq<T>>, content: seq<T>)
    requires ConsumerRun(fill, n, p, initial, written)
    requires p > 0 && |initial| == p && Mul(|written|, p) < n
    requires PartitionLength(n, p, |written|) <= |ScratchBefore(initial, written, |written|)|
    requires content == fill(Mul(|written|, p), ScratchBefore(initial, written, |written|)[..PartitionLength(n, p, |written|)])
    requires |content| == PartitionLength(n, p, |written|)
    ensures ConsumerRun(fill, n, p, initial, written + [content])
  {
    var extended := written + [content];
    forall k | 0 <= k < |extended|
      ensures PartitionFilled(fill, n, p, initial, extended, k)
    {
      if k < |written| {
        assert PartitionFilled(fill, n, p, initial, written, k);
        assert ScratchBefore(initial, extended, k) == ScratchBefore(initial, written, k);
      }
    }
  }

  /** The bytes of partition k's window in a store of n * s bytes. */
  function WindowOf(data: seq<byte>, n: nat, p: nat, s: nat, k: nat): (w: seq<byte>)
    requires p > 0 && Mul(k, p) < n && |data| == Mul(n, s)
    ensures |w| == Mul(PartitionLength(n, p, k), s)
  {
    WindowInStore(n, p, s, k);
    data[WindowStart(p, s, k)..WindowEnd(n, p, s, k)]
  }

  /** The first c partitions of a store, each decompressed from its own window. */
  function Unpacked<T>(data: seq<byte>, n: nat, p: nat, s: nat,
                       decompress: seq<byte> -> seq<T>, c: nat): (parts: seq<seq<T>>)
    requires (n == 0 || p > 0) && c <= Count(n, p) && |data| == Mul(n, s)
    ensures |parts| == c
  {
    if c == 0 then []
    else
      PositionInRange(n, p, c - 1);
      Unpacked(data, n, p, s, decompress, c - 1) + [decompress(WindowOf(data, n, p, s, c - 1))]
  }

  /** The compressed forms of parts, laid end to end. */
  function Packed<T>(compress: seq<T> -> seq<byte>, parts: seq<seq<T>>): seq<byte>
    decreases |parts|
  {
    if parts == [] then [] else Packed(compress, parts[..|parts| - 1]) + compress(parts[|parts| - 1])
  }

  /**
   * The store after the first c partitions of written have been compressed:
   * its first bytes are their compressed forms end to end, and every byte
   * past them is as it was originally.
   */
  ghost predicate StoreProgress<T>(data: seq<byte>, original: seq<byte>, n: nat, p: nat, s: nat,
                                   compress: seq<T> -> seq<byte>, written: seq<seq<T>>, c: nat)
  {
    (n == 0 || p > 0) && |data| == Mul(n, s) && |original| == |data| && c <= |written|
    && PrefixEnd(n, p, s, c) <= |data|
    && data[..PrefixEnd(n, p, s, c)] == Packed(compress, written[..c])
    && data[PrefixEnd(n, p, s, c)..] == original[PrefixEnd(n, p, s, c)..]
  }

  /** Recording one more filled partition keeps the progress made on the store. */
  lemma StoreProgressGrows<T>(data: seq<byte>, original: seq<byte>, n: nat, p: nat, s: nat,
                              compress: seq<T> -> seq<byte>, written: seq<seq<T>>, content: seq<T>)
    requires StoreProgress(data, original, n, p, s, compress, written, |written|)
    ensures StoreProgress(data, original, n, p, s, compress, written + [content], |written|)
  {
    assert (written + [content])[..|written|] == written[..|written|];
  }

  /** Splicing bytes over before[lo..hi] keeps what lies outside [lo, hi). */
  lemma Spliced(before: seq<byte>, after: seq<byte>, bytes: seq<byte>, lo: nat, hi: nat)
    requires lo <= hi <= |before| && |bytes| == hi - lo
    requires after == before[..lo] + bytes + before[hi..]
    ensures |after| == |before|
    ensures after[..hi] == before[..lo] + bytes
    ensures after[hi..] == before[hi..]
  {
  }

  /** A suffix that agrees from lo on agrees from any later hi on. */
  lemma SuffixKept(data: seq<byte>, original: seq<byte>, lo: nat, hi: nat)
    requires lo <= hi <= |data| == |original|
    requires data[lo..] == original[lo..]
    ensures data[hi..] == original[hi..]
  {
    assert data[hi..] == data[lo..][hi - lo..];
    assert original[hi..] == original[lo..][hi - lo..];
  }

  /** Appending one part appends its compressed form. */
  lemma PackedStep<T>(compress: seq<T> -> seq<byte>, written: seq<seq<T>>, k: nat)
    requires k < |written|
    ensures Packed(compress, written[..k + 1]) == Packed(compress, written[..k]) + compress(written[k])
  {
    assert written[..k + 1][..k] == written[..k];
  }

  /**
   * Overwriting window k, which follows the first k compressed partitions,
   * with the compressed form of written[k] advances the progress by one.
   */
  lemma StoreStep<T>(before: seq<byte>, after: seq<byte>, original: seq<byte>, n: nat, p: nat, s: nat,
                     compress: seq<T> -> seq<byte>, written: seq<seq<T>>, k: nat)
    requires StoreProgress(before, original, n, p, s, compress, written, k)
    requires k < |written|
    requires PrefixEnd(n, p, s, k) <= PrefixEnd(n, p, s, k + 1) <= |before|
    requires |compress(written[k])| == PrefixEnd(n, p, s, k + 1) - PrefixEnd(n, p, s, k)
    requires after == before[..PrefixEnd(n, p, s, k)] + compress(written[k])
                      + before[PrefixEnd(n, p, s, k + 1)..]
    ensures StoreProgress(after, original, n, p, s, compress, written, k + 1)
  {
    var lo, hi := PrefixEnd(n, p, s, k), PrefixEnd(n, p, s, k + 1);
    Spliced(before, after, compress(written[k]), lo, hi);
    SuffixKept(before, original, lo, hi);
    PackedStep(compress, written, k);
  }

  /** Each part compressed and decompressed again. */
  function Restored<T(!new)>(c: Compression<T>, parts: seq<seq<T>>): seq<seq<T>>
    decreases |parts|
  {
    if parts == [] then []
    else Restored(c, parts[..|parts| - 1]) + [c.decompress(c.compress(parts[|parts| - 1]))]
  }

  /** Restoring parts on which the compression is lossless gives them back. */
  lemma {:induction false} RestoredLossless<T(!new)>(c: Compression<T>, parts: seq<seq<T>>)
    requires forall j :: 0 <= j < |parts| ==> c.LosslessOn(parts[j])
    ensures Restored(c, parts) == parts
    decreases |parts|
  {
    if parts != [] {
      var last := |parts| - 1;
      RestoredLossless(c, parts[..last]);
      assert parts == parts[..last] + [parts[last]];
    }
  }

  /**
   * Reading back a store whose first bytes hold the first k partitions,
   * compressed end to end, gives each of them decompressed after compression.
   */
  lemma {:induction false} UnpackPacked<T(!new)>(data: seq<byte>, n: nat, p: nat, c: Compression<T>,
                                           written: seq<seq<T>>, k: nat)
    requires c.Valid() && (n == 0 || p > 0) && k <= Count(n, p) && k <= |written|
    requires |data| == Mul(n, c.elementSize)
    requires forall j {:trigger written[j]} :: 0 <= j < k && Mul(j, p) < n ==>
      |written[j]| == PartitionLength(n, p, j)
    requires PrefixEnd(n, p, c.elementSize, k) <= |data|
    requires data[..PrefixEnd(n, p, c.elementSize, k)] == Packed(c.compress, written[..k])
    ensures Unpacked(data, n, p, c.elementSize, c.decompress, k) == Restored(c, written[..k])
    decreases k
  {
    if k > 0 {
      var last := k - 1;
      PositionInRange(n, p, last);
      assert |written[last]| == PartitionLength(n, p, last);
      LastWindow(data, n, p, c, written, last);
      UnpackPacked(data, n, p, c, written, last);
      assert written[..k][..last] == written[..last];
      assert Unpacked(data, n, p, c.elementSize, c.decompress, k)
          == Unpacked(data, n, p, c.elementSize, c.decompress, last)
             + [c.decompress(WindowOf(data, n, p, c.elementSize, last))];
    }
  }

  /**
   * When the store begins with partitions 0..k compressed end to end, it
   * begins with partitions 0..k-1 the same way, and window k holds the
   * compressed form of partition k.
   */
  lemma LastWindow<T(!new)>(data: seq<byte>, n: nat, p: nat, c: Compression<T>, written: seq<seq<T>>, k: nat)
    requires c.Valid() && p > 0 && Mul(k, p) < n && k < |written|
    requires |data| == Mul(n, c.elementSize)
    requires |written[k]| == PartitionLength(n, p, k)
    requires PrefixEnd(n, p, c.elementSize, k + 1) <= |data|
    requires data[..PrefixEnd(n, p, c.elementSize, k + 1)] == Packed(c.compress, written[..k + 1])
    ensures PrefixEnd(n, p, c.elementSize, k) <= |data|
    ensures data[..PrefixEnd(n, p, c.elementSize, k)] == Packed(c.compress, written[..k])
    ensures WindowOf(data, n, p, c.elementSize, k) == c.compress(written[k])
  {
    var s := c.elementSize;
    var lo, hi := PrefixEnd(n, p, s, k), PrefixEnd(n, p, s, k + 1);
    WindowInStore(n, p, s, k);
    WindowsContiguous(n, p, s, k);
    PackedStep(c.compress, written, k);
    PrefixSplit(data, lo, hi, Packed(c.compress, written[..k]), c.compress(written[k]));
  }

  /** A prefix data[..hi] made of two pieces splits at the first piece's length. */
  lemma PrefixSplit(data: seq<byte>, lo: nat, hi: nat, head: seq<byte>, tail: seq<byte>)
    requires lo <= hi <= |data| && |tail| == hi - lo
    requires data[..hi] == head + tail
    ensures data[..lo] == head && data[lo..hi] == tail
  {
    assert data[..lo] == data[..hi][..lo];
    assert data[lo..hi] == data[..hi][lo..];
  }

  /**
   * The write-then-read round trip: once a consumer has drained
   * WriteAllPartitions, reading the store back gives exactly what it wrote,
   * provided the compression is lossless on everything the consumer writes.
   */
  lemma WriteThenRead<T(!new)>(data: seq<byte>, original: seq<byte>, n: nat, p: nat, c: Compression<T>,
                         fill: (nat, seq<T>) -> seq<T>, initial: seq<T>, written: seq<seq<T>>)
    requires c.Valid() && (n == 0 || p > 0) && |written| == Count(n, p)
    requires ConsumerRun(fill, n, p, initial, written)
    requires StoreProgress(data, original, n, p, c.elementSize, c.compress, written, |written|)
    requires forall k: nat, span: seq<T> :: k < Count(n, p) && |span| <= p ==> c.LosslessOn(fill(Mul(k, p), span))
    ensures Unpacked(data, n, p, c.elementSize, c.decompress, |written|) == written
  {
    forall j | 0 <= j < |written|
      ensures Mul(j, p) < n ==> |written[j]| == PartitionLength(n, p, j)
      ensures c.LosslessOn(written[j])
    {
      assert PartitionFilled(fill, n, p, initial, written, j);
      var span := ScratchBefore(initial, written, j)[..PartitionLength(n, p, j)];
      assert written[j] == fill(Mul(j, p), span) && |span| <= p;
    }
    assert written[..|written|] == written;
    UnpackPacked(data, n, p, c, written, |written|);
    RestoredLossless(c, written);
  }

  /** CompressedBuffer<T, TCompression>: N elements stored compressed, s bytes each. */
  class CompressedBuffer<T(0, !new)> {
    const totalLength: nat
    const compression: Compression<T>
    const compressedData: array<byte>
    const preferredPartitionLength: nat
    const partitionCount: nat
    var isDisposed: bool

    ghost predicate Valid()
      reads this
    {
      compression.Valid()
      && (totalLength == 0 || preferredPartitionLength > 0)
      && compressedData.Length == Mul(totalLength, compression.elementSize)
      && partitionCount == Count(totalLength, preferredPartitionLength)
    }

    /**
     * The store gets totalLength * s bytes. Construction with a preferred
     * length of 0 and a non-empty buffer fails (PartitionCount says how), so
     * such a buffer never exists.
     */
    constructor (compression: Compression<T>, totalLength: nat, preferredPartitionLength: nat)
      requires compression.Valid()
      requires PartitionCount(totalLength, preferredPartitionLength).Success?
      ensures Valid() && fresh(compressedData) && !isDisposed
      ensures this.compression == compression && this.totalLength == totalLength
      ensures this.preferredPartitionLength == preferredPartitionLength
      ensures compressedData.Length == Mul(totalLength, compression.elementSize)
    {
      this.totalLength := totalLength;
      this.compression := compression;
      MulIsProduct(totalLength, compression.elementSize);
      compressedData := new byte[totalLength * compression.elementSize];
      this.preferredPartitionLength := preferredPartitionLength;
      var count := 0;
      if totalLength != 0 {
        count := totalLength / preferredPartitionLength;
        if totalLength % preferredPartitionLength > 0 {
          count := count + 1;
        }
      }
      CountMatchesConstructor(totalLength, preferredPartitionLength);
      partitionCount := count;
      isDisposed := false;
    }

    /** Dispose: only the first call has an effect; the compressed store is not released. */
    method Dispose()
      modifies this
      ensures isDisposed
    {
      if isDisposed {
        return;
      }
      isDisposed := true;
    }

    /**
     * ReadAllPartitions: a fresh iterator walks the partitions; each is
     * decompressed from its window before the consumer sees it. The result
     * lists what the consumer sees, partition by partition; the store is not
     * changed (the method modifies nothing that existed before the call).
     */
    method ReadAllPartitions() returns (parts: seq<seq<T>>)
      requires Valid()
      ensures parts == Unpacked(compressedData[..], totalLength, preferredPartitionLength,
                                compression.elementSize, compression.decompress, partitionCount)
    {
      ghost var store := compressedData[..];
      var cursor := new CompressedBufferIterator(this);
      parts := [];
      var more := cursor.MoveNext();
      while more
        invariant ReadState(cursor, store, parts, more)
        invariant fresh(cursor) && fresh(cursor.partitionBuffer) && fresh(cursor.partitionBuffer.data)
        decreases partitionCount - |parts|, more
      {
        var part;
        part, more := ReadNext(cursor, store, parts);
        parts := parts + [part];
      }
      cursor.Dispose();
    }

    /**
     * A drained write pass followed by a read pass: what is read back is
     * exactly what the consumer wrote into each partition it was handed
     * (starting from the scratch buffer's initial contents), for a
     * consumer whose values the compression keeps at the positions it
     * visits (for the little-endian compression of width w, values below
     * 256^w).
     */
    method WriteThenReadAll(fill: (nat, seq<T>) -> seq<T>)
      returns (ghost written: seq<seq<T>>, ghost initial: seq<T>, parts: seq<seq<T>>)
      requires Valid()
      requires forall pos: nat, span: seq<T> :: |fill(pos, span)| == |span|
      requires forall k: nat, span: seq<T> :: k < partitionCount && |span| <= preferredPartitionLength ==>
        compression.LosslessOn(fill(Mul(k, preferredPartitionLength), span))
      modifies compressedData
      ensures |initial| == preferredPartitionLength && |written| == partitionCount
      ensures ConsumerRun(fill, totalLength, preferredPartitionLength, initial, written)
      ensures parts == written
    {
      written, initial := WriteAllPartitions(fill, None);
      parts := ReadAllPartitions();
      WriteThenRead(compressedData[..], old(compressedData[..]), totalLength, preferredPartitionLength,
                    compression, fill, initial, written);
    }

    /**
     * The state of ReadAllPartitions between two requests of the consumer:
     * the partitions handed out so far are the decompressed windows, and the
     * store is as it was.
     */
    ghost predicate ReadState(cursor: CompressedBufferIterator<T>, store: seq<byte>,
                              parts: seq<seq<T>>, more: bool)
      reads this, cursor, cursor.buffer, compressedData
    {
      Valid() && cursor.Valid() && cursor.buffer == this && compressedData[..] == store
      && |parts| <= partitionCount
      && (more ==> cursor.Positioned() && cursor.yielded == |parts| + 1)
      && (!more ==> cursor.finished && cursor.yielded == |parts|)
      && parts == Unpacked(store, totalLength, preferredPartitionLength,
                           compression.elementSize, compression.decompress, |parts|)
    }

    /**
     * One step of ReadAllPartitions: the partition under the cursor is
     * decompressed and handed out (part), then the cursor moves on.
     */
    method ReadNext(cursor: CompressedBufferIterator<T>, ghost store: seq<byte>, ghost parts: seq<seq<T>>)
      returns (part: seq<T>, more: bool)
      requires ReadState(cursor, store, parts, true)
      modifies cursor, cursor.partitionBuffer.data
      ensures ReadState(cursor, store, parts + [part], more)
    {
      part := ReadPartition(cursor, store, |parts|);
      assert parts + [part] == Unpacked(store, totalLength, preferredPartitionLength,
                                        compression.elementSize, compression.decompress, |parts| + 1);
      more := cursor.MoveNext();
    }

    /** ReadCurrent on partition k: the partition receives its decompressed window. */
    method ReadPartition(cursor: CompressedBufferIterator<T>, ghost store: seq<byte>, ghost k: nat)
      returns (part: seq<T>)
      requires Valid() && cursor.Positioned() && cursor.buffer == this && compressedData[..] == store
      requires cursor.yielded == k + 1
      modifies cursor.partitionBuffer.data
      ensures compressedData[..] == store && k < partitionCount
      ensures part == compression.decompress(WindowOf(store, totalLength, preferredPartitionLength,
                                                      compression.elementSize, k))
    {
      ghost var window := cursor.CompressedSpan();
      PartitionShape(totalLength, preferredPartitionLength, k);
      assert compressedData[window.0..window.1]
          == WindowOf(store, totalLength, preferredPartitionLength, compression.elementSize, k);
      cursor.ReadCurrent();
      assert cursor.CompressedSpan() == window;
      part := cursor.current.Span();
    }

    /**
     * WriteAllPartitions: a fresh iterator hands out each partition; the
     * consumer fills it, and only when the consumer asks for the next one is
     * it compressed into its window. A consumer that abandons the enumeration
     * right after filling a partition loses that partition's contents.
     */
    method WriteAllPartitions(fill: (nat, seq<T>) -> seq<T>, abandon: Abandon)
      returns (ghost written: seq<seq<T>>, ghost initial: seq<T>)
      requires Valid()
      requires forall pos: nat, span: seq<T> :: |fill(pos, span)| == |span|
      modifies compressedData
      ensures WriteOutcome(fill, abandon, initial, written, old(compressedData[..]))
      ensures |initial| == preferredPartitionLength
    {
      ghost var original := compressedData[..];
      var cursor, more;
      cursor, more, initial := Begin(fill, original);
      written := [];
      var filled := 0;
      while more && abandon != Some(filled)
        invariant WriteState(cursor, fill, initial, written, original, more)
        invariant fresh(cursor) && fresh(cursor.partitionBuffer) && fresh(cursor.partitionBuffer.data)
        invariant filled == |written|
        invariant abandon.Some? ==> filled < abandon.value || filled == abandon.value == 0
        decreases partitionCount - |written|, more
      {
        var content, stop;
        content, stop, more := WriteNext(cursor, fill, abandon, filled, initial, written, original);
        written := written + [content];
        filled := filled + 1;
        if stop {
          cursor.Dispose();
          return;
        }
      }
      Stopped(cursor, fill, abandon, initial, written, original, more);
      cursor.Dispose();
    }

    /** The start of WriteAllPartitions: a fresh iterator asked for its first partition. */
    method Begin(fill: (nat, seq<T>) -> seq<T>, ghost original: seq<byte>)
      returns (cursor: CompressedBufferIterator<T>, more: bool, ghost initial: seq<T>)
      requires Valid() && compressedData[..] == original
      requires forall pos: nat, span: seq<T> :: |fill(pos, span)| == |span|
      ensures fresh(cursor) && fresh(cursor.partitionBuffer) && fresh(cursor.partitionBuffer.data)
      ensures WriteState(cursor, fill, initial, [], original, more)
    {
      cursor := new CompressedBufferIterator(this);
      initial := cursor.partitionBuffer.data[..];
      more := cursor.MoveNext();
    }

    /**
     * One round of WriteAllPartitions: the consumer fills the partition under
     * the cursor; unless it then abandons, the partition is compressed and
     * the cursor moves on.
     */
    method WriteNext(cursor: CompressedBufferIterator<T>, fill: (nat, seq<T>) -> seq<T>, abandon: Abandon,
                     filled: nat, ghost initial: seq<T>, ghost written: seq<seq<T>>, ghost original: seq<byte>)
      returns (content: seq<T>, stop: bool, more: bool)
      requires WriteState(cursor, fill, initial, written, original, true)
      requires filled == |written|
      modifies compressedData, cursor, cursor.partitionBuffer.data
      ensures stop <==> abandon == Some(filled + 1)
      ensures stop ==> WriteOutcome(fill, abandon, initial, written + [content], original)
      ensures !stop ==> WriteState(cursor, fill, initial, written + [content], original, more)
    {
      content := FillCurrent(cursor, fill, initial, written, original);
      stop, more := abandon == Some(filled + 1), false;
      if stop {
        AbandonedFilled(cursor, fill, abandon, initial, written + [content], original);
      } else {
        more := Advance(cursor, fill, initial, written + [content], original);
      }
    }

    /** The loop of WriteAllPartitions ends: the cursor ran out, or the consumer abandons before filling. */
    lemma Stopped(cursor: CompressedBufferIterator<T>, fill: (nat, seq<T>) -> seq<T>, abandon: Abandon,
                  initial: seq<T>, written: seq<seq<T>>, original: seq<byte>, more: bool)
      requires WriteState(cursor, fill, initial, written, original, more)
      requires abandon.Some? ==> |written| < abandon.value || |written| == abandon.value == 0
      requires more ==> abandon == Some(|written|)
      ensures WriteOutcome(fill, abandon, initial, written, original)
    {
      if more {
        AbandonedUnfilled(cursor, fill, abandon, initial, written, original);
      } else {
        Drained(cursor, fill, abandon, initial, written, original);
      }
    }

    /** The consumer abandons on receiving the first partition: nothing is filled or stored. */
    lemma AbandonedUnfilled(cursor: CompressedBufferIterator<T>, fill: (nat, seq<T>) -> seq<T>, abandon: Abandon,
                            initial: seq<T>, written: seq<seq<T>>, original: seq<byte>)
      requires WriteState(cursor, fill, initial, written, original, true)
      requires abandon == Some(|written|) && |written| == 0
      ensures WriteOutcome(fill, abandon, initial, written, original)
    {
    }

    /** The consumer abandons after filling its m-th partition: that one never reaches the store. */
    lemma AbandonedFilled(cursor: CompressedBufferIterator<T>, fill: (nat, seq<T>) -> seq<T>, abandon: Abandon,
                          initial: seq<T>, written: seq<seq<T>>, original: seq<byte>)
      requires FilledState(cursor, fill, initial, written, original)
      requires abandon == Some(|written|)
      ensures WriteOutcome(fill, abandon, initial, written, original)
    {
      assert Compressed(partitionCount, abandon) == |written| - 1;
    }

    /** The cursor ran past the last partition before the consumer abandoned: all are stored. */
    lemma Drained(cursor: CompressedBufferIterator<T>, fill: (nat, seq<T>) -> seq<T>, abandon: Abandon,
                  initial: seq<T>, written: seq<seq<T>>, original: seq<byte>)
      requires WriteState(cursor, fill, initial, written, original, false)
      requires abandon.Some? ==> |written| < abandon.value || |written| == abandon.value == 0
      ensures WriteOutcome(fill, abandon, initial, written, original)
    {
      assert |written| == partitionCount;
    }

    /**
     * What WriteAllPartitions leaves behind: the consumer filled the
     * partitions it asked for, and those it moved past are compressed in
     * the store, end to end.
     */
    ghost predicate WriteOutcome(fill: (nat, seq<T>) -> seq<T>, abandon: Abandon, initial: seq<T>,
                                 written: seq<seq<T>>, original: seq<byte>)
      reads this, compressedData
    {
      Valid()
      && |written| == Filled(partitionCount, abandon)
      && ConsumerRun(fill, totalLength, preferredPartitionLength, initial, written)
      && StoreProgress(compressedData[..], original, totalLength, preferredPartitionLength,
                       compression.elementSize, compression.compress, written,
                       Compressed(partitionCount, abandon))
    }

    /**
     * The state of WriteAllPartitions between two requests of the consumer:
     * the partitions handed out so far were filled by the consumer and all
     * were compressed into the store. When the cursor is on a partition, the
     * scratch buffer still holds what the previous one left there.
     */
    ghost predicate WriteState(cursor: CompressedBufferIterator<T>, fill: (nat, seq<T>) -> seq<T>,
                               initial: seq<T>, written: seq<seq<T>>, original: seq<byte>, more: bool)
      reads this, cursor, cursor.buffer, cursor.partitionBuffer.data, compressedData
    {
      Valid() && cursor.Valid() && cursor.buffer == this
      && (forall pos: nat, span: seq<T> :: |fill(pos, span)| == |span|)
      && |initial| == preferredPartitionLength && |written| <= partitionCount
      && (more ==> cursor.Positioned() && cursor.yielded == |written| + 1
                   && cursor.partitionBuffer.data[..] == ScratchBefore(initial, written, |written|))
      && (!more ==> cursor.finished && cursor.yielded == |written|)
      && ConsumerRun(fill, totalLength, preferredPartitionLength, initial, written)
      && StoreProgress(compressedData[..], original, totalLength, preferredPartitionLength,
                       compression.elementSize, compression.compress, written, |written|)
    }

    /**
     * The state of WriteAllPartitions once the consumer has filled the
     * partition the cursor holds, before it asks for the next one: only that
     * last partition is not yet in the store.
     */
    ghost predicate FilledState(cursor: CompressedBufferIterator<T>, fill: (nat, seq<T>) -> seq<T>,
                                initial: seq<T>, written: seq<seq<T>>, original: seq<byte>)
      reads this, cursor, cursor.buffer, cursor.partitionBuffer.data, compressedData
    {
      Valid() && cursor.Positioned() && cursor.buffer == this
      && (forall pos: nat, span: seq<T> :: |fill(pos, span)| == |span|)
      && |initial| == preferredPartitionLength && 0 < |written| <= partitionCount
      && cursor.yielded == |written| && cursor.current.Span() == written[|written| - 1]
      && (|written[|written| - 1]| == preferredPartitionLength ==>
            cursor.partitionBuffer.data[..] == written[|written| - 1])
      && ConsumerRun(fill, totalLength, preferredPartitionLength, initial, written)
      && StoreProgress(compressedData[..], original, totalLength, preferredPartitionLength,
                       compression.elementSize, compression.compress, written, |written| - 1)
    }

    /**
     * The consumer's turn in WriteAllPartitions: it fills the partition the
     * cursor holds, through its span into the scratch buffer.
     */
    method FillCurrent(cursor: CompressedBufferIterator<T>, fill: (nat, seq<T>) -> seq<T>,
                       ghost initial: seq<T>, ghost written: seq<seq<T>>, ghost original: seq<byte>)
      returns (content: seq<T>)
      requires WriteState(cursor, fill, initial, written, original, true)
      modifies cursor.partitionBuffer.data
      ensures FilledState(cursor, fill, initial, written + [content], original)
    {
      var n, p, k := totalLength, preferredPartitionLength, |written|;
      PartitionShape(n, p, k);
      assert cursor.current.Span() == ScratchBefore(initial, written, k)[..PartitionLength(n, p, k)];
      content := fill(cursor.currentPosition as nat, cursor.current.Span());
      WriteSpan(cursor.current, content);
      ConsumerRunExtended(fill, n, p, initial, written, content);
      StoreProgressGrows(compressedData[..], original, n, p, compression.elementSize,
                         compression.compress, written, content);
    }

    /**
     * The consumer asks for the next partition: the one it filled is
     * compressed into its window, then the cursor moves on.
     */
    method Advance(cursor: CompressedBufferIterator<T>, fill: (nat, seq<T>) -> seq<T>,
                   ghost initial: seq<T>, ghost written: seq<seq<T>>, ghost original: seq<byte>)
      returns (more: bool)
      requires FilledState(cursor, fill, initial, written, original)
      modifies compressedData, cursor
      ensures WriteState(cursor, fill, initial, written, original, more)
    {
      CompressCurrent(cursor, written, original);
      more := cursor.MoveNext();
      if more {
        PartitionShape(totalLength, preferredPartitionLength, |written| - 1);
      }
    }

    /** WriteCurrent in WriteAllPartitions: the last filled partition goes into its window. */
    method CompressCurrent(cursor: CompressedBufferIterator<T>, ghost written: seq<seq<T>>,
                           ghost original: seq<byte>)
      requires Valid() && cursor.Positioned() && cursor.buffer == this
      requires 0 < |written| && cursor.yielded == |written|
      requires cursor.current.Span() == written[|written| - 1]
      requires StoreProgress(compressedData[..], original, totalLength, preferredPartitionLength,
                             compression.elementSize, compression.compress, written, |written| - 1)
      modifies compressedData
      ensures StoreProgress(compressedData[..], original, totalLength, preferredPartitionLength,
                            compression.elementSize, compression.compress, written, |written|)
    {
      var n, p, s, k := totalLength, preferredPartitionLength, compression.elementSize, |written| - 1;
      PartitionShape(n, p, k);
      ghost var before := compressedData[..];
      cursor.WriteCurrent();
      WindowInStore(n, p, s, k);
      WindowsContiguous(n, p, s, k);
      StoreStep(before, compressedData[..], original, n, p, s, compression.compress, written, k);
    }
  }

  /**
   * The CompressedBuffer iterator: a scratch buffer of P elements that every
   * partition occupies from offset 0, and the position of the current one.
   * yielded counts the MoveNext calls that returned true; finished is set by
   * the first one that returned false.
   */
  class CompressedBufferIterator<T(0, !new)> {
    const buffer: CompressedBuffer<T>
    const partitionBuffer: Buffer<T>
    var currentPosition: int
    var current: Partition<T>
    ghost var yielded: nat
    ghost var finished: bool

    ghost predicate Valid()
      reads this, buffer
    {
      var n, p := buffer.totalLength, buffer.preferredPartitionLength;
      buffer.Valid()
      && partitionBuffer.data.Length == p
      && (partitionBuffer.data as object) != (buffer.compressedData as object)
      && yielded <= buffer.partitionCount
      && (if finished then
            current == Empty && yielded == buffer.partitionCount && currentPosition >= n
          else if yielded == 0 then
            current == Empty && currentPosition == -(p as int)
          else
            p > 0 && currentPosition == Mul(yielded - 1, p) && currentPosition < n
            && current == Partition(partitionBuffer, 0, PartitionLength(n, p, yielded - 1)))
    }

    /** Positioned on a partition: the last MoveNext returned true. */
    ghost predicate Positioned()
      reads this, buffer
    {
      Valid() && !finished && yielded > 0
    }

    constructor (buffer: CompressedBuffer<T>)
      requires buffer.Valid()
      ensures Valid() && this.buffer == buffer
      ensures fresh(partitionBuffer) && fresh(partitionBuffer.data)
      ensures yielded == 0 && !finished
    {
      this.buffer := buffer;
      partitionBuffer := new Buffer<T>(buffer.preferredPartitionLength);
      currentPosition := -(buffer.preferredPartitionLength as int);
      current := Empty;
      yielded := 0;
      finished := false;
    }

    method Dispose()
      modifies partitionBuffer
      ensures partitionBuffer.disposeCalls == old(partitionBuffer.disposeCalls) + 1
    {
      partitionBuffer.Dispose();
    }

    /**
     * Advances by P. Partition k (k = 0, 1, ...) sits at position k * P with
     * length min(P, N - k * P) at offset 0 of the scratch buffer; after the last
     * one, and on every later call, the current partition is Empty and the
     * result false.
     */
    method MoveNext() returns (more: bool)
      requires Valid()
      modifies this`currentPosition, this`current, this`yielded, this`finished
      ensures Valid()
      ensures more <==> old(!finished) && old(yielded) < buffer.partitionCount
      ensures more ==> yielded == old(yielded) + 1 && Positioned()
      ensures more ==> currentPosition == Mul(yielded - 1, buffer.preferredPartitionLength)
      ensures !more ==> finished && yielded == old(yielded) && current == Empty
    {
      var n, p := buffer.totalLength, buffer.preferredPartitionLength;
      PositionInRange(n, p, yielded);
      if currentPosition >= n {
        current := Empty;
        finished := true;
        return false;
      }
      currentPosition := currentPosition + p;
      if yielded > 0 {
        assert currentPosition == Mul(yielded, p);
      }
      if currentPosition >= n {
        current := Empty;
        finished := true;
        return false;
      }
      var partitionLength := p;
      var d := n - currentPosition;
      if d < partitionLength {
        partitionLength := d;
      }
      current := NewPartition(partitionBuffer, 0, partitionLength);
      yielded := yielded + 1;
      return true;
    }

    /** GetCompressedSpan: the store bytes [position * s, (position + length) * s). */
    function CompressedSpan(): (window: (nat, nat))
      reads this, buffer
      requires Positioned()
      ensures window.0 == WindowStart(buffer.preferredPartitionLength, buffer.compression.elementSize, yielded - 1)
      ensures window.1 == WindowEnd(buffer.totalLength, buffer.preferredPartitionLength,
                                    buffer.compression.elementSize, yielded - 1)
      ensures window.0 <= window.1 <= buffer.compressedData.Length
      ensures window.1 - window.0 == Mul(current.length, buffer.compression.elementSize)
    {
      var s := buffer.compression.elementSize;
      WindowInStore(buffer.totalLength, buffer.preferredPartitionLength, s, yielded - 1);
      MulIsProduct(currentPosition, s);
      MulIsProduct(current.length, s);
      MulIsProduct(currentPosition + current.length, s);
      (currentPosition * s, currentPosition * s + current.length * s)
    }

    /** ReadCurrent: decompresses the current window into the partition; nothing else changes. */
    method ReadCurrent()
      requires Positioned()
      modifies partitionBuffer.data
      ensures Positioned()
      ensures current.Span() == buffer.compression.decompress(
        buffer.compressedData[CompressedSpan().0..CompressedSpan().1])
    {
      var window := CompressedSpan();
      var bytes := buffer.compressedData[window.0..window.1];
      QuotientOfMul(current.length, buffer.compression.elementSize);
      var elements := buffer.compression.decompress(bytes);
      WriteSpan(current, elements);
    }

    /** WriteCurrent: compresses the partition into the current window; no other byte changes. */
    method WriteCurrent()
      requires Positioned()
      modifies buffer.compressedData
      ensures Positioned()
      ensures buffer.compressedData[..] ==
        old(buffer.compressedData[..CompressedSpan().0])
        + buffer.compression.compress(current.Span())
        + old(buffer.compressedData[CompressedSpan().1..])
    {
      var window := CompressedSpan();
      var bytes := buffer.compression.compress(current.Span());
      WindowInStore(buffer.totalLength, buffer.preferredPartitionLength, buffer.compression.elementSize, yielded - 1);
      assert |bytes| == window.1 - window.0;
      forall i | window.0 <= i < window.1 {
        buffer.compressedData[i] := bytes[i - window.0];
      }
      assert buffer.compressedData[..] ==
        old(buffer.compressedData[..window.0]) + bytes + old(buffer.compressedData[window.1..]);
    }
  }
}
