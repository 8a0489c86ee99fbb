# ImageSharp core, modelled in Dafny

This project models the parts of ImageSharp that carry state or logic you can check. The pixel maths itself (floating-point colour vectors, resampling, codecs) is out of scope; the pieces around it are modelled:

- **Packed buffers** (`PackedBuffer<T>`, `CompressedBuffer<T>`, `DummyPackedBuffer<T>`). A packed buffer hands its elements out partition by partition.
  - The compressed buffer keeps them in a byte store through a constant-bit-rate compression. Each partition is decompressed into a scratch buffer when read and compressed back into its own window of the store when the consumer moves on.
  - The dummy buffer hands out one partition that aliases the wrapped buffer.
- **The processor pipeline** (`ImageProcessor`, `DelegateImageProcessor`, `ImageOperations`, the `Mutate`/`Generate`/`Run` extensions). It covers:
  - the order of the stage hooks;
  - the per-frame loop;
  - exception wrapping;
  - what the operations object hands to the image.
- **Per-pixel processors** (`ColorMatrixProcessor`, `AlphaProcessor`, `OrderedDitherProcessor`): the clipping and origin-shift arithmetic and the raster loop over the clipped region. Also `QuantizeProcessor` (palette lookup and buffer swap) and `AutoRotateProcessor` (EXIF orientation to flips and rotations).
- **Metadata**:
  - `ImageMetaData`, with its property list, resolutions and typed lookups;
  - the property tags and their caches;
  - the EXIF and PNG profile bridges (`LoadFrom`/`PopulateTo`);
  - the PNG format's key/value log.
- **Small value types and tables**:
  - `Color` (hex parsing and formatting, opacity);
  - the pattern and image brushes' tiling lookups and row application;
  - `FramesList`;
  - the BMP signature check;
  - the enum-to-processor dispatch of `DetectEdges`, `ColorBlindness`, `Quantize` and `Grayscale`.

Stateful parts are classes whose methods modify their fields under `modifies` clauses. Each method is proved against a specification function. Pure parts are datatypes and functions, with lemmas for what the source promises across calls.

The model follows the code as written in several places where the code does not do what its shape suggests:
- `ImageProcessor.Apply(Image)` passes the source image, not the frame, to each per-frame stage triple, so the base image is processed once per frame plus once.
- `ImageOperations.ApplyProcessors` returns inside its loop, so only the first processor is applied.
- `ExifProfile.PopulateTo` sets the vertical resolution from `XResolution`; `YResolution` is never read.
- `ImageBrushApplicator`'s indexer uses C#'s truncating remainder, so it is out of range just left of (or above) the brush offset.
- Tags created by the EXIF tag cache have namespace `"Exif"`, while `ExifProfile.LoadFrom` only copies properties whose namespace is `"exif"`, so cached EXIF tags are never loaded back.

Shared definitions:
- `common.dfy`: `Option`/`Result` wrappers, the `Error` kinds the source throws, and `Outcome`, which is `Done` or `Threw(error)`.
- `compression.dfy`: the compression interface, as a datatype of functions with its length laws.
- `geometry.dfy`: rectangles and the clipped region.

## Model

| member | source | states |
|---|---|---|
| `Compression.CompressAll` | src/ImageSharp/Memory/IConstantBitRateCompression.cs:19-21 | compressing a span of n elements produces exactly n × CompressedElementSizeInBytes bytes |
| `Compression.DecompressAll` | src/ImageSharp/Memory/IConstantBitRateCompression.cs:19-23 | decompressing b bytes produces b / CompressedElementSizeInBytes elements |
| `Compression.DecodeEncode` | src/ImageSharp/Memory/IConstantBitRateCompression.cs:21-23 | an element below 256^w survives being written as w little-endian bytes and read back |
| `Compression.DecompressCompress` | src/ImageSharp/Memory/IConstantBitRateCompression.cs:21-23 | Decompress(Compress(s)) == s for every span whose elements fit the element size |
| `Compression.LittleEndian` | src/ImageSharp/Memory/IConstantBitRateCompression.cs:13-24 | the little-endian compression of any positive element width satisfies the interface's length laws |
| `Compression.LittleEndianLossless` | src/ImageSharp/Memory/IConstantBitRateCompression.cs:21-23 | that compression is lossless on every span whose elements fit the element size |
| `PackedBuffers.Partition.Span` | src/ImageSharp/Memory/PackedBuffer.cs:96 | the Empty partition has an empty span; any other span is buffer[start .. start+length), element for element |
| `PackedBuffers.NewPartition` | src/ImageSharp/Memory/PackedBuffer.cs:86-94 | a partition can only be built with start ≤ buffer length and start + length ≤ buffer length, and then is in bounds with exactly those fields |
| `PackedBuffers.WriteSpan` | src/ImageSharp/Memory/PackedBuffer.cs:96 | writing through a partition's span changes exactly buffer[start .. start+length) and the span then reads the written content back |
| `Partitioning.PartitionCount` | src/ImageSharp/Memory/CompressedBuffer.cs:34-44 | fails with division by zero exactly when totalLength > 0 and the preferred length is 0; otherwise 0 for an empty buffer, else the least count whose partitions cover totalLength (the ceiling) |
| `Partitioning.CountMatchesConstructor` | src/ImageSharp/Memory/CompressedBuffer.cs:34-44 | the constructor's counting loop yields the closed-form partition count |
| `Partitioning.PartitionLength` | src/ImageSharp/Memory/CompressedBuffer.cs:96-102 | each yielded partition has length min(P, N − position): positive, at most P, and ending inside [0, N) |
| `Partitioning.PositionInRange` | src/ImageSharp/Memory/CompressedBuffer.cs:88-106 | the iterator's k-th position k·P lies below N exactly when k is below the partition count |
| `Partitioning.PartitionShape` | src/ImageSharp/Memory/CompressedBuffer.cs:96-104 | every partition but the last has the full length P, and the last ends exactly at N |
| `Partitioning.ElementCovered` | src/ImageSharp/Memory/CompressedBuffer.cs:88-106 | every element index below N falls inside partition i / P |
| `Partitioning.ElementCoveredOnce` | src/ImageSharp/Memory/CompressedBuffer.cs:88-106 | no other partition contains that element, so the partitions cover [0, N) exactly once |
| `Partitioning.WindowInStore` | src/ImageSharp/Memory/CompressedBuffer.cs:123-131 | a partition's compressed window [pos·s, (pos+len)·s) lies inside the store and holds len·s bytes |
| `Partitioning.WindowsDisjoint` | src/ImageSharp/Memory/CompressedBuffer.cs:123-131 | the window of an earlier partition ends before the window of a later one starts |
| `Partitioning.WindowsContiguous` | src/ImageSharp/Memory/CompressedBuffer.cs:123-131 | the windows tile the store end to end in partition order |
| `CompressedBuffers.WindowOf` | src/ImageSharp/Memory/CompressedBuffer.cs:123-131 | the window of partition k is the partition's length times the element size in bytes |
| `CompressedBuffers.Unpacked` | src/ImageSharp/Memory/CompressedBuffer.cs:109-114 | reading c partitions from a store yields c spans, each the decompression of its own window |
| `CompressedBuffers.StoreStep` | src/ImageSharp/Memory/CompressedBuffer.cs:116-121 | compressing partition k into its window extends the compressed prefix of the store by that partition and leaves the rest of the store as it was |
| `CompressedBuffers.RestoredLossless` | src/ImageSharp/Memory/IConstantBitRateCompression.cs:21-23 | decompressing the compressed form of spans the compression is lossless on gives the spans back |
| `CompressedBuffers.UnpackPacked` | src/ImageSharp/Memory/CompressedBuffer.cs:109-131 | a store whose prefix holds the first k compressed partitions reads back, window by window, as their decompressions |
| `CompressedBuffers.LastWindow` | src/ImageSharp/Memory/CompressedBuffer.cs:123-131 | once partition k is compressed, its window holds exactly compress(partition k) and the earlier prefix is intact |
| `CompressedBuffers.WriteThenRead` | src/ImageSharp/Memory/PackedBuffer.cs:41-63 | after a full write pass whose consumer writes only values the encoding keeps (at the partition starts and span lengths it is handed), reading every partition back returns exactly what the consumer wrote |
| `CompressedBuffers.CompressedBuffer.constructor` | src/ImageSharp/Memory/CompressedBuffer.cs:25-45 | the store is fresh and holds exactly totalLength × CompressedElementSizeInBytes bytes, and the new buffer is valid: its partition count is the ceiling of totalLength / P |
| `CompressedBuffers.CompressedBuffer.Dispose` | src/ImageSharp/Memory/PackedBuffer.cs:29-39 | afterwards IsDisposed is set |
| `CompressedBuffers.CompressedBuffer.ReadAllPartitions` | src/ImageSharp/Memory/PackedBuffer.cs:41-51 | the consumer sees one span per partition, in order, each decompressed from its window before it is yielded, and the store is untouched |
| `CompressedBuffers.CompressedBuffer.WriteAllPartitions` | src/ImageSharp/Memory/PackedBuffer.cs:53-63 | the consumer fills each partition it is handed; every partition it moves past is compressed into its window in order; a partition the consumer abandons is left uncompressed; the rest of the store keeps its old bytes |
| `CompressedBuffers.CompressedBuffer.Begin` | src/ImageSharp/Memory/PackedBuffer.cs:53-63 | a fresh iterator asked for its first partition: nothing written yet, the store untouched, and the scratch buffer as allocated |
| `CompressedBuffers.CompressedBuffer.WriteNext` | src/ImageSharp/Memory/PackedBuffer.cs:53-63 | one round: the consumer fills the partition it is handed; it stops exactly when the abandon point is reached, leaving that partition uncompressed, and otherwise the partition is compressed and the cursor moves on |
| `CompressedBuffers.CompressedBuffer.Stopped` | src/ImageSharp/Memory/PackedBuffer.cs:53-63 | the loop ends either because the cursor ran out or because the consumer abandons before filling, and in both cases the outcome of WriteAllPartitions holds |
| `CompressedBuffers.CompressedBuffer.WriteThenReadAll` | src/ImageSharp/Memory/PackedBuffer.cs:41-63 | writing every partition and then reading them all returns one span per partition, each the consumer's fill of the scratch span it was handed at that partition's start (the first handed the initial scratch, each later one the previous partition's contents), provided the encoding keeps what the consumer writes there; this covers N = 0 and N not a multiple of P |
| `CompressedBuffers.CompressedBuffer.ReadPartition` | src/ImageSharp/Memory/CompressedBuffer.cs:109-114 | reading the k-th partition yields the decompression of its window and leaves the store unchanged |
| `CompressedBuffers.CompressedBuffer.CompressCurrent` | src/ImageSharp/Memory/CompressedBuffer.cs:116-121 | writing back the current partition extends the compressed prefix of the store by exactly that partition |
| `CompressedBuffers.CompressedBuffer.AbandonedUnfilled` | src/ImageSharp/Memory/PackedBuffer.cs:53-63 | a consumer that stops before filling any partition leaves the store as it was |
| `CompressedBuffers.CompressedBuffer.AbandonedFilled` | src/ImageSharp/Memory/PackedBuffer.cs:53-63 | a consumer that stops after filling a partition leaves that last partition unwritten |
| `CompressedBuffers.CompressedBuffer.Drained` | src/ImageSharp/Memory/PackedBuffer.cs:53-63 | when MoveNext reports no more partitions, every partition has been filled and compressed |
| `CompressedBuffers.CompressedBufferIterator.constructor` | src/ImageSharp/Memory/CompressedBuffer.cs:64-73 | a fresh iterator owns a fresh scratch buffer, has yielded nothing and sits before position 0 |
| `CompressedBuffers.CompressedBufferIterator.Dispose` | src/ImageSharp/Memory/CompressedBuffer.cs:75-78 | disposing the iterator disposes its scratch buffer once |
| `CompressedBuffers.CompressedBufferIterator.MoveNext` | src/ImageSharp/Memory/CompressedBuffer.cs:80-107 | returns true exactly while partitions remain and the iterator has not finished; it then advances the position by P. Once it returns false it keeps returning false with the Empty partition |
| `CompressedBuffers.CompressedBufferIterator.CompressedSpan` | src/ImageSharp/Memory/CompressedBuffer.cs:123-131 | the current window starts at position × element size, lies inside the store and holds partition length × element size bytes |
| `CompressedBuffers.CompressedBufferIterator.ReadCurrent` | src/ImageSharp/Memory/CompressedBuffer.cs:109-114 | the current partition's span becomes the decompression of exactly its window |
| `CompressedBuffers.CompressedBufferIterator.WriteCurrent` | src/ImageSharp/Memory/CompressedBuffer.cs:116-121 | the store becomes its old bytes with exactly the current window replaced by the compressed partition |
| `DummyPackedBuffers.DummyPackedBuffer.Init` | src/ImageSharp/Memory/DummyPackedBuffer.cs:12-24 | the dummy buffer wraps the given buffer, records ownership, and its total length is the buffer's length |
| `DummyPackedBuffers.DummyPackedBuffer.Borrow` | src/ImageSharp/Memory/DummyPackedBuffer.cs:12-18 | a null buffer fails with a null reference, since the base constructor reads its length before the guard runs; otherwise the buffer is wrapped without ownership |
| `DummyPackedBuffers.DummyPackedBuffer.Allocate` | src/ImageSharp/Memory/DummyPackedBuffer.cs:20-24 | the length constructor allocates a fresh buffer of that length and owns it |
| `DummyPackedBuffers.DummyPackedBuffer.Dispose` | src/ImageSharp/Memory/DummyPackedBuffer.cs:26-34 | the wrapped buffer is disposed exactly once, on the first call, and only when this object owns it |
| `DummyPackedBuffers.DummyPackedBuffer.ReadAllPartitions` | src/ImageSharp/Memory/PackedBuffer.cs:41-51 | reading yields exactly one span, the whole wrapped buffer, even when it is empty |
| `DummyPackedBuffers.DummyPackedBuffer.WriteAllPartitions` | src/ImageSharp/Memory/PackedBuffer.cs:53-63 | the single partition aliases the buffer, so what the consumer writes lands in it directly; a consumer that stops at once changes nothing |
| `DummyPackedBuffers.DummyPackedBuffer.WriteThenReadAll` | src/ImageSharp/Memory/DummyPackedBuffer.cs:45-68 | a write pass hands the whole buffer to the consumer once, at position 0; the buffer then holds the consumer's fill of its old contents, and the read pass returns exactly that, as one partition |
| `DummyPackedBuffers.DummyIterator.constructor` | src/ImageSharp/Memory/DummyPackedBuffer.cs:40-43 | the iterator holds the buffer and starts on the Empty partition |
| `DummyPackedBuffers.DummyIterator.MoveNext` | src/ImageSharp/Memory/DummyPackedBuffer.cs:54-68 | the first call yields the partition [0, Length) of the buffer and nulls the buffer; every later call returns false with the Empty partition |
| `DummyPackedBuffers.DummyIterator.ReadCurrent` | src/ImageSharp/Memory/DummyPackedBuffer.cs:45-48 | reading changes nothing |
| `DummyPackedBuffers.DummyIterator.WriteCurrent` | src/ImageSharp/Memory/DummyPackedBuffer.cs:50-52 | writing changes nothing |
| `DummyPackedBuffers.DummyIterator.Dispose` | src/ImageSharp/Memory/DummyPackedBuffer.cs:70-72 | disposing changes nothing |
| `Geometry.AlignOffsets` | src/ImageSharp/Processing/Processors/ColorMatrix/ColorMatrixProcessor.cs:29-49 | the origin shift is min(X, 0) and min(Y, 0), and every written cell has non-negative coordinates |
| `Geometry.AlignWrites` | src/ImageSharp/Processing/Processors/ColorMatrix/ColorMatrixProcessor.cs:29-49 | a cell is written exactly when, shifted back by the origin, it lies in both the image and the rectangle |
| `Geometry.AlignInsideImage` | src/ImageSharp/Processing/Processors/ColorMatrix/ColorMatrixProcessor.cs:29-49 | with X, Y ≥ 0 exactly the pixels of rectangle ∩ image are written and all writes are in range |
| `Geometry.AlignBounds` | src/ImageSharp/Processing/Processors/ColorMatrix/ColorMatrixProcessor.cs:29-49 | the full image bounds write every pixel of the image, in range |
| `Geometry.AlignOutside` | src/ImageSharp/Processing/Processors/ColorMatrix/ColorMatrixProcessor.cs:35-38 | a rectangle entirely outside the image gives an empty loop range and writes nothing |
| `Geometry.ShiftedLeftEdge` | src/ImageSharp/Processing/Processors/ColorMatrix/ColorMatrixProcessor.cs:40-49 | with X = −1, a width-5 rectangle on a 4-pixel-wide image writes column 4 (out of range) and not column 0 |
| `Geometry.ShiftedTopEdge` | src/ImageSharp/Processing/Processors/ColorMatrix/ColorMatrixProcessor.cs:36-62 | with Y = −1, a rectangle reaching the bottom of the image keeps startY = −1, so its last row asks GetRowSpan for the row past the buffer and the failure is the span's ArgumentOutOfRangeException |
| `PixelLoops.RowOrder` | src/ImageSharp/Processing/Processors/Binarization/OrderedDitherProcessor.cs:104-111 | one row of the loop visits max(0, x1 − x0) cells |
| `PixelLoops.RowOrderShape` | src/ImageSharp/Processing/Processors/Binarization/OrderedDitherProcessor.cs:104-111 | a row visits exactly its cells from x0 to x1, columns ascending |
| `PixelLoops.RasterOrderShape` | src/ImageSharp/Processing/Processors/Binarization/OrderedDitherProcessor.cs:101-112 | the nested loop visits exactly the cells of the clipped region, rows ascending outside and columns ascending inside |
| `PixelLoops.RasterDistinct` | src/ImageSharp/Processing/Processors/Binarization/OrderedDitherProcessor.cs:101-112 | a raster-ordered visit never visits a cell twice |
| `PixelLoops.ProcessRegion` | src/ImageSharp/Processing/Processors/ColorMatrix/ColorMatrixProcessor.cs:29-77 | clips the rectangle, then either rewrites each pixel of the clipped region once with the per-pixel step, in raster order, leaving all other pixels unchanged, or fails when the shifted region leaves the buffer: with the ArgumentOutOfRangeException of `GetRowSpan` for a row past the buffer, with IndexOutOfRange for a column past the row, whichever the loops reach first |
| `PixelLoops.ProcessRows` | src/ImageSharp/Processing/Processors/ColorMatrix/ColorMatrixProcessor.cs:56-77 | the row loop succeeds exactly when the shifted region fits the buffer, and then each written pixel is the step applied to its old value; a row offset past the buffer throws the span's ArgumentOutOfRangeException, a column offset past the first row IndexOutOfRange |
| `PixelLoops.ProcessRow` | src/ImageSharp/Processing/Processors/ColorMatrix/ColorMatrixProcessor.cs:62-76 | one row rewrites exactly its clipped cells, left to right, or fails with an index error when a shifted column leaves the buffer |
| `PixelProcessors.ColorMatrixIdentity` | src/ImageSharp/Processing/Processors/ColorMatrix/ColorMatrixProcessor.cs:67-75 | with an identity matrix and companding that round-trips, the per-pixel expand/transform/compress/pack step returns the pixel unchanged |
| `PixelProcessors.ColorMatrixProcessor.constructor` | src/ImageSharp/Processing/Processors/ColorMatrix/ColorMatrixProcessor.cs:24 | Compand defaults to true for colour-matrix processors |
| `PixelProcessors.ColorMatrixProcessor.OnApply` | src/ImageSharp/Processing/Processors/ColorMatrix/ColorMatrixProcessor.cs:27-79 | the clipped region is rewritten by the matrix step and all other pixels are unchanged; an out-of-range origin shift fails with the first out-of-range offset's exception (ArgumentOutOfRange for a row span, IndexOutOfRange for a column) |
| `PixelProcessors.AlphaScalesOnlyAlpha` | src/ImageSharp/Processing/Processors/Effects/AlphaProcessor.cs:63 | multiplying by (1, 1, 1, Value) keeps R, G and B and scales alpha by Value |
| `PixelProcessors.AlphaOneIsIdentity` | src/ImageSharp/Processing/Processors/Effects/AlphaProcessor.cs:63-76 | with Value = 1 the per-pixel step returns the pixel unchanged |
| `PixelProcessors.AlphaProcessor.Init` | src/ImageSharp/Processing/Processors/Effects/AlphaProcessor.cs:27-31 | Value equals the accepted percent |
| `PixelProcessors.AlphaProcessor.New` | src/ImageSharp/Processing/Processors/Effects/AlphaProcessor.cs:27-31 | percent outside [0, 1] is rejected with an out-of-range "percent" error; otherwise Value is percent |
| `PixelProcessors.AlphaProcessor.OnApply` | src/ImageSharp/Processing/Processors/Effects/AlphaProcessor.cs:39-79 | the clipped region's pixels are alpha-scaled, each once, and all others are unchanged; an out-of-range shift fails with ArgumentOutOfRange for a row span or IndexOutOfRange for a column, whichever comes first |
| `PixelProcessors.DitherIndex` | src/ImageSharp/Processing/Processors/Binarization/OrderedDitherProcessor.cs:67-73 | Alpha8 pixels force the component index to 3; other formats keep the configured index |
| `PixelProcessors.OrderedDitherProcessor.Init` | src/ImageSharp/Processing/Processors/Binarization/OrderedDitherProcessor.cs:25-36 | stores the ditherer and index; UpperColor is White and LowerColor is Black |
| `PixelProcessors.OrderedDitherProcessor.New` | src/ImageSharp/Processing/Processors/Binarization/OrderedDitherProcessor.cs:25-36 | a missing ditherer fails with a null "dither" error, then an index outside [0, 3] with an out-of-range "index" error; otherwise the colours default to White and Black |
| `PixelProcessors.OrderedDitherProcessor.BeforeApply` | src/ImageSharp/Processing/Processors/Binarization/OrderedDitherProcessor.cs:59-62 | the same rectangle is first converted by the Bt709 grayscale matrix with companding; a failure there (the row span's ArgumentOutOfRange or a column's IndexOutOfRange) is wrapped as a GrayscaleBt709Processor processing error unless in debug |
| `PixelProcessors.OrderedDitherProcessor.OnApply` | src/ImageSharp/Processing/Processors/Binarization/OrderedDitherProcessor.cs:65-113 | each pixel of the clipped region is dithered once, in raster order, with the upper and lower colours, the effective index and maxX/maxY as bounds; `GetRowSpan` past the buffer throws ArgumentOutOfRange unwrapped, a column past the row IndexOutOfRange |
| `Processing.FrameTriples` | src/ImageSharp/Processing/ImageProcessor.cs:42-48 | k frames contribute 3k stage calls |
| `Processing.Wrapped` | src/ImageSharp/Processing/ImageProcessor.cs:52-61 | the outcome is Done exactly when no stage raised |
| `Processing.FrameTriplesShape` | src/ImageSharp/Processing/ImageProcessor.cs:42-48 | every per-frame stage call targets the source image and the given rectangle, never the frame |
| `Processing.FrameTriplesCount` | src/ImageSharp/Processing/ImageProcessor.cs:42-48 | each of BeforeApply, OnApply and AfterApply runs once per frame, and no image-level hook runs in the loop |
| `Processing.ImageScheduleShape` | src/ImageSharp/Processing/ImageProcessor.cs:34-51 | Apply(Image) runs BeforeImageApply first and once, then k + 1 BeforeApply/OnApply/AfterApply triples in that order, then AfterImageApply last and once, all on the source image |
| `Processing.ImageScheduleCounts` | src/ImageSharp/Processing/ImageProcessor.cs:34-51 | the image-level hooks occur once each and the frame-level hooks k + 1 times each |
| `Processing.TriplesRepeat` | src/ImageSharp/Processing/ImageProcessor.cs:42-48 | the per-frame calls cycle BeforeApply, OnApply, AfterApply |
| `Processing.BaseScheduleShape` | src/ImageSharp/Processing/ImageProcessor.cs:70-94 | Apply(ImageBase) runs exactly BeforeApply, OnApply, AfterApply and never the image-level hooks |
| `Processing.ExecutedIsPrefix` | src/ImageSharp/Processing/ImageProcessor.cs:34-61 | the stages that run are a prefix of the schedule, and all of it when nothing raises |
| `Processing.FirstErrorNoneIff` | src/ImageSharp/Processing/ImageProcessor.cs:52-61 | no error is reported exactly when no stage of the schedule raises |
| `Processing.ExecutedEndsAtError` | src/ImageSharp/Processing/ImageProcessor.cs:52-61 | when a stage raises, it is the last stage run, and every earlier one succeeded |
| `Processing.ImageProcessor.constructor` | src/ImageSharp/Processing/ImageProcessor.cs:23 | a new processor has no parallel options, Compand false and no recorded calls |
| `Processing.ImageProcessor.Delegating` | src/ImageSharp/Processing/DelegateImageProcessor.cs:25-28 | a delegate processor stores its (possibly null) action |
| `Processing.ImageProcessor.RunStages` | src/ImageSharp/Processing/ImageProcessor.cs:34-51 | runs the stages in order until one raises, recording exactly those run, and reports the first error |
| `Processing.ImageProcessor.RunImageSchedule` | src/ImageSharp/Processing/ImageProcessor.cs:34-51 | runs the whole-image schedule with the frame loop and reports its first error |
| `Processing.ImageProcessor.RunFrames` | src/ImageSharp/Processing/ImageProcessor.cs:42-48 | the frame loop runs one BeforeApply/OnApply/AfterApply triple on the source image per frame and stops at the first exception; it ends early only on an exception |
| `Processing.ImageProcessor.ApplyImage` | src/ImageSharp/Processing/ImageProcessor.cs:26-62 | takes ParallelOptions from the configuration only if still unset, runs the image schedule until the first error and reports it wrapped as a processing error, or unchanged in debug |
| `Processing.ImageProcessor.ApplyBase` | src/ImageSharp/Processing/ImageProcessor.cs:70-94 | the same for the frame-level schedule: options set only if unset, the three stages until the first error, the error wrapped unless in debug |
| `Processing.DelegateOnImage` | src/ImageSharp/Processing/DelegateImageProcessor.cs:31-40 | through Apply(Image) the action is invoked exactly once, from BeforeImageApply; a null action does nothing; an action that raises stops every later stage |
| `Processing.OnlyImageStartRaises` | src/ImageSharp/Processing/ImageProcessor.cs:34-61 | when only BeforeImageApply can raise, its error is the outcome and nothing runs after it |
| `Processing.DelegateOnBase` | src/ImageSharp/Processing/DelegateImageProcessor.cs:31-40 | through Apply(ImageBase) the action is never invoked and the stages change nothing |
| `Operations.ImageOperations.constructor` | src/ImageSharp/ImageOperations.cs:24-27 | the operations object wraps the given image |
| `Operations.ImageOperations.ApplyProcessorIn` | src/ImageSharp/ImageOperations.cs:30-37 | forwards exactly (processor, rectangle) to the image once and returns the same operations object |
| `Operations.ImageOperations.ApplyProcessor` | src/ImageSharp/ImageOperations.cs:40-43 | forwards the processor with the image's full bounds and returns the same object |
| `Operations.ImageOperations.ApplyProcessors` | src/ImageSharp/ImageOperations.cs:50-58 | only the first processor of a non-empty sequence reaches the image; an empty sequence applies nothing; returns the same object |
| `Operations.ImageOperations.Run` | src/ImageSharp/ApplyProcessors.cs:125-126 | applies one fresh delegate processor holding the action over the full bounds |
| `Operations.ImageOperations.Perform` | src/ImageSharp/ImageOperations.cs:30-58 | one call of a caller's operations script adds to the image exactly what that call forwards |
| `Operations.ImageOperations.PerformAll` | src/ImageSharp/ImageOperations.cs:30-58 | a caller's script of calls adds, in order, exactly what each call forwards |
| `Operations.ApplyEachFirstOnly` | src/ImageSharp/ImageOperations.cs:50-58 | an ApplyProcessors call forwards the first processor with the full bounds if there is one, and nothing otherwise |
| `Operations.PerformsInOrder` | src/ImageSharp/ImageOperations.cs:35 | successive ApplyProcessor calls reach the image in call order, one each |
| `Operations.Mutate` | src/ImageSharp/ApplyProcessors.cs:24-31 | a null operations argument fails with a null "operations" error and changes nothing; otherwise the operations run against the source image itself |
| `Operations.MutateAll` | src/ImageSharp/ApplyProcessors.cs:38-45 | the processor-array overload rejects null and otherwise applies only the first processor, through ApplyProcessors |
| `Operations.Generate` | src/ImageSharp/ApplyProcessors.cs:54-64 | null is rejected; otherwise the operations run against a fresh clone that is returned, and the source is unchanged |
| `Operations.GenerateAll` | src/ImageSharp/ApplyProcessors.cs:89-98 | the processor-array overload clones, applies only the first processor to the clone and leaves the source unchanged |
| `Quantization.Lookup` | src/ImageSharp/Quantizers/QuantizeProcessor.cs:50-54 | every colour a pixel is mapped to is a palette entry |
| `Quantization.RendersIff` | src/ImageSharp/Quantizers/QuantizeProcessor.cs:40-55 | the lookup loop succeeds exactly when the image is empty, or the palette is non-empty and the index buffer covers width × height |
| `Quantization.LookupClamps` | src/ImageSharp/Quantizers/QuantizeProcessor.cs:50-54 | an index past the palette maps to the last palette entry |
| `Quantization.LookupExact` | src/ImageSharp/Quantizers/QuantizeProcessor.cs:50-54 | an index inside the palette maps to that entry |
| `Quantization.EmptyPaletteFails` | src/ImageSharp/Quantizers/QuantizeProcessor.cs:50-54 | a non-empty image with an empty palette cannot be rendered |
| `Quantization.ImageBase.SwapPixelsBuffers` | src/ImageSharp/Quantizers/QuantizeProcessor.cs:58 | the frame's pixel buffer is replaced by the given one |
| `Quantization.QuantizeProcessor.constructor` | src/ImageSharp/Quantizers/QuantizeProcessor.cs:29-33 | stores the quantizer, null or not, and maxColors without checking either; the quantizer has not been called |
| `Quantization.QuantizeProcessor.BeforeImageApply` | src/ImageSharp/Quantizers/QuantizeProcessor.cs:36-60 | a null quantizer throws NullReferenceException without a call; otherwise the quantizer is called once with maxColors, its own exception propagates unchanged, and a null result throws NullReferenceException; for a quantized image the pixel buffer is replaced wholesale by a fresh width × height buffer whose pixel (x, y) is the clamped palette lookup, or an index error is thrown exactly when the lookup cannot be rendered; whatever is thrown, the old buffer stays |
| `Quantization.QuantizeProcessor.OnApply` | src/ImageSharp/Quantizers/QuantizeProcessor.cs:63-66 | the per-frame stage changes no pixels and does not call the quantizer |
| `Quantization.Fill` | src/ImageSharp/Quantizers/QuantizeProcessor.cs:42-55 | the nested loop fills a fresh width × height buffer with the palette lookup of every pixel, or fails with an index error exactly when the lookup cannot be rendered |
| `AutoRotate.StepsShape` | src/ImageSharp/Processing/Processors/Transforms/AutoRotateProcessor.cs:32-68 | only TopRight to LeftBottom transform; LeftTop and RightBottom take two steps, the others one; every rotation is 90, 180 or 270 degrees without Expand |
| `AutoRotate.StepsUndoOrientation` | src/ImageSharp/Processing/Processors/Transforms/AutoRotateProcessor.cs:32-68 | for every EXIF orientation the chosen steps, composed with the stored orientation's symmetry, give the identity |
| `AutoRotate.CorrectionsDistinct` | src/ImageSharp/Processing/Processors/Transforms/AutoRotateProcessor.cs:32-68 | distinct orientations get distinct corrections |
| `AutoRotate.AutoRotateProcessor.GetExifOrientation` | src/ImageSharp/Processing/Processors/Transforms/AutoRotateProcessor.cs:82-100 | a missing profile or Orientation value reads as Unknown; a null value throws NullReferenceException and anything but a single Short (the enum's ushort) throws InvalidCastException at the unboxing cast; a single Short value is returned and the profile's Orientation is overwritten with TopLeft; otherwise the profile is unchanged |
| `AutoRotate.LongOrientationThrows` | src/ImageSharp/Processing/Processors/Transforms/AutoRotateProcessor.cs:95 | orientation 6 stored as a 32-bit Long is not a boxed ushort, so the cast throws InvalidCastException |
| `AutoRotate.ShortOrientationRead` | src/ImageSharp/Processing/Processors/Transforms/AutoRotateProcessor.cs:95 | a single Short Orientation value unboxes to its number |
| `AutoRotate.AutoRotateProcessor.BeforeImageApply` | src/ImageSharp/Processing/Processors/Transforms/AutoRotateProcessor.cs:28-69 | the image receives exactly the orientation's steps in order, over the full rectangle, and the stored orientation becomes TopLeft; a missing profile or Orientation value, or a failing cast, leaves the profile unchanged |
| `AutoRotate.AutoRotateProcessor.OnApply` | src/ImageSharp/Processing/Processors/Transforms/AutoRotateProcessor.cs:72-75 | the per-frame stage transforms nothing |
| `AutoRotate.SecondApplicationIsNoOp` | src/ImageSharp/Processing/Processors/Transforms/AutoRotateProcessor.cs:95-99 | after the orientation is overwritten with TopLeft, a second application reads TopLeft and performs no step |
| `MetaData.ToText` | src/ImageSharp/MetaData/ImagePropertyTag.cs:46-52 | a value has a string form exactly when it is not null |
| `MetaData.PropertyTag.Init` | src/ImageSharp/MetaData/ImagePropertyTag.cs:24-29 | a tag keeps the namespace, name and conversion it was built with |
| `MetaData.PropertyTag.New` | src/ImageSharp/MetaData/ImagePropertyTag.cs:24-29 | a null name fails with a null-argument error and an empty one with an argument error; otherwise Name is the argument |
| `MetaData.ConvertToExifValuesCases` | src/ImageSharp/MetaData/ImagePropertyTag.cs:46-52 | a null value yields no EXIF value; any other yields exactly one, tagged Unknown with type Ascii and holding the value's string form; tags without conversions yield nothing |
| `MetaData.WithTag` | src/ImageSharp/MetaData/ImageMetaData.cs:177-181 | the properties matched by a tag are exactly those of the list that carry it |
| `MetaData.Without` | src/ImageSharp/MetaData/ImageMetaData.cs:177-181 | removing a tag keeps exactly the properties with other tags |
| `MetaData.Last` | src/ImageSharp/MetaData/ImageMetaData.cs:146-156 | the indexer's result is a property with that tag from the list, and none exists when it finds nothing |
| `MetaData.LastTyped` | src/ImageSharp/MetaData/ImageMetaData.cs:235-249 | the typed lookup returns a typed property with that tag from the list |
| `MetaData.WithoutKeepsOrder` | src/ImageSharp/MetaData/ImageMetaData.cs:177-181 | removing one tag keeps the properties of every other tag in their relative order |
| `MetaData.SetProperty` | src/ImageSharp/MetaData/ImageMetaData.cs:173-185 | afterwards the property is the only one with its tag and is last; lookups of other tags are unchanged |
| `MetaData.SetKeepsUnique` | src/ImageSharp/MetaData/ImageMetaData.cs:173-185 | setting a property keeps the tags of the list unique |
| `MetaData.SetAllCopies` | src/ImageSharp/MetaData/ImageMetaData.cs:273-282 | loading properties whose tags are all new appends them in order |
| `MetaData.RemoveNextMatch` | src/ImageSharp/MetaData/ImageMetaData.cs:177-181 | each pass of the removal loop drops the next property with the tag |
| `MetaData.DropAll` | src/ImageSharp/MetaData/ImageMetaData.cs:177-181 | after the removal loop, exactly the properties with other tags remain |
| `MetaData.StoredResolution` | src/ImageSharp/MetaData/ImageMetaData.cs:72-82 | the resolution setter stores positive values and replaces non-positive ones with 96 |
| `MetaData.ImageMetaData.constructor` | src/ImageSharp/MetaData/ImageMetaData.cs:40-44 | new metadata holds horizontal and vertical resolution 96 and nothing else |
| `MetaData.ImageMetaData.Copy` | src/ImageSharp/MetaData/ImageMetaData.cs:53-58 | the copy constructor copies the property list |
| `MetaData.ImageMetaData.GetValue` | src/ImageSharp/MetaData/ImageMetaData.cs:192-201 | returns the value of the indexer's property, and null when the tag is absent |
| `MetaData.ImageMetaData.SetProperty` | src/ImageSharp/MetaData/ImageMetaData.cs:173-185 | removes every property with the tag, then appends the new one, and keeps tags unique |
| `MetaData.ImageMetaData.SetValue` | src/ImageSharp/MetaData/ImageMetaData.cs:164-167 | sets a typed property with the tag and value |
| `MetaData.ImageMetaData.SetHorizontalResolution` | src/ImageSharp/MetaData/ImageMetaData.cs:65-83 | sets the horizontal resolution to the value if positive, else 96 |
| `MetaData.ImageMetaData.SetVerticalResolution` | src/ImageSharp/MetaData/ImageMetaData.cs:90-108 | sets the vertical resolution to the value if positive, else 96 |
| `MetaData.ImageMetaData.LoadFrom` | src/ImageSharp/MetaData/ImageMetaData.cs:273-282 | loading from itself does nothing; otherwise each of the other's properties is set in order |
| `MetaData.NewMetaDataDefaults` | src/ImageSharp/MetaData/ImageMetaData.cs:40-44 | new metadata reads horizontal and vertical resolution 96, and FrameDelay 0 when unset |
| `MetaData.SetThenGet` | src/ImageSharp/MetaData/ImageMetaData.cs:235-249 | a typed lookup after SetValue returns the set value; lookups of other tags are unchanged |
| `MetaData.SetAllKeeps` | src/ImageSharp/MetaData/ImageMetaData.cs:273-282 | loading properties with other tags does not change a tag's value |
| `MetaData.SetAllLastWins` | src/ImageSharp/MetaData/ImageMetaData.cs:273-282 | after loading, a tag reads the last loaded value for it |
| `MetaData.ResolutionSetter` | src/ImageSharp/MetaData/ImageMetaData.cs:65-83 | after setting a resolution, reading it gives the value if positive and 96 otherwise |
| `MetaData.ExifTagCache.GetTag` | src/ImageSharp/MetaData/Profiles/Exif/ExifImagePropertyTag.cs:40-63 | a cached tag is returned as the same instance; on a miss one fresh tag is created, with namespace "Exif" and the EXIF tag's name, and added as the only new entry |
| `MetaData.OtherTagCache.Create` | src/ImageSharp/MetaData/Properties/OtherPropertyTag.cs:21-47 | the same name gives the same instance; on a miss a fresh tag named "Other - " + name, keeping the raw name and with no EXIF conversions, is cached |
| `MetaData.OtherStringTagCache.Get` | src/ImageSharp/MetaData/Properties/OtherStringPropertyTag.cs:21-47 | the same name gives the same instance; on a miss a fresh string tag named "Other - " + name is cached |
| `Exif.ProfileSetGet` | src/ImageSharp/MetaData/Profiles/Exif/ExifProfile.MetaData.cs:28-29 | after setting an EXIF value, the profile reads it back and other tags are unchanged |
| `Exif.ResolutionRoundTrip` | src/ImageSharp/MetaData/Profiles/Exif/ExifProfile.MetaData.cs:28-29 | a resolution set as a rational reads back as the same number |
| `Exif.LoadAllKeeps` | src/ImageSharp/MetaData/Profiles/Exif/ExifProfile.MetaData.cs:32-41 | loading properties that do not target a tag leaves that tag's value alone |
| `Exif.LoadAllSkips` | src/ImageSharp/MetaData/Profiles/Exif/ExifProfile.MetaData.cs:32-41 | properties outside the "exif" namespace, or whose names do not parse as EXIF tags, are not copied |
| `Exif.CachedExifTagsNotLoaded` | src/ImageSharp/MetaData/Profiles/Exif/ExifProfile.MetaData.cs:32-41 | a tag from the EXIF tag cache (namespace "Exif") never passes the "exif" namespace test |
| `Exif.LoadedResolutions` | src/ImageSharp/MetaData/Profiles/Exif/ExifProfile.MetaData.cs:26-42 | after LoadFrom, XResolution holds the horizontal and YResolution the vertical resolution |
| `Exif.CopiedValues` | src/ImageSharp/MetaData/Profiles/Exif/ExifProfile.MetaData.cs:62 | the values PopulateTo copies are profile values that are neither XResolution nor YResolution and have a listed data type |
| `Exif.PopulateOnlyCopied` | src/ImageSharp/MetaData/Profiles/Exif/ExifProfile.MetaData.cs:62-107 | skipped values (the two resolutions, unlisted data types) neither write anything nor throw in PopulateTo |
| `Exif.PopulateKeeps` | src/ImageSharp/MetaData/Profiles/Exif/ExifProfile.MetaData.cs:62-107 | a metadata tag that no copied value maps to keeps its value, whether or not a cast throws |
| `Exif.PopulateLastWins` | src/ImageSharp/MetaData/Profiles/Exif/ExifProfile.MetaData.cs:64-103 | when no cast up to it throws, a copied value converts and its "exif" tag holds the converted value unless a later copied value writes the same tag |
| `Exif.NoFailure` | src/ImageSharp/MetaData/Profiles/Exif/ExifProfile.MetaData.cs:69-103 | the generic loop ends without an exception if and only if every copied value converts (Unknown, Undefined and Ascii always do; the other listed types need a non-null value of the cast's .NET type) |
| `Exif.PopulateStops` | src/ImageSharp/MetaData/Profiles/Exif/ExifProfile.MetaData.cs:69-103 | the first copied value whose unboxing cast throws makes PopulateTo throw that exception, and the metadata keeps what the earlier values wrote |
| `Exif.StoppedStaysStopped` | src/ImageSharp/MetaData/Profiles/Exif/ExifProfile.MetaData.cs:60-107 | once a cast has thrown, later values neither write nor change the exception |
| `Exif.NullByteThrows` | src/ImageSharp/MetaData/Profiles/Exif/ExifProfile.MetaData.cs:69-70 | a Byte-typed value holding null throws NullReferenceException at its (byte) cast |
| `Exif.PopulatedResolutions` | src/ImageSharp/MetaData/Profiles/Exif/ExifProfile.MetaData.cs:45-57 | both the horizontal and the vertical resolution are set from XResolution, even when a later cast throws |
| `Exif.YResolutionIgnored` | src/ImageSharp/MetaData/Profiles/Exif/ExifProfile.MetaData.cs:53-57 | changing YResolution never changes what PopulateTo writes or whether it throws |
| `Exif.CopiedIgnoresY` | src/ImageSharp/MetaData/Profiles/Exif/ExifProfile.MetaData.cs:19-23 | YResolution is never copied as a generic tag |
| `Exif.ExifProfile.LoadFrom` | src/ImageSharp/MetaData/Profiles/Exif/ExifProfile.MetaData.cs:26-42 | sets both resolutions, then copies the "exif" properties whose names parse, in order |
| `Exif.ExifProfile.PopulateTo` | src/ImageSharp/MetaData/Profiles/Exif/ExifProfile.MetaData.cs:45-110 | sets the resolutions from XResolution, then one typed tag per copied value, in order, stopping with the exception of the first cast that throws |
| `Exif.ExifProfileOf` | src/ImageSharp/MetaData/Profiles/Exif/ExifProfileExtensions.cs:19-24 | returns a fresh profile filled by LoadFrom from the metadata |
| `Exif.ReplaceWith` | src/ImageSharp/MetaData/Profiles/Exif/ExifProfileExtensions.cs:26-30 | clears the metadata and then populates it, so it holds only what PopulateTo writes and throws what PopulateTo throws |
| `Exif.MetaDataRoundTrip` | src/ImageSharp/MetaData/Profiles/Exif/ExifProfile.MetaData.cs:26-57 | metadata → profile → metadata keeps the horizontal resolution but replaces the vertical one with the horizontal |
| `PngFormat.LastValue` | src/ImageSharp/Formats/Png/PngMetaData.cs:35-38 | a found value was logged under that key; a key never logged reads null |
| `PngFormat.AppendThenGet` | src/ImageSharp/Formats/Png/PngMetaData.cs:25-38 | after appending (key, value), key reads value and every other key reads as before |
| `PngFormat.LastValueIsLast` | src/ImageSharp/Formats/Png/PngMetaData.cs:35-38 | GetValue returns the most recently appended value for the key |
| `PngFormat.PngMetaData.SetValue` | src/ImageSharp/Formats/Png/PngMetaData.cs:25-28 | appends the pair, keeping earlier ones; the key then reads the value and other keys are unchanged |
| `PngProfile.PngEntriesFrom` | src/ImageSharp/MetaData/Profiles/Png/PngMetaData.cs:55-64 | loading keeps exactly the "png"-namespace properties, as name → string form, null staying null |
| `PngProfile.FirstKeys` | src/ImageSharp/MetaData/Profiles/Png/PngMetaData.cs:71 | grouping lists each logged key exactly once |
| `PngProfile.LastOfGroups` | src/ImageSharp/MetaData/Profiles/Png/PngMetaData.cs:71-75 | each written entry is a grouped key other than Comment and Software, with its last value |
| `PngProfile.LastOfGroupsCovers` | src/ImageSharp/MetaData/Profiles/Png/PngMetaData.cs:71-75 | every grouped key other than Comment and Software is written |
| `PngProfile.LastOfGroupsDistinct` | src/ImageSharp/MetaData/Profiles/Png/PngMetaData.cs:71-75 | no key is written twice |
| `PngProfile.LastPropertiesSpec` | src/ImageSharp/MetaData/Profiles/Png/PngMetaData.cs:50-75 | a key is written exactly when it was logged and is not Comment or Software, once, with its last value |
| `PngProfile.PopulatedReads` | src/ImageSharp/MetaData/Profiles/Png/PngMetaData.cs:66-76 | after PopulateTo, UserComment and Software hold the last "Comment" and "Software" values (null if absent), and every other key's tag holds its last value |
| `PngProfile.PngMetaData.SetValue` | src/ImageSharp/MetaData/Profiles/Png/PngMetaData.cs:35-38 | appends the pair and never overwrites earlier entries |
| `PngProfile.PngMetaData.LoadFrom` | src/ImageSharp/MetaData/Profiles/Png/PngMetaData.cs:55-64 | appends the metadata's "png" entries in order |
| `PngProfile.PngMetaData.PopulateTo` | src/ImageSharp/MetaData/Profiles/Png/PngMetaData.cs:66-76 | sets UserComment, Software and one tag per other key, as specified by the populate function |
| `Colors.Color.WithOpacity` | src/ImageSharp/Color.cs:141-144 | changes only A, and the result equals the original exactly when A already was the opacity |
| `Colors.Rgb` | src/ImageSharp/Color.cs:38-41 | the three-argument constructor sets alpha to 255 |
| `Colors.TrimStart` | src/ImageSharp/Color.cs:125 | the hex parser skips leading white space: the result is the suffix left after every leading white-space character, and it does not start with white space |
| `Colors.TrimEnd` | src/ImageSharp/Color.cs:125 | and trailing white space: the result is the prefix left after every trailing white-space character, and it does not end with white space |
| `Colors.FormatRgba` | src/ImageSharp/Color.cs:150-153 | ToHex produces exactly eight characters; what they denote is stated by `Colors.FormatRgbaValue` |
| `Colors.FormatRgbaValue` | src/ImageSharp/Color.cs:150-153 | the eight digits read as the packed value R·2^24 + G·2^16 + B·2^8 + A |
| `Colors.BytesOfPacked` | src/ImageSharp/Color.cs:129-133 | R is bits 24–31 of the parsed value, G bits 16–23, B bits 8–15 and A bits 0–7 |
| `Colors.ParseFormat` | src/ImageSharp/Color.cs:124-127 | uint.TryParse with hex number style reads the eight digits of ToHex as R·2^24 + G·2^16 + B·2^8 + A |
| `Colors.FromHexEight` | src/ImageSharp/Color.cs:118-134 | any eight characters without '#' that parse as a colour's packed value read back as that colour, also after a leading '#' |
| `Colors.FromHexFormat` | src/ImageSharp/Color.cs:118-153 | FromHex(ToHex(c)) == c, with or without a leading '#' |
| `Colors.FromHexRgb` | src/ImageSharp/Color.cs:210-218 | six digits get alpha FF |
| `Colors.FromHexShort` | src/ImageSharp/Color.cs:225-230 | three or four digits are each doubled, alpha F when only three are given |
| `Colors.FromHexBadLength` | src/ImageSharp/Color.cs:220-223 | any length other than 3, 4, 6 or 8 digits raises an argument error |
| `Colors.FromHexBadDigit` | src/ImageSharp/Color.cs:124-127 | an eight-character string with a non-hex character, and neither white space first nor white space or NUL last, raises an argument error |
| `Colors.TrimTrailingNul` | src/ImageSharp/Color.cs:125 | uint.TryParse accepts NUL characters at the very end: the result is the prefix left after every trailing NUL, and it does not end with NUL |
| `Colors.ParseHexIgnoresTrailingNul` | src/ImageSharp/Color.cs:125 | appending a NUL never changes what uint.TryParse reads |
| `Colors.FromHexTrailingNuls` | src/ImageSharp/Color.cs:118-134 | "ABCDEF" followed by two NULs is accepted as eight characters and reads as the colour with bytes 00, AB, CD, EF |
| `Bmp.IsSupportedFileFormat` | src/ImageSharp/Formats/Bmp/BmpFormat.cs:34-39 | a null header fails; otherwise the answer is true exactly when the header starts with "BM" (0x42, 0x4D) |
| `Bmp.ShortHeaderRejected` | src/ImageSharp/Formats/Bmp/BmpFormat.cs:36 | a header shorter than 2 bytes is rejected |
| `Bmp.OnlyHeaderSizeBytesMatter` | src/ImageSharp/Formats/Bmp/BmpFormat.cs:34-39 | bytes after the first two never affect the answer |
| `Bmp.SignatureThenAnything` | src/ImageSharp/Formats/Bmp/BmpFormat.cs:36-38 | "BM" followed by anything is accepted |
| `Brushes.CRem` | src/ImageSharp.Drawing/Brushes/ImageBrush.cs:94-96 | C#'s remainder lies strictly between −n and n, has the sign of the dividend (non-negative for a non-negative dividend, non-positive for a negative one) and differs from it by a multiple of n |
| `Brushes.CRemNonNegative` | src/ImageSharp.Drawing/Brushes/ImageBrush.cs:94-96 | the remainder is non-negative exactly when the dividend is, or is a multiple of n |
| `Brushes.CRemPeriodic` | src/ImageSharp.Drawing/Brushes/ImageBrush.cs:94-96 | for non-negative dividends the remainder is periodic in n |
| `Brushes.Clamp01` | src/ImageSharp.Drawing/Brushes/PatternBrush.cs:162 | blend amounts are clamped into [0, 1] and kept when already inside |
| `Brushes.BlendRow` | src/ImageSharp.Drawing/Brushes/PatternBrush.cs:168 | blending rewrites exactly the scanline's cells of the target row and nothing else |
| `Brushes.PatternBrush.constructor` | src/ImageSharp.Drawing/Brushes/PatternBrush.cs:49-65 | stores fore colour, back colour and pattern |
| `Brushes.PatternBrush.Copy` | src/ImageSharp.Drawing/Brushes/PatternBrush.cs:71-76 | the copy shares pattern and colours |
| `Brushes.PatternBrush.CreateApplicator` | src/ImageSharp.Drawing/Brushes/PatternBrush.cs:79-82 | the applicator's pattern has the brush's dimensions, and each cell is the fore colour where the flag is set and the back colour otherwise |
| `Brushes.PatternBrushApplicator.constructor` | src/ImageSharp.Drawing/Brushes/PatternBrush.cs:105-125 | fills the colour pattern and its vector form cell by cell from the flags |
| `Brushes.PatternBrushApplicator.GetTiles` | src/ImageSharp.Drawing/Brushes/PatternBrush.cs:135-145 | the indexer returns pattern[y mod H, x mod W] for x, y ≥ 0, periodic in W and H |
| `Brushes.PatternBrushApplicator.GetIsForeOrBack` | src/ImageSharp.Drawing/Brushes/PatternBrush.cs:110-145 | every lookup is the fore or back colour according to the flag at that tile position |
| `Brushes.PatternBrushApplicator.Apply` | src/ImageSharp.Drawing/Brushes/PatternBrush.cs:154-171 | blends pattern[y mod H, (x+i) mod W] into each cell of the target row with clamped amount scanline[i] × BlendPercentage; a zero size divides by zero, a pattern index out of range is IndexOutOfRange, and a target row slice out of range is the ArgumentOutOfRange of `GetRowSpan(x, y).Slice`; on any of them nothing is written |
| `Brushes.PatternBrushApplicator.Buffers` | src/ImageSharp.Drawing/Brushes/PatternBrush.cs:156-166 | the amount and overlay buffers have the scanline's length and hold the clamped amounts and tiled colours |
| `Brushes.ImageBrush.constructor` | src/ImageSharp.Drawing/Brushes/ImageBrush.cs:29-32 | stores the brush image |
| `Brushes.ImageBrush.CreateApplicator` | src/ImageSharp.Drawing/Brushes/ImageBrush.cs:35-38 | the applicator reads the brush image with offsets max(floor(region edge), 0) |
| `Brushes.ImageBrushApplicator.constructor` | src/ImageSharp.Drawing/Brushes/ImageBrush.cs:72-80 | xLength and yLength are the brush image's dimensions and the offsets are never negative |
| `Brushes.ImageBrushApplicator.GetInRange` | src/ImageSharp.Drawing/Brushes/ImageBrush.cs:90-98 | a lookup is in range exactly when x ≥ offsetX (or offsetX − x is a multiple of xLength), and likewise for y |
| `Brushes.ImageBrushApplicator.GetLeftOfOffset` | src/ImageSharp.Drawing/Brushes/ImageBrush.cs:90-98 | the column just left of the offset is out of range, because C#'s remainder is negative there |
| `Brushes.ImageBrushApplicator.GetTiles` | src/ImageSharp.Drawing/Brushes/ImageBrush.cs:90-98 | right of and below the offset, lookups read source[(y − offY) mod yLen, (x − offX) mod xLen], periodic in xLen and yLen |
| `Brushes.ImageBrushApplicator.Dispose` | src/ImageSharp.Drawing/Brushes/ImageBrush.cs:101-104 | disposes the brush's source image |
| `Brushes.ImageBrushApplicator.Apply` | src/ImageSharp.Drawing/Brushes/ImageBrush.cs:107-129 | blends source row (y − offY) mod yLen, column (i + x − offX) mod xLen into each cell of the target row with unclamped amount scanline[i] × BlendPercentage; a negative source row and a target slice out of range throw ArgumentOutOfRange, a negative source column IndexOutOfRange, a zero size DivideByZero; on an error nothing is written |
| `Brushes.ImageBrushApplicator.Buffers` | src/ImageSharp.Drawing/Brushes/ImageBrush.cs:111-121 | the amount and overlay buffers have the scanline's length and hold the unclamped amounts and tiled source pixels; a negative source row is the ArgumentOutOfRange of `GetRowSpan`, a negative source column the row's IndexOutOfRange |
| `Frames.FirstIndex` | src/ImageSharp/Common/FramesList.cs:90-99 | −1 exactly when absent; otherwise the index of the first occurrence |
| `Frames.Inserted` | src/ImageSharp/Common/FramesList.cs:102-111 | inserting at i puts the frame at i and shifts later frames up by one |
| `Frames.Removed` | src/ImageSharp/Common/FramesList.cs:126-129 | removing at i drops that frame and shifts later frames down by one |
| `Frames.RemoveInserted` | src/ImageSharp/Common/FramesList.cs:102-129 | removing at the index just inserted at restores the list |
| `Frames.RemovedFirstMultiset` | src/ImageSharp/Common/FramesList.cs:114-123 | Remove takes exactly one occurrence out when the frame is present, and none otherwise |
| `Frames.FirstIndexAppend` | src/ImageSharp/Common/FramesList.cs:36-45 | Add does not move existing frames: IndexOf is unchanged for them, and a new frame is found at the end |
| `Frames.FramesList.constructor` | src/ImageSharp/Common/FramesList.cs:21 | a new list is empty |
| `Frames.FramesList.GetFrame` | src/ImageSharp/Common/FramesList.cs:30 | reading index i gives the i-th frame, and an out-of-range index fails |
| `Frames.FramesList.Get` | src/ImageSharp/Common/FramesList.cs:30 | the typed indexer converts the i-th frame with As<TPixel> |
| `Frames.FramesList.Set` | src/ImageSharp/Common/FramesList.cs:30 | writing index i replaces exactly that frame, or fails out of range and changes nothing |
| `Frames.FramesList.Add` | src/ImageSharp/Common/FramesList.cs:36-45 | appends at the end, keeping earlier frames in place; Count grows by one |
| `Frames.FramesList.Clear` | src/ImageSharp/Common/FramesList.cs:48-51 | leaves the list empty |
| `Frames.FramesList.Contains` | src/ImageSharp/Common/FramesList.cs:54-63 | true exactly when the frame is stored |
| `Frames.FramesList.IndexOf` | src/ImageSharp/Common/FramesList.cs:90-99 | −1 exactly when absent; otherwise the first index holding the frame |
| `Frames.FramesList.Insert` | src/ImageSharp/Common/FramesList.cs:102-111 | inserts at index i in [0, Count], or fails out of range and changes nothing |
| `Frames.FramesList.Remove` | src/ImageSharp/Common/FramesList.cs:114-123 | returns true exactly when the frame was present, and removes its first occurrence |
| `Frames.FramesList.RemoveAt` | src/ImageSharp/Common/FramesList.cs:126-129 | removes the i-th frame, or fails out of range and changes nothing |
| `Frames.FramesList.CopyTo` | src/ImageSharp/Common/FramesList.cs:71-75 | copies the frames into the array at the index, leaving the rest of the array; a negative index or too little room fails and writes nothing |
| `Frames.FramesList.CopyToTyped` | src/ImageSharp/Common/FramesList.cs:66-69 | the typed overload copies without As<TPixel>: with the index in range it succeeds exactly when every frame is of the pixel format, copying them as the untyped overload does, and otherwise throws InvalidCastException, leaving the cells outside the destination window alone; the range errors come first and write nothing |
| `Frames.FramesList.Enumerate` | src/ImageSharp/Common/FramesList.cs:78-81 | enumerates every frame in insertion order, each converted with As<TPixel> |
| `Dispatch.GetEdgeProcessor` | src/ImageSharp/Processing/Convolution/DetectEdges.cs:95-143 | each named edge detection gets its own processor, any other value Sobel, with the grayscale flag copied |
| `Dispatch.EdgeProcessorChoice` | src/ImageSharp/Processing/Convolution/DetectEdges.cs:95-143 | a processor kind is chosen exactly for its own filter, or (Sobel) for an unlisted value |
| `Dispatch.DetectEdges` | src/ImageSharp/Processing/Convolution/DetectEdges.cs:27-30 | the parameterless overload applies Sobel with Grayscale = true to the whole image |
| `Dispatch.DetectEdgesIn` | src/ImageSharp/Processing/Convolution/DetectEdges.cs:41-44 | the rectangle-only overload applies Sobel with Grayscale = true to that rectangle |
| `Dispatch.DetectEdgesOverloads` | src/ImageSharp/Processing/Convolution/DetectEdges.cs:27-93 | the overloads agree: defaults Sobel and grayscale true, rectangle overloads pass their rectangle, the grayscale flag is copied unchanged |
| `Dispatch.GetColorBlindnessProcessor` | src/ImageSharp/Processing/ColorMatrix/ColorBlindness.cs:48-69 | each named deficiency gets its own processor, every other value Tritanopia |
| `Dispatch.ColorBlindnessProcessorChoice` | src/ImageSharp/Processing/ColorMatrix/ColorBlindness.cs:48-69 | a processor kind is chosen exactly for its own value, or (Tritanopia) for an unlisted value |
| `Dispatch.ApplyColorBlindness` | src/ImageSharp/Processing/ColorMatrix/ColorBlindness.cs:27-31 | the whole-image overload applies the selected processor over the full bounds |
| `Dispatch.ApplyColorBlindnessIn` | src/ImageSharp/Processing/ColorMatrix/ColorBlindness.cs:42-46 | the rectangle overload applies the same processor to the given rectangle |
| `Dispatch.SelectQuantizer` | src/ImageSharp/Quantizers/Quantize.cs:29-42 | Wu selects WuQuantizer, Palette selects PaletteQuantizer, any other mode OctreeQuantizer |
| `Dispatch.Quantize` | src/ImageSharp/Quantizers/Quantize.cs:26-45 | applies a quantize processor with the selected quantizer and maxColors passed unchanged |
| `Dispatch.QuantizeDefaults` | src/ImageSharp/Quantizers/Quantize.cs:26 | the defaults are Octree with 256 colours |
| `Dispatch.GrayscaleProcessorFor` | src/ImageSharp/Processing/ColorMatrix/Grayscale.cs:35-43 | Bt709 selects the Bt709 processor and every other mode Bt601 |
| `Dispatch.GrayscaleOverloads` | src/ImageSharp/Processing/ColorMatrix/Grayscale.cs:24-56 | Bt709 applies the Bt709 processor to the whole image or to the given rectangle; a mode outside the enumeration behaves as Bt601 |

## Left out

- File and stream I/O, the CLI tool and the codecs: these are not part of this model.
- Per-pixel floating-point maths. `Vector4.Transform`, companding, `PackFromVector4`/`ToVector4` and the blenders are parameters (function values) of the model. `AlphaProcessor`'s multiply is over `real`, so rounding is not modelled.
- Parallelism. The `Parallel.For` row loops are sequential loops here, and the locks in `ImageMetaData` and the tag caches are left out. Each row of the source's parallel loop writes only its own row, which the per-row frame conditions state. An exception thrown inside a row (the ArgumentOutOfRangeException of `GetRowSpan`, or the IndexOutOfRangeException of a row's indexer) reaches the caller wrapped in an `AggregateException` by `Parallel.For`, and the model reports the bare exception; this affects `PixelLoops.ProcessRegion`, the ColorMatrix and Alpha `OnApply`, `OrderedDitherProcessor.BeforeApply`, `Quantization.Fill` and `QuantizeProcessor.BeforeImageApply`.
- The `PackedBuffer` finalizer: only explicit `Dispose` is modelled.
- `Buffer<T>` and `Image`/`ImageBase` are not part of this model. They appear only as small classes holding what the core reads and writes: the array, a dispose counter, the list of applied processors and the pixel buffer.
- MetaData.ImageMetaData.Clear: it is not defined in ImageMetaData.cs, and `ReplaceWith` calls it; it is modelled only as emptying the property list.
- `ImageBase.GetRowSpan` and `System.Span` are not part of this model. A row span or a slice outside its buffer is taken to throw ArgumentOutOfRangeException with parameter name `start` (`Common.SliceOutOfRange`), as System.Memory's `Span` does; an element index outside a span or an array throws IndexOutOfRangeException.
- Brushes.PatternBrushApplicator.Apply, Brushes.ImageBrushApplicator.Apply: the target slice is taken to fit only when 0 <= x (`Brushes.Fits`). `GetRowSpan(x, y)` slices the flat pixel buffer from y × Width + x, so in the source a negative x on a row y >= 1 succeeds and blends into the previous row's tail; the applicators' callers pass x >= 0, and the model throws there instead.
- Exif.ResolutionRoundTrip, MetaData.ResolutionSetter: resolutions and rationals are exact `real`s. The source's `double` values, NaN, infinities, a zero denominator and any rounding when `SetResolution` (which is not part of this model) stores a double as an Exif rational are not modelled, so the exact round trip holds in the model where the source may round.
- The `IConstantBitRateCompression` interface is a datatype of functions with length laws, since the model has no interfaces. Its only implementation here is the little-endian encoding of a given element width.
- Generator (`yield`) consumers of `ReadAllPartitions`/`WriteAllPartitions` are a fill function plus an optional "stop after m partitions". The model does not show how a consumer holds the span of one partition across steps.
- CompressedBuffers.CompressedBuffer.constructor: requires a partition count that does not divide by zero. The division-by-zero case itself is modelled by `Partitioning.PartitionCount`.
- CompressedBuffers.CompressedBuffer.Dispose: `CompressedBuffer` does not override `Dispose(bool)`, so only the `IsDisposed` flag is stated.
- The orientation flips and rotations, the ditherer, the grayscale matrix and the quantizer algorithm are calls into code that is not part of this model. AutoRotate records its steps on the image rather than executing them. The ditherer is a function of (pixel, x, y, colours, index, bounds) that writes only pixel (x, y). How the quantizer's call ends (its exception, null, or the quantized image) is an input, and a quantized image whose Palette or Pixels array is null is not modelled.
- EXIF tag names (`ExifTag.ToString`, `Enum.TryParse`), the EXIF value store and the declared EXIF data types are parameters, since the profile's own storage code is not part of this model. `ExifProfile.SetValue` is modelled as "replace the first value with that tag, else append".
- AutoRotate.AutoRotateProcessor.GetExifOrientation: a single Short value is taken to hold a boxed ushort, as the type checks of `ExifValue` (not part of this model) ensure.
- Dispatch.QuantizeWith: a null quantizer is not representable in the dispatch model; what it does is modelled by `Quantization.QuantizeProcessor.BeforeImageApply`.
- The .NET type of a boxed EXIF value is not part of `Value`; whether the unboxing cast of `ExifProfile.PopulateTo` matches it is a parameter (`unboxes`), and a mismatch is `InvalidCastException` as in .NET.
- CompressedBuffers.CompressedBuffer.constructor: the byte count `totalLength * compressedElementSize` is an unbounded product; the 32-bit overflow of the source's `int` multiplication is not modelled.
- CompressedBuffers.CompressedBufferIterator.CompressedSpan: the window start `currentPosition * compressedElementSize` and its length are unbounded products; their 32-bit overflow is not modelled.
- Quantization.Fill, Quantization.Lookup, Quantization.LookupClamps, Quantization.LookupExact: the pixel index `x + y * width` is an unbounded integer; its 32-bit overflow is not modelled.
- Geometry.AlignOffsets, Geometry.AlignWrites, Geometry.AlignInsideImage, Geometry.AlignBounds, Geometry.AlignOutside: `Rectangle.Right` and `Rectangle.Bottom` are unbounded sums; the 32-bit overflow of `X + Width` and `Y + Height` is not modelled.
- Operations.Mutate, Operations.MutateAll, Operations.Generate, Operations.GenerateAll: processors are recorded on the image, not run, so an exception a processor throws is not modelled; `Processing` models that separately.
- Brushes.ImageBrushApplicator.GetInRange, Brushes.ImageBrushApplicator.GetLeftOfOffset, Brushes.ImageBrushApplicator.GetTiles: `ImageBase` is not part of this model; its indexer is taken to throw `IndexOutOfRangeException` for coordinates outside the image and to read pixel (x, y) otherwise.
- Brushes.Grid.At: `Fast2DArray` is not part of this model; its indexer is taken to read the flat index `row * width + column` with only the array's own bounds check, and that product is unbounded.
- Processing hooks are a function of the call alone. A processor whose hooks keep state, and so fail only on a later frame, is not modelled: with these hooks a frame's triple fails exactly when the triple before the frame loop does.
- The two `PngMetaData` classes (the format's and the profile's) are separate modules and are not reconciled.
- `Color`'s mutable R/G/B/A setters are left out: `Color` is a value here, and only `WithOpacity` creates changed colours.
- `Color`'s named colour tables, `ToString` and `GetHashCode` are not part of this model.
