# A model of the image-process tool

This project models four connected parts of a satellite image processing tool and proves what they are
for. Verify it with `dafny verify dfyconfig.toml` (Dafny 4.11).

1. **The tiled detector** (`src/backends/lynxi`). A frame is cut into overlapping square tiles. A producer
   thread, an inference thread and a post thread pass them along two blocking queues and a pool of twenty
   result buffers; the caller joins the threads and shuts the queues down with two flag-and-close
   handshakes. `Pipeline` is the step relation, one critical section a step, with the wait set of every
   condition variable and the choice of each `notify_one` explicit. `PipelineInvariant` and
   `PipelineSteps` say what every step keeps; `PipelineRuns` says what that means for whole runs: the
   result is the sequential one, nothing deadlocks, every run is bounded, no buffer is lost. `Cutter`,
   `YoloDecode`, `Nms`, `NmsMeaning` and `HalfFloat` are the arithmetic on the way, `Runtime` puts them
   together, and `IndexedQueue` is the reorder buffer beside them. `Scene` says what all this is for: on a
   device that sees the objects of each tile, the result lists the objects of the frame, each once.
2. **The CDG0.0 source** (`src/gst/sources`). `Cdg00` reads big-endian fields and packed 10-bit pixels,
   `Cdg00Window` compacts the valid lines of a window into an image, `Cdg00Src` slides the window over a
   file. `CameraLines` and `CameraFile` are the camera's side of it: lines built from pixels, and which of
   them every frame shows, bit for bit.
3. **The files written.** `TarHeader`, `TarArchive`, `TarOrder` and `SortedEntries` write ustar archives
   (POSIX.1-2017 `pax`, "ustar Interchange Format"), `TarReader` reads them back from the standard's
   description. `Tiff` writes and reads the one-strip crops (TIFF Revision 6.0, sections 2 and 4).
4. **The product sink and its geometry** (`src/gst`). `Geometry` is the resampling filter and the way
   back from filter to image coordinates, `GeometryStrides` what padded rows do to it, `Metadata` and
   `Detector` the chain that feeds the sink, `TextSink` the sink as a state machine over two streams and
   four files, `TextSinkRuns` what it keeps over every run, `SinkRecords` what its records say about the
   buffers, `DetectorToSink` a run of the one into the other, whatever the geometry. `Product` puts the
   runtime's threads in front of that, and `CdgProduct` a whole CDG0.0 file.

`Basics`, `Bytes`, `Digits` and `Detect` hold what these share.

Floats and doubles are reals. Files are maps from paths to contents. Whatever the environment decides
(which sleeper wakes, whether a write, a flush or a rename succeeds) is an argument, and the theorems hold
for every value of it.

## Where the code does not do what one might expect

Each of these is a lemma with the exact condition.

- The producer reads `model_width` by `model_height` pixels per tile, but the cutter only knows the width:
  every tile is in the frame and every pixel is read exactly when the model input is square
  (`Cutter.TilingIsSoundIffSquare`).
- The decoders clamp only one side of each coordinate: an accepted box can come out inverted
  (`YoloDecode.ClampedBounds`, and such a box in `YoloDecode.InvertedBox`). Suppression copes with that
  (`Nms.RatioInUnit`).
- The resampling loop takes both planes for unpadded, while the elements after it read rows at the plane's
  stride. At the default strides every pixel is right exactly when both widths are multiples of four,
  single rows aside (`GeometryStrides.DefaultStridesRightIff`, `GeometryStrides.StridesRightIff`).
- `float2half(half2float(p))` loses the sign of negative zero, and nothing else
  (`HalfFloat.Float2HalfInverts`).
- The exposure ticks of a CDG0.0 sample start at the byte that is also the time synchronisation status
  (`Cdg00.ParsedFields`).
- Frame members of an archive are in frame order exactly up to a million frames (`TarOrder.InFrameOrder`);
  a member named manifest.json would break the order (`TarOrder.MergeSortedIff`); a name with a NUL does
  not read back (`TarArchive.ArchiveRoundTrip`).
- TIFF sides from 65536 on do not fit their SHORT fields (`Tiff.TiffRoundTrip`).
- The sink refuses a frame with a detection in a margin that the geometry filter has left black: it can
  show every box of the filter's plane exactly when the plane shows nothing beside the image
  (`DetectorToSink.PlaneInImageIff`, `DetectorToSink.FrameAccepted`).
- A second end of stream directly after a published one removes the published files
  (`TextSinkRuns.PublishedSurvivesIff`).
- The detector numbers frames with 32 bits, the sink expects 64: a run of more than 2^32 frames is refused
  (`DetectorToSink.StreamAccepted`).
- A window of fewer than sixteen lines has no time, and the sink then fails closed: a CDG0.0 file whose
  last window is that short is never published whole (`CdgProduct.ShortTail`, `CdgProduct.FileDelivered`).

## Model

| member | source | states |
|---|---|---|
| `PipelineRuns.PipelineRefinesSequential` | src/backends/lynxi/yolox_runtime.cpp:437-481 | Under every interleaving of the four threads and every choice of notified sleeper, the list after the joins is the concatenation, in cutter order, of each tile's shifted boxes; before that some thread can always step; the number of steps is bounded |
| `PipelineRuns.StepSimulates` | src/backends/lynxi/yolox_runtime.cpp:242-274 | Forward simulation: in every reachable state the list is a prefix of the sequential result, and a step leaves it or adds exactly the next tile |
| `PipelineRuns.NoDeadlock` | src/backends/lynxi/yolox_runtime.cpp:467-479 | Until the caller is done, every reachable state has a thread that can step |
| `PipelineRuns.Progress` | src/backends/lynxi/yolox_runtime.cpp:192-274 | Every step of every thread strictly decreases one potential |
| `PipelineRuns.RunBound` | src/backends/lynxi/yolox_runtime.cpp:437-481 | A schedule is no longer than the initial potential plus three per spurious wakeup, and the invariant holds at its end |
| `PipelineRuns.NoLostWakeup` | src/backends/lynxi/include/utils/utils.hpp:118-204 | A sleeper nobody has notified waits for something false; producer and consumer never sleep on one queue together; `q_image` holds at most one item; no put meets a closed queue |
| `PipelineRuns.BuffersInOnePlace` | src/backends/lynxi/yolox_runtime.cpp:192-216 | Each of the result buffers is in exactly one place: free, on its way back, held by a thread, or queued |
| `PipelineRuns.BuffersConserved` | src/backends/lynxi/yolox_runtime.cpp:192-216 | The counts of those places add up to the size of the pool in every reachable state |
| `PipelineRuns.FinishResult` | src/backends/lynxi/yolox_runtime.cpp:467-479 | When the caller has joined all threads the result is the sequential one and both queues are empty |
| `PipelineRuns.FinishBuffers` | src/backends/lynxi/yolox_runtime.cpp:192-216 | ... and every buffer is back in the pool with no reference left |
| `Detect.ShiftBack` | src/backends/lynxi/yolox_runtime.cpp:262-271 | A tile-local box moved by its tile's offset is the box of the frame: on both axes, with class and score unchanged |
| `PipelineSteps.StepKeeps` | src/backends/lynxi/yolox_runtime.cpp:145-274 | Every enabled step of every thread keeps the invariant: mutexes, wait sets, both handshakes, the buffer ledger, and the order and contents of everything in flight |
| `PipelineSteps.SpuriousKeeps` | src/backends/lynxi/include/utils/utils.hpp:118-131 | So does a wakeup without a notification |
| `BlockingQueue.Queue.Get` | src/backends/lynxi/include/utils/utils.hpp:118-130 | The in-place queue does exactly the step that the protocol proofs are about: front item and one notification, sleep, or closed |
| `BlockingQueue.Queue.Put` | src/backends/lynxi/include/utils/utils.hpp:168-175 | The same for `put`, which throws on a closed queue |
| `BlockingQueue.Queue.Wait` | src/backends/lynxi/include/utils/utils.hpp:193-204 | The same for the wait for emptiness on the shared condition variable |
| `BlockingQueue.Queue.Close` | src/backends/lynxi/include/utils/utils.hpp:188-192 | The same for `close`, which wakes everybody |
| `Runtime.InferenceIsAFunction` | src/backends/lynxi/yolox_runtime.cpp:406-481 | The list that `infer_gray8` returns is a function of the frame under every schedule, within 40 steps per tile plus 56 plus three per spurious wakeup |
| `Runtime.DetectionsInFrame` | src/backends/lynxi/yolox_runtime.cpp:219-281 | Every returned detection has xmin, ymin at least 0, xmax at most W-1 and ymax at most H-1 |
| `Runtime.PostProcessOne` | src/backends/lynxi/yolox_runtime.cpp:219-240 | The decoder of the model's layout, run with the tile as its own original image, gives the boxes of a tile |
| `Runtime.MoveTile` | src/backends/lynxi/yolox_runtime.cpp:262-271 | The loop that adds the offsets moves every box of the tile in place |
| `Runtime.TileCut` | src/backends/lynxi/yolox_runtime.cpp:151-158 | The tiles of the grid go to the device in its order, and pixel (x, y) of a tile is the frame's pixel that far from the tile's corner |
| `Runtime.LayoutIndependent` | src/backends/lynxi/infer/yolovXPostProcess.cpp:364-517 | Two tensors with v8[i * w + c] == v9[c * n + i], read by the two decoders, give the same detections |
| `Scene.EveryObjectOnce` | src/backends/lynxi/yolox_runtime.cpp:406-481 | On a device that reports the objects of each tile, in either layout and by any number of anchors, and for objects smaller than what neighbouring tiles share: under every schedule the result is a permutation of the objects of the frame, in frame coordinates, sorted by class and score |
| `Scene.SceneDetected` | src/backends/lynxi/yolox_runtime.cpp:406-481 | Without the bound on their size: exactly the objects that lie in some tile, each once |
| `Scene.TileDetectionsAre` | src/backends/lynxi/yolox_runtime.cpp:219-274 | Tile k contributes exactly the objects that lie in it, in frame coordinates |
| `Scene.SaysDecodes` | src/backends/lynxi/infer/yolovXPostProcess.cpp:376-434 | An anchor with an object's centre and sides in tile pixels and its class ahead is decoded to just that object |
| `CdgProduct.CameraToProduct` | src/gst/sinks/text_sink.cpp:489-697 | For a file of camera lines whose windows all show something: the product is published exactly when all frames are timed and at most 2^32, and record k then has the time of the first sample line of window k and lists each object that the picture lines k * stride to k * stride + height show exactly once |
| `CdgProduct.UnchangedShows` | src/gst/sinks/text_sink.cpp:89-127 | Where the geometry is unchanged, as on that path, the box of an item is the box of its target |
| `CdgProduct.WindowShows` | src/gst/sources/cdg00_src.cpp:196-254 | The frame of window k shows the picture lines of that window from the top, without the two low bits, and black below |
| `CdgProduct.FileDelivered` | src/gst/sinks/text_sink.cpp:489-697 | The first n frames of a file whose windows all decode, through any completed runs of the threads, become a product exactly when 0 < n <= 2^32 and each of the n windows has a usable time; records k are then of window k and show exactly the detector's selection from the detections its pixels determine |
| `CdgProduct.TimedIff` | src/gst/sinks/text_sink.cpp:545-571 | The sink takes the clock of a window exactly when its first row-zero line with sixteen lines from itself on says less than a million microseconds |
| `CdgProduct.ClockOfWindow` | src/gst/sources/cdg00_decode.hpp:53-66 | The clock of a window is that of its first sample line: seconds, microseconds and exposure are these bytes of the block |
| `CdgProduct.LastWindow` | src/gst/sources/cdg00_src.cpp:201-218 | The last window of a file has min(height, (lines - 1) mod stride + 1) lines |
| `CdgProduct.ShortTail` | src/gst/sources/cdg00_decode.hpp:131-139 | When those are fewer than sixteen the whole file is never published |
| `Product.FramesDelivered` | src/gst/sinks/text_sink.cpp:381-697 | For a run of the threads on each frame, under whatever schedules and geometry: the product is published exactly when there are frames, at most 2^32, each with a usable clock and targets that come from boxes of the image; records i then hold the time and geometry of frame i and exactly the reported detections of the one list it determines, in order, once each, the first 256, in coordinates of the original image |
| `Product.ObjectsDelivered` | src/gst/sinks/text_sink.cpp:489-697 | Record i of a published product lists the objects that the model sees in frame i, each exactly once, with the boxes of the original image that the filter maps to them |
| `Product.TargetOfFrame` | src/gst/filters/lynxi_detector.cpp:239-259 | Target i is the i-th reported detection of a frame: its class, its score, and its own box if that is upright |
| `Cutter.Cutter.GetNext` | src/backends/lynxi/yolox_runtime.cpp:82-101 | One critical section is one step of the index: the tile of the current index, until all have been handed out |
| `Cutter.CallAll` | src/backends/lynxi/yolox_runtime.cpp:82-101 | Calls of `get_next` on one cutter, by any callers in any order, are one step of the index after another |
| `Cutter.EachTileOnce` | src/backends/lynxi/yolox_runtime.cpp:82-101 | Once there have been as many calls as tiles, each tile has gone to exactly one of them, and the calls beyond get nothing |
| `Cutter.FloatCeilingIsExact` | src/backends/lynxi/yolox_runtime.cpp:83-90 | Below 2^24 the ceiling of the rounded float quotient is the integer ceiling |
| `Cutter.TileAt` | src/backends/lynxi/yolox_runtime.cpp:92-99 | Tiles go row by row at multiples of the stride, those that would leave the frame end at its edge, and each row and column ends with the first tile that reaches the edge |
| `Cutter.TilesInFrame` | src/backends/lynxi/yolox_runtime.cpp:94-99 | Every tile lies in the frame |
| `Cutter.TilesDistinct` | src/backends/lynxi/yolox_runtime.cpp:83-99 | No two tiles have the same offset |
| `Cutter.BoxInSomeTile` | src/backends/lynxi/yolox_runtime.cpp:82-101 | Every box with both sides at most crop - stride lies wholly inside some tile |
| `Cutter.StrideIsUsable` | src/backends/lynxi/yolox_runtime.cpp:431-434 | The stride is the integer nearest to 25/32 of the crop, and always between 1 and the crop |
| `Cutter.TilingIsSoundIffSquare` | src/backends/lynxi/yolox_runtime.cpp:151-158 | All reads are in the frame and all pixels are read exactly when the model input is square |
| `Nms.StableSortUnique` | src/backends/lynxi/infer/yolovXPostProcess.cpp:98 | A sequence is the stable sort exactly when it is sorted by score plus class and keeps elements of equal key in their order |
| `Nms.SortFilter` | src/backends/lynxi/infer/yolovXPostProcess.cpp:98 | The stable sort commutes with every filter |
| `Nms.RatioInUnit` | src/backends/lynxi/infer/yolovXPostProcess.cpp:123-131 | Whenever the ratio is computed its denominator is positive and it lies in (0, 1], even for inverted boxes |
| `NmsMeaning.IouCounts` | src/backends/lynxi/infer/yolovXPostProcess.cpp:123-131 | For boxes with integer corners: they overlap properly exactly when they share a unit cell, and the ratio is the number of cells in both over the number in either |
| `NmsMeaning.IouScales` | src/backends/lynxi/infer/yolovXPostProcess.cpp:123-131 | The ratio does not depend on unit or origin, which carries this to rational corners and from tile to frame coordinates |
| `NmsMeaning.IouSelf` | src/backends/lynxi/infer/yolovXPostProcess.cpp:123-131 | A proper box overlaps itself with ratio one |
| `Nms.OverlapsMore` | src/backends/lynxi/infer/yolovXPostProcess.cpp:123-132 | The inner loop's comparison decides whether the intersection over union exceeds the threshold |
| `Nms.Yolo5Nms` | src/backends/lynxi/infer/yolovXPostProcess.cpp:93-137 | The skip-array double loop computes the recursive greedy choice on the stably sorted input; `top_k` has no effect |
| `Nms.NmsIsTheKernel` | src/backends/lynxi/infer/yolovXPostProcess.cpp:112-136 | The sorted input has exactly one subset in which none suppresses another and which suppresses all the rest from before; the result is that subset in order |
| `NmsMeaning.NmsLeaves` | src/backends/lynxi/infer/yolovXPostProcess.cpp:93-137 | The result is part of the input, sorted by class plus score, keeps no two of one class that overlap by more than the threshold, and every dropped detection gave way to a kept one of its class with at least its score that overlaps it by more |
| `NmsMeaning.NmsDropsRepetitions` | src/backends/lynxi/infer/yolovXPostProcess.cpp:93-137 | When only repetitions overlap by more than the threshold, exactly the repetitions are dropped |
| `Nms.NmsPerClass` | src/backends/lynxi/infer/yolovXPostProcess.cpp:119-121 | Without cross-class suppression the result for a class is what that class alone gives |
| `Nms.NmsIdempotent` | src/backends/lynxi/infer/yolovXPostProcess.cpp:93-137 | Running it again changes nothing |
| `YoloDecode.BestIsFirstMaximum` | src/backends/lynxi/infer/yolovXPostProcess.cpp:380-389 | The class is the first with the highest confidence, or -1 when none is positive |
| `YoloDecode.CornersUndoLetterbox` | src/backends/lynxi/infer/yolovXPostProcess.cpp:368-414 | The decoded corners undo the scaling and padding of every box, padded or not |
| `YoloDecode.ScaleFits` | src/backends/lynxi/infer/yolovXPostProcess.cpp:368-376 | A padded resize keeps the aspect ratio and is the largest that fits the model input; any other fills it |
| `YoloDecode.ImageCentred` | src/backends/lynxi/infer/yolovXPostProcess.cpp:406-408 | The padding puts the image in the middle of the model input |
| `YoloDecode.AnchorDecoded` | src/backends/lynxi/infer/yolovXPostProcess.cpp:379-432 | An anchor that shows a box is accepted exactly when a confidence reaches the threshold and the box has a part right of and below the origin; it yields the first class of the highest confidence and the box cut off at zero below and at the last pixel above |
| `YoloDecode.CandidatesInOrder` | src/backends/lynxi/infer/yolovXPostProcess.cpp:379-433 | The candidates are the decoded accepted anchors, in anchor order |
| `YoloDecode.RowsV8At` | src/backends/lynxi/infer/yolovXPostProcess.cpp:26-47 | Value c of anchor i is element i * w + c of the flat tensor |
| `YoloDecode.RowsV9At` | src/backends/lynxi/infer/yolovXPostProcess.cpp:26-47 | ... and element c * n + i of the tensor that comes channels first |
| `YoloDecode.SameRows` | src/backends/lynxi/infer/yolovXPostProcess.cpp:26-47 | The two flat indexings of a tensor and of its transpose give the same anchors |
| `YoloDecode.Yolov8sPostProcess` | src/backends/lynxi/infer/yolovXPostProcess.cpp:364-437 | The anchor loop with its early exits computes the suppression of the accepted, decoded anchors, anchors first |
| `YoloDecode.Yolov9sPostProcess` | src/backends/lynxi/infer/yolovXPostProcess.cpp:439-517 | The same, channels first |
| `YoloDecode.ClampedBounds` | src/backends/lynxi/infer/yolovXPostProcess.cpp:416-431 | Every decoded box is bounded by the image on the clamped sides, and is upright exactly when its lower corner was inside |
| `YoloDecode.InvertedBox` | src/backends/lynxi/infer/yolovXPostProcess.cpp:416-431 | An accepted row whose box comes out inverted |
| `YoloDecode.ResultWithin` | src/backends/lynxi/infer/yolovXPostProcess.cpp:364-517 | So is everything a decoder returns |
| `YoloDecode.ShiftedWithin` | src/backends/lynxi/yolox_runtime.cpp:262-271 | Shifted by the offset of a tile in the frame, it is bounded by the frame |
| `HalfFloat.PatternMonotone` | src/backends/lynxi/infer/typeConv.cpp:39-112 | `float2half` is monotone on the non-negative numbers, across every binade, through the mantissa carry and the subnormal join, into saturation |
| `HalfFloat.Half2FloatIs` | src/backends/lynxi/infer/typeConv.cpp:14-37 | Sign, exponent e and mantissa m mean (1024 + m) * 2^(e - 25), or m * 2^-24 up to the rounded constant |
| `HalfFloat.PatternInvertsMagnitude` | src/backends/lynxi/infer/typeConv.cpp:14-112 | It inverts `half2float` on every non-negative finite pattern despite the rounded subnormal constant |
| `HalfFloat.Float2HalfInverts` | src/backends/lynxi/infer/typeConv.cpp:14-112 | On signed finite patterns it is the inverse exactly away from negative zero |
| `HalfFloat.NormalPattern` | src/backends/lynxi/infer/typeConv.cpp:97-110 | In the normal range the pattern is exponent and rounded mantissa, a mantissa of 1024 carrying into the exponent |
| `HalfFloat.SubnormalPattern` | src/backends/lynxi/infer/typeConv.cpp:91-96 | Below 2^-14 it counts multiples of 2^-24 |
| `HalfFloat.LogRoundingHarmless` | src/backends/lynxi/infer/typeConv.cpp:68-85 | Where the single-precision logarithm could round up to the next integer, both exponents give the same pattern |
| `HalfFloat.NormalError` | src/backends/lynxi/infer/typeConv.cpp:16-112 | There and back moves a normal number by at most 2^-11 of its binade |
| `HalfFloat.SubnormalError` | src/backends/lynxi/infer/typeConv.cpp:16-112 | ... and a smaller one by at most 0.501 steps of 2^-24 |
| `IndexedQueue.IndexedQueue.Put` | src/backends/lynxi/include/utils/utils.hpp:322-339 | The in-place loop calls back and leaves buffered exactly what the recursive drain does |
| `IndexedQueue.RunAccount` | src/backends/lynxi/include/utils/utils.hpp:308-340 | After any arrivals, exactly the longest contiguous run of arrived indices from 0 has been called back, in order and once each, with data that arrived under that index; the rest is buffered |
| `IndexedQueue.DistinctBuffer` | src/backends/lynxi/include/utils/utils.hpp:322-339 | With distinct indices every buffered key is above the next index |
| `IndexedQueue.OrderIrrelevant` | src/backends/lynxi/include/utils/utils.hpp:322-339 | The same distinct arrivals in any order give the same callbacks and the same buffer |
| `IndexedQueue.Permutation` | src/backends/lynxi/include/utils/utils.hpp:322-339 | Any permutation of 0 to n-1 is delivered as 0 to n-1 and leaves nothing |
| `Cdg00.ParsedFields` | src/gst/sources/cdg00_decode.hpp:53-65 | The masks and shifts cut out adjacent big-endian fields; the status byte is always the top byte of the exposure ticks; the exposure fits 32 bits |
| `Cdg00.ParsedPosition` | src/gst/sources/cdg00_decode.hpp:67-80 | The position record is big-endian from line 14 on; its first attitude angle continues in line 15 |
| `Cdg00.ShiftsAreDigits` | src/gst/sources/cdg00_decode.hpp:92-100 | The four shift expressions are the four base-1024 digits of the five bytes as one number |
| `Cdg00.Unpack10To8` | src/gst/sources/cdg00_decode.hpp:83-107 | Writes the top eight bits of each symbol, as many as there are or fit, and nothing outside |
| `Cdg00.SymbolsOfPacked` | src/gst/sources/cdg00_decode.hpp:83-107 | Reading the symbols of packed 10-bit pixels gives the pixels |
| `Cdg00.UnpackPacked` | src/gst/sources/cdg00_decode.hpp:83-107 | So unpacking drops exactly the two low bits of every pixel |
| `Cdg00Window.ValidLinesAre` | src/gst/sources/cdg00_decode.hpp:127-130 | The lines kept are exactly those whose header starts with the magic, in increasing order |
| `Cdg00Window.DecodeWindow` | src/gst/sources/cdg00_decode.hpp:114-146 | The loop produces the compacted image and both samples within its buffers, and succeeds exactly when some line is valid (and the image has rows) |
| `Cdg00Window.ImageAt` | src/gst/sources/cdg00_decode.hpp:114-146 | Row r shows the symbols of the r-th valid line; the rows after the last one are zero |
| `Cdg00Window.PackedLineShows` | src/gst/sources/cdg00_decode.hpp:140-143 | A line that packs 10-bit pixels shows those pixels over four |
| `CameraLines.BlockShows` | src/gst/sources/cdg00_decode.hpp:114-146 | Of a block of picture lines (magic, 11 header bytes, 32 parameter bytes, packed pixels, trailer, 6448 bytes in all) mixed with noise and followed by part of a line, image row r shows the r-th picture line without the two low bits, and black beyond |
| `CameraLines.ImageBits` | src/gst/sources/cdg00_decode.hpp:83-112 | Bit j of image pixel (r, c) is bit 10 c + j of what follows the first 48 bytes of the r-th valid line |
| `CameraLines.SampleReads` | src/gst/sources/cdg00_decode.hpp:40-66 | A sample line is a valid line of row number zero modulo 16 with fifteen whole lines behind it; its fields are big-endian numbers at these bytes of the block |
| `CameraLines.PositionReads` | src/gst/sources/cdg00_decode.hpp:67-81 | The position record is read from lines 14 and 15 of the sample, the first attitude angle across both |
| `Cdg00Window.WindowEnds` | src/gst/sources/cdg00_decode.hpp:131-139 | Start and end are the samples of the first and last valid row-zero line with sixteen lines from itself on |
| `Cdg00Window.NoWindowEnds` | src/gst/sources/cdg00_decode.hpp:123-139 | They stay invalid exactly when there is no such line |
| `Cdg00Window.SampleRowAligned` | src/gst/sources/cdg00_decode.hpp:40-60 | The row number of a window sample is a multiple of 16 |
| `Cdg00Src.Cdg00Source.Create` | src/gst/sources/cdg00_src.cpp:196-254 | One call is one step of the sliding window, with the decoded frame or the right end or failure |
| `Cdg00Src.RunIs` | src/gst/sources/cdg00_src.cpp:196-254 | A file whose windows all decode gives exactly ceil(lines / stride) numbered frames, frame k from line k * stride on, and then the end, however often it is asked |
| `Cdg00Src.RunFailsAt` | src/gst/sources/cdg00_src.cpp:220-226 | When window n is the first without a valid line, the frames before it come out and then the failure |
| `Cdg00Src.WindowLines` | src/gst/sources/cdg00_src.cpp:201-218 | Frame k is made of the whole lines from k * stride to min(k * stride + height, lines), never more than the image has rows |
| `Cdg00Src.AllRowsKept` | src/gst/sources/cdg00_decode.hpp:140-144 | So decoding truncates nothing |
| `Cdg00Src.EveryLineShown` | src/gst/sources/cdg00_src.cpp:217-218 | Every line is in some frame exactly when stride is at most height, or one frame holds the file |
| `Cdg00Src.EveryLineShownOnce` | src/gst/sources/cdg00_src.cpp:217-218 | ... and in exactly one frame exactly when they are equal, or one frame is all there is |
| `Cdg00Src.EveryValidLineShown` | src/gst/sources/cdg00_src.cpp:196-254 | Unless lines are skipped, every valid line of the file is a row of pixels in some pushed frame, pixel for pixel |
| `CameraFile.CameraFrames` | src/gst/sources/cdg00_src.cpp:196-254 | Of a file of camera lines in which every window shows something, the source pushes one frame per stride, and row r of frame k shows the r-th picture line among lines k * stride to k * stride + height |
| `CameraFile.CameraDecodes` | src/gst/sources/cdg00_decode.hpp:114-147 | No window of such a file fails exactly when every window holds a picture line |
| `Digits.PrintRoundTrip` | src/tool/artifact.cpp:30-32 | A number printed with a minimum width reads back |
| `Digits.PrintFits` | src/tool/artifact.cpp:30-36 | It takes exactly the width exactly when it is below that power of the base |
| `Digits.PrintOrdered` | src/tool/artifact.cpp:123-124 | Numbers that fit are ordered as texts as they are as numbers |
| `TarHeader.WriteOctal` | src/tool/artifact.cpp:25-39 | Stores the octal field in place, or refuses a value that needs more digits and stores nothing |
| `TarHeader.ReadBack` | src/tool/artifact.cpp:49-59 | Fields stored one after another without overlap all read back, and so do the gaps |
| `TarHeader.MakeTarHeader` | src/tool/artifact.cpp:41-69 | Fills and checksums the 512 bytes in place; fails exactly for a name over 100 bytes or a size from 8^11 on |
| `TarHeader.FitsIff` | src/tool/artifact.cpp:41-52 | A header can be made exactly for names of up to 100 bytes and sizes below 8589934592 |
| `TarHeader.ChecksumFits` | src/tool/artifact.cpp:61-67 | The checksum is always below 8^6, so six digits suffice |
| `TarReader.HeaderReads` | src/tool/artifact.cpp:41-69 | A reader that checks magic, version, type and checksum, the checksum field counted as spaces, gets the size, the name up to its first NUL, mode 644, and zero for owner, group and time |
| `TarArchive.Output.AppendEntry` | src/tool/artifact.cpp:71-80 | Appends header, data and padding to a multiple of 512, or nothing |
| `TarArchive.ArchiveRoundTrip` | src/tool/artifact.cpp:71-80 | An archive reads back as exactly its entries, stopping at the end blocks, exactly when no name holds a NUL |
| `TarArchive.MakeEntries` | src/tool/artifact.cpp:116-132 | The loop over the frames emplaces manifest, frames and metadata |
| `TarArchive.WriteProduct` | src/tool/artifact.cpp:198-227 | The output is the archive of those entries, or an error when one of them has no header |
| `TarArchive.MetadataLines` | src/tool/artifact.cpp:116-131 | meta/frames.jsonl holds the metadata of the frames, one line each, in their order |
| `TarArchive.EntriesAre` | src/tool/artifact.cpp:116-126 | The manifest member is the manifest and a newline; member i of the frames holds its bytes, under a name with at least six digits that read as i |
| `TarArchive.NamesAre` | src/tool/artifact.cpp:116-131 | The member names as texts, frames numbered with six digits |
| `TarOrder.ProductEntriesAre` | src/tool/artifact.cpp:116-132 | No entry is dropped: each frame, the manifest and the metadata appear once, in strictly increasing name order |
| `TarOrder.FrameNamesOrdered` | src/tool/artifact.cpp:122-124 | Below a million, frame names are ordered as their indices |
| `TarOrder.MillionOutOfOrder` | src/tool/artifact.cpp:122-124 | The name of frame 1000000 comes before that of frame 100001 |
| `TarOrder.InFrameOrder` | src/tool/artifact.cpp:116-132 | The archive lists the frames by index exactly up to a million frames |
| `TarOrder.ProductReadsBack` | src/tool/artifact.cpp:198-227 | A product archive reads back as its entries |
| `TarOrder.SortMembersAre` | src/tool/artifact.cpp:237-243 | Sorting members fails exactly on a duplicate name and otherwise keeps them all |
| `TarOrder.WriteProductFromFiles` | src/tool/artifact.cpp:229-273 | The loop with its `manifest_written` flag writes the archive of the merge, or fails on a duplicate, a missing file or an oversized member |
| `TarOrder.MergeSortedIff` | src/tool/artifact.cpp:251-261 | Every member and the manifest are written once; they are in strictly increasing order exactly when no member is named manifest.json |
| `TarOrder.FilesReadBack` | src/tool/artifact.cpp:229-273 | Such an archive reads back as the members with their contents and the manifest, in name order |
| `Bytes.LessIff` | src/tool/artifact.cpp:23 | The name order: at the first difference one name ends or has the smaller byte |
| `SortedEntries.EmplaceSorted` | src/tool/artifact.cpp:23-132 | `emplace` keeps the strict name order |
| `SortedEntries.EmplaceInserts` | src/tool/artifact.cpp:237-243 | It inserts exactly when the name is new |
| `SortedEntries.SortedUnique` | src/tool/artifact.cpp:211-213 | The order of iteration is determined by the contents |
| `Tiff.WriteGray8Tiff` | src/gst/sinks/text_sink.cpp:141-200 | Header, nine directory entries and the copied rows, for every positive size |
| `Tiff.HeaderBytes` | src/gst/sinks/text_sink.cpp:141-188 | All 122 bytes in front of the pixels |
| `Tiff.TiffRoundTrip` | src/gst/sinks/text_sink.cpp:141-200 | A reader that checks the tags' order and looks them up recovers width, height and pixels exactly when both sides are below 65536 |
| `Tiff.CropRectContains` | src/gst/sinks/text_sink.cpp:232-235 | The crop rectangle is in the frame and is the smallest one of whole pixels that contains the box |
| `Tiff.WriteCropTiff` | src/gst/sinks/text_sink.cpp:222-256 | The crop is that rectangle of the plane, read inside the plane only, or skipped when it has no pixels |
| `Tiff.CropPixel` | src/gst/sinks/text_sink.cpp:189-196 | Crop pixel (r, c) is frame pixel (y0 + r, x0 + c) |
| `Geometry.InverseUndoesForward` | src/gst/sinks/text_sink.cpp:89-127 | `inverse_bbox` undoes x' = s * x + o exactly on the upright boxes of the original image |
| `Geometry.ForwardUndoesInverse` | src/gst/sinks/text_sink.cpp:89-127 | What it reports of an upright box maps forward to that box |
| `Geometry.Transform` | src/gst/filters/geometry_normalize.cpp:288-313 | The resampling loops compute the sampled image and leave the rest of the buffer zero, for buffers of any size that holds the pixels; every index they use is in bounds |
| `Geometry.OutputPixel` | src/gst/filters/geometry_normalize.cpp:295-311 | Each output pixel is the source pixel under its back-mapped position, or zero outside |
| `Geometry.OutputShows` | src/gst/filters/geometry_normalize.cpp:295-311 | Output pixel (x, y) is source pixel (ix, iy) when x lies between scale * ix + offset and scale * (ix + 1) + offset, and y likewise |
| `Geometry.OutputBlack` | src/gst/filters/geometry_normalize.cpp:301-304 | It is zero where the map puts no source pixel |
| `Geometry.TransformInPlace` | src/gst/filters/geometry_normalize.cpp:229-234 | With identity parameters the loop equals the in-place copy that `set_caps` selects, exactly unless there are non-zero bytes beyond the pixels |
| `GeometryStrides.SourceIs` | src/gst/filters/geometry_normalize.cpp:295-311 | The input byte that pixel (x, y) is meant to show, in plain numbers |
| `GeometryStrides.AlwaysRightIff` | src/gst/filters/geometry_normalize.cpp:305-311 | A strided reader sees the right pixel everywhere in every picture exactly when each output position was written from the input byte that the reader means |
| `GeometryStrides.UnpaddedOutputIff` | src/gst/filters/geometry_normalize.cpp:305-311 | With unpadded output rows, or one row: exactly when the input rows are unpadded too or nothing below the first is sampled |
| `GeometryStrides.StridesRightIff` | src/gst/filters/geometry_normalize.cpp:305-311 | When the last pixel shows something: exactly when neither plane is padded, an output of one row and an input sampled in its first row only aside |
| `GeometryStrides.DefaultStridesRightIff` | src/gst/filters/geometry_normalize.cpp:305-311 | At rows rounded up to four bytes: exactly when both widths are multiples of four |
| `GeometryStrides.TightIsRight` | src/gst/filters/geometry_normalize.cpp:305-311 | Without padding every pixel is right |
| `GeometryStrides.PaddedWidth` | src/gst/filters/geometry_normalize.cpp:305-311 | A filter of 1001 of 1004 columns: the reader's pixel (0, 1) is the one written as (3, 1) |
| `Geometry.PixelInReportedBox` | src/gst/sinks/text_sink.cpp:89-127 | A filter pixel is inside a box exactly when it is sampled from inside the box the sink reports |
| `Metadata.Buffer.AddDetectionMeta` | src/gst/meta/gst_meta_v1.cpp:446-467 | Attaches the record exactly when the count and every target are valid and none is there yet |
| `Metadata.Buffer.FindMeta` | src/gst/meta/gst_meta_v1.cpp:469-503 | The iteration finds the first record of a kind |
| `Metadata.AddThenGet` | src/gst/meta/gst_meta_v1.cpp:446-503 | What was attached is what the accessors return, and no other kind of metadata changes |
| `Metadata.ReadsFirst` | src/gst/meta/gst_meta_v1.cpp:99-133 | Each accessor reads the first record of its kind, and only a valid one |
| `Metadata.ReadsTarget` | src/gst/meta/gst_meta_v1.cpp:484-503 | Target i is read if the record counts it and it is valid, for detections and for tracks |
| `Detector.ClampKeeps` | src/gst/filters/lynxi_detector.cpp:29-46 | The clamped box covers exactly the part of the filter plane that the two corners span |
| `Detector.ReportedIff` | src/gst/filters/lynxi_detector.cpp:243-257 | A detection is reported exactly when class and score are in range and the box that its corners span has a point inside the plane |
| `Detector.ReportedAtAre` | src/gst/filters/lynxi_detector.cpp:243-259 | The reported detections are exactly those with a valid class, score and box, in their order |
| `Detector.SelectTargets` | src/gst/filters/lynxi_detector.cpp:239-259 | The loop selects the first 256 of them in order |
| `Detector.SelectionAccepted` | src/gst/filters/lynxi_detector.cpp:239-273 | Every selected target passes the metadata validation and `bbox_in_filter`, and under identity geometry `inverse_bbox` reports it unchanged |
| `Detector.SelectionUnique` | src/gst/filters/lynxi_detector.cpp:239-259 | The selection is determined by the detections and the geometry |
| `Detector.LynxiDetector.TransformIp` | src/gst/filters/lynxi_detector.cpp:186-275 | One buffer is one step: a frame uses up one 32-bit number when inference succeeds, and gets one valid record |
| `Detector.RunCounts` | src/gst/filters/lynxi_detector.cpp:262-265 | After any run of buffers and answers the counter is the number of frames that used one up, modulo 2^32 |
| `Detector.SuccessfulRun` | src/gst/filters/lynxi_detector.cpp:186-275 | In a run without failures frame i carries i modulo 2^32 and the selection of its own detections |
| `TextSink.TextSink.Render` | src/gst/sinks/text_sink.cpp:489-697 | One buffer: refused and failed, or one record in each file and both counters advanced |
| `TextSink.CollectItems` | src/gst/sinks/text_sink.cpp:593-669 | The target loop collects every target's item or refuses, duplicate tracks included |
| `SinkRecords.TargetItemIff` | src/gst/sinks/text_sink.cpp:593-669 | For every geometry: a target becomes an item exactly when it can be read, is in the filter plane, comes from a box of the image, has a known class and its crop can be written; the item has its number, class, type and score, the box of the image that the filter maps to it, and the middle of that box |
| `SinkRecords.TrackItemIff` | src/gst/sinks/text_sink.cpp:593-669 | The same for a track, which must also bring a new number |
| `SinkRecords.AcceptIff` | src/gst/sinks/text_sink.cpp:489-669 | A buffer is accepted exactly when caps, geometry, role, clock and number are right and all its targets can be shown, no track number twice |
| `SinkRecords.AcceptShows` | src/gst/sinks/text_sink.cpp:672-686 | The two records then have its number, time, geometry and count, and its targets in order |
| `TextSink.TextSink.Publish` | src/gst/sinks/text_sink.cpp:449-478 | Flush, close and two renames, undone on any failure; nothing after a failure; nothing without frames |
| `TextSink.TextSink.Stop` | src/gst/sinks/text_sink.cpp:435-447 | Unpublished partials are discarded |
| `TextSinkRuns.RunInv` | src/gst/sinks/text_sink.cpp:381-697 | Over all runs: `frame_count` is `next_frame_id`; while nothing failed both partials hold exactly that many records, the i-th of frame i with equal times and counts; final files exist together and complete |
| `TextSinkRuns.AllOrNothing` | src/gst/sinks/text_sink.cpp:381-487 | From fresh paths, after stop there is no partial, and both final files in lock-step or neither |
| `TextSinkRuns.FailedStaysClosed` | src/gst/sinks/text_sink.cpp:449-478 | Once failed, nothing is published and nothing retracted, whatever follows |
| `TextSinkRuns.PublishesIff` | src/gst/sinks/text_sink.cpp:449-478 | An end of stream publishes exactly when nothing failed, there are frames, and both flushes and renames succeed |
| `TextSinkRuns.PublishedSurvivesIff` | src/gst/sinks/text_sink.cpp:449-487 | A published product survives exactly when no second end of stream follows directly |
| `TextSinkRuns.CompleteRunDelivers` | src/gst/sinks/text_sink.cpp:381-697 | A run without failures publishes the records of all frames in order |
| `TextSinkRuns.DeliversIff` | src/gst/sinks/text_sink.cpp:381-697 | Buffers without I/O failures and one end of stream publish exactly when there is a buffer and each is accepted in its turn |
| `SinkRecords.StreamShown` | src/gst/sinks/text_sink.cpp:381-697 | In both modes and for every geometry: such a stream is published exactly when there is a buffer and each is acceptable as the next, and records i of both files are then of buffer i |
| `DetectorToSink.FrameAccepted` | src/gst/sinks/text_sink.cpp:545-576 | For every geometry: a detector frame with known classes is accepted exactly when the frame numbers agree, the clock is usable and every target comes from a box of the image; its two records then have its time and geometry and show the detector's targets, in order, in coordinates of the image |
| `DetectorToSink.StreamAccepted` | src/gst/sinks/text_sink.cpp:573-576 | The sink accepts all buffers of one run of the detector exactly up to 2^32 frames, each with a usable clock and targets that come from the image |
| `DetectorToSink.StreamDelivered` | src/gst/sinks/text_sink.cpp:381-697 | Their product is published exactly then, if there is a frame, and records i show the detector's selection of frame i at its time, in coordinates of the image |
| `DetectorToSink.PlaneInImageIff` | src/gst/sinks/text_sink.cpp:89-127 | Every box of the filter plane comes from a box of the image exactly when the plane shows nothing beside the image |

## Left out

- Lynxi SDK calls, contexts, streams and model loading: inference is an uninterpreted function of the tile, and it succeeds; a device exception inside a thread is not modelled.
- The handshake with more than one producer or consumer per queue: the source fixes `kModelCount` and `kStreamNum` to one.
- The two-slot pools of input and output device buffers: the input pool is new for every tile and the output pool is taken and returned by one thread, so neither ever blocks; `get_for`, which nothing in the pipeline calls.
- The colour conversion of a tile and the copy to the device are part of the uninterpreted function.
- Scene.EveryObjectOnce: that the device reports the objects of a tile is a hypothesis on the uninterpreted function; how well a trained network meets it is not modelled.
- Runtime.InferenceIsAFunction: the job cuts square tiles, the case that `Cutter.TilingIsSoundIffSquare` singles out; a device that returns a tensor of another size is given no boxes.
- `Yolov5sPostProcess` and `tensorpostV5Process`, the class-name table.
- Single-precision rounding, NaN and infinities: numbers are reals. `Cutter.FloatCeilingIsExact` and `HalfFloat.LogRoundingHarmless` cover the two places where rounding decides an integer.
- HalfFloat.Float2HalfInverts: infinity and NaN patterns are not modelled.
- `std::stable_sort` is a library call, specified by `Nms.StableSort`.
- Some loop bodies and phases are methods of their own here and inline in the source: `YoloDecode.DecodeAnchor`, `YoloDecode.DecodeRows`, `Nms.OverlapsMore`, `Nms.SkipOverlapping`, `Cdg00Window.ConvertLine`, `TarHeader.FillFields`, `TarArchive.AppendEntries`, `TarOrder.WriteMembers`, `Tiff.WriteFormat`, `Tiff.WriteStrip`, `Geometry.TransformRow`, `Cdg00.StorePack`, `TextSink.TextSink.WriteRecords`, `TextSink.TextSink.RenameBoth`.
- IndexedQueue.OrderIrrelevant: the callback is modelled by the list of data passed to it; one that calls back into the queue is not.
- Cdg00Src.Cdg00Source.Create: a file that changes while it is read, timestamps and buffer allocation are not modelled.
- `area_frame_from_sample` and the metadata accessors of the other kinds copy fields.
- fsync, SHA-256, JSON text and real file systems: the contents of an archive are a byte sequence, records stand for lines of JSON, removing a file succeeds, and a failed write adds nothing to its file.
- `append_file_entry` copies a file in chunks; here it is one read, and the file does not change in between.
- GeometryStrides.DefaultStridesRightIff: the default stride of an 8-bit grey plane is GStreamer's; a buffer may bring other strides, for which there is `GeometryStrides.StridesRightIff`. For padded output rows whose last pixel shows nothing the condition is that of `GeometryStrides.AlwaysRightIff`, on the source of each position.
- Tiff.WriteCropTiff: the size of the crop's file must fit 32 bits, as for every TIFF written here.
- Tiff.WriteGray8Tiff: the size of the file must fit 32 bits, because the source computes it in 32-bit arithmetic and then copies whole rows; the file name and directory of a crop, and crops left behind by a buffer that is refused later.
- A failed `start` of the sink (settings, category map, files that cannot be created) and what it leaves; loading the category map.
- ABI version and size fields of the metadata, the geometry identifier, and non-finite numbers in it.
- Attaching tracking metadata; reading it is modelled for the sink's tracks mode.
- GStreamer caps negotiation, properties, class registration, pad probes; `ImgScanSrc`; the pipeline runner, command line, request validation and manifest.
