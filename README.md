# picojs face detection, modelled in Dafny

picojs is a JavaScript port of the PICO face detector, which uses pixel-intensity
comparisons organised in decision trees. A detector is a cascade of binary
decision trees. Each internal node compares two pixels whose positions are
given relative to a square window. The window can be rotated using
cosine and sine tables of the whole degrees 0 to 359. An angle may be any
number: `a | 0` picks the table row, and the detection records the angle as
given. Each leaf carries a prediction.

A window is scored as follows:

- The trees are evaluated in order, and the predictions of the leaves the window reaches are summed.
- After each tree, the running sum is compared with that tree's threshold. The first tree whose sum falls to its threshold rejects the window with -1.
- A window that survives every tree scores the final sum less the last threshold.

The search slides a window over a grid of centres at a series of sizes and
tries every requested angle. It reports each window whose score is positive as
a detection `(r, c, s, q, a)`. The detections of the last `memory` frames are
pooled in a ring buffer. They are then clustered by greedy non-maximum
suppression: sorted by quality, each unassigned detection becomes a seed that
absorbs every later unassigned detection overlapping it by more than the
threshold. Each cluster is reported as the mean position and size, the summed
quality and the seed's angle.

The repository implements this core twice:

- **src/index.js** is the self-contained `PICO(cascade, options)` closure. It has a strict decoder over a DataView, which throws on a short buffer. It has integer trigonometric tables and a search whose window shrinks from `min(width, height)` down to `minsize`. Representatives are truncated to integers.
- **src/utils.js** holds the functions behind the class in **src/pico.js**. It has a lenient decoder (bytes past the end read as 0 and the node slice is clamped), real-valued tables, and a search whose window grows from `initialsize` up to `max(width, height)`. Representatives are not truncated.

The two share the grayscale conversion, `calcOverlap`, the clustering loop and
the memory updater. Each of these is modelled once.

Module layout:

| module | file | models |
|---|---|---|
| `JsNumbers` | js_numbers.dfy | JavaScript's `\| 0`, `<< 16`, `>> 16`, `Int8Array` bytes, `getInt32(p, true)` |
| `Detections`, `Wrappers` | detections.dfy, wrappers.dfy | the detection record, the `Score` (a number or NaN), Option and Result |
| `CascadeLayout` | cascade_layout.dfy | the cascade file format: header, per-tree record of node bytes, leaf floats and threshold |
| `IndexCascade` | index_cascade.dfy | the decoder of src/index.js, writing into arrays |
| `UtilsCascade` | utils_cascade.dfy | the decoder of src/utils.js, appending to lists |
| `Scoring` | scoring.dfy | the early-rejection sum that both `classifyRegion` functions compute |
| `IndexClassifier`, `UtilsClassifier` | index_classifier.dfy, utils_classifier.dfy | the two `classifyRegion` closures: tree walk and leaf lookup |
| `IndexSearch`, `UtilsSearch` | index_search.dfy, utils_search.dfy | the two `runCascade` loops |
| `Overlap` | overlap.dfy | `calcOverlap` |
| `Clustering` | clustering.dfy | `clusterDetections` |
| `Memory` | memory.dfy | `getMemoryUpdater` |
| `Grayscale` | grayscale.dfy | `grayscale` |
| `IndexDetector` | index_detector.dfy | the `PICO(cascade, options)` closure and its `detect` |
| `Pico` | pico.dfy | the `PICO` class of src/pico.js |

Every loop of the source is a method proved equal to a function. The function
states what the loop computes, and the properties are proved about that
function:

- the decoders' loops over trees and leaves;
- the tree walk and the loop over trees in the classifiers;
- the size, row, column and angle loops of the searches;
- the two clustering loops over an assignment array;
- the memory updater's concatenation loop;
- the grayscale loops.

The stateful closures are classes whose methods state their whole new state:

- the memory updater;
- the detector built by `PICO(cascade, options)`;
- the `PICO` class.

The grayscale code applies the BT.709 weights with red and blue exchanged
(see Findings). `Grayscale.Luma` keeps the code's weights, and the rest of the
model uses it, so the model computes what the code computes;
`Grayscale.LumaBT709` is the intended conversion.

## Model

| member | source | states |
|---|---|---|
| JsNumbers.ToInt32 | src/index.js:110 | `a \| 0` yields a 32-bit signed integer congruent to its argument modulo 2^32, and leaves an int32 unchanged |
| JsNumbers.ShiftLeft16 | src/index.js:108-109 | `x << 16` is an int32, and equals x * 65536 whenever that product fits in 32 bits |
| JsNumbers.ShiftRight16 | src/index.js:123-129 | `x >> 16` lies in [-32768, 32768) and, on an int32, is the unique r with r * 65536 <= x < r * 65536 + 65536 |
| JsNumbers.ShiftRightIsFloorDivision | src/index.js:123-129 | on an int32, `x >> 16` is floor division by 65536, as the source comments say |
| JsNumbers.Trunc | src/index.js:167-171 | `\| 0` on a number rounds toward zero: the result lies within 1 of its argument, on the argument's side of 0 |
| JsNumbers.Int8 | src/index.js:31 | an `Int8Array` element is the byte read as a signed value in [-128, 128) |
| JsNumbers.Int32LE | src/index.js:69 | `getInt32(p, true)` yields a 32-bit signed integer |
| JsNumbers.Int32RoundTrip | src/index.js:69-72 | writing an int32 as four little-endian bytes and reading them back gives the same integer |
| JsNumbers.Pow2 | src/index.js:71 | `1 << tdepth` for a supported depth is a positive power of two |
| JsNumbers.Pow2Monotonic | src/index.js:71 | deeper trees have at least as many leaves |
| CascadeLayout.Int32At | src/index.js:69-72 | the depth and tree-count header fields are 32-bit signed integers |
| CascadeLayout.TreeStart | src/index.js:68-97 | every tree record starts after the 16-byte header |
| CascadeLayout.TreeStartClosedForm | src/index.js:79-96 | tree t's record starts at byte 16 + 8 * 2^d * t: 4 * 2^d - 4 node bytes, 2^d four-byte leaves and a four-byte threshold per tree |
| CascadeLayout.TreeStartMonotonic | src/index.js:78-97 | later trees start no earlier |
| CascadeLayout.TreeCodes | src/index.js:80-87 | each tree contributes exactly 4 * 2^d codes |
| CascadeLayout.TreeCodeAt | src/index.js:86-87 | code k >= 4 of tree t is the signed node byte k - 4 of the tree's record |
| CascadeLayout.TreePreds | src/index.js:90-93 | each tree contributes exactly 2^d leaf predictions |
| CascadeLayout.TreePredAt | src/index.js:90-93 | leaf i of tree t is the float at offset 4 * i after the tree's node bytes |
| CascadeLayout.Thresholds | src/index.js:95 | one threshold per tree |
| CascadeLayout.CodesLength | src/index.js:75 | `tcodes` holds `ntrees * 4 * pow2tdepth` codes |
| CascadeLayout.PredsLength | src/index.js:76 | `tpreds` holds `ntrees * pow2tdepth` predictions |
| CascadeLayout.CodesBlock | src/index.js:79-87 | tree t's codes occupy `tcodes[t * 4 * 2^d ..]` |
| CascadeLayout.PredsBlock | src/index.js:90-91 | tree t's predictions occupy `tpreds[t * 2^d ..]` |
| CascadeLayout.TreeRecordInside | src/index.js:78-97 | a buffer long enough for n trees holds the whole record of each of them |
| CascadeLayout.TreeCodesInBuffer | src/index.js:79-87 | in a complete buffer, code k of tree t is 0 for k < 4 and otherwise the signed byte at the tree's start + k - 4 |
| CascadeLayout.TreePredsInBuffer | src/index.js:90-93 | in a complete buffer, leaf i of tree t is the float of the four bytes after the node bytes and the previous leaves |
| CascadeLayout.TreeThresholdInBuffer | src/index.js:95-96 | in a complete buffer, tree t's threshold is the float of the last four bytes of its record |
| CascadeLayout.CodesGrow | src/index.js:78-97 | reading more trees never shortens `tcodes` or `tpreds` |
| IndexCascade.Decode | src/index.js:63-97 | decoding succeeds exactly when the header is present, the depth is in 0..30, the tree count is not negative and the buffer holds every tree record; a success is well formed |
| IndexCascade.DecodedLayout | src/index.js:75-97 | a decoded cascade is its buffer's tree layout: codes, predictions and thresholds of each tree in order |
| IndexCascade.UnpackCascade | src/index.js:63-97 | the decoding loop produces exactly `Decode`: the same cascade, or the same error |
| IndexCascade.AllocateAndRead | src/index.js:74-97 | arrays sized from the header and filled tree by tree give `Decode`'s result |
| IndexCascade.ReadTrees | src/index.js:78-97 | the tree loop completes exactly when the buffer holds every record, and then the arrays hold the layout's codes, predictions and thresholds |
| IndexCascade.ReadTree | src/index.js:79-96 | one iteration reads tree t's codes, predictions and threshold into their blocks, leaves earlier blocks alone, and fails exactly when the record runs past the buffer |
| IndexCascade.CopyCodes | src/index.js:81-88 | four zeros and the node bytes go into tree t's code block, earlier codes untouched |
| IndexCascade.ReadPreds | src/index.js:90-93 | the leaf loop fills tree t's prediction block, and fails exactly when a leaf float runs past the buffer |
| UtilsCascade.WellFormedIsLoaded | src/utils.js:90-109 | every cascade the strict decoder accepts is one the lenient classifier can run |
| UtilsCascade.TreeLoopCount | src/utils.js:87-93 | the tree loop runs the tree count when it is not negative, and not at all otherwise |
| UtilsCascade.SliceLength | src/utils.js:97 | `bytes.slice` gives at most the requested count, all of it when the buffer is long enough, and stops at the buffer's end |
| UtilsCascade.SlicedCodes | src/utils.js:96-97 | each tree appends between 4 and 4 * 2^d codes |
| UtilsCascade.Decode | src/utils.js:75-109 | the lenient decoder never fails; its cascade has the header's depth, the loop's tree count, 2^d predictions and one threshold per tree |
| UtilsCascade.SlicedCodesLength | src/utils.js:93-98 | n trees append between 4n and n * 4 * 2^d codes, exactly n * 4 * 2^d when their records are in the buffer |
| UtilsCascade.SlicedCodesComplete | src/utils.js:96-97 | a tree whose node bytes are in the buffer gets the same codes as in the strict decoder |
| UtilsCascade.SlicedCodesUpToComplete | src/utils.js:93-109 | when every record is in the buffer, the appended codes are the strict layout's |
| UtilsCascade.AgreesWithStrictDecoder | src/utils.js:75-109 | on every buffer the strict decoder of src/index.js accepts, both decoders give the same cascade |
| UtilsCascade.HeaderOnlyBuffer | src/utils.js:81-108 | a 16-byte header announcing one tree of depth 0: the strict decoder fails as truncated, the lenient one returns one tree with zero-read leaf and threshold |
| UtilsCascade.TreeLoopStep | src/utils.js:93-109 | one iteration of the tree loop appends tree t's codes, predictions and threshold, and moves the cursor by one record |
| UtilsCascade.UnpackCascade | src/utils.js:75-109 | the decoding loop produces exactly `Decode` |
| UtilsCascade.SliceCodes | src/utils.js:96-98 | the codes appended for tree t are the four zeros and the clamped slice |
| UtilsCascade.ReadLeaves | src/utils.js:100-104 | the leaf loop reads tree t's 2^d predictions |
| Scoring.EvalStep | src/utils.js:146-147 | tree i either rejects with -1, when the running sum falls to its threshold, or passes the sum on to tree i + 1 |
| Scoring.EvalOutcome | src/index.js:114-137 | started after trees that all passed, the evaluation gives -1 exactly when a later tree rejects, and otherwise the final sum less the last threshold |
| Scoring.Outcome | src/utils.js:128-150 | the score is -1 exactly when some tree rejects; otherwise the final sum less the last threshold (NaN without trees); accepted exactly when there is a tree and none rejects |
| IndexClassifier.Rotation | src/index.js:110-112 | for any angle, the rotation terms are defined exactly when `a \| 0` indexes the 360-entry tables |
| IndexClassifier.WholeDegrees | src/index.js:110-112 | `a \| 0` drops the fraction: a non-negative angle such as 22.5 selects the same table row as its whole degrees |
| IndexClassifier.NodeOffset | src/index.js:117 | node idx of tree i lies inside tree i's code block |
| IndexClassifier.PredOffset | src/index.js:134 | `pow2tdepth * (i - 1) + idx` for a leaf idx lies inside tree i's prediction block, at the leaf's position |
| IndexClassifier.TreeBlockInside | src/index.js:114-134 | tree i's code and prediction blocks lie inside the decoded arrays |
| IndexClassifier.NodeTest | src/index.js:117-132 | a node test yields a single bit |
| IndexClassifier.ProbeBit | src/index.js:123-132 | the pixel comparison of two probe points yields a single bit |
| IndexClassifier.Descend | src/index.js:115-133 | descending from a node at level j ends at a leaf, an index in [2^d, 2^(d+1)) |
| IndexClassifier.ClassifyOutcome | src/index.js:107-138 | `classifyRegion` returns -1 exactly when some tree's running sum falls to its threshold; otherwise the final sum less the last threshold (NaN without trees); accepted exactly when there is a tree and none rejects |
| IndexClassifier.UndefinedRotationTakesLastLeaf | src/index.js:110-132 | for an angle outside the tables every probe reads 0, every test gives 1, and every tree ends at its last leaf |
| IndexClassifier.ClassifyRegion | src/index.js:107-138 | the loops over trees and levels compute the classifier's score |
| IndexClassifier.WalkTree | src/index.js:115-133 | the level loop ends at the leaf `Descend` reaches |
| IndexClassifier.ProbeNode | src/index.js:117-132 | one level reads the node's four codes and compares the two probed pixels |
| UtilsClassifier.Rotation | src/utils.js:123-127 | for any angle, the rotation terms are defined exactly when `a \| 0` indexes the 360-entry tables |
| UtilsClassifier.WholeDegrees | src/utils.js:123-127 | `a \| 0` drops the fraction: a non-negative angle selects the same table row as its whole degrees |
| UtilsClassifier.Compare | src/utils.js:144 | the comparison is 1 exactly when both probed pixels exist and the first is at most the second |
| UtilsClassifier.NodeAt | src/utils.js:131 | `root + 4 * idx` lies inside tree i's code block |
| UtilsClassifier.LeafAt | src/utils.js:146 | `pow2tdepth * i + idx - pow2tdepth` lies inside tree i's prediction block, at the leaf's position |
| UtilsClassifier.PredBlockInside | src/utils.js:146 | tree i's prediction block lies inside `tpreds` |
| UtilsClassifier.NodeTest | src/utils.js:131-144 | a node test yields a single bit |
| UtilsClassifier.NodeBit | src/utils.js:132-144 | the probe comparison yields a single bit, whatever codes are missing |
| UtilsClassifier.Descend | src/utils.js:129-145 | descending from a node at level j ends at a leaf in [2^d, 2^(d+1)) |
| UtilsClassifier.ClassifyOutcome | src/utils.js:120-151 | -1 exactly when some tree rejects; otherwise the final sum less the last threshold (NaN without trees); accepted exactly when there is a tree and none rejects |
| UtilsClassifier.SameOffsetsAsIndex | src/utils.js:131-146 | the node and leaf offsets are the ones src/index.js computes |
| UtilsClassifier.CodesDefined | src/utils.js:131-135 | with a full-length `tcodes` every node's four codes are defined |
| UtilsClassifier.MissingCodesProbeOrigin | src/utils.js:132-144 | a node whose codes are missing probes pixel 0 twice, so its test is 1 exactly when the image has a pixel |
| UtilsClassifier.ClassifyRegion | src/utils.js:120-151 | the loops over trees and levels compute the classifier's score |
| UtilsClassifier.SumTrees | src/utils.js:128-150 | the tree loop over a window returns the score `Eval` gives for the window's leaves |
| UtilsClassifier.AddTree | src/utils.js:146-147 | adding tree i's prediction gives the sum with which the evaluation rejects at tree i or goes on to tree i + 1 |
| UtilsClassifier.TreePrediction | src/utils.js:129-146 | the prediction read for tree i is the tree's leaf value |
| UtilsClassifier.TestNode | src/utils.js:131-144 | one level reads the node's four codes at `root + 4 * idx` and gives the node's test bit |
| UtilsClassifier.LeafStep | src/utils.js:146 | the leaf the walk reaches is read from inside `tpreds` and is the tree's leaf value |
| UtilsClassifier.DescendStep | src/utils.js:130-145 | one level moves from level j to a node of level j + 1 on the path `Descend` follows |
| UtilsClassifier.WalkTree | src/utils.js:129-145 | the level loop ends at the leaf `Descend` reaches |
| IndexSearch.Step | src/index.js:170 | the grid step is at least 1, so the row and column loops advance |
| IndexSearch.Offset | src/index.js:171 | the margin exceeds half the window by at most 1 |
| IndexSearch.NextSize | src/index.js:183 | a positive window size strictly shrinks |
| IndexSearch.ScheduleShrinks | src/index.js:167-184 | with the corrected loop test, the visited sizes are at least minsize and 1, at most the start size, and strictly decreasing |
| IndexSearch.AsWrittenNeverStops | src/index.js:169 | with the loop test as written and minsize <= 0, every size the loop reaches passes the test |
| IndexSearch.SmallImageHasZeroMinSize | src/index.js:167 | the default initialsize 0.1 on an 8x8 image gives minsize 0 |
| IndexSearch.ZeroSizeIsFixed | src/index.js:183 | a window size of 0 stays 0 |
| IndexSearch.ConcatReported | src/index.js:178 | appending reported detections keeps every detection reported |
| IndexSearch.AnglesReported | src/index.js:174-179 | every detection of a window has a positive score equal to the classifier's for its angle from `rotation` |
| IndexSearch.ColumnsReported | src/index.js:173-181 | every detection of a row is reported, centre within the column margins |
| IndexSearch.RowsReported | src/index.js:172-182 | every detection at one size is reported, centre within the row margins |
| IndexSearch.SizesReported | src/index.js:169-184 | every detection of the size loop is reported, with a size between max(minsize, 1) and min(width, height) |
| IndexSearch.SearchReported | src/index.js:155-186 | every detection `runCascade` returns is a window inside the image, at a visited size and an angle of `rotation`, whose classifier score is its positive quality |
| IndexSearch.AnglesComplete | src/index.js:174-179 | every angle of a window whose score is positive yields its detection, with that score |
| IndexSearch.ColumnsComplete | src/index.js:173-181 | every accepted angle at a column `c0 + j * step` left of `width - offset` is among the row's detections |
| IndexSearch.RowsComplete | src/index.js:172-182 | every accepted angle at a grid point `(r0 + i * step, offset + j * step)` inside the margins is among the detections of the rows from r0 |
| IndexSearch.SizesComplete | src/index.js:168-184 | every accepted angle at a grid point of a size the loop visits is among the detections of the size loop |
| IndexSearch.SearchComplete | src/index.js:155-186 | the converse of `SearchReported`: every window of the grid at a visited size, with an angle of `rotation` the classifier scores above 0, is returned with that score |
| IndexSearch.RunCascade | src/index.js:155-186 | the four nested loops return exactly `Search` |
| IndexSearch.ScanRows | src/index.js:172-182 | the row loop returns exactly `Rows` |
| IndexSearch.ColumnsStep | src/index.js:173-181 | one column iteration appends that column's detections and moves on by one step |
| IndexSearch.ScanColumns | src/index.js:173-181 | the column loop returns exactly `Columns` |
| IndexSearch.AnglesStep | src/index.js:174-179 | one angle iteration appends the detection exactly when the score is positive |
| IndexSearch.ScanAngles | src/index.js:174-180 | the angle loop returns exactly `Angles` |
| UtilsSearch.NormalizeRotation | src/utils.js:169 | a falsy rotation becomes [0], one angle a one-element list, and a list is kept |
| UtilsSearch.Step | src/utils.js:173 | the grid step is at least 1 |
| UtilsSearch.Offset | src/utils.js:174 | the margin exceeds half the window by at most 1 |
| UtilsSearch.Growth | src/utils.js:186 | each pass grows the window by a positive amount |
| UtilsSearch.RemainingDecreases | src/utils.js:172-187 | each pass grows the size by at least a fixed amount, so the passes left strictly decrease and the size loop ends |
| UtilsSearch.RemainingMonotonic | src/utils.js:172-186 | a size larger by the fixed growth has fewer passes left |
| UtilsSearch.ScheduleGeometric | src/utils.js:172-187 | the k-th visited size is `initialsize * scalefactor^k` |
| UtilsSearch.ScheduleBounded | src/utils.js:172 | every visited size lies between the start size and max(width, height) |
| UtilsSearch.ScheduleIncreasing | src/utils.js:186 | the visited sizes strictly increase |
| UtilsSearch.ConcatReported | src/utils.js:181 | appending reported detections keeps every detection reported |
| UtilsSearch.AnglesReported | src/utils.js:177-182 | every detection of a window has a positive score equal to `clfn`'s for its angle |
| UtilsSearch.ColumnsReported | src/utils.js:176-184 | every detection of a row is reported, centre within the inclusive column bounds |
| UtilsSearch.RowsReported | src/utils.js:175-185 | every detection at one size is reported, centre within the inclusive row bounds |
| UtilsSearch.SizesReported | src/utils.js:172-187 | every detection of the size loop is reported, with a size between `initialsize` and max(width, height) |
| UtilsSearch.SearchReported | src/utils.js:168-189 | every detection `runCascade` returns is a window inside the image, at a visited size and an angle of `rotation`, whose `clfn` score is its positive quality |
| UtilsSearch.AnglesComplete | src/utils.js:177-182 | every angle whose score is positive yields its detection |
| UtilsSearch.ColumnsComplete | src/utils.js:176-184 | every accepted angle at a column `c0 + j * step` up to `width - offset` inclusive is among the row's detections |
| UtilsSearch.RowsComplete | src/utils.js:175-185 | every accepted angle at a grid point `(r0 + i * step, offset + j * step)` within the inclusive bounds is among the detections of the rows from r0 |
| UtilsSearch.SizesComplete | src/utils.js:172-187 | every accepted angle at a grid point of a size the loop visits is among the detections of the size loop |
| UtilsSearch.SearchComplete | src/utils.js:168-189 | the converse of `SearchReported`: every window of the grid at a visited size, with an angle `clfn` scores above 0, is returned with that score |
| UtilsSearch.ScheduleStep | src/utils.js:172-186 | a size up to max(width, height) is visited, and the loop goes on from `initialsize * scalefactor` |
| UtilsSearch.SizesStep | src/utils.js:172-187 | one pass at a visited size reports its rows before every larger size |
| UtilsSearch.RejectingClassifierFindsNothing | src/utils.js:168-189 | a classifier that never scores above 0 gives no detections |
| UtilsSearch.NotReported | src/utils.js:180 | with such a classifier no detection is reported |
| UtilsSearch.RunCascade | src/utils.js:168-189 | the loops, after normalising `rotation`, return exactly `Search` |
| UtilsSearch.ScanRows | src/utils.js:175-185 | the row loop returns exactly `Rows` |
| UtilsSearch.ScanColumns | src/utils.js:176-184 | the column loop returns exactly `Columns` |
| UtilsSearch.ScanAngles | src/utils.js:177-183 | the angle loop returns exactly `Angles` |
| Overlap.SpanOverlap | src/index.js:199-206 | the overlap along one axis is at least 0, at most the smaller size when both sizes are non-negative, and 0 when a size is negative |
| Overlap.CalcOverlap | src/index.js:194-211 | the overlap of two windows with positive sizes lies in [0, 1] |
| Overlap.ProductBound | src/index.js:210 | two spans no longer than the smaller size give a ratio in [0, 1] |
| Overlap.OverlapSymmetric | src/utils.js:197-212 | the overlap does not depend on the order of the two detections |
| Overlap.OverlapIdentical | src/utils.js:197-212 | a window overlaps itself with ratio 1 |
| Overlap.OverlapDisjoint | src/utils.js:206-211 | windows apart along the rows or the columns overlap with ratio 0 |
| Overlap.NegativeOverlap | src/index.js:199-210 | with a negative size both spans are 0 and the smaller size is negative, so `calcOverlap` gives 0 |
| Overlap.OverlapsCases | src/index.js:194-211 | the test `calcOverlap(d1, d2) > threshold` compares the ratio for positive sizes, compares 0 when a size is negative, and fails (NaN) when a size is 0 and none is negative; with a threshold of at least 0 only windows of positive size overlap |
| Overlap.DegenerateOverlap | src/index.js:199-210 | with a size of 0 both spans and the denominator are 0, so `calcOverlap` divides 0 by 0 |
| Clustering.Insert | src/index.js:221 | insertion keeps the multiset of detections and adds the new one |
| Clustering.SortByQuality | src/index.js:221 | sorting is a permutation |
| Clustering.InsertSorted | src/utils.js:222-224 | inserting into a sequence sorted by decreasing quality keeps it sorted |
| Clustering.SortSorted | src/utils.js:222-224 | the sort yields a permutation ordered by decreasing quality |
| Clustering.Absorbed | src/index.js:234-245 | a seed absorbs at most the detections after it |
| Clustering.Kept | src/index.js:234-245 | at most the detections after a seed stay unassigned |
| Clustering.Representatives | src/index.js:247-253 | one representative per cluster |
| Clustering.SplitPartition | src/index.js:234-245 | absorbed and kept detections together are exactly the detections after the seed |
| Clustering.ClustersPartition | src/index.js:225-254 | seeds and members of all clusters are exactly the input, each once |
| Clustering.ClusterCount | src/index.js:225-254 | there are no more clusters than detections |
| Clustering.AbsorbedOverlap | src/index.js:237-238 | every absorbed detection overlaps the seed by more than the threshold |
| Clustering.KeptApart | src/index.js:235-237 | every detection left unassigned overlaps the seed by at most the threshold |
| Clustering.FromInput | src/utils.js:228-250 | every seed and member comes from the input |
| Clustering.MembersOverlapSeed | src/utils.js:237-247 | every member of a cluster overlaps its seed by more than the threshold |
| Clustering.SeedsApart | src/utils.js:228-248 | a seed overlaps no earlier seed by more than the threshold |
| Clustering.KeptSorted | src/utils.js:237-248 | the unassigned detections stay in quality order |
| Clustering.SeedsByQuality | src/utils.js:222-248 | on sorted input, seeds come in decreasing quality and no member beats its seed |
| Clustering.SeedOrder | src/utils.js:220-253 | after the sort, earlier clusters have seeds of at least the quality of later ones |
| Clustering.NoOverlapKeepsAll | src/index.js:225-254 | when no two detections overlap, each is its own cluster and is reported unchanged (whole coordinates where truncation applies) |
| Clustering.Singletons | src/utils.js:228-251 | when no two detections overlap, there is one singleton cluster per detection |
| Clustering.NothingAbsorbed | src/utils.js:237-248 | a seed overlapping none of the later detections absorbs nothing |
| Clustering.TruncWhole | src/index.js:248-250 | `(x / 1) \| 0` is x for a whole number |
| Clustering.RepresentativeMeans | src/index.js:239-253 | a representative's row, column and size are each the mean over the cluster (seed and members) of that coordinate, truncated toward zero in src/index.js; its quality is the cluster's total and its angle the seed's |
| Clustering.ClusterDetections | src/index.js:219-256 | the sort and the two loops over the assignment array return exactly the specification of the greedy clustering |
| Clustering.VisitSeed | src/index.js:226-253 | one outer iteration skips an assigned detection or appends its cluster's representative |
| Clustering.GrowCluster | src/index.js:228-253 | one seed's inner loop marks the detections it absorbs and yields their representative |
| Clustering.AbsorbOverlapping | src/index.js:234-245 | the inner loop leaves earlier flags alone, marks exactly the overlapping unassigned detections, and sums them |
| Clustering.AbsorbOne | src/index.js:235-244 | one inner iteration absorbs detection j exactly when it is unassigned and overlaps the seed |
| Memory.InitialSlots | src/index.js:268-270 | the constructor loop makes `size` rounded up slots, the whole numbers i >= 0 below `size`, and none for a size of at most 0 |
| Memory.Capacity | src/index.js:268-276 | the slots in use are at least 1: the constructor's slots, or the one slot the first store creates |
| Memory.FractionalSize | src/utils.js:265-267 | `memory: 2.5` makes 3 slots, and the cursor runs modulo 3 |
| Memory.Cursor | src/index.js:276 | the cursor is always a valid slot |
| Memory.Ring | src/index.js:274-276 | the ring has one slot per unit of capacity |
| Memory.CursorIsMod | src/index.js:276 | after t stores the cursor is t mod capacity |
| Memory.CursorPeriodic | src/utils.js:273 | the cursor returns to the same slot after `capacity` stores |
| Memory.RingContents | src/index.js:264-284 | each of the last `capacity` frames sits in its own cursor slot, and slots not yet written are empty |
| Memory.FrameLifetime | src/utils.js:271-279 | a frame stays pooled for exactly `capacity` calls and is then overwritten by a later frame |
| Memory.SingleSlotPassesThrough | src/utils.js:271-279 | with one slot, only the latest frame is pooled |
| Memory.EmptyFramesEmptyPool | src/utils.js:271-279 | if every frame was empty, every slot and the pool are empty |
| Memory.MemoryUpdater.constructor | src/index.js:264-270 | `size` (rounded up) empty slots and the cursor at 0 |
| Memory.MemoryUpdater.Update | src/index.js:274-282 | the frame goes into the cursor slot, the slots are the ring of all frames, and the pool is all slots concatenated (the frame itself with one slot) |
| Memory.Pool | src/index.js:277-280 | the concatenation loop returns every slot in order |
| Memory.RingStep | src/utils.js:272-273 | storing a frame writes the cursor slot and advances the cursor modulo the capacity |
| Grayscale.Luma | src/index.js:337-339 | the luma of a pixel is a byte, and a gray pixel keeps its level |
| Grayscale.LumaOfWordReadsBytes | src/index.js:330-339 | the shifts and masks on the 32-bit pixel word read its first three bytes |
| Grayscale.LumaOfWordIsByte | src/index.js:337-339 | for every 32-bit word, the weighted channels shifted right by 16 give a byte |
| Grayscale.RedAndBlueWeightsSwapped | src/utils.js:53 | pure red gets the blue weight and pure blue the red weight |
| Grayscale.LumaBT709 | src/utils.js:48-53 | the intended luma, with 0.2126 on red: a byte, and a grey pixel keeps its level |
| Grayscale.BT709IsSwappedLuma | src/index.js:332-339 | the intended luma is the code's luma with red and blue exchanged: pure red gives 54 instead of the code's 18 |
| Grayscale.LumaImage | src/index.js:319-344 | one luma byte per pixel |
| Grayscale.FilledPixel | src/utils.js:54 | with `fillRGBA`, each pixel becomes its luma three times followed by its own alpha |
| Grayscale.ToGrayscale | src/utils.js:16-67 | one luma byte per pixel, or with `fillRGBA` the luma in red, green and blue and the alpha kept |
| Grayscale.LumaBytes | src/utils.js:57-62 | the loop writes every pixel's luma |
| Grayscale.FillLuma | src/utils.js:44-55 | the loop writes every pixel's luma, three times, and keeps the alpha |
| Grayscale.FilledBytes | src/utils.js:44-55 | once every pixel is filled, each byte is the filled byte of its position |
| IndexDetector.Destructure | src/index.js:22-29 | each option given wins and each absent one takes its default |
| IndexDetector.DefaultOptions | src/index.js:22-29 | the default options make the size loop end, try the angle 0 and keep one frame |
| IndexDetector.ClassifierFn | src/index.js:107-139 | the `classifier` closure `unpackCascade` returns scores every window as `classifyRegion` over the decoded cascade |
| IndexDetector.ScanOf | src/index.js:42-53 | the search runs on the grayscale image with the cascade's classifier and minsize from `initialsize`, and is runnable exactly when the step and scale factors are usable |
| IndexDetector.Detector.constructor | src/index.js:21-32 | the detector holds the options, the cascade and an empty memory |
| IndexDetector.Detector.Detect | src/index.js:41-55 | the frame's search result is stored in the memory and the clusters of the pool are returned; with one slot only the current frame is clustered |
| IndexDetector.NewPico | src/index.js:21-32 | building a detector succeeds exactly when the cascade decodes, fails with the decoder's error otherwise, and yields a fresh detector |
| Pico.Defaults | src/pico.js:16-23 | the defaults make the size loop end, keep one frame and try the angle 0 |
| Pico.Assign | src/pico.js:16-23 | each option given wins, every other keeps its default |
| Pico.AssignDefaults | src/pico.js:15-23 | with no options the defaults are kept, and merging the same options again changes nothing |
| Pico.ClassifierFn | src/pico.js:24 | the placeholder classifier accepts no window; an unpacked one scores as `classifyRegion` of src/utils.js |
| Pico.ScanOf | src/pico.js:49-53 | `detect` searches the grayscale image with the options' parameters and the normalised rotation |
| Pico.Frame | src/pico.js:48-53 | a frame's detections are all reported windows, and there are none before a cascade is loaded |
| Pico.RunFrame | src/pico.js:49-53 | grayscale and search give the frame's detections |
| Pico.PlaceholderPoolsNothing | src/pico.js:24 | while only the placeholder has run, every stored frame is empty and the clustered pool is empty |
| Pico.PICO.constructor | src/pico.js:15-26 | options merged over the defaults, the placeholder classifier, an empty memory |
| Pico.PICO.LoadCascade | src/pico.js:33-40 | the classifier becomes the lenient decoder's cascade; the options stay |
| Pico.PICO.Detect | src/pico.js:48-56 | the frame goes into the memory and the clusters of the pool are returned; nothing before a cascade is loaded, only the current frame with one slot |

## Left out

- The cascade depth is accepted only in 0..30. Outside that range `1 << tdepth` and `Math.pow(2, tdepth) >> 0` wrap or give 0, so `IndexCascade.Decode` reports `UnsupportedDepth`. `UtilsCascade.Decode`, `UtilsCascade.UnpackCascade` and `Pico.PICO.LoadCascade` require such a depth.
- Float32 decoding (`getFloat32`) is a function parameter applied to the four little-endian bytes. Predictions, thresholds and scores are exact reals, so float rounding and NaN from corrupt floats are not modelled.
- The double arithmetic of src/utils.js is modelled as exact reals, and double rounding is not modelled for it. This covers the window size `initialsize *= scalefactor` (`UtilsSearch.Sizes`, `UtilsSearch.Schedule`). It also covers the probe sums `s * qcostable[a]` and `(r + qcos * t0 - qsin * t1) >> 16` of `UtilsClassifier.Probe`; their `>> 16` does apply the 32-bit wrap.
- The overlap ratio and the cluster sums and averages are exact reals as well (`Overlap.CalcOverlap`, `Clustering.Representative`).
- The cosine and sine tables are parameters. The model checks their length of 360 but not their values, because `Math.cos` and `Math.sin` are not modelled.
- `Math.sqrt(width * height)` in the search of src/index.js is the parameter `rootArea` of `IndexDetector.Detector.Detect`.
- JsNumbers.Trunc: `| 0` and `>> 0` truncate toward zero without the 32-bit wrap. This applies to the step, offset, size and minsize of both searches. It also applies to the cluster averages `(r / n) | 0`, `(c / n) | 0` and `(s / n) | 0` of src/index.js:248-250 (`Clustering.Average`). All of these stay far below 2^31 for real images.
- UtilsSearch.RunCascade: requires `shiftfactor >= 0`, `scalefactor > 1` and `initialsize > 0`, and so does `Pico.PICO.Detect`. These are what the model's termination measure needs: the size grows by at least a fixed amount each pass, and the step is at least 1. On most excluded inputs the source loops do not end. A scalefactor of 1 or between 0 and 1, or an initialsize of 0, never lets the size pass max(width, height). A negative shiftfactor can make the step 0. For a few excluded values the source loop does end, and the model does not cover those inputs. One example is a scalefactor below -1, which flips the size's sign while it grows.
- IndexSearch.RunCascade: requires `shiftfactor >= 0` and `scalefactor > 1`, and so does `IndexDetector.Detector.Detect`. The model's `Trunc` has no 32-bit wrap, and `NextSize` must strictly shrink a positive size for the size loop to end, which needs a scalefactor above 1. RunCascade uses the corrected size loop (see Findings). The source does not hang on every excluded input, and the model does not cover the excluded inputs on which it ends:
  - A negative scalefactor makes s negative after one pass, and `while (s >= minsize)` then exits.
  - A scalefactor between 0 and 1 multiplies s by 1 / scalefactor each pass until `| 0` wraps it negative. Those passes try no rows, because `r < height - offset` fails.
  - A scalefactor of exactly 1 never changes s, so the source does hang.
  - A negative shiftfactor can make the step 0 or less. The row loop then hangs.
- `fetch`, the Promise chains, the Worker, the Blob URL and `postMessage` are not modelled. `Pico.PICO.LoadCascade` takes the fetched bytes, and `IndexDetector.NewPico` and `IndexDetector.Detector.Detect` stand for the code running inside the worker.
- Grayscale.ToGrayscale: requires a byte length that is a multiple of 4, and so do `Grayscale.LumaImage`, `Grayscale.LumaBytes` and `Grayscale.FillLuma`. For other lengths `new Uint32Array(pixels.buffer || ...)` at src/utils.js:37 and src/index.js:321-323 throws a RangeError, which is not modelled. A typed-array view whose `byteOffset` is not 0 is not modelled either: the source reads from the start of the whole underlying buffer, and the model reads the view's own bytes.
- The `memory` option is a real number, so a fractional size makes as many slots as the size rounded up (`Memory.InitialSlots`). A size of NaN (no slots) or Infinity (a constructor loop that does not end) is not modelled.
- A non-array `rotation` in src/index.js (where `rotation.length` is undefined and no angle is tried) is not modelled: its rotation is a list of angles.
- `Object.assign` with a key present but `undefined` is modelled as a key that is absent.
- `Array.prototype.sort` is modelled as a stable insertion sort by decreasing quality (`Clustering.SortByQuality`), as a function rather than in place. Since ES2019 (ECMAScript 10th edition), `Array.prototype.sort` is required to be stable. `Insert` places an earlier element before later ones of equal quality, so the model is exactly what a conforming engine does. Engines before 2019 were free to reorder ties.
- Clustering.NoOverlapKeepsAll: the truncating variant of src/index.js keeps a detection unchanged only for whole coordinates and sizes, which the search always produces.
- Pixel reads outside the image give `undefined`: src/index.js reads them as 0 and src/utils.js compares them as false. Both behaviours are modelled.
- `Uint8ClampedArray` over the `Uint32Array` buffer in the `fillRGBA` mode is modelled as the byte sequence on a little-endian host. Big-endian hosts are not modelled.
- Performance comments and the typed-array allocation strategy are not modelled.

## Findings

| source | as written | input that shows it | evidently intended | confidence | as-written member | corrected member |
|---|---|---|---|---|---|---|
| src/utils.js:53, src/index.js:337-339 | the weight 13933 (0.2126 * 2^16, the red weight of BT.709, as the comments at src/utils.js:48 and src/index.js:332 say) multiplies `c >>> 16 & 0xff`, which is the blue byte of a little-endian RGBA word; red gets 4732 | a pure red pixel [255, 0, 0, 255] gives luma 18, and a pure blue one 54 | 13933 on red and 4732 on blue: pure red gives 54 | not executed | Grayscale.Luma, Grayscale.RedAndBlueWeightsSwapped | Grayscale.LumaBT709, Grayscale.BT709IsSwappedLuma |
| src/index.js:167-183 | `while (s >= minsize)` with `minsize = (initialsize * Math.sqrt(width * height)) \| 0`; the size shrinks to 0 and 0 >= minsize holds forever when minsize <= 0 | an 8x8 image with the default initialsize 0.1 (minsize 0), or any image with width or height 0 | the size loop ends once the window has shrunk to nothing: the test also requires s >= 1 | not executed | IndexSearch.AsWrittenNeverStops, IndexSearch.SmallImageHasZeroMinSize, IndexSearch.ZeroSizeIsFixed | IndexSearch.ScheduleShrinks (with IndexSearch.Continue and IndexSearch.Sizes) |
