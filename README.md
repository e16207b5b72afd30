# Block motion estimation and field extraction

This project models the integer core of a block-matching motion-estimation video filter, together with a NumPy routine that splits interlaced frames into fields.

The filter:
- pads the current luma plane with a 16-pixel border that repeats the nearest frame pixel (`FillBorders`);
- builds three half-pixel shifted copies of each plane of the previous frame (`HalfpixelShift`, `HalfpixelShiftHorz`), bytes for luma and 16-bit samples for chroma;
- for every 16x16 block, finds the displacement within +-16 pixels and the reference plane with the least sum of absolute differences (SAD, computed by the MMX routines `GetErrorSAD_16x16` and `GetErrorSAD_8x8`);
- splits a block into four 8x8 sub-vectors when its error is large and the sub-vectors are cheap enough;
- rebuilds the current frame from the previous one along the vectors (`CompensateMotion`);
- optionally shows the amplified residual.

The motion vector class `MV` is modelled as a Dafny class whose optional four sub-vectors are owned objects.

Modules:
- `Grid`: flat-index arithmetic and array copy loops.
- `Metric`: the SAD and the MMX lane arithmetic that computes it.
- `Vectors`: `ShiftDir` and the `MV` class.
- `Search`: the exhaustive window search as a fold over the candidates, and the search loops.
- `Estimator`: the `MotionEstimator` class, the split rule and `Estimate`.
- `HalfPixel`: the two half-pixel interpolation filters, for both sample types.
- `Filter`: `clamp`, the script settings, border filling, the reference planes, motion compensation and the residual.
- `Fields`: `extract_fields`.

Each loop is a method proved against a function on sequences. The properties promised about the behaviour are proved as lemmas about those functions:
- the search result is the first minimum;
- the split rule;
- the border repeats the nearest frame pixel, and filling twice changes nothing;
- a flat plane stays flat under the interpolation filters;
- a clamped read equals a read of the padded plane;
- weaving the two fields restores the frame.

Source paths below are relative to the repository root. The prefix `homework02/FilterTemplate/src/FilterTemplate/` is written out in full.

## Model

| member | source | states |
|---|---|---|
| Metric.GetErrorSad16x16 | homework02/FilterTemplate/src/FilterTemplate/metric.cpp:3-118 | The MMX loop (saturating 16-bit lanes, `psubusb`/`por` absolute difference, row prefetch, final `pmaddwd` merge) returns exactly the 16x16 SAD. block1 needs 17 readable rows because the loop loads one row past the block. |
| Metric.GetErrorSad8x8 | homework02/FilterTemplate/src/FilterTemplate/metric.cpp:120-199 | The MMX loop returns exactly the 8x8 SAD: no lane saturates. |
| Metric.BlockSadSymmetric | homework02/FilterTemplate/src/FilterTemplate/metric.cpp:3-118 | SAD(A, B) == SAD(B, A). |
| Metric.BlockSadSelf | homework02/FilterTemplate/src/FilterTemplate/metric.cpp:3-118 | SAD(A, A) == 0. |
| Metric.BlockSadEqual | homework02/FilterTemplate/src/FilterTemplate/metric.cpp:3-118 | Two blocks holding the same samples have SAD 0. |
| Metric.BlockSadBound | homework02/FilterTemplate/src/FilterTemplate/metric.cpp:3-118 | A rows x cols SAD is at most 255 * rows * cols. |
| Metric.Quadrants | homework02/FilterTemplate/src/FilterTemplate/metric.cpp:3-199 | A 16x16 SAD is the sum of the SADs of its four 8x8 quadrants. |
| Metric.SadRange | homework02/FilterTemplate/src/FilterTemplate/metric.cpp:3-199 | The metric's range: at most 255 * 256 for 16x16 and 255 * 64 for 8x8. |
| Vectors.SplitUnsplit | homework02/FilterTemplate/src/FilterTemplate/mv.hpp:59-68 | `Unsplit` after `Split` gives back the leaf; a second `Split` discards the first one's sub-vectors. |
| Vectors.MV.constructor | homework02/FilterTemplate/src/FilterTemplate/mv.hpp:22-31 | A fresh leaf holding the given x, y, shift and error. |
| Vectors.MV.Default | homework02/FilterTemplate/src/FilterTemplate/mv.hpp:22-31 | All arguments defaulted: (0, 0, NONE, LONG_MAX), not split. |
| Vectors.MV.Copy | homework02/FilterTemplate/src/FilterTemplate/mv.hpp:34-42 | Deep copy: the new vector has the same value, sub-vectors included, in fresh objects. |
| Vectors.MV.Move | homework02/FilterTemplate/src/FilterTemplate/mv.hpp:45-49 | The new vector takes the other's value and sub-vectors; the other is left a default leaf. |
| Vectors.MV.Swap | homework02/FilterTemplate/src/FilterTemplate/mv.hpp:92-99 | The two vectors exchange their values and their sub-vector ownership. |
| Vectors.MV.Assign | homework02/FilterTemplate/src/FilterTemplate/mv.hpp:52-56 | Copy-and-swap: this takes the old value of `other`. `other` keeps its value when this vector is not part of it. At filter.cpp line 804 (`mv = mv.SubVector(h)`) the right-hand side is one of this vector's own sub-vectors: its value is copied before the swap, and in the C++ the old sub-vector array, the right-hand side included, is then destroyed. |
| Vectors.MV.Split | homework02/FilterTemplate/src/FilterTemplate/mv.hpp:59-62 | Same fields, four fresh default sub-vectors. |
| Vectors.MV.Unsplit | homework02/FilterTemplate/src/FilterTemplate/mv.hpp:65-68 | Same fields, no sub-vectors, footprint back to the vector alone. |
| Vectors.MV.IsSplit | homework02/FilterTemplate/src/FilterTemplate/mv.hpp:71-74 | True iff the vector holds sub-vectors. |
| Vectors.MV.SubVector | homework02/FilterTemplate/src/FilterTemplate/mv.hpp:77-81 | For ids 0..3 of a split vector: an owned leaf holding sub-vector `id`'s value. |
| Search.SearchBlock | homework02/FilterTemplate/src/FilterTemplate/motion_estimator.cpp:51-67 | The three nested loops over planes, y and x leave in the vector the fold of the strict-`<` update over all candidates in loop order. |
| Search.CandidateSad | homework02/FilterTemplate/src/FilterTemplate/motion_estimator.cpp:52-57 | The SAD computed for (plane p, y, x) is the error of candidate number p*1089 + (y+16)*33 + (x+16) in loop order. |
| Search.ScanIsFirstMinimum | homework02/FilterTemplate/src/FilterTemplate/motion_estimator.cpp:59-64 | The result is the first candidate, in loop order, of minimal error: every earlier candidate is strictly worse, none is better, and the error is below LONG_MAX. |
| Search.ScanIsBest | homework02/FilterTemplate/src/FilterTemplate/motion_estimator.cpp:51-67 | The result is a leaf whose shift is a searched plane, whose offsets lie in [-16, 16] and whose error is its own SAD. No displacement in any searched plane has smaller SAD. |
| Search.ScanSentinel | homework02/FilterTemplate/src/FilterTemplate/motion_estimator.cpp:45-46 | The LONG_MAX starting error is always replaced. |
| Search.QuadScansBelowWhole | homework02/FilterTemplate/src/FilterTemplate/motion_estimator.cpp:73-98 | The four best quadrant errors together never exceed the best whole-block error. |
| Search.StaticBlockScan | homework02/FilterTemplate/src/FilterTemplate/motion_estimator.cpp:51-67 | A block equal to its co-located block in a searched plane gets error 0. |
| Estimator.NumBlocksIsCeiling | homework02/FilterTemplate/src/FilterTemplate/motion_estimator.cpp:12-13 | `(n + 15) / 16` is the ceiling of n / 16; it is exact for multiples of 16. |
| Estimator.PrevMapShape | homework02/FilterTemplate/src/FilterTemplate/motion_estimator.cpp:28-36 | The reference map holds NONE -> prev. In half-pixel mode it also holds UP, LEFT and UPLEFT -> their planes, and nothing else. |
| Estimator.HalfPelPlanesUnused | homework02/FilterTemplate/src/FilterTemplate/motion_estimator.cpp:32-36 | Without half-pixel mode the shifted planes never reach the map. |
| Estimator.Store | homework02/FilterTemplate/src/FilterTemplate/motion_estimator.cpp:107 | `mvectors[block_id] = best_vector` gives slot k the vector's value and leaves every other slot unchanged. |
| Estimator.MotionEstimator.constructor | homework02/FilterTemplate/src/FilterTemplate/motion_estimator.cpp:6-16 | The fields hold width + 32, the block counts (n + 15) / 16 and first_row_offset = width_ext * 16 + 16. |
| Estimator.MotionEstimator.FirstRowOffsetIsOrigin | homework02/FilterTemplate/src/FilterTemplate/motion_estimator.cpp:14 | first_row_offset is row 16, column 16 of the padded plane: frame pixel (0, 0). |
| Estimator.MotionEstimator.BlockVectorIsBest | homework02/FilterTemplate/src/FilterTemplate/motion_estimator.cpp:45-67 | The block's vector has a searched shift and an in-window offset. Its error is the 16x16 SAD there, below LONG_MAX, and no candidate in any searched plane is better. |
| Estimator.MotionEstimator.QuadVectorIsBest | homework02/FilterTemplate/src/FilterTemplate/motion_estimator.cpp:73-98 | Each quadrant vector, with the offsets of lines 77-78, is the best 8x8 match of its quadrant in the same sense. |
| Estimator.MotionEstimator.BlockVectorSplitRule | homework02/FilterTemplate/src/FilterTemplate/motion_estimator.cpp:69-105 | The stored vector is the whole-block vector. It carries sub-vectors iff error > 1000 and the four quadrant errors sum to at most 0.7 * error. The sub-vectors are then the four quadrant vectors, all leaves. |
| Estimator.MotionEstimator.QuadrantsBelowWhole | homework02/FilterTemplate/src/FilterTemplate/motion_estimator.cpp:73-104 | The four quadrant errors together never exceed the whole-block error. |
| Estimator.MotionEstimator.StaticBlockIsZero | homework02/FilterTemplate/src/FilterTemplate/motion_estimator.cpp:51-70 | A block identical to its co-located block in a searched plane gets error 0 and is not split. |
| Estimator.MotionEstimator.QualityIgnored | homework02/FilterTemplate/src/FilterTemplate/motion_estimator.cpp:6-16 | `quality` is stored but never read: two estimators that differ only in it produce the same vectors. |
| Estimator.MotionEstimator.EstimateBlock | homework02/FilterTemplate/src/FilterTemplate/motion_estimator.cpp:45-105 | The body of the inner loop builds a fresh vector whose value is the block's vector: best match, split by the rule. |
| Estimator.MotionEstimator.EstimateSlot | homework02/FilterTemplate/src/FilterTemplate/motion_estimator.cpp:40-107 | Block (i, j) is estimated into slot i * num_blocks_hor + j, and every other slot is unchanged. |
| Estimator.MotionEstimator.Estimate | homework02/FilterTemplate/src/FilterTemplate/motion_estimator.cpp:22-110 | Every slot k < num_blocks_vert * num_blocks_hor holds the vector of its block, searched over the reference map built from the four planes. Slots beyond are unchanged. |
| HalfPixel.Narrow | homework02/FilterTemplate/src/FilterTemplate/half_pixel.cpp:13-20 | The store into the sample type: the 8-bit version clamps to 0..255, the 16-bit one wraps. Representable values are kept. |
| HalfPixel.FiltersFitShort | homework02/FilterTemplate/src/FilterTemplate/half_pixel.cpp:131-169 | The 16-bit filters never wrap on inputs within two thirds of the 16-bit range. |
| HalfPixel.HalfpixelShift | homework02/FilterTemplate/src/FilterTemplate/half_pixel.cpp:5-61 | The plane becomes the vertically interpolated plane (two-tap edge rows, four-tap (5,5,-1,-1)/8 inner rows), copied back from row 1 (up) or row 0. The last row, or the first, is untouched. With `SampleKind` I16 the same method is the `int16_t` overload at lines 131-169. |
| HalfPixel.HalfpixelShiftHorz | homework02/FilterTemplate/src/FilterTemplate/half_pixel.cpp:63-129 | The plane becomes the as-written horizontal shift. With shift_right this copies uninitialised scratch into the last column (see Findings). With `SampleKind` I16 the same method is the `int16_t` overload at lines 171-219. |
| HalfPixel.HalfpixelShiftHorzFixed | homework02/FilterTemplate/src/FilterTemplate/half_pixel.cpp:63-129 | The plane becomes the horizontal half-pixel shift; shifting right keeps column 0 and moves the interpolated columns one to the right. It covers both overloads (lines 63-129 and 171-219). |
| HalfPixel.VertKeepsFlat | homework02/FilterTemplate/src/FilterTemplate/half_pixel.cpp:5-61 | A flat plane of a representable value is unchanged by the vertical shift. |
| HalfPixel.HorzKeepsFlat | homework02/FilterTemplate/src/FilterTemplate/half_pixel.cpp:63-110 | A flat plane of a representable value is unchanged by the corrected horizontal shift. |
| HalfPixel.ShiftsFit | homework02/FilterTemplate/src/FilterTemplate/half_pixel.cpp:13-20 | Shifted planes hold samples of their type. |
| HalfPixel.ShortShiftIsExact | homework02/FilterTemplate/src/FilterTemplate/half_pixel.cpp:131-169 | For 16-bit planes within two thirds of the range, the stored sample is the unwrapped filter output. |
| HalfPixel.AsWrittenRightMisplaced | homework02/FilterTemplate/src/FilterTemplate/half_pixel.cpp:111-119 | On row [0, 2, 4], shifting right as written gives 3 in column 1 where the right shift gives 1. |
| HalfPixel.AsWrittenRightNotFlat | homework02/FilterTemplate/src/FilterTemplate/half_pixel.cpp:111-128 | On the flat row [0, 0, 0], shifting right as written copies scratch memory into the last column. |
| Filter.Clamp | homework02/FilterTemplate/src/FilterTemplate/filter.cpp:32-41 | With a <= b the result is within [a, b], equals v when v is inside, and equals the nearer bound otherwise. |
| Filter.ClampMonotone | homework02/FilterTemplate/src/FilterTemplate/filter.cpp:32-41 | Clamping keeps the order of its inputs. |
| Filter.ScriptConfig | homework02/FilterTemplate/src/FilterTemplate/filter.cpp:495-502 | The output type is clamped to 0..3 and quality to 0..100, each kept when already in range; each flag is "argument != 0". |
| Filter.ScriptRoundTrip | homework02/FilterTemplate/src/FilterTemplate/filter.cpp:484-502 | Parsing the script string's arguments gives back any valid configuration. |
| Filter.FillBorders | homework02/FilterTemplate/src/FilterTemplate/filter.cpp:636-663 | The padded plane becomes `Filled` of its old contents: each sample takes the value of the nearest frame pixel. |
| Filter.PadFrameRows | homework02/FilterTemplate/src/FilterTemplate/filter.cpp:638-645 | Each frame row's left and right borders repeat its first and last pixel; the top and bottom bands are untouched. |
| Filter.PadRowAt | homework02/FilterTemplate/src/FilterTemplate/filter.cpp:641-644 | The two `memset`s of one row pad that row and nothing else. |
| Filter.FillTop | homework02/FilterTemplate/src/FilterTemplate/filter.cpp:648-654 | The 16 rows above the frame are copies of the first padded frame row; the rest is untouched. |
| Filter.FillBottom | homework02/FilterTemplate/src/FilterTemplate/filter.cpp:656-662 | The 16 rows below the frame are copies of the last padded frame row; the rest is untouched. |
| Filter.FilledSample | homework02/FilterTemplate/src/FilterTemplate/filter.cpp:636-663 | Padded sample (r, c) equals frame pixel (clamp(c - 16, 0, w - 1), clamp(r - 16, 0, h - 1)). |
| Filter.FilledKeepsFrame | homework02/FilterTemplate/src/FilterTemplate/filter.cpp:636-663 | The frame pixels themselves are not changed. |
| Filter.FilledIdempotent | homework02/FilterTemplate/src/FilterTemplate/filter.cpp:636-663 | Filling the borders twice is the same as once. |
| Filter.BuildShiftedPlanes | homework02/FilterTemplate/src/FilterTemplate/filter.cpp:546-571 | For the luma plane (bytes, padded size) and each chroma plane (16-bit samples, frame size), the up, left and up-left planes become the vertical, horizontal and vertical-then-horizontal half-pixel shifts of the previous plane. |
| Filter.LeftShiftAsWritten | homework02/FilterTemplate/src/FilterTemplate/filter.cpp:550-553 | With shift_right false, the only way the filter calls it, the as-written horizontal shift equals the intended one. |
| Filter.LumaRefs | homework02/FilterTemplate/src/FilterTemplate/filter.cpp:546-553 | The reference map the estimator is given holds prev and, in half-pixel mode, exactly the three shifted planes. |
| Filter.QuadrantIsSearched | homework02/FilterTemplate/src/FilterTemplate/filter.cpp:801-804 | The quadrant index chosen for pixel (x, y) is the one whose 8x8 window, offset as in motion_estimator.cpp lines 77-78, contains the pixel. |
| Filter.ClampShift | homework02/FilterTemplate/src/FilterTemplate/filter.cpp:843-856 | The clamped shift moves a frame coordinate to clamp(p + d, 0, n - 1), and is d when p + d is inside. |
| Filter.CompensatePixel | homework02/FilterTemplate/src/FilterTemplate/filter.cpp:797-858 | The luma sample for pixel (x, y) is read from the plane of its (sub-)vector's shift, at the displaced pixel clamped into the frame. |
| Filter.CompensateMotion | homework02/FilterTemplate/src/FilterTemplate/filter.cpp:790-858 | The compensated luma frame holds, for every pixel, that sample. |
| Filter.ClampedReadIsPaddedRead | homework02/FilterTemplate/src/FilterTemplate/filter.cpp:843-858 | In a border-filled plane, reading the clamped pixel equals reading the unclamped displaced position, for displacements within the border. |
| Filter.CompensatedFromPadding | homework02/FilterTemplate/src/FilterTemplate/filter.cpp:838-858 | With a border-filled previous plane and a NONE vector in the window, the compensated sample is the padded sample the vector points at. |
| Filter.Residual | homework02/FilterTemplate/src/FilterTemplate/filter.cpp:733 | The residual is within 0..255, is 128 iff the samples agree, and is 128 + 3 * (mc - cur) when that does not clamp. |
| Filter.ResidualMonotone | homework02/FilterTemplate/src/FilterTemplate/filter.cpp:733 | The residual grows with the compensated sample. |
| Filter.ResidualLuma | homework02/FilterTemplate/src/FilterTemplate/filter.cpp:723-746 | Every compensated luma sample is replaced by its residual against the co-located pixel of the padded current plane. |
| Fields.ExtractFields | homework03/src/utils.py:36-52 | The result is the fields of the video: field f is every other row of frame f / 2, starting with the row that the parity of f and the field order choose, h // 2 rows. |
| Fields.AssignStrided | homework03/src/utils.py:49-50 | One strided assignment sets the fields of one parity and leaves the others alone. |
| Fields.FieldsShape | homework03/src/utils.py:37-42 | There are 2 * num_frames fields, each of height // 2 rows of width pixels of num_channels samples. |
| Fields.FieldOrder | homework03/src/utils.py:44-50 | With the top field first, field 2k holds the even rows and 2k + 1 the odd rows of frame k; otherwise the other way round. |
| Fields.WeaveRestoresFrame | homework03/src/utils.py:40-50 | Interleaving the two fields of a frame gives the frame back: all of it for an even height, all but the last row for an odd height. |

## Left out

- Estimator.MotionEstimator.BlockVectorSplitRule: the double comparison `sum > error * 0.7` is modelled as `10 * sum > 7 * error` over the integers. The two agree except at an exact tie (10 * sum == 7 * error). There the double product can round just below the tie value, as for error 1350 and sum 945, and the C++ merges back where the model keeps the split.
- LONG_MAX, the starting error, is taken as 2^31 - 1: `long` is 32 bits on the filter's 32-bit Windows target. Every SAD is below it.
- Estimator.MotionEstimator.Estimate: requires width and height to be multiples of 16. For other sizes the last block row and column of the C++ reach past the frame, and their search window reaches past the 16-pixel border.
- HalfPixel.Narrow: the explicit `static_cast<int16_t>` of the 16-bit filter's result is modelled as two's-complement wrap-around. For out-of-range values that is implementation-defined before C++20.
- The iteration order of `std::unordered_map` is unspecified. It is the `order` parameter, any enumeration of the map's keys. Which of several equal-error candidates wins depends on it, and the proved properties hold for every order.
- HalfPixel.HalfpixelShift and HalfPixel.HalfpixelShiftHorz: require at least 3 rows (resp. columns), because the code reads rows 0..2 (columns 0..2) unconditionally.
- The chroma (U, V) compensation and residual are not modelled. The chroma half-pixel planes are modelled by the same methods with 16-bit samples.
- Vectors.MV: sub-vectors are leaves. Nested splits, such as `SubVector(h).Split()`, and the partial default-argument constructors `MV(x)` and `MV(x, y)` are not modelled; the program uses neither.
- Vectors.MV.Assign: objects are never freed in the model. After `mv = mv.SubVector(h)` the released sub-vector is still an object in the model, but it is destroyed in the C++.
- The RESIDUAL_BEFORE_MC path is not modelled, apart from the shared residual loop.
- Vector drawing, RGB/YUV conversion (floating point), PSNR measurement, timing and the VirtualDub plugin plumbing are left out as I/O and floating point.
- In homework03, `read_sequence`, the image savers and `rgb2gray` are left out as file I/O and floating point. NumPy dtype handling is not modelled: samples are kept as integers.
- CompensateMotion reads the vectors as a sequence of values rather than through `MV` objects.
- Filter.CompensateMotion: the four reference planes are always supplied. The C++ leaves the shifted planes unallocated without half-pixel mode, which is safe only because no vector then names them.

## Findings

| source | as written | input that shows it | evidently intended | confidence | as-written member | corrected member |
|---|---|---|---|---|---|---|
| homework02/FilterTemplate/src/FilterTemplate/half_pixel.cpp:111-119 | With shift_right, column 0 of every row gets the original column 0, overwriting interpolated column 0. The interpolated columns stay where the left shift puts them, and the last column of the scratch plane is never written but is copied back into the frame. The `int16_t` overload does the same at lines 201-209. | width 3, height 1, row [0, 2, 4], shift_right = true: column 1 becomes 3 instead of 1, and column 2 is uninitialised memory | the interpolated columns move one place right behind the kept first column | not executed | HalfPixel.HalfpixelShiftHorz, HalfPixel.AsWrittenRightMisplaced, HalfPixel.AsWrittenRightNotFlat | HalfPixel.HalfpixelShiftHorzFixed, HalfPixel.HorzKeepsFlat |
