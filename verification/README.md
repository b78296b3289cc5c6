# Sample packing, file forms and the fuzzing control plane, verified

A Dafny model of three parts of the JPEG 2000 target: the code that turns decoded `int32` planes into
bytes (and reads them back), the control plane of the fuzzing watcher, and a small format-string
recogniser. `dafny verify dfyconfig.toml` checks all of it.

## What is modelled

**From planes to bytes and back.** `Simd` defines every vector intrinsic the kernels use once, on
16-byte registers: shuffles, packs that saturate, unpacks, permutes, blends, and the WebAssembly
instructions of section 4.4.3 of the WebAssembly Core Specification 2.0. Each kernel is then written as
the source runs it, a block loop and a tail over arrays, and proved to write what a reference function
says, for every width:
`PackKernels` (be16, le16, u8), `PpmInterleave` (8 and 16 bit, SSE), `BatchPpm` (`write_ppm`, AVX2),
`WasmPack` (`pack_samples`, RGB rows), `WasmRgba` (decoding to RGBA), `YCbCr` (in-place conversion, with
its error bounds over the reals), `PpmChroma` (upsampled and converted PPM pictures, byte by byte in
`PpmPixels`), `PpmInterleaved` (PPM pictures that need neither).
Where a vector form saturates and its tail truncates, the theorem says exactly when that shows.
`RowSchedule` is the streaming decoder's choice of rows for vertically subsampled components, `Writers`
the comparison of the batch and streaming files. `Pgx` and `Pnm` are the encoder's readers, `ImgCmp` the
comparison tool's reader, all over the file cursor of `CFile`; round trips run from the bytes the
writers are proved to write.

**The control plane.** `Refiner` is the queue of refiner entries as a state machine over its steps,
`GuardedApply` the injection, probing and rolling back of a patch on one file, `Recovery` the retry
policy, the recovery queues with their router and consumer, and the recursive driver, `CrashExcerpt`,
`CrashIndex` and `RegressionTriggers` (with `TriggerContents`) the log excerpt, the index and the
trigger queue, `CoverageQuarantine` the coverage corpus. JSON files are
records in memory; exit codes, probe results and evidence are inputs.

**The recogniser.** `DumpPattern` proves `validate_dump_pattern` sound and complete against a grammar.

A register is a sequence of 16 bytes, low byte first, on a little-endian host. Source rows are values and
output rows are arrays written in place; the width is the row's length. `int` is unbounded, so
wrap-around, truncation and saturation are written out, and where the C++ would overflow a signed
integer (and so mean nothing) a precondition says so.

## Where the code and its comments or callers disagree

- The AVX2 16-bit packers saturate at 32767, so an unsigned 16-bit image with larger samples in a full
  block is written differently from the scalar build (`PackKernels.Be16Agree`, `PackKernels.Le16Agree`).
- The comment at main_dec.cpp:826-828 calls the recovered subsampling factor exact. It is not: five luma
  rows at YR = 4 give 3, and row 0 is then written twice (`RowSchedule.ContentRight`). Past a height sum
  of 2^32 the factor is 0 and the division undefined (`RowSchedule.FactorDefined`).
- The PGX reader's comment speaks of a single trailing blank; the code skips all of them, so a payload
  that begins with one is read too late (`Pgx.HeaderExact`, `Pgx.BlankFirstSample`). Sizes from 2^31 on
  are printed as negative numbers. The PNM reader skips comments there too (`Pnm.HeaderExact`). What the
  PGX reader calls the byte order indicator is the first 'M' or 'L' anywhere after "PG"
  (`Pgx.OpensExactly`).
- `read_pnmpgx` rewinds one byte too far at the end of the file, does not skip carriage returns despite
  its comment, and refuses PGM files of depth 1, which the encoder reads (`ImgCmp.RewindAtEnd`,
  `ImgCmp.OneBitPgm`, `Pnm.AgreesWithComparison`).
- `write_ppm` adds the offset of signed luma and the streaming rows do not
  (`YCbCr.BatchStreamChannel`, `PpmChroma.PicturesAgree`); without conversion or horizontal subsampling the
  streaming rows clamp while `write_ppm` keeps low bytes or saturates (`PpmInterleaved.SameSizeAgrees`,
  `PpmInterleaved.UnequalHeightsAgree`). Nearest-neighbour chroma at n * w1 / w0 leaves the grid at
  subsampling factors above 2 (`PpmChroma.UpsamplingExact`).
- RAW files of two bytes a sample are little-endian from one decoder path and big-endian from the other
  (`Writers.RawAgrees`).
- Decoding to RGBA scales depths below 8 by a power of two, so white is not 255 (`WasmRgba.ScalesUp`).
- Rolling back writes the text that was read, so carriage returns become line feeds
  (`GuardedApply.Restored`).
- An entry bridged again between its launch and its verification is never verified
  (`Refiner.VerifiableUntilRebridged`, `Refiner.StuckForGood`).
- The closed loop writes back the manifest it loaded before the apply, so a later rollback is aborted where
  the policy allows a retry, or the other way round (`Recovery.StreakLost`, `Recovery.AbortsTooEarly`,
  `Recovery.RetriesOnceMore`).
- A retry entry is never queued again for its candidate, so a candidate is rearmed once in its life
  (`Recovery.RearmedOnce`), and the recursive driver, made for several cycles, answers a single retry that
  ends in a retry with nothing at all (`Recovery.OneRetryOnly`).
- An apply whose target file is missing is routed on the decision of the apply before it, so a candidate
  with a streak can be sent to a retry again (`Recovery.ChainStopsAtOnce`,
  `Recovery.GoesOnOverMissingTarget`).
- A retry entry whose manifest is missing is taken by every trip and blocks all that is behind it
  (`Recovery.MissingBlocks`).
- Normalising the trigger queue is not idempotent when a reason reads like the key of a promoted seed
  (`RegressionTriggers.NormalizeIdempotent`, `RegressionTriggers.CollidingReason`).
- A coverage file with a preferred name is overwritten without being quarantined
  (`CoverageQuarantine.PreferredNameOverwritten`), and a move onto a taken suffixed name replaces what was
  there (`CoverageQuarantine.MoveLosesNothing`, `CoverageQuarantine.IntactExactly`).

## Model

| member | source | states |
|---|---|---|
| PpmInterleave.Interleave16Sse | targets/jpeg2000-openhtj2k/source/apps/decoder/main_dec.cpp:325-392 | The SSE form of `ppm_interleave_16be` (blocks of eight pixels, seven masks over three joined registers, scalar tail) writes the reference row, for every width, depth 1 to 16 and all `int32` planes, and nothing after it |
| PpmInterleave.Interleave16Scalar | targets/jpeg2000-openhtj2k/source/apps/decoder/main_dec.cpp:428-442 | The scalar form writes the same reference row, so the two forms agree byte for byte |
| PpmInterleave.MasksOfSource | targets/jpeg2000-openhtj2k/source/apps/decoder/main_dec.cpp:335-341 | The seven masks are the source's 64-bit constants |
| PpmInterleave.Row16Sample | targets/jpeg2000-openhtj2k/source/apps/decoder/main_dec.cpp:429-441 | Reading bytes 6x to 6x+5 of the row high byte first gives the three clamped samples of pixel x |
| PpmInterleave.Interleave8Sse | targets/jpeg2000-openhtj2k/source/apps/decoder/main_dec.cpp:194-274 | The SSE form of `ppm_interleave_8` writes the reference row for every width and depth up to 8 |
| PpmInterleave.Interleave8Scalar | targets/jpeg2000-openhtj2k/source/apps/decoder/main_dec.cpp:309-320 | The scalar form writes the same row |
| PpmInterleave.Row8Sample | targets/jpeg2000-openhtj2k/source/apps/decoder/main_dec.cpp:310-319 | Byte 3x+c of the row is component c of pixel x, clamped |
| PackKernels.PackBe16Avx2 | targets/jpeg2000-openhtj2k/source/apps/decoder/main_dec.cpp:56-75 | The AVX2 form writes saturated samples in full 16-sample blocks and low bits in the tail |
| PackKernels.PackBe16Scalar | targets/jpeg2000-openhtj2k/source/apps/decoder/main_dec.cpp:95-101 | The scalar form writes the low 16 bits of every sample with the offset added, high byte first |
| PackKernels.Be16Agree | targets/jpeg2000-openhtj2k/source/apps/decoder/main_dec.cpp:56-101 | The two forms write the same row if and only if every sample of the full blocks survives the signed 16-bit pack |
| PackKernels.Be16AgreeInRange | targets/jpeg2000-openhtj2k/source/apps/decoder/main_dec.cpp:56-101 | For sums in -32768..65535 that is: no blocked sum exceeds 32767 |
| PackKernels.Be16SaturatesAt40000 | targets/jpeg2000-openhtj2k/source/apps/decoder/main_dec.cpp:62-67 | A row of sixteen 40000s comes out different |
| PackKernels.PackLe16Avx2 | targets/jpeg2000-openhtj2k/source/apps/decoder/main_dec.cpp:105-120 | The AVX2 little-endian form: saturated blocks, low bits in the tail |
| PackKernels.PackLe16Scalar | targets/jpeg2000-openhtj2k/source/apps/decoder/main_dec.cpp:136-142 | The scalar little-endian form |
| PackKernels.Le16Agree | targets/jpeg2000-openhtj2k/source/apps/decoder/main_dec.cpp:105-142 | The little-endian forms agree if and only if every blocked sample survives the packing |
| PackKernels.PackU8Avx2 | targets/jpeg2000-openhtj2k/source/apps/decoder/main_dec.cpp:146-166 | The AVX2 form (mask, two packs, lane-fixing permutation) writes exactly the low byte of every sum, for every width |
| PackKernels.PackU8Scalar | targets/jpeg2000-openhtj2k/source/apps/decoder/main_dec.cpp:186-190 | The scalar form writes the same bytes |
| BatchPpm.WritePpm8Avx2 | targets/jpeg2000-openhtj2k/source/apps/decoder/dec_utils.hpp:248-306 | The AVX2 path of `write_ppm` at 8 bits: components narrowed by two saturating packs in blocks of 16 pixels, low bytes in the tail |
| BatchPpm.WritePpm8Scalar | targets/jpeg2000-openhtj2k/source/apps/decoder/dec_utils.hpp:370-391 | The scalar path at 8 bits keeps the low byte of every component |
| BatchPpm.Batch8Agree | targets/jpeg2000-openhtj2k/source/apps/decoder/dec_utils.hpp:248-391 | The two paths write the same picture if and only if every component in the full blocks is in 0..255, or has the low byte of the limit it is moved to |
| BatchPpm.WritePpm16Avx2 | targets/jpeg2000-openhtj2k/source/apps/decoder/dec_utils.hpp:307-367 | The AVX2 path at 16 bits: saturated big-endian components in blocks of 8 pixels, low bits in the tail |
| BatchPpm.WritePpm16Scalar | targets/jpeg2000-openhtj2k/source/apps/decoder/dec_utils.hpp:370-391 | The scalar path at 16 bits |
| BatchPpm.Batch16Agree | targets/jpeg2000-openhtj2k/source/apps/decoder/dec_utils.hpp:307-391 | The two paths agree if and only if every blocked component survives the unsigned 16-bit saturation |
| WasmPack.PackSamples8Simd | targets/jpeg2000-openhtj2k/subprojects/src/wrapper.cpp:434-450 | The SIMD form of `pack_samples` at one byte: clamped and narrowed blocks, scalar tail |
| WasmPack.PackSamples8Scalar | targets/jpeg2000-openhtj2k/subprojects/src/wrapper.cpp:468-472 | The scalar form at one byte |
| WasmPack.PackedSample8 | targets/jpeg2000-openhtj2k/subprojects/src/wrapper.cpp:431-481 | Byte i of either form is sample i clamped to 0..maxval |
| WasmPack.Simd8EqualsScalar8 | targets/jpeg2000-openhtj2k/subprojects/src/wrapper.cpp:438-472 | The two forms are the same function of a sample if and only if maxval is in 0..255, or negative with a zero low byte |
| WasmPack.PackSamples16Simd | targets/jpeg2000-openhtj2k/subprojects/src/wrapper.cpp:451-466 | The SIMD form at two bytes |
| WasmPack.PackSamples16Scalar | targets/jpeg2000-openhtj2k/subprojects/src/wrapper.cpp:473-479 | The scalar form at two bytes |
| WasmPack.PackedSample16 | targets/jpeg2000-openhtj2k/subprojects/src/wrapper.cpp:451-479 | Bytes 2i and 2i+1 of either form are sample i clamped to 0..maxval, the high byte first |
| WasmPack.Simd16EqualsScalar16 | targets/jpeg2000-openhtj2k/subprojects/src/wrapper.cpp:451-479 | The two-byte forms are the same function if and only if maxval is in 0..65535, or negative with zero low 16 bits |
| WasmPack.PackSamplesAgree | targets/jpeg2000-openhtj2k/subprojects/src/wrapper.cpp:431-481 | The two forms write the same bytes if and only if every sample of the full blocks comes out alike: for a negative maxval a negative sample or no low bits in maxval, otherwise a clamped sample that fits or has all its low bits set |
| WasmPack.InterleaveRgbSimd | targets/jpeg2000-openhtj2k/subprojects/src/wrapper.cpp:355-399 | The 3-way interleave (six shuffles, 48 bytes a trip, scalar tail) writes the SIMD row for every width; with maxval in a byte, bytes 3x, 3x+1 and 3x+2 are the red, green and blue sample of pixel x with their offsets, clamped |
| WasmPack.InterleaveRgbScalar | targets/jpeg2000-openhtj2k/subprojects/src/wrapper.cpp:402-408 | The scalar loop for three components of equal width, with the same bytes |
| WasmPack.RgbAgree | targets/jpeg2000-openhtj2k/subprojects/src/wrapper.cpp:355-408 | The two forms write the same row if and only if every component of every pixel in the full blocks comes out alike |
| WasmPack.RgbSample | targets/jpeg2000-openhtj2k/subprojects/src/wrapper.cpp:361-399 | Byte 3x+c is component c of pixel x with its offset, clamped to 0..maxval |
| WasmRgba.RowSimd | targets/jpeg2000-openhtj2k/subprojects/src/wrapper.cpp:165-236 | A row of `invoke_decoder_to_rgba`, SIMD form: blocks of four pixels (none with subsampled chroma), scalar tail. Bytes 4x to 4x+2 are the levels of luma sample x and of the chroma samples x / 2 of subsampled rows, x of others; byte 4x+3 is 255. For one component or at least three |
| WasmRgba.RowScalar | targets/jpeg2000-openhtj2k/subprojects/src/wrapper.cpp:237-256 | The scalar form leaves the same bytes, for one component or at least three |
| WasmRgba.RowOfTwo | targets/jpeg2000-openhtj2k/subprojects/src/wrapper.cpp:224-235 | The scalar loop for two components, shared by both forms: red and green are the levels of luma sample x and chroma sample x / 2 (x at full width), alpha is 255, and the blue byte stays as it was |
| WasmRgba.RowTakes | targets/jpeg2000-openhtj2k/subprojects/src/wrapper.cpp:224-235 | With chroma of half the width rounded up, or of the full width, the chroma samples are those the PPM writers take for the pixel |
| WasmRgba.ValidExactly | targets/jpeg2000-openhtj2k/subprojects/src/wrapper.cpp:229 | The chroma index stays in the row if and only if the chroma rows have at least half of the width rounded up, or the whole of it |
| WasmRgba.RoundsToNearest | targets/jpeg2000-openhtj2k/subprojects/src/wrapper.cpp:156-161 | At depth 8 and above a level is the sample divided by 2^(d-8), rounded to the nearest, and is clamped only in the last half step |
| WasmRgba.ScalesUp | targets/jpeg2000-openhtj2k/subprojects/src/wrapper.cpp:156-161 | Below depth 8 it is the sample times 2^(8-d), so full scale is 256 - 2^(8-d) and not 255 |
| WasmRgba.Monotone | targets/jpeg2000-openhtj2k/subprojects/src/wrapper.cpp:229-232 | A brighter sample never comes out darker |
| WasmRgba.InRangeFits | targets/jpeg2000-openhtj2k/subprojects/src/wrapper.cpp:156-161 | No sample of the depth overflows `int32_t` on the way |
| WasmRgba.ThenConverted | targets/jpeg2000-openhtj2k/subprojects/src/wrapper.cpp:483-498 | Decoding to RGBA and converting in place gives each pixel the conversion of its three scaled samples |
| WasmRgba.EightBitsConverted | targets/jpeg2000-openhtj2k/subprojects/src/wrapper.cpp:483-498 | For unsigned 8-bit samples each pixel then holds red, green and blue within 0.6 of the exact transform of its own luma sample and its chroma samples at x / 2 or x, clamped, with full alpha |
| YCbCr.ExactInverts | targets/jpeg2000-openhtj2k/source/apps/decoder/dec_utils.hpp:68-83 | The real inverse transform with these weights undoes the forward colour transform of BT.601 and BT.709 |
| YCbCr.DepthTolerance | targets/jpeg2000-openhtj2k/source/apps/decoder/dec_utils.hpp:122-132 | Before clamping every channel of the depth-d path is within 1/2 + 9 * 2^(d-15) of the exact real formula |
| YCbCr.EightBitTolerance | targets/jpeg2000-openhtj2k/subprojects/src/wrapper.cpp:493-543 | At 8 bits every channel is within 0.6 of the exact formula, for all four tables |
| YCbCr.TablesAgreeWithinOne | targets/jpeg2000-openhtj2k/source/apps/decoder/dec_utils.hpp:80-83 | The two BT.601 tables, and the two BT.709 tables, give 8-bit channels at most one level apart |
| YCbCr.TablesDiffer | targets/jpeg2000-openhtj2k/source/apps/decoder/dec_utils.hpp:80-83 | One level is reached |
| YCbCr.OverflowDepth | targets/jpeg2000-openhtj2k/source/apps/decoder/dec_utils.hpp:127-129 | Samples of depth d never overflow `int32_t` in the conversion if and only if d is at most 17 |
| YCbCr.BatchStreamChannel | targets/jpeg2000-openhtj2k/source/apps/decoder/dec_utils.hpp:126-132 | The batch and streaming channel agree if and only if luma is unsigned or the value is clamped to the same end by both |
| YCbCr.ApplySimd | targets/jpeg2000-openhtj2k/subprojects/src/wrapper.cpp:511-544 | The SIMD form of the in-place conversion: four pixels a trip, scalar tail; it inverts every pixel as below |
| YCbCr.ApplyScalar | targets/jpeg2000-openhtj2k/subprojects/src/wrapper.cpp:546-556 | The scalar form leaves the same buffer, for every pixel count |
| YCbCr.ApplyBt601 | targets/jpeg2000-openhtj2k/subprojects/src/wrapper.cpp:498-558 | `apply_ycbcr_bt601_to_rgba`, in either form: for each of the first n pixels bytes 4i, 4i+1 and 4i+2 are integers within 0.6 of the exact BT.601 red, green and blue of the old bytes there, clamped; alpha and all other bytes stay |
| YCbCr.ApplyBt709 | targets/jpeg2000-openhtj2k/subprojects/src/wrapper.cpp:565-618 | `apply_ycbcr_bt709_to_rgba` likewise, with the exact BT.709 transform |
| YCbCr.AlphaKept | targets/jpeg2000-openhtj2k/subprojects/src/wrapper.cpp:517-534 | Alpha and everything after the n pixels are as they were |
| PpmChroma.UpsamplingExact | targets/jpeg2000-openhtj2k/source/apps/decoder/main_dec.cpp:790-795 | The chroma sample `n * w1 / w0` is sample n / XR of the grid for every n if and only if the last group is full or one short, or there is one chroma sample |
| PpmChroma.HalvesAgree | targets/jpeg2000-openhtj2k/subprojects/src/wrapper.cpp:402-407 | At XR = 2 it is always x >> 1, as the wrapper takes it |
| PpmChroma.ColumnInRange | targets/jpeg2000-openhtj2k/source/apps/decoder/dec_utils.hpp:114-118 | The chroma index is in range even when the 32-bit product wraps |
| PpmChroma.ColumnExact | targets/jpeg2000-openhtj2k/source/apps/decoder/main_dec.cpp:790-795 | It is the proportional one if and only if the product fits 32 bits |
| PpmChroma.WriteStreamRow | targets/jpeg2000-openhtj2k/source/apps/decoder/main_dec.cpp:752-816 | A row of the streaming decoder that is converted or whose chroma has another width |
| PpmChroma.WriteBatchPicture | targets/jpeg2000-openhtj2k/source/apps/decoder/dec_utils.hpp:107-148 | The scalar path of `write_ppm`, for components that are not all of one size or are in YCbCr, into a buffer of the pixels' size |
| PpmChroma.ConvertedPixel | targets/jpeg2000-openhtj2k/source/apps/decoder/dec_utils.hpp:122-146 | Both writers store, for a converted pixel, red, green and blue in this order: clamped integers within 1/2 + 9 * 2^(d-15) of the exact transform |
| PpmChroma.PixelsAgree | targets/jpeg2000-openhtj2k/source/apps/decoder/dec_utils.hpp:122-146 | The two writers store the same pixel if and only if there is no offset or all three channels are clamped to the same end |
| PpmChroma.PicturesAgree | targets/jpeg2000-openhtj2k/source/apps/decoder/dec_utils.hpp:111-153 | With conversion or chroma of another width, and chroma rows on the grid, the two payloads are the same if and only if that holds of every pixel |
| PpmChroma.InRangeDefined | targets/jpeg2000-openhtj2k/source/apps/decoder/dec_utils.hpp:124-132 | Samples of depth 16 or less convert without overflow |
| PpmPixels.BatchPixelAt | targets/jpeg2000-openhtj2k/source/apps/decoder/dec_utils.hpp:111-148 | In the picture of `write_ppm`, pixel (j, n) stands at byte 3 * bpp * (j * w + n), red, green and blue in this order and the high byte first, made from luma sample (j, n) and the first and second chroma plane at the row and column that go with it |
| PpmPixels.BatchedValue | targets/jpeg2000-openhtj2k/source/apps/decoder/dec_utils.hpp:122-146 | What stands there: the samples with the offset of signed luma, or the integers near the exact red, green and blue, clamped |
| PpmPixels.StreamPixelAt | targets/jpeg2000-openhtj2k/source/apps/decoder/main_dec.cpp:752-816 | In the streamed picture it stands in the same place, made from the chroma rows held at luma row j |
| PpmPixels.StreamedValue | targets/jpeg2000-openhtj2k/source/apps/decoder/main_dec.cpp:752-816 | What stands there, without an offset |
| PpmInterleaved.WriteInterleavedRow | targets/jpeg2000-openhtj2k/source/apps/decoder/main_dec.cpp:786-801 | A row of one width without conversion goes to the interleavers, SSE or scalar, and holds the clamped pixels |
| PpmInterleaved.UnequalHeightsAgree | targets/jpeg2000-openhtj2k/source/apps/decoder/dec_utils.hpp:107-153 | Without conversion, for planes of one width but different heights, the two payloads are the same if and only if the low bytes of every shifted sample are the clamped sample of the row the streaming decoder holds |
| PpmInterleaved.SampleExact | targets/jpeg2000-openhtj2k/source/apps/decoder/dec_utils.hpp:250-391 | A shifted sample kept by `write_ppm` (low bytes, or saturated in a block) is the clamped one if and only if it satisfies a condition on the sample, the offset and the largest value |
| PpmInterleaved.SameSizeAgrees | targets/jpeg2000-openhtj2k/source/apps/decoder/dec_utils.hpp:240-396 | For planes of one size the two payloads are the same if and only if every sample satisfies that condition, where blocks are counted over the whole buffer and not by row |
| PpmInterleaved.InRangeAgrees | targets/jpeg2000-openhtj2k/source/apps/decoder/dec_utils.hpp:240-396 | For samples in the range of the depth that is: luma is unsigned, or the whole picture is at the least value |
| RowSchedule.ComponentFile.OnRow | targets/jpeg2000-openhtj2k/source/apps/decoder/main_dec.cpp:829-844 | One callback for one component: skipped off the multiples of the recovered factor and past the end |
| RowSchedule.FactorDefined | targets/jpeg2000-openhtj2k/source/apps/decoder/main_dec.cpp:832 | The recovered factor is ceil(h0/hc) while the 32-bit sum of heights fits, and 0 beyond |
| RowSchedule.SlotsInOrder | targets/jpeg2000-openhtj2k/source/apps/decoder/main_dec.cpp:833-843 | Slot k of the file is written once, at luma row k * factor, in order |
| RowSchedule.AllRowsWritten | targets/jpeg2000-openhtj2k/source/apps/decoder/main_dec.cpp:829-844 | Exactly hc rows are written if and only if hc is the height some subsampling factor gives (or 0) |
| RowSchedule.FactorRecovered | targets/jpeg2000-openhtj2k/source/apps/decoder/main_dec.cpp:826-832 | The recovered factor is the real YR if and only if h0 > (YR-1) * hc; h0 > (YR-1)^2 suffices |
| RowSchedule.BoundIsTight | targets/jpeg2000-openhtj2k/source/apps/decoder/main_dec.cpp:826-832 | At h0 = (YR-1)^2 it comes out one too small, for every YR from 3 on |
| RowSchedule.ContentRight | targets/jpeg2000-openhtj2k/source/apps/decoder/main_dec.cpp:820-834 | The file holds the component if and only if the factor is recovered or there is at most one row; otherwise row 0 is written twice |
| RowSchedule.FiveRowsAtFour | targets/jpeg2000-openhtj2k/source/apps/decoder/main_dec.cpp:826-828 | Five luma rows at YR = 4 recover 3 |
| Writers.SwapBytes | targets/jpeg2000-openhtj2k/source/apps/decoder/dec_utils.hpp:417-421 | The four shifts and masks reverse the bytes of the word |
| Writers.SwappedStore | targets/jpeg2000-openhtj2k/source/apps/decoder/dec_utils.hpp:413-423 | Swapping, shifting down and storing little-endian writes the low bytes high byte first |
| Writers.ConvertComponent | targets/jpeg2000-openhtj2k/source/apps/decoder/dec_utils.hpp:398-429 | `convert_component_buffer_class`: every element stores the bytes of its sample |
| Writers.StreamPayload | targets/jpeg2000-openhtj2k/source/apps/decoder/main_dec.cpp:829-844 | With the scalar packers the streamed payload is the rows' bytes one after another |
| Writers.StreamRowAvx2 | targets/jpeg2000-openhtj2k/source/apps/decoder/main_dec.cpp:836-844 | One component of one callback with the AVX2 packers |
| Writers.AvxPayload | targets/jpeg2000-openhtj2k/source/apps/decoder/main_dec.cpp:836-844 | The payload of an AVX2 build is that of the scalar packers if and only if every sample of the full blocks of every row survives the pack, in all three formats |
| Writers.RowsAreBuffer | targets/jpeg2000-openhtj2k/source/apps/decoder/dec_utils.hpp:431-470 | Rows written one after another equal the whole buffer, for every size |
| Writers.WritersAgree | targets/jpeg2000-openhtj2k/source/apps/decoder/dec_utils.hpp:431-470 | For PGM and PGX the batch and streaming files are the same if and only if the image is empty or component 0 has the same bytes per sample and offset |
| Writers.OffsetExact | targets/jpeg2000-openhtj2k/source/apps/decoder/dec_utils.hpp:407-409 | With the offset of a PGM a sample lands in 0..maxval if and only if it is one of its depth and sign; the other formats have no offset |
| Writers.HeadersSpelled | targets/jpeg2000-openhtj2k/source/apps/decoder/dec_utils.hpp:443-450 | Three headers character by character: width before height, in decimal, the sign of a PGX file before its depth |
| Writers.AvxWritersAgree | targets/jpeg2000-openhtj2k/source/apps/decoder/dec_utils.hpp:431-470 | In an AVX2 build, with the sample size and offset of component 0, the two payloads are the same if and only if every blocked sample of every row survives the pack |
| Writers.RawAgrees | targets/jpeg2000-openhtj2k/source/apps/decoder/dec_utils.hpp:424-428 | The two RAW files are the same if and only if the image is empty, or the sample sizes are both one byte, or both two and the two bytes of every sample are alike |
| Writers.BatchPgxIsPrinted | targets/jpeg2000-openhtj2k/source/apps/decoder/dec_utils.hpp:447-450 | The batch PGX file is the file the PGX round trip is about |
| Pgx.ReadHeader | targets/jpeg2000-openhtj2k/source/apps/encoder/main_enc.cpp:207-246 | `parse_pgx_header` on a file cursor computes the parsing function |
| Pgx.PgxStreamReader.OpenNext | targets/jpeg2000-openhtj2k/source/apps/encoder/main_enc.cpp:253-261 | One more component file: opened and parsed, or refused |
| Pgx.PgxStreamReader.SetFactors | targets/jpeg2000-openhtj2k/source/apps/encoder/main_enc.cpp:262-273 | The subsampling factors, cast to 8 bits; refused when a size is no submultiple |
| Pgx.PgxStreamReader.Open | targets/jpeg2000-openhtj2k/source/apps/encoder/main_enc.cpp:253-275 | `open` succeeds if and only if every file can be parsed and the size of each is a submultiple of the first; the fields then hold each header and the factors |
| Pgx.RatioExact | targets/jpeg2000-openhtj2k/source/apps/encoder/main_enc.cpp:270-271 | The factor survives the cast if and only if it is at most 255 |
| Pgx.PgxStreamReader.GetRow | targets/jpeg2000-openhtj2k/source/apps/encoder/main_enc.cpp:291-315 | `get_row` fills each caller row from its file, or reports a short read and leaves the remaining rows alone; which row of the file that is, `Pgx.GetPlanes` says |
| Pgx.OpenPlanes | targets/jpeg2000-openhtj2k/source/apps/encoder/main_enc.cpp:253-275 | Opening the printed files of components of heights h_i with h_0 = f_i * h_i and f_i at most 255 succeeds, with these components open |
| Pgx.GetPlanes | targets/jpeg2000-openhtj2k/source/apps/encoder/main_enc.cpp:291-315 | From then on every call for a luma row y below h_0, in any order, succeeds and leaves row y / f_i of component i in the caller's row i |
| Pgx.HeaderExact | targets/jpeg2000-openhtj2k/source/apps/encoder/main_enc.cpp:207-246 | A printed header, of either byte order, is read back with the payload right after it if and only if both sizes are below 2^31 and the payload does not begin with a blank |
| Pgx.OpensExactly | targets/jpeg2000-openhtj2k/source/apps/encoder/main_enc.cpp:207-228 | A file is taken for a PGX file if and only if it begins with "PG" and an 'M' or 'L' comes after that with a digit at least two places further on |
| Pgx.RowsBack | targets/jpeg2000-openhtj2k/source/apps/encoder/main_enc.cpp:291-315 | Printing and reading back returns every sample of every row, in any order of calls, for depth 1 to 16, either sign and either byte order |
| Pgx.BlankFirstSample | targets/jpeg2000-openhtj2k/source/apps/encoder/main_enc.cpp:241-244 | With a blank first payload byte the last row cannot be read at all, in either byte order |
| Pgx.AvxPayload | targets/jpeg2000-openhtj2k/source/apps/decoder/main_dec.cpp:105-142 | With the AVX2 packer the payload is the same if and only if no blocked sample exceeds 32767 |
| CFile.NumberBack | targets/jpeg2000-openhtj2k/source/apps/encoder/main_enc.cpp:230-239 | A number printed with %d is read back by the digit loop |
| CFile.SkipToIs | targets/jpeg2000-openhtj2k/source/apps/encoder/main_enc.cpp:213-224 | A skipping loop stops at the first wanted byte or the end, and nowhere else |
| Pnm.SkipSpace | targets/jpeg2000-openhtj2k/source/apps/encoder/main_enc.cpp:85-95 | `skip_ws` skips white space and comments, to the end of the file if need be |
| Pnm.CommentSkipped | targets/jpeg2000-openhtj2k/source/apps/encoder/main_enc.cpp:85-95 | A comment is skipped up to and with its line feed, or to the end of the file |
| Pnm.SkipsToContent | targets/jpeg2000-openhtj2k/source/apps/encoder/main_enc.cpp:85-95 | After `skip_ws` comes neither white space nor a comment |
| Pnm.PnmStreamReader.Open | targets/jpeg2000-openhtj2k/source/apps/encoder/main_enc.cpp:114-148 | `open` fills the fields with what the file says, or refuses it |
| Pnm.OpensOnly | targets/jpeg2000-openhtj2k/source/apps/encoder/main_enc.cpp:114-148 | Only files that begin with "P5" or "P6" are opened, "P6" as color, with a depth from 1 to 16 |
| Pnm.PnmStreamReader.GetRow | targets/jpeg2000-openhtj2k/source/apps/encoder/main_enc.cpp:159-187 | `get_row` fills the caller's rows with the samples of row y, and nothing else |
| Pnm.DepthLeast | targets/jpeg2000-openhtj2k/source/apps/encoder/main_enc.cpp:138-141 | The bit depth is the least from 1 on that maxval fits into |
| Pnm.HeaderExact | targets/jpeg2000-openhtj2k/source/apps/encoder/main_enc.cpp:85-148 | A printed P5 or P6 header is read back with the payload right after it if and only if the sizes are below 2^31, maxval is in 1..65535 and the payload begins with neither white space nor '#' |
| Pnm.PgmRowsBack | targets/jpeg2000-openhtj2k/source/apps/encoder/main_enc.cpp:114-187 | A PGM of the decoder is read back with the offset added, at every depth 1 to 16, in any order of rows |
| Pnm.PpmRowsBack | targets/jpeg2000-openhtj2k/source/apps/encoder/main_enc.cpp:114-187 | A PPM of the streaming decoder is read back clamped to the depth, for any samples |
| Pnm.AgreesWithComparison | targets/jpeg2000-openhtj2k/source/apps/imgcmp/image_class.hpp:257-262 | On such a PGM the comparison tool returns the same samples if and only if the depth is at least 2 |
| ImgCmp.ReadPnmPgx | targets/jpeg2000-openhtj2k/source/apps/imgcmp/image_class.hpp:122-347 | `read_pnmpgx`, with its status loop, comment eating, rewind and decoding, computes the loading function |
| ImgCmp.RewindExact | targets/jpeg2000-openhtj2k/source/apps/imgcmp/image_class.hpp:267-282 | The rewind lands on the first payload byte if and only if something other than SP and LF follows and a leading run of those does not end in '#' |
| ImgCmp.RewindAtEnd | targets/jpeg2000-openhtj2k/source/apps/imgcmp/image_class.hpp:267-282 | At the end of the file it goes one byte too far |
| ImgCmp.PgxHeaderRead | targets/jpeg2000-openhtj2k/source/apps/imgcmp/image_class.hpp:164-266 | On a printed PGX file of either byte order the status loop ends right after the header |
| ImgCmp.PnmHeaderRead | targets/jpeg2000-openhtj2k/source/apps/imgcmp/image_class.hpp:221-266 | On a printed PGM or PPM file it does too |
| ImgCmp.DepthOfMaxVal | targets/jpeg2000-openhtj2k/source/apps/imgcmp/image_class.hpp:257-262 | ceil(log2) of a depth's maximum value gives the depth back, but 0 for depth 1 |
| ImgCmp.PgxFileBack | targets/jpeg2000-openhtj2k/source/apps/imgcmp/image_class.hpp:284-332 | A printed PGX component comes back sample by sample, in either byte order |
| ImgCmp.AgreesWithEncoder | targets/jpeg2000-openhtj2k/source/apps/imgcmp/image_class.hpp:284-332 | Where the encoder's reader gets the header right, both readers return the same samples, in either byte order |
| ImgCmp.PgmFileBack | targets/jpeg2000-openhtj2k/source/apps/imgcmp/image_class.hpp:284-332 | A printed PGM comes back with the offset added, at depths 2 to 16 |
| ImgCmp.OneBitPgm | targets/jpeg2000-openhtj2k/source/apps/imgcmp/image_class.hpp:284-331 | A depth-1 PGM is refused |
| DumpPattern.ValidateDumpPattern | targets/jpeg2000-openhtj2k/source/apps/rtp_recv/cli.cpp:43-71 | The nested scans terminate in bounds and accept exactly the grammar |
| DumpPattern.Sound | targets/jpeg2000-openhtj2k/source/apps/rtp_recv/cli.cpp:43-71 | Whatever the scanner counts comes from a reading as literals, "%%" and directives |
| DumpPattern.Complete | targets/jpeg2000-openhtj2k/source/apps/rtp_recv/cli.cpp:43-71 | Every reading is counted as it stands |
| DumpPattern.Exact | targets/jpeg2000-openhtj2k/source/apps/rtp_recv/cli.cpp:43-71 | Accepted if and only if the string has exactly one directive flags* digits* (. digits*)? [diuoxX] |
| DumpPattern.Conversions | targets/jpeg2000-openhtj2k/source/apps/rtp_recv/cli.cpp:60-66 | "%" and one character are accepted if and only if the character is one of d, i, u, o, x, X |
| DumpPattern.BeforeConversion | targets/jpeg2000-openhtj2k/source/apps/rtp_recv/cli.cpp:50-61 | A character between "%" and "d" is accepted if and only if it is a flag, a digit, the point, or such a conversion |
| DumpPattern.Unambiguous | targets/jpeg2000-openhtj2k/source/apps/rtp_recv/cli.cpp:50-61 | Different readings of a string have the same number of directives |
| Refiner.Entry.Sync | targets/jpeg2000-openhtj2k/scripts/hermes_watch.py:3143-3193 | `sync_refiner_lifecycle` sets the derived lifecycle and nothing else; what that tells over a run, `Refiner.LifecycleTells` says |
| Refiner.Entry.DoPrepare | targets/jpeg2000-openhtj2k/scripts/hermes_watch.py:4231-4248 | Executing and preparing an entry, when it matches |
| Refiner.Entry.DoDispatch | targets/jpeg2000-openhtj2k/scripts/hermes_watch.py:4261-4267 | Dispatching a prepared entry, when it matches |
| Refiner.Entry.DoBridge | targets/jpeg2000-openhtj2k/scripts/hermes_watch.py:4375-4381 | Arming the bridge of a ready entry, when it matches |
| Refiner.Entry.DoLaunch | targets/jpeg2000-openhtj2k/scripts/hermes_watch.py:5427-5440 | Launching an armed bridge: failed without a script or with a nonzero exit |
| Refiner.Entry.DoVerify | targets/jpeg2000-openhtj2k/scripts/hermes_watch.py:5052-5060 | Verifying a launched entry, when it matches |
| Refiner.Entry.DoPolicy | targets/jpeg2000-openhtj2k/scripts/hermes_watch.py:5366-5374 | Deciding on an unverified entry, when it matches |
| Refiner.RunKeepsInv | targets/jpeg2000-openhtj2k/scripts/hermes_watch.py:3143-3193 | The invariant holds after every interleaving of steps, from fresh entries or any queue where it holds |
| Refiner.Ordering | targets/jpeg2000-openhtj2k/scripts/hermes_watch.py:4261-4267 | In every reachable queue verified or unverified implies launched, which implies dispatched, prepared and completed; the lifecycle is the derived one |
| Refiner.LifecycleTells | targets/jpeg2000-openhtj2k/scripts/hermes_watch.py:3143-3193 | In every run from fresh entries the lifecycle of an entry tells its last step and the answer to it: verified exactly when found, launch succeeded exactly when the script was there and exited with 0, retry requested exactly when the policy said retry, and so for the other steps; bridging again leaves what the step before told |
| Refiner.Language | targets/jpeg2000-openhtj2k/scripts/hermes_watch.py:4231-5374 | The histories of an entry are exactly: nothing; executed alone; or prepared, dispatched, bridged and launched in this order, as far as it gets. A launch can be followed by one more bridging, which is then the end, or, when it succeeded, by a verification; after that come at most one more bridging and, when nothing was found and the entry is not in the review registry, a policy, in either order |
| Refiner.EveryLegalHistory | targets/jpeg2000-openhtj2k/scripts/hermes_watch.py:4231-5374 | A fresh entry of any queue can be taken through a history if and only if it is one of those |
| Refiner.RankRises | targets/jpeg2000-openhtj2k/scripts/hermes_watch.py:3143-3187 | Every step raises the lifecycle's rank, except bridging a launched entry again, which keeps or raises it |
| Refiner.RankNeverFalls | targets/jpeg2000-openhtj2k/scripts/hermes_watch.py:3143-3187 | Over any run the rank of an entry never falls |
| Refiner.CountIsSpent | targets/jpeg2000-openhtj2k/scripts/hermes_watch.py:4483-4489 | The steps of each kind on an entry are exactly what its budget has lost |
| Refiner.AtMost | targets/jpeg2000-openhtj2k/scripts/hermes_watch.py:4375-4381 | An entry is launched at most once and bridged at most twice, whatever the run |
| Refiner.BoundedWork | targets/jpeg2000-openhtj2k/scripts/hermes_watch.py:5485-5497 | A run over n entries with m added makes at most 7(n+m) successful steps |
| Refiner.StepsArePaid | targets/jpeg2000-openhtj2k/scripts/hermes_watch.py:5485-5497 | Steps taken plus steps left equal what there was plus seven for each added entry |
| Refiner.VerifiableUntilRebridged | targets/jpeg2000-openhtj2k/scripts/hermes_watch.py:4957-4963 | A successful launch can be verified if and only if the entry has not been bridged again |
| Refiner.StuckForGood | targets/jpeg2000-openhtj2k/scripts/hermes_watch.py:4375-4381 | After that no step of any run touches it |
| GuardedApply.InjectGuardedPatch | targets/jpeg2000-openhtj2k/scripts/hermes_watch.py:1534-1560 | `_inject_guarded_patch` computes the injection function |
| GuardedApply.GuardAfterFirstEntry | targets/jpeg2000-openhtj2k/scripts/hermes_watch.py:1496-1560 | A guard-only patch puts the note, as the comment of the language matched, and the guard right after the first line an entry-point pattern matches; spelled out character by character |
| GuardedApply.NoteAtTheEnd | targets/jpeg2000-openhtj2k/scripts/hermes_watch.py:1559-1560 | In every other case, unless the marker is there, the note goes to the end |
| GuardedApply.OneBlock | targets/jpeg2000-openhtj2k/scripts/hermes_watch.py:1545-1560 | Injection puts one contiguous block into the right-trimmed original: taking it out gives that text back |
| GuardedApply.BlockAtLineStart | targets/jpeg2000-openhtj2k/scripts/hermes_watch.py:1554-1560 | The block starts on a line of its own |
| GuardedApply.Idempotent | targets/jpeg2000-openhtj2k/scripts/hermes_watch.py:1543-1544 | A second injection, of whatever patch, changes nothing |
| GuardedApply.InjectHits | targets/jpeg2000-openhtj2k/scripts/hermes_watch.py:1534-1560 | A marked text keeps its markers; an unmarked one gets the marker once, and again for every time the note (and the guard, where it goes in) holds it |
| GuardedApply.MarkerIsPlain | targets/jpeg2000-openhtj2k/scripts/hermes_watch.py:1506-1507 | The program's marker is letters and blanks without a blank at either end, which is all the results on markers need |
| GuardedApply.TargetFile.Apply | targets/jpeg2000-openhtj2k/scripts/hermes_watch.py:1868-2040 | One call: blocked if and only if the guardrails fail, applied if and only if they pass and both probes exit with 0, rolled back otherwise; the file is then untouched, the injected text with the marker in it, or the text that was read |
| GuardedApply.Restored | targets/jpeg2000-openhtj2k/scripts/hermes_watch.py:2033-2040 | A blocked or rolled-back call keeps the text, and keeps the bytes if and only if it was blocked or the file has no carriage return |
| GuardedApply.LineEndRead | targets/jpeg2000-openhtj2k/scripts/hermes_watch.py:1868 | Each kind of line end is read as one line feed |
| GuardedApply.RunText | targets/jpeg2000-openhtj2k/scripts/hermes_watch.py:1868-2040 | Over any run the text changes at most once: to the original with the first applied patch, read back |
| GuardedApply.ChangedByFirstSuccess | targets/jpeg2000-openhtj2k/scripts/hermes_watch.py:1868-2040 | Over any run the text changes at the first call whose guardrails pass and whose two probes exit with 0, to the original with that patch, and otherwise stays; an unmarked file ends up with the marker if and only if there is such a call |
| GuardedApply.InjectedReads | targets/jpeg2000-openhtj2k/scripts/hermes_watch.py:1868-2040 | Reading back changes nothing when the patch brings no carriage return |
| GuardedApply.MarkerCount | targets/jpeg2000-openhtj2k/scripts/hermes_watch.py:1534-1560 | How often the marker is in the file after any run, for any patches; at most once if and only if nothing was applied or the parts that went in with the first applied patch do not hold it |
| GuardedApply.MarkedIsFinal | targets/jpeg2000-openhtj2k/scripts/hermes_watch.py:1543-1544 | Once the marker is there no run changes the text |
| Recovery.StreakIsTrailing | targets/jpeg2000-openhtj2k/scripts/hermes_watch.py:1770-1822 | The failure streak is the length of the trailing run of rollbacks, the attempts those outcomes that were not blocked |
| Recovery.RetryOnceThenAbort | targets/jpeg2000-openhtj2k/scripts/hermes_watch.py:1798-1815 | Retry is decided exactly on the first rollback of a run, abort exactly on the later ones, resolved exactly on success |
| Recovery.CarriedStreakAborts | targets/jpeg2000-openhtj2k/scripts/hermes_watch.py:1798-1815 | A manifest that carries a streak gets no retry from rollbacks |
| Recovery.RouteOnlySoftensRetry | targets/jpeg2000-openhtj2k/scripts/hermes_watch.py:624-735 | Routing only turns a retry into a hold or an abort; it stays a retry if and only if no evidence stands against it |
| Recovery.RetryTurned | targets/jpeg2000-openhtj2k/scripts/hermes_watch.py:624-714 | It becomes a hold or an abort by the reason of an escalated follow-up, whatever the conflicts; else a hold if and only if there is a single conflict that is not severe, and an abort for any other conflict |
| Recovery.Workspace.Apply | targets/jpeg2000-openhtj2k/scripts/hermes_watch.py:1825-1845 | An apply that is not verified or has no target file leaves counters and result alone; one that ran stores the policy's decision and counters, written out for each outcome |
| Recovery.Workspace.RouteRecovery | targets/jpeg2000-openhtj2k/scripts/hermes_watch.py:716-735 | Routing takes the decision of the result file, softens it on the evidence, and appends one pending entry to the queue of that decision unless one there has its key, consumed or not; the other queues stay |
| Recovery.Workspace.Consume | targets/jpeg2000-openhtj2k/scripts/hermes_watch.py:872-928 | The consumer takes the first pending entry of the first of the four queues that has one; an entry without its manifest, or a retry that cannot be armed, stays pending |
| Recovery.TakenInOrder | targets/jpeg2000-openhtj2k/scripts/hermes_watch.py:872-890 | The queues are looked at in the order retry, hold, abort, resolved; nothing is taken if and only if all are done |
| Recovery.FirstOfQueue | targets/jpeg2000-openhtj2k/scripts/hermes_watch.py:879-928 | In its queue the first entry that is not done is taken and, unless its manifest is gone, marked done, a retry only when it is armed; the other queues stay |
| Recovery.Workspace.ClosedLoop | targets/jpeg2000-openhtj2k/scripts/hermes_watch.py:1004-1035 | One trip: consume, and for an armed and verified retry apply, route and write back the counters from before |
| Recovery.Workspace.RecursiveChain | targets/jpeg2000-openhtj2k/scripts/hermes_watch.py:1099-1133 | The recursive driver repeats trips while they end in a retry |
| Recovery.RetryCycle | targets/jpeg2000-openhtj2k/scripts/hermes_watch.py:1010-1020 | A trip on a retry entry ends in a retry if and only if it is armed and verified, no evidence stands against it, and either the apply is rolled back on no streak or it lacks its target file over a stored retry |
| Recovery.TripReroutes | targets/jpeg2000-openhtj2k/scripts/hermes_watch.py:872-890 | A trip works if and only if something is pending, and reroutes for the first pending retry only |
| Recovery.TripQueues | targets/jpeg2000-openhtj2k/scripts/hermes_watch.py:1004-1035 | A trip that finds a pending retry consumes it if it can be armed and queues its candidate under the decision it reroutes to, once; the other queues stay |
| Recovery.RearmedOnce | targets/jpeg2000-openhtj2k/scripts/hermes_watch.py:811-815 | Over every run of the commands no queue has two entries with one key, and the retries handed to the bridge are accounted for by the queue: at most one for a candidate |
| Recovery.ChainExact | targets/jpeg2000-openhtj2k/scripts/hermes_watch.py:1099-1133 | What the driver returns and after how many trips, read off the state it starts in: the pending retries in order up to the first that does not end in a retry, then whether another queue has work |
| Recovery.ChainRunsToTheEnd | targets/jpeg2000-openhtj2k/scripts/hermes_watch.py:1099-1133 | It reaches its limit if and only if that many retries are pending and each, on its manifest as it is at the start, ends in a retry |
| Recovery.OneRetryOnly | targets/jpeg2000-openhtj2k/scripts/hermes_watch.py:1099-1107 | When the only pending retry ends in a retry, the second cycle finds none: nothing is returned, unless another queue has work |
| Recovery.ChainStopsAtOnce | targets/jpeg2000-openhtj2k/scripts/hermes_watch.py:1099-1119 | With a streak the driver goes on to a second cycle if and only if the first apply lacks its target file over a stored retry and nothing else stands against it |
| Recovery.GoesOnOverMissingTarget | targets/jpeg2000-openhtj2k/scripts/hermes_watch.py:1837-1845 | A state reached by an apply that is rolled back and routed, on which it does |
| Recovery.ChainIsRun | targets/jpeg2000-openhtj2k/scripts/hermes_watch.py:1099-1103 | The driver is a run of the closed loop, so what holds over runs holds of it |
| Recovery.MissingBlocks | targets/jpeg2000-openhtj2k/scripts/hermes_watch.py:887-894 | While the manifest of the first pending retry is gone, trips change nothing and reroute nothing |
| Recovery.TripKeepsRecords | targets/jpeg2000-openhtj2k/scripts/hermes_watch.py:1010-1028 | A trip leaves the counters of every manifest as they were |
| Recovery.StreakLost | targets/jpeg2000-openhtj2k/scripts/hermes_watch.py:1010-1028 | The decision after a trip is the policy's unless the next apply is rolled back and the trip either rolled back on no streak or ended one |
| Recovery.AbortsTooEarly | targets/jpeg2000-openhtj2k/scripts/hermes_watch.py:1010-1028 | Rollback, route, a trip that succeeds, rollback: aborted where the policy allows a retry |
| Recovery.RetriesOnceMore | targets/jpeg2000-openhtj2k/scripts/hermes_watch.py:1010-1028 | Rollback, route, a blocked apply, a trip that rolls back, rollback: a retry where the policy aborts |
| CrashExcerpt.Metrics.UpdateFromLine | targets/jpeg2000-openhtj2k/scripts/hermes_watch.py:246-280 | `update_from_line` computes the next excerpt |
| CrashExcerpt.Metrics.ReplaceIndex | targets/jpeg2000-openhtj2k/scripts/hermes_watch.py:259-264 | The line given up is the last one with neither summary nor artifact, or the last |
| CrashExcerpt.LineTaken | targets/jpeg2000-openhtj2k/scripts/hermes_watch.py:248-280 | While there is room every crash line is taken in, and every context line after the first crash line; a timeout line on top while there are fewer than twelve; nothing else is, and only crash lines once it is full |
| CrashExcerpt.CrashLineInFull | targets/jpeg2000-openhtj2k/scripts/hermes_watch.py:253-267 | A crash line goes into a full excerpt if and only if it brings a summary or an artifact that no line there has, in place of the last line with neither, or of the last line |
| CrashExcerpt.ExcerptKeeps | targets/jpeg2000-openhtj2k/scripts/hermes_watch.py:246-280 | For every log the excerpt has at most 20 lines, and a summary or artifact on some crash line means one on some retained line |
| CrashExcerpt.SignatureHasBoth | targets/jpeg2000-openhtj2k/scripts/hermes_watch.py:2511-2560 | So the signature has a summary taken from a SUMMARY line, and an artifact path |
| CrashExcerpt.SignatureReads | targets/jpeg2000-openhtj2k/scripts/hermes_watch.py:2511-2560 | It takes the first summary, without one the first runtime error, and the first artifact |
| CrashExcerpt.NothingInvented | targets/jpeg2000-openhtj2k/scripts/hermes_watch.py:246-280 | A retained line is a line of the log |
| CrashExcerpt.GrowsAtTheEnd | targets/jpeg2000-openhtj2k/scripts/hermes_watch.py:246-280 | Until it is full the excerpt only grows at its end |
| CrashIndex.IndexFile.Update | targets/jpeg2000-openhtj2k/scripts/hermes_watch.py:2589-2642 | `update_crash_index`: the new index, the answer, and `is_duplicate` if and only if the fingerprint occurred before |
| CrashIndex.IndexAgrees | targets/jpeg2000-openhtj2k/scripts/hermes_watch.py:2589-2642 | After any sequence of calls each record has the number of calls, the first and last run, and the distinct artifacts in first-seen order |
| RegressionTriggers.Queue.Normalize | targets/jpeg2000-openhtj2k/scripts/hermes_watch.py:6507-6551 | `normalize_regression_triggers` computes the normalised queue |
| RegressionTriggers.Queue.Record | targets/jpeg2000-openhtj2k/scripts/hermes_watch.py:6554-6598 | `record_regression_trigger` computes the recorded queue |
| RegressionTriggers.Queue.SortEntries | targets/jpeg2000-openhtj2k/scripts/hermes_watch.py:6495-6504 | The stable sort by priority and first run, and the ranks |
| RegressionTriggers.NormalizeConserves | targets/jpeg2000-openhtj2k/scripts/hermes_watch.py:6507-6551 | Normalising conserves the sum of the occurrence counts, leaves keys distinct, and puts the queue in priority order with ranks 1 to n |
| RegressionTriggers.RecordCountsOne | targets/jpeg2000-openhtj2k/scripts/hermes_watch.py:6554-6598 | Recording keeps keys unique and raises the sum by exactly one |
| RegressionTriggers.NormalizeIdempotent | targets/jpeg2000-openhtj2k/scripts/hermes_watch.py:6507-6551 | Normalising twice is normalising once if and only if the latest seed coming in under the key of each promoted seed is that seed |
| RegressionTriggers.OrdinaryIdempotent | targets/jpeg2000-openhtj2k/scripts/hermes_watch.py:6489-6492 | So it is when no reason reads like such a key |
| RegressionTriggers.CollidingReason | targets/jpeg2000-openhtj2k/scripts/hermes_watch.py:6489-6492 | A queue of two entries on which normalising twice differs |
| RegressionTriggers.SortAndRank | targets/jpeg2000-openhtj2k/scripts/hermes_watch.py:6495-6504 | Sorting keeps the keys and the sum, and orders and ranks the queue |
| TriggerContents.QueueOrder | targets/jpeg2000-openhtj2k/scripts/hermes_watch.py:6495-6504 | Of two entries the first has the higher priority, or the same and not the later first run in lexicographic order; ranks count from 1 |
| TriggerContents.StringLeIs | targets/jpeg2000-openhtj2k/scripts/hermes_watch.py:6498-6500 | The order on runs is lexicographic |
| TriggerContents.SortIsStable | targets/jpeg2000-openhtj2k/scripts/hermes_watch.py:6495-6504 | Entries with one priority and first run stay in the order they were in |
| TriggerContents.NormalizedHolds | targets/jpeg2000-openhtj2k/scripts/hermes_watch.py:6514-6548 | Each entry of the normalised queue is the first incoming entry with its key, with defaults from its own run, report and reason, the latest seed, the sum of all occurrences and the last sighting of the last entry with the key |
| TriggerContents.NoneLost | targets/jpeg2000-openhtj2k/scripts/hermes_watch.py:6514-6548 | The key of every incoming entry is in the normalised queue |
| TriggerContents.KeysEqual | targets/jpeg2000-openhtj2k/scripts/hermes_watch.py:6489-6492 | Entries with ordinary reasons are merged if and only if they have one reason and, as promotions, one seed |
| TriggerContents.RecordedHolds | targets/jpeg2000-openhtj2k/scripts/hermes_watch.py:6565-6598 | Recording brings the first entry with the trigger's key up to date, or adds one with the priority of its reason, and touches no other |
| TriggerContents.RecordedThere | targets/jpeg2000-openhtj2k/scripts/hermes_watch.py:6565-6598 | The trigger is in the queue afterwards, last seen in this run |
| TriggerContents.PriorityOrder | targets/jpeg2000-openhtj2k/scripts/hermes_watch.py:6471-6480 | The priorities of the four named reasons, and 50 for any other |
| CoverageQuarantine.Corpus.MoveToQuarantine | targets/jpeg2000-openhtj2k/scripts/hermes_watch.py:6364-6376 | One seed moves, is dropped as a duplicate, or moves under its suffixed name |
| CoverageQuarantine.Corpus.Sync | targets/jpeg2000-openhtj2k/scripts/hermes_watch.py:6379-6413 | Coverage holds exactly the preferred names afterwards, and the others have moved in some order, each once |
| CoverageQuarantine.SyncLosesNothing | targets/jpeg2000-openhtj2k/scripts/hermes_watch.py:6401-6406 | When the suffixed names of seeds whose names are taken clash with nothing, every seed of another name is in the quarantine afterwards and every file there is as it was |
| CoverageQuarantine.IntactExactly | targets/jpeg2000-openhtj2k/scripts/hermes_watch.py:6364-6406 | In whatever order the seeds move and however far they have come, every file of the quarantine is as it was if and only if no seed that is, or can be, displaced has a suffixed name held by other contents |
| CoverageQuarantine.MoveLosesNothing | targets/jpeg2000-openhtj2k/scripts/hermes_watch.py:6364-6376 | One move loses nothing if and only if its slot was free, held the same, or what it held is also kept elsewhere |
| CoverageQuarantine.PreferredContents | targets/jpeg2000-openhtj2k/scripts/hermes_watch.py:6390-6396 | With distinct base names every preferred seed ends up with its own content |
| CoverageQuarantine.SecondSyncIsIdle | targets/jpeg2000-openhtj2k/scripts/hermes_watch.py:6379-6413 | A second sync copies nothing and moves nothing |
| CoverageQuarantine.CountsChanges | targets/jpeg2000-openhtj2k/scripts/hermes_watch.py:6390-6396 | With distinct base names the copies counted are those that changed something |
| CoverageQuarantine.PreferredNameOverwritten | targets/jpeg2000-openhtj2k/scripts/hermes_watch.py:6390-6396 | A file with a preferred name and another content is overwritten, not quarantined |

## Left out

- CoverageQuarantine.SyncLosesNothing: one direction, under distinct hashes for distinct contents; the exact condition for the files that were there is `CoverageQuarantine.IntactExactly`.
- Writers.AvxWritersAgree: for components with the sample size and offset of component 0.
- WasmRgba.RowSimd: one component or at least three; with two components of one width and four pixels or more the SIMD form reads a third row that is not there, and where it forms no blocks it is `WasmRgba.RowOfTwo`.
- Recovery.Workspace.RouteRecovery: a candidate's result is the file of its own name; that a manifest without a recorded result falls back to the newest result of any candidate is not part of this model.
- Recovery.Workspace.ClosedLoop: the newest manifest, on which launch, verification, apply and routing work, is the one that was just armed; follow-ups and the review and terminal marks of the other queues are left out.
- ImgCmp.ReadPnmPgx: ASCII files are recognised but their samples are not decoded, and its counters are unbounded instead of 64 bits wide.
- Pnm.PnmStreamReader.GetRow: row offsets are unbounded instead of 64-bit `long`s.
- Refiner.BoundedWork: without the revival of failed entries and the merging of follow-ups, which reset fields on purpose; which matching entry a step picks is left open, so the scheduling weights are not part of this model.
- The JPEG 2000 codec itself: decoded planes and row callbacks are inputs.
- The NEON forms of the kernels, and the grayscale rows of `invoke_decoder_stream`, which repeat `pack_samples` with an offset.
- Allocation sizes and buffering of the writers, such as 32-bit byte counts of very large pictures.
- Big-endian hosts.
- The diff, hunk and semantics guardrails before an apply: only their verdict is used.
- The regular expressions of the watcher: which lines match is an input, with the one law the excerpt needs (trailing blanks do not make a summary up and do not touch an artifact path). Hashes are functions that may be assumed to tell contents apart.
- Timestamps, cooldowns, notification, generated prompts and reports, and the `updated_count` fields.
- The remaining fields of JSON entries, which the steps copy along, and queues in which two entries share a key.
- The fuzz harnesses, the network receiver apart from its pattern check, and command-line parsing.
