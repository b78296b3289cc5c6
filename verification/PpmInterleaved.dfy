/** PPM pictures of one width and without conversion. The streaming decoder hands its rows to the
    interleavers, which clamp (source/apps/decoder/main_dec.cpp); `write_ppm` adds its offset and keeps
    low bytes, or saturates in the AVX2 blocks it forms over the whole buffer
    (source/apps/decoder/dec_utils.hpp). `SameSizeAgrees` and `UnequalHeightsAgree` say exactly when the
    two payloads are the same. */
module PpmInterleaved {
  import opened MachineInts
  import opened ByteRows
  import opened PpmChroma
  import BatchPpm
  import PackKernels
  import PpmInterleave
  import RowSchedule

  // ---------------------------------------------------------------------------
  // Samples
  // ---------------------------------------------------------------------------

  /** One more than the largest stored sample. */
  function Modulus(bpp: nat): nat {
    if bpp == 1 then 0x100 else 0x1_0000
  }

  /** What write_ppm stores of a shifted sample: its low bytes, or in a vector block the saturated
      value. */
  function Kept(bpp: nat, block: bool, v: int): nat {
    if !block then v % Modulus(bpp) else if bpp == 1 then BatchPpm.Narrow8(v) else SatU16(v)
  }

  /** A sample comes out the same shifted and kept as clamped: a negative one when the offset brings it
      to 0, or below 0 in a block; one in range when there is no offset, or when a block saturates it to
      itself; a larger one when what is kept is the largest value. */
  predicate SampleAgrees(bpp: nat, block: bool, maxval: nat, off: nat, v: int32) {
    if v < 0 then (if block then v as int + off <= 0 else (v as int + off) % Modulus(bpp) == 0)
    else if v as int <= maxval then off == 0 || (block && v as int == Modulus(bpp) - 1)
    else if block then maxval == Modulus(bpp) - 1 && (bpp == 1 ==> v as int + off <= 0x7FFF)
    else (v as int + off) % Modulus(bpp) == maxval
  }

  lemma SampleExact(bpp: nat, block: bool, maxval: nat, off: nat, v: int32)
    requires 1 <= bpp <= 2 && 1 <= maxval < Modulus(bpp) && 2 * off <= Modulus(bpp)
    ensures Kept(bpp, block, v as int + off) == ClampTo(v, maxval) <==> SampleAgrees(bpp, block, maxval, off, v)
  {
    if !block && 0 <= v as int <= maxval {
      LowOfShifted(v as int, off, Modulus(bpp));
    }
  }

  lemma LowOfShifted(v: nat, off: nat, m: nat)
    requires v < m && 2 * off <= m
    ensures (v + off) % m == v <==> off == 0
  {
    if v + off < m {
      ModUnique(v + off, m, 0, v + off);
    } else {
      ModUnique(v + off, m, 1, v + off - m);
    }
  }

  // ---------------------------------------------------------------------------
  // Rows
  // ---------------------------------------------------------------------------

  predicate OneWidth(rows: Rows) {
    |rows.y| == |rows.cb| == |rows.cr|
  }

  function Clamped(k: Settings, y: int32, cb: int32, cr: int32): Rgb
    requires k.Valid()
  {
    Rgb(ClampTo(y, k.maxval), ClampTo(cb, k.maxval), ClampTo(cr, k.maxval))
  }

  /** The clamped pixels of a row. */
  function ClampedGroups(k: Settings, rows: Rows): (g: seq<seq<byte>>)
    requires k.Valid() && OneWidth(rows)
    ensures |g| == |rows.y| && Uniform(g, 3 * k.bpp)
  {
    seq(|rows.y|, n requires 0 <= n < |rows.y| => Pixel(k.bpp, Clamped(k, rows.y[n], rows.cb[n], rows.cr[n])))
  }

  lemma ByteSample(v: nat)
    requires v <= 0xFF
    ensures Sample(1, v) == [v as byte]
  {
  }

  /** They are what the interleavers write. */
  lemma ClampedAreInterleaved(k: Settings, rows: Rows)
    requires k.Valid() && OneWidth(rows)
    ensures Flatten(ClampedGroups(k, rows)) ==
      if k.bpp == 1 then PpmInterleave.Row8(rows.y, rows.cb, rows.cr, k.maxval)
      else PpmInterleave.Row16(rows.y, rows.cb, rows.cr, k.maxval)
  {
    var g := ClampedGroups(k, rows);
    if k.bpp == 1 {
      var px := PpmInterleave.Pixels8(rows.y, rows.cb, rows.cr, k.maxval);
      forall n | 0 <= n < |g|
        ensures g[n] == px[n]
      {
        ByteSample(ClampTo(rows.y[n], k.maxval));
        ByteSample(ClampTo(rows.cb[n], k.maxval));
        ByteSample(ClampTo(rows.cr[n], k.maxval));
      }
      assert g == px;
    } else {
      assert g == PpmInterleave.Pixels16(rows.y, rows.cb, rows.cr, k.maxval);
    }
  }

  /** One row of the streaming decoder that needs neither conversion nor upsampling. */
  method WriteInterleavedRow(k: Settings, bitDepth: nat, sse: bool, rows: Rows, out: array<byte>)
    requires k.Valid() && OneWidth(rows) && !k.ycc && 3 * k.bpp * |rows.y| <= out.Length
    requires 1 <= bitDepth <= 16 && (k.bpp == 1 <==> bitDepth <= 8) && k.maxval == PpmInterleave.MaxVal(bitDepth)
    modifies out
    ensures |Flatten(ClampedGroups(k, rows))| == 3 * k.bpp * |rows.y|
    ensures out[..] == Written(old(out[..]), Flatten(ClampedGroups(k, rows)))
  {
    ClampedAreInterleaved(k, rows);
    if k.bpp == 1 {
      if sse {
        PpmInterleave.Interleave8Sse(rows.y, rows.cb, rows.cr, out, bitDepth);
      } else {
        PpmInterleave.Interleave8Scalar(rows.y, rows.cb, rows.cr, out, bitDepth);
      }
    } else if sse {
      PpmInterleave.Interleave16Sse(rows.y, rows.cb, rows.cr, out, bitDepth);
    } else {
      PpmInterleave.Interleave16Scalar(rows.y, rows.cb, rows.cr, out, bitDepth);
    }
  }

  /** The rows of the streaming decoder, one after another. */
  function StreamedRows(k: Settings, pic: Picture, cbStep: nat, crStep: nat): (g: seq<seq<byte>>)
    requires k.Valid() && pic.Valid() && pic.SameWidth() && pic.Subsampled(cbStep, crStep)
    ensures |g| == pic.y.h
  {
    seq(pic.y.h, j requires 0 <= j < pic.y.h => Flatten(ClampedGroups(k, pic.StreamRows(j, cbStep, crStep))))
  }

  lemma StreamedUniform(k: Settings, pic: Picture, cbStep: nat, crStep: nat)
    requires k.Valid() && pic.Valid() && pic.SameWidth() && pic.Subsampled(cbStep, crStep)
    ensures Uniform(StreamedRows(k, pic, cbStep, crStep), 3 * k.bpp * pic.y.w)
  {
    forall j | 0 <= j < pic.y.h
      ensures |StreamedRows(k, pic, cbStep, crStep)[j]| == 3 * k.bpp * pic.y.w
    {
      FlattenLength(ClampedGroups(k, pic.StreamRows(j, cbStep, crStep)), 3 * k.bpp);
    }
  }

  // ---------------------------------------------------------------------------
  // Chroma of another height: write_ppm takes its scalar path
  // ---------------------------------------------------------------------------

  /** Pixel n of a row comes out the same: b is the row write_ppm combines, s the one streamed. */
  predicate LowAgrees(k: Settings, off: nat, b: Rows, s: Rows, n: nat)
    requires k.Valid() && b.Valid() && n < |b.y| && OneWidth(s) && |s.y| == |b.y|
  {
    var m := Modulus(k.bpp);
    && (b.y[n] as int + off) % m == ClampTo(s.y[n], k.maxval)
    && (b.Cb(n) as int + off) % m == ClampTo(s.cb[n], k.maxval)
    && (b.Cr(n) as int + off) % m == ClampTo(s.cr[n], k.maxval)
  }

  lemma LowEqual(bpp: nat, v: int, w: nat)
    requires 1 <= bpp <= 2 && w < Modulus(bpp)
    ensures Sample(bpp, v) == Sample(bpp, w) <==> v % Modulus(bpp) == w
  {
    SampleEqual(bpp, v, w);
  }

  lemma LowPixel(k: Settings, off: nat, b: Rows, s: Rows, n: nat)
    requires k.Valid() && !k.ycc && b.Valid() && n < |b.y| && OneWidth(s) && |s.y| == |b.y|
    ensures BatchGroups(k, off, b)[n] == ClampedGroups(k, s)[n] <==> LowAgrees(k, off, b, s, n)
  {
    var p, q := Batched(k, off, b.y[n], b.Cb(n), b.Cr(n)), Clamped(k, s.y[n], s.cb[n], s.cr[n]);
    PixelEqual(k.bpp, p, q);
    LowEqual(k.bpp, p.r, q.r);
    LowEqual(k.bpp, p.g, q.g);
    LowEqual(k.bpp, p.b, q.b);
  }

  predicate RowLow(k: Settings, off: nat, b: Rows, s: Rows)
    requires k.Valid() && b.Valid() && OneWidth(s) && |s.y| == |b.y|
  {
    forall n :: 0 <= n < |b.y| ==> LowAgrees(k, off, b, s, n)
  }

  lemma LowRow(k: Settings, off: nat, b: Rows, s: Rows)
    requires k.Valid() && !k.ycc && b.Valid() && OneWidth(s) && |s.y| == |b.y|
    ensures Flatten(BatchGroups(k, off, b)) == Flatten(ClampedGroups(k, s)) <==> RowLow(k, off, b, s)
  {
    var p, q := BatchGroups(k, off, b), ClampedGroups(k, s);
    forall n | 0 <= n < |b.y|
      ensures p[n] == q[n] <==> LowAgrees(k, off, b, s, n)
    {
      LowPixel(k, off, b, s, n);
    }
    if RowLow(k, off, b, s) {
      assert p == q;
    }
    if Flatten(p) == Flatten(q) {
      PackKernels.FlattenInjective(p, q, 3 * k.bpp);
    }
  }

  /** Planes of one width but not of one height: the payloads are the same exactly when the low bytes of
      every shifted sample are the clamped sample of the row the streaming decoder holds. */
  lemma UnequalHeightsAgree(k: Settings, off: nat, pic: Picture, cbStep: nat, crStep: nat)
    requires k.Valid() && !k.ycc && pic.Valid() && pic.Subsampled(cbStep, crStep)
    requires pic.SameWidth() && !pic.SameSize()
    ensures Flatten(BatchPicture(k, off, pic)) == Flatten(StreamedRows(k, pic, cbStep, crStep)) <==>
      forall j :: 0 <= j < pic.y.h ==> RowLow(k, off, pic.BatchRows(j), pic.StreamRows(j, cbStep, crStep))
  {
    var p, q := BatchPicture(k, off, pic), StreamedRows(k, pic, cbStep, crStep);
    forall j | 0 <= j < pic.y.h
      ensures p[j] == q[j] <==> RowLow(k, off, pic.BatchRows(j), pic.StreamRows(j, cbStep, crStep))
    {
      LowRow(k, off, pic.BatchRows(j), pic.StreamRows(j, cbStep, crStep));
    }
    if forall j :: 0 <= j < pic.y.h ==> RowLow(k, off, pic.BatchRows(j), pic.StreamRows(j, cbStep, crStep)) {
      assert p == q;
    }
    if Flatten(p) == Flatten(q) {
      BatchUniform(k, off, pic);
      StreamedUniform(k, pic, cbStep, crStep);
      PackKernels.FlattenInjective(p, q, 3 * k.bpp * pic.y.w);
    }
  }

  // ---------------------------------------------------------------------------
  // Planes of one size: write_ppm forms blocks over the whole buffer
  // ---------------------------------------------------------------------------

  function Whole(pic: Picture): Rows {
    Rows(pic.y.data, pic.cb.data, pic.cr.data)
  }

  lemma OneSize(pic: Picture)
    requires pic.Valid() && pic.SameSize()
    ensures OneWidth(Whole(pic)) && pic.Subsampled(1, 1) && |pic.y.data| == pic.y.h * pic.y.w
  {
    RowSchedule.CeilIs(pic.y.h, 1, pic.y.h);
  }

  /** Row j of the pixels, w of them to a row. */
  predicate IsRow(all: seq<seq<byte>>, w: nat, j: nat, row: seq<byte>) {
    var from := j * w;
    from + w <= |all| && row == Flatten(all[from..from + w])
  }

  /** Rows written one after another are all the pixels. */
  lemma {:induction false} Joined(g: seq<seq<byte>>, all: seq<seq<byte>>, w: nat, j: nat) returns (from: nat)
    requires j <= |g| && forall i :: 0 <= i < |g| ==> IsRow(all, w, i, g[i])
    ensures from == j * w && from <= |all| && Flatten(g[..j]) == Flatten(all[..from])
  {
    if j == 0 {
      from := 0;
      assert g[..0] == [] && all[..0] == [];
    } else {
      var before := Joined(g, all, w, j - 1);
      assert IsRow(all, w, j - 1, g[j - 1]);
      from := before + w;
      assert from == j * w;
      FlattenStep(g, j - 1);
      FlattenAppend(all[..before], all[before..from]);
      assert all[..from] == all[..before] + all[before..from];
    }
  }

  lemma RowSlice(p: Plane, j: nat) returns (from: nat)
    requires p.Valid() && j < p.h
    ensures from == j * p.w && from + p.w <= |p.data| && p.Row(j) == p.data[from..from + p.w]
  {
    from := j * p.w;
    MulMonotone(j + 1, p.h, p.w);
  }

  lemma RowHeld(pic: Picture, j: nat)
    requires pic.Valid() && pic.SameSize() && pic.Subsampled(1, 1) && j < pic.y.h
    ensures pic.StreamRows(j, 1, 1) == Rows(pic.y.Row(j), pic.cb.Row(j), pic.cr.Row(j))
  {
    assert j / 1 == j;
  }

  /** The rows held at luma row j are a slice of the planes. */
  lemma HeldSlice(pic: Picture, j: nat) returns (from: nat)
    requires pic.Valid() && pic.SameSize() && pic.Subsampled(1, 1) && j < pic.y.h
    ensures from == j * pic.y.w && from + pic.y.w <= |pic.y.data| == |pic.cb.data| == |pic.cr.data|
    ensures var row, to := pic.StreamRows(j, 1, 1), from + pic.y.w;
      row == Rows(pic.y.data[from..to], pic.cb.data[from..to], pic.cr.data[from..to])
  {
    from := RowSlice(pic.y, j);
    var b := RowSlice(pic.cb, j);
    var r := RowSlice(pic.cr, j);
    RowHeld(pic, j);
  }

  lemma GroupsSlice(k: Settings, whole: Rows, from: nat, to: nat)
    requires k.Valid() && OneWidth(whole) && from <= to <= |whole.y|
    ensures ClampedGroups(k, Rows(whole.y[from..to], whole.cb[from..to], whole.cr[from..to])) ==
        ClampedGroups(k, whole)[from..to]
  {
  }

  lemma RowIs(k: Settings, pic: Picture, j: nat)
    requires k.Valid() && pic.Valid() && pic.SameSize() && pic.Subsampled(1, 1) && OneWidth(Whole(pic)) && j < pic.y.h
    ensures IsRow(ClampedGroups(k, Whole(pic)), pic.y.w, j, Flatten(ClampedGroups(k, pic.StreamRows(j, 1, 1))))
  {
    var from := HeldSlice(pic, j);
    GroupsSlice(k, Whole(pic), from, from + pic.y.w);
  }

  /** The streamed rows are the clamped pixels of the whole buffer. */
  lemma RowsJoin(k: Settings, pic: Picture)
    requires k.Valid() && pic.Valid() && pic.SameSize() && pic.Subsampled(1, 1) && OneWidth(Whole(pic))
    ensures Flatten(StreamedRows(k, pic, 1, 1)) == Flatten(ClampedGroups(k, Whole(pic)))
  {
    var g, all := StreamedRows(k, pic, 1, 1), ClampedGroups(k, Whole(pic));
    forall j | 0 <= j < |g|
      ensures IsRow(all, pic.y.w, j, g[j])
    {
      RowIs(k, pic, j);
    }
    var end := Joined(g, all, pic.y.w, |g|);
    assert g[..|g|] == g && all[..end] == all;
  }

  /** How many of n pixels the vector blocks take. */
  function InBlocks(bpp: nat, n: nat): nat {
    if bpp == 1 then 16 * (n / 16) else 8 * (n / 8)
  }

  /** The pixels write_ppm stores, with or without the AVX2 blocks. */
  function Blocks(k: Settings, off: int32, pic: Picture, avx: bool): (g: seq<seq<byte>>)
    requires k.Valid() && pic.Valid() && pic.SameSize() && OneWidth(Whole(pic))
    ensures |g| == |pic.y.data| && Uniform(g, 3 * k.bpp)
  {
    if k.bpp == 1 then
      if avx then BatchPpm.Avx8(pic.y.data, pic.cb.data, pic.cr.data, off)
      else BatchPpm.Low8(pic.y.data, pic.cb.data, pic.cr.data, off)
    else if avx then BatchPpm.Avx16(pic.y.data, pic.cb.data, pic.cr.data, off)
    else BatchPpm.Low16(pic.y.data, pic.cb.data, pic.cr.data, off)
  }

  /** Pixel i comes out the same. */
  predicate PixelAgrees(k: Settings, off: nat, block: bool, y: int32, cb: int32, cr: int32) {
    && SampleAgrees(k.bpp, block, k.maxval, off, y)
    && SampleAgrees(k.bpp, block, k.maxval, off, cb)
    && SampleAgrees(k.bpp, block, k.maxval, off, cr)
  }

  lemma KeptLow(k: Settings, v: int)
    requires k.Valid()
    ensures Sample(k.bpp, v) == Sample(k.bpp, Kept(k.bpp, false, v))
  {
    SampleEqual(k.bpp, v, v % Modulus(k.bpp));
  }

  lemma KeptBlock8(v: int)
    ensures [BatchPpm.Narrow8(v)] == Sample(1, Kept(1, true, v))
  {
  }

  /** A pixel of the blocks or the tail as kept samples. */
  lemma KeptPixel(k: Settings, off: int32, pic: Picture, avx: bool, i: nat)
    requires k.Valid() && pic.Valid() && pic.SameSize() && OneWidth(Whole(pic)) && i < |pic.y.data|
    ensures var block := avx && i < InBlocks(k.bpp, |pic.y.data|);
      Blocks(k, off, pic, avx)[i] ==
        Pixel(k.bpp, Rgb(Kept(k.bpp, block, pic.y.data[i] as int + off),
                         Kept(k.bpp, block, pic.cb.data[i] as int + off),
                         Kept(k.bpp, block, pic.cr.data[i] as int + off)))
  {
    var y, cb, cr := pic.y.data[i] as int + off, pic.cb.data[i] as int + off, pic.cr.data[i] as int + off;
    if !(avx && i < InBlocks(k.bpp, |pic.y.data|)) {
      KeptLow(k, y);
      KeptLow(k, cb);
      KeptLow(k, cr);
      assert k.bpp == 1 ==>
        Pixel8(LowByte(y), LowByte(cb), LowByte(cr)) == Sample(1, y) + Sample(1, cb) + Sample(1, cr);
    } else if k.bpp == 1 {
      KeptBlock8(y);
      KeptBlock8(cb);
      KeptBlock8(cr);
    }
  }

  lemma PixelExact(k: Settings, off: nat, pic: Picture, avx: bool, i: nat)
    requires k.Valid() && k.maxval >= 1 && 2 * off <= Modulus(k.bpp)
    requires pic.Valid() && pic.SameSize() && OneWidth(Whole(pic)) && i < |pic.y.data|
    ensures Blocks(k, off, pic, avx)[i] == ClampedGroups(k, Whole(pic))[i] <==>
      PixelAgrees(k, off, avx && i < InBlocks(k.bpp, |pic.y.data|), pic.y.data[i], pic.cb.data[i], pic.cr.data[i])
  {
    var block := avx && i < InBlocks(k.bpp, |pic.y.data|);
    var y, cb, cr := pic.y.data[i], pic.cb.data[i], pic.cr.data[i];
    KeptPixel(k, off, pic, avx, i);
    KeptExact(k, off, block, y, cb, cr);
  }

  lemma KeptEqual(bpp: nat, v: nat, w: nat)
    requires 1 <= bpp <= 2 && v < Modulus(bpp) && w < Modulus(bpp)
    ensures Sample(bpp, v) == Sample(bpp, w) <==> v == w
  {
    SampleEqual(bpp, v, w);
  }

  lemma KeptExact(k: Settings, off: nat, block: bool, y: int32, cb: int32, cr: int32)
    requires k.Valid() && k.maxval >= 1 && 2 * off <= Modulus(k.bpp)
    ensures var kept := Rgb(Kept(k.bpp, block, y as int + off), Kept(k.bpp, block, cb as int + off),
                            Kept(k.bpp, block, cr as int + off));
      Pixel(k.bpp, kept) == Pixel(k.bpp, Clamped(k, y, cb, cr)) <==> PixelAgrees(k, off, block, y, cb, cr)
  {
    var r, g, b := Kept(k.bpp, block, y as int + off), Kept(k.bpp, block, cb as int + off),
        Kept(k.bpp, block, cr as int + off);
    var q := Clamped(k, y, cb, cr);
    PixelEqual(k.bpp, Rgb(r, g, b), q);
    KeptEqual(k.bpp, r, q.r);
    KeptEqual(k.bpp, g, q.g);
    KeptEqual(k.bpp, b, q.b);
    SampleExact(k.bpp, block, k.maxval, off, y);
    SampleExact(k.bpp, block, k.maxval, off, cb);
    SampleExact(k.bpp, block, k.maxval, off, cr);
  }

  /** Planes of one size: the payloads are the same exactly when every sample of every pixel comes out
      the same, where the pixels of the full blocks, counted over the whole buffer, are saturated. */
  lemma SameSizeAgrees(k: Settings, off: nat, pic: Picture, avx: bool)
    requires k.Valid() && k.maxval >= 1 && 2 * off <= Modulus(k.bpp) && !k.ycc && pic.Valid() && pic.SameSize()
    ensures OneWidth(Whole(pic)) && pic.Subsampled(1, 1)
    ensures Flatten(Blocks(k, off, pic, avx)) == Flatten(StreamedRows(k, pic, 1, 1)) <==>
      forall i :: 0 <= i < |pic.y.data| ==>
        PixelAgrees(k, off, avx && i < InBlocks(k.bpp, |pic.y.data|), pic.y.data[i], pic.cb.data[i], pic.cr.data[i])
  {
    OneSize(pic);
    var p, q, g := Blocks(k, off, pic, avx), ClampedGroups(k, Whole(pic)), StreamedRows(k, pic, 1, 1);
    RowsJoin(k, pic);
    forall i | 0 <= i < |pic.y.data|
      ensures p[i] == q[i] <==>
        PixelAgrees(k, off, avx && i < InBlocks(k.bpp, |pic.y.data|), pic.y.data[i], pic.cb.data[i], pic.cr.data[i])
    {
      PixelExact(k, off, pic, avx, i);
    }
    if Flatten(p) == Flatten(q) {
      PackKernels.FlattenInjective(p, q, 3 * k.bpp);
    } else {
      assert p != q;
    }
  }

  /** The sample lies in the range of the depth, with or without a sign. */
  predicate InRange(k: Settings, off: nat, v: int32) {
    0 - off <= v as int <= k.maxval - off
  }

  /** In range there is no difference without an offset; with one, only the least value survives. */
  lemma SampleInRange(k: Settings, block: bool, off: nat, v: int32)
    requires k.Valid() && k.maxval >= 1 && 2 * off <= Modulus(k.bpp) && InRange(k, off, v)
    ensures SampleAgrees(k.bpp, block, k.maxval, off, v) <==> off == 0 || v as int == 0 - off
  {
    if v < 0 && !block {
      ModUnique(v as int + off, Modulus(k.bpp), 0, v as int + off);
    }
  }

  /** For planes of one size with samples in the range of the depth, whichever path is compiled: the
      same payload exactly when luma is unsigned or the picture is all at the least value. */
  lemma InRangeAgrees(k: Settings, off: nat, pic: Picture, avx: bool)
    requires k.Valid() && k.maxval >= 1 && 2 * off <= Modulus(k.bpp) && !k.ycc && pic.Valid() && pic.SameSize()
    requires forall i :: 0 <= i < |pic.y.data| ==>
      InRange(k, off, pic.y.data[i]) && InRange(k, off, pic.cb.data[i]) && InRange(k, off, pic.cr.data[i])
    ensures OneWidth(Whole(pic)) && pic.Subsampled(1, 1)
    ensures Flatten(Blocks(k, off, pic, avx)) == Flatten(StreamedRows(k, pic, 1, 1)) <==>
      off == 0 || forall i :: 0 <= i < |pic.y.data| ==>
        pic.y.data[i] as int == 0 - off && pic.cb.data[i] as int == 0 - off && pic.cr.data[i] as int == 0 - off
  {
    SameSizeAgrees(k, off, pic, avx);
    forall i | 0 <= i < |pic.y.data|
      ensures var (y, cb, cr) := (pic.y.data[i], pic.cb.data[i], pic.cr.data[i]);
        PixelAgrees(k, off, avx && i < InBlocks(k.bpp, |pic.y.data|), y, cb, cr) <==>
          off == 0 || (y as int == 0 - off && cb as int == 0 - off && cr as int == 0 - off)
    {
      var block := avx && i < InBlocks(k.bpp, |pic.y.data|);
      SampleInRange(k, block, off, pic.y.data[i]);
      SampleInRange(k, block, off, pic.cb.data[i]);
      SampleInRange(k, block, off, pic.cr.data[i]);
    }
  }
}
