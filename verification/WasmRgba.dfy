/** Decoding straight to 8-bit RGBA (subprojects/src/wrapper.cpp, `invoke_decoder_to_rgba`): the SIMD and
    scalar forms of a row, and what its scaling does to samples of any depth. */
module WasmRgba {
  import opened MachineInts
  import opened Simd
  import opened ByteRows
  import opened WasmPack
  import PpmChroma
  import RowSchedule
  import YCbCr

  // ---------------------------------------------------------------------------
  // Scaling one sample
  // ---------------------------------------------------------------------------

  /** Depth and sign of component 0, which every component is scaled by. */
  datatype Scale = Scale(d: nat, signed: bool) {
    predicate Valid() {
      1 <= d <= 16
    }

    function Down(): nat {
      if d >= 8 then d - 8 else 0
    }

    function Up(): nat {
      if d < 8 then 8 - d else 0
    }

    function Half(): nat {
      if d > 8 then Pow2(d - 9) else 0
    }

    function Offset(): nat {
      if signed && d >= 1 then Pow2(d - 1) else 0
    }

    function Bias(): nat {
      Half() + Offset()
    }
  }

  /** Biased, shifted down, shifted up. */
  function Level(k: Scale, s: int): int {
    (s + k.Bias()) / Pow2(k.Down()) * Pow2(k.Up())
  }

  /** Clamped to 0..255. */
  function Byte(k: Scale, s: int): byte {
    SatU8(Level(k, s))
  }

  /** Neither the sum nor the shifted value leaves the range of `int32_t`. */
  predicate Fits(k: Scale, s: int32) {
    YCbCr.FitsI32(s as int + k.Bias()) && YCbCr.FitsI32(Level(k, s))
  }

  lemma QuotientFits(x: int, p: nat)
    requires YCbCr.FitsI32(x) && p >= 1
    ensures YCbCr.FitsI32(x / p)
  {
    var q := QuotientIs(x, p);
    if x >= 0 {
      QuotientMonotone(0, x, p);
      MulMonotone(1, p, q);
      assert 0 / p == 0 && p * q == q * p;
    } else {
      QuotientMonotone(x, 0, p);
      assert 0 / p == 0;
      MulMonotone(1, p, 0 - x);
      assert p * (0 - x) == 0 - x * p;
      assert (q + 1) * p == q * p + p;
      Below(x, q + 1, p);
    }
  }

  lemma BiasFits(k: Scale)
    requires k.Valid()
    ensures k.Bias() <= 0x1_0000
  {
    Pow2Values();
    if k.d > 8 {
      Pow2Monotone(k.d - 9, 15);
    }
    Pow2Monotone(k.d - 1, 15);
  }

  // ---------------------------------------------------------------------------
  // What the scaling means
  // ---------------------------------------------------------------------------

  /** A sample of this depth, moved up by the offset. */
  predicate InRange(k: Scale, s: int) {
    0 <= s + k.Offset() < Pow2(k.d)
  }

  /** From 8 bits up the level is the sample divided by 2^(d - 8), rounded to the nearest (up at a tie);
      it is a byte but for the last half step, where it is 256 and clamped to 255. */
  lemma RoundsToNearest(k: Scale, s: int)
    requires k.Valid() && k.d >= 8 && InRange(k, s)
    ensures var t, step := s + k.Offset(), Pow2(k.d - 8);
      && 2 * (Level(k, s) * step - t) <= step && 2 * (t - Level(k, s) * step) <= step
      && 0 <= Level(k, s) <= 256 && (Level(k, s) == 256 <==> k.d > 8 && t + k.Half() >= Pow2(k.d))
      && Byte(k, s) == if Level(k, s) == 256 then 255 else Level(k, s)
  {
    var t, step := s + k.Offset(), Pow2(k.d - 8);
    Pow2Add(8, k.d - 8);
    Pow2Values();
    HalfStep(k);
    var q := QuotientIs(t + k.Half(), step);
    LevelDown(k, s, q);
    LevelBounds(q, step, t + k.Half());
  }

  lemma HalfStep(k: Scale)
    requires k.d >= 8
    ensures if k.d == 8 then k.Half() == 0 && Pow2(k.d - 8) == 1 else 2 * k.Half() == Pow2(k.d - 8)
  {
  }

  lemma LevelDown(k: Scale, s: int, q: int)
    requires k.d >= 8 && q == (s + k.Offset() + k.Half()) / Pow2(k.d - 8)
    ensures Level(k, s) == q
  {
    assert Pow2(0) == 1;
  }

  lemma LevelBounds(q: int, step: nat, p: int)
    requires step >= 1 && q * step <= p < q * step + step && 0 <= p < 256 * step + step
    ensures 0 <= q <= 256 && (q == 256 <==> p >= 256 * step)
  {
    Below(q, 257, step);
    Below(-1, q, step);
    if p >= 256 * step {
      Below(255, q, step);
    }
  }

  /** Below 8 bits the level is the sample times 2^(8 - d), so the brightest one is 256 - 2^(8 - d). */
  lemma ScalesUp(k: Scale, s: int)
    requires k.Valid() && k.d < 8 && InRange(k, s)
    ensures Level(k, s) == (s + k.Offset()) * Pow2(8 - k.d) && 0 <= Level(k, s) <= 256 - Pow2(8 - k.d)
    ensures Byte(k, s) == Level(k, s)
    ensures s + k.Offset() == Pow2(k.d) - 1 ==> Level(k, s) == 256 - Pow2(8 - k.d)
  {
    var t, step, limit := s + k.Offset(), Pow2(8 - k.d), Pow2(k.d);
    Pow2Add(k.d, 8 - k.d);
    Pow2Values();
    LevelUp(k, s, t, step);
    MulMonotone(t, limit - 1, step);
    MulMonotone(0, t, step);
    assert (limit - 1) * step == limit * step - step;
  }

  lemma LevelUp(k: Scale, s: int, t: int, step: nat)
    requires k.d < 8 && t == s + k.Offset() && step == Pow2(8 - k.d)
    ensures Level(k, s) == t * step
  {
    assert Pow2(0) == 1 && t / 1 == t;
  }

  /** Brighter samples never come out darker. */
  lemma Monotone(k: Scale, s: int, s': int)
    requires s <= s'
    ensures Byte(k, s) <= Byte(k, s')
  {
    var p := Pow2(k.Down());
    QuotientMonotone(s + k.Bias(), s' + k.Bias(), p);
    MulMonotone((s + k.Bias()) / p, (s' + k.Bias()) / p, Pow2(k.Up()));
  }

  /** Every sample of the depth is scaled without overflow. */
  lemma InRangeFits(k: Scale, s: int32)
    requires k.Valid() && InRange(k, s)
    ensures Fits(k, s)
  {
    BiasFits(k);
    Pow2Monotone(k.d, 16);
    Pow2Values();
    if k.d >= 8 {
      RoundsToNearest(k, s);
    } else {
      ScalesUp(k, s);
    }
  }

  // ---------------------------------------------------------------------------
  // Rows
  // ---------------------------------------------------------------------------

  function Rgba(k: Scale, r: int32, g: int32, b: int32): (p: seq<byte>)
    ensures |p| == 4
  {
    [Byte(k, r), Byte(k, g), Byte(k, b), 255]
  }

  /** The three component rows; with subsampled chroma, pixel x takes chroma sample x >> 1. */
  datatype Rows = Rows(r: seq<int32>, g: seq<int32>, b: seq<int32>, subsamp: bool) {
    function At(x: nat): nat {
      if subsamp then x / 2 else x
    }

    predicate Valid() {
      forall x :: 0 <= x < |r| ==> At(x) < |g| && At(x) < |b|
    }

    function Pixel(k: Scale, x: nat): (p: seq<byte>)
      requires Valid() && x < |r|
      ensures |p| == 4
    {
      Rgba(k, r[x], g[At(x)], b[At(x)])
    }
  }

  function Pixels(k: Scale, rows: Rows): (px: seq<seq<byte>>)
    requires rows.Valid()
    ensures |px| == |rows.r| && Uniform(px, 4)
  {
    seq(|rows.r|, x requires 0 <= x < |rows.r| => rows.Pixel(k, x))
  }

  predicate AllFit(k: Scale, s: seq<int32>) {
    forall x :: 0 <= x < |s| ==> Fits(k, s[x])
  }

  predicate RowsFit(k: Scale, rows: Rows) {
    AllFit(k, rows.r) && AllFit(k, rows.g) && AllFit(k, rows.b)
  }

  /** A grayscale row: the same sample three times. */
  function GrayRows(s: seq<int32>): (rows: Rows)
    ensures rows.Valid()
  {
    Rows(s, s, s, false)
  }

  // ---------------------------------------------------------------------------
  // Four pixels
  // ---------------------------------------------------------------------------

  lemma Unwrapped(k: Scale, s: int32, bias: int)
    requires Fits(k, s) && bias == k.Bias()
    ensures WrapI32(s as int + bias) == s as int + bias
  {
  }

  /** i32x4.add of the bias. */
  method Biased(k: Scale, src: seq<int32>, x: nat) returns (v: I32x4)
    requires k.Valid() && x + 4 <= |src| && AllFit(k, src)
    ensures v.e0 == src[x] as int + k.Bias() && v.e1 == src[x + 1] as int + k.Bias()
    ensures v.e2 == src[x + 2] as int + k.Bias() && v.e3 == src[x + 3] as int + k.Bias()
  {
    BiasFits(k);
    Unwrapped(k, src[x], k.Bias());
    Unwrapped(k, src[x + 1], k.Bias());
    Unwrapped(k, src[x + 2], k.Bias());
    Unwrapped(k, src[x + 3], k.Bias());
    v := AddI32(LoadI32(src, x), SplatI32(k.Bias()));
  }

  /** i32x4.shr_s: no lane changes by wrapping. */
  method Lowered(v: I32x4, down: nat) returns (w: I32x4)
    ensures w.e0 == v.e0 as int / Pow2(down) && w.e1 == v.e1 as int / Pow2(down)
    ensures w.e2 == v.e2 as int / Pow2(down) && w.e3 == v.e3 as int / Pow2(down)
  {
    QuotientFits(v.e0, Pow2(down));
    QuotientFits(v.e1, Pow2(down));
    QuotientFits(v.e2, Pow2(down));
    QuotientFits(v.e3, Pow2(down));
    w := ShrI32(v, down);
  }

  /** i32x4.shl */
  method Raised(v: I32x4, up: nat) returns (w: I32x4)
    requires YCbCr.FitsI32(v.e0 as int * Pow2(up)) && YCbCr.FitsI32(v.e1 as int * Pow2(up))
    requires YCbCr.FitsI32(v.e2 as int * Pow2(up)) && YCbCr.FitsI32(v.e3 as int * Pow2(up))
    ensures w.e0 == v.e0 as int * Pow2(up) && w.e1 == v.e1 as int * Pow2(up)
    ensures w.e2 == v.e2 as int * Pow2(up) && w.e3 == v.e3 as int * Pow2(up)
  {
    w := ShlI32(v, up);
  }

  /** add, shr, shl, max, min: four samples of one component. */
  method ScaledLanes(k: Scale, src: seq<int32>, x: nat) returns (v: I32x4)
    requires k.Valid() && x + 4 <= |src| && AllFit(k, src)
    ensures v == I32x4(Byte(k, src[x]), Byte(k, src[x + 1]), Byte(k, src[x + 2]), Byte(k, src[x + 3]))
  {
    v := Biased(k, src, x);
    v := Lowered(v, k.Down());
    v := Raised(v, k.Up());
    v := YCbCr.ClampU8(v);
  }

  /** Narrowed to the lowest four bytes. */
  method ScaledBytes(k: Scale, src: seq<int32>, x: nat) returns (v: Reg)
    requires k.Valid() && x + 4 <= |src| && AllFit(k, src)
    ensures v[0] == Byte(k, src[x]) && v[1] == Byte(k, src[x + 1]) && v[2] == Byte(k, src[x + 2])
    ensures v[3] == Byte(k, src[x + 3])
  {
    var lanes := ScaledLanes(k, src, x);
    YCbCr.NarrowBytesExact(lanes);
    v := Narrow16(lanes, lanes, lanes, lanes);
  }

  /** i8x16.splat(-1) */
  method FullAlpha() returns (alpha: Reg)
    ensures forall j :: 0 <= j < 16 ==> alpha[j] == 255
  {
    alpha := seq(16, _ => 255);
  }

  const TRIPLE: seq<nat> := [0, 0, 0, 16, 1, 1, 1, 16, 2, 2, 2, 16, 3, 3, 3, 16]
  const ZIP: seq<nat> := [0, 16, 1, 17, 2, 18, 3, 19, 0, 16, 1, 17, 2, 18, 3, 19]
  const ZIP_PAIRS: seq<nat> := [0, 1, 16, 17, 2, 3, 18, 19, 4, 5, 20, 21, 6, 7, 22, 23]

  /** One trip of the grayscale block loop. */
  method GrayBlock(k: Scale, src: seq<int32>, x: nat) returns (v: Reg)
    requires k.Valid() && x + 4 <= |src| && AllFit(k, src)
    ensures v == Run(Pixels(k, GrayRows(src)), x, 4)
  {
    var n8 := ScaledBytes(k, src, x);
    var alpha := FullAlpha();
    v := WasmShuffle(n8, alpha, TRIPLE);
    RunOfPixels(k, GrayRows(src), x);
    FourOf(v, n8[0], n8[0], n8[0], n8[1], n8[1], n8[1], n8[2], n8[2], n8[2], n8[3], n8[3], n8[3]);
  }

  /** rg, ba, rgba: three shuffles. */
  method Zipped(rn: Reg, gn: Reg, bn: Reg) returns (v: Reg)
    ensures v == [rn[0], gn[0], bn[0], 255, rn[1], gn[1], bn[1], 255, rn[2], gn[2], bn[2], 255, rn[3], gn[3], bn[3],
                  255]
  {
    var alpha := FullAlpha();
    var rg := WasmShuffle(rn, gn, ZIP);
    var ba := WasmShuffle(bn, alpha, ZIP);
    v := WasmShuffle(rg, ba, ZIP_PAIRS);
  }

  /** One trip of the color block loop. */
  method ColorBlock(k: Scale, rows: Rows, x: nat) returns (v: Reg)
    requires k.Valid() && rows.Valid() && !rows.subsamp && x + 4 <= |rows.r| && RowsFit(k, rows)
    ensures v == Run(Pixels(k, rows), x, 4)
  {
    assert rows.At(x + 3) == x + 3;
    var rn := ScaledBytes(k, rows.r, x);
    var gn := ScaledBytes(k, rows.g, x);
    var bn := ScaledBytes(k, rows.b, x);
    v := Zipped(rn, gn, bn);
    RunOfPixels(k, rows, x);
    FourOf(v, rn[0], gn[0], bn[0], rn[1], gn[1], bn[1], rn[2], gn[2], bn[2], rn[3], gn[3], bn[3]);
  }

  lemma FourOf(v: seq<byte>, r: byte, g: byte, b: byte, r': byte, g': byte, b': byte,
               r'': byte, g'': byte, b'': byte, r''': byte, g''': byte, b''': byte)
    requires v == [r, g, b, 255, r', g', b', 255, r'', g'', b'', 255, r''', g''', b''', 255]
    ensures v == [r, g, b, 255] + [r', g', b', 255] + [r'', g'', b'', 255] + [r''', g''', b''', 255]
  {
  }

  lemma RunOfPixels(k: Scale, rows: Rows, x: nat)
    requires rows.Valid() && x + 4 <= |rows.r|
    ensures Run(Pixels(k, rows), x, 4) == rows.Pixel(k, x) + rows.Pixel(k, x + 1) + rows.Pixel(k, x + 2) +
        rows.Pixel(k, x + 3)
  {
    RunOfFour(Pixels(k, rows), x);
  }

  // ---------------------------------------------------------------------------
  // The written row, byte by byte
  // ---------------------------------------------------------------------------

  /** Pixel x of the row holds the levels of these samples, red first, and full alpha. */
  predicate Shows(k: Scale, row: seq<byte>, x: nat, r: int32, g: int32, b: int32) {
    && 4 * x + 4 <= |row|
    && row[4 * x] == Byte(k, r) && row[4 * x + 1] == Byte(k, g) && row[4 * x + 2] == Byte(k, b) && row[4 * x + 3] == 255
  }

  lemma RowShows(k: Scale, rows: Rows, before: seq<byte>, x: nat)
    requires rows.Valid() && x < |rows.r| && 4 * |rows.r| <= |before|
    ensures |Flatten(Pixels(k, rows))| == 4 * |rows.r|
    ensures rows.At(x) == if rows.subsamp then x / 2 else x
    ensures Shows(k, Written(before, Flatten(Pixels(k, rows))), x, rows.r[x], rows.g[rows.At(x)], rows.b[rows.At(x)])
  {
    var px := Pixels(k, rows);
    FlattenLength(px, 4);
    FlattenAt(px, 4, x, 0);
    FlattenAt(px, 4, x, 1);
    FlattenAt(px, 4, x, 2);
    FlattenAt(px, 4, x, 3);
  }

  lemma AllShown(k: Scale, rows: Rows, before: seq<byte>)
    requires rows.Valid() && 4 * |rows.r| <= |before|
    ensures |Flatten(Pixels(k, rows))| == 4 * |rows.r|
    ensures forall x :: 0 <= x < |rows.r| ==>
      var i := if rows.subsamp then x / 2 else x;
      i < |rows.g| && i < |rows.b| &&
      Shows(k, Written(before, Flatten(Pixels(k, rows))), x, rows.r[x], rows.g[i], rows.b[i])
  {
    FlattenLength(Pixels(k, rows), 4);
    forall x: nat | x < |rows.r|
      ensures rows.At(x) == if rows.subsamp then x / 2 else x
      ensures Shows(k, Written(before, Flatten(Pixels(k, rows))), x, rows.r[x], rows.g[rows.At(x)], rows.b[rows.At(x)])
    {
      RowShows(k, rows, before, x);
    }
  }

  /** Halved chroma rows are taken where the PPM writers take them, and full ones too. */
  lemma SameColumn(w: nat, wc: nat, x: nat, subsamp: bool)
    requires x < w && w * wc <= 0x1_0000_0000 && wc == if subsamp then RowSchedule.CeilDiv(w, 2) else w
    ensures PpmChroma.Column(x, wc, w) == if subsamp then x / 2 else x
  {
    if subsamp {
      PpmChroma.HalvesAgree(w, wc, x);
    } else {
      PpmChroma.ColumnIs(x, wc, w, x);
      assert x * w <= x * wc < (x + 1) * w;
    }
  }

  /** Every index x / 2 is in the chroma rows exactly when they have at least half of the width, rounded up:
      chroma of a quarter of the width is read past its end. */
  lemma ValidExactly(rows: Rows)
    ensures rows.Valid() <==> var n := if rows.subsamp then RowSchedule.CeilDiv(|rows.r|, 2) else |rows.r|;
      n <= |rows.g| && n <= |rows.b|
  {
    var w := |rows.r|;
    RowSchedule.CeilByDivision(w, 2);
    if w > 0 {
      assert rows.At(w - 1) == if rows.subsamp then (w - 1) / 2 else w - 1;
      assert (w + 1) / 2 == (w - 1) / 2 + 1;
    }
  }

  /** A pixel of the written row, from the chroma samples the PPM writers would take. */
  lemma RowTakes(k: Scale, rows: Rows, before: seq<byte>, x: nat, i: nat)
    requires 4 * |rows.r| <= |before| && x < |rows.r| && i == PpmChroma.Column(x, |rows.g|, |rows.r|)
    requires |rows.g| == |rows.b| == if rows.subsamp then RowSchedule.CeilDiv(|rows.r|, 2) else |rows.r|
    requires |rows.r| * |rows.g| <= 0x1_0000_0000
    ensures rows.Valid() && i < |rows.g| && |Flatten(Pixels(k, rows))| == 4 * |rows.r|
    ensures Shows(k, Written(before, Flatten(Pixels(k, rows))), x, rows.r[x], rows.g[i], rows.b[i])
  {
    ValidExactly(rows);
    SameColumn(|rows.r|, |rows.g|, x, rows.subsamp);
    RowShows(k, rows, before, x);
  }

  // ---------------------------------------------------------------------------
  // The loops
  // ---------------------------------------------------------------------------

  /** One sample of the scalar form. */
  method ScaledSample(k: Scale, s: int32) returns (u: byte)
    requires Fits(k, s)
    ensures u == Byte(k, s)
  {
    var v := (s as int + k.Bias()) / Pow2(k.Down()) * Pow2(k.Up());
    if v < 0 {
      v := 0;
    } else if v > 255 {
      v := 255;
    }
    u := v % 0x100;
  }

  /** One trip of a scalar loop: gray pixels scale one sample, the others three. */
  method ScalarPixel(k: Scale, rows: Rows, gray: bool, x: nat) returns (p: seq<byte>)
    requires rows.Valid() && x < |rows.r| && RowsFit(k, rows) && (gray ==> rows == GrayRows(rows.r))
    ensures p == rows.Pixel(k, x)
  {
    var r := ScaledSample(k, rows.r[x]);
    if gray {
      p := [r, r, r, 255];
    } else {
      var sx := if rows.subsamp then x / 2 else x;
      assert sx == rows.At(x);
      var g := ScaledSample(k, rows.g[sx]);
      var b := ScaledSample(k, rows.b[sx]);
      p := [r, g, b, 255];
    }
  }

  /** The scalar loop, from pixel `from` on. */
  method ScalarLoop(k: Scale, rows: Rows, gray: bool, row: array<byte>, from: nat, ghost before: seq<byte>)
    requires rows.Valid() && RowsFit(k, rows) && (gray ==> rows == GrayRows(rows.r))
    requires from <= |rows.r| && 4 * |rows.r| <= row.Length == |before|
    requires |Flatten(Pixels(k, rows)[..from])| == 4 * from
    requires row[..] == Written(before, Flatten(Pixels(k, rows)[..from]))
    modifies row
    ensures |Flatten(Pixels(k, rows))| == 4 * |rows.r|
    ensures row[..] == Written(before, Flatten(Pixels(k, rows)))
  {
    var x := from;
    ghost var px := Pixels(k, rows);
    while x < |rows.r|
      invariant from <= x <= |rows.r| && |Flatten(px[..x])| == 4 * x
      invariant row[..] == Written(before, Flatten(px[..x]))
    {
      var p := ScalarPixel(k, rows, gray, x);
      PutGroup(row, 4 * x, p, before, px, x);
      x := x + 1;
    }
    assert px[..x] == px;
  }

  /** The block loop; none with subsampled chroma. */
  method BlockLoop(k: Scale, rows: Rows, gray: bool, row: array<byte>, ghost before: seq<byte>) returns (x: nat)
    requires k.Valid() && rows.Valid() && RowsFit(k, rows) && (gray ==> rows == GrayRows(rows.r))
    requires 4 * |rows.r| <= row.Length == |before| && row[..] == before
    modifies row
    ensures x <= |rows.r| && |Flatten(Pixels(k, rows)[..x])| == 4 * x
    ensures row[..] == Written(before, Flatten(Pixels(k, rows)[..x]))
  {
    x := 0;
    ghost var px := Pixels(k, rows);
    YCbCr.NothingYet(before, px);
    if gray || !rows.subsamp {
      while x + 4 <= |rows.r|
        invariant x <= |rows.r| && |Flatten(px[..x])| == 4 * x
        invariant row[..] == Written(before, Flatten(px[..x]))
      {
        var v;
        if gray {
          v := GrayBlock(k, rows.r, x);
        } else {
          v := ColorBlock(k, rows, x);
        }
        PutRun(row, 4 * x, v, before, px, x, 4);
        x := x + 4;
      }
    }
  }

  /** A row of the SIMD form, one component or at least three. */
  method RowSimd(k: Scale, rows: Rows, gray: bool, row: array<byte>)
    requires k.Valid() && rows.Valid() && RowsFit(k, rows) && (gray ==> rows == GrayRows(rows.r))
    requires 4 * |rows.r| <= row.Length
    modifies row
    ensures |Flatten(Pixels(k, rows))| == 4 * |rows.r|
    ensures row[..] == Written(old(row[..]), Flatten(Pixels(k, rows)))
    ensures forall x :: 0 <= x < |rows.r| ==>
      var i := if rows.subsamp then x / 2 else x;
      i < |rows.g| && i < |rows.b| && Shows(k, row[..], x, rows.r[x], rows.g[i], rows.b[i])
  {
    AllShown(k, rows, row[..]);
    var x := BlockLoop(k, rows, gray, row, row[..]);
    ScalarLoop(k, rows, gray, row, x, old(row[..]));
  }

  /** A row of the scalar form. */
  method RowScalar(k: Scale, rows: Rows, gray: bool, row: array<byte>)
    requires k.Valid() && rows.Valid() && RowsFit(k, rows) && (gray ==> rows == GrayRows(rows.r))
    requires 4 * |rows.r| <= row.Length
    modifies row
    ensures |Flatten(Pixels(k, rows))| == 4 * |rows.r|
    ensures row[..] == Written(old(row[..]), Flatten(Pixels(k, rows)))
    ensures forall x :: 0 <= x < |rows.r| ==>
      var i := if rows.subsamp then x / 2 else x;
      i < |rows.g| && i < |rows.b| && Shows(k, row[..], x, rows.r[x], rows.g[i], rows.b[i])
  {
    AllShown(k, rows, row[..]);
    YCbCr.NothingYet(row[..], Pixels(k, rows));
    ScalarLoop(k, rows, gray, row, 0, row[..]);
  }

  /** The pixels of a row of two components (the third row is not looked at): the blue byte is whatever
      was there. */
  function TwoPixels(k: Scale, rows: Rows, before: seq<byte>): (px: seq<seq<byte>>)
    requires rows.Valid() && 4 * |rows.r| <= |before|
    ensures |px| == |rows.r| && Uniform(px, 4)
  {
    seq(|rows.r|, x requires 0 <= x < |rows.r| => [Byte(k, rows.r[x]), Byte(k, rows.g[rows.At(x)]), before[4 * x + 2],
                                                   255])
  }

  /** Pixel x of the row holds the levels of two samples, the blue byte from before, and full alpha. */
  predicate ShowsTwo(k: Scale, before: seq<byte>, row: seq<byte>, x: nat, r: int32, g: int32) {
    && 4 * x + 4 <= |row| == |before|
    && row[4 * x] == Byte(k, r) && row[4 * x + 1] == Byte(k, g) && row[4 * x + 2] == before[4 * x + 2]
    && row[4 * x + 3] == 255
  }

  lemma RowShowsTwo(k: Scale, rows: Rows, before: seq<byte>, x: nat)
    requires rows.Valid() && x < |rows.r| && 4 * |rows.r| <= |before|
    ensures |Flatten(TwoPixels(k, rows, before))| == 4 * |rows.r|
    ensures rows.At(x) == if rows.subsamp then x / 2 else x
    ensures ShowsTwo(k, before, Written(before, Flatten(TwoPixels(k, rows, before))), x, rows.r[x], rows.g[rows.At(x)])
  {
    var px := TwoPixels(k, rows, before);
    FlattenLength(px, 4);
    FlattenAt(px, 4, x, 0);
    FlattenAt(px, 4, x, 1);
    FlattenAt(px, 4, x, 2);
    FlattenAt(px, 4, x, 3);
  }

  lemma AllShownTwo(k: Scale, rows: Rows, before: seq<byte>)
    requires rows.Valid() && 4 * |rows.r| <= |before|
    ensures |Flatten(TwoPixels(k, rows, before))| == 4 * |rows.r|
    ensures forall x :: 0 <= x < |rows.r| ==>
      var i := if rows.subsamp then x / 2 else x;
      i < |rows.g| && ShowsTwo(k, before, Written(before, Flatten(TwoPixels(k, rows, before))), x, rows.r[x], rows.g[i])
  {
    FlattenLength(TwoPixels(k, rows, before), 4);
    forall x: nat | x < |rows.r|
      ensures rows.At(x) == if rows.subsamp then x / 2 else x
      ensures ShowsTwo(k, before, Written(before, Flatten(TwoPixels(k, rows, before))), x, rows.r[x],
                       rows.g[rows.At(x)])
    {
      RowShowsTwo(k, rows, before, x);
    }
  }

  /** Leaving a byte as it is. */
  lemma Skipped(before: seq<byte>, done: seq<byte>)
    requires |done| < |before|
    ensures Written(before, done) == Written(before, done + [before[|done|]])
  {
  }

  /** Two stores, a byte left out, and one more. */
  method PutTwo(row: array<byte>, x: nat, r: byte, g: byte, ghost before: seq<byte>, ghost px: seq<seq<byte>>)
    requires x < |px| && Uniform(px, 4) && 4 * x == |Flatten(px[..x])| && 4 * x + 4 <= row.Length == |before|
    requires px[x] == [r, g, before[4 * x + 2], 255] && row[..] == Written(before, Flatten(px[..x]))
    modifies row
    ensures |Flatten(px[..x + 1])| == 4 * (x + 1)
    ensures row[..] == Written(before, Flatten(px[..x + 1]))
  {
    ghost var done := Flatten(px[..x]);
    Put(row, 4 * x, [r], before, done);
    Put(row, 4 * x + 1, [g], before, done + [r]);
    Skipped(before, done + [r] + [g]);
    Put(row, 4 * x + 3, [255], before, done + [r] + [g] + [before[4 * x + 2]]);
    FlattenStep(px, x);
    assert done + [r] + [g] + [before[4 * x + 2]] + [255] == done + px[x];
  }

  method TwoLoop(k: Scale, rows: Rows, row: array<byte>)
    requires k.Valid() && rows.Valid() && RowsFit(k, rows) && 4 * |rows.r| <= row.Length
    modifies row
    ensures |Flatten(TwoPixels(k, rows, old(row[..])))| == 4 * |rows.r|
    ensures row[..] == Written(old(row[..]), Flatten(TwoPixels(k, rows, old(row[..]))))
  {
    var x := 0;
    ghost var before, px := row[..], TwoPixels(k, rows, row[..]);
    YCbCr.NothingYet(before, px);
    while x < |rows.r|
      invariant x <= |rows.r| && |Flatten(px[..x])| == 4 * x
      invariant row[..] == Written(before, Flatten(px[..x]))
    {
      var sx := if rows.subsamp then x / 2 else x;
      assert sx == rows.At(x);
      var r := ScaledSample(k, rows.r[x]);
      var g := ScaledSample(k, rows.g[sx]);
      PutTwo(row, x, r, g, before, px);
      x := x + 1;
    }
    assert px[..x] == px;
  }

  /** The scalar loop for two components, which both forms run wherever they form no blocks. */
  method RowOfTwo(k: Scale, rows: Rows, row: array<byte>)
    requires k.Valid() && rows.Valid() && RowsFit(k, rows) && 4 * |rows.r| <= row.Length
    modifies row
    ensures forall x :: 0 <= x < |rows.r| ==>
      var i := if rows.subsamp then x / 2 else x;
      i < |rows.g| && ShowsTwo(k, old(row[..]), row[..], x, rows.r[x], rows.g[i])
    ensures row[4 * |rows.r|..] == old(row[4 * |rows.r|..])
  {
    AllShownTwo(k, rows, row[..]);
    TwoLoop(k, rows, row);
  }

  // ---------------------------------------------------------------------------
  // Decoding and converting
  // ---------------------------------------------------------------------------

  /** Decoding a YCbCr image to RGBA and converting it in place: pixel x is the conversion of the scaled
      samples of its three components, with full alpha. */
  lemma ThenConverted(k: Scale, rows: Rows, c: YCbCr.Coef, x: nat)
    requires rows.Valid() && x < |rows.r|
    ensures |Flatten(Pixels(k, rows))| == 4 * |rows.r|
    ensures YCbCr.ConvertedPixels(c, Flatten(Pixels(k, rows)), |rows.r|)[x]
         == YCbCr.Converted(c, Byte(k, rows.r[x]), Byte(k, rows.g[rows.At(x)]), Byte(k, rows.b[rows.At(x)]), 255)
  {
    var px := Pixels(k, rows);
    FlattenLength(px, 4);
    FlattenAt(px, 4, x, 0);
    FlattenAt(px, 4, x, 1);
    FlattenAt(px, 4, x, 2);
    FlattenAt(px, 4, x, 3);
    YCbCr.PixelOf(c, Flatten(px), |rows.r|, x, px[x][0], px[x][1], px[x][2], px[x][3]);
  }

  /** Unsigned 8-bit samples go in as they are. */
  lemma EightBitsAsTheyAre(s: int)
    requires 0 <= s <= 255
    ensures Byte(Scale(8, false), s) == s
  {
    assert Pow2(0) == 1;
  }

  /** The buffer after decoding an unsigned 8-bit YCbCr image to RGBA and converting it in place. */
  function DecodedConverted(rows: Rows, c: YCbCr.Coef): (out: seq<byte>)
    requires rows.Valid()
    ensures |out| == 4 * |rows.r|
  {
    var buf := Flatten(Pixels(Scale(8, false), rows));
    FlattenLength(Pixels(Scale(8, false), rows), 4);
    FlattenLength(YCbCr.ConvertedPixels(c, buf, |rows.r|), 4);
    Written(buf, Flatten(YCbCr.ConvertedPixels(c, buf, |rows.r|)))
  }

  lemma DecodedBytes(rows: Rows, x: nat, i: nat) returns (buf: seq<byte>)
    requires rows.Valid() && x < |rows.r| && i == (if rows.subsamp then x / 2 else x) && i < |rows.g| && i < |rows.b|
    requires 0 <= rows.r[x] <= 255 && 0 <= rows.g[i] <= 255 && 0 <= rows.b[i] <= 255
    ensures buf == Flatten(Pixels(Scale(8, false), rows)) && |buf| == 4 * |rows.r|
    ensures buf[4 * x] == rows.r[x] && buf[4 * x + 1] == rows.g[i] && buf[4 * x + 2] == rows.b[i]
    ensures buf[4 * x + 3] == 255
  {
    var k := Scale(8, false);
    buf := Flatten(Pixels(k, rows));
    FlattenLength(Pixels(k, rows), 4);
    RowShows(k, rows, buf, x);
    assert Written(buf, buf) == buf;
    EightBitsAsTheyAre(rows.r[x]);
    EightBitsAsTheyAre(rows.g[i]);
    EightBitsAsTheyAre(rows.b[i]);
  }

  lemma DecodedInverted(rows: Rows, c: YCbCr.Coef, s: YCbCr.Standard, x: nat, i: nat)
    returns (buf: seq<byte>, out: seq<byte>)
    requires rows.Valid() && x < |rows.r| && i == (if rows.subsamp then x / 2 else x) && i < |rows.g| && i < |rows.b|
    requires 0 <= rows.r[x] <= 255 && 0 <= rows.g[i] <= 255 && 0 <= rows.b[i] <= 255
    requires YCbCr.Known(s) && YCbCr.TableOf(c, s)
    ensures out == DecodedConverted(rows, c) && |buf| == |out| && YCbCr.PixelInverted(s, buf, out, x)
    ensures buf[4 * x] == rows.r[x] && buf[4 * x + 1] == rows.g[i] && buf[4 * x + 2] == rows.b[i]
    ensures buf[4 * x + 3] == 255
  {
    buf := DecodedBytes(rows, x, i);
    YCbCr.BufferInverted(c, s, buf, |rows.r|, x);
    out := Written(buf, Flatten(YCbCr.ConvertedPixels(c, buf, |rows.r|)));
  }

  /** Pixel x of it holds the exact red, green and blue of its luma sample and its chroma samples, with full
      alpha. */
  lemma EightBitsConverted(rows: Rows, c: YCbCr.Coef, s: YCbCr.Standard, x: nat, i: nat)
    requires rows.Valid() && x < |rows.r| && i == (if rows.subsamp then x / 2 else x) && i < |rows.g| && i < |rows.b|
    requires 0 <= rows.r[x] <= 255 && 0 <= rows.g[i] <= 255 && 0 <= rows.b[i] <= 255
    requires YCbCr.Known(s) && YCbCr.TableOf(c, s)
    ensures var out, w := DecodedConverted(rows, c), YCbCr.Inverse(s);
      var y, cb, cr := rows.r[x] as real, rows.g[i] as real - 128.0, rows.b[i] as real - 128.0;
      && YCbCr.Holds(out[4 * x], YCbCr.ExactRed(w, y, cr))
      && YCbCr.Holds(out[4 * x + 1], YCbCr.ExactGreen(w, y, cb, cr))
      && YCbCr.Holds(out[4 * x + 2], YCbCr.ExactBlue(w, y, cb))
      && out[4 * x + 3] == 255
  {
    var buf, out := DecodedInverted(rows, c, s, x, i);
  }
}
