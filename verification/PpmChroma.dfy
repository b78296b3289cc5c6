/** PPM pictures with chroma of another size or in YCbCr: the scalar path of `write_ppm`
    (source/apps/decoder/dec_utils.hpp) and the rows of the streaming decoder
    (source/apps/decoder/main_dec.cpp).

    `UpsamplingExact` says when both pick the chroma sample of the subsampling grid, `PicturesAgree`
    when the two files are the same. */
module PpmChroma {
  import opened MachineInts
  import opened ByteRows
  import PackKernels
  import RowSchedule
  import YCbCr

  // ---------------------------------------------------------------------------
  // Which chroma sample a pixel takes
  // ---------------------------------------------------------------------------

  /** The chroma column of luma column n, from a product in 32 bits; likewise for rows. */
  function Column(n: nat, wc: nat, w0: nat): nat
    requires w0 > 0
  {
    n * wc % 0x1_0000_0000 / w0
  }

  lemma QuotientBelow(p: nat, w: nat, q: nat)
    requires w > 0 && p < q * w
    ensures p / w < q
  {
    var d := p / w;
    ModUnique(p, w, d, p % w);
    if d >= q {
      MulMonotone(q, d, w);
    }
  }

  /** The column exists, even when the product wraps. */
  lemma ColumnInRange(n: nat, wc: nat, w0: nat)
    requires n < w0 && wc >= 1
    ensures Column(n, wc, w0) < wc
  {
    MulMonotone(n, w0 - 1, wc);
    assert (w0 - 1) * wc == w0 * wc - wc;
    assert n * wc % 0x1_0000_0000 <= n * wc;
    QuotientBelow(n * wc % 0x1_0000_0000, w0, wc);
  }

  /** Without wrapping, the column is k when n * wc lies in the k-th run of w0. */
  lemma ColumnIs(n: nat, wc: nat, w0: nat, k: nat)
    requires w0 > 0 && n < w0 && w0 * wc <= 0x1_0000_0000 && wc >= 1
    ensures Column(n, wc, w0) == k <==> k * w0 <= n * wc < (k + 1) * w0
  {
    var p := n * wc;
    MulMonotone(n, w0 - 1, wc);
    assert (w0 - 1) * wc == w0 * wc - wc;
    ModUnique(p, 0x1_0000_0000, 0, p);
    var q := p / w0;
    ModUnique(p, w0, q, p % w0);
    assert (q + 1) * w0 == q * w0 + w0 && (k + 1) * w0 == k * w0 + w0;
    if q < k {
      MulMonotone(q + 1, k, w0);
    } else if q > k {
      MulMonotone(k + 1, q, w0);
    }
  }

  /** Column n / xr is taken: the pixels of one chroma sample are the xr pixels it was made from. */
  predicate OnGrid(n: nat, wc: nat, w0: nat, xr: nat)
    requires w0 > 0 && xr > 0
  {
    Column(n, wc, w0) == n / xr
  }

  /** n / xr * w0 <= n * wc: the column is not before the one of the grid. */
  lemma NotBefore(n: nat, wc: nat, w0: nat, xr: nat, k: nat)
    requires k * xr <= n && w0 <= wc * xr
    ensures k * w0 <= n * wc
  {
    MulMonotone(k * xr, n, wc);
    MulMonotone(w0, wc * xr, k);
    assert k * xr * wc == wc * xr * k;
  }

  lemma LastColumn(n: nat, wc: nat, w0: nat)
    requires n < w0 && wc >= 1
    ensures n * wc < wc * w0
  {
    MulMonotone(n, w0 - 1, wc);
    assert (w0 - 1) * wc == w0 * wc - wc;
  }

  /** (k + 1) * (w0 + r) - wc stays below (k + 1) * w0 for a deficit r of at most one. */
  lemma NotAfter(n: nat, wc: nat, w0: nat, xr: nat, k: nat)
    requires n < (k + 1) * xr && k + 1 < wc && w0 <= wc * xr <= w0 + 1
    ensures n * wc < (k + 1) * w0
  {
    var q, r := (k + 1) * xr, wc * xr - w0;
    MulMonotone(n, q - 1, wc);
    assert (q - 1) * wc == q * wc - wc;
    assert q * wc == (k + 1) * (wc * xr);
    assert (k + 1) * (w0 + r) == (k + 1) * w0 + (k + 1) * r;
    MulMonotone(r, 1, k + 1);
    assert r * (k + 1) == (k + 1) * r;
  }

  lemma Within(n: nat, wc: nat, w0: nat, xr: nat, k: nat)
    requires n < w0 <= wc * xr && k * xr <= n < k * xr + xr && k < wc && (wc * xr <= w0 + 1 || wc == 1)
    ensures k * w0 <= n * wc < (k + 1) * w0
  {
    NotBefore(n, wc, w0, xr, k);
    if k + 1 == wc {
      LastColumn(n, wc, w0);
    } else {
      assert (k + 1) * xr == k * xr + xr;
      NotAfter(n, wc, w0, xr, k);
    }
  }

  lemma GridIndex(n: nat, wc: nat, w0: nat, xr: nat) returns (k: nat)
    requires 0 < xr && n < w0 && w0 <= wc * xr && (wc * xr <= w0 + 1 || wc == 1)
    ensures k == n / xr && k * w0 <= n * wc < (k + 1) * w0
  {
    var q := QuotientIs(n, xr);
    Below(-1, q, xr);
    Below(q, wc, xr);
    k := q;
    Within(n, wc, w0, xr, k);
  }

  lemma GridColumn(n: nat, wc: nat, w0: nat, xr: nat)
    requires 0 < xr && n < w0 && wc >= 1 && w0 * wc <= 0x1_0000_0000 && w0 <= wc * xr && (wc * xr <= w0 + 1 || wc == 1)
    ensures OnGrid(n, wc, w0, xr)
  {
    var k := GridIndex(n, wc, w0, xr);
    ColumnIs(n, wc, w0, k);
  }

  lemma OffGrid(wc: nat, w0: nat, xr: nat) returns (n: nat)
    requires 0 < xr && w0 > 0 && w0 * wc <= 0x1_0000_0000 && (wc - 1) * xr < w0 <= wc * xr
    requires wc * xr - w0 >= 2 && wc >= 2
    ensures n < w0 && !OnGrid(n, wc, w0, xr)
  {
    var k, r := wc - 1, wc * xr - w0;
    assert k * xr >= xr by {
      MulMonotone(1, k, xr);
    }
    assert wc * xr == k * xr + xr;
    n := k * xr - 1;
    assert k * xr - 1 == (k - 1) * xr + (xr - 1);
    ModUnique(n, xr, k - 1, xr - 1);
    assert k * w0 <= n * wc by {
      assert n * wc == k * (wc * xr) - wc;
      assert k * (wc * xr) == k * w0 + k * r;
      MulMonotone(2, r, k);
      assert r * k == k * r;
    }
    assert (k - 1 + 1) * w0 == k * w0;
    ColumnIs(n, wc, w0, k - 1);
  }

  /** For a component subsampled by xr (and sizes whose product fits 32 bits) the sample of the grid is
      taken everywhere exactly when the last group is full or one short, or there is only one: always
      for xr up to 2, and not in general above. */
  lemma UpsamplingExact(w0: nat, wc: nat, xr: nat)
    requires xr >= 1 && w0 >= 1 && wc == RowSchedule.CeilDiv(w0, xr) && w0 * wc <= 0x1_0000_0000
    ensures wc * xr >= w0
    ensures (forall n: nat :: n < w0 ==> OnGrid(n, wc, w0, xr)) <==> wc * xr - w0 <= 1 || wc == 1
  {
    RowSchedule.CeilBounds(w0, xr);
    if wc * xr - w0 <= 1 || wc == 1 {
      forall n: nat | n < w0
        ensures OnGrid(n, wc, w0, xr)
      {
        GridColumn(n, wc, w0, xr);
      }
    } else {
      var n := OffGrid(wc, w0, xr);
    }
  }

  /** The column is the proportional one exactly as long as the product fits 32 bits. */
  lemma ColumnExact(n: nat, wc: nat, w0: nat)
    requires 0 < w0 <= 0x1_0000_0000
    ensures Column(n, wc, w0) == n * wc / w0 <==> n * wc < 0x1_0000_0000
  {
    var p := n * wc;
    if p >= 0x1_0000_0000 {
      var q := p / w0;
      ModUnique(p, w0, q, p % w0);
      QuotientBelow(p % 0x1_0000_0000, w0, q);
    }
  }

  /** With a factor of 2 it is x >> 1, which is what the WebAssembly wrapper takes. */
  lemma HalvesAgree(w0: nat, wc: nat, n: nat)
    requires wc == RowSchedule.CeilDiv(w0, 2) && w0 * wc <= 0x1_0000_0000 && n < w0
    ensures Column(n, wc, w0) == n / 2
  {
    RowSchedule.CeilBounds(w0, 2);
    UpsamplingExact(w0, wc, 2);
    assert OnGrid(n, wc, w0, 2);
  }

  // ---------------------------------------------------------------------------
  // Pixels
  // ---------------------------------------------------------------------------

  /** What the writers know about the picture; no conversion without coefficients. */
  datatype Settings = Settings(ycc: bool, coef: YCbCr.Coef, maxval: nat, bpp: nat, cbCenter: int32, crCenter: int32) {
    predicate Valid() {
      1 <= bpp <= 2 && maxval <= (if bpp == 1 then 0xFF else 0xFFFF)
    }
  }

  datatype Rgb = Rgb(r: int, g: int, b: int)

  /** The converted channels before clamping. */
  function Channels(k: Settings, y: int32, cb: int32, cr: int32): Rgb {
    var x, z := cb as int - k.cbCenter, cr as int - k.crCenter;
    Rgb(YCbCr.Red(k.coef, y, z), YCbCr.Green(k.coef, y, x, z), YCbCr.Blue(k.coef, y, x))
  }

  /** Nothing leaves the range of `int32_t` on the way. */
  predicate Defined(k: Settings, off: nat, y: int32, cb: int32, cr: int32) {
    var x, z := cb as int - k.cbCenter, cr as int - k.crCenter;
    if k.ycc then YCbCr.FitsI32(x) && YCbCr.FitsI32(z) && YCbCr.NoChannelOverflow(k.coef, y, x, z)
    else YCbCr.FitsI32(y as int + off) && YCbCr.FitsI32(cb as int + off) && YCbCr.FitsI32(cr as int + off)
  }

  /** Samples of depth 16 or less never do. */
  lemma InRangeDefined(k: Settings, s: YCbCr.Standard, d: nat, off: nat, y: int32, cb: int32, cr: int32)
    requires k.ycc && YCbCr.TableOf(k.coef, s) && 1 <= d <= 16 && 0 - Pow2(d - 1) <= y < Pow2(d)
    requires YCbCr.InChroma(cb as int - k.cbCenter, d) && YCbCr.InChroma(cr as int - k.crCenter, d)
    ensures Defined(k, off, y, cb, cr)
  {
    YCbCr.OverflowDepth(k.coef, s, d);
    Pow2Monotone(d - 1, 15);
    Pow2Values();
  }

  /** A pixel of the streaming rows: their offset is 0 for a PPM. */
  function Streamed(k: Settings, y: int32, cb: int32, cr: int32): Rgb {
    if k.ycc then
      var v := Channels(k, y, cb, cr);
      Rgb(YCbCr.StreamChannel(v.r, k.maxval), YCbCr.StreamChannel(v.g, k.maxval), YCbCr.StreamChannel(v.b, k.maxval))
    else Rgb(y, cb, cr)
  }

  /** A pixel of write_ppm, whose offset is that of signed luma. */
  function Batched(k: Settings, off: nat, y: int32, cb: int32, cr: int32): Rgb {
    if k.ycc then
      var v := Channels(k, y, cb, cr);
      Rgb(YCbCr.BatchChannel(v.r, k.maxval, off), YCbCr.BatchChannel(v.g, k.maxval, off),
          YCbCr.BatchChannel(v.b, k.maxval, off))
    else Rgb(y as int + off, cb as int + off, cr as int + off)
  }

  function Sample(bpp: nat, v: int): (s: seq<byte>)
    requires 1 <= bpp <= 2
    ensures |s| == bpp
  {
    if bpp == 1 then [LowByte(v)] else Be(v)
  }

  function Pixel(bpp: nat, p: Rgb): (s: seq<byte>)
    requires 1 <= bpp <= 2
    ensures |s| == 3 * bpp
  {
    Sample(bpp, p.r) + Sample(bpp, p.g) + Sample(bpp, p.b)
  }

  lemma SampleEqual(bpp: nat, v: int, w: int)
    requires 1 <= bpp <= 2
    ensures Sample(bpp, v) == Sample(bpp, w) <==>
      v % (if bpp == 1 then 0x100 else 0x1_0000) == w % (if bpp == 1 then 0x100 else 0x1_0000)
  {
    if bpp == 2 {
      PackKernels.LowBits(v, w);
      assert Be(v)[0] == HighByte(v) && Be(v)[1] == LowByte(v) && Be(w)[0] == HighByte(w) && Be(w)[1] == LowByte(w);
    } else {
      assert [LowByte(v)][0] == LowByte(v) && [LowByte(w)][0] == LowByte(w);
    }
  }

  lemma PixelEqual(bpp: nat, p: Rgb, q: Rgb)
    requires 1 <= bpp <= 2
    ensures Pixel(bpp, p) == Pixel(bpp, q) <==>
      && Sample(bpp, p.r) == Sample(bpp, q.r) && Sample(bpp, p.g) == Sample(bpp, q.g)
      && Sample(bpp, p.b) == Sample(bpp, q.b)
  {
    if Pixel(bpp, p) == Pixel(bpp, q) {
      assert Sample(bpp, p.r) == Pixel(bpp, p)[..bpp] && Sample(bpp, q.r) == Pixel(bpp, q)[..bpp];
      assert Sample(bpp, p.g) == Pixel(bpp, p)[bpp..2 * bpp] && Sample(bpp, q.g) == Pixel(bpp, q)[bpp..2 * bpp];
      assert Sample(bpp, p.b) == Pixel(bpp, p)[2 * bpp..] && Sample(bpp, q.b) == Pixel(bpp, q)[2 * bpp..];
    }
  }

  /** Far enough out to be clamped to the same end by both. */
  predicate SameEnd(v: int, maxval: nat, off: nat) {
    v <= 0 - off || v >= maxval
  }

  /** The offset does not show in this pixel. */
  predicate SamePixel(k: Settings, off: nat, y: int32, cb: int32, cr: int32) {
    off == 0 ||
    (k.ycc &&
     var v := Channels(k, y, cb, cr);
     SameEnd(v.r, k.maxval, off) && SameEnd(v.g, k.maxval, off) && SameEnd(v.b, k.maxval, off))
  }

  lemma ChannelEqual(bpp: nat, v: int, maxval: nat, off: nat)
    requires 1 <= bpp <= 2 && maxval <= (if bpp == 1 then 0xFF else 0xFFFF) && off <= maxval
    ensures Sample(bpp, YCbCr.BatchChannel(v, maxval, off)) == Sample(bpp, YCbCr.StreamChannel(v, maxval)) <==>
      off == 0 || SameEnd(v, maxval, off)
  {
    YCbCr.BatchStreamChannel(v, maxval, off);
    SampleEqual(bpp, YCbCr.BatchChannel(v, maxval, off), YCbCr.StreamChannel(v, maxval));
  }

  lemma ShiftedEqual(bpp: nat, v: int, off: nat)
    requires 1 <= bpp <= 2 && off <= (if bpp == 1 then 0xFF else 0xFFFF)
    ensures Sample(bpp, v + off) == Sample(bpp, v) <==> off == 0
  {
    SampleEqual(bpp, v + off, v);
  }

  lemma PixelsAgree(k: Settings, off: nat, y: int32, cb: int32, cr: int32)
    requires k.Valid() && off <= k.maxval
    ensures Pixel(k.bpp, Batched(k, off, y, cb, cr)) == Pixel(k.bpp, Streamed(k, y, cb, cr)) <==>
      SamePixel(k, off, y, cb, cr)
  {
    PixelEqual(k.bpp, Batched(k, off, y, cb, cr), Streamed(k, y, cb, cr));
    if k.ycc {
      var v := Channels(k, y, cb, cr);
      ChannelEqual(k.bpp, v.r, k.maxval, off);
      ChannelEqual(k.bpp, v.g, k.maxval, off);
      ChannelEqual(k.bpp, v.b, k.maxval, off);
    } else {
      ShiftedEqual(k.bpp, y, off);
      ShiftedEqual(k.bpp, cb, off);
      ShiftedEqual(k.bpp, cr, off);
    }
  }

  // ---------------------------------------------------------------------------
  // Rows
  // ---------------------------------------------------------------------------

  /** A luma row and the chroma rows that go with it. */
  datatype Rows = Rows(y: seq<int32>, cb: seq<int32>, cr: seq<int32>) {
    predicate Valid() {
      |y| > 0 ==> |cb| > 0 && |cr| > 0
    }

    function Cb(n: nat): int32
      requires Valid() && n < |y|
    {
      ColumnInRange(n, |cb|, |y|);
      cb[Column(n, |cb|, |y|)]
    }

    function Cr(n: nat): int32
      requires Valid() && n < |y|
    {
      ColumnInRange(n, |cr|, |y|);
      cr[Column(n, |cr|, |y|)]
    }
  }

  function StreamGroups(k: Settings, rows: Rows): (g: seq<seq<byte>>)
    requires k.Valid() && rows.Valid()
    ensures |g| == |rows.y| && Uniform(g, 3 * k.bpp)
  {
    seq(|rows.y|, n requires 0 <= n < |rows.y| => Pixel(k.bpp, Streamed(k, rows.y[n], rows.Cb(n), rows.Cr(n))))
  }

  function BatchGroups(k: Settings, off: nat, rows: Rows): (g: seq<seq<byte>>)
    requires k.Valid() && rows.Valid()
    ensures |g| == |rows.y| && Uniform(g, 3 * k.bpp)
  {
    seq(|rows.y|, n requires 0 <= n < |rows.y| => Pixel(k.bpp, Batched(k, off, rows.y[n], rows.Cb(n), rows.Cr(n))))
  }

  /** Integers within t of the exact red, green and blue of luma y with chroma differences x and z. */
  predicate NearExact(s: YCbCr.Standard, y: int, x: int, z: int, v: Rgb, t: real)
    requires YCbCr.Known(s)
  {
    var w := YCbCr.Inverse(s);
    && YCbCr.Abs(v.r as real - YCbCr.ExactRed(w, y as real, z as real)) <= t
    && YCbCr.Abs(v.g as real - YCbCr.ExactGreen(w, y as real, x as real, z as real)) <= t
    && YCbCr.Abs(v.b as real - YCbCr.ExactBlue(w, y as real, x as real)) <= t
  }

  /** For a picture of depth d: half a level and 9 * 2^d / 2^15. */
  function DepthError(d: nat): real {
    0.5 + 9.0 * (Pow2(d) as real / Pow2(15) as real)
  }

  /** The converted channels of one pixel, before clamping. */
  lemma ChannelsNear(k: Settings, s: YCbCr.Standard, d: nat, y: int32, cb: int32, cr: int32) returns (v: Rgb)
    requires YCbCr.Known(s) && YCbCr.TableOf(k.coef, s) && 1 <= d
    requires YCbCr.InChroma(cb as int - k.cbCenter, d) && YCbCr.InChroma(cr as int - k.crCenter, d)
    ensures v == Channels(k, y, cb, cr)
    ensures NearExact(s, y, cb as int - k.cbCenter, cr as int - k.crCenter, v, DepthError(d))
  {
    v := Channels(k, y, cb, cr);
    YCbCr.DepthTolerance(k.coef, s, d, y, cb as int - k.cbCenter, cr as int - k.crCenter);
  }

  /** The bytes of clamped channels: red, green, blue. */
  function Bytes(k: Settings, v: Rgb, lo: int, hi: int, off: int): seq<byte>
    requires k.Valid()
  {
    Sample(k.bpp, Clamp(v.r, lo, hi) + off) + Sample(k.bpp, Clamp(v.g, lo, hi) + off) +
    Sample(k.bpp, Clamp(v.b, lo, hi) + off)
  }

  lemma PixelBytes(k: Settings, off: nat, rows: Rows, n: nat)
    requires k.Valid() && k.ycc && off <= k.maxval && rows.Valid() && n < |rows.y|
    ensures StreamGroups(k, rows)[n] == Bytes(k, Channels(k, rows.y[n], rows.Cb(n), rows.Cr(n)), 0, k.maxval, 0)
    ensures BatchGroups(k, off, rows)[n] ==
      Bytes(k, Channels(k, rows.y[n], rows.Cb(n), rows.Cr(n)), 0 - off, k.maxval - off, off)
  {
    var v := Channels(k, rows.y[n], rows.Cb(n), rows.Cr(n));
    assert Clamp(v.r, 0, k.maxval) + 0 == Clamp(v.r, 0, k.maxval);
    assert Clamp(v.g, 0, k.maxval) + 0 == Clamp(v.g, 0, k.maxval);
    assert Clamp(v.b, 0, k.maxval) + 0 == Clamp(v.b, 0, k.maxval);
  }

  /** Pixel n of a converted row, in either writer, holds red, green and blue in this order: integers v near
      the exact inverse transform, with the first chroma row as the blue difference and the second as the red
      one, clamped to the range of the samples (and shifted by the offset of signed luma in write_ppm). */
  lemma ConvertedPixel(k: Settings, s: YCbCr.Standard, d: nat, off: nat, rows: Rows, n: nat, cb: int32, cr: int32)
    returns (v: Rgb)
    requires k.Valid() && k.ycc && YCbCr.Known(s) && YCbCr.TableOf(k.coef, s) && 1 <= d && off <= k.maxval
    requires rows.Valid() && n < |rows.y|
    requires Column(n, |rows.cb|, |rows.y|) < |rows.cb| && cb == rows.cb[Column(n, |rows.cb|, |rows.y|)]
    requires Column(n, |rows.cr|, |rows.y|) < |rows.cr| && cr == rows.cr[Column(n, |rows.cr|, |rows.y|)]
    requires YCbCr.InChroma(cb as int - k.cbCenter, d) && YCbCr.InChroma(cr as int - k.crCenter, d)
    ensures NearExact(s, rows.y[n], cb as int - k.cbCenter, cr as int - k.crCenter, v, DepthError(d))
    ensures StreamGroups(k, rows)[n] == Bytes(k, v, 0, k.maxval, 0)
    ensures BatchGroups(k, off, rows)[n] == Bytes(k, v, 0 - off, k.maxval - off, off)
  {
    v := ChannelsNear(k, s, d, rows.y[n], cb, cr);
    PixelBytes(k, off, rows, n);
  }

  predicate RowDefined(k: Settings, off: nat, rows: Rows)
    requires rows.Valid()
  {
    forall n :: 0 <= n < |rows.y| ==> Defined(k, off, rows.y[n], rows.Cb(n), rows.Cr(n))
  }

  /** Stores three bytes, or six: the next pixel behind `done` and the first n. */
  method PutPixel(bpp: nat, p: Rgb, out: array<byte>, at: nat, ghost before: seq<byte>, ghost done: seq<byte>,
                  ghost g: seq<seq<byte>>, ghost n: nat)
    requires 1 <= bpp <= 2 && Uniform(g, 3 * bpp) && n < |g| && g[n] == Pixel(bpp, p)
    requires at == |done + Flatten(g[..n])| <= |before| && |done| + |Flatten(g)| <= out.Length == |before|
    requires out[..] == Written(before, done + Flatten(g[..n]))
    modifies out
    ensures at + 3 * bpp == |done + Flatten(g[..n + 1])| && |done + Flatten(g[..n + 1])| <= |before|
    ensures out[..] == Written(before, done + Flatten(g[..n + 1]))
  {
    StepFits(g, 3 * bpp, n);
    ghost var d := done + Flatten(g[..n]);
    Put(out, at, Sample(bpp, p.r), before, d);
    Put(out, at + bpp, Sample(bpp, p.g), before, d + Sample(bpp, p.r));
    Put(out, at + 2 * bpp, Sample(bpp, p.b), before, d + Sample(bpp, p.r) + Sample(bpp, p.g));
    FlattenStep(g, n);
    assert d + Sample(bpp, p.r) + Sample(bpp, p.g) + Sample(bpp, p.b) == done + Flatten(g[..n + 1]);
  }

  /** The body of the streaming loop. */
  method StreamPixel(k: Settings, y: int32, cb: int32, cr: int32) returns (p: Rgb)
    requires Defined(k, 0, y, cb, cr)
    ensures p == Streamed(k, y, cb, cr)
  {
    if k.ycc {
      var x, z := cb as int - k.cbCenter, cr as int - k.crCenter;
      var r := y + (k.coef.crToR as int * z + 8192) / 16384;
      var g := y - (k.coef.cbToG as int * x + k.coef.crToG as int * z + 8192) / 16384;
      var b := y + (k.coef.cbToB as int * x + 8192) / 16384;
      p := Rgb(if r < 0 then 0 else if r > k.maxval then k.maxval else r,
               if g < 0 then 0 else if g > k.maxval then k.maxval else g,
               if b < 0 then 0 else if b > k.maxval then k.maxval else b);
    } else {
      p := Rgb(y, cb, cr);
    }
  }

  /** One trip of the loop, up to its stores. */
  method StreamAt(k: Settings, rows: Rows, n: nat) returns (p: Rgb)
    requires k.Valid() && rows.Valid() && RowDefined(k, 0, rows) && n < |rows.y|
    ensures Pixel(k.bpp, p) == StreamGroups(k, rows)[n]
  {
    p := StreamPixel(k, rows.y[n], rows.Cb(n), rows.Cr(n));
  }

  method StreamLoop(k: Settings, rows: Rows, out: array<byte>, from: nat, ghost before: seq<byte>,
                    ghost done: seq<byte>)
    requires k.Valid() && rows.Valid() && RowDefined(k, 0, rows)
    requires from == |done| && |done| + |Flatten(StreamGroups(k, rows))| <= out.Length == |before|
    requires out[..] == Written(before, done)
    modifies out
    ensures |done + Flatten(StreamGroups(k, rows))| <= |before|
    ensures out[..] == Written(before, done + Flatten(StreamGroups(k, rows)))
  {
    var n, at := 0, from;
    ghost var g := StreamGroups(k, rows);
    assert done + Flatten(g[..0]) == done;
    while n < |rows.y|
      invariant 0 <= n <= |rows.y| && at == |done + Flatten(g[..n])| <= |before|
      invariant out[..] == Written(before, done + Flatten(g[..n]))
    {
      var p := StreamAt(k, rows, n);
      PutPixel(k.bpp, p, out, at, before, done, g, n);
      at := at + 3 * k.bpp;
      n := n + 1;
    }
    assert g[..n] == g;
  }

  /** One converted or upsampled row of the streaming decoder; rows of one width that need no
      conversion go to the interleavers instead. */
  method WriteStreamRow(k: Settings, rows: Rows, out: array<byte>)
    requires k.Valid() && rows.Valid() && RowDefined(k, 0, rows) && |Flatten(StreamGroups(k, rows))| <= out.Length
    requires k.ycc || |rows.cb| != |rows.y| || |rows.cr| != |rows.y|
    modifies out
    ensures out[..] == Written(old(out[..]), Flatten(StreamGroups(k, rows)))
  {
    StreamLoop(k, rows, out, 0, out[..], []);
    assert [] + Flatten(StreamGroups(k, rows)) == Flatten(StreamGroups(k, rows));
  }

  /** The pixels of a row take this many bytes. */
  lemma RowSize(k: Settings, off: nat, rows: Rows)
    requires k.Valid() && rows.Valid()
    ensures |Flatten(StreamGroups(k, rows))| == |Flatten(BatchGroups(k, off, rows))| == 3 * k.bpp * |rows.y|
  {
    FlattenLength(StreamGroups(k, rows), 3 * k.bpp);
    FlattenLength(BatchGroups(k, off, rows), 3 * k.bpp);
  }

  /** There is room for the next group. */
  lemma StepFits(g: seq<seq<byte>>, w: nat, n: nat)
    requires Uniform(g, w) && n < |g|
    ensures |Flatten(g[..n])| + w <= |Flatten(g)| == w * |g|
  {
    FlattenLength(g, w);
    FlattenLength(g[..n], w);
    MulMonotone(n + 1, |g|, w);
    assert (n + 1) * w == w * n + w && |g| * w == w * |g|;
  }

  // ---------------------------------------------------------------------------
  // Pictures
  // ---------------------------------------------------------------------------

  datatype Plane = Plane(data: seq<int32>, w: nat, h: nat) {
    predicate Valid() {
      |data| == h * w
    }

    function Row(y: nat): (r: seq<int32>)
      requires Valid() && y < h
      ensures |r| == w
    {
      MulMonotone(y + 1, h, w);
      data[y * w..y * w + w]
    }
  }

  /** Luma and two chroma planes; where there is luma there is chroma. */
  datatype Picture = Picture(y: Plane, cb: Plane, cr: Plane) {
    predicate Valid() {
      && y.Valid() && cb.Valid() && cr.Valid()
      && (y.h > 0 ==> cb.h > 0 && cr.h > 0)
      && (y.w > 0 ==> cb.w > 0 && cr.w > 0)
    }

    /** The three planes have one width. */
    predicate SameWidth() {
      y.w == cb.w == cr.w
    }

    /** And one height. */
    predicate SameSize() {
      SameWidth() && y.h == cb.h == cr.h
    }

    /** The rows write_ppm combines for luma row j. */
    function BatchRows(j: nat): (r: Rows)
      requires Valid() && j < y.h
      ensures r.Valid() && |r.y| == y.w
    {
      ColumnInRange(j, cb.h, y.h);
      ColumnInRange(j, cr.h, y.h);
      Rows(y.Row(j), cb.Row(Column(j, cb.h, y.h)), cr.Row(Column(j, cr.h, y.h)))
    }

    /** The rows the streaming decoder holds at luma row j. */
    function StreamRows(j: nat, cbStep: nat, crStep: nat): (r: Rows)
      requires Valid() && j < y.h && Subsampled(cbStep, crStep)
      ensures r.Valid() && |r.y| == y.w
    {
      RowSchedule.HeldIndex(j, y.h, cbStep);
      RowSchedule.HeldIndex(j, y.h, crStep);
      Rows(y.Row(j), cb.Row(j / cbStep), cr.Row(j / crStep))
    }

    /** The chroma heights are those of these subsampling factors. */
    predicate Subsampled(cbStep: nat, crStep: nat) {
      cbStep >= 1 && crStep >= 1 && cb.h == RowSchedule.CeilDiv(y.h, cbStep) && cr.h == RowSchedule.CeilDiv(y.h, crStep)
    }
  }

  function BatchPicture(k: Settings, off: nat, pic: Picture): (g: seq<seq<byte>>)
    requires k.Valid() && pic.Valid()
    ensures |g| == pic.y.h
  {
    seq(pic.y.h, j requires 0 <= j < pic.y.h => Flatten(BatchGroups(k, off, pic.BatchRows(j))))
  }

  function StreamPicture(k: Settings, pic: Picture, cbStep: nat, crStep: nat): (g: seq<seq<byte>>)
    requires k.Valid() && pic.Valid() && pic.Subsampled(cbStep, crStep)
    ensures |g| == pic.y.h
  {
    seq(pic.y.h, j requires 0 <= j < pic.y.h => Flatten(StreamGroups(k, pic.StreamRows(j, cbStep, crStep))))
  }

  /** The body of write_ppm's inner loop. */
  method BatchPixel(k: Settings, off: nat, y: int32, cb: int32, cr: int32) returns (p: Rgb)
    requires Defined(k, off, y, cb, cr)
    ensures p == Batched(k, off, y, cb, cr)
  {
    if k.ycc {
      var x, z := cb as int - k.cbCenter, cr as int - k.crCenter;
      var lo, hi := 0 - off, k.maxval - off;
      var r := y + (k.coef.crToR as int * z + 8192) / 16384;
      var g := y - (k.coef.cbToG as int * x + k.coef.crToG as int * z + 8192) / 16384;
      var b := y + (k.coef.cbToB as int * x + 8192) / 16384;
      p := Rgb((if r < lo then lo else if r > hi then hi else r) + off,
               (if g < lo then lo else if g > hi then hi else g) + off,
               (if b < lo then lo else if b > hi then hi else b) + off);
    } else {
      p := Rgb(y as int + off, cb as int + off, cr as int + off);
    }
  }

  method BatchAt(k: Settings, off: nat, rows: Rows, x: nat) returns (p: Rgb)
    requires k.Valid() && rows.Valid() && RowDefined(k, off, rows) && x < |rows.y|
    ensures Pixel(k.bpp, p) == BatchGroups(k, off, rows)[x]
  {
    p := BatchPixel(k, off, rows.y[x], rows.Cb(x), rows.Cr(x));
  }

  /** One trip of write_ppm's loop over rows. */
  method WriteBatchRow(k: Settings, off: nat, rows: Rows, out: array<byte>, from: nat, ghost before: seq<byte>,
                       ghost done: seq<byte>)
    returns (at: nat)
    requires k.Valid() && rows.Valid() && RowDefined(k, off, rows)
    requires from == |done| && |done| + |Flatten(BatchGroups(k, off, rows))| <= out.Length == |before|
    requires out[..] == Written(before, done)
    modifies out
    ensures at == |done + Flatten(BatchGroups(k, off, rows))| <= |before|
    ensures out[..] == Written(before, done + Flatten(BatchGroups(k, off, rows)))
  {
    var x := 0;
    at := from;
    ghost var g := BatchGroups(k, off, rows);
    assert done + Flatten(g[..0]) == done;
    while x < |rows.y|
      invariant 0 <= x <= |rows.y| && at == |done + Flatten(g[..x])| <= |before|
      invariant out[..] == Written(before, done + Flatten(g[..x]))
    {
      var p := BatchAt(k, off, rows, x);
      PutPixel(k.bpp, p, out, at, before, done, g, x);
      at := at + 3 * k.bpp;
      x := x + 1;
    }
    assert g[..x] == g;
  }

  /** The first j rows, and one more. */
  lemma RowFits(k: Settings, off: nat, pic: Picture, j: nat)
    requires k.Valid() && pic.Valid() && j < pic.y.h
    ensures var g := BatchPicture(k, off, pic);
      |Flatten(g[..j])| + |g[j]| <= |Flatten(g)| && Flatten(g[..j + 1]) == Flatten(g[..j]) + g[j]
  {
    var g := BatchPicture(k, off, pic);
    BatchUniform(k, off, pic);
    StepFits(g, 3 * k.bpp * pic.y.w, j);
    FlattenStep(g, j);
  }

  lemma BatchUniform(k: Settings, off: nat, pic: Picture)
    requires k.Valid() && pic.Valid()
    ensures Uniform(BatchPicture(k, off, pic), 3 * k.bpp * pic.y.w)
  {
    forall j | 0 <= j < pic.y.h
      ensures |BatchPicture(k, off, pic)[j]| == 3 * k.bpp * pic.y.w
    {
      RowSize(k, off, pic.BatchRows(j));
    }
  }

  /** ppm_out is as large as it has to be. */
  lemma PictureSize(k: Settings, off: nat, pic: Picture)
    requires k.Valid() && pic.Valid()
    ensures |Flatten(BatchPicture(k, off, pic))| == 3 * k.bpp * pic.y.w * pic.y.h
  {
    BatchUniform(k, off, pic);
    FlattenLength(BatchPicture(k, off, pic), 3 * k.bpp * pic.y.w);
  }

  /** write_ppm's loop over rows. */
  method BatchLoop(k: Settings, off: nat, pic: Picture, out: array<byte>)
    requires k.Valid() && pic.Valid() && forall j :: 0 <= j < pic.y.h ==> RowDefined(k, off, pic.BatchRows(j))
    requires |Flatten(BatchPicture(k, off, pic))| <= out.Length
    modifies out
    ensures out[..] == Written(old(out[..]), Flatten(BatchPicture(k, off, pic)))
  {
    var j, at := 0, 0;
    ghost var before, g := out[..], BatchPicture(k, off, pic);
    while j < pic.y.h
      invariant 0 <= j <= pic.y.h && at == |Flatten(g[..j])| <= |before|
      invariant out[..] == Written(before, Flatten(g[..j]))
    {
      RowFits(k, off, pic, j);
      at := WriteBatchRow(k, off, pic.BatchRows(j), out, at, before, Flatten(g[..j]));
      j := j + 1;
    }
    assert g[..j] == g;
  }

  /** The scalar path of write_ppm, for components of different sizes or in YCbCr. */
  method WriteBatchPicture(k: Settings, off: nat, pic: Picture, out: array<byte>)
    requires k.Valid() && pic.Valid() && forall j :: 0 <= j < pic.y.h ==> RowDefined(k, off, pic.BatchRows(j))
    requires k.ycc || !pic.SameSize()
    requires 3 * k.bpp * pic.y.w * pic.y.h <= out.Length
    modifies out
    ensures |Flatten(BatchPicture(k, off, pic))| == 3 * k.bpp * pic.y.w * pic.y.h
    ensures out[..] == Written(old(out[..]), Flatten(BatchPicture(k, off, pic)))
  {
    PictureSize(k, off, pic);
    BatchLoop(k, off, pic, out);
  }

  lemma StreamUniform(k: Settings, pic: Picture, cbStep: nat, crStep: nat)
    requires k.Valid() && pic.Valid() && pic.Subsampled(cbStep, crStep)
    ensures Uniform(StreamPicture(k, pic, cbStep, crStep), 3 * k.bpp * pic.y.w)
  {
    forall j | 0 <= j < pic.y.h
      ensures |StreamPicture(k, pic, cbStep, crStep)[j]| == 3 * k.bpp * pic.y.w
    {
      RowSize(k, 0, pic.StreamRows(j, cbStep, crStep));
    }
  }

  // ---------------------------------------------------------------------------
  // The two files
  // ---------------------------------------------------------------------------

  /** The chroma rows of these sizes are taken from the grid. */
  predicate GridRows(h0: nat, hc: nat, step: nat) {
    h0 * hc <= 0x1_0000_0000 && (hc * step - h0 <= 1 || hc == 1)
  }

  /** With chroma rows on the grid both writers combine the same rows. */
  lemma SameRows(pic: Picture, cbStep: nat, crStep: nat, j: nat)
    requires pic.Valid() && pic.Subsampled(cbStep, crStep) && j < pic.y.h
    requires GridRows(pic.y.h, pic.cb.h, cbStep) && GridRows(pic.y.h, pic.cr.h, crStep)
    ensures pic.BatchRows(j) == pic.StreamRows(j, cbStep, crStep)
  {
    UpsamplingExact(pic.y.h, pic.cb.h, cbStep);
    UpsamplingExact(pic.y.h, pic.cr.h, crStep);
    assert OnGrid(j, pic.cb.h, pic.y.h, cbStep) && OnGrid(j, pic.cr.h, pic.y.h, crStep);
  }

  /** The offset does not show in this row. */
  predicate SameRow(k: Settings, off: nat, rows: Rows)
    requires rows.Valid()
  {
    forall n :: 0 <= n < |rows.y| ==> SamePixel(k, off, rows.y[n], rows.Cb(n), rows.Cr(n))
  }

  lemma RowsAgree(k: Settings, off: nat, rows: Rows)
    requires k.Valid() && off <= k.maxval && rows.Valid()
    ensures Flatten(BatchGroups(k, off, rows)) == Flatten(StreamGroups(k, rows)) <==> SameRow(k, off, rows)
  {
    var a, b := BatchGroups(k, off, rows), StreamGroups(k, rows);
    forall n | 0 <= n < |rows.y|
      ensures a[n] == b[n] <==> SamePixel(k, off, rows.y[n], rows.Cb(n), rows.Cr(n))
    {
      PixelsAgree(k, off, rows.y[n], rows.Cb(n), rows.Cr(n));
    }
    if SameRow(k, off, rows) {
      assert a == b;
    }
    if Flatten(a) == Flatten(b) {
      PackKernels.FlattenInjective(a, b, 3 * k.bpp);
    }
  }

  /** With conversion or chroma of another width, and chroma rows on the grid, the two payloads are the
      same exactly when luma is unsigned or the offset shows in no pixel: that takes YCbCr with every
      channel of every pixel clamped. Without either the streaming decoder interleaves its rows, which
      is the subject of `PpmInterleaved`. */
  lemma PicturesAgree(k: Settings, off: nat, pic: Picture, cbStep: nat, crStep: nat)
    requires k.Valid() && off <= k.maxval && pic.Valid() && pic.Subsampled(cbStep, crStep)
    requires k.ycc || !pic.SameWidth()
    requires GridRows(pic.y.h, pic.cb.h, cbStep) && GridRows(pic.y.h, pic.cr.h, crStep)
    ensures Flatten(BatchPicture(k, off, pic)) == Flatten(StreamPicture(k, pic, cbStep, crStep)) <==>
      forall j :: 0 <= j < pic.y.h ==> SameRow(k, off, pic.StreamRows(j, cbStep, crStep))
  {
    var a, b := BatchPicture(k, off, pic), StreamPicture(k, pic, cbStep, crStep);
    forall j | 0 <= j < pic.y.h
      ensures a[j] == b[j] <==> SameRow(k, off, pic.StreamRows(j, cbStep, crStep))
    {
      SameRows(pic, cbStep, crStep, j);
      RowsAgree(k, off, pic.StreamRows(j, cbStep, crStep));
    }
    if forall j :: 0 <= j < pic.y.h ==> SameRow(k, off, pic.StreamRows(j, cbStep, crStep)) {
      assert a == b;
    }
    if Flatten(a) == Flatten(b) {
      BatchUniform(k, off, pic);
      StreamUniform(k, pic, cbStep, crStep);
      PackKernels.FlattenInjective(a, b, 3 * k.bpp * pic.y.w);
    }
  }
}
