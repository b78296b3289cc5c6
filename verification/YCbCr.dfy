/** YCbCr to RGB in 2.14 fixed point: the in-place conversions of subprojects/src/wrapper.cpp
    (`apply_ycbcr_bt601_to_rgba`, `apply_ycbcr_bt709_to_rgba`, SIMD and scalar forms) and the
    depth-generic conversion of source/apps/decoder (`write_ppm`, the streaming PPM rows).

    The reference is the colour transform itself over the reals, defined from the luma weights
    of each Recommendation; `ExactInverts` says that it undoes the forward transform. */
module YCbCr {
  import opened MachineInts
  import opened Simd
  import opened ByteRows
  import opened PackKernels
  import opened WasmPack

  /** Coefficients scaled by 2^14. */
  datatype Coef = Coef(crToR: int32, cbToG: int32, crToG: int32, cbToB: int32)

  const WASM_601 := Coef(22970, 5638, 11698, 29032)
  const WASM_709 := Coef(25801, 3069, 7672, 30397)
  const TABLE_601 := Coef(22970, 5639, 11701, 29032)
  const TABLE_709 := Coef(25802, 3069, 7668, 30394)

  /** Room for every product with an 8-bit chroma difference. */
  predicate Modest(c: Coef) {
    0 <= c.crToR <= 0x8000 && 0 <= c.cbToG <= 0x8000 && 0 <= c.crToG <= 0x8000 && 0 <= c.cbToB <= 0x8000
  }

  /** Rounded division by 2^14. */
  function Round14(p: int): int {
    (p + 8192) / 16384
  }

  function Red(c: Coef, y: int, cr: int): int {
    y + Round14(c.crToR * cr)
  }

  function Green(c: Coef, y: int, cb: int, cr: int): int {
    y - Round14(c.cbToG * cb + c.crToG * cr)
  }

  function Blue(c: Coef, y: int, cb: int): int {
    y + Round14(c.cbToB * cb)
  }

  // ---------------------------------------------------------------------------
  // The exact transform
  // ---------------------------------------------------------------------------

  /** Weights of red and blue in luma. */
  datatype Standard = Standard(kr: real, kb: real) {
    function Kg(): real {
      1.0 - kr - kb
    }
  }

  /** ITU-R BT.601, as section 7 of ITU-T T.871 uses it. */
  const BT601 := Standard(0.299, 0.114)
  /** Items 3.2 and 3.3 of Rec. ITU-R BT.709-6. */
  const BT709 := Standard(0.2126, 0.0722)

  predicate Known(s: Standard) {
    s == BT601 || s == BT709
  }

  function Luma(s: Standard, r: real, g: real, b: real): real {
    s.kr * r + s.Kg() * g + s.kb * b
  }

  function ChromaBlue(s: Standard, r: real, g: real, b: real): real
    requires Known(s)
  {
    (b - Luma(s, r, g, b)) / (2.0 * (1.0 - s.kb))
  }

  function ChromaRed(s: Standard, r: real, g: real, b: real): real
    requires Known(s)
  {
    (r - Luma(s, r, g, b)) / (2.0 * (1.0 - s.kr))
  }

  /** The chroma weights of the inverse transform. */
  datatype Weights = Weights(red: real, greenFromBlue: real, greenFromRed: real, blue: real)

  function Inverse(s: Standard): Weights
    requires Known(s)
  {
    Weights(2.0 * (1.0 - s.kr), 2.0 * s.kb * (1.0 - s.kb) / s.Kg(), 2.0 * s.kr * (1.0 - s.kr) / s.Kg(),
            2.0 * (1.0 - s.kb))
  }

  function ExactRed(w: Weights, y: real, cr: real): real {
    y + w.red * cr
  }

  function ExactGreen(w: Weights, y: real, cb: real, cr: real): real {
    y - (w.greenFromBlue * cb + w.greenFromRed * cr)
  }

  function ExactBlue(w: Weights, y: real, cb: real): real {
    y + w.blue * cb
  }

  /** The exact transform is the inverse of the forward colour transform. */
  lemma ExactInverts(s: Standard, r: real, g: real, b: real)
    requires Known(s)
    ensures var y, cb, cr := Luma(s, r, g, b), ChromaBlue(s, r, g, b), ChromaRed(s, r, g, b);
      ExactRed(Inverse(s), y, cr) == r && ExactGreen(Inverse(s), y, cb, cr) == g && ExactBlue(Inverse(s), y, cb) == b
  {
    if s == BT601 {
      Invert601(r, g, b);
    } else {
      Invert709(r, g, b);
    }
  }

  lemma Invert601(r: real, g: real, b: real)
    ensures var y, cb, cr := Luma(BT601, r, g, b), ChromaBlue(BT601, r, g, b), ChromaRed(BT601, r, g, b);
      && ExactRed(Inverse(BT601), y, cr) == r && ExactGreen(Inverse(BT601), y, cb, cr) == g
      && ExactBlue(Inverse(BT601), y, cb) == b
  {
  }

  lemma Invert709(r: real, g: real, b: real)
    ensures var y, cb, cr := Luma(BT709, r, g, b), ChromaBlue(BT709, r, g, b), ChromaRed(BT709, r, g, b);
      && ExactRed(Inverse(BT709), y, cr) == r && ExactGreen(Inverse(BT709), y, cb, cr) == g
      && ExactBlue(Inverse(BT709), y, cb) == b
  {
  }

  // ---------------------------------------------------------------------------
  // How far the fixed-point values are from it
  // ---------------------------------------------------------------------------

  function Abs(x: real): real {
    if x < 0.0 then -x else x
  }

  /** c is one of the program's tables for s. */
  predicate TableOf(c: Coef, s: Standard) {
    || ((c == WASM_601 || c == TABLE_601) && s == BT601)
    || ((c == WASM_709 || c == TABLE_709) && s == BT709)
  }

  /** Half a level for rounding, and 9/16384 of the largest chroma difference for the coefficients. */
  function Tolerance(chroma: int): real {
    0.5 + 9.0 / 16384.0 * chroma as real
  }

  /** Rounding moves a value by at most one half. */
  lemma RoundError(p: int)
    ensures Abs(Round14(p) as real - p as real / 16384.0) <= 0.5
  {
    var q := Round14(p);
    assert 16384 * q <= p + 8192 < 16384 * q + 16384;
    assert 16384.0 * q as real == (16384 * q) as real;
  }

  lemma MulMono(a: real, b: real, k: real)
    requires a <= b && k >= 0.0
    ensures a * k <= b * k
  {
  }

  lemma AbsMul(e: real, v: real)
    ensures Abs(e * v) == Abs(e) * Abs(v)
  {
  }

  lemma ProductBound(e: real, limit: real, v: real, m: real)
    requires Abs(e) <= limit && Abs(v) <= m
    ensures Abs(e * v) <= limit * m
  {
    AbsMul(e, v);
    MulMono(Abs(e), limit, Abs(v));
    MulMono(Abs(v), m, limit);
  }

  /** What rounding an inexact coefficient's product costs. */
  lemma CoefficientError(k: int, a: real, x: int, limit: real, chroma: int)
    requires Abs(k as real / 16384.0 - a) <= limit && 0 - chroma <= x <= chroma
    ensures Abs((k * x) as real / 16384.0 - a * x as real) <= limit * chroma as real
  {
    var e := k as real / 16384.0 - a;
    ProductBound(e, limit, x as real, chroma as real);
    assert (k * x) as real == k as real * x as real;
    Distribute(k as real, a, x as real);
  }

  lemma Distribute(k: real, a: real, x: real)
    ensures (k / 16384.0 - a) * x == k * x / 16384.0 - a * x
  {
  }

  /** One product, coefficient k for the real a. */
  lemma TermError(k: int, a: real, x: int, chroma: int)
    requires Abs(k as real / 16384.0 - a) <= 9.0 / 16384.0 && 0 - chroma <= x <= chroma
    ensures Abs(Round14(k * x) as real - a * x as real) <= Tolerance(chroma)
  {
    RoundError(k * x);
    CoefficientError(k, a, x, 9.0 / 16384.0, chroma);
    Chain(Round14(k * x) as real, (k * x) as real / 16384.0, a * x as real, 9.0 / 16384.0 * chroma as real);
  }

  lemma Chain(q: real, p: real, w: real, t: real)
    requires Abs(q - p) <= 0.5 && Abs(p - w) <= t
    ensures Abs(q - w) <= 0.5 + t
  {
  }

  lemma AddErrors(p: real, w: real, s: real, p': real, w': real, t: real)
    requires Abs(p - w) <= s && Abs(p' - w') <= t
    ensures Abs(p + p' - (w + w')) <= s + t
  {
  }

  lemma AddTolerance(m: real)
    ensures 1.0 / 16384.0 * m + 8.0 / 16384.0 * m == 9.0 / 16384.0 * m
  {
  }

  /** Two products under one rounding. */
  lemma TwoTermError(k: int, a: real, x: int, l: int, b: real, z: int, chroma: int)
    requires Abs(k as real / 16384.0 - a) <= 1.0 / 16384.0 && Abs(l as real / 16384.0 - b) <= 8.0 / 16384.0
    requires 0 - chroma <= x <= chroma && 0 - chroma <= z <= chroma
    ensures Abs(Round14(k * x + l * z) as real - (a * x as real + b * z as real)) <= Tolerance(chroma)
  {
    var p, q := k * x, l * z;
    RoundError(p + q);
    CoefficientError(k, a, x, 1.0 / 16384.0, chroma);
    CoefficientError(l, b, z, 8.0 / 16384.0, chroma);
    var m := chroma as real;
    AddErrors(p as real / 16384.0, a * x as real, 1.0 / 16384.0 * m, q as real / 16384.0, b * z as real,
              8.0 / 16384.0 * m);
    AddTolerance(m);
    SplitSum(p, q);
    Chain(Round14(p + q) as real, (p + q) as real / 16384.0, a * x as real + b * z as real, 9.0 / 16384.0 * m);
  }

  lemma SplitSum(p: int, q: int)
    ensures (p + q) as real / 16384.0 == p as real / 16384.0 + q as real / 16384.0
  {
  }

  /** Each coefficient is the weight to within a few units of 2^-14. */
  predicate Close(c: Coef, w: Weights) {
    && Abs(c.crToR as real / 16384.0 - w.red) <= 9.0 / 16384.0
    && Abs(c.cbToG as real / 16384.0 - w.greenFromBlue) <= 1.0 / 16384.0
    && Abs(c.crToG as real / 16384.0 - w.greenFromRed) <= 8.0 / 16384.0
    && Abs(c.cbToB as real / 16384.0 - w.blue) <= 9.0 / 16384.0
  }

  lemma TablesAreClose(c: Coef, s: Standard)
    requires TableOf(c, s)
    ensures Close(c, Inverse(s))
  {
  }

  lemma PlusError(y: int, q: int, w: real, t: real)
    requires Abs(q as real - w) <= t
    ensures Abs((y + q) as real - (y as real + w)) <= t && Abs((y - q) as real - (y as real - w)) <= t
  {
  }

  lemma RedWithin(c: Coef, w: Weights, y: int, cr: int, chroma: int)
    requires Close(c, w) && 0 - chroma <= cr <= chroma
    ensures Abs(Red(c, y, cr) as real - ExactRed(w, y as real, cr as real)) <= Tolerance(chroma)
  {
    TermError(c.crToR, w.red, cr, chroma);
    PlusError(y, Round14(c.crToR * cr), w.red * cr as real, Tolerance(chroma));
  }

  lemma GreenWithin(c: Coef, w: Weights, y: int, cb: int, cr: int, chroma: int)
    requires Close(c, w) && 0 - chroma <= cb <= chroma && 0 - chroma <= cr <= chroma
    ensures Abs(Green(c, y, cb, cr) as real - ExactGreen(w, y as real, cb as real, cr as real)) <= Tolerance(chroma)
  {
    TwoTermError(c.cbToG, w.greenFromBlue, cb, c.crToG, w.greenFromRed, cr, chroma);
    PlusError(y, Round14(c.cbToG * cb + c.crToG * cr),
              w.greenFromBlue * cb as real + w.greenFromRed * cr as real, Tolerance(chroma));
  }

  lemma BlueWithin(c: Coef, w: Weights, y: int, cb: int, chroma: int)
    requires Close(c, w) && 0 - chroma <= cb <= chroma
    ensures Abs(Blue(c, y, cb) as real - ExactBlue(w, y as real, cb as real)) <= Tolerance(chroma)
  {
    TermError(c.cbToB, w.blue, cb, chroma);
    PlusError(y, Round14(c.cbToB * cb), w.blue * cb as real, Tolerance(chroma));
  }

  /** All three channels, before clamping, are within t of the exact values. */
  predicate ChannelsWithin(c: Coef, w: Weights, y: int, cb: int, cr: int, t: real) {
    && Abs(Red(c, y, cr) as real - ExactRed(w, y as real, cr as real)) <= t
    && Abs(Green(c, y, cb, cr) as real - ExactGreen(w, y as real, cb as real, cr as real)) <= t
    && Abs(Blue(c, y, cb) as real - ExactBlue(w, y as real, cb as real)) <= t
  }

  lemma WithinTolerance(c: Coef, w: Weights, y: int, cb: int, cr: int, chroma: int)
    requires Close(c, w) && 0 - chroma <= cb <= chroma && 0 - chroma <= cr <= chroma
    ensures ChannelsWithin(c, w, y, cb, cr, Tolerance(chroma))
  {
    RedWithin(c, w, y, cr, chroma);
    GreenWithin(c, w, y, cb, cr, chroma);
    BlueWithin(c, w, y, cb, chroma);
  }

  lemma DepthScale(d: nat)
    requires 1 <= d
    ensures Tolerance(Pow2(d - 1)) == 0.5 + 9.0 * (Pow2(d) as real / Pow2(15) as real)
  {
    Pow2Values();
    HalfScale(Pow2(d - 1) as real);
    assert Pow2(d) == 2 * Pow2(d - 1);
  }

  lemma HalfScale(m: real)
    ensures 9.0 / 16384.0 * m == 9.0 * (2.0 * m / 32768.0)
  {
  }

  /** Samples of depth d: every channel is within 1/2 + 9 * 2^d / 2^15 of the exact value. */
  lemma DepthTolerance(c: Coef, s: Standard, d: nat, y: int, cb: int, cr: int)
    requires TableOf(c, s) && 1 <= d && InChroma(cb, d) && InChroma(cr, d)
    ensures ChannelsWithin(c, Inverse(s), y, cb, cr, 0.5 + 9.0 * (Pow2(d) as real / Pow2(15) as real))
  {
    TablesAreClose(c, s);
    var w := Inverse(s);
    WithinTolerance(c, w, y, cb, cr, Pow2(d - 1));
    DepthScale(d);
  }

  lemma Loosen(c: Coef, w: Weights, y: int, cb: int, cr: int, t: real, u: real)
    requires ChannelsWithin(c, w, y, cb, cr, t) && t <= u
    ensures ChannelsWithin(c, w, y, cb, cr, u)
  {
  }

  /** Eight-bit samples: within 0.6 of a level. */
  lemma EightBitTolerance(c: Coef, s: Standard, y: int, cb: int, cr: int)
    requires TableOf(c, s) && InChroma(cb, 8) && InChroma(cr, 8)
    ensures ChannelsWithin(c, Inverse(s), y, cb, cr, 0.6)
  {
    Pow2Values();
    TablesAreClose(c, s);
    var w := Inverse(s);
    WithinTolerance(c, w, y, cb, cr, 128);
    Loosen(c, w, y, cb, cr, Tolerance(128), 0.6);
  }

  /** The chroma differences of samples of depth d, signed or centred: -2^(d-1) .. 2^(d-1) - 1. */
  predicate InChroma(x: int, d: nat)
    requires 1 <= d
  {
    0 - Pow2(d - 1) <= x < Pow2(d - 1)
  }

  // ---------------------------------------------------------------------------
  // The two tables of one standard
  // ---------------------------------------------------------------------------

  lemma SatClose(v: int, w: int)
    requires -1 <= v - w <= 1
    ensures -1 <= SatU8(v) - SatU8(w) <= 1
  {
  }

  lemma SmallProduct(e: int, x: int)
    requires -8 <= e <= 8 && -128 <= x <= 127
    ensures -1024 <= e * x <= 1024
  {
    if x >= 0 {
      MulMonotone(e, 8, x);
      MulMonotone(-8, e, x);
    } else {
      MulMonotone(e, 8, 0 - x);
      MulMonotone(-8, e, 0 - x);
      assert e * (0 - x) == 0 - e * x;
    }
  }

  lemma ScaleClose(k: int, k': int, x: int)
    requires -8 <= k - k' <= 8 && -128 <= x <= 127
    ensures -1024 <= k * x - k' * x <= 1024
  {
    var e := k - k';
    assert k * x - k' * x == e * x;
    SmallProduct(e, x);
  }

  lemma RoundClose(p: int, q: int)
    requires -16384 <= p - q <= 16384
    ensures -1 <= Round14(p) - Round14(q) <= 1
  {
  }

  /** The two tables of a standard give 8-bit channels at most one level apart. */
  lemma TablesAgreeWithinOne(c: Coef, c': Coef, s: Standard, y: int, cb: int, cr: int)
    requires TableOf(c, s) && TableOf(c', s) && InChroma(cb, 8) && InChroma(cr, 8)
    ensures -1 <= SatU8(Red(c, y, cr)) - SatU8(Red(c', y, cr)) <= 1
    ensures -1 <= SatU8(Green(c, y, cb, cr)) - SatU8(Green(c', y, cb, cr)) <= 1
    ensures -1 <= SatU8(Blue(c, y, cb)) - SatU8(Blue(c', y, cb)) <= 1
  {
    Pow2Values();
    ScaleClose(c.crToR, c'.crToR, cr);
    ScaleClose(c.cbToG, c'.cbToG, cb);
    ScaleClose(c.crToG, c'.crToG, cr);
    ScaleClose(c.cbToB, c'.cbToB, cb);
    RoundClose(c.crToR * cr, c'.crToR * cr);
    RoundClose(c.cbToG * cb + c.crToG * cr, c'.cbToG * cb + c'.crToG * cr);
    RoundClose(c.cbToB * cb, c'.cbToB * cb);
    SatClose(Red(c, y, cr), Red(c', y, cr));
    SatClose(Green(c, y, cb, cr), Green(c', y, cb, cr));
    SatClose(Blue(c, y, cb), Blue(c', y, cb));
  }

  /** One level is reached: green for both standards, blue for BT.709; the red coefficients of
      BT.601 are the same number. */
  lemma TablesDiffer()
    ensures Green(WASM_601, 0, -128, 89) == -19 && Green(TABLE_601, 0, -128, 89) == -20
    ensures Green(WASM_709, 0, -128, -125) == 83 && Green(TABLE_709, 0, -128, -125) == 82
    ensures Blue(WASM_709, 0, 38) == 71 && Blue(TABLE_709, 0, 38) == 70
  {
  }

  // ---------------------------------------------------------------------------
  // No overflow
  // ---------------------------------------------------------------------------

  predicate FitsI32(x: int) {
    -0x8000_0000 <= x < 0x8000_0000
  }

  /** Every intermediate value of the three channels fits `int32_t`. */
  predicate NoChannelOverflow(c: Coef, y: int, cb: int, cr: int) {
    && FitsI32(c.crToR * cr) && FitsI32(c.crToR * cr + 8192)
    && FitsI32(c.cbToG * cb) && FitsI32(c.crToG * cr)
    && FitsI32(c.cbToG * cb + c.crToG * cr) && FitsI32(c.cbToG * cb + c.crToG * cr + 8192)
    && FitsI32(c.cbToB * cb) && FitsI32(c.cbToB * cb + 8192)
    && FitsI32(Red(c, y, cr)) && FitsI32(Green(c, y, cb, cr)) && FitsI32(Blue(c, y, cb))
  }

  lemma LinearNoOverflow(c: Coef, s: Standard, y: int, cb: int, cr: int)
    requires TableOf(c, s)
    requires -0x2_0000 <= y < 0x2_0000 && -0x1_0000 <= cb < 0x1_0000 && -0x1_0000 <= cr < 0x1_0000
    ensures NoChannelOverflow(c, y, cb, cr)
  {
  }

  /** Samples of depth d, signed or not, never overflow exactly when d is at most 17; the
      writers stop at 16. */
  lemma OverflowDepth(c: Coef, s: Standard, d: nat)
    requires TableOf(c, s) && 1 <= d
    ensures (forall y, cb, cr :: 0 - Pow2(d - 1) <= y < Pow2(d) && InChroma(cb, d) && InChroma(cr, d) ==>
             NoChannelOverflow(c, y, cb, cr))
      <==> d <= 17
  {
    Pow2Values();
    if d <= 17 {
      Pow2Monotone(d - 1, 16);
      forall y, cb, cr | 0 - Pow2(d - 1) <= y < Pow2(d) && InChroma(cb, d) && InChroma(cr, d)
        ensures NoChannelOverflow(c, y, cb, cr)
      {
        LinearNoOverflow(c, s, y, cb, cr);
      }
    } else {
      Pow2Monotone(17, d - 1);
      assert Pow2(17) == 2 * Pow2(16);
      assert InChroma(-0x2_0000, d) && InChroma(0, d);
      assert !NoChannelOverflow(c, 0, -0x2_0000, 0);
    }
  }

  // ---------------------------------------------------------------------------
  // write_ppm against the streaming rows
  // ---------------------------------------------------------------------------

  /** write_ppm: clamp to -off .. maxval - off, then add off. */
  function BatchChannel(v: int, maxval: nat, off: nat): int {
    Clamp(v, 0 - off, maxval - off) + off
  }

  /** The streaming rows: clamp to 0 .. maxval, whatever the sign of luma. */
  function StreamChannel(v: int, maxval: nat): int {
    Clamp(v, 0, maxval)
  }

  /** The two writers give the same channel exactly when there is no offset (unsigned luma) or the
      value is so far out that both clamp to the same end. */
  lemma BatchStreamChannel(v: int, maxval: nat, off: nat)
    requires off <= maxval
    ensures BatchChannel(v, maxval, off) == StreamChannel(v, maxval) <==>
      (off == 0 || v <= 0 - off || v >= maxval)
    ensures 0 <= BatchChannel(v, maxval, off) <= maxval && 0 <= StreamChannel(v, maxval) <= maxval
  {
  }

  // ---------------------------------------------------------------------------
  // The in-place conversion: what every form must leave in the buffer
  // ---------------------------------------------------------------------------

  /** One converted RGBA pixel. */
  function Converted(c: Coef, y: byte, cb: byte, cr: byte, a: byte): (p: seq<byte>)
    ensures |p| == 4
  {
    [SatU8(Red(c, y, cr - 128)), SatU8(Green(c, y, cb - 128, cr - 128)), SatU8(Blue(c, y, cb - 128)), a]
  }

  /** The first n pixels of a buffer, converted. */
  function ConvertedPixels(c: Coef, buf: seq<byte>, n: nat): (px: seq<seq<byte>>)
    requires 4 * n <= |buf|
    ensures |px| == n && Uniform(px, 4)
  {
    seq(n, i requires 0 <= i < n => Converted(c, buf[4 * i], buf[4 * i + 1], buf[4 * i + 2], buf[4 * i + 3]))
  }

  /** Alpha, and everything after the n pixels, is kept. */
  lemma AlphaKept(c: Coef, buf: seq<byte>, n: nat, j: nat)
    requires 4 * n <= |buf| && j < |buf| && (j % 4 == 3 || j >= 4 * n)
    ensures |Flatten(ConvertedPixels(c, buf, n))| == 4 * n
    ensures Written(buf, Flatten(ConvertedPixels(c, buf, n)))[j] == buf[j]
  {
    var px := ConvertedPixels(c, buf, n);
    FlattenLength(px, 4);
    if j < 4 * n {
      FlattenAt(px, 4, j / 4, 3);
      assert j == 4 * (j / 4) + 3;
    }
  }

  /** A byte holds an exact channel: it is clamped from an integer within 0.6 of it. */
  ghost predicate Holds(b: byte, exact: real) {
    exists v: int :: Near(v, exact) && b == SatU8(v)
  }

  predicate Near(v: int, exact: real) {
    Abs(v as real - exact) <= 0.6
  }

  /** Pixel i of the new buffer, in the order red, green, blue, alpha, is the exact inverse transform of
      pixel i of the old one, in the order luma, blue difference, red difference, alpha. */
  ghost predicate PixelInverted(s: Standard, before: seq<byte>, after: seq<byte>, i: nat)
    requires Known(s)
  {
    4 * i + 4 <= |before| == |after| &&
    var y, cb, cr := before[4 * i] as real, before[4 * i + 1] as real - 128.0, before[4 * i + 2] as real - 128.0;
    && Holds(after[4 * i], ExactRed(Inverse(s), y, cr))
    && Holds(after[4 * i + 1], ExactGreen(Inverse(s), y, cb, cr))
    && Holds(after[4 * i + 2], ExactBlue(Inverse(s), y, cb))
    && after[4 * i + 3] == before[4 * i + 3]
  }

  lemma ChannelsHeld(c: Coef, s: Standard, y: byte, cb: byte, cr: byte, a: byte)
    requires Known(s) && TableOf(c, s)
    ensures var p, x, z := Converted(c, y, cb, cr, a), cb as real - 128.0, cr as real - 128.0;
      && Holds(p[0], ExactRed(Inverse(s), y as real, z))
      && Holds(p[1], ExactGreen(Inverse(s), y as real, x, z))
      && Holds(p[2], ExactBlue(Inverse(s), y as real, x))
  {
    var x, z := cb as int - 128, cr as int - 128;
    Pow2Values();
    EightBitTolerance(c, s, y, x, z);
    assert x as real == cb as real - 128.0 && z as real == cr as real - 128.0;
    assert Near(Red(c, y, z), ExactRed(Inverse(s), y as real, z as real));
    assert Near(Green(c, y, x, z), ExactGreen(Inverse(s), y as real, x as real, z as real));
    assert Near(Blue(c, y, x), ExactBlue(Inverse(s), y as real, x as real));
  }

  /** The bytes of pixel i in the converted buffer. */
  lemma PixelBytes(c: Coef, buf: seq<byte>, n: nat, i: nat) returns (after: seq<byte>, p: seq<byte>)
    requires i < n && 4 * n <= |buf|
    ensures |Flatten(ConvertedPixels(c, buf, n))| == 4 * n
    ensures after == Written(buf, Flatten(ConvertedPixels(c, buf, n))) && |after| == |buf| && |p| == 4
    ensures p == Converted(c, buf[4 * i], buf[4 * i + 1], buf[4 * i + 2], buf[4 * i + 3])
    ensures after[4 * i] == p[0] && after[4 * i + 1] == p[1] && after[4 * i + 2] == p[2] && after[4 * i + 3] == p[3]
  {
    var px := ConvertedPixels(c, buf, n);
    FlattenLength(px, 4);
    FlattenAt(px, 4, i, 0);
    FlattenAt(px, 4, i, 1);
    FlattenAt(px, 4, i, 2);
    FlattenAt(px, 4, i, 3);
    after, p := Written(buf, Flatten(px)), px[i];
  }

  /** Every converted pixel is the exact transform of what was there, channel by channel. */
  lemma BufferInverted(c: Coef, s: Standard, buf: seq<byte>, n: nat, i: nat)
    requires Known(s) && TableOf(c, s) && i < n && 4 * n <= |buf|
    ensures |Flatten(ConvertedPixels(c, buf, n))| == 4 * n
    ensures PixelInverted(s, buf, Written(buf, Flatten(ConvertedPixels(c, buf, n))), i)
  {
    var after, p := PixelBytes(c, buf, n, i);
    ChannelsHeld(c, s, buf[4 * i], buf[4 * i + 1], buf[4 * i + 2], buf[4 * i + 3]);
  }

  /** And so for all pixels, whichever standard the coefficients are for. */
  ghost predicate Inverted(c: Coef, before: seq<byte>, after: seq<byte>, n: nat) {
    forall s, i :: Known(s) && TableOf(c, s) && 0 <= i < n ==> PixelInverted(s, before, after, i)
  }

  lemma AllInverted(c: Coef, buf: seq<byte>, n: nat)
    requires 4 * n <= |buf|
    ensures |Flatten(ConvertedPixels(c, buf, n))| == 4 * n
    ensures Inverted(c, buf, Written(buf, Flatten(ConvertedPixels(c, buf, n))), n)
  {
    FlattenLength(ConvertedPixels(c, buf, n), 4);
    forall s, i | Known(s) && TableOf(c, s) && 0 <= i < n
      ensures PixelInverted(s, buf, Written(buf, Flatten(ConvertedPixels(c, buf, n))), i)
    {
      BufferInverted(c, s, buf, n, i);
    }
  }

  // ---------------------------------------------------------------------------
  // Lanes
  // ---------------------------------------------------------------------------

  lemma MulBound(k: int, x: int)
    requires 0 <= k <= 0x8000 && -128 <= x <= 127
    ensures -0x40_0000 <= k * x <= 0x40_0000
  {
    if x >= 0 {
      MulLe(k, 0x8000, x);
    } else {
      MulLe(k, 0x8000, -x);
      assert k * x == -(k * -x);
    }
  }

  lemma MulLe(a: nat, b: nat, x: nat)
    requires a <= b && x <= 128
    ensures 0 <= a * x <= 128 * b
  {
    assert b * x - a * x == (b - a) * x;
    assert 128 * b - b * x == b * (128 - x);
  }

  predicate LumaLanes(v: I32x4) {
    0 <= v.e0 <= 0xFF && 0 <= v.e1 <= 0xFF && 0 <= v.e2 <= 0xFF && 0 <= v.e3 <= 0xFF
  }

  predicate ChromaLanes(v: I32x4) {
    -128 <= v.e0 <= 127 && -128 <= v.e1 <= 127 && -128 <= v.e2 <= 127 && -128 <= v.e3 <= 127
  }

  predicate Bounded(v: I32x4, m: int) {
    0 - m <= v.e0 <= m && 0 - m <= v.e1 <= m && 0 - m <= v.e2 <= m && 0 - m <= v.e3 <= m
  }

  /** i32x4.mul by a coefficient: no lane wraps. */
  method Scale(k: int32, x: I32x4) returns (p: I32x4)
    requires 0 <= k <= 0x8000 && ChromaLanes(x)
    ensures p.e0 == k as int * x.e0 && p.e1 == k as int * x.e1 && p.e2 == k as int * x.e2 && p.e3 == k as int * x.e3
    ensures Bounded(p, 0x40_0000)
  {
    MulBound(k, x.e0);
    MulBound(k, x.e1);
    MulBound(k, x.e2);
    MulBound(k, x.e3);
    p := MulI32(SplatI32(k), x);
  }

  lemma Pow2Fourteen()
    ensures Pow2(14) == 16384
  {
    Pow2Values();
    assert Pow2(15) == 2 * Pow2(14);
  }

  lemma ShiftLane(p: int32, d: nat)
    requires -0x80_0000 <= p <= 0x80_0000 && d == 16384
    ensures WrapI32(WrapI32(p as int + 8192) as int / d) == Round14(p)
    ensures -0x1000 <= Round14(p) <= 0x1000
  {
  }

  /** i32x4.shr_s(i32x4.add(p, 8192), 14) */
  method RoundLanes(p: I32x4) returns (q: I32x4)
    requires Bounded(p, 0x80_0000)
    ensures q.e0 == Round14(p.e0) && q.e1 == Round14(p.e1) && q.e2 == Round14(p.e2) && q.e3 == Round14(p.e3)
    ensures Bounded(q, 0x1000)
  {
    Pow2Fourteen();
    ShiftLane(p.e0, Pow2(14));
    ShiftLane(p.e1, Pow2(14));
    ShiftLane(p.e2, Pow2(14));
    ShiftLane(p.e3, Pow2(14));
    q := ShrI32(AddI32(p, SplatI32(8192)), 14);
  }

  /** min(max(v, 0), 255) */
  method ClampU8(x: I32x4) returns (v: I32x4)
    ensures v.e0 == SatU8(x.e0) && v.e1 == SatU8(x.e1) && v.e2 == SatU8(x.e2) && v.e3 == SatU8(x.e3)
  {
    v := ClampLanes(x, 0xFF);
  }

  method SumClamped(y: I32x4, q: I32x4) returns (v: I32x4)
    requires LumaLanes(y) && Bounded(q, 0x1000)
    ensures v.e0 == SatU8(y.e0 as int + q.e0) && v.e1 == SatU8(y.e1 as int + q.e1)
    ensures v.e2 == SatU8(y.e2 as int + q.e2) && v.e3 == SatU8(y.e3 as int + q.e3)
  {
    v := ClampU8(AddI32(y, q));
  }

  method DifferenceClamped(y: I32x4, q: I32x4) returns (v: I32x4)
    requires LumaLanes(y) && Bounded(q, 0x1000)
    ensures v.e0 == SatU8(y.e0 as int - q.e0) && v.e1 == SatU8(y.e1 as int - q.e1)
    ensures v.e2 == SatU8(y.e2 as int - q.e2) && v.e3 == SatU8(y.e3 as int - q.e3)
  {
    v := ClampU8(SubI32(y, q));
  }

  method SumLanes(p: I32x4, r: I32x4) returns (v: I32x4)
    requires Bounded(p, 0x40_0000) && Bounded(r, 0x40_0000)
    ensures v.e0 == p.e0 as int + r.e0 && v.e1 == p.e1 as int + r.e1
    ensures v.e2 == p.e2 as int + r.e2 && v.e3 == p.e3 as int + r.e3
    ensures Bounded(v, 0x80_0000)
  {
    v := AddI32(p, r);
  }

  /** Luma plus one rounded product, clamped to 0..255: red and blue. */
  method PlusChannel(k: int32, y: I32x4, x: I32x4) returns (v: I32x4)
    requires 0 <= k <= 0x8000 && LumaLanes(y) && ChromaLanes(x)
    ensures v.e0 == SatU8(y.e0 as int + Round14(k as int * x.e0))
    ensures v.e1 == SatU8(y.e1 as int + Round14(k as int * x.e1))
    ensures v.e2 == SatU8(y.e2 as int + Round14(k as int * x.e2))
    ensures v.e3 == SatU8(y.e3 as int + Round14(k as int * x.e3))
  {
    var p := Scale(k, x);
    var q := RoundLanes(p);
    v := SumClamped(y, q);
  }

  /** Luma minus two products rounded together, clamped to 0..255: green. */
  method MinusChannel(k: int32, l: int32, y: I32x4, x: I32x4, z: I32x4) returns (v: I32x4)
    requires 0 <= k <= 0x8000 && 0 <= l <= 0x8000 && LumaLanes(y) && ChromaLanes(x) && ChromaLanes(z)
    ensures v.e0 == SatU8(y.e0 as int - Round14(k as int * x.e0 + l as int * z.e0))
    ensures v.e1 == SatU8(y.e1 as int - Round14(k as int * x.e1 + l as int * z.e1))
    ensures v.e2 == SatU8(y.e2 as int - Round14(k as int * x.e2 + l as int * z.e2))
    ensures v.e3 == SatU8(y.e3 as int - Round14(k as int * x.e3 + l as int * z.e3))
  {
    var p := Scale(k, x);
    var r := Scale(l, z);
    var t := SumLanes(p, r);
    var q := RoundLanes(t);
    v := DifferenceClamped(y, q);
  }

  /** The bytes of a 32-bit lane, by logical shifts. */
  lemma LaneBytes(b0: byte, b1: byte, b2: byte, b3: byte)
    ensures var w := WrapI32(Word4(b0, b1, b2, b3)) as int % 0x1_0000_0000;
      && LowByte(WrapI32(Word4(b0, b1, b2, b3))) == b0
      && LowByte(WrapI32(w / Pow2(8))) == b1
      && LowByte(WrapI32(w / Pow2(16))) == b2
      && WrapI32(w / Pow2(24)) == b3
  {
    Pow2Values();
    Pow2Add(8, 16);
    LowOfWord(b0, b1, b2, b3);
    ShiftedWord(b0, b1, b2, b3);
  }

  lemma Rewrapped(w: int)
    requires 0 <= w < 0x1_0000_0000
    ensures WrapI32(w) as int % 0x1_0000_0000 == w && LowByte(WrapI32(w)) == LowByte(w)
  {
    assert WrapI32(w) == if w < 0x8000_0000 then w else w - 0x1_0000_0000;
  }

  lemma LowOfWord(b0: byte, b1: byte, b2: byte, b3: byte)
    ensures LowByte(WrapI32(Word4(b0, b1, b2, b3))) == b0
    ensures WrapI32(Word4(b0, b1, b2, b3)) as int % 0x1_0000_0000 == Word4(b0, b1, b2, b3)
  {
    var w := Word4(b0, b1, b2, b3);
    Rewrapped(w);
    assert w == 0x100 * (b1 + 0x100 * b2 + 0x1_0000 * b3) + b0;
  }

  lemma ShiftedWord(b0: byte, b1: byte, b2: byte, b3: byte)
    ensures var w := Word4(b0, b1, b2, b3);
      && WrapI32(w / 0x100) == Word4(b1, b2, b3, 0) && LowByte(Word4(b1, b2, b3, 0)) == b1
      && WrapI32(w / 0x1_0000) == Word2(b2, b3) && LowByte(Word2(b2, b3)) == b2
      && WrapI32(w / 0x100_0000) == b3
  {
    var w := Word4(b0, b1, b2, b3);
    assert w / 0x100 == Word4(b1, b2, b3, 0);
    assert w / 0x1_0000 == Word2(b2, b3);
    assert w / 0x100_0000 == b3;
  }

  /** The channel at byte k of four RGBA pixels. */
  function ByteLanes(pix: Reg, k: nat): I32x4
    requires k < 4
  {
    I32x4(pix[k], pix[4 + k], pix[8 + k], pix[12 + k])
  }

  /** Masks and shifts pull four pixels apart into channels. */
  method Extract(pix: Reg) returns (y: I32x4, cb: I32x4, cr: I32x4, a: I32x4)
    ensures y == ByteLanes(pix, 0) && cb == ByteLanes(pix, 1) && cr == ByteLanes(pix, 2) && a == ByteLanes(pix, 3)
  {
    var p := AsI32(pix);
    LaneBytes(pix[0], pix[1], pix[2], pix[3]);
    LaneBytes(pix[4], pix[5], pix[6], pix[7]);
    LaneBytes(pix[8], pix[9], pix[10], pix[11]);
    LaneBytes(pix[12], pix[13], pix[14], pix[15]);
    y := MaskLow(p);
    cb := MaskLow(ShrU32(p, 8));
    cr := MaskLow(ShrU32(p, 16));
    a := ShrU32(p, 24);
  }

  const TRANSPOSE: seq<nat> := [0, 4, 8, 12, 1, 5, 9, 13, 2, 6, 10, 14, 3, 7, 11, 15]

  lemma NarrowBytesExact(v: I32x4)
    requires LumaLanes(v)
    ensures NarrowLanes(v) == [v.e0, v.e1, v.e2, v.e3]
  {
  }

  /** Narrow four planar channels and transpose them back to pixels. */
  method Interleave(r: I32x4, g: I32x4, b: I32x4, a: I32x4) returns (v: Reg)
    requires LumaLanes(r) && LumaLanes(g) && LumaLanes(b) && LumaLanes(a)
    ensures v == [r.e0, g.e0, b.e0, a.e0] + [r.e1, g.e1, b.e1, a.e1] + [r.e2, g.e2, b.e2, a.e2] +
        [r.e3, g.e3, b.e3, a.e3]
  {
    var packed := Narrow16(r, g, b, a);
    NarrowBytesExact(r);
    NarrowBytesExact(g);
    NarrowBytesExact(b);
    NarrowBytesExact(a);
    v := WasmShuffle(packed, packed, TRANSPOSE);
  }

  /** cb - 128: the chroma differences of four pixels. */
  method Centre(x: I32x4) returns (v: I32x4)
    requires LumaLanes(x)
    ensures v == I32x4(x.e0 - 128, x.e1 - 128, x.e2 - 128, x.e3 - 128)
  {
    v := SubI32(x, SplatI32(128));
  }

  lemma PixelIs(c: Coef, y: byte, cb: byte, cr: byte, a: byte, r: int32, g: int32, b: int32)
    requires r == SatU8(y as int + Round14(c.crToR as int * (cr as int - 128)))
    requires g == SatU8(y as int - Round14(c.cbToG as int * (cb as int - 128) + c.crToG as int * (cr as int - 128)))
    requires b == SatU8(y as int + Round14(c.cbToB as int * (cb as int - 128)))
    ensures [r, g, b, a] == Converted(c, y, cb, cr, a)
  {
  }

  /** One trip of the block loop: four pixels. */
  method BlockYcc(c: Coef, pix: Reg) returns (v: Reg)
    requires Modest(c)
    ensures v == Converted(c, pix[0], pix[1], pix[2], pix[3]) + Converted(c, pix[4], pix[5], pix[6], pix[7]) +
                 Converted(c, pix[8], pix[9], pix[10], pix[11]) + Converted(c, pix[12], pix[13], pix[14], pix[15])
  {
    var y, cb0, cr0, a := Extract(pix);
    var cb := Centre(cb0);
    var cr := Centre(cr0);
    var r := PlusChannel(c.crToR, y, cr);
    var g := MinusChannel(c.cbToG, c.crToG, y, cb, cr);
    var b := PlusChannel(c.cbToB, y, cb);
    v := Interleave(r, g, b, a);
    PixelIs(c, pix[0], pix[1], pix[2], pix[3], r.e0, g.e0, b.e0);
    PixelIs(c, pix[4], pix[5], pix[6], pix[7], r.e1, g.e1, b.e1);
    PixelIs(c, pix[8], pix[9], pix[10], pix[11], r.e2, g.e2, b.e2);
    PixelIs(c, pix[12], pix[13], pix[14], pix[15], r.e3, g.e3, b.e3);
  }

  // ---------------------------------------------------------------------------
  // The loops
  // ---------------------------------------------------------------------------

  lemma PixelOf(c: Coef, buf: seq<byte>, n: nat, i: nat, y: byte, cb: byte, cr: byte, a: byte)
    requires i < n && 4 * n <= |buf|
    requires buf[4 * i] == y && buf[4 * i + 1] == cb && buf[4 * i + 2] == cr && buf[4 * i + 3] == a
    ensures ConvertedPixels(c, buf, n)[i] == Converted(c, y, cb, cr, a)
  {
  }

  /** The body of the scalar loop: the pixel at `at`, converted where it stands. */
  method ConvertAt(c: Coef, rgba: array<byte>, at: nat)
    requires at + 4 <= rgba.Length
    modifies rgba
    ensures rgba[..] == old(rgba[..at]) +
        Converted(c, old(rgba[at]), old(rgba[at + 1]), old(rgba[at + 2]), old(rgba[at + 3])) + old(rgba[at + 4..])
  {
    var y := rgba[at];
    var cb := rgba[at + 1] as int - 128;
    var cr := rgba[at + 2] as int - 128;
    rgba[at] := SatU8(Red(c, y, cr));
    rgba[at + 1] := SatU8(Green(c, y, cb, cr));
    rgba[at + 2] := SatU8(Blue(c, y, cb));
  }

  lemma PixelWritten(before: seq<byte>, done: seq<byte>, buf: seq<byte>, after: seq<byte>, p: seq<byte>)
    requires |done| + 4 <= |before| && |p| == 4 && buf == Written(before, done)
    requires after == buf[..|done|] + p + buf[|done| + 4..]
    ensures after == Written(before, done + p)
  {
  }

  /** One trip of the scalar loop: pixel i. */
  method ConvertPixel(c: Coef, rgba: array<byte>, i: nat, n: nat, ghost before: seq<byte>)
    requires i < n && 4 * n <= rgba.Length == |before|
    requires |Flatten(ConvertedPixels(c, before, n)[..i])| == 4 * i
    requires rgba[..] == Written(before, Flatten(ConvertedPixels(c, before, n)[..i]))
    modifies rgba
    ensures |Flatten(ConvertedPixels(c, before, n)[..i + 1])| == 4 * (i + 1)
    ensures rgba[..] == Written(before, Flatten(ConvertedPixels(c, before, n)[..i + 1]))
  {
    ghost var px := ConvertedPixels(c, before, n);
    ghost var done, buf := Flatten(px[..i]), rgba[..];
    Untouched(before, done, 4 * i);
    Untouched(before, done, 4 * i + 1);
    Untouched(before, done, 4 * i + 2);
    Untouched(before, done, 4 * i + 3);
    PixelOf(c, before, n, i, buf[4 * i], buf[4 * i + 1], buf[4 * i + 2], buf[4 * i + 3]);
    ConvertAt(c, rgba, 4 * i);
    PixelWritten(before, done, buf, rgba[..], px[i]);
    FlattenStep(px, i);
  }

  /** Bytes not yet reached are as they were. */
  lemma Untouched(before: seq<byte>, done: seq<byte>, j: nat)
    requires |done| <= j < |before|
    ensures Written(before, done)[j] == before[j]
  {
  }

  /** The scalar loop, from pixel `from` on. */
  method ScalarLoop(c: Coef, rgba: array<byte>, from: nat, n: nat, ghost before: seq<byte>)
    requires from <= n && 4 * n <= rgba.Length == |before|
    requires |Flatten(ConvertedPixels(c, before, n)[..from])| == 4 * from
    requires rgba[..] == Written(before, Flatten(ConvertedPixels(c, before, n)[..from]))
    modifies rgba
    ensures |Flatten(ConvertedPixels(c, before, n))| == 4 * n
    ensures rgba[..] == Written(before, Flatten(ConvertedPixels(c, before, n)))
  {
    ghost var px := ConvertedPixels(c, before, n);
    var i := from;
    while i < n
      invariant from <= i <= n
      invariant |Flatten(px[..i])| == 4 * i
      invariant rgba[..] == Written(before, Flatten(px[..i]))
    {
      ConvertPixel(c, rgba, i, n, before);
      i := i + 1;
    }
    assert px[..i] == px;
  }

  /** v128.load of four pixels that are still as they were. */
  method LoadPixels(rgba: array<byte>, i: nat, ghost before: seq<byte>, ghost done: seq<byte>) returns (pix: Reg)
    requires |done| == 4 * i && 4 * i + 16 <= rgba.Length == |before| && rgba[..] == Written(before, done)
    ensures pix == before[4 * i..4 * i + 16]
  {
    StillThere(before, done, rgba[..], 4 * i);
    assert rgba[4 * i..4 * i + 16] == rgba[..][4 * i..4 * i + 16];
    pix := rgba[4 * i..4 * i + 16];
  }

  /** One trip of the block loop: load four pixels, convert, store. */
  method ConvertBlock(c: Coef, rgba: array<byte>, i: nat, n: nat, ghost before: seq<byte>)
    requires Modest(c) && i + 4 <= n && 4 * n <= rgba.Length == |before|
    requires |Flatten(ConvertedPixels(c, before, n)[..i])| == 4 * i
    requires rgba[..] == Written(before, Flatten(ConvertedPixels(c, before, n)[..i]))
    modifies rgba
    ensures |Flatten(ConvertedPixels(c, before, n)[..i + 4])| == 4 * (i + 4)
    ensures rgba[..] == Written(before, Flatten(ConvertedPixels(c, before, n)[..i + 4]))
  {
    var pix := LoadPixels(rgba, i, before, Flatten(ConvertedPixels(c, before, n)[..i]));
    var v := BlockYcc(c, pix);
    RunOfBlock(c, before, n, i, pix);
    PutRun(rgba, 4 * i, v, before, ConvertedPixels(c, before, n), i, 4);
  }

  lemma StillThere(before: seq<byte>, done: seq<byte>, buf: seq<byte>, at: nat)
    requires |done| == at && at + 16 <= |before| && buf == Written(before, done)
    ensures buf[at..at + 16] == before[at..at + 16]
  {
  }

  /** The SIMD form with coefficients c. */
  method ApplySimd(c: Coef, rgba: array<byte>, n: nat)
    requires Modest(c) && 4 * n <= rgba.Length
    modifies rgba
    ensures |Flatten(ConvertedPixels(c, old(rgba[..]), n))| == 4 * n
    ensures rgba[..] == Written(old(rgba[..]), Flatten(ConvertedPixels(c, old(rgba[..]), n)))
    ensures Inverted(c, old(rgba[..]), rgba[..], n)
  {
    AllInverted(c, rgba[..], n);
    var i := BlockLoop(c, rgba, n, rgba[..]);
    ScalarLoop(c, rgba, i, n, old(rgba[..]));
  }

  lemma NothingYet(before: seq<byte>, px: seq<seq<byte>>)
    ensures |Flatten(px[..0])| == 0 && Written(before, Flatten(px[..0])) == before
  {
  }

  method BlockLoop(c: Coef, rgba: array<byte>, n: nat, ghost before: seq<byte>) returns (i: nat)
    requires Modest(c) && 4 * n <= rgba.Length && before == rgba[..]
    modifies rgba
    ensures i <= n && |Flatten(ConvertedPixels(c, before, n)[..i])| == 4 * i
    ensures rgba[..] == Written(before, Flatten(ConvertedPixels(c, before, n)[..i]))
  {
    i := 0;
    ghost var px := ConvertedPixels(c, before, n);
    NothingYet(before, px);
    while i + 4 <= n
      invariant i <= n
      invariant |Flatten(px[..i])| == 4 * i
      invariant rgba[..] == Written(before, Flatten(px[..i]))
    {
      ConvertBlock(c, rgba, i, n, before);
      i := i + 4;
    }
  }

  lemma RunOfBlock(c: Coef, buf: seq<byte>, n: nat, i: nat, pix: seq<byte>)
    requires i + 4 <= n && 4 * n <= |buf| && pix == buf[4 * i..4 * i + 16]
    ensures Converted(c, pix[0], pix[1], pix[2], pix[3]) + Converted(c, pix[4], pix[5], pix[6], pix[7]) +
            Converted(c, pix[8], pix[9], pix[10], pix[11]) + Converted(c, pix[12], pix[13], pix[14], pix[15])
         == Run(ConvertedPixels(c, buf, n), i, 4)
  {
    assert forall k :: 0 <= k < 16 ==> pix[k] == buf[4 * i + k];
    RunOfFour(ConvertedPixels(c, buf, n), i);
  }

  /** The scalar form with coefficients c. */
  method ApplyScalar(c: Coef, rgba: array<byte>, n: nat)
    requires 4 * n <= rgba.Length
    modifies rgba
    ensures |Flatten(ConvertedPixels(c, old(rgba[..]), n))| == 4 * n
    ensures rgba[..] == Written(old(rgba[..]), Flatten(ConvertedPixels(c, old(rgba[..]), n)))
    ensures Inverted(c, old(rgba[..]), rgba[..], n)
  {
    AllInverted(c, rgba[..], n);
    ScalarLoop(c, rgba, 0, n, rgba[..]);
  }

  /** apply_ycbcr_bt601_to_rgba */
  method ApplyBt601(rgba: array<byte>, n: nat, simd: bool)
    requires 4 * n <= rgba.Length
    modifies rgba
    ensures |Flatten(ConvertedPixels(WASM_601, old(rgba[..]), n))| == 4 * n
    ensures rgba[..] == Written(old(rgba[..]), Flatten(ConvertedPixels(WASM_601, old(rgba[..]), n)))
    ensures forall i :: 0 <= i < n ==> PixelInverted(BT601, old(rgba[..]), rgba[..], i)
    ensures rgba[4 * n..] == old(rgba[4 * n..])
  {
    if simd {
      ApplySimd(WASM_601, rgba, n);
    } else {
      ApplyScalar(WASM_601, rgba, n);
    }
  }

  /** apply_ycbcr_bt709_to_rgba */
  method ApplyBt709(rgba: array<byte>, n: nat, simd: bool)
    requires 4 * n <= rgba.Length
    modifies rgba
    ensures |Flatten(ConvertedPixels(WASM_709, old(rgba[..]), n))| == 4 * n
    ensures rgba[..] == Written(old(rgba[..]), Flatten(ConvertedPixels(WASM_709, old(rgba[..]), n)))
    ensures forall i :: 0 <= i < n ==> PixelInverted(BT709, old(rgba[..]), rgba[..], i)
    ensures rgba[4 * n..] == old(rgba[4 * n..])
  {
    if simd {
      ApplySimd(WASM_709, rgba, n);
    } else {
      ApplyScalar(WASM_709, rgba, n);
    }
  }
}
