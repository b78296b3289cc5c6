/** The 3-component row interleavers of the decoder (source/apps/decoder/main_dec.cpp):
    `ppm_interleave_8` and `ppm_interleave_16be`, each with an SSE4.1 block loop and a
    scalar form. Source rows are values; the output row is written in place. */
module PpmInterleave {
  import opened MachineInts
  import opened Simd
  import opened ByteRows

  // ---------------------------------------------------------------------------
  // What both forms must write
  // ---------------------------------------------------------------------------

  /** The largest sample of the depth. */
  function MaxVal(bitDepth: nat): (m: int32)
    requires 1 <= bitDepth <= 16
    ensures 1 <= m <= 0xFFFF
    ensures bitDepth <= 8 ==> m <= 0xFF
  {
    Pow2Values();
    Pow2Monotone(1, bitDepth);
    Pow2Monotone(bitDepth, 16);
    assert bitDepth <= 8 ==> Pow2(bitDepth) <= 0x100 by {
      if bitDepth <= 8 {
        Pow2Monotone(bitDepth, 8);
      }
    }
    Pow2(bitDepth) - 1
  }

  /** The pixels of an 8-bit RGB row. */
  function Pixels8(s0: seq<int32>, s1: seq<int32>, s2: seq<int32>, mv: int32): (px: seq<seq<byte>>)
    requires |s0| == |s1| == |s2| && 0 <= mv <= 0xFF
    ensures |px| == |s0| && Uniform(px, 3)
  {
    seq(|s0|, x requires 0 <= x < |s0| => Pixel8(ClampTo(s0[x], mv), ClampTo(s1[x], mv), ClampTo(s2[x], mv)))
  }

  /** The pixels of a 16-bit RGB row, each component high byte first. */
  function Pixels16(s0: seq<int32>, s1: seq<int32>, s2: seq<int32>, mv: int32): (px: seq<seq<byte>>)
    requires |s0| == |s1| == |s2| && 0 <= mv <= 0xFFFF
    ensures |px| == |s0| && Uniform(px, 6)
  {
    seq(|s0|, x requires 0 <= x < |s0| => Pixel16(ClampTo(s0[x], mv), ClampTo(s1[x], mv), ClampTo(s2[x], mv)))
  }

  /** The reference rows. */
  function Row8(s0: seq<int32>, s1: seq<int32>, s2: seq<int32>, mv: int32): seq<byte>
    requires |s0| == |s1| == |s2| && 0 <= mv <= 0xFF
  {
    Flatten(Pixels8(s0, s1, s2, mv))
  }

  function Row16(s0: seq<int32>, s1: seq<int32>, s2: seq<int32>, mv: int32): seq<byte>
    requires |s0| == |s1| == |s2| && 0 <= mv <= 0xFFFF
  {
    Flatten(Pixels16(s0, s1, s2, mv))
  }

  // ---------------------------------------------------------------------------
  // Clamping and joining lanes
  // ---------------------------------------------------------------------------

  /** _mm_min_epi32(_mm_max_epi32(load, zero), max_val) */
  function LoadClamped(src: seq<int32>, at: nat, mv: int32): (v: I32x4)
    requires at + 4 <= |src| && 0 <= mv
    ensures v.e0 == ClampTo(src[at], mv) && v.e1 == ClampTo(src[at + 1], mv)
    ensures v.e2 == ClampTo(src[at + 2], mv) && v.e3 == ClampTo(src[at + 3], mv)
  {
    MinI32(MaxI32(LoadI32(src, at), SplatI32(0)), SplatI32(mv))
  }

  predicate Within(v: I32x4, limit: int) {
    0 <= v.e0 <= limit && 0 <= v.e1 <= limit && 0 <= v.e2 <= limit && 0 <= v.e3 <= limit
  }

  lemma ShiftedBytes16(y: int32)
    requires 0 <= y <= 0xFFFF
    ensures var w := WrapI32(y as int * Pow2(16));
      ByteOf(w, 0) == 0 && ByteOf(w, 1) == 0 && ByteOf(w, 2) == LowByte(y) && ByteOf(w, 3) == HighByte(y)
  {
    Pow2Values();
    var z := if y < 0x8000 then y as int else y as int - 0x1_0000;
    var w := z * 0x1_0000;
    assert w == WrapI32(y as int * Pow2(16));
    assert w / 0x1_0000 == z && w / 0x100 == z * 0x100 && w / 0x100_0000 == z / 0x100;
  }

  lemma HalfBytes(x: int32)
    requires 0 <= x <= 0xFFFF
    ensures ByteOf(x, 0) == LowByte(x) && ByteOf(x, 1) == HighByte(x) && ByteOf(x, 2) == 0 && ByteOf(x, 3) == 0
  {
  }

  /** or(a, b << 16): the low halves of the lanes of a and b side by side. */
  method Join16(a: I32x4, b: I32x4) returns (t: Reg)
    requires Within(a, 0xFFFF) && Within(b, 0xFFFF)
    ensures t[0] == LowByte(a.e0) && t[1] == HighByte(a.e0) && t[2] == LowByte(b.e0) && t[3] == HighByte(b.e0)
    ensures t[4] == LowByte(a.e1) && t[5] == HighByte(a.e1) && t[6] == LowByte(b.e1) && t[7] == HighByte(b.e1)
    ensures t[8] == LowByte(a.e2) && t[9] == HighByte(a.e2) && t[10] == LowByte(b.e2) && t[11] == HighByte(b.e2)
    ensures t[12] == LowByte(a.e3) && t[13] == HighByte(a.e3) && t[14] == LowByte(b.e3) && t[15] == HighByte(b.e3)
  {
    var low := AsBytes(a);
    var high := AsBytes(ShlI32(b, 16));
    t := Or(low, high);
    HalfBytes(a.e0);
    ShiftedBytes16(b.e0);
    HalfBytes(a.e1);
    ShiftedBytes16(b.e1);
    HalfBytes(a.e2);
    ShiftedBytes16(b.e2);
    HalfBytes(a.e3);
    ShiftedBytes16(b.e3);
  }

  // ---------------------------------------------------------------------------
  // ppm_interleave_16be: eight pixels in, 48 bytes out
  // ---------------------------------------------------------------------------

  const M0: Reg := [1, 0, 3, 2, 0xFF, 0xFF, 5, 4, 7, 6, 0xFF, 0xFF, 9, 8, 11, 10]
  const M1: Reg := [0xFF, 0xFF, 0xFF, 0xFF, 1, 0, 0xFF, 0xFF, 0xFF, 0xFF, 5, 4, 0xFF, 0xFF, 0xFF, 0xFF]
  const M2: Reg := [0xFF, 0xFF, 13, 12, 15, 14, 0xFF, 0xFF, 0xFF, 0xFF, 0xFF, 0xFF, 0xFF, 0xFF, 0xFF, 0xFF]
  const M3: Reg := [9, 8, 0xFF, 0xFF, 0xFF, 0xFF, 13, 12, 3, 2, 0xFF, 0xFF, 0xFF, 0xFF, 7, 6]
  const M4: Reg := [0xFF, 0xFF, 0xFF, 0xFF, 0xFF, 0xFF, 0xFF, 0xFF, 0xFF, 0xFF, 1, 0, 3, 2, 0xFF, 0xFF]
  const M5: Reg := [0xFF, 0xFF, 0xFF, 0xFF, 11, 10, 0xFF, 0xFF, 0xFF, 0xFF, 15, 14, 0xFF, 0xFF, 0xFF, 0xFF]
  const M6: Reg := [5, 4, 7, 6, 0xFF, 0xFF, 9, 8, 11, 10, 0xFF, 0xFF, 13, 12, 15, 14]

  /** The masks are the 64-bit constants of the source. */
  lemma MasksOfSource()
    ensures High64(M0) == 0x0A0B_0809_FFFF_0607 && Low64(M0) == 0x0405_FFFF_0203_0001
    ensures High64(M1) == 0xFFFF_FFFF_0405_FFFF && Low64(M1) == 0xFFFF_0001_FFFF_FFFF
    ensures High64(M2) == 0xFFFF_FFFF_FFFF_FFFF && Low64(M2) == 0xFFFF_0E0F_0C0D_FFFF
    ensures High64(M3) == 0x0607_FFFF_FFFF_0203 && Low64(M3) == 0x0C0D_FFFF_FFFF_0809
    ensures High64(M4) == 0xFFFF_0203_0001_FFFF && Low64(M4) == 0xFFFF_FFFF_FFFF_FFFF
    ensures High64(M5) == 0xFFFF_FFFF_0E0F_FFFF && Low64(M5) == 0xFFFF_0A0B_FFFF_FFFF
    ensures High64(M6) == 0x0E0F_0C0D_FFFF_0A0B && Low64(M6) == 0x0809_FFFF_0607_0405
  {
  }

  /** The bytes of four pixels whose components are the lanes of r, g and b. */
  function LanePixels(r: I32x4, g: I32x4, b: I32x4): seq<byte>
    requires Within(r, 0xFFFF) && Within(g, 0xFFFF) && Within(b, 0xFFFF)
  {
    Pixel16(r.e0, g.e0, b.e0) + Pixel16(r.e1, g.e1, b.e1) + Pixel16(r.e2, g.e2, b.e2) + Pixel16(r.e3, g.e3, b.e3)
  }

  /** The three registers stored for eight pixels. */
  method Shuffled16(r: I32x4, g: I32x4, b: I32x4, r': I32x4, g': I32x4, b': I32x4) returns (x: Reg, y: Reg, z: Reg)
    requires Within(r, 0xFFFF) && Within(g, 0xFFFF) && Within(b, 0xFFFF)
    requires Within(r', 0xFFFF) && Within(g', 0xFFFF) && Within(b', 0xFFFF)
    ensures x + y + z == LanePixels(r, g, b) + LanePixels(r', g', b')
  {
    var t := Join16(r, g);
    var u := Join16(b, r');
    var v := Join16(g', b');
    x := Store0(t, u);
    y := Store1(t, u, v);
    z := Store2(u, v);
    CutInSixes(x, y, z);
    assert [x[0], x[1], x[2], x[3], x[4], x[5]] == Pixel16(r.e0, g.e0, b.e0);
    assert [x[6], x[7], x[8], x[9], x[10], x[11]] == Pixel16(r.e1, g.e1, b.e1);
    assert [x[12], x[13], x[14], x[15], y[0], y[1]] == Pixel16(r.e2, g.e2, b.e2);
    assert [y[2], y[3], y[4], y[5], y[6], y[7]] == Pixel16(r.e3, g.e3, b.e3);
    assert [y[8], y[9], y[10], y[11], y[12], y[13]] == Pixel16(r'.e0, g'.e0, b'.e0);
    assert [y[14], y[15], z[0], z[1], z[2], z[3]] == Pixel16(r'.e1, g'.e1, b'.e1);
    assert [z[4], z[5], z[6], z[7], z[8], z[9]] == Pixel16(r'.e2, g'.e2, b'.e2);
    assert [z[10], z[11], z[12], z[13], z[14], z[15]] == Pixel16(r'.e3, g'.e3, b'.e3);
  }

  /** The first store: bytes 0 to 15. */
  method Store0(t: Reg, u: Reg) returns (x: Reg)
    ensures x[0] == t[1] && x[1] == t[0] && x[2] == t[3] && x[3] == t[2]
    ensures x[4] == u[1] && x[5] == u[0] && x[6] == t[5] && x[7] == t[4]
    ensures x[8] == t[7] && x[9] == t[6] && x[10] == u[5] && x[11] == u[4]
    ensures x[12] == t[9] && x[13] == t[8] && x[14] == t[11] && x[15] == t[10]
  {
    var a := ShuffleI8(t, M0);
    var b := ShuffleI8(u, M1);
    x := Or(a, b);
  }

  /** The second store: bytes 16 to 31. */
  method Store1(t: Reg, u: Reg, v: Reg) returns (y: Reg)
    ensures y[0] == u[9] && y[1] == u[8] && y[2] == t[13] && y[3] == t[12]
    ensures y[4] == t[15] && y[5] == t[14] && y[6] == u[13] && y[7] == u[12]
    ensures y[8] == u[3] && y[9] == u[2] && y[10] == v[1] && y[11] == v[0]
    ensures y[12] == v[3] && y[13] == v[2] && y[14] == u[7] && y[15] == u[6]
  {
    var a := ShuffleI8(t, M2);
    var b := ShuffleI8(u, M3);
    var c := ShuffleI8(v, M4);
    y := Or(b, c);
    y := Or(a, y);
  }

  /** The third store: bytes 32 to 47. */
  method Store2(u: Reg, v: Reg) returns (z: Reg)
    ensures z[0] == v[5] && z[1] == v[4] && z[2] == v[7] && z[3] == v[6]
    ensures z[4] == u[11] && z[5] == u[10] && z[6] == v[9] && z[7] == v[8]
    ensures z[8] == v[11] && z[9] == v[10] && z[10] == u[15] && z[11] == u[14]
    ensures z[12] == v[13] && z[13] == v[12] && z[14] == v[15] && z[15] == v[14]
  {
    var a := ShuffleI8(u, M5);
    var b := ShuffleI8(v, M6);
    z := Or(a, b);
  }

  /** One trip of the block loop: pixels at to at + 7. */
  method Block16(s0: seq<int32>, s1: seq<int32>, s2: seq<int32>, at: nat, mv: int32) returns (x: Reg, y: Reg, z: Reg)
    requires |s0| == |s1| == |s2| && at + 8 <= |s0| && 0 <= mv <= 0xFFFF
    ensures x + y + z == Run(Pixels16(s0, s1, s2, mv), at, 8)
  {
    var r, g, b := LoadClamped(s0, at, mv), LoadClamped(s1, at, mv), LoadClamped(s2, at, mv);
    var r', g', b' := LoadClamped(s0, at + 4, mv), LoadClamped(s1, at + 4, mv), LoadClamped(s2, at + 4, mv);
    x, y, z := Shuffled16(r, g, b, r', g', b');
    RunOfLanes16(s0, s1, s2, at, mv);
    RunOfLanes16(s0, s1, s2, at + 4, mv);
    RunAppend(Pixels16(s0, s1, s2, mv), at, 4, 4);
  }

  lemma RunOfLanes16(s0: seq<int32>, s1: seq<int32>, s2: seq<int32>, at: nat, mv: int32)
    requires |s0| == |s1| == |s2| && at + 4 <= |s0| && 0 <= mv <= 0xFFFF
    ensures LanePixels(LoadClamped(s0, at, mv), LoadClamped(s1, at, mv), LoadClamped(s2, at, mv)) ==
      Run(Pixels16(s0, s1, s2, mv), at, 4)
  {
    var r, g, b := LoadClamped(s0, at, mv), LoadClamped(s1, at, mv), LoadClamped(s2, at, mv);
    var px := Pixels16(s0, s1, s2, mv);
    assert px[at] == Pixel16(r.e0, g.e0, b.e0);
    assert px[at + 1] == Pixel16(r.e1, g.e1, b.e1);
    assert px[at + 2] == Pixel16(r.e2, g.e2, b.e2);
    assert px[at + 3] == Pixel16(r.e3, g.e3, b.e3);
    RunOfFour(px, at);
  }

  /** The sample with its two bytes exchanged, which memory holds low byte first. */
  function Swap16(v: int32): (u: uint16)
    requires 0 <= v <= 0xFFFF
    ensures LowByte(u) == HighByte(v) && HighByte(u) == LowByte(v)
  {
    Swap16Value(v);
    WordBytes(HighByte(v), LowByte(v));
    BitOr(v / 0x100, v * 0x100) % 0x1_0000
  }

  lemma WordBytes(b0: byte, b1: byte)
    ensures 0 <= Word2(b0, b1) < 0x1_0000 && LowByte(Word2(b0, b1)) == b0 && HighByte(Word2(b0, b1)) == b1
  {
  }

  lemma Swap16Value(v: int32)
    requires 0 <= v <= 0xFFFF
    ensures BitOr(v / 0x100, v * 0x100) % 0x1_0000 == Word2(HighByte(v), LowByte(v))
  {
    Pow2Values();
    var h, l := v as int / 0x100, v as int % 0x100;
    BitOrDisjoint(8, h, v);
    ModUnique(h + v as int * 0x100, 0x1_0000, h, h + l * 0x100);
  }

  /** One trip of the scalar loop. */
  method PutPixel16(s0: seq<int32>, s1: seq<int32>, s2: seq<int32>, dp: array<byte>, n: nat, mv: int32,
                    ghost before: seq<byte>)
    requires |s0| == |s1| == |s2| && n < |s0| && 0 <= mv <= 0xFFFF && 6 * |s0| <= dp.Length == |before|
    requires |Flatten(Pixels16(s0, s1, s2, mv)[..n])| == 6 * n
    requires dp[..] == Written(before, Flatten(Pixels16(s0, s1, s2, mv)[..n]))
    modifies dp
    ensures |Flatten(Pixels16(s0, s1, s2, mv)[..n + 1])| == 6 * (n + 1)
    ensures dp[..] == Written(before, Flatten(Pixels16(s0, s1, s2, mv)[..n + 1]))
  {
    ghost var done := Flatten(Pixels16(s0, s1, s2, mv)[..n]);
    var v := ClampTo(s0[n], mv);
    Put(dp, 6 * n, Le(Swap16(v)), before, done);
    ghost var r := Be(v);
    v := ClampTo(s1[n], mv);
    Put(dp, 6 * n + 2, Le(Swap16(v)), before, done + r);
    ghost var g := Be(v);
    v := ClampTo(s2[n], mv);
    Put(dp, 6 * n + 4, Le(Swap16(v)), before, done + r + g);
    FlattenStep(Pixels16(s0, s1, s2, mv), n);
    assert done + r + g + Be(v) == done + (r + g + Be(v));
  }

  /** The scalar loop, from pixel `from` on. */
  method ScalarLoop16(s0: seq<int32>, s1: seq<int32>, s2: seq<int32>, dp: array<byte>, from: nat, mv: int32,
                      ghost before: seq<byte>)
    requires |s0| == |s1| == |s2| && from <= |s0| && 0 <= mv <= 0xFFFF && 6 * |s0| <= dp.Length == |before|
    requires |Flatten(Pixels16(s0, s1, s2, mv)[..from])| == 6 * from
    requires dp[..] == Written(before, Flatten(Pixels16(s0, s1, s2, mv)[..from]))
    modifies dp
    ensures |Row16(s0, s1, s2, mv)| == 6 * |s0|
    ensures dp[..] == Written(before, Row16(s0, s1, s2, mv))
  {
    var n := from;
    ghost var px := Pixels16(s0, s1, s2, mv);
    while n < |s0|
      invariant from <= n <= |s0|
      invariant |Flatten(px[..n])| == 6 * n
      invariant dp[..] == Written(before, Flatten(px[..n]))
    {
      PutPixel16(s0, s1, s2, dp, n, mv, before);
      n := n + 1;
    }
    assert px[..n] == px;
  }

  /** Loads, shuffles and stores eight pixels. */
  method PutBlock16(s0: seq<int32>, s1: seq<int32>, s2: seq<int32>, dp: array<byte>, n: nat, mv: int32,
                    ghost before: seq<byte>)
    requires |s0| == |s1| == |s2| && n + 8 <= |s0| && 0 <= mv <= 0xFFFF && 6 * |s0| <= dp.Length == |before|
    requires |Flatten(Pixels16(s0, s1, s2, mv)[..n])| == 6 * n
    requires dp[..] == Written(before, Flatten(Pixels16(s0, s1, s2, mv)[..n]))
    modifies dp
    ensures |Flatten(Pixels16(s0, s1, s2, mv)[..n + 8])| == 6 * (n + 8)
    ensures dp[..] == Written(before, Flatten(Pixels16(s0, s1, s2, mv)[..n + 8]))
  {
    var x, y, z := Block16(s0, s1, s2, n, mv);
    PutRun48(dp, 6 * n, x, y, z, before, Pixels16(s0, s1, s2, mv), n, 8);
  }

  /** The SSE4.1 form of ppm_interleave_16be: blocks of eight pixels, then one at a time. */
  method Interleave16Sse(sp0: seq<int32>, sp1: seq<int32>, sp2: seq<int32>, dp: array<byte>, bitDepth: nat)
    requires |sp0| == |sp1| == |sp2| && 1 <= bitDepth <= 16 && 6 * |sp0| <= dp.Length
    modifies dp
    ensures |Row16(sp0, sp1, sp2, MaxVal(bitDepth))| == 6 * |sp0|
    ensures dp[..] == Written(old(dp[..]), Row16(sp0, sp1, sp2, MaxVal(bitDepth)))
  {
    var mv := MaxVal(bitDepth);
    var width := |sp0|;
    var n := 0;
    ghost var before := dp[..];
    ghost var px := Pixels16(sp0, sp1, sp2, mv);
    while n + 8 <= width
      invariant 0 <= n <= width
      invariant |Flatten(px[..n])| == 6 * n
      invariant dp[..] == Written(before, Flatten(px[..n]))
    {
      PutBlock16(sp0, sp1, sp2, dp, n, mv, before);
      n := n + 8;
    }
    ScalarLoop16(sp0, sp1, sp2, dp, n, mv, before);
  }

  /** The scalar form of ppm_interleave_16be. */
  method Interleave16Scalar(sp0: seq<int32>, sp1: seq<int32>, sp2: seq<int32>, dp: array<byte>, bitDepth: nat)
    requires |sp0| == |sp1| == |sp2| && 1 <= bitDepth <= 16 && 6 * |sp0| <= dp.Length
    modifies dp
    ensures |Row16(sp0, sp1, sp2, MaxVal(bitDepth))| == 6 * |sp0|
    ensures dp[..] == Written(old(dp[..]), Row16(sp0, sp1, sp2, MaxVal(bitDepth)))
  {
    var mv := MaxVal(bitDepth);
    ScalarLoop16(sp0, sp1, sp2, dp, 0, mv, dp[..]);
  }

  // ---------------------------------------------------------------------------
  // ppm_interleave_8: sixteen pixels in, 48 bytes out
  // ---------------------------------------------------------------------------

  const SQUEEZE: Reg := [0, 1, 2, 4, 5, 6, 8, 9, 10, 12, 13, 14, 0xFF, 0xFF, 0xFF, 0xFF]

  lemma ShiftedBytes8(y: int32)
    requires 0 <= y <= 0xFF
    ensures Pow2(8) == 0x100 && Pow2(16) == 0x1_0000
    ensures ByteOf(y, 0) == y && ByteOf(y, 1) == ByteOf(y, 2) == ByteOf(y, 3) == 0
    ensures var w := WrapI32(y as int * 0x100);
      ByteOf(w, 0) == ByteOf(w, 2) == ByteOf(w, 3) == 0 && ByteOf(w, 1) == y
    ensures var w := WrapI32(y as int * 0x1_0000);
      ByteOf(w, 0) == ByteOf(w, 1) == ByteOf(w, 3) == 0 && ByteOf(w, 2) == y
  {
    Pow2Values();
  }

  /** Lanes of at most 8 bits, moved up by k bytes in place. */
  method SpreadBytes(x: I32x4, k: nat) returns (v: Reg)
    requires Within(x, 0xFF) && k < 3
    ensures v[0] == (if k == 0 then x.e0 else 0) && v[1] == (if k == 1 then x.e0 else 0)
    ensures v[2] == (if k == 2 then x.e0 else 0) && v[3] == 0
    ensures v[4] == (if k == 0 then x.e1 else 0) && v[5] == (if k == 1 then x.e1 else 0)
    ensures v[6] == (if k == 2 then x.e1 else 0) && v[7] == 0
    ensures v[8] == (if k == 0 then x.e2 else 0) && v[9] == (if k == 1 then x.e2 else 0)
    ensures v[10] == (if k == 2 then x.e2 else 0) && v[11] == 0
    ensures v[12] == (if k == 0 then x.e3 else 0) && v[13] == (if k == 1 then x.e3 else 0)
    ensures v[14] == (if k == 2 then x.e3 else 0) && v[15] == 0
  {
    var shifted := if k == 0 then x else ShlI32(x, 8 * k);
    v := AsBytes(shifted);
    ShiftedBytes8(x.e0);
    ShiftedBytes8(x.e1);
    ShiftedBytes8(x.e2);
    ShiftedBytes8(x.e3);
  }

  /** or(r, or(g << 8, b << 16)): one pixel in the low three bytes of each lane. */
  method Join8(r: I32x4, g: I32x4, b: I32x4) returns (t: Reg)
    requires Within(r, 0xFF) && Within(g, 0xFF) && Within(b, 0xFF)
    ensures t[0] == r.e0 && t[1] == g.e0 && t[2] == b.e0 && t[3] == 0
    ensures t[4] == r.e1 && t[5] == g.e1 && t[6] == b.e1 && t[7] == 0
    ensures t[8] == r.e2 && t[9] == g.e2 && t[10] == b.e2 && t[11] == 0
    ensures t[12] == r.e3 && t[13] == g.e3 && t[14] == b.e3 && t[15] == 0
  {
    var c0 := SpreadBytes(r, 0);
    var c1 := SpreadBytes(g, 1);
    t := Or(c0, c1);
    var c2 := SpreadBytes(b, 2);
    t := Or(t, c2);
  }

  /** Joined lanes, squeezed: four pixels in the low twelve bytes, zeros above. */
  method Quad8(r: I32x4, g: I32x4, b: I32x4) returns (t: Reg)
    requires Within(r, 0xFF) && Within(g, 0xFF) && Within(b, 0xFF)
    ensures t[0] == r.e0 && t[1] == g.e0 && t[2] == b.e0
    ensures t[3] == r.e1 && t[4] == g.e1 && t[5] == b.e1
    ensures t[6] == r.e2 && t[7] == g.e2 && t[8] == b.e2
    ensures t[9] == r.e3 && t[10] == g.e3 && t[11] == b.e3
    ensures t[12] == t[13] == t[14] == t[15] == 0
  {
    var joined := Join8(r, g, b);
    t := ShuffleI8(joined, SQUEEZE);
  }

  /** Four groups of twelve bytes become three full registers. */
  method Combine12(t: Reg, u: Reg, v: Reg, w: Reg) returns (x: Reg, y: Reg, z: Reg)
    requires forall j :: 12 <= j < 16 ==> t[j] == u[j] == v[j] == w[j] == 0
    ensures x + y + z == t[..12] + u[..12] + v[..12] + w[..12]
  {
    var hi := ByteShl(u, 12);
    x := Or(t, hi);
    var lo := ByteShr(u, 4);
    hi := ByteShl(v, 8);
    y := Or(lo, hi);
    lo := ByteShr(v, 8);
    hi := ByteShl(w, 4);
    z := Or(lo, hi);
    assert x == t[..12] + u[..4];
    assert y == u[4..12] + v[..8];
    assert z == v[8..12] + w[..12];
    assert u[..12] == u[..4] + u[4..12] && v[..12] == v[..8] + v[8..12];
  }

  /** Four clamped pixels in the low twelve bytes. */
  method Pixels4(s0: seq<int32>, s1: seq<int32>, s2: seq<int32>, at: nat, mv: int32) returns (t: Reg)
    requires |s0| == |s1| == |s2| && at + 4 <= |s0| && 0 <= mv <= 0xFF
    ensures forall j :: 12 <= j < 16 ==> t[j] == 0
    ensures t[..12] == Run(Pixels8(s0, s1, s2, mv), at, 4)
  {
    var r, g, b := LoadClamped(s0, at, mv), LoadClamped(s1, at, mv), LoadClamped(s2, at, mv);
    t := Quad8(r, g, b);
    CutInThrees(t[..12]);
    RunOfLanes8(s0, s1, s2, at, mv);
  }

  lemma RunOfLanes8(s0: seq<int32>, s1: seq<int32>, s2: seq<int32>, at: nat, mv: int32)
    requires |s0| == |s1| == |s2| && at + 4 <= |s0| && 0 <= mv <= 0xFF
    ensures var r, g, b := LoadClamped(s0, at, mv), LoadClamped(s1, at, mv), LoadClamped(s2, at, mv);
      Pixel8(r.e0, g.e0, b.e0) + Pixel8(r.e1, g.e1, b.e1) + Pixel8(r.e2, g.e2, b.e2) + Pixel8(r.e3, g.e3, b.e3) ==
      Run(Pixels8(s0, s1, s2, mv), at, 4)
  {
    var r, g, b := LoadClamped(s0, at, mv), LoadClamped(s1, at, mv), LoadClamped(s2, at, mv);
    var px := Pixels8(s0, s1, s2, mv);
    assert px[at] == Pixel8(r.e0, g.e0, b.e0);
    assert px[at + 1] == Pixel8(r.e1, g.e1, b.e1);
    assert px[at + 2] == Pixel8(r.e2, g.e2, b.e2);
    assert px[at + 3] == Pixel8(r.e3, g.e3, b.e3);
    RunOfFour(px, at);
  }

  /** One trip of the block loop: pixels at to at + 15. */
  method Block8(s0: seq<int32>, s1: seq<int32>, s2: seq<int32>, at: nat, mv: int32) returns (x: Reg, y: Reg, z: Reg)
    requires |s0| == |s1| == |s2| && at + 16 <= |s0| && 0 <= mv <= 0xFF
    ensures x + y + z == Run(Pixels8(s0, s1, s2, mv), at, 16)
  {
    var t := Pixels4(s0, s1, s2, at, mv);
    var u := Pixels4(s0, s1, s2, at + 4, mv);
    var v := Pixels4(s0, s1, s2, at + 8, mv);
    var w := Pixels4(s0, s1, s2, at + 12, mv);
    x, y, z := Combine12(t, u, v, w);
    ghost var px := Pixels8(s0, s1, s2, mv);
    RunAppend(px, at, 4, 4);
    RunAppend(px, at, 8, 4);
    RunAppend(px, at, 12, 4);
  }

  /** One trip of the scalar loop. */
  method PutPixel8(s0: seq<int32>, s1: seq<int32>, s2: seq<int32>, dp: array<byte>, n: nat, mv: int32,
                   ghost before: seq<byte>)
    requires |s0| == |s1| == |s2| && n < |s0| && 0 <= mv <= 0xFF && 3 * |s0| <= dp.Length == |before|
    requires |Flatten(Pixels8(s0, s1, s2, mv)[..n])| == 3 * n
    requires dp[..] == Written(before, Flatten(Pixels8(s0, s1, s2, mv)[..n]))
    modifies dp
    ensures |Flatten(Pixels8(s0, s1, s2, mv)[..n + 1])| == 3 * (n + 1)
    ensures dp[..] == Written(before, Flatten(Pixels8(s0, s1, s2, mv)[..n + 1]))
  {
    ghost var done := Flatten(Pixels8(s0, s1, s2, mv)[..n]);
    var r := [LowByte(ClampTo(s0[n], mv))];
    var g := [LowByte(ClampTo(s1[n], mv))];
    var b := [LowByte(ClampTo(s2[n], mv))];
    Put(dp, 3 * n, r, before, done);
    Put(dp, 3 * n + 1, g, before, done + r);
    Put(dp, 3 * n + 2, b, before, done + r + g);
    FlattenStep(Pixels8(s0, s1, s2, mv), n);
    assert done + r + g + b == done + (r + g + b);
  }

  /** The scalar loop, from pixel `from` on. */
  method ScalarLoop8(s0: seq<int32>, s1: seq<int32>, s2: seq<int32>, dp: array<byte>, from: nat, mv: int32,
                     ghost before: seq<byte>)
    requires |s0| == |s1| == |s2| && from <= |s0| && 0 <= mv <= 0xFF && 3 * |s0| <= dp.Length == |before|
    requires |Flatten(Pixels8(s0, s1, s2, mv)[..from])| == 3 * from
    requires dp[..] == Written(before, Flatten(Pixels8(s0, s1, s2, mv)[..from]))
    modifies dp
    ensures |Row8(s0, s1, s2, mv)| == 3 * |s0|
    ensures dp[..] == Written(before, Row8(s0, s1, s2, mv))
  {
    var n := from;
    ghost var px := Pixels8(s0, s1, s2, mv);
    while n < |s0|
      invariant from <= n <= |s0|
      invariant |Flatten(px[..n])| == 3 * n
      invariant dp[..] == Written(before, Flatten(px[..n]))
    {
      PutPixel8(s0, s1, s2, dp, n, mv, before);
      n := n + 1;
    }
    assert px[..n] == px;
  }

  /** Loads, shuffles and stores sixteen pixels. */
  method PutBlock8(s0: seq<int32>, s1: seq<int32>, s2: seq<int32>, dp: array<byte>, n: nat, mv: int32,
                   ghost before: seq<byte>)
    requires |s0| == |s1| == |s2| && n + 16 <= |s0| && 0 <= mv <= 0xFF && 3 * |s0| <= dp.Length == |before|
    requires |Flatten(Pixels8(s0, s1, s2, mv)[..n])| == 3 * n
    requires dp[..] == Written(before, Flatten(Pixels8(s0, s1, s2, mv)[..n]))
    modifies dp
    ensures |Flatten(Pixels8(s0, s1, s2, mv)[..n + 16])| == 3 * (n + 16)
    ensures dp[..] == Written(before, Flatten(Pixels8(s0, s1, s2, mv)[..n + 16]))
  {
    var x, y, z := Block8(s0, s1, s2, n, mv);
    PutRun48(dp, 3 * n, x, y, z, before, Pixels8(s0, s1, s2, mv), n, 16);
  }

  /** The SSE4.1 form of ppm_interleave_8. */
  method Interleave8Sse(sp0: seq<int32>, sp1: seq<int32>, sp2: seq<int32>, dp: array<byte>, bitDepth: nat)
    requires |sp0| == |sp1| == |sp2| && 1 <= bitDepth <= 8 && 3 * |sp0| <= dp.Length
    modifies dp
    ensures |Row8(sp0, sp1, sp2, MaxVal(bitDepth))| == 3 * |sp0|
    ensures dp[..] == Written(old(dp[..]), Row8(sp0, sp1, sp2, MaxVal(bitDepth)))
  {
    var mv := MaxVal(bitDepth);
    var width := |sp0|;
    var n := 0;
    ghost var before := dp[..];
    ghost var px := Pixels8(sp0, sp1, sp2, mv);
    while n + 16 <= width
      invariant 0 <= n <= width
      invariant |Flatten(px[..n])| == 3 * n
      invariant dp[..] == Written(before, Flatten(px[..n]))
    {
      PutBlock8(sp0, sp1, sp2, dp, n, mv, before);
      n := n + 16;
    }
    ScalarLoop8(sp0, sp1, sp2, dp, n, mv, before);
  }

  /** The scalar form of ppm_interleave_8. */
  method Interleave8Scalar(sp0: seq<int32>, sp1: seq<int32>, sp2: seq<int32>, dp: array<byte>, bitDepth: nat)
    requires |sp0| == |sp1| == |sp2| && 1 <= bitDepth <= 8 && 3 * |sp0| <= dp.Length
    modifies dp
    ensures |Row8(sp0, sp1, sp2, MaxVal(bitDepth))| == 3 * |sp0|
    ensures dp[..] == Written(old(dp[..]), Row8(sp0, sp1, sp2, MaxVal(bitDepth)))
  {
    var mv := MaxVal(bitDepth);
    ScalarLoop8(sp0, sp1, sp2, dp, 0, mv, dp[..]);
  }

  // ---------------------------------------------------------------------------
  // What the rows mean
  // ---------------------------------------------------------------------------

  /** Component c of pixel x, clamped, sits at byte 3x + c of an 8-bit row. */
  lemma Row8Sample(s0: seq<int32>, s1: seq<int32>, s2: seq<int32>, mv: int32, x: nat)
    requires |s0| == |s1| == |s2| && 0 <= mv <= 0xFF && x < |s0|
    ensures var row := Row8(s0, s1, s2, mv);
      && |row| == 3 * |s0|
      && row[3 * x] == ClampTo(s0[x], mv) && row[3 * x + 1] == ClampTo(s1[x], mv)
      && row[3 * x + 2] == ClampTo(s2[x], mv)
  {
    var px := Pixels8(s0, s1, s2, mv);
    FlattenLength(px, 3);
    FlattenAt(px, 3, x, 0);
    FlattenAt(px, 3, x, 1);
    FlattenAt(px, 3, x, 2);
  }

  /** Reading the two bytes of component c of pixel x high byte first gives the clamped sample. */
  lemma Row16Sample(s0: seq<int32>, s1: seq<int32>, s2: seq<int32>, mv: int32, x: nat)
    requires |s0| == |s1| == |s2| && 0 <= mv <= 0xFFFF && x < |s0|
    ensures |Row16(s0, s1, s2, mv)| == 6 * |s0|
    ensures var p := Row16(s0, s1, s2, mv)[6 * x..6 * x + 6];
      && Word2(p[1], p[0]) == ClampTo(s0[x], mv)
      && Word2(p[3], p[2]) == ClampTo(s1[x], mv)
      && Word2(p[5], p[4]) == ClampTo(s2[x], mv)
  {
    Row16At(s0, s1, s2, mv, x);
    Pixel16Words(ClampTo(s0[x], mv), ClampTo(s1[x], mv), ClampTo(s2[x], mv));
  }

  lemma Pixel16Words(r: uint16, g: uint16, b: uint16)
    ensures var p := Pixel16(r, g, b);
      Word2(p[1], p[0]) == r && Word2(p[3], p[2]) == g && Word2(p[5], p[4]) == b
  {
    BytesOfU16(r);
    BytesOfU16(g);
    BytesOfU16(b);
  }

  lemma Row16At(s0: seq<int32>, s1: seq<int32>, s2: seq<int32>, mv: int32, x: nat)
    requires |s0| == |s1| == |s2| && 0 <= mv <= 0xFFFF && x < |s0|
    ensures |Row16(s0, s1, s2, mv)| == 6 * |s0|
    ensures Row16(s0, s1, s2, mv)[6 * x..6 * x + 6] ==
        Pixel16(ClampTo(s0[x], mv), ClampTo(s1[x], mv), ClampTo(s2[x], mv))
  {
    var px := Pixels16(s0, s1, s2, mv);
    FlattenLength(px, 6);
    forall k | 0 <= k < 6
      ensures Flatten(px)[6 * x + k] == px[x][k]
    {
      FlattenAt(px, 6, x, k);
    }
    SliceIs(Flatten(px), 6 * x, px[x]);
  }
}
