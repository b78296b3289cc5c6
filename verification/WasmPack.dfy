/** The WebAssembly SIMD sample packers of subprojects/src/wrapper.cpp: `pack_samples` and the
    8-bit RGB interleaver of `invoke_decoder_stream`, SIMD and scalar forms.

    The forms are modelled for every `maxval`; `Simd8EqualsScalar8` and `Simd16EqualsScalar16`
    say for which values they are the same function. */
module WasmPack {
  import opened MachineInts
  import opened Simd
  import opened ByteRows
  import opened PackKernels

  // ---------------------------------------------------------------------------
  // One sample
  // ---------------------------------------------------------------------------

  /** The scalar clamp: 0 is tested first. */
  function ClampScalar(v: int32, maxval: int32): int32 {
    if v < 0 then 0 else if v > maxval then maxval else v
  }

  /** i32x4.min_s(i32x4.max_s(v, 0), maxval), one lane. */
  function ClampSimd(v: int32, maxval: int32): int32 {
    Min(Max(v, 0), maxval)
  }

  /** The byte the scalar form writes: the clamped sample, truncated. */
  function Scalar8(v: int32, maxval: int32): byte {
    LowByte(ClampScalar(v, maxval))
  }

  /** The byte the SIMD form writes: the clamped sample, narrowed twice. */
  function Simd8(v: int32, maxval: int32): byte {
    SatU8(SatI16(ClampSimd(v, maxval)))
  }

  /** The two bytes the scalar form writes for a 16-bit sample. */
  function Scalar16(v: int32, maxval: int32): seq<byte> {
    Be(ClampScalar(v, maxval))
  }

  function Simd16(v: int32, maxval: int32): seq<byte> {
    Be(SatU16(ClampSimd(v, maxval)))
  }

  /** SIMD and scalar 8-bit packing are the same function of the sample exactly when maxval fits
      a byte, or is negative with a zero low byte. */
  lemma Simd8EqualsScalar8(maxval: int32)
    ensures (forall v: int32 :: Simd8(v, maxval) == Scalar8(v, maxval)) <==>
      (0 <= maxval <= 0xFF || (maxval < 0 && maxval % 0x100 == 0))
  {
    if 0 <= maxval <= 0xFF || (maxval < 0 && maxval % 0x100 == 0) {
    } else if maxval > 0xFF {
      assert Simd8(0x100, maxval) == 0xFF && Scalar8(0x100, maxval) == 0;
    } else {
      assert Simd8(0, maxval) == 0 && Scalar8(0, maxval) == maxval % 0x100;
    }
  }

  lemma Simd16EqualsScalar16(maxval: int32)
    ensures (forall v: int32 :: Simd16(v, maxval) == Scalar16(v, maxval)) <==>
      (0 <= maxval <= 0xFFFF || (maxval < 0 && maxval % 0x1_0000 == 0))
  {
    if 0 <= maxval <= 0xFFFF {
    } else if maxval > 0xFFFF {
      assert Simd16(0x1_0000, maxval)[0] == 0xFF && Scalar16(0x1_0000, maxval)[0] == 0;
    } else {
      LowBits(maxval, 0);
      forall v: int32
        ensures Simd16(v, maxval) == [0, 0]
        ensures Scalar16(v, maxval) == if v < 0 then [0, 0] else Be(maxval)
      {
      }
      assert Scalar16(0, maxval)[0] == HighByte(maxval) && Scalar16(0, maxval)[1] == LowByte(maxval);
      assert Simd16(0, maxval) == [0, 0];
    }
  }

  /** The two forms write one sample alike at w bits, 8 or 16: for a negative maxval when the sample is
      negative or maxval has no low bits, otherwise when the clamped sample fits, or its low bits are all
      ones. */
  predicate SameSample(v: int32, maxval: int32, w: nat)
    requires w == 8 || w == 16
  {
    var m := if w == 8 then 0x100 else 0x1_0000;
    if maxval < 0 then v < 0 || maxval % m == 0
    else ClampTo(v, maxval) < m || ClampTo(v, maxval) % m == m - 1
  }

  lemma SameSample8(v: int32, maxval: int32)
    ensures Simd8(v, maxval) == Scalar8(v, maxval) <==> SameSample(v, maxval, 8)
  {
  }

  lemma SameSample16(v: int32, maxval: int32)
    ensures Simd16(v, maxval) == Scalar16(v, maxval) <==> SameSample(v, maxval, 16)
  {
    var s, c := SatU16(ClampSimd(v, maxval)), ClampScalar(v, maxval);
    LowBits(s, c);
    assert Be(s)[0] == HighByte(s) && Be(s)[1] == LowByte(s) && Be(c)[0] == HighByte(c) && Be(c)[1] == LowByte(c);
  }

  // ---------------------------------------------------------------------------
  // What the forms write
  // ---------------------------------------------------------------------------

  function Scalar8Groups(src: seq<int32>, maxval: int32): (g: seq<seq<byte>>)
    ensures |g| == |src| && Uniform(g, 1)
  {
    seq(|src|, i requires 0 <= i < |src| => [Scalar8(src[i], maxval)])
  }

  function Simd8Groups(src: seq<int32>, maxval: int32): (g: seq<seq<byte>>)
    ensures |g| == |src| && Uniform(g, 1)
  {
    seq(|src|, i requires 0 <= i < |src| =>
      if i < Blocked(|src|) then [Simd8(src[i], maxval)] else [Scalar8(src[i], maxval)])
  }

  function Scalar16Groups(src: seq<int32>, maxval: int32): (g: seq<seq<byte>>)
    ensures |g| == |src| && Uniform(g, 2)
  {
    seq(|src|, i requires 0 <= i < |src| => Scalar16(src[i], maxval))
  }

  function Simd16Groups(src: seq<int32>, maxval: int32): (g: seq<seq<byte>>)
    ensures |g| == |src| && Uniform(g, 2)
  {
    seq(|src|, i requires 0 <= i < |src| =>
      if i < 8 * (|src| / 8) then Simd16(src[i], maxval) else Scalar16(src[i], maxval))
  }

  /** The SIMD and scalar packers write the same bytes exactly when every sample of the full blocks comes
      out alike: sixteen samples a block at one byte, eight at two. */
  lemma PackSamplesAgree(src: seq<int32>, maxval: int32)
    ensures Flatten(Simd8Groups(src, maxval)) == Flatten(Scalar8Groups(src, maxval)) <==>
      forall i :: 0 <= i < Blocked(|src|) ==> SameSample(src[i], maxval, 8)
    ensures Flatten(Simd16Groups(src, maxval)) == Flatten(Scalar16Groups(src, maxval)) <==>
      forall i :: 0 <= i < 8 * (|src| / 8) ==> SameSample(src[i], maxval, 16)
  {
    PackedAgree8(src, maxval);
    PackedAgree16(src, maxval);
  }

  lemma PackedAgree8(src: seq<int32>, maxval: int32)
    ensures Flatten(Simd8Groups(src, maxval)) == Flatten(Scalar8Groups(src, maxval)) <==>
      forall i :: 0 <= i < Blocked(|src|) ==> SameSample(src[i], maxval, 8)
  {
    var p, q := Simd8Groups(src, maxval), Scalar8Groups(src, maxval);
    forall i | 0 <= i < Blocked(|src|)
      ensures p[i] == q[i] <==> SameSample(src[i], maxval, 8)
    {
      SameSample8(src[i], maxval);
      assert p[i][0] == Simd8(src[i], maxval) && q[i][0] == Scalar8(src[i], maxval);
    }
    if Flatten(p) == Flatten(q) {
      FlattenInjective(p, q, 1);
    } else {
      assert p != q;
      var i :| 0 <= i < |p| && p[i] != q[i];
      assert i < Blocked(|src|);
    }
  }

  lemma PackedAgree16(src: seq<int32>, maxval: int32)
    ensures Flatten(Simd16Groups(src, maxval)) == Flatten(Scalar16Groups(src, maxval)) <==>
      forall i :: 0 <= i < 8 * (|src| / 8) ==> SameSample(src[i], maxval, 16)
  {
    var p, q := Simd16Groups(src, maxval), Scalar16Groups(src, maxval);
    forall i | 0 <= i < 8 * (|src| / 8)
      ensures p[i] == q[i] <==> SameSample(src[i], maxval, 16)
    {
      SameSample16(src[i], maxval);
    }
    if Flatten(p) == Flatten(q) {
      FlattenInjective(p, q, 2);
    } else {
      assert p != q;
      var i :| 0 <= i < |p| && p[i] != q[i];
      assert i < 8 * (|src| / 8);
    }
  }

  /** Byte i of the packed samples is sample i, clamped to 0..maxval, in either form. */
  lemma PackedSample8(src: seq<int32>, maxval: int32, i: nat)
    requires 0 <= maxval <= 0xFF && i < |src|
    ensures |Flatten(Simd8Groups(src, maxval))| == |Flatten(Scalar8Groups(src, maxval))| == |src|
    ensures Flatten(Simd8Groups(src, maxval))[i] == Flatten(Scalar8Groups(src, maxval))[i] ==
            if src[i] < 0 then 0 else if src[i] > maxval then maxval else src[i]
  {
    ByteAt(Simd8Groups(src, maxval), i, ClampScalar(src[i], maxval));
    ByteAt(Scalar8Groups(src, maxval), i, ClampScalar(src[i], maxval));
  }

  lemma ByteAt(g: seq<seq<byte>>, i: nat, v: byte)
    requires Uniform(g, 1) && i < |g| && g[i] == [v]
    ensures |Flatten(g)| == |g| && Flatten(g)[i] == v
  {
    FlattenLength(g, 1);
    FlattenAt(g, 1, i, 0);
  }

  /** Bytes 2i and 2i + 1 are sample i, clamped to 0..maxval, the high byte first, in either form. */
  lemma PackedSample16(src: seq<int32>, maxval: int32, i: nat)
    requires 0 <= maxval <= 0xFFFF && i < |src|
    ensures BytesShow(Flatten(Simd16Groups(src, maxval)), src, maxval, i)
    ensures BytesShow(Flatten(Scalar16Groups(src, maxval)), src, maxval, i)
  {
    BeShows(src[i], maxval);
    PairAt(Simd16Groups(src, maxval), i);
    PairAt(Scalar16Groups(src, maxval), i);
  }

  predicate BytesShow(bytes: seq<byte>, src: seq<int32>, maxval: int32, i: nat)
    requires i < |src|
  {
    && |bytes| == 2 * |src|
    && 0x100 * bytes[2 * i] as int + bytes[2 * i + 1] as int ==
       if src[i] < 0 then 0 else if src[i] > maxval then maxval else src[i]
  }

  lemma PairAt(g: seq<seq<byte>>, i: nat)
    requires Uniform(g, 2) && i < |g|
    ensures |Flatten(g)| == 2 * |g| && Flatten(g)[2 * i] == g[i][0] && Flatten(g)[2 * i + 1] == g[i][1]
  {
    FlattenLength(g, 2);
    FlattenAt(g, 2, i, 0);
    FlattenAt(g, 2, i, 1);
  }

  lemma BeShows(v: int32, maxval: int32)
    requires 0 <= maxval <= 0xFFFF
    ensures |Simd16(v, maxval)| == |Scalar16(v, maxval)| == 2
    ensures 0x100 * Simd16(v, maxval)[0] as int + Simd16(v, maxval)[1] as int == ClampScalar(v, maxval)
    ensures 0x100 * Scalar16(v, maxval)[0] as int + Scalar16(v, maxval)[1] as int == ClampScalar(v, maxval)
  {
  }

  // ---------------------------------------------------------------------------
  // pack_samples, 8 bits
  // ---------------------------------------------------------------------------

  /** i32x4.min_s(i32x4.max_s(x, 0), maxval) */
  function ClampLanes(x: I32x4, maxval: int32): (v: I32x4)
    ensures v == I32x4(ClampSimd(x.e0, maxval), ClampSimd(x.e1, maxval), ClampSimd(x.e2, maxval),
                       ClampSimd(x.e3, maxval))
  {
    MinI32(MaxI32(x, SplatI32(0)), SplatI32(maxval))
  }

  function NarrowLanes(x: I32x4): (s: seq<byte>)
    ensures |s| == 4
  {
    [SatU8(SatI16(x.e0)), SatU8(SatI16(x.e1)), SatU8(SatI16(x.e2)), SatU8(SatI16(x.e3))]
  }

  /** i8x16.narrow_i16x8_u of two i16x8.narrow_i32x4_s. */
  method Narrow16(a: I32x4, b: I32x4, c: I32x4, d: I32x4) returns (v: Reg)
    ensures v == NarrowLanes(a) + NarrowLanes(b) + NarrowLanes(c) + NarrowLanes(d)
  {
    v := PackUI16(PackSI32(a, b), PackSI32(c, d));
    assert v[..4] == NarrowLanes(a);
    assert v[4..8] == NarrowLanes(b);
    assert v[8..12] == NarrowLanes(c);
    assert v[12..] == NarrowLanes(d);
    assert v == v[..4] + v[4..8] + v[8..12] + v[12..];
  }

  /** Four samples clamped and narrowed. */
  function Quad(src: seq<int32>, at: nat, maxval: int32): (s: seq<byte>)
    requires at + 4 <= |src|
    ensures |s| == 4
  {
    NarrowLanes(ClampLanes(LoadI32(src, at), maxval))
  }

  lemma QuadBytes(src: seq<int32>, at: nat, maxval: int32)
    requires at + 4 <= |src|
    ensures Quad(src, at, maxval) == [Simd8(src[at], maxval), Simd8(src[at + 1], maxval), Simd8(src[at + 2], maxval),
                                      Simd8(src[at + 3], maxval)]
  {
  }

  lemma RunOfQuad(src: seq<int32>, maxval: int32, i: nat)
    requires i + 4 <= Blocked(|src|)
    ensures Quad(src, i, maxval) == Run(Simd8Groups(src, maxval), i, 4)
  {
    var g := Simd8Groups(src, maxval);
    QuadBytes(src, i, maxval);
    var s := Quad(src, i, maxval);
    assert g[i] == [s[0]] && g[i + 1] == [s[1]] && g[i + 2] == [s[2]] && g[i + 3] == [s[3]];
    RunOfFour(g, i);
  }

  /** One trip of the block loop: samples i to i + 15. */
  method BlockSimd8(src: seq<int32>, maxval: int32, i: nat) returns (v: Reg)
    requires i + 16 <= Blocked(|src|)
    ensures v == Run(Simd8Groups(src, maxval), i, 16)
  {
    v := Narrow16(ClampLanes(LoadI32(src, i), maxval), ClampLanes(LoadI32(src, i + 4), maxval),
                  ClampLanes(LoadI32(src, i + 8), maxval), ClampLanes(LoadI32(src, i + 12), maxval));
    RunOfQuad(src, maxval, i);
    RunOfQuad(src, maxval, i + 4);
    RunOfQuad(src, maxval, i + 8);
    RunOfQuad(src, maxval, i + 12);
    ghost var g := Simd8Groups(src, maxval);
    RunAppend(g, i, 4, 4);
    RunAppend(g, i, 8, 4);
    RunAppend(g, i, 12, 4);
  }

  /** The scalar loop, from sample i on. */
  method ScalarLoop8(src: seq<int32>, dst: array<byte>, maxval: int32, from: nat, ghost before: seq<byte>,
                     ghost g: seq<seq<byte>>)
    requires from <= |src| == |g| <= dst.Length == |before|
    requires g[from..] == Scalar8Groups(src, maxval)[from..]
    requires |Flatten(g[..from])| == from
    requires dst[..] == Written(before, Flatten(g[..from]))
    modifies dst
    ensures |Flatten(g)| == |src|
    ensures dst[..] == Written(before, Flatten(g))
  {
    var i := from;
    while i < |src|
      invariant from <= i <= |src|
      invariant |Flatten(g[..i])| == i
      invariant dst[..] == Written(before, Flatten(g[..i]))
    {
      var v := ClampScalar(src[i], maxval);
      assert g[i] == g[from..][i - from] == Scalar8Groups(src, maxval)[i];
      PutGroup(dst, i, [LowByte(v)], before, g, i);
      i := i + 1;
    }
    assert g[..i] == g;
  }

  /** pack_samples with bytes_per_sample == 1, SIMD form. */
  method PackSamples8Simd(src: seq<int32>, dst: array<byte>, maxval: int32)
    requires |src| <= dst.Length
    modifies dst
    ensures |Flatten(Simd8Groups(src, maxval))| == |src|
    ensures dst[..] == Written(old(dst[..]), Flatten(Simd8Groups(src, maxval)))
  {
    var i := 0;
    ghost var k: nat := 0;
    ghost var before, g := dst[..], Simd8Groups(src, maxval);
    while i + 16 <= |src|
      invariant 0 <= i == 16 * k <= |src|
      invariant |Flatten(g[..i])| == i
      invariant dst[..] == Written(before, Flatten(g[..i]))
    {
      Blocks(k, |src|);
      var v := BlockSimd8(src, maxval, i);
      PutRun(dst, i, v, before, g, i, 16);
      i, k := i + 16, k + 1;
    }
    Blocks(k, |src|);
    assert g[i..] == Scalar8Groups(src, maxval)[i..];
    ScalarLoop8(src, dst, maxval, i, before, g);
  }

  /** pack_samples with bytes_per_sample == 1, scalar form. */
  method PackSamples8Scalar(src: seq<int32>, dst: array<byte>, maxval: int32)
    requires |src| <= dst.Length
    modifies dst
    ensures |Flatten(Scalar8Groups(src, maxval))| == |src|
    ensures dst[..] == Written(old(dst[..]), Flatten(Scalar8Groups(src, maxval)))
  {
    ScalarLoop8(src, dst, maxval, 0, dst[..], Scalar8Groups(src, maxval));
  }

  // ---------------------------------------------------------------------------
  // pack_samples, 16 bits
  // ---------------------------------------------------------------------------

  const SWAP_LANES: seq<nat> := [1, 0, 3, 2, 5, 4, 7, 6, 9, 8, 11, 10, 13, 12, 15, 14]

  /** i16x8.narrow_i32x4_u, then each pair of bytes swapped. */
  method NarrowBe(a: I32x4, b: I32x4) returns (v: Reg)
    ensures [v[0], v[1]] == Be(SatU16(a.e0))
    ensures [v[2], v[3]] == Be(SatU16(a.e1))
    ensures [v[4], v[5]] == Be(SatU16(a.e2))
    ensures [v[6], v[7]] == Be(SatU16(a.e3))
    ensures [v[8], v[9]] == Be(SatU16(b.e0))
    ensures [v[10], v[11]] == Be(SatU16(b.e1))
    ensures [v[12], v[13]] == Be(SatU16(b.e2))
    ensures [v[14], v[15]] == Be(SatU16(b.e3))
  {
    var u16le := AsBytes16(PackUI32(a, b));
    v := WasmShuffle(u16le, u16le, SWAP_LANES);
  }

  /** One trip of the block loop: samples i to i + 7. */
  method BlockSimd16(src: seq<int32>, maxval: int32, i: nat) returns (v: Reg)
    requires i + 8 <= 8 * (|src| / 8)
    ensures v == Run(Simd16Groups(src, maxval), i, 8)
  {
    var a, b := ClampLanes(LoadI32(src, i), maxval), ClampLanes(LoadI32(src, i + 4), maxval);
    v := NarrowBe(a, b);
    Simd16Lanes(src, maxval, i, a);
    Simd16Lanes(src, maxval, i + 4, b);
    RunOfPairs(Simd16Groups(src, maxval), i, v);
  }

  lemma Simd16Lanes(src: seq<int32>, maxval: int32, i: nat, x: I32x4)
    requires i + 4 <= 8 * (|src| / 8) && x == ClampLanes(LoadI32(src, i), maxval)
    ensures Simd16Groups(src, maxval)[i] == Be(SatU16(x.e0)) && Simd16Groups(src, maxval)[i + 1] == Be(SatU16(x.e1))
    ensures Simd16Groups(src, maxval)[i + 2] == Be(SatU16(x.e2)) && Simd16Groups(src, maxval)[i + 3] == Be(SatU16(x.e3))
  {
  }

  /** The scalar loop, from sample i on. */
  method ScalarLoop16(src: seq<int32>, dst: array<byte>, maxval: int32, from: nat, ghost before: seq<byte>,
                      ghost g: seq<seq<byte>>)
    requires from <= |src| == |g| && 2 * |src| <= dst.Length == |before|
    requires g[from..] == Scalar16Groups(src, maxval)[from..]
    requires |Flatten(g[..from])| == 2 * from
    requires dst[..] == Written(before, Flatten(g[..from]))
    modifies dst
    ensures |Flatten(g)| == 2 * |src|
    ensures dst[..] == Written(before, Flatten(g))
  {
    var i := from;
    while i < |src|
      invariant from <= i <= |src|
      invariant |Flatten(g[..i])| == 2 * i
      invariant dst[..] == Written(before, Flatten(g[..i]))
    {
      var v := ClampScalar(src[i], maxval);
      assert g[i] == g[from..][i - from] == Scalar16Groups(src, maxval)[i];
      PutGroup(dst, 2 * i, [HighByte(v), LowByte(v)], before, g, i);
      i := i + 1;
    }
    assert g[..i] == g;
  }

  /** pack_samples with bytes_per_sample == 2, SIMD form. */
  method PackSamples16Simd(src: seq<int32>, dst: array<byte>, maxval: int32)
    requires 2 * |src| <= dst.Length
    modifies dst
    ensures |Flatten(Simd16Groups(src, maxval))| == 2 * |src|
    ensures dst[..] == Written(old(dst[..]), Flatten(Simd16Groups(src, maxval)))
  {
    var i := 0;
    ghost var k: nat := 0;
    ghost var before, g := dst[..], Simd16Groups(src, maxval);
    while i + 8 <= |src|
      invariant 0 <= i == 8 * k <= |src|
      invariant |Flatten(g[..i])| == 2 * i
      invariant dst[..] == Written(before, Flatten(g[..i]))
    {
      EightBlocks(k, |src|);
      var v := BlockSimd16(src, maxval, i);
      PutRun(dst, 2 * i, v, before, g, i, 8);
      i, k := i + 8, k + 1;
    }
    EightBlocks(k, |src|);
    assert g[i..] == Scalar16Groups(src, maxval)[i..];
    ScalarLoop16(src, dst, maxval, i, before, g);
  }

  /** pack_samples with bytes_per_sample == 2, scalar form. */
  method PackSamples16Scalar(src: seq<int32>, dst: array<byte>, maxval: int32)
    requires 2 * |src| <= dst.Length
    modifies dst
    ensures |Flatten(Scalar16Groups(src, maxval))| == 2 * |src|
    ensures dst[..] == Written(old(dst[..]), Flatten(Scalar16Groups(src, maxval)))
  {
    ScalarLoop16(src, dst, maxval, 0, dst[..], Scalar16Groups(src, maxval));
  }

  // ---------------------------------------------------------------------------
  // invoke_decoder_stream: three 8-bit components interleaved
  // ---------------------------------------------------------------------------

  /** The samples with the DC offset added. */
  function Shift(src: seq<int32>, off: int32): (s: seq<int32>)
    requires NoOverflow(src, off)
    ensures |s| == |src|
  {
    seq(|src|, x requires 0 <= x < |src| => src[x] as int + off)
  }

  lemma AddIsShift(src: seq<int32>, at: nat, off: int32)
    requires NoOverflow(src, off) && at + 4 <= |src|
    ensures AddI32(LoadI32(src, at), SplatI32(off)) == LoadI32(Shift(src, off), at)
  {
    var s := Shift(src, off);
    assert s[at] == src[at] as int + off && s[at + 1] == src[at + 1] as int + off;
    assert s[at + 2] == src[at + 2] as int + off && s[at + 3] == src[at + 3] as int + off;
  }

  /** The pixels the scalar loop writes for shifted components. */
  function ScalarRgb(r: seq<int32>, g: seq<int32>, b: seq<int32>, maxval: int32): (px: seq<seq<byte>>)
    requires |r| == |g| == |b|
    ensures |px| == |r| && Uniform(px, 3)
  {
    seq(|r|, x requires 0 <= x < |r| => Pixel8(Scalar8(r[x], maxval), Scalar8(g[x], maxval), Scalar8(b[x], maxval)))
  }

  /** The pixels the SIMD form writes. */
  function SimdRgb(r: seq<int32>, g: seq<int32>, b: seq<int32>, maxval: int32): (px: seq<seq<byte>>)
    requires |r| == |g| == |b|
    ensures |px| == |r| && Uniform(px, 3)
  {
    seq(|r|, x requires 0 <= x < |r| =>
      if x < Blocked(|r|) then Pixel8(Simd8(r[x], maxval), Simd8(g[x], maxval), Simd8(b[x], maxval))
      else Pixel8(Scalar8(r[x], maxval), Scalar8(g[x], maxval), Scalar8(b[x], maxval)))
  }

  /** The two forms write the same row exactly when every component of every pixel of the full blocks comes
      out alike. */
  lemma RgbAgree(r: seq<int32>, g: seq<int32>, b: seq<int32>, maxval: int32)
    requires |r| == |g| == |b|
    ensures Flatten(SimdRgb(r, g, b, maxval)) == Flatten(ScalarRgb(r, g, b, maxval)) <==>
      forall x :: 0 <= x < Blocked(|r|) ==>
        SameSample(r[x], maxval, 8) && SameSample(g[x], maxval, 8) && SameSample(b[x], maxval, 8)
  {
    var p, q := SimdRgb(r, g, b, maxval), ScalarRgb(r, g, b, maxval);
    forall x | 0 <= x < Blocked(|r|)
      ensures p[x] == q[x] <==>
        SameSample(r[x], maxval, 8) && SameSample(g[x], maxval, 8) && SameSample(b[x], maxval, 8)
    {
      SameSample8(r[x], maxval);
      SameSample8(g[x], maxval);
      SameSample8(b[x], maxval);
      Pixel8Equal(Simd8(r[x], maxval), Simd8(g[x], maxval), Simd8(b[x], maxval),
                  Scalar8(r[x], maxval), Scalar8(g[x], maxval), Scalar8(b[x], maxval));
    }
    if Flatten(p) == Flatten(q) {
      FlattenInjective(p, q, 3);
    } else {
      assert p != q;
      var x :| 0 <= x < |p| && p[x] != q[x];
      assert x < Blocked(|r|);
    }
  }

  /** Byte 3x + c of the row is component c of pixel x, clamped to 0..maxval. */
  lemma RgbSample(r: seq<int32>, g: seq<int32>, b: seq<int32>, maxval: int32, x: nat)
    requires |r| == |g| == |b| && 0 <= maxval <= 0xFF && x < |r|
    ensures var row := Flatten(SimdRgb(r, g, b, maxval));
      && |row| == 3 * |r|
      && row[3 * x] == ClampTo(r[x], maxval) && row[3 * x + 1] == ClampTo(g[x], maxval)
      && row[3 * x + 2] == ClampTo(b[x], maxval)
  {
    RgbAgree(r, g, b, maxval);
    ClampFits(r[x], maxval);
    ClampFits(g[x], maxval);
    ClampFits(b[x], maxval);
    PixelAt(ScalarRgb(r, g, b, maxval), x, ClampTo(r[x], maxval), ClampTo(g[x], maxval), ClampTo(b[x], maxval));
  }

  lemma ClampFits(v: int32, maxval: int32)
    requires 0 <= maxval <= 0xFF
    ensures Scalar8(v, maxval) == ClampTo(v, maxval)
  {
  }

  lemma PixelAt(px: seq<seq<byte>>, x: nat, r: byte, g: byte, b: byte)
    requires Uniform(px, 3) && x < |px| && px[x] == Pixel8(r, g, b)
    ensures |Flatten(px)| == 3 * |px| && 3 * x + 2 < |Flatten(px)|
    ensures Flatten(px)[3 * x] == r && Flatten(px)[3 * x + 1] == g && Flatten(px)[3 * x + 2] == b
  {
    FlattenLength(px, 3);
    FlattenAt(px, 3, x, 0);
    FlattenAt(px, 3, x, 1);
    FlattenAt(px, 3, x, 2);
  }

  /** A sample with its offset, clamped to 0..maxval. */
  predicate ShowsSample(b: byte, v: int32, off: int32, maxval: int32) {
    var s := v as int + off;
    b as int == if s < 0 then 0 else if s > maxval then maxval else s
  }

  /** Bytes 3x, 3x + 1 and 3x + 2 of the row are the red, green and blue sample of pixel x. */
  predicate RgbShown(row: seq<byte>, r: seq<int32>, g: seq<int32>, b: seq<int32>, off: (int32, int32, int32),
                     maxval: int32)
    requires |r| == |g| == |b| && 3 * |r| <= |row|
  {
    forall x: nat :: x < |r| ==>
      && ShowsSample(row[3 * x], r[x], off.0, maxval) && ShowsSample(row[3 * x + 1], g[x], off.1, maxval)
      && ShowsSample(row[3 * x + 2], b[x], off.2, maxval)
  }

  lemma RgbRow(r: seq<int32>, g: seq<int32>, b: seq<int32>, off: (int32, int32, int32), maxval: int32,
               before: seq<byte>)
    requires |r| == |g| == |b| && NoOverflow(r, off.0) && NoOverflow(g, off.1) && NoOverflow(b, off.2)
    requires 3 * |r| <= |before| && 0 <= maxval <= 0xFF
    ensures var row := Flatten(SimdRgb(Shift(r, off.0), Shift(g, off.1), Shift(b, off.2), maxval));
      && row == Flatten(ScalarRgb(Shift(r, off.0), Shift(g, off.1), Shift(b, off.2), maxval)) && |row| == 3 * |r|
      && RgbShown(Written(before, row), r, g, b, off, maxval)
  {
    var s, t, u := Shift(r, off.0), Shift(g, off.1), Shift(b, off.2);
    var row := Flatten(SimdRgb(s, t, u, maxval));
    RgbAgree(s, t, u, maxval);
    FlattenLength(SimdRgb(s, t, u, maxval), 3);
    forall x: nat | x < |r|
      ensures ShowsSample(Written(before, row)[3 * x], r[x], off.0, maxval)
      ensures ShowsSample(Written(before, row)[3 * x + 1], g[x], off.1, maxval)
      ensures ShowsSample(Written(before, row)[3 * x + 2], b[x], off.2, maxval)
    {
      RgbSample(s, t, u, maxval, x);
    }
  }

  /** clamp_narrow16: sixteen samples shifted, clamped and narrowed. */
  method ClampNarrow16(src: seq<int32>, at: nat, off: int32, maxval: int32) returns (v: Reg)
    requires NoOverflow(src, off) && at + 16 <= |src|
    ensures v == Sixteen(Shift(src, off), at, maxval)
  {
    var voff := SplatI32(off);
    AddIsShift(src, at, off);
    AddIsShift(src, at + 4, off);
    AddIsShift(src, at + 8, off);
    AddIsShift(src, at + 12, off);
    v := Narrow16(ClampLanes(AddI32(LoadI32(src, at), voff), maxval),
                  ClampLanes(AddI32(LoadI32(src, at + 4), voff), maxval),
                  ClampLanes(AddI32(LoadI32(src, at + 8), voff), maxval),
                  ClampLanes(AddI32(LoadI32(src, at + 12), voff), maxval));
    FourQuads(Shift(src, off), at, maxval);
  }

  /** The bytes of samples at to at + 15. */
  function Sixteen(src: seq<int32>, at: nat, maxval: int32): (s: seq<byte>)
    requires at + 16 <= |src|
    ensures |s| == 16
  {
    seq<byte>(16, i requires 0 <= i < 16 => Simd8(src[at + i], maxval))
  }

  lemma QuadOfSixteen(src: seq<int32>, at: nat, maxval: int32, j: nat)
    requires at + 16 <= |src| && j + 4 <= 16
    ensures Quad(src, at + j, maxval) == Sixteen(src, at, maxval)[j..j + 4]
  {
    QuadBytes(src, at + j, maxval);
  }

  lemma Quarters(s: seq<byte>, a: seq<byte>, b: seq<byte>, c: seq<byte>, d: seq<byte>)
    requires |s| == 16 && a == s[0..4] && b == s[4..8] && c == s[8..12] && d == s[12..16]
    ensures a + b + c + d == s
  {
  }

  lemma FourQuads(src: seq<int32>, at: nat, maxval: int32)
    requires at + 16 <= |src|
    ensures Quad(src, at, maxval) + Quad(src, at + 4, maxval) + Quad(src, at + 8, maxval) +
        Quad(src, at + 12, maxval) == Sixteen(src, at, maxval)
  {
    QuadOfSixteen(src, at, maxval, 0);
    QuadOfSixteen(src, at, maxval, 4);
    QuadOfSixteen(src, at, maxval, 8);
    QuadOfSixteen(src, at, maxval, 12);
    Quarters(Sixteen(src, at, maxval), Quad(src, at, maxval), Quad(src, at + 4, maxval), Quad(src, at + 8, maxval),
             Quad(src, at + 12, maxval));
  }

  /** Sixteen pixels of three narrowed registers. */
  lemma RunOfRgbBlock(r: seq<int32>, g: seq<int32>, b: seq<int32>, maxval: int32, at: nat, x: seq<byte>,
                      y: seq<byte>, z: seq<byte>)
    requires |r| == |g| == |b| && at + 16 <= Blocked(|r|)
    requires x == Sixteen(r, at, maxval) && y == Sixteen(g, at, maxval) && z == Sixteen(b, at, maxval)
    ensures Triples(x, y, z) == Run(SimdRgb(r, g, b, maxval), at, 16)
  {
    var px := SimdRgb(r, g, b, maxval);
    forall i | 0 <= i < 16
      ensures Pixel8(x[i], y[i], z[i]) == px[at + i]
    {
    }
    RunOfTriples(px, at, x, y, z);
  }

  const PAIRS_LOW: seq<nat> := [0, 16, 1, 17, 2, 18, 3, 19, 4, 20, 5, 21, 6, 22, 7, 23]
  const PAIRS_HIGH: seq<nat> := [8, 24, 9, 25, 10, 26, 11, 27, 12, 28, 13, 29, 14, 30, 15, 31]
  const FIRST: seq<nat> := [0, 1, 16, 2, 3, 17, 4, 5, 18, 6, 7, 19, 8, 9, 20, 10]
  const BRIDGE: seq<nat> := [11, 12, 13, 14, 15, 16, 17, 18, 19, 20, 21, 22, 23, 24, 25, 26]
  const SECOND: seq<nat> := [0, 21, 1, 2, 22, 3, 4, 23, 5, 6, 24, 7, 8, 25, 9, 10]
  const THIRD: seq<nat> := [10, 22, 23, 11, 24, 25, 12, 26, 27, 13, 28, 29, 14, 30, 31, 15]

  /** Six shuffles: three registers of one component become three of whole pixels. */
  method WasmInterleave48(a: Reg, b: Reg, c: Reg) returns (x: Reg, y: Reg, z: Reg)
    ensures x + y + z == Triples(a, b, c)
  {
    var rg0, mid, rg1 := PairUp(a, b);
    x := Out0(rg0, a, b, c);
    y := Out1(mid, a, b, c);
    z := Out2(rg1, a, b, c);
    JoinTriples(x, y, z, a, b, c);
  }

  method PairUp(a: Reg, b: Reg) returns (rg0: Reg, mid: Reg, rg1: Reg)
    ensures rg0[..11] == [a[0], b[0], a[1], b[1], a[2], b[2], a[3], b[3], a[4], b[4], a[5]]
    ensures mid[..11] == [b[5], a[6], b[6], a[7], b[7], a[8], b[8], a[9], b[9], a[10], b[10]]
    ensures rg1[6..] == [a[11], b[11], a[12], b[12], a[13], b[13], a[14], b[14], a[15], b[15]]
  {
    rg0 := WasmShuffle(a, b, PAIRS_LOW);
    rg1 := WasmShuffle(a, b, PAIRS_HIGH);
    mid := Middle(rg0, rg1);
    assert rg0[11..] == [b[5], a[6], b[6], a[7], b[7]];
    assert rg1[..6] == [a[8], b[8], a[9], b[9], a[10], b[10]];
  }

  method Middle(rg0: Reg, rg1: Reg) returns (mid: Reg)
    ensures mid[..11] == rg0[11..] + rg1[..6]
  {
    mid := WasmShuffle(rg0, rg1, BRIDGE);
  }

  method Out0(rg0: Reg, a: Reg, b: Reg, c: Reg) returns (x: Reg)
    requires rg0[..11] == [a[0], b[0], a[1], b[1], a[2], b[2], a[3], b[3], a[4], b[4], a[5]]
    ensures x == [a[0], b[0], c[0], a[1], b[1], c[1], a[2], b[2], c[2], a[3], b[3], c[3], a[4], b[4], c[4], a[5]]
  {
    assert forall j :: 0 <= j < 11 ==> rg0[j] == rg0[..11][j];
    x := WasmShuffle(rg0, c, FIRST);
  }

  method Out1(mid: Reg, a: Reg, b: Reg, c: Reg) returns (y: Reg)
    requires mid[..11] == [b[5], a[6], b[6], a[7], b[7], a[8], b[8], a[9], b[9], a[10], b[10]]
    ensures y == [b[5], c[5], a[6], b[6], c[6], a[7], b[7], c[7], a[8], b[8], c[8], a[9], b[9], c[9], a[10], b[10]]
  {
    assert forall j :: 0 <= j < 11 ==> mid[j] == mid[..11][j];
    y := WasmShuffle(mid, c, SECOND);
  }

  method Out2(rg1: Reg, a: Reg, b: Reg, c: Reg) returns (z: Reg)
    requires rg1[6..] == [a[11], b[11], a[12], b[12], a[13], b[13], a[14], b[14], a[15], b[15]]
    ensures z == [c[10], a[11], b[11], c[11], a[12], b[12], c[12], a[13], b[13], c[13], a[14], b[14], c[14], a[15],
                  b[15], c[15]]
  {
    assert forall j :: 6 <= j < 16 ==> rg1[j] == rg1[6..][j - 6];
    z := WasmShuffle(c, rg1, THIRD);
  }

  /** One trip of the block loop: pixels at to at + 15. */
  method BlockRgb(r: seq<int32>, g: seq<int32>, b: seq<int32>, off: (int32, int32, int32), maxval: int32, at: nat)
    returns (x: Reg, y: Reg, z: Reg)
    requires |r| == |g| == |b| && NoOverflow(r, off.0) && NoOverflow(g, off.1) && NoOverflow(b, off.2)
    requires at + 16 <= Blocked(|r|)
    ensures x + y + z == Run(SimdRgb(Shift(r, off.0), Shift(g, off.1), Shift(b, off.2), maxval), at, 16)
  {
    var rv := ClampNarrow16(r, at, off.0, maxval);
    var gv := ClampNarrow16(g, at, off.1, maxval);
    var bv := ClampNarrow16(b, at, off.2, maxval);
    x, y, z := WasmInterleave48(rv, gv, bv);
    RunOfRgbBlock(Shift(r, off.0), Shift(g, off.1), Shift(b, off.2), maxval, at, rv, gv, bv);
  }

  /** The scalar loop, from pixel x on. */
  method ScalarLoopRgb(r: seq<int32>, g: seq<int32>, b: seq<int32>, off: (int32, int32, int32), maxval: int32,
                       dst: array<byte>, from: nat, ghost before: seq<byte>, ghost px: seq<seq<byte>>)
    requires |r| == |g| == |b| == |px| && NoOverflow(r, off.0) && NoOverflow(g, off.1) && NoOverflow(b, off.2)
    requires from <= |r| && 3 * |r| <= dst.Length == |before|
    requires px[from..] == ScalarRgb(Shift(r, off.0), Shift(g, off.1), Shift(b, off.2), maxval)[from..]
    requires |Flatten(px[..from])| == 3 * from
    requires dst[..] == Written(before, Flatten(px[..from]))
    modifies dst
    ensures |Flatten(px)| == 3 * |r|
    ensures dst[..] == Written(before, Flatten(px))
  {
    var x := from;
    while x < |r|
      invariant from <= x <= |r|
      invariant |Flatten(px[..x])| == 3 * x
      invariant dst[..] == Written(before, Flatten(px[..x]))
    {
      var rv := ClampScalar(r[x] as int + off.0, maxval);
      var gv := ClampScalar(g[x] as int + off.1, maxval);
      var bv := ClampScalar(b[x] as int + off.2, maxval);
      assert px[x] == px[from..][x - from] == ScalarRgb(Shift(r, off.0), Shift(g, off.1), Shift(b, off.2), maxval)[x];
      PutPixel(dst, 3 * x, LowByte(rv), LowByte(gv), LowByte(bv), before, px, x);
      x := x + 1;
    }
    assert px[..x] == px;
  }

  /** Three single-byte stores. */
  method PutPixel(dst: array<byte>, at: nat, r: byte, g: byte, b: byte, ghost before: seq<byte>,
                  ghost px: seq<seq<byte>>, ghost x: nat)
    requires x < |px| && px[x] == Pixel8(r, g, b)
    requires at == |Flatten(px[..x])| && at + 3 <= dst.Length == |before|
    requires dst[..] == Written(before, Flatten(px[..x]))
    modifies dst
    ensures |Flatten(px[..x + 1])| == at + 3
    ensures dst[..] == Written(before, Flatten(px[..x + 1]))
  {
    ghost var done := Flatten(px[..x]);
    Put(dst, at, [r], before, done);
    Put(dst, at + 1, [g], before, done + [r]);
    Put(dst, at + 2, [b], before, done + [r] + [g]);
    FlattenStep(px, x);
    assert done + [r] + [g] + [b] == done + px[x];
  }

  lemma RgbTail(r: seq<int32>, g: seq<int32>, b: seq<int32>, maxval: int32)
    requires |r| == |g| == |b|
    ensures SimdRgb(r, g, b, maxval)[Blocked(|r|)..] == ScalarRgb(r, g, b, maxval)[Blocked(|r|)..]
  {
  }

  method RgbLoop(r: seq<int32>, g: seq<int32>, b: seq<int32>, off: (int32, int32, int32), maxval: int32,
                 dst: array<byte>)
    requires |r| == |g| == |b| && NoOverflow(r, off.0) && NoOverflow(g, off.1) && NoOverflow(b, off.2)
    requires 3 * |r| <= dst.Length
    modifies dst
    ensures |Flatten(SimdRgb(Shift(r, off.0), Shift(g, off.1), Shift(b, off.2), maxval))| == 3 * |r|
    ensures dst[..] == Written(old(dst[..]),
                               Flatten(SimdRgb(Shift(r, off.0), Shift(g, off.1), Shift(b, off.2), maxval)))
  {
    var x := 0;
    ghost var k: nat := 0;
    ghost var before, px := dst[..], SimdRgb(Shift(r, off.0), Shift(g, off.1), Shift(b, off.2), maxval);
    while x + 16 <= |r|
      invariant 0 <= x == 16 * k <= |r|
      invariant |Flatten(px[..x])| == 3 * x
      invariant dst[..] == Written(before, Flatten(px[..x]))
    {
      Blocks(k, |r|);
      var out0, out1, out2 := BlockRgb(r, g, b, off, maxval, x);
      PutRun48(dst, 3 * x, out0, out1, out2, before, px, x, 16);
      x, k := x + 16, k + 1;
    }
    Blocks(k, |r|);
    RgbTail(Shift(r, off.0), Shift(g, off.1), Shift(b, off.2), maxval);
    ScalarLoopRgb(r, g, b, off, maxval, dst, x, before, px);
  }

  /** The SIMD form for three components of equal width. */
  method InterleaveRgbSimd(r: seq<int32>, g: seq<int32>, b: seq<int32>, off: (int32, int32, int32), maxval: int32,
                           dst: array<byte>)
    requires |r| == |g| == |b| && NoOverflow(r, off.0) && NoOverflow(g, off.1) && NoOverflow(b, off.2)
    requires 3 * |r| <= dst.Length
    modifies dst
    ensures |Flatten(SimdRgb(Shift(r, off.0), Shift(g, off.1), Shift(b, off.2), maxval))| == 3 * |r|
    ensures dst[..] == Written(old(dst[..]),
                               Flatten(SimdRgb(Shift(r, off.0), Shift(g, off.1), Shift(b, off.2), maxval)))
    ensures 0 <= maxval <= 0xFF ==> RgbShown(dst[..], r, g, b, off, maxval)
  {
    if 0 <= maxval <= 0xFF {
      RgbRow(r, g, b, off, maxval, dst[..]);
    }
    RgbLoop(r, g, b, off, maxval, dst);
  }

  /** The scalar form for three components of equal width. */
  method InterleaveRgbScalar(r: seq<int32>, g: seq<int32>, b: seq<int32>, off: (int32, int32, int32), maxval: int32,
                             dst: array<byte>)
    requires |r| == |g| == |b| && NoOverflow(r, off.0) && NoOverflow(g, off.1) && NoOverflow(b, off.2)
    requires 3 * |r| <= dst.Length
    modifies dst
    ensures |Flatten(ScalarRgb(Shift(r, off.0), Shift(g, off.1), Shift(b, off.2), maxval))| == 3 * |r|
    ensures dst[..] == Written(old(dst[..]),
                               Flatten(ScalarRgb(Shift(r, off.0), Shift(g, off.1), Shift(b, off.2), maxval)))
    ensures 0 <= maxval <= 0xFF ==> RgbShown(dst[..], r, g, b, off, maxval)
  {
    if 0 <= maxval <= 0xFF {
      RgbRow(r, g, b, off, maxval, dst[..]);
    }
    ScalarLoopRgb(r, g, b, off, maxval, dst, 0, dst[..],
                  ScalarRgb(Shift(r, off.0), Shift(g, off.1), Shift(b, off.2), maxval));
  }
}
