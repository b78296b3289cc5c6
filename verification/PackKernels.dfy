/** The single-component row packers of the decoder (source/apps/decoder/main_dec.cpp):
    `pack_i32_to_be16`, `pack_i32_to_le16` and `pack_i32_to_u8`, AVX2 and scalar forms.

    The 16-bit AVX2 forms saturate to the signed 16-bit range where their scalar tails
    keep the low 16 bits; `Be16Agree` and `Le16Agree` say exactly when that shows. */
module PackKernels {
  import opened MachineInts
  import opened Simd
  import opened ByteRows

  // ---------------------------------------------------------------------------
  // What the forms write
  // ---------------------------------------------------------------------------

  /** src[n] + offset never leaves the range of `int`, where the scalar code has no meaning. */
  predicate NoOverflow(src: seq<int32>, offset: int32) {
    forall n :: 0 <= n < |src| ==> -0x8000_0000 <= src[n] as int + offset < 0x8000_0000
  }

  /** The low 16 bits of every sample, high byte first. */
  function Be16Groups(src: seq<int32>, offset: int32): (g: seq<seq<byte>>)
    ensures |g| == |src| && Uniform(g, 2)
  {
    seq(|src|, n requires 0 <= n < |src| => Be(src[n] as int + offset))
  }

  /** The low 16 bits of every sample, low byte first. */
  function Le16Groups(src: seq<int32>): (g: seq<seq<byte>>)
    ensures |g| == |src| && Uniform(g, 2)
  {
    seq(|src|, n requires 0 <= n < |src| => Le(src[n]))
  }

  /** The low 8 bits of every sample. */
  function U8Groups(src: seq<int32>, offset: int32): (g: seq<seq<byte>>)
    ensures |g| == |src| && Uniform(g, 1)
  {
    seq(|src|, n requires 0 <= n < |src| => [LowByte(src[n] as int + offset)])
  }

  /** How many of n samples the 16-sample block loop handles. */
  function Blocked(n: nat): nat {
    16 * (n / 16)
  }

  /** What the AVX2 form writes: saturated samples in the blocks, low bits in the tail. */
  function Be16AvxGroups(src: seq<int32>, offset: int32): (g: seq<seq<byte>>)
    ensures |g| == |src| && Uniform(g, 2)
  {
    seq(|src|, n requires 0 <= n < |src| =>
      if n < Blocked(|src|) then Be(SatI16(src[n] as int + offset)) else Be(src[n] as int + offset))
  }

  function Le16AvxGroups(src: seq<int32>): (g: seq<seq<byte>>)
    ensures |g| == |src| && Uniform(g, 2)
  {
    seq(|src|, n requires 0 <= n < |src| =>
      if n < Blocked(|src|) then Le(SatI16(src[n])) else Le(src[n]))
  }

  // ---------------------------------------------------------------------------
  // Lanes as bytes
  // ---------------------------------------------------------------------------

  function LeLanes(x: I32x4): (s: seq<byte>)
    ensures |s| == 8
  {
    Le(x.e0) + Le(x.e1) + Le(x.e2) + Le(x.e3)
  }

  function BeLanes(x: I32x4): (s: seq<byte>)
    ensures |s| == 8
  {
    Be(x.e0) + Be(x.e1) + Be(x.e2) + Be(x.e3)
  }

  function SatLanes(x: I32x4): I32x4 {
    I32x4(SatI16(x.e0), SatI16(x.e1), SatI16(x.e2), SatI16(x.e3))
  }

  lemma ToU16Bytes(x: int16)
    ensures LowByte(ToU16(x)) == LowByte(x) && HighByte(ToU16(x)) == HighByte(x)
  {
  }

  /** The eight bytes of four packed lanes. */
  lemma LanesAre(x: I32x4, v: seq<byte>)
    requires |v| == 8
    requires v[0] == LowByte(ToU16(SatI16(x.e0))) && v[1] == HighByte(ToU16(SatI16(x.e0)))
    requires v[2] == LowByte(ToU16(SatI16(x.e1))) && v[3] == HighByte(ToU16(SatI16(x.e1)))
    requires v[4] == LowByte(ToU16(SatI16(x.e2))) && v[5] == HighByte(ToU16(SatI16(x.e2)))
    requires v[6] == LowByte(ToU16(SatI16(x.e3))) && v[7] == HighByte(ToU16(SatI16(x.e3)))
    ensures v == LeLanes(SatLanes(x))
  {
    ToU16Bytes(SatI16(x.e0));
    ToU16Bytes(SatI16(x.e1));
    ToU16Bytes(SatI16(x.e2));
    ToU16Bytes(SatI16(x.e3));
  }

  /** _mm_packs_epi32 seen as bytes: the saturated lanes of a, then those of b. */
  method PackedBytes(a: I32x4, b: I32x4) returns (v: Reg)
    ensures v[..8] == LeLanes(SatLanes(a)) && v[8..] == LeLanes(SatLanes(b))
  {
    v := AsBytes16(PackSI32(a, b));
    LanesAre(a, v[..8]);
    LanesAre(b, v[8..]);
  }

  lemma QuartersOf(lo: Reg, hi: Reg)
    ensures Quarter(Wide(lo, hi), 0) == lo[..8] && Quarter(Wide(lo, hi), 1) == lo[8..]
    ensures Quarter(Wide(lo, hi), 2) == hi[..8] && Quarter(Wide(lo, hi), 3) == hi[8..]
  {
  }

  /** Two 256-bit packs and the quarter permutation 0xD8 put sixteen lanes in order. */
  method PackedInOrder(v0: Wide<I32x4>, v1: Wide<I32x4>) returns (v: Wide<Reg>)
    ensures v.lo == LeLanes(SatLanes(v0.lo)) + LeLanes(SatLanes(v0.hi))
    ensures v.hi == LeLanes(SatLanes(v1.lo)) + LeLanes(SatLanes(v1.hi))
  {
    var lo := PackedBytes(v0.lo, v1.lo);
    var hi := PackedBytes(v0.hi, v1.hi);
    QuartersOf(lo, hi);
    v := Permute4x64(Wide(lo, hi), 0xD8);
  }

  const SWAP_PAIRS: Reg := [1, 0, 3, 2, 5, 4, 7, 6, 9, 8, 11, 10, 13, 12, 15, 14]

  /** The byte-swapping shuffle turns little-endian lanes into big-endian ones. */
  method Swapped(v: Reg, ghost a: I32x4, ghost b: I32x4) returns (w: Reg)
    requires v == LeLanes(a) + LeLanes(b)
    ensures w == BeLanes(a) + BeLanes(b)
  {
    w := ShuffleI8(v, SWAP_PAIRS);
    assert w[..8] == BeLanes(a);
    assert w[8..] == BeLanes(b);
  }

  // ---------------------------------------------------------------------------
  // pack_i32_to_be16
  // ---------------------------------------------------------------------------

  lemma RunOfBeLanes(src: seq<int32>, offset: int32, n: nat)
    requires NoOverflow(src, offset) && n + 4 <= Blocked(|src|)
    ensures BeLanes(SatLanes(AddI32(LoadI32(src, n), SplatI32(offset)))) == Run(Be16AvxGroups(src, offset), n, 4)
  {
    var x, g := AddI32(LoadI32(src, n), SplatI32(offset)), Be16AvxGroups(src, offset);
    assert x.e0 == src[n] as int + offset && x.e1 == src[n + 1] as int + offset;
    assert x.e2 == src[n + 2] as int + offset && x.e3 == src[n + 3] as int + offset;
    assert g[n] == Be(SatI16(x.e0)) && g[n + 1] == Be(SatI16(x.e1));
    assert g[n + 2] == Be(SatI16(x.e2)) && g[n + 3] == Be(SatI16(x.e3));
    RunOfFour(g, n);
  }

  lemma Blocks(k: nat, width: nat)
    ensures 16 * k + 16 <= width ==> 16 * k + 16 <= Blocked(width)
    ensures 16 * k <= width < 16 * k + 16 ==> Blocked(width) == 16 * k
  {
  }

  /** One trip of the block loop: samples n to n + 15. */
  method BlockBe16(src: seq<int32>, offset: int32, n: nat) returns (v: Wide<Reg>)
    requires NoOverflow(src, offset) && n + 16 <= Blocked(|src|)
    ensures v.lo == Run(Be16AvxGroups(src, offset), n, 8)
    ensures v.hi == Run(Be16AvxGroups(src, offset), n + 8, 8)
  {
    var voff := Wide(SplatI32(offset), SplatI32(offset));
    var v0 := AddI32Wide(LoadI32Wide(src, n), voff);
    var v1 := AddI32Wide(LoadI32Wide(src, n + 8), voff);
    var packed := PackedInOrder(v0, v1);
    var lo := Swapped(packed.lo, SatLanes(v0.lo), SatLanes(v0.hi));
    var hi := Swapped(packed.hi, SatLanes(v1.lo), SatLanes(v1.hi));
    v := Wide(lo, hi);
    RunOfBeLanes(src, offset, n);
    RunOfBeLanes(src, offset, n + 4);
    RunOfBeLanes(src, offset, n + 8);
    RunOfBeLanes(src, offset, n + 12);
    RunAppend(Be16AvxGroups(src, offset), n, 4, 4);
    RunAppend(Be16AvxGroups(src, offset), n + 8, 4, 4);
  }

  /** The scalar tail of the AVX2 form. */
  method TailBe16(src: seq<int32>, dst: array<byte>, offset: int32, from: nat, ghost before: seq<byte>)
    requires NoOverflow(src, offset)
    requires Blocked(|src|) <= from <= |src| && 2 * |src| <= dst.Length == |before|
    requires |Flatten(Be16AvxGroups(src, offset)[..from])| == 2 * from
    requires dst[..] == Written(before, Flatten(Be16AvxGroups(src, offset)[..from]))
    modifies dst
    ensures |Flatten(Be16AvxGroups(src, offset)[..|src|])| == 2 * |src|
    ensures dst[..] == Written(before, Flatten(Be16AvxGroups(src, offset)[..|src|]))
  {
    ghost var g := Be16AvxGroups(src, offset);
    for n := from to |src|
      invariant |Flatten(g[..n])| == 2 * n
      invariant dst[..] == Written(before, Flatten(g[..n]))
    {
      var v := src[n] as int + offset;
      PutGroup(dst, 2 * n, [HighByte(v), LowByte(v)], before, g, n);
    }
  }

  /** The AVX2 form. */
  method PackBe16Avx2(src: seq<int32>, dst: array<byte>, offset: int32)
    requires NoOverflow(src, offset) && 2 * |src| <= dst.Length
    modifies dst
    ensures |Flatten(Be16AvxGroups(src, offset))| == 2 * |src|
    ensures dst[..] == Written(old(dst[..]), Flatten(Be16AvxGroups(src, offset)))
  {
    var n, width := 0, |src|;
    ghost var k: nat := 0;
    ghost var before, g := dst[..], Be16AvxGroups(src, offset);
    while n + 16 <= width
      invariant 0 <= n == 16 * k <= width
      invariant |Flatten(g[..n])| == 2 * n
      invariant dst[..] == Written(before, Flatten(g[..n]))
    {
      Blocks(k, width);
      var v := BlockBe16(src, offset, n);
      PutRun32(dst, 2 * n, v.lo, v.hi, before, g, n, 8);
      n, k := n + 16, k + 1;
    }
    Blocks(k, width);
    TailBe16(src, dst, offset, n, before);
    assert g[..width] == g;
  }

  /** The scalar form. */
  method PackBe16Scalar(src: seq<int32>, dst: array<byte>, offset: int32)
    requires NoOverflow(src, offset) && 2 * |src| <= dst.Length
    modifies dst
    ensures |Flatten(Be16Groups(src, offset))| == 2 * |src|
    ensures dst[..] == Written(old(dst[..]), Flatten(Be16Groups(src, offset)))
  {
    var n := 0;
    ghost var before, g := dst[..], Be16Groups(src, offset);
    while n < |src|
      invariant 0 <= n <= |src|
      invariant |Flatten(g[..n])| == 2 * n
      invariant dst[..] == Written(before, Flatten(g[..n]))
    {
      var v := src[n] as int + offset;
      PutGroup(dst, 2 * n, [HighByte(v), LowByte(v)], before, g, n);
      n := n + 1;
    }
    assert g[..n] == g;
  }

  // ---------------------------------------------------------------------------
  // pack_i32_to_le16
  // ---------------------------------------------------------------------------

  lemma RunOfLeLanes(src: seq<int32>, n: nat)
    requires n + 4 <= Blocked(|src|)
    ensures LeLanes(SatLanes(LoadI32(src, n))) == Run(Le16AvxGroups(src), n, 4)
  {
    var x, g := LoadI32(src, n), Le16AvxGroups(src);
    assert g[n] == Le(SatI16(x.e0)) && g[n + 1] == Le(SatI16(x.e1));
    assert g[n + 2] == Le(SatI16(x.e2)) && g[n + 3] == Le(SatI16(x.e3));
    RunOfFour(g, n);
  }

  /** One trip of the block loop: samples n to n + 15. */
  method BlockLe16(src: seq<int32>, n: nat) returns (v: Wide<Reg>)
    requires n + 16 <= Blocked(|src|)
    ensures v.lo == Run(Le16AvxGroups(src), n, 8)
    ensures v.hi == Run(Le16AvxGroups(src), n + 8, 8)
  {
    v := PackedInOrder(LoadI32Wide(src, n), LoadI32Wide(src, n + 8));
    RunOfLeLanes(src, n);
    RunOfLeLanes(src, n + 4);
    RunOfLeLanes(src, n + 8);
    RunOfLeLanes(src, n + 12);
    RunAppend(Le16AvxGroups(src), n, 4, 4);
    RunAppend(Le16AvxGroups(src), n + 8, 4, 4);
  }

  /** The scalar tail of the AVX2 form. */
  method TailLe16(src: seq<int32>, dst: array<byte>, from: nat, ghost before: seq<byte>)
    requires Blocked(|src|) <= from <= |src| && 2 * |src| <= dst.Length == |before|
    requires |Flatten(Le16AvxGroups(src)[..from])| == 2 * from
    requires dst[..] == Written(before, Flatten(Le16AvxGroups(src)[..from]))
    modifies dst
    ensures |Flatten(Le16AvxGroups(src)[..|src|])| == 2 * |src|
    ensures dst[..] == Written(before, Flatten(Le16AvxGroups(src)[..|src|]))
  {
    ghost var g := Le16AvxGroups(src);
    for n := from to |src|
      invariant |Flatten(g[..n])| == 2 * n
      invariant dst[..] == Written(before, Flatten(g[..n]))
    {
      PutGroup(dst, 2 * n, [LowByte(src[n]), HighByte(src[n])], before, g, n);
    }
  }

  /** The AVX2 form. */
  method PackLe16Avx2(src: seq<int32>, dst: array<byte>)
    requires 2 * |src| <= dst.Length
    modifies dst
    ensures |Flatten(Le16AvxGroups(src))| == 2 * |src|
    ensures dst[..] == Written(old(dst[..]), Flatten(Le16AvxGroups(src)))
  {
    var n, width := 0, |src|;
    ghost var k: nat := 0;
    ghost var before, g := dst[..], Le16AvxGroups(src);
    while n + 16 <= width
      invariant 0 <= n == 16 * k <= width
      invariant |Flatten(g[..n])| == 2 * n
      invariant dst[..] == Written(before, Flatten(g[..n]))
    {
      Blocks(k, width);
      var v := BlockLe16(src, n);
      PutRun32(dst, 2 * n, v.lo, v.hi, before, g, n, 8);
      n, k := n + 16, k + 1;
    }
    Blocks(k, width);
    TailLe16(src, dst, n, before);
    assert g[..width] == g;
  }

  /** The scalar form. */
  method PackLe16Scalar(src: seq<int32>, dst: array<byte>)
    requires 2 * |src| <= dst.Length
    modifies dst
    ensures |Flatten(Le16Groups(src))| == 2 * |src|
    ensures dst[..] == Written(old(dst[..]), Flatten(Le16Groups(src)))
  {
    var n := 0;
    ghost var before, g := dst[..], Le16Groups(src);
    while n < |src|
      invariant 0 <= n <= |src|
      invariant |Flatten(g[..n])| == 2 * n
      invariant dst[..] == Written(before, Flatten(g[..n]))
    {
      PutGroup(dst, 2 * n, [LowByte(src[n]), HighByte(src[n])], before, g, n);
      n := n + 1;
    }
    assert g[..n] == g;
  }

  // ---------------------------------------------------------------------------
  // pack_i32_to_u8
  // ---------------------------------------------------------------------------

  function LowLanes(x: I32x4): (s: seq<byte>)
    ensures |s| == 4
  {
    [LowByte(x.e0), LowByte(x.e1), LowByte(x.e2), LowByte(x.e3)]
  }

  /** _mm256_and_si256 with 0xFF in every 32-bit lane, one half of it. */
  method MaskLow(x: I32x4) returns (y: I32x4)
    ensures y == I32x4(LowByte(x.e0), LowByte(x.e1), LowByte(x.e2), LowByte(x.e3))
  {
    var v := AsBytes(x);
    var mask := AsBytes(SplatI32(0xFF));
    v := And(v, mask);
    y := LowestBytes(v);
  }

  /** Lanes whose upper three bytes are 0 hold their low byte. */
  method LowestBytes(v: Reg) returns (y: I32x4)
    requires v[1] == v[2] == v[3] == v[5] == v[6] == v[7] == 0
    requires v[9] == v[10] == v[11] == v[13] == v[14] == v[15] == 0
    ensures y == I32x4(v[0], v[4], v[8], v[12])
  {
    y := AsI32(v);
    LowWord(v[0]);
    LowWord(v[4]);
    LowWord(v[8]);
    LowWord(v[12]);
  }

  lemma LowWord(b: byte)
    ensures WrapI32(Word4(b, 0, 0, 0)) == b
  {
  }

  /** Two rounds of packing masked lanes, one half of the 256-bit form. */
  method NarrowBytes(a: I32x4, b: I32x4, c: I32x4, d: I32x4) returns (v: Reg)
    ensures v[..4] == LowLanes(a) && v[4..8] == LowLanes(b) && v[8..12] == LowLanes(c) && v[12..] == LowLanes(d)
  {
    var a' := MaskLow(a);
    var b' := MaskLow(b);
    var c' := MaskLow(c);
    var d' := MaskLow(d);
    v := PackUI16(PackUI32(a', b'), PackUI32(c', d'));
  }

  /** Adding the offset wraps no lane. */
  lemma ShiftedLanes(src: seq<int32>, offset: int32, n: nat)
    requires NoOverflow(src, offset) && n + 4 <= |src|
    ensures var x := AddI32(LoadI32(src, n), SplatI32(offset));
      && x.e0 == src[n] as int + offset && x.e1 == src[n + 1] as int + offset
      && x.e2 == src[n + 2] as int + offset && x.e3 == src[n + 3] as int + offset
  {
  }

  lemma RunOfLowLanes(src: seq<int32>, offset: int32, n: nat)
    requires NoOverflow(src, offset) && n + 4 <= |src|
    ensures LowLanes(AddI32(LoadI32(src, n), SplatI32(offset))) == Run(U8Groups(src, offset), n, 4)
  {
    ShiftedLanes(src, offset, n);
    RunOfFour(U8Groups(src, offset), n);
  }

  /** Sixteen samples in the order the permutation leaves them. */
  lemma RunOfSixteen(src: seq<int32>, offset: int32, n: nat)
    requires NoOverflow(src, offset) && n + 16 <= |src|
    ensures LowLanes(AddI32(LoadI32(src, n), SplatI32(offset))) +
            LowLanes(AddI32(LoadI32(src, n + 4), SplatI32(offset))) +
            LowLanes(AddI32(LoadI32(src, n + 8), SplatI32(offset))) +
            LowLanes(AddI32(LoadI32(src, n + 12), SplatI32(offset)))
         == Run(U8Groups(src, offset), n, 16)
  {
    var g := U8Groups(src, offset);
    RunOfLowLanes(src, offset, n);
    RunOfLowLanes(src, offset, n + 4);
    RunOfLowLanes(src, offset, n + 8);
    RunOfLowLanes(src, offset, n + 12);
    RunAppend(g, n, 4, 4);
    RunAppend(g, n, 8, 4);
    RunAppend(g, n, 12, 4);
  }

  /** One trip of the block loop: samples n to n + 31. */
  method BlockU8(src: seq<int32>, offset: int32, n: nat) returns (v: Wide<Reg>)
    requires NoOverflow(src, offset) && n + 32 <= |src|
    ensures v.lo == Run(U8Groups(src, offset), n, 16)
    ensures v.hi == Run(U8Groups(src, offset), n + 16, 16)
  {
    var voff := Wide(SplatI32(offset), SplatI32(offset));
    var v0 := AddI32Wide(LoadI32Wide(src, n), voff);
    var v1 := AddI32Wide(LoadI32Wide(src, n + 8), voff);
    var v2 := AddI32Wide(LoadI32Wide(src, n + 16), voff);
    var v3 := AddI32Wide(LoadI32Wide(src, n + 24), voff);
    var lo := NarrowBytes(v0.lo, v1.lo, v2.lo, v3.lo);
    var hi := NarrowBytes(v0.hi, v1.hi, v2.hi, v3.hi);
    v := PermuteVar8x32(Wide(lo, hi), [0, 4, 1, 5, 2, 6, 3, 7]);
    RunOfSixteen(src, offset, n);
    RunOfSixteen(src, offset, n + 16);
  }

  /** The AVX2 form. */
  method PackU8Avx2(src: seq<int32>, dst: array<byte>, offset: int32)
    requires NoOverflow(src, offset) && |src| <= dst.Length
    modifies dst
    ensures |Flatten(U8Groups(src, offset))| == |src|
    ensures dst[..] == Written(old(dst[..]), Flatten(U8Groups(src, offset)))
  {
    var n, width := 0, |src|;
    ghost var before, g := dst[..], U8Groups(src, offset);
    while n + 32 <= width
      invariant 0 <= n <= width
      invariant |Flatten(g[..n])| == n
      invariant dst[..] == Written(before, Flatten(g[..n]))
    {
      var v := BlockU8(src, offset, n);
      PutRun32(dst, n, v.lo, v.hi, before, g, n, 16);
      n := n + 32;
    }
    while n < width
      invariant 0 <= n <= width
      invariant |Flatten(g[..n])| == n
      invariant dst[..] == Written(before, Flatten(g[..n]))
    {
      PutGroup(dst, n, [LowByte(src[n] as int + offset)], before, g, n);
      n := n + 1;
    }
    assert g[..n] == g;
  }

  /** The scalar form. */
  method PackU8Scalar(src: seq<int32>, dst: array<byte>, offset: int32)
    requires NoOverflow(src, offset) && |src| <= dst.Length
    modifies dst
    ensures |Flatten(U8Groups(src, offset))| == |src|
    ensures dst[..] == Written(old(dst[..]), Flatten(U8Groups(src, offset)))
  {
    var n := 0;
    ghost var before, g := dst[..], U8Groups(src, offset);
    while n < |src|
      invariant 0 <= n <= |src|
      invariant |Flatten(g[..n])| == n
      invariant dst[..] == Written(before, Flatten(g[..n]))
    {
      PutGroup(dst, n, [LowByte(src[n] as int + offset)], before, g, n);
      n := n + 1;
    }
    assert g[..n] == g;
  }

  // ---------------------------------------------------------------------------
  // When saturating and truncating agree
  // ---------------------------------------------------------------------------

  /** v survives the signed 16-bit pack: it fits, or its low 16 bits are those of the limit. */
  predicate PackExact(v: int) {
    || -0x8000 <= v <= 0x7FFF
    || (v > 0x7FFF && v % 0x1_0000 == 0x7FFF)
    || (v < -0x8000 && v % 0x1_0000 == 0x8000)
  }

  lemma SatAgrees(v: int)
    ensures Be(SatI16(v)) == Be(v) <==> PackExact(v)
    ensures Le(SatI16(v)) == Le(v) <==> PackExact(v)
  {
    var s := SatI16(v);
    LowBits(s, v);
    assert (Be(s) == Be(v)) <==> (HighByte(s) == HighByte(v) && LowByte(s) == LowByte(v)) by {
      assert Be(s)[0] == HighByte(s) && Be(s)[1] == LowByte(s) && Be(v)[0] == HighByte(v) && Be(v)[1] == LowByte(v);
    }
    assert (Le(s) == Le(v)) <==> (HighByte(s) == HighByte(v) && LowByte(s) == LowByte(v)) by {
      assert Le(s)[1] == HighByte(s) && Le(s)[0] == LowByte(s) && Le(v)[1] == HighByte(v) && Le(v)[0] == LowByte(v);
    }
  }

  /** Two numbers have the same two low bytes when they agree modulo 2^16. */
  lemma LowBits(x: int, y: int)
    ensures (LowByte(x) == LowByte(y) && HighByte(x) == HighByte(y)) <==> x % 0x1_0000 == y % 0x1_0000
  {
    LowBitsOf(x);
    LowBitsOf(y);
  }

  lemma LowBitsOf(x: int)
    ensures x % 0x1_0000 == Word2(LowByte(x), HighByte(x))
  {
    var q := x / 0x100;
    ModUnique(x, 0x1_0000, q / 0x100, q % 0x100 * 0x100 + x % 0x100);
  }

  /** Rows of equal-sized groups are equal only group by group. */
  lemma FlattenInjective(a: seq<seq<byte>>, b: seq<seq<byte>>, w: nat)
    requires |a| == |b| && Uniform(a, w) && Uniform(b, w) && Flatten(a) == Flatten(b)
    ensures a == b
  {
    forall x | 0 <= x < |a|
      ensures a[x] == b[x]
    {
      forall k | 0 <= k < w
        ensures a[x][k] == b[x][k]
      {
        FlattenAt(a, w, x, k);
        FlattenAt(b, w, x, k);
      }
    }
  }

  /** The AVX2 and scalar big-endian packers write the same row exactly when every sample
      of the full 16-sample blocks survives the packing. */
  lemma Be16Agree(src: seq<int32>, offset: int32)
    ensures Flatten(Be16AvxGroups(src, offset)) == Flatten(Be16Groups(src, offset)) <==>
      forall n :: 0 <= n < Blocked(|src|) ==> PackExact(src[n] as int + offset)
  {
    var a, b := Be16AvxGroups(src, offset), Be16Groups(src, offset);
    forall n | 0 <= n < Blocked(|src|)
      ensures a[n] == b[n] <==> PackExact(src[n] as int + offset)
    {
      SatAgrees(src[n] as int + offset);
    }
    if Flatten(a) == Flatten(b) {
      FlattenInjective(a, b, 2);
    } else {
      assert a != b;
      var x :| 0 <= x < |a| && a[x] != b[x];
      assert x < Blocked(|src|);
    }
  }

  lemma Le16Agree(src: seq<int32>)
    ensures Flatten(Le16AvxGroups(src)) == Flatten(Le16Groups(src)) <==>
      forall n :: 0 <= n < Blocked(|src|) ==> PackExact(src[n])
  {
    var a, b := Le16AvxGroups(src), Le16Groups(src);
    forall n | 0 <= n < Blocked(|src|)
      ensures a[n] == b[n] <==> PackExact(src[n])
    {
      SatAgrees(src[n]);
    }
    if Flatten(a) == Flatten(b) {
      FlattenInjective(a, b, 2);
    } else {
      assert a != b;
      var x :| 0 <= x < |a| && a[x] != b[x];
      assert x < Blocked(|src|);
    }
  }

  /** For samples of at most 16 bits after the offset, signed or not, the condition is that no
      blocked sample exceeds 32767: an unsigned 16-bit image breaks it as soon as one does. */
  lemma Be16AgreeInRange(src: seq<int32>, offset: int32)
    requires forall n :: 0 <= n < |src| ==> -0x8000 <= src[n] as int + offset <= 0xFFFF
    ensures Flatten(Be16AvxGroups(src, offset)) == Flatten(Be16Groups(src, offset)) <==>
      forall n :: 0 <= n < Blocked(|src|) ==> src[n] as int + offset <= 0x7FFF
  {
    Be16Agree(src, offset);
    assert forall v: int :: -0x8000 <= v <= 0xFFFF ==> (PackExact(v) <==> v <= 0x7FFF);
  }

  /** A row of sixteen samples of 40000: 0x7FFF is stored instead of 0x9C40. */
  lemma Be16SaturatesAt40000()
    ensures var src: seq<int32> := seq(16, _ => 40000);
      Flatten(Be16AvxGroups(src, 0)) != Flatten(Be16Groups(src, 0))
  {
    var src: seq<int32> := seq(16, _ => 40000);
    Be16Agree(src, 0);
    assert !PackExact(src[0]);
  }
}
