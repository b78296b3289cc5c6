/** The batch PPM writer's pixel loops (source/apps/decoder/dec_utils.hpp, `write_ppm`): the
    AVX2 and scalar paths for three components of equal size, 8 and 16 bits per sample.

    The vector blocks saturate where the scalar tail keeps low bits; `Batch8Agree` and
    `Batch16Agree` say exactly when that shows. */
module BatchPpm {
  import opened MachineInts
  import opened Simd
  import opened ByteRows
  import opened PackKernels

  // ---------------------------------------------------------------------------
  // What the paths write
  // ---------------------------------------------------------------------------

  /** Signed 32 to unsigned 16 to unsigned 8 bits: the second pack reads its input as
      signed, so a value past 32767 ends up as 0. */
  function Narrow8(v: int): byte {
    SatU8(AsI16(SatU16(v)))
  }

  /** The scalar path: the low byte of every component. */
  function Low8(r: seq<int32>, g: seq<int32>, b: seq<int32>, off: int32): (px: seq<seq<byte>>)
    requires |r| == |g| == |b|
    ensures |px| == |r| && Uniform(px, 3)
  {
    seq(|r|, x requires 0 <= x < |r| =>
      Pixel8(LowByte(r[x] as int + off), LowByte(g[x] as int + off), LowByte(b[x] as int + off)))
  }

  /** The AVX2 path: narrowed components in blocks of sixteen pixels, low bytes after them. */
  function Avx8(r: seq<int32>, g: seq<int32>, b: seq<int32>, off: int32): (px: seq<seq<byte>>)
    requires |r| == |g| == |b|
    ensures |px| == |r| && Uniform(px, 3)
  {
    seq(|r|, x requires 0 <= x < |r| =>
      if x < 16 * (|r| / 16) then Pixel8(Narrow8(r[x] as int + off), Narrow8(g[x] as int + off),
                                         Narrow8(b[x] as int + off))
      else Pixel8(LowByte(r[x] as int + off), LowByte(g[x] as int + off), LowByte(b[x] as int + off)))
  }

  function Low16(r: seq<int32>, g: seq<int32>, b: seq<int32>, off: int32): (px: seq<seq<byte>>)
    requires |r| == |g| == |b|
    ensures |px| == |r| && Uniform(px, 6)
  {
    seq(|r|, x requires 0 <= x < |r| => Pixel16(r[x] as int + off, g[x] as int + off, b[x] as int + off))
  }

  function Avx16(r: seq<int32>, g: seq<int32>, b: seq<int32>, off: int32): (px: seq<seq<byte>>)
    requires |r| == |g| == |b|
    ensures |px| == |r| && Uniform(px, 6)
  {
    seq(|r|, x requires 0 <= x < |r| =>
      if x < 8 * (|r| / 8) then Pixel16(SatU16(r[x] as int + off), SatU16(g[x] as int + off), SatU16(b[x] as int + off))
      else Pixel16(r[x] as int + off, g[x] as int + off, b[x] as int + off))
  }

  // ---------------------------------------------------------------------------
  // 8 bits: sixteen pixels in, 48 bytes out
  // ---------------------------------------------------------------------------

  const MASK0: Reg := [0, 1, 0xFF, 2, 3, 0xFF, 4, 5, 0xFF, 6, 7, 0xFF, 8, 9, 0xFF, 10]
  const MASK1: Reg := [0, 0xFF, 1, 2, 0xFF, 3, 4, 0xFF, 5, 6, 0xFF, 7, 8, 0xFF, 9, 10]
  const MASK2: Reg := [0xFF, 6, 7, 0xFF, 8, 9, 0xFF, 10, 11, 0xFF, 12, 13, 0xFF, 14, 15, 0xFF]
  const MASK2_LO: Reg := [0xFF, 0xFF, 0, 0xFF, 0xFF, 1, 0xFF, 0xFF, 2, 0xFF, 0xFF, 3, 0xFF, 0xFF, 4, 0xFF]
  const MASK2_MED: Reg := [0xFF, 5, 0xFF, 0xFF, 6, 0xFF, 0xFF, 7, 0xFF, 0xFF, 8, 0xFF, 0xFF, 9, 0xFF, 0xFF]
  const MASK2_HI: Reg := [10, 0xFF, 0xFF, 11, 0xFF, 0xFF, 12, 0xFF, 0xFF, 13, 0xFF, 0xFF, 14, 0xFF, 0xFF, 15]

  /** cff: all bits set. */
  method AllOnes(v: Reg) returns (w: Reg)
    ensures forall j :: 0 <= j < 16 ==> w[j] == 0xFF
  {
    w := CmpEqI8(v, v);
  }

  /** shuffle, shuffle, blend: bytes of p where the mask names one, of q elsewhere. */
  method Merged(p: Reg, mask: Reg, q: Reg, qmask: Reg) returns (v: Reg)
    requires forall j :: 0 <= j < 16 ==> (mask[j] < 16 || (mask[j] == 0xFF && qmask[j] < 16))
    ensures forall j :: 0 <= j < 16 ==> v[j] == if mask[j] < 16 then p[mask[j]] else q[qmask[j]]
  {
    var x := ShuffleI8(p, mask);
    var y := ShuffleI8(q, qmask);
    var cff := AllOnes(p);
    var blk := CmpEqI8(mask, cff);
    v := BlendV(x, y, blk);
  }

  /** The first store, from the low half of the pairs. */
  method Store8A(v0: Reg, a: Reg, b: Reg, c: Reg) returns (x: Reg)
    requires forall j :: 0 <= j < 16 ==> v0[j] == if j % 2 == 0 then a[j / 2] else b[j / 2]
    ensures x == [a[0], b[0], c[0], a[1], b[1], c[1], a[2], b[2], c[2], a[3], b[3], c[3], a[4], b[4], c[4], a[5]]
  {
    x := Merged(v0, MASK0, c, MASK2_LO);
  }

  /** The second store, from the middle of the pairs. */
  method Store8B(v1: Reg, a: Reg, b: Reg, c: Reg) returns (y: Reg)
    requires v1[..11] == [b[5], a[6], b[6], a[7], b[7], a[8], b[8], a[9], b[9], a[10], b[10]]
    ensures y == [b[5], c[5], a[6], b[6], c[6], a[7], b[7], c[7], a[8], b[8], c[8], a[9], b[9], c[9], a[10], b[10]]
  {
    assert forall j :: 0 <= j < 11 ==> v1[j] == v1[..11][j];
    y := Merged(v1, MASK1, c, MASK2_MED);
  }

  /** The third store, from the high half of the pairs. */
  method Store8C(v2: Reg, a: Reg, b: Reg, c: Reg) returns (z: Reg)
    requires forall j :: 0 <= j < 16 ==> v2[j] == if j % 2 == 0 then a[8 + j / 2] else b[8 + j / 2]
    ensures z == [c[10], a[11], b[11], c[11], a[12], b[12], c[12], a[13], b[13], c[13], a[14], b[14], c[14], a[15],
                  b[15], c[15]]
  {
    z := Merged(v2, MASK2, c, MASK2_HI);
  }

  /** Three registers of one component each become three of whole pixels. */
  method Interleave48(a: Reg, b: Reg, c: Reg) returns (x: Reg, y: Reg, z: Reg)
    ensures x + y + z == Triples(a, b, c)
  {
    var v0 := UnpackLoI8(a, b);
    var v2 := UnpackHiI8(a, b);
    var v1 := AlignR(v2, v0, 11);
    x := Store8A(v0, a, b, c);
    y := Store8B(v1, a, b, c);
    z := Store8C(v2, a, b, c);
    JoinTriples(x, y, z, a, b, c);
  }

  /** Four samples with the offset added. */
  function LoadShifted(src: seq<int32>, at: nat, off: int32): (v: I32x4)
    requires NoOverflow(src, off) && at + 4 <= |src|
    ensures v.e0 == src[at] as int + off && v.e1 == src[at + 1] as int + off
    ensures v.e2 == src[at + 2] as int + off && v.e3 == src[at + 3] as int + off
  {
    AddI32(LoadI32(src, at), SplatI32(off))
  }

  /** _mm_packus_epi32 of eight samples. */
  function PackShifted(src: seq<int32>, at: nat, off: int32): (p: U16x8)
    requires NoOverflow(src, off) && at + 8 <= |src|
    ensures p.e0 == SatU16(src[at + 0] as int + off) && p.e1 == SatU16(src[at + 1] as int + off)
    ensures p.e2 == SatU16(src[at + 2] as int + off) && p.e3 == SatU16(src[at + 3] as int + off)
    ensures p.e4 == SatU16(src[at + 4] as int + off) && p.e5 == SatU16(src[at + 5] as int + off)
    ensures p.e6 == SatU16(src[at + 6] as int + off) && p.e7 == SatU16(src[at + 7] as int + off)
  {
    PackUI32(LoadShifted(src, at, off), LoadShifted(src, at + 4, off))
  }

  lemma PackedAt(src: seq<int32>, at: nat, off: int32, j: nat)
    requires NoOverflow(src, off) && at + 8 <= |src| && j < 8
    ensures PackShifted(src, at, off).At(j) == SatU16(src[at + j] as int + off)
  {
  }

  /** _mm_packus_epi16 of two of those: sixteen samples of one component. */
  method Narrowed(src: seq<int32>, at: nat, off: int32) returns (v: Reg)
    requires NoOverflow(src, off) && at + 16 <= |src|
    ensures forall i :: 0 <= i < 16 ==> v[i] == Narrow8(src[at + i] as int + off)
  {
    v := PackUI16(PackShifted(src, at, off), PackShifted(src, at + 8, off));
    forall i | 0 <= i < 16
      ensures v[i] == Narrow8(src[at + i] as int + off)
    {
      if i < 8 {
        PackedAt(src, at, off, i);
      } else {
        PackedAt(src, at + 8, off, i - 8);
      }
    }
  }

  /** One trip of the block loop: pixels at to at + 15. */
  method BlockBatch8(r: seq<int32>, g: seq<int32>, b: seq<int32>, off: int32, at: nat) returns (x: Reg, y: Reg, z: Reg)
    requires |r| == |g| == |b| && NoOverflow(r, off) && NoOverflow(g, off) && NoOverflow(b, off)
    requires at + 16 <= 16 * (|r| / 16)
    ensures x + y + z == Run(Avx8(r, g, b, off), at, 16)
  {
    var val0 := Narrowed(r, at, off);
    var val1 := Narrowed(g, at, off);
    var val2 := Narrowed(b, at, off);
    x, y, z := Interleave48(val0, val1, val2);
    RunOfTriples(Avx8(r, g, b, off), at, val0, val1, val2);
  }

  /** A component narrowed to 8 bits survives when it fits, or when its low byte is the limit
      it was moved to: 0 for a negative one or one past 32767, 255 for the rest. */
  predicate NarrowExact(v: int) {
    || 0 <= v <= 0xFF
    || (0x100 <= v <= 0x7FFF && v % 0x100 == 0xFF)
    || ((v < 0 || v > 0x7FFF) && v % 0x100 == 0)
  }

  lemma NarrowAgrees(v: int)
    requires v < 0x1_0000_0000
    ensures Narrow8(v) == LowByte(v) <==> NarrowExact(v)
  {
  }

  /** One trip of the scalar loop. */
  method PutLow8(r: int, g: int, b: int, dst: array<byte>, n: nat, ghost before: seq<byte>, ghost px: seq<seq<byte>>)
    requires n < |px| && px[n] == Pixel8(LowByte(r), LowByte(g), LowByte(b))
    requires 3 * n == |Flatten(px[..n])| && 3 * n + 3 <= dst.Length == |before|
    requires dst[..] == Written(before, Flatten(px[..n]))
    modifies dst
    ensures |Flatten(px[..n + 1])| == 3 * (n + 1)
    ensures dst[..] == Written(before, Flatten(px[..n + 1]))
  {
    ghost var done := Flatten(px[..n]);
    Put(dst, 3 * n, [LowByte(r)], before, done);
    Put(dst, 3 * n + 1, [LowByte(g)], before, done + [LowByte(r)]);
    Put(dst, 3 * n + 2, [LowByte(b)], before, done + [LowByte(r)] + [LowByte(g)]);
    FlattenStep(px, n);
    assert done + [LowByte(r)] + [LowByte(g)] + [LowByte(b)] == done + px[n];
  }

  /** The scalar tail of the AVX2 path. */
  method Tail8(r: seq<int32>, g: seq<int32>, b: seq<int32>, off: int32, out: array<byte>, from: nat,
               ghost before: seq<byte>, ghost px: seq<seq<byte>>)
    requires |r| == |g| == |b| == |px| && from <= |r| && 3 * |r| <= out.Length == |before|
    requires px[from..] == Low8(r, g, b, off)[from..]
    requires |Flatten(px[..from])| == 3 * from
    requires out[..] == Written(before, Flatten(px[..from]))
    modifies out
    ensures |Flatten(px)| == 3 * |r|
    ensures out[..] == Written(before, Flatten(px))
  {
    var n, len := from, |r| - from;
    while len > 0
      invariant len + n == |r| && from <= n <= |r|
      invariant |Flatten(px[..n])| == 3 * n
      invariant out[..] == Written(before, Flatten(px[..n]))
    {
      assert px[n] == px[from..][n - from] == Low8(r, g, b, off)[n];
      PutLow8(r[n] as int + off, g[n] as int + off, b[n] as int + off, out, n, before, px);
      n, len := n + 1, len - 1;
    }
    assert px[..n] == px;
  }

  /** Loads, shuffles and stores sixteen pixels. */
  method PutBatch8(r: seq<int32>, g: seq<int32>, b: seq<int32>, off: int32, out: array<byte>, n: nat,
                   ghost before: seq<byte>)
    requires |r| == |g| == |b| && NoOverflow(r, off) && NoOverflow(g, off) && NoOverflow(b, off)
    requires n + 16 <= 16 * (|r| / 16) && 3 * |r| <= out.Length == |before|
    requires |Flatten(Avx8(r, g, b, off)[..n])| == 3 * n
    requires out[..] == Written(before, Flatten(Avx8(r, g, b, off)[..n]))
    modifies out
    ensures |Flatten(Avx8(r, g, b, off)[..n + 16])| == 3 * (n + 16)
    ensures out[..] == Written(before, Flatten(Avx8(r, g, b, off)[..n + 16]))
  {
    var x, y, z := BlockBatch8(r, g, b, off, n);
    PutRun48(out, 3 * n, x, y, z, before, Avx8(r, g, b, off), n, 16);
  }

  /** The AVX2 path. */
  method WritePpm8Avx2(r: seq<int32>, g: seq<int32>, b: seq<int32>, off: int32, out: array<byte>)
    requires |r| == |g| == |b| && NoOverflow(r, off) && NoOverflow(g, off) && NoOverflow(b, off)
    requires 3 * |r| <= out.Length
    modifies out
    ensures |Flatten(Avx8(r, g, b, off))| == 3 * |r|
    ensures out[..] == Written(old(out[..]), Flatten(Avx8(r, g, b, off)))
  {
    var n, len := 0, |r|;
    ghost var k: nat := 0;
    ghost var before, px := out[..], Avx8(r, g, b, off);
    while len >= 16
      invariant len + n == |r| && 0 <= n == 16 * k <= |r|
      invariant |Flatten(px[..n])| == 3 * n
      invariant out[..] == Written(before, Flatten(px[..n]))
    {
      Blocks(k, |r|);
      PutBatch8(r, g, b, off, out, n, before);
      n, len, k := n + 16, len - 16, k + 1;
    }
    Blocks(k, |r|);
    assert px[n..] == Low8(r, g, b, off)[n..];
    Tail8(r, g, b, off, out, n, before, px);
  }

  /** One trip of the scalar path. */
  method PutLow8At(r: seq<int32>, g: seq<int32>, b: seq<int32>, off: int32, out: array<byte>, i: nat,
                   ghost before: seq<byte>)
    requires |r| == |g| == |b| && i < |r| && 3 * |r| <= out.Length == |before|
    requires |Flatten(Low8(r, g, b, off)[..i])| == 3 * i
    requires out[..] == Written(before, Flatten(Low8(r, g, b, off)[..i]))
    modifies out
    ensures |Flatten(Low8(r, g, b, off)[..i + 1])| == 3 * (i + 1)
    ensures out[..] == Written(before, Flatten(Low8(r, g, b, off)[..i + 1]))
  {
    PutLow8(r[i] as int + off, g[i] as int + off, b[i] as int + off, out, i, before, Low8(r, g, b, off));
  }

  /** The scalar path. */
  method WritePpm8Scalar(r: seq<int32>, g: seq<int32>, b: seq<int32>, off: int32, out: array<byte>)
    requires |r| == |g| == |b| && NoOverflow(r, off) && NoOverflow(g, off) && NoOverflow(b, off)
    requires 3 * |r| <= out.Length
    modifies out
    ensures |Flatten(Low8(r, g, b, off))| == 3 * |r|
    ensures out[..] == Written(old(out[..]), Flatten(Low8(r, g, b, off)))
  {
    ghost var before, px := out[..], Low8(r, g, b, off);
    for i := 0 to |r|
      invariant |Flatten(px[..i])| == 3 * i
      invariant out[..] == Written(before, Flatten(px[..i]))
    {
      PutLow8At(r, g, b, off, out, i, before);
    }
    assert px[..|r|] == px;
  }

  /** The two paths write the same picture exactly when every component of every pixel in the
      full 16-pixel blocks survives the narrowing. */
  lemma Batch8Agree(r: seq<int32>, g: seq<int32>, b: seq<int32>, off: int32)
    requires |r| == |g| == |b|
    ensures Flatten(Avx8(r, g, b, off)) == Flatten(Low8(r, g, b, off)) <==>
      forall x :: 0 <= x < Blocked(|r|) ==>
        NarrowExact(r[x] as int + off) && NarrowExact(g[x] as int + off) && NarrowExact(b[x] as int + off)
  {
    var p, q := Avx8(r, g, b, off), Low8(r, g, b, off);
    forall x | 0 <= x < Blocked(|r|)
      ensures p[x] == q[x] <==>
        NarrowExact(r[x] as int + off) && NarrowExact(g[x] as int + off) && NarrowExact(b[x] as int + off)
    {
      NarrowAgrees(r[x] as int + off);
      NarrowAgrees(g[x] as int + off);
      NarrowAgrees(b[x] as int + off);
      Pixel8Equal(Narrow8(r[x] as int + off), Narrow8(g[x] as int + off), Narrow8(b[x] as int + off),
                  LowByte(r[x] as int + off), LowByte(g[x] as int + off), LowByte(b[x] as int + off));
    }
    if Flatten(p) == Flatten(q) {
      FlattenInjective(p, q, 3);
    } else {
      assert p != q;
      var x :| 0 <= x < |p| && p[x] != q[x];
      assert x < Blocked(|r|);
    }
  }

  // ---------------------------------------------------------------------------
  // 16 bits: eight pixels in, 48 bytes out
  // ---------------------------------------------------------------------------

  const WIDE0: Reg := [1, 0, 3, 2, 0xFF, 0xFF, 5, 4, 7, 6, 0xFF, 0xFF, 9, 8, 11, 10]
  const WIDE1: Reg := [0xFF, 0xFF, 1, 0, 3, 2, 0xFF, 0xFF, 5, 4, 7, 6, 0xFF, 0xFF, 9, 8]
  const WIDE2: Reg := [7, 6, 0xFF, 0xFF, 9, 8, 11, 10, 0xFF, 0xFF, 13, 12, 15, 14, 0xFF, 0xFF]
  const WIDE2_LO: Reg := [0xFF, 0xFF, 0xFF, 0xFF, 1, 0, 0xFF, 0xFF, 0xFF, 0xFF, 3, 2, 0xFF, 0xFF, 0xFF, 0xFF]
  const WIDE2_MED: Reg := [5, 4, 0xFF, 0xFF, 0xFF, 0xFF, 7, 6, 0xFF, 0xFF, 0xFF, 0xFF, 9, 8, 0xFF, 0xFF]
  const WIDE2_HI: Reg := [0xFF, 0xFF, 11, 10, 0xFF, 0xFF, 0xFF, 0xFF, 13, 12, 0xFF, 0xFF, 0xFF, 0xFF, 15, 14]

  /** Which bytes of the mask belong to an unset lane. */
  method LaneMask(p: Reg, mask: Reg) returns (blk: Reg)
    requires forall j :: 0 <= j < 16 ==> (mask[j] == 0xFF <==> mask[Partner(j)] == 0xFF)
    ensures forall j :: 0 <= j < 16 ==> blk[j] == if mask[j] == 0xFF then 0xFF else 0
  {
    var cff := CmpEqI16(p, p);
    blk := CmpEqI16(mask, cff);
  }

  /** As Merged, comparing 16-bit lanes of the mask. */
  method Merged16(p: Reg, mask: Reg, q: Reg, qmask: Reg) returns (v: Reg)
    requires forall j :: 0 <= j < 16 ==> (mask[j] < 16 || (mask[j] == 0xFF && qmask[j] < 16))
    requires forall j :: 0 <= j < 16 ==> (mask[j] == 0xFF <==> mask[Partner(j)] == 0xFF)
    ensures forall j :: 0 <= j < 16 ==> v[j] == if mask[j] < 16 then p[mask[j]] else q[qmask[j]]
  {
    var x := ShuffleI8(p, mask);
    var y := ShuffleI8(q, qmask);
    var blk := LaneMask(p, mask);
    v := BlendV(x, y, blk);
  }

  method Store16A(v0: Reg, a: Reg, b: Reg, c: Reg) returns (x: Reg)
    requires forall j :: 0 <= j < 16 ==> v0[j] == if j % 4 < 2 then a[j / 4 * 2 + j % 2] else b[j / 4 * 2 + j % 2]
    ensures x == [a[1], a[0], b[1], b[0], c[1], c[0], a[3], a[2], b[3], b[2], c[3], c[2], a[5], a[4], b[5], b[4]]
  {
    x := Merged16(v0, WIDE0, c, WIDE2_LO);
  }

  method Store16B(v1: Reg, a: Reg, b: Reg, c: Reg) returns (y: Reg)
    requires v1[..10] == [a[6], a[7], b[6], b[7], a[8], a[9], b[8], b[9], a[10], a[11]]
    ensures y == [c[5], c[4], a[7], a[6], b[7], b[6], c[7], c[6], a[9], a[8], b[9], b[8], c[9], c[8], a[11], a[10]]
  {
    assert forall j :: 0 <= j < 10 ==> v1[j] == v1[..10][j];
    y := Merged16(v1, WIDE1, c, WIDE2_MED);
  }

  method Store16C(v2: Reg, a: Reg, b: Reg, c: Reg) returns (z: Reg)
    requires forall j :: 0 <= j < 16 ==>
      v2[j] == if j % 4 < 2 then a[8 + j / 4 * 2 + j % 2] else b[8 + j / 4 * 2 + j % 2]
    ensures z == [b[11], b[10], c[11], c[10], a[13], a[12], b[13], b[12], c[13], c[12], a[15], a[14], b[15], b[14],
                  c[15], c[14]]
  {
    z := Merged16(v2, WIDE2, c, WIDE2_HI);
  }

  /** Three registers of 16-bit components become three of whole big-endian pixels. */
  method Interleave48Be(a: Reg, b: Reg, c: Reg) returns (x: Reg, y: Reg, z: Reg)
    ensures x + y + z ==
      [a[1], a[0], b[1], b[0], c[1], c[0]] + [a[3], a[2], b[3], b[2], c[3], c[2]] +
      [a[5], a[4], b[5], b[4], c[5], c[4]] + [a[7], a[6], b[7], b[6], c[7], c[6]] +
      [a[9], a[8], b[9], b[8], c[9], c[8]] + [a[11], a[10], b[11], b[10], c[11], c[10]] +
      [a[13], a[12], b[13], b[12], c[13], c[12]] + [a[15], a[14], b[15], b[14], c[15], c[14]]
  {
    var v0 := UnpackLoI16(a, b);
    var v2 := UnpackHiI16(a, b);
    var v1 := AlignR(v2, v0, 12);
    x := Store16A(v0, a, b, c);
    y := Store16B(v1, a, b, c);
    z := Store16C(v2, a, b, c);
    CutInSixes(x, y, z);
  }

  /** A saturated component as it lies in its register. */
  method PackedComponent(src: seq<int32>, at: nat, off: int32) returns (v: Reg)
    requires NoOverflow(src, off) && at + 8 <= |src|
    ensures [v[1], v[0]] == Be(SatU16(src[at + 0] as int + off))
    ensures [v[3], v[2]] == Be(SatU16(src[at + 1] as int + off))
    ensures [v[5], v[4]] == Be(SatU16(src[at + 2] as int + off))
    ensures [v[7], v[6]] == Be(SatU16(src[at + 3] as int + off))
    ensures [v[9], v[8]] == Be(SatU16(src[at + 4] as int + off))
    ensures [v[11], v[10]] == Be(SatU16(src[at + 5] as int + off))
    ensures [v[13], v[12]] == Be(SatU16(src[at + 6] as int + off))
    ensures [v[15], v[14]] == Be(SatU16(src[at + 7] as int + off))
  {
    v := AsBytes16(PackShifted(src, at, off));
  }

  lemma RunOfEight(px: seq<seq<byte>>, at: nat)
    requires at + 8 <= |px|
    ensures px[at] + px[at + 1] + px[at + 2] + px[at + 3] + px[at + 4] + px[at + 5] + px[at + 6] + px[at + 7] ==
        Run(px, at, 8)
  {
    RunOfFour(px, at);
    RunOfFour(px, at + 4);
    RunAppend(px, at, 4, 4);
  }

  lemma PixelOfBytes(s: seq<byte>, r: int, g: int, b: int)
    requires |s| == 6 && [s[0], s[1]] == Be(r) && [s[2], s[3]] == Be(g) && [s[4], s[5]] == Be(b)
    ensures s == Pixel16(r, g, b)
  {
    assert s == [s[0], s[1]] + [s[2], s[3]] + [s[4], s[5]];
  }

  /** One trip of the block loop: pixels at to at + 7. */
  method BlockBatch16(r: seq<int32>, g: seq<int32>, b: seq<int32>, off: int32, at: nat) returns (x: Reg, y: Reg, z: Reg)
    requires |r| == |g| == |b| && NoOverflow(r, off) && NoOverflow(g, off) && NoOverflow(b, off)
    requires at + 8 <= 8 * (|r| / 8)
    ensures x + y + z == Run(Avx16(r, g, b, off), at, 8)
  {
    var val0 := PackedComponent(r, at, off);
    var val1 := PackedComponent(g, at, off);
    var val2 := PackedComponent(b, at, off);
    x, y, z := Interleave48Be(val0, val1, val2);
    ghost var px := Avx16(r, g, b, off);
    PixelOfBytes([val0[1], val0[0], val1[1], val1[0], val2[1], val2[0]],
                 SatU16(r[at + 0] as int + off), SatU16(g[at + 0] as int + off), SatU16(b[at + 0] as int + off));
    PixelOfBytes([val0[3], val0[2], val1[3], val1[2], val2[3], val2[2]],
                 SatU16(r[at + 1] as int + off), SatU16(g[at + 1] as int + off), SatU16(b[at + 1] as int + off));
    PixelOfBytes([val0[5], val0[4], val1[5], val1[4], val2[5], val2[4]],
                 SatU16(r[at + 2] as int + off), SatU16(g[at + 2] as int + off), SatU16(b[at + 2] as int + off));
    PixelOfBytes([val0[7], val0[6], val1[7], val1[6], val2[7], val2[6]],
                 SatU16(r[at + 3] as int + off), SatU16(g[at + 3] as int + off), SatU16(b[at + 3] as int + off));
    PixelOfBytes([val0[9], val0[8], val1[9], val1[8], val2[9], val2[8]],
                 SatU16(r[at + 4] as int + off), SatU16(g[at + 4] as int + off), SatU16(b[at + 4] as int + off));
    PixelOfBytes([val0[11], val0[10], val1[11], val1[10], val2[11], val2[10]],
                 SatU16(r[at + 5] as int + off), SatU16(g[at + 5] as int + off), SatU16(b[at + 5] as int + off));
    PixelOfBytes([val0[13], val0[12], val1[13], val1[12], val2[13], val2[12]],
                 SatU16(r[at + 6] as int + off), SatU16(g[at + 6] as int + off), SatU16(b[at + 6] as int + off));
    PixelOfBytes([val0[15], val0[14], val1[15], val1[14], val2[15], val2[14]],
                 SatU16(r[at + 7] as int + off), SatU16(g[at + 7] as int + off), SatU16(b[at + 7] as int + off));
    RunOfEight(px, at);
  }

  /** One trip of the scalar loop. */
  method PutLow16(r: int, g: int, b: int, dst: array<byte>, n: nat, ghost before: seq<byte>, ghost px: seq<seq<byte>>)
    requires n < |px| && px[n] == Pixel16(r, g, b)
    requires 6 * n == |Flatten(px[..n])| && 6 * n + 6 <= dst.Length == |before|
    requires dst[..] == Written(before, Flatten(px[..n]))
    modifies dst
    ensures |Flatten(px[..n + 1])| == 6 * (n + 1)
    ensures dst[..] == Written(before, Flatten(px[..n + 1]))
  {
    ghost var done := Flatten(px[..n]);
    Put(dst, 6 * n, [HighByte(r), LowByte(r)], before, done);
    Put(dst, 6 * n + 2, [HighByte(g), LowByte(g)], before, done + Be(r));
    Put(dst, 6 * n + 4, [HighByte(b), LowByte(b)], before, done + Be(r) + Be(g));
    FlattenStep(px, n);
    assert done + Be(r) + Be(g) + Be(b) == done + px[n];
  }

  /** The scalar tail of the AVX2 path. */
  method Tail16(r: seq<int32>, g: seq<int32>, b: seq<int32>, off: int32, out: array<byte>, from: nat,
               ghost before: seq<byte>, ghost px: seq<seq<byte>>)
    requires |r| == |g| == |b| == |px| && from <= |r| && 6 * |r| <= out.Length == |before|
    requires px[from..] == Low16(r, g, b, off)[from..]
    requires |Flatten(px[..from])| == 6 * from
    requires out[..] == Written(before, Flatten(px[..from]))
    modifies out
    ensures |Flatten(px)| == 6 * |r|
    ensures out[..] == Written(before, Flatten(px))
  {
    var n, len := from, |r| - from;
    while len > 0
      invariant len + n == |r| && from <= n <= |r|
      invariant |Flatten(px[..n])| == 6 * n
      invariant out[..] == Written(before, Flatten(px[..n]))
    {
      assert px[n] == px[from..][n - from] == Low16(r, g, b, off)[n];
      PutLow16(r[n] as int + off, g[n] as int + off, b[n] as int + off, out, n, before, px);
      n, len := n + 1, len - 1;
    }
    assert px[..n] == px;
  }

  /** Loads, shuffles and stores eight pixels. */
  method PutBatch16(r: seq<int32>, g: seq<int32>, b: seq<int32>, off: int32, out: array<byte>, n: nat,
                    ghost before: seq<byte>)
    requires |r| == |g| == |b| && NoOverflow(r, off) && NoOverflow(g, off) && NoOverflow(b, off)
    requires n + 8 <= 8 * (|r| / 8) && 6 * |r| <= out.Length == |before|
    requires |Flatten(Avx16(r, g, b, off)[..n])| == 6 * n
    requires out[..] == Written(before, Flatten(Avx16(r, g, b, off)[..n]))
    modifies out
    ensures |Flatten(Avx16(r, g, b, off)[..n + 8])| == 6 * (n + 8)
    ensures out[..] == Written(before, Flatten(Avx16(r, g, b, off)[..n + 8]))
  {
    var x, y, z := BlockBatch16(r, g, b, off, n);
    PutRun48(out, 6 * n, x, y, z, before, Avx16(r, g, b, off), n, 8);
  }

  /** The AVX2 path. */
  method WritePpm16Avx2(r: seq<int32>, g: seq<int32>, b: seq<int32>, off: int32, out: array<byte>)
    requires |r| == |g| == |b| && NoOverflow(r, off) && NoOverflow(g, off) && NoOverflow(b, off)
    requires 6 * |r| <= out.Length
    modifies out
    ensures |Flatten(Avx16(r, g, b, off))| == 6 * |r|
    ensures out[..] == Written(old(out[..]), Flatten(Avx16(r, g, b, off)))
  {
    var n, len := 0, |r|;
    ghost var k: nat := 0;
    ghost var before, px := out[..], Avx16(r, g, b, off);
    while len >= 8
      invariant len + n == |r| && 0 <= n == 8 * k <= |r|
      invariant |Flatten(px[..n])| == 6 * n
      invariant out[..] == Written(before, Flatten(px[..n]))
    {
      EightBlocks(k, |r|);
      PutBatch16(r, g, b, off, out, n, before);
      n, len, k := n + 8, len - 8, k + 1;
    }
    EightBlocks(k, |r|);
    assert px[n..] == Low16(r, g, b, off)[n..];
    Tail16(r, g, b, off, out, n, before, px);
  }

  /** One trip of the scalar path. */
  method PutLow16At(r: seq<int32>, g: seq<int32>, b: seq<int32>, off: int32, out: array<byte>, i: nat,
                    ghost before: seq<byte>)
    requires |r| == |g| == |b| && i < |r| && 6 * |r| <= out.Length == |before|
    requires |Flatten(Low16(r, g, b, off)[..i])| == 6 * i
    requires out[..] == Written(before, Flatten(Low16(r, g, b, off)[..i]))
    modifies out
    ensures |Flatten(Low16(r, g, b, off)[..i + 1])| == 6 * (i + 1)
    ensures out[..] == Written(before, Flatten(Low16(r, g, b, off)[..i + 1]))
  {
    PutLow16(r[i] as int + off, g[i] as int + off, b[i] as int + off, out, i, before, Low16(r, g, b, off));
  }

  /** The scalar path. */
  method WritePpm16Scalar(r: seq<int32>, g: seq<int32>, b: seq<int32>, off: int32, out: array<byte>)
    requires |r| == |g| == |b| && NoOverflow(r, off) && NoOverflow(g, off) && NoOverflow(b, off)
    requires 6 * |r| <= out.Length
    modifies out
    ensures |Flatten(Low16(r, g, b, off))| == 6 * |r|
    ensures out[..] == Written(old(out[..]), Flatten(Low16(r, g, b, off)))
  {
    ghost var before, px := out[..], Low16(r, g, b, off);
    for i := 0 to |r|
      invariant |Flatten(px[..i])| == 6 * i
      invariant out[..] == Written(before, Flatten(px[..i]))
    {
      PutLow16At(r, g, b, off, out, i, before);
    }
    assert px[..|r|] == px;
  }

  /** A component saturated to unsigned 16 bits survives when it fits or its low bits are the limit. */
  predicate SatExact(v: int) {
    || 0 <= v <= 0xFFFF
    || (v < 0 && v % 0x1_0000 == 0)
    || (v > 0xFFFF && v % 0x1_0000 == 0xFFFF)
  }

  lemma SatU16Agrees(v: int)
    ensures Be(SatU16(v)) == Be(v) <==> SatExact(v)
  {
    var s := SatU16(v);
    LowBits(s, v);
    assert Be(s)[0] == HighByte(s) && Be(s)[1] == LowByte(s) && Be(v)[0] == HighByte(v) && Be(v)[1] == LowByte(v);
  }

  lemma Pixel16Equal(r: int, g: int, b: int, r': int, g': int, b': int)
    ensures Pixel16(r, g, b) == Pixel16(r', g', b') <==> Be(r) == Be(r') && Be(g) == Be(g') && Be(b) == Be(b')
  {
    var p, q := Pixel16(r, g, b), Pixel16(r', g', b');
    assert p[..2] == Be(r) && p[2..4] == Be(g) && p[4..] == Be(b);
    assert q[..2] == Be(r') && q[2..4] == Be(g') && q[4..] == Be(b');
  }

  /** The two paths write the same picture exactly when every component of every pixel in the
      full 8-pixel blocks survives the saturation. */
  lemma Batch16Agree(r: seq<int32>, g: seq<int32>, b: seq<int32>, off: int32)
    requires |r| == |g| == |b|
    ensures Flatten(Avx16(r, g, b, off)) == Flatten(Low16(r, g, b, off)) <==>
      forall x :: 0 <= x < 8 * (|r| / 8) ==>
        SatExact(r[x] as int + off) && SatExact(g[x] as int + off) && SatExact(b[x] as int + off)
  {
    var p, q := Avx16(r, g, b, off), Low16(r, g, b, off);
    forall x | 0 <= x < 8 * (|r| / 8)
      ensures p[x] == q[x] <==>
        SatExact(r[x] as int + off) && SatExact(g[x] as int + off) && SatExact(b[x] as int + off)
    {
      SatU16Agrees(r[x] as int + off);
      SatU16Agrees(g[x] as int + off);
      SatU16Agrees(b[x] as int + off);
      Pixel16Equal(SatU16(r[x] as int + off), SatU16(g[x] as int + off), SatU16(b[x] as int + off),
                   r[x] as int + off, g[x] as int + off, b[x] as int + off);
    }
    if Flatten(p) == Flatten(q) {
      FlattenInjective(p, q, 6);
    } else {
      assert p != q;
      var x :| 0 <= x < |p| && p[x] != q[x];
      assert x < 8 * (|r| / 8);
    }
  }
}
