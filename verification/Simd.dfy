/** Vector registers and the SSE4.1, AVX2 and WebAssembly instructions the kernels use.

    A 128-bit register (`__m128i`, `v128_t`) has three views: 16 bytes, eight 16-bit
    lanes, four 32-bit lanes, all little-endian. An instruction is defined on the view
    it works in; `AsBytes`, `AsI32` and the like reinterpret the same bits, which the
    hardware does for free. Lane arithmetic is a function of the lanes; an instruction
    that moves bytes about is a method, whose contract says where each byte comes from.
    A 256-bit register is a pair of 128-bit ones, because AVX2 packs and shuffles each
    half separately. The WebAssembly instructions follow section 4.4.3 of the
    WebAssembly Core Specification 2.0. */
module Simd {
  import opened MachineInts

  type Reg = v: seq<byte> | |v| == 16
    witness [0, 0, 0, 0, 0, 0, 0, 0, 0, 0, 0, 0, 0, 0, 0, 0]

  datatype I32x4 = I32x4(e0: int32, e1: int32, e2: int32, e3: int32) {
    function At(i: nat): int32
      requires i < 4
    {
      if i == 0 then e0 else if i == 1 then e1 else if i == 2 then e2 else e3
    }
  }

  datatype U16x8 = U16x8(e0: uint16, e1: uint16, e2: uint16, e3: uint16,
                         e4: uint16, e5: uint16, e6: uint16, e7: uint16) {
    function At(i: nat): uint16
      requires i < 8
    {
      if i == 0 then e0 else if i == 1 then e1 else if i == 2 then e2 else if i == 3 then e3
      else if i == 4 then e4 else if i == 5 then e5 else if i == 6 then e6 else e7
    }
  }

  datatype Wide<+T> = Wide(lo: T, hi: T)

  // ---------------------------------------------------------------------------
  // Reinterpretation
  // ---------------------------------------------------------------------------

  /** Byte k of the little-endian two's complement form of x. */
  function ByteOf(x: int, k: nat): byte
    requires k < 4
  {
    if k == 0 then x % 0x100
    else if k == 1 then x / 0x100 % 0x100
    else if k == 2 then x / 0x1_0000 % 0x100
    else x / 0x100_0000 % 0x100
  }

  lemma BytesOfU16(x: uint16)
    ensures Word2(LowByte(x), HighByte(x)) == x
  {
  }

  method AsBytes(x: I32x4) returns (v: Reg)
    ensures v[0] == ByteOf(x.e0, 0) && v[1] == ByteOf(x.e0, 1) && v[2] == ByteOf(x.e0, 2) && v[3] == ByteOf(x.e0, 3)
    ensures v[4] == ByteOf(x.e1, 0) && v[5] == ByteOf(x.e1, 1) && v[6] == ByteOf(x.e1, 2) && v[7] == ByteOf(x.e1, 3)
    ensures v[8] == ByteOf(x.e2, 0) && v[9] == ByteOf(x.e2, 1) && v[10] == ByteOf(x.e2, 2) && v[11] == ByteOf(x.e2, 3)
    ensures v[12] == ByteOf(x.e3, 0) && v[13] == ByteOf(x.e3, 1) && v[14] == ByteOf(x.e3, 2) && v[15] == ByteOf(x.e3, 3)
  {
    v := seq(16, j requires 0 <= j < 16 => ByteOf(x.At(j / 4), j % 4));
  }

  method AsBytes16(x: U16x8) returns (v: Reg)
    ensures v[0] == LowByte(x.e0) && v[1] == HighByte(x.e0) && v[2] == LowByte(x.e1) && v[3] == HighByte(x.e1)
    ensures v[4] == LowByte(x.e2) && v[5] == HighByte(x.e2) && v[6] == LowByte(x.e3) && v[7] == HighByte(x.e3)
    ensures v[8] == LowByte(x.e4) && v[9] == HighByte(x.e4) && v[10] == LowByte(x.e5) && v[11] == HighByte(x.e5)
    ensures v[12] == LowByte(x.e6) && v[13] == HighByte(x.e6) && v[14] == LowByte(x.e7) && v[15] == HighByte(x.e7)
  {
    v := seq(16, j requires 0 <= j < 16 => if j % 2 == 0 then LowByte(x.At(j / 2)) else HighByte(x.At(j / 2)));
  }

  /** The 32-bit lanes of 16 bytes. */
  function AsI32(v: Reg): I32x4 {
    I32x4(WrapI32(Word4(v[0], v[1], v[2], v[3])),
          WrapI32(Word4(v[4], v[5], v[6], v[7])),
          WrapI32(Word4(v[8], v[9], v[10], v[11])),
          WrapI32(Word4(v[12], v[13], v[14], v[15])))
  }

  // ---------------------------------------------------------------------------
  // Loads and constants
  // ---------------------------------------------------------------------------

  /** Loads src[at..at + 4]. */
  function LoadI32(src: seq<int32>, at: nat): I32x4
    requires at + 4 <= |src|
  {
    I32x4(src[at], src[at + 1], src[at + 2], src[at + 3])
  }

  /** Loads src[at..at + 8]. */
  function LoadI32Wide(src: seq<int32>, at: nat): Wide<I32x4>
    requires at + 8 <= |src|
  {
    Wide(LoadI32(src, at), LoadI32(src, at + 4))
  }

  /** _mm_set1_epi32 and i32x4.splat */
  function SplatI32(x: int32): I32x4 {
    I32x4(x, x, x, x)
  }

  /** The two 64-bit numbers _mm_set_epi64x makes a register from. */
  function Low64(v: Reg): int {
    Word4(v[0], v[1], v[2], v[3]) + 0x1_0000_0000 * Word4(v[4], v[5], v[6], v[7])
  }

  function High64(v: Reg): int {
    Word4(v[8], v[9], v[10], v[11]) + 0x1_0000_0000 * Word4(v[12], v[13], v[14], v[15])
  }

  // ---------------------------------------------------------------------------
  // 32-bit lane arithmetic, with two's complement wrap-around
  // ---------------------------------------------------------------------------

  /** _mm_add_epi32 and i32x4.add */
  function AddI32(a: I32x4, b: I32x4): I32x4 {
    I32x4(WrapI32(a.e0 as int + b.e0),
          WrapI32(a.e1 as int + b.e1),
          WrapI32(a.e2 as int + b.e2),
          WrapI32(a.e3 as int + b.e3))
  }

  /** i32x4.sub */
  function SubI32(a: I32x4, b: I32x4): I32x4 {
    I32x4(WrapI32(a.e0 as int - b.e0),
          WrapI32(a.e1 as int - b.e1),
          WrapI32(a.e2 as int - b.e2),
          WrapI32(a.e3 as int - b.e3))
  }

  /** i32x4.mul */
  function MulI32(a: I32x4, b: I32x4): I32x4 {
    I32x4(WrapI32(a.e0 as int * b.e0),
          WrapI32(a.e1 as int * b.e1),
          WrapI32(a.e2 as int * b.e2),
          WrapI32(a.e3 as int * b.e3))
  }

  /** _mm_max_epi32 and i32x4.max_s */
  function MaxI32(a: I32x4, b: I32x4): I32x4 {
    I32x4(Max(a.e0, b.e0), Max(a.e1, b.e1), Max(a.e2, b.e2), Max(a.e3, b.e3))
  }

  /** _mm_min_epi32 and i32x4.min_s */
  function MinI32(a: I32x4, b: I32x4): I32x4 {
    I32x4(Min(a.e0, b.e0), Min(a.e1, b.e1), Min(a.e2, b.e2), Min(a.e3, b.e3))
  }

  /** _mm_slli_epi32: left shift of each lane by k bits */
  function ShlI32(a: I32x4, k: nat): I32x4 {
    I32x4(WrapI32(a.e0 as int * Pow2(k)),
          WrapI32(a.e1 as int * Pow2(k)),
          WrapI32(a.e2 as int * Pow2(k)),
          WrapI32(a.e3 as int * Pow2(k)))
  }

  /** i32x4.shr_s: arithmetic right shift of each lane by k bits */
  function ShrI32(a: I32x4, k: nat): I32x4 {
    I32x4(WrapI32(a.e0 as int / Pow2(k)),
          WrapI32(a.e1 as int / Pow2(k)),
          WrapI32(a.e2 as int / Pow2(k)),
          WrapI32(a.e3 as int / Pow2(k)))
  }

  /** i32x4.shr_u: logical right shift of each lane by k bits */
  function ShrU32(a: I32x4, k: nat): I32x4 {
    I32x4(WrapI32(a.e0 as int % 0x1_0000_0000 / Pow2(k)),
          WrapI32(a.e1 as int % 0x1_0000_0000 / Pow2(k)),
          WrapI32(a.e2 as int % 0x1_0000_0000 / Pow2(k)),
          WrapI32(a.e3 as int % 0x1_0000_0000 / Pow2(k)))
  }

  /** _mm256_add_epi32 */
  function AddI32Wide(a: Wide<I32x4>, b: Wide<I32x4>): Wide<I32x4> {
    Wide(AddI32(a.lo, b.lo), AddI32(a.hi, b.hi))
  }

  // ---------------------------------------------------------------------------
  // Saturating packs
  // ---------------------------------------------------------------------------

  /** _mm_packs_epi32 and i16x8.narrow_i32x4_s: signed 32 to signed 16 bits. */
  function PackSI32(a: I32x4, b: I32x4): U16x8 {
    U16x8(ToU16(SatI16(a.e0)), ToU16(SatI16(a.e1)), ToU16(SatI16(a.e2)), ToU16(SatI16(a.e3)),
          ToU16(SatI16(b.e0)), ToU16(SatI16(b.e1)), ToU16(SatI16(b.e2)), ToU16(SatI16(b.e3)))
  }

  /** _mm_packus_epi32 and i16x8.narrow_i32x4_u: signed 32 to unsigned 16 bits. */
  function PackUI32(a: I32x4, b: I32x4): U16x8 {
    U16x8(SatU16(a.e0), SatU16(a.e1), SatU16(a.e2), SatU16(a.e3), SatU16(b.e0), SatU16(b.e1), SatU16(b.e2),
          SatU16(b.e3))
  }

  /** _mm_packus_epi16 and i8x16.narrow_i16x8_u: signed 16 to unsigned 8 bits. */
  method PackUI16(a: U16x8, b: U16x8) returns (v: Reg)
    ensures forall j :: 0 <= j < 8 ==> v[j] == SatU8(AsI16(a.At(j)))
    ensures forall j :: 8 <= j < 16 ==> v[j] == SatU8(AsI16(b.At(j - 8)))
  {
    v := seq(16, j requires 0 <= j < 16 => if j < 8 then SatU8(AsI16(a.At(j))) else SatU8(AsI16(b.At(j - 8))));
  }

  // ---------------------------------------------------------------------------
  // Bitwise operators and whole-register byte shifts
  // ---------------------------------------------------------------------------

  /** _mm_or_si128 */
  method Or(a: Reg, b: Reg) returns (v: Reg)
    ensures forall j, k: nat :: 0 <= j < 16 ==> Bit(v[j], k) == (Bit(a[j], k) || Bit(b[j], k))
    ensures forall j :: 0 <= j < 16 && b[j] == 0 ==> v[j] == a[j]
    ensures forall j :: 0 <= j < 16 && a[j] == 0 ==> v[j] == b[j]
  {
    OrByteZero();
    v := seq(16, j requires 0 <= j < 16 => OrByte(a[j], b[j]));
    forall j, k: nat | 0 <= j < 16
      ensures Bit(v[j], k) == (Bit(a[j], k) || Bit(b[j], k))
    {
      BitOfOr(a[j], b[j], k);
    }
  }

  /** _mm_and_si128 and v128.and */
  method And(a: Reg, b: Reg) returns (v: Reg)
    ensures forall j, k: nat :: 0 <= j < 16 ==> Bit(v[j], k) == (Bit(a[j], k) && Bit(b[j], k))
    ensures forall j :: 0 <= j < 16 && b[j] == 0 ==> v[j] == 0
    ensures forall j :: 0 <= j < 16 && b[j] == 0xFF ==> v[j] == a[j]
  {
    AndByteMask();
    v := seq(16, j requires 0 <= j < 16 => AndByte(a[j], b[j]));
    forall j, k: nat | 0 <= j < 16
      ensures Bit(v[j], k) == (Bit(a[j], k) && Bit(b[j], k))
    {
      BitOfAnd(a[j], b[j], k);
    }
  }

  lemma OrByteZero()
    ensures forall x: byte :: OrByte(x, 0) == x && OrByte(0, x) == x
  {
    forall x: byte
      ensures OrByte(x, 0) == x && OrByte(0, x) == x
    {
      BitOrZero(x);
    }
  }

  lemma AndByteMask()
    ensures forall x: byte :: AndByte(x, 0) == 0 && AndByte(x, 0xFF) == x
  {
    forall x: byte
      ensures AndByte(x, 0) == 0 && AndByte(x, 0xFF) == x
    {
      Pow2Values();
      BitAndZero(x);
      BitAndOnes(8, x);
    }
  }

  /** _mm_bslli_si128: moves bytes up by k, filling with 0. */
  method ByteShl(a: Reg, k: nat) returns (v: Reg)
    ensures forall j :: 0 <= j < 16 ==> v[j] == if j < k then 0 else a[j - k]
  {
    v := seq(16, j requires 0 <= j < 16 => if j < k then 0 else a[j - k]);
  }

  /** _mm_bsrli_si128: moves bytes down by k, filling with 0. */
  method ByteShr(a: Reg, k: nat) returns (v: Reg)
    ensures forall j :: 0 <= j < 16 ==> v[j] == if j + k < 16 then a[j + k] else 0
  {
    v := seq(16, j requires 0 <= j < 16 => if j + k < 16 then a[j + k] else 0);
  }

  // ---------------------------------------------------------------------------
  // Shuffles
  // ---------------------------------------------------------------------------

  /** _mm_shuffle_epi8: a mask byte with its top bit set gives 0. */
  method ShuffleI8(a: Reg, mask: Reg) returns (v: Reg)
    ensures forall j :: 0 <= j < 16 ==> v[j] == if mask[j] >= 0x80 then 0 else a[mask[j] % 16]
  {
    v := seq(16, j requires 0 <= j < 16 => if mask[j] >= 0x80 then 0 else a[mask[j] % 16]);
  }

  /** 64-bit quarter q of a 256-bit register. */
  function Quarter(a: Wide<Reg>, q: nat): (s: seq<byte>)
    requires q < 4
    ensures |s| == 8
  {
    if q == 0 then a.lo[..8] else if q == 1 then a.lo[8..] else if q == 2 then a.hi[..8] else a.hi[8..]
  }

  /** _mm256_permute4x64_epi64: quarter q comes from quarter (imm >> 2q) & 3. */
  method Permute4x64(a: Wide<Reg>, imm: byte) returns (v: Wide<Reg>)
    ensures v.lo == Quarter(a, imm % 4) + Quarter(a, imm / 4 % 4)
    ensures v.hi == Quarter(a, imm / 16 % 4) + Quarter(a, imm / 64 % 4)
  {
    v := Wide(Quarter(a, imm % 4) + Quarter(a, imm / 4 % 4), Quarter(a, imm / 16 % 4) + Quarter(a, imm / 64 % 4));
  }

  /** 32-bit lane i of a 256-bit register, as bytes. */
  function Eighth(a: Wide<Reg>, i: nat): (s: seq<byte>)
    requires i < 8
    ensures |s| == 4
  {
    if i < 4 then a.lo[4 * i..4 * i + 4] else a.hi[4 * (i - 4)..4 * (i - 4) + 4]
  }

  /** _mm256_permutevar8x32_epi32: lane i comes from lane index[i]. */
  method PermuteVar8x32(a: Wide<Reg>, index: seq<nat>) returns (v: Wide<Reg>)
    requires |index| == 8 && forall i :: 0 <= i < 8 ==> index[i] < 8
    ensures v.lo == Eighth(a, index[0]) + Eighth(a, index[1]) + Eighth(a, index[2]) + Eighth(a, index[3])
    ensures v.hi == Eighth(a, index[4]) + Eighth(a, index[5]) + Eighth(a, index[6]) + Eighth(a, index[7])
  {
    var lo: Reg := Eighth(a, index[0]) + Eighth(a, index[1]) + Eighth(a, index[2]) + Eighth(a, index[3]);
    var hi: Reg := Eighth(a, index[4]) + Eighth(a, index[5]) + Eighth(a, index[6]) + Eighth(a, index[7]);
    v := Wide(lo, hi);
  }

  /** _mm_unpacklo_epi8 */
  method UnpackLoI8(a: Reg, b: Reg) returns (v: Reg)
    ensures forall j :: 0 <= j < 16 ==> v[j] == if j % 2 == 0 then a[j / 2] else b[j / 2]
  {
    v := seq(16, j requires 0 <= j < 16 => if j % 2 == 0 then a[j / 2] else b[j / 2]);
  }

  /** _mm_unpackhi_epi8 */
  method UnpackHiI8(a: Reg, b: Reg) returns (v: Reg)
    ensures forall j :: 0 <= j < 16 ==> v[j] == if j % 2 == 0 then a[8 + j / 2] else b[8 + j / 2]
  {
    v := seq(16, j requires 0 <= j < 16 => if j % 2 == 0 then a[8 + j / 2] else b[8 + j / 2]);
  }

  /** _mm_unpacklo_epi16 */
  method UnpackLoI16(a: Reg, b: Reg) returns (v: Reg)
    ensures forall j :: 0 <= j < 16 ==> v[j] == if j % 4 < 2 then a[j / 4 * 2 + j % 2] else b[j / 4 * 2 + j % 2]
  {
    v := seq(16, j requires 0 <= j < 16 => if j % 4 < 2 then a[j / 4 * 2 + j % 2] else b[j / 4 * 2 + j % 2]);
  }

  /** _mm_unpackhi_epi16 */
  method UnpackHiI16(a: Reg, b: Reg) returns (v: Reg)
    ensures forall j :: 0 <= j < 16 ==> v[j] == if j % 4 < 2 then a[8 + j / 4 * 2 + j % 2] else b[8 + j / 4 * 2 + j % 2]
  {
    v := seq(16, j requires 0 <= j < 16 => if j % 4 < 2 then a[8 + j / 4 * 2 + j % 2] else b[8 + j / 4 * 2 + j % 2]);
  }

  /** _mm_alignr_epi8: the 32 bytes high:low moved down by k. */
  method AlignR(high: Reg, low: Reg, k: nat) returns (v: Reg)
    requires k <= 16
    ensures forall j :: 0 <= j < 16 ==> v[j] == if j + k < 16 then low[j + k] else high[j + k - 16]
  {
    v := low[k..] + high[..k];
  }

  /** _mm_cmpeq_epi8 */
  method CmpEqI8(a: Reg, b: Reg) returns (v: Reg)
    ensures forall j :: 0 <= j < 16 ==> v[j] == if a[j] == b[j] then 0xFF else 0
  {
    v := seq(16, j requires 0 <= j < 16 => if a[j] == b[j] then 0xFF else 0);
  }

  /** The other byte of the 16-bit lane byte j is in. */
  function Partner(j: nat): nat {
    if j % 2 == 0 then j + 1 else j - 1
  }

  /** _mm_cmpeq_epi16: both bytes of a lane are set where both bytes agree. */
  method CmpEqI16(a: Reg, b: Reg) returns (v: Reg)
    ensures forall j :: 0 <= j < 16 ==> v[j] == if a[j] == b[j] && a[Partner(j)] == b[Partner(j)] then 0xFF else 0
  {
    v := seq(16, j requires 0 <= j < 16 => if a[j] == b[j] && a[Partner(j)] == b[Partner(j)] then 0xFF else 0);
  }

  /** _mm_blendv_epi8: takes b where the mask byte has its top bit set. */
  method BlendV(a: Reg, b: Reg, mask: Reg) returns (v: Reg)
    ensures forall j :: 0 <= j < 16 ==> v[j] == if mask[j] >= 0x80 then b[j] else a[j]
  {
    v := seq(16, j requires 0 <= j < 16 => if mask[j] >= 0x80 then b[j] else a[j]);
  }

  /** i8x16.shuffle: picks bytes of the concatenation a ++ b. */
  method WasmShuffle(a: Reg, b: Reg, lanes: seq<nat>) returns (v: Reg)
    requires |lanes| == 16 && forall j :: 0 <= j < 16 ==> lanes[j] < 32
    ensures forall j :: 0 <= j < 16 ==> v[j] == if lanes[j] < 16 then a[lanes[j]] else b[lanes[j] - 16]
  {
    v := seq(16, j requires 0 <= j < 16 => if lanes[j] < 16 then a[lanes[j]] else b[lanes[j] - 16]);
  }
}
