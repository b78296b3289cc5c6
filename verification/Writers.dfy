/** The two ways the decoder writes one component to a file: whole buffers
    (`convert_component_buffer_class` and `write_components` in source/apps/decoder/dec_utils.hpp)
    and row by row (source/apps/decoder/main_dec.cpp).

    `WritersAgree` says exactly when the two files are the same, byte for byte. */
module Writers {
  import opened MachineInts
  import opened ByteRows
  import opened CFile
  import PackKernels
  import Pgx
  import RowSchedule

  datatype Format = Pgm | Pgx | Raw

  /** ceil_int(depth, 8) */
  function BytesPerPixel(depth: nat): nat {
    (depth + 7) / 8
  }

  /** PNM_OFFSET and pnm_offset: signed samples are shifted up in a PGM. */
  function Offset(fmt: Format, signed: bool, depth: nat): int32
    requires 1 <= depth <= 16
  {
    Pow2Monotone(depth - 1, 15);
    Pow2Values();
    if fmt == Pgm && signed then Pow2(depth - 1) else 0
  }

  // ---------------------------------------------------------------------------
  // Whole buffers
  // ---------------------------------------------------------------------------

  /** The conversion to `uint32_t`. */
  function ToU32(x: int): uint32 {
    x % 0x1_0000_0000
  }

  /** The word with its four bytes in the opposite order. */
  function Reversed(u: uint32): nat {
    Word4(u / 0x100_0000, u / 0x1_0000 % 0x100, u / 0x100 % 0x100, u % 0x100)
  }

  /** The source's byte swap: every byte shifted to its place, the inner two after masking. */
  method SwapBytes(uval: uint32) returns (ret: nat)
    ensures ret == Reversed(uval)
  {
    ghost var b0, b1, b2, b3 := WordOf(uval);
    Swapping(b0, b1, b2, b3);
    ret := uval * 0x100_0000 % 0x1_0000_0000;
    ret := BitOr(ret, BitAnd(uval, 0xFF00) * 0x100);
    ret := BitOr(ret, BitAnd(uval, 0xFF_0000) / 0x100);
    ret := BitOr(ret, uval / 0x100_0000);
  }

  lemma Swapping(b0: byte, b1: byte, b2: byte, b3: byte)
    ensures var u := Word4(b0, b1, b2, b3);
      var upper := BitOr(u * 0x100_0000 % 0x1_0000_0000, BitAnd(u, 0xFF00) * 0x100);
      BitOr(BitOr(upper, BitAnd(u, 0xFF_0000) / 0x100), b3) == Word4(b3, b2, b1, b0)
  {
    TopByte(b0, b1, b2, b3);
    ByteMasks(b0, b1, b2, b3);
    var high, low := b1 as int + 0x100 * b0 as int, b2 as int + 0x100 * (b1 as int + 0x100 * b0 as int);
    OrBelow24(b1 as int * 0x1_0000, b0);
    OrBelow16(b2 as int * 0x100, high);
    OrBelow8(b3, low);
    assert b0 as int * 0x100_0000 + b1 as int * 0x1_0000 == high * 0x1_0000;
    assert high * 0x1_0000 + b2 as int * 0x100 == low * 0x100;
  }

  lemma TopByte(b0: byte, b1: byte, b2: byte, b3: byte)
    ensures Word4(b0, b1, b2, b3) * 0x100_0000 % 0x1_0000_0000 == b0 * 0x100_0000
  {
    ModUnique(Word4(b0, b1, b2, b3) * 0x100_0000, 0x1_0000_0000, Word4(b1, b2, b3, 0), b0 * 0x100_0000);
  }

  lemma OrBelow24(low: nat, high: nat)
    requires low < 0x100_0000
    ensures BitOr(high * 0x100_0000, low) == high * 0x100_0000 + low
  {
    Pow2Values();
    Pow2Add(8, 16);
    BitOrDisjoint(24, low, high);
  }

  lemma OrBelow16(low: nat, high: nat)
    requires low < 0x1_0000
    ensures BitOr(high * 0x1_0000, low) == high * 0x1_0000 + low
  {
    Pow2Values();
    BitOrDisjoint(16, low, high);
  }

  lemma OrBelow8(low: nat, high: nat)
    requires low < 0x100
    ensures BitOr(high * 0x100, low) == high * 0x100 + low
  {
    Pow2Values();
    BitOrDisjoint(8, low, high);
  }

  lemma ByteMasks(b0: byte, b1: byte, b2: byte, b3: byte)
    ensures BitAnd(Word4(b0, b1, b2, b3), 0xFF00) == 0x100 * b1
    ensures BitAnd(Word4(b0, b1, b2, b3), 0xFF_0000) == 0x1_0000 * b2
  {
    var u := Word4(b0, b1, b2, b3);
    var p, q := Word4(b1, b2, b3, 0), Word2(b2, b3);
    assert u / 0x100 == p && p / 0x100 == q && p % 0x100 == b1 && q % 0x100 == b2;
    BitAndByteUp(u, 0xFF);
    BitAndLowByte(p);
    BitAndByteUp(u, 0xFF00);
    BitAndByteUp(p, 0xFF);
    BitAndLowByte(q);
  }

  /** The four bytes of an unsigned word. */
  lemma WordOf(u: uint32) returns (b0: byte, b1: byte, b2: byte, b3: byte)
    ensures u == Word4(b0, b1, b2, b3) && b0 == u % 0x100 && b1 == u / 0x100 % 0x100 && b2 == u / 0x1_0000 % 0x100
    ensures b3 == u / 0x100_0000
  {
    var p, q := u / 0x100, u / 0x1_0000;
    b0, b1, b2, b3 := u % 0x100, p % 0x100, q % 0x100, u / 0x100_0000;
    assert p / 0x100 == q && q / 0x100 == b3;
  }

  /** The top bpp bytes of the word. */
  function ShiftDown(bpp: nat, u: nat): nat {
    if bpp == 1 then u / 0x100_0000 else u / 0x1_0000
  }

  /** The conversion to an unsigned type of bpp bytes. */
  function Narrow(bpp: nat, u: nat): nat {
    if bpp == 1 then u % 0x100 else u % 0x1_0000
  }

  /** An element as a little-endian host keeps it in memory. */
  function Stored(bpp: nat, u: nat): (s: seq<byte>)
    requires 1 <= bpp <= 2
    ensures |s| == bpp
  {
    if bpp == 1 then [LowByte(u)] else Le(u)
  }

  /** The bytes of one sample: the low bytes of the shifted sample, high byte first in a PGM and low
      byte first elsewhere. */
  function Sample(fmt: Format, bpp: nat, offset: int32, v: int32): (s: seq<byte>)
    requires 1 <= bpp <= 2
    ensures |s| == bpp
  {
    if fmt == Pgm then (if bpp == 1 then [LowByte(v as int + offset)] else Be(v as int + offset))
    else if bpp == 1 then [LowByte(v)] else Le(v)
  }

  lemma LowBytesOfU32(x: int)
    ensures LowByte(ToU32(x)) == LowByte(x) && HighByte(ToU32(x)) == HighByte(x)
  {
    var q := x / 0x1_0000_0000;
    assert x == q * 0x1_0000_0000 + ToU32(x);
    PackKernels.LowBits(x, ToU32(x));
    ModUnique(x, 0x1_0000, q * 0x1_0000 + ToU32(x) / 0x1_0000, ToU32(x) % 0x1_0000);
  }

  /** Byte-swapping, shifting, truncating and storing little-endian writes the low bytes high byte
      first. */
  lemma SwappedStore(bpp: nat, u: uint32)
    requires 1 <= bpp <= 2
    ensures Stored(bpp, Narrow(bpp, ShiftDown(bpp, Reversed(u)))) == if bpp == 1 then [LowByte(u)] else Be(u)
  {
    var b0, b1, b2, b3 := WordOf(u);
    TopHalf(b0, b1, b2, b3);
    assert Reversed(u) == Word4(b3, b2, b1, b0);
    if bpp == 1 {
      assert ShiftDown(1, Reversed(u)) == b0;
    } else {
      assert ShiftDown(2, Reversed(u)) == Word2(b1, b0);
      assert Narrow(2, Word2(b1, b0)) == Word2(b1, b0);
    }
  }

  lemma TopHalf(b0: byte, b1: byte, b2: byte, b3: byte)
    ensures Word4(b3, b2, b1, b0) / 0x100_0000 == b0
    ensures Word4(b3, b2, b1, b0) / 0x1_0000 == Word2(b1, b0)
    ensures LowByte(Word2(b1, b0)) == b1 && HighByte(Word2(b1, b0)) == b0
  {
  }

  /** Truncating and storing little-endian writes them low byte first. */
  lemma PlainStore(bpp: nat, u: uint32)
    requires 1 <= bpp <= 2
    ensures Stored(bpp, Narrow(bpp, u)) == if bpp == 1 then [LowByte(u)] else Le(u)
  {
    if bpp == 2 {
      PackKernels.LowBits(u, u % 0x1_0000);
    }
  }

  /** One element of outbuf, for T of bpp bytes. */
  method ConvertSample(fmt: Format, bpp: nat, offset: int32, v: int32) returns (u: nat)
    requires 1 <= bpp <= 2
    ensures Stored(bpp, u) == Sample(fmt, bpp, offset, v)
  {
    if fmt == Pgm {
      var uval := ToU32(v as int + offset);
      var ret := SwapBytes(uval);
      u := Narrow(bpp, ShiftDown(bpp, ret));
      SwappedStore(bpp, uval);
      LowBytesOfU32(v as int + offset);
    } else {
      u := Narrow(bpp, ToU32(v));
      PlainStore(bpp, ToU32(v));
      LowBytesOfU32(v);
    }
  }

  /** convert_component_buffer_class<T>: the elements of outbuf. */
  method ConvertComponent(fmt: Format, bpp: nat, offset: int32, buf: seq<int32>, outbuf: array<nat>)
    requires 1 <= bpp <= 2 && PackKernels.NoOverflow(buf, offset) && outbuf.Length == |buf|
    modifies outbuf
    ensures forall i :: 0 <= i < |buf| ==> Stored(bpp, outbuf[i]) == Sample(fmt, bpp, offset, buf[i])
  {
    var i := 0;
    while i < |buf|
      invariant 0 <= i <= |buf|
      invariant forall k :: 0 <= k < i ==> Stored(bpp, outbuf[k]) == Sample(fmt, bpp, offset, buf[k])
    {
      var u := ConvertSample(fmt, bpp, offset, buf[i]);
      outbuf[i] := u;
      i := i + 1;
    }
  }

  function BatchGroups(fmt: Format, bpp: nat, offset: int32, buf: seq<int32>): (g: seq<seq<byte>>)
    requires 1 <= bpp <= 2
    ensures |g| == |buf| && Uniform(g, bpp)
  {
    seq(|buf|, i requires 0 <= i < |buf| => Sample(fmt, bpp, offset, buf[i]))
  }

  /** fwrite of outbuf. */
  method BatchPayload(fmt: Format, bpp: nat, offset: int32, buf: seq<int32>) returns (bytes: seq<byte>)
    requires 1 <= bpp <= 2 && PackKernels.NoOverflow(buf, offset)
    ensures bytes == Flatten(BatchGroups(fmt, bpp, offset, buf))
  {
    var outbuf := new nat[|buf|];
    ConvertComponent(fmt, bpp, offset, buf, outbuf);
    ghost var g := BatchGroups(fmt, bpp, offset, buf);
    bytes := [];
    var elements := outbuf[..];
    var i := 0;
    while i < |buf|
      invariant 0 <= i <= |buf|
      invariant bytes == Flatten(g[..i])
    {
      var element := Stored(bpp, elements[i]);
      assert element == g[i];
      FlattenStep(g, i);
      bytes := bytes + element;
      i := i + 1;
    }
    assert g[..i] == g;
  }

  // ---------------------------------------------------------------------------
  // Row by row
  // ---------------------------------------------------------------------------

  function StreamGroups(fmt: Format, bpp: nat, offset: int32, row: seq<int32>): (g: seq<seq<byte>>)
    requires 1 <= bpp <= 2
    ensures |g| == |row| && Uniform(g, bpp)
  {
    if bpp == 1 then PackKernels.U8Groups(row, offset)
    else if fmt == Pgx then PackKernels.Le16Groups(row)
    else PackKernels.Be16Groups(row, offset)
  }

  /** One component of one callback: pack into row_buf, fwrite width * bpp of it. */
  method StreamRow(fmt: Format, bpp: nat, offset: int32, row: seq<int32>, rowBuf: array<byte>)
    returns (bytes: seq<byte>)
    requires 1 <= bpp <= 2 && PackKernels.NoOverflow(row, offset) && bpp * |row| <= rowBuf.Length
    modifies rowBuf
    ensures bytes == Flatten(StreamGroups(fmt, bpp, offset, row))
  {
    if bpp == 1 {
      PackKernels.PackU8Scalar(row, rowBuf, offset);
    } else if fmt == Pgx {
      PackKernels.PackLe16Scalar(row, rowBuf);
    } else {
      PackKernels.PackBe16Scalar(row, rowBuf, offset);
    }
    bytes := rowBuf[..|row| * bpp];
  }

  method StreamRowOf(fmt: Format, bpp: nat, offset: int32, rows: seq<seq<int32>>, w: nat, y: nat,
                     rowBuf: array<byte>) returns (bytes: seq<byte>)
    requires 1 <= bpp <= 2 && y < |rows| && rowBuf.Length == w * bpp
    requires forall y :: 0 <= y < |rows| ==> |rows[y]| == w && PackKernels.NoOverflow(rows[y], offset)
    modifies rowBuf
    ensures bytes == Flatten(StreamGroups(fmt, bpp, offset, rows[y]))
  {
    assert bpp * w == w * bpp;
    bytes := StreamRow(fmt, bpp, offset, rows[y], rowBuf);
  }

  /** The callbacks for a component without vertical subsampling. */
  method StreamPayload(fmt: Format, bpp: nat, offset: int32, rows: seq<seq<int32>>, w: nat) returns (bytes: seq<byte>)
    requires 1 <= bpp <= 2
    requires forall y :: 0 <= y < |rows| ==> |rows[y]| == w && PackKernels.NoOverflow(rows[y], offset)
    ensures bytes == Streamed(fmt, bpp, offset, rows)
  {
    var rowBuf := new byte[w * bpp];
    bytes := [];
    var y := 0;
    while y < |rows|
      invariant 0 <= y <= |rows|
      invariant bytes == Streamed(fmt, bpp, offset, rows[..y])
    {
      var row := StreamRowOf(fmt, bpp, offset, rows, w, y, rowBuf);
      StreamedStep(fmt, bpp, offset, rows, y);
      bytes := bytes + row;
      y := y + 1;
    }
    assert rows[..y] == rows;
  }

  lemma StreamedStep(fmt: Format, bpp: nat, offset: int32, rows: seq<seq<int32>>, y: nat)
    requires 1 <= bpp <= 2 && y < |rows|
    ensures Streamed(fmt, bpp, offset, rows[..y + 1]) == Streamed(fmt, bpp, offset, rows[..y]) +
        Flatten(StreamGroups(fmt, bpp, offset, rows[y]))
  {
    assert rows[..y + 1][..y] == rows[..y];
  }

  /** The rows written one after another. */
  function Streamed(fmt: Format, bpp: nat, offset: int32, rows: seq<seq<int32>>): seq<byte>
    requires 1 <= bpp <= 2
  {
    if rows == [] then []
    else Streamed(fmt, bpp, offset, rows[..|rows| - 1]) + Flatten(StreamGroups(fmt, bpp, offset, rows[|rows| - 1]))
  }

  // ---------------------------------------------------------------------------
  // Rows and buffers
  // ---------------------------------------------------------------------------

  /** The component buffer of the batch writer: the rows one after another. */
  function Buffer(rows: seq<seq<int32>>): seq<int32> {
    if rows == [] then [] else Buffer(rows[..|rows| - 1]) + rows[|rows| - 1]
  }

  lemma {:induction false} BufferLength(rows: seq<seq<int32>>, w: nat)
    requires forall y :: 0 <= y < |rows| ==> |rows[y]| == w
    ensures |Buffer(rows)| == w * |rows|
  {
    if rows != [] {
      BufferLength(rows[..|rows| - 1], w);
      assert w * |rows| == w * (|rows| - 1) + w;
    }
  }

  /** Within one row the two writers use the same groups. */
  lemma RowGroups(fmt: Format, bpp: nat, offset: int32, row: seq<int32>)
    requires 1 <= bpp <= 2 && fmt != Raw && (fmt == Pgx ==> offset == 0)
    ensures BatchGroups(fmt, bpp, offset, row) == StreamGroups(fmt, bpp, offset, row)
  {
  }

  lemma BatchAppend(fmt: Format, bpp: nat, offset: int32, a: seq<int32>, b: seq<int32>)
    requires 1 <= bpp <= 2
    ensures BatchGroups(fmt, bpp, offset, a + b) == BatchGroups(fmt, bpp, offset, a) + BatchGroups(fmt, bpp, offset, b)
  {
  }

  /** Concatenated rows equal the whole buffer, for any sizes. */
  lemma {:induction false} RowsAreBuffer(fmt: Format, bpp: nat, offset: int32, rows: seq<seq<int32>>)
    requires 1 <= bpp <= 2 && fmt != Raw && (fmt == Pgx ==> offset == 0)
    ensures Streamed(fmt, bpp, offset, rows) == Flatten(BatchGroups(fmt, bpp, offset, Buffer(rows)))
  {
    if rows == [] {
    } else {
      var n := |rows| - 1;
      RowsAreBuffer(fmt, bpp, offset, rows[..n]);
      BatchAppend(fmt, bpp, offset, Buffer(rows[..n]), rows[n]);
      FlattenAppend(BatchGroups(fmt, bpp, offset, Buffer(rows[..n])), BatchGroups(fmt, bpp, offset, rows[n]));
      RowGroups(fmt, bpp, offset, rows[n]);
    }
  }

  // ---------------------------------------------------------------------------
  // Whole files
  // ---------------------------------------------------------------------------

  /** The largest sample of the depth. */
  function MaxVal(depth: nat): nat
    requires depth <= 16
  {
    Pow2(depth) - 1
  }

  /** The header either writer prints for the component. */
  function HeaderOf(fmt: Format, signed: bool, depth: byte, w: uint32, h: uint32): seq<byte>
    requires 1 <= depth <= 16
  {
    match fmt
    case Pgm => ['P' as int, '5' as int, SP] + PrintD(w) + [SP] + PrintD(h) + [SP] + Decimal(MaxVal(depth)) + [LF]
    case Pgx => Pgx.HeaderText(false, signed, depth, w, h)
    case Raw => []
  }

  lemma Digits()
    ensures PrintD(640) == [0x36, 0x34, 0x30] && PrintD(21) == [0x32, 0x31] && Decimal(255) == [0x32, 0x35, 0x35]
    ensures PrintD(16) == [0x31, 0x36] && PrintD(8) == [0x38]
  {
    assert Decimal(64) == [0x36, 0x34] && Decimal(25) == [0x32, 0x35];
  }

  /** For instance "P5 640 21 255", "PG LM - 16 640 21" and "PG ML + 8 640 21", each with a line feed: the
      width comes before the height, in decimal. */
  lemma HeadersSpelled()
    ensures HeaderOf(Pgm, true, 8, 640, 21) ==
            [0x50, 0x35, 0x20, 0x36, 0x34, 0x30, 0x20, 0x32, 0x31, 0x20, 0x32, 0x35, 0x35, 0x0A]
    ensures HeaderOf(Format.Pgx, true, 16, 640, 21) ==
            [0x50, 0x47, 0x20, 0x4C, 0x4D, 0x20, 0x2D, 0x20, 0x31, 0x36, 0x20, 0x36, 0x34, 0x30, 0x20, 0x32, 0x31, 0x0A]
    ensures Pgx.HeaderText(true, false, 8, 640, 21) ==
            [0x50, 0x47, 0x20, 0x4D, 0x4C, 0x20, 0x2B, 0x20, 0x38, 0x20, 0x36, 0x34, 0x30, 0x20, 0x32, 0x31, 0x0A]
  {
    Digits();
    assert MaxVal(8) == 255 by {
      Pow2Values();
    }
  }

  /** write_components, for one component. */
  function BatchFile(fmt: Format, signed: bool, depth: byte, w: uint32, h: uint32, rows: seq<seq<int32>>): seq<byte>
    requires 1 <= depth <= 16
  {
    HeaderOf(fmt, signed, depth, w, h) +
      Flatten(BatchGroups(fmt, BytesPerPixel(depth), Offset(fmt, signed, depth), Buffer(rows)))
  }

  /** The streaming decoder, for one component of full height: sample size and offset come from
      component 0, whose depth and sign are depth0 and signed0; held are the rows of the callbacks. */
  function StreamFile(fmt: Format, signed: bool, depth: byte, w: uint32, h: uint32, signed0: bool, depth0: byte,
                      held: seq<seq<int32>>): seq<byte>
    requires 1 <= depth <= 16 && 1 <= depth0 <= 16 && |held| == h
  {
    HeaderOf(fmt, signed, depth, w, h) +
    Streamed(fmt, BytesPerPixel(depth0), Offset(fmt, signed0, depth0),
             RowSchedule.FileRows(RowSchedule.Factor(h, h), h, held, h))
  }

  /** Without vertical subsampling every callback's row is written. */
  lemma {:induction false} EveryRow(h: nat, held: seq<seq<int32>>, n: nat)
    requires n <= |held| == h
    ensures RowSchedule.FileRows(1, h, held, n) == held[..n]
  {
    if n > 0 {
      EveryRow(h, held, n - 1);
      assert held[..n] == held[..n - 1] + [held[n - 1]];
    }
  }

  lemma FullHeight(h: uint32, held: seq<seq<int32>>)
    requires |held| == h
    ensures RowSchedule.FileRows(RowSchedule.Factor(h, h), h, held, h) == held
  {
    EveryRow(h, held, h);
    assert held[..h] == held;
  }

  lemma SamePayload(fmt: Format, bpp: nat, off: int32, bpp': nat, off': int32, buf: seq<int32>)
    requires 1 <= bpp <= 2 && 1 <= bpp' <= 2 && fmt != Raw && (fmt == Pgx ==> off == off' == 0)
    requires 0 <= off < 0x8000 + 1 && 0 <= off' < 0x8000 + 1 && (bpp == 1 ==> off <= 0x80)
    requires (bpp' == 1 ==> off' <= 0x80)
    ensures Flatten(BatchGroups(fmt, bpp, off, buf)) == Flatten(BatchGroups(fmt, bpp', off', buf)) <==>
      buf == [] || (bpp == bpp' && off == off')
  {
    var a, b := BatchGroups(fmt, bpp, off, buf), BatchGroups(fmt, bpp', off', buf);
    FlattenLength(a, bpp);
    FlattenLength(b, bpp');
    if buf != [] && Flatten(a) == Flatten(b) {
      assert bpp == bpp';
      PackKernels.FlattenInjective(a, b, bpp);
      assert a[0] == b[0];
      if fmt == Pgm {
        SameOffset(bpp, off, off', buf[0]);
      }
    }
  }

  /** Different offsets show in the first sample. */
  lemma SameOffset(bpp: nat, off: int, off': int, v: int)
    requires 1 <= bpp <= 2 && 0 <= off <= 0x8000 && 0 <= off' <= 0x8000 && (bpp == 1 ==> off <= 0x80 && off' <= 0x80)
    requires if bpp == 1 then [LowByte(v + off)] == [LowByte(v + off')] else Be(v + off) == Be(v + off')
    ensures off == off'
  {
    if bpp == 1 {
      assert [LowByte(v + off)][0] == [LowByte(v + off')][0];
      SameByte(v + off, v + off');
    } else {
      assert Be(v + off)[0] == Be(v + off')[0] && Be(v + off)[1] == Be(v + off')[1];
      PackKernels.LowBits(v + off, v + off');
      SameWord(v + off, v + off');
    }
  }

  lemma SameByte(x: int, y: int)
    requires x % 0x100 == y % 0x100 && -0x100 < x - y < 0x100
    ensures x == y
  {
  }

  lemma SameWord(x: int, y: int)
    requires x % 0x1_0000 == y % 0x1_0000 && -0x1_0000 < x - y < 0x1_0000
    ensures x == y
  {
  }

  lemma PayloadsAgree(fmt: Format, bpp0: nat, off0: int32, bpp: nat, off: int32, w: nat, rows: seq<seq<int32>>)
    requires 1 <= bpp0 <= 2 && 1 <= bpp <= 2 && fmt != Raw && (fmt == Pgx ==> off0 == off == 0)
    requires 0 <= off0 <= 0x8000 && 0 <= off <= 0x8000 && (bpp0 == 1 ==> off0 <= 0x80) && (bpp == 1 ==> off <= 0x80)
    requires forall y :: 0 <= y < |rows| ==> |rows[y]| == w
    ensures Streamed(fmt, bpp0, off0, rows) == Flatten(BatchGroups(fmt, bpp, off, Buffer(rows))) <==>
      w == 0 || rows == [] || (bpp0 == bpp && off0 == off)
  {
    RowsAreBuffer(fmt, bpp0, off0, rows);
    BufferLength(rows, w);
    assert w * |rows| == 0 <==> w == 0 || |rows| == 0;
    SamePayload(fmt, bpp0, off0, bpp, off, Buffer(rows));
  }

  lemma OffsetRange(fmt: Format, signed: bool, depth: nat)
    requires 1 <= depth <= 16
    ensures 1 <= BytesPerPixel(depth) <= 2 && 0 <= Offset(fmt, signed, depth) <= 0x8000
    ensures BytesPerPixel(depth) == 1 ==> Offset(fmt, signed, depth) <= 0x80
  {
    Pow2Monotone(depth - 1, 15);
    if depth <= 8 {
      Pow2Monotone(depth - 1, 7);
    }
    Pow2Values();
    assert Pow2(8) == 2 * Pow2(7);
  }

  /** With the offset of a PGM exactly the samples of the depth land in 0..MaxVal; the other formats have
      no offset. */
  lemma OffsetExact(signed: bool, depth: nat, v: int)
    requires 1 <= depth <= 16
    ensures 0 <= v + Offset(Pgm, signed, depth) <= MaxVal(depth) <==>
      if signed then 0 - Pow2(depth - 1) <= v < Pow2(depth - 1) else 0 <= v < Pow2(depth)
    ensures Offset(Format.Pgx, signed, depth) == Offset(Raw, signed, depth) == 0
  {
    assert Pow2(depth) == 2 * Pow2(depth - 1);
  }

  /** For PGM and PGX at depth 16 or less, every image size and a component of full height, the two
      writers produce the same file exactly when the image is empty or component 0 has the same number
      of bytes per sample and the same offset. */
  lemma WritersAgree(fmt: Format, signed: bool, depth: byte, w: uint32, signed0: bool, depth0: byte,
                     rows: seq<seq<int32>>)
    requires 1 <= depth <= 16 && 1 <= depth0 <= 16 && fmt != Raw && |rows| <= 0xFFFF_FFFF
    requires forall y :: 0 <= y < |rows| ==> |rows[y]| == w
    ensures var streamed := StreamFile(fmt, signed, depth, w, |rows|, signed0, depth0, rows);
      streamed == BatchFile(fmt, signed, depth, w, |rows|, rows) <==>
      || w == 0 || rows == []
      || (BytesPerPixel(depth0) == BytesPerPixel(depth) && Offset(fmt, signed0, depth0) == Offset(fmt, signed, depth))
  {
    var head, buf := HeaderOf(fmt, signed, depth, w, |rows|), Buffer(rows);
    var bpp, off := BytesPerPixel(depth), Offset(fmt, signed, depth);
    var bpp0, off0 := BytesPerPixel(depth0), Offset(fmt, signed0, depth0);
    OffsetRange(fmt, signed, depth);
    OffsetRange(fmt, signed0, depth0);
    FullHeight(|rows|, rows);
    PayloadsAgree(fmt, bpp0, off0, bpp, off, w, rows);
    SameTail(head, Streamed(fmt, bpp0, off0, rows), Flatten(BatchGroups(fmt, bpp, off, buf)));
  }

  lemma SameTail(head: seq<byte>, a: seq<byte>, b: seq<byte>)
    ensures head + a == head + b <==> a == b
  {
    if head + a == head + b {
      assert a == (head + a)[|head|..];
      assert b == (head + b)[|head|..];
    }
  }

  /** The streamed PGX payload is the one the PGX reader is proved against; high byte first, it is that of a
      PGM without an offset. */
  lemma {:induction false} StreamedIsPacked(big: bool, depth: nat, rows: seq<seq<int32>>)
    requires 1 <= depth <= 16
    ensures Streamed(if big then Pgm else Format.Pgx, BytesPerPixel(depth), 0, rows) ==
            Flatten(Pgx.PackedRows(big, depth, rows))
  {
    if rows != [] {
      var n := |rows| - 1;
      StreamedIsPacked(big, depth, rows[..n]);
      assert Pgx.PackedRows(big, depth, rows)[..n] == Pgx.PackedRows(big, depth, rows[..n]);
      assert Pgx.PackedRows(big, depth, rows)[n] == Pgx.Packed(big, depth, rows[n]);
    }
  }

  /** Whole-buffer PGX files are the files whose rows `Pgx.RowsBack` reads back. */
  lemma BatchPgxIsPrinted(signed: bool, depth: byte, w: uint32, rows: seq<seq<int32>>)
    requires 1 <= depth <= 16 && |rows| <= 0xFFFF_FFFF
    requires forall y :: 0 <= y < |rows| ==> |rows[y]| == w
    ensures BatchFile(Format.Pgx, signed, depth, w, |rows|, rows) == Pgx.PrintPgx(false, signed, depth, w, |rows|, rows)
  {
    RowsAreBuffer(Format.Pgx, BytesPerPixel(depth), 0, rows);
    StreamedIsPacked(false, depth, rows);
  }

  // ---------------------------------------------------------------------------
  // RAW files
  // ---------------------------------------------------------------------------

  /** A streamed RAW payload is a PGM payload without an offset: high byte first. */
  lemma {:induction false} RawIsPgm(bpp: nat, rows: seq<seq<int32>>)
    requires 1 <= bpp <= 2
    ensures Streamed(Raw, bpp, 0, rows) == Streamed(Pgm, bpp, 0, rows)
  {
    if rows != [] {
      RawIsPgm(bpp, rows[..|rows| - 1]);
    }
  }

  lemma {:induction false} BufferHas(rows: seq<seq<int32>>, v: int32)
    ensures v in Buffer(rows) <==> exists y :: 0 <= y < |rows| && v in rows[y]
  {
    if rows != [] {
      var n := |rows| - 1;
      BufferHas(rows[..n], v);
      assert forall y :: 0 <= y < n ==> rows[..n][y] == rows[y];
    }
  }

  /** Both bytes of the sample are the same. */
  predicate Palindrome(v: int32) {
    HighByte(v) == LowByte(v)
  }

  lemma ByteOrders(v: int32)
    ensures Be(v) == Le(v) <==> Palindrome(v)
  {
    assert Be(v)[0] == HighByte(v) && Be(v)[1] == LowByte(v) && Le(v)[0] == LowByte(v) && Le(v)[1] == HighByte(v);
  }

  lemma RawBuffer(bpp0: nat, bpp: nat, buf: seq<int32>)
    requires 1 <= bpp0 <= 2 && 1 <= bpp <= 2
    ensures Flatten(BatchGroups(Pgm, bpp0, 0, buf)) == Flatten(BatchGroups(Raw, bpp, 0, buf)) <==>
      buf == [] || (bpp0 == bpp && (bpp == 2 ==> forall v :: v in buf ==> Palindrome(v)))
  {
    var a, b := BatchGroups(Pgm, bpp0, 0, buf), BatchGroups(Raw, bpp, 0, buf);
    FlattenLength(a, bpp0);
    FlattenLength(b, bpp);
    forall i | 0 <= i < |buf|
      ensures bpp0 == bpp ==> (a[i] == b[i] <==> bpp == 1 || Palindrome(buf[i]))
    {
      ByteOrders(buf[i]);
    }
    if bpp0 == bpp {
      if Flatten(a) == Flatten(b) {
        PackKernels.FlattenInjective(a, b, bpp);
      } else {
        assert a != b;
      }
    }
  }

  /** Both bytes of every sample are the same. */
  predicate Palindromes(rows: seq<seq<int32>>) {
    forall y, x :: 0 <= y < |rows| && 0 <= x < |rows[y]| ==> Palindrome(rows[y][x])
  }

  lemma SamplesAlike(rows: seq<seq<int32>>)
    ensures (forall v :: v in Buffer(rows) ==> Palindrome(v)) <==> Palindromes(rows)
  {
    forall v: int32
      ensures v in Buffer(rows) <==> exists y :: 0 <= y < |rows| && v in rows[y]
    {
      BufferHas(rows, v);
    }
  }

  lemma RawPayloads(bpp0: nat, bpp: nat, w: nat, rows: seq<seq<int32>>)
    requires 1 <= bpp0 <= 2 && 1 <= bpp <= 2 && forall y :: 0 <= y < |rows| ==> |rows[y]| == w
    ensures Streamed(Raw, bpp0, 0, rows) == Flatten(BatchGroups(Raw, bpp, 0, Buffer(rows))) <==>
      w == 0 || rows == [] || (bpp0 == bpp && (bpp == 2 ==> Palindromes(rows)))
  {
    RawIsPgm(bpp0, rows);
    RowsAreBuffer(Pgm, bpp0, 0, rows);
    BufferLength(rows, w);
    assert w * |rows| == 0 <==> w == 0 || |rows| == 0;
    RawBuffer(bpp0, bpp, Buffer(rows));
    SamplesAlike(rows);
  }

  /** RAW is different: at two bytes a sample the batch file is little-endian and the streamed one
      big-endian. The files are the same exactly when the image is empty, or the sample sizes are both one
      byte, or both two with the two bytes of every sample alike. */
  lemma RawAgrees(signed: bool, depth: byte, w: uint32, signed0: bool, depth0: byte, rows: seq<seq<int32>>)
    requires 1 <= depth <= 16 && 1 <= depth0 <= 16 && |rows| <= 0xFFFF_FFFF
    requires forall y :: 0 <= y < |rows| ==> |rows[y]| == w
    ensures var streamed := StreamFile(Raw, signed, depth, w, |rows|, signed0, depth0, rows);
      streamed == BatchFile(Raw, signed, depth, w, |rows|, rows) <==>
      || w == 0 || rows == []
      || (BytesPerPixel(depth0) == 1 && BytesPerPixel(depth) == 1)
      || (BytesPerPixel(depth0) == 2 && BytesPerPixel(depth) == 2 && Palindromes(rows))
  {
    OffsetRange(Raw, signed, depth);
    OffsetRange(Raw, signed0, depth0);
    FullHeight(|rows|, rows);
    RawPayloads(BytesPerPixel(depth0), BytesPerPixel(depth), w, rows);
    SameTail([], Streamed(Raw, BytesPerPixel(depth0), 0, rows),
             Flatten(BatchGroups(Raw, BytesPerPixel(depth), 0, Buffer(rows))));
  }

  // ---------------------------------------------------------------------------
  // The AVX2 row packers
  // ---------------------------------------------------------------------------

  function AvxGroups(fmt: Format, bpp: nat, offset: int32, row: seq<int32>): (g: seq<seq<byte>>)
    requires 1 <= bpp <= 2
    ensures |g| == |row| && Uniform(g, bpp)
  {
    if bpp == 1 then PackKernels.U8Groups(row, offset)
    else if fmt == Pgx then PackKernels.Le16AvxGroups(row)
    else PackKernels.Be16AvxGroups(row, offset)
  }

  /** One component of one callback in an AVX2 build. */
  method StreamRowAvx2(fmt: Format, bpp: nat, offset: int32, row: seq<int32>, rowBuf: array<byte>)
    returns (bytes: seq<byte>)
    requires 1 <= bpp <= 2 && PackKernels.NoOverflow(row, offset) && bpp * |row| <= rowBuf.Length
    modifies rowBuf
    ensures bytes == Flatten(AvxGroups(fmt, bpp, offset, row))
  {
    if bpp == 1 {
      PackKernels.PackU8Avx2(row, rowBuf, offset);
    } else if fmt == Pgx {
      PackKernels.PackLe16Avx2(row, rowBuf);
    } else {
      PackKernels.PackBe16Avx2(row, rowBuf, offset);
    }
    bytes := rowBuf[..|row| * bpp];
  }

  function StreamedAvx2(fmt: Format, bpp: nat, offset: int32, rows: seq<seq<int32>>): seq<byte>
    requires 1 <= bpp <= 2
  {
    if rows == [] then []
    else StreamedAvx2(fmt, bpp, offset, rows[..|rows| - 1]) + Flatten(AvxGroups(fmt, bpp, offset, rows[|rows| - 1]))
  }

  /** Every sample of the row's full blocks survives the saturating pack. */
  predicate RowExact(bpp: nat, offset: int32, row: seq<int32>) {
    bpp == 2 ==> forall x :: 0 <= x < PackKernels.Blocked(|row|) ==> PackKernels.PackExact(row[x] as int + offset)
  }

  /** And of every row. Recursive, like the payload. */
  predicate RowsExact(bpp: nat, offset: int32, rows: seq<seq<int32>>) {
    rows == [] || (RowsExact(bpp, offset, rows[..|rows| - 1]) && RowExact(bpp, offset, rows[|rows| - 1]))
  }

  lemma {:induction false} EveryRowExact(bpp: nat, offset: int32, rows: seq<seq<int32>>)
    ensures RowsExact(bpp, offset, rows) <==> forall y :: 0 <= y < |rows| ==> RowExact(bpp, offset, rows[y])
  {
    if rows != [] {
      EveryRowExact(bpp, offset, rows[..|rows| - 1]);
      assert forall y :: 0 <= y < |rows| - 1 ==> rows[..|rows| - 1][y] == rows[y];
    }
  }

  lemma AvxRow(fmt: Format, bpp: nat, offset: int32, row: seq<int32>)
    requires 1 <= bpp <= 2 && (fmt == Pgx ==> offset == 0)
    ensures |Flatten(AvxGroups(fmt, bpp, offset, row))| == |Flatten(StreamGroups(fmt, bpp, offset, row))|
    ensures Flatten(AvxGroups(fmt, bpp, offset, row)) == Flatten(StreamGroups(fmt, bpp, offset, row)) <==>
      RowExact(bpp, offset, row)
  {
    FlattenLength(AvxGroups(fmt, bpp, offset, row), bpp);
    FlattenLength(StreamGroups(fmt, bpp, offset, row), bpp);
    PackKernels.Be16Agree(row, offset);
    PackKernels.Le16Agree(row);
  }

  /** The payload of an AVX2 build is that of the scalar packers exactly when every row is. */
  lemma {:induction false} AvxPayload(fmt: Format, bpp: nat, offset: int32, rows: seq<seq<int32>>)
    requires 1 <= bpp <= 2 && (fmt == Pgx ==> offset == 0)
    ensures |StreamedAvx2(fmt, bpp, offset, rows)| == |Streamed(fmt, bpp, offset, rows)|
    ensures StreamedAvx2(fmt, bpp, offset, rows) == Streamed(fmt, bpp, offset, rows) <==> RowsExact(bpp, offset, rows)
  {
    if rows != [] {
      var n := |rows| - 1;
      AvxPayload(fmt, bpp, offset, rows[..n]);
      AvxRow(fmt, bpp, offset, rows[n]);
      SameEnds(StreamedAvx2(fmt, bpp, offset, rows[..n]), Flatten(AvxGroups(fmt, bpp, offset, rows[n])),
               Streamed(fmt, bpp, offset, rows[..n]), Flatten(StreamGroups(fmt, bpp, offset, rows[n])));
    }
  }

  lemma SameEnds(a: seq<byte>, x: seq<byte>, b: seq<byte>, y: seq<byte>)
    requires |a| == |b| && |x| == |y|
    ensures a + x == b + y <==> a == b && x == y
  {
    if a + x == b + y {
      assert a == (a + x)[..|a|] && b == (b + y)[..|b|];
      assert x == (a + x)[|a|..] && y == (b + y)[|b|..];
    }
  }

  /** In an AVX2 build, with the sample size and offset of component 0, the PGM and PGX payloads of the
      two writers are the same exactly when every blocked sample survives the pack. */
  lemma AvxWritersAgree(fmt: Format, signed: bool, depth: nat, rows: seq<seq<int32>>)
    requires 1 <= depth <= 16 && fmt != Raw
    ensures var bpp, off := BytesPerPixel(depth), Offset(fmt, signed, depth);
      StreamedAvx2(fmt, bpp, off, rows) == Flatten(BatchGroups(fmt, bpp, off, Buffer(rows))) <==>
        forall y :: 0 <= y < |rows| ==> RowExact(bpp, off, rows[y])
  {
    var bpp, off := BytesPerPixel(depth), Offset(fmt, signed, depth);
    OffsetRange(fmt, signed, depth);
    RowsAreBuffer(fmt, bpp, off, rows);
    AvxPayload(fmt, bpp, off, rows);
    EveryRowExact(bpp, off, rows);
  }
}
