/** The encoder's PGM and PPM reader (source/apps/encoder/main_enc.cpp, `PnmStreamReader`), and the files
    of the decoder read back with it.

    `HeaderExact` says exactly when a printed header is read as it was printed; `PgmRowsBack` and
    `PpmRowsBack` that the rows then come back, whatever order they are asked for. */
module Pnm {
  import opened MachineInts
  import opened ByteRows
  import opened CFile
  import opened Options
  import opened Substrings
  import ImgCmp
  import PackKernels
  import Pgx
  import PpmInterleave
  import Writers

  /** What open() finds: P6 is color. */
  datatype Header = Header(color: bool, width: uint32, height: uint32, bitdepth: byte, dataStart: nat) {
    function Components(): nat {
      if color then 3 else 1
    }

    function Bps(): nat {
      if bitdepth > 8 then 2 else 1
    }

    /** Samples in a row. */
    function RowSamples(): nat {
      if color then 3 * width else width
    }

    /** raw_.size() */
    function RawSize(): nat {
      if bitdepth > 8 then 2 * RowSamples() else RowSamples()
    }
  }

  // ---------------------------------------------------------------------------
  // The reader as a function of the file
  // ---------------------------------------------------------------------------

  predicate IsSpace(b: byte) {
    b == SP || b == TAB || b == LF || b == CR
  }

  /** After the line feed that ends a comment, or the end. */
  function CommentEnd(s: seq<byte>, i: nat): (j: nat)
    requires i <= |s|
    ensures i <= j <= |s|
    decreases |s| - i
  {
    if i == |s| then i else if s[i] == LF then i + 1 else CommentEnd(s, i + 1)
  }

  /** skip_ws */
  function SkipWs(s: seq<byte>, i: nat): (j: nat)
    requires i <= |s|
    ensures i <= j <= |s|
    decreases |s| - i
  {
    if i == |s| then i
    else if s[i] == HASH then SkipWs(s, CommentEnd(s, i + 1))
    else if IsSpace(s[i]) then SkipWs(s, i + 1)
    else i
  }

  /** read_uint */
  function ReadUint(s: seq<byte>, i: nat): (r: Number)
    requires i <= |s|
    ensures i <= r.next <= |s|
  {
    ReadDigits(s, SkipWs(s, i), 0)
  }

  /** The first depth from bd on whose power of two exceeds maxval. */
  function DepthFrom(maxval: nat, bd: nat): (d: nat)
    requires 1 <= maxval <= 0xFFFF && bd <= 16
    ensures bd <= d <= 16
    decreases 16 - bd
  {
    Pow2Values();
    if Pow2(bd) <= maxval then DepthFrom(maxval, bd + 1) else bd
  }

  /** From after the height on. */
  function ParseMaxval(s: seq<byte>, i: nat, color: bool, w: uint32, h: uint32): Option<Header>
    requires i <= |s|
  {
    var m := ReadUint(s, i);
    if m.value == 0 || m.value > 0xFFFF then None
    else Some(Header(color, w, h, DepthFrom(m.value, 1), SkipWs(s, m.next)))
  }

  function ParseSizes(s: seq<byte>, color: bool): Option<Header>
    requires |s| >= 2
  {
    var w := ReadUint(s, 2);
    var h := ReadUint(s, w.next);
    ParseMaxval(s, h.next, color, w.value, h.value)
  }

  /** open() on a whole file. */
  function ParseHeader(s: seq<byte>): Option<Header> {
    if |s| < 2 || s[0] != 'P' as int then None
    else if s[1] == '5' as int then ParseSizes(s, false)
    else if s[1] == '6' as int then ParseSizes(s, true)
    else None
  }

  lemma {:induction false} CommentEndIs(s: seq<byte>, i: nat, j: nat)
    requires i <= j <= |s| && (forall k :: i <= k < j ==> s[k] != LF) && (j < |s| ==> s[j] == LF)
    ensures CommentEnd(s, i) == if j < |s| then j + 1 else j
    decreases j - i
  {
    if i < j {
      CommentEndIs(s, i + 1, j);
    }
  }

  /** A comment is skipped up to and with its line feed, or to the end of the file. */
  lemma CommentSkipped(s: seq<byte>, i: nat, j: nat)
    requires i < j <= |s| && s[i] == HASH && (forall k :: i < k < j ==> s[k] != LF) && (j < |s| ==> s[j] == LF)
    ensures SkipWs(s, i) == if j < |s| then SkipWs(s, j + 1) else |s|
  {
    CommentEndIs(s, i + 1, j);
  }

  /** After that comes something else, or the end. */
  lemma {:induction false} SkipsToContent(s: seq<byte>, i: nat)
    requires i <= |s|
    ensures var j := SkipWs(s, i); j < |s| ==> s[j] !in {SP, TAB, LF, CR, HASH}
    decreases |s| - i
  {
    if i < |s| && s[i] == HASH {
      SkipsToContent(s, CommentEnd(s, i + 1));
    } else if i < |s| && IsSpace(s[i]) {
      SkipsToContent(s, i + 1);
    }
  }

  /** Only files that begin with "P5" or "P6" are opened, the latter as color, and the maximum value is one
      of a PNM file: it gives a depth from 1 to 16. */
  lemma OpensOnly(s: seq<byte>)
    requires ParseHeader(s).Some?
    ensures |s| >= 2 && s[0] == 'P' as int && (s[1] == '5' as int || s[1] == '6' as int)
    ensures ParseHeader(s).value.color <==> s[1] == '6' as int
    ensures 1 <= ParseHeader(s).value.bitdepth <= 16 && 2 <= ParseHeader(s).value.dataStart <= |s|
  {
  }

  // ---------------------------------------------------------------------------
  // The reader as the source runs it
  // ---------------------------------------------------------------------------

  /** Skips the rest of a comment line. */
  method SkipLine(f: File)
    requires f.pos <= |f.data|
    modifies f
    ensures f.pos == CommentEnd(f.data, old(f.pos))
  {
    var c := f.Getc();
    ghost var j := old(f.pos);
    while c != EOF && c != LF
      invariant f.Read(c, j)
      invariant CommentEnd(f.data, old(f.pos)) == CommentEnd(f.data, j)
      decreases |f.data| - j
    {
      c := f.Getc();
      j := j + 1;
    }
  }

  method SkipSpace(f: File)
    requires f.pos <= |f.data|
    modifies f
    ensures f.pos == SkipWs(f.data, old(f.pos))
  {
    ghost var j := f.pos;
    var c := f.Getc();
    while c != EOF
      invariant f.Read(c, j)
      invariant SkipWs(f.data, old(f.pos)) == SkipWs(f.data, j)
      decreases |f.data| - j
    {
      if c == HASH {
        SkipLine(f);
      } else if c != SP && c != TAB && c != LF && c != CR {
        f.Ungetc(c, j);
        break;
      }
      j := f.pos;
      c := f.Getc();
    }
  }

  method TakeUint(f: File) returns (v: uint32)
    requires f.pos <= |f.data|
    modifies f
    ensures Number(v, f.pos) == ReadUint(f.data, old(f.pos))
  {
    SkipSpace(f);
    ghost var j := f.pos;
    var c := f.Getc();
    v, c, j := TakeDigits(f, c, j);
    f.Ungetc(c, j);
  }

  method BitDepth(maxval: uint32) returns (bd: nat)
    requires 1 <= maxval <= 0xFFFF
    ensures bd == DepthFrom(maxval, 1)
  {
    Pow2Values();
    bd := 1;
    while Pow2(bd) <= maxval
      invariant 1 <= bd <= 16
      invariant DepthFrom(maxval, 1) == DepthFrom(maxval, bd)
      decreases 16 - bd
    {
      bd := bd + 1;
    }
  }

  /** width_ * nc_ * bps_ */
  method RawBytes(width: uint32, nc: nat, bps: nat) returns (n: nat)
    requires (nc == 1 || nc == 3) && (bps == 1 || bps == 2)
    ensures n == (if bps == 2 then 2 else 1) * (if nc == 3 then 3 * width else width)
  {
    n := width * nc * bps;
  }

  /** fseek to row y, then fread. */
  method ReadRaw(f: File, ghost h: Header, start: nat, rawSize: nat, y: nat) returns (raw: seq<byte>)
    requires start == h.dataStart && rawSize == h.RawSize()
    modifies f
    ensures |raw| == rawSize <==> RowAt(f.data, h, y).Some?
    ensures |raw| == rawSize ==> RowAt(f.data, h, y) == Some(raw)
  {
    var at := y * rawSize;
    RowIs(f.data, h, y, rawSize, at);
    f.Seek(start + at);
    raw := f.ReadBytes(rawSize);
  }

  class PnmStreamReader {
    var fp: File?
    var width: uint32
    var height: uint32
    var nc: nat
    var bitdepth: byte
    var bps: nat
    var isPpm: bool
    var rawSize: nat
    var dataStart: nat

    constructor ()
      ensures fp == null
    {
      fp, width, height, nc, bitdepth, bps, isPpm, rawSize, dataStart := null, 0, 0, 0, 0, 0, false, 0, 0;
    }

    /** The file is open, and the fields say what was found in it. */
    ghost predicate Holds(h: Header)
      reads this
    {
      && fp != null && isPpm == h.color && nc == h.Components() && width == h.width && height == h.height
      && bitdepth == h.bitdepth && bps == h.Bps() && rawSize == h.RawSize() && dataStart == h.dataStart
    }

    method ReadSizes(f: File) returns (ok: bool)
      requires fp == f && f.pos == 2 <= |f.data| && nc == if isPpm then 3 else 1
      modifies this`width, this`height, this`bitdepth, this`bps, this`rawSize, this`dataStart, f
      ensures ok == ParseSizes(f.data, isPpm).Some?
      ensures ok ==> Holds(ParseSizes(f.data, isPpm).value)
    {
      width := TakeUint(f);
      height := TakeUint(f);
      ok := ReadMaxval(f);
    }

    method ReadMaxval(f: File) returns (ok: bool)
      requires fp == f && f.pos <= |f.data| && nc == if isPpm then 3 else 1
      modifies this`bitdepth, this`bps, this`rawSize, this`dataStart, f
      ensures ok == ParseMaxval(f.data, old(f.pos), isPpm, width, height).Some?
      ensures ok ==> Holds(ParseMaxval(f.data, old(f.pos), isPpm, width, height).value)
    {
      var maxval := TakeUint(f);
      SkipSpace(f);
      if maxval == 0 || maxval > 65535 {
        return false;
      }
      bitdepth := BitDepth(maxval);
      bps := if bitdepth > 8 then 2 else 1;
      rawSize := RawBytes(width, nc, bps);
      dataStart := f.pos;
      ok := true;
    }

    /** open(): false stands for the return of -1. */
    method Open(content: Option<seq<byte>>) returns (ok: bool)
      modifies this
      ensures ok <==> content.Some? && ParseHeader(content.value).Some?
      ensures ok ==> Holds(ParseHeader(content.value).value) && fresh(fp) && fp.data == content.value
    {
      if content.None? {
        return false;
      }
      var f := new File(content.value);
      fp := f;
      var magic := f.ReadBytes(2);
      if |magic| != 2 || magic[0] != 'P' as int {
        return false;
      }
      if magic[1] == '5' as int {
        isPpm, nc := false, 1;
      } else if magic[1] == '6' as int {
        isPpm, nc := true, 3;
      } else {
        return false;
      }
      ok := ReadSizes(f);
    }

    /** get_row: false stands for the exception on a short read. */
    method GetRow(y: nat, rows: seq<array<int32>>, ghost h: Header) returns (ok: bool)
      requires Holds(h) && |rows| == nc
      requires forall ch :: 0 <= ch < nc ==> rows[ch].Length >= width
      requires forall i, j :: 0 <= i < j < nc ==> rows[i] != rows[j]
      modifies fp, rows
      ensures ok == RowAt(fp.data, h, y).Some?
      ensures ok ==> forall ch :: 0 <= ch < nc ==> Plane(h, RowAt(fp.data, h, y).value, ch, rows[ch][..width])
      ensures forall ch, k :: 0 <= ch < nc && (!ok || width <= k) && 0 <= k < rows[ch].Length ==>
        rows[ch][k] == old(rows[ch][k])
    {
      var raw := ReadRaw(fp, h, dataStart, rawSize, y);
      if |raw| != rawSize {
        return false;
      }
      FillRows(h, bps, isPpm, raw, rows);
      ok := true;
    }
  }

  // ---------------------------------------------------------------------------
  // Rows
  // ---------------------------------------------------------------------------

  /** The bytes of row y of the file. */
  function RowAt(s: seq<byte>, h: Header, y: nat): (r: Option<seq<byte>>)
    ensures r.Some? ==> |r.value| == h.RawSize()
  {
    Pgx.Fread(s, h.dataStart + y * h.RawSize(), h.RawSize())
  }

  /** Component ch of pixel x: interleaved samples, high byte first. */
  function SampleAt(h: Header, raw: seq<byte>, ch: nat, x: nat): int32
    requires |raw| == h.RawSize() && ch < h.Components() && x < h.width
  {
    var at := if h.color then 3 * x + ch else x;
    if h.bitdepth > 8 then Word2(raw[2 * at + 1], raw[2 * at]) else raw[at]
  }

  /** The row of component ch. */
  ghost predicate Plane(h: Header, raw: seq<byte>, ch: nat, row: seq<int32>)
    requires |raw| == h.RawSize() && ch < h.Components()
  {
    |row| == h.width && forall x :: 0 <= x < h.width ==> row[x] == SampleAt(h, raw, ch, x)
  }

  /** Two bytes as a number, the first the high one. */
  function Wide(raw: seq<byte>, i: nat): (v: int32)
    requires i + 1 < |raw|
    ensures v == Word2(raw[i + 1], raw[i])
  {
    Pow2Values();
    BitOrDisjoint(8, raw[i + 1], raw[i]);
    BitOr(raw[i] as int * 0x100, raw[i + 1])
  }

  method FillGray(ghost h: Header, bps: nat, raw: seq<byte>, row: array<int32>)
    requires !h.color && bps == h.Bps() && |raw| == h.RawSize() && h.width <= row.Length
    modifies row
    ensures Plane(h, raw, 0, row[..h.width])
    ensures forall k :: h.width <= k < row.Length ==> row[k] == old(row[k])
  {
    var x := 0;
    while x < |raw| / bps
      invariant 0 <= x <= h.width == |raw| / bps
      invariant forall k :: 0 <= k < x ==> row[k] == SampleAt(h, raw, 0, k)
      invariant forall k :: x <= k < row.Length ==> row[k] == old(row[k])
    {
      row[x] := if bps == 1 then raw[x] else Wide(raw, x * 2);
      x := x + 1;
    }
  }

  method FillColor(ghost h: Header, bps: nat, raw: seq<byte>, r: array<int32>, g: array<int32>, b: array<int32>)
    requires h.color && bps == h.Bps() && |raw| == h.RawSize()
    requires h.width <= r.Length && h.width <= g.Length && h.width <= b.Length && r != g && r != b && g != b
    modifies r, g, b
    ensures Plane(h, raw, 0, r[..h.width]) && Plane(h, raw, 1, g[..h.width]) && Plane(h, raw, 2, b[..h.width])
    ensures forall k :: h.width <= k < r.Length ==> r[k] == old(r[k])
    ensures forall k :: h.width <= k < g.Length ==> g[k] == old(g[k])
    ensures forall k :: h.width <= k < b.Length ==> b[k] == old(b[k])
  {
    var x := 0;
    while x < |raw| / 3 / bps
      invariant 0 <= x <= h.width == |raw| / 3 / bps
      invariant forall k :: 0 <= k < x ==> r[k] == SampleAt(h, raw, 0, k)
      invariant forall k :: 0 <= k < x ==> g[k] == SampleAt(h, raw, 1, k)
      invariant forall k :: 0 <= k < x ==> b[k] == SampleAt(h, raw, 2, k)
      invariant forall k :: x <= k < r.Length ==> r[k] == old(r[k])
      invariant forall k :: x <= k < g.Length ==> g[k] == old(g[k])
      invariant forall k :: x <= k < b.Length ==> b[k] == old(b[k])
    {
      if bps == 1 {
        r[x], g[x], b[x] := raw[x * 3 + 0], raw[x * 3 + 1], raw[x * 3 + 2];
      } else {
        r[x], g[x], b[x] := Wide(raw, (x * 3 + 0) * 2), Wide(raw, (x * 3 + 1) * 2), Wide(raw, (x * 3 + 2) * 2);
      }
      x := x + 1;
    }
  }

  method FillRows(ghost h: Header, bps: nat, isPpm: bool, raw: seq<byte>, rows: seq<array<int32>>)
    requires isPpm == h.color && bps == h.Bps() && |raw| == h.RawSize() && |rows| == h.Components()
    requires forall ch :: 0 <= ch < |rows| ==> rows[ch].Length >= h.width
    requires forall i, j :: 0 <= i < j < |rows| ==> rows[i] != rows[j]
    modifies rows
    ensures forall ch :: 0 <= ch < |rows| ==> Plane(h, raw, ch, rows[ch][..h.width])
    ensures forall ch, k :: 0 <= ch < |rows| && h.width <= k < rows[ch].Length ==> rows[ch][k] == old(rows[ch][k])
  {
    if isPpm {
      FillColor(h, bps, raw, rows[0], rows[1], rows[2]);
    } else {
      FillGray(h, bps, raw, rows[0]);
    }
  }

  // ---------------------------------------------------------------------------
  // The bit depth
  // ---------------------------------------------------------------------------

  /** The bit depth is the least, from 1 on, that maxval fits into. */
  lemma {:induction false} DepthLeast(maxval: nat, bd: nat)
    requires 1 <= maxval <= 0xFFFF && bd <= 16
    ensures maxval < Pow2(DepthFrom(maxval, bd))
    ensures (DepthFrom(maxval, bd) > bd ==> Pow2(DepthFrom(maxval, bd) - 1) <= maxval)
    decreases 16 - bd
  {
    Pow2Values();
    if Pow2(bd) <= maxval {
      DepthLeast(maxval, bd + 1);
    }
  }

  /** The maximum value of depth d gives d back, from depth 1 on. */
  lemma DepthBack(d: nat)
    requires 1 <= d <= 16
    ensures 1 <= Writers.MaxVal(d) <= 0xFFFF && DepthFrom(Writers.MaxVal(d), 1) == d
  {
    Pow2Monotone(1, d);
    Pow2Monotone(d, 16);
    Pow2Values();
    var e := DepthFrom(Writers.MaxVal(d), 1);
    DepthLeast(Writers.MaxVal(d), 1);
    if e < d {
      Pow2Monotone(e, d - 1);
    } else if e > d {
      Pow2Monotone(d, e - 1);
    }
  }

  // ---------------------------------------------------------------------------
  // The header comes back
  // ---------------------------------------------------------------------------

  /** Neither white space nor a comment at the front. */
  predicate Firm(payload: seq<byte>) {
    payload == [] || (!IsSpace(payload[0]) && payload[0] != HASH)
  }

  function Magic(color: bool): byte {
    if color then '6' as int else '5' as int
  }

  /** Reading at i gives u below 2^31, and 0 above, where the minus sign stops every later number too. */
  predicate Field(s: seq<byte>, i: nat, u: uint32, e: nat) {
    && i <= e < |s| && SkipWs(s, i) == i
    && ReadUint(s, i) == (if u < 0x8000_0000 then Number(u, e) else Number(0, i))
    && SkipWs(s, e) == SkipWs(s, e + 1)
  }

  lemma FieldBack(s: seq<byte>, i: nat, u: uint32, blank: byte)
    requires Stands(s, i, PrintD(u) + [blank]) && (blank == SP || blank == LF)
    ensures Field(s, i, u, i + |PrintD(u)|)
  {
    StandsSplit(s, i, PrintD(u), [blank]);
    StandsAt(s, i + |PrintD(u)|, [blank], 0);
    StandsAt(s, i, PrintD(u), 0);
    if u < 0x8000_0000 {
      NumberBack(s, i, u);
    }
  }

  /** The number after the one that ended at e. */
  lemma NextField(s: seq<byte>, e: nat, u: uint32, e': nat)
    requires e < |s| && SkipWs(s, e) == SkipWs(s, e + 1) && Field(s, e + 1, u, e')
    ensures ReadUint(s, e) == (if u < 0x8000_0000 then Number(u, e') else Number(0, e + 1))
  {
  }

  /** What the reader makes of a printed header that ends at n. */
  predicate ReadsAs(r: Option<Header>, s: seq<byte>, color: bool, w: uint32, h: uint32, maxval: uint32, n: nat) {
    && n <= |s|
    && (r.Some? <==> w < 0x8000_0000 && h < 0x8000_0000 && 1 <= maxval <= 0xFFFF)
    && (r.Some? ==> r.value == Header(color, w, h, DepthFrom(maxval, 1), SkipWs(s, n)))
  }

  lemma SizesBack(s: seq<byte>, color: bool, w: uint32, h: uint32, maxval: uint32, i: nat, j: nat, n: nat)
    requires maxval < 0x8000_0000 && Fields(s, w, h, maxval, i, j, n) && SkipWs(s, 2) == SkipWs(s, 3)
    ensures ReadsAs(ParseSizes(s, color), s, color, w, h, maxval, n)
  {
    NextField(s, 2, w, i - 1);
    NextField(s, i - 1, h, j - 1);
    NextField(s, j - 1, maxval, n - 1);
    if w >= 0x8000_0000 {
      assert ReadUint(s, 3) == Number(0, 3);
    } else if h >= 0x8000_0000 {
      assert ReadUint(s, i) == Number(0, i);
    }
  }

  lemma PrefixBack(s: seq<byte>, color: bool, t: seq<byte>)
    requires Stands(s, 0, ['P' as int, Magic(color)]) && Stands(s, 2, [SP] + t)
    ensures ParseHeader(s) == ParseSizes(s, color) && Stands(s, 3, t) && SkipWs(s, 2) == SkipWs(s, 3)
  {
    StandsAt(s, 0, ['P' as int, Magic(color)], 0);
    StandsAt(s, 0, ['P' as int, Magic(color)], 1);
    StandsSplit(s, 2, [SP], t);
    StandsAt(s, 2, [SP], 0);
  }

  /** The three numbers, from index 3 to n. */
  predicate Fields(s: seq<byte>, w: uint32, h: uint32, maxval: uint32, i: nat, j: nat, n: nat) {
    3 < i < j < n && Field(s, 3, w, i - 1) && Field(s, i, h, j - 1) && Field(s, j, maxval, n - 1)
  }

  lemma FieldsBack(s: seq<byte>, w: uint32, h: uint32, maxval: uint32, i: nat, j: nat, n: nat)
    requires maxval < 0x8000_0000 && i == 4 + |PrintD(w)| && j == i + |PrintD(h)| + 1 && n == j + |PrintD(maxval)| + 1
    requires Stands(s, 3, PrintD(w) + [SP]) && Stands(s, i, PrintD(h) + [SP]) && Stands(s, j, PrintD(maxval) + [LF])
    ensures Fields(s, w, h, maxval, i, j, n)
  {
    FieldBack(s, 3, w, SP);
    FieldBack(s, i, h, SP);
    FieldBack(s, j, maxval, LF);
  }

  lemma HeaderBack(s: seq<byte>, color: bool, w: uint32, h: uint32, maxval: uint32, i: nat, j: nat, n: nat)
    requires maxval < 0x8000_0000 && ImgCmp.PnmLaidOut(s, Magic(color), w, h, maxval, i, j, n)
    ensures ReadsAs(ParseHeader(s), s, color, w, h, maxval, n)
  {
    PrefixBack(s, color, PrintD(w) + [SP]);
    FieldsBack(s, w, h, maxval, i, j, n);
    SizesBack(s, color, w, h, maxval, i, j, n);
  }

  lemma PayloadStart(head: seq<byte>, payload: seq<byte>)
    ensures SkipWs(head + payload, |head|) == |head| <==> Firm(payload)
  {
    var s := head + payload;
    assert |head| < |s| ==> s[|head|] == payload[0];
  }

  /** A printed header is read as it was printed, with the payload right after it, exactly when both sizes
      are below 2^31, the maximum value is one of a PNM file, and the payload does not begin with white
      space or '#', all of which the reader skips. */
  lemma HeaderExact(color: bool, w: uint32, h: uint32, maxval: uint32, payload: seq<byte>)
    requires maxval < 0x8000_0000
    ensures var head := ImgCmp.PnmText(Magic(color), w, h, maxval);
      var r := ParseHeader(head + payload);
      r.Some? && r.value.(bitdepth := 0) == Header(color, w, h, 0, |head|)
      <==> w < 0x8000_0000 && h < 0x8000_0000 && 1 <= maxval <= 0xFFFF && Firm(payload)
    ensures ParseHeader(ImgCmp.PnmText(Magic(color), w, h, maxval) + payload).Some?
      <==> w < 0x8000_0000 && h < 0x8000_0000 && 1 <= maxval <= 0xFFFF
    ensures var r := ParseHeader(ImgCmp.PnmText(Magic(color), w, h, maxval) + payload);
      r.Some? ==> r.value.bitdepth == DepthFrom(maxval, 1)
  {
    var head := ImgCmp.PnmText(Magic(color), w, h, maxval);
    var i, j := ImgCmp.PnmHeaderLaidOut(Magic(color), w, h, maxval, payload);
    HeaderBack(head + payload, color, w, h, maxval, i, j, |head|);
    PayloadStart(head, payload);
  }

  // ---------------------------------------------------------------------------
  // The rows come back
  // ---------------------------------------------------------------------------

  /** The rows the reader makes of the bytes it finds. */
  ghost predicate RowReads(s: seq<byte>, h: Header, y: nat, planes: seq<seq<int32>>) {
    && |planes| == h.Components() && RowAt(s, h, y).Some?
    && forall ch :: 0 <= ch < |planes| ==> Plane(h, RowAt(s, h, y).value, ch, planes[ch])
  }

  /** Row y of equal-sized rows after a header. */
  lemma RowFound(h: Header, head: seq<byte>, g: seq<seq<byte>>, y: nat)
    requires |head| == h.dataStart && y < |g| && Uniform(g, h.RawSize())
    ensures RowAt(head + Flatten(g), h, y) == Some(g[y])
  {
    var at := Pgx.GroupAt(h.dataStart, head, g, h.RawSize(), y);
    RowIs(head + Flatten(g), h, y, h.RawSize(), at);
  }

  lemma RowIs(s: seq<byte>, h: Header, y: nat, n: nat, at: nat)
    requires n == h.RawSize() && at == y * n
    ensures RowAt(s, h, y) == Pgx.Fread(s, h.dataStart + at, n)
  {
  }

  /** A file of this header and these rows is read as a header of this depth, and row y as these planes. */
  lemma FileBack(color: bool, depth: nat, w: uint32, h: uint32, g: seq<seq<byte>>, y: nat, planes: seq<seq<int32>>)
    requires 1 <= depth <= 16 && w < 0x8000_0000 && y < |g| == h < 0x8000_0000 && Firm(Flatten(g))
    requires var c := Header(color, w, h, depth, |ImgCmp.PnmText(Magic(color), w, h, Writers.MaxVal(depth))|);
      && Uniform(g, c.RawSize()) && |planes| == c.Components()
      && forall ch :: 0 <= ch < |planes| ==> Plane(c, g[y], ch, planes[ch])
    ensures var head := ImgCmp.PnmText(Magic(color), w, h, Writers.MaxVal(depth));
      var c := Header(color, w, h, depth, |head|);
      ParseHeader(head + Flatten(g)) == Some(c) && RowReads(head + Flatten(g), c, y, planes)
  {
    DepthBack(depth);
    HeaderExact(color, w, h, Writers.MaxVal(depth), Flatten(g));
    var head := ImgCmp.PnmText(Magic(color), w, h, Writers.MaxVal(depth));
    RowFound(Header(color, w, h, depth, |head|), head, g, y);
  }

  // Gray rows.

  function PgmRow(bpp: nat, off: int32, row: seq<int32>): (s: seq<byte>)
    requires 1 <= bpp <= 2
    ensures |s| == bpp * |row|
  {
    FlattenLength(Writers.StreamGroups(Writers.Pgm, bpp, off, row), bpp);
    Flatten(Writers.StreamGroups(Writers.Pgm, bpp, off, row))
  }

  function PgmRows(bpp: nat, off: int32, rows: seq<seq<int32>>): (g: seq<seq<byte>>)
    requires 1 <= bpp <= 2
    ensures |g| == |rows|
  {
    seq(|rows|, y requires 0 <= y < |rows| => PgmRow(bpp, off, rows[y]))
  }

  lemma {:induction false} PgmPayload(bpp: nat, off: int32, rows: seq<seq<int32>>)
    requires 1 <= bpp <= 2
    ensures Writers.Streamed(Writers.Pgm, bpp, off, rows) == Flatten(PgmRows(bpp, off, rows))
  {
    if rows != [] {
      var n := |rows| - 1;
      PgmPayload(bpp, off, rows[..n]);
      assert PgmRows(bpp, off, rows)[..n] == PgmRows(bpp, off, rows[..n]);
    }
  }

  /** A row with the offset added. */
  function Raised(row: seq<int32>, off: int32): (r: seq<int32>)
    requires PackKernels.NoOverflow(row, off)
    ensures |r| == |row|
  {
    seq(|row|, x requires 0 <= x < |row| => row[x] as int + off)
  }

  lemma PgmRowBack(c: Header, off: int32, row: seq<int32>)
    requires !c.color && 1 <= c.bitdepth <= 16 && |row| == c.width && PackKernels.NoOverflow(row, off)
    requires forall x :: 0 <= x < |row| ==> 0 <= row[x] as int + off < Pow2(c.bitdepth)
    ensures |PgmRow(c.Bps(), off, row)| == c.RawSize() && Plane(c, PgmRow(c.Bps(), off, row), 0, Raised(row, off))
  {
    forall x: nat | x < |row|
      ensures SampleAt(c, PgmRow(c.Bps(), off, row), 0, x) == row[x] as int + off
    {
      Writers.RowGroups(Writers.Pgm, c.Bps(), off, row);
      if c.bitdepth > 8 {
        ImgCmp.PgmWordBack(off, c.bitdepth, row, x);
      } else {
        ImgCmp.PgmByteBack(off, c.bitdepth, row, x);
      }
    }
  }

  /** The PGM file the decoder writes for a component, row by row or at once. */
  function PgmFile(signed: bool, depth: byte, w: uint32, h: uint32, rows: seq<seq<int32>>): seq<byte>
    requires 1 <= depth <= 16
  {
    Writers.BatchFile(Writers.Pgm, signed, depth, w, h, rows)
  }

  function PgmHeader(depth: byte, w: uint32, h: uint32): Header
    requires 1 <= depth <= 16
  {
    Header(false, w, h, depth, |ImgCmp.PnmText(Magic(false), w, h, Writers.MaxVal(depth))|)
  }

  lemma PgmFileIs(signed: bool, depth: byte, w: uint32, h: uint32, rows: seq<seq<int32>>) returns (bpp: nat, off: int32)
    requires 1 <= depth <= 16
    ensures bpp == PgmHeader(depth, w, h).Bps() && off == Writers.Offset(Writers.Pgm, signed, depth)
    ensures PgmFile(signed, depth, w, h, rows) == ImgCmp.PnmText(Magic(false), w, h, Writers.MaxVal(depth)) +
        Flatten(PgmRows(bpp, off, rows))
  {
    bpp, off := Writers.BytesPerPixel(depth), Writers.Offset(Writers.Pgm, signed, depth);
    ImgCmp.PgmText(signed, depth, w, h);
    Writers.RowsAreBuffer(Writers.Pgm, bpp, off, rows);
    PgmPayload(bpp, off, rows);
  }

  /** Samples of the component, with the offset added, fit the depth. */
  lemma RowInRange(signed: bool, depth: nat, row: seq<int32>)
    requires 1 <= depth <= 16 && forall x :: 0 <= x < |row| ==> Pgx.InRange(row[x], signed, depth)
    ensures PackKernels.NoOverflow(row, Writers.Offset(Writers.Pgm, signed, depth))
    ensures forall x :: 0 <= x < |row| ==> 0 <= row[x] as int + Writers.Offset(Writers.Pgm, signed, depth) < Pow2(depth)
  {
    ImgCmp.RaisedInRange(signed, depth, row);
    Pow2Monotone(depth, 16);
    Pow2Values();
  }

  /** A PGM of the decoder is read back with the offset added, at every depth from 1 to 16, row by row in
      any order, when its payload does not begin with something the reader skips. */
  lemma PgmRowsBack(signed: bool, depth: byte, w: uint32, h: uint32, rows: seq<seq<int32>>, y: nat)
    requires 1 <= depth <= 16 && w < 0x8000_0000 && y < h < 0x8000_0000 && Pgx.Component(signed, depth, w, h, rows)
    requires Firm(PgmFile(signed, depth, w, h, rows)[|Writers.HeaderOf(Writers.Pgm, signed, depth, w, h)|..])
    ensures ParseHeader(PgmFile(signed, depth, w, h, rows)) == Some(PgmHeader(depth, w, h))
    ensures PackKernels.NoOverflow(rows[y], Writers.Offset(Writers.Pgm, signed, depth))
    ensures RowReads(PgmFile(signed, depth, w, h, rows), PgmHeader(depth, w, h), y,
                     [Raised(rows[y], Writers.Offset(Writers.Pgm, signed, depth))])
  {
    var bpp, off := PgmFileIs(signed, depth, w, h, rows);
    ImgCmp.PgmText(signed, depth, w, h);
    var head, g := ImgCmp.PnmText(Magic(false), w, h, Writers.MaxVal(depth)), PgmRows(bpp, off, rows);
    assert (head + Flatten(g))[|head|..] == Flatten(g);
    RowInRange(signed, depth, rows[y]);
    PgmRowBack(PgmHeader(depth, w, h), off, rows[y]);
    FileBack(false, depth, w, h, g, y, [Raised(rows[y], off)]);
  }

  // Color rows.

  /** One row of a PPM: `ppm_interleave_8` up to depth 8, `ppm_interleave_16be` above. */
  function PpmRow(depth: nat, r: seq<int32>, g: seq<int32>, b: seq<int32>): seq<byte>
    requires 1 <= depth <= 16 && |r| == |g| == |b|
  {
    if depth > 8 then PpmInterleave.Row16(r, g, b, PpmInterleave.MaxVal(depth))
    else PpmInterleave.Row8(r, g, b, PpmInterleave.MaxVal(depth))
  }

  /** Three components of h rows of w samples, of any values. */
  predicate Picture(w: nat, h: nat, r: seq<seq<int32>>, g: seq<seq<int32>>, b: seq<seq<int32>>) {
    |r| == |g| == |b| == h && forall y :: 0 <= y < h ==> |r[y]| == |g[y]| == |b[y]| == w
  }

  function PpmRows(depth: nat, w: nat, h: nat, r: seq<seq<int32>>, g: seq<seq<int32>>, b: seq<seq<int32>>):
    (rows: seq<seq<byte>>)
    requires 1 <= depth <= 16 && Picture(w, h, r, g, b)
    ensures |rows| == h
  {
    seq(h, y requires 0 <= y < h => PpmRow(depth, r[y], g[y], b[y]))
  }

  function PpmFile(depth: byte, w: uint32, h: uint32, r: seq<seq<int32>>, g: seq<seq<int32>>, b: seq<seq<int32>>):
    seq<byte>
    requires 1 <= depth <= 16 && Picture(w, h, r, g, b)
  {
    ImgCmp.PnmText(Magic(true), w, h, Writers.MaxVal(depth)) + Flatten(PpmRows(depth, w, h, r, g, b))
  }

  function PpmHeader(depth: byte, w: uint32, h: uint32): Header
    requires 1 <= depth <= 16
  {
    Header(true, w, h, depth, |ImgCmp.PnmText(Magic(true), w, h, Writers.MaxVal(depth))|)
  }

  /** The samples that fit the depth; others at the nearer end of its range. */
  function Clamped(row: seq<int32>, depth: nat): (c: seq<int32>)
    requires 1 <= depth <= 16
    ensures |c| == |row|
  {
    seq(|row|, x requires 0 <= x < |row| => ClampTo(row[x], PpmInterleave.MaxVal(depth)))
  }

  lemma WideSampleBack(r: seq<int32>, g: seq<int32>, b: seq<int32>, mv: int32, x: nat)
    requires |r| == |g| == |b| && 0 <= mv <= 0xFFFF && x < |r|
    ensures var raw := PpmInterleave.Row16(r, g, b, mv);
      && |raw| == 6 * |r|
      && Word2(raw[6 * x + 1], raw[6 * x]) == ClampTo(r[x], mv)
      && Word2(raw[6 * x + 3], raw[6 * x + 2]) == ClampTo(g[x], mv)
      && Word2(raw[6 * x + 5], raw[6 * x + 4]) == ClampTo(b[x], mv)
  {
    PpmInterleave.Row16Sample(r, g, b, mv, x);
    SixOf(PpmInterleave.Row16(r, g, b, mv), 6 * x);
  }

  lemma SixOf(s: seq<byte>, i: nat)
    requires i + 6 <= |s|
    ensures var p := s[i..i + 6];
      p[0] == s[i] && p[1] == s[i + 1] && p[2] == s[i + 2] && p[3] == s[i + 3] && p[4] == s[i + 4] && p[5] == s[i + 5]
  {
  }

  /** The three samples of pixel x. */
  predicate PixelIs(c: Header, raw: seq<byte>, x: nat, r: int, g: int, b: int) {
    && |raw| == c.RawSize() && c.color && x < c.width
    && SampleAt(c, raw, 0, x) == r && SampleAt(c, raw, 1, x) == g && SampleAt(c, raw, 2, x) == b
  }

  lemma WidePixel(c: Header, raw: seq<byte>, x: nat, r: int, g: int, b: int)
    requires c.color && c.bitdepth > 8 && x < c.width && |raw| == 6 * c.width
    requires Word2(raw[6 * x + 1], raw[6 * x]) == r && Word2(raw[6 * x + 3], raw[6 * x + 2]) == g
    requires Word2(raw[6 * x + 5], raw[6 * x + 4]) == b
    ensures PixelIs(c, raw, x, r, g, b)
  {
    assert 2 * (3 * x) == 6 * x && 2 * (3 * x + 1) == 6 * x + 2 && 2 * (3 * x + 2) == 6 * x + 4;
  }

  lemma NarrowPixel(c: Header, raw: seq<byte>, x: nat, r: int, g: int, b: int)
    requires c.color && c.bitdepth <= 8 && x < c.width && |raw| == 3 * c.width
    requires raw[3 * x] == r && raw[3 * x + 1] == g && raw[3 * x + 2] == b
    ensures PixelIs(c, raw, x, r, g, b)
  {
  }

  lemma PpmSampleBack(c: Header, r: seq<int32>, g: seq<int32>, b: seq<int32>, mv: int32, x: nat)
    requires c.color && 1 <= c.bitdepth <= 16 && |r| == |g| == |b| == c.width && x < c.width
    requires mv == PpmInterleave.MaxVal(c.bitdepth)
    ensures PixelIs(c, PpmRow(c.bitdepth, r, g, b), x, ClampTo(r[x], mv), ClampTo(g[x], mv), ClampTo(b[x], mv))
  {
    if c.bitdepth > 8 {
      WideSampleBack(r, g, b, mv, x);
      WidePixel(c, PpmInterleave.Row16(r, g, b, mv), x, ClampTo(r[x], mv), ClampTo(g[x], mv), ClampTo(b[x], mv));
    } else {
      PpmInterleave.Row8Sample(r, g, b, mv, x);
      NarrowPixel(c, PpmInterleave.Row8(r, g, b, mv), x, ClampTo(r[x], mv), ClampTo(g[x], mv), ClampTo(b[x], mv));
    }
  }

  lemma PpmRowBack(c: Header, r: seq<int32>, g: seq<int32>, b: seq<int32>)
    requires c.color && 1 <= c.bitdepth <= 16 && |r| == |g| == |b| == c.width
    ensures |PpmRow(c.bitdepth, r, g, b)| == c.RawSize()
    ensures Plane(c, PpmRow(c.bitdepth, r, g, b), 0, Clamped(r, c.bitdepth))
    ensures Plane(c, PpmRow(c.bitdepth, r, g, b), 1, Clamped(g, c.bitdepth))
    ensures Plane(c, PpmRow(c.bitdepth, r, g, b), 2, Clamped(b, c.bitdepth))
  {
    PpmRowLength(c, r, g, b);
    forall x: nat | x < c.width
      ensures SampleAt(c, PpmRow(c.bitdepth, r, g, b), 0, x) == Clamped(r, c.bitdepth)[x]
      ensures SampleAt(c, PpmRow(c.bitdepth, r, g, b), 1, x) == Clamped(g, c.bitdepth)[x]
      ensures SampleAt(c, PpmRow(c.bitdepth, r, g, b), 2, x) == Clamped(b, c.bitdepth)[x]
    {
      PpmSampleBack(c, r, g, b, PpmInterleave.MaxVal(c.bitdepth), x);
    }
  }

  lemma PpmRowLength(c: Header, r: seq<int32>, g: seq<int32>, b: seq<int32>)
    requires c.color && 1 <= c.bitdepth <= 16 && |r| == |g| == |b| == c.width
    ensures |PpmRow(c.bitdepth, r, g, b)| == c.RawSize()
  {
    var mv := PpmInterleave.MaxVal(c.bitdepth);
    if c.bitdepth > 8 {
      FlattenLength(PpmInterleave.Pixels16(r, g, b, mv), 6);
    } else {
      FlattenLength(PpmInterleave.Pixels8(r, g, b, mv), 3);
    }
  }

  lemma PpmUniform(c: Header, h: nat, r: seq<seq<int32>>, g: seq<seq<int32>>, b: seq<seq<int32>>)
    requires c.color && 1 <= c.bitdepth <= 16 && Picture(c.width, h, r, g, b)
    ensures Uniform(PpmRows(c.bitdepth, c.width, h, r, g, b), c.RawSize())
  {
    forall y | 0 <= y < h
      ensures |PpmRows(c.bitdepth, c.width, h, r, g, b)[y]| == c.RawSize()
    {
      PpmRowLength(c, r[y], g[y], b[y]);
    }
  }

  /** A PPM of the decoder is read back sample by sample, clamped to the depth, at every depth from 1 to
      16, row by row in any order, when its payload does not begin with something the reader skips. */
  lemma PpmRowsBack(depth: byte, w: uint32, h: uint32, r: seq<seq<int32>>, g: seq<seq<int32>>, b: seq<seq<int32>>,
                    y: nat)
    requires 1 <= depth <= 16 && w < 0x8000_0000 && y < h < 0x8000_0000 && Picture(w, h, r, g, b)
    requires Firm(Flatten(PpmRows(depth, w, h, r, g, b)))
    ensures ParseHeader(PpmFile(depth, w, h, r, g, b)) == Some(PpmHeader(depth, w, h))
    ensures RowReads(PpmFile(depth, w, h, r, g, b), PpmHeader(depth, w, h), y,
                     [Clamped(r[y], depth), Clamped(g[y], depth), Clamped(b[y], depth)])
  {
    var c := PpmHeader(depth, w, h);
    PpmUniform(c, h, r, g, b);
    PpmRowBack(c, r[y], g[y], b[y]);
    FileBack(true, depth, w, h, PpmRows(depth, w, h, r, g, b), y,
             [Clamped(r[y], depth), Clamped(g[y], depth), Clamped(b[y], depth)]);
  }

  // ---------------------------------------------------------------------------
  // The two readers
  // ---------------------------------------------------------------------------

  /** On a PGM of the decoder the comparison tool's reader returns the same samples as this one, row after
      row, exactly from depth 2 on: it takes the maximum value 1 for depth 0. */
  lemma AgreesWithComparison(signed: bool, depth: byte, w: uint32, h: uint32, rows: seq<seq<int32>>, y: nat)
    requires 1 <= depth <= 16 && 0 < w < 0x8000_0000 && y < h < 0x8000_0000 && Pgx.Component(signed, depth, w, h, rows)
    requires Firm(PgmFile(signed, depth, w, h, rows)[|Writers.HeaderOf(Writers.Pgm, signed, depth, w, h)|..])
    ensures var off := Writers.Offset(Writers.Pgm, signed, depth);
      && PackKernels.NoOverflow(rows[y], off)
      && RowReads(PgmFile(signed, depth, w, h, rows), PgmHeader(depth, w, h), y, [Raised(rows[y], off)])
    ensures var off := Writers.Offset(Writers.Pgm, signed, depth);
      var whole := ImgCmp.Loaded(ImgCmp.Image(1, w, h, depth, false, ImgCmp.Raised(Writers.Buffer(rows), off)));
      ImgCmp.Load(PgmFile(signed, depth, w, h, rows)) == whole <==> depth >= 2
  {
    PgmRowsBack(signed, depth, w, h, rows, y);
    if depth == 1 {
      ImgCmp.OneBitPgm(signed, w, h, rows);
    } else {
      FirmIsClear(signed, depth, w, h, rows);
      ImgCmp.PgmFileBack(signed, depth, w, h, rows);
    }
  }

  lemma FirmIsClear(signed: bool, depth: byte, w: uint32, h: uint32, rows: seq<seq<int32>>)
    requires 1 <= depth <= 16 && 0 < w && 0 < h && Pgx.Component(signed, depth, w, h, rows)
    requires Firm(PgmFile(signed, depth, w, h, rows)[|Writers.HeaderOf(Writers.Pgm, signed, depth, w, h)|..])
    ensures ImgCmp.Clear(PgmFile(signed, depth, w, h, rows), |Writers.HeaderOf(Writers.Pgm, signed, depth, w, h)|)
  {
    var head := Writers.HeaderOf(Writers.Pgm, signed, depth, w, h);
    var s := PgmFile(signed, depth, w, h, rows);
    var bpp, off := PgmFileIs(signed, depth, w, h, rows);
    ImgCmp.PgmText(signed, depth, w, h);
    FlattenLength(PgmRows(bpp, off, rows), bpp * w);
    assert bpp * w * |PgmRows(bpp, off, rows)| > 0;
    assert s[|head|..][0] == s[|head|];
  }
}
