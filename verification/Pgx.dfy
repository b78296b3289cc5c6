/** PGX files: the header and rows the decoder prints, and the encoder's reader
    (source/apps/encoder/main_enc.cpp, `PgxStreamReader`).

    `HeaderExact` says exactly when the reader finds the printed header and the first payload byte;
    `RowsBack` that it then returns every sample, whatever order the rows are asked for. */
module Pgx {
  import opened MachineInts
  import opened ByteRows
  import opened CFile
  import opened Options
  import opened Substrings
  import PackKernels

  /** What parse_pgx_header fills in. */
  datatype Header = Header(big: bool, signed: bool, bitdepth: byte, width: uint32, height: uint32, dataStart: nat) {
    /** Bytes per sample. */
    function Bps(): nat {
      if bitdepth > 8 then 2 else 1
    }

    /** raw.size() */
    function RawSize(): nat {
      if bitdepth > 8 then 2 * width else width
    }

    /** The distance between rows, from a 32-bit product. */
    function RowBytes(): nat {
      RawSize() % 0x1_0000_0000
    }
  }

  // ---------------------------------------------------------------------------
  // The reader as a function of the file
  // ---------------------------------------------------------------------------

  // From the end of the width, of the bit depth, and from the first digit of the bit depth on.
  function ParseHeight(s: seq<byte>, i: nat, big: bool, signed: bool, bd: byte, w: uint32): Header
    requires i <= |s|
  {
    var h := ReadDigits(s, SkipTo(s, i, Content), 0);
    Header(big, signed, bd, w, h.value, SkipTo(s, h.next, Content))
  }

  function ParseWidth(s: seq<byte>, i: nat, big: bool, signed: bool, bd: byte): Header
    requires i <= |s|
  {
    var w := ReadDigits(s, SkipTo(s, i, Content), 0);
    ParseHeight(s, w.next, big, signed, bd, w.value)
  }

  function ParseNumbers(s: seq<byte>, i: nat, big: bool, signed: bool): Header
    requires i <= |s|
  {
    var bd := ReadDigits(s, i, 0);
    ParseWidth(s, bd.next, big, signed, bd.value % 0x100)
  }

  /** From the sign on. */
  function ParseSign(s: seq<byte>, i: nat, big: bool): Option<Header>
    requires i <= |s|
  {
    if i == |s| then None
    else if s[i] == PLUS || s[i] == MINUS then
      var j := SkipTo(s, i + 1, Digit);
      if j == |s| then None else Some(ParseNumbers(s, j, big, s[i] == MINUS))
    else Some(ParseNumbers(s, i, big, false))
  }

  /** parse_pgx_header on a whole file. */
  function ParseHeader(s: seq<byte>): Option<Header> {
    if |s| < 2 || s[0] != 'P' as int || s[1] != 'G' as int then None
    else
      var i := SkipTo(s, 2, Order);
      if i == |s| then None
      else ParseSign(s, SkipTo(s, After(s, i + 1), SignOrDigit), s[i] == 'M' as int)
  }

  /** A letter of the byte order, and a digit behind it with something in between. */
  predicate OrderThenDigit(s: seq<byte>, i: nat, k: nat) {
    2 <= i && i + 2 <= k < |s| && (s[i] == 'M' as int || s[i] == 'L' as int) && IsDigit(s[k])
  }

  lemma SkipsNone(s: seq<byte>, i: nat, want: Kind, k: nat)
    requires i <= k < |s| && Wants(want, s[k])
    ensures SkipTo(s, i, want) <= k && Wants(want, s[SkipTo(s, i, want)])
  {
    SkipToIs(s, i, want, SkipTo(s, i, want));
  }

  lemma OpensWith(s: seq<byte>, i: nat, k: nat)
    requires |s| >= 2 && s[0] == 'P' as int && s[1] == 'G' as int && OrderThenDigit(s, i, k)
    ensures ParseHeader(s).Some?
  {
    SkipsNone(s, 2, Order, i);
    var j := After(s, SkipTo(s, 2, Order) + 1);
    SkipsNone(s, j, SignOrDigit, k);
    var m := SkipTo(s, j, SignOrDigit);
    if s[m] == PLUS || s[m] == MINUS {
      SkipsNone(s, m + 1, Digit, k);
    }
  }

  lemma WasThere(s: seq<byte>) returns (i: nat, k: nat)
    requires ParseHeader(s).Some?
    ensures OrderThenDigit(s, i, k)
  {
    i := SkipTo(s, 2, Order);
    SkipToIs(s, 2, Order, i);
    var j := After(s, i + 1);
    var m := SkipTo(s, j, SignOrDigit);
    SkipToIs(s, j, SignOrDigit, m);
    k := m;
    if m < |s| && (s[m] == PLUS || s[m] == MINUS) {
      k := SkipTo(s, m + 1, Digit);
      SkipToIs(s, m + 1, Digit, k);
    }
  }

  /** Any file that begins with "PG" is taken for a PGX file, as long as a letter of the byte order and,
      further on, a digit come after that; no other file is. */
  lemma OpensExactly(s: seq<byte>)
    ensures ParseHeader(s).Some? <==>
      |s| >= 2 && s[0] == 'P' as int && s[1] == 'G' as int && exists i: nat, k: nat :: OrderThenDigit(s, i, k)
  {
    if ParseHeader(s).Some? {
      var i, k := WasThere(s);
    }
    if |s| >= 2 && s[0] == 'P' as int && s[1] == 'G' as int {
      if i: nat, k: nat :| OrderThenDigit(s, i, k) {
        OpensWith(s, i, k);
      }
    }
  }

  // ---------------------------------------------------------------------------
  // The reader as the source runs it
  // ---------------------------------------------------------------------------

  /** Skips blanks and line ends. */
  method SkipBlanks(f: File, d0: int, ghost i: nat) returns (d: int, ghost j: nat)
    requires f.Read(d0, i)
    modifies f
    ensures j == SkipTo(f.data, i, Content) && f.Read(d, j)
  {
    d, j := d0, i;
    while d == SP || d == LF || d == CR
      invariant f.Read(d, j)
      invariant SkipTo(f.data, i, Content) == SkipTo(f.data, j, Content)
      decreases |f.data| - j
    {
      d := f.Getc();
      j := j + 1;
    }
  }

  method ReadNumbers(f: File, d0: int, ghost i: nat, big: bool, signed: bool) returns (c: Header)
    requires f.Read(d0, i)
    modifies f
    ensures c == ParseNumbers(f.data, i, big, signed) && f.pos == c.dataStart
  {
    ghost var j: nat;
    var bd, d;
    bd, d, j := TakeDigits(f, d0, i);
    d, j := SkipBlanks(f, d, j);
    var w, h;
    w, d, j := TakeDigits(f, d, j);
    d, j := SkipBlanks(f, d, j);
    h, d, j := TakeDigits(f, d, j);
    d, j := SkipBlanks(f, d, j);
    f.Ungetc(d, j);
    c := Header(big, signed, bd % 0x100, w, h, f.pos);
  }

  method ReadSign(f: File, big: bool) returns (c: Option<Header>)
    requires f.pos <= |f.data|
    modifies f
    ensures c == ParseSign(f.data, SkipTo(f.data, old(f.pos), SignOrDigit), big)
    ensures c.Some? ==> f.pos == c.value.dataStart
  {
    ghost var j: nat;
    var d;
    d, j := ScanTo(f, SignOrDigit);
    if d == EOF {
      return None;
    }
    var signed := false;
    if d == PLUS || d == MINUS {
      signed := d == MINUS;
      d, j := ScanTo(f, Digit);
      if d == EOF {
        return None;
      }
    }
    var h := ReadNumbers(f, d, j, big, signed);
    c := Some(h);
  }

  /** parse_pgx_header on a file just opened. */
  method ReadHeader(f: File) returns (c: Option<Header>)
    requires f.pos == 0
    modifies f
    ensures c == ParseHeader(f.data)
    ensures c.Some? ==> f.pos == c.value.dataStart
  {
    var p := f.Getc();
    if p != 'P' as int {
      return None;
    }
    var g := f.Getc();
    if g != 'G' as int {
      return None;
    }
    ghost var j: nat;
    var d;
    d, j := ScanTo(f, Order);
    if d == EOF {
      return None;
    }
    var second := f.Getc();
    c := ReadSign(f, d == 'M' as int);
  }

  // ---------------------------------------------------------------------------
  // Rows
  // ---------------------------------------------------------------------------

  /** fseek and fread: n bytes from `at` on, unless they run past the end. */
  function Fread(s: seq<byte>, at: nat, n: nat): Option<seq<byte>> {
    if at + n <= |s| then Some(s[at..at + n])
    else if n == 0 then Some([])
    else None
  }

  /** The bytes of row y of the file. */
  function RowAt(s: seq<byte>, c: Header, y: nat): (r: Option<seq<byte>>)
    ensures r.Some? ==> |r.value| == c.RawSize()
  {
    Fread(s, c.dataStart + y * c.RowBytes(), c.RawSize())
  }

  /** One 16-bit sample. */
  function Sample16(b0: byte, b1: byte, big: bool, signed: bool): int32 {
    var u: uint16 := if big then Word2(b1, b0) else Word2(b0, b1);
    if signed then AsI16(u) else u
  }

  function Sample8(b: byte, signed: bool): int32 {
    if signed then AsI8(b) else b
  }

  function SampleAt(c: Header, raw: seq<byte>, x: nat): int32
    requires |raw| == c.RawSize() && x < c.width
  {
    if c.Bps() == 1 then Sample8(raw[x], c.signed)
    else Sample16(raw[2 * x], raw[2 * x + 1], c.big, c.signed)
  }

  /** The first n samples of a row. */
  function DecodeRow(c: Header, raw: seq<byte>, n: nat): (r: seq<int32>)
    requires |raw| == c.RawSize() && n <= c.width
    ensures |r| == n
  {
    if n == 0 then [] else DecodeRow(c, raw, n - 1) + [SampleAt(c, raw, n - 1)]
  }

  /** The row the reader makes of the bytes it finds is `row`. */
  predicate RowReads(s: seq<byte>, c: Header, y: nat, row: seq<int32>) {
    RowAt(s, c, y).Some? && DecodeRow(c, RowAt(s, c, y).value, c.width) == row
  }

  /** Decoding into the first width places of the caller's row. */
  method FillRow(c: Header, raw: seq<byte>, row: array<int32>)
    requires |raw| == c.RawSize() && c.width <= row.Length
    modifies row
    ensures row[..c.width] == DecodeRow(c, raw, c.width)
    ensures forall k :: c.width <= k < row.Length ==> row[k] == old(row[k])
  {
    var x := 0;
    while x < c.width
      invariant 0 <= x <= c.width
      invariant row[..x] == DecodeRow(c, raw, x)
      invariant forall k :: x <= k < row.Length ==> row[k] == old(row[k])
    {
      row[x] := SampleAt(c, raw, x);
      assert row[..x + 1] == row[..x] + [row[x]];
      x := x + 1;
    }
  }

  /** get_row's body for one component: row fileY of its file into the caller's row. */
  method ReadRow(f: File, c: Header, fileY: nat, row: array<int32>) returns (ok: bool)
    requires c.width <= row.Length
    modifies f, row
    ensures ok == RowAt(f.data, c, fileY).Some?
    ensures ok ==> RowReads(f.data, c, fileY, row[..c.width])
    ensures forall k :: (!ok || c.width <= k) && 0 <= k < row.Length ==> row[k] == old(row[k])
  {
    f.Seek(c.dataStart + fileY * c.RowBytes());
    var raw := f.ReadBytes(c.RawSize());
    ok := |raw| == c.RawSize();
    if ok {
      FillRow(c, raw, row);
    }
  }

  // ---------------------------------------------------------------------------
  // One file per component
  // ---------------------------------------------------------------------------

  /** static_cast<uint8_t>(whole / part) */
  function Ratio(whole: uint32, part: uint32): byte
    requires part > 0
  {
    whole / part % 0x100
  }

  /** An 8-bit factor survives the cast, a larger one does not. */
  lemma RatioExact(factor: nat, part: uint32)
    requires part > 0 && factor * part <= 0xFFFF_FFFF
    ensures Ratio(factor * part, part) == factor <==> factor <= 0xFF
  {
    ModUnique(factor * part, part, factor, 0);
  }

  ghost predicate Distinct(files: seq<File>) {
    forall i, j :: 0 <= i < j < |files| ==> files[i] != files[j]
  }

  /** A file that can be opened and has a header. */
  predicate Readable(content: Option<seq<byte>>) {
    content.Some? && ParseHeader(content.value).Some?
  }

  function HeaderIn(content: Option<seq<byte>>): Header
    requires Readable(content)
  {
    ParseHeader(content.value).value
  }

  /** Neither size is 0. */
  predicate Sized(c: Header) {
    c.width > 0 && c.height > 0
  }

  predicate Submultiple(whole: Header, part: Header)
    requires Sized(part)
  {
    whole.width % part.width == 0 && whole.height % part.height == 0
  }

  /** All files can be read, and their sizes divide those of the first. */
  ghost predicate Submultiples(contents: seq<Option<seq<byte>>>)
    requires forall i :: 1 <= i < |contents| && Readable(contents[i]) ==> Sized(HeaderIn(contents[i]))
  {
    && (forall i :: 0 <= i < |contents| ==> Readable(contents[i]))
    && forall i :: 1 <= i < |contents| ==> Submultiple(HeaderIn(contents[0]), HeaderIn(contents[i]))
  }

  class PgxStreamReader {
    var files: seq<File>
    var comps: seq<Header>
    var xr: seq<byte>
    var yr: seq<byte>

    /** One open file per component. */
    ghost predicate Valid()
      reads this
    {
      |files| == |comps| && Distinct(files)
    }

    constructor ()
      ensures Valid() && comps == []
    {
      files, comps, xr, yr := [], [], [], [];
    }

    /** One trip of the first loop of open(): the next file, None when it cannot be opened. */
    method OpenNext(content: Option<seq<byte>>) returns (ok: bool)
      requires Valid()
      modifies this`files, this`comps
      ensures Valid()
      ensures ok <==> content.Some? && ParseHeader(content.value).Some?
      ensures ok ==> comps == old(comps) + [ParseHeader(content.value).value]
      ensures ok ==> |files| == old(|files|) + 1 && files[..old(|files|)] == old(files)
      ensures ok ==> fresh(files[old(|files|)]) && Some(files[old(|files|)].data) == content
      ensures !ok ==> comps == old(comps) && files == old(files)
    {
      if content.None? {
        return false;
      }
      var f := new File(content.value);
      var c := ReadHeader(f);
      if c.None? {
        return false;
      }
      comps := comps + [c.value];
      files := files + [f];
      ok := true;
    }

    /** The subsampling factors; false when some component is not an integer submultiple of the first. */
    method SetFactors() returns (ok: bool)
      requires forall i :: 1 <= i < |comps| ==> comps[i].width > 0 && comps[i].height > 0
      modifies this`xr, this`yr
      ensures ok <==>
        forall i :: 1 <= i < |comps| ==> comps[0].width % comps[i].width == 0 && comps[0].height % comps[i].height == 0
      ensures |xr| == |yr| == |comps|
      ensures ok ==>
        forall i :: 0 <= i < |comps| ==> xr[i] == (if i == 0 then 1 else Ratio(comps[0].width, comps[i].width))
      ensures ok ==>
        forall i :: 0 <= i < |comps| ==> yr[i] == (if i == 0 then 1 else Ratio(comps[0].height, comps[i].height))
    {
      xr := seq(|comps|, _ => 1);
      yr := seq(|comps|, _ => 1);
      var i := 1;
      while i < |comps|
        invariant 1 <= i && |xr| == |yr| == |comps|
        invariant forall k :: 1 <= k < i && k < |comps| ==>
          comps[0].width % comps[k].width == 0 && comps[0].height % comps[k].height == 0
        invariant forall k :: 0 <= k < i && k < |comps| ==>
          xr[k] == (if k == 0 then 1 else Ratio(comps[0].width, comps[k].width))
        invariant forall k :: 0 <= k < i && k < |comps| ==>
          yr[k] == (if k == 0 then 1 else Ratio(comps[0].height, comps[k].height))
      {
        if comps[0].width % comps[i].width != 0 || comps[0].height % comps[i].height != 0 {
          return false;
        }
        xr := xr[i := Ratio(comps[0].width, comps[i].width)];
        yr := yr[i := Ratio(comps[0].height, comps[i].height)];
        i := i + 1;
      }
      ok := true;
    }

    /** The row of component ci's file that goes with luma row y. */
    function FileRow(ci: nat, y: nat): nat
      reads this
      requires ci < |yr|
    {
      if yr[ci] == 0 then 0 else y / yr[ci]
    }

    /** Row y of component ci is in its file. */
    predicate HasRow(ci: nat, y: nat)
      reads this
      requires ci < |files| == |comps| == |yr|
    {
      RowAt(files[ci].data, comps[ci], FileRow(ci, y)).Some?
    }

    /** And these are its samples. */
    predicate IsRow(ci: nat, y: nat, row: seq<int32>)
      reads this
      requires ci < |files| == |comps| == |yr|
    {
      RowReads(files[ci].data, comps[ci], FileRow(ci, y), row)
    }

    /** The files and headers of the first k contents. */
    ghost predicate Opened(contents: seq<Option<seq<byte>>>, k: nat)
      reads this
    {
      && k == |files| == |comps| <= |contents|
      && forall i :: 0 <= i < k ==>
           Readable(contents[i]) && files[i].data == contents[i].value && comps[i] == HeaderIn(contents[i])
    }

    /** The first loop of open(). */
    method OpenAll(contents: seq<Option<seq<byte>>>) returns (ok: bool)
      requires Valid() && comps == []
      modifies this`files, this`comps
      ensures Valid() && forall f :: f in files ==> fresh(f)
      ensures ok <==> forall i :: 0 <= i < |contents| ==> Readable(contents[i])
      ensures ok ==> Opened(contents, |contents|)
    {
      var k := 0;
      while k < |contents|
        invariant 0 <= k <= |contents| && Valid() && Opened(contents, k)
        invariant forall f :: f in files ==> fresh(f)
      {
        ok := OpenNext(contents[k]);
        if !ok {
          return;
        }
        assert files == files[..k] + [files[k]];
        k := k + 1;
      }
      ok := true;
    }

    /** open(): every file, then the factors. */
    method Open(contents: seq<Option<seq<byte>>>) returns (ok: bool)
      requires Valid() && comps == []
      requires forall i :: 1 <= i < |contents| && Readable(contents[i]) ==> Sized(HeaderIn(contents[i]))
      modifies this
      ensures Valid() && forall f :: f in files ==> fresh(f)
      ensures ok <==> Submultiples(contents)
      ensures ok ==> Opened(contents, |contents|) && |yr| == |comps|
      ensures ok ==>
        forall i :: 0 <= i < |comps| ==> yr[i] == (if i == 0 then 1 else Ratio(comps[0].height, comps[i].height))
    {
      ok := OpenAll(contents);
      if ok {
        ok := SetFactors();
      }
    }

    /** get_row: false stands for the exception on a short read, which leaves the remaining rows alone. */
    method GetRow(y: nat, rows: seq<array<int32>>) returns (ok: bool)
      requires Valid() && |yr| == |comps|
      requires forall ci :: 0 <= ci < |rows| && ci < |comps| ==> yr[ci] != 0 && comps[ci].width <= rows[ci].Length
      requires forall i, j :: 0 <= i < j < |rows| ==> rows[i] != rows[j]
      modifies files, rows
      ensures ok <==> forall ci :: 0 <= ci < |rows| && ci < |comps| ==> HasRow(ci, y)
      ensures ok ==> forall ci :: 0 <= ci < |rows| && ci < |comps| ==> IsRow(ci, y, rows[ci][..comps[ci].width])
    {
      var ci := 0;
      while ci < |rows| && ci < |comps|
        invariant 0 <= ci <= |rows| && ci <= |comps|
        invariant forall k :: 0 <= k < ci ==> HasRow(k, y) && IsRow(k, y, rows[k][..comps[k].width])
      {
        var good := ReadRow(files[ci], comps[ci], FileRow(ci, y), rows[ci]);
        if !good {
          assert !HasRow(ci, y);
          return false;
        }
        ci := ci + 1;
      }
      ok := true;
    }
  }

  // ---------------------------------------------------------------------------
  // What the decoder prints
  // ---------------------------------------------------------------------------

  /** "PG ML " or "PG LM ": the high byte of a sample first, or the low one. */
  function OrderPart(big: bool): (s: seq<byte>)
    ensures |s| == 6
  {
    if big then ['P' as int, 'G' as int, SP, 'M' as int, 'L' as int, SP]
    else ['P' as int, 'G' as int, SP, 'L' as int, 'M' as int, SP]
  }

  function SignPart(big: bool, signed: bool): (s: seq<byte>)
    ensures |s| == 8
  {
    OrderPart(big) + [if signed then MINUS else PLUS, SP]
  }

  /** "PG LM %c %d %d %d\n", or the same with ML. */
  function HeaderText(big: bool, signed: bool, depth: byte, w: uint32, h: uint32): seq<byte> {
    SignPart(big, signed) + (PrintD(depth) + [SP]) + (PrintD(w) + [SP]) + (PrintD(h) + [LF])
  }

  /** One row as the row packers write it: a byte a sample up to depth 8, else two, high byte first in a
      big-endian file. The program prints little-endian files only and reads both. */
  function Packed(big: bool, depth: nat, row: seq<int32>): (s: seq<byte>)
    ensures |s| == if depth > 8 then 2 * |row| else |row|
  {
    if depth > 8 then
      var g := if big then PackKernels.Be16Groups(row, 0) else PackKernels.Le16Groups(row);
      FlattenLength(g, 2);
      Flatten(g)
    else
      FlattenLength(PackKernels.U8Groups(row, 0), 1);
      Flatten(PackKernels.U8Groups(row, 0))
  }

  function PackedRows(big: bool, depth: nat, rows: seq<seq<int32>>): (g: seq<seq<byte>>)
    ensures |g| == |rows|
  {
    seq(|rows|, y requires 0 <= y < |rows| => Packed(big, depth, rows[y]))
  }

  function PrintPgx(big: bool, signed: bool, depth: byte, w: uint32, h: uint32, rows: seq<seq<int32>>): seq<byte> {
    HeaderText(big, signed, depth, w, h) + Flatten(PackedRows(big, depth, rows))
  }

  // ---------------------------------------------------------------------------
  // The header comes back
  // ---------------------------------------------------------------------------

  /** The first character of a printed number is not blank; it is a digit exactly below 2^31. */
  lemma PrintedStart(s: seq<byte>, i: nat, u: uint32)
    requires Stands(s, i, PrintD(u))
    ensures i < |s| && !IsBlank(s[i]) && (IsDigit(s[i]) <==> u < 0x8000_0000)
    ensures SkipTo(s, i, Content) == i
  {
    StandsAt(s, i, PrintD(u), 0);
  }

  lemma Layout(s: seq<byte>, a: seq<byte>, b: seq<byte>, c: seq<byte>, d: seq<byte>, rest: seq<byte>)
    requires s == a + b + c + d + rest
    ensures Stands(s, 0, a) && Stands(s, |a|, b) && Stands(s, |a| + |b|, c) && Stands(s, |a| + |b| + |c|, d)
    ensures |a| + |b| + |c| + |d| + |rest| == |s| && s[|a| + |b| + |c| + |d|..] == rest
  {
  }

  lemma PartBytes(s: seq<byte>, big: bool, signed: bool)
    requires Stands(s, 0, SignPart(big, signed))
    ensures |s| >= 8 && s[0] == 'P' as int && s[1] == 'G' as int && s[2] == SP && s[5] == SP && s[7] == SP
    ensures s[3] == (if big then 'M' as int else 'L' as int) && s[4] == (if big then 'L' as int else 'M' as int)
    ensures s[6] == if signed then MINUS else PLUS
  {
    var a := SignPart(big, signed);
    forall k: nat | k < 8
      ensures s[k] == a[k]
    {
      StandsAt(s, 0, a, k);
    }
  }

  lemma PrefixBack(s: seq<byte>, big: bool, signed: bool)
    requires Stands(s, 0, SignPart(big, signed)) && |s| > 8 && IsDigit(s[8])
    ensures ParseHeader(s) == Some(ParseNumbers(s, 8, big, signed))
  {
    PartBytes(s, big, signed);
    SkipToIs(s, 2, Order, 3);
    SkipToIs(s, 5, SignOrDigit, 6);
    SkipToIs(s, 7, Digit, 8);
  }

  /** Reading at i gives the number u below 2^31, and nothing above; e is where its text ends, at a
      single blank. */
  predicate Field(s: seq<byte>, i: nat, u: uint32, e: nat) {
    && i <= e < |s| && SkipTo(s, i, Content) == i
    && ReadDigits(s, i, 0) == (if u < 0x8000_0000 then Number(u, e) else Number(0, i))
    && SkipTo(s, e, Content) == SkipTo(s, e + 1, Content)
  }

  lemma PrintedBack(s: seq<byte>, i: nat, u: uint32, blank: byte)
    requires Stands(s, i, PrintD(u) + [blank]) && IsBlank(blank)
    ensures Field(s, i, u, i + |PrintD(u)|)
  {
    StandsSplit(s, i, PrintD(u), [blank]);
    StandsAt(s, i + |PrintD(u)|, [blank], 0);
    PrintedStart(s, i, u);
    if u < 0x8000_0000 {
      NumberBack(s, i, u);
    }
  }

  /** A printed header at the start of s, its last two numbers at i and j, its end at n. */
  predicate LaidOut(s: seq<byte>, big: bool, signed: bool, depth: byte, w: uint32, h: uint32, i: nat, j: nat, n: nat) {
    && i == 8 + |PrintD(depth)| + 1 && j == i + |PrintD(w)| + 1 && n == j + |PrintD(h)| + 1
    && Stands(s, 0, SignPart(big, signed)) && Stands(s, 8, PrintD(depth) + [SP])
    && Stands(s, i, PrintD(w) + [SP]) && Stands(s, j, PrintD(h) + [LF])
  }

  /** What the reader makes of a printed header that ends at n. */
  predicate ReadsAs(c: Header, s: seq<byte>, big: bool, signed: bool, depth: byte, w: uint32, h: uint32, n: nat) {
    && n <= |s|
    && (w < 0x8000_0000 && h < 0x8000_0000 ==> c == Header(big, signed, depth, w, h, SkipTo(s, n, Content)))
    && (w >= 0x8000_0000 ==> c.width == 0)
    && (w < 0x8000_0000 <= h ==> c.height == 0)
  }

  lemma FieldsRead(s: seq<byte>, big: bool, signed: bool, depth: byte, w: uint32, h: uint32, i: nat, j: nat, n: nat)
    requires 8 < i < j < n && Field(s, 8, depth, i - 1) && Field(s, i, w, j - 1) && Field(s, j, h, n - 1)
    ensures ReadsAs(ParseNumbers(s, 8, big, signed), s, big, signed, depth, w, h, n)
  {
  }

  lemma NumbersBack(s: seq<byte>, big: bool, signed: bool, depth: byte, w: uint32, h: uint32, i: nat, j: nat, n: nat)
    requires LaidOut(s, big, signed, depth, w, h, i, j, n)
    ensures ReadsAs(ParseNumbers(s, 8, big, signed), s, big, signed, depth, w, h, n)
  {
    PrintedBack(s, 8, depth, SP);
    PrintedBack(s, i, w, SP);
    PrintedBack(s, j, h, LF);
    FieldsRead(s, big, signed, depth, w, h, i, j, n);
  }

  lemma FirstDigit(s: seq<byte>, depth: byte)
    requires Stands(s, 8, PrintD(depth) + [SP])
    ensures |s| > 8 && IsDigit(s[8])
  {
    StandsSplit(s, 8, PrintD(depth), [SP]);
    PrintedStart(s, 8, depth);
  }

  lemma HeaderLaidOut(big: bool, signed: bool, depth: byte, w: uint32, h: uint32, payload: seq<byte>)
    returns (i: nat, j: nat)
    ensures LaidOut(HeaderText(big, signed, depth, w, h) + payload, big, signed, depth, w, h, i, j,
                    |HeaderText(big, signed, depth, w, h)|)
  {
    var a, b, c, d := SignPart(big, signed), PrintD(depth) + [SP], PrintD(w) + [SP], PrintD(h) + [LF];
    var head := HeaderText(big, signed, depth, w, h);
    assert head == a + b + c + d;
    Layout(head + payload, a, b, c, d, payload);
    i, j := |a| + |b|, |a| + |b| + |c|;
  }

  /** What the reader makes of a printed header. */
  lemma HeaderBack(big: bool, signed: bool, depth: byte, w: uint32, h: uint32, s: seq<byte>, payload: seq<byte>)
    requires s == HeaderText(big, signed, depth, w, h) + payload
    ensures ParseHeader(s).Some?
    ensures ReadsAs(ParseHeader(s).value, s, big, signed, depth, w, h, |HeaderText(big, signed, depth, w, h)|)
  {
    var i, j := HeaderLaidOut(big, signed, depth, w, h, payload);
    ReadBack(s, big, signed, depth, w, h, i, j, |HeaderText(big, signed, depth, w, h)|);
  }

  lemma ReadBack(s: seq<byte>, big: bool, signed: bool, depth: byte, w: uint32, h: uint32, i: nat, j: nat, n: nat)
    requires LaidOut(s, big, signed, depth, w, h, i, j, n)
    ensures ParseHeader(s).Some? && ReadsAs(ParseHeader(s).value, s, big, signed, depth, w, h, n)
  {
    FirstDigit(s, depth);
    PrefixBack(s, big, signed);
    NumbersBack(s, big, signed, depth, w, h, i, j, n);
  }

  /** The payload start moves exactly when the payload begins with a blank. */
  lemma PayloadStart(head: seq<byte>, payload: seq<byte>)
    ensures SkipTo(head + payload, |head|, Content) == |head| <==> payload == [] || !IsBlank(payload[0])
  {
    var s := head + payload;
    assert |head| < |s| ==> s[|head|] == payload[0];
  }

  /** The printed header comes back as it is, and the payload starts right after it, exactly when both
      sizes are below 2^31 (larger ones print as negative numbers) and the payload does not begin with
      a blank (the reader skips every blank it meets). */
  lemma HeaderExact(big: bool, signed: bool, depth: byte, w: uint32, h: uint32, payload: seq<byte>)
    ensures ParseHeader(HeaderText(big, signed, depth, w, h) + payload) ==
        Some(Header(big, signed, depth, w, h, |HeaderText(big, signed, depth, w, h)|))
      <==> w < 0x8000_0000 && h < 0x8000_0000 && (payload == [] || !IsBlank(payload[0]))
  {
    HeaderBack(big, signed, depth, w, h, HeaderText(big, signed, depth, w, h) + payload, payload);
    PayloadStart(HeaderText(big, signed, depth, w, h), payload);
  }

  // ---------------------------------------------------------------------------
  // The rows come back
  // ---------------------------------------------------------------------------

  /** A sample of a component of this depth and sign. */
  predicate InRange(v: int32, signed: bool, depth: nat)
    requires 1 <= depth
  {
    if signed then 0 - Pow2(depth - 1) <= v < Pow2(depth - 1) else 0 <= v < Pow2(depth)
  }

  /** An image component: h rows of w samples, all in range. */
  predicate Component(signed: bool, depth: nat, w: nat, h: nat, rows: seq<seq<int32>>)
    requires 1 <= depth
  {
    && |rows| == h
    && (forall y :: 0 <= y < h ==> |rows[y]| == w)
    && (forall y, x :: 0 <= y < h && 0 <= x < w ==> InRange(rows[y][x], signed, depth))
  }

  lemma Byte8Back(v: int32, signed: bool, depth: nat)
    requires 1 <= depth <= 8 && InRange(v, signed, depth)
    ensures Sample8(LowByte(v), signed) == v
  {
    Pow2Monotone(depth, 8);
    Pow2Monotone(depth - 1, 7);
    Pow2Values();
    assert Pow2(8) == 2 * Pow2(7);
  }

  lemma WordBack(v: int32, signed: bool)
    requires if signed then -0x8000 <= v < 0x8000 else 0 <= v < 0x1_0000
    ensures Sample16(LowByte(v), HighByte(v), false, signed) == v
    ensures Sample16(HighByte(v), LowByte(v), true, signed) == v
  {
    PackKernels.LowBitsOf(v);
    assert v % 0x1_0000 == if v < 0 then v as int + 0x1_0000 else v;
  }

  lemma Word16Back(v: int32, signed: bool, depth: nat)
    requires 1 <= depth <= 16 && InRange(v, signed, depth)
    ensures Sample16(LowByte(v), HighByte(v), false, signed) == v
    ensures Sample16(HighByte(v), LowByte(v), true, signed) == v
  {
    Pow2Monotone(depth, 16);
    Pow2Monotone(depth - 1, 15);
    Pow2Values();
    WordBack(v, signed);
  }

  lemma GroupEnds(count: nat, w: nat, x: nat)
    requires x < count
    ensures w * x + w <= w * count
  {
    MulMonotone(x + 1, count, w);
    assert (x + 1) * w == w * x + w && count * w == w * count;
  }

  lemma FlattenSlice(groups: seq<seq<byte>>, w: nat, x: nat, at: nat)
    requires Uniform(groups, w) && x < |groups| && at == w * x
    ensures at + w <= |Flatten(groups)| && Flatten(groups)[at..at + w] == groups[x]
  {
    FlattenLength(groups, w);
    GroupEnds(|groups|, w, x);
    forall k: nat | k < w
      ensures Flatten(groups)[at + k] == groups[x][k]
    {
      FlattenAt(groups, w, x, k);
    }
    SliceIs(Flatten(groups), at, groups[x]);
  }

  lemma WideSample(big: bool, row: seq<int32>, x: nat)
    requires x < |row|
    ensures |Packed(big, 16, row)| == 2 * |row|
    ensures big ==>
      Packed(big, 16, row)[2 * x] == HighByte(row[x]) && Packed(big, 16, row)[2 * x + 1] == LowByte(row[x])
    ensures !big ==>
      Packed(big, 16, row)[2 * x] == LowByte(row[x]) && Packed(big, 16, row)[2 * x + 1] == HighByte(row[x])
  {
    var g := if big then PackKernels.Be16Groups(row, 0) else PackKernels.Le16Groups(row);
    FlattenAt(g, 2, x, 0);
    FlattenAt(g, 2, x, 1);
  }

  lemma NarrowSample(big: bool, row: seq<int32>, x: nat)
    requires x < |row|
    ensures |Packed(big, 8, row)| == |row| && Packed(big, 8, row)[x] == LowByte(row[x])
  {
    FlattenAt(PackKernels.U8Groups(row, 0), 1, x, 0);
  }

  lemma SampleBack(c: Header, row: seq<int32>, x: nat)
    requires 1 <= c.bitdepth <= 16 && |row| == c.width && x < |row| && InRange(row[x], c.signed, c.bitdepth)
    ensures |Packed(c.big, c.bitdepth, row)| == c.RawSize() && SampleAt(c, Packed(c.big, c.bitdepth, row), x) == row[x]
  {
    if c.bitdepth > 8 {
      assert Packed(c.big, c.bitdepth, row) == Packed(c.big, 16, row);
      WideSample(c.big, row, x);
      Word16Back(row[x], c.signed, c.bitdepth);
    } else {
      assert Packed(c.big, c.bitdepth, row) == Packed(c.big, 8, row);
      NarrowSample(c.big, row, x);
      Byte8Back(row[x], c.signed, c.bitdepth);
    }
  }

  /** Decoding a packed row gives the row. */
  lemma {:induction false} RowBack(c: Header, row: seq<int32>, n: nat)
    requires 1 <= c.bitdepth <= 16 && |row| == c.width && n <= |row|
    requires forall x :: 0 <= x < |row| ==> InRange(row[x], c.signed, c.bitdepth)
    ensures |Packed(c.big, c.bitdepth, row)| == c.RawSize()
    ensures DecodeRow(c, Packed(c.big, c.bitdepth, row), n) == row[..n]
  {
    if n > 0 {
      RowBack(c, row, n - 1);
      SampleBack(c, row, n - 1);
      assert row[..n] == row[..n - 1] + [row[n - 1]];
    }
  }

  lemma FreadAfter(head: seq<byte>, body: seq<byte>, at: nat, n: nat)
    requires at + n <= |body|
    ensures Fread(head + body, |head| + at, n) == Some(body[at..at + n])
  {
    assert (head + body)[|head| + at..|head| + at + n] == body[at..at + n];
  }

  lemma Commute(a: int, b: int)
    ensures a * b == b * a
  {
  }

  lemma GroupFound(head: seq<byte>, g: seq<seq<byte>>, n: nat, y: nat, at: nat)
    requires y < |g| && Uniform(g, n) && at == n * y
    ensures Fread(head + Flatten(g), |head| + at, n) == Some(g[y])
  {
    FlattenSlice(g, n, y, at);
    FreadAfter(head, Flatten(g), at, n);
  }

  lemma Offset(y: nat, n: nat) returns (at: nat)
    ensures at == y * n && at == n * y
  {
    at := y * n;
    Commute(y, n);
  }

  /** Group y of equal-sized groups behind a header. */
  lemma GroupAt(start: nat, head: seq<byte>, g: seq<seq<byte>>, n: nat, y: nat) returns (at: nat)
    requires start == |head| && y < |g| && Uniform(g, n)
    ensures at == y * n && Fread(head + Flatten(g), start + at, n) == Some(g[y])
  {
    at := Offset(y, n);
    GroupFound(head, g, n, y, at);
  }

  lemma RowIs(s: seq<byte>, c: Header, y: nat, n: nat, at: nat)
    requires n == c.RawSize() == c.RowBytes() && at == y * n
    ensures RowAt(s, c, y) == Fread(s, c.dataStart + at, n)
  {
  }

  /** The row at the reader's offset. */
  lemma RowFound(c: Header, head: seq<byte>, g: seq<seq<byte>>, y: nat)
    requires |head| == c.dataStart && c.width < 0x8000_0000 && y < |g| && Uniform(g, c.RawSize())
    ensures RowAt(head + Flatten(g), c, y) == Some(g[y])
  {
    NoWrap(c);
    var at := GroupAt(c.dataStart, head, g, c.RawSize(), y);
    RowIs(head + Flatten(g), c, y, c.RawSize(), at);
  }

  lemma NoWrap(c: Header)
    requires c.width < 0x8000_0000
    ensures c.RowBytes() == c.RawSize()
  {
  }

  lemma PackedUniform(c: Header, rows: seq<seq<int32>>)
    requires forall y :: 0 <= y < |rows| ==> |rows[y]| == c.width
    ensures Uniform(PackedRows(c.big, c.bitdepth, rows), c.RawSize())
  {
  }

  /** The header the reader should find. */
  function Printed(big: bool, signed: bool, depth: byte, w: uint32, h: uint32): Header {
    Header(big, signed, depth, w, h, |HeaderText(big, signed, depth, w, h)|)
  }

  /** Row y reads back from the payload. */
  lemma RowReadsBack(c: Header, head: seq<byte>, rows: seq<seq<int32>>, y: nat)
    requires |head| == c.dataStart && 1 <= c.bitdepth <= 16 && c.width < 0x8000_0000 && y < |rows|
    requires Component(c.signed, c.bitdepth, c.width, |rows|, rows)
    ensures RowReads(head + Flatten(PackedRows(c.big, c.bitdepth, rows)), c, y, rows[y])
  {
    PackedUniform(c, rows);
    RowFound(c, head, PackedRows(c.big, c.bitdepth, rows), y);
    RowBack(c, rows[y], c.width);
  }

  /** Printing and reading back: the header, and then every sample of every row, whatever the order of
      the calls. */
  lemma RowsBack(big: bool, signed: bool, depth: byte, w: uint32, h: uint32, rows: seq<seq<int32>>, y: nat)
    requires 1 <= depth <= 16 && w < 0x8000_0000 && h < 0x8000_0000 && Component(signed, depth, w, h, rows)
    requires w > 0 && h > 0 ==> !IsBlank(FirstOf(big, depth, rows[0][0]))
    ensures ParseHeader(PrintPgx(big, signed, depth, w, h, rows)) == Some(Printed(big, signed, depth, w, h))
    ensures y < h ==> RowReads(PrintPgx(big, signed, depth, w, h, rows), Printed(big, signed, depth, w, h), y, rows[y])
  {
    FirstByte(big, depth, w, rows);
    HeaderExact(big, signed, depth, w, h, Flatten(PackedRows(big, depth, rows)));
    if y < h {
      RowReadsBack(Printed(big, signed, depth, w, h), HeaderText(big, signed, depth, w, h), rows, y);
    }
  }

  /** The byte of a sample that is written first. */
  function FirstOf(big: bool, depth: nat, v: int32): byte {
    if big && depth > 8 then HighByte(v) else LowByte(v)
  }

  lemma FirstOfRow(big: bool, depth: nat, row: seq<int32>)
    requires |row| > 0
    ensures |Packed(big, depth, row)| > 0 && Packed(big, depth, row)[0] == FirstOf(big, depth, row[0])
  {
    if depth > 8 {
      WideSample(big, row, 0);
      assert Packed(big, depth, row) == Packed(big, 16, row);
    } else {
      NarrowSample(big, row, 0);
      assert Packed(big, depth, row) == Packed(big, 8, row);
    }
  }

  /** The payload begins with it. */
  lemma FirstByte(big: bool, depth: nat, w: nat, rows: seq<seq<int32>>)
    requires forall y :: 0 <= y < |rows| ==> |rows[y]| == w
    ensures w == 0 || |rows| == 0 ==> Flatten(PackedRows(big, depth, rows)) == []
    ensures w > 0 && |rows| > 0 ==>
      && |Flatten(PackedRows(big, depth, rows))| > 0
      && Flatten(PackedRows(big, depth, rows))[0] == FirstOf(big, depth, rows[0][0])
  {
    var g, n := PackedRows(big, depth, rows), w * (if depth > 8 then 2 else 1);
    FlattenLength(g, n);
    if w > 0 && |rows| > 0 {
      FlattenAt(g, n, 0, 0);
      FirstOfRow(big, depth, rows[0]);
    }
  }

  /** When the first byte of the first sample is blank the payload is taken to start too late, and asking for
      the last row runs past the end of the file. */
  lemma BlankFirstSample(big: bool, signed: bool, depth: byte, w: uint32, h: uint32, rows: seq<seq<int32>>)
    returns (c: Header)
    requires 1 <= depth <= 16 && 0 < w < 0x8000_0000 && 0 < h < 0x8000_0000 && Component(signed, depth, w, h, rows)
    requires IsBlank(FirstOf(big, depth, rows[0][0]))
    ensures ParseHeader(PrintPgx(big, signed, depth, w, h, rows)) == Some(c)
    ensures RowAt(PrintPgx(big, signed, depth, w, h, rows), c, h - 1) == None
  {
    FirstByte(big, depth, w, rows);
    c := BlankHeader(big, signed, depth, w, h, Flatten(PackedRows(big, depth, rows)));
    LastRowPast(c, HeaderText(big, signed, depth, w, h), rows);
  }

  lemma LastRowPast(c: Header, head: seq<byte>, rows: seq<seq<int32>>)
    requires c.dataStart > |head| && 0 < c.width < 0x8000_0000 && |rows| > 0
    requires forall y :: 0 <= y < |rows| ==> |rows[y]| == c.width
    ensures RowAt(head + Flatten(PackedRows(c.big, c.bitdepth, rows)), c, |rows| - 1) == None
  {
    PackedUniform(c, rows);
    PastTheEnd(c, head, PackedRows(c.big, c.bitdepth, rows));
  }

  lemma BlankHeader(big: bool, signed: bool, depth: byte, w: uint32, h: uint32, payload: seq<byte>) returns (c: Header)
    requires w < 0x8000_0000 && h < 0x8000_0000 && payload != [] && IsBlank(payload[0])
    ensures ParseHeader(HeaderText(big, signed, depth, w, h) + payload) == Some(c)
    ensures c.dataStart > |HeaderText(big, signed, depth, w, h)| && c.big == big && c.bitdepth == depth && c.width == w
  {
    var head := HeaderText(big, signed, depth, w, h);
    HeaderBack(big, signed, depth, w, h, head + payload, payload);
    PayloadStart(head, payload);
    c := ParseHeader(head + payload).value;
  }

  lemma PastTheEnd(c: Header, head: seq<byte>, g: seq<seq<byte>>)
    requires c.dataStart > |head| && 0 < c.width < 0x8000_0000 && |g| > 0 && Uniform(g, c.RawSize())
    ensures RowAt(head + Flatten(g), c, |g| - 1) == None
  {
    NoWrap(c);
    FlattenLength(g, c.RawSize());
    var n := c.RawSize();
    assert n * |g| == (|g| - 1) * n + n;
  }

  lemma Exact16(v: int32, signed: bool, depth: nat)
    requires 1 <= depth <= 16 && InRange(v, signed, depth)
    ensures PackKernels.PackExact(v) <==> v <= 0x7FFF
  {
    Pow2Monotone(depth, 16);
    Pow2Monotone(depth - 1, 15);
    Pow2Values();
  }

  /** With the AVX2 packer the two-byte payload is the same exactly when no sample of a full 16-sample
      block exceeds 32767. */
  lemma AvxPayload(signed: bool, depth: nat, row: seq<int32>)
    requires 1 <= depth <= 16 && forall x :: 0 <= x < |row| ==> InRange(row[x], signed, depth)
    ensures Flatten(PackKernels.Le16AvxGroups(row)) == Flatten(PackKernels.Le16Groups(row)) <==>
      forall n :: 0 <= n < PackKernels.Blocked(|row|) ==> row[n] <= 0x7FFF
  {
    PackKernels.Le16Agree(row);
    forall n | 0 <= n < PackKernels.Blocked(|row|)
      ensures PackKernels.PackExact(row[n]) <==> row[n] <= 0x7FFF
    {
      Exact16(row[n], signed, depth);
    }
  }

  // ---------------------------------------------------------------------------
  // Subsampled components come back through the reader
  // ---------------------------------------------------------------------------

  /** One component to be printed: its rows, and how its file is written. */
  datatype Plane = Plane(big: bool, signed: bool, depth: byte, w: uint32, h: uint32, rows: seq<seq<int32>>) {
    predicate Valid() {
      && 1 <= depth <= 16 && 0 < w < 0x8000_0000 && 0 < h < 0x8000_0000 && Component(signed, depth, w, h, rows)
      && !IsBlank(FirstOf(big, depth, rows[0][0]))
    }

    function File(): seq<byte> {
      PrintPgx(big, signed, depth, w, h, rows)
    }

    function Head(): Header {
      Printed(big, signed, depth, w, h)
    }
  }

  /** The plane is subsampled vertically by f, which fits the reader's byte, and horizontally by a whole
      number. */
  predicate SubsampledBy(whole: Plane, part: Plane, f: nat) {
    part.Valid() && 1 <= f <= 0xFF && whole.h == f * part.h && whole.w % part.w == 0
  }

  predicate Subsampled(planes: seq<Plane>, factors: seq<nat>) {
    |planes| == |factors| && forall i :: 0 <= i < |planes| ==> SubsampledBy(planes[0], planes[i], factors[i])
  }

  /** The reader has these components open. */
  ghost predicate Holds(reader: PgxStreamReader, planes: seq<Plane>, factors: seq<nat>)
    reads reader
  {
    && |reader.files| == |reader.comps| == |reader.yr| == |planes| == |factors|
    && forall i :: 0 <= i < |planes| ==>
         && reader.files[i].data == planes[i].File() && reader.comps[i] == planes[i].Head()
         && reader.yr[i] == factors[i]
  }

  /** Luma row y belongs to a row of the component. */
  lemma RowExists(y: nat, f: nat, h: nat, total: nat) returns (q: nat)
    requires f >= 1 && y < total && total == f * h
    ensures q == y / f && q < h
  {
    q := QuotientIs(y, f);
    if q >= h {
      MulMonotone(h, q, f);
      Commute(h, f);
    }
  }

  /** A plane's file, read back. */
  lemma PlaneBack(p: Plane, q: nat)
    requires p.Valid()
    ensures ParseHeader(p.File()) == Some(p.Head()) && |p.rows| == p.h
    ensures p.Head().width == p.w && p.Head().height == p.h
    ensures q < p.h ==> RowReads(p.File(), p.Head(), q, p.rows[q])
  {
    RowsBack(p.big, p.signed, p.depth, p.w, p.h, p.rows, q);
  }

  /** What is read is one row only. */
  lemma OneRow(s: seq<byte>, c: Header, y: nat, row: seq<int32>, other: seq<int32>)
    requires RowReads(s, c, y, row)
    ensures RowAt(s, c, y).Some? && (RowReads(s, c, y, other) ==> other == row)
  {
  }

  /** Luma row y and factor f belong to row y / f. */
  predicate RowOf(p: Plane, f: nat, y: nat, row: seq<int32>) {
    f >= 1 && y / f < |p.rows| && row == p.rows[y / f]
  }

  lemma PlaneRow(whole: Plane, p: Plane, f: nat, y: nat, row: seq<int32>) returns (q: nat)
    requires SubsampledBy(whole, p, f) && y < whole.h
    ensures q == y / f && RowAt(p.File(), p.Head(), q).Some?
    ensures RowReads(p.File(), p.Head(), q, row) ==> RowOf(p, f, y, row)
  {
    q := QuotientRow(whole, p, f, y);
    PlaneBack(p, q);
    OneRow(p.File(), p.Head(), q, p.rows[q], row);
  }

  lemma QuotientRow(whole: Plane, p: Plane, f: nat, y: nat) returns (q: nat)
    requires SubsampledBy(whole, p, f) && y < whole.h
    ensures f >= 1 && q == y / f && q < p.h == |p.rows|
  {
    q := RowExists(y, f, p.h, whole.h);
  }

  /** What the reader finds, in terms of the file, its header and the factor. */
  lemma ReaderRow(reader: PgxStreamReader, s: seq<byte>, c: Header, f: byte, i: nat, y: nat, row: seq<int32>)
    requires i < |reader.files| == |reader.comps| == |reader.yr|
    requires reader.files[i].data == s && reader.comps[i] == c && reader.yr[i] == f >= 1
    ensures reader.HasRow(i, y) <==> RowAt(s, c, y / f).Some?
    ensures reader.IsRow(i, y, row) <==> RowReads(s, c, y / f, row)
  {
  }

  /** With subsampled components open, every luma row finds its row in each file, whatever was asked for
      before. */
  lemma PlaneRowBack(reader: PgxStreamReader, planes: seq<Plane>, factors: seq<nat>, y: nat, i: nat, row: seq<int32>)
    requires Subsampled(planes, factors) && Holds(reader, planes, factors) && i < |planes| && y < planes[0].h
    ensures reader.HasRow(i, y)
    ensures reader.IsRow(i, y, row) ==> RowOf(planes[i], factors[i], y, row)
  {
    var p, f := planes[i], factors[i];
    assert SubsampledBy(planes[0], p, f);
    var q := PlaneRow(planes[0], p, f, y, row);
    ReaderRow(reader, p.File(), p.Head(), f, i, y, row);
  }

  /** The factor the reader derives from the sizes. */
  lemma FactorBack(whole: Plane, part: Plane, f: nat)
    requires SubsampledBy(whole, part, f)
    ensures whole.h % part.h == 0 && Ratio(whole.h, part.h) == f
  {
    RatioExact(f, part.h);
    ModUnique(f * part.h, part.h, f, 0);
  }

  /** The contents are the files of these planes. */
  predicate AreFiles(contents: seq<Option<seq<byte>>>, planes: seq<Plane>) {
    |contents| == |planes| && forall i :: 0 <= i < |planes| ==> contents[i] == Some(planes[i].File())
  }

  /** Printed files of subsampled components are opened as what they are. */
  lemma PlanesOpen(planes: seq<Plane>, factors: seq<nat>, contents: seq<Option<seq<byte>>>)
    requires Subsampled(planes, factors) && AreFiles(contents, planes)
    ensures forall i :: 0 <= i < |planes| ==> Readable(contents[i]) && HeaderIn(contents[i]) == planes[i].Head()
    ensures forall i :: 0 <= i < |planes| ==> Sized(planes[i].Head()) && Submultiple(planes[0].Head(), planes[i].Head())
    ensures forall i :: 0 <= i < |planes| ==> Ratio(planes[0].Head().height, planes[i].Head().height) == factors[i]
  {
    forall i | 0 <= i < |planes|
      ensures Readable(contents[i]) && HeaderIn(contents[i]) == planes[i].Head() && Sized(planes[i].Head())
      ensures Submultiple(planes[0].Head(), planes[i].Head())
      ensures Ratio(planes[0].Head().height, planes[i].Head().height) == factors[i]
    {
      PlaneBack(planes[i], 0);
      FactorBack(planes[0], planes[i], factors[i]);
    }
  }

  /** Opening the printed files of subsampled components succeeds. */
  method OpenPlanes(contents: seq<Option<seq<byte>>>, ghost planes: seq<Plane>, ghost factors: seq<nat>)
    returns (reader: PgxStreamReader, ok: bool)
    requires Subsampled(planes, factors) && AreFiles(contents, planes)
    ensures fresh(reader) && reader.Valid() && forall f :: f in reader.files ==> fresh(f)
    ensures ok && Holds(reader, planes, factors)
  {
    PlanesOpen(planes, factors, contents);
    reader := new PgxStreamReader();
    ok := reader.Open(contents);
    assert forall i :: 0 <= i < |planes| ==> reader.files[i].data == contents[i].value;
    if planes != [] {
      assert SubsampledBy(planes[0], planes[0], factors[0]);
      SelfFactor(planes[0], factors[0]);
    }
  }

  lemma SelfFactor(p: Plane, f: nat)
    requires SubsampledBy(p, p, f)
    ensures f == 1
  {
    ModUnique(f * p.h, p.h, f, 0);
    ModUnique(p.h, p.h, 1, 0);
  }

  lemma RowsThere(reader: PgxStreamReader, planes: seq<Plane>, factors: seq<nat>, y: nat)
    requires Subsampled(planes, factors) && Holds(reader, planes, factors) && planes != [] && y < planes[0].h
    ensures forall i :: 0 <= i < |planes| ==> reader.HasRow(i, y)
    ensures forall i :: 0 <= i < |planes| ==> reader.yr[i] != 0 && reader.comps[i].width == planes[i].w
  {
    forall i: nat | i < |planes|
      ensures reader.HasRow(i, y) && reader.yr[i] != 0 && reader.comps[i].width == planes[i].w
    {
      PlaneRowBack(reader, planes, factors, y, i, []);
      assert SubsampledBy(planes[0], planes[i], factors[i]);
    }
  }

  /** There is room for the rows of the components asked for. */
  predicate Room(rows: seq<array<int32>>, planes: seq<Plane>) {
    forall i :: 0 <= i < |rows| && i < |planes| ==> planes[i].w <= rows[i].Length
  }

  /** Asking for a row of the image, as often as one likes: the reader succeeds, leaves row y / f of each
      component in the caller's rows, and still has the components open. */
  method GetPlanes(reader: PgxStreamReader, y: nat, rows: seq<array<int32>>, ghost planes: seq<Plane>,
                   ghost factors: seq<nat>)
    returns (ok: bool)
    requires reader.Valid() && Subsampled(planes, factors) && Holds(reader, planes, factors)
    requires planes != [] && y < planes[0].h && Room(rows, planes)
    requires forall i, j :: 0 <= i < j < |rows| ==> rows[i] != rows[j]
    modifies reader.files, rows
    ensures ok && Holds(reader, planes, factors)
    ensures forall i :: 0 <= i < |rows| && i < |planes| ==> RowOf(planes[i], factors[i], y, rows[i][..planes[i].w])
  {
    RowsThere(reader, planes, factors, y);
    ok := reader.GetRow(y, rows);
    forall i: nat | i < |rows| && i < |planes|
      ensures RowOf(planes[i], factors[i], y, rows[i][..planes[i].w])
    {
      assert reader.IsRow(i, y, rows[i][..reader.comps[i].width]);
      PlaneRowBack(reader, planes, factors, y, i, rows[i][..planes[i].w]);
    }
  }
}
