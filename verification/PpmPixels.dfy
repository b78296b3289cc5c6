/** The bytes of the PPM payloads of `PpmChroma`, pixel by pixel: which sample of which component stands
    where, in which byte order. */
module PpmPixels {
  import opened ByteRows
  import opened MachineInts
  import opened PpmChroma
  import RowSchedule
  import YCbCr

  /** The low bits of v stand at index at, in one byte or two, the high byte first. */
  predicate SampleShown(bytes: seq<byte>, at: nat, bpp: nat, v: int) {
    && at + bpp <= |bytes|
    && (bpp == 1 ==> bytes[at] as int == v % 0x100)
    && (bpp == 2 ==> 0x100 * bytes[at] as int + bytes[at + 1] as int == v % 0x1_0000)
  }

  /** Red, green and blue, in this order. */
  predicate RgbShown(bytes: seq<byte>, at: nat, bpp: nat, r: int, g: int, b: int) {
    SampleShown(bytes, at, bpp, r) && SampleShown(bytes, at + bpp, bpp, g) && SampleShown(bytes, at + 2 * bpp, bpp, b)
  }

  lemma SampleStands(bytes: seq<byte>, at: nat, bpp: nat, v: int)
    requires 1 <= bpp <= 2 && at + bpp <= |bytes| && bytes[at..at + bpp] == Sample(bpp, v)
    ensures SampleShown(bytes, at, bpp, v)
  {
    assert bytes[at] == Sample(bpp, v)[0];
    if bpp == 2 {
      assert bytes[at + 1] == Sample(bpp, v)[1];
    }
  }

  lemma SliceOfSlice(all: seq<byte>, part: seq<byte>, at: nat, i: nat, u: nat)
    requires at + |part| <= |all| && all[at..at + |part|] == part && i + u <= |part|
    ensures all[at + i..at + i + u] == part[i..i + u]
  {
    var t := part[i..i + u];
    forall k | 0 <= k < u
      ensures all[at + i + k] == t[k]
    {
      assert all[at..at + |part|][i + k] == part[i + k];
    }
    SliceIs(all, at + i, t);
  }

  lemma PixelStands(bytes: seq<byte>, at: nat, bpp: nat, p: Rgb)
    requires 1 <= bpp <= 2 && at + 3 * bpp <= |bytes| && bytes[at..at + 3 * bpp] == Pixel(bpp, p)
    ensures RgbShown(bytes, at, bpp, p.r, p.g, p.b)
  {
    var s := Pixel(bpp, p);
    assert s[0..bpp] == Sample(bpp, p.r) && s[bpp..bpp + bpp] == Sample(bpp, p.g);
    assert s[2 * bpp..2 * bpp + bpp] == Sample(bpp, p.b);
    SliceOfSlice(bytes, s, at, 0, bpp);
    SliceOfSlice(bytes, s, at, bpp, bpp);
    SliceOfSlice(bytes, s, at, 2 * bpp, bpp);
    SampleStands(bytes, at, bpp, p.r);
    SampleStands(bytes, at + bpp, bpp, p.g);
    SampleStands(bytes, at + 2 * bpp, bpp, p.b);
  }

  /** Where group x stands. */
  lemma GroupStands(groups: seq<seq<byte>>, w: nat, x: nat)
    requires Uniform(groups, w) && x < |groups|
    ensures w * x + w <= |Flatten(groups)| && Flatten(groups)[w * x..w * x + w] == groups[x]
  {
    StepFits(groups, w, x);
    FlattenLength(groups[..x], w);
    forall k | 0 <= k < w
      ensures Flatten(groups)[w * x + k] == groups[x][k]
    {
      FlattenAt(groups, w, x, k);
    }
  }

  lemma Offsets(u: nat, w: nat, j: nat, n: nat)
    ensures u * (j * w + n) == u * w * j + u * n
  {
  }

  /** Where group n of row j stands, with w groups of u bytes a row. */
  lemma PixelOfRow(rows: seq<seq<byte>>, g: seq<seq<byte>>, u: nat, w: nat, j: nat, n: nat) returns (at: nat)
    requires Uniform(rows, u * w) && Uniform(g, u) && |g| == w && j < |rows| && n < w && rows[j] == Flatten(g)
    ensures at == u * (j * w + n) && at + u <= |Flatten(rows)| && Flatten(rows)[at..at + u] == g[n]
  {
    var size := u * w;
    GroupStands(rows, size, j);
    GroupStands(g, u, n);
    Offsets(u, w, j, n);
    SliceOfSlice(Flatten(rows), Flatten(g), size * j, u * n, u);
    at := size * j + u * n;
  }

  // ---------------------------------------------------------------------------
  // Pictures of write_ppm
  // ---------------------------------------------------------------------------

  /** v is the sample of the plane at this row and column. */
  predicate IsSample(p: Plane, row: nat, column: nat, v: int32) {
    row < p.h && column < p.w && row * p.w + column < |p.data| && v == p.data[row * p.w + column]
  }

  lemma RowSample(p: Plane, row: nat, column: nat)
    requires p.Valid() && row < p.h && column < p.w
    ensures IsSample(p, row, column, p.Row(row)[column])
  {
    MulMonotone(row + 1, p.h, p.w);
  }

  /** v is the sample of a chroma plane for pixel (j, n) of the luma plane. */
  predicate IsChroma(p: Plane, luma: Plane, j: nat, n: nat, v: int32) {
    luma.h > 0 && luma.w > 0 && IsSample(p, Column(j, p.h, luma.h), Column(n, p.w, luma.w), v)
  }

  lemma ChromaSample(p: Plane, luma: Plane, j: nat, n: nat)
    requires p.Valid() && p.h > 0 && p.w > 0 && j < luma.h && n < luma.w
    ensures Column(j, p.h, luma.h) < p.h && Column(n, p.w, luma.w) < p.w
    ensures IsChroma(p, luma, j, n, p.Row(Column(j, p.h, luma.h))[Column(n, p.w, luma.w)])
  {
    ColumnInRange(j, p.h, luma.h);
    ColumnInRange(n, p.w, luma.w);
    RowSample(p, Column(j, p.h, luma.h), Column(n, p.w, luma.w));
  }

  /** Luma sample (j, n), and the samples of the first and the second chroma plane that go with it. */
  predicate Samples(pic: Picture, j: nat, n: nat, y: int32, cb: int32, cr: int32) {
    IsSample(pic.y, j, n, y) && IsChroma(pic.cb, pic.y, j, n, cb) && IsChroma(pic.cr, pic.y, j, n, cr)
  }

  lemma RowsHold(pic: Picture, j: nat, n: nat) returns (y: int32, cb: int32, cr: int32)
    requires pic.Valid() && j < pic.y.h && n < pic.y.w
    ensures var rows := pic.BatchRows(j); y == rows.y[n] && cb == rows.Cb(n) && cr == rows.Cr(n)
    ensures Samples(pic, j, n, y, cb, cr)
  {
    var rows := pic.BatchRows(j);
    y, cb, cr := rows.y[n], rows.Cb(n), rows.Cr(n);
    RowSample(pic.y, j, n);
    ChromaSample(pic.cb, pic.y, j, n);
    ChromaSample(pic.cr, pic.y, j, n);
  }

  /** The rows of the picture, and the pixels of row j. */
  lemma PictureParts(k: Settings, off: nat, pic: Picture, j: nat, n: nat, u: nat)
    returns (picture: seq<seq<byte>>, row: seq<seq<byte>>, y: int32, cb: int32, cr: int32)
    requires k.Valid() && pic.Valid() && j < pic.y.h && n < pic.y.w && u == 3 * k.bpp
    ensures picture == BatchPicture(k, off, pic) && |picture| == pic.y.h
    ensures Uniform(picture, u * pic.y.w) && Uniform(row, u) && |row| == pic.y.w && picture[j] == Flatten(row)
    ensures row[n] == Pixel(k.bpp, Batched(k, off, y, cb, cr)) && Samples(pic, j, n, y, cb, cr)
  {
    picture, row := BatchPicture(k, off, pic), BatchGroups(k, off, pic.BatchRows(j));
    BatchUniform(k, off, pic);
    y, cb, cr := RowsHold(pic, j, n);
  }

  lemma PixelFound(picture: seq<seq<byte>>, row: seq<seq<byte>>, bpp: nat, w: nat, j: nat, n: nat, p: Rgb)
    returns (at: nat)
    requires 1 <= bpp <= 2 && Uniform(picture, 3 * bpp * w) && Uniform(row, 3 * bpp) && |row| == w
    requires j < |picture| && n < w && picture[j] == Flatten(row) && row[n] == Pixel(bpp, p)
    ensures at == 3 * bpp * (j * w + n) && RgbShown(Flatten(picture), at, bpp, p.r, p.g, p.b)
  {
    at := PixelOfRow(picture, row, 3 * bpp, w, j, n);
    PixelStands(Flatten(picture), at, bpp, p);
  }

  /** Pixel (j, n) of the picture stands where the file format wants it, made from its samples. */
  lemma BatchPixelAt(k: Settings, off: nat, pic: Picture, j: nat, n: nat)
    returns (at: nat, y: int32, cb: int32, cr: int32)
    requires k.Valid() && pic.Valid() && j < pic.y.h && n < pic.y.w
    ensures at == 3 * k.bpp * (j * pic.y.w + n) && Samples(pic, j, n, y, cb, cr)
    ensures var p := Batched(k, off, y, cb, cr); RgbShown(Flatten(BatchPicture(k, off, pic)), at, k.bpp, p.r, p.g, p.b)
  {
    var picture, row;
    picture, row, y, cb, cr := PictureParts(k, off, pic, j, n, 3 * k.bpp);
    at := PixelFound(picture, row, k.bpp, pic.y.w, j, n, Batched(k, off, y, cb, cr));
  }

  /** The value there: without conversion the samples themselves, with the offset of signed luma; with
      conversion the integers near the exact red, green and blue, clamped to the range of the samples. */
  lemma BatchedValue(k: Settings, s: YCbCr.Standard, d: nat, off: nat, y: int32, cb: int32, cr: int32)
    returns (p: Rgb, v: Rgb)
    requires k.ycc ==> YCbCr.Known(s) && YCbCr.TableOf(k.coef, s) && 1 <= d
    requires k.ycc ==> YCbCr.InChroma(cb as int - k.cbCenter, d) && YCbCr.InChroma(cr as int - k.crCenter, d)
    ensures p == Batched(k, off, y, cb, cr)
    ensures k.ycc ==> NearExact(s, y, cb as int - k.cbCenter, cr as int - k.crCenter, v, DepthError(d))
    ensures p == if k.ycc then
                   Rgb(Clamp(v.r, 0 - off, k.maxval - off) + off, Clamp(v.g, 0 - off, k.maxval - off) + off,
                       Clamp(v.b, 0 - off, k.maxval - off) + off)
                 else Rgb(y as int + off, cb as int + off, cr as int + off)
  {
    p := Batched(k, off, y, cb, cr);
    v := Channels(k, y, cb, cr);
    if k.ycc {
      v := ChannelsNear(k, s, d, y, cb, cr);
    }
  }

  // ---------------------------------------------------------------------------
  // Rows and pictures of the streaming decoder
  // ---------------------------------------------------------------------------

  /** Pixel n of a row is made from luma sample n and the chroma samples of its column. */
  lemma StreamRowPixel(k: Settings, rows: Rows, n: nat, i: nat, j: nat)
    requires k.Valid() && rows.Valid() && n < |rows.y|
    requires i == Column(n, |rows.cb|, |rows.y|) && j == Column(n, |rows.cr|, |rows.y|)
    ensures i < |rows.cb| && j < |rows.cr|
    ensures var p := Streamed(k, rows.y[n], rows.cb[i], rows.cr[j]);
      RgbShown(Flatten(StreamGroups(k, rows)), 3 * k.bpp * n, k.bpp, p.r, p.g, p.b)
  {
    ColumnInRange(n, |rows.cb|, |rows.y|);
    ColumnInRange(n, |rows.cr|, |rows.y|);
    GroupStands(StreamGroups(k, rows), 3 * k.bpp, n);
    PixelStands(Flatten(StreamGroups(k, rows)), 3 * k.bpp * n, k.bpp, Streamed(k, rows.y[n], rows.cb[i], rows.cr[j]));
  }

  /** v is the sample of a chroma plane at the row the decoder holds and the column of the pixel. */
  predicate IsHeld(p: Plane, luma: Plane, j: nat, n: nat, step: nat, v: int32) {
    luma.w > 0 && step > 0 && IsSample(p, j / step, Column(n, p.w, luma.w), v)
  }

  lemma HeldSample(p: Plane, luma: Plane, j: nat, n: nat, step: nat)
    requires p.Valid() && p.w > 0 && j < luma.h && n < luma.w && step >= 1 && p.h == RowSchedule.CeilDiv(luma.h, step)
    ensures j / step < p.h && Column(n, p.w, luma.w) < p.w
    ensures IsHeld(p, luma, j, n, step, p.Row(j / step)[Column(n, p.w, luma.w)])
  {
    RowSchedule.HeldIndex(j, luma.h, step);
    ColumnInRange(n, p.w, luma.w);
    RowSample(p, j / step, Column(n, p.w, luma.w));
  }

  lemma StreamParts(k: Settings, pic: Picture, cbStep: nat, crStep: nat, j: nat, n: nat, u: nat)
    returns (picture: seq<seq<byte>>, row: seq<seq<byte>>, y: int32, cb: int32, cr: int32)
    requires k.Valid() && pic.Valid() && pic.Subsampled(cbStep, crStep) && j < pic.y.h && n < pic.y.w && u == 3 * k.bpp
    ensures picture == StreamPicture(k, pic, cbStep, crStep) && |picture| == pic.y.h
    ensures Uniform(picture, u * pic.y.w) && Uniform(row, u) && |row| == pic.y.w && picture[j] == Flatten(row)
    ensures row[n] == Pixel(k.bpp, Streamed(k, y, cb, cr)) && IsSample(pic.y, j, n, y)
    ensures IsHeld(pic.cb, pic.y, j, n, cbStep, cb) && IsHeld(pic.cr, pic.y, j, n, crStep, cr)
  {
    var rows := pic.StreamRows(j, cbStep, crStep);
    picture, row := StreamPicture(k, pic, cbStep, crStep), StreamGroups(k, rows);
    StreamUniform(k, pic, cbStep, crStep);
    y, cb, cr := rows.y[n], rows.Cb(n), rows.Cr(n);
    RowSample(pic.y, j, n);
    HeldSample(pic.cb, pic.y, j, n, cbStep);
    HeldSample(pic.cr, pic.y, j, n, crStep);
  }

  /** Pixel (j, n) of the streamed picture, in the same place, from the chroma rows held at row j. */
  lemma StreamPixelAt(k: Settings, pic: Picture, cbStep: nat, crStep: nat, j: nat, n: nat)
    returns (at: nat, y: int32, cb: int32, cr: int32)
    requires k.Valid() && pic.Valid() && pic.Subsampled(cbStep, crStep) && j < pic.y.h && n < pic.y.w
    ensures at == 3 * k.bpp * (j * pic.y.w + n) && IsSample(pic.y, j, n, y)
    ensures IsHeld(pic.cb, pic.y, j, n, cbStep, cb) && IsHeld(pic.cr, pic.y, j, n, crStep, cr)
    ensures var p := Streamed(k, y, cb, cr);
      RgbShown(Flatten(StreamPicture(k, pic, cbStep, crStep)), at, k.bpp, p.r, p.g, p.b)
  {
    var picture, row;
    picture, row, y, cb, cr := StreamParts(k, pic, cbStep, crStep, j, n, 3 * k.bpp);
    at := PixelFound(picture, row, k.bpp, pic.y.w, j, n, Streamed(k, y, cb, cr));
  }

  /** The value there; the rows of a PPM have no offset. */
  lemma StreamedValue(k: Settings, s: YCbCr.Standard, d: nat, y: int32, cb: int32, cr: int32) returns (p: Rgb, v: Rgb)
    requires k.ycc ==> YCbCr.Known(s) && YCbCr.TableOf(k.coef, s) && 1 <= d
    requires k.ycc ==> YCbCr.InChroma(cb as int - k.cbCenter, d) && YCbCr.InChroma(cr as int - k.crCenter, d)
    ensures p == Streamed(k, y, cb, cr)
    ensures k.ycc ==> NearExact(s, y, cb as int - k.cbCenter, cr as int - k.crCenter, v, DepthError(d))
    ensures p == if k.ycc then Rgb(Clamp(v.r, 0, k.maxval), Clamp(v.g, 0, k.maxval), Clamp(v.b, 0, k.maxval))
                 else Rgb(y, cb, cr)
  {
    p := Streamed(k, y, cb, cr);
    v := Channels(k, y, cb, cr);
    if k.ycc {
      v := ChannelsNear(k, s, d, y, cb, cr);
    }
  }
}
