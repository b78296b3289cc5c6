/** Rows of bytes assembled from equal-sized groups (one group per pixel or sample),
    and the in-place writing of such rows. */
module ByteRows {
  import opened MachineInts

  // ---------------------------------------------------------------------------
  // Samples and pixels as bytes
  // ---------------------------------------------------------------------------

  /** v moved to the nearer end of 0..mv. */
  function ClampTo(v: int32, mv: int32): (r: int32)
    requires 0 <= mv
    ensures 0 <= r <= mv
  {
    if v < 0 then 0 else if v > mv then mv else v
  }

  /** The low 16 bits of x, high byte first. */
  function Be(x: int): (s: seq<byte>)
    ensures |s| == 2
  {
    [HighByte(x), LowByte(x)]
  }

  /** The low 16 bits of x, low byte first, as a little-endian host stores them. */
  function Le(x: int): (s: seq<byte>)
    ensures |s| == 2
  {
    [LowByte(x), HighByte(x)]
  }

  function Pixel8(r: byte, g: byte, b: byte): (s: seq<byte>)
    ensures |s| == 3
  {
    [r, g, b]
  }

  lemma Pixel8Equal(r: byte, g: byte, b: byte, r': byte, g': byte, b': byte)
    ensures Pixel8(r, g, b) == Pixel8(r', g', b') <==> r == r' && g == g' && b == b'
  {
    var p, q := Pixel8(r, g, b), Pixel8(r', g', b');
    assert p[0] == r && p[1] == g && p[2] == b && q[0] == r' && q[1] == g' && q[2] == b';
  }

  function Pixel16(r: int, g: int, b: int): (s: seq<byte>)
    ensures |s| == 6
  {
    Be(r) + Be(g) + Be(b)
  }

  // ---------------------------------------------------------------------------
  // Groups in a row
  // ---------------------------------------------------------------------------

  /** The groups one after another. */
  function Flatten(groups: seq<seq<byte>>): seq<byte> {
    if groups == [] then []
    else Flatten(groups[..|groups| - 1]) + groups[|groups| - 1]
  }

  /** All groups hold w bytes. */
  predicate Uniform(groups: seq<seq<byte>>, w: nat) {
    forall i :: 0 <= i < |groups| ==> |groups[i]| == w
  }

  lemma {:induction false} FlattenLength(groups: seq<seq<byte>>, w: nat)
    requires Uniform(groups, w)
    ensures |Flatten(groups)| == w * |groups|
  {
    if groups != [] {
      var n := |groups| - 1;
      FlattenLength(groups[..n], w);
      assert w * |groups| == w * n + w;
    }
  }

  /** Byte k of group x sits at w * x + k. */
  lemma {:induction false} FlattenAt(groups: seq<seq<byte>>, w: nat, x: nat, k: nat)
    requires Uniform(groups, w) && x < |groups| && k < w
    ensures w * x + k < |Flatten(groups)|
    ensures Flatten(groups)[w * x + k] == groups[x][k]
  {
    var n := |groups| - 1;
    FlattenLength(groups, w);
    FlattenLength(groups[..n], w);
    assert w * x + w <= w * |groups| by {
      assert w * |groups| == w * (x + 1) + w * (|groups| - x - 1);
    }
    if x < n {
      FlattenAt(groups[..n], w, x, k);
    }
  }

  lemma SliceIs(s: seq<byte>, i: nat, t: seq<byte>)
    requires i + |t| <= |s| && forall k :: 0 <= k < |t| ==> s[i + k] == t[k]
    ensures s[i..i + |t|] == t
  {
  }

  /** Appending one group. */
  lemma FlattenStep(groups: seq<seq<byte>>, n: nat)
    requires n < |groups|
    ensures Flatten(groups[..n + 1]) == Flatten(groups[..n]) + groups[n]
  {
    assert groups[..n + 1][..n] == groups[..n];
  }

  /** Rows written one after another make the whole image. */
  lemma {:induction false} FlattenAppend(a: seq<seq<byte>>, b: seq<seq<byte>>)
    ensures Flatten(a + b) == Flatten(a) + Flatten(b)
  {
    if b == [] {
      assert a + b == a;
    } else {
      var n := |b| - 1;
      FlattenAppend(a, b[..n]);
      assert (a + b)[..|a + b| - 1] == a + b[..n];
      assert (a + b)[|a + b| - 1] == b[n];
      assert Flatten(a) + Flatten(b[..n]) + b[n] == Flatten(a) + (Flatten(b[..n]) + b[n]);
    }
  }

  /** The bytes of groups n to n + c - 1. */
  function Run(groups: seq<seq<byte>>, n: nat, c: nat): seq<byte>
    requires n + c <= |groups|
  {
    Flatten(groups[n..n + c])
  }

  lemma RunAppend(groups: seq<seq<byte>>, n: nat, c: nat, d: nat)
    requires n + c + d <= |groups|
    ensures Run(groups, n, c) + Run(groups, n + c, d) == Run(groups, n, c + d)
  {
    FlattenAppend(groups[n..n + c], groups[n + c..n + c + d]);
    assert groups[n..n + c] + groups[n + c..n + c + d] == groups[n..n + c + d];
  }

  lemma RunOfOne(groups: seq<seq<byte>>, n: nat)
    requires n < |groups|
    ensures Run(groups, n, 1) == groups[n]
  {
    assert groups[n..n + 1] == [groups[n]];
    assert Flatten([groups[n]]) == Flatten([]) + groups[n];
  }

  lemma RunOfTwo(groups: seq<seq<byte>>, n: nat)
    requires n + 2 <= |groups|
    ensures Run(groups, n, 2) == groups[n] + groups[n + 1]
  {
    RunOfOne(groups, n);
    RunOfOne(groups, n + 1);
    RunAppend(groups, n, 1, 1);
  }

  lemma RunOfFour(groups: seq<seq<byte>>, n: nat)
    requires n + 4 <= |groups|
    ensures Run(groups, n, 4) == groups[n] + groups[n + 1] + groups[n + 2] + groups[n + 3]
  {
    RunOfTwo(groups, n);
    RunOfTwo(groups, n + 2);
    RunAppend(groups, n, 2, 2);
    assert groups[n] + groups[n + 1] + (groups[n + 2] + groups[n + 3]) ==
           groups[n] + groups[n + 1] + groups[n + 2] + groups[n + 3];
  }

  // ---------------------------------------------------------------------------
  // Cutting registers into groups
  // ---------------------------------------------------------------------------

  lemma CutInSixes(x: seq<byte>, y: seq<byte>, z: seq<byte>)
    requires |x| == |y| == |z| == 16
    ensures x + y + z ==
      [x[0], x[1], x[2], x[3], x[4], x[5]] + [x[6], x[7], x[8], x[9], x[10], x[11]] +
      [x[12], x[13], x[14], x[15], y[0], y[1]] + [y[2], y[3], y[4], y[5], y[6], y[7]] +
      [y[8], y[9], y[10], y[11], y[12], y[13]] + [y[14], y[15], z[0], z[1], z[2], z[3]] +
      [z[4], z[5], z[6], z[7], z[8], z[9]] + [z[10], z[11], z[12], z[13], z[14], z[15]]
  {
  }

  lemma CutInThrees(t: seq<byte>)
    requires |t| == 12
    ensures t == [t[0], t[1], t[2]] + [t[3], t[4], t[5]] + [t[6], t[7], t[8]] + [t[9], t[10], t[11]]
  {
  }

  /** Four pixels, from position q of one register per component. */
  function Triples4(a: seq<byte>, b: seq<byte>, c: seq<byte>, q: nat): seq<byte>
    requires |a| == |b| == |c| && q + 4 <= |a|
  {
    Pixel8(a[q], b[q], c[q]) + Pixel8(a[q + 1], b[q + 1], c[q + 1]) +
    Pixel8(a[q + 2], b[q + 2], c[q + 2]) + Pixel8(a[q + 3], b[q + 3], c[q + 3])
  }

  /** Sixteen pixels. */
  function Triples(a: seq<byte>, b: seq<byte>, c: seq<byte>): seq<byte>
    requires |a| == |b| == |c| == 16
  {
    Triples4(a, b, c, 0) + Triples4(a, b, c, 4) + Triples4(a, b, c, 8) + Triples4(a, b, c, 12)
  }

  lemma JoinTriples(x: seq<byte>, y: seq<byte>, z: seq<byte>, a: seq<byte>, b: seq<byte>, c: seq<byte>)
    requires |a| == |b| == |c| == 16
    requires x == [a[0], b[0], c[0], a[1], b[1], c[1], a[2], b[2], c[2], a[3], b[3], c[3], a[4], b[4], c[4], a[5]]
    requires y == [b[5], c[5], a[6], b[6], c[6], a[7], b[7], c[7], a[8], b[8], c[8], a[9], b[9], c[9], a[10], b[10]]
    requires z == [c[10], a[11], b[11], c[11], a[12], b[12], c[12], a[13], b[13], c[13], a[14], b[14], c[14], a[15],
                   b[15], c[15]]
    ensures x + y + z == Triples(a, b, c)
  {
    assert x[..12] == Triples4(a, b, c, 0);
    assert x[12..] + y[..8] == Triples4(a, b, c, 4);
    assert y[8..] + z[..4] == Triples4(a, b, c, 8);
    assert z[4..] == Triples4(a, b, c, 12);
    assert x + y + z == x[..12] + (x[12..] + y[..8]) + (y[8..] + z[..4]) + z[4..];
  }

  /** Sixteen groups that are the pixels of three registers. */
  lemma RunOfTriples(groups: seq<seq<byte>>, n: nat, a: seq<byte>, b: seq<byte>, c: seq<byte>)
    requires |a| == |b| == |c| == 16 && n + 16 <= |groups|
    requires forall i :: 0 <= i < 16 ==> Pixel8(a[i], b[i], c[i]) == groups[n + i]
    ensures Triples(a, b, c) == Run(groups, n, 16)
  {
    RunOfFour(groups, n);
    RunOfFour(groups, n + 4);
    RunOfFour(groups, n + 8);
    RunOfFour(groups, n + 12);
    assert Triples4(a, b, c, 0) == Run(groups, n, 4);
    assert Triples4(a, b, c, 4) == Run(groups, n + 4, 4);
    assert Triples4(a, b, c, 8) == Run(groups, n + 8, 4);
    assert Triples4(a, b, c, 12) == Run(groups, n + 12, 4);
    RunAppend(groups, n, 4, 4);
    RunAppend(groups, n, 8, 4);
    RunAppend(groups, n, 12, 4);
  }

  /** Single-byte groups in a row are the bytes themselves. */
  lemma {:induction false} RunOfSingles(groups: seq<seq<byte>>, n: nat, v: seq<byte>)
    requires n + |v| <= |groups|
    requires forall i :: 0 <= i < |v| ==> groups[n + i] == [v[i]]
    ensures v == Run(groups, n, |v|)
  {
    if v != [] {
      var c := |v| - 1;
      RunOfSingles(groups, n, v[..c]);
      RunAppend(groups, n, c, 1);
      RunOfOne(groups, n + c);
      assert v == v[..c] + [v[c]];
    }
  }

  /** Eight two-byte groups in a row. */
  lemma RunOfPairs(groups: seq<seq<byte>>, n: nat, v: seq<byte>)
    requires n + 8 <= |groups| && |v| == 16
    requires groups[n] == [v[0], v[1]]
    requires groups[n + 1] == [v[2], v[3]]
    requires groups[n + 2] == [v[4], v[5]]
    requires groups[n + 3] == [v[6], v[7]]
    requires groups[n + 4] == [v[8], v[9]]
    requires groups[n + 5] == [v[10], v[11]]
    requires groups[n + 6] == [v[12], v[13]]
    requires groups[n + 7] == [v[14], v[15]]
    ensures v == Run(groups, n, 8)
  {
    RunOfFour(groups, n);
    RunOfFour(groups, n + 4);
    RunAppend(groups, n, 4, 4);
    assert v[..8] == Run(groups, n, 4);
    assert v[8..] == Run(groups, n + 4, 4);
    assert v == v[..8] + v[8..];
  }

  // ---------------------------------------------------------------------------
  // Writing in place
  // ---------------------------------------------------------------------------

  /** dst with its first |v| bytes replaced by v. */
  function Written(dst: seq<byte>, v: seq<byte>): (r: seq<byte>)
    requires |v| <= |dst|
    ensures |r| == |dst|
  {
    v + dst[|v|..]
  }

  /** Writes v at dst[at], right after the bytes already written. */
  method Put(dst: array<byte>, at: nat, v: seq<byte>, ghost before: seq<byte>, ghost done: seq<byte>)
    requires at == |done| && at + |v| <= dst.Length == |before|
    requires dst[..] == Written(before, done)
    modifies dst
    ensures dst[..] == Written(before, done + v)
  {
    forall j | 0 <= j < |v| {
      dst[at + j] := v[j];
    }
    assert dst[..] == done + v + before[at + |v|..];
  }

  /** A 16-byte store of the groups n to n + c - 1, right after the first n. */
  method PutRun(dst: array<byte>, at: nat, v: seq<byte>, ghost before: seq<byte>, ghost groups: seq<seq<byte>>,
                ghost n: nat, ghost c: nat)
    requires n + c <= |groups| && v == Run(groups, n, c)
    requires at == |Flatten(groups[..n])| && at + |v| <= dst.Length == |before|
    requires dst[..] == Written(before, Flatten(groups[..n]))
    modifies dst
    ensures |Flatten(groups[..n + c])| == at + |v|
    ensures dst[..] == Written(before, Flatten(groups[..n + c]))
  {
    Put(dst, at, v, before, Flatten(groups[..n]));
    RunAppend(groups, 0, n, c);
    assert groups[0..n] == groups[..n] && groups[0..n + c] == groups[..n + c];
  }

  /** Stores the next group. */
  method PutGroup(dst: array<byte>, at: nat, v: seq<byte>, ghost before: seq<byte>, ghost groups: seq<seq<byte>>,
                  ghost n: nat)
    requires n < |groups| && v == groups[n]
    requires at == |Flatten(groups[..n])| && at + |v| <= dst.Length == |before|
    requires dst[..] == Written(before, Flatten(groups[..n]))
    modifies dst
    ensures |Flatten(groups[..n + 1])| == at + |v|
    ensures dst[..] == Written(before, Flatten(groups[..n + 1]))
  {
    Put(dst, at, v, before, Flatten(groups[..n]));
    FlattenStep(groups, n);
  }

  /** A 32-byte store of the groups n to n + 2c - 1. */
  method PutRun32(dst: array<byte>, at: nat, x: seq<byte>, y: seq<byte>,
                  ghost before: seq<byte>, ghost groups: seq<seq<byte>>, ghost n: nat, ghost c: nat)
    requires |x| == |y| == 16 && n + 2 * c <= |groups|
    requires x == Run(groups, n, c) && y == Run(groups, n + c, c)
    requires at == |Flatten(groups[..n])| && at + 32 <= dst.Length == |before|
    requires dst[..] == Written(before, Flatten(groups[..n]))
    modifies dst
    ensures |Flatten(groups[..n + 2 * c])| == at + 32
    ensures dst[..] == Written(before, Flatten(groups[..n + 2 * c]))
  {
    PutRun(dst, at, x, before, groups, n, c);
    PutRun(dst, at + 16, y, before, groups, n + c, c);
  }

  /** Three 16-byte stores that together hold the groups n to n + c - 1. */
  method PutRun48(dst: array<byte>, at: nat, x: seq<byte>, y: seq<byte>, z: seq<byte>,
                  ghost before: seq<byte>, ghost groups: seq<seq<byte>>, ghost n: nat, ghost c: nat)
    requires |x| == |y| == |z| == 16
    requires n + c <= |groups| && x + y + z == Run(groups, n, c)
    requires at == |Flatten(groups[..n])| && at + 48 <= dst.Length == |before|
    requires dst[..] == Written(before, Flatten(groups[..n]))
    modifies dst
    ensures |Flatten(groups[..n + c])| == at + 48
    ensures dst[..] == Written(before, Flatten(groups[..n + c]))
  {
    ghost var done := Flatten(groups[..n]);
    Put(dst, at, x, before, done);
    Put(dst, at + 16, y, before, done + x);
    Put(dst, at + 32, z, before, done + x + y);
    RunAppend(groups, 0, n, c);
    assert groups[0..n] == groups[..n] && groups[0..n + c] == groups[..n + c];
    assert done + x + y + z == done + (x + y + z);
  }

  /** How many full blocks of eight there are. */
  lemma EightBlocks(k: nat, len: nat)
    ensures 8 * k + 8 <= len ==> 8 * k + 8 <= 8 * (len / 8)
    ensures 8 * k <= len < 8 * k + 8 ==> 8 * (len / 8) == 8 * k
  {
  }
}
