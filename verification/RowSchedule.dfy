/** The per-component row loop of the streaming decoder (source/apps/decoder/main_dec.cpp): which
    luma rows cause a component row to be written, and what then ends up in the file.

    The loop recovers the vertical subsampling factor from the two heights. The recovered factor
    can be smaller than the real one; `FactorRecovered` says exactly when it is not. */
module RowSchedule {
  import opened MachineInts

  type Row = seq<int32>

  /** ceil(a / b): how many groups of at most b make a. */
  function CeilDiv(a: nat, b: nat): nat
    requires b > 0
  {
    if a == 0 then 0 else if a <= b then 1 else 1 + CeilDiv(a - b, b)
  }

  /** yr_c, with the 32-bit sum the source computes. */
  function Factor(h0: uint32, hc: uint32): uint32 {
    if 0 < hc < h0 then (h0 as int + hc - 1) % 0x1_0000_0000 / hc else 1
  }

  /** The division by yr_c is defined exactly when the sum of the heights fits: beyond that the
      32-bit sum wraps and the factor is 0. */
  lemma FactorDefined(h0: uint32, hc: uint32)
    ensures Factor(h0, hc) != 0 <==> !(0 < hc < h0) || h0 as int + hc <= 0x1_0000_0000
    ensures Factor(h0, hc) != 0 && 0 < hc < h0 ==> Factor(h0, hc) == CeilDiv(h0, hc)
  {
    if 0 < hc < h0 {
      var sum := h0 as int + hc - 1;
      if sum < 0x1_0000_0000 {
        ModUnique(sum, 0x1_0000_0000, 0, sum);
        CeilByDivision(h0, hc);
      } else {
        ModUnique(sum, 0x1_0000_0000, 1, sum - 0x1_0000_0000);
        ModUnique(sum - 0x1_0000_0000, hc, 0, sum - 0x1_0000_0000);
      }
    }
  }

  /** ceil(a / b) is the least q with q * b >= a. */
  lemma {:induction false} CeilBounds(a: nat, b: nat)
    requires b > 0
    ensures CeilDiv(a, b) * b >= a
    ensures a > 0 ==> CeilDiv(a, b) >= 1 && (CeilDiv(a, b) - 1) * b < a
  {
    if a > b {
      CeilBounds(a - b, b);
      assert (1 + CeilDiv(a - b, b)) * b == CeilDiv(a - b, b) * b + b;
      assert CeilDiv(a - b, b) * b == (CeilDiv(a - b, b) - 1) * b + b;
    }
  }

  lemma CeilIs(a: nat, b: nat, q: nat)
    requires b > 0 && q * b >= a && (q > 0 ==> (q - 1) * b < a)
    ensures CeilDiv(a, b) == q
  {
    CeilBounds(a, b);
    var c := CeilDiv(a, b);
    if c < q {
      MulMonotone(c, q - 1, b);
    } else if c > q {
      MulMonotone(q, c - 1, b);
    }
  }

  /** (a + b - 1) / b is the ceiling. */
  lemma CeilByDivision(a: nat, b: nat)
    requires b > 0
    ensures (a + b - 1) / b == CeilDiv(a, b)
    ensures a > 0 ==> (a + b - 1) / b > 0
  {
    CeilBounds(a, b);
    var q := CeilDiv(a, b);
    if a > 0 {
      assert (q - 1) * b == q * b - b;
    }
    ModUnique(a + b - 1, b, q, a + b - 1 - q * b);
  }

  // ---------------------------------------------------------------------------
  // The loop
  // ---------------------------------------------------------------------------

  /** With factor f, luma row y makes the loop write a row of a component of height hc. */
  predicate Writes(f: nat, hc: nat, y: nat)
    requires f > 0
  {
    y % f == 0 && y / f < hc
  }

  /** The rows in the component's file after luma rows 0 .. n - 1; held[y] is the component row the
      decoder hands over together with luma row y. */
  function FileRows(f: nat, hc: nat, held: seq<Row>, n: nat): seq<Row>
    requires f > 0 && n <= |held|
  {
    if n == 0 then []
    else FileRows(f, hc, held, n - 1) + (if Writes(f, hc, n - 1) then [held[n - 1]] else [])
  }

  /** One open component file. */
  class ComponentFile {
    const h0: uint32
    const hc: uint32
    var rows: seq<Row>

    constructor (h0: uint32, hc: uint32)
      ensures this.h0 == h0 && this.hc == hc && rows == []
    {
      this.h0, this.hc, rows := h0, hc, [];
    }

    /** The body of the loop over components, for this component and luma row y. */
    method OnRow(y: uint32, row: Row)
      requires Factor(h0, hc) != 0
      modifies this
      ensures rows == old(rows) + if Writes(Factor(h0, hc), hc, y) then [row] else []
    {
      var yr := if 0 < hc < h0 then (h0 as int + hc - 1) % 0x1_0000_0000 / hc else 1;
      if y % yr != 0 {
        return;
      }
      if y / yr >= hc {
        return;
      }
      rows := rows + [row];
    }
  }

  /** The decoder's callbacks for a whole image. */
  method RunRows(h0: uint32, hc: uint32, held: seq<Row>) returns (file: ComponentFile)
    requires Factor(h0, hc) != 0 && |held| == h0
    ensures fresh(file) && file.rows == FileRows(Factor(h0, hc), hc, held, h0)
  {
    file := new ComponentFile(h0, hc);
    var y := 0;
    while y < h0
      invariant 0 <= y <= h0
      invariant fresh(file) && file.h0 == h0 && file.hc == hc
      invariant file.rows == FileRows(Factor(h0, hc), hc, held, y)
    {
      file.OnRow(y, held[y]);
      y := y + 1;
    }
  }

  // ---------------------------------------------------------------------------
  // What is in the file
  // ---------------------------------------------------------------------------

  /** After n luma rows the file holds the rows met at luma rows 0, f, 2f, ... : slot k was written at
      luma row k * f, once, and in order. */
  lemma {:induction false} SlotsInOrder(f: nat, hc: nat, held: seq<Row>, n: nat)
    requires f > 0 && n <= |held|
    ensures |FileRows(f, hc, held, n)| == (if CeilDiv(n, f) <= hc then CeilDiv(n, f) else hc)
    ensures forall k: nat :: k < |FileRows(f, hc, held, n)| ==> k * f < n && FileRows(f, hc, held, n)[k] == held[k * f]
  {
    if n > 0 {
      SlotsInOrder(f, hc, held, n - 1);
      var q := CeilStep(n - 1, f);
      assert Writes(f, hc, n - 1) <==> (n - 1 == q * f && q < hc);
    }
  }

  /** ceil(y / f) grows by one exactly at the multiples of f. */
  lemma CeilStep(y: nat, f: nat) returns (q: nat)
    requires f > 0
    ensures q == y / f && (y % f == 0 <==> y == q * f)
    ensures CeilDiv(y, f) == (if y == q * f then q else q + 1) && CeilDiv(y + 1, f) == q + 1
  {
    var r := y % f;
    q := Quotient(y, f);
    assert (q + 1) * f == q * f + f;
    if y == q * f && q > 0 {
      assert (q - 1) * f == q * f - f;
    }
    CeilIs(y, f, if y == q * f then q else q + 1);
    CeilIs(y + 1, f, q + 1);
  }

  lemma Quotient(y: nat, f: nat) returns (q: nat)
    requires f > 0
    ensures q == y / f && y == q * f + y % f && 0 <= y % f < f
  {
    var p := y / f;
    assert y == p * f + y % f;
    if p < 0 {
      MulMonotone(p, -1, f);
      assert false;
    }
    q := p;
  }

  /** A component height some subsampling factor produces (section B.2 of ISO/IEC 15444-1). */
  ghost predicate Subsampled(h0: nat, hc: nat) {
    exists yr: nat :: yr >= 1 && hc == CeilDiv(h0, yr)
  }

  lemma CeilMonotone(a: nat, b: nat, c: nat)
    requires 0 < b <= c
    ensures CeilDiv(a, c) <= CeilDiv(a, b)
  {
    CeilBounds(a, b);
    CeilBounds(a, c);
    var p, q := CeilDiv(a, b), CeilDiv(a, c);
    if p < q {
      MulMonotone(p, q - 1, c);
      MulMonotone(b, c, p);
    }
  }

  /** The recovered factor never exceeds the real one. */
  lemma FactorAtMost(h0: uint32, hc: uint32, yr: nat)
    requires yr >= 1 && hc == CeilDiv(h0, yr) && Factor(h0, hc) != 0
    ensures 1 <= Factor(h0, hc) <= yr
  {
    FactorDefined(h0, hc);
    if 0 < hc < h0 {
      CeilBounds(h0, yr);
      CeilBounds(h0, hc);
      var f := CeilDiv(h0, hc);
      if f > yr {
        MulMonotone(yr, f - 1, hc);
      }
    }
  }

  /** ceil(h0 / ceil(h0 / hc)) <= hc */
  lemma SmallestFactor(h0: nat, hc: nat)
    requires 0 < hc && 0 < h0
    ensures CeilDiv(h0, hc) > 0 && CeilDiv(h0, CeilDiv(h0, hc)) <= hc
  {
    CeilBounds(h0, hc);
    var f := CeilDiv(h0, hc);
    CeilBounds(h0, f);
    var q := CeilDiv(h0, f);
    if q > hc {
      MulMonotone(hc, q - 1, f);
    }
  }

  /** With the recovered factor there are never more slots than rows. */
  lemma SlotCount(h0: uint32, hc: uint32)
    requires Factor(h0, hc) != 0 && 0 < hc <= h0
    ensures CeilDiv(h0, Factor(h0, hc)) <= hc
  {
    FactorDefined(h0, hc);
    if hc < h0 {
      SmallestFactor(h0, hc);
    } else {
      CeilIs(h0, 1, h0);
    }
  }

  /** All hc component rows are written, once each and in order, exactly when hc is the height some
      subsampling factor gives. */
  lemma AllRowsWritten(h0: uint32, hc: uint32, held: seq<Row>)
    requires Factor(h0, hc) != 0 && |held| == h0
    ensures |FileRows(Factor(h0, hc), hc, held, h0)| == hc <==> Subsampled(h0, hc) || hc == 0
  {
    var f := Factor(h0, hc);
    SlotsInOrder(f, hc, held, h0);
    if Subsampled(h0, hc) {
      var yr: nat :| yr >= 1 && hc == CeilDiv(h0, yr);
      FactorAtMost(h0, hc, yr);
      CeilMonotone(h0, f, yr);
    } else if 0 < hc <= h0 {
      SlotCount(h0, hc);
      assert hc != CeilDiv(h0, f);
    } else if hc > h0 {
      CeilIs(h0, 1, h0);
    }
  }

  // ---------------------------------------------------------------------------
  // Whether they are the right rows
  // ---------------------------------------------------------------------------

  /** For a subsampled component the recovered factor is the real one exactly when
      h0 > (YR - 1) * hc; it then needs no more than h0 > (YR - 1)^2. */
  lemma FactorRecovered(h0: uint32, hc: uint32, yr: nat)
    requires yr >= 1 && hc == CeilDiv(h0, yr) && 0 < hc < h0 && Factor(h0, hc) != 0
    ensures Factor(h0, hc) == yr <==> h0 > (yr - 1) * hc
    ensures h0 > (yr - 1) * (yr - 1) ==> Factor(h0, hc) == yr
  {
    FactorDefined(h0, hc);
    CeilBounds(h0, yr);
    CeilBounds(h0, hc);
    if h0 > (yr - 1) * hc {
      CeilIs(h0, hc, yr);
    }
    if h0 > (yr - 1) * (yr - 1) {
      Enough(h0, hc, yr);
      CeilIs(h0, hc, yr);
    }
  }

  /** (hc - 1) * yr < h0 and h0 > (yr - 1)^2 give h0 > (yr - 1) * hc. */
  lemma Enough(h0: nat, hc: nat, yr: nat)
    requires yr >= 1 && hc >= 1 && (hc - 1) * yr < h0 && h0 > (yr - 1) * (yr - 1)
    ensures h0 > (yr - 1) * hc
  {
    if hc < yr {
      MulMonotone(hc, yr - 1, yr - 1);
      assert (yr - 1) * hc == hc * (yr - 1);
    } else {
      assert (hc - 1) * yr == (yr - 1) * hc + (hc - yr);
    }
  }

  /** The bound (YR - 1)^2 cannot be lowered: at that height the factor comes out one too small. */
  lemma BoundIsTight(yr: nat, h0: uint32)
    requires 3 <= yr <= 0xFF && h0 == (yr - 1) * (yr - 1)
    ensures CeilDiv(h0, yr) == yr - 1 && Factor(h0, yr - 1) == yr - 1
  {
    MulMonotone(yr, 0xFF, yr - 1);
    assert (yr - 1) * yr == h0 + (yr - 1);
    assert (yr - 2) * yr == h0 - 1;
    CeilIs(h0, yr, yr - 1);
    assert yr - 1 < h0 by {
      MulMonotone(2, yr - 1, yr - 1);
    }
    FactorDefined(h0, yr - 1);
    assert (yr - 2) * (yr - 1) == h0 - (yr - 1);
    CeilIs(h0, yr - 1, yr - 1);
  }

  /** The decoder holds component row y / YR while it delivers luma row y. */
  function Held(comp: seq<Row>, h0: uint32, yr: nat): (held: seq<Row>)
    requires yr >= 1 && |comp| == CeilDiv(h0, yr)
    ensures |held| == h0
  {
    seq(h0, y requires 0 <= y < h0 =>
      assert y / yr < |comp| by {
        HeldIndex(y, h0, yr);
      }
      comp[y / yr])
  }

  lemma HeldIndex(y: nat, h0: nat, yr: nat)
    requires yr >= 1 && y < h0
    ensures 0 <= y / yr < CeilDiv(h0, yr)
  {
    CeilBounds(h0, yr);
    var q := Quotient(y, yr);
    var c := CeilDiv(h0, yr);
    if q >= c {
      MulMonotone(c, q, yr);
    }
  }

  /** What the file holds after the whole image. */
  function Result(comp: seq<Row>, h0: uint32, yr: nat): seq<Row>
    requires yr >= 1 && |comp| == CeilDiv(h0, yr) <= 0xFFFF_FFFF && Factor(h0, |comp|) != 0
  {
    FileRows(Factor(h0, |comp|), |comp|, Held(comp, h0, yr), h0)
  }

  /** It has one slot per component row, and slot k is component row k * f / YR. */
  lemma SlotContent(comp: seq<Row>, h0: uint32, yr: nat)
    requires yr >= 1 && |comp| == CeilDiv(h0, yr) <= 0xFFFF_FFFF && Factor(h0, |comp|) != 0
    ensures |Result(comp, h0, yr)| == |comp|
    ensures forall k: nat :: k < |comp| ==>
      0 <= k * Factor(h0, |comp|) / yr < |comp| && Result(comp, h0, yr)[k] == comp[k * Factor(h0, |comp|) / yr]
  {
    var held, f := Held(comp, h0, yr), Factor(h0, |comp|);
    assert Subsampled(h0, |comp|);
    AllRowsWritten(h0, |comp|, held);
    SlotsInOrder(f, |comp|, held, h0);
    forall k: nat | k < |comp|
      ensures 0 <= k * f / yr < |comp| && Result(comp, h0, yr)[k] == comp[k * f / yr]
    {
      HeldIndex(k * f, h0, yr);
    }
  }

  /** The file holds the component exactly when the factor is recovered or there is at most one row;
      otherwise row 0 is written twice. */
  lemma ContentRight(comp: seq<Row>, h0: uint32, yr: nat)
    requires yr >= 1 && |comp| == CeilDiv(h0, yr) <= 0xFFFF_FFFF && Factor(h0, |comp|) != 0
    requires |comp| >= 2 ==> comp[0] != comp[1]
    ensures Result(comp, h0, yr) == comp <==> Factor(h0, |comp|) == yr || |comp| <= 1
    ensures Result(comp, h0, yr) != comp ==> |Result(comp, h0, yr)| >= 2 && Result(comp, h0, yr)[1] == comp[0]
  {
    var f := Factor(h0, |comp|);
    SlotContent(comp, h0, yr);
    FactorAtMost(h0, |comp|, yr);
    if f == yr {
      forall k: nat | k < |comp|
        ensures k * f / yr == k
      {
        ModUnique(k * f, yr, k, 0);
      }
    } else if |comp| <= 1 {
      ModUnique(0 * f, yr, 0, 0);
    } else {
      ModUnique(1 * f, yr, 0, f);
    }
  }

  /** The smallest image that goes wrong: five luma rows at factor 4 recover 3. */
  lemma FiveRowsAtFour()
    ensures CeilDiv(5, 4) == 2 && Factor(5, 2) == 3
  {
  }
}
