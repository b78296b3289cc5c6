/** The check of the frame-dump file name pattern (source/apps/rtp_recv/cli.cpp,
    `validate_dump_pattern`), against a grammar of `printf` formats: a subset of
    section 7.21.6.1 of ISO/IEC 9899:2011 with exactly one integer conversion. */
module DumpPattern {
  import opened Substrings

  // ---------------------------------------------------------------------------
  // The grammar
  // ---------------------------------------------------------------------------

  datatype Precision = Absent | Given(digits: string)

  datatype Item =
    | Literal(c: char)
    | Percent
    | Directive(flags: string, width: string, precision: Precision, conversion: char)

  predicate IsFlag(c: char) {
    c == '-' || c == '+' || c == ' ' || c == '#' || c == '0'
  }

  predicate IsDigit(c: char) {
    '0' <= c <= '9'
  }

  predicate IsConversion(c: char) {
    c == 'd' || c == 'i' || c == 'u' || c == 'o' || c == 'x' || c == 'X'
  }

  predicate AllFlags(s: string) {
    forall k :: 0 <= k < |s| ==> IsFlag(s[k])
  }

  predicate AllDigits(s: string) {
    forall k :: 0 <= k < |s| ==> IsDigit(s[k])
  }

  predicate WellFormed(item: Item) {
    match item
    case Literal(c) => c != '%'
    case Percent => true
    case Directive(f, w, p, c) => AllFlags(f) && AllDigits(w) && (p.Given? ==> AllDigits(p.digits)) && IsConversion(c)
  }

  function PrecisionText(p: Precision): string {
    if p.Given? then "." + p.digits else ""
  }

  function Text(item: Item): (s: string)
    ensures |s| > 0
  {
    match item
    case Literal(c) => [c]
    case Percent => "%%"
    case Directive(f, w, p, c) => "%" + (f + w + (PrecisionText(p) + [c]))
  }

  datatype Items = Nil | Cons(head: Item, tail: Items)

  function Render(items: Items): string {
    match items
    case Nil => ""
    case Cons(item, rest) => Text(item) + Render(rest)
  }

  function Directives(items: Items): nat {
    match items
    case Nil => 0
    case Cons(item, rest) => (if item.Directive? then 1 else 0) + Directives(rest)
  }

  predicate AllWellFormed(items: Items) {
    match items
    case Nil => true
    case Cons(item, rest) => WellFormed(item) && AllWellFormed(rest)
  }

  /** s reads as literals, "%%" and exactly one directive. */
  ghost predicate InGrammar(s: string) {
    exists items :: AllWellFormed(items) && Render(items) == s && Directives(items) == 1
  }

  // ---------------------------------------------------------------------------
  // The scanner
  // ---------------------------------------------------------------------------

  /** Past the flags from i on. */
  function FlagsEnd(s: string, i: nat): (j: nat)
    requires i <= |s|
    ensures i <= j <= |s|
    decreases |s| - i
  {
    if i < |s| && IsFlag(s[i]) then FlagsEnd(s, i + 1) else i
  }

  /** Past the digits from i on. */
  function DigitsEnd(s: string, i: nat): (j: nat)
    requires i <= |s|
    ensures i <= j <= |s|
    decreases |s| - i
  {
    if i < |s| && IsDigit(s[i]) then DigitsEnd(s, i + 1) else i
  }

  /** Past the precision, if there is one at i. */
  function PrecisionEnd(s: string, i: nat): (j: nat)
    requires i <= |s|
    ensures i <= j <= |s|
  {
    if i < |s| && s[i] == '.' then DigitsEnd(s, i + 1) else i
  }

  /** Where the conversion character of a directive should be; i is just after the '%'. */
  function ConversionAt(s: string, i: nat): (j: nat)
    requires i <= |s|
    ensures i <= j <= |s|
  {
    PrecisionEnd(s, DigitsEnd(s, FlagsEnd(s, i)))
  }

  datatype Slots = Bad | Count(n: nat)

  function More(slots: Slots, n: nat): Slots {
    if slots.Bad? then Bad else Count(slots.n + n)
  }

  /** The number of directives from i on, or Bad. */
  function Scan(s: string, i: nat): Slots
    requires i <= |s|
    decreases |s| - i
  {
    if i == |s| then Count(0)
    else if s[i] != '%' then Scan(s, i + 1)
    else if i + 1 == |s| then Bad
    else if s[i + 1] == '%' then Scan(s, i + 2)
    else ScanDirective(s, i + 1)
  }

  /** The same, with a directive whose '%' is just before i. */
  function ScanDirective(s: string, i: nat): Slots
    requires i <= |s|
    decreases |s| - i
  {
    var j := ConversionAt(s, i);
    if j == |s| || !IsConversion(s[j]) then Bad else More(Scan(s, j + 1), 1)
  }

  /** The flags end at the first character that is none. */
  lemma {:induction false} FlagsEndIs(s: string, i: nat, j: nat)
    requires i <= j <= |s|
    ensures FlagsEnd(s, i) == j <==> (forall k :: i <= k < j ==> IsFlag(s[k])) && (j < |s| ==> !IsFlag(s[j]))
    decreases |s| - i
  {
    if i < |s| && IsFlag(s[i]) && i < j {
      FlagsEndIs(s, i + 1, j);
    }
  }

  lemma {:induction false} DigitsEndIs(s: string, i: nat, j: nat)
    requires i <= j <= |s|
    ensures DigitsEnd(s, i) == j <==> (forall k :: i <= k < j ==> IsDigit(s[k])) && (j < |s| ==> !IsDigit(s[j]))
    decreases |s| - i
  {
    if i < |s| && IsDigit(s[i]) && i < j {
      DigitsEndIs(s, i + 1, j);
    }
  }

  // ---------------------------------------------------------------------------
  // Soundness
  // ---------------------------------------------------------------------------

  lemma Pieces(s: string, i: nat, a: nat, b: nat, j: nat)
    requires i < a <= b <= j < |s| && s[i] == '%'
    ensures s[i..j + 1] == "%" + (s[i + 1..a] + s[a..b] + (s[b..j] + [s[j]]))
  {
    assert s[i..j + 1] == [s[i]] + s[i + 1..j + 1];
    assert s[i + 1..j + 1] == s[i + 1..a] + s[a..b] + s[b..j + 1];
    assert s[b..j + 1] == s[b..j] + [s[j]];
  }

  lemma PrecisionOf(s: string, b: nat) returns (p: Precision)
    requires b < |s| && PrecisionEnd(s, b) < |s|
    ensures PrecisionText(p) == s[b..PrecisionEnd(s, b)] && (p.Given? ==> AllDigits(p.digits))
  {
    var j := PrecisionEnd(s, b);
    if s[b] == '.' {
      DigitsEndIs(s, b + 1, j);
      p := Given(s[b + 1..j]);
      assert s[b..j] == "." + s[b + 1..j];
    } else {
      p := Absent;
    }
  }

  /** A scanned directive is one. */
  lemma DirectiveOf(s: string, i: nat) returns (item: Item)
    requires i + 1 < |s| && s[i] == '%' && ConversionAt(s, i + 1) < |s| && IsConversion(s[ConversionAt(s, i + 1)])
    ensures item.Directive? && WellFormed(item) && Text(item) == s[i..ConversionAt(s, i + 1) + 1]
  {
    var a := FlagsEnd(s, i + 1);
    var b := DigitsEnd(s, a);
    var j := ConversionAt(s, i + 1);
    FlagsEndIs(s, i + 1, a);
    DigitsEndIs(s, a, b);
    var p := PrecisionOf(s, b);
    item := Directive(s[i + 1..a], s[a..b], p, s[j]);
    Pieces(s, i, a, b, j);
  }

  lemma Join(s: string, i: nat, j: nat)
    requires i <= j <= |s|
    ensures s[i..] == s[i..j] + s[j..]
  {
  }

  /** The item the scanner takes first. */
  lemma FirstItem(s: string, i: nat) returns (item: Item, j: nat)
    requires i < |s| && Scan(s, i).Count?
    ensures i < j <= |s| && WellFormed(item) && Text(item) == s[i..j]
    ensures Scan(s, i) == More(Scan(s, j), if item.Directive? then 1 else 0)
  {
    if s[i] != '%' {
      item, j := Literal(s[i]), i + 1;
    } else if s[i + 1] == '%' {
      item, j := Percent, i + 2;
    } else {
      j := ConversionAt(s, i + 1) + 1;
      item := DirectiveOf(s, i);
    }
  }

  /** Whatever the scanner counts comes from a reading of the string. */
  lemma {:induction false} Sound(s: string, i: nat) returns (items: Items)
    requires i <= |s| && Scan(s, i).Count?
    ensures AllWellFormed(items) && Render(items) == s[i..] && Count(Directives(items)) == Scan(s, i)
    decreases |s| - i
  {
    if i == |s| {
      items := Nil;
    } else {
      var item, j := FirstItem(s, i);
      var rest := Sound(s, j);
      items := Cons(item, rest);
      Join(s, i, j);
    }
  }

  // ---------------------------------------------------------------------------
  // Completeness
  // ---------------------------------------------------------------------------

  /** Flags, then digits, then neither: both scans together end right there, although leading zeros of
      the width are taken for flags. */
  lemma WidthEnd(s: string, i: nat, f: string, w: string)
    requires Stands(s, i, f) && Stands(s, i + |f|, w) && AllFlags(f) && AllDigits(w)
    requires i + |f| + |w| < |s| && !IsFlag(s[i + |f| + |w|]) && !IsDigit(s[i + |f| + |w|])
    ensures DigitsEnd(s, FlagsEnd(s, i)) == i + |f| + |w|
  {
    var a, m, e := FlagsEnd(s, i), i + |f|, i + |f| + |w|;
    FlagsEndIs(s, i, a);
    StandsThroughout(s, i, f);
    StandsThroughout(s, m, w);
    assert forall k :: i <= k < m ==> IsFlag(s[k]);
    DigitsEndIs(s, a, e);
  }

  /** The precision, or its absence, up to the conversion. */
  lemma PrecisionStands(s: string, b: nat, p: Precision, c: char)
    requires Stands(s, b, PrecisionText(p) + [c]) && (p.Given? ==> AllDigits(p.digits)) && IsConversion(c)
    ensures b + |PrecisionText(p)| < |s| && s[b + |PrecisionText(p)|] == c
    ensures PrecisionEnd(s, b) == b + |PrecisionText(p)|
    ensures !IsFlag(s[b]) && !IsDigit(s[b])
  {
    var t := PrecisionText(p);
    StandsSplit(s, b, t, [c]);
    StandsThroughout(s, b, t);
    StandsThroughout(s, b + |t|, [c]);
    assert s[b + |t|] == c;
    if p.Given? {
      assert t == "." + p.digits && s[b] == t[0] == '.';
      StandsSplit(s, b, ".", p.digits);
      StandsThroughout(s, b + 1, p.digits);
      DigitsEndIs(s, b + 1, b + |t|);
    } else {
      assert t == "" && s[b] == c;
    }
  }

  /** The scan of a well-formed directive stops at its conversion. */
  lemma DirectiveEnd(s: string, i: nat, item: Item)
    requires item.Directive? && WellFormed(item) && Stands(s, i, Text(item))
    ensures var j := i + |Text(item)| - 1;
      && i + 1 <= j < |s| && s[i] == '%' && s[i + 1] != '%' && ConversionAt(s, i + 1) == j && IsConversion(s[j])
  {
    var f, w, p, c := item.flags, item.width, item.precision, item.conversion;
    var b := i + 1 + |f| + |w|;
    DirectiveStands(s, i, f, w, PrecisionText(p) + [c]);
    PrecisionStands(s, b, p, c);
    WidthEnd(s, i + 1, f, w);
    NotPercent(s, i + 1, f, w, b);
  }

  lemma DirectiveStands(s: string, i: nat, f: string, w: string, t: string)
    requires Stands(s, i, "%" + (f + w + t))
    ensures Stands(s, i + 1, f) && Stands(s, i + 1 + |f|, w) && Stands(s, i + 1 + |f| + |w|, t) && s[i] == '%'
  {
    StandsThroughout(s, i, "%" + (f + w + t));
    StandsSplit(s, i, "%", f + w + t);
    StandsSplit(s, i + 1, f + w, t);
    StandsSplit(s, i + 1, f, w);
  }

  lemma NotPercent(s: string, i: nat, f: string, w: string, b: nat)
    requires Stands(s, i, f) && Stands(s, i + |f|, w) && AllFlags(f) && AllDigits(w) && b == i + |f| + |w| < |s|
    requires s[b] == '.' || IsConversion(s[b])
    ensures s[i] != '%'
  {
    StandsThroughout(s, i, f);
    StandsThroughout(s, i + |f|, w);
  }

  /** One item in place is scanned as such. */
  lemma OneItem(s: string, i: nat, item: Item)
    requires WellFormed(item) && Stands(s, i, Text(item))
    ensures Scan(s, i) == More(Scan(s, i + |Text(item)|), if item.Directive? then 1 else 0)
  {
    match item
    case Literal(c) => StandsThroughout(s, i, [c]);
    case Percent => StandsThroughout(s, i, "%%");
    case Directive(_, _, _, _) => DirectiveEnd(s, i, item);
  }

  lemma Suffix(s: string, i: nat, t: string, u: string)
    requires i <= |s| && s[i..] == t + u
    ensures i + |t| <= |s| && Stands(s, i, t) && s[i + |t|..] == u
  {
    assert s[i..i + |t|] == s[i..][..|t|] == t;
    assert s[i + |t|..] == s[i..][|t|..] == u;
  }

  /** The first item is scanned as such, and the others follow. */
  lemma Step(s: string, i: nat, item: Item, u: string) returns (k: nat)
    requires WellFormed(item) && i <= |s| && s[i..] == Text(item) + u
    ensures k <= |s| && s[k..] == u
    ensures Scan(s, i) == More(Scan(s, k), if item.Directive? then 1 else 0)
  {
    var t := Text(item);
    Suffix(s, i, t, u);
    OneItem(s, i, item);
    k := i + |t|;
  }

  lemma FirstStep(s: string, i: nat, items: Items) returns (k: nat)
    requires items.Cons? && AllWellFormed(items) && i <= |s| && s[i..] == Render(items)
    ensures k <= |s| && s[k..] == Render(items.tail)
    ensures Scan(s, i) == More(Scan(s, k), if items.head.Directive? then 1 else 0)
  {
    k := Step(s, i, items.head, Render(items.tail));
  }

  /** Every reading is counted as it stands. */
  lemma {:induction false} Complete(s: string, i: nat, items: Items)
    requires AllWellFormed(items) && i <= |s| && s[i..] == Render(items)
    ensures Scan(s, i) == Count(Directives(items))
    decreases items
  {
    if items.Cons? {
      var k := FirstStep(s, i, items);
      Complete(s, k, items.tail);
    }
  }

  /** The scanner accepts exactly the grammar. */
  lemma Exact(s: string)
    ensures Scan(s, 0) == Count(1) <==> InGrammar(s)
  {
    if Scan(s, 0) == Count(1) {
      var items := Sound(s, 0);
    }
    if InGrammar(s) {
      var items :| AllWellFormed(items) && Render(items) == s && Directives(items) == 1;
      Complete(s, 0, items);
    }
  }

  /** A single directive is accepted exactly for an integer conversion. */
  lemma Conversions(c: char)
    ensures InGrammar(['%', c]) <==> c in "diuoxX"
  {
    var s := ['%', c];
    Exact(s);
    assert Scan(s, 2) == Count(0);
    if c in "diuoxX" {
      assert ConversionAt(s, 1) == 1;
    }
  }

  /** A character before a "d" is accepted exactly when it is a flag, a digit or the point of a precision,
      or makes a directive of its own. */
  lemma BeforeConversion(c: char)
    ensures InGrammar(['%', c, 'd']) <==> c in "-+ #" || '0' <= c <= '9' || c == '.' || c in "diuoxX"
  {
    var s := ['%', c, 'd'];
    Exact(s);
    assert Scan(s, 3) == Count(0) && Scan(s, 2) == Count(0);
    assert FlagsEnd(s, 2) == 2 && DigitsEnd(s, 2) == 2;
    if c in "-+ #" || '0' <= c <= '9' || c == '.' {
      assert ConversionAt(s, 1) == 2;
    } else {
      assert ConversionAt(s, 1) == 1;
    }
  }

  /** Only one count can be read off a string. */
  lemma Unambiguous(a: Items, b: Items)
    requires AllWellFormed(a) && AllWellFormed(b) && Render(a) == Render(b)
    ensures Directives(a) == Directives(b)
  {
    Complete(Render(a), 0, a);
    Complete(Render(b), 0, b);
  }

  // ---------------------------------------------------------------------------
  // The loops of the source
  // ---------------------------------------------------------------------------

  /** The scans after a '%'. */
  method SkipDirective(pattern: string, from: nat) returns (i: nat)
    requires from <= |pattern|
    ensures i == ConversionAt(pattern, from)
  {
    i := from;
    while i < |pattern| &&
          (pattern[i] == '-' || pattern[i] == '+' || pattern[i] == ' ' || pattern[i] == '#' || pattern[i] == '0')
      invariant from <= i <= |pattern| && FlagsEnd(pattern, from) == FlagsEnd(pattern, i)
    {
      i := i + 1;
    }
    ghost var a := i;
    while i < |pattern| && '0' <= pattern[i] <= '9'
      invariant a <= i <= |pattern| && DigitsEnd(pattern, a) == DigitsEnd(pattern, i)
    {
      i := i + 1;
    }
    if i < |pattern| && pattern[i] == '.' {
      i := i + 1;
      ghost var b := i;
      while i < |pattern| && '0' <= pattern[i] <= '9'
        invariant b <= i <= |pattern| && DigitsEnd(pattern, b) == DigitsEnd(pattern, i)
      {
        i := i + 1;
      }
    }
  }

  /** validate_dump_pattern */
  method ValidateDumpPattern(pattern: string) returns (ok: bool)
    ensures ok <==> InGrammar(pattern)
  {
    Exact(pattern);
    var slots: nat := 0;
    var i := 0;
    while i < |pattern|
      invariant 0 <= i <= |pattern|
      invariant Scan(pattern, 0) == More(Scan(pattern, i), slots)
    {
      if pattern[i] != '%' {
        i := i + 1;
        continue;
      }
      i := i + 1;
      if i >= |pattern| {
        return false;
      }
      if pattern[i] == '%' {
        i := i + 1;
        continue;
      }
      i := SkipDirective(pattern, i);
      if i >= |pattern| {
        return false;
      }
      var c := pattern[i];
      if c == 'd' || c == 'i' || c == 'u' || c == 'o' || c == 'x' || c == 'X' {
        slots := slots + 1;
      } else {
        return false;
      }
      i := i + 1;
    }
    return slots == 1;
  }
}
