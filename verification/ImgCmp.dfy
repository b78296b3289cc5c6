/** The comparison tool's reader (source/apps/imgcmp/image_class.hpp, `read_pnmpgx`): the header
    state machine, the count-and-rewind after it, and sample decoding.

    `RewindExact` says exactly when the rewind lands on the first payload byte. */
module ImgCmp {
  import opened MachineInts
  import opened ByteRows
  import opened CFile
  import opened Options
  import opened Substrings
  import PackKernels
  import Pgx
  import Writers

  /** What the reader leaves in the object. */
  datatype Image = Image(components: nat, width: nat, height: nat, bitDepth: nat, signed: bool, data: seq<int>)

  /** Exit is exit(EXIT_FAILURE); Hang is one of the loops that ignore the end of the file; Undefined
      is the logarithm of 0. ASCII samples are not decoded here. */
  datatype Outcome = Exit | Hang | Undefined | Ascii | Loaded(image: Image)

  // ---------------------------------------------------------------------------
  // The reader as a function of the file
  // ---------------------------------------------------------------------------

  predicate IsGap(b: byte) {
    b == SP || b == LF
  }

  /** Where fgets(comment, 256) stops when it starts at i: after a line end, or 255 bytes, or at the end. */
  function LineEnd(s: seq<byte>, i: nat, room: nat): (j: nat)
    requires i <= |s|
    ensures i <= j <= |s|
    ensures i < |s| && room > 0 ==> j > i
    decreases room
  {
    if i == |s| || room == 0 then i
    else if s[i] == LF then i + 1
    else LineEnd(s, i + 1, room - 1)
  }

  datatype Eaten = Eaten(next: nat, count: nat) | Broken

  /** Blanks and comments from the character at i on: the index of the first other character and how
      many blanks there were. Comments are only looked for after a blank, and are not counted. */
  function Eat(s: seq<byte>, i: nat, count: nat): (r: Eaten)
    requires i <= |s|
    ensures r.Eaten? ==> i <= r.next <= |s|
    decreases |s| - i
  {
    if i == |s| || !IsGap(s[i]) then Eaten(i, count)
    else if i + 1 < |s| && s[i + 1] == HASH then
      if i + 2 == |s| then Broken else Eat(s, LineEnd(s, i + 2, 255), count + 1)
    else Eat(s, i + 1, count + 1)
  }

  datatype Digits = Digits(value: nat, next: nat)

  /** The digits from index i on, gathered into a number. */
  function ReadNat(s: seq<byte>, i: nat, v: nat): (r: Digits)
    requires i <= |s|
    ensures i <= r.next <= |s|
    decreases |s| - i
  {
    if i < |s| && IsDigit(s[i]) then ReadNat(s, i + 1, v * 10 + (s[i] - 0x30)) else Digits(v, i)
  }

  /** One trip of the status loop, from the cursor i; the character that ends the number is consumed.
      None: the comment could not be read. */
  function NextNumber(s: seq<byte>, i: nat): (r: Option<Digits>)
    requires i <= |s|
    ensures r.Some? ==> i <= r.value.next <= |s|
  {
    var e := Eat(s, i, 0);
    if e.Broken? then None
    else
      var d := ReadNat(s, e.next, 0);
      Some(Digits(d.value, After(s, d.next)))
  }

  /** Takes every character up to a blank or a line feed as a digit, from the one at i on: the value and
      the cursor, or None when the file ends first. */
  function ReadDepth(s: seq<byte>, i: nat, v: int): (r: Option<(int, nat)>)
    ensures r.Some? ==> r.value.1 <= |s|
    decreases |s| - i
  {
    if i + 1 >= |s| then None
    else
      var u := v * 10 + (s[i] as int - 0x30);
      if IsGap(s[i + 1]) then Some((u, i + 2)) else ReadDepth(s, i + 1, u)
  }

  /** What is known before the status loop. */
  datatype Head = Head(components: nat, ascii: bool, pgx: bool, signed: bool, big: bool, bitDepth: nat, next: nat)

  /** The PGX branch, from the cursor after "PG"; None when a loop never ends. */
  function PgxHead(s: seq<byte>): (r: Option<Head>)
    requires 2 <= |s|
    ensures r.Some? ==> r.value.next <= |s|
  {
    var i := SkipTo(s, 2, Order);
    if i == |s| then None
    else
      var j := SkipTo(s, After(s, i + 1), SignOrDigit);
      if j == |s| then None
      else
        var k := if s[j] == PLUS || s[j] == MINUS then SkipTo(s, j + 1, Digit) else j;
        var d := ReadDepth(s, k, 0);
        if d.None? then None
        else Some(Head(1, false, true, s[j] == MINUS, s[i] == 'M' as int, d.value.0 % 0x100, d.value.1))
  }

  function PnmHead(components: nat, ascii: bool): Head {
    Head(components, ascii, false, false, true, 0, 2)
  }

  /** ceil(log2(n)): the least k with 2^k >= n. */
  function CeilLog2(n: nat): nat {
    if n <= 1 then 0 else 1 + CeilLog2((n + 1) / 2)
  }

  /** The rewind before the samples: a character is read, blanks and comments are eaten, and the cursor goes
      back by one more than the blanks that were counted. This is where it ends up. */
  function Rewound(s: seq<byte>, start: nat): Option<nat>
    requires start <= |s|
  {
    var e := Eat(s, start, 0);
    if e.Broken? then None
    else if After(s, e.next) >= e.count + 1 then Some(After(s, e.next) - e.count - 1)
    else Some(After(s, e.next))
  }

  function SampleAt(nbytes: nat, signed: bool, big: bool, buf: seq<byte>, i: nat): int
    requires 1 <= nbytes <= 2 && nbytes * i + nbytes <= |buf|
  {
    if nbytes == 1 then Pgx.Sample8(buf[i], signed)
    else Pgx.Sample16(buf[2 * i], buf[2 * i + 1], big, signed)
  }

  /** The first n samples. */
  function Samples(nbytes: nat, signed: bool, big: bool, buf: seq<byte>, n: nat): (r: seq<int>)
    requires 1 <= nbytes <= 2 && nbytes * n <= |buf|
    ensures |r| == n
  {
    if n == 0 then [] else Samples(nbytes, signed, big, buf, n - 1) + [SampleAt(nbytes, signed, big, buf, n - 1)]
  }

  /** Reading and decoding the samples from the cursor `at` on. */
  function Payload(s: seq<byte>, at: nat, h: Head, width: nat, height: nat, bitDepth: nat): Outcome {
    var nbytes := (bitDepth + 7) / 8;
    var n := width * height * h.components;
    var buf := Pgx.Fread(s, at, nbytes * n);
    if buf.None? || !(1 <= nbytes <= 2) then Exit
    else Loaded(Image(h.components, width, height, bitDepth, h.signed, Samples(nbytes, h.signed, h.big, buf.value, n)))
  }

  /** From the end of the header on. */
  function Finish(s: seq<byte>, start: nat, h: Head, width: nat, height: nat, bitDepth: nat): Outcome
    requires start <= |s|
  {
    var at := Rewound(s, start);
    if at.None? then Exit
    else if h.ascii then Ascii
    else Payload(s, at.value, h, width, height, bitDepth)
  }

  /** The status loop. */
  function Numbers(s: seq<byte>, h: Head): Outcome
    requires h.next <= |s|
  {
    var w := NextNumber(s, h.next);
    if w.None? then Exit
    else
      var t := NextNumber(s, w.value.next);
      if t.None? then Exit
      else if h.pgx then Finish(s, t.value.next, h, w.value.value, t.value.value, h.bitDepth)
      else
        var m := NextNumber(s, t.value.next);
        if m.None? then Exit
        else if m.value.value == 0 then Undefined
        else Finish(s, m.value.next, h, w.value.value, t.value.value, CeilLog2(m.value.value))
  }

  /** read_pnmpgx on a whole file. */
  function Load(s: seq<byte>): Outcome {
    if |s| < 2 || s[0] != 'P' as int then Exit
    else if s[1] == '2' as int || s[1] == '5' as int then Numbers(s, PnmHead(1, s[1] == '2' as int))
    else if s[1] == '3' as int || s[1] == '6' as int then Numbers(s, PnmHead(3, s[1] == '3' as int))
    else if s[1] == 'G' as int then
      var h := PgxHead(s);
      if h.None? then Hang else Numbers(s, h.value)
    else Exit
  }

  // ---------------------------------------------------------------------------
  // The reader as the source runs it
  // ---------------------------------------------------------------------------

  /** fgets(comment, 256): false at the end of the file. */
  method Fgets(f: File) returns (ok: bool)
    requires f.pos <= |f.data|
    modifies f
    ensures ok == (old(f.pos) < |f.data|)
    ensures f.pos == LineEnd(f.data, old(f.pos), 255)
  {
    ok := f.pos < |f.data|;
    var room := 255;
    while room > 0 && f.pos < |f.data|
      invariant 0 <= room <= 255 && f.pos <= |f.data|
      invariant LineEnd(f.data, old(f.pos), 255) == LineEnd(f.data, f.pos, room)
    {
      var c := f.Getc();
      room := room - 1;
      if c == LF {
        return;
      }
    }
  }

  /** Eats blanks and line feeds, counting them, and any comment line that follows one. */
  method EatBlanks(f: File, c0: int, ghost i: nat) returns (ok: bool, c: int, count: nat, ghost j: nat)
    requires f.Read(c0, i)
    modifies f
    ensures Eat(f.data, i, 0) == if ok then Eaten(j, count) else Broken
    ensures ok ==> f.Read(c, j)
  {
    ok, c, count, j := true, c0, 0, i;
    while c == SP || c == LF
      invariant f.Read(c, j)
      invariant Eat(f.data, i, 0) == Eat(f.data, j, count)
      decreases |f.data| - j
    {
      count := count + 1;
      c := f.Getc();
      if c == HASH {
        ok := Fgets(f);
        if !ok {
          return;
        }
        j := f.pos;
        c := f.Getc();
      } else {
        j := j + 1;
      }
    }
  }

  method TakeNat(f: File, c0: int, ghost i: nat) returns (v: nat, c: int, ghost j: nat)
    requires f.Read(c0, i)
    modifies f
    ensures Digits(v, j) == ReadNat(f.data, i, 0) && f.Read(c, j)
  {
    v, c, j := 0, c0, i;
    while c != EOF && IsDigit(c)
      invariant f.Read(c, j)
      invariant ReadNat(f.data, i, 0) == ReadNat(f.data, j, v)
      decreases |f.data| - j
    {
      v := v * 10 + (c - 0x30);
      c := f.Getc();
      j := j + 1;
    }
  }

  /** One trip of the status loop. */
  method TakeNumber(f: File) returns (ok: bool, v: nat)
    requires f.pos <= |f.data|
    modifies f
    ensures ok == NextNumber(f.data, old(f.pos)).Some?
    ensures ok ==> NextNumber(f.data, old(f.pos)) == Some(Digits(v, f.pos)) && f.pos <= |f.data|
  {
    var c := f.Getc();
    var count;
    ghost var j: nat;
    ok, c, count, j := EatBlanks(f, c, old(f.pos));
    v := 0;
    if ok {
      v, c, j := TakeNat(f, c, j);
    }
  }

  /** The bit depth of a PGX header; false when the loop never ends. */
  method TakeDepth(f: File, c0: int, ghost i: nat) returns (ok: bool, v: int)
    requires f.Read(c0, i)
    modifies f
    ensures ok == ReadDepth(f.data, i, 0).Some?
    ensures ok ==> ReadDepth(f.data, i, 0) == Some((v, f.pos))
  {
    v := 0;
    var c := c0;
    ghost var j := i;
    ok := true;
    while true
      invariant f.Read(c, j)
      invariant ReadDepth(f.data, i, 0) == ReadDepth(f.data, j, v)
      decreases |f.data| - j
    {
      if c == EOF {
        return false, v;
      }
      v := v * 10 + (c - 0x30);
      c := f.Getc();
      j := j + 1;
      if c == SP || c == LF {
        return;
      }
      if c == EOF {
        return false, v;
      }
    }
  }

  /** The PGX branch. */
  method TakePgxHead(f: File) returns (ok: bool, h: Head)
    requires f.pos == 2 <= |f.data|
    modifies f
    ensures ok == PgxHead(f.data).Some?
    ensures ok ==> PgxHead(f.data) == Some(h) && f.pos == h.next
  {
    h := PnmHead(1, false);
    ghost var j: nat;
    var c;
    c, j := ScanTo(f, Order);
    if c == EOF {
      return false, h;
    }
    var big := c == 'M' as int;
    c := f.Getc();
    c, j := ScanTo(f, SignOrDigit);
    if c == EOF {
      return false, h;
    }
    var signed := c == MINUS;
    if c == PLUS || c == MINUS {
      c, j := ScanTo(f, Digit);
    }
    var v;
    ok, v := TakeDepth(f, c, j);
    if ok {
      h := Head(1, false, true, signed, big, v % 0x100, f.pos);
    }
  }

  method DecodeSamples(nbytes: nat, signed: bool, big: bool, buf: seq<byte>, n: nat) returns (data: array<int>)
    requires 1 <= nbytes <= 2 && nbytes * n == |buf|
    ensures fresh(data) && data[..] == Samples(nbytes, signed, big, buf, n)
  {
    data := new int[n];
    var i := 0;
    while i < n
      invariant 0 <= i <= n
      invariant data[..i] == Samples(nbytes, signed, big, buf, i)
    {
      data[i] := SampleAt(nbytes, signed, big, buf, i);
      assert data[..i + 1] == data[..i] + [data[i]];
      i := i + 1;
    }
    assert data[..n] == data[..];
  }

  /** The rewind itself. */
  method Rewind(f: File) returns (ok: bool)
    requires f.pos <= |f.data|
    modifies f
    ensures Rewound(f.data, old(f.pos)) == if ok then Some(f.pos) else None
  {
    var c := f.Getc();
    var count;
    ghost var j: nat;
    ok, c, count, j := EatBlanks(f, c, old(f.pos));
    if ok && f.pos >= count + 1 {
      f.Seek(f.pos - count - 1);
    }
  }

  /** Reading and decoding from the cursor on. */
  method TakeSamples(f: File, h: Head, width: nat, height: nat, bitDepth: nat) returns (o: Outcome)
    modifies f
    ensures o == Payload(f.data, old(f.pos), h, width, height, bitDepth)
  {
    var nbytes := (bitDepth + 7) / 8;
    var n := width * height * h.components;
    var need := nbytes * n;
    var buf := f.ReadBytes(need);
    if |buf| < need || !(1 <= nbytes <= 2) {
      return Exit;
    }
    var data := DecodeSamples(nbytes, h.signed, h.big, buf, n);
    o := Loaded(Image(h.components, width, height, bitDepth, h.signed, data[..]));
  }

  /** Everything after the header. */
  method TakePayload(f: File, h: Head, width: nat, height: nat, bitDepth: nat) returns (o: Outcome)
    requires f.pos <= |f.data|
    modifies f
    ensures o == Finish(f.data, old(f.pos), h, width, height, bitDepth)
  {
    var ok := Rewind(f);
    if !ok {
      return Exit;
    }
    if h.ascii {
      return Ascii;
    }
    o := TakeSamples(f, h, width, height, bitDepth);
  }

  datatype Status = ReadWidth | ReadHeight | ReadMaxval | Done

  /** The status loop and what follows it. */
  method TakeNumbers(f: File, h: Head) returns (o: Outcome)
    requires f.pos == h.next <= |f.data|
    modifies f
    ensures o == Numbers(f.data, h)
  {
    var status := ReadWidth;
    var width: nat, height: nat, bitDepth: nat := 0, 0, h.bitDepth;
    while status != Done
      invariant f.pos <= |f.data|
      invariant status == ReadWidth ==> f.pos == h.next && bitDepth == h.bitDepth
      invariant status == ReadHeight ==>
        NextNumber(f.data, h.next) == Some(Digits(width, f.pos)) && bitDepth == h.bitDepth
      invariant status == ReadMaxval ==> !h.pgx && Numbers(f.data, h) == AtMaxval(f.data, f.pos, h, width, height)
      invariant status == Done ==> Numbers(f.data, h) == Finish(f.data, f.pos, h, width, height, bitDepth)
      decreases match status case ReadWidth => 3 case ReadHeight => 2 case ReadMaxval => 1 case Done => 0
    {
      var ok, val := TakeNumber(f);
      if !ok {
        return Exit;
      }
      match status {
        case ReadWidth =>
          width, status := val, ReadHeight;
        case ReadHeight =>
          height := val;
          status := if h.pgx then Done else ReadMaxval;
        case ReadMaxval =>
          if val == 0 {
            return Undefined;
          }
          bitDepth, status := CeilLog2(val), Done;
        case Done =>
      }
    }
    o := TakePayload(f, h, width, height, bitDepth);
  }

  /** The status loop with only the maximum value left to read. */
  function AtMaxval(s: seq<byte>, i: nat, h: Head, width: nat, height: nat): Outcome
    requires i <= |s|
  {
    var m := NextNumber(s, i);
    if m.None? then Exit
    else if m.value.value == 0 then Undefined
    else Finish(s, m.value.next, h, width, height, CeilLog2(m.value.value))
  }

  /** read_pnmpgx */
  method ReadPnmPgx(f: File) returns (o: Outcome)
    requires f.pos == 0
    modifies f
    ensures o == Load(f.data)
  {
    var c := f.Getc();
    if c != 'P' as int {
      return Exit;
    }
    c := f.Getc();
    if c == '2' as int || c == '5' as int {
      o := TakeNumbers(f, PnmHead(1, c == '2' as int));
    } else if c == '3' as int || c == '6' as int {
      o := TakeNumbers(f, PnmHead(3, c == '3' as int));
    } else if c == 'G' as int {
      var ok, h := TakePgxHead(f);
      if !ok {
        return Hang;
      }
      o := TakeNumbers(f, h);
    } else {
      o := Exit;
    }
  }

  // ---------------------------------------------------------------------------
  // The rewind
  // ---------------------------------------------------------------------------

  /** The first index from i on that is not a space or line feed. */
  function Solid(s: seq<byte>, i: nat): (j: nat)
    requires i <= |s|
    ensures i <= j <= |s|
    ensures j < |s| ==> !IsGap(s[j])
    ensures j > i ==> IsGap(s[i])
    decreases |s| - i
  {
    if i < |s| && IsGap(s[i]) then Solid(s, i + 1) else i
  }

  /** Something other than blanks follows, and blanks do not lead into a comment. */
  predicate Clear(s: seq<byte>, i: nat)
    requires i <= |s|
  {
    Solid(s, i) < |s| && (Solid(s, i) == i || s[Solid(s, i)] != HASH)
  }

  /** Each step moves on at least as far as it counts. */
  lemma {:induction false} EatDrift(s: seq<byte>, i: nat, count: nat)
    requires i <= |s|
    ensures Eat(s, i, count).Eaten? ==> Eat(s, i, count).next - Eat(s, i, count).count >= i - count
    decreases |s| - i
  {
    if i < |s| && IsGap(s[i]) {
      if i + 1 < |s| && s[i + 1] == HASH {
        if i + 2 < |s| {
          EatDrift(s, LineEnd(s, i + 2, 255), count + 1);
        }
      } else {
        EatDrift(s, i + 1, count + 1);
      }
    }
  }

  /** A run of blanks is counted exactly; a comment moves on further than it counts. */
  lemma {:induction false} EatRun(s: seq<byte>, i: nat, count: nat)
    requires i <= |s|
    ensures var j := Solid(s, i);
      if j == i || j == |s| || s[j] != HASH then Eat(s, i, count) == Eaten(j, count + (j - i))
      else Eat(s, i, count).Eaten? ==> Eat(s, i, count).next - Eat(s, i, count).count >= i - count + 2
    decreases |s| - i
  {
    if i < |s| && IsGap(s[i]) {
      if i + 1 < |s| && s[i + 1] == HASH {
        assert Solid(s, i + 1) == i + 1;
        if i + 2 < |s| {
          EatDrift(s, LineEnd(s, i + 2, 255), count + 1);
        }
      } else {
        EatRun(s, i + 1, count + 1);
      }
    }
  }

  /** The cursor ends up where the payload starts exactly when something other than spaces and line
      feeds follows and a leading run of them does not end in '#'. */
  lemma RewindExact(s: seq<byte>, start: nat)
    requires 1 <= start <= |s|
    ensures Rewound(s, start) == Some(start) <==> Clear(s, start)
  {
    EatRun(s, start, 0);
  }

  /** At the end of the file there is no last character to take back: the rewind goes one byte too far. */
  lemma RewindAtEnd(s: seq<byte>, start: nat)
    requires 1 <= start <= |s| && Solid(s, start) == |s|
    ensures Rewound(s, start) == Some(start - 1)
  {
    EatRun(s, start, 0);
  }

  // ---------------------------------------------------------------------------
  // Printed headers
  // ---------------------------------------------------------------------------

  lemma {:induction false} NatBack(s: seq<byte>, i: nat, n: nat)
    requires Stands(s, i, Decimal(n))
    ensures ReadNat(s, i, 0) == ReadNat(s, i + |Decimal(n)|, n)
  {
    if n < 10 {
      StandsAt(s, i, Decimal(n), 0);
    } else {
      var t := Decimal(n / 10);
      StandsSplit(s, i, t, [0x30 + n % 10]);
      NatBack(s, i, n / 10);
      StandsAt(s, i + |t|, [0x30 + n % 10], 0);
    }
  }

  /** A number and its separator. */
  lemma FieldBack(s: seq<byte>, i: nat, n: nat, gap: byte)
    requires Stands(s, i, Decimal(n) + [gap]) && IsGap(gap)
    ensures i + |Decimal(n)| + 1 <= |s| && IsDigit(s[i])
    ensures NextNumber(s, i) == Some(Digits(n, i + |Decimal(n)| + 1))
  {
    StandsSplit(s, i, Decimal(n), [gap]);
    StandsAt(s, i + |Decimal(n)|, [gap], 0);
    StandsAt(s, i, Decimal(n), 0);
    NatBack(s, i, n);
  }

  /** The same with a space in front, as after "P5". */
  lemma FirstField(s: seq<byte>, i: nat, n: nat, gap: byte)
    requires Stands(s, i, [SP] + (Decimal(n) + [gap])) && IsGap(gap)
    ensures i + |Decimal(n)| + 2 <= |s|
    ensures NextNumber(s, i) == Some(Digits(n, i + |Decimal(n)| + 2))
  {
    StandsSplit(s, i, [SP], Decimal(n) + [gap]);
    StandsAt(s, i, [SP], 0);
    FieldBack(s, i + 1, n, gap);
    assert Eat(s, i, 0) == Eat(s, i + 1, 1);
    assert Eat(s, i + 1, 1) == Eaten(i + 1, 1);
  }

  /** A bit depth with more digits to come. */
  lemma {:induction false} DepthPrefix(s: seq<byte>, i: nat, n: nat)
    requires Stands(s, i, Decimal(n)) && i + |Decimal(n)| < |s| && IsDigit(s[i + |Decimal(n)|])
    ensures ReadDepth(s, i, 0) == ReadDepth(s, i + |Decimal(n)|, n)
  {
    if n < 10 {
      StandsAt(s, i, Decimal(n), 0);
    } else {
      var t := Decimal(n / 10);
      StandsSplit(s, i, t, [0x30 + n % 10]);
      StandsAt(s, i + |t|, [0x30 + n % 10], 0);
      DepthPrefix(s, i, n / 10);
    }
  }

  /** The last digit of a bit depth. */
  lemma DepthLast(s: seq<byte>, i: nat, v: nat)
    requires i + 1 < |s| && IsDigit(s[i]) && s[i + 1] == SP
    ensures ReadDepth(s, i, v) == Some((v * 10 + (s[i] - 0x30), i + 2))
  {
  }

  lemma DepthBack(s: seq<byte>, i: nat, n: nat)
    requires Stands(s, i, Decimal(n) + [SP])
    ensures i + |Decimal(n)| + 1 <= |s| && IsDigit(s[i])
    ensures ReadDepth(s, i, 0) == Some((n, i + |Decimal(n)| + 1))
  {
    StandsSplit(s, i, Decimal(n), [SP]);
    StandsAt(s, i + |Decimal(n)|, [SP], 0);
    StandsAt(s, i, Decimal(n), 0);
    DepthStands(s, i, n);
  }

  lemma DepthStands(s: seq<byte>, i: nat, n: nat)
    requires Stands(s, i, Decimal(n)) && i + |Decimal(n)| < |s| && s[i + |Decimal(n)|] == SP
    ensures ReadDepth(s, i, 0) == Some((n, i + |Decimal(n)| + 1))
  {
    if n < 10 {
      StandsAt(s, i, Decimal(n), 0);
      DepthLast(s, i, 0);
    } else {
      var t := Decimal(n / 10);
      StandsSplit(s, i, t, [0x30 + n % 10]);
      StandsAt(s, i + |t|, [0x30 + n % 10], 0);
      DepthPrefix(s, i, n / 10);
      DepthLast(s, i + |t|, n / 10);
    }
  }

  /** The PGX branch on a printed header. */
  lemma PgxHeadBack(s: seq<byte>, big: bool, signed: bool, depth: byte)
    requires Stands(s, 0, Pgx.SignPart(big, signed)) && Stands(s, 8, Decimal(depth) + [SP])
    ensures 8 + |Decimal(depth)| + 1 <= |s| && s[0] == 'P' as int && s[1] == 'G' as int
    ensures PgxHead(s) == Some(Head(1, false, true, signed, big, depth, 8 + |Decimal(depth)| + 1))
  {
    DepthBack(s, 8, depth);
    Pgx.PartBytes(s, big, signed);
    SkipToIs(s, 2, Order, 3);
    SkipToIs(s, 5, SignOrDigit, 6);
    SkipToIs(s, 7, Digit, 8);
  }

  lemma PgxSizesBack(s: seq<byte>, head: Head, w: uint32, h: uint32, i: nat, j: nat, n: nat)
    requires w < 0x8000_0000 && h < 0x8000_0000 && head.pgx && head.next == i
    requires j == i + |PrintD(w)| + 1 && n == j + |PrintD(h)| + 1
    requires Stands(s, i, PrintD(w) + [SP]) && Stands(s, j, PrintD(h) + [LF])
    ensures i <= n <= |s| && Numbers(s, head) == Finish(s, n, head, w, h, head.bitDepth)
  {
    FieldBack(s, i, w, SP);
    FieldBack(s, j, h, LF);
    TwoNumbers(s, head, w, h, j, n);
  }

  lemma TwoNumbers(s: seq<byte>, head: Head, w: nat, h: nat, j: nat, n: nat)
    requires head.next <= |s| && j <= |s| && head.pgx
    requires NextNumber(s, head.next) == Some(Digits(w, j)) && NextNumber(s, j) == Some(Digits(h, n))
    ensures n <= |s| && Numbers(s, head) == Finish(s, n, head, w, h, head.bitDepth)
  {
  }

  lemma PgxLoad(s: seq<byte>, head: Head)
    requires 2 <= |s| && s[0] == 'P' as int && s[1] == 'G' as int && PgxHead(s) == Some(head)
    ensures head.next <= |s| && Load(s) == Numbers(s, head)
  {
  }

  /** On a printed PGX file the status loop ends right after the header. */
  lemma PgxNumbersBack(s: seq<byte>, big: bool, signed: bool, depth: byte, w: uint32, h: uint32, i: nat, j: nat, n: nat)
    requires w < 0x8000_0000 && h < 0x8000_0000 && Pgx.LaidOut(s, big, signed, depth, w, h, i, j, n)
    ensures n <= |s| && i <= |s|
    ensures Load(s) == Finish(s, n, Head(1, false, true, signed, big, depth, i), w, h, depth)
  {
    var head := Head(1, false, true, signed, big, depth, i);
    PgxHeadBack(s, big, signed, depth);
    PgxLoad(s, head);
    PgxSizesBack(s, head, w, h, i, j, n);
  }

  lemma PgxHeaderRead(big: bool, signed: bool, depth: byte, w: uint32, h: uint32, s: seq<byte>, payload: seq<byte>)
    requires w < 0x8000_0000 && h < 0x8000_0000 && s == Pgx.HeaderText(big, signed, depth, w, h) + payload
    ensures |Pgx.HeaderText(big, signed, depth, w, h)| <= |s|
    ensures Load(s) == Finish(s, |Pgx.HeaderText(big, signed, depth, w, h)|,
                              Head(1, false, true, signed, big, depth, 9 + |PrintD(depth)|), w, h, depth)
  {
    var i, j := Pgx.HeaderLaidOut(big, signed, depth, w, h, payload);
    PgxNumbersBack(s, big, signed, depth, w, h, i, j, |Pgx.HeaderText(big, signed, depth, w, h)|);
  }

  /** "P5 %d %d %d\n" and "P6 %d %d %d\n" */
  function PnmText(magic: byte, w: uint32, h: uint32, maxval: nat): seq<byte> {
    ['P' as int, magic] + ([SP] + (PrintD(w) + [SP])) + (PrintD(h) + [SP]) + (Decimal(maxval) + [LF])
  }

  lemma PgmText(signed: bool, depth: byte, w: uint32, h: uint32)
    requires 1 <= depth <= 16
    ensures Writers.HeaderOf(Writers.Pgm, signed, depth, w, h) == PnmText('5' as int, w, h, Writers.MaxVal(depth))
  {
    var a, b, c := PrintD(w), PrintD(h), Decimal(Writers.MaxVal(depth));
    assert ['P' as int, '5' as int, SP] + a + [SP] + b + [SP] + c + [LF] == ['P' as int, '5' as int] +
        ([SP] + (a + [SP])) + (b + [SP]) + (c + [LF]);
  }

  lemma ThreeNumbers(s: seq<byte>, head: Head, w: nat, h: nat, maxval: nat, i: nat, j: nat, n: nat)
    requires head.next <= |s| && i <= |s| && j <= |s| && maxval > 0 && !head.pgx
    requires NextNumber(s, head.next) == Some(Digits(w, i))
    requires NextNumber(s, i) == Some(Digits(h, j))
    requires NextNumber(s, j) == Some(Digits(maxval, n))
    ensures n <= |s| && Numbers(s, head) == Finish(s, n, head, w, h, CeilLog2(maxval))
  {
  }

  /** A printed PGM or PPM header in s, its last two numbers at i and j, its end at n. */
  predicate PnmLaidOut(s: seq<byte>, magic: byte, w: uint32, h: uint32, maxval: nat, i: nat, j: nat, n: nat) {
    && i == 2 + |PrintD(w)| + 2 && j == i + |PrintD(h)| + 1 && n == j + |Decimal(maxval)| + 1
    && Stands(s, 0, ['P' as int, magic]) && Stands(s, 2, [SP] + (PrintD(w) + [SP]))
    && Stands(s, i, PrintD(h) + [SP]) && Stands(s, j, Decimal(maxval) + [LF])
  }

  /** On a printed PGM or PPM file the status loop ends right after the header. */
  lemma PnmNumbersBack(s: seq<byte>, magic: byte, w: uint32, h: uint32, maxval: nat, head: Head, i: nat, j: nat, n: nat)
    requires w < 0x8000_0000 && h < 0x8000_0000 && maxval > 0 && !head.pgx && head.next == 2 <= |s|
    requires PnmLaidOut(s, magic, w, h, maxval, i, j, n)
    ensures n <= |s| && Numbers(s, head) == Finish(s, n, head, w, h, CeilLog2(maxval))
  {
    FirstField(s, 2, w, SP);
    FieldBack(s, i, h, SP);
    FieldBack(s, j, maxval, LF);
    ThreeNumbers(s, head, w, h, maxval, i, j, n);
  }

  lemma PnmLoad(s: seq<byte>, color: bool)
    requires Stands(s, 0, ['P' as int, if color then '6' as int else '5' as int])
    ensures 2 <= |s| && Load(s) == Numbers(s, PnmHead(if color then 3 else 1, false))
  {
    StandsAt(s, 0, ['P' as int, if color then '6' as int else '5' as int], 0);
    StandsAt(s, 0, ['P' as int, if color then '6' as int else '5' as int], 1);
  }

  lemma PnmHeaderLaidOut(magic: byte, w: uint32, h: uint32, maxval: nat, payload: seq<byte>) returns (i: nat, j: nat)
    ensures PnmLaidOut(PnmText(magic, w, h, maxval) + payload, magic, w, h, maxval, i, j,
                       |PnmText(magic, w, h, maxval)|)
  {
    var s := PnmText(magic, w, h, maxval) + payload;
    Pgx.Layout(s, ['P' as int, magic], [SP] + (PrintD(w) + [SP]), PrintD(h) + [SP], Decimal(maxval) + [LF], payload);
    i := 2 + |PrintD(w)| + 2;
    j := i + |PrintD(h)| + 1;
  }

  lemma PnmHeaderRead(color: bool, w: uint32, h: uint32, maxval: nat, s: seq<byte>, payload: seq<byte>)
    requires w < 0x8000_0000 && h < 0x8000_0000 && maxval > 0
    requires s == PnmText(if color then '6' as int else '5' as int, w, h, maxval) + payload
    ensures |PnmText(if color then '6' as int else '5' as int, w, h, maxval)| <= |s|
    ensures Load(s) == Finish(s, |PnmText(if color then '6' as int else '5' as int, w, h, maxval)|,
                              PnmHead(if color then 3 else 1, false), w, h, CeilLog2(maxval))
  {
    var magic := if color then '6' as int else '5' as int;
    var i, j := PnmHeaderLaidOut(magic, w, h, maxval, payload);
    PnmLoad(s, color);
    PnmNumbersBack(s, magic, w, h, maxval, PnmHead(if color then 3 else 1, false), i, j,
                   |PnmText(magic, w, h, maxval)|);
  }

  // ---------------------------------------------------------------------------
  // The bit depth of a PNM file
  // ---------------------------------------------------------------------------

  lemma {:induction false} CeilLog2Least(n: nat)
    requires n >= 1
    ensures Pow2(CeilLog2(n)) >= n && (CeilLog2(n) > 0 ==> Pow2(CeilLog2(n) - 1) < n)
  {
    if n > 1 {
      CeilLog2Least((n + 1) / 2);
    }
  }

  lemma {:induction false} CeilLog2OfPower(k: nat)
    ensures CeilLog2(Pow2(k)) == k
  {
    if k > 0 {
      CeilLog2OfPower(k - 1);
    }
  }

  /** The maximum value of depth d gives d back, except that depth 1 gives 0. */
  lemma DepthOfMaxVal(d: nat)
    requires 1 <= d
    ensures CeilLog2(Pow2(d) - 1) == if d == 1 then 0 else d
  {
    if d == 1 {
      assert Pow2(1) == 2;
    } else {
      CeilLog2OfPower(d - 1);
      assert Pow2(d) == 2 * Pow2(d - 1) && Pow2(d - 1) == 2 * Pow2(d - 2);
    }
  }

  // ---------------------------------------------------------------------------
  // The samples
  // ---------------------------------------------------------------------------

  /** Sample by sample is the whole. */
  lemma {:induction false} SamplesAre(nbytes: nat, signed: bool, big: bool, body: seq<byte>, want: seq<int>, n: nat)
    requires 1 <= nbytes <= 2 && |body| == nbytes * |want| && n <= |want|
    requires forall i: nat :: i < |want| ==>
      nbytes * i + nbytes <= |body| && SampleAt(nbytes, signed, big, body, i) == want[i]
    ensures nbytes * n <= |body| && Samples(nbytes, signed, big, body, n) == want[..n]
  {
    if nbytes == 1 {
      assert nbytes * n == n;
    } else {
      assert nbytes * n == 2 * n;
    }
    if n > 0 {
      SamplesAre(nbytes, signed, big, body, want, n - 1);
      assert want[..n] == want[..n - 1] + [want[n - 1]];
    }
  }

  /** The format that writes samples in this order, when there is no offset. */
  function Ordered(big: bool): Writers.Format {
    if big then Writers.Pgm else Writers.Pgx
  }

  lemma WordSample(big: bool, signed: bool, depth: nat, body: seq<byte>, i: nat, v: int32)
    requires 1 <= depth <= 16 && Pgx.InRange(v, signed, depth) && 2 * i + 2 <= |body|
    requires body[2 * i] == (if big then HighByte(v) else LowByte(v))
    requires body[2 * i + 1] == (if big then LowByte(v) else HighByte(v))
    ensures SampleAt(2, signed, big, body, i) == v
  {
    Pgx.Word16Back(v, signed, depth);
  }

  lemma PgxSampleBack(big: bool, bpp: nat, signed: bool, depth: nat, buf: seq<int32>, i: nat)
    requires 1 <= depth <= 16 && bpp == Writers.BytesPerPixel(depth) && i < |buf| && Pgx.InRange(buf[i], signed, depth)
    ensures bpp * i + bpp <= |Flatten(Writers.BatchGroups(Ordered(big), bpp, 0, buf))|
    ensures SampleAt(bpp, signed, big, Flatten(Writers.BatchGroups(Ordered(big), bpp, 0, buf)), i) == buf[i]
  {
    var g := Writers.BatchGroups(Ordered(big), bpp, 0, buf);
    if bpp == 1 {
      FlattenAt(g, 1, i, 0);
      Pgx.Byte8Back(buf[i], signed, depth);
    } else {
      FlattenAt(g, 2, i, 0);
      FlattenAt(g, 2, i, 1);
      WordSample(big, signed, depth, Flatten(g), i, buf[i]);
    }
  }

  lemma PgxSamplesBack(big: bool, bpp: nat, signed: bool, depth: nat, buf: seq<int32>)
    requires 1 <= depth <= 16 && bpp == Writers.BytesPerPixel(depth)
    requires forall i :: 0 <= i < |buf| ==> Pgx.InRange(buf[i], signed, depth)
    ensures |Flatten(Writers.BatchGroups(Ordered(big), bpp, 0, buf))| == bpp * |buf|
    ensures Samples(bpp, signed, big, Flatten(Writers.BatchGroups(Ordered(big), bpp, 0, buf)), |buf|) == buf
  {
    var body := Flatten(Writers.BatchGroups(Ordered(big), bpp, 0, buf));
    FlattenLength(Writers.BatchGroups(Ordered(big), bpp, 0, buf), bpp);
    forall i: nat | i < |buf|
      ensures bpp * i + bpp <= |body| && SampleAt(bpp, signed, big, body, i) == buf[i]
    {
      PgxSampleBack(big, bpp, signed, depth, buf, i);
    }
    SamplesAre(bpp, signed, big, body, buf, |buf|);
    assert buf[..|buf|] == buf;
  }

  lemma Raised8(v: int, depth: nat)
    requires depth <= 8 && 0 <= v < Pow2(depth)
    ensures LowByte(v) == v
  {
    Pow2Monotone(depth, 8);
    Pow2Values();
  }

  lemma Raised16(v: int, depth: nat)
    requires depth <= 16 && 0 <= v < Pow2(depth)
    ensures Pgx.Sample16(HighByte(v), LowByte(v), true, false) == v
  {
    Pow2Monotone(depth, 16);
    Pow2Values();
    PackKernels.LowBitsOf(v);
  }

  /** A PGM keeps each sample with the offset added. */
  lemma PgmSampleBack(bpp: nat, off: int32, depth: nat, buf: seq<int32>, i: nat)
    requires 1 <= depth <= 16 && bpp == Writers.BytesPerPixel(depth) && i < |buf|
    requires 0 <= buf[i] as int + off < Pow2(depth)
    ensures bpp * i + bpp <= |Flatten(Writers.BatchGroups(Writers.Pgm, bpp, off, buf))|
    ensures SampleAt(bpp, false, true, Flatten(Writers.BatchGroups(Writers.Pgm, bpp, off, buf)), i) ==
            buf[i] as int + off
  {
    if bpp == 1 {
      PgmByteBack(off, depth, buf, i);
    } else {
      PgmWordBack(off, depth, buf, i);
    }
  }

  lemma PgmByteBack(off: int32, depth: nat, buf: seq<int32>, i: nat)
    requires 1 <= depth <= 8 && i < |buf| && 0 <= buf[i] as int + off < Pow2(depth)
    ensures i < |Flatten(Writers.BatchGroups(Writers.Pgm, 1, off, buf))|
    ensures Flatten(Writers.BatchGroups(Writers.Pgm, 1, off, buf))[i] == buf[i] as int + off
  {
    FlattenAt(Writers.BatchGroups(Writers.Pgm, 1, off, buf), 1, i, 0);
    Raised8(buf[i] as int + off, depth);
  }

  lemma PgmWordBack(off: int32, depth: nat, buf: seq<int32>, i: nat)
    requires 1 <= depth <= 16 && i < |buf| && 0 <= buf[i] as int + off < Pow2(depth)
    ensures 2 * i + 2 <= |Flatten(Writers.BatchGroups(Writers.Pgm, 2, off, buf))|
    ensures var body := Flatten(Writers.BatchGroups(Writers.Pgm, 2, off, buf));
      Pgx.Sample16(body[2 * i], body[2 * i + 1], true, false) == buf[i] as int + off
  {
    PgmBytes(off, buf, i);
    Raised16(buf[i] as int + off, depth);
  }

  lemma PgmBytes(off: int32, buf: seq<int32>, i: nat)
    requires i < |buf|
    ensures 2 * i + 2 <= |Flatten(Writers.BatchGroups(Writers.Pgm, 2, off, buf))|
    ensures Flatten(Writers.BatchGroups(Writers.Pgm, 2, off, buf))[2 * i] == HighByte(buf[i] as int + off)
    ensures Flatten(Writers.BatchGroups(Writers.Pgm, 2, off, buf))[2 * i + 1] == LowByte(buf[i] as int + off)
  {
    FlattenAt(Writers.BatchGroups(Writers.Pgm, 2, off, buf), 2, i, 0);
    FlattenAt(Writers.BatchGroups(Writers.Pgm, 2, off, buf), 2, i, 1);
  }

  /** The samples of a PGM buffer, as they come back. */
  function Raised(buf: seq<int32>, off: int32): (r: seq<int>)
    ensures |r| == |buf|
  {
    seq(|buf|, i requires 0 <= i < |buf| => buf[i] as int + off)
  }

  lemma PgmSamplesBack(bpp: nat, off: int32, depth: nat, buf: seq<int32>)
    requires 1 <= depth <= 16 && bpp == Writers.BytesPerPixel(depth)
    requires forall i :: 0 <= i < |buf| ==> 0 <= buf[i] as int + off < Pow2(depth)
    ensures |Flatten(Writers.BatchGroups(Writers.Pgm, bpp, off, buf))| == bpp * |buf|
    ensures Samples(bpp, false, true, Flatten(Writers.BatchGroups(Writers.Pgm, bpp, off, buf)), |buf|) ==
        Raised(buf, off)
  {
    var body, want := Flatten(Writers.BatchGroups(Writers.Pgm, bpp, off, buf)), Raised(buf, off);
    FlattenLength(Writers.BatchGroups(Writers.Pgm, bpp, off, buf), bpp);
    forall i: nat | i < |buf|
      ensures bpp * i + bpp <= |body| && SampleAt(bpp, false, true, body, i) == want[i]
    {
      PgmSampleBack(bpp, off, depth, buf, i);
    }
    SamplesAre(bpp, false, true, body, want, |buf|);
    assert want[..|want|] == want;
  }

  // ---------------------------------------------------------------------------
  // Whole files
  // ---------------------------------------------------------------------------

  lemma WholeTail(head: seq<byte>, body: seq<byte>)
    ensures Pgx.Fread(head + body, |head|, |body|) == Some(body)
  {
    assert (head + body)[|head|..|head| + |body|] == body;
  }

  /** Decoding a payload whose position is right. */
  lemma FinishBack(head: seq<byte>, body: seq<byte>, h: Head, w: nat, ht: nat, bitDepth: nat)
    requires |head| >= 1 && !h.ascii && Clear(head + body, |head|)
    requires 1 <= (bitDepth + 7) / 8 <= 2 && |body| == (bitDepth + 7) / 8 * (w * ht * h.components)
    ensures Finish(head + body, |head|, h, w, ht, bitDepth) ==
      Loaded(Image(h.components, w, ht, bitDepth, h.signed,
                   Samples((bitDepth + 7) / 8, h.signed, h.big, body, w * ht * h.components)))
  {
    RewindExact(head + body, |head|);
    WholeTail(head, body);
  }

  /** A printed PGX component comes back sample by sample. */
  lemma PgxFileBack(big: bool, signed: bool, depth: byte, w: uint32, h: uint32, rows: seq<seq<int32>>)
    requires 1 <= depth <= 16 && w < 0x8000_0000 && h < 0x8000_0000 && Pgx.Component(signed, depth, w, h, rows)
    requires Clear(Pgx.PrintPgx(big, signed, depth, w, h, rows), |Pgx.HeaderText(big, signed, depth, w, h)|)
    ensures Load(Pgx.PrintPgx(big, signed, depth, w, h, rows)) ==
            Loaded(Image(1, w, h, depth, signed, Writers.Buffer(rows)))
  {
    var head, buf, bpp := Pgx.HeaderText(big, signed, depth, w, h), Writers.Buffer(rows), Writers.BytesPerPixel(depth);
    var body := Flatten(Writers.BatchGroups(Ordered(big), bpp, 0, buf));
    Writers.RowsAreBuffer(Ordered(big), bpp, 0, rows);
    Writers.StreamedIsPacked(big, depth, rows);
    Writers.BufferLength(rows, w);
    BufferInRange(signed, depth, w, rows);
    PgxSamplesBack(big, bpp, signed, depth, buf);
    PgxHeaderRead(big, signed, depth, w, h, head + body, body);
    FinishBack(head, body, Head(1, false, true, signed, big, depth, 9 + |PrintD(depth)|), w, h, depth);
  }

  lemma {:induction false} BufferInRange(signed: bool, depth: nat, w: nat, rows: seq<seq<int32>>)
    requires 1 <= depth && Pgx.Component(signed, depth, w, |rows|, rows)
    ensures forall i :: 0 <= i < |Writers.Buffer(rows)| ==> Pgx.InRange(Writers.Buffer(rows)[i], signed, depth)
  {
    if rows != [] {
      BufferInRange(signed, depth, w, rows[..|rows| - 1]);
    }
  }

  /** Where the encoder's reader works, so does this one, and both return the same samples: the
      encoder row by row, this one the rows one after another. */
  lemma AgreesWithEncoder(big: bool, signed: bool, depth: byte, w: uint32, h: uint32, rows: seq<seq<int32>>, y: nat)
    requires 1 <= depth <= 16 && 0 < w < 0x8000_0000 && y < h < 0x8000_0000 && Pgx.Component(signed, depth, w, h, rows)
    requires !IsBlank(Pgx.FirstOf(big, depth, rows[0][0]))
    ensures Pgx.RowReads(Pgx.PrintPgx(big, signed, depth, w, h, rows), Pgx.Printed(big, signed, depth, w, h), y,
                         rows[y])
    ensures Load(Pgx.PrintPgx(big, signed, depth, w, h, rows)) ==
            Loaded(Image(1, w, h, depth, signed, Writers.Buffer(rows)))
  {
    Pgx.RowsBack(big, signed, depth, w, h, rows, y);
    Pgx.FirstByte(big, depth, w, rows);
    var head, body := Pgx.HeaderText(big, signed, depth, w, h), Flatten(Pgx.PackedRows(big, depth, rows));
    assert (head + body)[|head|] == body[0];
    PgxFileBack(big, signed, depth, w, h, rows);
  }

  /** A printed PGM comes back with the offset added, at depths 2 to 16. */
  lemma PgmFileBack(signed: bool, depth: byte, w: uint32, h: uint32, rows: seq<seq<int32>>)
    requires 2 <= depth <= 16 && w < 0x8000_0000 && h < 0x8000_0000 && Pgx.Component(signed, depth, w, h, rows)
    requires Clear(Writers.BatchFile(Writers.Pgm, signed, depth, w, h, rows),
                   |Writers.HeaderOf(Writers.Pgm, signed, depth, w, h)|)
    ensures Load(Writers.BatchFile(Writers.Pgm, signed, depth, w, h, rows)) ==
      Loaded(Image(1, w, h, depth, false, Raised(Writers.Buffer(rows), Writers.Offset(Writers.Pgm, signed, depth))))
  {
    var head, buf, bpp := Writers.HeaderOf(Writers.Pgm, signed, depth, w, h), Writers.Buffer(rows),
        Writers.BytesPerPixel(depth);
    var off := Writers.Offset(Writers.Pgm, signed, depth);
    PgmLoad(head, signed, depth, w, h, Flatten(Writers.BatchGroups(Writers.Pgm, bpp, off, buf)));
    Writers.BufferLength(rows, w);
    BufferInRange(signed, depth, w, rows);
    RaisedInRange(signed, depth, buf);
    PgmBodyBack(head, depth, off, w, h, buf);
  }

  /** Loading a file with this header gets as far as the payload, with these sizes and bit depth. */
  predicate LoadsAs(head: seq<byte>, body: seq<byte>, w: nat, h: nat, bitDepth: nat) {
    |head| >= 1 && Load(head + body) == Finish(head + body, |head|, PnmHead(1, false), w, h, bitDepth)
  }

  lemma PgmLoad(head: seq<byte>, signed: bool, depth: byte, w: uint32, h: uint32, body: seq<byte>)
    requires 1 <= depth <= 16 && w < 0x8000_0000 && h < 0x8000_0000
    requires head == Writers.HeaderOf(Writers.Pgm, signed, depth, w, h)
    ensures LoadsAs(head, body, w, h, if depth == 1 then 0 else depth)
  {
    PgmText(signed, depth, w, h);
    var maxval := MaxValDepth(depth);
    PgmLoadOf(head, w, h, maxval, body);
  }

  lemma MaxValDepth(depth: nat) returns (maxval: nat)
    requires 1 <= depth <= 16
    ensures maxval == Writers.MaxVal(depth) && maxval > 0 && CeilLog2(maxval) == if depth == 1 then 0 else depth
  {
    DepthOfMaxVal(depth);
    Pow2Monotone(1, depth);
    maxval := Writers.MaxVal(depth);
  }

  lemma PgmLoadOf(head: seq<byte>, w: uint32, h: uint32, maxval: nat, body: seq<byte>)
    requires w < 0x8000_0000 && h < 0x8000_0000 && maxval > 0 && head == PnmText('5' as int, w, h, maxval)
    ensures LoadsAs(head, body, w, h, CeilLog2(maxval))
  {
    PnmHeaderRead(false, w, h, maxval, head + body, body);
  }

  lemma PgmBodyBack(head: seq<byte>, depth: nat, off: int32, w: nat, h: nat, buf: seq<int32>)
    requires 1 <= depth <= 16 && |head| >= 1 && |buf| == w * h
    requires forall i :: 0 <= i < |buf| ==> 0 <= buf[i] as int + off < Pow2(depth)
    requires Clear(head + Flatten(Writers.BatchGroups(Writers.Pgm, Writers.BytesPerPixel(depth), off, buf)), |head|)
    ensures Finish(head + Flatten(Writers.BatchGroups(Writers.Pgm, Writers.BytesPerPixel(depth), off, buf)), |head|,
                   PnmHead(1, false), w, h, depth)
         == Loaded(Image(1, w, h, depth, false, Raised(buf, off)))
  {
    var bpp := Writers.BytesPerPixel(depth);
    PgmSamplesBack(bpp, off, depth, buf);
    FinishBack(head, Flatten(Writers.BatchGroups(Writers.Pgm, bpp, off, buf)), PnmHead(1, false), w, h, depth);
  }

  lemma RaisedInRange(signed: bool, depth: nat, buf: seq<int32>)
    requires 1 <= depth <= 16 && forall i :: 0 <= i < |buf| ==> Pgx.InRange(buf[i], signed, depth)
    ensures forall i :: 0 <= i < |buf| ==> 0 <= buf[i] as int + Writers.Offset(Writers.Pgm, signed, depth) < Pow2(depth)
  {
    assert Pow2(depth) == 2 * Pow2(depth - 1);
  }

  /** A depth-1 PGM is never read: its maximum value 1 has logarithm 0. */
  lemma OneBitPgm(signed: bool, w: uint32, h: uint32, rows: seq<seq<int32>>)
    requires w < 0x8000_0000 && h < 0x8000_0000
    ensures Load(Writers.BatchFile(Writers.Pgm, signed, 1, w, h, rows)) == Exit
  {
    var head := Writers.HeaderOf(Writers.Pgm, signed, 1, w, h);
    var body := Flatten(Writers.BatchGroups(Writers.Pgm, 1, Writers.Offset(Writers.Pgm, signed, 1),
                                            Writers.Buffer(rows)));
    PgmLoad(head, signed, 1, w, h, body);
  }
}
