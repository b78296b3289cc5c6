/** Files as the C++ tools read them: bytes with a cursor, `fgetc` returning -1 at the end, and
    the decimal numbers that `fprintf("%d")` writes and digit-by-digit loops read back. */
module CFile {
  import opened MachineInts
  import opened Substrings

  const SP: byte := 0x20
  const TAB: byte := 0x09
  const LF: byte := 0x0A
  const CR: byte := 0x0D
  const HASH: byte := 0x23
  const PLUS: byte := 0x2B
  const MINUS: byte := 0x2D
  const EOF := -1

  predicate IsDigit(b: byte) {
    0x30 <= b <= 0x39
  }

  /** The character at index i, or EOF. */
  function CharAt(s: seq<byte>, i: nat): int {
    if i < |s| then s[i] else EOF
  }

  /** The cursor once the character at i has been read. */
  function After(s: seq<byte>, i: nat): nat {
    if i < |s| then i + 1 else |s|
  }

  /** FILE*, opened for reading. */
  class File {
    const data: seq<byte>
    var pos: nat

    constructor (data: seq<byte>)
      ensures this.data == data && pos == 0
    {
      this.data, pos := data, 0;
    }

    /** The character at index i has just been read into d. */
    ghost predicate Read(d: int, i: nat)
      reads this
    {
      i <= |data| && d == CharAt(data, i) && pos == After(data, i)
    }

    /** fgetc */
    method Getc() returns (d: int)
      requires pos <= |data|
      modifies this
      ensures Read(d, old(pos))
    {
      if pos < |data| {
        d := data[pos];
        pos := pos + 1;
      } else {
        d := EOF;
      }
    }

    /** Puts the last character back, unless it was the end of the file. */
    method Ungetc(d: int, ghost i: nat)
      requires Read(d, i)
      modifies this
      ensures pos == i
    {
      if d != EOF {
        pos := pos - 1;
      }
    }

    /** fseek(SEEK_SET); the cursor may pass the end. */
    method Seek(to: nat)
      modifies this
      ensures pos == to
    {
      pos := to;
    }

    /** fread of n bytes: what is left when that is fewer. */
    method ReadBytes(n: nat) returns (s: seq<byte>)
      modifies this
      ensures s ==
        if old(pos) + n <= |data| then data[old(pos)..old(pos) + n]
        else if old(pos) <= |data| then data[old(pos)..] else []
      ensures pos == old(pos) + |s|
    {
      s := if pos + n <= |data| then data[pos..pos + n] else if pos <= |data| then data[pos..] else [];
      pos := pos + |s|;
    }
  }

  // ---------------------------------------------------------------------------
  // Skipping
  // ---------------------------------------------------------------------------

  /** What a skipping loop stops at. */
  datatype Kind = Order | SignOrDigit | Digit | Content

  predicate IsBlank(b: byte) {
    b == SP || b == LF || b == CR
  }

  predicate Wants(k: Kind, b: byte) {
    match k
    case Order => b == 'M' as int || b == 'L' as int
    case SignOrDigit => b == PLUS || b == MINUS || IsDigit(b)
    case Digit => IsDigit(b)
    case Content => !IsBlank(b)
  }

  /** The first index from i on whose byte is wanted, or the end. */
  function SkipTo(s: seq<byte>, i: nat, want: Kind): (j: nat)
    requires i <= |s|
    ensures i <= j <= |s|
    decreases |s| - i
  {
    if i == |s| || Wants(want, s[i]) then i else SkipTo(s, i + 1, want)
  }

  /** The index is the only one with a wanted byte, or the end, and nothing wanted before it. */
  lemma {:induction false} SkipToIs(s: seq<byte>, i: nat, want: Kind, j: nat)
    requires i <= j <= |s|
    ensures SkipTo(s, i, want) == j <==>
      (forall k :: i <= k < j ==> !Wants(want, s[k])) && (j < |s| ==> Wants(want, s[j]))
    decreases |s| - i
  {
    if i < |s| && !Wants(want, s[i]) && i < j {
      SkipToIs(s, i + 1, want, j);
    }
  }

  /** Reads up to the first wanted character, or the end of the file. */
  method ScanTo(f: File, want: Kind) returns (d: int, ghost j: nat)
    requires f.pos <= |f.data|
    modifies f
    ensures j == SkipTo(f.data, old(f.pos), want) && f.Read(d, j)
  {
    d := f.Getc();
    j := old(f.pos);
    while d != EOF && !Wants(want, d)
      invariant f.Read(d, j)
      invariant SkipTo(f.data, old(f.pos), want) == SkipTo(f.data, j, want)
      decreases |f.data| - j
    {
      d := f.Getc();
      j := j + 1;
    }
  }

  // ---------------------------------------------------------------------------
  // Numbers
  // ---------------------------------------------------------------------------

  /** Decimal digits, most significant first. */
  function Decimal(n: nat): (s: seq<byte>)
    ensures |s| >= 1
    ensures forall k :: 0 <= k < |s| ==> IsDigit(s[k])
  {
    if n < 10 then [0x30 + n] else Decimal(n / 10) + [0x30 + n % 10]
  }

  /** `%d` of a 32-bit unsigned argument, which the C library takes for a signed one. */
  function PrintD(u: uint32): seq<byte> {
    if u < 0x8000_0000 then Decimal(u) else [MINUS] + Decimal(0x1_0000_0000 - u)
  }

  datatype Number = Number(value: uint32, next: nat)

  /** Reading digits from index i on: v = v * 10 + digit, in 32 bits. */
  function ReadDigits(s: seq<byte>, i: nat, v: uint32): (r: Number)
    requires i <= |s|
    ensures i <= r.next <= |s|
    decreases |s| - i
  {
    if i < |s| && IsDigit(s[i]) then ReadDigits(s, i + 1, (v as int * 10 + (s[i] - 0x30)) % 0x1_0000_0000)
    else Number(v, i)
  }

  /** The loop that gathers digits, where the character d at index i has been read. */
  method TakeDigits(f: File, d0: int, ghost i: nat) returns (v: uint32, d: int, ghost j: nat)
    requires f.Read(d0, i)
    modifies f
    ensures Number(v, j) == ReadDigits(f.data, i, 0) && f.Read(d, j)
  {
    v, d, j := 0, d0, i;
    while d != EOF && IsDigit(d)
      invariant f.Read(d, j)
      invariant ReadDigits(f.data, i, 0) == ReadDigits(f.data, j, v)
      decreases |f.data| - j
    {
      v := (v as int * 10 + (d - 0x30)) % 0x1_0000_0000;
      d := f.Getc();
      j := j + 1;
    }
  }

  lemma OneDigit(s: seq<byte>, i: nat, v: uint32, n: uint32)
    requires i < |s| && v == n / 10 && s[i] == 0x30 + n % 10
    ensures ReadDigits(s, i, v) == ReadDigits(s, i + 1, n)
  {
  }

  /** A printed number is read back as itself. */
  lemma {:induction false} DigitsBack(s: seq<byte>, i: nat, n: uint32)
    requires Stands(s, i, Decimal(n))
    ensures ReadDigits(s, i, 0) == ReadDigits(s, i + |Decimal(n)|, n)
  {
    if n < 10 {
      StandsAt(s, i, Decimal(n), 0);
      OneDigit(s, i, 0, n);
    } else {
      var t := Decimal(n / 10);
      StandsSplit(s, i, t, [0x30 + n % 10]);
      DigitsBack(s, i, n / 10);
      StandsAt(s, i + |t|, [0x30 + n % 10], 0);
      OneDigit(s, i + |t|, n / 10, n);
    }
  }

  /** A printed number followed by something else. */
  lemma NumberBack(s: seq<byte>, i: nat, n: uint32)
    requires Stands(s, i, Decimal(n))
    requires i + |Decimal(n)| < |s| ==> !IsDigit(s[i + |Decimal(n)|])
    ensures ReadDigits(s, i, 0) == Number(n, i + |Decimal(n)|)
  {
    DigitsBack(s, i, n);
  }
}
