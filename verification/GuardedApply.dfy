/** Applying a verified patch candidate to one target file (scripts/hermes_watch.py,
    `_inject_guarded_patch`, `_build_guard_only_patch_plan` and
    `apply_verified_harness_patch_candidate`): inject, check, write, probe, and roll back.

    The line matched by the entry-point patterns, the guardrails' verdict and the probes' exit codes
    come from outside. */
module GuardedApply {
  import opened Substrings

  // ---------------------------------------------------------------------------
  // Text files
  // ---------------------------------------------------------------------------

  /** What read_text makes of the characters on disk: every line end becomes a line feed. */
  function ReadText(disk: string): string {
    if disk == "" then ""
    else if disk[0] == '\r' then
      if |disk| > 1 && disk[1] == '\n' then "\n" + ReadText(disk[2..]) else "\n" + ReadText(disk[1..])
    else [disk[0]] + ReadText(disk[1..])
  }

  /** str.isspace for one character. */
  predicate IsSpace(c: char) {
    var n := c as int;
    || 0x09 <= n <= 0x0D || 0x1C <= n <= 0x20 || n == 0x85 || n == 0xA0 || n == 0x1680 || 0x2000 <= n <= 0x200A
    || n == 0x2028 || n == 0x2029 || n == 0x202F || n == 0x205F || n == 0x3000
  }

  /** str.rstrip */
  function RStrip(s: string): (r: string)
    ensures r <= s
  {
    if s != "" && IsSpace(s[|s| - 1]) then RStrip(s[..|s| - 1]) else s
  }

  /** A character that ends a line for str.splitlines. */
  predicate IsLineEnd(c: char) {
    var n := c as int;
    0x0A <= n <= 0x0D || 0x1C <= n <= 0x1E || n == 0x85 || n == 0x2028 || n == 0x2029
  }

  /** Just past the line that starts at i. */
  function LineEnd(s: string, i: nat): (j: nat)
    requires i < |s|
    ensures i < j <= |s|
    decreases |s| - i
  {
    if s[i] == '\r' && i + 1 < |s| && s[i + 1] == '\n' then i + 2
    else if IsLineEnd(s[i]) || i + 1 == |s| then i + 1
    else LineEnd(s, i + 1)
  }

  /** splitlines(keepends=True), from i on. */
  function Lines(s: string, i: nat): seq<string>
    requires i <= |s|
    decreases |s| - i
  {
    if i == |s| then [] else [s[i..LineEnd(s, i)]] + Lines(s, LineEnd(s, i))
  }

  /** "".join */
  function Join(lines: seq<string>): string {
    if lines == [] then "" else lines[0] + Join(lines[1..])
  }

  lemma {:induction false} JoinLines(s: string, i: nat)
    requires i <= |s|
    ensures Join(Lines(s, i)) == s[i..]
    decreases |s| - i
  {
    if i < |s| {
      var j := LineEnd(s, i);
      JoinLines(s, j);
      assert Lines(s, i)[1..] == Lines(s, j);
      assert s[i..] == s[i..j] + s[j..];
    }
  }

  lemma {:induction false} JoinAppend(a: seq<string>, b: seq<string>)
    ensures Join(a + b) == Join(a) + Join(b)
  {
    if a == [] {
      assert a + b == b;
    } else {
      JoinAppend(a[1..], b);
      assert (a + b)[1..] == a[1..] + b;
    }
  }

  // ---------------------------------------------------------------------------
  // Occurrences
  // ---------------------------------------------------------------------------

  /** How often m occurs in s. */
  function Hits(s: string, m: string): nat {
    if s == "" then 0 else (if m <= s then 1 else 0) + Hits(s[1..], m)
  }

  lemma {:induction false} ContainsIsHits(s: string, m: string)
    requires m != ""
    ensures Contains(s, m) <==> Hits(s, m) > 0
  {
    if s != "" {
      ContainsIsHits(s[1..], m);
    }
  }

  lemma PrefixAt(s: string, m: string, i: nat)
    requires m <= s
    ensures i < |m| ==> m[i] == s[i]
  {
  }

  /** A character that m does not have ends every match. */
  lemma PrefixCut(x: string, c: char, y: string, m: string)
    requires c !in m
    ensures m <= x + [c] + y <==> m <= x
  {
    var s := x + [c] + y;
    if m <= s {
      PrefixAt(s, m, |x|);
      assert m == s[..|m|] == x[..|m|];
    }
    if m <= x {
      assert s[..|m|] == x[..|m|];
    }
  }

  /** No occurrence crosses a character that m does not have. */
  lemma {:induction false} HitsCut(x: string, c: char, y: string, m: string)
    requires m != "" && c !in m
    ensures Hits(x + [c] + y, m) == Hits(x, m) + Hits(y, m)
  {
    var s := x + [c] + y;
    PrefixCut(x, c, y, m);
    if x == "" {
      assert s[1..] == y;
    } else {
      HitsCut(x[1..], c, y, m);
      assert s[1..] == x[1..] + [c] + y;
    }
  }

  /** A character that is not the last of m completes no match. */
  lemma PrefixEnd(x: string, c: char, m: string)
    requires m != "" && m[|m| - 1] != c
    ensures m <= x + [c] <==> m <= x
  {
    var s := x + [c];
    if m <= s {
      PrefixAt(s, m, |x|);
      assert m == s[..|m|] == x[..|m|];
    }
    if m <= x {
      assert s[..|m|] == x[..|m|];
    }
  }

  lemma {:induction false} HitsEnd(x: string, c: char, m: string)
    requires m != "" && m[|m| - 1] != c
    ensures Hits(x + [c], m) == Hits(x, m)
  {
    PrefixEnd(x, c, m);
    if x == "" {
      assert (x + [c])[1..] == "";
    } else {
      HitsEnd(x[1..], c, m);
      assert (x + [c])[1..] == x[1..] + [c];
    }
  }

  /** A character that is not the first of m starts no match. */
  lemma HitsFront(c: char, y: string, m: string)
    requires m != "" && m[0] != c
    ensures Hits([c] + y, m) == Hits(y, m)
  {
    assert ([c] + y)[1..] == y;
  }

  /** Parts of a text hold no more than the whole. */
  lemma {:induction false} HitsParts(x: string, y: string, m: string)
    requires m != ""
    ensures Hits(x + y, m) >= Hits(x, m) + Hits(y, m)
  {
    if x == "" {
      assert x + y == y;
    } else {
      HitsParts(x[1..], y, m);
      assert (x + y)[1..] == x[1..] + y;
      if m <= x {
        assert (x + y)[..|m|] == x[..|m|];
      }
    }
  }

  lemma {:induction false} TooShort(s: string, m: string)
    requires |s| < |m|
    ensures Hits(s, m) == 0
  {
    if s != "" {
      TooShort(s[1..], m);
    }
  }

  lemma HitsItself(m: string)
    requires m != ""
    ensures Hits(m, m) == 1
  {
    TooShort(m[1..], m);
  }

  /** Changing line ends neither makes nor breaks a match. */
  lemma {:induction false} PrefixRead(disk: string, m: string)
    requires '\r' !in m && '\n' !in m
    ensures m <= disk <==> m <= ReadText(disk)
    decreases |m|
  {
    if m != "" && disk != "" && disk[0] != '\r' {
      PrefixRead(disk[1..], m[1..]);
      PrefixStep(disk, m);
      PrefixStep(ReadText(disk), m);
      assert ReadText(disk)[1..] == ReadText(disk[1..]);
    } else if m != "" && disk != "" {
      if m <= ReadText(disk) {
        PrefixAt(ReadText(disk), m, 0);
      }
    }
  }

  lemma PrefixStep(s: string, m: string)
    requires m != "" && s != ""
    ensures m <= s <==> m[0] == s[0] && m[1..] <= s[1..]
  {
    if m[0] == s[0] && m[1..] <= s[1..] {
      assert m == [m[0]] + m[1..];
      assert s[..|m|] == [s[0]] + s[1..][..|m| - 1];
    }
  }

  lemma {:induction false} HitsReadText(disk: string, m: string)
    requires m != "" && '\r' !in m && '\n' !in m
    ensures Hits(ReadText(disk), m) == Hits(disk, m)
  {
    if disk != "" {
      PrefixRead(disk, m);
      if disk[0] == '\r' && |disk| > 1 && disk[1] == '\n' {
        HitsReadText(disk[2..], m);
        assert disk[1..][1..] == disk[2..];
        assert ReadText(disk)[1..] == ReadText(disk[2..]);
      } else {
        HitsReadText(disk[1..], m);
        assert ReadText(disk)[1..] == ReadText(disk[1..]);
      }
    }
  }

  /** Text is read as it stands exactly when it has no carriage return. */
  lemma {:induction false} ReadExactly(disk: string)
    ensures ReadText(disk) == disk <==> '\r' !in disk
    ensures '\r' !in ReadText(disk) && |ReadText(disk)| <= |disk|
  {
    if disk != "" {
      if disk[0] == '\r' && |disk| > 1 && disk[1] == '\n' {
        ReadExactly(disk[2..]);
      } else {
        ReadExactly(disk[1..]);
        assert disk == [disk[0]] + disk[1..];
        assert ReadText(disk)[1..] == ReadText(disk[1..]);
      }
    }
  }

  lemma {:induction false} ReadFrom(a: string, b: string)
    requires '\r' !in a
    ensures ReadText(a + b) == a + ReadText(b)
  {
    if a == "" {
      assert a + b == b;
    } else {
      ReadFrom(a[1..], b);
      assert (a + b)[1..] == a[1..] + b;
      assert a + ReadText(b) == [a[0]] + (a[1..] + ReadText(b));
    }
  }

  /** Each line end, of whichever kind, is read as one line feed. */
  lemma LineEndRead(a: string, b: string)
    requires '\r' !in a
    ensures ReadText(a + ("\r\n" + b)) == a + ("\n" + ReadText(b))
    ensures b == "" || b[0] != '\n' ==> ReadText(a + ("\r" + b)) == a + ("\n" + ReadText(b))
    ensures ReadText(a + ("\n" + b)) == a + ("\n" + ReadText(b))
  {
    ReadFrom(a, "\r\n" + b);
    ReadFrom(a, "\r" + b);
    ReadFrom(a, "\n" + b);
    assert ("\r\n" + b)[2..] == b && ("\r" + b)[1..] == b && ("\n" + b)[1..] == b;
  }

  // ---------------------------------------------------------------------------
  // Injection
  // ---------------------------------------------------------------------------

  const MARKER: string := "Hermes guarded apply candidate"

  predicate IsWord(c: char) {
    'a' <= c <= 'z' || 'A' <= c <= 'Z' || c == ' '
  }

  /** What makes a marker easy to count: letters and blanks, no blank at either end. */
  predicate Plain(m: string) {
    |m| > 5 && m[0] != ' ' && m[|m| - 1] != ' ' && forall k :: 0 <= k < |m| ==> IsWord(m[k])
  }

  lemma WordsJoin(a: string, b: string)
    requires (forall k :: 0 <= k < |a| ==> IsWord(a[k])) && (forall k :: 0 <= k < |b| ==> IsWord(b[k]))
    ensures forall k :: 0 <= k < |a + b| ==> IsWord((a + b)[k])
  {
  }

  /** The program's marker is plain; everything below holds for any such marker m. */
  lemma MarkerIsPlain()
    ensures Plain(MARKER)
  {
    WordsJoin("Hermes ", "guarded ");
    WordsJoin("apply ", "candidate");
    WordsJoin("Hermes " + "guarded ", "apply " + "candidate");
    assert MARKER == "Hermes " + "guarded " + ("apply " + "candidate");
  }

  /** What a line looks like to the entry-point patterns. */
  datatype Match = NoMatch | CEntry | CppEntry

  /** What is to be injected: the scope of the candidate, its note, the adapter's guard, and how the
      lines of the target match. */
  datatype Patch = Patch(guardOnly: bool, note: string, condition: string, action: string, classify: string -> Match)

  function CComment(m: string, note: string): string {
    "  /* " + m + ": " + note + " */\n"
  }

  function CppComment(m: string, note: string): string {
    "  // " + m + ": " + note + "\n"
  }

  function EndComment(m: string, note: string): string {
    "/* " + m + ": " + note + " */\n"
  }

  function GuardLines(p: Patch): string {
    "  if (" + p.condition + ") {\n    " + Strip(p.action) + "\n  }\n"
  }

  /** What goes after the matched line. */
  function GuardBlock(line: string, p: Patch, m: string): string {
    (if p.classify(line) == CEntry then CComment(m, p.note) else CppComment(m, p.note)) + GuardLines(p)
  }

  /** str.strip */
  function Strip(s: string): string {
    LStrip(RStrip(s))
  }

  function LStrip(s: string): string {
    if s != "" && IsSpace(s[0]) then LStrip(s[1..]) else s
  }

  /** The first line an entry-point pattern matches, or the number of lines. */
  function FirstMatch(lines: seq<string>, p: Patch, i: nat): (j: nat)
    requires i <= |lines|
    ensures i <= j <= |lines| && (j < |lines| ==> p.classify(lines[j]) != NoMatch)
    decreases |lines| - i
  {
    if i == |lines| || p.classify(lines[i]) != NoMatch then i else FirstMatch(lines, p, i + 1)
  }

  /** _build_guard_only_patch_plan */
  method BuildPlan(lines: seq<string>, p: Patch) returns (index: nat)
    ensures index == FirstMatch(lines, p, 0)
  {
    index := 0;
    while index < |lines|
      invariant index <= |lines| && FirstMatch(lines, p, 0) == FirstMatch(lines, p, index)
    {
      if p.classify(lines[index]) != NoMatch {
        return;
      }
      index := index + 1;
    }
  }

  /** The trimmed text every patch is injected into. */
  function Trimmed(content: string): string {
    RStrip(content) + "\n"
  }

  /** Where the block goes and what it is: the text before it and the block. */
  function Block(content: string, p: Patch, m: string): (r: (nat, string)) {
    var stripped := Trimmed(content);
    var lines := Lines(stripped, 0);
    var k := FirstMatch(lines, p, 0);
    if p.guardOnly && !Contains(stripped, p.condition) && k < |lines| then
      (|Join(lines[..k + 1])|, GuardBlock(lines[k], p, m))
    else (|stripped|, EndComment(m, p.note))
  }

  /** s with block inserted at index at. */
  function Inserted(s: string, at: nat, block: string): string
    requires at <= |s|
  {
    s[..at] + block + s[at..]
  }

  lemma BlockInside(content: string, p: Patch, m: string)
    ensures Block(content, p, m).0 <= |Trimmed(content)|
  {
    var s := Trimmed(content);
    var lines := Lines(s, 0);
    var k := FirstMatch(lines, p, 0);
    JoinLines(s, 0);
    if k < |lines| {
      JoinAppend(lines[..k + 1], lines[k + 1..]);
      assert lines == lines[..k + 1] + lines[k + 1..];
    }
  }

  /** The text after _inject_guarded_patch: unchanged where the marker is, else the trimmed text with one
      block inserted. */
  function Inject(content: string, p: Patch, m: string): string {
    if Contains(content, m) then content
    else
      BlockInside(content, p, m);
      Inserted(Trimmed(content), Block(content, p, m).0, Block(content, p, m).1)
  }

  /** The guard-only branch: false when no entry point is found. */
  method InjectGuard(stripped: string, p: Patch, m: string) returns (found: bool, patched: string)
    ensures var lines := Lines(stripped, 0); var k := FirstMatch(lines, p, 0);
      && found == (k < |lines|)
      && (found ==> |Join(lines[..k + 1])| <= |stripped|)
      && (found ==> patched == Inserted(stripped, |Join(lines[..k + 1])|, GuardBlock(lines[k], p, m)))
  {
    var lines := Lines(stripped, 0);
    var k := BuildPlan(lines, p);
    found, patched := k < |lines|, stripped;
    if found {
      patched := Join(lines[k := lines[k] + GuardBlock(lines[k], p, m)]);
      JoinUpdated(stripped, lines, k, GuardBlock(lines[k], p, m));
    }
  }

  lemma InjectIs(content: string, p: Patch, m: string, at: nat, block: string)
    requires !Contains(content, m) && Block(content, p, m) == (at, block) && at <= |Trimmed(content)|
    ensures Inject(content, p, m) == Inserted(Trimmed(content), at, block)
  {
  }

  lemma GuardCase(content: string, p: Patch, m: string, lines: seq<string>, k: nat)
    requires !Contains(content, m) && p.guardOnly && !Contains(Trimmed(content), p.condition)
    requires lines == Lines(Trimmed(content), 0) && k == FirstMatch(lines, p, 0) < |lines|
    requires |Join(lines[..k + 1])| <= |Trimmed(content)|
    ensures Inject(content, p, m) == Inserted(Trimmed(content), |Join(lines[..k + 1])|, GuardBlock(lines[k], p, m))
  {
    InjectIs(content, p, m, |Join(lines[..k + 1])|, GuardBlock(lines[k], p, m));
  }

  lemma EndCase(content: string, p: Patch, m: string, lines: seq<string>)
    requires !Contains(content, m) && lines == Lines(Trimmed(content), 0)
    requires !p.guardOnly || Contains(Trimmed(content), p.condition) || FirstMatch(lines, p, 0) == |lines|
    ensures Inject(content, p, m) == Trimmed(content) + EndComment(m, p.note)
  {
  }

  /** _inject_guarded_patch */
  method InjectGuardedPatch(content: string, p: Patch, m: string) returns (patched: string)
    ensures patched == Inject(content, p, m)
  {
    if Contains(content, m) {
      return content;
    }
    var stripped := Trimmed(content);
    ghost var lines := Lines(stripped, 0);
    if p.guardOnly && !Contains(stripped, p.condition) {
      var found;
      found, patched := InjectGuard(stripped, p, m);
      if found {
        GuardCase(content, p, m, lines, FirstMatch(lines, p, 0));
        return;
      }
    }
    EndCase(content, p, m, lines);
    patched := stripped + EndComment(m, p.note);
  }

  lemma JoinSplit(lines: seq<string>, k: nat)
    requires k < |lines|
    ensures Join(lines) == Join(lines[..k]) + lines[k] + Join(lines[k + 1..])
    ensures Join(lines[..k + 1]) == Join(lines[..k]) + lines[k]
  {
    JoinAppend(lines[..k], [lines[k]]);
    assert lines[..k + 1] == lines[..k] + [lines[k]];
    assert Join([lines[k]]) == lines[k];
    JoinAppend(lines[..k + 1], lines[k + 1..]);
    assert lines == lines[..k + 1] + lines[k + 1..];
  }

  lemma InsertedAfter(a: string, block: string, b: string)
    ensures Inserted(a + b, |a|, block) == a + block + b
  {
  }

  lemma Lengthened(lines: seq<string>, k: nat, block: string)
    requires k < |lines|
    ensures Join(lines[k := lines[k] + block]) == Join(lines[..k + 1]) + block + Join(lines[k + 1..])
  {
    var longer := lines[k := lines[k] + block];
    JoinSplit(longer, k);
    JoinSplit(lines, k);
    assert longer[..k] == lines[..k] && longer[k + 1..] == lines[k + 1..];
    assert Join(lines[..k]) + (lines[k] + block) == Join(lines[..k]) + lines[k] + block;
  }

  /** Lengthening one line is inserting at its end. */
  lemma JoinUpdated(s: string, lines: seq<string>, k: nat, block: string)
    requires lines == Lines(s, 0) && k < |lines|
    ensures |Join(lines[..k + 1])| <= |s|
    ensures Join(lines[k := lines[k] + block]) == Inserted(s, |Join(lines[..k + 1])|, block)
  {
    JoinLines(s, 0);
    JoinSplit(lines, k);
    Lengthened(lines, k, block);
    InsertedAfter(Join(lines[..k + 1]), block, Join(lines[k + 1..]));
  }

  // ---------------------------------------------------------------------------
  // The injected text, spelled out
  // ---------------------------------------------------------------------------

  lemma {:induction false} FirstMatchIs(lines: seq<string>, p: Patch, i: nat, k: nat)
    requires i <= k <= |lines|
    requires forall j :: i <= j < k ==> p.classify(lines[j]) == NoMatch
    requires k < |lines| ==> p.classify(lines[k]) != NoMatch
    ensures FirstMatch(lines, p, i) == k
    decreases k - i
  {
    if i < k {
      FirstMatchIs(lines, p, i + 1, k);
    }
  }

  /** A guard-only patch without the marker and the condition in the file, and a line an entry-point
      pattern matches: right after the first such line come the note, as the comment of its language,
      and the guard. */
  lemma GuardAfterFirstEntry(content: string, p: Patch, m: string, a: seq<string>, line: string, b: seq<string>,
                             note: string, guard: string)
    requires !Contains(content, m) && p.guardOnly && !Contains(RStrip(content) + "\n", p.condition)
    requires Lines(RStrip(content) + "\n", 0) == a + [line] + b
    requires (forall k :: 0 <= k < |a| ==> p.classify(a[k]) == NoMatch) && p.classify(line) != NoMatch
    requires p.classify(line) == CEntry ==> note == "  /* " + m + ": " + p.note + " */\n"
    requires p.classify(line) == CppEntry ==> note == "  // " + m + ": " + p.note + "\n"
    requires guard == "  if (" + p.condition + ") {\n    " + Strip(p.action) + "\n  }\n"
    ensures Inject(content, p, m) == Join(a) + line + (note + guard) + Join(b)
  {
    assert GuardBlock(line, p, m) == note + guard;
    BlockAfterFirst(content, p, m, a, line, b);
  }

  lemma BlockAfterFirst(content: string, p: Patch, m: string, a: seq<string>, line: string, b: seq<string>)
    requires !Contains(content, m) && p.guardOnly && !Contains(Trimmed(content), p.condition)
    requires Lines(Trimmed(content), 0) == a + [line] + b
    requires (forall k :: 0 <= k < |a| ==> p.classify(a[k]) == NoMatch) && p.classify(line) != NoMatch
    ensures Inject(content, p, m) == Join(a) + line + GuardBlock(line, p, m) + Join(b)
  {
    FirstMatchHere(a, line, b, p);
    BlockPlaced(Trimmed(content), a, line, b, GuardBlock(line, p, m));
    GuardCase(content, p, m, a + [line] + b, |a|);
  }

  lemma FirstMatchHere(a: seq<string>, line: string, b: seq<string>, p: Patch)
    requires (forall k :: 0 <= k < |a| ==> p.classify(a[k]) == NoMatch) && p.classify(line) != NoMatch
    ensures var lines := a + [line] + b;
      lines[|a|] == line && lines[..|a| + 1] == a + [line] && FirstMatch(lines, p, 0) == |a|
  {
    var lines := a + [line] + b;
    assert forall k :: 0 <= k < |a| ==> lines[k] == a[k];
    FirstMatchIs(lines, p, 0, |a|);
  }

  lemma BlockPlaced(s: string, a: seq<string>, line: string, b: seq<string>, block: string)
    requires Lines(s, 0) == a + [line] + b
    ensures |Join(a + [line])| <= |s| && Inserted(s, |Join(a + [line])|, block) == Join(a) + line + block + Join(b)
  {
    var lines := a + [line] + b;
    JoinLines(s, 0);
    JoinSplit(lines, |a|);
    assert lines[..|a|] == a && lines[..|a| + 1] == a + [line] && lines[|a| + 1..] == b;
    InsertedAfter(Join(a) + line, block, Join(b));
  }

  /** In every other case, unless the marker is there already, the note goes to the end. */
  lemma NoteAtTheEnd(content: string, p: Patch, m: string)
    requires !Contains(content, m)
    requires
      || !p.guardOnly
      || Contains(RStrip(content) + "\n", p.condition)
      || forall line :: line in Lines(RStrip(content) + "\n", 0) ==> p.classify(line) == NoMatch
    ensures Inject(content, p, m) == RStrip(content) + "\n" + "/* " + m + ": " + p.note + " */\n"
  {
    var lines := Lines(Trimmed(content), 0);
    if p.guardOnly && !Contains(Trimmed(content), p.condition) {
      FirstMatchIs(lines, p, 0, |lines|);
    }
    EndCase(content, p, m, lines);
  }

  /** Trimming at the end and at both ends takes white space off, and all of it. */
  lemma {:induction false} RStripIs(s: string)
    ensures forall k :: |RStrip(s)| <= k < |s| ==> IsSpace(s[k])
    ensures RStrip(s) == "" || !IsSpace(RStrip(s)[|RStrip(s)| - 1])
  {
    if s != "" && IsSpace(s[|s| - 1]) {
      RStripIs(s[..|s| - 1]);
    }
  }

  lemma {:induction false} LStripIs(s: string)
    ensures |LStrip(s)| <= |s| && s[|s| - |LStrip(s)|..] == LStrip(s)
    ensures forall k :: 0 <= k < |s| - |LStrip(s)| ==> IsSpace(s[k])
    ensures LStrip(s) == "" || !IsSpace(LStrip(s)[0])
  {
    if s != "" && IsSpace(s[0]) {
      LStripIs(s[1..]);
      assert forall k :: 0 < k < |s| ==> s[k] == s[1..][k - 1];
    }
  }

  // ---------------------------------------------------------------------------
  // One block, once
  // ---------------------------------------------------------------------------

  /** Taking the block out again gives the trimmed original. */
  lemma OneBlock(content: string, p: Patch, m: string)
    requires !Contains(content, m)
    ensures var (at, block) := Block(content, p, m); var r := Inject(content, p, m);
      && at + |block| <= |r| && r[at..at + |block|] == block && r[..at] + r[at + |block|..] == Trimmed(content)
  {
    BlockInside(content, p, m);
    var (at, block) := Block(content, p, m);
    TakenOut(Trimmed(content), at, block);
  }

  lemma TakenOut(s: string, at: nat, block: string)
    requires at <= |s|
    ensures var r := Inserted(s, at, block);
      && at + |block| <= |r| && r[at..at + |block|] == block && r[..at] + r[at + |block|..] == s
  {
    var r := Inserted(s, at, block);
    assert r[at + |block|..] == s[at..];
    assert r[..at] == s[..at];
  }

  /** The block starts on a line of its own. */
  lemma BlockAtLineStart(content: string, p: Patch, m: string)
    ensures var at := Block(content, p, m).0; 0 < at <= |Trimmed(content)| && IsLineEnd(Trimmed(content)[at - 1])
  {
    var s := Trimmed(content);
    var lines := Lines(s, 0);
    var k := FirstMatch(lines, p, 0);
    BlockInside(content, p, m);
    assert s[|s| - 1] == '\n';
    if k < |lines| {
      LinesEnd(s, 0, k + 1);
    }
  }

  /** The first line and the first n - 1 of the rest. */
  lemma JoinFirst(s: string, i: nat, n: nat)
    requires i < |s| && 0 < n <= |Lines(s, i)|
    ensures n - 1 <= |Lines(s, LineEnd(s, i))|
    ensures |Join(Lines(s, i)[..n])| == LineEnd(s, i) - i + |Join(Lines(s, LineEnd(s, i))[..n - 1])|
  {
    var e := LineEnd(s, i);
    var rest := Lines(s, e);
    assert Lines(s, i)[..n] == [s[i..e]] + rest[..n - 1];
    assert ([s[i..e]] + rest[..n - 1])[1..] == rest[..n - 1];
  }

  /** The first n lines end with a line end, if the text does. */
  lemma {:induction false} LinesEnd(s: string, i: nat, n: nat)
    requires i < |s| && IsLineEnd(s[|s| - 1]) && 0 < n <= |Lines(s, i)|
    ensures var j := i + |Join(Lines(s, i)[..n])|; i < j <= |s| && IsLineEnd(s[j - 1])
    decreases n
  {
    LineEndIs(s, i);
    JoinFirst(s, i, n);
    if n > 1 {
      LinesEnd(s, LineEnd(s, i), n - 1);
    }
  }

  /** The character at k is not the end of a line that ends before e, unless it is the carriage return of
      its line end. */
  predicate Inside(s: string, k: nat, e: nat)
    requires k + 1 < e <= |s|
  {
    !IsLineEnd(s[k]) || (k + 2 == e && s[k] == '\r' && s[k + 1] == '\n')
  }

  /** A line reaches to its first line end; a carriage return and a line feed are one line end. */
  lemma {:induction false} LineEndIs(s: string, i: nat)
    requires i < |s|
    ensures LineEnd(s, i) == |s| || IsLineEnd(s[LineEnd(s, i) - 1])
    ensures forall k :: i <= k < LineEnd(s, i) - 1 ==> Inside(s, k, LineEnd(s, i))
    ensures LineEnd(s, i) < |s| && s[LineEnd(s, i) - 1] == '\r' ==> s[LineEnd(s, i)] != '\n'
    decreases |s| - i
  {
    if !IsLineEnd(s[i]) && i + 1 < |s| {
      LineEndIs(s, i + 1);
    }
  }

  /** A character other than letters and blanks separates occurrences. */
  lemma Cut(x: string, c: char, y: string, m: string)
    requires Plain(m) && !IsWord(c)
    ensures Hits(x + [c] + y, m) == Hits(x, m) + Hits(y, m)
  {
    HitsCut(x, c, y, m);
  }

  lemma CutFront(c: char, y: string, m: string)
    requires Plain(m) && (!IsWord(c) || c == ' ')
    ensures Hits([c] + y, m) == Hits(y, m)
  {
    HitsFront(c, y, m);
  }

  /** The closing of a C comment. */
  lemma HitsClose(note: string, b: string, m: string)
    requires Plain(m)
    ensures Hits(": " + note + " */\n" + b, m) == Hits(note, m) + Hits(b, m)
  {
    var t := note + " */\n" + b;
    assert ": " + note + " */\n" + b == [':'] + ([' '] + t);
    CutFront(':', [' '] + t, m);
    CutFront(' ', t, m);
    assert t == (note + " ") + ['*'] + (['/'] + (['\n'] + b));
    Cut(note + " ", '*', ['/'] + (['\n'] + b), m);
    HitsEnd(note, ' ', m);
    CutFront('/', ['\n'] + b, m);
    CutFront('\n', b, m);
  }

  /** The closing of a C++ comment. */
  lemma HitsLineClose(note: string, b: string, m: string)
    requires Plain(m)
    ensures Hits(": " + note + "\n" + b, m) == Hits(note, m) + Hits(b, m)
  {
    var t := note + "\n" + b;
    assert ": " + note + "\n" + b == [':'] + ([' '] + t);
    CutFront(':', [' '] + t, m);
    CutFront(' ', t, m);
    assert t == note + ['\n'] + b;
    Cut(note, '\n', b, m);
  }

  /** The marker before a colon. */
  lemma HitsMarker(tail: string, m: string)
    requires Plain(m) && tail != "" && tail[0] == ':'
    ensures Hits(m + tail, m) == 1 + Hits(tail, m)
  {
    assert m + tail == m + [':'] + tail[1..];
    Cut(m, ':', tail[1..], m);
    HitsItself(m);
    assert tail == [':'] + tail[1..];
    CutFront(':', tail[1..], m);
  }

  /** The marker behind an opening of two separators and a blank. */
  lemma HitsOpen(a: string, c: char, d: char, t: string, m: string)
    requires Plain(m) && !IsWord(c) && !IsWord(d)
    ensures Hits(a + [c, d, ' '] + t, m) == Hits(a, m) + Hits(t, m)
  {
    assert a + [c, d, ' '] + t == a + [c] + ([d] + ([' '] + t));
    Cut(a, c, [d] + ([' '] + t), m);
    CutFront(d, [' '] + t, m);
    CutFront(' ', t, m);
  }

  /** A C comment between a and b. */
  lemma HitsEndComment(a: string, note: string, b: string, m: string)
    requires Plain(m)
    ensures Hits(a + EndComment(m, note) + b, m) == Hits(a, m) + 1 + Hits(note, m) + Hits(b, m)
  {
    var tail := ": " + note + " */\n" + b;
    assert a + EndComment(m, note) + b == a + ['/', '*', ' '] + (m + tail);
    HitsOpen(a, '/', '*', m + tail, m);
    HitsMarker(tail, m);
    HitsClose(note, b, m);
  }

  lemma HitsCComment(a: string, note: string, b: string, m: string)
    requires Plain(m)
    ensures Hits(a + CComment(m, note) + b, m) == Hits(a, m) + 1 + Hits(note, m) + Hits(b, m)
  {
    assert a + CComment(m, note) + b == (a + " " + " ") + EndComment(m, note) + b;
    HitsEndComment(a + " " + " ", note, b, m);
    HitsEnd(a, ' ', m);
    HitsEnd(a + " ", ' ', m);
  }

  lemma HitsCppComment(a: string, note: string, b: string, m: string)
    requires Plain(m)
    ensures Hits(a + CppComment(m, note) + b, m) == Hits(a, m) + 1 + Hits(note, m) + Hits(b, m)
  {
    var tail := ": " + note + "\n" + b;
    assert a + CppComment(m, note) + b == (a + " " + " ") + ['/', '/', ' '] + (m + tail);
    HitsOpen(a + " " + " ", '/', '/', m + tail, m);
    HitsMarker(tail, m);
    HitsLineClose(note, b, m);
    HitsEnd(a, ' ', m);
    HitsEnd(a + " ", ' ', m);
  }

  /** Trimming removes nothing but blanks, which neither start nor end a match. */
  lemma {:induction false} HitsLStrip(s: string, m: string)
    requires Plain(m)
    ensures Hits(LStrip(s), m) == Hits(s, m)
  {
    if s != "" && IsSpace(s[0]) {
      HitsLStrip(s[1..], m);
      HitsFront(s[0], s[1..], m);
      assert s == [s[0]] + s[1..];
    }
  }

  lemma {:induction false} HitsRStrip(s: string, m: string)
    requires Plain(m)
    ensures Hits(RStrip(s), m) == Hits(s, m)
  {
    var n := |s| - 1;
    if s != "" && IsSpace(s[n]) {
      HitsRStrip(s[..n], m);
      HitsEnd(s[..n], s[n], m);
      assert s == s[..n] + [s[n]];
    }
  }

  lemma Regrouped(a: string, cond: string, c: string, d: string, e: string, act: string, f: string, g: string,
                  b: string)
    ensures a + cond + (c + d + e) + act + (f + g) + b == a + (cond + c + (d + (e + (act + f + (g + b)))))
  {
  }

  lemma HitsGuard(p: Patch, b: string, m: string)
    requires Plain(m)
    ensures Hits(GuardLines(p) + b, m) == Hits(p.condition, m) + Hits(Strip(p.action), m) + Hits(b, m)
  {
    var act := Strip(p.action);
    var t3 := "  }\n" + b;
    var t2 := act + ['\n'] + t3;
    var t1 := "    " + t2;
    assert ") {\n    " == [')'] + " {\n" + "    " && "\n  }\n" == ['\n'] + "  }\n";
    Regrouped("  if (", p.condition, [')'], " {\n", "    ", act, ['\n'], "  }\n", b);
    HitsHead(p.condition + [')'] + (" {\n" + t1), m);
    Cut(p.condition, ')', " {\n" + t1, m);
    HitsBrace(t1, m);
    HitsIndent(t2, m);
    Cut(act, '\n', t3, m);
    HitsFoot(b, m);
  }

  lemma HitsHead(t: string, m: string)
    requires Plain(m)
    ensures Hits("  if (" + t, m) == Hits(t, m)
  {
    assert "  if (" + t == "  if " + ['('] + t;
    Cut("  if ", '(', t, m);
    TooShort("if ", m);
    CutFront(' ', "if ", m);
    CutFront(' ', " if ", m);
    assert "  if " == [' '] + " if " && " if " == [' '] + "if ";
  }

  lemma HitsBrace(t: string, m: string)
    requires Plain(m)
    ensures Hits(" {\n" + t, m) == Hits(t, m)
  {
    assert " {\n" + t == [' '] + (['{'] + (['\n'] + t));
    CutFront(' ', ['{'] + (['\n'] + t), m);
    CutFront('{', ['\n'] + t, m);
    CutFront('\n', t, m);
  }

  lemma HitsIndent(t: string, m: string)
    requires Plain(m)
    ensures Hits("    " + t, m) == Hits(t, m)
  {
    assert "    " + t == [' '] + ([' '] + ([' '] + ([' '] + t)));
    CutFront(' ', [' '] + ([' '] + ([' '] + t)), m);
    CutFront(' ', [' '] + ([' '] + t), m);
    CutFront(' ', [' '] + t, m);
    CutFront(' ', t, m);
  }

  lemma HitsFoot(t: string, m: string)
    requires Plain(m)
    ensures Hits("  }\n" + t, m) == Hits(t, m)
  {
    assert "  }\n" + t == [' '] + ([' '] + (['}'] + (['\n'] + t)));
    CutFront(' ', [' '] + (['}'] + (['\n'] + t)), m);
    CutFront(' ', ['}'] + (['\n'] + t), m);
    CutFront('}', ['\n'] + t, m);
    CutFront('\n', t, m);
  }

  /** The guard is what goes in: it is asked for, not there yet, and an entry point is found. */
  predicate GuardGoesIn(content: string, p: Patch) {
    p.guardOnly && !Contains(Trimmed(content), p.condition) &&
    FirstMatch(Lines(Trimmed(content), 0), p, 0) < |Lines(Trimmed(content), 0)|
  }

  /** How often the parts of the patch that go in hold the marker themselves. */
  function Extra(content: string, p: Patch, m: string): nat {
    Hits(p.note, m) + if GuardGoesIn(content, p) then Hits(p.condition, m) + Hits(p.action, m) else 0
  }

  /** A block brings the marker in once, and again for every time its own parts hold it. */
  lemma BlockHits(a: string, content: string, p: Patch, b: string, m: string)
    requires Plain(m)
    ensures Hits(a + Block(content, p, m).1 + b, m) == Hits(a, m) + 1 + Extra(content, p, m) + Hits(b, m)
  {
    var stripped := Trimmed(content);
    var lines := Lines(stripped, 0);
    var k := FirstMatch(lines, p, 0);
    if GuardGoesIn(content, p) {
      GuardBlockHits(a, lines[k], p, b, m);
    } else {
      HitsEndComment(a, p.note, b, m);
    }
  }

  lemma GuardBlockHits(a: string, line: string, p: Patch, b: string, m: string)
    requires Plain(m)
    ensures Hits(a + GuardBlock(line, p, m) + b, m) ==
            Hits(a, m) + 1 + Hits(p.note, m) + Hits(p.condition, m) + Hits(p.action, m) + Hits(b, m)
  {
    var g := GuardLines(p);
    HitsGuard(p, b, m);
    HitsRStrip(p.action, m);
    HitsLStrip(RStrip(p.action), m);
    if p.classify(line) == CEntry {
      assert a + GuardBlock(line, p, m) + b == a + CComment(m, p.note) + (g + b);
      HitsCComment(a, p.note, g + b, m);
    } else {
      assert a + GuardBlock(line, p, m) + b == a + CppComment(m, p.note) + (g + b);
      HitsCppComment(a, p.note, g + b, m);
    }
  }

  /** Injection leaves a marked text alone. An unmarked one gets the marker once, and as often again as
      the parts that go in hold it. */
  lemma InjectHits(content: string, p: Patch, m: string)
    requires Plain(m)
    ensures Hits(Inject(content, p, m), m) ==
      if Hits(content, m) > 0 then Hits(content, m) else 1 + Extra(content, p, m)
  {
    ContainsIsHits(content, m);
    if Hits(content, m) == 0 {
      BlockInside(content, p, m);
      var s, at := Trimmed(content), Block(content, p, m).0;
      HitsRStrip(content, m);
      Cut(RStrip(content), '\n', "", m);
      assert s == RStrip(content) + ['\n'] + "";
      assert s == s[..at] + s[at..];
      HitsParts(s[..at], s[at..], m);
      BlockHits(s[..at], content, p, s[at..], m);
    }
  }

  /** Whatever is injected, the result holds the marker. */
  lemma InjectMarks(content: string, p: Patch, m: string)
    requires Plain(m)
    ensures Contains(Inject(content, p, m), m)
  {
    InjectHits(content, p, m);
    ContainsIsHits(Inject(content, p, m), m);
  }

  /** A second injection, of whatever patch, changes nothing. */
  lemma Idempotent(content: string, p: Patch, q: Patch, m: string)
    requires Plain(m)
    ensures Inject(Inject(content, p, m), q, m) == Inject(content, p, m)
  {
    InjectMarks(content, p, m);
  }

  // ---------------------------------------------------------------------------
  // Applying
  // ---------------------------------------------------------------------------

  /** One call: what is injected, whether the guardrails pass, and what the probes would exit with. */
  datatype Attempt = Attempt(patch: Patch, guardrailsPass: bool, buildExit: int, smokeExit: int)

  datatype Verdict = Blocked | Applied | RolledBack

  function Judge(t: Attempt): Verdict {
    if !t.guardrailsPass then Blocked
    else if t.buildExit == 0 && t.smokeExit == 0 then Applied
    else RolledBack
  }

  /** The file after the call. */
  function After(disk: string, t: Attempt, m: string): string {
    match Judge(t)
    case Blocked => disk
    case Applied => Inject(ReadText(disk), t.patch, m)
    case RolledBack => ReadText(disk)
  }

  class TargetFile {
    var disk: string

    /** apply_verified_harness_patch_candidate, from reading the target file on. The smoke probe is only
        run, and its exit code only looked at, when the build probe succeeds. A call is blocked exactly
        when the guardrails fail and applied exactly when they pass and both probes exit with 0. A
        blocked call leaves the bytes alone, a rolled-back one writes the text that was read, and an
        applied one leaves the marker in the file. */
    method Apply(t: Attempt, m: string) returns (status: Verdict)
      modifies this
      ensures status == Blocked <==> !t.guardrailsPass
      ensures status == Applied <==> t.guardrailsPass && t.buildExit == 0 && t.smokeExit == 0
      ensures status == Blocked ==> disk == old(disk)
      ensures status == RolledBack ==> disk == ReadText(old(disk))
      ensures status == Applied ==> disk == Inject(ReadText(old(disk)), t.patch, m)
      ensures status == Applied && Plain(m) ==> Contains(disk, m)
      ensures status == Judge(t) && disk == After(old(disk), t, m)
    {
      if Plain(m) {
        InjectMarks(ReadText(disk), t.patch, m);
      }
      var original := ReadText(disk);
      var patched := InjectGuardedPatch(original, t.patch, m);
      if !t.guardrailsPass {
        return Blocked;
      }
      disk := patched;
      var buildPassed := t.buildExit == 0;
      var smokeFailed := buildPassed && t.smokeExit != 0;
      status := Applied;
      if !buildPassed || smokeFailed {
        disk := original;
        status := RolledBack;
      }
    }
  }

  /** The file after a run of calls. */
  function Final(disk: string, tries: seq<Attempt>, m: string): string
    decreases |tries|
  {
    if tries == [] then disk else Final(After(disk, tries[0], m), tries[1..], m)
  }

  /** No carriage returns come in with a patch. */
  predicate Lf(p: Patch) {
    '\r' !in p.note && '\r' !in p.condition && '\r' !in p.action
  }

  /** A blocked or rolled-back call leaves the text as it was. It leaves the bytes as they were exactly
      when it was blocked or the file had no carriage returns: rolling back writes the text that was
      read, with its line ends changed. */
  lemma Restored(disk: string, t: Attempt, m: string)
    requires Judge(t) != Applied
    ensures ReadText(After(disk, t, m)) == ReadText(disk)
    ensures After(disk, t, m) == disk <==> Judge(t) == Blocked || '\r' !in disk
  {
    ReadExactly(disk);
    ReadExactly(ReadText(disk));
  }

  lemma {:induction false} StripKeepsLf(s: string)
    requires '\r' !in s
    ensures '\r' !in RStrip(s) && '\r' !in LStrip(s)
  {
    assert forall c :: c in RStrip(s) ==> c in s;
    if s != "" && IsSpace(s[0]) {
      assert forall c :: c in s[1..] ==> c in s;
      StripKeepsLf(s[1..]);
    }
  }

  lemma GuardKeepsLf(p: Patch)
    requires Lf(p)
    ensures '\r' !in GuardLines(p)
  {
    StripKeepsLf(p.action);
    StripKeepsLf(RStrip(p.action));
  }

  lemma BlockKeepsLf(content: string, p: Patch, m: string)
    requires Lf(p) && Plain(m)
    ensures '\r' !in Block(content, p, m).1
  {
    GuardKeepsLf(p);
    assert '\r' !in m;
  }

  lemma InjectKeepsLf(content: string, p: Patch, m: string)
    requires '\r' !in content && Lf(p) && Plain(m)
    ensures '\r' !in Inject(content, p, m)
  {
    if !Contains(content, m) {
      StripKeepsLf(content);
      BlockKeepsLf(content, p, m);
      BlockInside(content, p, m);
      var s, at := Trimmed(content), Block(content, p, m).0;
      assert forall c :: c in s[..at] || c in s[at..] ==> c in s;
    }
  }

  /** The text after one call: line ends that came in with the patch are read back as line feeds. */
  lemma TextAfter(disk: string, t: Attempt, m: string)
    ensures ReadText(After(disk, t, m)) ==
      if Judge(t) == Applied then ReadText(Inject(ReadText(disk), t.patch, m)) else ReadText(disk)
  {
    if Judge(t) != Applied {
      Restored(disk, t, m);
    }
  }

  /** Without carriage returns in the patch the injected text is read back as it is. */
  lemma InjectedReads(disk: string, p: Patch, m: string)
    requires Lf(p) && Plain(m)
    ensures ReadText(Inject(ReadText(disk), p, m)) == Inject(ReadText(disk), p, m)
  {
    ReadExactly(disk);
    InjectKeepsLf(ReadText(disk), p, m);
    ReadExactly(Inject(ReadText(disk), p, m));
  }

  /** The first attempt that is applied, or the number of attempts. */
  function FirstApplied(tries: seq<Attempt>): (i: nat)
    ensures i <= |tries|
  {
    if tries == [] || Judge(tries[0]) == Applied then 0 else 1 + FirstApplied(tries[1..])
  }

  /** Once the marker is there, no run changes the text again. */
  lemma {:induction false} MarkedIsFinal(disk: string, tries: seq<Attempt>, m: string)
    requires Plain(m) && Contains(ReadText(disk), m)
    ensures ReadText(Final(disk, tries, m)) == ReadText(disk)
    decreases |tries|
  {
    if tries != [] {
      TextAfter(disk, tries[0], m);
      ReadExactly(disk);
      ReadExactly(ReadText(disk));
      MarkedIsFinal(After(disk, tries[0], m), tries[1..], m);
    }
  }

  /** The marker that was injected is still there when the text is read back. */
  lemma MarkRead(disk: string, t: Attempt, m: string)
    requires Plain(m) && Judge(t) == Applied
    ensures Contains(ReadText(After(disk, t, m)), m)
  {
    var content, p := ReadText(disk), t.patch;
    var r := Inject(content, p, m);
    assert '\r' !in m && '\n' !in m;
    InjectMarks(content, p, m);
    HitsReadText(r, m);
    ContainsIsHits(r, m);
    ContainsIsHits(ReadText(r), m);
  }

  /** What the run makes of a text. */
  function Changed(text: string, tries: seq<Attempt>, m: string): string {
    var i := FirstApplied(tries);
    if i == |tries| then text else ReadText(Inject(text, tries[i].patch, m))
  }

  lemma SameChange(text: string, same: string, tries: seq<Attempt>, m: string)
    requires text == same && tries != [] && Judge(tries[0]) != Applied
    ensures Changed(text, tries[1..], m) == Changed(same, tries, m)
  {
  }

  /** Over any run the text changes at most once: it ends as the original when nothing was applied, and
      otherwise as the original with the first applied patch injected, read back. */
  lemma {:induction false} RunText(disk: string, tries: seq<Attempt>, m: string)
    requires Plain(m)
    ensures ReadText(Final(disk, tries, m)) == Changed(ReadText(disk), tries, m)
    decreases |tries|
  {
    if tries != [] {
      var next := After(disk, tries[0], m);
      TextAfter(disk, tries[0], m);
      if Judge(tries[0]) == Applied {
        MarkRead(disk, tries[0], m);
        MarkedIsFinal(next, tries[1..], m);
      } else {
        RunText(next, tries[1..], m);
        SameChange(ReadText(next), ReadText(disk), tries, m);
      }
    }
  }

  /** How often the marker is there after any run on a file without it: not at all when nothing was
      applied, else once and again for every time the parts that went in with the first applied patch
      hold it. It is there at most once exactly when they do not. */
  lemma MarkerCount(disk: string, tries: seq<Attempt>, m: string)
    requires Plain(m) && Hits(disk, m) == 0
    ensures var i := FirstApplied(tries);
      && Hits(Final(disk, tries, m), m) == (if i == |tries| then 0 else 1 + Extra(ReadText(disk), tries[i].patch, m))
      && (Hits(Final(disk, tries, m), m) <= 1 <==> i == |tries| || Extra(ReadText(disk), tries[i].patch, m) == 0)
  {
    assert '\r' !in m && '\n' !in m;
    RunText(disk, tries, m);
    HitsReadText(disk, m);
    HitsReadText(Final(disk, tries, m), m);
    var i := FirstApplied(tries);
    if i < |tries| {
      InjectHits(ReadText(disk), tries[i].patch, m);
      HitsReadText(Inject(ReadText(disk), tries[i].patch, m), m);
    }
  }

  lemma {:induction false} FirstAppliedIs(tries: seq<Attempt>, i: nat)
    requires i <= |tries|
    requires forall k :: 0 <= k < i ==> !tries[k].guardrailsPass || tries[k].buildExit != 0 || tries[k].smokeExit != 0
    requires i < |tries| ==> tries[i].guardrailsPass && tries[i].buildExit == 0 && tries[i].smokeExit == 0
    ensures FirstApplied(tries) == i
  {
    if i > 0 {
      assert forall k :: 0 <= k < i - 1 ==> tries[1..][k] == tries[k + 1];
      FirstAppliedIs(tries[1..], i - 1);
    }
  }

  /** Over any run, let i be the first call whose guardrails pass and whose two probes exit with 0. The
      text ends as the original with the patch of that call injected, read back; when there is no such
      call, as the original. On a file without the marker, the marker is there in the end exactly when
      there is such a call. */
  lemma ChangedByFirstSuccess(disk: string, tries: seq<Attempt>, m: string, i: nat)
    requires Plain(m) && i <= |tries|
    requires forall k :: 0 <= k < i ==> !tries[k].guardrailsPass || tries[k].buildExit != 0 || tries[k].smokeExit != 0
    requires i < |tries| ==> tries[i].guardrailsPass && tries[i].buildExit == 0 && tries[i].smokeExit == 0
    ensures i == |tries| ==> ReadText(Final(disk, tries, m)) == ReadText(disk)
    ensures i < |tries| ==>
      ReadText(Final(disk, tries, m)) == ReadText(Inject(ReadText(disk), tries[i].patch, m))
    ensures !Contains(disk, m) ==> (Contains(Final(disk, tries, m), m) <==> i < |tries|)
  {
    FirstAppliedIs(tries, i);
    RunText(disk, tries, m);
    ContainsIsHits(disk, m);
    ContainsIsHits(Final(disk, tries, m), m);
    if !Contains(disk, m) {
      MarkerCount(disk, tries, m);
    }
  }
}
