/** The crash excerpt kept while a fuzzer's log streams by (scripts/hermes_watch.py,
    `Metrics.update_from_line`), and what the crash signature reads out of it
    (`extract_summary_text`, `extract_artifact_path`).

    Lines are represented by what the regular expressions find in them. */
module CrashExcerpt {
  import opened Options

  /** A line in the excerpt, that is, without its trailing blanks: the text after SUMMARY, the artifact
      path, and the text after "runtime error:", where there are any. */
  datatype Kept = Kept(summary: Option<string>, artifact: Option<string>, runtimeError: Option<string>)

  /** A line of the log: whether it is a crash line, matches the summary and artifact patterns as it
      stands, looks like a stack frame, location or leak, mentions a timeout; and what it looks like once
      its trailing blanks are gone. */
  datatype Line = Line(crash: bool, rawSummary: bool, rawArtifact: bool, context: bool, timeout: bool, kept: Kept)

  /** Trailing blanks can lose a summary that consisted of nothing else; they cannot make one up, and do
      not touch artifact paths. */
  predicate Sane(l: Line) {
    (l.kept.summary.Some? ==> l.rawSummary) && (l.kept.artifact.Some? <==> l.rawArtifact)
  }

  const LIMIT: nat := 20

  predicate AnySummary(top: seq<Kept>) {
    exists k :: 0 <= k < |top| && top[k].summary.Some?
  }

  predicate AnyArtifact(top: seq<Kept>) {
    exists k :: 0 <= k < |top| && top[k].artifact.Some?
  }

  predicate IsPlain(k: Kept) {
    k.summary.None? && k.artifact.None?
  }

  /** The last index below n with neither a summary nor an artifact; `otherwise` if there is none. */
  function LastPlain(top: seq<Kept>, n: nat, otherwise: nat): (i: nat)
    requires n <= |top|
    ensures i == otherwise || (i < n && IsPlain(top[i]))
    ensures (exists k :: 0 <= k < n && IsPlain(top[k])) ==> i < n && IsPlain(top[i])
  {
    if n == 0 then otherwise
    else if IsPlain(top[n - 1]) then n - 1
    else LastPlain(top, n - 1, otherwise)
  }

  datatype State = State(crash: bool, timeout: bool, top: seq<Kept>)

  /** A crash line when the excerpt is full. */
  function Squeeze(top: seq<Kept>, l: Line): (r: seq<Kept>)
    requires |top| == LIMIT
    ensures |r| == LIMIT
  {
    var wantsSummary := l.rawSummary && !AnySummary(top);
    var wantsArtifact := l.rawArtifact && !AnyArtifact(top);
    if wantsSummary || wantsArtifact then top[LastPlain(top, LIMIT, LIMIT - 1) := l.kept] else top
  }

  /** The excerpt after the crash and context parts of update_from_line. */
  function Noted(s: State, l: Line): seq<Kept>
    requires |s.top| <= LIMIT
  {
    if l.crash then (if |s.top| < LIMIT then s.top + [l.kept] else Squeeze(s.top, l))
    else if s.crash && |s.top| < LIMIT && l.context then s.top + [l.kept]
    else s.top
  }

  /** update_from_line, as far as crashes and timeouts go. */
  function Next(s: State, l: Line): (t: State)
    requires |s.top| <= LIMIT
    ensures |t.top| <= LIMIT
  {
    var top := Noted(s, l);
    State(s.crash || l.crash, s.timeout || l.timeout, if l.timeout && |top| < 12 then top + [l.kept] else top)
  }

  /** The state after the whole log. */
  function Run(log: seq<Line>): (s: State)
    ensures |s.top| <= LIMIT
  {
    if log == [] then State(false, false, []) else Next(Run(log[..|log| - 1]), log[|log| - 1])
  }

  class Metrics {
    var crash: bool
    var timeout: bool
    var topCrashLines: seq<Kept>

    ghost function View(): State
      reads this
    {
      State(crash, timeout, topCrashLines)
    }

    constructor ()
      ensures View() == Run([])
    {
      crash, timeout, topCrashLines := false, false, [];
    }

    /** The search for the line to give up, from the end. */
    method ReplaceIndex() returns (i: nat)
      requires |topCrashLines| == LIMIT
      ensures i == LastPlain(topCrashLines, LIMIT, LIMIT - 1) && i < LIMIT
    {
      i := |topCrashLines| - 1;
      var index := |topCrashLines| - 1;
      while index >= 0
        invariant -1 <= index < |topCrashLines| && i == |topCrashLines| - 1
        invariant LastPlain(topCrashLines, LIMIT, LIMIT - 1) == LastPlain(topCrashLines, index + 1, LIMIT - 1)
      {
        var existing := topCrashLines[index];
        if existing.summary.None? && existing.artifact.None? {
          i := index;
          return;
        }
        index := index - 1;
      }
    }

    /** update_from_line */
    method UpdateFromLine(l: Line)
      requires |topCrashLines| <= LIMIT
      modifies this
      ensures View() == Next(old(View()), l)
    {
      if l.crash {
        crash := true;
        if |topCrashLines| < LIMIT {
          topCrashLines := topCrashLines + [l.kept];
        } else {
          var wantsSummary := l.rawSummary && !AnySummary(topCrashLines);
          var wantsArtifact := l.rawArtifact && !AnyArtifact(topCrashLines);
          if wantsSummary || wantsArtifact {
            var i := ReplaceIndex();
            topCrashLines := topCrashLines[i := l.kept];
          }
        }
      } else if crash && |topCrashLines| < LIMIT {
        if l.context {
          topCrashLines := topCrashLines + [l.kept];
        }
      }
      if l.timeout {
        timeout := true;
        if |topCrashLines| < 12 {
          topCrashLines := topCrashLines + [l.kept];
        }
      }
    }
  }

  // ---------------------------------------------------------------------------
  // What survives
  // ---------------------------------------------------------------------------

  /** Appending keeps what is there. */
  lemma AppendKeeps(top: seq<Kept>, k: Kept)
    ensures AnySummary(top) || k.summary.Some? ==> AnySummary(top + [k])
    ensures AnyArtifact(top) || k.artifact.Some? ==> AnyArtifact(top + [k])
  {
    assert (top + [k])[|top|] == k;
    if AnySummary(top) {
      var i :| 0 <= i < |top| && top[i].summary.Some?;
      assert (top + [k])[i] == top[i];
    }
    if AnyArtifact(top) {
      var i :| 0 <= i < |top| && top[i].artifact.Some?;
      assert (top + [k])[i] == top[i];
    }
  }

  /** Squeezing a line in loses neither the last summary nor the last artifact, and takes in the line's
      own where there was none. */
  lemma SqueezeKeeps(top: seq<Kept>, l: Line)
    requires |top| == LIMIT && Sane(l)
    ensures AnySummary(top) || l.kept.summary.Some? ==> AnySummary(Squeeze(top, l))
    ensures AnyArtifact(top) || l.kept.artifact.Some? ==> AnyArtifact(Squeeze(top, l))
  {
    var i := LastPlain(top, LIMIT, LIMIT - 1);
    var r := Squeeze(top, l);
    if r != top {
      assert r == top[i := l.kept] && r[i] == l.kept;
      if !IsPlain(top[i]) {
        assert !IsPlain(top[0]);
        assert i == LIMIT - 1 && r[0] == top[0];
      }
      SurvivesUpdate(top, i, l.kept);
    }
  }

  lemma SurvivesUpdate(top: seq<Kept>, i: nat, k: Kept)
    requires i < |top|
    ensures IsPlain(top[i]) && AnySummary(top) ==> AnySummary(top[i := k])
    ensures IsPlain(top[i]) && AnyArtifact(top) ==> AnyArtifact(top[i := k])
  {
    var r := top[i := k];
    if IsPlain(top[i]) && AnySummary(top) {
      var j :| 0 <= j < |top| && top[j].summary.Some?;
      assert r[j] == top[j];
    }
    if IsPlain(top[i]) && AnyArtifact(top) {
      var j :| 0 <= j < |top| && top[j].artifact.Some?;
      assert r[j] == top[j];
    }
  }

  lemma NotedKeeps(s: State, l: Line)
    requires |s.top| <= LIMIT && Sane(l)
    ensures AnySummary(s.top) || (l.crash && l.kept.summary.Some?) ==> AnySummary(Noted(s, l))
    ensures AnyArtifact(s.top) || (l.crash && l.kept.artifact.Some?) ==> AnyArtifact(Noted(s, l))
  {
    AppendKeeps(s.top, l.kept);
    if |s.top| == LIMIT {
      SqueezeKeeps(s.top, l);
    }
  }

  /** For every log, the excerpt has at most 20 lines; if any crash line carried a summary (that is still
      one without trailing blanks) then some retained line does, and the same for artifact paths. */
  lemma {:induction false} ExcerptKeeps(log: seq<Line>)
    requires forall k :: 0 <= k < |log| ==> Sane(log[k])
    ensures |Run(log).top| <= 20
    ensures (exists k :: 0 <= k < |log| && log[k].crash && log[k].kept.summary.Some?) ==> AnySummary(Run(log).top)
    ensures (exists k :: 0 <= k < |log| && log[k].crash && log[k].kept.artifact.Some?) ==> AnyArtifact(Run(log).top)
  {
    if log != [] {
      var n := |log| - 1;
      var s, l := Run(log[..n]), log[n];
      ExcerptKeeps(log[..n]);
      NotedKeeps(s, l);
      AppendKeeps(Noted(s, l), l.kept);
      assert forall k :: 0 <= k < n ==> log[..n][k] == log[k];
    }
  }

  // ---------------------------------------------------------------------------
  // What is taken in
  // ---------------------------------------------------------------------------

  lemma {:induction false} FlagsAre(log: seq<Line>)
    ensures Run(log).crash <==> exists k :: 0 <= k < |log| && log[k].crash
    ensures Run(log).timeout <==> exists k :: 0 <= k < |log| && log[k].timeout
  {
    if log != [] {
      var n := |log| - 1;
      FlagsAre(log[..n]);
      assert forall k :: 0 <= k < n ==> log[..n][k] == log[k];
    }
  }

  /** As long as there is room, a crash line is taken in, and from the first crash line on every context
      line; a line that mentions a timeout is taken in on top of that while there are fewer than twelve.
      No other line is, and a full excerpt takes in nothing but crash lines. */
  lemma LineTaken(log: seq<Line>, l: Line)
    ensures var before, after := Run(log).top, Run(log + [l]).top;
      var taken := l.crash || (l.context && exists k :: 0 <= k < |log| && log[k].crash);
      if |before| < 20 then
        var noted := if taken then before + [l.kept] else before;
        after == if l.timeout && |noted| < 12 then noted + [l.kept] else noted
      else !l.crash ==> after == before
  {
    FlagsAre(log);
    assert (log + [l])[..|log|] == log;
  }

  lemma {:induction false} LastPlainIs(top: seq<Kept>, n: nat, otherwise: nat)
    requires n <= |top|
    ensures forall k :: LastPlain(top, n, otherwise) < k < n ==> !IsPlain(top[k])
    ensures (forall k :: 0 <= k < n ==> !IsPlain(top[k])) ==> LastPlain(top, n, otherwise) == otherwise
  {
    if n > 0 && !IsPlain(top[n - 1]) {
      LastPlainIs(top, n - 1, otherwise);
    }
  }

  /** A crash line goes into a full excerpt exactly when it has a summary and no line there has one, or an
      artifact and no line there has one. It takes the place of the last line with neither, or, when all
      have one, of the last line; the others stay. */
  lemma CrashLineInFull(log: seq<Line>, l: Line)
    requires |Run(log).top| == 20 && l.crash
    ensures var before, after := Run(log).top, Run(log + [l]).top;
      if (l.rawSummary && !AnySummary(before)) || (l.rawArtifact && !AnyArtifact(before)) then
        exists i :: 0 <= i < 20 && after == before[i := l.kept] && PlaceToGive(before, i)
      else after == before
  {
    assert (log + [l])[..|log|] == log;
    var before := Run(log).top;
    LastPlainIs(before, LIMIT, LIMIT - 1);
    assert PlaceToGive(before, LastPlain(before, LIMIT, LIMIT - 1));
  }

  /** i is the last line with neither a summary nor an artifact, or the last line when there is none. */
  predicate PlaceToGive(top: seq<Kept>, i: nat) {
    && i < |top| && (IsPlain(top[i]) || (i == |top| - 1 && forall k :: 0 <= k < |top| ==> !IsPlain(top[k])))
    && forall k :: i < k < |top| ==> !IsPlain(top[k])
  }

  // ---------------------------------------------------------------------------
  // What the signature reads
  // ---------------------------------------------------------------------------

  function FirstSummary(top: seq<Kept>): Option<string> {
    if top == [] then None else if top[0].summary.Some? then top[0].summary else FirstSummary(top[1..])
  }

  function FirstRuntimeError(top: seq<Kept>): Option<string> {
    if top == [] then None else if top[0].runtimeError.Some? then top[0].runtimeError else FirstRuntimeError(top[1..])
  }

  /** extract_artifact_path */
  function ArtifactPath(top: seq<Kept>): Option<string> {
    if top == [] then None else if top[0].artifact.Some? then top[0].artifact else ArtifactPath(top[1..])
  }

  /** extract_summary_text */
  function SummaryText(top: seq<Kept>): Option<string> {
    if FirstSummary(top).Some? then FirstSummary(top) else FirstRuntimeError(top)
  }

  lemma {:induction false} SummaryFound(top: seq<Kept>)
    ensures FirstSummary(top).Some? <==> AnySummary(top)
    ensures FirstSummary(top).Some? ==> exists k :: 0 <= k < |top| && top[k].summary == FirstSummary(top)
  {
    if top != [] && top[0].summary.None? {
      SummaryFound(top[1..]);
      if AnySummary(top) {
        var k :| 0 <= k < |top| && top[k].summary.Some?;
        assert top[1..][k - 1] == top[k];
      }
      if FirstSummary(top).Some? {
        var k :| 0 <= k < |top[1..]| && top[1..][k].summary == FirstSummary(top[1..]);
        assert top[k + 1].summary == FirstSummary(top);
      }
    }
  }

  lemma {:induction false} ArtifactFound(top: seq<Kept>)
    ensures ArtifactPath(top).Some? <==> AnyArtifact(top)
  {
    if top != [] && top[0].artifact.None? {
      ArtifactFound(top[1..]);
      if AnyArtifact(top) {
        var k :| 0 <= k < |top| && top[k].artifact.Some?;
        assert top[1..][k - 1] == top[k];
      }
    }
  }

  /** The signature takes the first summary, or without one the first runtime error, and the first
      artifact. */
  lemma {:induction false} SignatureReads(top: seq<Kept>, k: nat)
    requires k <= |top|
    ensures k < |top| && top[k].summary.Some? && (forall j :: 0 <= j < k ==> top[j].summary.None?) ==>
      SummaryText(top) == top[k].summary
    ensures !AnySummary(top) ==> SummaryText(top) == FirstRuntimeError(top)
    ensures k < |top| && top[k].runtimeError.Some? && (forall j :: 0 <= j < k ==> top[j].runtimeError.None?) ==>
      FirstRuntimeError(top) == top[k].runtimeError
    ensures (forall j :: 0 <= j < |top| ==> top[j].runtimeError.None?) ==> FirstRuntimeError(top) == None
    ensures k < |top| && top[k].artifact.Some? && (forall j :: 0 <= j < k ==> top[j].artifact.None?) ==>
      ArtifactPath(top) == top[k].artifact
  {
    SummaryFound(top);
    if top != [] {
      SignatureReads(top[1..], if k > 0 then k - 1 else 0);
      assert forall j :: 0 < j < |top| ==> top[j] == top[1..][j - 1];
    }
  }

  /** So the signature built from the excerpt has a summary, taken from a SUMMARY line, if any crash line
      had one, and an artifact path if any crash line had one. */
  lemma SignatureHasBoth(log: seq<Line>)
    requires forall k :: 0 <= k < |log| ==> Sane(log[k])
    ensures (exists k :: 0 <= k < |log| && log[k].crash && log[k].kept.summary.Some?) ==>
      var top := Run(log).top;
      SummaryText(top).Some? && exists k :: 0 <= k < |top| && top[k].summary == SummaryText(top)
    ensures (exists k :: 0 <= k < |log| && log[k].crash && log[k].kept.artifact.Some?) ==>
      ArtifactPath(Run(log).top).Some?
  {
    ExcerptKeeps(log);
    SummaryFound(Run(log).top);
    ArtifactFound(Run(log).top);
  }

  // ---------------------------------------------------------------------------
  // Order
  // ---------------------------------------------------------------------------

  /** A retained line is a line of the log. */
  lemma {:induction false} NothingInvented(log: seq<Line>, i: nat)
    requires i < |Run(log).top|
    ensures exists k :: 0 <= k < |log| && log[k].kept == Run(log).top[i]
  {
    if log != [] {
      var n := |log| - 1;
      var before, after := Run(log[..n]).top, Run(log).top;
      assert after[i] == log[n].kept || (i < |before| && after[i] == before[i]);
      if i < |before| && after[i] == before[i] {
        NothingInvented(log[..n], i);
        var k :| 0 <= k < |log[..n]| && log[..n][k].kept == before[i];
        assert log[k].kept == after[i];
      }
    }
  }

  /** The excerpt only grows at its end until it is full: a log and its continuation agree on every
      position the shorter one had filled, as long as there is room. */
  lemma {:induction false} GrowsAtTheEnd(log: seq<Line>, n: nat)
    requires n <= |log| && (n < |log| ==> |Run(log[..|log| - 1]).top| < LIMIT)
    ensures Run(log[..n]).top <= Run(log).top
    decreases |log| - n
  {
    if n < |log| {
      var m := |log| - 1;
      ShorterHasRoom(log[..m], n);
      assert log[..m][..n] == log[..n];
    } else {
      assert log[..n] == log;
    }
  }

  lemma {:induction false} ShorterHasRoom(log: seq<Line>, n: nat)
    requires n <= |log| && |Run(log).top| < LIMIT
    ensures |Run(log[..n]).top| < LIMIT && Run(log[..n]).top <= Run(log).top
  {
    if n < |log| {
      ShorterHasRoom(log[..|log| - 1], n);
      assert log[..|log| - 1][..n] == log[..n];
    } else {
      assert log[..n] == log;
    }
  }
}
