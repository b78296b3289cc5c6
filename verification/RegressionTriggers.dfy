/** The queue of regression triggers (scripts/hermes_watch.py, `normalize_regression_triggers`,
    `record_regression_trigger`, `sort_regression_trigger_entries`).

    What a smoke log names as the failing input is a function of the report it lies beside. */
module RegressionTriggers {
  import opened Options
  import opened Substrings

  function Or<T>(o: Option<T>, other: T): T {
    if o.Some? then o.value else other
  }

  /** A queue entry; None is a missing key, an empty string a path that is not there. */
  datatype Entry = Entry(
    reason: string, seed: string, run: string, report: string, priority: Option<int>, count: Option<int>,
    firstRun: Option<string>, firstReport: Option<string>, lastRun: Option<string>, lastReport: Option<string>,
    key: Option<string>, rank: nat)

  const PROMOTE: string := "promote-seed-to-regression-and-triage"

  /** regression_trigger_dedup_key */
  function DedupKey(reason: string, seed: string): string {
    if reason == PROMOTE && seed != "" then reason + ":" + seed else reason
  }

  // ---------------------------------------------------------------------------
  // Sorting
  // ---------------------------------------------------------------------------

  /** Python's order on strings. */
  predicate StringLe(a: string, b: string) {
    a == "" || (b != "" && (a[0] < b[0] || (a[0] == b[0] && StringLe(a[1..], b[1..]))))
  }

  lemma {:induction false} StringLeTotal(a: string, b: string)
    ensures StringLe(a, b) || StringLe(b, a)
  {
    if a != "" && b != "" && a[0] == b[0] {
      StringLeTotal(a[1..], b[1..]);
    }
  }

  lemma {:induction false} StringLeTransitive(a: string, b: string, c: string)
    requires StringLe(a, b) && StringLe(b, c)
    ensures StringLe(a, c)
  {
    if a != "" && a[0] == b[0] == c[0] {
      StringLeTransitive(a[1..], b[1..], c[1..]);
    }
  }

  /** The sort key (-priority, first run) of a is at most that of b. */
  predicate Before(a: Entry, b: Entry) {
    var p, q := Or(a.priority, 0), Or(b.priority, 0);
    p > q || (p == q && StringLe(Or(a.firstRun, a.run), Or(b.firstRun, b.run)))
  }

  lemma BeforeTotal(a: Entry, b: Entry)
    ensures Before(a, b) || Before(b, a)
  {
    StringLeTotal(Or(a.firstRun, a.run), Or(b.firstRun, b.run));
  }

  lemma BeforeTransitive(a: Entry, b: Entry, c: Entry)
    requires Before(a, b) && Before(b, c)
    ensures Before(a, c)
  {
    if Or(a.priority, 0) == Or(c.priority, 0) {
      StringLeTransitive(Or(a.firstRun, a.run), Or(b.firstRun, b.run), Or(c.firstRun, c.run));
    }
  }

  function Insert(x: Entry, s: seq<Entry>): (r: seq<Entry>)
    ensures |r| == |s| + 1
  {
    if s == [] || Before(x, s[0]) then [x] + s else [s[0]] + Insert(x, s[1..])
  }

  /** list.sort: stable, as an entry stays before the equal ones behind it. */
  function Sorted(s: seq<Entry>): (r: seq<Entry>)
    ensures |r| == |s|
  {
    if s == [] then [] else Insert(s[0], Sorted(s[1..]))
  }

  predicate Ordered(s: seq<Entry>) {
    forall i, j :: 0 <= i < j < |s| ==> Before(s[i], s[j])
  }

  lemma {:induction false} InsertIsPermutation(x: Entry, s: seq<Entry>)
    ensures multiset(Insert(x, s)) == multiset(s) + multiset{x}
  {
    if s == [] || Before(x, s[0]) {
    } else {
      InsertIsPermutation(x, s[1..]);
      assert s == [s[0]] + s[1..];
    }
  }

  lemma {:induction false} SortedIsPermutation(s: seq<Entry>)
    ensures multiset(Sorted(s)) == multiset(s)
  {
    if s != [] {
      SortedIsPermutation(s[1..]);
      InsertIsPermutation(s[0], Sorted(s[1..]));
      assert s == [s[0]] + s[1..];
    }
  }

  lemma {:induction false} InsertOrders(x: Entry, s: seq<Entry>)
    requires Ordered(s)
    ensures Ordered(Insert(x, s))
  {
    if s == [] {
    } else if Before(x, s[0]) {
      forall j | 0 <= j < |s|
        ensures Before(x, s[j])
      {
        if j > 0 {
          BeforeTransitive(x, s[0], s[j]);
        }
      }
    } else {
      BeforeTotal(x, s[0]);
      InsertOrders(x, s[1..]);
      InsertIsPermutation(x, s[1..]);
      var r := Insert(x, s[1..]);
      forall j | 0 <= j < |r|
        ensures Before(s[0], r[j])
      {
        assert r[j] in multiset(r);
        assert r[j] == x || r[j] in s[1..];
      }
    }
  }

  lemma {:induction false} SortedOrders(s: seq<Entry>)
    ensures Ordered(Sorted(s))
  {
    if s != [] {
      SortedOrders(s[1..]);
      InsertOrders(s[0], Sorted(s[1..]));
    }
  }

  /** Sorting an ordered queue changes nothing. */
  lemma {:induction false} SortedIsStable(s: seq<Entry>)
    requires Ordered(s)
    ensures Sorted(s) == s
  {
    if s != [] {
      SortedIsStable(s[1..]);
      if |s| > 1 {
        assert Before(s[0], s[1]);
      }
      assert s == [s[0]] + s[1..];
    }
  }

  // ---------------------------------------------------------------------------
  // Sums and keys
  // ---------------------------------------------------------------------------

  /** An entry without a count stands for one occurrence. */
  function Occurrences(e: Entry): int {
    Or(e.count, 1)
  }

  function Sum(s: seq<Entry>): int {
    if s == [] then 0 else Sum(s[..|s| - 1]) + Occurrences(s[|s| - 1])
  }

  lemma SumAppend(s: seq<Entry>, e: Entry)
    ensures Sum(s + [e]) == Sum(s) + Occurrences(e)
  {
    assert (s + [e])[..|s|] == s;
  }

  lemma {:induction false} SumUpdate(s: seq<Entry>, i: nat, e: Entry)
    requires i < |s|
    ensures Sum(s[i := e]) == Sum(s) - Occurrences(s[i]) + Occurrences(e)
  {
    var n := |s| - 1;
    if i == n {
      assert s[i := e][..n] == s[..n];
    } else {
      SumUpdate(s[..n], i, e);
      assert s[i := e][..n] == s[..n][i := e];
    }
  }

  lemma {:induction false} SumSplit(a: seq<Entry>, b: seq<Entry>)
    ensures Sum(a + b) == Sum(a) + Sum(b)
  {
    if b == [] {
      assert a + b == a;
    } else {
      SumSplit(a, b[..|b| - 1]);
      assert (a + b)[..|a + b| - 1] == a + b[..|b| - 1];
    }
  }

  lemma {:induction false} SumInsert(x: Entry, s: seq<Entry>)
    ensures Sum(Insert(x, s)) == Sum(s) + Occurrences(x)
  {
    SumSplit([x], s);
    assert Sum([x]) == Occurrences(x) by {
      SumAppend([], x);
    }
    if s != [] && !Before(x, s[0]) {
      SumInsert(x, s[1..]);
      SumSplit([s[0]], Insert(x, s[1..]));
      SumSplit([s[0]], s[1..]);
      assert s == [s[0]] + s[1..];
    }
  }

  lemma {:induction false} SumSorted(s: seq<Entry>)
    ensures Sum(Sorted(s)) == Sum(s)
  {
    if s != [] {
      SumSorted(s[1..]);
      SumInsert(s[0], Sorted(s[1..]));
      SumSplit([s[0]], s[1..]);
      SumAppend([], s[0]);
      assert s == [s[0]] + s[1..] && [] + [s[0]] == [s[0]];
    }
  }

  /** The keys, in a multiset. */
  function Keys(s: seq<Entry>): multiset<Option<string>> {
    if s == [] then multiset{} else Keys(s[1..]) + multiset{s[0].key}
  }

  /** No key twice. */
  predicate Distinct(s: seq<Entry>) {
    forall k :: k in Keys(s) ==> Keys(s)[k] == 1
  }

  lemma {:induction false} KeyCount(s: seq<Entry>, i: nat)
    requires i < |s|
    ensures Keys(s)[s[i].key] >= 1
  {
    if i > 0 {
      KeyCount(s[1..], i - 1);
    }
  }

  lemma {:induction false} PairCount(s: seq<Entry>, i: nat, j: nat)
    requires i < j < |s| && s[i].key == s[j].key
    ensures Keys(s)[s[i].key] >= 2
  {
    if i == 0 {
      KeyCount(s[1..], j - 1);
    } else {
      PairCount(s[1..], i - 1, j - 1);
    }
  }

  lemma {:induction false} KeyWitness(s: seq<Entry>, k: Option<string>) returns (i: nat)
    requires k in Keys(s)
    ensures i < |s| && s[i].key == k
    ensures Keys(s)[k] >= 2 ==> exists j :: i < j < |s| && s[j].key == k
  {
    if s[0].key == k {
      i := 0;
      if Keys(s)[k] >= 2 {
        var j := KeyWitness(s[1..], k);
        assert s[j + 1].key == k;
      }
    } else {
      i := KeyWitness(s[1..], k);
      if Keys(s)[k] >= 2 {
        var j :| i < j < |s[1..]| && s[1..][j].key == k;
        assert s[j + 1].key == k;
      }
      i := i + 1;
    }
  }

  /** The same, index by index. */
  lemma DistinctMeans(s: seq<Entry>)
    ensures Distinct(s) <==> forall i, j :: 0 <= i < j < |s| ==> s[i].key != s[j].key
  {
    if Distinct(s) {
      forall i, j | 0 <= i < j < |s|
        ensures s[i].key != s[j].key
      {
        if s[i].key == s[j].key {
          PairCount(s, i, j);
        }
      }
    } else {
      var k :| k in Keys(s) && Keys(s)[k] != 1;
      var i := KeyWitness(s, k);
    }
  }

  lemma {:induction false} KeysAppend(s: seq<Entry>, e: Entry)
    ensures Keys(s + [e]) == Keys(s) + multiset{e.key}
  {
    if s == [] {
      assert [] + [e] == [e];
    } else {
      KeysAppend(s[1..], e);
      assert (s + [e])[1..] == s[1..] + [e];
    }
  }

  lemma {:induction false} KeysInsert(x: Entry, s: seq<Entry>)
    ensures Keys(Insert(x, s)) == Keys(s) + multiset{x.key}
  {
    if s != [] && !Before(x, s[0]) {
      KeysInsert(x, s[1..]);
      assert Insert(x, s)[1..] == Insert(x, s[1..]);
    } else {
      assert ([x] + s)[1..] == s;
    }
  }

  lemma {:induction false} KeysSorted(s: seq<Entry>)
    ensures Keys(Sorted(s)) == Keys(s)
  {
    if s != [] {
      KeysSorted(s[1..]);
      KeysInsert(s[0], Sorted(s[1..]));
    }
  }

  // ---------------------------------------------------------------------------
  // Ranks
  // ---------------------------------------------------------------------------

  function Ranked(s: seq<Entry>): (r: seq<Entry>)
    ensures |r| == |s|
  {
    seq(|s|, i requires 0 <= i < |s| => s[i].(rank := i + 1))
  }

  predicate HasRanks(s: seq<Entry>) {
    forall i :: 0 <= i < |s| ==> s[i].rank == i + 1
  }

  lemma {:induction false} SumSame(s: seq<Entry>, t: seq<Entry>)
    requires |s| == |t| && forall i :: 0 <= i < |s| ==> Occurrences(s[i]) == Occurrences(t[i])
    ensures Sum(s) == Sum(t)
  {
    if s != [] {
      SumSame(s[..|s| - 1], t[..|t| - 1]);
    }
  }

  lemma {:induction false} KeysSame(s: seq<Entry>, t: seq<Entry>)
    requires |s| == |t| && forall i :: 0 <= i < |s| ==> s[i].key == t[i].key
    ensures Keys(s) == Keys(t)
  {
    if s != [] {
      KeysSame(s[1..], t[1..]);
    }
  }

  lemma RankKeeps(t: seq<Entry>)
    ensures Sum(Ranked(t)) == Sum(t) && Keys(Ranked(t)) == Keys(t) && HasRanks(Ranked(t))
    ensures Ordered(t) ==> Ordered(Ranked(t))
  {
    SumSame(Ranked(t), t);
    KeysSame(Ranked(t), t);
  }

  /** sort_regression_trigger_entries: in priority order with ranks 1 to n, the same keys, the same sum. */
  lemma SortAndRank(s: seq<Entry>)
    ensures |Ranked(Sorted(s))| == |s| && Ordered(Ranked(Sorted(s))) && HasRanks(Ranked(Sorted(s)))
    ensures Sum(Ranked(Sorted(s))) == Sum(s) && Keys(Ranked(Sorted(s))) == Keys(s)
    ensures Distinct(Ranked(Sorted(s))) <==> Distinct(s)
  {
    SortedOrders(s);
    SumSorted(s);
    KeysSorted(s);
    RankKeeps(Sorted(s));
  }

  /** An ordered queue with its ranks is left as it is. */
  lemma SortAndRankAgain(s: seq<Entry>)
    requires Ordered(s) && HasRanks(s)
    ensures Ranked(Sorted(s)) == s
  {
    SortedIsStable(s);
  }

  // ---------------------------------------------------------------------------
  // Normalising
  // ---------------------------------------------------------------------------

  const PLACEHOLDER: string := "${repo_root}"

  /** smoke(report) is the failing input named in the smoke log beside that report, or empty. */
  function Repaired(e: Entry, smoke: string -> string): Entry {
    if (e.seed == "" || Contains(e.seed, PLACEHOLDER)) && e.report != "" && e.reason == PROMOTE && smoke(e.report) != ""
    then e.(seed := smoke(e.report))
    else e
  }

  /** regression_trigger_priority */
  function Priority(reason: string): int {
    if reason == "fix-build-before-fuzzing" then 100
    else if reason == "high_priority_alert" then 95
    else if reason == "continue_and_prioritize_triage" then 90
    else if reason == PROMOTE then 80
    else 50
  }

  /** The setdefault calls. */
  function Defaulted(e: Entry): Entry {
    e.(priority := Some(Or(e.priority, Priority(e.reason))), count := Some(Or(e.count, 1)),
       firstRun := Some(Or(e.firstRun, e.run)), firstReport := Some(Or(e.firstReport, e.report)),
       lastRun := Some(Or(e.lastRun, e.run)), lastReport := Some(Or(e.lastReport, e.report)))
  }

  /** An entry as the loop brings it to the list. */
  function Prepared(e: Entry, smoke: string -> string): Entry {
    var d := Defaulted(Repaired(e, smoke));
    d.(key := Some(DedupKey(d.reason, d.seed)))
  }

  function Merged(existing: Entry, e: Entry): Entry {
    existing.(count := Some(Or(existing.count, 1) + Or(e.count, 1)),
              lastRun := Some(Or(e.lastRun, e.run)), lastReport := Some(Or(e.lastReport, e.report)),
              seed := if e.seed != "" then e.seed else existing.seed)
  }

  /** The first entry with this key, or the length. */
  function Find(s: seq<Entry>, key: Option<string>, i: nat): (j: nat)
    requires i <= |s|
    ensures i <= j <= |s| && (j < |s| ==> s[j].key == key)
    ensures forall k :: i <= k < j ==> s[k].key != key
    decreases |s| - i
  {
    if i == |s| || s[i].key == key then i else Find(s, key, i + 1)
  }

  function Added(s: seq<Entry>, e: Entry): seq<Entry> {
    var i := Find(s, e.key, 0);
    if i < |s| then s[i := Merged(s[i], e)] else s + [e]
  }

  /** The list after the first entries have gone through the loop. */
  function Folded(entries: seq<Entry>, smoke: string -> string): seq<Entry> {
    if entries == [] then []
    else Added(Folded(entries[..|entries| - 1], smoke), Prepared(entries[|entries| - 1], smoke))
  }

  /** The queue after normalize_regression_triggers. */
  function Normalized(entries: seq<Entry>, smoke: string -> string): seq<Entry> {
    Ranked(Sorted(Folded(entries, smoke)))
  }

  /** The queue after record_regression_trigger. */
  function Recorded(entries: seq<Entry>, run: string, report: string, reason: string, seed: string): seq<Entry> {
    var key := Some(DedupKey(reason, seed));
    var i := Find(entries, key, 0);
    Ranked(Sorted(
      if i < |entries| then
        entries[i := entries[i].(lastRun := Some(run), lastReport := Some(report),
                                 count := Some(Or(entries[i].count, 1) + 1),
                                 seed := if seed != "" then seed else entries[i].seed)]
      else
        entries + [Entry(reason, seed, run, report, Some(Priority(reason)), Some(1), Some(run), Some(report),
                         Some(run), Some(report), key, 0)]))
  }

  class Queue {
    var entries: seq<Entry>

    method FindEntry(key: Option<string>, s: seq<Entry>) returns (i: nat)
      ensures i == Find(s, key, 0)
    {
      i := 0;
      while i < |s| && s[i].key != key
        invariant i <= |s| && Find(s, key, 0) == Find(s, key, i)
      {
        i := i + 1;
      }
    }

    /** sort_regression_trigger_entries */
    method SortEntries()
      modifies this
      ensures entries == Ranked(Sorted(old(entries)))
    {
      entries := Sorted(entries);
      ghost var sorted := entries;
      var index := 0;
      while index < |entries|
        invariant 0 <= index <= |entries| == |sorted|
        invariant forall k :: 0 <= k < index ==> entries[k] == sorted[k].(rank := k + 1)
        invariant forall k :: index <= k < |entries| ==> entries[k] == sorted[k]
      {
        entries := entries[index := entries[index].(rank := index + 1)];
        index := index + 1;
      }
    }

    /** The repairs and defaults at the top of the loop. */
    method Prepare(entry: Entry, smoke: string -> string) returns (e: Entry)
      ensures e == Prepared(entry, smoke)
    {
      e := entry;
      if (e.seed == "" || Contains(e.seed, PLACEHOLDER)) && e.report != "" && e.reason == PROMOTE {
        if smoke(e.report) != "" {
          e := e.(seed := smoke(e.report));
        }
      }
      e := Defaulted(e);
      e := e.(key := Some(DedupKey(e.reason, e.seed)));
    }

    /** normalize_regression_triggers */
    method Normalize(smoke: string -> string)
      modifies this
      ensures entries == Normalized(old(entries), smoke)
    {
      var normalized: seq<Entry> := [];
      var n := 0;
      while n < |entries|
        invariant 0 <= n <= |entries| && entries == old(entries)
        invariant normalized == Folded(entries[..n], smoke)
      {
        var e := Prepare(entries[n], smoke);
        var i := FindEntry(e.key, normalized);
        if i == |normalized| {
          normalized := normalized + [e];
        } else {
          normalized := normalized[i := Merged(normalized[i], e)];
        }
        assert entries[..n + 1][..n] == entries[..n];
        n := n + 1;
      }
      assert entries[..n] == entries;
      entries := normalized;
      SortEntries();
    }

    /** record_regression_trigger */
    method Record(run: string, report: string, reason: string, seed: string)
      modifies this
      ensures entries == Recorded(old(entries), run, report, reason, seed)
    {
      var key := Some(DedupKey(reason, seed));
      var i := FindEntry(key, entries);
      if i < |entries| {
        var existing := entries[i];
        existing := existing.(lastRun := Some(run), lastReport := Some(report),
                              count := Some(Or(existing.count, 1) + 1));
        if seed != "" {
          existing := existing.(seed := seed);
        }
        entries := entries[i := existing];
      } else {
        entries := entries + [Entry(reason, seed, run, report, Some(Priority(reason)), Some(1), Some(run),
                                    Some(report), Some(run), Some(report), key, 0)];
      }
      SortEntries();
    }
  }

  // ---------------------------------------------------------------------------
  // Conservation
  // ---------------------------------------------------------------------------

  lemma AddedSum(s: seq<Entry>, e: Entry)
    ensures Sum(Added(s, e)) == Sum(s) + Occurrences(e)
  {
    var i := Find(s, e.key, 0);
    if i < |s| {
      SumUpdate(s, i, Merged(s[i], e));
    } else {
      SumAppend(s, e);
    }
  }

  /** A key that is not found is not there. */
  lemma NotFound(s: seq<Entry>, key: Option<string>)
    requires Find(s, key, 0) == |s|
    ensures key !in Keys(s)
  {
    if key in Keys(s) {
      var i := KeyWitness(s, key);
    }
  }

  lemma KeysUpdate(s: seq<Entry>, i: nat, e: Entry)
    requires i < |s| && e.key == s[i].key
    ensures Keys(s[i := e]) == Keys(s)
  {
    KeysSame(s[i := e], s);
  }

  lemma AddedDistinct(s: seq<Entry>, e: Entry)
    requires Distinct(s)
    ensures Distinct(Added(s, e))
  {
    var i := Find(s, e.key, 0);
    if i < |s| {
      KeysUpdate(s, i, Merged(s[i], e));
    } else {
      NotFound(s, e.key);
      KeysAppend(s, e);
    }
  }

  lemma PreparedCount(e: Entry, smoke: string -> string) returns (p: Entry)
    ensures p == Prepared(e, smoke) && Occurrences(p) == Occurrences(e)
  {
    p := Prepared(e, smoke);
  }

  lemma {:induction false} FoldedConserves(entries: seq<Entry>, smoke: string -> string)
    ensures Sum(Folded(entries, smoke)) == Sum(entries) && Distinct(Folded(entries, smoke))
  {
    if entries != [] {
      var n := |entries| - 1;
      FoldedConserves(entries[..n], smoke);
      var p := PreparedCount(entries[n], smoke);
      var before := Folded(entries[..n], smoke);
      AddedSum(before, p);
      AddedDistinct(before, p);
    }
  }

  /** Normalising conserves the sum of the occurrence counts, leaves no key twice, and puts the queue in
      priority order with ranks 1 to n. */
  lemma NormalizeConserves(entries: seq<Entry>, smoke: string -> string)
    ensures var r := Normalized(entries, smoke);
      Sum(r) == Sum(entries) && Distinct(r) && Ordered(r) && HasRanks(r) && |r| <= |entries|
  {
    FoldedConserves(entries, smoke);
    SortAndRank(Folded(entries, smoke));
    FoldedShorter(entries, smoke);
  }

  lemma {:induction false} FoldedShorter(entries: seq<Entry>, smoke: string -> string)
    ensures |Folded(entries, smoke)| <= |entries|
  {
    if entries != [] {
      FoldedShorter(entries[..|entries| - 1], smoke);
    }
  }

  /** Recording keeps keys unique, raises the sum by exactly one, and keeps the queue in order. */
  lemma RecordCountsOne(entries: seq<Entry>, run: string, report: string, reason: string, seed: string)
    requires Distinct(entries)
    ensures var r := Recorded(entries, run, report, reason, seed);
      Distinct(r) && Sum(r) == Sum(entries) + 1 && Ordered(r) && HasRanks(r)
  {
    var key := Some(DedupKey(reason, seed));
    var i := Find(entries, key, 0);
    if i < |entries| {
      OneMore(entries, i, entries[i].(lastRun := Some(run), lastReport := Some(report),
                                      count := Some(Or(entries[i].count, 1) + 1),
                                      seed := if seed != "" then seed else entries[i].seed));
    } else {
      OneNew(entries, Entry(reason, seed, run, report, Some(Priority(reason)), Some(1), Some(run), Some(report),
                            Some(run), Some(report), key, 0));
    }
  }

  lemma OneMore(entries: seq<Entry>, i: nat, e: Entry)
    requires Distinct(entries) && i < |entries| && e.key == entries[i].key
    requires Occurrences(e) == Occurrences(entries[i]) + 1
    ensures var r := Ranked(Sorted(entries[i := e]));
      Distinct(r) && Sum(r) == Sum(entries) + 1 && Ordered(r) && HasRanks(r)
  {
    SumUpdate(entries, i, e);
    KeysUpdate(entries, i, e);
    SortAndRank(entries[i := e]);
  }

  lemma OneNew(entries: seq<Entry>, e: Entry)
    requires Distinct(entries) && Find(entries, e.key, 0) == |entries| && Occurrences(e) == 1
    ensures var r := Ranked(Sorted(entries + [e]));
      Distinct(r) && Sum(r) == Sum(entries) + 1 && Ordered(r) && HasRanks(r)
  {
    SumAppend(entries, e);
    NotFound(entries, e.key);
    KeysAppend(entries, e);
    SortAndRank(entries + [e]);
  }

  // ---------------------------------------------------------------------------
  // Idempotence
  // ---------------------------------------------------------------------------

  /** Another pass through the loop would not change the entry. */
  predicate Settled(e: Entry, smoke: string -> string) {
    Prepared(e, smoke) == e
  }

  predicate AllSettled(s: seq<Entry>, smoke: string -> string) {
    forall i :: 0 <= i < |s| ==> Settled(s[i], smoke)
  }

  lemma NewKey(s: seq<Entry>, e: Entry)
    requires e.key !in Keys(s)
    ensures Added(s, e) == s + [e]
  {
    var i := Find(s, e.key, 0);
    if i < |s| {
      KeyCount(s, i);
    }
  }

  lemma DistinctStep(s: seq<Entry>, n: nat)
    requires Distinct(s) && n + 1 == |s|
    ensures s == s[..n] + [s[n]] && Distinct(s[..n]) && s[n].key !in Keys(s[..n])
  {
    assert s == s[..n] + [s[n]];
    var a, key := Keys(s[..n]), s[n].key;
    KeysAppend(s[..n], s[n]);
    assert Keys(s)[key] == a[key] + 1;
    assert key in Keys(s);
    forall k | k in a
      ensures a[k] == 1
    {
      assert Keys(s)[k] == a[k] + if k == key then 1 else 0;
      assert k in Keys(s);
    }
  }

  lemma SettledStep(s: seq<Entry>, n: nat, smoke: string -> string)
    requires AllSettled(s, smoke) && n + 1 == |s|
    ensures AllSettled(s[..n], smoke) && Folded(s, smoke) == Added(Folded(s[..n], smoke), s[n])
  {
    assert Settled(s[n], smoke);
  }

  /** Settled entries with distinct keys go through the loop unchanged. */
  lemma {:induction false} FoldedAgain(s: seq<Entry>, smoke: string -> string)
    requires AllSettled(s, smoke) && Distinct(s)
    ensures Folded(s, smoke) == s
  {
    if s != [] {
      var n := |s| - 1;
      SettledStep(s, n, smoke);
      DistinctStep(s, n);
      FoldedAgain(s[..n], smoke);
      NewKey(s[..n], s[n]);
    }
  }

  lemma RankedSettled(s: seq<Entry>, smoke: string -> string)
    requires AllSettled(s, smoke)
    ensures AllSettled(Ranked(s), smoke)
  {
    forall i | 0 <= i < |s|
      ensures Settled(Ranked(s)[i], smoke)
    {
      assert Settled(s[i], smoke);
    }
  }

  lemma SortedSettled(s: seq<Entry>, smoke: string -> string)
    requires AllSettled(s, smoke)
    ensures AllSettled(Sorted(s), smoke)
  {
    SortedIsPermutation(s);
    forall i | 0 <= i < |Sorted(s)|
      ensures Settled(Sorted(s)[i], smoke)
    {
      assert Sorted(s)[i] in multiset(s);
    }
  }

  /** The entries as they come to the list. */
  function AllPrepared(entries: seq<Entry>, smoke: string -> string): (ps: seq<Entry>)
    ensures |ps| == |entries|
  {
    seq(|entries|, i requires 0 <= i < |entries| => Prepared(entries[i], smoke))
  }

  /** The list after prepared entries have come in. */
  function Fold(ps: seq<Entry>): seq<Entry> {
    if ps == [] then [] else Added(Fold(ps[..|ps| - 1]), ps[|ps| - 1])
  }

  lemma {:induction false} FoldedIsFold(entries: seq<Entry>, smoke: string -> string)
    ensures Folded(entries, smoke) == Fold(AllPrepared(entries, smoke))
  {
    if entries != [] {
      var n := |entries| - 1;
      FoldedIsFold(entries[..n], smoke);
      assert AllPrepared(entries, smoke)[..n] == AllPrepared(entries[..n], smoke);
    }
  }

  /** No earlier entry has the key of entry i. */
  predicate First(ps: seq<Entry>, i: nat) {
    i < |ps| && forall k :: 0 <= k < i ==> ps[k].key != ps[i].key
  }

  /** The last seed that comes in with this key. */
  function Latest(ps: seq<Entry>, key: Option<string>): string {
    if ps == [] then ""
    else
      var n := |ps| - 1;
      if ps[n].key == key && ps[n].seed != "" then ps[n].seed else Latest(ps[..n], key)
  }

  lemma {:induction false} LatestFrom(ps: seq<Entry>, key: Option<string>) returns (j: nat)
    requires Latest(ps, key) != ""
    ensures j < |ps| && ps[j].key == key && ps[j].seed == Latest(ps, key)
  {
    var n := |ps| - 1;
    if ps[n].key == key && ps[n].seed != "" {
      j := n;
    } else {
      j := LatestFrom(ps[..n], key);
    }
  }

  lemma {:induction false} LatestReached(ps: seq<Entry>, i: nat)
    requires i < |ps| && ps[i].seed != ""
    ensures Latest(ps, ps[i].key) != ""
  {
    var n := |ps| - 1;
    if i < n {
      LatestReached(ps[..n], i);
    }
  }

  /** Every key that comes in is in the list. */
  lemma {:induction false} KeyPresent(ps: seq<Entry>, i: nat) returns (m: nat)
    requires i < |ps|
    ensures m < |Fold(ps)| && Fold(ps)[m].key == ps[i].key
  {
    var n := |ps| - 1;
    if i == n {
      m := Find(Fold(ps[..n]), ps[n].key, 0);
    } else {
      m := KeyPresent(ps[..n], i);
    }
  }

  /** x is p with counts and last sightings brought up to date, and this seed. */
  predicate GrownFrom(x: Entry, p: Entry, seed: string) {
    && x.key == p.key && x.reason == p.reason && x.run == p.run && x.report == p.report && x.priority == p.priority
    && x.firstRun == p.firstRun && x.firstReport == p.firstReport && x.seed == seed && Complete(x)
  }

  predicate Complete(x: Entry) {
    x.count.Some? && x.lastRun.Some? && x.lastReport.Some?
  }

  /** What one more entry does to the ones in the list. */
  lemma AddedAt(before: seq<Entry>, p: Entry, m: nat)
    requires Distinct(before) && m < |before|
    ensures m < |Added(before, p)|
    ensures Added(before, p)[m] == if before[m].key == p.key then Merged(before[m], p) else before[m]
  {
    DistinctMeans(before);
  }

  lemma {:induction false} FoldDistinct(ps: seq<Entry>)
    ensures Distinct(Fold(ps))
  {
    if ps != [] {
      FoldDistinct(ps[..|ps| - 1]);
      AddedDistinct(Fold(ps[..|ps| - 1]), ps[|ps| - 1]);
    }
  }

  /** The last entry, if it came in with a new key. */
  lemma NewOrigin(ps: seq<Entry>, n: nat)
    requires n + 1 == |ps| && Complete(ps[n]) && forall x :: x in Fold(ps[..n]) ==> x.key != ps[n].key
    ensures First(ps, n) && GrownFrom(ps[n], ps[n], Latest(ps, ps[n].key))
  {
    forall k: nat | k < n
      ensures ps[k].key != ps[n].key
    {
      var l := KeyPresent(ps[..n], k);
    }
    if Latest(ps[..n], ps[n].key) != "" {
      var j := LatestFrom(ps[..n], ps[n].key);
    }
  }

  /** An entry of the list is the first one that came in with its key, with the latest seed. */
  lemma {:induction false} Origin(ps: seq<Entry>, m: nat) returns (i: nat)
    requires m < |Fold(ps)| && forall k :: 0 <= k < |ps| ==> Complete(ps[k])
    ensures First(ps, i) && GrownFrom(Fold(ps)[m], ps[i], Latest(ps, ps[i].key))
  {
    var n := |ps| - 1;
    var before := Fold(ps[..n]);
    if m < |before| {
      i := Origin(ps[..n], m);
      FoldDistinct(ps[..n]);
      AddedAt(before, ps[n], m);
    } else {
      i := n;
      NewOrigin(ps, n);
    }
  }

  /** A promoted seed is kept: the latest seed that comes in with its key is the one in the key. */
  predicate KeepsSeed(ps: seq<Entry>, i: nat)
    requires i < |ps|
  {
    First(ps, i) && ps[i].reason == PROMOTE && ps[i].seed != "" ==> Latest(ps, ps[i].key) == ps[i].seed
  }

  lemma PromotedKeys(s: string, t: string)
    requires s != ""
    ensures DedupKey(PROMOTE, s) != PROMOTE && (t != "" && DedupKey(PROMOTE, s) == DedupKey(PROMOTE, t) ==> s == t)
  {
    var p := PROMOTE + ":";
    assert |p + s| > |PROMOTE|;
    assert (p + s)[|p|..] == s && (p + t)[|p|..] == t;
  }

  lemma GrownSettled(x: Entry, p: Entry, e: Entry, smoke: string -> string)
    requires p == Prepared(e, smoke) && GrownFrom(x, p, x.seed)
    requires (p.reason == PROMOTE && p.seed == "" ==> x.seed == "")
    ensures Settled(x, smoke) <==> (p.reason == PROMOTE && p.seed != "" ==> x.seed == p.seed)
  {
    if p.reason == PROMOTE && p.seed != "" {
      PromotedKeys(p.seed, Repaired(x, smoke).seed);
    }
  }

  /** Without a seed in the key, none comes in. */
  lemma NoSeedForKey(entries: seq<Entry>, smoke: string -> string)
    ensures Latest(AllPrepared(entries, smoke), Some(PROMOTE)) == ""
  {
    var ps := AllPrepared(entries, smoke);
    if Latest(ps, Some(PROMOTE)) != "" {
      var j := LatestFrom(ps, Some(PROMOTE));
      PromotedKeys(ps[j].seed, "");
      assert false;
    }
  }

  lemma OriginSettled(entries: seq<Entry>, smoke: string -> string, m: nat) returns (i: nat)
    requires m < |Folded(entries, smoke)|
    ensures First(AllPrepared(entries, smoke), i) && AllPrepared(entries, smoke)[i].key == Folded(entries, smoke)[m].key
    ensures Settled(Folded(entries, smoke)[m], smoke) <==> KeepsSeed(AllPrepared(entries, smoke), i)
  {
    var ps := AllPrepared(entries, smoke);
    FoldedIsFold(entries, smoke);
    i := Origin(ps, m);
    NoSeedForKey(entries, smoke);
    GrownSettled(Fold(ps)[m], ps[i], entries[i], smoke);
  }

  lemma FoldedSettled(entries: seq<Entry>, smoke: string -> string)
    ensures AllSettled(Folded(entries, smoke), smoke) <==>
      forall i: nat :: i < |entries| ==> KeepsSeed(AllPrepared(entries, smoke), i)
  {
    var ps := AllPrepared(entries, smoke);
    FoldedIsFold(entries, smoke);
    if AllSettled(Folded(entries, smoke), smoke) {
      forall i: nat | i < |ps|
        ensures KeepsSeed(ps, i)
      {
        var m := KeyPresent(ps, i);
        var k := OriginSettled(entries, smoke, m);
        assert First(ps, i) ==> k == i;
      }
    } else {
      var m: nat :| m < |Folded(entries, smoke)| && !Settled(Folded(entries, smoke)[m], smoke);
      var i := OriginSettled(entries, smoke, m);
    }
  }

  lemma AddedAppends(s: seq<Entry>, e: Entry)
    ensures |Added(s, e)| <= |s| + 1 && (|Added(s, e)| == |s| + 1 ==> Added(s, e) == s + [e])
  {
  }

  lemma {:induction false} FoldShorter(ps: seq<Entry>)
    ensures |Fold(ps)| <= |ps|
  {
    if ps != [] {
      FoldShorter(ps[..|ps| - 1]);
    }
  }

  /** A pass that merges nothing keeps the entries as they come. */
  lemma {:induction false} NothingMerged(ps: seq<Entry>)
    requires |Fold(ps)| == |ps|
    ensures Fold(ps) == ps
  {
    if ps != [] {
      var n := |ps| - 1;
      FoldShorter(ps[..n]);
      AddedAppends(Fold(ps[..n]), ps[n]);
      NothingMerged(ps[..n]);
    }
  }

  /** Sorting looks at nothing that a pass changes in an entry that went through one before. */
  predicate HasDefaults(s: seq<Entry>) {
    forall i :: 0 <= i < |s| ==> s[i].priority.Some? && s[i].firstRun.Some?
  }

  lemma {:induction false} FoldHasDefaults(ps: seq<Entry>)
    requires HasDefaults(ps)
    ensures HasDefaults(Fold(ps))
  {
    if ps != [] {
      FoldHasDefaults(ps[..|ps| - 1]);
    }
  }

  lemma SortedHasDefaults(f: seq<Entry>)
    requires HasDefaults(f)
    ensures HasDefaults(Ranked(Sorted(f)))
  {
    SortedIsPermutation(f);
    var t := Sorted(f);
    forall k | 0 <= k < |t|
      ensures t[k].priority.Some? && t[k].firstRun.Some?
    {
      assert t[k] in multiset(f);
    }
  }

  lemma NormalizedHasDefaults(entries: seq<Entry>, smoke: string -> string)
    ensures HasDefaults(Normalized(entries, smoke))
  {
    FoldedIsFold(entries, smoke);
    FoldHasDefaults(AllPrepared(entries, smoke));
    SortedHasDefaults(Folded(entries, smoke));
  }

  lemma PreparedOrdered(r: seq<Entry>, smoke: string -> string)
    requires Ordered(r) && HasDefaults(r)
    ensures Ordered(AllPrepared(r, smoke))
  {
    var ps := AllPrepared(r, smoke);
    assert forall k :: 0 <= k < |r| ==> ps[k].priority == r[k].priority && ps[k].firstRun == r[k].firstRun;
  }

  lemma RanksSettle(r: seq<Entry>, ps: seq<Entry>, smoke: string -> string)
    requires HasRanks(r) && ps == AllPrepared(r, smoke) && Ranked(ps) == r
    ensures AllSettled(r, smoke)
  {
    forall i | 0 <= i < |r|
      ensures Settled(r[i], smoke)
    {
      assert Ranked(ps)[i] == r[i] && ps[i].rank == r[i].rank;
    }
  }

  /** A queue that a further pass leaves alone consists of settled entries. */
  lemma FixedIsSettled(r: seq<Entry>, smoke: string -> string)
    requires Ordered(r) && HasRanks(r) && HasDefaults(r) && Normalized(r, smoke) == r
    ensures AllSettled(r, smoke)
  {
    var ps := AllPrepared(r, smoke);
    FoldedIsFold(r, smoke);
    NothingMerged(ps);
    PreparedOrdered(r, smoke);
    SortedIsStable(ps);
    RanksSettle(r, ps, smoke);
  }

  /** Sorting and ranking keep settled entries settled, and others not. */
  lemma RankedSettledExactly(f: seq<Entry>, smoke: string -> string)
    ensures AllSettled(Ranked(Sorted(f)), smoke) <==> AllSettled(f, smoke)
  {
    var t := Sorted(f);
    SortedIsPermutation(f);
    if AllSettled(f, smoke) {
      SortedSettled(f, smoke);
      RankedSettled(t, smoke);
    } else {
      var m: nat :| m < |f| && !Settled(f[m], smoke);
      assert f[m] in multiset(t);
      var k: nat :| k < |t| && t[k] == f[m];
      assert !Settled(Ranked(t)[k], smoke);
    }
  }

  /** Normalising twice is normalising once exactly when every promoted seed is kept: whatever comes in
      later under the key of a seed brings that seed, or none. */
  lemma NormalizeIdempotent(entries: seq<Entry>, smoke: string -> string)
    ensures Normalized(Normalized(entries, smoke), smoke) == Normalized(entries, smoke) <==>
      forall i: nat :: i < |entries| ==> KeepsSeed(AllPrepared(entries, smoke), i)
  {
    var r := Normalized(entries, smoke);
    NormalizeConserves(entries, smoke);
    NormalizedHasDefaults(entries, smoke);
    FoldedSettled(entries, smoke);
    RankedSettledExactly(Folded(entries, smoke), smoke);
    if AllSettled(r, smoke) {
      FoldedAgain(r, smoke);
      SortAndRankAgain(r);
    }
    if Normalized(r, smoke) == r {
      FixedIsSettled(r, smoke);
    }
  }

  /** A reason that cannot be mistaken for the key of a promoted seed. */
  predicate Ordinary(reason: string) {
    !(PROMOTE + ":" <= reason)
  }

  /** So it is when no reason reads like the key of a promoted seed. */
  lemma OrdinaryIdempotent(entries: seq<Entry>, smoke: string -> string)
    requires forall i :: 0 <= i < |entries| ==> Ordinary(entries[i].reason)
    ensures Normalized(Normalized(entries, smoke), smoke) == Normalized(entries, smoke)
  {
    var ps := AllPrepared(entries, smoke);
    forall i: nat | i < |ps|
      ensures KeepsSeed(ps, i)
    {
      if ps[i].reason == PROMOTE && ps[i].seed != "" {
        LatestReached(ps, i);
        var j := LatestFrom(ps, ps[i].key);
        SameSeed(ps[i].seed, ps[j].reason, ps[j].seed);
      }
    }
    NormalizeIdempotent(entries, smoke);
  }

  lemma SameSeed(s: string, r: string, t: string)
    requires s != "" && t != "" && Ordinary(r) && DedupKey(PROMOTE, s) == DedupKey(r, t)
    ensures s == t
  {
    assert PROMOTE + ":" <= DedupKey(PROMOTE, s);
    PromotedKeys(s, t);
  }

  // ---------------------------------------------------------------------------
  // A reason that can be mistaken for a key
  // ---------------------------------------------------------------------------

  function Plain(reason: string, seed: string): Entry {
    Entry(reason, seed, "r", "", Some(0), Some(1), Some("r"), Some(""), Some("r"), Some(""),
          Some(DedupKey(reason, seed)), 1)
  }

  /** One entry: folding prepares it, sorting and ranking leave it first. */
  lemma NormalizedOne(e: Entry, smoke: string -> string)
    ensures Normalized([e], smoke) == [Prepared(e, smoke).(rank := 1)]
  {
    var p := Prepared(e, smoke);
    assert [e][..0] == [];
    assert Folded([e], smoke) == [p];
    assert Sorted([p]) == [p];
  }

  lemma NormalizedTwo(a: Entry, b: Entry, smoke: string -> string)
    requires Prepared(a, smoke) == a && Prepared(b, smoke) == b && a.key == b.key
    ensures Normalized([a, b], smoke) == [Merged(a, b).(rank := 1)]
  {
    assert [a, b][..1] == [a] && [a][..0] == [];
    assert Folded([a], smoke) == [a];
    assert Find([a], b.key, 0) == 0;
    assert Folded([a, b], smoke) == [Merged(a, b)];
    assert Sorted([Merged(a, b)]) == [Merged(a, b)];
  }

  /** A promoted seed x and an entry whose reason reads like its key, with another seed: the second
      overwrites the seed of the first, and normalising again gives the merged entry a new key. */
  lemma CollidingReason()
    ensures var smoke := (_: string) => ""; var q := [Plain(PROMOTE, "x"), Plain(PROMOTE + ":" + "x", "y")];
      Normalized(Normalized(q, smoke), smoke) != Normalized(q, smoke)
  {
    var smoke := (_: string) => "";
    var a, b := Plain(PROMOTE, "x"), Plain(PROMOTE + ":" + "x", "y");
    LongerReason("x");
    NormalizedTwo(a, b, smoke);
    var m := Merged(a, b).(rank := 1);
    NormalizedOne(m, smoke);
    PromotedKeys("x", "y");
    assert Prepared(m, smoke).key == Some(DedupKey(PROMOTE, "y"));
    assert m.key == Some(DedupKey(PROMOTE, "x"));
  }

  lemma LongerReason(x: string)
    requires x != ""
    ensures PROMOTE + ":" + x != PROMOTE && DedupKey(PROMOTE + ":" + x, "y") == DedupKey(PROMOTE, x)
  {
    assert |PROMOTE + ":" + x| > |PROMOTE|;
  }
}
