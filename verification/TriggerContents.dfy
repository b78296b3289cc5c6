/** What the queue of regression triggers holds, entry by entry (scripts/hermes_watch.py,
    `normalize_regression_triggers` and `record_regression_trigger`), said of the entries that came in. */
module TriggerContents {
  import opened Options
  import opened RegressionTriggers
  import opened Substrings

  // ---------------------------------------------------------------------------
  // The order
  // ---------------------------------------------------------------------------

  /** a is less than b at the first place where they differ. */
  predicate LessAt(a: string, b: string, k: nat) {
    k < |a| && k < |b| && a[..k] == b[..k] && a[k] < b[k]
  }

  lemma LessAtNext(a: string, b: string, k: nat)
    requires a != "" && b != "" && a[0] == b[0]
    ensures LessAt(a, b, k + 1) <==> LessAt(a[1..], b[1..], k)
  {
    if k + 1 < |a| && k + 1 < |b| {
      assert a[..k + 1] == [a[0]] + a[1..][..k] && b[..k + 1] == [b[0]] + b[1..][..k];
    }
  }

  lemma PrefixNext(a: string, b: string)
    requires a != "" && b != "" && a[0] == b[0]
    ensures a <= b <==> a[1..] <= b[1..]
  {
    assert a == [a[0]] + a[1..] && b == [b[0]] + b[1..];
  }

  /** The order on strings is lexicographic. */
  lemma {:induction false} StringLeIs(a: string, b: string)
    ensures StringLe(a, b) <==> a <= b || exists k: nat :: LessAt(a, b, k)
  {
    if a != "" && b != "" && a[0] == b[0] {
      StringLeIs(a[1..], b[1..]);
      PrefixNext(a, b);
      if k: nat :| LessAt(a[1..], b[1..], k) {
        LessAtNext(a, b, k);
      }
      if k: nat :| LessAt(a, b, k) {
        LessAtNext(a, b, k - 1);
      }
    } else if a != "" && b != "" && a[0] < b[0] {
      assert LessAt(a, b, 0);
    }
  }

  /** Of two entries the first has the higher priority, or the same and not the later first run; the
      ranks count from 1. */
  lemma QueueOrder(s: seq<Entry>, i: nat, j: nat)
    requires i < j < |s|
    ensures var a, b := Ranked(Sorted(s))[i], Ranked(Sorted(s))[j];
      && a.rank == i + 1 && b.rank == j + 1 && Or(a.priority, 0) >= Or(b.priority, 0)
      && (Or(a.priority, 0) == Or(b.priority, 0) ==> StringLe(Or(a.firstRun, a.run), Or(b.firstRun, b.run)))
  {
    SortedOrders(s);
    assert Before(Sorted(s)[i], Sorted(s)[j]);
  }

  /** The entries with this sort key, in order. */
  function WithKey(s: seq<Entry>, priority: int, firstRun: string): seq<Entry> {
    if s == [] then []
    else
      (if Or(s[0].priority, 0) == priority && Or(s[0].firstRun, s[0].run) == firstRun then [s[0]] else []) +
      WithKey(s[1..], priority, firstRun)
  }

  lemma {:induction false} StringLeReflexive(a: string)
    ensures StringLe(a, a)
  {
    if a != "" {
      StringLeReflexive(a[1..]);
    }
  }

  lemma {:induction false} InsertKeepsTies(x: Entry, s: seq<Entry>, priority: int, firstRun: string)
    ensures WithKey(Insert(x, s), priority, firstRun) == WithKey([x] + s, priority, firstRun)
  {
    assert ([x] + s)[1..] == s;
    if s != [] && !Before(x, s[0]) {
      InsertKeepsTies(x, s[1..], priority, firstRun);
      StringLeReflexive(firstRun);
      assert ([s[0]] + Insert(x, s[1..]))[1..] == Insert(x, s[1..]);
      assert ([x] + s[1..])[1..] == s[1..];
    }
  }

  /** Sorting is stable: entries with one sort key stay in the order they were in. */
  lemma {:induction false} SortIsStable(s: seq<Entry>, priority: int, firstRun: string)
    ensures WithKey(Sorted(s), priority, firstRun) == WithKey(s, priority, firstRun)
  {
    if s != [] {
      SortIsStable(s[1..], priority, firstRun);
      InsertKeepsTies(s[0], Sorted(s[1..]), priority, firstRun);
      assert ([s[0]] + Sorted(s[1..]))[1..] == Sorted(s[1..]);
    }
  }

  /** Which reasons go first: a broken build, an alert, a triage, a promotion, anything else. */
  lemma PriorityOrder(reason: string)
    ensures Priority("fix-build-before-fuzzing") == 100 && Priority("high_priority_alert") == 95
    ensures Priority("continue_and_prioritize_triage") == 90 && Priority(PROMOTE) == 80
    ensures reason in {"fix-build-before-fuzzing", "high_priority_alert", "continue_and_prioritize_triage", PROMOTE} ||
            Priority(reason) == 50
  {
    assert |"fix-build-before-fuzzing"| == 24 && |"high_priority_alert"| == 19;
    assert |"continue_and_prioritize_triage"| == 30 && |PROMOTE| == 37;
  }

  // ---------------------------------------------------------------------------
  // The entry of a key
  // ---------------------------------------------------------------------------

  /** The seed of an entry: a promotion without one, or with one that names no place, takes it from the
      smoke log beside its report. */
  function Seed(e: Entry, smoke: string -> string): string {
    if e.reason != PROMOTE || e.report == "" || smoke(e.report) == "" then e.seed
    else if e.seed == "" || Contains(e.seed, PLACEHOLDER) then smoke(e.report)
    else e.seed
  }

  /** What an entry is merged by: the reason, and the seed of a promotion. */
  function Key(reason: string, seed: string): Option<string> {
    Some(if reason == PROMOTE && seed != "" then PROMOTE + ":" + seed else reason)
  }

  /** Two entries with ordinary reasons are merged exactly when they have one reason and, as promotions,
      one seed. */
  lemma KeysEqual(reason: string, seed: string, other: string, otherSeed: string)
    requires Ordinary(reason) && Ordinary(other)
    ensures Key(reason, seed) == Key(other, otherSeed) <==>
      reason == other && (reason == PROMOTE ==> seed == otherSeed)
    ensures Key(reason, seed) == Some(DedupKey(reason, seed))
  {
    if seed != "" {
      PromotedKeys(seed, otherSeed);
      assert PROMOTE + ":" <= PROMOTE + ":" + seed;
    }
    if otherSeed != "" {
      PromotedKeys(otherSeed, seed);
      assert PROMOTE + ":" <= PROMOTE + ":" + otherSeed;
    }
  }

  /** The occurrences of the entries with this key. */
  function Total(ps: seq<Entry>, key: Option<string>): int {
    if ps == [] then 0
    else
      var n := |ps| - 1;
      Total(ps[..n], key) + if ps[n].key == key then Or(ps[n].count, 1) else 0
  }

  lemma {:induction false} TotalNone(ps: seq<Entry>, key: Option<string>)
    requires forall k :: 0 <= k < |ps| ==> ps[k].key != key
    ensures Total(ps, key) == 0
  {
    if ps != [] {
      TotalNone(ps[..|ps| - 1], key);
    }
  }

  /** Entry j is the last one with this key. */
  predicate LastWith(ps: seq<Entry>, j: nat, key: Option<string>) {
    j < |ps| && ps[j].key == key && forall k :: j < k < |ps| ==> ps[k].key != key
  }

  /** The counts add up, and the last sighting is that of the last entry. */
  lemma {:induction false} Counted(ps: seq<Entry>, m: nat) returns (j: nat)
    requires m < |Fold(ps)| && forall k :: 0 <= k < |ps| ==> Complete(ps[k])
    ensures var x := Fold(ps)[m];
      && x.count == Some(Total(ps, x.key)) && LastWith(ps, j, x.key)
      && x.lastRun == ps[j].lastRun && x.lastReport == ps[j].lastReport
  {
    var n := |ps| - 1;
    var before := Fold(ps[..n]);
    if m < |before| {
      j := Counted(ps[..n], m);
      FoldDistinct(ps[..n]);
      AddedAt(before, ps[n], m);
      if before[m].key == ps[n].key {
        j := n;
      }
    } else {
      j := n;
      forall k: nat | k < n
        ensures ps[k].key != ps[n].key
      {
        var l := KeyPresent(ps[..n], k);
      }
      TotalNone(ps[..n], ps[n].key);
    }
  }

  /** An entry is prepared with its seed and key, the priority of its reason and its own run and report
      where it does not say. */
  lemma PreparedIs(e: Entry, smoke: string -> string) returns (p: Entry)
    ensures p == Prepared(e, smoke) && Complete(p)
    ensures p.seed == Seed(e, smoke) && p.key == Key(e.reason, Seed(e, smoke))
    ensures p.reason == e.reason && p.run == e.run && p.report == e.report && Or(p.count, 1) == Or(e.count, 1)
    ensures p.priority == Some(Or(e.priority, Priority(e.reason)))
    ensures p.firstRun == Some(Or(e.firstRun, e.run)) && p.firstReport == Some(Or(e.firstReport, e.report))
    ensures p.lastRun == Some(Or(e.lastRun, e.run)) && p.lastReport == Some(Or(e.lastReport, e.report))
  {
    p := Prepared(e, smoke);
  }

  /** A sorted and ranked entry is one of the entries with its rank. */
  lemma RankedFrom(s: seq<Entry>, m: nat) returns (k: nat)
    requires m < |s|
    ensures k < |s| && Ranked(Sorted(s))[m] == s[k].(rank := m + 1)
  {
    SortedIsPermutation(s);
    assert Sorted(s)[m] in multiset(Sorted(s));
    k :| 0 <= k < |s| && s[k] == Sorted(s)[m];
  }

  lemma RankedTo(s: seq<Entry>, k: nat) returns (m: nat)
    requires k < |s|
    ensures m < |s| && Ranked(Sorted(s))[m] == s[k].(rank := m + 1)
  {
    SortedIsPermutation(s);
    assert s[k] in multiset(s);
    m :| 0 <= m < |Sorted(s)| && Sorted(s)[m] == s[k];
  }

  /** Each entry of the normalised queue stands for the incoming entries with its key: it is the first of
      them, with the seed that came last, all their occurrences, and the last sighting of the last. */
  lemma NormalizedHolds(entries: seq<Entry>, smoke: string -> string, m: nat) returns (i: nat, j: nat)
    requires m < |Normalized(entries, smoke)|
    ensures i <= j < |entries|
    ensures var x, e := Normalized(entries, smoke)[m], entries[i];
      && x.reason == e.reason && x.run == e.run && x.report == e.report
      && x.priority == Some(Or(e.priority, Priority(e.reason)))
      && x.firstRun == Some(Or(e.firstRun, e.run)) && x.firstReport == Some(Or(e.firstReport, e.report))
      && x.key == Key(e.reason, Seed(e, smoke))
      && forall k: nat :: k < i ==> x.key != Key(entries[k].reason, Seed(entries[k], smoke))
    ensures var x, l := Normalized(entries, smoke)[m], entries[j];
      && x.lastRun == Some(Or(l.lastRun, l.run)) && x.lastReport == Some(Or(l.lastReport, l.report))
      && x.key == Key(l.reason, Seed(l, smoke))
      && forall k: nat :: j < k < |entries| ==> x.key != Key(entries[k].reason, Seed(entries[k], smoke))
    ensures var x := Normalized(entries, smoke)[m];
      && x.count == Some(TotalOf(entries, smoke, x.key)) && x.seed == LatestSeed(entries, smoke, x.key)
  {
    var ps := AllPrepared(entries, smoke);
    FoldedIsFold(entries, smoke);
    var n := RankedFrom(Fold(ps), m);
    forall k | 0 <= k < |ps|
      ensures Complete(ps[k]) && ps[k].key == Key(entries[k].reason, Seed(entries[k], smoke))
    {
      var p := PreparedIs(entries[k], smoke);
    }
    i := Origin(ps, n);
    j := Counted(ps, n);
    var p := PreparedIs(entries[i], smoke);
    var l := PreparedIs(entries[j], smoke);
    SameSums(entries, smoke, ps[i].key);
  }

  /** The occurrences of the incoming entries with this key. */
  function TotalOf(entries: seq<Entry>, smoke: string -> string, key: Option<string>): int {
    if entries == [] then 0
    else
      var n := |entries| - 1;
      var e := entries[n];
      TotalOf(entries[..n], smoke, key) + if Key(e.reason, Seed(e, smoke)) == key then Or(e.count, 1) else 0
  }

  /** The seed of the last incoming entry with this key that has one. */
  function LatestSeed(entries: seq<Entry>, smoke: string -> string, key: Option<string>): string {
    if entries == [] then ""
    else
      var n := |entries| - 1;
      var e := entries[n];
      if Key(e.reason, Seed(e, smoke)) == key && Seed(e, smoke) != "" then Seed(e, smoke)
      else LatestSeed(entries[..n], smoke, key)
  }

  lemma {:induction false} SameSums(entries: seq<Entry>, smoke: string -> string, key: Option<string>)
    ensures Total(AllPrepared(entries, smoke), key) == TotalOf(entries, smoke, key)
    ensures Latest(AllPrepared(entries, smoke), key) == LatestSeed(entries, smoke, key)
  {
    if entries != [] {
      var n := |entries| - 1;
      SameSums(entries[..n], smoke, key);
      assert AllPrepared(entries, smoke)[..n] == AllPrepared(entries[..n], smoke);
      var p := PreparedIs(entries[n], smoke);
    }
  }

  /** No incoming entry is lost: its key is in the normalised queue. */
  lemma NoneLost(entries: seq<Entry>, smoke: string -> string, i: nat) returns (m: nat)
    requires i < |entries|
    ensures m < |Normalized(entries, smoke)|
    ensures Normalized(entries, smoke)[m].key == Key(entries[i].reason, Seed(entries[i], smoke))
  {
    var p := PreparedIs(entries[i], smoke);
    FoldedIsFold(entries, smoke);
    var k := KeyPresent(AllPrepared(entries, smoke), i);
    m := RankedTo(Folded(entries, smoke), k);
  }

  // ---------------------------------------------------------------------------
  // Recording
  // ---------------------------------------------------------------------------

  /** The entry that a recorded trigger leaves: the one with its key, seen once more, or a new one. */
  function Updated(e: Entry, run: string, report: string, seed: string): Entry {
    e.(lastRun := Some(run), lastReport := Some(report), count := Some(Or(e.count, 1) + 1),
       seed := if seed != "" then seed else e.seed)
  }

  /** A new entry, first and last seen in this run. */
  function New(run: string, report: string, reason: string, seed: string): Entry {
    Entry(reason, seed, run, report, Some(Priority(reason)), Some(1), Some(run), Some(report), Some(run),
          Some(report), Key(reason, seed), 0)
  }

  /** Entry i is the first one with this key; without one, i is their number. */
  predicate FirstWith(entries: seq<Entry>, i: nat, key: Option<string>) {
    && i <= |entries| && (i < |entries| ==> entries[i].key == key)
    && forall k :: 0 <= k < i ==> entries[k].key != key
  }

  lemma RecordedFrom(entries: seq<Entry>, run: string, report: string, reason: string, seed: string)
    returns (i: nat, s: seq<Entry>)
    ensures FirstWith(entries, i, Key(reason, seed))
    ensures Recorded(entries, run, report, reason, seed) == Ranked(Sorted(s))
    ensures s == if i < |entries| then entries[i := Updated(entries[i], run, report, seed)]
                 else entries + [New(run, report, reason, seed)]
  {
    i := Find(entries, Key(reason, seed), 0);
    s := if i < |entries| then entries[i := Updated(entries[i], run, report, seed)]
         else entries + [New(run, report, reason, seed)];
  }

  /** Recording touches the first entry with the trigger's key and no other. Without such an entry it adds
      one, with the priority of its reason. The queue is then sorted and ranked. */
  lemma RecordedHolds(entries: seq<Entry>, run: string, report: string, reason: string, seed: string, m: nat)
    returns (k: nat)
    requires m < |Recorded(entries, run, report, reason, seed)|
    ensures k <= |entries|
    ensures var x := Recorded(entries, run, report, reason, seed)[m];
      if !FirstWith(entries, k, Key(reason, seed)) then k < |entries| && x == entries[k].(rank := m + 1)
      else if k < |entries| then x == Updated(entries[k], run, report, seed).(rank := m + 1)
      else x == New(run, report, reason, seed).(rank := m + 1)
  {
    var i, s := RecordedFrom(entries, run, report, reason, seed);
    k := RankedFrom(s, m);
  }

  /** The trigger is in the queue afterwards, last seen in this run. */
  lemma RecordedThere(entries: seq<Entry>, run: string, report: string, reason: string, seed: string)
    returns (m: nat)
    ensures m < |Recorded(entries, run, report, reason, seed)|
    ensures var x := Recorded(entries, run, report, reason, seed)[m];
      x.key == Key(reason, seed) && x.lastRun == Some(run) && x.lastReport == Some(report)
  {
    var i, s := RecordedFrom(entries, run, report, reason, seed);
    m := RankedTo(s, i);
  }
}
