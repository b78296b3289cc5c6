/** The index of crash fingerprints (scripts/hermes_watch.py, `update_crash_index`), against the plain
    log of its calls.

    The file is a map; an empty artifact path counts as none. */
module CrashIndex {
  import opened Options

  datatype Call = Call(fingerprint: string, run: string, report: string, artifact: Option<string>)

  datatype Record = Record(
    firstRun: string, firstReport: string, lastRun: string, lastReport: string, count: nat, artifacts: seq<string>)

  datatype Answer = Answer(
    isDuplicate: bool, count: nat, firstRun: string, lastRun: string, firstArtifact: Option<string>,
      artifacts: seq<string>)

  function NewRecord(c: Call): Record {
    Record(c.run, c.report, c.run, c.report, 1, if c.artifact.Some? then [c.artifact.value] else [])
  }

  function Seen(r: Record, c: Call): Record {
    r.(lastRun := c.run, lastReport := c.report, count := r.count + 1,
       artifacts := if c.artifact.Some? && c.artifact.value !in r.artifacts then r.artifacts + [c.artifact.value]
                    else r.artifacts)
  }

  function Updated(index: map<string, Record>, c: Call): map<string, Record> {
    index[c.fingerprint := if c.fingerprint in index then Seen(index[c.fingerprint], c) else NewRecord(c)]
  }

  /** The index after the calls of a log, from an empty one. */
  function Index(log: seq<Call>): map<string, Record> {
    if log == [] then map[] else Updated(Index(log[..|log| - 1]), log[|log| - 1])
  }

  class IndexFile {
    var fingerprints: map<string, Record>

    constructor ()
      ensures fingerprints == Index([])
    {
      fingerprints := map[];
    }

    /** update_crash_index; log is the calls so far. */
    method Update(c: Call, ghost log: seq<Call>) returns (a: Answer)
      requires fingerprints == Index(log)
      modifies this
      ensures fingerprints == Index(log + [c])
      ensures var r := fingerprints[c.fingerprint];
        && a.count == r.count && a.firstRun == r.firstRun && a.lastRun == r.lastRun && a.artifacts == r.artifacts
        && a.firstArtifact == if r.artifacts == [] then None else Some(r.artifacts[0])
      ensures a.isDuplicate <==> Occurs(log, c.fingerprint)
    {
      assert (log + [c])[..|log|] == log;
      OccursIsIn(log, c.fingerprint);
      var isDuplicate := c.fingerprint in fingerprints;
      var record;
      if !isDuplicate {
        record := Record(c.run, c.report, c.run, c.report, 1, if c.artifact.Some? then [c.artifact.value] else []);
      } else {
        record := fingerprints[c.fingerprint];
        record := record.(count := record.count + 1, lastRun := c.run, lastReport := c.report);
        if c.artifact.Some? && c.artifact.value !in record.artifacts {
          record := record.(artifacts := record.artifacts + [c.artifact.value]);
        }
      }
      fingerprints := fingerprints[c.fingerprint := record];
      a := Answer(isDuplicate, record.count, record.firstRun, record.lastRun,
                  if record.artifacts == [] then None else Some(record.artifacts[0]), record.artifacts);
    }
  }

  // ---------------------------------------------------------------------------
  // The plain log
  // ---------------------------------------------------------------------------

  predicate Occurs(log: seq<Call>, f: string) {
    exists k :: 0 <= k < |log| && log[k].fingerprint == f
  }

  /** How many calls had this fingerprint. */
  function Count(log: seq<Call>, f: string): nat {
    |set k | 0 <= k < |log| && log[k].fingerprint == f|
  }

  /** k is the first call with this fingerprint. */
  predicate IsFirst(log: seq<Call>, f: string, k: nat) {
    k < |log| && log[k].fingerprint == f && forall j :: 0 <= j < k ==> log[j].fingerprint != f
  }

  predicate IsLast(log: seq<Call>, f: string, k: nat) {
    k < |log| && log[k].fingerprint == f && forall j :: k < j < |log| ==> log[j].fingerprint != f
  }

  /** Call k had this fingerprint and this artifact. */
  predicate Shows(log: seq<Call>, f: string, a: string, k: nat) {
    k < |log| && log[k].fingerprint == f && log[k].artifact == Some(a)
  }

  /** Artifact a was first seen at call k. */
  predicate FirstShown(log: seq<Call>, f: string, a: string, k: nat) {
    Shows(log, f, a, k) && forall j: nat :: j < k ==> !Shows(log, f, a, j)
  }

  /** Some call showed artifact a. */
  ghost predicate Introduced(log: seq<Call>, f: string, a: string) {
    exists k: nat :: FirstShown(log, f, a, k)
  }

  /** The artifacts are the distinct paths, in the order in which they were first seen. */
  ghost predicate InFirstSeenOrder(log: seq<Call>, f: string, artifacts: seq<string>) {
    && (forall a, k: nat :: Shows(log, f, a, k) ==> a in artifacts)
    && (forall i :: 0 <= i < |artifacts| ==> Introduced(log, f, artifacts[i]))
    && (forall i, j, k: nat, l: nat ::
          0 <= i < j < |artifacts| && FirstShown(log, f, artifacts[i], k) && FirstShown(log, f, artifacts[j], l) ==>
            k < l)
  }

  /** The record says of its fingerprint what the log says. */
  ghost predicate Agrees(r: Record, log: seq<Call>, f: string) {
    && r.count == Count(log, f)
    && (exists k: nat :: IsFirst(log, f, k) && r.firstRun == log[k].run && r.firstReport == log[k].report)
    && (exists k: nat :: IsLast(log, f, k) && r.lastRun == log[k].run && r.lastReport == log[k].report)
    && InFirstSeenOrder(log, f, r.artifacts)
  }

  lemma {:induction false} OccursIsIn(log: seq<Call>, f: string)
    ensures Occurs(log, f) <==> f in Index(log)
  {
    if log != [] {
      var n := |log| - 1;
      OccursIsIn(log[..n], f);
      if Occurs(log, f) && log[n].fingerprint != f {
        var k :| 0 <= k < |log| && log[k].fingerprint == f;
        assert log[..n][k] == log[k];
      }
    }
  }

  // ---------------------------------------------------------------------------
  // One more call
  // ---------------------------------------------------------------------------

  lemma CountStep(log: seq<Call>, c: Call, f: string)
    ensures Count(log + [c], f) == Count(log, f) + if c.fingerprint == f then 1 else 0
  {
    var a := set k | 0 <= k < |log| && log[k].fingerprint == f;
    var b := set k | 0 <= k < |log + [c]| && (log + [c])[k].fingerprint == f;
    assert forall k :: 0 <= k < |log| ==> (log + [c])[k] == log[k];
    assert b == if c.fingerprint == f then a + {|log|} else a;
  }

  lemma CountNone(log: seq<Call>, f: string)
    requires !Occurs(log, f)
    ensures Count(log, f) == 0
  {
    assert (set k | 0 <= k < |log| && log[k].fingerprint == f) == {};
  }

  /** What was first stays first. */
  lemma FirstStep(log: seq<Call>, c: Call, f: string, k: nat)
    requires IsFirst(log, f, k)
    ensures IsFirst(log + [c], f, k) && (log + [c])[k] == log[k]
  {
  }

  lemma LastStep(log: seq<Call>, c: Call, f: string, k: nat)
    requires IsLast(log, f, k) && c.fingerprint != f
    ensures IsLast(log + [c], f, k) && (log + [c])[k] == log[k]
  {
  }

  /** Showings before the new call are the old ones. */
  lemma ShowsStep(log: seq<Call>, c: Call, f: string, a: string, k: nat)
    ensures k < |log| ==> (Shows(log + [c], f, a, k) <==> Shows(log, f, a, k))
    ensures Shows(log + [c], f, a, |log|) <==> c.fingerprint == f && c.artifact == Some(a)
  {
  }

  lemma FirstShownStep(log: seq<Call>, c: Call, f: string, a: string, k: nat)
    ensures FirstShown(log, f, a, k) ==> FirstShown(log + [c], f, a, k)
    ensures FirstShown(log + [c], f, a, k) && k < |log| ==> FirstShown(log, f, a, k)
  {
    forall j: nat
      ensures j < |log| ==> (Shows(log + [c], f, a, j) <==> Shows(log, f, a, j))
    {
      ShowsStep(log, c, f, a, j);
    }
  }

  /** The order is kept by a call that brings no new artifact. */
  lemma OrderKept(log: seq<Call>, c: Call, f: string, artifacts: seq<string>)
    requires InFirstSeenOrder(log, f, artifacts)
    requires c.fingerprint != f || c.artifact.None? || c.artifact.value in artifacts
    ensures InFirstSeenOrder(log + [c], f, artifacts)
  {
    var next := log + [c];
    forall a, k: nat | Shows(next, f, a, k)
      ensures a in artifacts
    {
      ShowsStep(log, c, f, a, k);
    }
    OldOnesStay(log, c, f, artifacts);
    forall i, j, k: nat, l: nat |
      0 <= i < j < |artifacts| && FirstShown(next, f, artifacts[i], k) && FirstShown(next, f, artifacts[j], l)
      ensures k < l
    {
      OldFirst(log, c, f, artifacts[i], k);
      OldFirst(log, c, f, artifacts[j], l);
    }
  }

  lemma OldOnesStay(log: seq<Call>, c: Call, f: string, artifacts: seq<string>)
    requires InFirstSeenOrder(log, f, artifacts)
    ensures forall i :: 0 <= i < |artifacts| ==> Introduced(log + [c], f, artifacts[i])
  {
    forall i | 0 <= i < |artifacts|
      ensures Introduced(log + [c], f, artifacts[i])
    {
      var k: nat :| FirstShown(log, f, artifacts[i], k);
      FirstShownStep(log, c, f, artifacts[i], k);
    }
  }

  /** An artifact that was already first shown is not first shown by the new call. */
  lemma OldFirst(log: seq<Call>, c: Call, f: string, a: string, k: nat)
    requires FirstShown(log + [c], f, a, k) && Introduced(log, f, a)
    ensures k < |log| && FirstShown(log, f, a, k)
  {
    var j: nat :| FirstShown(log, f, a, j);
    FirstShownStep(log, c, f, a, j);
    FirstShownStep(log, c, f, a, k);
  }

  /** A new artifact goes to the end. */
  lemma OrderGrows(log: seq<Call>, c: Call, f: string, artifacts: seq<string>, a: string)
    requires InFirstSeenOrder(log, f, artifacts) && c.fingerprint == f && c.artifact == Some(a) && a !in artifacts
    ensures InFirstSeenOrder(log + [c], f, artifacts + [a])
  {
    var next, more := log + [c], artifacts + [a];
    forall b, k: nat | Shows(next, f, b, k)
      ensures b in more
    {
      ShowsStep(log, c, f, b, k);
    }
    OldOnesStay(log, c, f, artifacts);
    NewFirst(log, c, f, artifacts, a);
    forall i | 0 <= i < |more|
      ensures Introduced(next, f, more[i])
    {
      if i == |artifacts| {
        assert FirstShown(next, f, more[i], |log|);
      } else {
        assert more[i] == artifacts[i];
      }
    }
    forall i, j, k: nat, l: nat |
      0 <= i < j < |more| && FirstShown(next, f, more[i], k) && FirstShown(next, f, more[j], l)
      ensures k < l
    {
      assert more[i] == artifacts[i];
      OldFirst(log, c, f, artifacts[i], k);
      if j == |artifacts| {
        NewIsLate(log, c, f, artifacts, a, l);
      } else {
        assert more[j] == artifacts[j];
        OldFirst(log, c, f, artifacts[j], l);
      }
    }
  }

  lemma NewFirst(log: seq<Call>, c: Call, f: string, artifacts: seq<string>, a: string)
    requires InFirstSeenOrder(log, f, artifacts) && c.fingerprint == f && c.artifact == Some(a) && a !in artifacts
    ensures FirstShown(log + [c], f, a, |log|)
  {
    ShowsStep(log, c, f, a, |log|);
    forall j: nat | j < |log|
      ensures !Shows(log + [c], f, a, j)
    {
      ShowsStep(log, c, f, a, j);
    }
  }

  lemma NewIsLate(log: seq<Call>, c: Call, f: string, artifacts: seq<string>, a: string, l: nat)
    requires InFirstSeenOrder(log, f, artifacts) && a !in artifacts && FirstShown(log + [c], f, a, l)
    ensures l >= |log|
  {
    ShowsStep(log, c, f, a, l);
  }

  lemma OrderStarts(log: seq<Call>, c: Call)
    requires !Occurs(log, c.fingerprint)
    ensures InFirstSeenOrder(log + [c], c.fingerprint, NewRecord(c).artifacts)
  {
    var f := c.fingerprint;
    assert forall a, k: nat :: !Shows(log, f, a, k);
    assert InFirstSeenOrder(log, f, []);
    if c.artifact.Some? {
      OrderGrows(log, c, f, [], c.artifact.value);
      assert [] + [c.artifact.value] == [c.artifact.value];
    } else {
      OrderKept(log, c, f, []);
    }
  }

  // ---------------------------------------------------------------------------
  // The index agrees with the log
  // ---------------------------------------------------------------------------

  lemma SeenAgrees(r: Record, log: seq<Call>, c: Call)
    requires Agrees(r, log, c.fingerprint)
    ensures Agrees(Seen(r, c), log + [c], c.fingerprint)
  {
    var f := c.fingerprint;
    CountStep(log, c, f);
    var k: nat :| IsFirst(log, f, k) && r.firstRun == log[k].run && r.firstReport == log[k].report;
    FirstStep(log, c, f, k);
    assert IsLast(log + [c], f, |log|);
    if c.artifact.Some? && c.artifact.value !in r.artifacts {
      OrderGrows(log, c, f, r.artifacts, c.artifact.value);
    } else {
      OrderKept(log, c, f, r.artifacts);
    }
  }

  lemma NewAgrees(log: seq<Call>, c: Call)
    requires !Occurs(log, c.fingerprint)
    ensures Agrees(NewRecord(c), log + [c], c.fingerprint)
  {
    var f := c.fingerprint;
    CountStep(log, c, f);
    CountNone(log, f);
    assert IsFirst(log + [c], f, |log|) && IsLast(log + [c], f, |log|);
    OrderStarts(log, c);
  }

  lemma OtherAgrees(r: Record, log: seq<Call>, c: Call, f: string)
    requires Agrees(r, log, f) && c.fingerprint != f
    ensures Agrees(r, log + [c], f)
  {
    CountStep(log, c, f);
    var k: nat :| IsFirst(log, f, k) && r.firstRun == log[k].run && r.firstReport == log[k].report;
    FirstStep(log, c, f, k);
    var l: nat :| IsLast(log, f, l) && r.lastRun == log[l].run && r.lastReport == log[l].report;
    LastStep(log, c, f, l);
    OrderKept(log, c, f, r.artifacts);
  }

  /** After any sequence of calls from an empty index: exactly the fingerprints that occurred are in it,
      and each record has the number of calls, the first and last run, and the distinct artifacts in
      first-seen order. */
  lemma {:induction false} IndexAgrees(log: seq<Call>, f: string)
    ensures f in Index(log) <==> Occurs(log, f)
    ensures f in Index(log) ==> Agrees(Index(log)[f], log, f)
  {
    OccursIsIn(log, f);
    if log != [] {
      var n := |log| - 1;
      var before, c := log[..n], log[n];
      assert log == before + [c];
      IndexAgrees(before, f);
      if c.fingerprint == f {
        if f in Index(before) {
          SeenAgrees(Index(before)[f], before, c);
        } else {
          NewAgrees(before, c);
        }
      } else if f in Index(before) {
        OtherAgrees(Index(before)[f], before, c, f);
      }
    }
  }
}
