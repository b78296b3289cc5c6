/** Recovery after a guarded apply (scripts/hermes_watch.py): `_next_recovery_policy`, the routing into
    the four recovery queues, their consumer, and the closed-loop and recursive-retry drivers.

    `RearmedOnce` bounds the retries of a candidate over every run of the commands, `ChainExact` says
    what the recursive driver returns, and `StreakLost` what the closed loop does to the streak. */
module Recovery {
  import opened Options

  datatype Outcome = Applied | RolledBack | Blocked

  datatype Decision = Retry | Hold | Abort | Resolved

  /** The fields of the manifest the policy reads and writes. */
  datatype Record = Record(streak: nat, attempts: nat)

  /** apply_status as the policy sees it; any other text is Unexpected. */
  datatype Status = Finished(outcome: Outcome) | Unexpected

  /** _next_recovery_policy */
  function NextPolicy(r: Record, status: Status, guardrailBlocked: bool): (Decision, Record) {
    var attempts := r.attempts + if status == Finished(Applied) || status == Finished(RolledBack) then 1 else 0;
    if guardrailBlocked || status == Finished(Blocked) then (Hold, Record(0, r.attempts))
    else if status == Finished(Applied) then (Resolved, Record(0, attempts))
    else if status == Finished(RolledBack) then
      (if r.streak + 1 >= 2 then Abort else Retry, Record(r.streak + 1, attempts))
    else (Hold, r)
  }

  /** The policy after an apply that ran to its end; the guardrail status is "blocked" exactly when the
      apply was. */
  function After(r: Record, o: Outcome): (Decision, Record) {
    NextPolicy(r, Finished(o), o == Blocked)
  }

  // ---------------------------------------------------------------------------
  // Applies on one manifest, one after another
  // ---------------------------------------------------------------------------

  function Final(r: Record, outcomes: seq<Outcome>): Record {
    if outcomes == [] then r else After(Final(r, outcomes[..|outcomes| - 1]), outcomes[|outcomes| - 1]).1
  }

  /** The decision on the last outcome. */
  function LastDecision(r: Record, outcomes: seq<Outcome>): Decision
    requires outcomes != []
  {
    After(Final(r, outcomes[..|outcomes| - 1]), outcomes[|outcomes| - 1]).0
  }

  /** The length of the run of rollbacks at the end. */
  function Trailing(outcomes: seq<Outcome>): nat {
    if outcomes != [] && outcomes[|outcomes| - 1] == RolledBack then 1 + Trailing(outcomes[..|outcomes| - 1]) else 0
  }

  /** How many outcomes were not blocked. */
  function Attempted(outcomes: seq<Outcome>): nat {
    if outcomes == [] then 0
    else Attempted(outcomes[..|outcomes| - 1]) + if outcomes[|outcomes| - 1] == Blocked then 0 else 1
  }

  lemma {:induction false} TrailingBound(outcomes: seq<Outcome>)
    ensures Trailing(outcomes) <= |outcomes|
  {
    if outcomes != [] && outcomes[|outcomes| - 1] == RolledBack {
      TrailingBound(outcomes[..|outcomes| - 1]);
    }
  }

  /** The streak is the trailing run of rollbacks, on top of what the manifest started with as long as
      nothing else has happened; the attempts are the outcomes that were not blocked. */
  lemma {:induction false} StreakIsTrailing(r: Record, outcomes: seq<Outcome>)
    ensures Final(r, outcomes).streak == Trailing(outcomes) + if Trailing(outcomes) == |outcomes| then r.streak else 0
    ensures Final(r, outcomes).attempts == r.attempts + Attempted(outcomes)
  {
    if outcomes != [] {
      StreakIsTrailing(r, outcomes[..|outcomes| - 1]);
      TrailingBound(outcomes[..|outcomes| - 1]);
    }
  }

  /** The k-th outcome is a rollback and the one before it was not. */
  predicate FirstRollback(outcomes: seq<Outcome>, k: nat)
    requires k < |outcomes|
  {
    outcomes[k] == RolledBack && (k == 0 || outcomes[k - 1] != RolledBack)
  }

  /** From a fresh manifest, retry is decided on the first rollback of each run, abort on every later
      one, and neither on anything else. */
  lemma RetryOnceThenAbort(outcomes: seq<Outcome>, k: nat, attempts: nat)
    requires k < |outcomes|
    ensures var d := LastDecision(Record(0, attempts), outcomes[..k + 1]);
      && (d == Retry <==> FirstRollback(outcomes, k))
      && (d == Abort <==> outcomes[k] == RolledBack && !FirstRollback(outcomes, k))
      && (d == Resolved <==> outcomes[k] == Applied)
  {
    var r, before := Record(0, attempts), outcomes[..k];
    assert outcomes[..k + 1][..k] == before;
    StreakIsTrailing(r, before);
  }

  /** A manifest that already carries a streak never gets a retry before something succeeds or is
      blocked. */
  lemma CarriedStreakAborts(r: Record, outcomes: seq<Outcome>)
    requires r.streak >= 1 && outcomes != [] && Trailing(outcomes) == |outcomes|
    ensures LastDecision(r, outcomes) == Abort
  {
    var before := outcomes[..|outcomes| - 1];
    StreakIsTrailing(r, before);
    TrailingBound(before);
  }

  // ---------------------------------------------------------------------------
  // Routing
  // ---------------------------------------------------------------------------

  /** What the routing looks at besides the decision: the policy of an escalated follow-up, and a
      second conflict in the patch's hunk. */
  datatype Evidence = Evidence(escalated: bool, holdReason: bool, conflictPresent: bool, conflictCount: int,
                               severeCode: bool)

  /** _reverse_linked_followup_routing_adjustment: the decision, and whether it applied. */
  function ReverseLinked(e: Evidence, base: Decision): (Decision, bool) {
    if base != Retry || !e.escalated then (base, false)
    else (if e.holdReason then Hold else Abort, true)
  }

  /** _secondary_conflict_routing_adjustment */
  function SecondaryConflict(e: Evidence, base: Decision): Decision {
    if base != Retry then base
    else if !e.conflictPresent || e.conflictCount <= 0 then base
    else if e.conflictCount >= 2 || e.severeCode then Abort
    else Hold
  }

  /** route_harness_apply_recovery: the conflict only counts where the follow-up did not apply. */
  function Route(e: Evidence, base: Decision): Decision {
    var (d, linked) := ReverseLinked(e, base);
    if linked then d else SecondaryConflict(e, d)
  }

  /** Routing only ever turns a retry into a hold or an abort: it changes nothing else, resolves nothing,
      and never introduces a retry. */
  lemma RouteOnlySoftensRetry(e: Evidence, base: Decision)
    ensures base != Retry ==> Route(e, base) == base
    ensures base == Retry ==> Route(e, base) in {Retry, Hold, Abort}
    ensures Route(e, base) == Retry <==> base == Retry && !e.escalated && !(e.conflictPresent && e.conflictCount > 0)
  {
  }

  /** Which way a retry is turned: by the reason of an escalated follow-up, whatever conflicts there are;
      else to a hold by a single conflict that is not severe, and to an abort by any other conflict. */
  lemma RetryTurned(e: Evidence)
    ensures Route(e, Retry) == Hold <==>
      (e.escalated && e.holdReason) ||
      (!e.escalated && e.conflictPresent && e.conflictCount == 1 && !e.severeCode)
    ensures Route(e, Retry) == Abort <==>
      (e.escalated && !e.holdReason) ||
      (!e.escalated && e.conflictPresent && (e.conflictCount > 1 || (e.conflictCount == 1 && e.severeCode)))
  {
  }

  // ---------------------------------------------------------------------------
  // Candidates and queues
  // ---------------------------------------------------------------------------

  /** A candidate of a project: it names the manifest, the result file and the first part of a key. */
  type Candidate = nat

  /** What is kept of a candidate: the counters in its manifest, and the decision in its result file
      once an apply has written one. */
  datatype Case = Case(record: Record, last: Option<Decision>)

  /** A queue entry; its consumer status is one of those that are passed over. */
  datatype Entry = Entry(candidate: Candidate, done: bool)

  /** The manifests on disk and the four registries. */
  datatype State = State(cases: map<Candidate, Case>, retry: seq<Entry>, hold: seq<Entry>, abort: seq<Entry>,
                         resolved: seq<Entry>) {
    function Queue(d: Decision): seq<Entry> {
      match d
      case Retry => retry
      case Hold => hold
      case Abort => abort
      case Resolved => resolved
    }

    function With(d: Decision, q: seq<Entry>): State {
      match d
      case Retry => this.(retry := q)
      case Hold => this.(hold := q)
      case Abort => this.(abort := q)
      case Resolved => this.(resolved := q)
    }

    /** The manifest of c, if there is one, with these counters. */
    function Restored(c: Candidate, r: Record): State {
      if c in cases then this.(cases := cases[c := cases[c].(record := r)]) else this
    }

    /** Where the first entry to be consumed is. */
    function First(d: Decision): (i: nat)
      ensures i <= |Queue(d)|
    {
      FirstPending(Queue(d))
    }

    predicate HasPending(d: Decision) {
      First(d) < |Queue(d)|
    }
  }

  const START := State(map[], [], [], [], [])

  function FirstPending(q: seq<Entry>): (i: nat)
    ensures i <= |q| && (i < |q| ==> !q[i].done)
    ensures forall j :: 0 <= j < i ==> q[j].done
  {
    if q == [] || !q[0].done then 0 else 1 + FirstPending(q[1..])
  }

  /** How an apply ends: not at all, because the manifest does not say verified; without its target
      file, before the policy is asked; or with an outcome. */
  datatype Applying = Unverified | TargetMissing | Ran(outcome: Outcome)

  datatype Reroute = NoReroute | To(decision: Decision)

  /** Only an apply that ran asks the policy and writes a result. */
  function AfterApply(c: Case, a: Applying): Case {
    if a.Ran? then Case(After(c.record, a.outcome).1, Some(After(c.record, a.outcome).0)) else c
  }

  function ApplyTo(s: State, c: Candidate, a: Applying): State {
    if c in s.cases then s.(cases := s.cases[c := AfterApply(s.cases[c], a)]) else s
  }

  /** The candidate has an entry under this decision, consumed or not. */
  predicate Listed(q: seq<Entry>, c: Candidate) {
    exists i :: 0 <= i < |q| && q[i].candidate == c
  }

  function Enqueued(q: seq<Entry>, c: Candidate): seq<Entry> {
    if Listed(q, c) then q else q + [Entry(c, false)]
  }

  /** route_harness_apply_recovery: nothing without a result file. */
  function Routed(s: State, c: Candidate, e: Evidence): (State, Reroute) {
    if c !in s.cases || s.cases[c].last.None? then (s, NoReroute)
    else
      var d := Route(e, s.cases[c].last.value);
      (s.With(d, Enqueued(s.Queue(d), c)), To(d))
  }

  // ---------------------------------------------------------------------------
  // One trip of the closed loop
  // ---------------------------------------------------------------------------

  /** What is consumed: nothing; an entry whose manifest is gone; or an entry, which stays pending when
      a retry cannot be armed. */
  datatype Taken = Nothing | Missing(decision: Decision) | Took(decision: Decision, candidate: Candidate, done: bool)

  function TakenFrom(s: State, d: Decision, armed: bool): Taken
    requires s.HasPending(d)
  {
    var c := s.Queue(d)[s.First(d)].candidate;
    if c !in s.cases then Missing(d) else Took(d, c, d == Retry ==> armed)
  }

  /** consume_harness_apply_recovery_queue: the first pending entry of the first queue that has one. */
  function Take(s: State, armed: bool): Taken {
    if s.HasPending(Retry) then TakenFrom(s, Retry, armed)
    else if s.HasPending(Hold) then TakenFrom(s, Hold, armed)
    else if s.HasPending(Abort) then TakenFrom(s, Abort, armed)
    else if s.HasPending(Resolved) then TakenFrom(s, Resolved, armed)
    else Nothing
  }

  /** The first queue in the order that has a pending entry decides. */
  lemma FirstTaken(s: State, order: seq<Decision>, k: nat, armed: bool)
    requires order == [Retry, Hold, Abort, Resolved] && k < 4 && s.HasPending(order[k])
    requires forall j :: 0 <= j < k ==> !s.HasPending(order[j])
    ensures Take(s, armed) == TakenFrom(s, order[k], armed)
  {
    assert k > 0 ==> !s.HasPending(order[0]);
    assert k > 1 ==> !s.HasPending(order[1]);
    assert k > 2 ==> !s.HasPending(order[2]);
  }

  predicate AllDone(q: seq<Entry>) {
    forall i :: 0 <= i < |q| ==> q[i].done
  }

  /** q becomes r when its first entry that is not done is taken: unless its manifest is gone, it is done
      afterwards, if it can be consumed. */
  predicate Consumes(q: seq<Entry>, r: seq<Entry>, cases: map<Candidate, Case>, t: Taken) {
    exists i :: 0 <= i < |q| && !q[i].done && AllDone(q[..i]) &&
                if t.Took? then
                  q[i].candidate == t.candidate && t.candidate in cases && r == if t.done then Marked(q, i) else q
                else t.Missing? && q[i].candidate !in cases && r == q
  }

  function Marked(q: seq<Entry>, i: nat): seq<Entry>
    requires i < |q|
  {
    q[i := q[i].(done := true)]
  }

  function Consumed(s: State, t: Taken): State {
    if t.Took? && t.done && s.HasPending(t.decision) then
      s.With(t.decision, Marked(s.Queue(t.decision), s.First(t.decision)))
    else s
  }

  lemma PendingIs(s: State, d: Decision, q: seq<Entry>)
    requires q == s.Queue(d)
    ensures s.HasPending(d) <==> !AllDone(q)
  {
  }

  lemma QueueConsumed(s: State, d: Decision, armed: bool)
    requires s.HasPending(d)
    ensures var t := TakenFrom(s, d, armed);
      && Consumes(s.Queue(d), Consumed(s, t).Queue(d), s.cases, t) && t.decision == d
      && (t.Took? ==> (t.done <==> armed || d != Retry))
      && forall other :: other != d ==> Consumed(s, t).Queue(other) == s.Queue(other)
  {
    var i := s.First(d);
    assert !s.Queue(d)[i].done && AllDone(s.Queue(d)[..i]);
  }

  lemma Chosen(s: State, armed: bool) returns (d: Decision)
    requires Take(s, armed) != Nothing
    ensures s.HasPending(d) && Take(s, armed) == TakenFrom(s, d, armed)
  {
    d := Take(s, armed).decision;
  }

  /** In its queue the first entry that is not done is taken, unless its manifest is gone; a retry is done
      only when it is armed, anything else always, and the other queues stay. */
  lemma FirstOfQueue(s: State, armed: bool) returns (t: Taken, after: State)
    ensures t == Take(s, armed) && after == Consumed(s, t)
    ensures if t == Nothing then after == s else Consumes(s.Queue(t.decision), after.Queue(t.decision), s.cases, t)
    ensures t.Took? ==> (t.done <==> armed || t.decision != Retry)
    ensures forall d :: t == Nothing || d != t.decision ==> after.Queue(d) == s.Queue(d)
  {
    t := Take(s, armed);
    after := Consumed(s, t);
    if t != Nothing {
      var d := Chosen(s, armed);
      QueueConsumed(s, d, armed);
    }
  }

  /** The queues are looked at in the order retry, hold, abort, resolved. */
  lemma TakenInOrder(s: State, armed: bool)
    ensures var t := Take(s, armed);
      if t == Nothing then AllDone(s.retry) && AllDone(s.hold) && AllDone(s.abort) && AllDone(s.resolved)
      else
        match t.decision
        case Retry => !AllDone(s.retry)
        case Hold => AllDone(s.retry) && !AllDone(s.hold)
        case Abort => AllDone(s.retry) && AllDone(s.hold) && !AllDone(s.abort)
        case Resolved => AllDone(s.retry) && AllDone(s.hold) && AllDone(s.abort) && !AllDone(s.resolved)
  {
    PendingIs(s, Retry, s.retry);
    PendingIs(s, Hold, s.hold);
    PendingIs(s, Abort, s.abort);
    PendingIs(s, Resolved, s.resolved);
  }

  /** What one trip meets: whether the delegate request of a retry is there, whether launching and
      verifying it succeeded, how the apply ended, and what the routing finds. */
  datatype Answer = Answer(armed: bool, verified: bool, applying: Applying, evidence: Evidence) {
    /** The apply was reached and did not give up for want of a verification. */
    predicate Applies() {
      armed && verified && !applying.Unverified?
    }
  }

  datatype TripEnd = TripEnd(state: State, worked: bool, reroute: Reroute)

  /** run_harness_apply_recovery_full_closed_loop_chaining: the counters are written back as they were
      before the apply. */
  function Trip(s: State, a: Answer): TripEnd {
    var t := Take(s, a.armed);
    var consumed := Consumed(s, t);
    if t.Took? && t.decision == Retry && a.Applies() then
      var (after, r) := Routed(ApplyTo(consumed, t.candidate, a.applying), t.candidate, a.evidence);
      TripEnd(after.Restored(t.candidate, s.cases[t.candidate].record), true, r)
    else TripEnd(consumed, !t.Nothing?, NoReroute)
  }

  datatype ChainResult = NoResult | Stopped(reroute: Reroute, cycles: nat) | MaxCyclesReached(cycles: nat)

  datatype ChainEnd = ChainEnd(state: State, result: ChainResult, trips: nat)

  /** run_harness_apply_retry_recursive_chaining, past the cooldown check, from cycle k on; cycle k meets
      answers[k], and there are at most |answers| of them. */
  function Chain(s: State, answers: seq<Answer>, k: nat): ChainEnd
    requires k <= |answers|
    decreases |answers| - k
  {
    if k == |answers| then ChainEnd(s, if k == 0 then NoResult else MaxCyclesReached(k), k)
    else
      var trip := Trip(s, answers[k]);
      if !trip.worked then ChainEnd(trip.state, NoResult, k + 1)
      else if trip.reroute != To(Retry) then ChainEnd(trip.state, Stopped(trip.reroute, k + 1), k + 1)
      else Chain(trip.state, answers, k + 1)
  }

  // ---------------------------------------------------------------------------
  // The commands
  // ---------------------------------------------------------------------------

  /** The files the commands read and write. */
  class Workspace {
    var cases: map<Candidate, Case>
    var retry: seq<Entry>
    var hold: seq<Entry>
    var abort: seq<Entry>
    var resolved: seq<Entry>

    ghost function View(): State
      reads this
    {
      State(cases, retry, hold, abort, resolved)
    }

    constructor ()
      ensures View() == START
    {
      cases, retry, hold, abort, resolved := map[], [], [], [], [];
    }

    /** The registry of a decision. */
    method Load(d: Decision) returns (q: seq<Entry>)
      ensures q == View().Queue(d)
    {
      match d {
        case Retry => q := retry;
        case Hold => q := hold;
        case Abort => q := abort;
        case Resolved => q := resolved;
      }
    }

    method Save(d: Decision, q: seq<Entry>)
      modifies this
      ensures View() == old(View()).With(d, q)
    {
      match d {
        case Retry => retry := q;
        case Hold => hold := q;
        case Abort => abort := q;
        case Resolved => resolved := q;
      }
    }

    /** apply_verified_harness_patch_candidate, as far as the recovery goes. */
    method Apply(c: Candidate, a: Applying)
      modifies this
      ensures View() == ApplyTo(old(View()), c, a)
      ensures (c in old(cases) <==> c in cases) && (c !in cases || !a.Ran? ==> cases == old(cases))
      ensures c in cases && a.Ran? ==>
        var r := old(cases)[c].record;
        match a.outcome
        case Applied => cases[c] == Case(Record(0, r.attempts + 1), Some(Resolved))
        case RolledBack =>
          cases[c] == Case(Record(r.streak + 1, r.attempts + 1), Some(if r.streak == 0 then Retry else Abort))
        case Blocked => cases[c] == Case(Record(0, r.attempts), Some(Hold))
    {
      if c in cases && a.Ran? {
        var (decision, r) := NextPolicy(cases[c].record, Finished(a.outcome), a.outcome == Blocked);
        cases := cases[c := Case(r, Some(decision))];
      }
    }

    /** route_harness_apply_recovery: looks for the key among all entries, and appends. */
    method RouteRecovery(c: Candidate, e: Evidence) returns (r: Reroute)
      modifies this
      ensures (View(), r) == Routed(old(View()), c, e)
      ensures r == NoReroute <==> c !in cases || cases[c].last.None?
      ensures r.To? && cases[c].last.value != Retry ==> r.decision == cases[c].last.value
      ensures retry == if r == To(Retry) && !Listed(old(retry), c) then old(retry) + [Entry(c, false)] else old(retry)
      ensures hold == if r == To(Hold) && !Listed(old(hold), c) then old(hold) + [Entry(c, false)] else old(hold)
      ensures abort == if r == To(Abort) && !Listed(old(abort), c) then old(abort) + [Entry(c, false)] else old(abort)
      ensures resolved ==
              if r == To(Resolved) && !Listed(old(resolved), c) then old(resolved) + [Entry(c, false)]
              else old(resolved)
    {
      if c !in cases || cases[c].last.None? {
        return NoReroute;
      }
      var d := Route(e, cases[c].last.value);
      var q := Load(d);
      var i, found := 0, false;
      while i < |q| && !found
        invariant 0 <= i <= |q|
        invariant found <==> exists j :: 0 <= j < i && q[j].candidate == c
      {
        found := q[i].candidate == c;
        i := i + 1;
      }
      if !found {
        q := q + [Entry(c, false)];
      }
      Save(d, q);
      r := To(d);
    }

    /** The first entry of a queue that is not done. */
    method Find(q: seq<Entry>) returns (i: nat)
      ensures i == FirstPending(q)
    {
      i := 0;
      while i < |q| && q[i].done
        invariant i <= |q| && FirstPending(q) == i + FirstPending(q[i..])
      {
        assert q[i..][1..] == q[i + 1..];
        i := i + 1;
      }
    }

    /** consume_harness_apply_recovery_queue: the registries in turn. */
    method Consume(armed: bool) returns (t: Taken)
      modifies this
      ensures t == Take(old(View()), armed) && View() == Consumed(old(View()), t)
    {
      var order := [Retry, Hold, Abort, Resolved];
      var k := 0;
      while k < 4
        invariant 0 <= k <= 4 && View() == old(View())
        invariant forall j :: 0 <= j < k ==> !View().HasPending(order[j])
      {
        var q := Load(order[k]);
        var i := Find(q);
        if i < |q| {
          var c := q[i].candidate;
          FirstTaken(View(), order, k, armed);
          if c !in cases {
            return Missing(order[k]);
          }
          t := Took(order[k], c, order[k] == Retry ==> armed);
          if t.done {
            Save(order[k], q[i := q[i].(done := true)]);
          }
          return;
        }
        k := k + 1;
      }
      assert !View().HasPending(order[0]) && !View().HasPending(order[1]);
      assert !View().HasPending(order[2]) && !View().HasPending(order[3]);
      t := Nothing;
    }

    /** run_harness_apply_recovery_full_closed_loop_chaining: false when nothing was queued. The copy of
        the manifest loaded before the apply is what is written at the end. */
    method ClosedLoop(a: Answer) returns (worked: bool, reroute: Reroute)
      modifies this
      ensures TripEnd(View(), worked, reroute) == Trip(old(View()), a)
    {
      var t := Consume(a.armed);
      worked, reroute := !t.Nothing?, NoReroute;
      if t.Took? && t.decision == Retry && t.done && a.verified && !a.applying.Unverified? {
        var loaded := cases[t.candidate].record;
        Apply(t.candidate, a.applying);
        reroute := RouteRecovery(t.candidate, a.evidence);
        cases := cases[t.candidate := cases[t.candidate].(record := loaded)];
      }
    }

    /** run_harness_apply_retry_recursive_chaining: cycles are counted from 1, None is an empty queue. */
    method RecursiveChain(answers: seq<Answer>) returns (r: ChainResult)
      modifies this
      ensures View() == Chain(old(View()), answers, 0).state && r == Chain(old(View()), answers, 0).result
    {
      var cycles := 0;
      while cycles < |answers|
        invariant 0 <= cycles <= |answers|
        invariant Chain(old(View()), answers, 0) == Chain(View(), answers, cycles)
      {
        var worked, reroute := ClosedLoop(answers[cycles]);
        cycles := cycles + 1;
        if !worked {
          return NoResult;
        }
        if reroute != To(Retry) {
          return Stopped(reroute, cycles);
        }
      }
      r := if cycles == 0 then NoResult else MaxCyclesReached(cycles);
    }
  }

  // ---------------------------------------------------------------------------
  // What a trip does
  // ---------------------------------------------------------------------------

  /** The candidates of the entries that are not done, in order. */
  function PendingOf(q: seq<Entry>): seq<Candidate> {
    if q == [] then [] else (if q[0].done then [] else [q[0].candidate]) + PendingOf(q[1..])
  }

  lemma {:induction false} FirstOfPending(q: seq<Entry>)
    ensures PendingOf(q) == [] <==> FirstPending(q) == |q|
    ensures PendingOf(q) != [] ==> PendingOf(q)[0] == q[FirstPending(q)].candidate
    ensures PendingOf(q) != [] ==> PendingOf(Marked(q, FirstPending(q))) == PendingOf(q)[1..]
  {
    if q != [] && q[0].done {
      FirstOfPending(q[1..]);
      if PendingOf(q) != [] {
        assert Marked(q, FirstPending(q))[1..] == Marked(q[1..], FirstPending(q[1..]));
      }
    } else if q != [] {
      assert Marked(q, 0)[1..] == q[1..];
    }
  }

  /** The reroute of a retry entry of candidate c, given the manifests. */
  function RerouteOf(cases: map<Candidate, Case>, c: Candidate, a: Answer): Reroute {
    if c in cases && a.Applies() && AfterApply(cases[c], a.applying).last.Some?
    then To(Route(a.evidence, AfterApply(cases[c], a.applying).last.value))
    else NoReroute
  }

  /** Nothing in the evidence stands against a retry. */
  predicate Silent(e: Evidence) {
    !e.escalated && !(e.conflictPresent && e.conflictCount > 0)
  }

  /** An apply that gave up on a missing target file, over a stored retry. */
  predicate FailedOverRetry(k: Case, a: Applying) {
    a == TargetMissing && k.last == Some(Retry)
  }

  /** A trip ends in a retry exactly when it takes a retry entry that can be armed and verified, nothing
      in the evidence stands against it, and either the apply is rolled back on no streak, or it fails
      for want of its target file while the result file still says retry. */
  lemma RetryCycle(cases: map<Candidate, Case>, c: Candidate, a: Answer)
    ensures RerouteOf(cases, c, a) == To(Retry) <==>
      && c in cases && a.armed && a.verified && Silent(a.evidence)
      && ((a.applying == Ran(RolledBack) && cases[c].record.streak == 0) || FailedOverRetry(cases[c], a.applying))
  {
    if c in cases && a.Applies() && AfterApply(cases[c], a.applying).last.Some? {
      RouteOnlySoftensRetry(a.evidence, AfterApply(cases[c], a.applying).last.value);
    }
  }

  predicate AnyPending(s: State) {
    s.HasPending(Retry) || s.HasPending(Hold) || s.HasPending(Abort) || s.HasPending(Resolved)
  }

  /** A trip works when anything is pending, and reroutes for the first pending retry only. */
  lemma TripReroutes(s: State, a: Answer)
    ensures Trip(s, a).worked <==> AnyPending(s)
    ensures Trip(s, a).reroute ==
      if PendingOf(s.retry) == [] then NoReroute else RerouteOf(s.cases, PendingOf(s.retry)[0], a)
  {
    FirstOfPending(s.retry);
  }

  /** Consuming and routing touch no manifest's counters and no result. */
  lemma OnlyQueues(s: State, t: Taken, c: Candidate, e: Evidence)
    ensures Consumed(s, t).cases == s.cases && Routed(s, c, e).0.cases == s.cases
  {
  }

  /** The manifests after a trip: that of a retry entry has its counters back, and a new last decision
      if its apply ran. */
  lemma TripCases(s: State, a: Answer)
    ensures var t := Take(s, a.armed);
      Trip(s, a).state.cases == if t.Took? && t.decision == Retry && a.Applies()
        then s.cases[t.candidate := Case(s.cases[t.candidate].record,
                                         AfterApply(s.cases[t.candidate], a.applying).last)]
        else s.cases
  {
    var t := Take(s, a.armed);
    if t.Took? {
      var consumed := Consumed(s, t);
      OnlyQueues(s, t, t.candidate, a.evidence);
      OnlyQueues(ApplyTo(consumed, t.candidate, a.applying), t, t.candidate, a.evidence);
    }
  }

  /** A trip that finds a pending retry consumes it if it can be armed, and queues its candidate under
      the decision it reroutes to, once; the other queues stay. */
  lemma TripQueues(s: State, a: Answer, i: nat)
    requires i == FirstPending(s.retry) < |s.retry|
    ensures var c := s.retry[i].candidate; var (t, r) := (Trip(s, a).state, Trip(s, a).reroute);
      && t.retry == (if c in s.cases && a.armed then s.retry[i := Entry(c, true)] else s.retry)
      && t.hold == (if r == To(Hold) && !Listed(s.hold, c) then s.hold + [Entry(c, false)] else s.hold)
      && t.abort == (if r == To(Abort) && !Listed(s.abort, c) then s.abort + [Entry(c, false)] else s.abort)
      && t.resolved ==
         if r == To(Resolved) && !Listed(s.resolved, c) then s.resolved + [Entry(c, false)] else s.resolved
  {
    assert Marked(s.retry, i)[i].candidate == s.retry[i].candidate;
  }

  /** A trip leaves the counters of every manifest as they were, whatever the policy said. */
  lemma TripKeepsRecords(s: State, a: Answer, c: Candidate)
    requires c in s.cases
    ensures c in Trip(s, a).state.cases && Trip(s, a).state.cases[c].record == s.cases[c].record
  {
    TripCases(s, a);
  }

  // ---------------------------------------------------------------------------
  // Keys
  // ---------------------------------------------------------------------------

  predicate Distinct(q: seq<Entry>) {
    forall i, j :: 0 <= i < j < |q| ==> q[i].candidate != q[j].candidate
  }

  /** No queue has two entries with one key. */
  predicate Keyed(s: State) {
    Distinct(s.retry) && Distinct(s.hold) && Distinct(s.abort) && Distinct(s.resolved)
  }

  /** The candidate's retry has been consumed. */
  predicate Rearmed(s: State, c: Candidate) {
    Entry(c, true) in s.retry
  }

  lemma EnqueuedKeeps(q: seq<Entry>, c: Candidate, other: Candidate)
    requires Distinct(q)
    ensures Distinct(Enqueued(q, c))
    ensures Entry(other, true) in Enqueued(q, c) <==> Entry(other, true) in q
  {
    var r := Enqueued(q, c);
    if r != q {
      assert r[..|q|] == q && r[|q|] == Entry(c, false);
      if Entry(other, true) in r {
        var i :| 0 <= i < |r| && r[i] == Entry(other, true);
        assert q[i] == Entry(other, true);
      }
      if Entry(other, true) in q {
        var i :| 0 <= i < |q| && q[i] == Entry(other, true);
        assert r[i] == Entry(other, true);
      }
    }
  }

  lemma MarkedKeeps(q: seq<Entry>, i: nat, other: Candidate)
    requires Distinct(q) && i < |q| && !q[i].done
    ensures Distinct(Marked(q, i))
    ensures Entry(other, true) in Marked(q, i) <==> Entry(other, true) in q || other == q[i].candidate
    ensures Entry(q[i].candidate, true) !in q
  {
    var r := Marked(q, i);
    assert r[i] == Entry(q[i].candidate, true);
    if Entry(other, true) in r {
      var j :| 0 <= j < |r| && r[j] == Entry(other, true);
      assert j == i || q[j] == Entry(other, true);
    }
    if Entry(other, true) in q {
      var j :| 0 <= j < |q| && q[j] == Entry(other, true);
      assert r[j] == Entry(other, true);
    }
  }

  lemma RoutedKeeps(s: State, c: Candidate, e: Evidence, other: Candidate)
    requires Keyed(s)
    ensures Keyed(Routed(s, c, e).0) && (Rearmed(Routed(s, c, e).0, other) <==> Rearmed(s, other))
  {
    if c in s.cases && s.cases[c].last.Some? {
      EnqueuedKeeps(s.Queue(Route(e, s.cases[c].last.value)), c, other);
    }
  }

  lemma ConsumedKeeps(s: State, armed: bool, other: Candidate)
    requires Keyed(s)
    ensures var t := Take(s, armed);
      && Keyed(Consumed(s, t))
      && (Rearmed(Consumed(s, t), other) <==> Rearmed(s, other) || t == Took(Retry, other, true))
      && (t == Took(Retry, other, true) ==> !Rearmed(s, other))
  {
    var t := Take(s, armed);
    if t.Took? && t.done {
      MarkedKeeps(s.Queue(t.decision), s.First(t.decision), other);
    }
  }

  // ---------------------------------------------------------------------------
  // Runs
  // ---------------------------------------------------------------------------

  /** The commands on the manifests and queues. A direct apply or route is on the newest manifest; a
      reingestion applies and routes one candidate, newly written or not, and writes another manifest
      back as it was; the files of a candidate can also be deleted. */
  datatype Event =
    | Generate(candidate: Candidate)
    | Remove(candidate: Candidate)
    | ApplyCommand(candidate: Candidate, applying: Applying)
    | RouteCommand(candidate: Candidate, evidence: Evidence)
    | ConsumeCommand(armed: bool)
    | ClosedLoopCommand(answer: Answer)
    | Reingest(kept: Candidate, candidate: Candidate, written: bool, applying: Applying, evidence: Evidence)

  /** A new manifest starts without a streak; the result file of an earlier one stays. */
  function Generated(s: State, c: Candidate): State {
    s.(cases := s.cases[c := Case(Record(0, 0), if c in s.cases then s.cases[c].last else None)])
  }

  function Step(s: State, e: Event): State {
    match e
    case Generate(c) => Generated(s, c)
    case Remove(c) => s.(cases := s.cases - {c})
    case ApplyCommand(c, a) => ApplyTo(s, c, a)
    case RouteCommand(c, ev) => Routed(s, c, ev).0
    case ConsumeCommand(armed) => Consumed(s, Take(s, armed))
    case ClosedLoopCommand(a) => Trip(s, a).state
    case Reingest(kept, c, written, a, ev) =>
      if kept !in s.cases then s
      else
        var before := if written then Generated(s, c) else s;
        var after := if a.Unverified? then before else Routed(ApplyTo(before, c, a), c, ev).0;
        after.Restored(kept, s.cases[kept].record)
  }

  function Run(s: State, run: seq<Event>): State
    decreases |run|
  {
    if run == [] then s else Run(Step(s, run[0]), run[1..])
  }

  /** This event hands candidate c's retry to the bridge. */
  predicate Rearms(s: State, e: Event, c: Candidate) {
    || (e.ConsumeCommand? && Take(s, e.armed) == Took(Retry, c, true))
    || (e.ClosedLoopCommand? && Take(s, e.answer.armed) == Took(Retry, c, true))
  }

  /** How often that happens in a run. */
  function RearmCount(s: State, run: seq<Event>, c: Candidate): nat
    decreases |run|
  {
    if run == [] then 0 else (if Rearms(s, run[0], c) then 1 else 0) + RearmCount(Step(s, run[0]), run[1..], c)
  }

  lemma TripKeeps(s: State, a: Answer, c: Candidate)
    requires Keyed(s)
    ensures Keyed(Trip(s, a).state)
    ensures Rearmed(Trip(s, a).state, c) <==> Rearmed(s, c) || Take(s, a.armed) == Took(Retry, c, true)
    ensures Take(s, a.armed) == Took(Retry, c, true) ==> !Rearmed(s, c)
  {
    ConsumedKeeps(s, a.armed, c);
    var t := Take(s, a.armed);
    if t.Took? {
      RoutedKeeps(ApplyTo(Consumed(s, t), t.candidate, a.applying), t.candidate, a.evidence, c);
    }
  }

  lemma StepKeeps(s: State, e: Event, c: Candidate)
    requires Keyed(s)
    ensures Keyed(Step(s, e))
    ensures Rearmed(Step(s, e), c) <==> Rearmed(s, c) || Rearms(s, e, c)
    ensures Rearms(s, e, c) ==> !Rearmed(s, c)
  {
    match e
    case RouteCommand(k, ev) =>
      RoutedKeeps(s, k, ev, c);
    case ConsumeCommand(armed) =>
      ConsumedKeeps(s, armed, c);
    case ClosedLoopCommand(a) =>
      TripKeeps(s, a, c);
    case Reingest(kept, k, written, a, ev) =>
      RoutedKeeps(ApplyTo(if written then Generated(s, k) else s, k, a), k, ev, c);
    case _ =>
  }

  /** Over every run of the commands the keys stay distinct, and the retries handed to the bridge are
      accounted for by the queue: a candidate is rearmed at most once in its life, even after its
      manifest is written again, because its key is never queued a second time. */
  lemma {:induction false} RearmedOnce(s: State, run: seq<Event>, c: Candidate)
    requires Keyed(s)
    ensures Keyed(Run(s, run))
    ensures RearmCount(s, run, c) == (if Rearmed(Run(s, run), c) then 1 else 0) - (if Rearmed(s, c) then 1 else 0)
    ensures RearmCount(s, run, c) <= 1
    decreases |run|
  {
    if run != [] {
      StepKeeps(s, run[0], c);
      RearmedOnce(Step(s, run[0]), run[1..], c);
    }
  }

  // ---------------------------------------------------------------------------
  // What the recursive driver returns
  // ---------------------------------------------------------------------------

  /** How many of the pending retries, taken in order with the answers, end in a retry before one does
      not. */
  function Leading(cases: map<Candidate, Case>, pending: seq<Candidate>, answers: seq<Answer>): (n: nat)
    ensures n <= |pending| && n <= |answers|
    ensures forall j :: 0 <= j < n ==> RerouteOf(cases, pending[j], answers[j]) == To(Retry)
    ensures n < |pending| && n < |answers| ==> RerouteOf(cases, pending[n], answers[n]) != To(Retry)
  {
    if pending == [] || answers == [] || RerouteOf(cases, pending[0], answers[0]) != To(Retry) then 0
    else 1 + Leading(cases, pending[1..], answers[1..])
  }

  predicate SameCase(m: map<Candidate, Case>, n: map<Candidate, Case>, c: Candidate) {
    (c in m <==> c in n) && (c in m && c in n ==> m[c] == n[c])
  }

  lemma {:induction false} LeadingFrame(m: map<Candidate, Case>, n: map<Candidate, Case>, pending: seq<Candidate>,
                                        answers: seq<Answer>)
    requires forall c :: c in pending ==> SameCase(m, n, c)
    ensures Leading(m, pending, answers) == Leading(n, pending, answers)
  {
    if pending != [] && answers != [] {
      assert SameCase(m, n, pending[0]);
      LeadingFrame(m, n, pending[1..], answers[1..]);
    }
  }

  lemma {:induction false} PendingListed(q: seq<Entry>, c: Candidate)
    requires c in PendingOf(q)
    ensures exists i :: 0 <= i < |q| && q[i] == Entry(c, false)
  {
    if q[0] != Entry(c, false) {
      PendingListed(q[1..], c);
      var i :| 0 <= i < |q[1..]| && q[1..][i] == Entry(c, false);
      assert q[i + 1] == Entry(c, false);
    }
  }

  lemma {:induction false} PendingDistinct(q: seq<Entry>)
    requires Distinct(q) && PendingOf(q) != []
    ensures PendingOf(q)[0] !in PendingOf(q)[1..]
  {
    if q[0].done {
      PendingDistinct(q[1..]);
    } else if q[0].candidate in PendingOf(q[1..]) {
      PendingListed(q[1..], q[0].candidate);
    }
  }

  /** A trip that ends in a retry spends one pending retry and queues nothing. */
  lemma RetryTripQueues(s: State, a: Answer)
    requires Distinct(s.retry) && Trip(s, a).reroute == To(Retry)
    ensures var t := Trip(s, a).state; var pending := PendingOf(s.retry);
      && pending != [] && PendingOf(t.retry) == pending[1..] && Distinct(t.retry)
      && t.hold == s.hold && t.abort == s.abort && t.resolved == s.resolved
  {
    var q, i := s.retry, s.First(Retry);
    TripReroutes(s, a);
    FirstOfPending(q);
    MarkedKeeps(q, i, q[i].candidate);
    RetryCycle(s.cases, q[i].candidate, a);
    TripQueues(s, a, i);
  }

  lemma TripSameCase(s: State, a: Answer, c: Candidate)
    requires PendingOf(s.retry) != [] && c != PendingOf(s.retry)[0]
    ensures SameCase(s.cases, Trip(s, a).state.cases, c)
  {
    FirstOfPending(s.retry);
    TripCases(s, a);
  }

  /** And it changes no manifest that is still pending. */
  lemma RetryTrip(s: State, a: Answer)
    requires Distinct(s.retry) && Trip(s, a).reroute == To(Retry)
    ensures var t := Trip(s, a).state; var pending := PendingOf(s.retry);
      && pending != [] && PendingOf(t.retry) == pending[1..] && Distinct(t.retry)
      && t.hold == s.hold && t.abort == s.abort && t.resolved == s.resolved
      && forall c :: c in pending[1..] ==> SameCase(s.cases, t.cases, c)
  {
    RetryTripQueues(s, a);
    PendingDistinct(s.retry);
    forall c | c in PendingOf(s.retry)[1..]
      ensures SameCase(s.cases, Trip(s, a).state.cases, c)
    {
      TripSameCase(s, a, c);
    }
  }

  lemma SameOthers(s: State, t: State)
    requires t.hold == s.hold && t.abort == s.abort && t.resolved == s.resolved
    ensures OthersPending(s) == OthersPending(t)
  {
  }

  /** What the driver returns, read off the manifests, the pending retries and whether another queue has
      work. */
  function Predicted(cases: map<Candidate, Case>, pending: seq<Candidate>, others: bool, answers: seq<Answer>, k: nat):
    (ChainResult, nat)
    requires k <= |answers|
  {
    var n := Leading(cases, pending, answers[k..]);
    if k + n == |answers| then (if k + n == 0 then NoResult else MaxCyclesReached(k + n), k + n)
    else if n < |pending| then (Stopped(RerouteOf(cases, pending[n], answers[k + n]), k + n + 1), k + n + 1)
    else (if others then Stopped(NoReroute, k + n + 1) else NoResult, k + n + 1)
  }

  predicate OthersPending(s: State) {
    s.HasPending(Hold) || s.HasPending(Abort) || s.HasPending(Resolved)
  }

  lemma RestPredicted(cases: map<Candidate, Case>, after: map<Candidate, Case>, pending: seq<Candidate>, others: bool,
                      answers: seq<Answer>, k: nat)
    requires k < |answers| && pending != [] && RerouteOf(cases, pending[0], answers[k]) == To(Retry)
    requires forall c :: c in pending[1..] ==> SameCase(cases, after, c)
    ensures Predicted(cases, pending, others, answers, k) == Predicted(after, pending[1..], others, answers, k + 1)
  {
    var rest := answers[k..];
    assert rest[0] == answers[k] && rest[1..] == answers[k + 1..];
    LeadingFrame(cases, after, pending[1..], answers[k + 1..]);
    var n := Leading(after, pending[1..], answers[k + 1..]);
    assert Leading(cases, pending, rest) == n + 1;
    if n < |pending[1..]| {
      assert pending[n + 1] in pending[1..] && SameCase(cases, after, pending[n + 1]);
    }
  }

  /** The reroute of a trip whose pending retries are these. */
  function FirstReroute(cases: map<Candidate, Case>, pending: seq<Candidate>, a: Answer): Reroute {
    if pending == [] then NoReroute else RerouteOf(cases, pending[0], a)
  }

  lemma StopPredicted(cases: map<Candidate, Case>, pending: seq<Candidate>, others: bool, answers: seq<Answer>, k: nat)
    requires k < |answers| && FirstReroute(cases, pending, answers[k]) != To(Retry)
    ensures Predicted(cases, pending, others, answers, k) ==
      (if pending != [] || others then Stopped(FirstReroute(cases, pending, answers[k]), k + 1) else NoResult, k + 1)
  {
    assert answers[k..][0] == answers[k];
    assert Leading(cases, pending, answers[k..]) == 0;
  }

  /** What the driver finds in a state. */
  datatype Found = Found(cases: map<Candidate, Case>, pending: seq<Candidate>, others: bool)

  function FoundIn(s: State): Found {
    Found(s.cases, PendingOf(s.retry), OthersPending(s))
  }

  /** The end of the driver is the predicted one. */
  predicate Matches(c: ChainEnd, f: Found, answers: seq<Answer>, k: nat)
    requires k <= |answers|
  {
    (c.result, c.trips) == Predicted(f.cases, f.pending, f.others, answers, k)
  }

  lemma ChainStops(s: State, answers: seq<Answer>, k: nat)
    requires k < |answers| && Trip(s, answers[k]).reroute != To(Retry)
    ensures Matches(Chain(s, answers, k), FoundIn(s), answers, k)
  {
    TripReroutes(s, answers[k]);
    FirstOfPending(s.retry);
    StopPredicted(s.cases, PendingOf(s.retry), OthersPending(s), answers, k);
  }

  lemma ChainGoesOn(s: State, answers: seq<Answer>, k: nat)
    requires Distinct(s.retry) && k < |answers| && Trip(s, answers[k]).reroute == To(Retry)
    requires Matches(Chain(Trip(s, answers[k]).state, answers, k + 1), FoundIn(Trip(s, answers[k]).state), answers,
                     k + 1)
    ensures Matches(Chain(s, answers, k), FoundIn(s), answers, k)
  {
    var t := Trip(s, answers[k]).state;
    TripReroutes(s, answers[k]);
    RetryTrip(s, answers[k]);
    SameOthers(s, t);
    RestPredicted(s.cases, t.cases, PendingOf(s.retry), OthersPending(s), answers, k);
  }

  /** The driver works through the pending retries in queue order, each with the manifest it had at the
      start. It stops at the first that does not end in a retry again, or when they are used up: then
      with no reroute if another queue has work, with nothing if not, even though earlier cycles did
      work. It reaches its limit only by ending every trip in a retry. */
  lemma {:induction false} ChainExact(s: State, answers: seq<Answer>, k: nat)
    requires Distinct(s.retry) && k <= |answers|
    ensures Matches(Chain(s, answers, k), FoundIn(s), answers, k)
    decreases |answers| - k
  {
    if k == |answers| {
      assert answers[k..] == [];
    } else if Trip(s, answers[k]).reroute == To(Retry) {
      RetryTrip(s, answers[k]);
      ChainExact(Trip(s, answers[k]).state, answers, k + 1);
      ChainGoesOn(s, answers, k);
    } else {
      ChainStops(s, answers, k);
    }
  }

  /** It reaches its limit exactly when there are that many pending retries and each of them, on the
      manifest it has at the start, ends in a retry again. */
  lemma ChainRunsToTheEnd(s: State, answers: seq<Answer>)
    requires Distinct(s.retry)
    ensures var pending := PendingOf(s.retry);
      Chain(s, answers, 0).result == MaxCyclesReached(|answers|) <==>
        && 1 <= |answers| <= |pending|
        && forall j :: 0 <= j < |answers| ==> RerouteOf(s.cases, pending[j], answers[j]) == To(Retry)
  {
    ChainExact(s, answers, 0);
    assert answers[0..] == answers;
  }

  /** When the only pending retry ends in a retry, the second cycle finds no retry: the driver returns
      nothing, unless another queue has work. */
  lemma OneRetryOnly(s: State, answers: seq<Answer>)
    requires Distinct(s.retry) && |PendingOf(s.retry)| == 1 && |answers| >= 2
    requires RerouteOf(s.cases, PendingOf(s.retry)[0], answers[0]) == To(Retry)
    ensures Chain(s, answers, 0).trips == 2
    ensures Chain(s, answers, 0).result == if OthersPending(s) then Stopped(NoReroute, 2) else NoResult
  {
    ChainExact(s, answers, 0);
    assert answers[0..] == answers;
  }

  /** With a streak of one or more, the first retry pending goes on to a second cycle exactly when its
      apply fails for want of the target file over a stored retry, and nothing else stands against it. */
  lemma ChainStopsAtOnce(s: State, answers: seq<Answer>)
    requires Distinct(s.retry) && PendingOf(s.retry) != [] && PendingOf(s.retry)[0] in s.cases && |answers| >= 1
    requires s.cases[PendingOf(s.retry)[0]].record.streak >= 1
    ensures var a := answers[0];
      Chain(s, answers, 0).trips > 1 <==>
        && |answers| >= 2 && a.armed && a.verified && Silent(a.evidence)
        && FailedOverRetry(s.cases[PendingOf(s.retry)[0]], a.applying)
  {
    RetryCycle(s.cases, PendingOf(s.retry)[0], answers[0]);
    SecondCycle(s, answers);
  }

  lemma SecondCycle(s: State, answers: seq<Answer>)
    requires Distinct(s.retry) && PendingOf(s.retry) != [] && |answers| >= 1
    ensures Chain(s, answers, 0).trips > 1 <==>
      |answers| >= 2 && RerouteOf(s.cases, PendingOf(s.retry)[0], answers[0]) == To(Retry)
  {
    ChainExact(s, answers, 0);
    assert answers[0..] == answers;
  }

  /** The closed-loop commands with these answers. */
  function Trips(answers: seq<Answer>): seq<Event> {
    if answers == [] then [] else [ClosedLoopCommand(answers[0])] + Trips(answers[1..])
  }

  /** Either the driver goes on from the state after the trip, or that is where it ends. */
  lemma NextState(s: State, answers: seq<Answer>, k: nat) returns (t: State, goesOn: bool)
    requires k < |answers|
    ensures t == Trip(s, answers[k]).state
    ensures goesOn ==> Chain(s, answers, k) == Chain(t, answers, k + 1)
    ensures !goesOn ==> Chain(s, answers, k).state == t && Chain(s, answers, k).trips == k + 1
  {
    var trip := Trip(s, answers[k]);
    t, goesOn := trip.state, trip.worked && trip.reroute == To(Retry);
  }

  lemma RunStep(s: State, t: State, answers: seq<Answer>)
    requires answers != [] && t == Trip(s, answers[0]).state
    ensures Run(s, Trips(answers)) == Run(t, Trips(answers[1..]))
  {
    assert Trips(answers)[0] == ClosedLoopCommand(answers[0]) && Trips(answers)[1..] == Trips(answers[1..]);
  }

  lemma RunFrom(s: State, t: State, answers: seq<Answer>, k: nat, n: nat)
    requires k < n <= |answers| && t == Trip(s, answers[k]).state
    ensures Run(s, Trips(answers[k..n])) == Run(t, Trips(answers[k + 1..n]))
  {
    var taken := answers[k..n];
    assert taken[0] == answers[k] && taken[1..] == answers[k + 1..n];
    RunStep(s, t, taken);
  }

  /** The driver has run the closed loop from cycle k to its last trip. */
  predicate IsRun(c: ChainEnd, s: State, answers: seq<Answer>, k: nat) {
    k <= c.trips <= |answers| && c.state == Run(s, Trips(answers[k..c.trips]))
  }

  lemma {:induction false} ChainRuns(s: State, answers: seq<Answer>, k: nat)
    requires k <= |answers|
    ensures IsRun(Chain(s, answers, k), s, answers, k)
    decreases |answers| - k
  {
    if k < |answers| {
      var t, goesOn := NextState(s, answers, k);
      if goesOn {
        ChainRuns(t, answers, k + 1);
        OneMoreTrip(Chain(t, answers, k + 1), s, t, answers, k);
      } else {
        assert answers[k + 1..k + 1] == [];
        RunFrom(s, t, answers, k, k + 1);
      }
    } else {
      assert answers[k..k] == [];
    }
  }

  lemma OneMoreTrip(c: ChainEnd, s: State, t: State, answers: seq<Answer>, k: nat)
    requires k < |answers| && t == Trip(s, answers[k]).state && IsRun(c, t, answers, k + 1)
    ensures IsRun(c, s, answers, k)
  {
    RunFrom(s, t, answers, k, c.trips);
  }

  /** The driver is a run of the closed loop. */
  lemma ChainIsRun(s: State, answers: seq<Answer>)
    ensures var c := Chain(s, answers, 0);
      c.trips <= |answers| && c.state == Run(s, Trips(answers[..c.trips]))
  {
    ChainRuns(s, answers, 0);
    var n := Chain(s, answers, 0).trips;
    assert answers[0..n] == answers[..n];
  }

  /** While the manifest of the first pending retry is gone, every trip takes that entry again and
      changes nothing: the entries behind it and the other queues wait. */
  lemma {:induction false} MissingBlocks(s: State, answers: seq<Answer>)
    requires PendingOf(s.retry) != [] && PendingOf(s.retry)[0] !in s.cases
    ensures Run(s, Trips(answers)) == s
    ensures answers != [] ==> Chain(s, answers, 0).result == Stopped(NoReroute, 1)
    decreases |answers|
  {
    if answers != [] {
      FirstOfPending(s.retry);
      assert Trip(s, answers[0]) == TripEnd(s, true, NoReroute);
      MissingBlocks(s, answers[1..]);
      RunStep(s, s, answers);
    }
  }

  // ---------------------------------------------------------------------------
  // The streak
  // ---------------------------------------------------------------------------

  /** What the policy decides on the second of two outcomes. */
  lemma TwoOutcomes(r: Record, o: Outcome, next: Outcome)
    ensures LastDecision(r, [o, next]) == After(After(r, o).1, next).0
  {
    assert [o, next][..1] == [o] && [o][..0] == [];
    assert Final(r, [o]) == After(Final(r, []), o).1;
  }

  /** The closed loop writes back the counters it started with. The next decision on the manifest is
      nevertheless the policy's, unless that next apply is rolled back and either the trip rolled back
      with no streak, or it ended one. */
  lemma StreakLost(s: State, a: Answer, c: Candidate, next: Outcome)
    requires Take(s, a.armed) == Took(Retry, c, true) && a.Applies() && a.applying.Ran?
    ensures c in Trip(s, a).state.cases && c in s.cases
    ensures var r := s.cases[c].record;
      After(Trip(s, a).state.cases[c].record, next).0 == LastDecision(r, [a.applying.outcome, next]) <==>
        (next == RolledBack ==> (r.streak >= 1 <==> a.applying.outcome == RolledBack))
  {
    TripKeepsRecords(s, a, c);
    TwoOutcomes(s.cases[c].record, a.applying.outcome, next);
  }

  const QUIET := Evidence(false, false, false, 0, false)

  /** A rollback that was routed: candidate 0 has a streak of one and a pending retry. */
  const ROUTED := [Generate(0), ApplyCommand(0, Ran(RolledBack)), RouteCommand(0, QUIET)]

  lemma {:induction false} RunAppend(s: State, run: seq<Event>, e: Event)
    ensures Run(s, run + [e]) == Step(Run(s, run), e)
    decreases |run|
  {
    if run == [] {
      assert ([] + [e])[1..] == [];
    } else {
      RunAppend(Step(s, run[0]), run[1..], e);
      assert (run + [e])[1..] == run[1..] + [e];
    }
  }

  const STREAK_OF_ONE := Case(Record(1, 1), Some(Retry))

  lemma RoutedState()
    ensures Run(START, ROUTED) == State(map[0 := STREAK_OF_ONE], [Entry(0, false)], [], [], [])
  {
    RunAppend(START, [], ROUTED[0]);
    RunAppend(START, [ROUTED[0]], ROUTED[1]);
    RunAppend(START, [ROUTED[0], ROUTED[1]], ROUTED[2]);
    assert ROUTED == [ROUTED[0], ROUTED[1]] + [ROUTED[2]];
    assert Run(START, [ROUTED[0]]).cases == map[0 := Case(Record(0, 0), None)];
    assert Run(START, [ROUTED[0], ROUTED[1]]).cases == map[0 := STREAK_OF_ONE];
  }

  /** Where the target file has gone meanwhile: the failed apply over the stored retry is routed to a
      retry again, the driver goes on to a second cycle in spite of the streak, finds its key still
      consumed, and returns nothing. */
  lemma GoesOnOverMissingTarget(second: Answer)
    ensures var c := Chain(Run(START, ROUTED), [Answer(true, true, TargetMissing, QUIET), second], 0);
      c.result == NoResult && c.trips == 2
  {
    RoutedState();
    var s, answers := Run(START, ROUTED), [Answer(true, true, TargetMissing, QUIET), second];
    assert PendingOf(s.retry) == [0];
    RetryCycle(s.cases, 0, answers[0]);
    OneRetryOnly(s, answers);
  }

  /** The trip that consumes the routed retry, with an apply that ends in o. */
  function RetryTrips(o: Outcome): Answer {
    Answer(true, true, Ran(o), QUIET)
  }

  /** The retry succeeds, but the manifest keeps its streak: the next rollback is aborted where the
      policy allows a retry. */
  lemma AbortsTooEarly()
    ensures var s := Run(START, ROUTED + [ClosedLoopCommand(RetryTrips(Applied))]);
      && 0 in s.cases && After(s.cases[0].record, RolledBack).0 == Abort
      && LastDecision(Record(0, 0), [RolledBack, Applied, RolledBack]) == Retry
  {
    RoutedState();
    var s, a := Run(START, ROUTED), RetryTrips(Applied);
    RunAppend(START, ROUTED, ClosedLoopCommand(a));
    TripKeepsRecords(s, a, 0);
    RetryOnceThenAbort([RolledBack, Applied, RolledBack], 2, 0);
    assert [RolledBack, Applied, RolledBack][..3] == [RolledBack, Applied, RolledBack];
  }

  /** A blocked apply ends the streak before the retry is consumed; the retry is rolled back, the
      manifest keeps no streak, and the next rollback is allowed a retry where the policy aborts. */
  lemma RetriesOnceMore()
    ensures var run := ROUTED + [ApplyCommand(0, Ran(Blocked))] + [ClosedLoopCommand(RetryTrips(RolledBack))];
      var s := Run(START, run);
      && 0 in s.cases && After(s.cases[0].record, RolledBack).0 == Retry
      && LastDecision(Record(0, 0), [RolledBack, Blocked, RolledBack, RolledBack]) == Abort
  {
    RoutedState();
    var blocked, a := ROUTED + [ApplyCommand(0, Ran(Blocked))], RetryTrips(RolledBack);
    RunAppend(START, ROUTED, ApplyCommand(0, Ran(Blocked)));
    RunAppend(START, blocked, ClosedLoopCommand(a));
    TripKeepsRecords(Run(START, blocked), a, 0);
    var outcomes := [RolledBack, Blocked, RolledBack, RolledBack];
    RetryOnceThenAbort(outcomes, 3, 0);
    assert outcomes[..4] == outcomes;
  }
}
