/** The refiner queue of scripts/hermes_watch.py as a state machine: entries are executed and
    prepared, dispatched, bridged, launched, verified and given a failure policy, in any
    interleaving.

    Which matching entry a step picks depends on weights outside the model, so a run may pick any;
    what happens in the shell (is the script there, its exit code, what a probe finds, which policy
    is decided) is part of the step. */
module Refiner {

  /** The values the status fields take; Unset is a missing key. */
  datatype Mark =
    | Unset | Recorded | Completed | Skipped | SkippedFor | Failed | Prepared | Ready | Dispatched | Armed | Launched
    | Succeeded | Verified | Unverified | Retry | Escalate | Resolved

  datatype Lifecycle =
    | NoLifecycle | Unknown | FailedEntry | SkippedEntry | Queued | Planned | OrchestrationPrepared | DispatchReady
    | BridgeFailed | BridgeArmed | LaunchFailed | LaunchSucceeded | VerificationFailed | VerifiedEntry
    | RetryRequested | Escalated

  /** The fields of an entry that the steps read or write. reviewOnly: the entry lives in the
      registry of duplicate crash reviews, which the failure policy does not look at. */
  datatype State = State(
    status: Mark, orchestration: Mark, dispatch: Mark, bridge: Mark, launch: Mark,
    verification: Mark, policy: Mark, lifecycle: Lifecycle, reviewOnly: bool)

  /** derive_refiner_lifecycle */
  function Derive(s: State): Lifecycle {
    if s.policy == Escalate then Escalated
    else if s.policy == Retry then RetryRequested
    else if s.verification == Verified then VerifiedEntry
    else if s.verification == Unverified then VerificationFailed
    else if s.launch == Succeeded then LaunchSucceeded
    else if s.launch == Failed then LaunchFailed
    else if s.bridge == Armed then BridgeArmed
    else if s.bridge == Failed then BridgeFailed
    else if s.bridge == Succeeded then LaunchSucceeded
    else if s.dispatch == Ready then DispatchReady
    else if s.orchestration == Prepared then OrchestrationPrepared
    else if s.status == Recorded then Queued
    else if s.status == Completed then Planned
    else if s.status == Skipped || s.status == SkippedFor then SkippedEntry
    else if s.status == Failed then FailedEntry
    else Unknown
  }

  /** A step on one entry: execute_next_refiner_action alone, prepare_next_refiner_orchestration (which
      executes first), and the others; the arguments are what the outside world answers. */
  datatype Action =
    | Execute
    | Prepare
    | Dispatch
    | Bridge
    | Launch(scriptExists: bool, exitCode: int)
    | Verify(found: bool)
    | Policy(retry: bool)

  /** The entry matches the step's selection. */
  predicate Enabled(s: State, a: Action) {
    match a
    case Execute => s.status !in {Completed, Skipped}
    case Prepare => s.status !in {Completed, Skipped}
    case Dispatch => s.orchestration == Prepared && s.dispatch !in {Ready, Dispatched, Completed, Skipped}
    case Bridge => s.dispatch == Ready && s.bridge !in {Armed, Launched, Completed, Skipped}
    case Launch(_, _) => s.bridge == Armed && s.launch !in {Succeeded, Failed, Completed, Skipped}
    case Verify(_) => s.bridge == Succeeded && s.verification !in {Verified, Unverified, Failed, Skipped}
    case Policy(_) => !s.reviewOnly && s.verification == Unverified && s.policy !in {Retry, Escalate, Resolved, Skipped}
  }

  /** The entry after the step, before its lifecycle is brought up to date. */
  function Written(s: State, a: Action): State {
    match a
    case Execute => s.(status := Completed)
    case Prepare => s.(status := Completed, orchestration := Prepared)
    case Dispatch => s.(dispatch := Ready)
    case Bridge => s.(bridge := Armed)
    case Launch(there, code) => var r := if there && code == 0 then Succeeded else Failed; s.(bridge := r, launch := r)
    case Verify(found) => s.(verification := if found then Verified else Unverified)
    case Policy(retry) => s.(policy := if retry then Retry else Escalate)
  }

  function After(s: State, a: Action): State {
    var t := Written(s, a);
    t.(lifecycle := Derive(t))
  }

  // ---------------------------------------------------------------------------
  // Entries as the program updates them
  // ---------------------------------------------------------------------------

  class Entry {
    var status: Mark
    var orchestration: Mark
    var dispatch: Mark
    var bridge: Mark
    var launch: Mark
    var verification: Mark
    var policy: Mark
    var lifecycle: Lifecycle
    const reviewOnly: bool

    ghost function View(): State
      reads this
    {
      State(status, orchestration, dispatch, bridge, launch, verification, policy, lifecycle, reviewOnly)
    }

    /** A new queue entry. */
    constructor (reviewOnly: bool)
      ensures View() == Fresh(reviewOnly)
    {
      status, orchestration, dispatch, bridge, launch, verification, policy := Recorded, Unset, Unset, Unset, Unset,
        Unset, Unset;
      lifecycle := NoLifecycle;
      this.reviewOnly := reviewOnly;
    }

    /** sync_refiner_lifecycle */
    method Sync()
      modifies this
      ensures View() == old(View()).(lifecycle := Derive(old(View())))
    {
      lifecycle :=
        if policy == Escalate then Escalated
        else if policy == Retry then RetryRequested
        else if verification == Verified then VerifiedEntry
        else if verification == Unverified then VerificationFailed
        else if launch == Succeeded then LaunchSucceeded
        else if launch == Failed then LaunchFailed
        else if bridge == Armed then BridgeArmed
        else if bridge == Failed then BridgeFailed
        else if bridge == Succeeded then LaunchSucceeded
        else if dispatch == Ready then DispatchReady
        else if orchestration == Prepared then OrchestrationPrepared
        else if status == Recorded then Queued
        else if status == Completed then Planned
        else if status == Skipped || status == SkippedFor then SkippedEntry
        else if status == Failed then FailedEntry
        else Unknown;
    }

    method DoExecute() returns (done: bool)
      modifies this
      ensures done == Enabled(old(View()), Execute)
      ensures View() == if done then After(old(View()), Execute) else old(View())
    {
      done := status !in {Completed, Skipped};
      if done {
        status := Completed;
        Sync();
      }
    }

    method DoPrepare() returns (done: bool)
      modifies this
      ensures done == Enabled(old(View()), Prepare)
      ensures View() == if done then After(old(View()), Prepare) else old(View())
    {
      done := DoExecute();
      if done {
        orchestration := Prepared;
        Sync();
      }
    }

    method DoDispatch() returns (done: bool)
      modifies this
      ensures done == Enabled(old(View()), Dispatch)
      ensures View() == if done then After(old(View()), Dispatch) else old(View())
    {
      done := orchestration == Prepared && dispatch !in {Ready, Dispatched, Completed, Skipped};
      if done {
        dispatch := Ready;
        Sync();
      }
    }

    method DoBridge() returns (done: bool)
      modifies this
      ensures done == Enabled(old(View()), Bridge)
      ensures View() == if done then After(old(View()), Bridge) else old(View())
    {
      done := dispatch == Ready && bridge !in {Armed, Launched, Completed, Skipped};
      if done {
        bridge := Armed;
        Sync();
      }
    }

    method DoLaunch(scriptExists: bool, exitCode: int) returns (done: bool)
      modifies this
      ensures done == Enabled(old(View()), Launch(scriptExists, exitCode))
      ensures View() == if done then After(old(View()), Launch(scriptExists, exitCode)) else old(View())
    {
      done := bridge == Armed && launch !in {Succeeded, Failed, Completed, Skipped};
      if done {
        if !scriptExists {
          bridge := Failed;
          launch := Failed;
        } else {
          bridge := if exitCode == 0 then Succeeded else Failed;
          launch := bridge;
        }
        Sync();
      }
    }

    method DoVerify(found: bool) returns (done: bool)
      modifies this
      ensures done == Enabled(old(View()), Verify(found))
      ensures View() == if done then After(old(View()), Verify(found)) else old(View())
    {
      done := bridge == Succeeded && verification !in {Verified, Unverified, Failed, Skipped};
      if done {
        verification := if found then Verified else Unverified;
        Sync();
      }
    }

    method DoPolicy(retry: bool) returns (done: bool)
      modifies this
      ensures done == Enabled(old(View()), Policy(retry))
      ensures View() == if done then After(old(View()), Policy(retry)) else old(View())
    {
      done := !reviewOnly && verification == Unverified && policy !in {Retry, Escalate, Resolved, Skipped};
      if done {
        policy := if retry then Retry else Escalate;
        Sync();
      }
    }
  }

  // ---------------------------------------------------------------------------
  // Runs
  // ---------------------------------------------------------------------------

  function Fresh(reviewOnly: bool): State {
    State(Recorded, Unset, Unset, Unset, Unset, Unset, Unset, NoLifecycle, reviewOnly)
  }

  /** Something that happens to the queue: a new entry, or a successful step on entry i. */
  datatype Event = Add(reviewOnly: bool) | On(i: nat, action: Action)

  predicate Possible(q: seq<State>, e: Event) {
    e.On? ==> e.i < |q| && Enabled(q[e.i], e.action)
  }

  function Next(q: seq<State>, e: Event): seq<State>
    requires Possible(q, e)
  {
    if e.Add? then q + [Fresh(e.reviewOnly)] else q[e.i := After(q[e.i], e.action)]
  }

  /** The events can happen one after another. */
  predicate Run(q: seq<State>, events: seq<Event>)
    decreases |events|
  {
    events == [] || (Possible(q, events[0]) && Run(Next(q, events[0]), events[1..]))
  }

  function Final(q: seq<State>, events: seq<Event>): seq<State>
    requires Run(q, events)
    decreases |events|
  {
    if events == [] then q else Final(Next(q, events[0]), events[1..])
  }

  // ---------------------------------------------------------------------------
  // The invariant
  // ---------------------------------------------------------------------------

  /** What holds of every entry at every moment of every run. */
  predicate Inv(s: State) {
    && s.status in {Recorded, Completed} && s.orchestration in {Unset, Prepared} && s.dispatch in {Unset, Ready}
    && s.bridge in {Unset, Armed, Succeeded, Failed} && s.launch in {Unset, Succeeded, Failed}
    && s.verification in {Unset, Verified, Unverified} && s.policy in {Unset, Retry, Escalate}
    // each stage presupposes the one before
    && (s.orchestration == Prepared ==> s.status == Completed)
    && (s.dispatch == Ready ==> s.orchestration == Prepared)
    && (s.bridge != Unset ==> s.dispatch == Ready)
    && (s.launch != Unset ==> s.bridge != Unset)
    && (s.bridge in {Succeeded, Failed} ==> s.launch == s.bridge)
    && (s.verification != Unset ==> s.launch == Succeeded)
    && (s.policy != Unset ==> s.verification == Unverified && !s.reviewOnly)
    // the lifecycle is in step, once anything has happened to the entry
    && (s.lifecycle == Derive(s) || s == Fresh(s.reviewOnly))
  }

  lemma StepKeepsInv(s: State, a: Action)
    requires Inv(s) && Enabled(s, a)
    ensures Inv(After(s, a)) && After(s, a).lifecycle == Derive(After(s, a))
  {
  }

  predicate AllInv(q: seq<State>) {
    forall i :: 0 <= i < |q| ==> Inv(q[i])
  }

  lemma NextKeepsInv(q: seq<State>, e: Event)
    requires AllInv(q) && Possible(q, e)
    ensures AllInv(Next(q, e))
  {
    if e.On? {
      StepKeepsInv(q[e.i], e.action);
    }
  }

  /** The invariant holds after every run that starts from fresh entries, or from any queue where it
      holds. */
  lemma {:induction false} RunKeepsInv(q: seq<State>, events: seq<Event>)
    requires AllInv(q) && Run(q, events)
    ensures AllInv(Final(q, events))
    decreases |events|
  {
    if events != [] {
      NextKeepsInv(q, events[0]);
      RunKeepsInv(Next(q, events[0]), events[1..]);
    }
  }

  /** In every reachable queue: verified or unverified implies launched successfully, which implies
      dispatched, prepared and completed; and the lifecycle of a touched entry is the derived one. */
  lemma Ordering(q: seq<State>, events: seq<Event>, i: nat)
    requires (forall k :: 0 <= k < |q| ==> q[k] == Fresh(q[k].reviewOnly)) && Run(q, events) && i < |Final(q, events)|
    ensures var s := Final(q, events)[i];
      && (s.policy in {Retry, Escalate} ==> s.verification == Unverified)
      && (s.verification in {Verified, Unverified} ==> s.launch == Succeeded)
      && (s.launch in {Succeeded, Failed} ==>
          s.dispatch == Ready && s.orchestration == Prepared && s.status == Completed)
      && (s != Fresh(s.reviewOnly) ==> s.lifecycle == Derive(s))
  {
    RunKeepsInv(q, events);
  }

  // ---------------------------------------------------------------------------
  // Progress
  // ---------------------------------------------------------------------------

  function Rank(l: Lifecycle): nat {
    match l
    case NoLifecycle => 0
    case Unknown => 0
    case FailedEntry => 0
    case SkippedEntry => 0
    case Queued => 0
    case Planned => 1
    case OrchestrationPrepared => 2
    case DispatchReady => 3
    case BridgeFailed => 4
    case BridgeArmed => 4
    case LaunchFailed => 5
    case LaunchSucceeded => 5
    case VerificationFailed => 6
    case VerifiedEntry => 6
    case RetryRequested => 7
    case Escalated => 7
  }

  /** No step lowers the rank: not even bridging a launched entry again. Every other step raises it. */
  lemma RankRises(s: State, a: Action)
    requires Inv(s) && Enabled(s, a)
    ensures Rank(After(s, a).lifecycle) >= Rank(s.lifecycle)
    ensures Rank(After(s, a).lifecycle) > Rank(s.lifecycle) || (a == Bridge && s.launch != Unset)
  {
  }

  lemma {:induction false} RankNeverFalls(q: seq<State>, events: seq<Event>, i: nat)
    requires AllInv(q) && Run(q, events) && i < |q|
    ensures i < |Final(q, events)| && Rank(Final(q, events)[i].lifecycle) >= Rank(q[i].lifecycle)
    decreases |events|
  {
    if events != [] {
      NextKeepsInv(q, events[0]);
      if events[0].On? && events[0].i == i {
        RankRises(q[i], events[0].action);
      }
      RankNeverFalls(Next(q, events[0]), events[1..], i);
    }
  }

  // ---------------------------------------------------------------------------
  // Bounded work
  // ---------------------------------------------------------------------------

  datatype Kind = Planning | Dispatching | Bridging | Launching | Verifying | Deciding

  function KindOf(a: Action): Kind {
    match a
    case Execute => Planning
    case Prepare => Planning
    case Dispatch => Dispatching
    case Bridge => Bridging
    case Launch(_, _) => Launching
    case Verify(_) => Verifying
    case Policy(_) => Deciding
  }

  /** How many steps of a kind an entry still has in it. */
  function Budget(s: State, k: Kind): nat {
    match k
    case Planning => if s.status == Completed then 0 else 1
    case Dispatching => if s.dispatch == Ready then 0 else 1
    case Bridging => if s.bridge == Unset then 2 else if s.bridge == Armed && s.launch != Unset then 0 else 1
    case Launching => if s.launch == Unset then 1 else 0
    case Verifying => if s.verification == Unset then 1 else 0
    case Deciding => if s.policy == Unset then 1 else 0
  }

  /** A step spends one of its kind and nothing of any other kind. */
  lemma StepSpends(s: State, a: Action, k: Kind)
    requires Inv(s) && Enabled(s, a)
    ensures Budget(After(s, a), k) == Budget(s, k) - (if KindOf(a) == k then 1 else 0)
  {
  }

  /** The number of steps of kind k on entry i. */
  function Count(events: seq<Event>, i: nat, k: Kind): nat {
    if events == [] then 0
    else
      var one := if events[0].On? && events[0].i == i && KindOf(events[0].action) == k then 1 else 0;
      one + Count(events[1..], i, k)
  }

  /** The steps of a kind on an entry are exactly what its budget has lost. */
  lemma {:induction false} CountIsSpent(q: seq<State>, events: seq<Event>, i: nat, k: Kind)
    requires AllInv(q) && Run(q, events) && i < |q|
    ensures i < |Final(q, events)| && Count(events, i, k) == Budget(q[i], k) - Budget(Final(q, events)[i], k)
    decreases |events|
  {
    if events != [] {
      NextKeepsInv(q, events[0]);
      if events[0].On? && events[0].i == i {
        StepSpends(q[i], events[0].action, k);
      }
      CountIsSpent(Next(q, events[0]), events[1..], i, k);
    }
  }

  /** Over any run an entry is planned, dispatched, launched, verified and judged at most once, and
      bridged at most twice. */
  lemma AtMost(q: seq<State>, events: seq<Event>, i: nat)
    requires AllInv(q) && Run(q, events) && i < |q|
    ensures Count(events, i, Planning) <= 1 && Count(events, i, Dispatching) <= 1 && Count(events, i, Launching) <= 1
    ensures Count(events, i, Verifying) <= 1 && Count(events, i, Deciding) <= 1 && Count(events, i, Bridging) <= 2
  {
    CountIsSpent(q, events, i, Planning);
    CountIsSpent(q, events, i, Dispatching);
    CountIsSpent(q, events, i, Launching);
    CountIsSpent(q, events, i, Verifying);
    CountIsSpent(q, events, i, Deciding);
    CountIsSpent(q, events, i, Bridging);
  }

  /** Steps left in an entry, and in a queue. */
  function Left(s: State): nat {
    Budget(s, Planning) + Budget(s, Dispatching) + Budget(s, Bridging) + Budget(s, Launching) + Budget(s, Verifying) +
      Budget(s, Deciding)
  }

  function TotalLeft(q: seq<State>): nat {
    if q == [] then 0 else TotalLeft(q[..|q| - 1]) + Left(q[|q| - 1])
  }

  function Steps(events: seq<Event>): nat {
    if events == [] then 0 else (if events[0].On? then 1 else 0) + Steps(events[1..])
  }

  function Added(events: seq<Event>): nat {
    if events == [] then 0 else (if events[0].Add? then 1 else 0) + Added(events[1..])
  }

  lemma StepSpendsOne(s: State, a: Action)
    requires Inv(s) && Enabled(s, a)
    ensures Left(After(s, a)) == Left(s) - 1
  {
    StepSpends(s, a, Planning);
    StepSpends(s, a, Dispatching);
    StepSpends(s, a, Bridging);
    StepSpends(s, a, Launching);
    StepSpends(s, a, Verifying);
    StepSpends(s, a, Deciding);
  }

  lemma {:induction false} UpdateTotal(q: seq<State>, i: nat, s: State)
    requires i < |q|
    ensures TotalLeft(q[i := s]) == TotalLeft(q) - Left(q[i]) + Left(s)
  {
    var n := |q| - 1;
    if i == n {
      assert q[i := s][..n] == q[..n];
    } else {
      UpdateTotal(q[..n], i, s);
      assert q[i := s][..n] == q[..n][i := s];
    }
  }

  lemma NextTotal(q: seq<State>, e: Event)
    requires AllInv(q) && Possible(q, e)
    ensures TotalLeft(Next(q, e)) == TotalLeft(q) + if e.Add? then 7 else -1
  {
    if e.On? {
      StepSpendsOne(q[e.i], e.action);
      UpdateTotal(q, e.i, After(q[e.i], e.action));
    } else {
      assert Next(q, e)[..|q|] == q;
    }
  }

  /** Every step is paid for: what is left at the end, plus the steps taken, is what there was plus
      seven for each added entry. */
  lemma {:induction false} StepsArePaid(q: seq<State>, events: seq<Event>)
    requires AllInv(q) && Run(q, events)
    ensures TotalLeft(Final(q, events)) + Steps(events) == TotalLeft(q) + 7 * Added(events)
    decreases |events|
  {
    if events != [] {
      NextKeepsInv(q, events[0]);
      NextTotal(q, events[0]);
      StepsArePaid(Next(q, events[0]), events[1..]);
    }
  }

  lemma {:induction false} AtMostSeven(q: seq<State>)
    requires AllInv(q)
    ensures TotalLeft(q) <= 7 * |q|
  {
    if q != [] {
      AtMostSeven(q[..|q| - 1]);
    }
  }

  /** Any run over n entries, with m more added on the way, makes at most 7 * (n + m) successful steps. */
  lemma BoundedWork(q: seq<State>, events: seq<Event>)
    requires AllInv(q) && Run(q, events)
    ensures Steps(events) <= 7 * (|q| + Added(events))
  {
    StepsArePaid(q, events);
    AtMostSeven(q);
  }

  // ---------------------------------------------------------------------------
  // What bridging again costs
  // ---------------------------------------------------------------------------

  /** An entry that was launched and then bridged again before it was verified. */
  predicate Stuck(s: State) {
    s.bridge == Armed && s.launch != Unset && s.verification == Unset
  }

  /** A successful launch can be verified exactly until the entry is bridged again. */
  lemma VerifiableUntilRebridged(s: State, found: bool)
    requires Inv(s) && s.launch == Succeeded && s.verification == Unset
    ensures Enabled(s, Verify(found)) <==> !Stuck(s)
    ensures Enabled(s, Verify(found)) ==> Enabled(s, Bridge) && Stuck(After(s, Bridge))
  {
  }

  /** After that it stays as it is for good: no step of any run touches it. */
  lemma {:induction false} StuckForGood(q: seq<State>, events: seq<Event>, i: nat)
    requires AllInv(q) && Run(q, events) && i < |q| && Stuck(q[i])
    ensures i < |Final(q, events)| && Final(q, events)[i] == q[i]
    decreases |events|
  {
    if events != [] {
      NextKeepsInv(q, events[0]);
      assert !(events[0].On? && events[0].i == i);
      StuckForGood(Next(q, events[0]), events[1..], i);
    }
  }

  // ---------------------------------------------------------------------------
  // The history of an entry
  // ---------------------------------------------------------------------------

  /** The steps made on entry i, in order. */
  function History(events: seq<Event>, i: nat): seq<Action> {
    if events == [] then []
    else
      (if events[0].On? && events[0].i == i then [events[0].action] else []) + History(events[1..], i)
  }

  /** The steps can be made one after another on an entry. */
  predicate Walk(s: State, h: seq<Action>)
    decreases |h|
  {
    h == [] || (Enabled(s, h[0]) && Walk(After(s, h[0]), h[1..]))
  }

  function End(s: State, h: seq<Action>): State
    decreases |h|
  {
    if h == [] then s else End(After(s, h[0]), h[1..])
  }

  /** Steps on one entry leave every other entry alone. */
  lemma {:induction false} EntryWalks(q: seq<State>, events: seq<Event>, i: nat)
    requires Run(q, events) && i < |q|
    ensures i < |Final(q, events)| && Walk(q[i], History(events, i))
    ensures Final(q, events)[i] == End(q[i], History(events, i))
    decreases |events|
  {
    if events != [] {
      EntryWalks(Next(q, events[0]), events[1..], i);
      if events[0].On? && events[0].i == i {
        var rest := History(events[1..], i);
        assert ([events[0].action] + rest)[1..] == rest;
      } else {
        assert [] + History(events[1..], i) == History(events[1..], i);
      }
    }
  }

  /** So does an entry that is added on the way. */
  lemma {:induction false} AddedWalks(q: seq<State>, events: seq<Event>, i: nat) returns (reviewOnly: bool)
    requires Run(q, events) && |q| <= i < |Final(q, events)|
    ensures Walk(Fresh(reviewOnly), History(events, i))
    ensures Final(q, events)[i] == End(Fresh(reviewOnly), History(events, i))
    decreases |events|
  {
    var next := Next(q, events[0]);
    assert [] + History(events[1..], i) == History(events[1..], i);
    if i < |next| {
      EntryWalks(next, events[1..], i);
      reviewOnly := events[0].reviewOnly;
    } else {
      reviewOnly := AddedWalks(next, events[1..], i);
    }
  }

  /** What can follow a verification that found what it looked for, or not. */
  predicate AfterVerify(t: seq<Action>, found: bool, reviewOnly: bool) {
    || t == [] || t == [Bridge]
    || (!found && !reviewOnly && |t| == 1 && t[0].Policy?)
    || (!found && !reviewOnly && |t| == 2 && t[0].Policy? && t[1] == Bridge)
    || (!found && !reviewOnly && |t| == 2 && t[0] == Bridge && t[1].Policy?)
  }

  /** What can follow a launch that succeeded, or not. */
  predicate AfterLaunch(t: seq<Action>, succeeded: bool, reviewOnly: bool) {
    t == [] || t == [Bridge] || (succeeded && t[0].Verify? && AfterVerify(t[1..], t[0].found, reviewOnly))
  }

  /** What can follow the first bridging. */
  predicate AfterBridge(t: seq<Action>, reviewOnly: bool) {
    t == [] || (t[0].Launch? && AfterLaunch(t[1..], t[0].scriptExists && t[0].exitCode == 0, reviewOnly))
  }

  /** The histories an entry can have. */
  predicate Legal(h: seq<Action>, reviewOnly: bool) {
    || h == [] || h == [Execute] || h == [Prepare] || h == [Prepare, Dispatch]
    || (|h| > 2 && h[0] == Prepare && h[1] == Dispatch && h[2] == Bridge && AfterBridge(h[3..], reviewOnly))
  }

  /** No step is left. */
  lemma Over(s: State, h: seq<Action>)
    requires Inv(s) && s.status == Completed && (s.orchestration == Prepared ==> s.dispatch == Ready)
    requires s.dispatch == Ready ==> s.bridge == Armed && s.launch != Unset
    requires s.verification == Unverified ==> s.policy != Unset || s.reviewOnly
    ensures Walk(s, h) <==> h == []
  {
  }

  lemma FromJudged(s: State, t: seq<Action>)
    requires Inv(s) && s.verification != Unset && s.bridge == Succeeded
    requires s.policy != Unset || s.verification == Verified || s.reviewOnly
    ensures Walk(s, t) <==> t == [] || t == [Bridge]
  {
    if t != [] && Enabled(s, t[0]) {
      Over(After(s, t[0]), t[1..]);
    }
  }

  lemma FromRebridged(s: State, t: seq<Action>)
    requires Inv(s) && s.bridge == Armed && s.verification == Unverified && s.policy == Unset && !s.reviewOnly
    ensures Walk(s, t) <==> t == [] || (|t| == 1 && t[0].Policy?)
  {
    if t != [] && Enabled(s, t[0]) {
      Over(After(s, t[0]), t[1..]);
    }
  }

  /** Bridging and the policy, in either order. */
  lemma FromVerified(s: State, t: seq<Action>)
    requires Inv(s) && s.verification != Unset && s.policy == Unset && s.bridge == Succeeded
    ensures Walk(s, t) <==> AfterVerify(t, s.verification == Verified, s.reviewOnly)
  {
    if s.verification == Verified || s.reviewOnly {
      FromJudged(s, t);
    } else if t != [] && t[0] == Bridge {
      FromRebridged(After(s, Bridge), t[1..]);
    } else if t != [] && t[0].Policy? {
      FromJudged(After(s, t[0]), t[1..]);
    }
  }

  /** Bridging, or verifying what succeeded. */
  lemma FromLaunched(s: State, t: seq<Action>)
    requires Inv(s) && s.launch == s.bridge && s.bridge in {Succeeded, Failed} && s.verification == Unset
    ensures Walk(s, t) <==> AfterLaunch(t, s.launch == Succeeded, s.reviewOnly)
  {
    if t != [] && Enabled(s, t[0]) {
      var u := After(s, t[0]);
      StepKeepsInv(s, t[0]);
      if t[0] == Bridge {
        Over(u, t[1..]);
      } else {
        FromVerified(u, t[1..]);
      }
    }
  }

  /** The launch, and what comes after it. */
  lemma FromBridged(s: State, t: seq<Action>)
    requires Inv(s) && s.bridge == Armed && s.launch == Unset
    ensures Walk(s, t) <==> AfterBridge(t, s.reviewOnly)
  {
    if t != [] && t[0].Launch? {
      FromLaunched(After(s, t[0]), t[1..]);
    }
  }

  lemma FromDispatched(s: State, t: seq<Action>)
    requires Inv(s) && s.dispatch == Ready && s.bridge == Unset
    ensures Walk(s, t) <==> t == [] || (t[0] == Bridge && AfterBridge(t[1..], s.reviewOnly))
  {
    if t != [] && t[0] == Bridge {
      FromBridged(After(s, Bridge), t[1..]);
    }
  }

  lemma FromPrepared(s: State, t: seq<Action>)
    requires Inv(s) && s.orchestration == Prepared && s.dispatch == Unset
    ensures Walk(s, t) <==>
      t == [] || t == [Dispatch] ||
      (|t| > 1 && t[0] == Dispatch && t[1] == Bridge && AfterBridge(t[2..], s.reviewOnly))
  {
    if t != [] && t[0] == Dispatch {
      FromDispatched(After(s, Dispatch), t[1..]);
      assert |t| > 1 ==> t[1..][1..] == t[2..];
    }
  }

  /** The histories of an entry are exactly the legal ones. */
  lemma Language(reviewOnly: bool, h: seq<Action>)
    ensures Walk(Fresh(reviewOnly), h) <==> Legal(h, reviewOnly)
  {
    var s := Fresh(reviewOnly);
    if h != [] && h[0] == Prepare {
      FromPrepared(After(s, Prepare), h[1..]);
      assert |h| > 2 ==> h[1..][2..] == h[3..];
    } else if h != [] && h[0] == Execute {
      Over(After(s, Execute), h[1..]);
    }
  }

  // ---------------------------------------------------------------------------
  // What the lifecycle tells
  // ---------------------------------------------------------------------------

  /** What a step leaves in the lifecycle depends on the step alone, except that bridging a launched
      entry again leaves it as it is. */
  lemma StepTells(s: State, a: Action)
    requires Inv(s) && Enabled(s, a)
    ensures var l := After(s, a).lifecycle;
      match a
      case Execute => l == Planned
      case Prepare => l == OrchestrationPrepared
      case Dispatch => l == DispatchReady
      case Bridge => s.bridge != Armed && l == if s.launch == Unset then BridgeArmed else s.lifecycle
      case Launch(there, code) => l == if there && code == 0 then LaunchSucceeded else LaunchFailed
      case Verify(found) => l == if found then VerifiedEntry else VerificationFailed
      case Policy(retry) => l == if retry then RetryRequested else Escalated
  {
  }

  /** Step n of a history left the lifecycle, when it is the last one, or when only bridging again came
      after it. */
  lemma {:induction false} StepLeft(s: State, h: seq<Action>, n: nat) returns (at: State)
    requires Inv(s) && Walk(s, h) && n < |h|
    requires |h| == n + 1 || (|h| == n + 2 && h[n + 1] == Bridge && h[n] !in {Execute, Prepare, Dispatch, Bridge})
    requires h[n] == Bridge ==> s.launch == Unset && forall k :: 0 <= k < n ==> !h[k].Launch?
    ensures Inv(at) && Enabled(at, h[n]) && (h[n] == Bridge ==> at.launch == Unset)
    ensures After(at, h[n]).lifecycle == End(s, h).lifecycle
    decreases |h|
  {
    var t := After(s, h[0]);
    StepKeepsInv(s, h[0]);
    if n > 0 {
      at := StepLeft(t, h[1..], n - 1);
    } else {
      at := s;
      if |h| == 2 {
        StepTells(t, Bridge);
        assert End(t, h[1..]) == After(t, Bridge);
      }
      assert End(s, h) == End(t, h[1..]);
    }
  }

  /** The step to look at: the last one, or the one before when the entry was bridged again. */
  lemma BridgeLast(h: seq<Action>, reviewOnly: bool)
    requires Legal(h, reviewOnly) && h != [] && h[|h| - 1] == Bridge
    ensures |h| > 3 ==> h[|h| - 2] !in {Execute, Prepare, Dispatch, Bridge}
    ensures |h| <= 3 ==> forall k :: 0 <= k < |h| - 1 ==> !h[k].Launch?
  {
    if |h| > 3 {
      assert h[3..][0] == h[3] && h[3..][1..] == h[4..];
      var t := h[4..];
      assert t[|t| - 1] == h[|h| - 1] && (|t| > 1 ==> t[|t| - 2] == h[|h| - 2]);
      assert |t| > 1 ==> t[1..][|t| - 2] == t[|t| - 1] && (|t| > 2 ==> t[1..][|t| - 3] == t[|t| - 2]);
    }
  }

  lemma {:induction false} SameRegistry(s: State, h: seq<Action>)
    ensures End(s, h).reviewOnly == s.reviewOnly
    decreases |h|
  {
    if h != [] {
      SameRegistry(After(s, h[0]), h[1..]);
    }
  }

  /** An entry of a run is a fresh one that was taken through its history. */
  lemma OwnHistory(q: seq<State>, events: seq<Event>, i: nat) returns (s: State)
    requires (forall k :: 0 <= k < |q| ==> q[k] == Fresh(q[k].reviewOnly)) && Run(q, events) && i < |Final(q, events)|
    ensures s == Fresh(Final(q, events)[i].reviewOnly)
    ensures Walk(s, History(events, i)) && Final(q, events)[i] == End(s, History(events, i))
  {
    if i < |q| {
      EntryWalks(q, events, i);
      s := q[i];
    } else {
      var reviewOnly := AddedWalks(q, events, i);
      s := Fresh(reviewOnly);
    }
    SameRegistry(s, History(events, i));
  }

  /** In every run from fresh entries every entry has a legal history, and its lifecycle tells the last
      step of it and what the world answered; bridging again leaves what the step before it told. */
  lemma LifecycleTells(q: seq<State>, events: seq<Event>, i: nat)
    requires (forall k :: 0 <= k < |q| ==> q[k] == Fresh(q[k].reviewOnly)) && Run(q, events) && i < |Final(q, events)|
    ensures Legal(History(events, i), Final(q, events)[i].reviewOnly)
    ensures var h := History(events, i); var l := Final(q, events)[i].lifecycle;
      if h == [] then l == NoLifecycle
      else
        match if |h| > 3 && h[|h| - 1] == Bridge then h[|h| - 2] else h[|h| - 1]
        case Execute => l == Planned
        case Prepare => l == OrchestrationPrepared
        case Dispatch => l == DispatchReady
        case Bridge => l == BridgeArmed
        case Launch(there, code) => l == if there && code == 0 then LaunchSucceeded else LaunchFailed
        case Verify(found) => l == if found then VerifiedEntry else VerificationFailed
        case Policy(retry) => l == if retry then RetryRequested else Escalated
  {
    var h := History(events, i);
    var s := OwnHistory(q, events, i);
    Language(s.reviewOnly, h);
    if h != [] {
      var n := if |h| > 3 && h[|h| - 1] == Bridge then |h| - 2 else |h| - 1;
      if h[|h| - 1] == Bridge {
        BridgeLast(h, s.reviewOnly);
      }
      var at := StepLeft(s, h, n);
      StepTells(at, h[n]);
    }
  }

  /** The steps of a history as events on entry i. */
  function Events(h: seq<Action>, i: nat): seq<Event> {
    if h == [] then [] else [On(i, h[0])] + Events(h[1..], i)
  }

  lemma {:induction false} WalkRuns(q: seq<State>, h: seq<Action>, i: nat)
    requires i < |q|
    ensures Run(q, Events(h, i)) <==> Walk(q[i], h)
    ensures History(Events(h, i), i) == h
    decreases |h|
  {
    if h != [] {
      var events := Events(h, i);
      assert events[1..] == Events(h[1..], i);
      if Enabled(q[i], h[0]) {
        WalkRuns(Next(q, events[0]), h[1..], i);
      } else {
        WalkRuns(q, h[1..], i);
      }
    }
  }

  /** A fresh entry can be taken through a history exactly when it is legal. */
  lemma EveryLegalHistory(q: seq<State>, h: seq<Action>, i: nat)
    requires i < |q| && q[i] == Fresh(q[i].reviewOnly)
    ensures Run(q, Events(h, i)) <==> Legal(h, q[i].reviewOnly)
    ensures History(Events(h, i), i) == h
  {
    WalkRuns(q, h, i);
    Language(q[i].reviewOnly, h);
  }
}
