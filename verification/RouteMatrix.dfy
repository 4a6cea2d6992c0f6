/**
 The route matrix: four routes in order, up to three attempts each, stopping at the first
 attempt that is neither exact nor safely retryable. What an attempt answers, and whether it
 poisons the process, is arbitrary.
 */
module RouteMatrix {
  import opened Common
  import opened RecoveryIds
  import opened TaskRecords

  const ROUTE_COUNT := 4
  const MAX_SAFE_ROUTE_ATTEMPTS := 3

  datatype Mode = InteractiveInitialConsent | ReusedInitialConsent

  datatype Pairs = Pairs(host: Source, docker: Source, candidate: Source, store: Source)

  datatype RouteRecord = RouteRecord(
    route: nat,                      // the route whose profile, providers and paths the record carries
    completed: bool,                 // the completed contract with exact content and discarded candidate
    contentMismatch: bool,           // blocked by a candidate content mismatch, candidate discarded
    authorizationMode: Option<Mode>,
    release: Option<string>, execution: Option<string>,   // the identities, when well-formed
    cleanupConfirmed: Flag, manualRecoveryRequired: Flag, processRestartRequired: Flag, effectStateUnknown: Flag,
    canonicalRepositoryChanged: Flag, rawProviderOutputReported: Flag, hostPathReported: Flag, credentialReported: Flag,
    recovery: Pairs, recoveryIdentityAmbiguous: Flag)

  predicate EmptyPair(s: Source) {
    s.singular == Null && s.plural == Items([])
  }

  predicate NoRecovery(r: RouteRecord) {
    EmptyPair(r.recovery.host) && EmptyPair(r.recovery.docker) && EmptyPair(r.recovery.candidate) &&
    EmptyPair(r.recovery.store) && r.recoveryIdentityAmbiguous == False
  }

  predicate NothingLeft(r: RouteRecord) {
    r.cleanupConfirmed == True && r.manualRecoveryRequired == False && r.processRestartRequired == False &&
    NoRecovery(r) && r.canonicalRepositoryChanged == False && r.rawProviderOutputReported == False &&
    r.hostPathReported == False && r.credentialReported == False
  }

  /** isExactSignedRouteResult. */
  predicate ExactRoute(route: nat, r: RouteRecord, expected: Mode) {
    r.completed && r.route == route && r.authorizationMode == Some(expected) &&
    r.release.Some? && r.execution.Some? && NothingLeft(r)
  }

  /** isSafeRetryableRouteResult. */
  predicate SafeRetryable(r: RouteRecord) {
    r.contentMismatch && r.authorizationMode.Some? && r.effectStateUnknown == False && NothingLeft(r)
  }

  /** evaluateSignedRunnerSafetyObservation with the route schema. */
  predicate RouteSafetyExact(r: RouteRecord, g: Grammars) {
    && r.cleanupConfirmed != Unreadable && r.manualRecoveryRequired != Unreadable && r.processRestartRequired != Unreadable
    && r.effectStateUnknown == False && r.canonicalRepositoryChanged != Unreadable
    && r.rawProviderOutputReported != Unreadable && r.hostPathReported != Unreadable && r.credentialReported != Unreadable
    && PairExact(r.recovery.host.singular, r.recovery.host.plural, g.host)
    && PairExact(r.recovery.docker.singular, r.recovery.docker.plural, g.docker)
    && PairExact(r.recovery.candidate.singular, r.recovery.candidate.plural, g.candidate)
    && PairExact(r.recovery.store.singular, r.recovery.store.plural, g.store)
    && !(r.cleanupConfirmed == False && r.manualRecoveryRequired == False)
    && (r.manualRecoveryRequired == False ==>
          r.recovery.host.plural.items == [] && r.recovery.docker.plural.items == [] &&
          r.recovery.candidate.plural.items == [] && r.recovery.store.plural.items == [])
  }

  /** What one attempt does: throws or answers, and whether the process is poisoned by it. */
  datatype Outcome = Threw(poisons: bool) | Returned(record: Option<RouteRecord>, poisons: bool)

  datatype Attempt =
    | Ran(route: nat, number: nat, record: RouteRecord, poisonedBefore: bool)
    | RunnerFailed(route: nat, number: nat, observed: Option<RouteRecord>, poisonedBefore: bool)

  datatype Failure = RouteNonconforming | ReleaseIdentityMismatch | ExecutionIdentityMismatch | RunnerException

  datatype MatrixResult =
    | RestartRequired
    | Report(completed: bool, results: seq<Attempt>, attempted: nat, verified: nat, retried: nat,
             initialMode: Option<Mode>, failed: Option<nat>, failure: Option<Failure>, processRestartRequired: bool)

  function ExpectedMode(route: nat, number: nat, initial: Option<Mode>): Mode {
    if route == 0 && number == 1 && initial.Some? then initial.value else ReusedInitialConsent
  }

  /** An attempt that lets the matrix go on: either the exact result of its route or a safe retry. */
  predicate Advances(a: Attempt, initial: Option<Mode>) {
    a.Ran? && (ExactRoute(a.route, a.record, ExpectedMode(a.route, a.number, initial)) ||
               (a.number < MAX_SAFE_ROUTE_ATTEMPTS && SafeRetryable(a.record)))
  }

  predicate Exact(a: Attempt, initial: Option<Mode>) {
    a.Ran? && ExactRoute(a.route, a.record, ExpectedMode(a.route, a.number, initial))
  }

  lemma AdvancingIsClean(a: Attempt, initial: Option<Mode>)
    requires Advances(a, initial)
    ensures a.record.processRestartRequired == False && a.record.authorizationMode.Some?
  {
    hide NoRecovery, ExpectedMode;
  }

  /** The next attempt is the first of the next route after an exact one, and a further try otherwise. */
  predicate Chained(a: Attempt, route: nat, number: nat, initial: Option<Mode>) {
    if Exact(a, initial) then route == a.route + 1 && number == 1
    else route == a.route && number == a.number + 1
  }

  /** The attempt after the i-th is the one that it leads to. */
  predicate Linked(results: seq<Attempt>, i: nat, initial: Option<Mode>)
    requires i < |results| - 1
  {
    Chained(results[i], results[i + 1].route, results[i + 1].number, initial)
  }

  predicate SameIdentities(a: Attempt, release: Option<string>, execution: Option<string>) {
    a.Ran? && a.record.release.Some? && a.record.execution.Some? && a.record.release == release && a.record.execution == execution
  }

  /** All but the last attempt advanced, in the order of routes and tries. */
  ghost predicate Progress(results: seq<Attempt>, initial: Option<Mode>) {
    && (results != [] ==> results[0].route == 0 && results[0].number == 1)
    && (forall i :: 0 <= i < |results| ==> results[i].route < ROUTE_COUNT && 1 <= results[i].number <= MAX_SAFE_ROUTE_ATTEMPTS)
    && (forall i :: 0 <= i < |results| - 1 ==> Advances(results[i], initial))
    && (forall i :: 0 <= i < |results| - 1 ==> Linked(results, i, initial))
  }

  function ExactCount(results: seq<Attempt>, initial: Option<Mode>): nat {
    if results == [] then 0
    else ExactCount(results[..|results| - 1], initial) + (if Exact(results[|results| - 1], initial) then 1 else 0)
  }

  /** Whether an outcome of the runner reports the poisoning it did, as every run of TaskRun does. */
  predicate Reported(o: Outcome) {
    o.poisons ==> o.Threw? || o.record.None? || o.record.value.processRestartRequired == True
  }

  /** The attempts that advanced: all of them in a completed run, all but the last in any other. */
  function Advanced(r: MatrixResult): seq<Attempt>
    requires r.Report?
  {
    if r.failed.Some? && r.results != [] then r.results[..|r.results| - 1] else r.results
  }

  /** Each attempt is what the runner answered, and knows whether an earlier answer poisoned the process. */
  ghost predicate Traced(results: seq<Attempt>, outcomes: seq<Outcome>, g: Grammars) {
    && |results| <= |outcomes|
    && (forall i :: 0 <= i < |results| ==>
          (results[i].poisonedBefore <==> exists j :: 0 <= j < i && outcomes[j].poisons))
    && (forall i :: 0 <= i < |results| && results[i].Ran? ==>
          outcomes[i] == Returned(Some(results[i].record), outcomes[i].poisons) && RouteSafetyExact(results[i].record, g))
    && (forall i :: 0 <= i < |results| && results[i].RunnerFailed? ==>
          results[i].observed == (if outcomes[i].Returned? then outcomes[i].record else None) &&
          (results[i].observed.Some? ==> !RouteSafetyExact(results[i].observed.value, g)))
  }

  /** Attempts that all completed under the same release and the same execution. */
  predicate OneIdentity(results: seq<Attempt>) {
    forall i, j :: 0 <= i < |results| && 0 <= j < |results| ==>
      results[i].Ran? && results[j].Ran? && results[i].record.release == results[j].record.release &&
      results[i].record.execution == results[j].record.execution
  }

  predicate Identified(results: seq<Attempt>) {
    forall i :: 0 <= i < |results| ==>
      results[i].Ran? && results[i].record.release.Some? && results[i].record.execution.Some?
  }

  predicate Stops(results: seq<Attempt>, mode: Option<Mode>) {
    results != [] &&
    var last := results[|results| - 1];
    !Advances(last, mode) || last.record.release.None? || last.record.execution.None? || !OneIdentity(results)
  }

  /** Why the last attempt stopped the matrix: identities that are missing come before identities that differ from those
      of the first attempt, and these before a result that is not the one expected. */
  predicate Reasoned(results: seq<Attempt>, failure: Failure) {
    results != [] &&
    var first, last := results[0], results[|results| - 1];
    failure ==
      if last.RunnerFailed? then RunnerException
      else if last.record.release.None? || last.record.execution.None? then RouteNonconforming
      else if first.Ran? && last.record.release != first.record.release then ReleaseIdentityMismatch
      else if first.Ran? && last.record.execution != first.record.execution then ExecutionIdentityMismatch
      else RouteNonconforming
  }

  /** What a report says about its attempts. */
  ghost predicate ReportSound(r: MatrixResult, outcomes: seq<Outcome>, g: Grammars)
    requires r.Report?
  {
    // Accounting.
    && r.attempted == |r.results| <= ROUTE_COUNT * MAX_SAFE_ROUTE_ATTEMPTS <= |outcomes|
    && r.attempted == r.verified + r.retried + (if r.failed.Some? then 1 else 0)
    && r.verified == ExactCount(Advanced(r), r.initialMode)
    && (r.completed <==> r.verified == ROUTE_COUNT) && (r.completed <==> r.failed.None?)
    && (r.failed.Some? ==> r.failure.Some? && r.results != [] && r.failed == Some(r.results[|r.results| - 1].route))
    // Order: routes in order, tries in order, only advancing attempts before the last.
    && Progress(r.results, r.initialMode)
    && (r.completed ==>
          r.results != [] && Exact(r.results[|r.results| - 1], r.initialMode) &&
          r.results[|r.results| - 1].route == ROUTE_COUNT - 1)
    // The attempts that advanced share one release and one execution identity; the one that stopped the matrix
    // did not advance, or named another release or execution, or none.
    && OneIdentity(Advanced(r)) && Identified(Advanced(r))
    && (r.failed.Some? ==> Stops(r.results, r.initialMode))
    && (r.failed.Some? ==> Reasoned(r.results, r.failure.value))
    // The mode of the first attempt is the one that its exactness is judged by.
    && (r.results != [] && r.results[0].Ran? ==> r.initialMode == r.results[0].record.authorizationMode)
    && Traced(r.results, outcomes, g)
    // The report says whether the process is poisoned; a runner that failed always poisons it.
    && (r.failed.Some? && r.results[|r.results| - 1].RunnerFailed? ==> r.processRestartRequired)
    && (r.completed ==> (r.processRestartRequired <==> exists j :: 0 <= j < |r.results| && outcomes[j].poisons))
  }

  /** One of the first n answers of the runner poisoned the process. */
  predicate PoisonedBy(outcomes: seq<Outcome>, n: nat) {
    exists j :: 0 <= j < n && j < |outcomes| && outcomes[j].poisons
  }

  lemma ExtendTraced(results: seq<Attempt>, outcomes: seq<Outcome>, a: Attempt, g: Grammars)
    requires Traced(results, outcomes, g) && |results| < |outcomes|
    requires a.poisonedBefore <==> PoisonedBy(outcomes, |results|)
    requires a.Ran? ==>
      outcomes[|results|] == Returned(Some(a.record), outcomes[|results|].poisons) && RouteSafetyExact(a.record, g)
    requires a.RunnerFailed? ==>
      a.observed == (if outcomes[|results|].Returned? then outcomes[|results|].record else None) &&
      (a.observed.Some? ==> !RouteSafetyExact(a.observed.value, g))
    ensures Traced(results + [a], outcomes, g)
    ensures PoisonedBy(outcomes, |results| + 1) <==> PoisonedBy(outcomes, |results|) || outcomes[|results|].poisons
  {
    hide RouteSafetyExact;
  }

  // ------------------------------------------------------------ the state of the loops

  /** The shared first observations that later attempts are compared with. */
  datatype Baseline = Baseline(mode: Option<Mode>, release: Option<string>, execution: Option<string>)

  /** An observation, once made, stays. */
  predicate Keeps(before: Baseline, after: Baseline) {
    && (before.mode.Some? ==> after.mode == before.mode)
    && (before.release.Some? ==> after.release == before.release)
    && (before.execution.Some? ==> after.execution == before.execution)
  }

  predicate Fixed(b: Baseline) {
    b.mode.Some? && b.release.Some? && b.execution.Some?
  }

  predicate AllShare(results: seq<Attempt>, b: Baseline) {
    forall i :: 0 <= i < |results| ==> SameIdentities(results[i], b.release, b.execution)
  }

  predicate AllAdvance(results: seq<Attempt>, b: Baseline) {
    forall i :: 0 <= i < |results| ==> Advances(results[i], b.mode)
  }

  /** How far the loops are: every attempt so far advanced, and this route and try are next. */
  ghost predicate Underway(results: seq<Attempt>, route: nat, number: nat, retried: nat, b: Baseline) {
    && Progress(results, b.mode) && AllAdvance(results, b) && AllShare(results, b)
    && (if results == [] then route == 0 && number == 1 && b == Baseline(None, None, None)
        else Fixed(b) && Chained(results[|results| - 1], route, number, b.mode))
    && |results| == route + retried && |results| + 1 <= 3 * route + number
    && route == ExactCount(results, b.mode) && FirstMode(results, b)
  }

  /** The last attempt stopped the matrix; the ones before it advanced. */
  ghost predicate Halted(results: seq<Attempt>, route: nat, retried: nat, b: Baseline) {
    && results != [] && results[|results| - 1].route == route < ROUTE_COUNT
    && Progress(results, b.mode) && AllShare(results[..|results| - 1], b)
    && |results| == route + retried + 1 <= ROUTE_COUNT * MAX_SAFE_ROUTE_ATTEMPTS
    && route == ExactCount(results[..|results| - 1], b.mode)
    && FirstMode(results, b)
  }

  predicate FirstMode(results: seq<Attempt>, b: Baseline) {
    results != [] && results[0].Ran? ==> b.mode == results[0].record.authorizationMode
  }

  /** The last attempt does not fit what was seen before. */
  predicate Misfit(results: seq<Attempt>, b: Baseline) {
    results != [] && !(Advances(results[|results| - 1], b.mode) && SameIdentities(results[|results| - 1], b.release, b.execution)) &&
    (|results| == 1 && results[0].Ran? && Advances(results[0], b.mode) ==>
       results[0].record.release.None? || results[0].record.execution.None?)
  }

  /** The attempt just judged, put at the end of the list. */
  lemma Extend(results: seq<Attempt>, a: Attempt, mode: Option<Mode>)
    requires a.route < ROUTE_COUNT && 1 <= a.number <= MAX_SAFE_ROUTE_ATTEMPTS
    requires Progress(results, mode)
    requires forall i :: 0 <= i < |results| ==> Advances(results[i], mode)
    requires if results == [] then a.route == 0 && a.number == 1 else Chained(results[|results| - 1], a.route, a.number, mode)
    ensures Progress(results + [a], mode)
    ensures ExactCount(results + [a], mode) == ExactCount(results, mode) + (if Exact(a, mode) then 1 else 0)
  {
    hide Advances, Chained, Exact, Progress;
    ExtendProgress(results, a, mode);
    assert (results + [a])[..|results|] == results;
  }

  lemma ExtendProgress(results: seq<Attempt>, a: Attempt, mode: Option<Mode>)
    requires a.route < ROUTE_COUNT && 1 <= a.number <= MAX_SAFE_ROUTE_ATTEMPTS
    requires Progress(results, mode)
    requires forall i :: 0 <= i < |results| ==> Advances(results[i], mode)
    requires if results == [] then a.route == 0 && a.number == 1 else Chained(results[|results| - 1], a.route, a.number, mode)
    ensures Progress(results + [a], mode)
  {
    hide Advances, Chained, Exact;
    var all := results + [a];
    assert all[..|results|] == results;
    forall i | 0 <= i < |all| - 1
      ensures Advances(all[i], mode) && Linked(all, i, mode)
    {
      assert all[i] == results[i];
      if i < |results| - 1 {
        assert Linked(results, i, mode);
        assert all[i + 1] == results[i + 1];
      }
    }
  }

  /** One more attempt on a matrix under way, as far as it does not depend on how it ended. */
  lemma StepAny(before: seq<Attempt>, a: Attempt, retried: nat, b: Baseline, c: Baseline)
    requires a.route < ROUTE_COUNT && 1 <= a.number <= MAX_SAFE_ROUTE_ATTEMPTS
    requires Underway(before, a.route, a.number, retried, b) && Keeps(b, c) && (before == [] ==> FirstMode([a], c))
    ensures Halted(before + [a], a.route, retried, c)
    ensures ExactCount(before + [a], c.mode) == a.route + (if Exact(a, c.mode) then 1 else 0)
    ensures AllAdvance(before, c) && AllShare(before, c)
  {
    hide Exact, Advances, SameIdentities, Progress, ExactCount, Chained;
    EmptyProgress(c.mode);
    if before != [] { assert b == c; }
    Extend(before, a, c.mode);
    assert (before + [a])[..|before|] == before;
  }

  /** An attempt that advances leads to the next try, or, when it was exact, to the next route. */
  lemma StepOn(before: seq<Attempt>, a: Attempt, retried: nat, b: Baseline, c: Baseline)
    requires a.route < ROUTE_COUNT && 1 <= a.number <= MAX_SAFE_ROUTE_ATTEMPTS
    requires Underway(before, a.route, a.number, retried, b) && Keeps(b, c) && (before == [] ==> FirstMode([a], c))
    requires Advances(a, c.mode) && SameIdentities(a, c.release, c.execution) && Fixed(c)
    ensures if Exact(a, c.mode) then Underway(before + [a], a.route + 1, 1, retried, c)
            else a.number < MAX_SAFE_ROUTE_ATTEMPTS && Underway(before + [a], a.route, a.number + 1, retried + 1, c)
  {
    StepAny(before, a, retried, b, c);
    assert !Exact(a, c.mode) ==> a.number < MAX_SAFE_ROUTE_ATTEMPTS;
    hide Exact, Advances, SameIdentities, Progress, ExactCount;
  }

  /** What one try leaves: a matrix that is under way still, or one that it stopped. */
  lemma TryStep(before: seq<Attempt>, a: Attempt, retried: nat, b: Baseline, c: Baseline, on: bool)
    requires a.route < ROUTE_COUNT && 1 <= a.number <= MAX_SAFE_ROUTE_ATTEMPTS
    requires Underway(before, a.route, a.number, retried, b) && Keeps(b, c)
    requires on <==> Advances(a, c.mode) && SameIdentities(a, c.release, c.execution)
    requires a.route == 0 && b.mode.None? && a.Ran? ==> c.mode == a.record.authorizationMode
    requires b.release.None? && b.execution.None? && a.Ran? && a.record.release.Some? && a.record.execution.Some? ==>
      SameIdentities(a, c.release, c.execution)
    requires on && (a.route == 0 || b.mode.Some?) ==> Fixed(c)
    ensures if !on then Halted(before + [a], a.route, retried, c) && Misfit(before + [a], c)
            else if Exact(a, c.mode) then Underway(before + [a], a.route + 1, 1, retried, c)
            else a.number < MAX_SAFE_ROUTE_ATTEMPTS && Underway(before + [a], a.route, a.number + 1, retried + 1, c)
  {
    hide Underway, Halted, Exact, Advances, SameIdentities, Keeps, Fixed;
    UnderwayFacts(before, a.route, a.number, retried, b);
    if on {
      StepOn(before, a, retried, b, c);
    } else {
      StepAny(before, a, retried, b, c);
    }
  }

  lemma MisfitStops(results: seq<Attempt>, route: nat, retried: nat, b: Baseline)
    requires Halted(results, route, retried, b) && Misfit(results, b)
    ensures Stops(results, b.mode)
  {
    hide Progress, ExactCount, Exact, ExactRoute, SafeRetryable;
    if |results| > 1 { assert SameIdentities(results[..|results| - 1][0], b.release, b.execution); }
  }

  /** How a judged attempt failed against the identities that were shared before it. */
  predicate FailedAgainst(a: Attempt, seen: Baseline, failure: Failure) {
    failure ==
      if a.RunnerFailed? then RunnerException
      else if a.record.release.None? || a.record.execution.None? then RouteNonconforming
      else if seen.release.Some? && a.record.release != seen.release then ReleaseIdentityMismatch
      else if seen.execution.Some? && a.record.execution != seen.execution then ExecutionIdentityMismatch
      else RouteNonconforming
  }

  lemma ReasonOf(before: seq<Attempt>, a: Attempt, retried: nat, b: Baseline, failure: Failure)
    requires Underway(before, a.route, a.number, retried, b) && FailedAgainst(a, b, failure)
    ensures Reasoned(before + [a], failure)
  {
    hide Progress, Exact, Advances, ExactCount, Chained;
    if before != [] { assert (before + [a])[0] == before[0] && SameIdentities(before[0], b.release, b.execution); }
  }

  /** The end of the loops, as it is reported. */
  ghost function ReportOf(results: seq<Attempt>, verified: nat, retried: nat, b: Baseline, failed: Option<nat>,
                    failure: Option<Failure>, poisoned: bool): MatrixResult
  {
    Report(verified == ROUTE_COUNT, results, |results|, verified, retried, b.mode, failed, failure, poisoned)
  }

  lemma CompletedIsSound(results: seq<Attempt>, retried: nat, b: Baseline, poisoned: bool, outcomes: seq<Outcome>, g: Grammars)
    requires Underway(results, ROUTE_COUNT, 1, retried, b) && Traced(results, outcomes, g)
    requires |outcomes| >= ROUTE_COUNT * MAX_SAFE_ROUTE_ATTEMPTS
    requires results != [] && Exact(results[|results| - 1], b.mode) && (poisoned <==> PoisonedBy(outcomes, |results|))
    ensures ReportSound(ReportOf(results, ROUTE_COUNT, retried, b, None, None, poisoned), outcomes, g)
  {
    hide Exact, Advances, Progress, ExactCount, Traced;
    TracedLength(results, outcomes, g);
  }

  lemma HaltedIsSound(results: seq<Attempt>, verified: nat, retried: nat, b: Baseline, failure: Failure, poisoned: bool,
                      outcomes: seq<Outcome>, g: Grammars)
    requires Halted(results, verified, retried, b) && Traced(results, outcomes, g) && Misfit(results, b)
    requires |outcomes| >= ROUTE_COUNT * MAX_SAFE_ROUTE_ATTEMPTS
    requires results[|results| - 1].RunnerFailed? ==> poisoned
    requires Reasoned(results, failure)
    ensures ReportSound(ReportOf(results, verified, retried, b, Some(verified), Some(failure), poisoned), outcomes, g)
  {
    hide Exact, Advances, Progress, ExactCount, Traced, Misfit, Stops, Reasoned;
    MisfitStops(results, verified, retried, b);
  }

  lemma TracedLength(results: seq<Attempt>, outcomes: seq<Outcome>, g: Grammars)
    requires Traced(results, outcomes, g)
    ensures |results| <= |outcomes|
  {
    hide RouteSafetyExact;
  }

  lemma UnderwayFacts(results: seq<Attempt>, route: nat, number: nat, retried: nat, b: Baseline)
    requires Underway(results, route, number, retried, b)
    ensures |results| + 1 <= 3 * route + number
    ensures route == 0 || b.mode.Some?
    ensures b.mode.None? ==> b.release.None? && b.execution.None?
    ensures results == [] ==> route == 0 && b == Baseline(None, None, None)
  {
  }

  lemma EmptyProgress(mode: Option<Mode>)
    ensures Progress([], mode) && ExactCount([], mode) == 0
  {
  }

  lemma EmptyStart(outcomes: seq<Outcome>, g: Grammars)
    ensures Underway([], 0, 1, 0, Baseline(None, None, None)) && Traced([], outcomes, g) && !PoisonedBy(outcomes, 0)
  {
    hide RouteSafetyExact, Advances, Exact, Chained, SameIdentities, Progress, ExactCount;
    EmptyProgress(None);
  }

  class Matrix {
    const grammars: Grammars
    var poisoned: bool
    var initialMode: Option<Mode>
    var release: Option<string>
    var execution: Option<string>

    constructor (grammars: Grammars, poisoned: bool)
      ensures this.grammars == grammars && this.poisoned == poisoned
      ensures release.None? && execution.None? && initialMode.None?
    {
      this.grammars, this.poisoned := grammars, poisoned;
      release, execution, initialMode := None, None, None;
    }

    ghost function Seen(): Baseline
      reads this
    {
      Baseline(initialMode, release, execution)
    }

    /** One attempt: run, snapshot, safety, identities, exactness. */
    method Try(route: nat, number: nat, o: Outcome) returns (a: Attempt, failure: Option<Failure>)
      modifies this
      ensures a.route == route && a.number == number && a.poisonedBefore == old(poisoned)
      ensures poisoned == (old(poisoned) || o.poisons || a.RunnerFailed? || (a.Ran? && a.record.processRestartRequired == True))
      ensures a.Ran? <==> o.Returned? && o.record.Some? && RouteSafetyExact(o.record.value, grammars)
      ensures a.Ran? ==> a.record == o.record.value
      ensures a.RunnerFailed? ==> a.observed == (if o.Returned? then o.record else None)
      ensures Keeps(old(Seen()), Seen())
      ensures failure.None? <==> Advances(a, initialMode) && SameIdentities(a, release, execution)
      ensures route == 0 && old(initialMode).None? && a.Ran? ==> initialMode == a.record.authorizationMode
      ensures old(release).None? && old(execution).None? && a.Ran? && a.record.release.Some? && a.record.execution.Some? ==>
                SameIdentities(a, release, execution)
      ensures failure.Some? ==> FailedAgainst(a, old(Seen()), failure.value)
      ensures failure.None? ==> a.Ran? && a.record.processRestartRequired == False && (route == 0 || old(initialMode).Some? ==> Fixed(Seen()))
      ensures a.RunnerFailed? ==> poisoned
    {
      hide RouteSafetyExact, NothingLeft, ExactRoute, SafeRetryable, ExpectedMode;
      var before := poisoned;
      if o.poisons { poisoned := true; }
      if o.Threw? || o.record.None? || !RouteSafetyExact(o.record.value, grammars) {
        poisoned := true;
        return RunnerFailed(route, number, if o.Returned? then o.record else None, before), Some(RunnerException);
      }
      var record := o.record.value;
      a := Ran(route, number, record, before);
      if record.processRestartRequired == True { poisoned := true; }
      if route == 0 && initialMode.None? && record.authorizationMode.Some? {
        initialMode := record.authorizationMode;
      }
      failure := Judge(a);
      if failure.None? { AdvancingIsClean(a, initialMode); }
    }

    /** The shared identities and the exactness of an attempt that ran. */
    method Judge(a: Attempt) returns (failure: Option<Failure>)
      requires a.Ran?
      modifies this`release, this`execution
      ensures Keeps(old(Seen()), Seen())
      ensures failure.None? <==> Advances(a, initialMode) && SameIdentities(a, release, execution)
      ensures old(release).None? && old(execution).None? && a.record.release.Some? && a.record.execution.Some? ==>
                SameIdentities(a, release, execution)
      ensures failure.Some? ==> FailedAgainst(a, old(Seen()), failure.value)
    {
      hide ExactRoute, SafeRetryable, ExpectedMode;
      var record := a.record;
      if record.release.None? || record.execution.None? { return Some(RouteNonconforming); }
      if release.None? {
        release := record.release;
      } else if record.release != release {
        return Some(ReleaseIdentityMismatch);
      }
      if execution.None? {
        execution := record.execution;
      } else if record.execution != execution {
        return Some(ExecutionIdentityMismatch);
      }
      if !ExactRoute(a.route, record, ExpectedMode(a.route, a.number, initialMode)) &&
         !(a.number < MAX_SAFE_ROUTE_ATTEMPTS && SafeRetryable(record))
      {
        return Some(RouteNonconforming);
      }
      failure := None;
    }

    /** One route: tries until an exact result, up to three, stopping at the first that does not advance. */
    method TryRoute(route: nat, before: seq<Attempt>, retriedBefore: nat, outcomes: seq<Outcome>)
      returns (results: seq<Attempt>, retried: nat, failure: Option<Failure>)
      requires route < ROUTE_COUNT && |outcomes| >= ROUTE_COUNT * MAX_SAFE_ROUTE_ATTEMPTS
      requires Underway(before, route, 1, retriedBefore, Seen()) && Traced(before, outcomes, grammars)
      requires poisoned <==> PoisonedBy(outcomes, |before|)
      modifies this
      ensures Traced(results, outcomes, grammars)
      ensures failure.None? ==>
                Underway(results, route + 1, 1, retried, Seen()) && results != [] && Exact(results[|results| - 1], initialMode) &&
                (poisoned <==> PoisonedBy(outcomes, |results|))
      ensures failure.Some? ==>
                results != [] && Halted(results, route, retried, Seen()) && Misfit(results, Seen()) &&
                (results[|results| - 1].RunnerFailed? ==> poisoned) &&
                Reasoned(results, failure.value)
    {
      hide RouteSafetyExact, Underway, Halted, Misfit, Exact, Advances, SameIdentities, Traced, PoisonedBy, Keeps, Fixed, Reasoned,
        FailedAgainst;
      results, retried := before, retriedBefore;
      var number := 1;
      while true
        invariant 1 <= number <= MAX_SAFE_ROUTE_ATTEMPTS
        invariant Underway(results, route, number, retried, Seen())
        invariant Traced(results, outcomes, grammars)
        invariant poisoned <==> PoisonedBy(outcomes, |results|)
        decreases MAX_SAFE_ROUTE_ATTEMPTS - number
      {
        UnderwayFacts(results, route, number, retried, Seen());
        ghost var seen := Seen();
        var o := outcomes[|results|];
        var a;
        a, failure := Try(route, number, o);
        TryStep(results, a, retried, seen, Seen(), failure.None?);
        ExtendTraced(results, outcomes, a, grammars);
        if failure.Some? { ReasonOf(results, a, retried, seen, failure.value); }
        results := results + [a];
        if failure.Some? { return; }
        if Exact(a, initialMode) { return; }
        retried, number := retried + 1, number + 1;
      }
    }

    /** runSignedRouteMatrixVerification; outcomes[k] is what the runner does at the k-th attempt. */
    method Run(outcomes: seq<Outcome>) returns (r: MatrixResult)
      requires |outcomes| >= ROUTE_COUNT * MAX_SAFE_ROUTE_ATTEMPTS
      requires release.None? && execution.None? && initialMode.None?
      modifies this
      ensures r.RestartRequired? <==> old(poisoned)
      ensures r.Report? ==> ReportSound(r, outcomes, grammars) && r.processRestartRequired == poisoned
    {
      hide RouteSafetyExact, Advances, Exact, Progress, Traced, Underway, Halted, Misfit, ReportSound, Reasoned;
      if poisoned { return RestartRequired; }
      var results: seq<Attempt>, verified, retried := [], 0, 0;
      var failedRoute: Option<nat>, failure: Option<Failure> := None, None;
      EmptyStart(outcomes, grammars);
      while verified < ROUTE_COUNT && failure.None?
        invariant verified <= ROUTE_COUNT
        invariant failure.None? <==> failedRoute.None?
        invariant failure.None? ==>
                    Underway(results, verified, 1, retried, Seen()) && (poisoned <==> PoisonedBy(outcomes, |results|)) &&
                    (verified > 0 ==> results != [] && Exact(results[|results| - 1], initialMode))
        invariant failure.Some? ==>
                    failedRoute == Some(verified) && verified < ROUTE_COUNT && results != [] &&
                    Halted(results, verified, retried, Seen()) &&
                    Misfit(results, Seen()) && (results[|results| - 1].RunnerFailed? ==> poisoned) &&
                    Reasoned(results, failure.value)
        invariant Traced(results, outcomes, grammars)
        decreases ROUTE_COUNT - verified, if failure.None? then 1 else 0
      {
        results, retried, failure := TryRoute(verified, results, retried, outcomes);
        if failure.Some? {
          failedRoute := Some(verified);
        } else {
          verified := verified + 1;
        }
      }
      r := Report(verified == ROUTE_COUNT, results, |results|, verified, retried, initialMode, failedRoute, failure, poisoned);
      if failure.Some? {
        HaltedIsSound(results, verified, retried, Seen(), failure.value, poisoned, outcomes, grammars);
      } else {
        CompletedIsSound(results, retried, Seen(), poisoned, outcomes, grammars);
      }
    }
  }
}
