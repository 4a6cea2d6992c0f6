/** Which answers of its runner carry a route matrix on, and which complete it, told field by field. */
module RouteMatrixAnswers {
  import opened Common
  import opened RecoveryIds
  import opened TaskRecords
  import opened TaskTrace
  import opened RouteMatrix
  import opened RouteMatrixProperties

  /** Nothing is left behind, nothing was changed or reported, and nothing has to be recovered. */
  predicate LeavesNothing(r: RouteRecord) {
    && r.cleanupConfirmed == True && r.manualRecoveryRequired == False && r.processRestartRequired == False
    && r.effectStateUnknown == False && r.canonicalRepositoryChanged == False && r.rawProviderOutputReported == False
    && r.hostPathReported == False && r.credentialReported == False && r.recoveryIdentityAmbiguous == False
    && (forall p :: p in [r.recovery.host, r.recovery.docker, r.recovery.candidate, r.recovery.store] ==>
          p.singular == Null && p.plural == Items([]))
  }

  /** The completed record of this route, with identities; the first try of all may be consented to interactively. */
  predicate CompletesRoute(r: RouteRecord, route: nat, first: bool) {
    && r.completed && r.route == route && LeavesNothing(r) && r.release.Some? && r.execution.Some?
    && (r.authorizationMode == Some(ReusedInitialConsent) || (first && r.authorizationMode == Some(InteractiveInitialConsent)))
  }

  /** A candidate whose content did not match, left behind cleanly, with any consent. */
  predicate AsksForRetry(r: RouteRecord) {
    r.contentMismatch && r.authorizationMode.Some? && LeavesNothing(r) && r.release.Some? && r.execution.Some?
  }

  /** The record that an answer hands over. */
  function RecordIn(o: Outcome): Option<RouteRecord> {
    if o.Returned? then o.record else None
  }

  /** The i-th answer carries the matrix on from the place of the i-th attempt. */
  predicate CarriesOn(r: MatrixResult, outcomes: seq<Outcome>, i: nat)
    requires r.Report? && i < |r.results| <= |outcomes|
  {
    var a, record, before := r.results[i], RecordIn(outcomes[i]), RecordIn(outcomes[0]);
    && record.Some? && before.Some? && record.value.release == before.value.release && record.value.execution == before.value.execution
    && (CompletesRoute(record.value, a.route, a.route == 0 && a.number == 1) || (a.number <= 2 && AsksForRetry(record.value)))
  }

  lemma LeavesNothingExactly(r: RouteRecord, g: Grammars)
    ensures LeavesNothing(r) <==> NothingLeft(r) && r.effectStateUnknown == False
    ensures LeavesNothing(r) ==> RouteSafetyExact(r, g)
  {
    var pairs := [r.recovery.host, r.recovery.docker, r.recovery.candidate, r.recovery.store];
    assert pairs[0] in pairs && pairs[1] in pairs && pairs[2] in pairs && pairs[3] in pairs;
  }

  /** An attempt advances exactly when its record is such an answer. */
  lemma AdvancesExactly(a: Attempt, mode: Option<Mode>, g: Grammars)
    requires a.Ran? && RouteSafetyExact(a.record, g) && 1 <= a.number
    requires a.route == 0 && a.number == 1 ==> mode == a.record.authorizationMode
    requires a.record.release.Some? && a.record.execution.Some?
    ensures Exact(a, mode) <==> CompletesRoute(a.record, a.route, a.route == 0 && a.number == 1)
    ensures Advances(a, mode) <==> Exact(a, mode) || (a.number <= 2 && AsksForRetry(a.record))
  {
    hide LeavesNothing, NothingLeft;
    LeavesNothingExactly(a.record, g);
    assert a.record.effectStateUnknown == False;
    var m := a.record.authorizationMode;
    assert m.Some? ==> m.value.InteractiveInitialConsent? || m.value.ReusedInitialConsent?;
  }

  /** The first attempt fixes the mode that it is judged by. */
  lemma PlacesOf(r: MatrixResult, outcomes: seq<Outcome>, g: Grammars, i: nat)
    requires r.Report? && ReportSound(r, outcomes, g) && i < |r.results|
    ensures |r.results| <= |outcomes| && r.results[i].route < ROUTE_COUNT && 1 <= r.results[i].number <= 3
    ensures r.results[i].route == 0 && r.results[i].number == 1 ==> i == 0
    ensures i == 0 ==> r.results[0].route == 0 && r.results[0].number == 1
    ensures i == 0 && r.results[0].Ran? ==> r.initialMode == r.results[0].record.authorizationMode
    ensures r.results[i].Ran? ==> RecordIn(outcomes[i]) == Some(r.results[i].record) && RouteSafetyExact(r.results[i].record, g)
    ensures !r.results[i].Ran? && RecordIn(outcomes[i]).Some? ==> !RouteSafetyExact(RecordIn(outcomes[i]).value, g)
  {
    hide RouteSafetyExact, Exact, Advances, ExactCount, OneIdentity, Stops;
    if i > 0 { assert Linked(r.results, i - 1, r.initialMode); }
  }

  /** Every attempt but the one that stopped the matrix was carried on by its answer, and the next one is at the place
      that follows: the next route after a completed one, another try after a retry. */
  lemma PassedAnswers(r: MatrixResult, outcomes: seq<Outcome>, g: Grammars, i: nat)
    requires r.Report? && ReportSound(r, outcomes, g) && i < |r.results| <= |outcomes| && (r.completed || i < |r.results| - 1)
    ensures CarriesOn(r, outcomes, i)
    ensures var a := r.results[i]; var done := CompletesRoute(RecordIn(outcomes[i]).value, a.route, a.route == 0 && a.number == 1);
            i < |r.results| - 1 ==>
              r.results[i + 1].route == (if done then a.route + 1 else a.route) &&
              r.results[i + 1].number == (if done then 1 else a.number + 1)
    ensures i == |r.results| - 1 ==> r.results[i].route == 3 && CompletesRoute(RecordIn(outcomes[i]).value, 3, false)
  {
    hide RouteSafetyExact, CompletesRoute, AsksForRetry, ExactCount, Traced, ExactRoute, SafeRetryable, Advances, Exact;
    PlacesOf(r, outcomes, g, i);
    PlacesOf(r, outcomes, g, 0);
    PassedAdvances(r, outcomes, g, i);
    AdvancesExactly(r.results[i], r.initialMode, g);
    if i < |r.results| - 1 { assert Linked(r.results, i, r.initialMode); }
  }

  lemma PassedAdvances(r: MatrixResult, outcomes: seq<Outcome>, g: Grammars, i: nat)
    requires r.Report? && ReportSound(r, outcomes, g) && i < |r.results| && (r.completed || i < |r.results| - 1)
    ensures Advances(r.results[i], r.initialMode) && r.results[i].Ran? && r.results[0].Ran?
    ensures r.results[i].record.release == r.results[0].record.release && r.results[i].record.execution == r.results[0].record.execution
    ensures r.results[i].record.release.Some? && r.results[i].record.execution.Some?
    ensures r.completed && i == |r.results| - 1 ==> Exact(r.results[i], r.initialMode)
  {
    hide RouteSafetyExact, ExactCount, Traced, Linked, Stops, NothingLeft;
    assert Advanced(r)[i] == r.results[i] && Advanced(r)[0] == r.results[0];
  }

  /** A matrix only stops before its end at an answer that does not carry it on. */
  lemma StoppedByItsAnswer(r: MatrixResult, outcomes: seq<Outcome>, g: Grammars)
    requires r.Report? && ReportSound(r, outcomes, g) && r.failed.Some?
    ensures 0 < |r.results| <= |outcomes| && !CarriesOn(r, outcomes, |r.results| - 1)
  {
    hide RouteSafetyExact, CompletesRoute, AsksForRetry, ExactCount, ReportSound, OneIdentity, Stops, Advances, Exact;
    var n := |r.results|;
    StoppedFacts(r, outcomes, g);
    PlacesOf(r, outcomes, g, n - 1);
    PlacesOf(r, outcomes, g, 0);
    if CarriesOn(r, outcomes, n - 1) {
      CarryingIsSafe(RecordIn(outcomes[n - 1]).value, r.results[n - 1], g);
      AdvancesExactly(r.results[n - 1], r.initialMode, g);
      SharesIdentity(r);
      assert false;
    }
  }

  lemma StoppedFacts(r: MatrixResult, outcomes: seq<Outcome>, g: Grammars)
    requires r.Report? && ReportSound(r, outcomes, g) && r.failed.Some?
    ensures r.results != [] && Stops(r.results, r.initialMode) && !r.completed && OneIdentity(Advanced(r))
  {
    hide RouteSafetyExact, ExactCount, Traced, Progress, OneIdentity, Stops;
  }

  lemma CarryingIsSafe(record: RouteRecord, a: Attempt, g: Grammars)
    requires CompletesRoute(record, a.route, a.route == 0 && a.number == 1) || AsksForRetry(record)
    ensures RouteSafetyExact(record, g) && record.release.Some? && record.execution.Some?
  {
    LeavesNothingExactly(record, g);
  }

  /** A last attempt that advances and names what the first one named would not have stopped the matrix. */
  lemma SharesIdentity(r: MatrixResult)
    requires r.Report? && r.failed.Some? && r.results != [] && OneIdentity(Advanced(r))
    requires var last := r.results[|r.results| - 1];
      last.Ran? && last.record.release.Some? && last.record.execution.Some? && Advances(last, r.initialMode) &&
      (r.results[0].Ran? ==>
         last.record.release == r.results[0].record.release && last.record.execution == r.results[0].record.execution)
    ensures !Stops(r.results, r.initialMode)
  {
    hide Advances, Stops;
    var n := |r.results|;
    if n > 1 { assert Advanced(r)[0] == r.results[0]; }
    forall i | 0 <= i < n
      ensures r.results[i].Ran? && r.results[i].record.release == r.results[n - 1].record.release &&
              r.results[i].record.execution == r.results[n - 1].record.execution
    {
      if i < n - 1 { assert Advanced(r)[i] == r.results[i]; }
    }
    NotStopped(r.results, r.initialMode);
  }

  lemma NotStopped(results: seq<Attempt>, mode: Option<Mode>)
    requires results != [] && Advances(results[|results| - 1], mode)
    requires results[|results| - 1].record.release.Some? && results[|results| - 1].record.execution.Some?
    requires forall i :: 0 <= i < |results| ==>
      results[i].Ran? && results[i].record.release == results[|results| - 1].record.release &&
      results[i].record.execution == results[|results| - 1].record.execution
    ensures !Stops(results, mode)
  {
    hide Advances;
  }

  /** Four first answers, each the completed record of its route, all of one release and one execution. */
  predicate FourRoutes(outcomes: seq<Outcome>) {
    && |outcomes| >= 4 && RecordIn(outcomes[0]).Some?
    && (forall k :: 0 <= k < 4 ==>
          && RecordIn(outcomes[k]).Some? && CompletesRoute(RecordIn(outcomes[k]).value, k, k == 0)
          && RecordIn(outcomes[k]).value.release == RecordIn(outcomes[0]).value.release
          && RecordIn(outcomes[k]).value.execution == RecordIn(outcomes[0]).value.execution)
  }

  lemma {:induction false} ReachesRoute(r: MatrixResult, outcomes: seq<Outcome>, g: Grammars, k: nat)
    requires r.Report? && ReportSound(r, outcomes, g) && FourRoutes(outcomes) && k < 4
    ensures k < |r.results| <= |outcomes| && r.results[k].route == k && r.results[k].number == 1 && CarriesOn(r, outcomes, k)
  {
    hide ReportSound, CompletesRoute, AsksForRetry;
    if k == 0 {
      NotEmpty(r, outcomes, g);
      PlacesOf(r, outcomes, g, 0);
    } else {
      NotEmpty(r, outcomes, g);
      ReachesRoute(r, outcomes, g, k - 1);
      if r.completed || k < |r.results| { PassedAnswers(r, outcomes, g, k - 1); } else { StoppedByItsAnswer(r, outcomes, g); }
    }
  }

  lemma NotEmpty(r: MatrixResult, outcomes: seq<Outcome>, g: Grammars)
    requires r.Report? && ReportSound(r, outcomes, g)
    ensures r.results != [] && (r.failed.None? <==> r.completed) && r.attempted == |r.results|
    ensures r.attempted == r.verified + r.retried + (if r.failed.Some? then 1 else 0) && (r.completed ==> r.verified == 4)
  {
    hide RouteSafetyExact, ExactCount, Traced, Progress, OneIdentity, Stops, Exact;
  }

  /** The ordinary matrix: with such answers it completes with one attempt for each route. */
  lemma FourAnswersComplete(r: MatrixResult, outcomes: seq<Outcome>, g: Grammars)
    requires r.Report? && ReportSound(r, outcomes, g) && FourRoutes(outcomes)
    ensures r.completed && r.attempted == 4 && r.verified == 4 && r.retried == 0
  {
    hide ReportSound, CompletesRoute, AsksForRetry;
    NotEmpty(r, outcomes, g);
    ReachesRoute(r, outcomes, g, 3);
    if |r.results| > 4 {
      PassedAnswers(r, outcomes, g, 3);
      PlacesOf(r, outcomes, g, 4);
    } else if !r.completed {
      StoppedByItsAnswer(r, outcomes, g);
    }
  }

  /** Conversely a completed report holds for each route the completed record of that very route. */
  lemma CompletedHoldsRecords(r: MatrixResult, outcomes: seq<Outcome>, g: Grammars, route: nat) returns (i: nat)
    requires r.Report? && ReportSound(r, outcomes, g) && r.completed && route < 4
    ensures i < |r.results| && r.results[i].Ran? && r.results[i].route == route
    ensures var record := r.results[i].record;
            CompletesRoute(record, route, i == 0) &&
            (record.authorizationMode == Some(ReusedInitialConsent) || record.authorizationMode == r.initialMode)
  {
    hide Exact, Advances, Progress, Traced, OneIdentity, ExactCount, CompletesRoute, AsksForRetry;
    OneExactPerRouteInOrder(r, outcomes, g);
    assert HasExact(r.results, r.initialMode, route);
    i :| 0 <= i < |r.results| && r.results[i].route == route && Exact(r.results[i], r.initialMode);
    PlacesOf(r, outcomes, g, i);
    PassedAnswers(r, outcomes, g, i);
    AdvancesExactly(r.results[i], r.initialMode, g);
    ModeOfRecord(r.results[i].record, route, i == 0);
  }

  lemma ModeOfRecord(record: RouteRecord, route: nat, first: bool)
    requires CompletesRoute(record, route, first)
    ensures record.release.Some? && record.execution.Some?
    ensures first || record.authorizationMode == Some(ReusedInitialConsent)
  {
  }

  // ------------------------------------------------------------ a record that can be read safely

  function RouteFlags(r: RouteRecord): seq<Flag> {
    [r.cleanupConfirmed, r.manualRecoveryRequired, r.processRestartRequired, r.canonicalRepositoryChanged,
     r.rawProviderOutputReported, r.hostPathReported, r.credentialReported]
  }

  ghost predicate RouteNames(r: RouteRecord, id: string) {
    exists k: Kind :: Mentions(PairOf(r.recovery, k), id)
  }

  /** A route record is read safely exactly when it says everything and knows its effect, its recovery fields leave no
      doubt, and it calls for a recovery unless its cleanup is confirmed and it names nothing to recover. */
  lemma RouteSafeExactly(r: RouteRecord, g: Grammars)
    ensures RouteSafetyExact(r, g) <==>
              && Unreadable !in RouteFlags(r) && r.effectStateUnknown == False
              && (forall k: Kind :: Settled(PairOf(r.recovery, k), GrammarOf(g, k)))
              && (r.manualRecoveryRequired == True || (r.cleanupConfirmed == True && forall id :: !RouteNames(r, id)))
  {
    hide PairExact, Settled, Clear;
    var flags := RouteFlags(r);
    assert flags[0] == r.cleanupConfirmed && flags[1] == r.manualRecoveryRequired && flags[2] == r.processRestartRequired;
    assert flags[3] == r.canonicalRepositoryChanged && flags[4] == r.rawProviderOutputReported;
    assert flags[5] == r.hostPathReported && flags[6] == r.credentialReported;
    forall k: Kind
      ensures Settled(PairOf(r.recovery, k), GrammarOf(g, k)) <==>
                PairExact(PairOf(r.recovery, k).singular, PairOf(r.recovery, k).plural, GrammarOf(g, k))
    {
      ExactIsSettled(PairOf(r.recovery, k).singular, PairOf(r.recovery, k).plural, GrammarOf(g, k));
    }
    assert PairOf(r.recovery, Host).plural == r.recovery.host.plural && PairOf(r.recovery, Docker).plural == r.recovery.docker.plural;
    assert PairOf(r.recovery, Candidate).plural == r.recovery.candidate.plural;
    assert PairOf(r.recovery, Store).plural == r.recovery.store.plural;
    if forall k: Kind :: Settled(PairOf(r.recovery, k), GrammarOf(g, k)) { RouteNamesNothing(r, g); }
  }

  lemma RouteNamesNothing(r: RouteRecord, g: Grammars)
    requires forall k: Kind :: Settled(PairOf(r.recovery, k), GrammarOf(g, k))
    ensures forall k: Kind :: PairOf(r.recovery, k).plural.Items?
    ensures (forall id :: !RouteNames(r, id)) <==> forall k: Kind :: PairOf(r.recovery, k).plural.items == []
  {
    forall k: Kind ensures PairOf(r.recovery, k).plural.Items? {
      assert Settled(PairOf(r.recovery, k), GrammarOf(g, k));
    }
    if k: Kind :| PairOf(r.recovery, k).plural.items != [] {
      var s := PairOf(r.recovery, k);
      assert Settled(s, GrammarOf(g, k)) && s.plural.items[0] in s.plural.items;
      assert Mentions(s, s.plural.items[0].text) && RouteNames(r, s.plural.items[0].text);
    } else {
      forall k: Kind, id ensures !Mentions(PairOf(r.recovery, k), id) {
        assert Settled(PairOf(r.recovery, k), GrammarOf(g, k));
      }
    }
  }

  // ------------------------------------------------------------ what a report says in sum

  /** The flags that a report gathers from its entries; Unknown stands for null. */
  datatype Summary = Summary(cleanupConfirmed: bool, manualRecoveryRequired: bool, effectStateUnknown: bool,
                             canonicalRepositoryChanged: Option<bool>, rawProviderOutputReported: Option<bool>,
                             hostPathReported: Option<bool>, credentialReported: Option<bool>)

  /** An entry says this of itself; a runner that failed leaves an entry of its own, with its effect unknown. */
  predicate Says(a: Attempt, field: RouteRecord -> Flag, flag: Flag, ofFailed: bool) {
    if a.Ran? then field(a.record) == flag else ofFailed
  }

  function AnyNot(results: seq<Attempt>, field: RouteRecord -> Flag): bool {
    exists i :: 0 <= i < |results| && !Says(results[i], field, False, false)
  }

  /** The end of runSignedRouteMatrixVerification. */
  function Summarize(results: seq<Attempt>): Summary {
    var unknown := exists i :: 0 <= i < |results| && Says(results[i], (r: RouteRecord) => r.effectStateUnknown, True, true);
    Summary(results != [] && (forall i :: 0 <= i < |results| ==> Says(results[i], (r: RouteRecord) => r.cleanupConfirmed, True, false)),
            unknown || AnyNot(results, (r: RouteRecord) => r.manualRecoveryRequired),
            unknown,
            if unknown then None else Some(AnyNot(results, (r: RouteRecord) => r.canonicalRepositoryChanged)),
            if unknown then None else Some(AnyNot(results, (r: RouteRecord) => r.rawProviderOutputReported)),
            if unknown then None else Some(AnyNot(results, (r: RouteRecord) => r.hostPathReported)),
            if unknown then None else Some(AnyNot(results, (r: RouteRecord) => r.credentialReported)))
  }

  /** Only the last entry of a report can have left anything behind: the sums are what that entry says. */
  lemma SummaryIsTheLast(r: MatrixResult, outcomes: seq<Outcome>, g: Grammars)
    requires r.Report? && ReportSound(r, outcomes, g)
    ensures r.results != []
    ensures var last, s := r.results[|r.results| - 1], Summarize(r.results);
            if last.RunnerFailed? then s == Summary(false, true, true, None, None, None, None)
            else
              && s.effectStateUnknown == false
              && (s.cleanupConfirmed <==> last.record.cleanupConfirmed == True)
              && (s.manualRecoveryRequired <==> last.record.manualRecoveryRequired == True)
              && s.canonicalRepositoryChanged == Some(last.record.canonicalRepositoryChanged == True)
              && s.rawProviderOutputReported == Some(last.record.rawProviderOutputReported == True)
              && s.hostPathReported == Some(last.record.hostPathReported == True)
              && s.credentialReported == Some(last.record.credentialReported == True)
  {
    hide ReportSound, RouteSafetyExact, CompletesRoute, AsksForRetry, LeavesNothing;
    NotEmpty(r, outcomes, g);
    var n := |r.results|;
    forall i | 0 <= i < n - 1 ensures r.results[i].Ran? && LeavesNothing(r.results[i].record) {
      PlacesOf(r, outcomes, g, i);
      PassedAnswers(r, outcomes, g, i);
      PassedAdvances(r, outcomes, g, i);
      AnswersLeaveNothing(r.results[i].record, r.results[i].route);
    }
    PlacesOf(r, outcomes, g, n - 1);
    if r.results[n - 1].Ran? { SafeFlags(r.results[n - 1].record, g); }
    SumOfClean(r.results);
  }

  lemma AnswersLeaveNothing(record: RouteRecord, route: nat)
    ensures forall first :: CompletesRoute(record, route, first) ==> LeavesNothing(record)
    ensures AsksForRetry(record) ==> LeavesNothing(record)
  {
  }

  lemma SafeFlags(record: RouteRecord, g: Grammars)
    requires RouteSafetyExact(record, g)
    ensures record.effectStateUnknown == False && Unreadable !in RouteFlags(record)
  {
    RouteSafeExactly(record, g);
  }

  lemma SumOfClean(results: seq<Attempt>)
    requires results != []
    requires forall i :: 0 <= i < |results| - 1 ==> results[i].Ran? && LeavesNothing(results[i].record)
    requires results[|results| - 1].Ran? ==>
      results[|results| - 1].record.effectStateUnknown == False && Unreadable !in RouteFlags(results[|results| - 1].record)
    ensures var last, s := results[|results| - 1], Summarize(results);
            if last.RunnerFailed? then s == Summary(false, true, true, None, None, None, None)
            else
              && s.effectStateUnknown == false
              && (s.cleanupConfirmed <==> last.record.cleanupConfirmed == True)
              && (s.manualRecoveryRequired <==> last.record.manualRecoveryRequired == True)
              && s.canonicalRepositoryChanged == Some(last.record.canonicalRepositoryChanged == True)
              && s.rawProviderOutputReported == Some(last.record.rawProviderOutputReported == True)
              && s.hostPathReported == Some(last.record.hostPathReported == True)
              && s.credentialReported == Some(last.record.credentialReported == True)
  {
    var last := results[|results| - 1];
    if last.Ran? {
      var flags := RouteFlags(last.record);
      assert flags[0] == last.record.cleanupConfirmed && flags[1] == last.record.manualRecoveryRequired;
      assert flags[3] == last.record.canonicalRepositoryChanged && flags[4] == last.record.rawProviderOutputReported;
      assert flags[5] == last.record.hostPathReported && flags[6] == last.record.credentialReported;
      assert forall i :: 0 <= i < 7 ==> flags[i] != Unreadable;
    }
  }

  /** A completed report is clean in sum, and there is nothing to recover, without doubt. */
  lemma CompletedIsClean(r: MatrixResult, outcomes: seq<Outcome>, g: Grammars)
    requires r.Report? && ReportSound(r, outcomes, g) && r.completed
    ensures Summarize(r.results) == Summary(true, false, false, Some(false), Some(false), Some(false), Some(false))
    ensures !AggregateAmbiguous(r.results, g) && forall k: Kind :: AggregateKind(r.results, k, g).ids == []
  {
    hide ReportSound, RouteSafetyExact, CompletesRoute, AsksForRetry, LeavesNothing, Projection;
    SummaryIsTheLast(r, outcomes, g);
    forall i | 0 <= i < |r.results| ensures r.results[i].Ran? && LeavesNothing(r.results[i].record) {
      PlacesOf(r, outcomes, g, i);
      PassedAnswers(r, outcomes, g, i);
      PassedAdvances(r, outcomes, g, i);
      AnswersLeaveNothing(r.results[i].record, r.results[i].route);
    }
    LeavesSaid(r.results[|r.results| - 1].record);
    NothingToRecover(r.results, g);
  }

  lemma LeavesSaid(record: RouteRecord)
    requires LeavesNothing(record)
    ensures record.cleanupConfirmed == True && record.manualRecoveryRequired == False
    ensures record.canonicalRepositoryChanged == record.rawProviderOutputReported == record.hostPathReported == False
    ensures record.credentialReported == record.recoveryIdentityAmbiguous == False
    ensures forall k: Kind :: PairOf(record.recovery, k) == Source(Null, Items([]), true)
  {
    var p := [record.recovery.host, record.recovery.docker, record.recovery.candidate, record.recovery.store];
    assert p[0] in p && p[1] in p && p[2] in p && p[3] in p;
  }

  lemma NothingToRecover(results: seq<Attempt>, g: Grammars)
    requires forall i :: 0 <= i < |results| ==> results[i].Ran? && LeavesNothing(results[i].record)
    ensures !AggregateAmbiguous(results, g) && forall k: Kind :: AggregateKind(results, k, g).ids == []
  {
    hide LeavesNothing, Projection;
    forall i | 0 <= i < |results|
      ensures !EntryAmbiguous(results[i], g) &&
              forall k: Kind :: PairOf(EntryPairs(results[i], g), k) == Source(Null, Items([]), true)
    {
      LeavesSaid(results[i].record);
    }
    forall k: Kind ensures AggregateKind(results, k, g) == Salvage([], false) {
      NothingProjected(KindSources(results, k, g), GrammarOf(g, k));
    }
  }

  lemma NothingProjected(sources: seq<Source>, g: Grammar)
    requires forall i :: 0 <= i < |sources| ==> sources[i] == Source(Null, Items([]), true)
    ensures Projection(sources, g) == Salvage([], false)
  {
    hide Projection;
    NeverSilentlyLost(sources, g);
    AmbiguousExactlyWhen(sources, g);
    assert HoldsAll([], sources, g);
    EmptyOrNot(Projection(sources, g).ids);
  }

  lemma EmptyOrNot(ids: seq<string>)
    ensures ids == [] || exists id :: id in ids
  {
    if ids != [] { assert ids[0] in ids; }
  }

  // ------------------------------------------------------------ answers that are task runs

  /** The result of a task run that leaves nothing behind. */
  predicate LeftClean(t: Result) {
    && t.cleanupConfirmed && !t.manualRecoveryRequired && !t.processRestartRequired && !t.effectStateUnknown
    && t.canonicalRepositoryChanged == Unchanged && !t.recoveryIdentityAmbiguous
    && (forall p :: p in [t.recovery.host, t.recovery.docker, t.recovery.candidate, t.recovery.store] ==> p.ids == [])
  }

  lemma PairOfNothing(ids: seq<string>)
    ensures PairOfIds(ids).singular == Null && PairOfIds(ids).plural == Items([]) <==> ids == []
  {
    if ids != [] { assert |Texts(ids)| > 0; }
  }

  lemma CleanRecord(t: Result, route: nat, labels: Labels)
    ensures LeavesNothing(RecordOf(t, route, labels)) <==> LeftClean(t)
  {
    var r, p := RecordOf(t, route, labels), t.recovery;
    PairOfNothing(p.host.ids);
    PairOfNothing(p.docker.ids);
    PairOfNothing(p.candidate.ids);
    PairOfNothing(p.store.ids);
    var pairs, lists := [r.recovery.host, r.recovery.docker, r.recovery.candidate, r.recovery.store], [p.host, p.docker, p.candidate, p.store];
    assert pairs[0] in pairs && pairs[1] in pairs && pairs[2] in pairs && pairs[3] in pairs;
    assert lists[0] in lists && lists[1] in lists && lists[2] in lists && lists[3] in lists;
  }

  /** What the result of a task run is for the matrix: the completed record of its route, or one that asks for a retry. */
  lemma TaskAnswers(t: Result, route: nat, labels: Labels, first: bool)
    ensures CompletesRoute(RecordOf(t, route, labels), route, first) <==>
              t.completed && LeftClean(t) && labels.release.Some? && labels.execution.Some? &&
              (labels.authorizationMode == Some(ReusedInitialConsent) ||
               (first && labels.authorizationMode == Some(InteractiveInitialConsent)))
    ensures AsksForRetry(RecordOf(t, route, labels)) <==>
              t.reason == CandidateContentMismatch && t.candidateDiscarded == Some(true) && LeftClean(t) &&
              labels.authorizationMode.Some? && labels.release.Some? && labels.execution.Some?
  {
    hide LeavesNothing, LeftClean;
    CleanRecord(t, route, labels);
  }

  /** What a pair of a route record names is what the result lists. */
  lemma PairOfIdsNames(ids: seq<string>, g: Grammar, id: string)
    requires |ids| <= 128 && (forall i :: 0 <= i < |ids| ==> g(ids[i])) && forall i, j :: 0 <= i < j < |ids| ==> ids[i] != ids[j]
    ensures Settled(PairOfIds(ids), g) && (Mentions(PairOfIds(ids), id) <==> id in ids)
  {
    TextsReadBack(ids, PairOfIds(ids).singular, g);
    ExactIsSettled(PairOfIds(ids).singular, PairOfIds(ids).plural, g);
    if id in ids {
      var i :| 0 <= i < |ids| && ids[i] == id;
      assert Texts(ids)[i] == Text(id);
    }
  }

  /** Four tasks that succeed undisturbed, with one release and one execution, complete a matrix over task runs in four
      attempts. */
  lemma FourTasksComplete(r: MatrixResult, outcomes: seq<Outcome>, g: Grammars, environments: seq<Environment>, labels: seq<Labels>)
    requires r.Report? && ReportSound(r, outcomes, g) && |outcomes| == |environments| == |labels| >= 4
    requires forall k :: 0 <= k < 4 ==> AnswersTask(outcomes, k, environments[k], k, labels[k], false, g)
    requires forall k :: 0 <= k < 4 ==>
      GateReason(environments[k], PoisonedBy(outcomes, k)).None? && TaskSucceeds(environments[k], g) && Unharmed(environments[k])
    requires forall k :: 0 <= k < 4 ==>
      && labels[k].release.Some? && labels[k].execution.Some? && labels[k].release == labels[0].release
      && labels[k].execution == labels[0].execution
      && (labels[k].authorizationMode == Some(ReusedInitialConsent) ||
          (k == 0 && labels[k].authorizationMode == Some(InteractiveInitialConsent)))
    ensures r.completed && r.attempted == 4 && r.verified == 4 && r.retried == 0
  {
    hide ReportSound, GateReason, TaskSucceeds, Unharmed, RecordOf, CompletesRoute, PoisonedBy;
    CompletedLeftClean();
    forall k | 0 <= k < 4
      ensures RecordIn(outcomes[k]).Some? && CompletesRoute(RecordIn(outcomes[k]).value, k, k == 0)
      ensures RecordIn(outcomes[k]).value.release == labels[k].release && RecordIn(outcomes[k]).value.execution == labels[k].execution
    {
      TaskAnswers(CompletedResult(), k, labels[k], k == 0);
    }
    FourAnswersComplete(r, outcomes, g);
  }

  lemma CompletedLeftClean()
    ensures CompletedResult().completed && LeftClean(CompletedResult())
  {
  }
}
