/**
 The report over several observed processes: normal runs, a cancelled one, one whose parent was lost, and its
 re-entry. It completes only without problems; what that says about the identities of the operations and about
 the repository is proved here. Whether a response carries the expected result is taken as given.
 */
module ProviderReport {
  import opened Common
  import opened RecoveryIds
  import opened ProcessObserver

  /** An observed process; responses counts its responses, answered says whether the only one is as expected. */
  datatype Observation = Observation(
    o: Observed, pidIssued: bool, joined: bool, exit: Option<(Option<int>, Option<string>)>, launchError: bool,
    outputWithinLimit: bool, timedOut: bool, parseFailure: bool, inputEofIssued: bool, forcedTerminationIssued: bool,
    terminationConfirmed: bool, responses: nat, answered: bool)

  datatype Expected = Expected(projectId: string, milestoneId: string, executor: Provider, reviewer: Option<Provider>)

  datatype Snapshot = Snapshot(sha256: string, headCommit: string, headTree: string, files: seq<(string, string)>)

  datatype NormalRun = NormalRun(observation: Observation, expected: Expected, before: Snapshot, after: Snapshot,
                                 expectedChanged: seq<string>, stateObserved: bool)

  datatype RecoveryRun = RecoveryRun(parentLoss: Observation, terminationRequested: bool, reentry: Observation,
                                     expected: Expected, before: Snapshot, after: Snapshot, stateObserved: bool,
                                     queueId: Option<string>)

  datatype Input = Input(normal: seq<NormalRun>, cancellation: Observation, cancellationRequested: bool,
                         cancellationExpected: Expected, cancellationBefore: Snapshot, cancellationAfter: Snapshot,
                         recovery: RecoveryRun, dockerClean: bool)

  // ------------------------------------------------------------ snapshots

  /** new Map(files): the last entry of a path counts. */
  function FileMap(files: seq<(string, string)>): map<string, string> {
    if files == [] then map[]
    else FileMap(files[..|files| - 1])[files[|files| - 1].0 := files[|files| - 1].1]
  }

  /** The paths that changedSnapshotPaths lists. */
  function Changed(before: Snapshot, after: Snapshot): set<string> {
    var b, a := FileMap(before.files), FileMap(after.files);
    set p | p in b.Keys + a.Keys && (p !in b || p !in a || b[p] != a[p])
  }

  /** No changed path means the same files with the same contents, and the reverse. */
  lemma NothingChanged(before: Snapshot, after: Snapshot)
    ensures Changed(before, after) == {} <==> FileMap(before.files) == FileMap(after.files)
  {
    var b, a := FileMap(before.files), FileMap(after.files);
    if Changed(before, after) == {} {
      forall p | p in b.Keys + a.Keys ensures p in b && p in a && b[p] == a[p] {
        assert p !in Changed(before, after);
      }
    }
  }

  /** A listing of a set without repetition; the order is that of sort and is left open. */
  predicate ListingOf(paths: seq<string>, s: set<string>) {
    (forall p :: p in paths ==> p in s) && (forall p :: p in s ==> p in paths) && |paths| == |s|
  }

  predicate HeadKept(before: Snapshot, after: Snapshot) {
    before.headCommit == after.headCommit && before.headTree == after.headTree
  }

  // ------------------------------------------------------------ single processes

  /** processProblems finds nothing. */
  predicate ProcessClean(v: Observation) {
    v.pidIssued && v.joined && v.exit == Some((Some(0), None)) && !v.launchError && !v.o.streamFailure && !v.o.violation &&
    v.outputWithinLimit && !v.timedOut && !v.parseFailure
  }

  predicate OperationId(s: string) {
    |s| >= 9 && s[..3] == "OP-" && forall i :: 3 <= i < |s| ==> '0' <= s[i] <= '9'
  }

  datatype Step = Step(started: bool, role: Role, provider: Provider)

  predicate Matches(e: RuntimeEvent, s: Step) {
    e.role == s.role && e.provider == s.provider && e.ProcessStarted? == s.started && (e.ProcessStarted? ==> OperationId(e.operationId))
  }

  /** runtimeEventsExactlyMatch. */
  predicate ExactlyMatch(events: seq<RuntimeEvent>, steps: seq<Step>) {
    |events| == |steps| && forall i :: 0 <= i < |events| ==> Matches(events[i], steps[i])
  }

  function ExecutorSteps(e: Expected): seq<Step> {
    [Step(false, Executor, e.executor), Step(true, Executor, e.executor)]
  }

  function AllSteps(e: Expected): seq<Step>
    requires e.reviewer.Some?
  {
    [Step(false, Executor, e.executor), Step(true, Executor, e.executor),
     Step(false, Reviewer, e.reviewer.value), Step(true, Reviewer, e.reviewer.value)]
  }

  predicate NormalClean(n: NormalRun) {
    && ProcessClean(n.observation) && n.observation.inputEofIssued && n.observation.responses == 1 && n.observation.answered
    && n.expected.reviewer.Some? && ExactlyMatch(n.observation.o.runtimeEvents, AllSteps(n.expected))
    && HeadKept(n.before, n.after) && ListingOf(n.expectedChanged, Changed(n.before, n.after)) && n.stateObserved
  }

  predicate CancellationClean(i: Input) {
    var c, e := i.cancellation, i.cancellationExpected;
    && ProcessClean(c) && c.responses == 1 && c.answered && c.inputEofIssued && i.cancellationRequested
    && c.o.processStartEvents != [] && c.o.inputCloseTrigger.Some?
    && c.o.inputCloseTrigger.value.ProcessStarted? && c.o.inputCloseTrigger.value.role == Executor
    && c.o.inputCloseTrigger.value.provider == e.executor
    && ExactlyMatch(c.o.runtimeEvents, ExecutorSteps(e))
    && i.cancellationBefore.sha256 == i.cancellationAfter.sha256 && HeadKept(i.cancellationBefore, i.cancellationAfter)
  }

  const PHASES := [Required, Recovering, Settled, Acknowledged, ResourcesFinalized, QueueSettled, RetryReady]

  /** The ids of the executor starts of a lost parent. */
  function ExecutorStarts(s: seq<(Role, Provider, string)>): seq<string> {
    if s == [] then [] else ExecutorStarts(s[..|s| - 1]) + (if s[|s| - 1].0 == Executor then [s[|s| - 1].2] else [])
  }

  /** One executor was started before the parent was lost, and the tree was terminated for it. */
  predicate LostOnce(r: RecoveryRun) {
    var lost, t := ExecutorStarts(r.parentLoss.o.processStartEvents), r.parentLoss.o.terminationTrigger;
    && |lost| == 1 && t.Some? && t.value.ProcessStarted? && t.value.role == Executor && t.value.provider == r.expected.executor
    && t.value.operationId == lost[0]
  }

  /** The seven phases in order, with everything that their events have to agree on. */
  predicate InPhases(r: RecoveryRun) {
    var events := r.reentry.o.recoveryEvents;
    && |events| == |PHASES| && r.queueId.Some?
    && events[0].recoveryId.Some? && events[0].taskId.Some? && events[0].operationId.Some?
    && (forall i :: 0 <= i < |events| ==>
          events[i].phase == PHASES[i] && events[i].projectId == r.expected.projectId &&
          events[i].milestoneId == r.expected.milestoneId && Some(events[i].queueId) == r.queueId &&
          (if i < 5 then
             events[i].taskId == events[0].taskId && events[i].operationId == events[0].operationId &&
             events[i].recoveryId == events[0].recoveryId
           else events[i].taskId.None? && events[i].operationId.None? && events[i].recoveryId.None?))
    && (forall i :: 0 < i < |events| ==> events[i].stateGeneration >= events[i - 1].stateGeneration)
  }

  /** isRecoveryEventsCorrelated; the grammar of recovery and project operation ids is part of the line reader. */
  predicate Correlated(r: RecoveryRun) {
    LostOnce(r) && InPhases(r)
  }

  predicate ParentLossClean(r: RecoveryRun) {
    var p := r.parentLoss;
    && p.pidIssued && p.joined && p.exit.Some? && p.exit != Some((Some(0), None))
    && !p.launchError && !p.o.streamFailure && !p.o.violation && p.outputWithinLimit && !p.timedOut && !p.parseFailure
    && ExactlyMatch(p.o.runtimeEvents, ExecutorSteps(r.expected))
    && r.terminationRequested && p.o.processStartEvents != [] && p.forcedTerminationIssued && !p.inputEofIssued && p.responses == 0
  }

  predicate ReentryClean(r: RecoveryRun) {
    && ProcessClean(r.reentry) && r.reentry.inputEofIssued && r.reentry.responses == 1 && r.reentry.answered
    && r.expected.reviewer.Some? && ExactlyMatch(r.reentry.o.runtimeEvents, AllSteps(r.expected))
    && Correlated(r) && r.parentLoss.terminationConfirmed
    && HeadKept(r.before, r.after) && Changed(r.before, r.after) == {} && r.stateObserved
  }

  // ------------------------------------------------------------ identities

  function Ids(starts: seq<(Role, Provider, string)>): (r: seq<string>)
    ensures |r| == |starts| && forall i :: 0 <= i < |r| ==> r[i] == starts[i].2
  {
    seq(|starts|, i requires 0 <= i < |starts| => starts[i].2)
  }

  function Attempts(i: Input): seq<Observation> {
    seq(|i.normal|, k requires 0 <= k < |i.normal| => i.normal[k].observation) +
    [i.cancellation, i.recovery.parentLoss, i.recovery.reentry]
  }

  function Groups(attempts: seq<Observation>): (r: seq<seq<string>>)
    ensures |r| == |attempts| && forall k :: 0 <= k < |r| ==> r[k] == Ids(attempts[k].o.processStartEvents)
  {
    seq(|attempts|, k requires 0 <= k < |attempts| => Ids(attempts[k].o.processStartEvents))
  }

  /** distinctAttemptOperationIds. */
  function DistinctIds(groups: seq<seq<string>>): seq<string> {
    if groups == [] then [] else DistinctIds(groups[..|groups| - 1]) + Unique(groups[|groups| - 1])
  }

  predicate Consistent(groups: seq<seq<string>>) {
    forall k :: 0 <= k < |groups| && groups[k] != [] ==> |Unique(groups[k])| == 1
  }

  predicate Unrepeated(ids: seq<string>) {
    (forall i :: 0 <= i < |ids| ==> OperationId(ids[i])) && |Unique(ids)| == |ids|
  }

  /** Nothing to object to. */
  predicate Clean(i: Input) {
    && (forall k :: 0 <= k < |i.normal| ==> NormalClean(i.normal[k]))
    && CancellationClean(i) && ParentLossClean(i.recovery) && ReentryClean(i.recovery)
    && Consistent(Groups(Attempts(i))) && Unrepeated(DistinctIds(Groups(Attempts(i)))) && i.dockerClean
  }

  /** The problems of the normal runs, one for each run that has any. */
  method NormalProblems(runs: seq<NormalRun>) returns (problems: seq<string>, joined: bool)
    ensures problems == [] <==> forall j :: 0 <= j < |runs| ==> NormalClean(runs[j])
    ensures joined <==> forall j :: 0 <= j < |runs| ==> runs[j].observation.joined
  {
    hide NormalClean;
    problems, joined := [], true;
    for k := 0 to |runs|
      invariant problems == [] <==> forall j :: 0 <= j < k ==> NormalClean(runs[j])
      invariant joined <==> forall j :: 0 <= j < k ==> runs[j].observation.joined
    {
      if !NormalClean(runs[k]) { problems := problems + ["normal_run"]; }
      if !runs[k].observation.joined { joined := false; }
    }
  }

  method IdentityProblems(groups: seq<seq<string>>) returns (problems: seq<string>)
    ensures problems == [] <==> Consistent(groups) && Unrepeated(DistinctIds(groups))
  {
    hide Consistent, Unrepeated, DistinctIds;
    var inconsistent, distinct := CollectIds(groups);
    problems := if inconsistent then ["provider_operation_identity_inconsistent"] else [];
    if !Unrepeated(distinct) { problems := problems + ["provider_operation_identity_reused"]; }
  }

  /** buildProjectRuntimeRealProviderReport, with one problem for each group of checks. */
  method BuildReport(i: Input) returns (completed: bool, problems: seq<string>, cleanupConfirmed: bool)
    ensures completed <==> Clean(i)
    ensures completed <==> problems == []
    ensures completed ==> cleanupConfirmed
    ensures cleanupConfirmed <==>
              (forall k :: 0 <= k < |i.normal| ==> i.normal[k].observation.joined) && i.cancellation.joined &&
              i.recovery.parentLoss.joined && i.recovery.reentry.joined && i.dockerClean
  {
    hide NormalClean, CancellationClean, ParentLossClean, ReentryClean, Consistent, Unrepeated, DistinctIds, Groups, Attempts;
    var joined;
    problems, joined := NormalProblems(i.normal);
    if !CancellationClean(i) { problems := problems + ["cancellation"]; }
    if !ParentLossClean(i.recovery) { problems := problems + ["recovery_parent"]; }
    if !ReentryClean(i.recovery) { problems := problems + ["recovery_reentry"]; }
    var identities := IdentityProblems(Groups(Attempts(i)));
    problems := problems + identities;
    if !i.dockerClean { problems := problems + ["post_run_recovery_state_not_clean"]; }
    completed := problems == [];
    cleanupConfirmed := joined && i.cancellation.joined && i.recovery.parentLoss.joined && i.recovery.reentry.joined && i.dockerClean;
    if completed { CleanJoined(i); }
  }

  lemma CleanJoined(i: Input)
    requires Clean(i)
    ensures (forall j :: 0 <= j < |i.normal| ==> i.normal[j].observation.joined)
    ensures i.cancellation.joined && i.recovery.parentLoss.joined && i.recovery.reentry.joined
  {
    hide Correlated, ExactlyMatch, Changed, ListingOf, Unrepeated, Consistent;
  }

  /** The identities of the attempts that started a process: several in one attempt, and all of them. */
  method CollectIds(groups: seq<seq<string>>) returns (inconsistent: bool, distinct: seq<string>)
    ensures inconsistent <==> !Consistent(groups)
    ensures distinct == DistinctIds(groups)
  {
    hide Unique;
    inconsistent, distinct := false, [];
    for k := 0 to |groups|
      invariant inconsistent <==> exists j :: 0 <= j < k && groups[j] != [] && |Unique(groups[j])| != 1
      invariant distinct == DistinctIds(groups[..k])
    {
      assert groups[..k + 1][..k] == groups[..k];
      if groups[k] != [] {
        var identities := Unique(groups[k]);
        if |identities| != 1 { inconsistent := true; }
        distinct := distinct + identities;
      } else {
        NothingUnique();
        assert distinct + [] == distinct;
      }
    }
    assert groups[..|groups|] == groups;
  }

  lemma NothingUnique()
    ensures Unique([]) == []
  {
  }

  lemma {:induction false} UniqueLength(s: seq<string>)
    requires |Unique(s)| == |s|
    ensures Unique(s) == s && forall i, j :: 0 <= i < j < |s| ==> s[i] != s[j]
  {
    if s != [] {
      UniqueLength(s[..|s| - 1]);
      assert s == s[..|s| - 1] + [s[|s| - 1]];
    }
  }

  /** When every group holds one identity, the collected list names one for each group, in order. */
  lemma {:induction false} OnePerGroup(groups: seq<seq<string>>)
    requires Consistent(groups) && forall k :: 0 <= k < |groups| ==> groups[k] != []
    ensures |DistinctIds(groups)| == |groups|
    ensures forall k, j :: 0 <= k < |groups| && 0 <= j < |groups[k]| ==> groups[k][j] == DistinctIds(groups)[k]
  {
    if groups != [] {
      var front, last := groups[..|groups| - 1], groups[|groups| - 1];
      assert groups == front + [last];
      OnePerGroup(front);
      var u := Unique(last);
      forall j | 0 <= j < |last| ensures last[j] == u[0] {
        assert last[j] in u;
      }
      hide Unique;
      forall k, j | 0 <= k < |groups| && 0 <= j < |groups[k]| ensures groups[k][j] == DistinctIds(groups)[k] {
        if k < |front| { assert groups[k] == front[k]; }
      }
    }
  }

  /** An observed process that went through its steps did start a process. */
  lemma MatchedStarts(o: Observed, steps: seq<Step>, k: nat)
    requires Sound(o) && ExactlyMatch(o.runtimeEvents, steps) && k < |steps| && steps[k].started
    ensures o.processStartEvents != []
  {
    StartsHold(o.runtimeEvents, k);
  }

  lemma {:induction false} StartsHold(events: seq<RuntimeEvent>, k: nat)
    requires k < |events| && events[k].ProcessStarted?
    ensures Starts(events) != []
  {
    if k < |events| - 1 { StartsHold(events[..|events| - 1], k); }
  }

  predicate DistinctSeq(ids: seq<string>) {
    forall i, j :: 0 <= i < j < |ids| ==> ids[i] != ids[j]
  }

  /** A completed report over observed processes names exactly one operation for each attempt, and all of the
      normal, cancelled, lost and re-entered attempts have different ones. The parent was lost while the
      operation of its only executor start was under way, the repository of the recovery did not change, and
      each attempt did start a process. */
  lemma CompletedNamesOneOperationEach(i: Input)
    requires Clean(i) && forall k :: 0 <= k < |Attempts(i)| ==> Sound(Attempts(i)[k].o)
    ensures var attempts, ids := Attempts(i), DistinctIds(Groups(Attempts(i)));
            |ids| == |attempts| == |i.normal| + 3 && DistinctSeq(ids) &&
            (forall k :: 0 <= k < |attempts| ==>
               OperationId(ids[k]) && attempts[k].o.processStartEvents != [] &&
               forall j :: 0 <= j < |attempts[k].o.processStartEvents| ==> attempts[k].o.processStartEvents[j].2 == ids[k]) &&
            i.recovery.parentLoss.o.terminationTrigger.value.operationId == ids[|i.normal| + 1]
    ensures FileMap(i.recovery.before.files) == FileMap(i.recovery.after.files)
  {
    var attempts := Attempts(i);
    var groups := Groups(attempts);
    AttemptsStart(i);
    hide NormalClean, CancellationClean, ParentLossClean, Sound, Changed, FileMap, Unique, Attempts, ExactlyMatch;
    OnePerGroup(groups);
    UniqueLength(DistinctIds(groups));
    NothingChanged(i.recovery.before, i.recovery.after);
    LostOperation(i, attempts, groups);
    forall k, j | 0 <= k < |attempts| && 0 <= j < |attempts[k].o.processStartEvents|
      ensures attempts[k].o.processStartEvents[j].2 == DistinctIds(groups)[k]
    {
      assert groups[k][j] == attempts[k].o.processStartEvents[j].2;
    }
  }

  lemma AttemptsStart(i: Input)
    requires Clean(i) && forall k :: 0 <= k < |Attempts(i)| ==> Sound(Attempts(i)[k].o)
    ensures |Attempts(i)| == |i.normal| + 3
    ensures forall k :: 0 <= k < |Attempts(i)| ==> Attempts(i)[k].o.processStartEvents != []
    ensures Attempts(i)[|i.normal| + 1] == i.recovery.parentLoss
  {
    hide Sound, ExactlyMatch, Changed, FileMap, Correlated, Consistent, Unrepeated;
    var n := |i.normal|;
    forall k | 0 <= k < n + 3 ensures Attempts(i)[k].o.processStartEvents != [] {
      if k < n {
        assert NormalClean(i.normal[k]) && Attempts(i)[k] == i.normal[k].observation;
        MatchedStarts(i.normal[k].observation.o, AllSteps(i.normal[k].expected), 1);
      } else if k == n + 2 {
        assert Attempts(i)[k] == i.recovery.reentry;
        MatchedStarts(i.recovery.reentry.o, AllSteps(i.recovery.expected), 1);
      }
    }
  }

  lemma LostOperation(i: Input, attempts: seq<Observation>, groups: seq<seq<string>>)
    requires Correlated(i.recovery) && |attempts| == |i.normal| + 3 && attempts[|i.normal| + 1] == i.recovery.parentLoss
    requires groups == Groups(attempts) && |DistinctIds(groups)| == |groups|
    requires forall k, j :: 0 <= k < |groups| && 0 <= j < |groups[k]| ==> groups[k][j] == DistinctIds(groups)[k]
    ensures i.recovery.parentLoss.o.terminationTrigger.value.operationId == DistinctIds(groups)[|i.normal| + 1]
  {
    var starts := i.recovery.parentLoss.o.processStartEvents;
    var j := ExecutorStartIs(starts);
    assert groups[|i.normal| + 1][j] == starts[j].2;
  }

  lemma {:induction false} ExecutorStartIs(starts: seq<(Role, Provider, string)>) returns (j: nat)
    requires |ExecutorStarts(starts)| >= 1
    ensures j < |starts| && starts[j].2 == ExecutorStarts(starts)[0]
  {
    if |ExecutorStarts(starts[..|starts| - 1])| >= 1 {
      j := ExecutorStartIs(starts[..|starts| - 1]);
    } else {
      j := |starts| - 1;
    }
  }
}
