/**
 When a report over observed processes completes, told from what the processes said: the exact events of each, one
 operation identity for each, and nothing else wrong.
 */
module ProviderEvents {
  import opened Common
  import opened RecoveryIds
  import opened ProcessObserver
  import opened ProviderReport

  /** OP- and at least six decimal digits. */
  predicate WellNamed(id: string) {
    |id| >= 9 && id[0] == 'O' && id[1] == 'P' && id[2] == '-' && forall k :: 3 <= k < |id| ==> id[k] in "0123456789"
  }

  /** A process that ran to its end and said nothing wrong. */
  predicate Healthy(v: Observation) {
    && v.pidIssued && v.joined && v.exit.Some? && v.exit.value.0 == Some(0) && v.exit.value.1 == None
    && !(v.launchError || v.timedOut || v.parseFailure || v.o.streamFailure || v.o.violation) && v.outputWithinLimit
  }

  /** It answered once, as expected, after its input had been ended. */
  predicate AnsweredOnce(v: Observation) {
    v.responses == 1 && v.answered && v.inputEofIssued
  }

  /** The events of an executor that was selected and started. */
  function Begun(e: Expected, id: string): seq<RuntimeEvent> {
    [Selection(Executor, e.executor), ProcessStarted(Executor, e.executor, id)]
  }

  /** And then of a reviewer, under the same operation. */
  function Whole(e: Expected, id: string): seq<RuntimeEvent>
    requires e.reviewer.Some?
  {
    [Selection(Executor, e.executor), ProcessStarted(Executor, e.executor, id),
     Selection(Reviewer, e.reviewer.value), ProcessStarted(Reviewer, e.reviewer.value, id)]
  }

  /** The file at this path differs between the snapshots. */
  predicate Differs(before: Snapshot, after: Snapshot, path: string) {
    var b, a := FileMap(before.files), FileMap(after.files);
    (path in b <==> path !in a) || (path in b && path in a && b[path] != a[path])
  }

  predicate SameHead(before: Snapshot, after: Snapshot) {
    before.headCommit == after.headCommit && before.headTree == after.headTree
  }

  /** The whole run, and exactly the expected paths changed, each listed once. */
  ghost predicate NormalTold(n: NormalRun, id: string) {
    && Healthy(n.observation) && AnsweredOnce(n.observation) && n.stateObserved
    && n.expected.reviewer.Some? && n.observation.o.runtimeEvents == Whole(n.expected, id)
    && SameHead(n.before, n.after)
    && (forall path :: path in n.expectedChanged <==> Differs(n.before, n.after, path))
    && (forall j, k :: 0 <= j < k < |n.expectedChanged| ==> n.expectedChanged[j] != n.expectedChanged[k])
  }

  /** The input was ended at the start of the executor, and the repository is what it was. */
  predicate CancellationTold(i: Input, id: string) {
    var c, start := i.cancellation, ProcessStarted(Executor, i.cancellationExpected.executor, id);
    && Healthy(c) && AnsweredOnce(c) && i.cancellationRequested
    && c.o.runtimeEvents == Begun(i.cancellationExpected, id) && c.o.inputCloseTrigger == Some(start)
    && i.cancellationBefore.sha256 == i.cancellationAfter.sha256 && SameHead(i.cancellationBefore, i.cancellationAfter)
  }

  /** The tree was terminated at the start of the executor, before anything was answered. */
  predicate LossTold(r: RecoveryRun, id: string) {
    var p, start := r.parentLoss, ProcessStarted(Executor, r.expected.executor, id);
    && p.pidIssued && p.joined && p.exit.Some? && (p.exit.value.0 != Some(0) || p.exit.value.1 != None)
    && !(p.launchError || p.timedOut || p.parseFailure || p.o.streamFailure || p.o.violation) && p.outputWithinLimit
    && p.o.runtimeEvents == Begun(r.expected, id) && p.o.terminationTrigger == Some(start)
    && r.terminationRequested && p.forcedTerminationIssued && p.terminationConfirmed && !p.inputEofIssued && p.responses == 0
  }

  /** The whole run after the loss, over an unchanged repository. */
  ghost predicate ReentryTold(r: RecoveryRun, id: string) {
    && Healthy(r.reentry) && AnsweredOnce(r.reentry) && r.stateObserved
    && r.expected.reviewer.Some? && r.reentry.o.runtimeEvents == Whole(r.expected, id)
    && SameHead(r.before, r.after) && FileMap(r.before.files) == FileMap(r.after.files)
    && exists queue, task, operation, recovery, g ::
         r.queueId == Some(queue) && Rising(g) && r.reentry.o.recoveryEvents == Recovered(r.expected, queue, task, operation, recovery, g)
  }

  predicate Rising(g: seq<nat>) {
    |g| == 7 && forall k :: 0 < k < 7 ==> g[k - 1] <= g[k]
  }

  /** The seven phases of one recovery: five of the task that was lost, and two of its queue. */
  function Recovered(e: Expected, queue: string, task: string, operation: string, recovery: string, g: seq<nat>): seq<RecoveryEvent>
    requires |g| == 7
  {
    var t, o, r := Some(task), Some(operation), Some(recovery);
    [RecoveryEvent(Required, e.projectId, e.milestoneId, queue, t, o, r, g[0]),
     RecoveryEvent(Recovering, e.projectId, e.milestoneId, queue, t, o, r, g[1]),
     RecoveryEvent(Settled, e.projectId, e.milestoneId, queue, t, o, r, g[2]),
     RecoveryEvent(Acknowledged, e.projectId, e.milestoneId, queue, t, o, r, g[3]),
     RecoveryEvent(ResourcesFinalized, e.projectId, e.milestoneId, queue, t, o, r, g[4]),
     RecoveryEvent(QueueSettled, e.projectId, e.milestoneId, queue, None, None, None, g[5]),
     RecoveryEvent(RetryReady, e.projectId, e.milestoneId, queue, None, None, None, g[6])]
  }

  /** Every process said this, under operations of its own. */
  ghost predicate Told(i: Input, ids: seq<string>) {
    var n := |i.normal|;
    && |ids| == n + 3 && (forall k :: 0 <= k < |ids| ==> WellNamed(ids[k])) && DistinctSeq(ids)
    && (forall k :: 0 <= k < n ==> NormalTold(i.normal[k], ids[k]))
    && CancellationTold(i, ids[n]) && LossTold(i.recovery, ids[n + 1]) && ReentryTold(i.recovery, ids[n + 2]) && i.dockerClean
  }

  // ------------------------------------------------------------ events

  lemma NamedExactly(id: string)
    ensures OperationId(id) <==> WellNamed(id)
  {
    assert |id| >= 3 ==> (id[..3] == "OP-" <==> id[0] == 'O' && id[1] == 'P' && id[2] == '-');
    forall c: char ensures c in "0123456789" <==> '0' <= c <= '9' {}
  }

  lemma BegunExactly(events: seq<RuntimeEvent>, e: Expected)
    ensures ExactlyMatch(events, ExecutorSteps(e)) <==> exists id :: WellNamed(id) && events == Begun(e, id)
  {
    hide OperationId, WellNamed;
    forall id ensures OperationId(id) <==> WellNamed(id) { NamedExactly(id); }
    if ExactlyMatch(events, ExecutorSteps(e)) {
      assert Matches(events[0], ExecutorSteps(e)[0]) && Matches(events[1], ExecutorSteps(e)[1]);
      assert events == Begun(e, events[1].operationId);
    }
  }

  /** The events of both roles, under operations that may differ still. */
  function Both(e: Expected, a: string, b: string): seq<RuntimeEvent>
    requires e.reviewer.Some?
  {
    Whole(e, a)[3 := ProcessStarted(Reviewer, e.reviewer.value, b)]
  }

  lemma BothExactly(events: seq<RuntimeEvent>, e: Expected)
    requires e.reviewer.Some?
    ensures ExactlyMatch(events, AllSteps(e)) <==> exists a, b :: WellNamed(a) && WellNamed(b) && events == Both(e, a, b)
  {
    hide OperationId, WellNamed;
    forall id ensures OperationId(id) <==> WellNamed(id) { NamedExactly(id); }
    if ExactlyMatch(events, AllSteps(e)) {
      assert Matches(events[0], AllSteps(e)[0]) && Matches(events[1], AllSteps(e)[1]);
      assert Matches(events[2], AllSteps(e)[2]) && Matches(events[3], AllSteps(e)[3]);
      assert events == Both(e, events[1].operationId, events[3].operationId);
    }
    if a, b :| WellNamed(a) && WellNamed(b) && events == Both(e, a, b) {
      var steps := AllSteps(e);
      assert events[0] == Selection(Executor, e.executor) && events[1] == ProcessStarted(Executor, e.executor, a);
      assert events[2] == Selection(Reviewer, e.reviewer.value) && events[3] == ProcessStarted(Reviewer, e.reviewer.value, b);
      assert Matches(events[0], steps[0]) && Matches(events[1], steps[1]) && Matches(events[2], steps[2]) && Matches(events[3], steps[3]);
    }
  }

  lemma StartsOfBegun(e: Expected, id: string)
    ensures Starts(Begun(e, id)) == [(Executor, e.executor, id)]
  {
    var s := Begun(e, id);
    assert s[..1] == [Selection(Executor, e.executor)] && s[..1][..0] == [];
    assert Starts(s[..1]) == Starts([]) + [] == [];
  }

  lemma StartsOfBoth(e: Expected, a: string, b: string)
    requires e.reviewer.Some?
    ensures Starts(Both(e, a, b)) == [(Executor, e.executor, a), (Reviewer, e.reviewer.value, b)]
  {
    var s := Both(e, a, b);
    assert s[..3][..2] == Begun(e, a);
    StartsOfBegun(e, a);
    assert Starts(s[..3]) == Starts(s[..3][..2]) + [];
  }

  // ------------------------------------------------------------ single processes

  lemma HealthyExactly(v: Observation)
    ensures ProcessClean(v) <==> Healthy(v)
  {
    assert v.exit.Some? ==> v.exit.value == (v.exit.value.0, v.exit.value.1);
  }

  lemma ChangedExactly(before: Snapshot, after: Snapshot, paths: seq<string>)
    ensures ListingOf(paths, Changed(before, after)) <==>
              (forall path :: path in paths <==> Differs(before, after, path)) &&
              (forall j, k :: 0 <= j < k < |paths| ==> paths[j] != paths[k])
  {
    hide FileMap;
    var changed := Changed(before, after);
    forall path ensures path in changed <==> Differs(before, after, path) {}
    hide Changed, Differs;
    if forall path :: path in paths <==> path in changed {
      assert (set path | path in paths) == changed;
      SizeOfList(paths);
    }
  }

  /** A list is as long as its set of elements exactly when no element is repeated. */
  lemma {:induction false} SizeOfList(s: seq<string>)
    ensures |set x | x in s| <= |s|
    ensures |set x | x in s| == |s| <==> forall j, k :: 0 <= j < k < |s| ==> s[j] != s[k]
  {
    if s != [] {
      var front, last := s[..|s| - 1], s[|s| - 1];
      assert s == front + [last];
      SizeOfList(front);
      assert (set x | x in s) == (set x | x in front) + {last};
    }
  }

  /** A normal run is clean exactly when it said this under some two operations. */
  lemma NormalExactly(n: NormalRun)
    requires Sound(n.observation.o)
    ensures NormalClean(n) ==> exists a, b :: WellNamed(a) && WellNamed(b) && n.expected.reviewer.Some? &&
                                 n.observation.o.runtimeEvents == Both(n.expected, a, b) &&
                                 (a == b ==> NormalTold(n, a))
    ensures forall id :: WellNamed(id) && NormalTold(n, id) ==> NormalClean(n)
  {
    hide WellNamed, ListingOf, Changed, Differs, ProcessClean, Healthy, ExactlyMatch, AllSteps, Sound;
    HealthyExactly(n.observation);
    ChangedExactly(n.before, n.after, n.expectedChanged);
    if n.expected.reviewer.Some? {
      BothExactly(n.observation.o.runtimeEvents, n.expected);
      forall id ensures Both(n.expected, id, id) == Whole(n.expected, id) {}
    }
  }

  lemma CancellationExactly(i: Input)
    requires Sound(i.cancellation.o)
    ensures CancellationClean(i) <==> exists id :: WellNamed(id) && CancellationTold(i, id)
  {
    hide WellNamed, ProcessClean, Healthy, ExactlyMatch, ExecutorSteps;
    HealthyExactly(i.cancellation);
    BegunExactly(i.cancellation.o.runtimeEvents, i.cancellationExpected);
    forall id ensures Starts(Begun(i.cancellationExpected, id)) == [(Executor, i.cancellationExpected.executor, id)] {
      StartsOfBegun(i.cancellationExpected, id);
    }
    hide Starts, Selections;
  }

  // ------------------------------------------------------------ the recovery

  lemma LossEvents(r: RecoveryRun, id: string)
    requires r.parentLoss.o.runtimeEvents == Begun(r.expected, id) && Sound(r.parentLoss.o)
    ensures ExecutorStarts(r.parentLoss.o.processStartEvents) == [id] && r.parentLoss.o.processStartEvents != []
  {
    StartsOfBegun(r.expected, id);
    var starts := r.parentLoss.o.processStartEvents;
    assert starts == [(Executor, r.expected.executor, id)] && starts[..0] == [];
  }

  lemma PhasesExactly(r: RecoveryRun)
    ensures InPhases(r) <==>
              exists queue, task, operation, recovery, g ::
                r.queueId == Some(queue) && Rising(g) && r.reentry.o.recoveryEvents == Recovered(r.expected, queue, task, operation, recovery, g)
  {
    hide Recovered, InPhases;
    if InPhases(r) { PhasesTold(r); }
    if queue, task, operation, recovery, g :|
      r.queueId == Some(queue) && Rising(g) && r.reentry.o.recoveryEvents == Recovered(r.expected, queue, task, operation, recovery, g)
    {
      ToldPhases(r, queue, task, operation, recovery, g);
    }
  }

  lemma PhasesTold(r: RecoveryRun)
    requires InPhases(r)
    ensures exists queue, task, operation, recovery, g ::
              r.queueId == Some(queue) && Rising(g) && r.reentry.o.recoveryEvents == Recovered(r.expected, queue, task, operation, recovery, g)
  {
    var events := r.reentry.o.recoveryEvents;
    var g, first := seq(7, k requires 0 <= k < 7 => events[k].stateGeneration), events[0];
    var all := Recovered(r.expected, r.queueId.value, first.taskId.value, first.operationId.value, first.recoveryId.value, g);
    forall k | 0 <= k < 7 ensures events[k] == all[k] {
      assert events[k].phase == PHASES[k];
    }
    hide InPhases, Recovered;
    assert events == all && Rising(g);
  }

  lemma ToldPhases(r: RecoveryRun, queue: string, task: string, operation: string, recovery: string, g: seq<nat>)
    requires r.queueId == Some(queue) && Rising(g)
    requires r.reentry.o.recoveryEvents == Recovered(r.expected, queue, task, operation, recovery, g)
    ensures InPhases(r)
  {
    var all := Recovered(r.expected, queue, task, operation, recovery, g);
    assert |all| == 7 && forall k :: 0 <= k < 7 ==> all[k].phase == PHASES[k] && all[k].stateGeneration == g[k];
  }

  lemma LossExactly(r: RecoveryRun)
    requires Sound(r.parentLoss.o)
    ensures ParentLossClean(r) && LostOnce(r) && r.parentLoss.terminationConfirmed <==> exists id :: WellNamed(id) && LossTold(r, id)
  {
    hide WellNamed, ExactlyMatch, ExecutorSteps, Sound, ExecutorStarts, Begun;
    BegunExactly(r.parentLoss.o.runtimeEvents, r.expected);
    forall id | r.parentLoss.o.runtimeEvents == Begun(r.expected, id)
      ensures ExecutorStarts(r.parentLoss.o.processStartEvents) == [id] && r.parentLoss.o.processStartEvents != []
    {
      LossEvents(r, id);
    }
    assert r.parentLoss.exit.Some? ==> r.parentLoss.exit.value == (r.parentLoss.exit.value.0, r.parentLoss.exit.value.1);
  }

  lemma ReentryExactly(r: RecoveryRun)
    ensures ReentryClean(r) ==>
              LostOnce(r) && r.parentLoss.terminationConfirmed &&
              exists a, b :: WellNamed(a) && WellNamed(b) && r.expected.reviewer.Some? &&
                r.reentry.o.runtimeEvents == Both(r.expected, a, b) && (a == b ==> ReentryTold(r, a))
    ensures LostOnce(r) && r.parentLoss.terminationConfirmed ==> forall id :: WellNamed(id) && ReentryTold(r, id) ==> ReentryClean(r)
  {
    hide WellNamed, Changed, ProcessClean, Healthy, ExactlyMatch, AllSteps, LostOnce, InPhases, Recovered, Rising, FileMap;
    HealthyExactly(r.reentry);
    NothingChanged(r.before, r.after);
    PhasesExactly(r);
    if r.expected.reviewer.Some? {
      BothExactly(r.reentry.o.runtimeEvents, r.expected);
      forall id ensures Both(r.expected, id, id) == Whole(r.expected, id) {}
    }
  }

  // ------------------------------------------------------------ the report

  /** Two starts under one operation. */
  lemma OneOfTwo(o: Observed, e: Expected, a: string, b: string, id: string)
    requires Sound(o) && e.reviewer.Some? && o.runtimeEvents == Both(e, a, b)
    requires forall j :: 0 <= j < |o.processStartEvents| ==> o.processStartEvents[j].2 == id
    ensures a == b == id
  {
    StartsOfBoth(e, a, b);
    assert o.processStartEvents[0].2 == a && o.processStartEvents[1].2 == b;
  }

  lemma OneOfOne(o: Observed, e: Expected, a: string, id: string)
    requires Sound(o) && o.runtimeEvents == Begun(e, a)
    requires forall j :: 0 <= j < |o.processStartEvents| ==> o.processStartEvents[j].2 == id
    ensures a == id
  {
    StartsOfBegun(e, a);
    assert o.processStartEvents[0].2 == a;
  }

  ghost predicate AllSound(i: Input) {
    && (forall k :: 0 <= k < |i.normal| ==> Sound(i.normal[k].observation.o))
    && Sound(i.cancellation.o) && Sound(i.recovery.parentLoss.o) && Sound(i.recovery.reentry.o)
  }

  lemma AttemptsAre(i: Input)
    ensures var attempts, n := Attempts(i), |i.normal|;
            && |attempts| == n + 3 && (forall k :: 0 <= k < n ==> attempts[k] == i.normal[k].observation)
            && attempts[n] == i.cancellation && attempts[n + 1] == i.recovery.parentLoss && attempts[n + 2] == i.recovery.reentry
            && (AllSound(i) ==> forall k :: 0 <= k < |attempts| ==> Sound(attempts[k].o))
  {
    hide Sound;
  }

  lemma CleanIsTold(i: Input)
    requires Clean(i) && AllSound(i)
    ensures Told(i, DistinctIds(Groups(Attempts(i))))
  {
    hide NormalClean, CancellationClean, ParentLossClean, ReentryClean, Sound, Attempts, DistinctIds, WellNamed, NormalTold,
      CancellationTold, LossTold, ReentryTold, Consistent, Unrepeated, LostOnce, Both, Begun, OperationId;
    AttemptsAre(i);
    CompletedNamesOneOperationEach(i);
    var ids, n, attempts := DistinctIds(Groups(Attempts(i))), |i.normal|, Attempts(i);
    forall k | 0 <= k < |ids| ensures WellNamed(ids[k]) { NamedExactly(ids[k]); }
    forall k | 0 <= k < n ensures NormalTold(i.normal[k], ids[k]) {
      NormalIsTold(i.normal[k], ids[k]);
    }
    LossParts(i.recovery);
    LossIsTold(i, ids[n], ids[n + 1], ids[n + 2]);
  }

  lemma NormalIsTold(run: NormalRun, id: string)
    requires NormalClean(run) && Sound(run.observation.o)
    requires forall j :: 0 <= j < |run.observation.o.processStartEvents| ==> run.observation.o.processStartEvents[j].2 == id
    ensures NormalTold(run, id)
  {
    hide NormalClean, NormalTold, Sound, WellNamed, Both;
    NormalExactly(run);
    var a, b :| WellNamed(a) && WellNamed(b) && run.expected.reviewer.Some? &&
      run.observation.o.runtimeEvents == Both(run.expected, a, b) && (a == b ==> NormalTold(run, a));
    OneOfTwo(run.observation.o, run.expected, a, b, id);
  }

  lemma LossParts(r: RecoveryRun)
    requires ReentryClean(r)
    ensures LostOnce(r) && r.parentLoss.terminationConfirmed
  {
    hide LostOnce, InPhases, ExactlyMatch, Changed;
  }

  lemma LossIsTold(i: Input, cancelled: string, lost: string, entered: string)
    requires CancellationClean(i) && ParentLossClean(i.recovery) && ReentryClean(i.recovery) && AllSound(i)
    requires LostOnce(i.recovery) && i.recovery.parentLoss.terminationConfirmed
    requires forall j :: 0 <= j < |i.cancellation.o.processStartEvents| ==> i.cancellation.o.processStartEvents[j].2 == cancelled
    requires forall j :: 0 <= j < |i.recovery.parentLoss.o.processStartEvents| ==> i.recovery.parentLoss.o.processStartEvents[j].2 == lost
    requires forall j :: 0 <= j < |i.recovery.reentry.o.processStartEvents| ==> i.recovery.reentry.o.processStartEvents[j].2 == entered
    ensures CancellationTold(i, cancelled) && LossTold(i.recovery, lost) && ReentryTold(i.recovery, entered)
  {
    hide ParentLossClean, CancellationClean, ReentryClean, Sound, WellNamed, Both, Begun, LostOnce, ReentryTold, Healthy;
    var r := i.recovery;
    CancellationExactly(i);
    var c :| WellNamed(c) && CancellationTold(i, c);
    OneOfOne(i.cancellation.o, i.cancellationExpected, c, cancelled);
    LossExactly(r);
    var l :| WellNamed(l) && LossTold(r, l);
    OneOfOne(r.parentLoss.o, r.expected, l, lost);
    ReentryExactly(r);
    var a, b :| WellNamed(a) && WellNamed(b) && r.expected.reviewer.Some? &&
      r.reentry.o.runtimeEvents == Both(r.expected, a, b) && (a == b ==> ReentryTold(r, a));
    OneOfTwo(r.reentry.o, r.expected, a, b, entered);
  }

  lemma GroupOfWhole(o: Observed, e: Expected, id: string)
    requires Sound(o) && e.reviewer.Some? && o.runtimeEvents == Whole(e, id)
    ensures Ids(o.processStartEvents) == [id, id]
  {
    assert Whole(e, id) == Both(e, id, id);
    StartsOfBoth(e, id, id);
  }

  lemma GroupOfBegun(o: Observed, e: Expected, id: string)
    requires Sound(o) && o.runtimeEvents == Begun(e, id)
    ensures Ids(o.processStartEvents) == [id]
  {
    StartsOfBegun(e, id);
  }

  lemma GroupsAre(i: Input, ids: seq<string>)
    requires Told(i, ids) && AllSound(i)
    ensures var groups := Groups(Attempts(i));
            |groups| == |ids| && forall k :: 0 <= k < |ids| ==> groups[k] == [ids[k]] || groups[k] == [ids[k], ids[k]]
  {
    hide Attempts, Sound, WellNamed, Healthy, Differs, Begun, Whole, Recovered, Rising, Ids;
    AttemptsAre(i);
    var n := |i.normal|;
    forall k | 0 <= k < n ensures Groups(Attempts(i))[k] == [ids[k], ids[k]] {
      assert NormalTold(i.normal[k], ids[k]);
      GroupOfWhole(i.normal[k].observation.o, i.normal[k].expected, ids[k]);
    }
    GroupOfBegun(i.cancellation.o, i.cancellationExpected, ids[n]);
    GroupOfBegun(i.recovery.parentLoss.o, i.recovery.expected, ids[n + 1]);
    GroupOfWhole(i.recovery.reentry.o, i.recovery.expected, ids[n + 2]);
  }

  lemma GroupsFit(groups: seq<seq<string>>, ids: seq<string>)
    requires |groups| == |ids| && forall k :: 0 <= k < |ids| ==> groups[k] == [ids[k]] || groups[k] == [ids[k], ids[k]]
    ensures Consistent(groups) && forall k :: 0 <= k < |groups| ==> groups[k] != []
  {
    forall k | 0 <= k < |groups| ensures |Unique(groups[k])| == 1 { UniqueOfOne(ids[k]); }
    hide Unique;
  }

  lemma IdentitiesFit(groups: seq<seq<string>>, ids: seq<string>)
    requires |groups| == |ids| && forall k :: 0 <= k < |ids| ==> groups[k] == [ids[k]] || groups[k] == [ids[k], ids[k]]
    requires DistinctSeq(ids) && forall k :: 0 <= k < |ids| ==> OperationId(ids[k])
    ensures Consistent(groups) && Unrepeated(DistinctIds(groups))
  {
    hide OperationId, Unique, DistinctIds, Consistent;
    GroupsFit(groups, ids);
    OnePerGroup(groups);
    forall k | 0 <= k < |ids| ensures DistinctIds(groups)[k] == ids[k] { assert groups[k][0] == DistinctIds(groups)[k]; }
    assert DistinctIds(groups) == ids;
    UniqueOfDistinct(ids);
  }

  lemma UniqueOfOne(id: string)
    ensures Unique([id]) == [id] && Unique([id, id]) == [id]
  {
    assert [id][..0] == [] && [id, id][..1] == [id];
  }

  /** A report over observed processes completes exactly when each of them said its events, under an operation of its own. */
  lemma CompletesExactly(i: Input)
    requires AllSound(i)
    ensures Clean(i) <==> exists ids :: Told(i, ids)
  {
    hide NormalClean, CancellationClean, ParentLossClean, Sound, Attempts, WellNamed, NormalTold, CancellationTold, LossTold,
      ReentryTold, Consistent, Unrepeated, DistinctIds, Groups, OperationId, LostOnce, InPhases, ExactlyMatch, Changed, AllSteps, ProcessClean;
    if Clean(i) { CleanIsTold(i); }
    if ids :| Told(i, ids) {
      GroupsAre(i, ids);
      forall k | 0 <= k < |ids| ensures OperationId(ids[k]) { NamedExactly(ids[k]); }
      IdentitiesFit(Groups(Attempts(i)), ids);
      forall k | 0 <= k < |i.normal| ensures NormalClean(i.normal[k]) {
        assert NormalTold(i.normal[k], ids[k]) && WellNamed(ids[k]);
        NormalExactly(i.normal[k]);
      }
      CancellationExactly(i);
      LossExactly(i.recovery);
      ReentryExactly(i.recovery);
    }
  }
}
