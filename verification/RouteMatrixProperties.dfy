/** What follows for a whole matrix from the soundness of its report. */
module RouteMatrixProperties {
  import opened Common
  import opened RecoveryIds
  import opened TaskRecords
  import opened RouteMatrix
  import opened TaskTrace
  import TaskRun

  // ------------------------------------------------------------ order

  lemma {:induction false} RouteIsExactCount(results: seq<Attempt>, mode: Option<Mode>, i: nat)
    requires Progress(results, mode) && i < |results|
    ensures results[i].route == ExactCount(results[..i], mode)
  {
    hide Exact, Advances;
    if i > 0 {
      RouteIsExactCount(results, mode, i - 1);
      assert results[..i][..i - 1] == results[..i - 1];
      assert Linked(results, i - 1, mode);
    }
  }

  lemma {:induction false} ExactCountGrows(results: seq<Attempt>, mode: Option<Mode>, i: nat, j: nat)
    requires i <= j <= |results|
    ensures ExactCount(results[..i], mode) <= ExactCount(results[..j], mode)
    decreases j - i
  {
    if i < j {
      ExactCountGrows(results, mode, i, j - 1);
      assert results[..j][..j - 1] == results[..j - 1];
    }
  }

  /** At most one attempt of a route is exact, and only later routes follow it. */
  lemma LaterRouteAfterExact(results: seq<Attempt>, mode: Option<Mode>, i: nat, j: nat)
    requires Progress(results, mode) && i < j < |results| && Exact(results[i], mode)
    ensures results[i].route < results[j].route
  {
    hide Exact, Advances, Progress;
    RouteIsExactCount(results, mode, i);
    RouteIsExactCount(results, mode, j);
    assert results[..i + 1][..i] == results[..i];
    ExactCountGrows(results, mode, i + 1, j);
  }

  lemma {:induction false} ExactAttemptOfRoute(results: seq<Attempt>, mode: Option<Mode>, n: nat, route: nat) returns (i: nat)
    requires Progress(results, mode) && n <= |results| && route < ExactCount(results[..n], mode)
    ensures i < n && results[i].route == route && Exact(results[i], mode)
  {
    hide Exact, Advances;
    assert results[..n][..n - 1] == results[..n - 1];
    if route < ExactCount(results[..n - 1], mode) {
      i := ExactAttemptOfRoute(results, mode, n - 1, route);
    } else {
      i := n - 1;
      RouteIsExactCount(results, mode, i);
    }
  }

  predicate HasExact(results: seq<Attempt>, mode: Option<Mode>, route: int) {
    exists i :: 0 <= i < |results| && results[i].route == route && Exact(results[i], mode)
  }

  /** A completed matrix holds exactly one exact result for each of the four routes, in the order of the
      routes, and every attempt names the same release and the same execution. */
  lemma OneExactPerRouteInOrder(r: MatrixResult, outcomes: seq<Outcome>, g: Grammars)
    requires r.Report? && ReportSound(r, outcomes, g) && r.completed
    ensures forall route :: 0 <= route < ROUTE_COUNT ==> HasExact(r.results, r.initialMode, route)
    ensures forall i, j :: 0 <= i < j < |r.results| && Exact(r.results[i], r.initialMode) ==> r.results[i].route < r.results[j].route
    ensures OneIdentity(r.results)
  {
    hide Exact, Advances, Progress, Traced, OneIdentity, ExactCount;
    forall route | 0 <= route < ROUTE_COUNT
      ensures HasExact(r.results, r.initialMode, route)
    {
      assert r.results[..|r.results|] == r.results;
      var i := ExactAttemptOfRoute(r.results, r.initialMode, |r.results|, route);
    }
    forall i, j | 0 <= i < j < |r.results| && Exact(r.results[i], r.initialMode)
      ensures r.results[i].route < r.results[j].route
    {
      LaterRouteAfterExact(r.results, r.initialMode, i, j);
    }
  }

  // ------------------------------------------------------------ poison

  /** Some attempt starts in a poisoned process exactly when an answer before the last one poisoned it
      without saying so; and a completed matrix asks for a restart exactly when any answer did that. */
  lemma PoisonStopsUnlessUnreported(r: MatrixResult, outcomes: seq<Outcome>, g: Grammars)
    requires r.Report? && ReportSound(r, outcomes, g)
    ensures (exists i :: 0 <= i < |r.results| && r.results[i].poisonedBefore)
            <==> (exists j :: 0 <= j < |r.results| - 1 && !Reported(outcomes[j]))
    ensures r.completed ==>
              (r.processRestartRequired <==> exists j :: 0 <= j < |r.results| && !Reported(outcomes[j]))
  {
    hide RouteSafetyExact, ExactRoute, OneIdentity, ExactCount;
    var n := |r.results|;
    forall j | 0 <= j < n && (j < n - 1 || r.completed)
      ensures outcomes[j].poisons <==> !Reported(outcomes[j])
    {
      AdvancedLeavesNothing(r, outcomes, g, j);
    }
    if j :| 0 <= j < n - 1 && !Reported(outcomes[j]) {
      assert r.results[n - 1].poisonedBefore;
    }
  }

  /** With a runner that reports its poisonings no attempt starts in a poisoned process, and a completed matrix asks
      for no restart. */
  lemma ReportedPoisonStops(r: MatrixResult, outcomes: seq<Outcome>, g: Grammars)
    requires r.Report? && ReportSound(r, outcomes, g)
    requires forall j :: 0 <= j < |outcomes| ==> Reported(outcomes[j])
    ensures forall i :: 0 <= i < |r.results| ==> !r.results[i].poisonedBefore
    ensures r.completed ==> !r.processRestartRequired
  {
    hide ReportSound;
    PoisonStopsUnlessUnreported(r, outcomes, g);
    assert |r.results| <= |outcomes| by { SoundIsTraced(r, outcomes, g); }
  }

  lemma SoundIsTraced(r: MatrixResult, outcomes: seq<Outcome>, g: Grammars)
    requires r.Report? && ReportSound(r, outcomes, g)
    ensures Traced(r.results, outcomes, g)
  {
    hide Traced, Progress, Stops;
  }

  const CLEAN_ROUTE := RouteRecord(0, true, false, Some(ReusedInitialConsent), Some("release"), Some("execution"),
                                   True, False, False, False, False, False, False, False,
                                   Pairs(NOTHING, NOTHING, NOTHING, NOTHING), False)

  /** The failing case: the first answer poisons the process and is an exact result that does not say so. Every report
      of such a matrix has a second attempt, and that one started in a poisoned process. */
  lemma UnreportedPoisonGoesOn(r: MatrixResult, outcomes: seq<Outcome>, g: Grammars)
    requires r.Report? && ReportSound(r, outcomes, g)
    requires outcomes[0] == Returned(Some(CLEAN_ROUTE), true)
    ensures !Reported(outcomes[0])
    ensures |r.results| >= 2 && r.results[1].number == 1 && r.results[1].route == 1 && r.results[1].poisonedBefore
  {
    hide ReportSound, Traced, Chained, Advances;
    FirstRan(r, outcomes, g, CLEAN_ROUTE);
    FirstExactGoesOn(r, outcomes, g);
  }

  /** A first answer that can be read safely is the record of the first attempt. */
  lemma FirstRan(r: MatrixResult, outcomes: seq<Outcome>, g: Grammars, record: RouteRecord)
    requires r.Report? && ReportSound(r, outcomes, g)
    requires outcomes[0].Returned? && outcomes[0].record == Some(record) && RouteSafetyExact(record, g)
    ensures r.results != [] && r.results[0].route == 0 && r.results[0].number == 1
    ensures r.results[0].Ran? && r.results[0].record == record && r.initialMode == record.authorizationMode
  {
    hide RouteSafetyExact, OneIdentity, Advances, Exact, Chained, ExactCount, Stops;
  }

  /** After an exact first attempt the matrix goes on to the second route. */
  lemma FirstExactGoesOn(r: MatrixResult, outcomes: seq<Outcome>, g: Grammars)
    requires r.Report? && ReportSound(r, outcomes, g)
    requires r.results != [] && Exact(r.results[0], r.initialMode) && outcomes[0].poisons
    ensures |r.results| >= 2 && r.results[1].number == 1 && r.results[1].route == r.results[0].route + 1
    ensures r.results[1].poisonedBefore
  {
    hide RouteSafetyExact, SafeRetryable, NothingLeft, ExpectedMode;
    if |r.results| == 1 {
      AloneIsNotAll(r, outcomes, g);
      assert false;
    }
    assert Linked(r.results, 0, r.initialMode);
  }

  lemma AloneIsNotAll(r: MatrixResult, outcomes: seq<Outcome>, g: Grammars)
    requires r.Report? && ReportSound(r, outcomes, g) && |r.results| == 1
    ensures !r.completed && Stops(r.results, r.initialMode)
  {
    hide Progress, Exact, Traced, OneIdentity;
    assert r.results[..0] == [];
  }

  // A matrix whose runner is the signed task run: the default of the source.

  /** What a task run carries besides its own result: consent, release and execution identity. */
  datatype Labels = Labels(authorizationMode: Option<Mode>, release: Option<string>, execution: Option<string>)

  function FlagOf(b: bool): Flag {
    if b then True else False
  }

  function PairOfIds(ids: seq<string>): Source {
    Source(if |ids| == 1 then Text(ids[0]) else Null, Items(Texts(ids)), true)
  }

  /** The result of a task run as the matrix reads it. */
  function RecordOf(t: Result, route: nat, labels: Labels): RouteRecord {
    RouteRecord(route, t.completed, t.reason == CandidateContentMismatch && t.candidateDiscarded == Some(true),
                labels.authorizationMode, labels.release, labels.execution,
                FlagOf(t.cleanupConfirmed), FlagOf(t.manualRecoveryRequired), FlagOf(t.processRestartRequired),
                FlagOf(t.effectStateUnknown),
                match t.canonicalRepositoryChanged case Changed => True case Unchanged => False case Unknown => Unreadable,
                False, False, False,
                Pairs(PairOfIds(t.recovery.host.ids), PairOfIds(t.recovery.docker.ids),
                      PairOfIds(t.recovery.candidate.ids), PairOfIds(t.recovery.store.ids)),
                FlagOf(t.recoveryIdentityAmbiguous))
  }

  /** The answer of a task run that returned and left the poison flag as given. */
  function TaskOutcome(t: Result, poisonedAfter: bool, route: nat, labels: Labels): Outcome {
    Returned(Some(RecordOf(t, route, labels)), poisonedAfter)
  }

  /** The k-th answer carries the place and the labels of its task, and is the completed result exactly when the gates of
      that task are open, in the process that the answers before it left, and it succeeds unharmed. */
  ghost predicate AnswersTask(outcomes: seq<Outcome>, k: nat, e: Environment, route: nat, labels: Labels, poisoned: bool, g: Grammars)
    requires k < |outcomes|
  {
    && outcomes[k].Returned? && outcomes[k].record.Some?
    && var record := outcomes[k].record.value;
    && record.route == route && record.authorizationMode == labels.authorizationMode
    && record.release == labels.release && record.execution == labels.execution
    && (record.completed <==>
          GateReason(e, poisoned || PoisonedBy(outcomes, k)).None? && TaskSucceeds(e, g) && Unharmed(e))
    && (record.completed ==> record == RecordOf(CompletedResult(), route, labels))
  }

  lemma AnswerStays(answers: seq<Outcome>, more: Outcome, k: nat, e: Environment, route: nat, labels: Labels, poisoned: bool, g: Grammars)
    requires k < |answers| && AnswersTask(answers, k, e, route, labels, poisoned, g)
    ensures AnswersTask(answers + [more], k, e, route, labels, poisoned, g)
  {
    hide GateReason, TaskSucceeds, Unharmed, RecordOf;
    PoisonStays(answers, more, k);
  }

  lemma PoisonStays(answers: seq<Outcome>, more: Outcome, k: nat)
    requires k <= |answers|
    ensures PoisonedBy(answers + [more], k) <==> PoisonedBy(answers, k)
    ensures PoisonedBy(answers + [more], |answers| + 1) <==> PoisonedBy(answers, |answers|) || more.poisons
  {
    var all := answers + [more];
    forall j | 0 <= j < |answers| ensures all[j] == answers[j] {}
    assert all[|answers|] == more;
  }

  lemma NobodyPoisoned()
    ensures !PoisonedBy([], 0)
  {
  }

  /** The next task, run in the process that the answers before it left. */
  method NextAnswer(g: Grammars, ghost answers: seq<Outcome>, e: Environment, route: nat, labels: Labels, poisoned: bool,
                    ghost first: bool)
    returns (o: Outcome)
    requires poisoned <==> first || PoisonedBy(answers, |answers|)
    ensures Reported(o) && (poisoned ==> o.poisons)
    ensures AnswersTask(answers + [o], |answers|, e, route, labels, first, g)
    ensures PoisonedBy(answers + [o], |answers| + 1) <==> PoisonedBy(answers, |answers|) || o.poisons
  {
    hide AnswersTask, PoisonedBy, RecordOf, EndReason, TaskSucceeds, Unharmed, GateReason;
    var runner := new TaskRun.Runner(g, poisoned);
    var t := runner.Run(e);
    TaskRunReports(runner, e, t, route, labels);
    o := TaskOutcome(t, runner.poisoned, route, labels);
    TaskAnswered(runner, answers, o, e, t, route, labels, poisoned, first);
  }

  /** A matrix over task runs, each in the process that the ones before it left: no attempt starts in a poisoned process,
      and a completed matrix asks for no restart. */
  method MatrixOverTasks(m: Matrix, environments: seq<Environment>, routes: seq<nat>, labels: seq<Labels>)
    returns (r: MatrixResult, ghost outcomes: seq<Outcome>)
    requires |environments| == |routes| == |labels| >= ROUTE_COUNT * MAX_SAFE_ROUTE_ATTEMPTS
    requires m.release.None? && m.execution.None? && m.initialMode.None?
    modifies m
    ensures r.RestartRequired? <==> old(m.poisoned)
    ensures r.Report? ==> ReportSound(r, outcomes, m.grammars) && r.processRestartRequired == m.poisoned
    ensures r.Report? ==> forall i :: 0 <= i < |r.results| ==> !r.results[i].poisonedBefore
    ensures r.Report? && r.completed ==> !m.poisoned
    // The k-th answer is of the k-th task: completed exactly when that task is.
    ensures |outcomes| == |environments|
    ensures forall k :: 0 <= k < |outcomes| ==>
              AnswersTask(outcomes, k, environments[k], routes[k], labels[k], old(m.poisoned), m.grammars)
  {
    hide ReportSound, RecordOf, EndReason, TaskSucceeds, Unharmed, GateReason, AnswersTask, PoisonedBy;
    var answers: seq<Outcome>, poisoned := [], m.poisoned;
    NobodyPoisoned();
    while |answers| < |environments|
      invariant |answers| <= |environments| && unchanged(m)
      invariant forall j :: 0 <= j < |answers| ==> Reported(answers[j])
      invariant poisoned <==> m.poisoned || PoisonedBy(answers, |answers|)
      invariant forall k :: 0 <= k < |answers| ==>
                  AnswersTask(answers, k, environments[k], routes[k], labels[k], m.poisoned, m.grammars)
    {
      var k := |answers|;
      var o := NextAnswer(m.grammars, answers, environments[k], routes[k], labels[k], poisoned, m.poisoned);
      forall i | 0 <= i < k ensures AnswersTask(answers + [o], i, environments[i], routes[i], labels[i], m.poisoned, m.grammars) {
        AnswerStays(answers, o, i, environments[i], routes[i], labels[i], m.poisoned, m.grammars);
      }
      answers, poisoned := answers + [o], poisoned || o.poisons;
    }
    outcomes := answers;
    r := m.Run(answers);
    if r.Report? { ReportedPoisonStops(r, answers, m.grammars); }
  }

  /** The answer of the next task, when the poison flag stood as the answers before it left it. */
  lemma TaskAnswered(runner: TaskRun.Runner, answers: seq<Outcome>, o: Outcome, e: Environment, t: Result, route: nat,
                     labels: Labels, before: bool, poisoned: bool)
    requires runner.RunSound(e, t) && o == TaskOutcome(t, runner.poisoned, route, labels)
    requires before <==> poisoned || PoisonedBy(answers, |answers|)
    requires t.completed <==> GateReason(e, before).None? && TaskSucceeds(e, runner.grammars) && Unharmed(e)
    ensures AnswersTask(answers + [o], |answers|, e, route, labels, poisoned, runner.grammars)
    ensures PoisonedBy(answers + [o], |answers| + 1) <==> PoisonedBy(answers, |answers|) || o.poisons
  {
    hide GateReason, TaskSucceeds, Unharmed, PoisonedBy;
    PoisonStays(answers, o, |answers|);
  }

  /** A task run reports the poison flag truthfully, so its answer reports the poisoning that it did. */
  lemma TaskRunReports(runner: TaskRun.Runner, e: Environment, t: Result, route: nat, labels: Labels)
    requires runner.RunSound(e, t)
    ensures Reported(TaskOutcome(t, runner.poisoned, route, labels))
  {
  }

  lemma AdvancedLeavesNothing(r: MatrixResult, outcomes: seq<Outcome>, g: Grammars, j: nat)
    requires r.Report? && ReportSound(r, outcomes, g)
    requires j < |r.results| && (j < |r.results| - 1 || r.completed)
    ensures r.results[j].Ran? && r.results[j].record.processRestartRequired == False
    ensures outcomes[j].Returned? && outcomes[j].record == Some(r.results[j].record)
  {
    hide RouteSafetyExact, OneIdentity, ExactCount, NoRecovery;
    if j < |r.results| - 1 { assert Advances(r.results[j], r.initialMode); }
  }

  // ------------------------------------------------------------ recovery

  datatype Kind = Host | Docker | Candidate | Store

  function PairOf(p: Pairs, k: Kind): Source {
    (match k case Host => p.host case Docker => p.docker case Candidate => p.candidate case Store => p.store).(hasPlural := true)
  }

  function GrammarOf(g: Grammars, k: Kind): Grammar {
    match k case Host => g.host case Docker => g.docker case Candidate => g.candidate case Store => g.store
  }

  function Texts(ids: seq<string>): (r: seq<Field>)
    ensures |r| == |ids| && forall i :: 0 <= i < |ids| ==> r[i] == Text(ids[i])
  {
    seq(|ids|, i requires 0 <= i < |ids| => Text(ids[i]))
  }

  /** A salvaged pair as it is written into a result. */
  function SanitizedPair(s: Source, g: Grammar): Source {
    var ids := SalvagePair(s.singular, s.plural, g).ids;
    Source(if |ids| == 1 then Text(ids[0]) else Null, Items(Texts(ids)), true)
  }

  /** sanitizedRouteRecovery. */
  function Sanitized(p: Pairs, g: Grammars): Pairs {
    Pairs(SanitizedPair(p.host, g.host), SanitizedPair(p.docker, g.docker),
          SanitizedPair(p.candidate, g.candidate), SanitizedPair(p.store, g.store))
  }

  predicate SanitizedAmbiguous(p: Pairs, g: Grammars) {
    SalvagePair(p.host.singular, p.host.plural, g.host).ambiguous ||
    SalvagePair(p.docker.singular, p.docker.plural, g.docker).ambiguous ||
    SalvagePair(p.candidate.singular, p.candidate.plural, g.candidate).ambiguous ||
    SalvagePair(p.store.singular, p.store.plural, g.store).ambiguous
  }

  const NOTHING := Source(Null, Items([]), true)

  /** The recovery part of the entry in the list of results. */
  function EntryPairs(a: Attempt, g: Grammars): Pairs {
    if a.Ran? then a.record.recovery
    else if a.observed.None? then Pairs(NOTHING, NOTHING, NOTHING, NOTHING)
    else Sanitized(a.observed.value.recovery, g)
  }

  predicate EntryAmbiguous(a: Attempt, g: Grammars) {
    if a.Ran? then a.record.recoveryIdentityAmbiguous == True
    else a.observed.None? || SanitizedAmbiguous(a.observed.value.recovery, g)
  }

  function KindSources(results: seq<Attempt>, k: Kind, g: Grammars): (r: seq<Source>)
    ensures |r| == |results| && forall i :: 0 <= i < |r| ==> r[i] == PairOf(EntryPairs(results[i], g), k)
  {
    seq(|results|, i requires 0 <= i < |results| => PairOf(EntryPairs(results[i], g), k))
  }

  function AggregateKind(results: seq<Attempt>, k: Kind, g: Grammars): Salvage {
    Projection(KindSources(results, k, g), GrammarOf(g, k))
  }

  predicate AggregateAmbiguous(results: seq<Attempt>, g: Grammars) {
    (exists i :: 0 <= i < |results| && EntryAmbiguous(results[i], g)) ||
    AggregateKind(results, Host, g).ambiguous || AggregateKind(results, Docker, g).ambiguous ||
    AggregateKind(results, Candidate, g).ambiguous || AggregateKind(results, Store, g).ambiguous
  }

  /** aggregateRouteRecovery. */
  method AggregateRouteRecovery(results: seq<Attempt>, g: Grammars)
    returns (host: seq<string>, docker: seq<string>, candidate: seq<string>, store: seq<string>, ambiguous: bool)
    ensures host == AggregateKind(results, Host, g).ids && docker == AggregateKind(results, Docker, g).ids
    ensures candidate == AggregateKind(results, Candidate, g).ids && store == AggregateKind(results, Store, g).ids
    ensures ambiguous <==> AggregateAmbiguous(results, g)
  {
    hide Projection, EntryAmbiguous;
    ambiguous := false;
    for i := 0 to |results|
      invariant ambiguous <==> exists k :: 0 <= k < i && EntryAmbiguous(results[k], g)
    {
      if EntryAmbiguous(results[i], g) { ambiguous := true; }
    }
    var h := BoundedRecoveryIds(KindSources(results, Host, g), g.host);
    var d := BoundedRecoveryIds(KindSources(results, Docker, g), g.docker);
    var c := BoundedRecoveryIds(KindSources(results, Candidate, g), g.candidate);
    var s := BoundedRecoveryIds(KindSources(results, Store, g), g.store);
    host, docker, candidate, store := h.ids, d.ids, c.ids, s.ids;
    ambiguous := ambiguous || h.ambiguous || d.ambiguous || c.ambiguous || s.ambiguous;
  }

  /** A record that a runner handed over, whether or not it was accepted as a route result. */
  function Handed(a: Attempt): Option<RouteRecord> {
    if a.Ran? then Some(a.record) else a.observed
  }

  /** No canonical identity of any record that any attempt handed over is lost from the report: it is listed,
      or the report says that its recovery identities are ambiguous. An attempt without a record says so too. */
  lemma MatrixKeepsRecovery(results: seq<Attempt>, g: Grammars, i: nat, k: Kind, id: string)
    requires i < |results|
    ensures Handed(results[i]).None? ==> AggregateAmbiguous(results, g)
    ensures Handed(results[i]).Some? && GrammarOf(g, k)(id) && Mentions(PairOf(Handed(results[i]).value.recovery, k), id) ==>
              id in AggregateKind(results, k, g).ids || AggregateAmbiguous(results, g)
  {
    hide Projection, SalvagePair, SalvageSource;
    if Handed(results[i]).None? {
      assert EntryAmbiguous(results[i], g);
    } else if GrammarOf(g, k)(id) && Mentions(PairOf(Handed(results[i]).value.recovery, k), id) {
      EntryKeeps(results[i], g, k, id);
      if !EntryAmbiguous(results[i], g) {
        NeverSilentlyLost(KindSources(results, k, g), GrammarOf(g, k));
        assert KindSources(results, k, g)[i] in KindSources(results, k, g);
      }
    }
  }

  lemma EntryKeeps(a: Attempt, g: Grammars, k: Kind, id: string)
    requires Handed(a).Some? && GrammarOf(g, k)(id) && Mentions(PairOf(Handed(a).value.recovery, k), id)
    ensures EntryAmbiguous(a, g) || Mentions(PairOf(EntryPairs(a, g), k), id)
  {
    hide SalvagePair;
    if a.RunnerFailed? {
      var s := PairOf(a.observed.value.recovery, k);
      SalvageKeepsMentioned(s, GrammarOf(g, k), id);
      var v := SalvagePair(s.singular, s.plural, GrammarOf(g, k));
      if id in v.ids {
        var j :| 0 <= j < |v.ids| && v.ids[j] == id;
        assert Texts(v.ids)[j] == Text(id);
      }
    }
  }

  // Salvaging again what was salvaged changes nothing and finds nothing ambiguous.

  lemma {:induction false} CanonicalTexts(ids: seq<string>, g: Grammar)
    requires forall i :: 0 <= i < |ids| ==> g(ids[i])
    ensures CanonicalItems(Texts(ids), g) == ids
  {
    hide Texts;
    if ids != [] {
      var front, last := ids[..|ids| - 1], ids[|ids| - 1];
      CanonicalTexts(front, g);
      assert Texts(ids)[..|ids| - 1] == Texts(front);
      assert Texts(ids)[|ids| - 1] == Text(last);
      assert ids == front + [last];
    }
  }

  lemma DistinctTexts(ids: seq<string>, g: Grammar)
    requires forall i, j :: 0 <= i < j < |ids| ==> ids[i] != ids[j]
    requires forall i :: 0 <= i < |ids| ==> g(ids[i])
    ensures Distinct(Texts(ids)) && forall i :: 0 <= i < |ids| ==> CanonicalField(Texts(ids)[i], g)
  {
  }

  lemma PairIdsOfTexts(ids: seq<string>, singular: Field, g: Grammar)
    requires |ids| <= MAXIMUM_RECOVERY_IDS
    requires forall i :: 0 <= i < |ids| ==> g(ids[i])
    requires forall i, j :: 0 <= i < j < |ids| ==> ids[i] != ids[j]
    requires singular == if |ids| == 1 then Text(ids[0]) else Null
    ensures Unique(PairIds(singular, Items(Texts(ids)), g)) == ids
  {
    hide Unique, CanonicalItems, Texts;
    CanonicalTexts(ids, g);
    UniqueOfDistinct(ids);
    if |ids| == 1 {
      assert ids == [ids[0]];
      assert PairIds(singular, Items(Texts(ids)), g) == [ids[0], ids[0]];
      UniqueTwice(ids[0]);
    } else {
      assert PairIds(singular, Items(Texts(ids)), g) == ids;
    }
  }

  lemma UniqueTwice(x: string)
    ensures Unique([x, x]) == [x]
  {
    assert [x, x][..1] == [x] && [x][..0] == [];
  }

  lemma SalvagedIds(s: Source, g: Grammar)
    ensures var ids := SalvagePair(s.singular, s.plural, g).ids;
            |ids| <= MAXIMUM_RECOVERY_IDS && (forall i :: 0 <= i < |ids| ==> g(ids[i])) &&
            (forall i, j :: 0 <= i < j < |ids| ==> ids[i] != ids[j])
  {
    var ids := SalvagePair(s.singular, s.plural, g).ids;
    hide CanonicalField;
    forall i | 0 <= i < |ids| ensures g(ids[i]) {
      assert ids[i] in Unique(PairIds(s.singular, s.plural, g));
      PairIdsCanonical(s, g, ids[i]);
    }
  }

  /** What sanitizedRouteRecovery writes is exact, and reading it back gives the same identities unambiguously. */
  lemma SanitizedReadsBack(s: Source, g: Grammar)
    ensures var t := SanitizedPair(s, g);
            PairExact(t.singular, t.plural, g) &&
            SalvagePair(t.singular, t.plural, g) == Salvage(SalvagePair(s.singular, s.plural, g).ids, false)
  {
    SalvagedIds(s, g);
    TextsReadBack(SalvagePair(s.singular, s.plural, g).ids, SanitizedPair(s, g).singular, g);
    hide SalvagePair, PairExact;
  }

  lemma TextsReadBack(ids: seq<string>, singular: Field, g: Grammar)
    requires |ids| <= MAXIMUM_RECOVERY_IDS
    requires forall i :: 0 <= i < |ids| ==> g(ids[i])
    requires forall i, j :: 0 <= i < j < |ids| ==> ids[i] != ids[j]
    requires singular == if |ids| == 1 then Text(ids[0]) else Null
    ensures PairExact(singular, Items(Texts(ids)), g)
    ensures SalvagePair(singular, Items(Texts(ids)), g) == Salvage(ids, false)
  {
    PairIdsOfTexts(ids, singular, g);
    DistinctTexts(ids, g);
    hide PairIds, Unique, Distinct;
  }

  lemma PairIdsCanonical(s: Source, g: Grammar, id: string)
    requires id in PairIds(s.singular, s.plural, g)
    ensures g(id)
  {
    if !(CanonicalField(s.singular, g) && s.singular.text == id) {
      CanonicalItemsMentioned(s.plural.items, g, id);
    }
  }
}
