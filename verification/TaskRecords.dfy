/** Records that cross the trust boundary of a task run, the safety test on them and the results built from them. */
module TaskRecords {
  import opened Common
  import opened RecoveryIds

  /** A property that should be a boolean. */
  datatype Flag = True | False | Unreadable

  datatype RuntimeRecord = RuntimeRecord(
    status: string,
    publicReason: Option<string>,   // reason, when it is one of the public reason codes
    candidateId: Field,
    cleanupConfirmed: Flag, manualRecoveryRequired: Flag, processRestartRequired: Flag, canonicalRepositoryChanged: Flag,
    rawOutputReported: Flag, hostPathReported: Flag, untrustedProviderTextReported: Flag,
    hostRecoveryId: Field, dockerRecoveryId: Field, dockerRecoveryIds: ListField,
    candidateRecoveryId: Field, candidateStoreRecoveryId: Field,
    consentRecorded: bool,       // externalSendAuthorizationMode is one of the two known modes
    otherFieldsConform: bool)    // providers, reviewer, revisions and hashes are the expected ones

  datatype Grammars = Grammars(host: Grammar, docker: Grammar, candidate: Grammar, store: Grammar)

  predicate NullableExact(f: Field, g: Grammar) {
    f == Null || CanonicalField(f, g)
  }

  predicate PairExact(singular: Field, plural: ListField, g: Grammar) {
    && NullableExact(singular, g)
    && plural.Items? && |plural.items| <= MAXIMUM_RECOVERY_IDS
    && (forall i :: 0 <= i < |plural.items| ==> CanonicalField(plural.items[i], g)) && Distinct(plural.items)
    && (if |plural.items| == 1 then singular == plural.items[0] else singular == Null)
  }

  /** The fields of one kind can be taken as they are: they leave no doubt, and a list that is empty stands alone. */
  predicate Settled(s: Source, g: Grammar) {
    Clear(s, g) && s.singular != Absent && (s.hasPlural && s.plural == Items([]) ==> s.singular == Null)
  }

  lemma ExactIsSettled(singular: Field, plural: ListField, g: Grammar)
    ensures NullableExact(singular, g) <==> Settled(Source(singular, NoList, false), g)
    ensures PairExact(singular, plural, g) <==> Settled(Source(singular, plural, true), g)
  {
    if plural.Items? {
      var items := plural.items;
      assert (forall f :: f in items ==> f.Text? && g(f.text)) <==> forall i :: 0 <= i < |items| ==> CanonicalField(items[i], g) by {
        assert forall i :: 0 <= i < |items| ==> items[i] in items;
      }
      if |items| == 1 { assert items == [items[0]]; }
    }
  }

  /** evaluateSignedRunnerSafetyObservation with the schema of task results: the record says what it did, and
      neither an unconfirmed cleanup nor a recovery identity comes without a call for recovery. */
  predicate SafetyExact(t: RuntimeRecord, g: Grammars) {
    && t.cleanupConfirmed != Unreadable && t.manualRecoveryRequired != Unreadable
    && t.processRestartRequired != Unreadable && t.canonicalRepositoryChanged != Unreadable
    && t.rawOutputReported != Unreadable && t.hostPathReported != Unreadable && t.untrustedProviderTextReported != Unreadable
    && NullableExact(t.hostRecoveryId, g.host) && NullableExact(t.candidateRecoveryId, g.candidate)
    && NullableExact(t.candidateStoreRecoveryId, g.store) && PairExact(t.dockerRecoveryId, t.dockerRecoveryIds, g.docker)
    && !(t.cleanupConfirmed == False && t.manualRecoveryRequired == False)
    && (t.manualRecoveryRequired == False ==>
          t.hostRecoveryId == Null && t.candidateRecoveryId == Null && t.candidateStoreRecoveryId == Null &&
          t.dockerRecoveryIds.items == [])
  }

  /** taskResultContractMismatch is null, given that the work repository was seen unchanged. */
  predicate ContractConforms(t: RuntimeRecord) {
    && t.status == "completed" && t.otherFieldsConform && t.consentRecorded
    && t.cleanupConfirmed == True && t.manualRecoveryRequired == False && t.processRestartRequired == False
    && t.canonicalRepositoryChanged == False && t.rawOutputReported == False && t.hostPathReported == False
    && t.untrustedProviderTextReported == False
    && t.hostRecoveryId == Null && t.dockerRecoveryId == Null && t.dockerRecoveryIds == Items([])
    && t.candidateRecoveryId == Null && t.candidateStoreRecoveryId == Null
    && t.candidateId.Text?
  }

  // ------------------------------------------------------------ results

  datatype Change = Changed | Unchanged | Unknown

  datatype Recovery = Recovery(host: Salvage, docker: Salvage, candidate: Salvage, store: Salvage)

  /** The reason codes of a run, without their common prefix; OfResult is a public code taken over from the record of
      the task. */
  datatype Reason =
    | VerificationArgumentsInvalid | RepositoryRootInvalid | NodeVersionUnsupported | ProcessRestartRequired
    | ReleaseVerificationFailed | GitObjectFormatUnsupported | RepositoryRevisionObservationFailed | BaseContentMismatch
    | StartFailedClosed
    | StartedTaskObservationUnknown | CompletionObserverUnknown | StartedTaskCompletionUnknown | PostStartObservationUnknown
    | CompletionRejected | ResultContractMismatch | SafetyObservationUnknown
    | CancellationUnbindUnknown | CancellationObservationUnknown | CancellationCompletionUnknown
    | CompletionSettlementUnknown | CancellationCleanupUnknown | Cancelled | FinalOutcomeUnknown
    | CandidateDiscardFailed | CandidateContentMismatch | ExecutionRepositoryObservationUnknown | ExecutionRepositoryChanged
    | VerificationCompleted
    | OfResult(code: string)

  datatype Result = Result(
    completed: bool, reason: Reason,
    cleanupConfirmed: bool, manualRecoveryRequired: bool, processRestartRequired: bool, effectStateUnknown: bool,
    candidateDiscarded: Option<bool>, recovery: Recovery, recoveryIdentityAmbiguous: bool,
    canonicalRepositoryChanged: Change)

  /** The properties with which a caller of blocked overrides the projection; None leaves them out. */
  datatype Extra = Extra(cleanupConfirmed: Option<bool>, manualRecoveryRequired: Option<bool>,
                         candidateDiscarded: Option<bool>, changed: Option<Change>, effectStateUnknown: Option<bool>)

  const NO_EXTRA := Extra(None, None, None, None, None)

  function Present(results: seq<Option<RuntimeRecord>>): (r: seq<RuntimeRecord>)
    ensures forall t :: t in r <==> Some(t) in results
  {
    if results == [] then []
    else
      assert results == [results[0]] + results[1..];
      (if results[0].Some? then [results[0].value] else []) + Present(results[1..])
  }

  function HostSources(s: seq<RuntimeRecord>): (r: seq<Source>)
    ensures |r| == |s| && forall i :: 0 <= i < |s| ==> r[i] == Source(s[i].hostRecoveryId, NoList, false)
  {
    seq(|s|, i requires 0 <= i < |s| => Source(s[i].hostRecoveryId, NoList, false))
  }

  function DockerSources(s: seq<RuntimeRecord>): (r: seq<Source>)
    ensures |r| == |s| && forall i :: 0 <= i < |s| ==> r[i] == Source(s[i].dockerRecoveryId, s[i].dockerRecoveryIds, true)
  {
    seq(|s|, i requires 0 <= i < |s| => Source(s[i].dockerRecoveryId, s[i].dockerRecoveryIds, true))
  }

  function CandidateSources(s: seq<RuntimeRecord>): (r: seq<Source>)
    ensures |r| == |s| && forall i :: 0 <= i < |s| ==> r[i] == Source(s[i].candidateRecoveryId, NoList, false)
  {
    seq(|s|, i requires 0 <= i < |s| => Source(s[i].candidateRecoveryId, NoList, false))
  }

  function StoreSources(s: seq<RuntimeRecord>): (r: seq<Source>)
    ensures |r| == |s| && forall i :: 0 <= i < |s| ==> r[i] == Source(s[i].candidateStoreRecoveryId, NoList, false)
  {
    seq(|s|, i requires 0 <= i < |s| => Source(s[i].candidateStoreRecoveryId, NoList, false))
  }

  function ProjectRecovery(s: seq<RuntimeRecord>, g: Grammars): Recovery {
    Recovery(Projection(HostSources(s), g.host), Projection(DockerSources(s), g.docker),
             Projection(CandidateSources(s), g.candidate), Projection(StoreSources(s), g.store))
  }

  /** Only docker recovery may name more than one identity. */
  predicate RecoveryAmbiguous(r: Recovery) {
    r.host.ambiguous || r.docker.ambiguous || r.candidate.ambiguous || r.store.ambiguous ||
    |r.host.ids| > 1 || |r.candidate.ids| > 1 || |r.store.ids| > 1
  }

  predicate AnyFlag(s: seq<RuntimeRecord>, field: RuntimeRecord -> Flag) {
    exists i :: 0 <= i < |s| && field(s[i]) == True
  }

  predicate EveryFlag(s: seq<RuntimeRecord>, field: RuntimeRecord -> Flag) {
    forall i :: 0 <= i < |s| ==> field(s[i]) == True
  }

  /** A record that reports a required restart poisons the process when it is projected. */
  predicate ReportsRestart(s: seq<RuntimeRecord>) {
    AnyFlag(s, (t: RuntimeRecord) => t.processRestartRequired)
  }

  function ChangeOf(extra: Option<Change>, source: Option<RuntimeRecord>): Change {
    if extra == Some(Changed) || (source.Some? && source.value.canonicalRepositoryChanged == True) then Changed
    else if extra == Some(Unknown) then Unknown
    else if extra == Some(Unchanged) || (source.Some? && source.value.canonicalRepositoryChanged == False) then Unchanged
    else Unknown
  }

  function OrElse<T>(o: Option<T>, default: T): T {
    if o.Some? then o.value else default
  }

  /** blocked, once recoveryProjection has settled the poison flag. */
  function Blocked(reason: Reason, source: Option<RuntimeRecord>, extra: Extra, additional: seq<Option<RuntimeRecord>>,
                   poisoned: bool, g: Grammars): Result
  {
    var s := Present([source] + additional);
    var recovery := ProjectRecovery(s, g);
    var changed := ChangeOf(extra.changed, source);
    Result(false, reason,
           OrElse(extra.cleanupConfirmed, s != [] && EveryFlag(s, (t: RuntimeRecord) => t.cleanupConfirmed)),
           OrElse(extra.manualRecoveryRequired, AnyFlag(s, (t: RuntimeRecord) => t.manualRecoveryRequired)),
           poisoned,
           OrElse(extra.effectStateUnknown, changed == Unknown),
           extra.candidateDiscarded, recovery, RecoveryAmbiguous(recovery), changed)
  }

  // ------------------------------------------------------------ what a blocked result says of its records

  /** The records confirm their cleanup: at least one of them, and each that is there. */
  predicate BothConfirm(a: Option<RuntimeRecord>, b: Option<RuntimeRecord>) {
    (a.Some? || b.Some?) && (a.Some? ==> a.value.cleanupConfirmed == True) && (b.Some? ==> b.value.cleanupConfirmed == True)
  }

  predicate EitherAsks(a: Option<RuntimeRecord>, b: Option<RuntimeRecord>) {
    (a.Some? && a.value.manualRecoveryRequired == True) || (b.Some? && b.value.manualRecoveryRequired == True)
  }

  /** The recovery identities are those of the records, and more than one of a kind that has one is ambiguous. */
  predicate TellsRecovery(r: Result, records: seq<RuntimeRecord>, g: Grammars) {
    var lists := [r.recovery.host, r.recovery.docker, r.recovery.candidate, r.recovery.store];
    && r.recovery == ProjectRecovery(records, g)
    && (r.recoveryIdentityAmbiguous <==>
          (exists i :: 0 <= i < 4 && (lists[i].ambiguous || (i != 1 && |lists[i].ids| >= 2))))
  }

  /** The override, where there is one, and what the records say, where there is none. */
  predicate Reflects(r: Result, source: Option<RuntimeRecord>, extra: Extra, other: Option<RuntimeRecord>, g: Grammars) {
    var moved := extra.changed == Some(Changed) || (source.Some? && source.value.canonicalRepositoryChanged == True);
    var same := extra.changed == Some(Unchanged) ||
                (extra.changed.None? && source.Some? && source.value.canonicalRepositoryChanged == False);
    && (r.cleanupConfirmed <==> OrElse(extra.cleanupConfirmed, BothConfirm(source, other)))
    && (r.manualRecoveryRequired <==> OrElse(extra.manualRecoveryRequired, EitherAsks(source, other)))
    && r.canonicalRepositoryChanged == (if moved then Changed else if same then Unchanged else Unknown)
    && (r.effectStateUnknown <==> OrElse(extra.effectStateUnknown, !moved && !same))
    && TellsRecovery(r, There(source, other), g)
  }

  /** At most one record beside the source. */
  function Beside(additional: seq<Option<RuntimeRecord>>): Option<RuntimeRecord> {
    if additional == [] then None else additional[0]
  }

  lemma BlockedReflects(reason: Reason, source: Option<RuntimeRecord>, extra: Extra, additional: seq<Option<RuntimeRecord>>,
                        poisoned: bool, g: Grammars)
    requires |additional| <= 1
    ensures Reflects(Blocked(reason, source, extra, additional, poisoned, g), source, extra, Beside(additional), g)
  {
    hide ProjectRecovery, RecoveryAmbiguous, Present, BothConfirm, EitherAsks, ChangeOf, There;
    AmbiguousExactly(ProjectRecovery(There(source, Beside(additional)), g));
    PresentOfTwo(source, additional);
    ChangeReflects(extra.changed, source);
    FlagsOfTwo(source, Beside(additional));
  }

  lemma AmbiguousExactly(r: Recovery)
    ensures var lists := [r.host, r.docker, r.candidate, r.store];
            RecoveryAmbiguous(r) <==> exists i :: 0 <= i < 4 && (lists[i].ambiguous || (i != 1 && |lists[i].ids| >= 2))
  {
    var lists := [r.host, r.docker, r.candidate, r.store];
    assert lists[0] == r.host && lists[1] == r.docker && lists[2] == r.candidate && lists[3] == r.store;
  }

  /** The records that are there, out of two. */
  function There(a: Option<RuntimeRecord>, b: Option<RuntimeRecord>): seq<RuntimeRecord> {
    if a.Some? && b.Some? then [a.value, b.value] else if a.Some? then [a.value] else if b.Some? then [b.value] else []
  }

  lemma PresentOfTwo(source: Option<RuntimeRecord>, additional: seq<Option<RuntimeRecord>>)
    requires |additional| <= 1
    ensures Present([source] + additional) == There(source, Beside(additional))
  {
    var all := [source] + additional;
    assert all[1..] == additional;
    if |additional| == 1 { assert additional[1..] == []; }
  }

  lemma ChangeReflects(extra: Option<Change>, source: Option<RuntimeRecord>)
    ensures ChangeOf(extra, source) == Changed <==>
              extra == Some(Changed) || (source.Some? && source.value.canonicalRepositoryChanged == True)
    ensures ChangeOf(extra, source) == Unchanged <==>
              ChangeOf(extra, source) != Changed &&
              (extra == Some(Unchanged) || (extra.None? && source.Some? && source.value.canonicalRepositoryChanged == False))
  {
    assert extra.Some? ==> extra.value.Changed? || extra.value.Unchanged? || extra.value.Unknown?;
  }

  lemma FlagsOfTwo(a: Option<RuntimeRecord>, b: Option<RuntimeRecord>)
    ensures var s := There(a, b);
            (BothConfirm(a, b) <==> s != [] && EveryFlag(s, (t: RuntimeRecord) => t.cleanupConfirmed)) &&
            (EitherAsks(a, b) <==> AnyFlag(s, (t: RuntimeRecord) => t.manualRecoveryRequired))
  {
    var s := There(a, b);
    assert a.Some? ==> s[0] == a.value;
    assert b.Some? ==> s[|s| - 1] == b.value;
  }

  const NO_RECOVERY := Recovery(Salvage([], false), Salvage([], false), Salvage([], false), Salvage([], false))
}
