/** When a task run completes, told field by field, and the reason that each single disturbance of such a run has. */
module TaskReasons {
  import opened Common
  import opened RecoveryIds
  import opened TaskRecords
  import opened TaskTrace

  /** The record of a completed task: clean, unchanged, nothing reported, nothing to recover. */
  predicate CompletedRecord(t: RuntimeRecord) {
    && t.status == "completed" && t.otherFieldsConform && t.consentRecorded && t.candidateId.Text?
    && t.cleanupConfirmed == True
    && t.manualRecoveryRequired == False && t.processRestartRequired == False && t.canonicalRepositoryChanged == False
    && t.rawOutputReported == False && t.hostPathReported == False && t.untrustedProviderTextReported == False
    && (forall f :: f in [t.hostRecoveryId, t.dockerRecoveryId, t.candidateRecoveryId, t.candidateStoreRecoveryId] ==> f == Null)
    && t.dockerRecoveryIds == Items([])
  }

  /** The completion that was fulfilled with a record. */
  predicate FulfilledWith(e: Environment, t: RuntimeRecord) {
    e.start.Started? && e.start.completion == Some(Fulfilled(Some(t)))
  }

  /** Nothing disturbs the run, and everything that it looks at is in order. */
  predicate InOrder(e: Environment, t: RuntimeRecord) {
    && FulfilledWith(e, t) && e.start.control && CompletedRecord(t)
    && !e.bindThrows && !e.cancellationFirst && !e.unbindThrows && e.requested == Answers(false)
    && e.revisionAfter == SameRevision && e.candidateMatches
    && e.discards.0.Some? && e.discards.0.value.status == "discarded"
    && !e.poisonDuringTask && !e.poisonDuringSettlement
  }

  /** A started run completes exactly when its task was fulfilled with such a record and everything was in order;
      that the record can be read safely follows. */
  lemma CompletesInOrder(e: Environment, g: Grammars)
    requires e.start.Started?
    ensures TaskSucceeds(e, g) && Unharmed(e) <==> exists t :: InOrder(e, t)
  {
    hide SafetyExact;
    if TaskSucceeds(e, g) && Unharmed(e) {
      var t := e.start.completion.value.value.value;
      RecordConforms(t, g);
      assert InOrder(e, t);
    }
    if t :| InOrder(e, t) { RecordConforms(t, g); }
  }

  lemma RecordConforms(t: RuntimeRecord, g: Grammars)
    ensures CompletedRecord(t) <==> ContractConforms(t)
    ensures CompletedRecord(t) ==> SafetyExact(t, g)
  {
    var ids := [t.hostRecoveryId, t.dockerRecoveryId, t.candidateRecoveryId, t.candidateStoreRecoveryId];
    assert ids[0] in ids && ids[1] in ids && ids[2] in ids && ids[3] in ids;
  }

  // ------------------------------------------------------------ a record that can be read safely

  /** The fields that name what has to be recovered. */
  function NamedBy(t: RuntimeRecord): seq<Source> {
    [Source(t.hostRecoveryId, NoList, false), Source(t.dockerRecoveryId, t.dockerRecoveryIds, true),
     Source(t.candidateRecoveryId, NoList, false), Source(t.candidateStoreRecoveryId, NoList, false)]
  }

  ghost predicate Names(t: RuntimeRecord, id: string) {
    exists i :: 0 <= i < 4 && Mentions(NamedBy(t)[i], id)
  }

  function Flags(t: RuntimeRecord): seq<Flag> {
    [t.cleanupConfirmed, t.manualRecoveryRequired, t.processRestartRequired, t.canonicalRepositoryChanged,
     t.rawOutputReported, t.hostPathReported, t.untrustedProviderTextReported]
  }

  /** A record is read safely exactly when it says everything, its recovery fields leave no doubt, and it calls for a
      recovery unless its cleanup is confirmed and it names nothing to recover. */
  lemma SafeExactly(t: RuntimeRecord, g: Grammars)
    ensures SafetyExact(t, g) <==>
              && Unreadable !in Flags(t)
              && (forall i :: 0 <= i < 4 ==> Settled(NamedBy(t)[i], [g.host, g.docker, g.candidate, g.store][i]))
              && (t.manualRecoveryRequired == True || (t.cleanupConfirmed == True && forall id :: !Names(t, id)))
  {
    hide NullableExact, PairExact, Settled, Clear;
    ExactIsSettled(t.hostRecoveryId, NoList, g.host);
    ExactIsSettled(t.candidateRecoveryId, NoList, g.candidate);
    ExactIsSettled(t.candidateStoreRecoveryId, NoList, g.store);
    ExactIsSettled(t.dockerRecoveryId, t.dockerRecoveryIds, g.docker);
    var s, flags := NamedBy(t), Flags(t);
    assert flags[0] == t.cleanupConfirmed && flags[1] == t.manualRecoveryRequired && flags[2] == t.processRestartRequired;
    assert flags[3] == t.canonicalRepositoryChanged && flags[4] == t.rawOutputReported && flags[5] == t.hostPathReported;
    assert flags[6] == t.untrustedProviderTextReported;
    assert s[0].singular == t.hostRecoveryId && s[2].singular == t.candidateRecoveryId && s[3].singular == t.candidateStoreRecoveryId;
    assert s[1] == Source(t.dockerRecoveryId, t.dockerRecoveryIds, true);
    if forall i :: 0 <= i < 4 ==> Settled(s[i], [g.host, g.docker, g.candidate, g.store][i]) {
      NamesNothing(t, g);
    }
  }

  lemma NamesNothing(t: RuntimeRecord, g: Grammars)
    requires forall i :: 0 <= i < 4 ==> Settled(NamedBy(t)[i], [g.host, g.docker, g.candidate, g.store][i])
    ensures t.dockerRecoveryIds.Items?
    ensures (forall id :: !Names(t, id)) <==>
              t.hostRecoveryId == Null && t.candidateRecoveryId == Null && t.candidateStoreRecoveryId == Null &&
              t.dockerRecoveryIds.items == []
  {
    var s := NamedBy(t);
    assert Settled(s[0], g.host) && Settled(s[1], g.docker) && Settled(s[2], g.candidate) && Settled(s[3], g.store);
    if t.hostRecoveryId != Null { assert Mentions(s[0], t.hostRecoveryId.text); }
    if t.candidateRecoveryId != Null { assert Mentions(s[2], t.candidateRecoveryId.text); }
    if t.candidateStoreRecoveryId != Null { assert Mentions(s[3], t.candidateStoreRecoveryId.text); }
    if t.dockerRecoveryIds.items != [] {
      assert t.dockerRecoveryIds.items[0] in t.dockerRecoveryIds.items;
      assert Mentions(s[1], t.dockerRecoveryIds.items[0].text);
    } else {
      assert s[1].singular == Null;
    }
    if i, id :| 0 <= i < 4 && Mentions(s[i], id) { assert Names(t, id); }
  }

  // ------------------------------------------------------------ the recovery part of a result

  /** What is listed of one kind: canonical identities that the records name, and all of those unless it is ambiguous. */
  ghost predicate ListsNamed(p: Salvage, records: seq<RuntimeRecord>, g: Grammar, names: (RuntimeRecord, string) -> bool) {
    && (forall id :: id in p.ids ==> g(id) && exists t :: t in records && names(t, id))
    && (!p.ambiguous ==> forall t, id :: t in records && names(t, id) && g(id) ==> id in p.ids)
  }

  /** A result lists for each kind what the fields of that kind name in its records. */
  lemma RecoveryIsNamed(records: seq<RuntimeRecord>, g: Grammars)
    ensures var r := ProjectRecovery(records, g);
            && ListsNamed(r.host, records, g.host, (t: RuntimeRecord, id) => t.hostRecoveryId == Text(id))
            && ListsNamed(r.docker, records, g.docker, (t: RuntimeRecord, id) =>
                 t.dockerRecoveryId == Text(id) || (t.dockerRecoveryIds.Items? && Text(id) in t.dockerRecoveryIds.items))
            && ListsNamed(r.candidate, records, g.candidate, (t: RuntimeRecord, id) => t.candidateRecoveryId == Text(id))
            && ListsNamed(r.store, records, g.store, (t: RuntimeRecord, id) => t.candidateStoreRecoveryId == Text(id))
  {
    hide Projection;
    NamedInOrder(records, HostSources(records), g.host, (t: RuntimeRecord, id) => t.hostRecoveryId == Text(id));
    NamedInOrder(records, DockerSources(records), g.docker, (t: RuntimeRecord, id) =>
      t.dockerRecoveryId == Text(id) || (t.dockerRecoveryIds.Items? && Text(id) in t.dockerRecoveryIds.items));
    NamedInOrder(records, CandidateSources(records), g.candidate, (t: RuntimeRecord, id) => t.candidateRecoveryId == Text(id));
    NamedInOrder(records, StoreSources(records), g.store, (t: RuntimeRecord, id) => t.candidateStoreRecoveryId == Text(id));
  }

  lemma NamedInOrder(records: seq<RuntimeRecord>, sources: seq<Source>, g: Grammar, names: (RuntimeRecord, string) -> bool)
    requires |sources| == |records|
    requires forall i, id :: 0 <= i < |records| ==> (Mentions(sources[i], id) <==> names(records[i], id))
    ensures ListsNamed(Projection(sources, g), records, g, names)
  {
    hide Projection, Mentions;
    NeverSilentlyLost(sources, g);
    var p := Projection(sources, g);
    forall id | id in p.ids ensures exists t :: t in records && names(t, id) {
      var s :| s in sources && Mentions(s, id);
      var i :| 0 <= i < |sources| && sources[i] == s;
      assert records[i] in records;
    }
    forall t, id | !p.ambiguous && t in records && names(t, id) && g(id) ensures id in p.ids {
      var i :| 0 <= i < |records| && records[i] == t;
      assert sources[i] in sources;
    }
  }

  // ------------------------------------------------------------ one thing wrong

  /** Every gate open. */
  predicate GatesOpen(e: Environment) {
    e.argumentsValid && e.rootAbsolute && e.runtimeSupported && !e.poisonAtEntry && e.releaseVerified &&
    e.objectFormatSupported && e.revisionObserved && e.baseMatches && e.start.Started?
  }

  /** A closed gate refuses with its own reason, whatever the gates after it say. */
  lemma GateReasons(e: Environment)
    requires GatesOpen(e)
    ensures GateReason(e, false) == None
    ensures GateReason(e, true) == GateReason(e.(poisonAtEntry := true), false) == Some(ProcessRestartRequired)
    ensures forall f: Environment, p: bool :: !f.argumentsValid ==> GateReason(f, p) == Some(VerificationArgumentsInvalid)
    ensures GateReason(e.(rootAbsolute := false, runtimeSupported := false, releaseVerified := false), true) == Some(RepositoryRootInvalid)
    ensures GateReason(e.(runtimeSupported := false, releaseVerified := false), true) == Some(NodeVersionUnsupported)
    ensures GateReason(e.(releaseVerified := false, objectFormatSupported := false), true) == Some(ProcessRestartRequired)
    ensures GateReason(e.(releaseVerified := false, objectFormatSupported := false), false) == Some(ReleaseVerificationFailed)
    ensures GateReason(e.(objectFormatSupported := false, revisionObserved := false), false) == Some(GitObjectFormatUnsupported)
    ensures GateReason(e.(revisionObserved := false, baseMatches := false), false) == Some(RepositoryRevisionObservationFailed)
    ensures GateReason(e.(baseMatches := false, start := StartThrows), false) == Some(BaseContentMismatch)
    ensures GateReason(e.(start := StartThrows), false) == Some(StartFailedClosed)
  {
  }

  /** A run in order whose cancellation, if it were asked for, would be acknowledged, and whose completion would be waited for. */
  predicate Answered(e: Environment, t: RuntimeRecord) {
    InOrder(e, t) && e.cancelReceipt == Some(true) && e.lateInTime
  }

  lemma ConformingRecord(t: RuntimeRecord)
    requires CompletedRecord(t)
    ensures t.candidateId.Text? && t.cleanupConfirmed == True && t.processRestartRequired == False
  {
  }

  /** What the start can do wrong. */
  lemma StartReasons(e: Environment, t: RuntimeRecord, g: Grammars)
    requires Answered(e, t)
    ensures EndReason(e.(start := e.start.(control := false)), g) == StartedTaskObservationUnknown
    ensures EndReason(e.(start := e.start.(completion := None)), g) ==
              if e.start.observerUnknown then CompletionObserverUnknown else StartedTaskCompletionUnknown
    ensures EndReason(e.(bindThrows := true), g) == PostStartObservationUnknown
  {
    hide SafetyExact, ContractConforms, CompletedRecord, CompletionReason;
    RecordConforms(t, g);
    ConformingRecord(t);
  }

  /** What the completion can do wrong; one that was rejected is not there either when it is waited for, and one without
      a record is there at once. */
  lemma CompletionReasons(e: Environment, t: RuntimeRecord, g: Grammars)
    requires InOrder(e, t) && e.cancelReceipt == Some(true)
    ensures EndReason(e.(start := e.start.(completion := Some(Fulfilled(None)))), g) == ResultContractMismatch
    ensures EndReason(e.(start := e.start.(completion := Some(Rejected))), g) == CompletionSettlementUnknown
    ensures TryReason(e.(start := e.start.(completion := Some(Rejected))), g) == Some(CompletionRejected)
  {
    hide SafetyExact, ContractConforms, CompletedRecord, OutcomeReason;
  }

  /** A result that cannot be read safely, whatever is wrong with it. */
  lemma UnsafeReason(e: Environment, t: RuntimeRecord, g: Grammars, unsafeRecord: RuntimeRecord)
    requires Answered(e, t) && !SafetyExact(unsafeRecord, g)
    ensures EndReason(e.(start := e.start.(completion := Some(Fulfilled(Some(unsafeRecord))))), g) == SafetyObservationUnknown
  {
    hide SafetyExact, ContractConforms, CompletedRecord, OutcomeReason;
  }

  /** A cancellation that was asked for. */
  lemma CancelledReasons(e: Environment, t: RuntimeRecord, g: Grammars)
    requires Answered(e, t)
    ensures EndReason(e.(requested := Answers(true)), g) == Cancelled
    ensures EndReason(e.(requested := Answers(true), cancelReceipt := None), g) == CancellationCompletionUnknown
    ensures EndReason(e.(requested := Answers(true), cancelReceipt := Some(false)), g) == Cancelled
    // It comes before a process that is poisoned.
    ensures EndReason(e.(requested := Answers(true), poisonDuringTask := true, poisonDuringSettlement := true), g) == Cancelled
  {
    hide SafetyExact, ContractConforms, CompletedRecord, OutcomeReason, TryReason;
    UndisturbedTry(e.(requested := Answers(true)), t, g);
    UndisturbedTry(e.(requested := Answers(true), poisonDuringTask := true, poisonDuringSettlement := true), t, g);
    UndisturbedTry(e.(requested := Answers(true), cancelReceipt := None), t, g);
    UndisturbedTry(e.(requested := Answers(true), cancelReceipt := Some(false)), t, g);
  }

  /** The try block of a run whose completion wins the race with a safe record. */
  lemma UndisturbedTry(e: Environment, t: RuntimeRecord, g: Grammars)
    requires FulfilledWith(e, t) && e.start.control && CompletedRecord(t) && !e.bindThrows && !e.cancellationFirst
    ensures TryReason(e, g) == None && ReadResult(e) == Some(t) && Judged(e, g) && SafetyExact(t, g) && !SignalFirst(e) && Bound(e)
    ensures t.candidateId.Text? && t.cleanupConfirmed == True && t.processRestartRequired == False && ContractConforms(t)
  {
    hide SafetyExact, ContractConforms;
    RecordConforms(t, g);
  }

  /** What can go wrong with the observation of a cancellation. */
  lemma ObservationReasons(e: Environment, t: RuntimeRecord, g: Grammars)
    requires Answered(e, t)
    ensures EndReason(e.(unbindThrows := true), g) == CancellationUnbindUnknown
    ensures EndReason(e.(requested := RequestThrows, unbindThrows := true), g) == CancellationObservationUnknown
    // Both ask for cancellation, and an answer to that which does not come is the later reason.
    ensures EndReason(e.(requested := RequestThrows, unbindThrows := true, cancelReceipt := None), g) == CancellationCompletionUnknown
  {
    hide SafetyExact, ContractConforms, CompletedRecord, OutcomeReason, TryReason;
    UndisturbedTry(e.(requested := RequestThrows, unbindThrows := true, cancelReceipt := None), t, g);
    UndisturbedTry(e.(unbindThrows := true), t, g);
    UndisturbedTry(e.(requested := RequestThrows, unbindThrows := true), t, g);
  }

  /** A signal that won the race: the result is waited for, and without a request that lasts there is no outcome. */
  lemma SignalReasons(e: Environment, t: RuntimeRecord, g: Grammars)
    requires Answered(e, t)
    ensures EndReason(e.(cancellationFirst := true, requested := Answers(true)), g) == Cancelled
    ensures EndReason(e.(cancellationFirst := true, requested := Answers(true), lateInTime := false), g) == CompletionSettlementUnknown
    ensures EndReason(e.(cancellationFirst := true), g) == FinalOutcomeUnknown
  {
    hide SafetyExact, ContractConforms, CompletedRecord, OutcomeReason, CompletionReason;
    RecordConforms(t, g);
    ConformingRecord(t);
  }

  /** A cancellation that did not see the process end needs a confirmed cleanup. */
  lemma CleanupReason(e: Environment, t: RuntimeRecord, g: Grammars, left: RuntimeRecord)
    requires Answered(e, t) && left.cleanupConfirmed != True
    ensures EndReason(e.(requested := Answers(true), cancelReceipt := Some(false),
                         start := e.start.(completion := Some(Fulfilled(Some(left))))), g)
            == CancellationCleanupUnknown
  {
    hide SafetyExact, ContractConforms, CompletedRecord, OutcomeReason;
  }

  /** A process that is poisoned while the task runs or settles. */
  lemma PoisonReasons(e: Environment, t: RuntimeRecord, g: Grammars)
    requires Answered(e, t)
    ensures EndReason(e, g) == VerificationCompleted
    ensures EndReason(e.(poisonDuringTask := true), g) == EndReason(e.(poisonDuringSettlement := true), g) == ProcessRestartRequired
  {
    hide SafetyExact, ContractConforms, CompletedRecord, TryReason, Judged, ReadResult, SignalFirst;
    UndisturbedTry(e, t, g);
    UndisturbedTry(e.(poisonDuringTask := true), t, g);
    UndisturbedTry(e.(poisonDuringSettlement := true), t, g);
  }

  /** What the judgement of a conforming result can find: a failed discard, then a repository that moved or could not be
      seen, then another candidate. */
  lemma JudgementReasons(e: Environment, t: RuntimeRecord, g: Grammars)
    requires FulfilledWith(e, t) && CompletedRecord(t)
    ensures !(e.discards.0.Some? && e.discards.0.value.status == "discarded") ==> OutcomeReason(e, t) == CandidateDiscardFailed
    ensures e.discards.0.Some? && e.discards.0.value.status == "discarded" ==>
              OutcomeReason(e, t) ==
                match e.revisionAfter
                case OtherRevision => ExecutionRepositoryChanged
                case RevisionUnknown => ExecutionRepositoryObservationUnknown
                case SameRevision => if e.candidateMatches then VerificationCompleted else CandidateContentMismatch
  {
    hide SafetyExact, ContractConforms, CompletedRecord;
    RecordConforms(t, g);
    ConformingRecord(t);
  }

  /** And in a result that does not conform: the reason of the record itself, when it is blocked with a public one. */
  lemma ResultReasons(e: Environment, t: RuntimeRecord, g: Grammars)
    requires !CompletedRecord(t) && e.revisionAfter == SameRevision && e.discards.0.Some? && e.discards.0.value.status == "discarded"
    ensures OutcomeReason(e, t) ==
              if t.status == "blocked" && t.publicReason.Some? then OfResult(t.publicReason.value) else ResultContractMismatch
  {
    hide SafetyExact, ContractConforms, CompletedRecord;
    RecordConforms(t, g);
  }

  /** A run that is not disturbed ends with the reason of that judgement. */
  lemma UndisturbedReason(e: Environment, t: RuntimeRecord, g: Grammars)
    requires FulfilledWith(e, t) && e.start.control && !e.bindThrows && !e.cancellationFirst && !e.unbindThrows
    requires e.requested == Answers(false) && !e.poisonDuringTask && !e.poisonDuringSettlement && SafetyExact(t, g)
    requires t.processRestartRequired == False && !(e.discards.0.Some? && e.discards.0.value.processRestartRequired == True)
    ensures EndReason(e, g) == OutcomeReason(e, t)
  {
    hide SafetyExact, ContractConforms, OutcomeReason;
  }
}
