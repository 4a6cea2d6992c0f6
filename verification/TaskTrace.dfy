/**
 What the surroundings answer during one signed task run, and what these answers make of the run: the gate
 that refuses it, the reason of an unknown ending after each stage of the settlement, and the final reason.
 */
module TaskTrace {
  import opened Common
  import opened RecoveryIds
  import opened TaskRecords

  datatype Completion = Rejected | Fulfilled(value: Option<RuntimeRecord>) | Pending

  datatype Start = StartThrows | Started(control: bool, completion: Option<Completion>, observerUnknown: bool)

  /** Two revisions of the work repository compared; RevisionUnknown when the second was not seen. */
  datatype RevisionAfter = SameRevision | OtherRevision | RevisionUnknown

  datatype Requested = Answers(requested: bool) | RequestThrows

  /** Everything the environment says during one run. */
  datatype Environment = Environment(
    argumentsValid: bool, rootAbsolute: bool, runtimeSupported: bool,
    release: Option<RuntimeRecord>, releaseVerified: bool, objectFormatSupported: bool,
    revisionObserved: bool, baseMatches: bool, start: Start,
    bindThrows: bool, cancellationFirst: bool, unbindThrows: bool, requested: Requested,
    revisionAfter: RevisionAfter, candidateMatches: bool, discards: (Option<RuntimeRecord>, Option<RuntimeRecord>),
    cancelReceipt: Option<bool>,     // an exact receipt and whether it saw the process end
    lateInTime: bool,                // a completion that lost the race arrives within the settlement bound
    poisonAtEntry: bool, poisonDuringTask: bool, poisonDuringSettlement: bool)

  /** The first gate before the start that refuses the run. */
  function GateReason(e: Environment, poisoned: bool): Option<Reason> {
    if !e.argumentsValid then Some(VerificationArgumentsInvalid)
    else if !e.rootAbsolute then Some(RepositoryRootInvalid)
    else if !e.runtimeSupported then Some(NodeVersionUnsupported)
    else if poisoned || e.poisonAtEntry then Some(ProcessRestartRequired)
    else if !e.releaseVerified then Some(ReleaseVerificationFailed)
    else if !e.objectFormatSupported then Some(GitObjectFormatUnsupported)
    else if !e.revisionObserved then Some(RepositoryRevisionObservationFailed)
    else if !e.baseMatches then Some(BaseContentMismatch)
    else if e.start.StartThrows? then Some(StartFailedClosed)
    else None
  }

  // ------------------------------------------------------------ the try block

  /** The cancellation signals were bound. */
  predicate Bound(e: Environment) {
    e.start.Started? && e.start.control && e.start.completion.Some? && !e.bindThrows
  }

  /** The cancellation signal won the race. */
  predicate SignalFirst(e: Environment) {
    Bound(e) && (e.cancellationFirst || e.start.completion.value.Pending?)
  }

  /** The completion won the race. */
  predicate CompletionFirst(e: Environment) {
    Bound(e) && !SignalFirst(e)
  }

  function ReadResult(e: Environment): Option<RuntimeRecord> {
    if CompletionFirst(e) && e.start.completion.value.Fulfilled? then e.start.completion.value.value else None
  }

  /** Why the completion that won the race cannot be judged, if so. */
  function CompletionReason(completion: Completion, g: Grammars): Option<Reason> {
    if !completion.Fulfilled? then Some(CompletionRejected)
    else if completion.value.None? then Some(ResultContractMismatch)
    else if !SafetyExact(completion.value.value, g) then Some(SafetyObservationUnknown)
    else None
  }

  /** Why the try block leaves the ending unknown, if it does. */
  function TryReason(e: Environment, g: Grammars): Option<Reason>
    requires e.start.Started?
  {
    if !e.start.control then Some(StartedTaskObservationUnknown)
    else if e.start.completion.None? then
      if e.start.observerUnknown then Some(CompletionObserverUnknown)
      else Some(StartedTaskCompletionUnknown)
    else if e.bindThrows then Some(PostStartObservationUnknown)
    else if SignalFirst(e) then None
    else CompletionReason(e.start.completion.value, g)
  }

  /** The result could be read safely and was judged. */
  predicate Judged(e: Environment, g: Grammars) {
    ReadResult(e).Some? && SafetyExact(ReadResult(e).value, g)
  }

  function CandidateOf(result: Option<RuntimeRecord>): Option<string> {
    if result.Some? && result.value.candidateId.Text? then Some(result.value.candidateId.text) else None
  }

  predicate Succeeded(answer: Option<RuntimeRecord>) {
    answer.Some? && answer.value.status == "discarded"
  }

  predicate DiscardFailed(e: Environment, t: RuntimeRecord) {
    t.candidateId.Text? && !Succeeded(e.discards.0)
  }

  /** What is known of the work repository when the revisions are compared. */
  function ChangeAfter(r: RevisionAfter): Change {
    match r case SameRevision => Unchanged case OtherRevision => Changed case RevisionUnknown => Unknown
  }

  /** What the judgement of a result adds to the records: the comparison of the revisions. */
  function ProjectionOf(e: Environment): Extra {
    NO_EXTRA.(changed := Some(ChangeAfter(e.revisionAfter)), effectStateUnknown := Some(e.revisionAfter == RevisionUnknown))
  }

  /** The reason of a contract mismatch: a repository that moved comes before the reason of the result itself. */
  function MismatchReason(e: Environment, t: RuntimeRecord): Reason {
    if e.revisionAfter == RevisionUnknown then ExecutionRepositoryObservationUnknown
    else if e.revisionAfter == OtherRevision then ExecutionRepositoryChanged
    else if t.status == "blocked" && t.publicReason.Some? then OfResult(t.publicReason.value)
    else ResultContractMismatch
  }

  /** The reason of the outcome of a judged result. */
  function OutcomeReason(e: Environment, t: RuntimeRecord): Reason {
    if DiscardFailed(e, t) then CandidateDiscardFailed
    else if e.revisionAfter != SameRevision || !ContractConforms(t) then MismatchReason(e, t)
    else if !e.candidateMatches then CandidateContentMismatch
    else VerificationCompleted
  }

  predicate Restarts(answer: Option<RuntimeRecord>) {
    answer.Some? && answer.value.processRestartRequired == True
  }

  /** The judged result, or the record of its failed discard, reports a restart. */
  predicate PoisonedByRecords(e: Environment, g: Grammars) {
    Judged(e, g) && (Restarts(ReadResult(e)) || (DiscardFailed(e, ReadResult(e).value) && Restarts(e.discards.0)))
  }

  /** The process is poisoned while the task is observed. */
  predicate PoisonedByTask(e: Environment, g: Grammars) {
    (Bound(e) && e.poisonDuringTask) || PoisonedByRecords(e, g)
  }

  // ------------------------------------------------------------ the settlement, stage by stage

  predicate CancelWanted(e: Environment) {
    Bound(e) && (if e.requested.Answers? then e.requested.requested else SignalFirst(e))
  }

  function BindReason(e: Environment, g: Grammars): Option<Reason>
    requires e.start.Started?
  {
    if Bound(e) && e.requested.RequestThrows? then Some(CancellationObservationUnknown)
    else if Bound(e) && e.unbindThrows then Some(CancellationUnbindUnknown)
    else TryReason(e, g)
  }

  /** Cancellation is attempted at some point; a task that was started without a control capability gets no call. */
  predicate Asked(e: Environment, g: Grammars)
    requires e.start.Started?
  {
    SignalFirst(e) || BindReason(e, g).Some? || CancelWanted(e)
  }

  function ReceiptReason(e: Environment, g: Grammars): Option<Reason>
    requires e.start.Started?
  {
    if Asked(e, g) && e.start.control && e.cancelReceipt.None? then Some(CancellationCompletionUnknown)
    else BindReason(e, g)
  }

  predicate Interrupted(e: Environment, g: Grammars)
    requires e.start.Started?
  {
    ReceiptReason(e, g).Some? || CancelWanted(e)
  }

  /** An interrupted run waits for a completion that it has not read. */
  predicate Waits(e: Environment, g: Grammars)
    requires e.start.Started?
  {
    e.start.completion.Some? && Interrupted(e, g) && ReadResult(e).None?
  }

  /** It arrives, within the bound or because it won the race already, and is fulfilled. */
  predicate Arrives(e: Environment) {
    e.start.Started? && e.start.completion.Some? && e.start.completion.value.Fulfilled? && (e.lateInTime || CompletionFirst(e))
  }

  function LateReason(e: Environment, g: Grammars): Option<Reason>
    requires e.start.Started?
  {
    if Waits(e, g) && !Arrives(e) then Some(CompletionSettlementUnknown) else ReceiptReason(e, g)
  }

  function LateResult(e: Environment, g: Grammars): Option<RuntimeRecord>
    requires e.start.Started?
  {
    if Waits(e, g) && Arrives(e) then e.start.completion.value.value else ReadResult(e)
  }

  function SafetyReason(t: RuntimeRecord, before: Option<Reason>, g: Grammars): Option<Reason> {
    if !SafetyExact(t, g) then Some(SafetyObservationUnknown) else before
  }

  /** The reason of an unknown ending, if the ending is unknown. */
  function UnknownReason(e: Environment, g: Grammars): Option<Reason>
    requires e.start.Started?
  {
    if !Interrupted(e, g) || LateResult(e, g).None? then LateReason(e, g)
    else if Asked(e, g) && e.start.control && e.cancelReceipt == Some(false) && LateResult(e, g).value.cleanupConfirmed != True then
      Some(CancellationCleanupUnknown)
    else SafetyReason(LateResult(e, g).value, LateReason(e, g), g)
  }

  /** The reason with which a started run ends. */
  function EndReason(e: Environment, g: Grammars): Reason
    requires e.start.Started?
  {
    if UnknownReason(e, g).Some? then UnknownReason(e, g).value
    else if CancelWanted(e) then Cancelled
    else if PoisonedByTask(e, g) || e.poisonDuringSettlement then ProcessRestartRequired
    else if Judged(e, g) then OutcomeReason(e, ReadResult(e).value)
    else FinalOutcomeUnknown
  }

  // ------------------------------------------------------------ when a run completes

  function CompletedResult(): Result {
    Result(true, VerificationCompleted, true, false, false, false,
           Some(true), NO_RECOVERY, false, Unchanged)
  }

  /** The result says nothing but that the ending is unknown. */
  predicate ReportsUnknown(r: Result) {
    !r.completed && !r.cleanupConfirmed && r.manualRecoveryRequired && r.processRestartRequired &&
    r.effectStateUnknown && r.recoveryIdentityAmbiguous
  }

  // ------------------------------------------------------------ what a result says of its records

  /** What is said of the repository: from the comparison of its revisions, when that was made, and from the flag of
      the task's record. */
  predicate TellsChange(changed: Change, compared: Option<RevisionAfter>, t: Option<RuntimeRecord>) {
    var flag := if t.Some? then t.value.canonicalRepositoryChanged else Unreadable;
    var moved := compared == Some(OtherRevision) || flag == True;
    && (changed == Changed <==> moved)
    && (changed == Unchanged <==> !moved && (compared == Some(SameRevision) || (compared.None? && flag == False)))
  }

  /** A refusal before the start: nothing was done, and only the release record, where it was looked at, has a say. */
  predicate RefusalTells(e: Environment, g: Grammars, r: Result) {
    var early := r.reason in {VerificationArgumentsInvalid, RepositoryRootInvalid, NodeVersionUnsupported, StartFailedClosed};
    var seen := if early then None else e.release;
    && r.canonicalRepositoryChanged ==
         (if seen.Some? && seen.value.canonicalRepositoryChanged == True then Changed else Unchanged)
    && !r.effectStateUnknown
    && (r.cleanupConfirmed <==> seen.Some? && seen.value.cleanupConfirmed == True)
    && (r.manualRecoveryRequired <==>
          r.reason == ProcessRestartRequired || (seen.Some? && seen.value.manualRecoveryRequired == True))
    && TellsRecovery(r, There(seen, None), g)
  }

  /** The outcome of a judged result: its own flags, unless the discard of its candidate failed. */
  predicate OutcomeTells(e: Environment, g: Grammars, t: RuntimeRecord, r: Result) {
    var failed := t.candidateId.Text? && (e.discards.0.None? || e.discards.0.value.status != "discarded");
    && TellsChange(r.canonicalRepositoryChanged, Some(e.revisionAfter), Some(t))
    && (r.effectStateUnknown <==> e.revisionAfter == RevisionUnknown)
    && (r.cleanupConfirmed <==> !failed && t.cleanupConfirmed == True)
    && (r.manualRecoveryRequired <==> failed || t.manualRecoveryRequired == True)
    // A candidate that was discarded needs no recovery any more.
    && var after := if t.candidateId.Text? && !failed then t.(candidateRecoveryId := Null, candidateStoreRecoveryId := Null) else t;
    && (!r.completed ==> TellsRecovery(r, There(Some(after), if failed then e.discards.0 else None), g))
    && (r.completed ==>
          r.candidateDiscarded == Some(true) && !r.recoveryIdentityAmbiguous &&
          forall p :: p in [r.recovery.host, r.recovery.docker, r.recovery.candidate, r.recovery.store] ==> p.ids == [] && !p.ambiguous)
  }

  /** A cancelled or poisoned ending: the flags of the task's record and of the last discard. */
  predicate EndingTells(e: Environment, g: Grammars, t: Option<RuntimeRecord>, discarded: Option<RuntimeRecord>, r: Result) {
    && TellsChange(r.canonicalRepositoryChanged, if Judged(e, g) then Some(e.revisionAfter) else None, t)
    && (r.effectStateUnknown <==>
          if Judged(e, g) then e.revisionAfter == RevisionUnknown else r.canonicalRepositoryChanged == Unknown)
    && (r.cleanupConfirmed <==> BothConfirm(t, discarded)) && (r.manualRecoveryRequired <==> EitherAsks(t, discarded))
    && TellsRecovery(r, There(t, discarded), g)
  }

  predicate ResultSucceeds(e: Environment, t: RuntimeRecord, g: Grammars) {
    SafetyExact(t, g) && ContractConforms(t) && Succeeded(e.discards.0) && e.revisionAfter == SameRevision && e.candidateMatches
  }

  /** The completion wins the race, undisturbed, with a task result that conforms and a candidate that was
      verified and discarded. */
  predicate TaskSucceeds(e: Environment, g: Grammars) {
    && e.start.Started? && e.start.control && e.start.completion.Some? && e.start.completion.value.Fulfilled?
    && e.start.completion.value.value.Some? && !e.bindThrows && !e.cancellationFirst
    && ResultSucceeds(e, e.start.completion.value.value.value, g)
  }

  /** Nothing asks for cancellation and nothing poisons the process. */
  predicate Unharmed(e: Environment) {
    !e.unbindThrows && e.requested == Answers(false) && !e.poisonDuringTask && !e.poisonDuringSettlement
  }

  /** Unbinding only adds to what made the ending unknown, and a signal needs a control capability. */
  lemma BindingKeeps(e: Environment, g: Grammars)
    requires e.start.Started?
    ensures TryReason(e, g).Some? ==> BindReason(e, g).Some?
    ensures SignalFirst(e) ==> e.start.control
  {
    hide TryReason;
  }

  lemma LateInterrupts(e: Environment, g: Grammars)
    requires e.start.Started?
    ensures Interrupted(e, g) <==> LateReason(e, g).Some? || CancelWanted(e)
  {
    hide ReceiptReason, CancelWanted, ReadResult;
  }

  /** An interrupted run has asked for cancellation; an uninterrupted one has judged its result, or was signalled
      without a request that lasted. */
  lemma InterruptedAsks(e: Environment, g: Grammars)
    requires e.start.Started?
    ensures Interrupted(e, g) <==> UnknownReason(e, g).Some? || CancelWanted(e)
    ensures Interrupted(e, g) ==> Asked(e, g)
    ensures !Interrupted(e, g) ==> (e.start.control && (Judged(e, g) <==> !SignalFirst(e)) && LateResult(e, g) == ReadResult(e))
    ensures !Interrupted(e, g) && Judged(e, g) ==> !Asked(e, g)
  {
    hide SafetyExact;
  }

  /** A known, uncancelled and unpoisoned ending is a completion exactly when the task succeeds unharmed. */
  lemma CompletesExactly(e: Environment, g: Grammars)
    requires e.start.Started?
    ensures (&& !Interrupted(e, g) && !PoisonedByTask(e, g) && !e.poisonDuringSettlement
             && Judged(e, g) && ResultSucceeds(e, ReadResult(e).value, g))
            <==> (TaskSucceeds(e, g) && Unharmed(e))
  {
    hide SafetyExact;
    if TaskSucceeds(e, g) && Unharmed(e) {
      assert ReadResult(e) == e.start.completion.value.value;
      assert !DiscardFailed(e, ReadResult(e).value);
    }
  }
}
