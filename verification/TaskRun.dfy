/**
 One signed task verification run: entry gates, the race of completion against cancellation,
 candidate reading and discard, and the settlement in its fixed order. The answers of the
 environment are arbitrary; the process poison flag can only be set.
 */
module TaskRun {
  import opened Common
  import opened RecoveryIds
  import opened TaskRecords
  import opened TaskTrace

  class Runner {
    const grammars: Grammars
    var poisoned: bool
    // What this run did to the outside.
    var cancelCalls: nat
    var discardAttempts: seq<string>
    // The locals that the settlement shares with the body of the run.
    var taskResult: Option<RuntimeRecord>
    var discarded: Option<RuntimeRecord>
    var isCandidateDiscarded: bool
    var cancelAttempted: bool
    var cancellationRequested: bool
    var isPostStartUnknown: bool
    var postStartUnknownReason: Reason
    var knownOutcome: Option<Result>
    var stateProjection: Extra

    constructor (grammars: Grammars, poisoned: bool)
      ensures this.grammars == grammars && this.poisoned == poisoned && FreshRun()
    {
      this.grammars, this.poisoned := grammars, poisoned;
      cancelCalls, discardAttempts := 0, [];
      taskResult, discarded, isCandidateDiscarded := None, None, false;
      cancelAttempted, cancellationRequested, isPostStartUnknown := false, false, false;
      postStartUnknownReason := PostStartObservationUnknown;
      knownOutcome, stateProjection := None, NO_EXTRA;
    }

    ghost predicate FreshRun()
      reads this
    {
      cancelCalls == 0 && discardAttempts == [] && taskResult == None && discarded == None && !isCandidateDiscarded &&
      !cancelAttempted && !cancellationRequested && !isPostStartUnknown && knownOutcome == None && stateProjection == NO_EXTRA &&
      postStartUnknownReason == PostStartObservationUnknown
    }

    /** Every discard was of the named candidate, there were at most two, and a second one only after
        a first that did not succeed; the discarded flag is the answer of the last one. */
    ghost predicate DiscardsSound(e: Environment)
      reads this`taskResult, this`discardAttempts, this`discarded, this`isCandidateDiscarded
    {
      && |discardAttempts| <= 2
      && (forall id :: id in discardAttempts ==> CandidateOf(taskResult) == Some(id))
      && discarded == (if |discardAttempts| == 0 then None else if |discardAttempts| == 1 then e.discards.0 else e.discards.1)
      && isCandidateDiscarded == Succeeded(discarded)
      && (|discardAttempts| == 2 ==> !Succeeded(e.discards.0))
    }

    /** The unknown flag and its reason are as given; without a reason the ending is not unknown so far. */
    ghost predicate Stands(reason: Option<Reason>)
      reads this`isPostStartUnknown, this`postStartUnknownReason
    {
      isPostStartUnknown == reason.Some? && (reason.Some? ==> postStartUnknownReason == reason.value)
    }

    /** Cancellation was attempted or not, and a control capability got one call for it or none. */
    ghost predicate CancelAccounted(e: Environment, attempted: bool)
      reads this`cancelAttempted, this`cancelCalls
    {
      e.start.Started? && cancelAttempted == attempted && cancelCalls == (if attempted && e.start.control then 1 else 0)
    }

    /** What every return r of a run leaves behind, whatever the environment answered. */
    ghost predicate RunSound(e: Environment, r: Result)
      reads this
    {
      // The return reports the poison flag truthfully.
      && r.processRestartRequired == poisoned
      // A completed run is unpoisoned, uncancelled and known, and verified and discarded its candidate.
      && (r.completed ==>
            !poisoned && !cancellationRequested && !isPostStartUnknown && cancelCalls == 0 &&
            taskResult.Some? && ResultSucceeds(e, taskResult.value, grammars) && isCandidateDiscarded && r == CompletedResult())
      // Cancellation is asked for at most once, and always when the ending is unknown or cancelled.
      && cancelCalls <= 1
      && (isPostStartUnknown || cancellationRequested ==> cancelCalls == (if e.start.Started? && e.start.control then 1 else 0))
      // A candidate that could be read from a task result is never left without a discard attempt.
      && (CandidateOf(taskResult).Some? ==> discardAttempts != [])
      && DiscardsSound(e)
      && (r.candidateDiscarded.Some? ==> r.candidateDiscarded.value == isCandidateDiscarded)
      // An unknown ending is never reported as anything but that, and with its reason.
      && (isPostStartUnknown ==> ReportsUnknown(r) && r.reason == postStartUnknownReason)
      // An interrupted run carries what its task result and its discard say about recovery.
      && (isPostStartUnknown || cancellationRequested ==>
            r.recovery == ProjectRecovery(Present([taskResult, discarded]), grammars))
    }

    /** The flags of the result of a started run, told from its records. */
    ghost predicate ResultTells(e: Environment, r: Result)
      reads this`taskResult, this`discarded, this`isPostStartUnknown, this`cancellationRequested
    {
      if isPostStartUnknown || r.reason == FinalOutcomeUnknown then
        TellsChange(r.canonicalRepositoryChanged, if Judged(e, grammars) then Some(e.revisionAfter) else None, taskResult) &&
        r.recovery == ProjectRecovery(There(taskResult, discarded), grammars)
      else if cancellationRequested || r.reason == ProcessRestartRequired then
        EndingTells(e, grammars, taskResult, discarded, r)
      else taskResult.Some? && OutcomeTells(e, grammars, taskResult.value, r)
    }

    /** runSignedGeneralTaskVerification. The poison flag is never cleared. */
    method Run(e: Environment) returns (r: Result)
      requires FreshRun()
      modifies this
      ensures old(poisoned) ==> poisoned
      ensures RunSound(e, r)
      // A gate refuses before anything was done; otherwise the reason is that of the settlement.
      ensures GateReason(e, old(poisoned)).Some? ==>
                r.reason == GateReason(e, old(poisoned)).value && cancelCalls == 0 && discardAttempts == []
      ensures GateReason(e, old(poisoned)).None? ==> e.start.Started? && r.reason == EndReason(e, grammars)
      // And so are the flags of the result.
      ensures GateReason(e, old(poisoned)).Some? ==> RefusalTells(e, grammars, r)
      ensures GateReason(e, old(poisoned)).None? ==> ResultTells(e, r)
      // A run completes exactly when nothing went wrong.
      ensures r.completed <==> GateReason(e, old(poisoned)).None? && TaskSucceeds(e, grammars) && Unharmed(e)
    {
      hide ProjectRecovery, SafetyExact, ContractConforms, Blocked, ReportsRestart, Present, EndReason, TaskSucceeds, Unharmed;
      var blocked;
      blocked, r := EntryGates(e);
      if blocked { return; }
      if e.start.StartThrows? {
        poisoned := true;
        r := Refuse(StartFailedClosed, None, NO_EXTRA.(changed := Some(Unchanged)), []);
        RefusalIsTold(e, r, None, NO_EXTRA.(changed := Some(Unchanged)));
        return;
      }
      r := RunStarted(e);
    }

    /** The gates before the start. */
    method EntryGates(e: Environment) returns (blocked: bool, r: Result)
      requires FreshRun()
      modifies this`poisoned
      ensures old(poisoned) ==> poisoned
      ensures blocked ==> !r.completed && r.processRestartRequired == poisoned && r.candidateDiscarded == None
      ensures blocked ==> GateReason(e, old(poisoned)) == Some(r.reason) && RefusalTells(e, grammars, r)
      ensures !blocked ==> !poisoned && !old(poisoned)
      ensures !blocked ==>
                GateReason(e, old(poisoned)) == (if e.start.StartThrows? then Some(StartFailedClosed) else None)
    {
      hide ReportsRestart, Present, RefusalTells;
      r := CompletedResult();
      if !e.argumentsValid {
        r := RefuseUntouched(e, VerificationArgumentsInvalid, None, false);
        return true, r;
      }
      if !e.rootAbsolute {
        r := RefuseUntouched(e, RepositoryRootInvalid, None, false);
        return true, r;
      }
      if !e.runtimeSupported {
        r := RefuseUntouched(e, NodeVersionUnsupported, None, false);
        return true, r;
      }
      if e.poisonAtEntry { poisoned := true; }
      if poisoned {
        r := RefuseUntouched(e, ProcessRestartRequired, e.release, true);
        return true, r;
      }
      if !e.releaseVerified {
        r := RefuseUntouched(e, ReleaseVerificationFailed, e.release, false);
        return true, r;
      }
      if !e.objectFormatSupported {
        r := RefuseUntouched(e, GitObjectFormatUnsupported, e.release, false);
        return true, r;
      }
      if !e.revisionObserved {
        r := RefuseUntouched(e, RepositoryRevisionObservationFailed, e.release, false);
        return true, r;
      }
      if !e.baseMatches {
        r := RefuseUntouched(e, BaseContentMismatch, e.release, false);
        return true, r;
      }
      blocked := false;
    }

    /** A refusal that says that the repository was not changed; one for a poisoned process asks for manual recovery. */
    method RefuseUntouched(e: Environment, reason: Reason, source: Option<RuntimeRecord>, recovery: bool) returns (r: Result)
      requires recovery <==> reason == ProcessRestartRequired
      requires source == if reason in {VerificationArgumentsInvalid, RepositoryRootInvalid, NodeVersionUnsupported} then None else e.release
      requires reason != StartFailedClosed
      modifies this`poisoned
      ensures old(poisoned) ==> poisoned
      ensures !r.completed && r.reason == reason && r.processRestartRequired == poisoned && r.candidateDiscarded == None
      ensures RefusalTells(e, grammars, r)
    {
      hide ReportsRestart, Present;
      var untouched := NO_EXTRA.(changed := Some(Unchanged), manualRecoveryRequired := if recovery then Some(true) else None);
      r := Refuse(reason, source, untouched, []);
      RefusalIsTold(e, r, source, untouched);
    }

    lemma RefusalIsTold(e: Environment, r: Result, source: Option<RuntimeRecord>, extra: Extra)
      requires Reflects(r, source, extra, None, grammars)
      requires extra == NO_EXTRA.(changed := Some(Unchanged),
                                  manualRecoveryRequired := if r.reason == ProcessRestartRequired then Some(true) else None)
      requires source == if r.reason in {VerificationArgumentsInvalid, RepositoryRootInvalid, NodeVersionUnsupported, StartFailedClosed}
                         then None else e.release
      ensures RefusalTells(e, grammars, r)
    {
    }

    method RunStarted(e: Environment) returns (r: Result)
      requires FreshRun() && e.start.Started? && !poisoned
      modifies this
      ensures RunSound(e, r)
      ensures r.reason == EndReason(e, grammars)
      ensures r.completed <==> TaskSucceeds(e, grammars) && Unharmed(e)
      ensures ResultTells(e, r)
    {
      hide *;
      ObserveTask(e);
      Settle(e);
      r := Conclude(e);
      SettledIsSound(e, r);
      CompletesExactly(e, grammars);
    }

    // ---------------------------------------------------------- answers to the outside

    /** blocked: projecting a record that reports a restart poisons the process first. */
    method MakeBlocked(reason: Reason, source: Option<RuntimeRecord>, extra: Extra, additional: seq<Option<RuntimeRecord>>)
      returns (r: Result)
      modifies this`poisoned
      ensures poisoned == (old(poisoned) || ReportsRestart(Present([source] + additional)))
      ensures r == Blocked(reason, source, extra, additional, poisoned, grammars)
    {
      if ReportsRestart(Present([source] + additional)) { poisoned := true; }
      r := Blocked(reason, source, extra, additional, poisoned, grammars);
    }

    /** blocked, as far as callers rely on it: the poison flag is reported truthfully. */
    method Refuse(reason: Reason, source: Option<RuntimeRecord>, extra: Extra, additional: seq<Option<RuntimeRecord>>)
      returns (r: Result)
      requires |additional| <= 1
      modifies this`poisoned
      ensures poisoned == (old(poisoned) || ReportsRestart(Present([source] + additional)))
      ensures !r.completed && r.reason == reason && r.processRestartRequired == poisoned
      ensures r.candidateDiscarded == extra.candidateDiscarded
      ensures Reflects(r, source, extra, Beside(additional), grammars)
    {
      r := MakeBlocked(reason, source, extra, additional);
      BlockedReflects(reason, source, extra, additional, poisoned, grammars);
    }

    /** requestCancellation: idempotent, and without effect when there is no control capability. */
    method RequestCancellation(control: bool)
      modifies this`cancelAttempted, this`cancelCalls
      ensures cancelAttempted
      ensures cancelCalls == old(cancelCalls) + (if !old(cancelAttempted) && control then 1 else 0)
    {
      if cancelAttempted { return; }
      cancelAttempted := true;
      if control { cancelCalls := cancelCalls + 1; }
    }

    method Discard(id: string, answer: Option<RuntimeRecord>)
      modifies this`discardAttempts, this`discarded, this`isCandidateDiscarded
      ensures discardAttempts == old(discardAttempts) + [id]
      ensures discarded == answer && isCandidateDiscarded == Succeeded(answer)
    {
      discardAttempts := discardAttempts + [id];
      discarded := answer;
      isCandidateDiscarded := Succeeded(answer);
    }

    // ---------------------------------------------------------- the try block

    /** The pending outcome is that of the judged result, and says that the process is poisoned only when it is. */
    ghost predicate OutcomeStands(e: Environment)
      reads this`knownOutcome, this`taskResult, this`isCandidateDiscarded, this`poisoned
    {
      && knownOutcome.Some? == Judged(e, grammars)
      && (knownOutcome.Some? ==>
            && taskResult == ReadResult(e)
            && OutcomeOf(e, taskResult.value, grammars, isCandidateDiscarded, knownOutcome.value)
            && (knownOutcome.value.processRestartRequired ==> poisoned))
    }

    /** The candidate of a judged result was discarded once, and no other candidate. */
    ghost predicate FirstDiscard(e: Environment)
      reads this`discardAttempts, this`discarded, this`isCandidateDiscarded
    {
      var candidate := if Judged(e, grammars) then CandidateOf(ReadResult(e)) else None;
      && discardAttempts == (if candidate.Some? then [candidate.value] else [])
      && discarded == (if candidate.Some? then e.discards.0 else None)
      && isCandidateDiscarded == Succeeded(discarded)
    }

    /** What the try block leaves for the settlement. */
    ghost predicate Observed(e: Environment)
      reads this
    {
      && e.start.Started?
      && Stands(TryReason(e, grammars)) && taskResult == ReadResult(e) && cancellationRequested == SignalFirst(e)
      && CancelAccounted(e, e.start.control && (SignalFirst(e) || TryReason(e, grammars).Some?))
      && OutcomeStands(e) && FirstDiscard(e) && ProjectionStands(e)
    }

    /** The comparison of the revisions is kept once the result was judged. */
    ghost predicate ProjectionStands(e: Environment)
      reads this`stateProjection
    {
      stateProjection == if Judged(e, grammars) then ProjectionOf(e) else NO_EXTRA
    }

    /** A throw in the try block: the ending is unknown, and cancellation is asked for. */
    method Fail(reason: Reason)
      modifies this`isPostStartUnknown, this`postStartUnknownReason, this`cancelAttempted, this`cancelCalls
      ensures isPostStartUnknown && postStartUnknownReason == reason && cancelAttempted
      ensures cancelCalls == old(cancelCalls) + (if !old(cancelAttempted) then 1 else 0)
    {
      postStartUnknownReason := reason;
      isPostStartUnknown := true;
      RequestCancellation(true);
    }

    /** The body of the try block. */
    method ObserveTask(e: Environment)
      requires FreshRun() && e.start.Started?
      modifies this
      ensures Observed(e) && ProjectionStands(e)
      ensures poisoned <==> old(poisoned) || PoisonedByTask(e, grammars)
    {
      hide SafetyExact, OutcomeOf;
      if !e.start.control || e.start.completion.None? {
        isPostStartUnknown := true;
        postStartUnknownReason :=
          if !e.start.control then StartedTaskObservationUnknown
          else if e.start.observerUnknown then CompletionObserverUnknown
          else StartedTaskCompletionUnknown;
        if e.start.control { RequestCancellation(true); }
        return;
      }
      if e.bindThrows {
        Fail(postStartUnknownReason);
        return;
      }
      if e.poisonDuringTask { poisoned := true; }
      if e.cancellationFirst || e.start.completion.value.Pending? {
        cancellationRequested := true;
        RequestCancellation(true);
        return;
      }
      ReadCompletion(e, e.start.completion.value);
    }

    /** The completion won the race: it is read, checked for safety, and its candidate discarded. */
    method ReadCompletion(e: Environment, completion: Completion)
      requires FreshRun() && CompletionFirst(e) && completion == e.start.completion.value
      modifies this
      ensures Observed(e)
      ensures poisoned <==> old(poisoned) || PoisonedByRecords(e, grammars)
    {
      hide SafetyExact, OutcomeOf, Restarts, DiscardFailed;
      if completion.Rejected? {
        Fail(CompletionRejected);
        return;
      }
      taskResult := completion.value;
      if taskResult.None? {
        Fail(ResultContractMismatch);
        return;
      }
      if !SafetyExact(taskResult.value, grammars) {
        Fail(SafetyObservationUnknown);
        return;
      }
      HandleCandidate(e, taskResult.value);
    }

    /** The result could be read safely: its candidate is discarded, and then the result is judged. */
    method HandleCandidate(e: Environment, t: RuntimeRecord)
      requires Judged(e, grammars) && ReadResult(e) == Some(t) && taskResult == Some(t)
      requires discardAttempts == [] && discarded.None? && !isCandidateDiscarded && knownOutcome.None?
      modifies this`poisoned, this`stateProjection, this`discardAttempts, this`discarded, this`isCandidateDiscarded, this`knownOutcome
      ensures OutcomeStands(e) && FirstDiscard(e) && ProjectionStands(e)
      ensures poisoned <==> old(poisoned) || PoisonedByRecords(e, grammars)
    {
      hide SafetyExact, OutcomeOf, DiscardFailed, ReadResult;
      if t.processRestartRequired == True { poisoned := true; }
      stateProjection := ProjectionOf(e);
      if t.candidateId.Text? {
        Discard(t.candidateId.text, e.discards.0);
      }
      JudgeTask(e, t);
    }

    /** The authoritative outcome of a safely observed task, after its candidate was handled. */
    method JudgeTask(e: Environment, t: RuntimeRecord)
      requires knownOutcome.None? && SafetyExact(t, grammars) && stateProjection == ProjectionOf(e)
      requires discarded == (if t.candidateId.Text? then e.discards.0 else None) && isCandidateDiscarded == Succeeded(discarded)
      requires Restarts(Some(t)) ==> poisoned
      modifies this`poisoned, this`knownOutcome
      ensures poisoned <==> old(poisoned) || (DiscardFailed(e, t) && Restarts(e.discards.0))
      ensures knownOutcome.Some? && OutcomeOf(e, t, grammars, isCandidateDiscarded, knownOutcome.value)
      ensures knownOutcome.value.processRestartRequired ==> poisoned
    {
      hide SafetyExact, ReportsRestart, Present, Reflects, OutcomeTells, MismatchReason;
      var outcome;
      if DiscardFailed(e, t) {
        RestartReported(Some(t), [discarded]);
        outcome := Refuse(CandidateDiscardFailed, Some(t),
                          stateProjection.(cleanupConfirmed := Some(false), manualRecoveryRequired := Some(true),
                                           candidateDiscarded := Some(false)),
                          [discarded]);
        DiscardFailureTold(e, grammars, t, outcome, discarded);
      } else if e.revisionAfter != SameRevision || !ContractConforms(t) {
        outcome := BlockedAfterJudging(e, t, MismatchReason(e, t));
      } else if !e.candidateMatches {
        outcome := BlockedAfterJudging(e, t, CandidateContentMismatch);
      } else {
        outcome := CompletedResult();
        CompletionTold(e, grammars, t);
      }
      knownOutcome := Some(outcome);
    }

    /** blockedAfterExactCandidateDiscard, or blocked when there was no candidate to discard. */
    method BlockedAfterJudging(e: Environment, t: RuntimeRecord, reason: Reason) returns (outcome: Result)
      requires stateProjection == ProjectionOf(e) && !DiscardFailed(e, t) && (Restarts(Some(t)) ==> poisoned)
      requires isCandidateDiscarded <==> t.candidateId.Text?
      modifies this`poisoned
      ensures poisoned == old(poisoned) && outcome.processRestartRequired == poisoned
      ensures !outcome.completed && outcome.reason == reason && outcome.candidateDiscarded == Some(isCandidateDiscarded)
      ensures OutcomeTells(e, grammars, t, outcome)
    {
      hide SafetyExact, ReportsRestart, Present, Reflects, OutcomeTells;
      if isCandidateDiscarded {
        var withoutRecovery := t.(candidateRecoveryId := Null, candidateStoreRecoveryId := Null);
        RestartReported(Some(withoutRecovery), []);
        outcome := Refuse(reason, Some(withoutRecovery), stateProjection.(candidateDiscarded := Some(true)), []);
        MismatchTold(e, grammars, t, withoutRecovery, outcome, true);
      } else {
        RestartReported(Some(t), []);
        outcome := Refuse(reason, Some(t), stateProjection.(candidateDiscarded := Some(false)), []);
        MismatchTold(e, grammars, t, t, outcome, false);
      }
    }

    // ---------------------------------------------------------- the settlement

    /** What the settlement leaves for the returns. */
    ghost predicate Settled(e: Environment)
      reads this`taskResult, this`discarded, this`isCandidateDiscarded, this`discardAttempts, this`cancelAttempted,
        this`cancelCalls, this`cancellationRequested, this`isPostStartUnknown, this`postStartUnknownReason
    {
      && e.start.Started?
      && Stands(UnknownReason(e, grammars)) && taskResult == LateResult(e, grammars) && cancellationRequested == CancelWanted(e)
      && CancelAccounted(e, Asked(e, grammars))
      && DiscardsSound(e) && (CandidateOf(taskResult).Some? ==> discardAttempts != [])
    }

    /** The finally block: cancellation, a late completion, and the candidate. */
    method Settle(e: Environment)
      requires Observed(e)
      modifies this`poisoned, this`cancelCalls, this`cancelAttempted, this`cancellationRequested, this`isPostStartUnknown,
        this`postStartUnknownReason, this`taskResult, this`discardAttempts, this`discarded, this`isCandidateDiscarded
      ensures Settled(e)
      ensures old(poisoned) || e.poisonDuringSettlement ==> poisoned
      // An undisturbed run keeps its outcome.
      ensures !Interrupted(e, grammars) ==> OutcomeStands(e) && (poisoned <==> old(poisoned) || e.poisonDuringSettlement)
    {
      hide TryReason, ReceiptReason, LateReason, UnknownReason, LateResult, ReadResult, Asked, Interrupted, CancelWanted, SignalFirst,
        Judged, Stands, CancelAccounted, FirstDiscard, Settled, OutcomeOf;
      SettleCancellation(e);
      SettleCompletion(e);
      SettleCandidate(e);
    }

    /** Unbinding, the final cancellation observation, and the bounded wait for the acknowledgment. */
    method SettleCancellation(e: Environment)
      requires e.start.Started? && Stands(TryReason(e, grammars)) && cancellationRequested == SignalFirst(e)
      requires CancelAccounted(e, e.start.control && (SignalFirst(e) || TryReason(e, grammars).Some?))
      modifies this`poisoned, this`cancelCalls, this`cancelAttempted, this`cancellationRequested, this`isPostStartUnknown,
        this`postStartUnknownReason
      ensures Stands(ReceiptReason(e, grammars)) && cancellationRequested == CancelWanted(e)
      ensures CancelAccounted(e, Asked(e, grammars))
      ensures poisoned <==> old(poisoned) || e.poisonDuringSettlement
    {
      hide TryReason, BindReason, Asked, CancelWanted, SignalFirst;
      Unbind(e);
      AskFinally(e);
      if e.poisonDuringSettlement { poisoned := true; }
      if cancelCalls > 0 && e.cancelReceipt.None? {
        isPostStartUnknown := true;
        postStartUnknownReason := CancellationCompletionUnknown;
      }
    }

    /** Cancellation is asked for now, unless that was done before or nothing calls for it. */
    method AskFinally(e: Environment)
      requires e.start.Started? && Stands(BindReason(e, grammars)) && cancellationRequested == CancelWanted(e)
      requires CancelAccounted(e, e.start.control && (SignalFirst(e) || TryReason(e, grammars).Some?))
      modifies this`cancelCalls, this`cancelAttempted
      ensures CancelAccounted(e, Asked(e, grammars))
    {
      hide TryReason, BindReason, CancelWanted, SignalFirst;
      BindingKeeps(e, grammars);
      if cancellationRequested { RequestCancellation(e.start.control); }
      if isPostStartUnknown { RequestCancellation(e.start.control); }
    }

    method Unbind(e: Environment)
      requires e.start.Started? && Stands(TryReason(e, grammars)) && cancellationRequested == SignalFirst(e)
      modifies this`cancellationRequested, this`isPostStartUnknown, this`postStartUnknownReason
      ensures Stands(BindReason(e, grammars)) && cancellationRequested == CancelWanted(e)
    {
      hide TryReason;
      if Bound(e) {
        if e.unbindThrows {
          isPostStartUnknown := true;
          postStartUnknownReason := CancellationUnbindUnknown;
        }
        match e.requested {
          case Answers(requested) =>
            cancellationRequested := requested;
          case RequestThrows =>
            isPostStartUnknown := true;
            postStartUnknownReason := CancellationObservationUnknown;
        }
      }
    }

    /** An interrupted run waits, within a bound, for the completion it has not read yet. */
    method SettleCompletion(e: Environment)
      requires e.start.Started? && Stands(ReceiptReason(e, grammars)) && cancellationRequested == CancelWanted(e)
      requires taskResult == ReadResult(e)
      modifies this`taskResult, this`isPostStartUnknown, this`postStartUnknownReason
      ensures Stands(LateReason(e, grammars)) && taskResult == LateResult(e, grammars)
      ensures !Interrupted(e, grammars) || old(taskResult).Some? ==> taskResult == old(taskResult)
    {
      hide ReceiptReason, ReadResult;
      if e.start.completion.Some? && (isPostStartUnknown || cancellationRequested) && taskResult.None? {
        if Arrives(e) {
          taskResult := e.start.completion.value.value;
        } else {
          isPostStartUnknown := true;
          postStartUnknownReason := CompletionSettlementUnknown;
        }
      }
    }

    /** The safety of the result of an interrupted run, and the discard of a candidate that is still there. */
    method SettleCandidate(e: Environment)
      requires e.start.Started? && Stands(LateReason(e, grammars)) && cancellationRequested == CancelWanted(e)
      requires CancelAccounted(e, Asked(e, grammars)) && taskResult == LateResult(e, grammars)
      requires FirstDiscard(e)
      modifies this`poisoned, this`isPostStartUnknown, this`postStartUnknownReason, this`discardAttempts, this`discarded,
        this`isCandidateDiscarded
      ensures Settled(e)
      ensures old(poisoned) ==> poisoned
      ensures !Interrupted(e, grammars) ==> poisoned == old(poisoned) && isCandidateDiscarded == old(isCandidateDiscarded)
    {
      hide ReceiptReason, LateReason, UnknownReason, LateResult, ReadResult, Asked, CancelWanted, Interrupted, SignalFirst, Judged,
        FirstDiscard, DiscardsSound, CancelAccounted;
      FirstIsSound(e);
      SettleSafety(e);
      InterruptedAsks(e, grammars);
      if taskResult.Some? && (isPostStartUnknown || cancellationRequested) {
        DiscardRemaining(e, taskResult.value);
      }
    }

    /** The safety of the result of an interrupted run, and what the receipt of its cancellation leaves open. */
    method SettleSafety(e: Environment)
      requires e.start.Started? && Stands(LateReason(e, grammars)) && cancellationRequested == CancelWanted(e)
      requires CancelAccounted(e, Asked(e, grammars)) && taskResult == LateResult(e, grammars)
      modifies this`poisoned, this`isPostStartUnknown, this`postStartUnknownReason
      ensures Stands(UnknownReason(e, grammars))
      ensures old(poisoned) ==> poisoned
      ensures !Interrupted(e, grammars) ==> poisoned == old(poisoned)
    {
      hide SafetyReason, LateReason, LateResult, Asked, CancelWanted, Interrupted;
      LateInterrupts(e, grammars);
      if taskResult.Some? && (isPostStartUnknown || cancellationRequested) {
        var t := taskResult.value;
        CheckSafety(t, LateReason(e, grammars));
        if cancelCalls > 0 && e.cancelReceipt == Some(false) && t.cleanupConfirmed != True {
          isPostStartUnknown := true;
          postStartUnknownReason := CancellationCleanupUnknown;
        }
      }
    }

    method CheckSafety(t: RuntimeRecord, ghost before: Option<Reason>)
      requires Stands(before)
      modifies this`poisoned, this`isPostStartUnknown, this`postStartUnknownReason
      ensures Stands(SafetyReason(t, before, grammars))
      ensures poisoned <==> old(poisoned) || (SafetyExact(t, grammars) && t.processRestartRequired == True)
    {
      hide SafetyExact;
      if !SafetyExact(t, grammars) {
        isPostStartUnknown := true;
        postStartUnknownReason := SafetyObservationUnknown;
      } else if t.processRestartRequired == True {
        poisoned := true;
      }
    }

    /** The discard of a candidate that is still there: the first one, or the second after one that failed. */
    method DiscardRemaining(e: Environment, t: RuntimeRecord)
      requires taskResult == Some(t) && DiscardsSound(e) && |discardAttempts| <= 1
      modifies this`discardAttempts, this`discarded, this`isCandidateDiscarded
      ensures DiscardsSound(e) && (CandidateOf(taskResult).Some? ==> discardAttempts != [])
    {
      if t.candidateId.Text? && !isCandidateDiscarded {
        Discard(t.candidateId.text, if discardAttempts == [] then e.discards.0 else e.discards.1);
      }
    }

    lemma FirstIsSound(e: Environment)
      requires e.start.Started? && FirstDiscard(e) && taskResult == LateResult(e, grammars)
      ensures DiscardsSound(e) && |discardAttempts| <= 1
      ensures !Interrupted(e, grammars) && CandidateOf(taskResult).Some? ==> discardAttempts != []
    {
      hide SafetyExact;
      InterruptedAsks(e, grammars);
      assert discardAttempts != [] ==> Judged(e, grammars) && LateResult(e, grammars) == ReadResult(e);
    }

    // ---------------------------------------------------------- the returns

    method PostStartUnknown(e: Environment, reason: Reason) returns (r: Result)
      requires ProjectionStands(e)
      modifies this`poisoned
      ensures poisoned && ReportsUnknown(r) && r.candidateDiscarded == Some(isCandidateDiscarded)
      ensures r.recovery == ProjectRecovery(Present([taskResult, discarded]), grammars)
      ensures r.reason == reason
      ensures TellsChange(r.canonicalRepositoryChanged, if Judged(e, grammars) then Some(e.revisionAfter) else None, taskResult)
      ensures r.recovery == ProjectRecovery(There(taskResult, discarded), grammars)
    {
      hide ProjectRecovery, Present, ReportsRestart, Judged;
      poisoned := true;
      var extra := stateProjection.(candidateDiscarded := Some(isCandidateDiscarded));
      r := MakeBlocked(reason, taskResult, extra, [discarded]);
      BlockedReflects(reason, taskResult, extra, [discarded], poisoned, grammars);
      assert [taskResult] + [discarded] == [taskResult, discarded];
      r := r.(cleanupConfirmed := false, manualRecoveryRequired := true, processRestartRequired := true,
              effectStateUnknown := true, recoveryIdentityAmbiguous := true);
    }

    /** A blocked return after the settlement. */
    method Interrupt(e: Environment, reason: Reason) returns (r: Result)
      requires ProjectionStands(e)
      modifies this`poisoned
      ensures old(poisoned) ==> poisoned
      ensures r.reason == reason && !r.completed && r.processRestartRequired == poisoned
      ensures r.candidateDiscarded == Some(isCandidateDiscarded)
      ensures r.recovery == ProjectRecovery(Present([taskResult, discarded]), grammars)
      ensures EndingTells(e, grammars, taskResult, discarded, r)
    {
      hide ProjectRecovery, Present, ReportsRestart, Judged, BothConfirm, EitherAsks;
      var extra := stateProjection.(candidateDiscarded := Some(isCandidateDiscarded));
      r := MakeBlocked(reason, taskResult, extra, [discarded]);
      BlockedReflects(reason, taskResult, extra, [discarded], poisoned, grammars);
      assert [taskResult] + [discarded] == [taskResult, discarded];
    }

    /** The returns after settlement, in their fixed order. */
    method Conclude(e: Environment) returns (r: Result)
      requires Settled(e)
      requires ProjectionStands(e)
      requires !Interrupted(e, grammars) ==>
                 OutcomeStands(e) && (poisoned <==> PoisonedByTask(e, grammars) || e.poisonDuringSettlement)
      modifies this`poisoned
      ensures old(poisoned) ==> poisoned
      ensures r.reason == EndReason(e, grammars) && r.processRestartRequired == poisoned
      ensures r.candidateDiscarded == Some(isCandidateDiscarded)
      ensures isPostStartUnknown ==> ReportsUnknown(r) && r.reason == postStartUnknownReason
      ensures isPostStartUnknown || cancellationRequested ==>
                r.recovery == ProjectRecovery(Present([taskResult, discarded]), grammars)
      ensures r.completed <==>
                !Interrupted(e, grammars) && !old(poisoned) && Judged(e, grammars) && ResultSucceeds(e, ReadResult(e).value, grammars)
      ensures r.completed ==> !poisoned && r == CompletedResult()
      ensures ResultTells(e, r)
    {
      hide ProjectRecovery, Present, ReportsRestart, UnknownReason, Interrupted, CancelWanted, PoisonedByTask, Judged, ResultSucceeds,
        DiscardsSound, OutcomeReason, TellsChange, EndingTells, OutcomeTells;
      InterruptedAsks(e, grammars);
      if isPostStartUnknown {
        r := PostStartUnknown(e, postStartUnknownReason);
      } else if cancellationRequested {
        r := Interrupt(e, Cancelled);
      } else if poisoned {
        r := Interrupt(e, ProcessRestartRequired);
      } else if knownOutcome.None? {
        r := PostStartUnknown(e, FinalOutcomeUnknown);
      } else {
        r := knownOutcome.value;
        OutcomeReasons(e, taskResult.value);
      }
    }

    /** A settled run with the return of Conclude is sound. */
    lemma SettledIsSound(e: Environment, r: Result)
      requires Settled(e) && r.processRestartRequired == poisoned && r.candidateDiscarded == Some(isCandidateDiscarded)
      requires isPostStartUnknown ==> ReportsUnknown(r) && r.reason == postStartUnknownReason
      requires isPostStartUnknown || cancellationRequested ==>
                 r.recovery == ProjectRecovery(Present([taskResult, discarded]), grammars)
      requires r.completed ==>
                 !Interrupted(e, grammars) && Judged(e, grammars) && ResultSucceeds(e, ReadResult(e).value, grammars) &&
                 !poisoned && r == CompletedResult()
      ensures RunSound(e, r)
    {
      hide ProjectRecovery, Present, SafetyExact, UnknownReason, Interrupted, ReadResult, LateResult, CancelWanted, Asked,
        ReportsUnknown;
      InterruptedAsks(e, grammars);
    }
  }

  /** The outcome of a judged result: its reason, when it is a completion, and what it says about the candidate. */
  ghost predicate OutcomeOf(e: Environment, t: RuntimeRecord, g: Grammars, isCandidateDiscarded: bool, outcome: Result) {
    && outcome.reason == OutcomeReason(e, t)
    && (outcome.completed <==> ResultSucceeds(e, t, g))
    && outcome.candidateDiscarded == Some(isCandidateDiscarded)
    && (outcome.completed ==> outcome == CompletedResult())
    && OutcomeTells(e, g, t, outcome)
  }

  lemma DiscardFailureTold(e: Environment, g: Grammars, t: RuntimeRecord, r: Result, discarded: Option<RuntimeRecord>)
    requires DiscardFailed(e, t) && !r.completed
    requires Reflects(r, Some(t), ProjectionOf(e).(cleanupConfirmed := Some(false), manualRecoveryRequired := Some(true),
                                                   candidateDiscarded := Some(false)), discarded, g)
    requires discarded == e.discards.0
    ensures OutcomeTells(e, g, t, r)
  {
  }

  /** The recovery identities of a discarded candidate are taken out of the record, its flags stay. */
  lemma MismatchTold(e: Environment, g: Grammars, t: RuntimeRecord, source: RuntimeRecord, r: Result, isCandidateDiscarded: bool)
    requires !DiscardFailed(e, t) && !r.completed
    requires source == if t.candidateId.Text? then t.(candidateRecoveryId := Null, candidateStoreRecoveryId := Null) else t
    requires Reflects(r, Some(source), ProjectionOf(e).(candidateDiscarded := Some(isCandidateDiscarded)), None, g)
    ensures OutcomeTells(e, g, t, r)
  {
  }

  lemma CompletionTold(e: Environment, g: Grammars, t: RuntimeRecord)
    requires !DiscardFailed(e, t) && e.revisionAfter == SameRevision && ContractConforms(t)
    ensures OutcomeTells(e, g, t, CompletedResult())
  {
  }

  /** The reason of an outcome is none of those of the settlement. */
  lemma OutcomeReasons(e: Environment, t: RuntimeRecord)
    ensures OutcomeReason(e, t) != FinalOutcomeUnknown && OutcomeReason(e, t) != ProcessRestartRequired
  {
    hide ContractConforms;
  }

  lemma RestartReported(source: Option<RuntimeRecord>, additional: seq<Option<RuntimeRecord>>)
    requires |additional| <= 1
    ensures ReportsRestart(Present([source] + additional)) <==> Restarts(source) || Restarts(Beside(additional))
  {
    hide Present;
    PresentOfTwo(source, additional);
    var s := There(source, Beside(additional));
    assert source.Some? ==> s[0] == source.value;
    assert Beside(additional).Some? ==> s[|s| - 1] == Beside(additional).value;
  }
}
