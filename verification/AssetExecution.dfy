/**
 One decision carried out by one process while others go on: read, decide, and publish under the lock, with any
 steps of other processes between any two of its own. What it reports about its effect is what it did.
 */
module AssetExecution {
  import opened Common
  import opened AssetNames
  import opened AssetGovernance
  import opened AssetStore
  import opened AssetStoreSafety

  datatype LockAnswer = Unavailable | ObservationUnknown | RecoveryRequired | Granted(cleanupConfirmed: bool)

  /** Which operations under the lock throw. */
  datatype Faults = Faults(open: bool, fill: bool, link: bool, remove: bool)

  const NO_FAULTS := Faults(false, false, false, false)

  datatype Reason =
    | DecisionApplied | AuthorityInvalid | NotApplied(why: BlockedReason) | DecisionRevisionConflict
    | EffectIssuedCleanupRequired | EffectUnknownCleanupRequired
    | StoreRecoveryRequired | StoreUnavailable | StoreObservationUnknown

  /** Threw is a thrown error: the caller gets no report at all. */
  datatype Report =
    | Threw
    | Answer(completed: bool, reason: Reason, effect: Option<bool>, record: Option<AssetRecord>, currentRevision: Option<nat>)

  predicate NotOf(pid: nat, events: seq<Event>) {
    forall i :: 0 <= i < |events| ==> events[i].pid != pid
  }

  function OwnCommits(h: seq<Commit>, pid: nat): nat {
    if h == [] then 0 else OwnCommits(h[..|h| - 1], pid) + (if h[|h| - 1].author == Some(pid) then 1 else 0)
  }

  lemma OwnCommitAdded(h: seq<Commit>, c: Commit, pid: nat)
    ensures OwnCommits(h + [c], pid) == OwnCommits(h, pid) + (if c.author == Some(pid) then 1 else 0)
  {
    assert (h + [c])[..|h|] == h;
  }

  /** Steps of other processes commit nothing in this one's name and do not move it. */
  lemma {:induction false} OthersKeepOut(s: State, events: seq<Event>, pid: nat)
    requires NotOf(pid, events)
    ensures var t := Run(s, events);
            OwnCommits(t.history, pid) == OwnCommits(s.history, pid) && PhaseOf(t, pid) == PhaseOf(s, pid)
  {
    hide Step, OwnCommits;
    if events != [] {
      var t := Run(s, events[..|events| - 1]);
      OthersKeepOut(s, events[..|events| - 1], pid);
      StepCommitsOnce(t, events[|events| - 1]);
      StepMovesOne(t, events[|events| - 1], pid);
      if Step(t, events[|events| - 1]).history != t.history {
        OwnCommitAdded(t.history, Commit(PhaseOf(t, events[|events| - 1].pid).next, Some(events[|events| - 1].pid)), pid);
      }
    }
  }

  lemma StepMovesOne(s: State, e: Event, pid: nat)
    requires e.pid != pid
    ensures PhaseOf(Step(s, e), pid) == PhaseOf(s, pid)
  {
    hide DecideStep, CheckStep, OpenStep, LinkStep, TemporaryName;
    match e.action
    case Decide(input, listing) => DecideMovesOne(s, e.pid, input, listing, pid);
    case Check(listing) => if PhaseOf(s, e.pid).Locked? { CheckMovesOne(s, e.pid, listing, pid); }
    case OpenTemp => if PhaseOf(s, e.pid).Checked? { FileMovesOne(s, e.pid, PhaseOf(s, e.pid).next, pid); }
    case Link => if PhaseOf(s, e.pid).TempFull? { FileMovesOne(s, e.pid, PhaseOf(s, e.pid).next, pid); }
    case _ =>
  }

  lemma DecideMovesOne(s: State, actor: nat, input: DecisionInput, listing: seq<string>, pid: nat)
    requires actor != pid
    ensures PhaseOf(DecideStep(s, actor, input, listing), pid) == PhaseOf(s, pid)
  {
    hide Scan, Apply, Lists;
  }

  lemma CheckMovesOne(s: State, actor: nat, listing: seq<string>, pid: nat)
    requires actor != pid && PhaseOf(s, actor).Locked?
    ensures PhaseOf(CheckStep(s, actor, PhaseOf(s, actor), listing), pid) == PhaseOf(s, pid)
  {
    hide Scan, Lists;
  }

  lemma FileMovesOne(s: State, actor: nat, next: AssetRecord, pid: nat)
    requires actor != pid
    ensures PhaseOf(OpenStep(s, actor, next), pid) == PhaseOf(s, pid) && PhaseOf(LinkStep(s, actor, next), pid) == PhaseOf(s, pid)
  {
    hide TemporaryName, GenerationName;
  }

  lemma StepOfNonHolder(s: State, e: Event, pid: nat)
    requires e.pid != pid && s.holder == Some(pid) && Inv(s)
    ensures Step(s, e).holder == s.holder && Step(s, e).history == s.history
  {
    hide Scan, Apply, TemporaryName, GenerationName, Lists, Inv, OpenStep, LinkStep;
    assert !Holding(PhaseOf(s, e.pid)) by {
      if Holding(PhaseOf(s, e.pid)) { HolderIs(s, e.pid); }
    }
  }

  /** While a process holds the lock, nobody else commits anything. */
  lemma {:induction false} LockExcludes(s: State, events: seq<Event>, pid: nat)
    requires NotOf(pid, events) && Inv(s) && s.holder == Some(pid)
    ensures Run(s, events).history == s.history && Run(s, events).holder == Some(pid)
  {
    hide Step, Inv;
    if events != [] {
      LockExcludes(s, events[..|events| - 1], pid);
      RunKeeps(s, events[..|events| - 1]);
      StepOfNonHolder(Run(s, events[..|events| - 1]), events[|events| - 1], pid);
    }
  }

  class Process {
    const pid: nat
    var s: State

    constructor (pid: nat, s: State)
      requires Inv(s) && PhaseOf(s, pid).Idle?
      ensures this.pid == pid && this.s == s
    {
      this.pid, this.s := pid, s;
    }

    /** The decision applies to the last record, nobody holds the lock, and no temporary file is in the way. */
    ghost predicate Possible(s: State, input: DecisionInput)
      requires Inv(s)
    {
      Readable(s) && Apply(Last(s), input).Completed? && s.holder.None? &&
      TemporaryName(s.prefix, Apply(Last(s), input).record.recordRevision, pid) !in s.dir
    }

    lemma SameReadability(a: State, b: State)
      requires a.history != [] && a.history == b.history
      ensures Readable(a) == Readable(b) && Last(a) == Last(b)
    {
    }

    /** readdir. */
    method ReadDirectory() returns (listing: seq<string>)
      ensures Lists(listing, s.dir)
    {
      var names := s.dir.Keys;
      listing := [];
      while names != {}
        invariant names <= s.dir.Keys
        invariant forall name :: name in listing ==> name in s.dir
        invariant forall name :: name in s.dir ==> name in listing || name in names
        decreases |names|
      {
        var name :| name in names;
        listing, names := listing + [name], names - {name};
      }
    }

    /** store.read(). */
    method ReadStore() returns (r: Option<AssetRecord>)
      requires Inv(s)
      ensures r == if Readable(s) then Some(Last(s)) else None
    {
      hide Published, Readable, Scan;
      var listing := ReadDirectory();
      r := Read(s.prefix, listing, s.base, s.dir);
      ReadIsRegister(s, listing);
    }

    /** One own operation, and then whatever others do. */
    method Do(action: Action, others: seq<Event>)
      requires Inv(s) && NotOf(pid, others)
      modifies this`s
      ensures Inv(s) && old(s).history <= s.history && s.base == old(s).base
      ensures PhaseOf(s, pid) == PhaseOf(Step(old(s), Event(pid, action)), pid)
      ensures OwnCommits(s.history, pid) == OwnCommits(Step(old(s), Event(pid, action)).history, pid)
      ensures Step(old(s), Event(pid, action)).holder == Some(pid) ==>
                s.history == Step(old(s), Event(pid, action)).history && s.holder == Some(pid)
      ensures others == [] ==> s == Step(old(s), Event(pid, action))
    {
      hide Step, Inv, OwnCommits;
      StepKeeps(s, Event(pid, action));
      StepCommitsOnce(s, Event(pid, action));
      s := Step(s, Event(pid, action));
      OthersKeepOut(s, others, pid);
      if s.holder == Some(pid) { LockExcludes(s, others, pid); }
      RunKeeps(s, others);
      HistoryGrows(s, others);
      s := Run(s, others);
    }

    /** The operation under the lock, from the check to its outcome. */
    method Publish(expected: nat, next: AssetRecord, faults: Faults, gaps: seq<seq<Event>>) returns (outcome: Outcome)
      requires Inv(s) && PhaseOf(s, pid) == Locked(expected, next) && s.holder == Some(pid)
      requires |gaps| == 4 && forall i :: 0 <= i < |gaps| ==> NotOf(pid, gaps[i])
      modifies this`s
      ensures Inv(s) && s.base == old(s).base && PhaseOf(s, pid) == Finished(outcome) && s.holder == Some(pid)
      ensures outcome == Updated || outcome == Failed(true) ==>
                s.history == old(s).history + [Commit(next, Some(pid))] && Last(old(s)).recordRevision == expected
      ensures outcome != Updated && outcome != Failed(true) ==> s.history == old(s).history
      ensures outcome == Conflict <==> Readable(old(s)) && Last(old(s)).recordRevision != expected
      ensures (Readable(old(s)) && Last(old(s)).recordRevision == expected && faults == NO_FAULTS && gaps[0] == [] &&
               TemporaryName(old(s).prefix, next.recordRevision, pid) !in old(s).dir) ==>
                outcome == Updated
    {
      hide Inv, Run, Step, OwnCommits, Readable, TemporaryName;
      var stopped := CheckRevision(expected, next, gaps[0]);
      if stopped.Some? { return stopped.value; }
      stopped := WriteTemporary(next, faults, gaps[1..3]);
      if stopped.Some? { return stopped.value; }
      outcome := LinkAndClean(next, faults, gaps[3]);
    }

    method CheckRevision(expected: nat, next: AssetRecord, gap: seq<Event>) returns (stopped: Option<Outcome>)
      requires Inv(s) && PhaseOf(s, pid) == Locked(expected, next) && s.holder == Some(pid) && NotOf(pid, gap)
      modifies this`s
      ensures Inv(s) && s.base == old(s).base && s.holder == Some(pid) && s.history == old(s).history
      ensures PhaseOf(s, pid) == if stopped.Some? then Finished(stopped.value) else Checked(next)
      ensures stopped.Some? ==> stopped.value == Conflict || stopped.value == Failed(false)
      ensures stopped == Some(Conflict) <==> Readable(old(s)) && Last(old(s)).recordRevision != expected
      ensures stopped.None? ==> Last(s).recordRevision == expected
      ensures Readable(old(s)) && Last(old(s)).recordRevision == expected ==> stopped.None?
      ensures gap == [] ==> s.dir == old(s).dir && s.prefix == old(s).prefix
    {
      hide Published, Follows, Scan, Run, OwnCommits, Apply, PhaseSound;
      var listing := ReadDirectory();
      ReadIsRegister(s, listing);
      Do(Check(listing), gap);
      stopped := if PhaseOf(s, pid).Finished? then Some(PhaseOf(s, pid).outcome) else None;
    }

    method WriteTemporary(next: AssetRecord, faults: Faults, gaps: seq<seq<Event>>) returns (stopped: Option<Outcome>)
      requires Inv(s) && PhaseOf(s, pid) == Checked(next) && s.holder == Some(pid)
      requires |gaps| == 2 && NotOf(pid, gaps[0]) && NotOf(pid, gaps[1])
      modifies this`s
      ensures Inv(s) && s.base == old(s).base && s.holder == Some(pid) && s.history == old(s).history
      ensures PhaseOf(s, pid) == if stopped.Some? then Finished(stopped.value) else TempFull(next)
      ensures stopped.Some? ==> stopped.value == Failed(false)
      ensures !faults.open && !faults.fill && TemporaryName(old(s).prefix, next.recordRevision, pid) !in old(s).dir ==> stopped.None?
    {
      hide Inv, Scan, Run, OwnCommits, Apply, TemporaryName, GenerationName;
      if faults.open {
        var outcome := StopWith(Fail);
        return Some(outcome);
      }
      Do(OpenTemp, gaps[0]);
      if PhaseOf(s, pid).Finished? { return Some(PhaseOf(s, pid).outcome); }
      if faults.fill {
        var outcome := StopWith(Fail);
        return Some(outcome);
      }
      Do(FillTemp, gaps[1]);
      stopped := None;
    }

    method LinkAndClean(next: AssetRecord, faults: Faults, gap: seq<Event>) returns (outcome: Outcome)
      requires Inv(s) && PhaseOf(s, pid) == TempFull(next) && s.holder == Some(pid) && NotOf(pid, gap)
      modifies this`s
      ensures Inv(s) && s.base == old(s).base && PhaseOf(s, pid) == Finished(outcome) && s.holder == Some(pid)
      ensures outcome == Updated || outcome == Failed(true) ==> s.history == old(s).history + [Commit(next, Some(pid))]
      ensures outcome != Updated && outcome != Failed(true) ==> s.history == old(s).history
      ensures outcome != Conflict
      ensures !faults.link && !faults.remove ==> outcome == Updated
    {
      hide Published, Follows, TemporaryName, GenerationName, Scan, Run, OwnCommits, Apply, Chain, OpenStep, CheckStep, DecideStep;
      if faults.link {
        Do(FailLink, gap);
      } else {
        assert PhaseSound(s, pid, PhaseOf(s, pid));
        NextNameFree(s, next);
        Do(Link, gap);
      }
      outcome := StopWith(if faults.remove then Fail else RemoveTemp);
    }

    method StopWith(action: Action) returns (outcome: Outcome)
      requires Inv(s) && s.holder == Some(pid)
      requires Holding(PhaseOf(s, pid)) && !PhaseOf(s, pid).Finished?
      requires action == Fail || (action == RemoveTemp && PhaseOf(s, pid).Cleaning?)
      modifies this`s
      ensures Inv(s) && s.base == old(s).base && s.history == old(s).history && PhaseOf(s, pid) == Finished(outcome)
      ensures s.holder == Some(pid)
      ensures var p := PhaseOf(old(s), pid);
              outcome == if action == Fail then Failed(p.Cleaning? && p.link == Linked) else OutcomeOf(p.link)
    {
      hide Inv, TemporaryName;
      StepKeeps(s, Event(pid, action));
      s := Step(s, Event(pid, action));
      outcome := PhaseOf(s, pid).outcome;
    }

    /** executeOfficialAssetDecision. */
    method Execute(input: DecisionInput, verified: bool, lock: LockAnswer, faults: Faults, gaps: seq<seq<Event>>)
      returns (r: Report)
      requires Inv(s) && PhaseOf(s, pid).Idle?
      requires |gaps| == 7 && forall i :: 0 <= i < |gaps| ==> NotOf(pid, gaps[i])
      modifies this`s
      ensures Inv(s) && old(s).history <= s.history && PhaseOf(s, pid).Idle?
      // The effect that is reported is the one that happened; one call commits at most once.
      ensures r.Answer? && r.effect == Some(true) ==> OwnCommits(s.history, pid) == OwnCommits(old(s).history, pid) + 1
      ensures r.Answer? && r.effect == Some(false) ==> OwnCommits(s.history, pid) == OwnCommits(old(s).history, pid)
      ensures OwnCommits(s.history, pid) <= OwnCommits(old(s).history, pid) + 1
      // A report that is not a completion says what the store holds now.
      ensures r.Answer? && r.currentRevision.Some? ==> r.currentRevision.value == Last(s).recordRevision
      ensures r.Answer? && !r.completed && r.record.Some? ==> r.record.value == Last(s)
      ensures (r.Answer? && r.reason == AuthorityInvalid) <==> Readable(old(s)) && !verified
      ensures !Readable(old(s)) ==> r.Threw? && s == old(s)
      // Nothing is committed without authority, and an undetermined effect is reported only after a failed cleanup.
      ensures !verified ==> s.history == old(s).history && !(r.Answer? && r.completed)
      ensures r.Answer? && r.effect.None? ==> lock == Granted(false)
      // A completed decision is committed right after the record that it was made on.
      ensures r.Answer? && r.completed ==>
                r.effect == Some(true) && r.record.Some? &&
                exists current :: Apply(current, input) == Completed(r.record.value) &&
                  CommittedAfter(old(s).history, s.history, current, r.record.value, pid)
      // And it says what was asked for: an approval leaves an approved record in the history, and so on.
      ensures r.Answer? && r.completed ==>
                Says(r.record.value, input) &&
                exists k :: |old(s).history| <= k < |s.history| && s.history[k] == Commit(r.record.value, Some(pid))
      // A decision that does not apply is refused for its reason, and changes nothing.
      ensures verified && Readable(old(s)) && Apply(Last(old(s)), input).Blocked? ==>
                s == old(s) && r == Answer(false, NotApplied(Apply(Last(s), input).reason), Some(false), None,
                                           Some(Last(s).recordRevision))
      // It throws only when the store cannot be read, or an operation under the lock failed and the lock was cleaned up.
      ensures r.Threw? ==> !Readable(old(s)) || !Readable(s) || lock == Granted(true)
      // A conflict is reported only when others have committed meanwhile.
      ensures r.Answer? && r.reason == DecisionRevisionConflict ==> |s.history| > |old(s).history|
      // The reason of a report on the store tells the effect and what the lock answered.
      ensures verified && Readable(old(s)) && Apply(Last(old(s)), input).Completed? && r.Answer? ==> Tells(r, lock)
      // Undisturbed, an authorized decision that applies to the last record is completed.
      ensures (verified && lock == Granted(true) && faults == NO_FAULTS && (forall i :: 0 <= i < |gaps| ==> gaps[i] == []) &&
               Possible(old(s), input)) ==>
                r.Answer? && r.completed
    {
      hide Published, Follows, Readable, Apply, Run, Step, OwnCommits, Phases, Says, Tells;
      var current := ReadStore();
      if current.None? { return Threw; }
      AppliesExactly(current.value, input);
      if !verified {
        return Answer(false, AuthorityInvalid, Some(false), None, Some(current.value.recordRevision));
      }
      var decision := Apply(current.value, input);
      if decision.Blocked? {
        return Answer(false, NotApplied(decision.reason), Some(false), None, Some(current.value.recordRevision));
      }
      r := CompareAndSet(current.value, input, decision.record, lock, faults, gaps);
      assert r.Answer? && r.completed ==> CommittedAfter(old(s).history, s.history, current.value, decision.record, pid);
    }

    /** compareAndSet and the report made of its status. */
    method CompareAndSet(current: AssetRecord, input: DecisionInput, next: AssetRecord, lock: LockAnswer, faults: Faults,
                         gaps: seq<seq<Event>>)
      returns (r: Report)
      requires Inv(s) && PhaseOf(s, pid).Idle? && Readable(s) && current == Last(s) && Apply(current, input) == Completed(next)
      requires |gaps| == 7 && forall i :: 0 <= i < |gaps| ==> NotOf(pid, gaps[i])
      modifies this`s
      ensures Inv(s) && old(s).history <= s.history && PhaseOf(s, pid).Idle?
      ensures r.Answer? && r.effect == Some(true) ==> OwnCommits(s.history, pid) == OwnCommits(old(s).history, pid) + 1
      ensures r.Answer? && r.effect == Some(false) ==> OwnCommits(s.history, pid) == OwnCommits(old(s).history, pid)
      ensures OwnCommits(s.history, pid) <= OwnCommits(old(s).history, pid) + 1
      ensures r.Answer? && r.currentRevision.Some? ==> r.currentRevision.value == Last(s).recordRevision
      ensures r.Answer? && !r.completed && r.record.Some? ==> r.record.value == Last(s)
      ensures r.Answer? ==> r.reason != AuthorityInvalid
      ensures r.Answer? && r.effect.None? ==> lock == Granted(false)
      ensures r.Answer? && r.completed ==>
                r.effect == Some(true) && r.record.Some? &&
                CommittedAfter(old(s).history, s.history, current, r.record.value, pid) && r.record == Some(next)
      ensures r.Answer? ==> Tells(r, lock)
      ensures r.Threw? ==> !Readable(s) || lock == Granted(true)
      ensures r.Answer? && r.reason == DecisionRevisionConflict ==> |s.history| > |old(s).history|
      ensures (lock == Granted(true) && faults == NO_FAULTS && gaps[0] == [] && gaps[1] == [] && gaps[2] == [] &&
               Possible(old(s), input)) ==>
                r.Answer? && r.completed
    {
      hide Published, Follows, Readable, Apply, Run, Step, OwnCommits, Phases, PhaseOf;
      DecideOn(current, input, next, gaps[0]);
      if !lock.Granted? || s.holder.Some? {
        GiveUp(gaps[1]);
        r := Answered(NotAcquired(lock), Some(false));
        return;
      }
      if s.history == old(s).history { SameReadability(old(s), s); }
      var outcome := UnderLock(old(s).history, current, next, faults, gaps[1..7]);
      r := Respond(outcome, lock, next);
    }

    /** The lock taken, the operation, the lock released. */
    method UnderLock(ghost start: seq<Commit>, current: AssetRecord, next: AssetRecord, faults: Faults, gaps: seq<seq<Event>>)
      returns (outcome: Outcome)
      requires Inv(s) && PhaseOf(s, pid) == Decided(current.recordRevision, next) && s.holder.None?
      requires |gaps| == 6 && forall i :: 0 <= i < |gaps| ==> NotOf(pid, gaps[i])
      requires Chain(s.base, start) && start <= s.history && current == start[|start| - 1].record
      modifies this`s
      ensures Inv(s) && old(s).history <= s.history && PhaseOf(s, pid).Idle?
      ensures OwnCommits(s.history, pid) ==
                OwnCommits(old(s).history, pid) + (if outcome == Updated || outcome == Failed(true) then 1 else 0)
      ensures outcome == Updated ==> CommittedAfter(start, s.history, current, next, pid)
      ensures outcome == Conflict ==> |s.history| > |start|
      ensures (Readable(old(s)) && Last(old(s)) == current && faults == NO_FAULTS && gaps[0] == [] && gaps[1] == [] &&
               TemporaryName(old(s).prefix, next.recordRevision, pid) !in old(s).dir) ==>
                outcome == Updated
    {
      hide Published, Phases, Follows, Readable, Run, Step, OwnCommits, PhaseOf;
      TakeLock(current.recordRevision, next, gaps[0]);
      ghost var before := s.history;
      SameReadability(old(s), s);
      outcome := Publish(current.recordRevision, next, faults, gaps[1..5]);
      if outcome == Updated || outcome == Failed(true) {
        OwnCommitAdded(before, Commit(next, Some(pid)), pid);
      }
      ReleaseLock(gaps[5]);
      if outcome == Updated { CommittedOn(s.base, start, before, s.history, current, next, pid); }
    }

    /** The status of the update and of the lock's cleanup, as a report. */
    method Respond(outcome: Outcome, lock: LockAnswer, next: AssetRecord) returns (r: Report)
      requires Inv(s) && lock.Granted?
      ensures r.Answer? && r.effect == Some(true) ==> outcome == Updated
      ensures r.Answer? && (r.effect == Some(false) || r.reason == DecisionRevisionConflict) ==> outcome == Conflict
      ensures r.Answer? && r.effect.None? ==> outcome.Failed? && !lock.cleanupConfirmed
      ensures r.Answer? && r.currentRevision.Some? ==> r.currentRevision.value == Last(s).recordRevision
      ensures r.Answer? && !r.completed && r.record.Some? ==> r.record.value == Last(s)
      ensures r.Answer? ==> r.reason != AuthorityInvalid
      ensures r.Answer? && r.completed ==> r.effect == Some(true) && r.record == Some(next)
      ensures outcome == Updated && lock.cleanupConfirmed ==> r.Answer? && r.completed
      ensures r.Answer? ==> Tells(r, lock)
      ensures r.Threw? ==> !Readable(s) || (lock.cleanupConfirmed && outcome.Failed?)
    {
      hide Inv, Readable;
      if lock.cleanupConfirmed {
        if outcome.Failed? { return Threw; }
        if outcome == Updated { return Answer(true, DecisionApplied, Some(true), Some(next), None); }
        r := Answered(DecisionRevisionConflict, Some(false));
      } else if outcome == Updated {
        r := Answered(EffectIssuedCleanupRequired, Some(true));
      } else if outcome.Failed? {
        r := Answered(EffectUnknownCleanupRequired, None);
      } else {
        r := Answered(StoreRecoveryRequired, Some(false));
      }
    }

    /** A report that is not a completion, with what the store holds now; reading it may throw. */
    method Answered(reason: Reason, effect: Option<bool>) returns (r: Report)
      requires Inv(s)
      ensures r == if !Readable(s) then Threw
                   else if reason == EffectIssuedCleanupRequired then
                     Answer(false, reason, effect, Some(Last(s)), None)
                   else Answer(false, reason, effect, None, Some(Last(s).recordRevision))
    {
      var now := ReadStore();
      if now.None? { return Threw; }
      r := if reason == EffectIssuedCleanupRequired then Answer(false, reason, effect, now, None)
           else Answer(false, reason, effect, None, Some(now.value.recordRevision));
    }

    method DecideOn(current: AssetRecord, input: DecisionInput, next: AssetRecord, gap: seq<Event>)
      requires Inv(s) && PhaseOf(s, pid).Idle? && Readable(s) && current == Last(s) && Apply(current, input) == Completed(next)
      requires NotOf(pid, gap)
      modifies this`s
      ensures Inv(s) && old(s).history <= s.history && s.base == old(s).base
      ensures PhaseOf(s, pid) == Decided(current.recordRevision, next)
      ensures OwnCommits(s.history, pid) == OwnCommits(old(s).history, pid)
      ensures gap == [] ==> s.holder == old(s).holder && s.dir == old(s).dir && s.history == old(s).history && s.prefix == old(s).prefix
    {
      hide Published, Follows, Readable, Apply, Run, OwnCommits, Scan, PhaseSound, Chain;
      var listing := ReadDirectory();
      ReadIsRegister(s, listing);
      Do(Decide(input, listing), gap);
    }

    method GiveUp(gap: seq<Event>)
      requires Inv(s) && PhaseOf(s, pid).Decided? && NotOf(pid, gap)
      modifies this`s
      ensures Inv(s) && old(s).history <= s.history && s.base == old(s).base && PhaseOf(s, pid).Idle?
      ensures OwnCommits(s.history, pid) == OwnCommits(old(s).history, pid)
    {
      hide Inv, Run, OwnCommits;
      Do(Abandon, gap);
    }

    method TakeLock(expected: nat, next: AssetRecord, gap: seq<Event>)
      requires Inv(s) && PhaseOf(s, pid) == Decided(expected, next) && s.holder.None? && NotOf(pid, gap)
      modifies this`s
      ensures Inv(s) && s.base == old(s).base && s.history == old(s).history
      ensures PhaseOf(s, pid) == Locked(expected, next) && s.holder == Some(pid)
      ensures gap == [] ==> s.dir == old(s).dir && s.prefix == old(s).prefix
    {
      hide Inv, Run, OwnCommits;
      Do(Acquire, gap);
    }

    method ReleaseLock(gap: seq<Event>)
      requires Inv(s) && PhaseOf(s, pid).Finished? && NotOf(pid, gap)
      modifies this`s
      ensures Inv(s) && old(s).history <= s.history && s.base == old(s).base && PhaseOf(s, pid).Idle?
      ensures OwnCommits(s.history, pid) == OwnCommits(old(s).history, pid)
    {
      hide Inv, Run, OwnCommits;
      Do(Release, gap);
    }

  }

  /** The record was committed by this process, right after the one that the decision was made on. */
  ghost predicate CommittedAfter(start: seq<Commit>, h: seq<Commit>, current: AssetRecord, next: AssetRecord, pid: nat) {
    exists k :: |start| <= k < |h| && k > 0 && h[k] == Commit(next, Some(pid)) && h[k - 1].record == current
  }

  /** The record that was last at the time of the link is the one that the decision was made on. */
  lemma CommittedOn(base: AssetRecord, start: seq<Commit>, before: seq<Commit>, h: seq<Commit>, current: AssetRecord,
                    next: AssetRecord, pid: nat)
    requires Chain(base, start) && current == start[|start| - 1].record
    requires Chain(base, before) && start <= before && before + [Commit(next, Some(pid))] <= h
    requires before[|before| - 1].record.recordRevision == current.recordRevision
    ensures CommittedAfter(start, h, current, next, pid)
  {
    hide Follows;
    assert |before| == |start|;
    assert before[|start| - 1] == start[|start| - 1];
    var extended := before + [Commit(next, Some(pid))];
    assert h[|before|] == extended[|before|] && h[|before| - 1] == extended[|before| - 1];
  }

  /** The reason of a report that comes from the store. */
  predicate Tells(r: Report, lock: LockAnswer)
    requires r.Answer?
  {
    match lock
    case Unavailable => r.effect == Some(false) && r.reason == StoreUnavailable
    case ObservationUnknown => r.effect == Some(false) && r.reason == StoreObservationUnknown
    case RecoveryRequired => r.effect == Some(false) && r.reason == StoreRecoveryRequired
    case Granted(cleaned) =>
      && (r.completed <==> r.effect == Some(true) && cleaned)
      && (r.effect == Some(true) ==> r.reason == if cleaned then DecisionApplied else EffectIssuedCleanupRequired)
      && (r.effect == None ==> r.reason == EffectUnknownCleanupRequired && !cleaned)
      && (r.effect == Some(false) ==>
            r.reason == StoreUnavailable || r.reason == if cleaned then DecisionRevisionConflict else StoreRecoveryRequired)
  }

  function NotAcquired(lock: LockAnswer): Reason {
    match lock
    case ObservationUnknown => StoreObservationUnknown
    case RecoveryRequired => StoreRecoveryRequired
    case _ => StoreUnavailable
  }
}
