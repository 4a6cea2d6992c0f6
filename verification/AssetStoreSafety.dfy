/** What every interleaving of the store's processes keeps, and what it means for readers and for decisions. */
module AssetStoreSafety {
  import opened Common
  import opened Decimal
  import opened AssetNames
  import opened AssetGovernance
  import opened AssetStore

  /** Reading finds a committed record, so the decision was made on one. */
  lemma DecideKeeps(s: State, pid: nat, input: DecisionInput, listing: seq<string>)
    requires Inv(s) && PhaseOf(s, pid).Idle?
    ensures Inv(DecideStep(s, pid, input, listing))
  {
    hide Chain, Published, Scan, Readable, Apply, Follows;
    if Lists(listing, s.dir) {
      ReadIsRegister(s, listing);
      var current := Scan(s.prefix, listing, s.base, s.dir);
      if current.Some? && Apply(current.value, input).Completed? {
        AppliedFollows(current.value, input);
        var next := Apply(current.value, input).record;
        assert s.history[|s.history| - 1].record == current.value;
        assert DecidedOn(s, current.value.recordRevision, next);
        PhaseKept(s, pid, Decided(current.value.recordRevision, next));
      }
    }
  }

  /** Changing the phase of one process to a sound one keeps the invariant. */
  lemma PhaseKept(s: State, pid: nat, p: Phase)
    requires Inv(s) && PhaseSound(s, pid, p) && (Holding(p) ==> s.holder == Some(pid))
    ensures Inv(At(s, pid, p))
  {
    hide Chain, Published, Follows, Readable;
    var t := At(s, pid, p);
    forall q | q in t.phases
      ensures PhaseSound(t, q, t.phases[q]) && (Holding(t.phases[q]) ==> t.holder == Some(q))
    {
      SamePhase(s, t, q, t.phases[q]);
    }
  }

  /** The soundness of a phase depends on the history alone. */
  lemma SamePhase(s: State, t: State, pid: nat, p: Phase)
    requires s.history != [] && s.history == t.history && PhaseSound(s, pid, p)
    ensures PhaseSound(t, pid, p)
  {
    hide Follows;
  }

  lemma CheckKeeps(s: State, pid: nat, listing: seq<string>)
    requires Inv(s) && PhaseOf(s, pid).Locked?
    ensures Inv(CheckStep(s, pid, PhaseOf(s, pid), listing))
  {
    hide Published, Scan, Follows;
    var p := PhaseOf(s, pid);
    assert PhaseSound(s, pid, p) && s.holder == Some(pid);
    if Lists(listing, s.dir) {
      ReadIsRegister(s, listing);
      var current := Scan(s.prefix, listing, s.base, s.dir);
      if current.Some? && current.value.recordRevision == p.expected {
        var k :| 0 <= k < |s.history| && s.history[k].record.recordRevision == p.expected && Follows(s.history[k].record, p.next);
        assert k == |s.history| - 1;
      }
      hide Chain;
      PhaseKept(s, pid, if current.None? then Finished(Failed(false))
                        else if current.value.recordRevision != p.expected then Finished(Conflict) else Checked(p.next));
    }
  }

  /** Writing a temporary file does not touch the generations. */
  lemma TemporaryKeeps(s: State, revision: nat, pid: nat, e: Entry)
    requires Inv(s)
    ensures Inv(s.(dir := s.dir[TemporaryName(s.prefix, revision, pid) := e]))
    ensures Inv(s.(dir := s.dir - {TemporaryName(s.prefix, revision, pid)}))
  {
    hide Chain, Follows, TemporaryName, GenerationName, GenerationLike, PhaseSound;
    var temporary := TemporaryName(s.prefix, revision, pid);
    TemporaryIgnored(s.prefix, revision, pid);
    forall k | 1 <= k < |s.history| ensures GenerationName(s.prefix, s.history[k].record.recordRevision) != temporary {
      GenerationReadBack(s.prefix, s.history[k].record.recordRevision);
    }
    var t, u := s.(dir := s.dir[temporary := e]), s.(dir := s.dir - {temporary});
    forall q | q in s.phases ensures PhaseSound(t, q, s.phases[q]) && PhaseSound(u, q, s.phases[q]) {
      SamePhase(s, t, q, s.phases[q]);
      SamePhase(s, u, q, s.phases[q]);
    }
  }

  /** The name of the next revision is free: the link publishes, and publishes right after the last commit. */
  lemma NextNameFree(s: State, next: AssetRecord)
    requires Chain(s.base, s.history) && Published(s.prefix, s.dir, s.history) && Follows(Last(s), next)
    ensures GenerationName(s.prefix, next.recordRevision) !in s.dir
  {
    hide GenerationName;
    var name := GenerationName(s.prefix, next.recordRevision);
    GenerationReadBack(s.prefix, next.recordRevision);
    if name in s.dir {
      assert Belongs(s.prefix, s.history, name);
      var k :| 1 <= k < |s.history| && name == GenerationName(s.prefix, s.history[k].record.recordRevision);
      NamesInjective(s.prefix, next.recordRevision, s.history[k].record.recordRevision);
    }
  }

  lemma LinkPublishes(s: State, pid: nat, next: AssetRecord)
    requires Chain(s.base, s.history) && Published(s.prefix, s.dir, s.history) && Follows(Last(s), next)
    ensures var t := LinkStep(s, pid, next);
            Chain(t.base, t.history) && Published(t.prefix, t.dir, t.history) &&
            t.history == s.history + [Commit(next, Some(pid))]
  {
    hide GenerationName, GenerationLike, Follows, Published, Chain;
    NextNameFree(s, next);
    LinkChains(s, next, pid);
    LinkedIsPublished(s, next, pid);
  }

  lemma LinkChains(s: State, next: AssetRecord, pid: nat)
    requires Chain(s.base, s.history) && Follows(Last(s), next)
    ensures Chain(s.base, s.history + [Commit(next, Some(pid))]) && next.recordRevision == s.base.recordRevision + |s.history|
  {
    hide Follows;
    assert Follows(s.history[|s.history| - 1].record, next);
    FollowsCounts(Last(s), next);
  }

  lemma LinkedIsPublished(s: State, next: AssetRecord, pid: nat)
    requires s.history != [] && Published(s.prefix, s.dir, s.history)
    requires GenerationName(s.prefix, next.recordRevision) !in s.dir
    ensures Published(s.prefix, s.dir[GenerationName(s.prefix, next.recordRevision) := Json(next)],
                      s.history + [Commit(next, Some(pid))])
  {
    hide GenerationName, GenerationLike;
    var generation, n := GenerationName(s.prefix, next.recordRevision), |s.history|;
    var dir, h := s.dir[generation := Json(next)], s.history + [Commit(next, Some(pid))];
    forall name | name in dir && GenerationLike(s.prefix, name) ensures Belongs(s.prefix, h, name) {
      if name in s.dir {
        assert Belongs(s.prefix, s.history, name);
        var k :| 1 <= k < n && name == GenerationName(s.prefix, s.history[k].record.recordRevision);
        assert h[k] == s.history[k];
      } else {
        assert h[n].record == next;
      }
    }
  }

  lemma FollowsCounts(a: AssetRecord, b: AssetRecord)
    requires Follows(a, b)
    ensures b.recordRevision == a.recordRevision + 1
  {
  }

  lemma LinkKeeps(s: State, pid: nat)
    requires Inv(s) && PhaseOf(s, pid).TempFull?
    ensures Inv(LinkStep(s, pid, PhaseOf(s, pid).next))
  {
    var next := PhaseOf(s, pid).next;
    assert PhaseSound(s, pid, PhaseOf(s, pid)) && s.holder == Some(pid);
    LinkPublishes(s, pid, next);
    hide Chain, Published, Follows, Readable, GenerationName;
    var t := LinkStep(s, pid, next);
    forall q | q in t.phases
      ensures PhaseSound(t, q, t.phases[q]) && (Holding(t.phases[q]) ==> t.holder == Some(q))
    {
      if q != pid { DecisionStays(s, t, q, t.phases[q]); }
    }
  }

  /** Committed records stay where they are, so decisions made on them stay decisions on committed records. */
  lemma DecisionStays(s: State, t: State, q: nat, p: Phase)
    requires s.history != [] && s.history <= t.history && PhaseSound(s, q, p) && !Holding(p)
    ensures PhaseSound(t, q, p)
  {
    hide Follows;
    if p.Decided? {
      var k :| 0 <= k < |s.history| && s.history[k].record.recordRevision == p.expected && Follows(s.history[k].record, p.next);
      assert t.history[k] == s.history[k];
    }
  }

  lemma LeaveKeeps(s: State, pid: nat)
    requires Inv(s)
    ensures Inv(At(if s.holder == Some(pid) then s.(holder := None) else s, pid, Idle))
  {
    hide Chain, Published, Follows, PhaseSound;
    var t := At(if s.holder == Some(pid) then s.(holder := None) else s, pid, Idle);
    forall q | q in t.phases
      ensures PhaseSound(t, q, t.phases[q]) && (Holding(t.phases[q]) ==> t.holder == Some(q))
    {
      if q == pid { IdleSound(t, pid); } else { SamePhase(s, t, q, t.phases[q]); }
    }
  }

  lemma IdleSound(s: State, pid: nat)
    requires s.history != []
    ensures PhaseSound(s, pid, Idle)
  {
  }

  lemma AcquireKeeps(s: State, pid: nat)
    requires Inv(s) && PhaseOf(s, pid).Decided? && s.holder.None?
    ensures var p := PhaseOf(s, pid); Inv(At(s.(holder := Some(pid)), pid, Locked(p.expected, p.next)))
  {
    hide Chain, Published, Follows;
    var p := PhaseOf(s, pid);
    var t := At(s.(holder := Some(pid)), pid, Locked(p.expected, p.next));
    assert PhaseSound(s, pid, p);
    forall q | q in t.phases
      ensures PhaseSound(t, q, t.phases[q]) && (Holding(t.phases[q]) ==> t.holder == Some(q))
    {
      if q != pid { SamePhase(s, t, q, t.phases[q]); } else { assert DecidedOn(t, p.expected, p.next); }
    }
  }

  lemma StepKeeps(s: State, e: Event)
    requires Inv(s)
    ensures Inv(Step(s, e))
  {
    hide Inv, TemporaryName, DecideStep, CheckStep, OpenStep, LinkStep;
    var pid, p := e.pid, PhaseOf(s, e.pid);
    match e.action
    case Decide(input, listing) => if p.Idle? { DecideKeeps(s, pid, input, listing); }
    case Acquire => if p.Decided? && s.holder.None? { AcquireKeeps(s, pid); }
    case Abandon => if p.Decided? { PhaseKept(s, pid, Idle); }
    case Check(listing) => if p.Locked? { CheckKeeps(s, pid, listing); }
    case OpenTemp => if p.Checked? { OpenKeeps(s, pid); }
    case FillTemp => if p.TempOpen? { FillKeeps(s, pid); }
    case Link => if p.TempFull? { LinkKeeps(s, pid); }
    case FailLink => if p.TempFull? { PhaseKeptWhenHolding(s, pid, Cleaning(p.next, Broke)); }
    case RemoveTemp => if p.Cleaning? { RemoveKeeps(s, pid); }
    case Fail =>
      if Holding(p) && !p.Finished? { PhaseKeptWhenHolding(s, pid, Finished(Failed(p.Cleaning? && p.link == Linked))); }
    case Release => if p.Finished? { LeaveKeeps(s, pid); assert s.holder == Some(pid) by { HolderIs(s, pid); } }
    case Crash => LeaveKeeps(s, pid);
  }

  lemma HolderIs(s: State, pid: nat)
    requires Inv(s) && Holding(PhaseOf(s, pid))
    ensures s.holder == Some(pid)
  {
  }

  lemma PhaseKeptWhenHolding(s: State, pid: nat, p: Phase)
    requires Inv(s) && Holding(PhaseOf(s, pid)) && (p.Finished? || (p.Cleaning? && p.link == Broke))
    ensures Inv(At(s, pid, p))
  {
    hide Chain, Published, Follows;
    PhaseKept(s, pid, p);
  }

  lemma OpenKeeps(s: State, pid: nat)
    requires Inv(s) && PhaseOf(s, pid).Checked?
    ensures Inv(OpenStep(s, pid, PhaseOf(s, pid).next))
  {
    hide Chain, Published, Follows, TemporaryName, Readable;
    var next := PhaseOf(s, pid).next;
    assert PhaseSound(s, pid, PhaseOf(s, pid)) && s.holder == Some(pid);
    TemporaryKeeps(s, next.recordRevision, pid, Partial);
    if TemporaryName(s.prefix, next.recordRevision, pid) in s.dir {
      PhaseKept(s, pid, Finished(Failed(false)));
    } else {
      PhaseKept(s.(dir := s.dir[TemporaryName(s.prefix, next.recordRevision, pid) := Partial]), pid, TempOpen(next));
    }
  }

  lemma FillKeeps(s: State, pid: nat)
    requires Inv(s) && PhaseOf(s, pid).TempOpen?
    ensures var next := PhaseOf(s, pid).next;
            Inv(At(s.(dir := s.dir[TemporaryName(s.prefix, next.recordRevision, pid) := Json(next)]), pid, TempFull(next)))
  {
    hide Chain, Published, Follows, TemporaryName, Readable;
    var next := PhaseOf(s, pid).next;
    assert PhaseSound(s, pid, PhaseOf(s, pid)) && s.holder == Some(pid);
    TemporaryKeeps(s, next.recordRevision, pid, Json(next));
    PhaseKept(s.(dir := s.dir[TemporaryName(s.prefix, next.recordRevision, pid) := Json(next)]), pid, TempFull(next));
  }

  lemma RemoveKeeps(s: State, pid: nat)
    requires Inv(s) && PhaseOf(s, pid).Cleaning?
    ensures var p := PhaseOf(s, pid);
            Inv(At(s.(dir := s.dir - {TemporaryName(s.prefix, p.next.recordRevision, pid)}), pid,
                   Finished(OutcomeOf(p.link))))
  {
    hide Chain, Published, Follows, TemporaryName, Readable;
    var p := PhaseOf(s, pid);
    assert s.holder == Some(pid);
    TemporaryKeeps(s, p.next.recordRevision, pid, Partial);
    PhaseKept(s.(dir := s.dir - {TemporaryName(s.prefix, p.next.recordRevision, pid)}), pid,
              Finished(OutcomeOf(p.link)));
  }

  // ------------------------------------------------------------ whole runs

  lemma {:induction false} RunKeeps(s: State, events: seq<Event>)
    requires Inv(s)
    ensures Inv(Run(s, events))
  {
    hide Inv, Step;
    if events != [] {
      RunKeeps(s, events[..|events| - 1]);
      StepKeeps(Run(s, events[..|events| - 1]), events[|events| - 1]);
    }
  }

  /** One operation commits at most one record, and only by its link. */
  lemma StepCommitsOnce(s: State, e: Event)
    ensures var t := Step(s, e);
            t.base == s.base && t.prefix == s.prefix &&
            (t.history == s.history ||
             (e.action == Link && PhaseOf(s, e.pid).TempFull? &&
              t.history == s.history + [Commit(PhaseOf(s, e.pid).next, Some(e.pid))]))
  {
    hide Scan, Apply, TemporaryName, GenerationName;
  }

  lemma {:induction false} HistoryGrows(s: State, events: seq<Event>)
    ensures s.history <= Run(s, events).history
    ensures Run(s, events).base == s.base && Run(s, events).prefix == s.prefix
  {
    hide Step;
    if events != [] {
      HistoryGrows(s, events[..|events| - 1]);
      StepCommitsOnce(Run(s, events[..|events| - 1]), events[|events| - 1]);
    }
  }

  /** The store is one atomic versioned register. Whatever processes do, and wherever they stop: what was
      committed stays, revisions grow one by one, each names one record, and at any time any directory scan
      reads the last committed record, as long as that one has a revision below 10^12. */
  lemma AtomicRegister(s: State, events: seq<Event>, listing: seq<string>)
    requires Inv(s) && Lists(listing, Run(s, events).dir)
    ensures var t := Run(s, events);
            s.history <= t.history &&
            (forall k :: 0 <= k < |t.history| ==> t.history[k].record.recordRevision == s.base.recordRevision + k) &&
            (forall k :: 0 <= k < |t.history| - 1 ==> Follows(t.history[k].record, t.history[k + 1].record)) &&
            Scan(t.prefix, listing, t.base, t.dir) == (if Readable(t) then Some(Last(t)) else None)
  {
    RunKeeps(s, events);
    HistoryGrows(s, events);
    hide Run, Follows, Scan;
    ReadIsRegister(Run(s, events), listing);
  }

  /** From its creation on: the history starts with the base record, every scan reads the last record of it while
      revisions stay below 10^12, and whatever follows a withdrawn record is withdrawn. */
  lemma RegisterFromCreation(s: State, events: seq<Event>, listing: seq<string>)
    requires Fresh(s) && Lists(listing, Run(s, events).dir)
    ensures var t := Run(s, events);
            t.history != [] && t.history[0] == Commit(s.base, None) &&
            (forall k :: 0 <= k < |t.history| ==> t.history[k].record.recordRevision == s.base.recordRevision + k) &&
            Scan(t.prefix, listing, t.base, t.dir) == (if Readable(t) then Some(Last(t)) else None) &&
            forall i, j :: 0 <= i <= j < |t.history| && t.history[i].record.state == Withdrawn ==>
              t.history[j].record.state == Withdrawn
  {
    hide Run, Inv, Scan, Follows, Lists;
    FreshInv(s);
    AtomicRegister(s, events, listing);
    var t := Run(s, events);
    forall i, j | 0 <= i <= j < |t.history| && t.history[i].record.state == Withdrawn
      ensures t.history[j].record.state == Withdrawn
    {
      WithdrawalIsFinal(s, events, i, j);
    }
  }

  /** A scan need not be atomic: with the names of one moment and contents read at any later moment, it returns
      the record that was the last one when the names were listed. */
  lemma SlowReaderSeesItsListing(s: State, events: seq<Event>, listing: seq<string>)
    requires Inv(s) && Lists(listing, s.dir)
    ensures Scan(s.prefix, listing, s.base, Run(s, events).dir) == Scan(s.prefix, listing, s.base, s.dir)
  {
    hide Run, Follows, Scan, GenerationName, GenerationLike;
    RunKeeps(s, events);
    HistoryGrows(s, events);
    var t := Run(s, events);
    forall name | name in listing && GenerationLike(s.prefix, name)
      ensures name in t.dir && t.dir[name] == s.dir[name]
    {
      assert Belongs(s.prefix, s.history, name);
      var k :| 1 <= k < |s.history| && name == GenerationName(s.prefix, s.history[k].record.recordRevision);
      assert t.history[k] == s.history[k];
    }
    ScanSameContents(s.prefix, listing, s.base, s.dir, t.dir);
  }

  lemma {:induction false} ScanSameContents(prefix: string, listing: seq<string>, base: AssetRecord, d: Directory, e: Directory)
    requires forall name :: name in listing && GenerationLike(prefix, name) ==> name in d && name in e && d[name] == e[name]
    ensures Scan(prefix, listing, base, d) == Scan(prefix, listing, base, e)
  {
    hide GenerationLike, TwelveDigits;
    if listing != [] {
      var front := listing[..|listing| - 1];
      assert listing == front + [listing[|listing| - 1]];
      ScanSameContents(prefix, front, base, d, e);
    }
  }

  /** Withdrawal is final: after a withdrawn record every record of the history, now and after any further run,
      is withdrawn. */
  lemma {:induction false} WithdrawalIsFinal(s: State, events: seq<Event>, i: nat, j: nat)
    requires Inv(s) && i <= j < |Run(s, events).history| && Run(s, events).history[i].record.state == Withdrawn
    ensures Run(s, events).history[j].record.state == Withdrawn
    decreases j - i
  {
    if i < j {
      WithdrawalIsFinal(s, events, i, j - 1);
      RunKeeps(s, events);
      var t := Run(s, events);
      assert Follows(t.history[j - 1].record, t.history[j - 1 + 1].record);
    }
  }

  /** The store reads until its first generation of revision 10^12 or more; that one is the last it ever commits. */
  lemma {:induction false} UnreadableIsTheEnd(s: State, events: seq<Event>)
    requires Inv(s) && !Readable(s)
    ensures Run(s, events).history == s.history
  {
    hide Step, Readable, Published, Follows;
    if events != [] {
      var front, e := events[..|events| - 1], events[|events| - 1];
      UnreadableIsTheEnd(s, front);
      RunKeeps(s, front);
      var t := Run(s, front);
      HistoryGrows(s, front);
      StepCommitsOnce(t, e);
      if PhaseOf(t, e.pid).TempFull? {
        assert PhaseSound(t, e.pid, PhaseOf(t, e.pid));
        SameReadable(s, t);
      }
    }
  }

  /** The operations of one process from its decision to its link. */
  function Committing(pid: nat, input: DecisionInput): seq<Event> {
    [Event(pid, Decide(input, [])), Event(pid, Acquire), Event(pid, Check([])), Event(pid, OpenTemp), Event(pid, FillTemp),
     Event(pid, Link)]
  }

  /** The failing case: a new store whose base has revision 10^12 - 1 takes one more decision, and then no scan of it
      returns a record any more. */
  lemma OneCommitTooMany(s: State, pid: nat, input: DecisionInput, listing: seq<string>)
    requires Fresh(s) && s.dir == map[] && s.base.recordRevision == NAMED_REVISIONS - 1 && Apply(s.base, input).Completed?
    requires Lists(listing, Run(s, Committing(pid, input)).dir)
    ensures var t := Run(s, Committing(pid, input));
            |t.history| == 2 && !Readable(t) && Scan(t.prefix, listing, t.base, t.dir).None?
  {
    hide Run, Inv, Fresh, Apply, Lists, Step, Scan;
    FreshInv(s);
    CommittingRuns(s, pid, input);
    RunKeeps(s, Committing(pid, input));
    SecondRecord(s, pid, input);
    ReadsAsRegister(Run(s, Committing(pid, input)), listing);
  }

  lemma ReadsAsRegister(s: State, listing: seq<string>)
    requires Inv(s) && Lists(listing, s.dir)
    ensures Scan(s.prefix, listing, s.base, s.dir) == if Readable(s) then Some(Last(s)) else None
  {
    hide Chain, Published, Scan, Lists;
    ReadIsRegister(s, listing);
  }

  lemma CommittingRuns(s: State, pid: nat, input: DecisionInput)
    ensures var c := Committing(pid, input);
            Run(s, c) == Step(Step(Step(Step(Step(Step(s, c[0]), c[1]), c[2]), c[3]), c[4]), c[5])
  {
    hide Step, Run;
    var c := Committing(pid, input);
    RunFirst(s, c, 0);
    RunFirst(s, c, 1);
    RunFirst(s, c, 2);
    RunFirst(s, c, 3);
    RunFirst(s, c, 4);
    RunFirst(s, c, 5);
    assert c[..6] == c;
    RunNothing(s, c);
  }

  lemma RunNothing(s: State, events: seq<Event>)
    ensures Run(s, events[..0]) == s
  {
  }

  lemma RunFirst(s: State, events: seq<Event>, k: nat)
    requires k < |events|
    ensures Run(s, events[..k + 1]) == Step(Run(s, events[..k]), events[k])
  {
    hide Step;
    assert events[..k + 1][..k] == events[..k];
  }

  /** The first decision of a new store is committed by these operations. */
  lemma SecondRecord(s: State, pid: nat, input: DecisionInput)
    requires Fresh(s) && s.dir == map[] && Apply(s.base, input).Completed?
    ensures var c, next := Committing(pid, input), Apply(s.base, input).record;
            var t := Step(Step(Step(Step(Step(Step(s, c[0]), c[1]), c[2]), c[3]), c[4]), c[5]);
            t.history == [Commit(s.base, None), Commit(next, Some(pid))] && next.recordRevision == s.base.recordRevision + 1
  {
    hide GenerationName, TemporaryName, GenerationLike, Apply, Step;
    var c, next := Committing(pid, input), Apply(s.base, input).record;
    AppliedFollows(s.base, input);
    FollowsCounts(s.base, next);
    FirstChecked(s, pid, input);
    TemporaryIgnored(s.prefix, next.recordRevision, pid);
    GenerationReadBack(s.prefix, next.recordRevision);
    CheckedCommits(Step(Step(Step(s, c[0]), c[1]), c[2]), pid, next);
  }

  lemma CheckedCommits(s: State, pid: nat, next: AssetRecord)
    requires PhaseOf(s, pid) == Checked(next) && s.dir == map[]
    requires TemporaryName(s.prefix, next.recordRevision, pid) != GenerationName(s.prefix, next.recordRevision)
    ensures Step(Step(Step(s, Event(pid, OpenTemp)), Event(pid, FillTemp)), Event(pid, Link)).history ==
              s.history + [Commit(next, Some(pid))]
  {
    hide GenerationName, TemporaryName, DecideStep, CheckStep;
  }

  lemma FirstChecked(s: State, pid: nat, input: DecisionInput)
    requires Fresh(s) && s.dir == map[] && Apply(s.base, input).Completed?
    ensures var c, next := Committing(pid, input), Apply(s.base, input).record;
            var t := Step(Step(Step(s, c[0]), c[1]), c[2]);
            t == s.(holder := Some(pid), phases := t.phases) && PhaseOf(t, pid) == Checked(next)
  {
    hide GenerationLike, Apply;
    AppliedFollows(s.base, input);
  }

  lemma SameReadable(s: State, t: State)
    requires s.history != [] && s.history == t.history
    ensures Readable(s) == Readable(t)
  {
  }

  /** An inclusion record is verified by at most one record of a history, and by no withdrawn one. */
  lemma InclusionNamesOneDecision(s: State, i: nat, j: nat, inclusion: Inclusion)
    requires Inv(s) && i < |s.history| && j < |s.history|
    requires Included(s.history[i].record, inclusion) && Included(s.history[j].record, inclusion)
    ensures i == j
    ensures forall k :: i < k < |s.history| ==> !Included(s.history[k].record, inclusion)
  {
    hide Published, Follows;
  }
}
