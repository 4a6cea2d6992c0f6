/**
 What an observer latches over a whole output, told from its lines and the answers of the caller: which event ends
 the input, which one terminates the process tree, and what is a violation.
 */
module ObserverTriggers {
  import opened Common
  import opened Text
  import opened ProcessObserver

  /** The line as it is read: a carriage return at its end does not count. */
  function ReadAs(line: string, w: Setting): Parsed {
    if line != [] && line[|line| - 1] == '\r' then w.parse(line[..|line| - 1]) else w.parse(line)
  }

  /** How many of these lines are runtime events. */
  function RuntimeCount(lines: seq<string>, w: Setting): (n: nat)
    ensures n <= |lines|
  {
    if lines == [] then 0
    else RuntimeCount(lines[..|lines| - 1], w) + (if ReadAs(lines[|lines| - 1], w).Runtime? then 1 else 0)
  }

  /** The answer that the i-th line gets, if it is an event that is asked about. */
  function AnswerAt(lines: seq<string>, w: Setting, i: nat): Answer
    requires i < |lines|
  {
    w.answers(RuntimeCount(lines[..i], w))
  }

  /** A tree that is to be terminated can be: the child has an identity and no timer has killed it. */
  predicate Terminable(lines: seq<string>, w: Setting, i: nat)
    requires i < |lines|
  {
    w.pidIssued && !w.killed(RuntimeCount(lines[..i], w))
  }

  /** A line after which later events are still asked about: no violation, and no event whose answer is carried out. */
  predicate LeavesOpen(lines: seq<string>, w: Setting, i: nat)
    requires i < |lines|
  {
    var p := ReadAs(lines[i], w);
    && !p.Violation?
    && (p.Runtime? ==>
          match AnswerAt(lines, w, i)
          case Continue => true
          case Throws => true
          case CloseInput => false
          case TerminateProcessTree => p.event.ProcessStarted? && !Terminable(lines, w, i))
  }

  /** The i-th line is an event that the caller is asked about. */
  predicate Asked(lines: seq<string>, w: Setting, i: nat)
    requires i < |lines|
  {
    ReadAs(lines[i], w).Runtime? && forall j :: 0 <= j < i ==> LeavesOpen(lines, w, j)
  }

  predicate EndsInput(lines: seq<string>, w: Setting, i: nat)
    requires i < |lines|
  {
    Asked(lines, w, i) && AnswerAt(lines, w, i) == CloseInput
  }

  predicate EndsTree(lines: seq<string>, w: Setting, i: nat)
    requires i < |lines|
  {
    Asked(lines, w, i) && AnswerAt(lines, w, i) == TerminateProcessTree && ReadAs(lines[i], w).event.ProcessStarted? &&
    Terminable(lines, w, i)
  }

  predicate Violates(lines: seq<string>, w: Setting, i: nat)
    requires i < |lines|
  {
    ReadAs(lines[i], w).Violation? ||
    (Asked(lines, w, i) && AnswerAt(lines, w, i) == TerminateProcessTree && ReadAs(lines[i], w).event.Selection?)
  }

  predicate Breaks(lines: seq<string>, w: Setting, i: nat)
    requires i < |lines|
  {
    Asked(lines, w, i) && AnswerAt(lines, w, i) == Throws
  }

  /** What is observed is what the lines make of it. */
  ghost predicate Explained(o: Observed, lines: seq<string>, w: Setting) {
    (o.violation <==> exists i :: 0 <= i < |lines| && Violates(lines, w, i)) && Latches(o, lines, w)
  }

  ghost predicate Latches(o: Observed, lines: seq<string>, w: Setting) {
    && (o.streamFailure <==> exists i :: 0 <= i < |lines| && Breaks(lines, w, i))
    && (o.inputCloseTrigger.Some? <==> exists i :: 0 <= i < |lines| && EndsInput(lines, w, i))
    && (forall i :: 0 <= i < |lines| && EndsInput(lines, w, i) ==> o.inputCloseTrigger == Some(ReadAs(lines[i], w).event))
    && (o.terminationTrigger.Some? <==> exists i :: 0 <= i < |lines| && EndsTree(lines, w, i))
    && (forall i :: 0 <= i < |lines| && EndsTree(lines, w, i) ==> o.terminationTrigger == Some(ReadAs(lines[i], w).event))
  }

  /** Nothing is latched and nothing is wrong exactly while every line has left the questions open; then each runtime
      event was asked about. */
  ghost predicate InStep(o: Observed, lines: seq<string>, w: Setting) {
    && (Quiet(o) <==> forall j :: 0 <= j < |lines| ==> LeavesOpen(lines, w, j))
    && (Quiet(o) ==> o.asked == RuntimeCount(lines, w))
  }

  /** What is said of a line depends on the lines up to it only. */
  lemma Earlier(lines: seq<string>, last: string, w: Setting, i: nat)
    requires i < |lines|
    ensures var all := lines + [last];
            && (LeavesOpen(all, w, i) <==> LeavesOpen(lines, w, i)) && (Asked(all, w, i) <==> Asked(lines, w, i))
            && (EndsInput(all, w, i) <==> EndsInput(lines, w, i)) && (EndsTree(all, w, i) <==> EndsTree(lines, w, i))
            && (Violates(all, w, i) <==> Violates(lines, w, i)) && (Breaks(all, w, i) <==> Breaks(lines, w, i))
            && all[i] == lines[i]
  {
    var all := lines + [last];
    hide RuntimeCount, ReadAs;
    assert all[i] == lines[i] && all[..i] == lines[..i];
    forall j | 0 <= j < i ensures LeavesOpen(all, w, j) <==> LeavesOpen(lines, w, j) {
      assert all[j] == lines[j] && all[..j] == lines[..j];
    }
  }

  /** One line, field by field. */
  lemma LineEffect(o: Observed, line: string, w: Setting)
    ensures var p, n, a := ReadAs(line, w), AcceptLine(o, line, w), w.answers(o.asked);
            var asks, may := p.Runtime? && Quiet(o), w.pidIssued && !w.killed(o.asked);
            && n.asked == (if asks then o.asked + 1 else o.asked)
            && (n.violation <==> o.violation || p.Violation? || (asks && a == TerminateProcessTree && p.event.Selection?))
            && (n.streamFailure <==> o.streamFailure || (asks && a == Throws))
            && n.inputCloseTrigger == (if asks && a == CloseInput then Some(p.event) else o.inputCloseTrigger)
            && n.terminationTrigger ==
                 (if asks && a == TerminateProcessTree && p.event.ProcessStarted? && may then Some(p.event) else o.terminationTrigger)
            && n.runtimeEvents == o.runtimeEvents + (if p.Runtime? then [p.event] else [])
            && n.recoveryEvents == o.recoveryEvents + (if p.Recovery? then [p.recovery] else [])
  {
    hide Recorded, Answered;
    var p := ReadAs(line, w);
    assert p == w.parse(WithoutReturn(line));
    hide ReadAs, WithoutReturn;
    assert o.runtimeEvents + [] == o.runtimeEvents && o.recoveryEvents + [] == o.recoveryEvents;
    if p.Runtime? {
      RecordedEffect(o, p.event);
      var r := Recorded(o, p.event);
      AnsweredEffect(r, p.event, w.answers(r.asked), w.pidIssued && !w.killed(r.asked));
    }
  }

  lemma RecordedEffect(o: Observed, e: RuntimeEvent)
    ensures var r := Recorded(o, e);
            && r.runtimeEvents == o.runtimeEvents + [e] && r.recoveryEvents == o.recoveryEvents && r.asked == o.asked
            && r.violation == o.violation && r.streamFailure == o.streamFailure
            && r.inputCloseTrigger == o.inputCloseTrigger && r.terminationTrigger == o.terminationTrigger
  {
  }

  lemma AnsweredEffect(o: Observed, e: RuntimeEvent, a: Answer, may: bool)
    ensures var n := Answered(o, e, a, may);
            && n.runtimeEvents == o.runtimeEvents && n.recoveryEvents == o.recoveryEvents && n.asked == o.asked + 1
            && (n.violation <==> o.violation || (a == TerminateProcessTree && e.Selection?))
            && (n.streamFailure <==> o.streamFailure || a == Throws)
            && n.inputCloseTrigger == (if a == CloseInput then Some(e) else o.inputCloseTrigger)
            && n.terminationTrigger == (if a == TerminateProcessTree && e.ProcessStarted? && may then Some(e) else o.terminationTrigger)
  {
  }

  /** The last line is asked about exactly when it is an event and nothing has happened before. */
  lemma LastAsked(o: Observed, lines: seq<string>, last: string, w: Setting)
    requires InStep(o, lines, w)
    ensures var all, n := lines + [last], |lines|;
            && all[n] == last && (Asked(all, w, n) <==> ReadAs(last, w).Runtime? && Quiet(o))
            && (Quiet(o) ==> AnswerAt(all, w, n) == w.answers(o.asked) &&
                             (Terminable(all, w, n) <==> w.pidIssued && !w.killed(o.asked)))
  {
    hide RuntimeCount, ReadAs, LeavesOpen;
    var all, n := lines + [last], |lines|;
    assert all[..n] == lines;
    forall i | 0 <= i < n ensures LeavesOpen(all, w, i) <==> LeavesOpen(lines, w, i) { Earlier(lines, last, w, i); }
  }

  lemma LastInStep(o: Observed, lines: seq<string>, last: string, w: Setting)
    requires InStep(o, lines, w)
    ensures InStep(AcceptLine(o, last, w), lines + [last], w)
  {
    hide RuntimeCount, ReadAs, AcceptLine;
    var all, n := lines + [last], |lines|;
    LineEffect(o, last, w);
    LastAsked(o, lines, last, w);
    CountSnoc(lines, last, w);
    var p := ReadAs(last, w);
    assert p.Runtime? ==> p.event.Selection? || p.event.ProcessStarted?;
    assert Quiet(AcceptLine(o, last, w)) <==> Quiet(o) && LeavesOpen(all, w, n);
    hide LeavesOpen;
    forall i | 0 <= i < n ensures LeavesOpen(all, w, i) <==> LeavesOpen(lines, w, i) { Earlier(lines, last, w, i); }
  }

  lemma LastExplained(o: Observed, lines: seq<string>, last: string, w: Setting)
    requires InStep(o, lines, w) && Explained(o, lines, w)
    ensures Explained(AcceptLine(o, last, w), lines + [last], w)
  {
    hide RuntimeCount, ReadAs, AcceptLine, LeavesOpen, InStep, AnswerAt, Terminable, Asked;
    var all, n := lines + [last], |lines|;
    LineEffect(o, last, w);
    LastAsked(o, lines, last, w);
    if Quiet(o) { NothingLatched(o, lines, w); }
    forall i | 0 <= i < n
      ensures (EndsInput(all, w, i) <==> EndsInput(lines, w, i)) && (EndsTree(all, w, i) <==> EndsTree(lines, w, i))
      ensures (Violates(all, w, i) <==> Violates(lines, w, i)) && (Breaks(all, w, i) <==> Breaks(lines, w, i))
      ensures all[i] == lines[i]
    {
      Earlier(lines, last, w, i);
    }
    var p, a := ReadAs(last, w), w.answers(o.asked);
    var asks := p.Runtime? && Quiet(o);
    assert EndsInput(all, w, n) <==> asks && a == CloseInput;
    assert EndsTree(all, w, n) <==>
           asks && a == TerminateProcessTree && p.event.ProcessStarted? && w.pidIssued && !w.killed(o.asked);
    assert Violates(all, w, n) <==> p.Violation? || (asks && a == TerminateProcessTree && p.event.Selection?);
    assert Breaks(all, w, n) <==> asks && a == Throws;
    hide EndsInput, EndsTree, Violates, Breaks;
    var next := AcceptLine(o, last, w);
    assert next.violation <==> exists i :: 0 <= i < |all| && Violates(all, w, i);
    assert next.streamFailure <==> exists i :: 0 <= i < |all| && Breaks(all, w, i);
    assert next.inputCloseTrigger.Some? <==> exists i :: 0 <= i < |all| && EndsInput(all, w, i);
    assert next.terminationTrigger.Some? <==> exists i :: 0 <= i < |all| && EndsTree(all, w, i);
  }

  lemma NothingLatched(o: Observed, lines: seq<string>, w: Setting)
    requires Explained(o, lines, w) && Quiet(o)
    ensures forall i :: 0 <= i < |lines| ==> !EndsInput(lines, w, i) && !EndsTree(lines, w, i)
  {
    hide EndsInput, EndsTree, Violates, Breaks;
  }

  lemma CountSnoc(lines: seq<string>, last: string, w: Setting)
    ensures RuntimeCount(lines + [last], w) == RuntimeCount(lines, w) + (if ReadAs(last, w).Runtime? then 1 else 0)
  {
    assert (lines + [last])[..|lines|] == lines;
  }

  lemma {:induction false} LinesExplained(lines: seq<string>, w: Setting)
    ensures InStep(AcceptLines(NOTHING_OBSERVED, lines, w), lines, w)
    ensures Explained(AcceptLines(NOTHING_OBSERVED, lines, w), lines, w)
  {
    if lines != [] {
      hide AcceptLine, InStep, Explained;
      var front, last := lines[..|lines| - 1], lines[|lines| - 1];
      LinesExplained(front, w);
      LastInStep(AcceptLines(NOTHING_OBSERVED, front, w), front, last, w);
      LastExplained(AcceptLines(NOTHING_OBSERVED, front, w), front, last, w);
      assert lines == front + [last];
    }
  }

  // ------------------------------------------------------------ a whole output

  /** The events that lines say, in their order. */
  function EventsIn(lines: seq<string>, w: Setting): seq<RuntimeEvent> {
    if lines == [] then []
    else
      var last := ReadAs(lines[|lines| - 1], w);
      EventsIn(lines[..|lines| - 1], w) + (if last.Runtime? then [last.event] else [])
  }

  function RecoveriesIn(lines: seq<string>, w: Setting): seq<RecoveryEvent> {
    if lines == [] then []
    else
      var last := ReadAs(lines[|lines| - 1], w);
      RecoveriesIn(lines[..|lines| - 1], w) + (if last.Recovery? then [last.recovery] else [])
  }

  lemma {:induction false} EventsListed(lines: seq<string>, w: Setting)
    ensures var o := AcceptLines(NOTHING_OBSERVED, lines, w);
            o.runtimeEvents == EventsIn(lines, w) && o.recoveryEvents == RecoveriesIn(lines, w)
  {
    if lines != [] {
      hide AcceptLine, ReadAs;
      EventsListed(lines[..|lines| - 1], w);
      LineEffect(AcceptLines(NOTHING_OBSERVED, lines[..|lines| - 1], w), lines[|lines| - 1], w);
    }
  }

  /** A text is these lines and what is left after the last line end. */
  ghost predicate ConsistsOf(text: string, lines: seq<string>, pending: string) {
    Separated(lines + [pending], '\n') && text == Join(lines + [pending], '\n')
  }

  lemma LinesExactly(text: string, lines: seq<string>, pending: string)
    ensures ConsistsOf(text, lines, pending) <==> Lines(text) == lines && Pending(text) == pending
  {
    hide Split, Join, Separated;
    var parts := Split(text, '\n');
    JoinSplit(text, '\n');
    assert Lines(text) + [Pending(text)] == parts;
    if ConsistsOf(text, lines, pending) {
      SplitJoin(lines + [pending], '\n');
      assert (lines + [pending])[..|lines|] == lines;
    }
  }

  /** What is observed of an output: its lines give the events and decide what is latched; and what is left after the
      last of them violates the protocol when it begins like a known line. */
  lemma ObservationExplained(bytes: seq<byte>, w: Setting, lines: seq<string>, pending: string)
    requires ConsistsOf(w.decode(bytes), lines, pending)
    ensures var o, rest := ObservedOf(bytes, w), pending + w.flush(bytes);
            && o.runtimeEvents == EventsIn(lines, w) && o.recoveryEvents == RecoveriesIn(lines, w) && Latches(o, lines, w)
            && (o.violation <==> (exists i :: 0 <= i < |lines| && Violates(lines, w, i)) ||
                                 (rest != "" && exists prefix :: prefix in w.prefixes && prefix <= rest))
  {
    hide AcceptLines, Violates, Breaks, EndsInput, EndsTree, EventsIn, RecoveriesIn, Lines, Pending, ConsistsOf;
    LinesExactly(w.decode(bytes), lines, pending);
    EventsListed(lines, w);
    LinesExplained(lines, w);
    KnownStart(pending + w.flush(bytes), w.prefixes);
  }

  lemma KnownStart(s: string, prefixes: seq<string>)
    ensures StartsKnown(s, prefixes) <==> exists prefix :: prefix in prefixes && prefix <= s
  {
    if i :| 0 <= i < |prefixes| && prefixes[i] <= s { assert prefixes[i] in prefixes; }
    if prefix :| prefix in prefixes && prefix <= s {
      var i :| 0 <= i < |prefixes| && prefixes[i] == prefix;
    }
  }
}
