/**
 Observing the diagnostic output of a child process: chunks of text become lines, known lines become events, and
 the first event that the caller acts on is latched. Reading one line is left open as a function; the answers of
 the caller are an arbitrary list, one for each question.
 */
module ProcessObserver {
  import opened Common
  import opened Text
  import Utf8

  datatype Role = Executor | Reviewer

  datatype Provider = Codex | Claude

  datatype RuntimeEvent =
    | Selection(role: Role, provider: Provider)
    | ProcessStarted(role: Role, provider: Provider, operationId: string)

  datatype RecoveryPhase =
    | Required | Recovering | Settled | Acknowledged | ResourcesFinalized | QueueSettled | RetryReady

  datatype RecoveryEvent = RecoveryEvent(
    phase: RecoveryPhase, projectId: string, milestoneId: string, queueId: string, taskId: Option<string>,
    operationId: Option<string>, recoveryId: Option<string>, stateGeneration: nat)

  datatype Parsed = Ignored | Violation | Runtime(event: RuntimeEvent) | Recovery(recovery: RecoveryEvent)

  /** What the caller answers to a verified event; Throws is an exception of the callback. */
  datatype Answer = Continue | CloseInput | TerminateProcessTree | Throws

  /** Given by the child and the caller: how a line is read, the answers and whether a timer had already killed the
      child at each question, and the text that the decoder has given out, and at the end flushes, for the bytes so far. */
  datatype Setting = Setting(parse: string -> Parsed, answers: nat -> Answer, killed: nat -> bool, pidIssued: bool,
                             maximumOutputBytes: nat, prefixes: seq<string>, decode: seq<byte> -> string, flush: seq<byte> -> string)

  /** A decoder starts with nothing and never takes back what it gave out. */
  ghost predicate Incremental(decode: seq<byte> -> string) {
    decode([]) == "" && forall a, b :: decode(a) <= decode(a + b)
  }

  /** Everything that lines change. */
  datatype Observed = Observed(
    runtimeEvents: seq<RuntimeEvent>, selectionEvents: seq<(Role, Provider)>, processStartEvents: seq<(Role, Provider, string)>,
    recoveryEvents: seq<RecoveryEvent>, violation: bool, inputCloseTrigger: Option<RuntimeEvent>,
    terminationTrigger: Option<RuntimeEvent>, streamFailure: bool, asked: nat)

  const NOTHING_OBSERVED := Observed([], [], [], [], false, None, None, false, 0)

  function WithoutReturn(line: string): string {
    if line != [] && line[|line| - 1] == '\r' then line[..|line| - 1] else line
  }

  /** The event, recorded in the lists. */
  function Recorded(o: Observed, e: RuntimeEvent): Observed {
    var all := o.(runtimeEvents := o.runtimeEvents + [e]);
    match e
    case Selection(r, p) => all.(selectionEvents := o.selectionEvents + [(r, p)])
    case ProcessStarted(r, p, id) => all.(processStartEvents := o.processStartEvents + [(r, p, id)])
  }

  /** The caller's answer to a recorded event. */
  function Answered(o: Observed, e: RuntimeEvent, a: Answer, mayTerminate: bool): Observed {
    var asked := o.(asked := o.asked + 1);
    match a
    case Continue => asked
    case CloseInput => asked.(inputCloseTrigger := Some(e))
    case TerminateProcessTree =>
      if !e.ProcessStarted? then asked.(violation := true)
      else if mayTerminate then asked.(terminationTrigger := Some(e)) else asked
    case Throws => asked.(streamFailure := true)
  }

  predicate Quiet(o: Observed) {
    !o.violation && o.inputCloseTrigger.None? && o.terminationTrigger.None?
  }

  /** acceptDiagnosticLine. */
  function AcceptLine(o: Observed, line: string, w: Setting): Observed {
    match w.parse(WithoutReturn(line))
    case Violation => o.(violation := true)
    case Ignored => o
    case Recovery(e) => o.(recoveryEvents := o.recoveryEvents + [e])
    case Runtime(e) =>
      var r := Recorded(o, e);
      if Quiet(r) then Answered(r, e, w.answers(r.asked), w.pidIssued && !w.killed(r.asked)) else r
  }

  function AcceptLines(o: Observed, lines: seq<string>, w: Setting): Observed {
    if lines == [] then o else AcceptLine(AcceptLines(o, lines[..|lines| - 1], w), lines[|lines| - 1], w)
  }

  /** The complete lines of a text, and what comes after the last newline. */
  function Lines(text: string): seq<string> {
    var parts := Split(text, '\n');
    parts[..|parts| - 1]
  }

  function Pending(text: string): string {
    var parts := Split(text, '\n');
    parts[|parts| - 1]
  }

  predicate StartsKnown(s: string, prefixes: seq<string>) {
    exists i :: 0 <= i < |prefixes| && prefixes[i] <= s
  }

  /** The end of the output: an unfinished line that starts like a known one is a violation. */
  function AtEnd(o: Observed, pending: string, w: Setting): Observed {
    if pending != "" && StartsKnown(pending, w.prefixes) then o.(violation := true) else o
  }

  /** What is observed of all the bytes of an output. */
  function ObservedOf(bytes: seq<byte>, w: Setting): Observed {
    var text := w.decode(bytes);
    AtEnd(AcceptLines(NOTHING_OBSERVED, Lines(text), w), Pending(text) + w.flush(bytes), w)
  }

  // ------------------------------------------------------------ what lines keep

  function Starts(events: seq<RuntimeEvent>): seq<(Role, Provider, string)> {
    if events == [] then []
    else
      var last := events[|events| - 1];
      Starts(events[..|events| - 1]) + (if last.ProcessStarted? then [(last.role, last.provider, last.operationId)] else [])
  }

  function Selections(events: seq<RuntimeEvent>): seq<(Role, Provider)> {
    if events == [] then []
    else
      var last := events[|events| - 1];
      Selections(events[..|events| - 1]) + (if last.Selection? then [(last.role, last.provider)] else [])
  }

  /** The lists of starts and selections are the projections of the runtime events; at most one trigger is
      latched, it is one of the events, and a process tree is only terminated for a started process. */
  ghost predicate Sound(o: Observed) {
    && o.processStartEvents == Starts(o.runtimeEvents) && o.selectionEvents == Selections(o.runtimeEvents)
    && (o.inputCloseTrigger.None? || o.terminationTrigger.None?)
    && (o.inputCloseTrigger.Some? ==> o.inputCloseTrigger.value in o.runtimeEvents)
    && (o.terminationTrigger.Some? ==> o.terminationTrigger.value in o.runtimeEvents && o.terminationTrigger.value.ProcessStarted?)
  }

  lemma RecordedSound(o: Observed, e: RuntimeEvent)
    requires Sound(o)
    ensures var r := Recorded(o, e);
            Sound(r) && r.runtimeEvents == o.runtimeEvents + [e] && KeepsLatch(o, r) && Quiet(r) == Quiet(o) && r.asked == o.asked
  {
    assert (o.runtimeEvents + [e])[..|o.runtimeEvents|] == o.runtimeEvents;
    assert e.Selection? ==> o.processStartEvents + [] == o.processStartEvents;
    assert e.ProcessStarted? ==> o.selectionEvents + [] == o.selectionEvents;
  }

  lemma AnsweredSound(o: Observed, e: RuntimeEvent, a: Answer, mayTerminate: bool)
    requires Sound(o) && e in o.runtimeEvents && Quiet(o)
    ensures Sound(Answered(o, e, a, mayTerminate)) && Answered(o, e, a, mayTerminate).runtimeEvents == o.runtimeEvents
  {
    hide Starts, Selections;
  }

  /** What is latched stays, and nothing is latched after a violation. */
  predicate KeepsLatch(o: Observed, n: Observed) {
    (o.violation ==> n.violation) &&
    (!Quiet(o) ==> n.inputCloseTrigger == o.inputCloseTrigger && n.terminationTrigger == o.terminationTrigger && n.asked == o.asked)
  }

  /** One line keeps it, keeps what is latched, and latches nothing after a violation. */
  lemma LineSound(o: Observed, line: string, w: Setting)
    requires Sound(o)
    ensures var n := AcceptLine(o, line, w); Sound(n) && o.runtimeEvents <= n.runtimeEvents && KeepsLatch(o, n)
  {
    hide Starts, Selections, Recorded, Answered, WithoutReturn;
    var p := w.parse(WithoutReturn(line));
    if p.Runtime? {
      var r := Recorded(o, p.event);
      RecordedSound(o, p.event);
      if Quiet(r) { AnsweredSound(r, p.event, w.answers(r.asked), w.pidIssued && !w.killed(r.asked)); }
    }
  }

  lemma {:induction false} LinesSound(o: Observed, lines: seq<string>, w: Setting)
    requires Sound(o)
    ensures var n := AcceptLines(o, lines, w); Sound(n) && o.runtimeEvents <= n.runtimeEvents && KeepsLatch(o, n)
  {
    hide AcceptLine, Sound;
    if lines != [] {
      LinesSound(o, lines[..|lines| - 1], w);
      LineSound(AcceptLines(o, lines[..|lines| - 1], w), lines[|lines| - 1], w);
    }
  }

  lemma {:induction false} AcceptLinesConcat(o: Observed, a: seq<string>, b: seq<string>, w: Setting)
    ensures AcceptLines(o, a + b, w) == AcceptLines(AcceptLines(o, a, w), b, w)
  {
    hide AcceptLine;
    if b == [] {
      assert a + b == a;
    } else {
      AcceptLinesConcat(o, a, b[..|b| - 1], w);
      assert (a + b)[..|a + b| - 1] == a + b[..|b| - 1];
    }
  }

  /** At most one trigger is latched over a whole output, it is latched by one of its events, and it is the same
      for every continuation: later lines, violations among them, neither add nor change one. */
  lemma LatchedOnce(lines: seq<string>, more: seq<string>, w: Setting)
    ensures var o, n := AcceptLines(NOTHING_OBSERVED, lines, w), AcceptLines(NOTHING_OBSERVED, lines + more, w);
            Sound(n) && o.runtimeEvents <= n.runtimeEvents && KeepsLatch(o, n)
  {
    AcceptLinesConcat(NOTHING_OBSERVED, lines, more, w);
    LinesSound(NOTHING_OBSERVED, lines, w);
    LinesSound(AcceptLines(NOTHING_OBSERVED, lines, w), more, w);
  }

  lemma ObservationSound(bytes: seq<byte>, w: Setting)
    ensures Sound(ObservedOf(bytes, w))
  {
    LinesSound(NOTHING_OBSERVED, Lines(w.decode(bytes)), w);
  }

  // ------------------------------------------------------------ chunks

  datatype Stream = Stdout | Stderr

  datatype Chunk = Chunk(stream: Stream, bytes: seq<byte>)

  function BytesOf(chunks: seq<Chunk>, s: Stream): seq<byte> {
    if chunks == [] then []
    else
      var last := chunks[|chunks| - 1];
      if last.stream == s then BytesOf(chunks[..|chunks| - 1], s) + last.bytes else BytesOf(chunks[..|chunks| - 1], s)
  }

  predicate WithinLimit(chunks: seq<Chunk>, w: Setting) {
    |BytesOf(chunks, Stdout)| <= w.maximumOutputBytes && |BytesOf(chunks, Stderr)| <= w.maximumOutputBytes
  }

  lemma LinesCons(c: char, tail: string)
    ensures c == '\n' ==> Lines([c] + tail) == [[]] + Lines(tail) && Pending([c] + tail) == Pending(tail)
    ensures c != '\n' ==> Split([c] + tail, '\n') == [[c] + Split(tail, '\n')[0]] + Split(tail, '\n')[1..]
  {
    assert ([c] + tail)[1..] == tail;
    if c == '\n' { assert Split([c] + tail, '\n') == [[]] + Split(tail, '\n'); }
  }

  /** The chunks that the observer does not drop. */
  function Taken(chunks: seq<Chunk>, w: Setting): seq<Chunk> {
    if chunks == [] then []
    else
      var front, last := Taken(chunks[..|chunks| - 1], w), chunks[|chunks| - 1];
      if |BytesOf(front, last.stream)| + |last.bytes| <= w.maximumOutputBytes then front + [last] else front
  }

  /** A chunk fits after these ones. */
  predicate Fits(chunks: seq<Chunk>, chunk: Chunk, w: Setting) {
    |BytesOf(Taken(chunks, w), chunk.stream)| + |chunk.bytes| <= w.maximumOutputBytes
  }

  lemma {:induction false} SplitAppend(a: string, b: string)
    ensures Lines(a + b) == Lines(a) + Lines(Pending(a) + b)
    ensures Pending(a + b) == Pending(Pending(a) + b)
    decreases |a|
  {
    if a == [] {
      assert a + b == b && Pending(a) + b == b && Lines(a) == [];
    } else {
      SplitAppend(a[1..], b);
      assert a == [a[0]] + a[1..] && a + b == [a[0]] + (a[1..] + b);
      if a[0] == '\n' {
        hide Lines, Pending;
        LinesCons(a[0], a[1..]);
        LinesCons(a[0], a[1..] + b);
        assert [[]] + (Lines(a[1..]) + Lines(Pending(a) + b)) == ([[]] + Lines(a[1..])) + Lines(Pending(a) + b);
      } else {
        SplitAppendPlain(a, b);
      }
    }
  }

  lemma SplitAppendPlain(a: string, b: string)
    requires a != [] && a[0] != '\n'
    requires Lines(a[1..] + b) == Lines(a[1..]) + Lines(Pending(a[1..]) + b)
    requires Pending(a[1..] + b) == Pending(Pending(a[1..]) + b)
    ensures Lines(a + b) == Lines(a) + Lines(Pending(a) + b)
    ensures Pending(a + b) == Pending(Pending(a) + b)
  {
    hide Lines, Pending, Split;
    if '\n' in a {
      SplitAppendLine(a, b);
    } else {
      NoLine(a);
      assert [] + Lines(a + b) == Lines(a + b);
    }
  }

  /** The first character belongs to a complete line. */
  lemma SplitAppendLine(a: string, b: string)
    requires a != [] && a[0] != '\n' && '\n' in a
    requires Lines(a[1..] + b) == Lines(a[1..]) + Lines(Pending(a[1..]) + b)
    requires Pending(a[1..] + b) == Pending(Pending(a[1..]) + b)
    ensures Lines(a + b) == Lines(a) + Lines(Pending(a) + b)
    ensures Pending(a + b) == Pending(Pending(a) + b)
  {
    hide Lines, Pending, Split;
    var tail := a[1..];
    assert a == [a[0]] + tail && a + b == [a[0]] + (tail + b);
    FirstLineGrows(a[0], tail);
    FirstLineGrows(a[0], tail + b);
    assert (Lines(tail) + Lines(Pending(tail) + b))[1..] == Lines(tail)[1..] + Lines(Pending(tail) + b);
    assert [[a[0]] + Lines(tail)[0]] + (Lines(tail)[1..] + Lines(Pending(tail) + b))
        == ([[a[0]] + Lines(tail)[0]] + Lines(tail)[1..]) + Lines(Pending(tail) + b);
  }

  lemma {:induction false} ManyParts(s: string)
    requires '\n' in s
    ensures |Split(s, '\n')| > 1
  {
    if s[0] != '\n' { ManyParts(s[1..]); }
  }

  lemma FirstLineGrows(c: char, tail: string)
    requires c != '\n' && '\n' in tail
    ensures Lines(tail) != [] && Pending([c] + tail) == Pending(tail)
    ensures Lines([c] + tail) == [[c] + Lines(tail)[0]] + Lines(tail)[1..]
  {
    LinesCons(c, tail);
    var parts := Split(tail, '\n');
    hide Split;
    ManyParts(tail);
    assert Split([c] + tail, '\n') == [[c] + parts[0]] + parts[1..];
  }

  /** One of the answers to these questions ends the input of the child: it asks for that, or the callback throws. */
  predicate AnsweredClose(w: Setting, first: nat, end: nat) {
    exists q :: first <= q < end && (w.answers(q) == CloseInput || w.answers(q) == Throws)
  }

  lemma AnsweredInTurn(w: Setting, first: nat, middle: nat, end: nat)
    requires first <= middle <= end
    ensures AnsweredClose(w, first, end) <==> AnsweredClose(w, first, middle) || AnsweredClose(w, middle, end)
    ensures !AnsweredClose(w, first, first)
  {
  }

  class Observer {
    const w: Setting
    var o: Observed
    // What the two decoders were given; the byte counts are their lengths.
    var stdoutBytes: seq<byte>
    var stderrBytes: seq<byte>
    var stdout: string
    var stderrPending: string
    var isOutputWithinLimit: bool
    var inputEofIssued: bool

    constructor (w: Setting)
      ensures this.w == w && o == NOTHING_OBSERVED && stdoutBytes == [] && stderrBytes == [] && stdout == "" &&
              stderrPending == "" && isOutputWithinLimit && !inputEofIssued
    {
      this.w, o := w, NOTHING_OBSERVED;
      stdoutBytes, stderrBytes, stdout, stderrPending := [], [], "", "";
      isOutputWithinLimit, inputEofIssued := true, false;
    }

    /** acceptDiagnosticLine. */
    method AcceptDiagnosticLine(line: string)
      modifies this`o, this`inputEofIssued
      ensures o == AcceptLine(old(o), line, w) && old(o).asked <= o.asked
      ensures inputEofIssued <==> old(inputEofIssued) || AnsweredClose(w, old(o).asked, o.asked)
    {
      var parsed := w.parse(WithoutReturn(line));
      if parsed.Violation? {
        o := o.(violation := true);
        return;
      }
      if parsed.Ignored? { return; }
      if parsed.Recovery? {
        o := o.(recoveryEvents := o.recoveryEvents + [parsed.recovery]);
        return;
      }
      var event := parsed.event;
      o := o.(runtimeEvents := o.runtimeEvents + [event]);
      if event.Selection? {
        o := o.(selectionEvents := o.selectionEvents + [(event.role, event.provider)]);
      } else {
        o := o.(processStartEvents := o.processStartEvents + [(event.role, event.provider, event.operationId)]);
      }
      if o.violation || o.inputCloseTrigger.Some? || o.terminationTrigger.Some? { return; }
      var action, killed := w.answers(o.asked), w.killed(o.asked);
      o := o.(asked := o.asked + 1);
      match action {
        case Continue =>
        case CloseInput =>
          o := o.(inputCloseTrigger := Some(event));
          inputEofIssued := true;
        case TerminateProcessTree =>
          if !event.ProcessStarted? {
            o := o.(violation := true);
          } else if w.pidIssued && !killed {
            o := o.(terminationTrigger := Some(event));
          }
        case Throws =>
          o := o.(streamFailure := true);
          inputEofIssued := true;
      }
    }

    /** The loop that takes complete lines off the pending text. */
    method TakeLines(decoded: string)
      modifies this`o, this`stderrPending, this`inputEofIssued
      ensures old(o).asked <= o.asked
      ensures inputEofIssued <==> old(inputEofIssued) || AnsweredClose(w, old(o).asked, o.asked)
      ensures o == AcceptLines(old(o), Lines(old(stderrPending) + decoded), w)
      ensures stderrPending == Pending(old(stderrPending) + decoded)
    {
      hide AcceptLine, Lines, Pending;
      stderrPending := stderrPending + decoded;
      ghost var text, taken := stderrPending, [];
      var newline: Option<nat> := IndexOf(stderrPending);
      assert [] + Lines(stderrPending) == Lines(stderrPending);
      while newline.Some?
        invariant newline.Some? ==>
                    newline.value < |stderrPending| && stderrPending[newline.value] == '\n' &&
                    '\n' !in stderrPending[..newline.value]
        invariant newline.None? ==> '\n' !in stderrPending
        invariant Lines(text) == taken + Lines(stderrPending) && Pending(text) == Pending(stderrPending)
        invariant o == AcceptLines(old(o), taken, w)
        invariant old(o).asked <= o.asked
        invariant inputEofIssued <==> old(inputEofIssued) || AnsweredClose(w, old(o).asked, o.asked)
        decreases |stderrPending|
      {
        var line, rest := stderrPending[..newline.value], stderrPending[newline.value + 1..];
        LineTaken(text, taken, stderrPending, newline.value);
        AcceptDiagnosticLine(line);
        assert (taken + [line])[..|taken|] == taken;
        taken := taken + [line];
        stderrPending := rest;
        newline := IndexOf(stderrPending);
      }
      NoLine(stderrPending);
      assert taken + [] == taken;
    }

    /** indexOf("\n"). */
    static method IndexOf(s: string) returns (i: Option<nat>)
      ensures i.Some? ==> i.value < |s| && s[i.value] == '\n' && '\n' !in s[..i.value]
      ensures i.None? ==> '\n' !in s
    {
      for k := 0 to |s|
        invariant '\n' !in s[..k]
      {
        if s[k] == '\n' { return Some(k); }
      }
      i := None;
    }

    /** The observer has taken these chunks, and dropped none of them. */
    ghost predicate Took(chunks: seq<Chunk>)
      reads this
    {
      && stdoutBytes == BytesOf(chunks, Stdout) && stderrBytes == BytesOf(chunks, Stderr) && stdout == w.decode(stdoutBytes)
      && o == AcceptLines(NOTHING_OBSERVED, Lines(w.decode(stderrBytes)), w) && stderrPending == Pending(w.decode(stderrBytes))
    }

    /** decoder.write: the text that the chunk completes. */
    function Completed(seen: seq<byte>, bytes: seq<byte>): (text: string)
      requires w.decode(seen) <= w.decode(seen + bytes)
      ensures w.decode(seen) + text == w.decode(seen + bytes)
    {
      w.decode(seen + bytes)[|w.decode(seen)|..]
    }

    method TakeStderr(bytes: seq<byte>)
      requires Incremental(w.decode)
      requires o == AcceptLines(NOTHING_OBSERVED, Lines(w.decode(stderrBytes)), w) && stderrPending == Pending(w.decode(stderrBytes))
      modifies this`o, this`stderrBytes, this`stderrPending, this`inputEofIssued
      ensures stderrBytes == old(stderrBytes) + bytes && old(o).asked <= o.asked
      ensures inputEofIssued <==> old(inputEofIssued) || AnsweredClose(w, old(o).asked, o.asked)
      ensures o == AcceptLines(NOTHING_OBSERVED, Lines(w.decode(stderrBytes)), w) && stderrPending == Pending(w.decode(stderrBytes))
    {
      hide AcceptLine, AcceptLines, Lines, Pending;
      ghost var text := w.decode(stderrBytes);
      var decoded := Completed(stderrBytes, bytes);
      stderrBytes := stderrBytes + bytes;
      TakeLines(decoded);
      SplitAppend(text, decoded);
      AcceptLinesConcat(NOTHING_OBSERVED, Lines(text), Lines(Pending(text) + decoded), w);
    }

    /** accept, for a chunk that fits; closes says whether the caller wants the input closed after it. */
    method AcceptFitting(ghost chunks: seq<Chunk>, chunk: Chunk, closes: bool)
      requires Took(chunks) && Incremental(w.decode)
      modifies this`o, this`stdoutBytes, this`stderrBytes, this`stdout, this`stderrPending, this`inputEofIssued
      ensures Took(chunks + [chunk]) && old(o).asked <= o.asked
      ensures inputEofIssued <==> old(inputEofIssued) || closes || AnsweredClose(w, old(o).asked, o.asked)
    {
      hide AcceptLines, Lines, Pending;
      assert (chunks + [chunk])[..|chunks|] == chunks;
      if chunk.stream == Stdout {
        stdout := stdout + Completed(stdoutBytes, chunk.bytes);
        stdoutBytes := stdoutBytes + chunk.bytes;
      } else {
        TakeStderr(chunk.bytes);
      }
      if closes { inputEofIssued := true; }
    }

    /** The chunks so far, those taken, and whether any was dropped. */
    ghost predicate Accepted(chunks: seq<Chunk>)
      reads this
    {
      Took(Taken(chunks, w)) && (isOutputWithinLimit <==> Taken(chunks, w) == chunks)
    }

    /** accept. A chunk that does not fit is dropped; later chunks that fit are taken all the same. */
    method Accept(ghost chunks: seq<Chunk>, chunk: Chunk, closes: bool)
      requires Accepted(chunks) && Incremental(w.decode)
      modifies this
      ensures Accepted(chunks + [chunk]) && old(o).asked <= o.asked
      ensures isOutputWithinLimit <==> old(isOutputWithinLimit) && Fits(chunks, chunk, w)
      ensures inputEofIssued <==>
                old(inputEofIssued) || !Fits(chunks, chunk, w) || closes || AnsweredClose(w, old(o).asked, o.asked)
    {
      hide AcceptLines, Lines, Pending, BytesOf, Taken;
      TakenSnoc(chunks, chunk, w);
      var current := if chunk.stream == Stdout then stdoutBytes else stderrBytes;
      if |current| + |chunk.bytes| > w.maximumOutputBytes {
        isOutputWithinLimit := false;
        inputEofIssued := true;
        return;
      }
      AcceptFitting(Taken(chunks, w), chunk, closes);
    }

    /** The end of the output. */
    method Finish(ghost chunks: seq<Chunk>)
      requires Took(chunks)
      modifies this`o, this`stdout, this`stderrPending
      ensures o.asked == old(o).asked
      ensures o == ObservedOf(BytesOf(chunks, Stderr), w)
      ensures stdout == w.decode(BytesOf(chunks, Stdout)) + w.flush(BytesOf(chunks, Stdout))
    {
      hide AcceptLine, AcceptLines, Lines, Pending;
      stdout := stdout + w.flush(stdoutBytes);
      stderrPending := stderrPending + w.flush(stderrBytes);
      if |stderrPending| > 0 {
        if exists i :: 0 <= i < |w.prefixes| && w.prefixes[i] <= stderrPending {
          o := o.(violation := true);
        }
        stderrPending := "";
      }
    }

    /** Observing a whole child: what is observed is a function of the bytes that were taken, however they came in
        chunks, also when a chunk ends inside of a character; and all of them are taken exactly within the limit. */
    static method Observe(w: Setting, chunks: seq<Chunk>, closes: seq<bool>)
      returns (o: Observed, stdout: string, withinLimit: bool, inputEnded: bool)
      requires |closes| == |chunks| && Incremental(w.decode)
      ensures Sound(o)
      ensures withinLimit <==> WithinLimit(chunks, w)
      ensures withinLimit ==> Taken(chunks, w) == chunks
      ensures var all := BytesOf(Taken(chunks, w), Stdout);
              o == ObservedOf(BytesOf(Taken(chunks, w), Stderr), w) && stdout == w.decode(all) + w.flush(all)
      // The input of the child is ended for a chunk that does not fit or that asks for it, or by an answer.
      ensures inputEnded <==>
                !withinLimit || AnsweredClose(w, 0, o.asked) ||
                exists k :: 0 <= k < |chunks| && closes[k] && Fits(chunks[..k], chunks[k], w)
    {
      hide AcceptLine, Lines, Pending, AcceptLines, ObservedOf, Sound, Taken, BytesOf, Incremental, Fits, AnsweredClose;
      var observer := new Observer(w);
      observer.Empty();
      AnsweredInTurn(w, 0, 0, 0);
      for i := 0 to |chunks|
        invariant fresh(observer) && observer.w == w
        invariant observer.Accepted(chunks[..i])
        invariant observer.inputEofIssued <==>
                    !observer.isOutputWithinLimit || AnsweredClose(w, 0, observer.o.asked) ||
                    exists k :: 0 <= k < i && closes[k] && Fits(chunks[..k], chunks[k], w)
      {
        assert chunks[..i + 1] == chunks[..i] + [chunks[i]];
        ghost var asked := observer.o.asked;
        observer.Accept(chunks[..i], chunks[i], closes[i]);
        AnsweredInTurn(w, 0, asked, observer.o.asked);
      }
      assert chunks[..|chunks|] == chunks;
      TakenWhenWithin(chunks, w);
      withinLimit, inputEnded := observer.isOutputWithinLimit, observer.inputEofIssued;
      observer.Finish(Taken(chunks, w));
      ObservationSound(BytesOf(Taken(chunks, w), Stderr), w);
      o, stdout := observer.o, observer.stdout;
    }

    lemma Empty()
      requires o == NOTHING_OBSERVED && stdoutBytes == [] && stderrBytes == [] && isOutputWithinLimit
      requires stdout == "" && stderrPending == "" && Incremental(w.decode)
      ensures Accepted([])
    {
      NoLine("");
    }
  }

  lemma FirstLine(line: string, rest: string)
    requires '\n' !in line
    ensures Lines(line + ("\n" + rest)) == [line] + Lines(rest) && Pending(line + ("\n" + rest)) == Pending(rest)
  {
    SplitPrefix(line, "\n" + rest, '\n');
    assert ("\n" + rest)[1..] == rest;
    assert Split("\n" + rest, '\n') == [[]] + Split(rest, '\n');
    assert line + [] == line;
    assert Split(line + ("\n" + rest), '\n') == [line] + Split(rest, '\n');
  }

  lemma LineTaken(text: string, taken: seq<string>, pending: string, n: nat)
    requires Lines(text) == taken + Lines(pending) && Pending(text) == Pending(pending)
    requires n < |pending| && pending[n] == '\n' && '\n' !in pending[..n]
    ensures Lines(text) == (taken + [pending[..n]]) + Lines(pending[n + 1..]) && Pending(text) == Pending(pending[n + 1..])
  {
    hide Lines, Pending;
    FirstLine(pending[..n], pending[n + 1..]);
    assert pending == pending[..n] + ("\n" + pending[n + 1..]);
    assert taken + ([pending[..n]] + Lines(pending[n + 1..])) == (taken + [pending[..n]]) + Lines(pending[n + 1..]);
  }

  lemma NoLine(s: string)
    requires '\n' !in s
    ensures Lines(s) == [] && Pending(s) == s
  {
    SplitPrefix(s, [], '\n');
    assert s + [] == s;
    assert Split(s, '\n') == [s + []] + [];
  }

  // ------------------------------------------------------------ the limit

  lemma TakenSnoc(chunks: seq<Chunk>, c: Chunk, w: Setting)
    ensures var front := Taken(chunks, w);
            Taken(chunks + [c], w) ==
              (if |BytesOf(front, c.stream)| + |c.bytes| <= w.maximumOutputBytes then front + [c] else front)
    ensures |Taken(chunks, w)| <= |chunks|
    ensures Taken(chunks, w) + [c] == chunks + [c] <==> Taken(chunks, w) == chunks
  {
    assert (chunks + [c])[..|chunks|] == chunks;
    TakenShorter(chunks, w);
    var front := Taken(chunks, w);
    assert (front + [c])[..|front|] == front;
  }

  lemma BytesSnoc(chunks: seq<Chunk>, c: Chunk, s: Stream)
    ensures BytesOf(chunks + [c], s) == if c.stream == s then BytesOf(chunks, s) + c.bytes else BytesOf(chunks, s)
  {
    assert (chunks + [c])[..|chunks|] == chunks;
  }

  /** Nothing is dropped exactly when the whole output is within the limit. */
  lemma {:induction false} TakenWhenWithin(chunks: seq<Chunk>, w: Setting)
    ensures Taken(chunks, w) == chunks <==> WithinLimit(chunks, w)
  {
    if chunks != [] {
      var front, last := chunks[..|chunks| - 1], chunks[|chunks| - 1];
      assert chunks == front + [last];
      TakenWhenWithin(front, w);
      TakenSnoc(front, last, w);
      BytesSnoc(front, last, Stdout);
      BytesSnoc(front, last, Stderr);
    }
  }

  lemma {:induction false} TakenShorter(chunks: seq<Chunk>, w: Setting)
    ensures |Taken(chunks, w)| <= |chunks|
  {
    if chunks != [] { TakenShorter(chunks[..|chunks| - 1], w); }
  }

  const LINE: seq<byte> := [118, 10]
  const REST: seq<byte> := [122, 122]

  /** Beyond the limit the chunking matters: with two bytes allowed, the same four bytes are a violation in two
      chunks and go unseen in one. */
  lemma ChunkingMattersBeyondLimit(w: Setting)
    requires w.maximumOutputBytes == 2 && w.parse("v") == Violation
    requires w.decode(LINE) == "v\n" && w.decode([]) == "" && w.flush([]) == ""
    ensures var two, one := [Chunk(Stderr, LINE), Chunk(Stderr, REST)], [Chunk(Stderr, LINE + REST)];
            BytesOf(two, Stderr) == BytesOf(one, Stderr) &&
            ObservedOf(BytesOf(Taken(two, w), Stderr), w).violation && !ObservedOf(BytesOf(Taken(one, w), Stderr), w).violation
  {
    hide *;
    TakenOfTwo(w);
    BytesOfExamples();
    LineIsViolation(w);
    NothingIsNone(w);
  }

  lemma BytesOfExamples()
    ensures BytesOf([Chunk(Stderr, LINE), Chunk(Stderr, REST)], Stderr) == BytesOf([Chunk(Stderr, LINE + REST)], Stderr)
    ensures BytesOf([Chunk(Stderr, LINE)], Stderr) == LINE && BytesOf([], Stderr) == []
  {
    var first, second := Chunk(Stderr, LINE), Chunk(Stderr, REST);
    BytesSnoc([], first, Stderr);
    BytesSnoc([first], second, Stderr);
    BytesSnoc([], Chunk(Stderr, LINE + REST), Stderr);
    assert [] + [first] == [first] && [first] + [second] == [first, second];
    assert [] + [Chunk(Stderr, LINE + REST)] == [Chunk(Stderr, LINE + REST)];
    assert [] + LINE == LINE && [] + (LINE + REST) == LINE + REST;
  }

  lemma TakenOfTwo(w: Setting)
    requires w.maximumOutputBytes == 2
    ensures Taken([Chunk(Stderr, LINE), Chunk(Stderr, REST)], w) == [Chunk(Stderr, LINE)]
    ensures Taken([Chunk(Stderr, LINE + REST)], w) == []
  {
    var first, second := Chunk(Stderr, LINE), Chunk(Stderr, REST);
    TakenSnoc([], first, w);
    TakenSnoc([first], second, w);
    TakenSnoc([], Chunk(Stderr, LINE + REST), w);
    BytesSnoc([], first, Stderr);
    assert [] + [first] == [first] && [] + LINE == LINE;
  }

  lemma LineIsViolation(w: Setting)
    requires w.parse("v") == Violation && w.decode(LINE) == "v\n"
    ensures ObservedOf(LINE, w).violation
  {
    FirstLine("v", "");
    NoLine("");
    assert "v" + ("\n" + "") == "v\n" && ["v"] + [] == ["v"];
    assert ["v"][..0] == [] && WithoutReturn("v") == "v";
    hide Lines, Pending;
  }

  lemma NothingIsNone(w: Setting)
    requires w.decode([]) == "" && w.flush([]) == ""
    ensures !ObservedOf([], w).violation
  {
    NoLine("");
    hide Lines, Pending;
  }

  // ------------------------------------------------------------ the decoder

  /** The decoder that holds back an unfinished character is incremental, and gives out the whole of a text once
      all of its encoding has arrived: chunks may end inside of a character. */
  lemma Utf8DecoderFits(text: string)
    ensures Incremental(Utf8.DecodePrefix) && Utf8.DecodePrefix(Utf8.Encode(text)) == text
  {
    forall a, b ensures Utf8.DecodePrefix(a) <= Utf8.DecodePrefix(a + b) { Utf8.DecodePrefixGrows(a, b); }
    Utf8.DecodeEncode(text);
    Utf8.DecodePrefixWhole(Utf8.Encode(text));
  }
}
