/**
 Reading a hidden line from a terminal. Text is kept as UTF-16 code units, as the program keeps it: the loop walks
 over characters, but backspace removes one unit.
 */
module HiddenLine {
  import opened Common

  type unit = i: int | 0 <= i < 0x1_0000

  const CANCEL := 3
  const BACKSPACE := 8
  const NEWLINE := 10
  const RETURN := 13
  const SPACE := 32
  const DELETE := 127

  /** One character as the loop sees it: a unit, or a surrogate pair. */
  datatype Character = Single(u: unit) | Pair(high: unit, low: unit)

  predicate High(u: unit) {
    0xD800 <= u <= 0xDBFF
  }

  predicate Low(u: unit) {
    0xDC00 <= u <= 0xDFFF
  }

  predicate WellFormed(c: Character) {
    c.Pair? ==> High(c.high) && Low(c.low)
  }

  function UnitsOf(c: Character): seq<unit> {
    if c.Single? then [c.u] else [c.high, c.low]
  }

  // ------------------------------------------------------------ the line as a machine over units

  datatype Line = Typing(value: seq<unit>) | Entered(line: seq<unit>) | Cancelled

  /** One unit; an ended line takes no more. */
  function Press(l: Line, u: unit): Line {
    if !l.Typing? then l
    else if u == CANCEL then Cancelled
    else if u == RETURN || u == NEWLINE then Entered(l.value)
    else if u == DELETE || u == BACKSPACE then (if l.value == [] then l else Typing(l.value[..|l.value| - 1]))
    else if u >= SPACE then Typing(l.value + [u])
    else l
  }

  function Type(l: Line, s: seq<unit>): Line {
    if s == [] then l else Press(Type(l, s[..|s| - 1]), s[|s| - 1])
  }

  lemma {:induction false} TypeConcat(l: Line, a: seq<unit>, b: seq<unit>)
    ensures Type(l, a + b) == Type(Type(l, a), b)
  {
    if b == [] {
      assert a + b == a;
    } else {
      TypeConcat(l, a, b[..|b| - 1]);
      assert (a + b)[..|a + b| - 1] == a + b[..|b| - 1];
    }
  }

  lemma {:induction false} EndedStays(l: Line, s: seq<unit>)
    requires !l.Typing?
    ensures Type(l, s) == l
  {
    if s != [] { EndedStays(l, s[..|s| - 1]); }
  }

  /** The keys: 3 cancels, 13 and 10 enter the line, 127 and 8 remove its last unit, and every other unit below 32 is
      passed over. */
  lemma Keys(v: seq<unit>, u: unit)
    ensures u == 3 ==> Press(Typing(v), u) == Cancelled
    ensures u == 13 || u == 10 ==> Press(Typing(v), u) == Entered(v)
    ensures u == 127 || u == 8 ==> Press(Typing(v), u) == Typing(if v == [] then [] else v[..|v| - 1])
    ensures u >= 32 && u != 127 ==> Press(Typing(v), u) == Typing(v + [u])
    ensures u < 32 && u !in {3, 8, 10, 13} ==> Press(Typing(v), u) == Typing(v)
  {
  }

  /** Printable text is typed as it is, and entered or cancelled as a whole. */
  lemma {:induction false} PrintableTyped(v: seq<unit>, text: seq<unit>)
    requires forall i :: 0 <= i < |text| ==> text[i] >= 32 && text[i] != 127
    ensures Type(Typing(v), text) == Typing(v + text)
    ensures Type(Typing(v), text + [13]) == Type(Typing(v), text + [10]) == Entered(v + text)
    ensures Type(Typing(v), text + [3]) == Cancelled
  {
    hide Press, Type;
    if text == [] {
      TypeNothing(Typing(v));
      assert v + text == v;
    } else {
      var front, last := text[..|text| - 1], text[|text| - 1];
      PrintableTyped(v, front);
      TypeLast(Typing(v), front, last);
      Keys(v + front, last);
      assert front + [last] == text && (v + front) + [last] == v + text;
    }
    TypeLast(Typing(v), text, 13);
    TypeLast(Typing(v), text, 10);
    TypeLast(Typing(v), text, 3);
    Keys(v + text, 13);
    Keys(v + text, 10);
    Keys(v + text, 3);
  }

  lemma TypeLast(l: Line, s: seq<unit>, u: unit)
    ensures Type(l, s + [u]) == Press(Type(l, s), u)
  {
    assert (s + [u])[..|s|] == s;
  }

  lemma TypeOne(l: Line, u: unit)
    ensures Type(l, [u]) == Press(l, u)
  {
    assert [u][..0] == [];
  }

  /** A pair is two printable units. */
  lemma PairIsTwoPresses(value: seq<unit>, c: Character)
    requires WellFormed(c) && c.Pair?
    ensures Type(Typing(value), UnitsOf(c)) == Typing(value + UnitsOf(c))
  {
    assert UnitsOf(c) == [c.high] + [c.low];
    TypeConcat(Typing(value), [c.high], [c.low]);
    TypeOne(Typing(value), c.high);
    TypeOne(Typing(value + [c.high]), c.low);
    assert (value + [c.high]) + [c.low] == value + UnitsOf(c);
  }

  // ------------------------------------------------------------ characters that are removed whole

  /** The machine a reader expects: backspace removes the last character. */
  function PressWhole(v: seq<Character>, c: Character): seq<Character> {
    if c == Single(DELETE) || c == Single(BACKSPACE) then (if v == [] then v else v[..|v| - 1])
    else if c.Pair? || c.u >= SPACE then v + [c]
    else v
  }

  function TypeWhole(cs: seq<Character>): seq<Character> {
    if cs == [] then [] else PressWhole(TypeWhole(cs[..|cs| - 1]), cs[|cs| - 1])
  }

  function Encoded(cs: seq<Character>): seq<unit> {
    if cs == [] then [] else Encoded(cs[..|cs| - 1]) + UnitsOf(cs[|cs| - 1])
  }

  predicate Plain(c: Character) {
    WellFormed(c) && c != Single(CANCEL) && c != Single(RETURN) && c != Single(NEWLINE)
  }

  /** Backspace meets a character of two units. */
  predicate RemovesPair(cs: seq<Character>, k: nat)
    requires k < |cs|
  {
    var v := TypeWhole(cs[..k]);
    (cs[k] == Single(DELETE) || cs[k] == Single(BACKSPACE)) && v != [] && v[|v| - 1].Pair?
  }

  /** At this point both machines hold the same text. */
  predicate Agree(cs: seq<Character>, k: nat)
    requires k <= |cs|
  {
    Type(Typing([]), Encoded(cs[..k])) == Typing(Encoded(TypeWhole(cs[..k])))
  }

  lemma EncodedSnoc(cs: seq<Character>, c: Character)
    ensures Encoded(cs + [c]) == Encoded(cs) + UnitsOf(c)
  {
    assert (cs + [c])[..|cs|] == cs;
  }

  lemma PrefixStep(cs: seq<Character>, k: nat)
    requires k < |cs|
    ensures TypeWhole(cs[..k + 1]) == PressWhole(TypeWhole(cs[..k]), cs[k])
    ensures Encoded(cs[..k + 1]) == Encoded(cs[..k]) + UnitsOf(cs[k])
  {
    assert cs[..k + 1][..k] == cs[..k];
  }

  /** One character on the same text: the unit machine and the whole machine, apart from backspaces on pairs. */
  lemma PressAgrees(v: seq<Character>, c: Character)
    requires Plain(c)
    ensures Type(Typing(Encoded(v)), UnitsOf(c)) == Typing(Encoded(PressWhole(v, c))) <==>
              !((c == Single(DELETE) || c == Single(BACKSPACE)) && v != [] && v[|v| - 1].Pair?)
  {
    if c.Pair? {
      PairIsTwoPresses(Encoded(v), c);
      EncodedSnoc(v, c);
    } else {
      TypeOne(Typing(Encoded(v)), c.u);
      if c.u == DELETE || c.u == BACKSPACE {
        BackspaceAgrees(v);
      } else if c.u >= SPACE {
        EncodedSnoc(v, c);
      }
    }
  }

  lemma BackspaceAgrees(v: seq<Character>)
    ensures v == [] ==> Encoded(v) == []
    ensures v != [] ==> Encoded(v) != []
    ensures v != [] ==> (Encoded(v)[..|Encoded(v)| - 1] == Encoded(v[..|v| - 1]) <==> v[|v| - 1].Single?)
  {
    if v != [] {
      var front, last := Encoded(v[..|v| - 1]), v[|v| - 1];
      assert Encoded(v) == front + UnitsOf(last);
      if last.Single? {
        assert Encoded(v)[..|Encoded(v)| - 1] == front;
      } else {
        assert |Encoded(v)[..|Encoded(v)| - 1]| == |front| + 1;
      }
    }
  }

  /** One more character keeps the agreement, unless it is a backspace on a pair, which breaks it. */
  lemma AgreeStep(cs: seq<Character>, k: nat)
    requires k < |cs| && Plain(cs[k]) && Agree(cs, k)
    ensures Agree(cs, k + 1) <==> !RemovesPair(cs, k)
  {
    hide Type, PressWhole, Encoded, TypeWhole;
    PrefixStep(cs, k);
    TypeConcat(Typing([]), Encoded(cs[..k]), UnitsOf(cs[k]));
    PressAgrees(TypeWhole(cs[..k]), cs[k]);
  }

  /** The line holds whole characters at every moment exactly when no backspace meets a character of two units;
      when one does, half a character stays behind. */
  lemma {:induction false} WholeUnlessPairRemoved(cs: seq<Character>, n: nat)
    requires n <= |cs| && forall k :: 0 <= k < |cs| ==> Plain(cs[k])
    ensures (forall k :: 0 <= k <= n ==> Agree(cs, k)) <==> (forall k :: 0 <= k < n ==> !RemovesPair(cs, k))
  {
    hide Agree, RemovesPair;
    if n == 0 {
      AgreeAtStart(cs);
    } else {
      WholeUnlessPairRemoved(cs, n - 1);
      if forall k :: 0 <= k <= n - 1 ==> Agree(cs, k) {
        AgreeStep(cs, n - 1);
        assert Agree(cs, n - 1);
      }
    }
  }

  /** The failing case: a backspace after a character of two units leaves its first unit on the line. */
  lemma HalfACharacterStays()
    ensures var cs := [Pair(0xD83D, 0xDE00), Single(DELETE)];
            RemovesPair(cs, 1) && TypeWhole(cs) == [] && Type(Typing([]), Encoded(cs)) == Typing([0xD83D])
  {
    hide Type, TypeWhole, Encoded;
    var pair, erase := Pair(0xD83D, 0xDE00), Single(DELETE);
    var cs := [pair, erase];
    PrefixStep(cs, 0);
    PrefixStep(cs, 1);
    NothingBefore(cs);
    assert cs[..2] == cs;
    PairIsTwoPresses([], pair);
    TypeConcat(Typing([]), UnitsOf(pair), UnitsOf(erase));
    TypeOne(Typing(UnitsOf(pair)), DELETE);
    assert [] + UnitsOf(pair) == UnitsOf(pair) && UnitsOf(pair)[..1] == [0xD83D];
  }

  lemma NothingBefore(cs: seq<Character>)
    ensures TypeWhole(cs[..0]) == [] && Encoded(cs[..0]) == []
  {
  }

  lemma AgreeAtStart(cs: seq<Character>)
    ensures Agree(cs, 0)
  {
    assert cs[..0] == [];
  }

  // ------------------------------------------------------------ the terminal

  /** Which terminal calls throw. */
  datatype Faults = Faults(prompt: bool, rawOn: bool, resume: bool, encoding: bool, onData: bool, onEnd: bool,
                           newline: bool, offData: bool, offEnd: bool, rawOff: bool, pause: bool)

  datatype Settlement = Pending | Resolved(line: seq<unit>) | Rejected(reason: string)

  datatype Cleanup = OffData | OffEnd | RawOff | Pause

  function OneIf(due: bool, c: Cleanup): seq<Cleanup> {
    if due then [c] else []
  }

  class Terminal {
    const faults: Faults
    var value: seq<unit>
    var settlement: Settlement
    var didAttemptRawMode: bool
    var didAttemptResume: bool
    var didAttachData: bool
    var didAttachEnd: bool
    // The cleanups that were attempted, in order.
    var attempted: seq<Cleanup>

    constructor (faults: Faults)
      ensures this.faults == faults && value == [] && settlement.Pending? && attempted == []
      ensures !didAttemptRawMode && !didAttemptResume && !didAttachData && !didAttachEnd
    {
      this.faults, value, settlement, attempted := faults, [], Pending, [];
      didAttemptRawMode, didAttemptResume, didAttachData, didAttachEnd := false, false, false, false;
    }

    /** The cleanups that are due, in their order. */
    function Due(): seq<Cleanup>
      reads this`didAttachData, this`didAttachEnd, this`didAttemptRawMode, this`didAttemptResume
    {
      OneIf(didAttachData, OffData) + OneIf(didAttachEnd, OffEnd) + OneIf(didAttemptRawMode, RawOff) + OneIf(didAttemptResume, Pause)
    }

    predicate CleanupFails()
      reads this`didAttachData, this`didAttachEnd, this`didAttemptRawMode, this`didAttemptResume
    {
      (didAttachData && faults.offData) || (didAttachEnd && faults.offEnd) ||
      (didAttemptRawMode && faults.rawOff) || (didAttemptResume && faults.pause)
    }

    /** Settled exactly when the cleanups were done, each due one once. */
    ghost predicate Sound()
      reads this
    {
      attempted == if settlement.Pending? then [] else Due()
    }

    /** finish: the first call settles and attempts every due cleanup, whichever of them throw. */
    method Finish(result: Settlement)
      requires Sound() && !result.Pending?
      modifies this`settlement, this`attempted
      ensures Sound() && !settlement.Pending?
      ensures !old(settlement).Pending? ==> settlement == old(settlement)
      ensures old(settlement).Pending? ==>
                settlement == if CleanupFails() then Rejected("artifact_signing_terminal_cleanup_failed") else result
    {
      hide Due, CleanupFails;
      if !settlement.Pending? { return; }
      var failed := CleanUp();
      settlement := if failed then Rejected("artifact_signing_terminal_cleanup_failed") else result;
    }

    /** The loop over the cleanups. */
    method CleanUp() returns (failed: bool)
      requires attempted == []
      modifies this`attempted
      ensures attempted == Due() && failed == CleanupFails()
    {
      hide OneIf;
      var dataFailed := Attempt(didAttachData, OffData, faults.offData);
      assert attempted == OneIf(didAttachData, OffData);
      var endFailed := Attempt(didAttachEnd, OffEnd, faults.offEnd);
      var rawFailed := Attempt(didAttemptRawMode, RawOff, faults.rawOff);
      var pauseFailed := Attempt(didAttemptResume, Pause, faults.pause);
      failed := dataFailed || endFailed || rawFailed || pauseFailed;
    }

    /** One cleanup: attempted when it is due, whether or not earlier ones failed. */
    method Attempt(due: bool, c: Cleanup, throws: bool) returns (failed: bool)
      modifies this`attempted
      ensures attempted == old(attempted) + OneIf(due, c)
      ensures failed == (due && throws)
    {
      if due { attempted := attempted + [c]; }
      failed := due && throws;
    }

    /** What is undone after the setup call that throws: everything that was attempted before it. */
    function SetUpUndone(): seq<Cleanup> {
      if faults.prompt then []
      else if faults.rawOn then [RawOff]
      else if faults.resume || faults.encoding then [RawOff, Pause]
      else if faults.onData then [OffData, RawOff, Pause]
      else [OffData, OffEnd, RawOff, Pause]
    }

    function SetUpFails(): string {
      var f := faults;
      if !f.prompt && (f.rawOff || (!f.rawOn && (f.pause || (!f.resume && !f.encoding && (f.offData || (!f.onData && f.offEnd))))))
      then "artifact_signing_terminal_cleanup_failed"
      else "artifact_signing_terminal_setup_failed"
    }

    /** The setup; a call that throws settles at once, after cleaning up what was attempted before it. */
    method SetUp()
      requires Sound() && settlement.Pending? && value == []
      requires !didAttemptRawMode && !didAttemptResume && !didAttachData && !didAttachEnd
      modifies this
      ensures Sound() && value == []
      ensures var f := faults;
              settlement.Pending? <==> !(f.prompt || f.rawOn || f.resume || f.encoding || f.onData || f.onEnd)
      ensures settlement.Pending? ==> didAttemptRawMode && didAttemptResume && didAttachData && didAttachEnd
      ensures !settlement.Pending? ==> settlement == Rejected(SetUpFails()) && attempted == SetUpUndone()
    {
      hide Due, CleanupFails, SetUpUndone, SetUpFails;
      var failed := faults.prompt;
      if !failed {
        didAttemptRawMode := true;
        failed := faults.rawOn;
      }
      if !failed {
        didAttemptResume := true;
        failed := faults.resume || faults.encoding;
      }
      if !failed {
        didAttachData := true;
        failed := faults.onData;
      }
      if !failed {
        didAttachEnd := true;
        failed := faults.onEnd;
      }
      if failed {
        SomeDue();
        SomeFail();
        Finish(Rejected("artifact_signing_terminal_setup_failed"));
      }
    }

    /** After a setup that failed, those are due that were attempted. */
    lemma SomeDue()
      requires var f := faults;
        && (didAttemptRawMode <==> !f.prompt) && (didAttemptResume <==> didAttemptRawMode && !f.rawOn)
        && (didAttachData <==> didAttemptResume && !f.resume && !f.encoding) && (didAttachEnd <==> didAttachData && !f.onData)
      ensures Due() == SetUpUndone()
    {
    }

    lemma SomeFail()
      requires var f := faults;
        && (didAttemptRawMode <==> !f.prompt) && (didAttemptResume <==> didAttemptRawMode && !f.rawOn)
        && (didAttachData <==> didAttemptResume && !f.resume && !f.encoding) && (didAttachEnd <==> didAttachData && !f.onData)
      ensures SetUpFails() ==
                if CleanupFails() then "artifact_signing_terminal_cleanup_failed" else "artifact_signing_terminal_setup_failed"
    {
    }

    /** What an ended line settles to. */
    function Result(l: Line): Settlement
      requires !l.Typing?
      reads this`didAttachData, this`didAttachEnd, this`didAttemptRawMode, this`didAttemptResume
    {
      if CleanupFails() then Rejected("artifact_signing_terminal_cleanup_failed")
      else if l.Cancelled? then Rejected("artifact_signing_cancelled")
      else if faults.newline then Rejected("artifact_signing_terminal_output_failed")
      else Resolved(l.line)
    }

    /** The body of the loop over characters. */
    method TakeCharacter(c: Character) returns (ended: bool)
      requires Sound() && WellFormed(c)
      modifies this`value, this`settlement, this`attempted
      ensures Sound()
      ensures var l := PressCharacter(old(value), c);
              ended == !l.Typing? && (!ended ==> value == l.value) &&
              settlement == (if ended && old(settlement).Pending? then Result(l) else old(settlement))
    {
      ended := false;
      if c == Single(CANCEL) {
        Finish(Rejected("artifact_signing_cancelled"));
        return true;
      }
      if c == Single(RETURN) || c == Single(NEWLINE) {
        if faults.newline {
          Finish(Rejected("artifact_signing_terminal_output_failed"));
        } else {
          Finish(Resolved(value));
        }
        return true;
      }
      if c == Single(DELETE) || c == Single(BACKSPACE) {
        if value != [] { value := value[..|value| - 1]; }
      } else if c.Pair? || c.u >= SPACE {
        value := value + UnitsOf(c);
      }
    }

    /** onData: the characters of one chunk, up to the one that ends the line. A chunk that comes after the line
        was settled is read all the same, and settles nothing. */
    method OnData(chunk: seq<unit>)
      requires Sound()
      modifies this`value, this`settlement, this`attempted
      ensures Sound()
      ensures !old(settlement).Pending? ==> settlement == old(settlement)
      ensures old(settlement).Pending? ==>
                var l := Type(Typing(old(value)), chunk);
                if l.Typing? then value == l.value && settlement.Pending? else settlement == Result(l)
    {
      hide Type, Due, CleanupFails, PressCharacter;
      var rest := chunk;
      ghost var taken: seq<unit> := [];
      assert taken + rest == chunk;
      TypeNothing(Typing(value));
      while rest != []
        invariant Sound() && settlement == old(settlement)
        invariant taken + rest == chunk && Type(Typing(old(value)), taken) == Typing(value)
        decreases |rest|
      {
        var c := if |rest| >= 2 && High(rest[0]) && Low(rest[1]) then Pair(rest[0], rest[1]) else Single(rest[0]);
        var n := |UnitsOf(c)|;
        assert rest == UnitsOf(c) + rest[n..];
        Typed(old(value), taken, c, rest[n..], value);
        var ended := TakeCharacter(c);
        if ended { return; }
        taken, rest := taken + UnitsOf(c), rest[n..];
      }
      assert taken == chunk;
    }

    /** onEnd. */
    method OnEnd()
      requires Sound()
      modifies this`settlement, this`attempted
      ensures Sound() && !settlement.Pending?
      ensures !old(settlement).Pending? ==> settlement == old(settlement)
      ensures old(settlement).Pending? ==>
                settlement == Rejected(if CleanupFails() then "artifact_signing_terminal_cleanup_failed" else "artifact_signing_input_closed")
    {
      Finish(Rejected("artifact_signing_input_closed"));
    }

    /** After these units: still typing, or settled by the line that they make. */
    ghost predicate After(units: seq<unit>)
      reads this
    {
      var l := Type(Typing([]), units);
      if l.Typing? then value == l.value && settlement.Pending? else settlement == Result(l)
    }

    /** readHiddenLineFromTerminal: the setup, chunks as they arrive, and possibly the end of the input. */
    method ReadHiddenLine(chunks: seq<seq<unit>>, ends: bool)
      requires Sound() && settlement.Pending? && value == []
      requires !didAttemptRawMode && !didAttemptResume && !didAttachData && !didAttachEnd
      modifies this
      // Settled once, after attempting every due cleanup once.
      ensures attempted == if settlement.Pending? then [] else Due()
      // The line is that of the machine over all the units, however they came in chunks.
      ensures settlement.Resolved? ==> Type(Typing([]), Concat(chunks)) == Entered(settlement.line)
      ensures var f, l := faults, Type(Typing([]), Concat(chunks));
              if f.prompt || f.rawOn || f.resume || f.encoding || f.onData || f.onEnd then
                settlement == Rejected(SetUpFails()) && attempted == SetUpUndone()
              else if l.Typing? && !ends then settlement.Pending?
              else attempted == [OffData, OffEnd, RawOff, Pause] && settlement == Ended(l)
    {
      hide Type, Due, CleanupFails, SetUpUndone, SetUpFails;
      SetUp();
      if settlement.Pending? { Listen(chunks, ends); }
    }

    /** What a read settles to after a setup that went well, when its line ended or its input was closed. */
    function Ended(l: Line): Settlement {
      if faults.offData || faults.offEnd || faults.rawOff || faults.pause then Rejected("artifact_signing_terminal_cleanup_failed")
      else if l.Typing? then Rejected("artifact_signing_input_closed")
      else if l.Cancelled? then Rejected("artifact_signing_cancelled")
      else if faults.newline then Rejected("artifact_signing_terminal_output_failed")
      else Resolved(l.line)
    }

    /** The chunks as they arrive, and possibly the end of the input. */
    method Listen(chunks: seq<seq<unit>>, ends: bool)
      requires Sound() && settlement.Pending? && value == []
      requires didAttemptRawMode && didAttemptResume && didAttachData && didAttachEnd
      modifies this`value, this`settlement, this`attempted
      ensures Sound() && (settlement.Pending? || attempted == [OffData, OffEnd, RawOff, Pause])
      ensures var l := Type(Typing([]), Concat(chunks));
              if l.Typing? && !ends then settlement.Pending? else settlement == Ended(l)
    {
      hide Type, Due, CleanupFails;
      NothingTyped();
      for i := 0 to |chunks|
        invariant Sound() && After(Concat(chunks[..i]))
      {
        assert chunks[..i + 1][..i] == chunks[..i];
        TypeConcat(Typing([]), Concat(chunks[..i]), chunks[i]);
        ghost var l := Type(Typing([]), Concat(chunks[..i]));
        if !l.Typing? { EndedStays(l, chunks[i]); }
        OnData(chunks[i]);
      }
      assert chunks[..|chunks|] == chunks;
      AllDue();
      if ends { OnEnd(); }
    }

    /** After a setup that went well every cleanup is due. */
    lemma AllDue()
      requires didAttemptRawMode && didAttemptResume && didAttachData && didAttachEnd
      ensures Due() == [OffData, OffEnd, RawOff, Pause]
      ensures CleanupFails() <==> faults.offData || faults.offEnd || faults.rawOff || faults.pause
    {
    }
  }

  lemma NothingTyped()
    ensures Type(Typing([]), Concat([])) == Typing([])
  {
  }

  function Concat(chunks: seq<seq<unit>>): seq<unit> {
    if chunks == [] then [] else Concat(chunks[..|chunks| - 1]) + chunks[|chunks| - 1]
  }

  lemma TypeNothing(l: Line)
    ensures Type(l, []) == l
  {
  }

  /** One character on an open line. */
  function PressCharacter(value: seq<unit>, c: Character): Line {
    if c.Pair? then Typing(value + UnitsOf(c)) else Press(Typing(value), c.u)
  }

  /** The next character of a chunk, as the unit machine takes it. */
  lemma Typed(start: seq<unit>, taken: seq<unit>, c: Character, rest: seq<unit>, value: seq<unit>)
    requires WellFormed(c) && Type(Typing(start), taken) == Typing(value)
    ensures var l := PressCharacter(value, c);
            Type(Typing(start), taken + UnitsOf(c)) == l &&
            (!l.Typing? ==> Type(Typing(start), taken + (UnitsOf(c) + rest)) == l)
    ensures (taken + UnitsOf(c)) + rest == taken + (UnitsOf(c) + rest)
  {
    hide Type;
    TypeConcat(Typing(start), taken, UnitsOf(c));
    if c.Pair? { PairIsTwoPresses(value, c); } else { TypeOne(Typing(value), c.u); }
    var l := PressCharacter(value, c);
    TypeConcat(Typing(start), taken + UnitsOf(c), rest);
    assert (taken + UnitsOf(c)) + rest == taken + (UnitsOf(c) + rest);
    if !l.Typing? { EndedStays(l, rest); }
  }
}
