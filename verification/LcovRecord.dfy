/** One LCOV record: its numbers, its line, function and branch entries, and their cross-check with the summaries. */
module LcovRecord {
  import opened Common
  import opened Text
  import opened Decimal
  import opened LcovSource
  import opened LcovText

  const MAX_SAFE_INTEGER := 9007199254740991

  /** count: a canonical decimal that a double represents exactly. */
  function Count(raw: string): Option<nat> {
    if Canonical(raw) && Value(raw) <= MAX_SAFE_INTEGER then Some(Value(raw)) else None
  }

  function PositiveCount(raw: string): Option<nat> {
    if Count(raw) == Some(0) then None else Count(raw)
  }

  /** Exactly the numerals of the safe integers are counts, each of its own number. */
  lemma CountReadsNumerals(raw: string, n: nat)
    ensures Count(raw) == Some(n) <==> n <= MAX_SAFE_INTEGER && raw == Numeral(n)
  {
    if Count(raw) == Some(n) {
      ValueNumeral(raw);
    } else {
      NumeralValue(n);
    }
  }

  /** The lines that start with a prefix, in order. */
  function Matching(lines: seq<string>, prefix: string): (r: seq<string>)
    ensures |r| <= |lines|
    ensures forall line :: line in r <==> line in lines && prefix <= line
    ensures forall k :: 0 <= k < |r| ==> prefix <= r[k]
  {
    if lines == [] then []
    else
      var front := Matching(lines[..|lines| - 1], prefix);
      var last := lines[|lines| - 1];
      assert lines == lines[..|lines| - 1] + [last];
      if prefix <= last then front + [last] else front
  }

  lemma MatchingStep(lines: seq<string>, i: nat, prefix: string)
    requires i < |lines|
    ensures Matching(lines[..i + 1], prefix) ==
              Matching(lines[..i], prefix) + (if prefix <= lines[i] then [lines[i]] else [])
  {
    assert lines[..i + 1][..i] == lines[..i];
  }

  function OneValue(lines: seq<string>, prefix: string): Option<nat> {
    var values := Matching(lines, prefix);
    if |values| == 1 then Count(values[0][|prefix|..]) else None
  }

  // ------------------------------------------------------------ entries

  datatype Branch = Branch(line: nat, block: nat, branch: nat, taken: Option<nat>)

  function Identity(b: Branch): (nat, nat, nat) {
    (b.line, b.block, b.branch)
  }

  /** taken ?? 0. */
  function Taken(b: Branch): nat {
    if b.taken.Some? then b.taken.value else 0
  }

  function ParseBranch(line: string): Option<Branch>
    requires "BRDA:" <= line
  {
    var fields := Split(line[5..], ',');
    if |fields| != 4 then None
    else
      var at, block, branch := PositiveCount(fields[0]), Count(fields[1]), Count(fields[2]);
      if at.None? || block.None? || branch.None? || (fields[3] != "-" && Count(fields[3]).None?) then None
      else Some(Branch(at.value, block.value, branch.value, if fields[3] == "-" then None else Count(fields[3])))
  }

  datatype Entry<K> = Entry(key: K, executions: nat)

  /** A DA line: its line number and how often it was executed. */
  function ParseExecution(line: string): Option<Entry<nat>>
    requires "DA:" <= line
  {
    var fields := Split(line[3..], ',');
    if |fields| != 2 then None
    else
      var number, executions := PositiveCount(fields[0]), Count(fields[1]);
      if number.None? || executions.None? then None else Some(Entry(number.value, executions.value))
  }

  /** A number up to the first comma, and a name that is the whole rest. */
  function NumberAndName(rest: string): (r: Option<(string, string)>)
    ensures r.Some? ==> rest == r.value.0 + "," + r.value.1 && ',' !in r.value.0 && r.value.1 != ""
  {
    var fields := Split(rest, ',');
    JoinSplit(rest, ',');
    if |fields| == 1 then None
    else
      var name := Join(fields[1..], ',');
      assert fields[0] in fields && rest == fields[0] + [','] + name;
      if name == "" then None else Some((fields[0], name))
  }

  /** A FN line: the name of a function; its line number is only checked. */
  function ParseDefinition(line: string): Option<string>
    requires "FN:" <= line
  {
    var parts := NumberAndName(line[3..]);
    if parts.None? || PositiveCount(parts.value.0).None? then None else Some(parts.value.1)
  }

  /** A FNDA line: how often a named function was executed. */
  function ParseCall(line: string): Option<Entry<string>>
    requires "FNDA:" <= line
  {
    var parts := NumberAndName(line[5..]);
    if parts.None? || Count(parts.value.0).None? then None
    else Some(Entry(parts.value.1, Count(parts.value.0).value))
  }

  // ------------------------------------------------------------ entries as they are printed

  function PrintTaken(taken: Option<nat>): string {
    if taken.None? then "-" else Numeral(taken.value)
  }

  function PrintBranch(b: Branch): string {
    "BRDA:" + Join([Numeral(b.line), Numeral(b.block), Numeral(b.branch), PrintTaken(b.taken)], ',')
  }

  function PrintExecution(e: Entry<nat>): string {
    "DA:" + Join([Numeral(e.key), Numeral(e.executions)], ',')
  }

  function PrintCall(e: Entry<string>): string {
    "FNDA:" + (Numeral(e.executions) + "," + e.key)
  }

  function PrintDefinition(line: nat, name: string): string {
    "FN:" + (Numeral(line) + "," + name)
  }

  predicate SafeCount(n: nat) {
    n <= MAX_SAFE_INTEGER
  }

  lemma NumeralPlain(n: nat)
    ensures ',' !in Numeral(n) && Numeral(n) != "-"
  {
    assert Digit(Numeral(n)[0]);
  }

  /** A text splits into fields exactly when it is those fields joined. */
  lemma FieldsOf(s: string, fields: seq<string>)
    requires fields != [] && Separated(fields, ',')
    ensures Split(s, ',') == fields <==> s == Join(fields, ',')
  {
    JoinSplit(s, ',');
    SplitJoin(fields, ',');
  }

  lemma TakenReads(s: string, taken: Option<nat>)
    ensures (if s == "-" then taken == None else Count(s).Some? && Count(s) == taken)
            <==> s == PrintTaken(taken) && (taken.Some? ==> SafeCount(taken.value))
  {
    if taken.Some? {
      CountReadsNumerals(s, taken.value);
      NumeralPlain(taken.value);
    }
  }

  /** Exactly the printed branches are read, each as itself. */
  lemma BranchReadsPrinted(line: string, b: Branch)
    requires "BRDA:" <= line
    ensures ParseBranch(line) == Some(b) <==>
              1 <= b.line && SafeCount(b.line) && SafeCount(b.block) && SafeCount(b.branch) &&
              (b.taken.Some? ==> SafeCount(b.taken.value)) && line == PrintBranch(b)
  {
    hide Count, Numeral, PrintTaken, Split, Join;
    var fields, printed := Split(line[5..], ','), [Numeral(b.line), Numeral(b.block), Numeral(b.branch), PrintTaken(b.taken)];
    assert line == "BRDA:" + line[5..];
    BranchFieldsPlain(b);
    FieldsOf(line[5..], printed);
    if |fields| == 4 {
      CountReadsNumerals(fields[0], b.line);
      CountReadsNumerals(fields[1], b.block);
      CountReadsNumerals(fields[2], b.branch);
      TakenReads(fields[3], b.taken);
      assert fields == [fields[0], fields[1], fields[2], fields[3]];
    }
    assert line == PrintBranch(b) <==> line[5..] == Join(printed, ',');
  }

  lemma BranchFieldsPlain(b: Branch)
    ensures Separated([Numeral(b.line), Numeral(b.block), Numeral(b.branch), PrintTaken(b.taken)], ',')
  {
    NumeralPlain(b.line);
    NumeralPlain(b.block);
    NumeralPlain(b.branch);
    if b.taken.Some? { NumeralPlain(b.taken.value); }
  }

  lemma ExecutionReadsPrinted(line: string, e: Entry<nat>)
    requires "DA:" <= line
    ensures ParseExecution(line) == Some(e) <==>
              1 <= e.key && SafeCount(e.key) && SafeCount(e.executions) && line == PrintExecution(e)
  {
    hide Count, Numeral, Split, Join;
    var fields, printed := Split(line[3..], ','), [Numeral(e.key), Numeral(e.executions)];
    assert line == "DA:" + line[3..];
    NumeralPlain(e.key);
    NumeralPlain(e.executions);
    FieldsOf(line[3..], printed);
    if |fields| == 2 {
      CountReadsNumerals(fields[0], e.key);
      CountReadsNumerals(fields[1], e.executions);
      assert fields == [fields[0], fields[1]];
    }
    assert line == PrintExecution(e) <==> line[3..] == Join(printed, ',');
  }

  /** The name is the whole rest after the first comma, further commas included. */
  lemma NumberAndNameReads(rest: string, number: string, name: string)
    ensures NumberAndName(rest) == Some((number, name)) <==> ',' !in number && name != "" && rest == number + "," + name
  {
    if ',' !in number && name != "" && rest == number + "," + name {
      var tail := "," + name;
      assert rest == number + tail;
      SplitPrefix(number, tail, ',');
      assert tail[1..] == name;
      JoinSplit(name, ',');
      assert Split(tail, ',') == [[]] + Split(name, ',');
      assert number + [] == number;
      assert Split(rest, ',') == [number] + Split(name, ',');
    }
  }

  lemma CallReadsPrinted(line: string, e: Entry<string>)
    requires "FNDA:" <= line
    ensures ParseCall(line) == Some(e) <==> SafeCount(e.executions) && e.key != "" && line == PrintCall(e)
  {
    hide Count, Numeral, NumberAndName;
    var rest, parts := line[5..], NumberAndName(line[5..]);
    assert line == "FNDA:" + rest;
    NumeralPlain(e.executions);
    NumberAndNameReads(rest, Numeral(e.executions), e.key);
    if parts.Some? {
      CountReadsNumerals(parts.value.0, e.executions);
      NumberAndNameReads(rest, parts.value.0, parts.value.1);
    } else {
      CountReadsNumerals(Numeral(e.executions), e.executions);
    }
    assert line == PrintCall(e) <==> rest == Numeral(e.executions) + "," + e.key;
  }

  lemma DefinitionReadsPrinted(line: string, name: string)
    requires "FN:" <= line
    ensures ParseDefinition(line) == Some(name) <==>
              name != "" && exists n :: 1 <= n && SafeCount(n) && line == PrintDefinition(n, name)
  {
    hide Count, Numeral, NumberAndName;
    var rest, parts := line[3..], NumberAndName(line[3..]);
    assert line == "FN:" + rest;
    if ParseDefinition(line) == Some(name) {
      var n := Count(parts.value.0).value;
      CountReadsNumerals(parts.value.0, n);
      NumberAndNameReads(rest, parts.value.0, name);
      assert line == PrintDefinition(n, name);
    } else if name != "" && exists n :: 1 <= n && SafeCount(n) && line == PrintDefinition(n, name) {
      var n :| 1 <= n && SafeCount(n) && line == PrintDefinition(n, name);
      NumeralPlain(n);
      assert rest == Numeral(n) + "," + name;
      NumberAndNameReads(rest, Numeral(n), name);
      CountReadsNumerals(Numeral(n), n);
      assert false;
    }
  }

  predicate Distinct<T(==)>(s: seq<T>) {
    forall i, j :: 0 <= i < j < |s| ==> s[i] != s[j]
  }

  function Keys<K>(s: seq<Entry<K>>): (r: seq<K>)
    ensures |r| == |s| && forall i :: 0 <= i < |s| ==> r[i] == s[i].key
  {
    seq(|s|, i requires 0 <= i < |s| => s[i].key)
  }

  function Identities(s: seq<Branch>): (r: seq<(nat, nat, nat)>)
    ensures |r| == |s| && forall i :: 0 <= i < |s| ==> r[i] == Identity(s[i])
  {
    seq(|s|, i requires 0 <= i < |s| => Identity(s[i]))
  }

  /** How many entries were executed at least once. */
  function Hit<K>(s: seq<Entry<K>>): (n: nat)
    ensures n <= |s|
  {
    if s == [] then 0 else Hit(s[..|s| - 1]) + (if s[|s| - 1].executions > 0 then 1 else 0)
  }

  function TakenCount(s: seq<Branch>): (n: nat)
    ensures n <= |s|
  {
    if s == [] then 0 else TakenCount(s[..|s| - 1]) + (if Taken(s[|s| - 1]) > 0 then 1 else 0)
  }

  function Untaken(s: seq<Branch>): (r: seq<Branch>)
    ensures |r| == |s| - TakenCount(s)
    ensures forall b :: b in r <==> b in s && Taken(b) == 0
  {
    if s == [] then []
    else
      var front := Untaken(s[..|s| - 1]);
      var last := s[|s| - 1];
      assert s == s[..|s| - 1] + [last];
      if Taken(last) == 0 then front + [last] else front
  }

  // ------------------------------------------------------------ what a record must satisfy

  /** The entries are what the matching lines say, each readable. */
  ghost predicate ReadBranches(lines: seq<string>, b: seq<Branch>) {
    var m := Matching(lines, "BRDA:");
    |b| == |m| && forall k :: 0 <= k < |m| ==> ParseBranch(m[k]) == Some(b[k])
  }

  ghost predicate ReadExecutions(lines: seq<string>, e: seq<Entry<nat>>) {
    var m := Matching(lines, "DA:");
    |e| == |m| && forall k :: 0 <= k < |m| ==> ParseExecution(m[k]) == Some(e[k])
  }

  ghost predicate ReadDefinitions(lines: seq<string>, names: seq<string>) {
    var m := Matching(lines, "FN:");
    |names| == |m| && forall k :: 0 <= k < |m| ==> ParseDefinition(m[k]) == Some(names[k])
  }

  ghost predicate ReadCalls(lines: seq<string>, e: seq<Entry<string>>) {
    var m := Matching(lines, "FNDA:");
    |e| == |m| && forall k :: 0 <= k < |m| ==> ParseCall(m[k]) == Some(e[k])
  }

  /** Every DA line is readable, no line number is given twice, and the summary counts them and those executed. */
  ghost predicate LinesConsistent(lines: seq<string>, total: nat, covered: nat) {
    exists e :: ReadExecutions(lines, e) && Distinct(Keys(e)) && |e| == total && Hit(e) == covered
  }

  /** The FN and FNDA lines name the same functions, each once, and the summary counts them and those executed. */
  ghost predicate FunctionsConsistent(lines: seq<string>, total: nat, covered: nat) {
    exists names, e :: ReadDefinitions(lines, names) && ReadCalls(lines, e) && Distinct(names) && Distinct(Keys(e)) &&
      |names| == total && |e| == total && (forall n :: n in names <==> n in Keys(e)) && Hit(e) == covered
  }

  ghost predicate BranchesConsistent(lines: seq<string>, b: seq<Branch>, total: nat, covered: nat) {
    ReadBranches(lines, b) && Distinct(Identities(b)) && |b| == total && TakenCount(b) == covered
  }

  method ValidateLineRecords(lines: seq<string>, expectedTotal: nat, expectedCovered: nat) returns (ok: bool)
    ensures ok <==> LinesConsistent(lines, expectedTotal, expectedCovered)
  {
    hide ParseExecution, ReadExecutions, Distinct, Hit;
    var lineNumbers: set<nat> := {};
    var covered, total := 0, 0;
    ghost var e: seq<Entry<nat>> := [];
    NoEntries();
    assert lines[..0] == [];
    for i := 0 to |lines|
      invariant ReadExecutions(lines[..i], e) && Distinct(Keys(e))
      invariant forall n :: n in lineNumbers <==> n in Keys(e)
      invariant total == |e| && covered == Hit(e)
    {
      var line := lines[i];
      if "DA:" <= line {
        var entry := ParseExecution(line);
        if entry.None? {
          UnreadableLine(lines, i);
          return false;
        }
        if entry.value.key in lineNumbers {
          RepeatedLine(lines, i, e);
          return false;
        }
        EntryAdded(lines, i, e, entry.value);
        e := e + [entry.value];
        lineNumbers := lineNumbers + {entry.value.key};
        total := total + 1;
        if entry.value.executions > 0 { covered := covered + 1; }
      } else {
        EntryPassed(lines, i, e);
      }
    }
    assert lines[..|lines|] == lines;
    ok := total == expectedTotal && covered == expectedCovered;
    if LinesConsistent(lines, expectedTotal, expectedCovered) {
      var f :| ReadExecutions(lines, f) && Distinct(Keys(f)) && |f| == expectedTotal && Hit(f) == expectedCovered;
      ExecutionsReadOnce(lines, e, f);
    }
  }

  lemma NoEntries()
    ensures ReadExecutions([], []) && Distinct(Keys<nat>([])) && Hit<nat>([]) == 0
  {
  }

  lemma EntryAdded(lines: seq<string>, i: nat, e: seq<Entry<nat>>, entry: Entry<nat>)
    requires i < |lines| && ReadExecutions(lines[..i], e) && Distinct(Keys(e))
    requires "DA:" <= lines[i] && ParseExecution(lines[i]) == Some(entry) && entry.key !in Keys(e)
    ensures ReadExecutions(lines[..i + 1], e + [entry]) && Distinct(Keys(e + [entry]))
    ensures Keys(e + [entry]) == Keys(e) + [entry.key]
    ensures Hit(e + [entry]) == Hit(e) + (if entry.executions > 0 then 1 else 0)
  {
    hide ParseExecution;
    MatchingStep(lines, i, "DA:");
    assert Keys(e + [entry]) == Keys(e) + [entry.key];
    assert (e + [entry])[..|e|] == e;
  }

  lemma EntryPassed(lines: seq<string>, i: nat, e: seq<Entry<nat>>)
    requires i < |lines| && ReadExecutions(lines[..i], e) && !("DA:" <= lines[i])
    ensures ReadExecutions(lines[..i + 1], e)
  {
    MatchingStep(lines, i, "DA:");
    assert Matching(lines[..i + 1], "DA:") == Matching(lines[..i], "DA:");
  }

  lemma ExecutionsReadOnce(lines: seq<string>, e: seq<Entry<nat>>, f: seq<Entry<nat>>)
    requires ReadExecutions(lines, e) && ReadExecutions(lines, f)
    ensures e == f
  {
    hide ParseExecution;
  }

  lemma {:induction false} MatchingPrefix(lines: seq<string>, i: nat, prefix: string)
    requires i <= |lines|
    ensures Matching(lines[..i], prefix) <= Matching(lines, prefix)
    decreases |lines| - i
  {
    if i == |lines| {
      assert lines[..i] == lines;
    } else {
      MatchingStep(lines, i, prefix);
      MatchingPrefix(lines, i + 1, prefix);
    }
  }

  lemma UnreadableLine(lines: seq<string>, i: nat)
    requires i < |lines| && "DA:" <= lines[i] && ParseExecution(lines[i]).None?
    ensures forall e :: !ReadExecutions(lines, e)
  {
    hide ParseExecution;
    assert lines[i] in Matching(lines, "DA:");
  }

  lemma RepeatedLine(lines: seq<string>, i: nat, e: seq<Entry<nat>>)
    requires i < |lines| && "DA:" <= lines[i] && ReadExecutions(lines[..i], e)
    requires ParseExecution(lines[i]).Some? && ParseExecution(lines[i]).value.key in Keys(e)
    ensures forall f :: ReadExecutions(lines, f) ==> !Distinct(Keys(f))
  {
    hide ParseExecution;
    MatchingStep(lines, i, "DA:");
    MatchingPrefix(lines, i + 1, "DA:");
    var m := Matching(lines, "DA:");
    var k :| 0 <= k < |e| && Keys(e)[k] == ParseExecution(lines[i]).value.key;
    forall f | ReadExecutions(lines, f) ensures !Distinct(Keys(f)) {
      assert m[|e|] == lines[i] && m[k] == Matching(lines[..i], "DA:")[k];
      assert Keys(f)[k] == Keys(f)[|e|];
    }
  }

  /** branchRecords and the branch summary. */
  method BranchRecords(lines: seq<string>) returns (r: Option<seq<Branch>>)
    ensures r.Some? ==> ReadBranches(lines, r.value) && Distinct(Identities(r.value))
    ensures r.None? ==> forall b :: ReadBranches(lines, b) ==> !Distinct(Identities(b))
  {
    hide ParseBranch;
    var identities: set<(nat, nat, nat)> := {};
    var branches: seq<Branch> := [];
    for i := 0 to |lines|
      invariant ReadBranches(lines[..i], branches) && Distinct(Identities(branches))
      invariant forall n :: n in identities <==> n in Identities(branches)
    {
      var line := lines[i];
      MatchingStep(lines, i, "BRDA:");
      if "BRDA:" <= line {
        var branch := ParseBranch(line);
        if branch.None? {
          assert line in Matching(lines, "BRDA:");
          return None;
        }
        if Identity(branch.value) in identities {
          RepeatedBranch(lines, i, branches);
          return None;
        }
        identities := identities + {Identity(branch.value)};
        assert Identities(branches + [branch.value]) == Identities(branches) + [Identity(branch.value)];
        branches := branches + [branch.value];
      }
    }
    assert lines[..|lines|] == lines;
    r := Some(branches);
  }

  lemma RepeatedBranch(lines: seq<string>, i: nat, b: seq<Branch>)
    requires i < |lines| && "BRDA:" <= lines[i] && ReadBranches(lines[..i], b)
    requires ParseBranch(lines[i]).Some? && Identity(ParseBranch(lines[i]).value) in Identities(b)
    ensures forall f :: ReadBranches(lines, f) ==> !Distinct(Identities(f))
  {
    hide ParseBranch;
    MatchingStep(lines, i, "BRDA:");
    MatchingPrefix(lines, i + 1, "BRDA:");
    var m := Matching(lines, "BRDA:");
    var k :| 0 <= k < |b| && Identities(b)[k] == Identity(ParseBranch(lines[i]).value);
    forall f | ReadBranches(lines, f) ensures !Distinct(Identities(f)) {
      assert m[|b|] == lines[i] && m[k] == Matching(lines[..i], "BRDA:")[k];
      assert Identities(f)[k] == Identities(f)[|b|];
    }
  }

  /** One pass over the lines of a record for its FN and FNDA entries; the maps keep insertion order. */
  method FunctionRecords(lines: seq<string>) returns (r: Option<(seq<string>, seq<Entry<string>>)>)
    ensures r.Some? ==> ReadDefinitions(lines, r.value.0) && ReadCalls(lines, r.value.1) &&
                        Distinct(r.value.0) && Distinct(Keys(r.value.1))
    ensures r.None? ==> forall names, e :: ReadDefinitions(lines, names) && ReadCalls(lines, e) ==>
                          !Distinct(names) || !Distinct(Keys(e))
  {
    hide ParseDefinition, ParseCall, ReadDefinitions, ReadCalls, Distinct;
    var definitions: seq<string>, executions: seq<Entry<string>> := [], [];
    NoFunctions();
    assert lines[..0] == [];
    for i := 0 to |lines|
      invariant ReadDefinitions(lines[..i], definitions) && Distinct(definitions)
      invariant ReadCalls(lines[..i], executions) && Distinct(Keys(executions))
    {
      var line := lines[i];
      if "FN:" <= line {
        var name := ParseDefinition(line);
        if name.None? {
          UnreadableDefinition(lines, i);
          return None;
        }
        if name.value in definitions {
          RepeatedDefinition(lines, i, definitions);
          return None;
        }
        DefinitionAdded(lines, i, definitions, name.value);
        definitions := definitions + [name.value];
      } else {
        DefinitionPassed(lines, i, definitions);
      }
      if "FNDA:" <= line {
        var call := ParseCall(line);
        if call.None? {
          UnreadableCall(lines, i);
          return None;
        }
        if call.value.key in Keys(executions) {
          RepeatedCall(lines, i, executions);
          return None;
        }
        CallAdded(lines, i, executions, call.value);
        executions := executions + [call.value];
      } else {
        CallPassed(lines, i, executions);
      }
    }
    assert lines[..|lines|] == lines;
    r := Some((definitions, executions));
  }

  lemma NoFunctions()
    ensures ReadDefinitions([], []) && ReadCalls([], []) && Distinct<string>([]) && Distinct(Keys<string>([]))
  {
  }

  lemma DefinitionAdded(lines: seq<string>, i: nat, names: seq<string>, name: string)
    requires i < |lines| && ReadDefinitions(lines[..i], names) && Distinct(names)
    requires "FN:" <= lines[i] && ParseDefinition(lines[i]) == Some(name) && name !in names
    ensures ReadDefinitions(lines[..i + 1], names + [name]) && Distinct(names + [name])
  {
    hide ParseDefinition;
    MatchingStep(lines, i, "FN:");
  }

  lemma DefinitionPassed(lines: seq<string>, i: nat, names: seq<string>)
    requires i < |lines| && ReadDefinitions(lines[..i], names) && !("FN:" <= lines[i])
    ensures ReadDefinitions(lines[..i + 1], names)
  {
    hide ParseDefinition;
    MatchingStep(lines, i, "FN:");
    assert Matching(lines[..i + 1], "FN:") == Matching(lines[..i], "FN:");
  }

  lemma CallAdded(lines: seq<string>, i: nat, e: seq<Entry<string>>, entry: Entry<string>)
    requires i < |lines| && ReadCalls(lines[..i], e) && Distinct(Keys(e))
    requires "FNDA:" <= lines[i] && ParseCall(lines[i]) == Some(entry) && entry.key !in Keys(e)
    ensures ReadCalls(lines[..i + 1], e + [entry]) && Distinct(Keys(e + [entry]))
  {
    hide ParseCall;
    MatchingStep(lines, i, "FNDA:");
    assert Keys(e + [entry]) == Keys(e) + [entry.key];
  }

  lemma CallPassed(lines: seq<string>, i: nat, e: seq<Entry<string>>)
    requires i < |lines| && ReadCalls(lines[..i], e) && !("FNDA:" <= lines[i])
    ensures ReadCalls(lines[..i + 1], e)
  {
    hide ParseCall;
    MatchingStep(lines, i, "FNDA:");
    assert Matching(lines[..i + 1], "FNDA:") == Matching(lines[..i], "FNDA:");
  }

  lemma UnreadableDefinition(lines: seq<string>, i: nat)
    requires i < |lines| && "FN:" <= lines[i] && ParseDefinition(lines[i]).None?
    ensures forall names :: !ReadDefinitions(lines, names)
  {
    hide ParseDefinition;
    assert lines[i] in Matching(lines, "FN:");
  }

  lemma UnreadableCall(lines: seq<string>, i: nat)
    requires i < |lines| && "FNDA:" <= lines[i] && ParseCall(lines[i]).None?
    ensures forall e :: !ReadCalls(lines, e)
  {
    hide ParseCall;
    assert lines[i] in Matching(lines, "FNDA:");
  }

  lemma RepeatedDefinition(lines: seq<string>, i: nat, names: seq<string>)
    requires i < |lines| && "FN:" <= lines[i] && ReadDefinitions(lines[..i], names)
    requires ParseDefinition(lines[i]).Some? && ParseDefinition(lines[i]).value in names
    ensures forall f :: ReadDefinitions(lines, f) ==> !Distinct(f)
  {
    hide ParseDefinition;
    MatchingStep(lines, i, "FN:");
    MatchingPrefix(lines, i + 1, "FN:");
    var m := Matching(lines, "FN:");
    var k :| 0 <= k < |names| && names[k] == ParseDefinition(lines[i]).value;
    forall f | ReadDefinitions(lines, f) ensures !Distinct(f) {
      assert m[|names|] == lines[i] && m[k] == Matching(lines[..i], "FN:")[k];
      assert f[k] == f[|names|];
    }
  }

  lemma RepeatedCall(lines: seq<string>, i: nat, e: seq<Entry<string>>)
    requires i < |lines| && "FNDA:" <= lines[i] && ReadCalls(lines[..i], e)
    requires ParseCall(lines[i]).Some? && ParseCall(lines[i]).value.key in Keys(e)
    ensures forall f :: ReadCalls(lines, f) ==> !Distinct(Keys(f))
  {
    hide ParseCall;
    MatchingStep(lines, i, "FNDA:");
    MatchingPrefix(lines, i + 1, "FNDA:");
    var m := Matching(lines, "FNDA:");
    var k :| 0 <= k < |e| && Keys(e)[k] == ParseCall(lines[i]).value.key;
    forall f | ReadCalls(lines, f) ensures !Distinct(Keys(f)) {
      assert m[|e|] == lines[i] && m[k] == Matching(lines[..i], "FNDA:")[k];
      assert Keys(f)[k] == Keys(f)[|e|];
    }
  }

  /** validateFunctionRecords. */
  method ValidateFunctionRecords(lines: seq<string>, expectedTotal: nat, expectedCovered: nat) returns (ok: bool)
    ensures ok <==> FunctionsConsistent(lines, expectedTotal, expectedCovered)
  {
    hide ReadDefinitions, ReadCalls, Hit;
    var read := FunctionRecords(lines);
    if read.None? { return false; }
    var definitions, executions := read.value.0, read.value.1;
    ok := |definitions| == expectedTotal && |executions| == expectedTotal &&
          (forall n :: n in definitions ==> n in Keys(executions)) &&
          (forall n :: n in Keys(executions) ==> n in definitions) && Hit(executions) == expectedCovered;
    if FunctionsConsistent(lines, expectedTotal, expectedCovered) {
      var names, e :| ReadDefinitions(lines, names) && ReadCalls(lines, e) && Distinct(names) && Distinct(Keys(e)) &&
        |names| == expectedTotal && |e| == expectedTotal && (forall n :: n in names <==> n in Keys(e)) && Hit(e) == expectedCovered;
      ReadOnce(lines, names, definitions, e, executions);
    }
  }

  lemma ReadOnce(lines: seq<string>, names: seq<string>, otherNames: seq<string>, e: seq<Entry<string>>, f: seq<Entry<string>>)
    requires ReadDefinitions(lines, names) && ReadDefinitions(lines, otherNames) && ReadCalls(lines, e) && ReadCalls(lines, f)
    ensures names == otherNames && e == f
  {
    hide ParseDefinition, ParseCall;
  }
}
