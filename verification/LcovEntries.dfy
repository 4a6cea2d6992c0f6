/**
 What the entries of an accepted record say, told from the text of their lines: which branches were not taken,
 and how many lines, functions and branches were reached.
 */
module LcovEntries {
  import opened Common
  import opened Text
  import opened Decimal
  import opened LcovText
  import opened LcovRecord

  /** The lines of a record with a property, in their order. */
  ghost function Only(lines: Record, p: string -> bool): (r: Record)
    ensures forall line :: line in r <==> line in lines && p(line)
  {
    if lines == [] then []
    else
      var front, last := Only(lines[..|lines| - 1], p), lines[|lines| - 1];
      assert lines == lines[..|lines| - 1] + [last];
      if p(last) then front + [last] else front
  }

  predicate Ends(s: string, suffix: string) {
    |suffix| <= |s| && s[|s| - |suffix|..] == suffix
  }

  /** A BRDA line of a branch that was not taken: its last field is a dash or zero. */
  predicate UntakenLine(line: string) {
    "BRDA:" <= line && (Ends(line, ",-") || Ends(line, ",0"))
  }

  /** The last field of the line is a positive numeral. */
  ghost predicate EndsPositive(line: string) {
    exists p: string, n: nat :: n >= 1 && line == p + ("," + Numeral(n))
  }

  ghost predicate TakenLine(line: string) {
    "BRDA:" <= line && EndsPositive(line)
  }

  ghost predicate ReachedLine(line: string) {
    "DA:" <= line && EndsPositive(line)
  }

  /** A FNDA line of a function that was called. */
  ghost predicate CalledLine(line: string) {
    exists n: nat, name: string :: n >= 1 && line == "FNDA:" + (Numeral(n) + "," + name)
  }

  // ------------------------------------------------------------ single lines

  lemma NumeralDigits(n: nat)
    ensures Numeral(n) != [] && forall i :: 0 <= i < |Numeral(n)| ==> Digit(Numeral(n)[i])
    ensures Numeral(n) == "0" <==> n == 0
    ensures n < 10 ==> |Numeral(n)| == 1
    ensures n >= 10 ==> |Numeral(n)| >= 2
  {
    if n > 0 { NumeralValue(n); }
    NumeralValue(0);
  }

  /** Digits at the end of a text, and the comma before them. */
  lemma LastDigits(p: string, t: string)
    requires Digits(t)
    ensures var line := p + ("," + t);
            line[|line| - |t| - 1] == ',' && line[|line| - |t|..] == t && forall k :: |line| - |t| <= k < |line| ==> Digit(line[k])
  {
  }

  lemma LastNumberOne(p: string, n: nat, q: string, m: nat)
    requires p + ("," + Numeral(n)) == q + ("," + Numeral(m))
    ensures n == m
  {
    LastDigits(p, Numeral(n));
    LastDigits(q, Numeral(m));
    assert !Digit(',');
    assert |Numeral(n)| == |Numeral(m)|;
    NumeralValue(n);
    NumeralValue(m);
  }

  /** Digits at the start of a text, and the comma after them. */
  lemma FirstDigits(t: string, name: string)
    requires Digits(t)
    ensures var rest := t + "," + name;
            rest[|t|] == ',' && rest[..|t|] == t && forall k :: 0 <= k < |t| ==> Digit(rest[k])
  {
  }

  /** A text that ends in a comma and a numeral. */
  lemma EndOfNumber(p: string, n: nat)
    ensures var line := p + ("," + Numeral(n));
            (Ends(line, ",0") <==> n == 0) && !Ends(line, ",-") && (EndsPositive(line) <==> n >= 1)
  {
    NumeralDigits(n);
    var t := Numeral(n);
    var line := p + ("," + t);
    assert line[|line| - 1] == t[|t| - 1];
    if |t| >= 2 {
      assert line[|line| - 2] == t[|t| - 2];
    } else {
      assert line[|line| - 2..] == "," + t;
    }
    forall q: string, m: nat | m >= 1 && line == q + ("," + Numeral(m)) ensures n == m { LastNumberOne(p, n, q, m); }
  }

  lemma EndOfDash(p: string)
    ensures Ends(p + ",-", ",-") && !Ends(p + ",-", ",0") && !EndsPositive(p + ",-")
  {
    var line := p + ",-";
    assert line[|line| - 2..] == ",-" && line[|line| - 1] == '-';
    forall q: string, m: nat ensures line != q + ("," + Numeral(m)) {
      NumeralDigits(m);
      var other := q + ("," + Numeral(m));
      assert Digit(other[|other| - 1]);
    }
  }

  /** A readable BRDA line is that of an untaken branch, or ends in a positive numeral. */
  lemma BranchLine(line: string, b: Branch)
    requires "BRDA:" <= line && ParseBranch(line) == Some(b)
    ensures line == PrintBranch(b)
    ensures UntakenLine(line) <==> b.taken == None || b.taken == Some(0)
    ensures TakenLine(line) <==> !UntakenLine(line)
  {
    hide ParseBranch, Numeral, EndsPositive, Ends;
    BranchReadsPrinted(line, b);
    var p := "BRDA:" + (Numeral(b.line) + ("," + (Numeral(b.block) + ("," + Numeral(b.branch)))));
    JoinFour(Numeral(b.line), Numeral(b.block), Numeral(b.branch), PrintTaken(b.taken));
    assert line == p + ("," + PrintTaken(b.taken));
    if b.taken.Some? {
      EndOfNumber(p, b.taken.value);
    } else {
      assert "," + "-" == ",-";
      EndOfDash(p);
    }
  }

  lemma JoinFour(a: string, b: string, c: string, d: string)
    ensures Join([a, b, c, d], ',') == a + ("," + (b + ("," + (c + ("," + d)))))
  {
    assert [a, b, c, d][1..] == [b, c, d] && [b, c, d][1..] == [c, d] && [c, d][1..] == [d];
    assert Join([c, d], ',') == c + [','] + d;
    assert Join([b, c, d], ',') == b + [','] + Join([c, d], ',');
    assert Join([a, b, c, d], ',') == a + [','] + Join([b, c, d], ',');
  }

  /** A readable DA line ends in the count of its executions. */
  lemma ExecutionLine(line: string, e: Entry<nat>)
    requires "DA:" <= line && ParseExecution(line) == Some(e)
    ensures ReachedLine(line) <==> e.executions >= 1
  {
    hide ParseExecution, Numeral, EndsPositive, Ends;
    ExecutionReadsPrinted(line, e);
    var p := "DA:" + Numeral(e.key);
    assert [Numeral(e.key), Numeral(e.executions)][1..] == [Numeral(e.executions)];
    assert Join([Numeral(e.key), Numeral(e.executions)], ',') == Numeral(e.key) + [','] + Numeral(e.executions);
    assert line == p + ("," + Numeral(e.executions));
    EndOfNumber(p, e.executions);
  }

  /** A readable FNDA line starts with the count of the calls. */
  lemma CallLine(line: string, e: Entry<string>)
    requires "FNDA:" <= line && ParseCall(line) == Some(e)
    ensures CalledLine(line) <==> e.executions >= 1
  {
    hide ParseCall, Numeral;
    CallReadsPrinted(line, e);
    forall n: nat, name: string | line == "FNDA:" + (Numeral(n) + "," + name) ensures n == e.executions {
      FirstNumberOne(n, name, e);
    }
  }

  lemma FirstNumberOne(n: nat, name: string, e: Entry<string>)
    requires "FNDA:" + (Numeral(n) + "," + name) == PrintCall(e)
    ensures n == e.executions
  {
    hide Numeral;
    var line := PrintCall(e);
    assert line[5..] == Numeral(n) + "," + name && line[5..] == Numeral(e.executions) + "," + e.key;
    FirstDigits(Numeral(n), name);
    FirstDigits(Numeral(e.executions), e.key);
    assert !Digit(',');
    assert |Numeral(n)| == |Numeral(e.executions)|;
    NumeralValue(n);
    NumeralValue(e.executions);
  }

  // ------------------------------------------------------------ whole records

  /** Untaken branches are listed in the order of their lines, and the others counted. */
  lemma {:induction false} BranchesTold(lines: Record, b: seq<Branch>)
    requires ReadBranches(lines, b)
    ensures var m := Only(lines, UntakenLine); var u := Untaken(b);
            |m| == |u| && forall k :: 0 <= k < |m| ==> m[k] == PrintBranch(u[k])
    ensures TakenCount(b) == |Only(lines, line => TakenLine(line))|
  {
    hide ParseBranch, PrintBranch, UntakenLine, TakenLine;
    if lines != [] {
      var front, last := lines[..|lines| - 1], lines[|lines| - 1];
      MatchingStep(lines, |lines| - 1, "BRDA:");
      assert lines[..|lines| - 1 + 1] == lines;
      if "BRDA:" <= last {
        assert b[..|b| - 1] + [b[|b| - 1]] == b;
        BranchesTold(front, b[..|b| - 1]);
        BranchLine(last, b[|b| - 1]);
      } else {
        BranchesTold(front, b);
        OtherLine(last);
      }
    }
  }

  lemma OtherLine(line: string)
    requires !("BRDA:" <= line)
    ensures !UntakenLine(line) && !TakenLine(line)
  {
  }

  /** The executed entries of readable DA lines are those whose lines end in a positive numeral. */
  lemma {:induction false} ExecutionsTold(lines: Record, e: seq<Entry<nat>>)
    requires ReadExecutions(lines, e)
    ensures Hit(e) == |Only(lines, line => ReachedLine(line))|
  {
    hide ParseExecution, ReachedLine;
    if lines != [] {
      var front, last := lines[..|lines| - 1], lines[|lines| - 1];
      MatchingStep(lines, |lines| - 1, "DA:");
      assert lines[..|lines| - 1 + 1] == lines;
      if "DA:" <= last {
        ExecutionsTold(front, e[..|e| - 1]);
        ExecutionLine(last, e[|e| - 1]);
      } else {
        ExecutionsTold(front, e);
        NoExecutionLine(last);
      }
    }
  }

  lemma NoExecutionLine(line: string)
    requires !("DA:" <= line)
    ensures !ReachedLine(line)
  {
  }

  /** The called functions of readable FNDA lines are those whose lines start with a positive numeral. */
  lemma {:induction false} CallsTold(lines: Record, e: seq<Entry<string>>)
    requires ReadCalls(lines, e)
    ensures Hit(e) == |Only(lines, line => CalledLine(line))|
  {
    hide ParseCall, CalledLine;
    if lines != [] {
      var front, last := lines[..|lines| - 1], lines[|lines| - 1];
      MatchingStep(lines, |lines| - 1, "FNDA:");
      assert lines[..|lines| - 1 + 1] == lines;
      if "FNDA:" <= last {
        CallsTold(front, e[..|e| - 1]);
        CallLine(last, e[|e| - 1]);
      } else {
        CallsTold(front, e);
        NoCallLine(last);
      }
    }
  }

  lemma NoCallLine(line: string)
    requires !("FNDA:" <= line)
    ensures !CalledLine(line)
  {
    forall n: nat, name: string ensures "FNDA:" <= "FNDA:" + (Numeral(n) + "," + name) {}
  }

  lemma LinesCounted(lines: Record, total: nat, covered: nat)
    requires LinesConsistent(lines, total, covered)
    ensures covered == |Only(lines, line => ReachedLine(line))|
  {
    hide ReadExecutions, Distinct, Hit, ReachedLine, Only;
    var e :| ReadExecutions(lines, e) && Distinct(Keys(e)) && |e| == total && Hit(e) == covered;
    ExecutionsTold(lines, e);
  }

  lemma FunctionsCounted(lines: Record, total: nat, covered: nat)
    requires FunctionsConsistent(lines, total, covered)
    ensures covered == |Only(lines, line => CalledLine(line))|
  {
    hide ReadDefinitions, ReadCalls, Distinct, Hit, CalledLine, Only;
    var names, e :| ReadDefinitions(lines, names) && ReadCalls(lines, e) && Distinct(names) && Distinct(Keys(e)) &&
      |names| == total && |e| == total && (forall n :: n in names <==> n in Keys(e)) && Hit(e) == covered;
    CallsTold(lines, e);
  }

  lemma BranchesCounted(lines: Record, b: seq<Branch>, total: nat, covered: nat)
    requires BranchesConsistent(lines, b, total, covered)
    ensures covered == |Only(lines, line => TakenLine(line))|
    ensures var m := Only(lines, UntakenLine); var u := Untaken(b);
            |m| == |u| && forall k :: 0 <= k < |m| ==> m[k] == PrintBranch(u[k])
  {
    hide ReadBranches, Distinct, TakenCount, Untaken, UntakenLine, TakenLine, Only, PrintBranch;
    BranchesTold(lines, b);
  }
}
