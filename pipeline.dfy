/** `main`'s sequence once the sheet's rows have been read: parse the rows, run the
    validator and collect its messages through the channel, compute the
    component and branch statistics, and rank. `Run` gives the channel the
    capacity `main` gives it and so can deadlock; `RunCorrected` gives it two
    slots per record and always reports. */
module Pipeline {
  import opened Gradesheet
  import Parser
  import Validator
  import Aggregator
  import Ranker

  /** Everything `main` prints, as values. */
  datatype Report = Report(
    students: seq<Student>,
    warnings: seq<Parser.Warning>,
    mismatches: seq<Validator.Mismatch>,
    componentSums: map<string, real>,
    componentAverages: map<string, real>,
    branchTotals: map<string, real>,
    branchCounts: map<string, nat>,
    branchAverages: map<string, real>,
    top: seq<Student>,
    branchTop: map<string, seq<Student>>)

  /** `r` reports on the records `parsed`: their messages in order, their
      component sums and averages, the branch totals, counts and averages of
      their Totals, the records with their Totals in sorted order, and top-3
      reports of all of them and of each branch. */
  predicate Reports(r: Report, parsed: seq<Student>) {
    && r.mismatches == Validator.Mismatches(parsed)
    && r.componentSums.Keys == Aggregator.KeysOf(parsed)
    && (forall k :: k in r.componentSums ==> r.componentSums[k] == Aggregator.ComponentSum(parsed, k))
    && r.componentAverages.Keys == r.componentSums.Keys
    && (forall k :: k in r.componentAverages ==>
          |parsed| > 0 && r.componentAverages[k] == Aggregator.ComponentSum(parsed, k) / (|parsed| as real))
    && r.branchTotals.Keys == BranchSet(parsed) && r.branchCounts.Keys == BranchSet(parsed)
    && (forall b :: b in r.branchTotals ==> r.branchTotals[b] == Aggregator.BranchSum(WithTotals(parsed), b))
    && (forall b :: b in r.branchCounts ==> r.branchCounts[b] == |InBranch(parsed, b)| && r.branchCounts[b] >= 1)
    && r.branchAverages.Keys == BranchSet(parsed)
    && (forall b :: b in r.branchAverages ==> r.branchAverages[b] == r.branchTotals[b] / (r.branchCounts[b] as real))
    && multiset(r.students) == multiset(WithTotals(parsed))
    && Ranker.SortedByTotal(r.students)
    && Ranker.IsTopK(r.top, multiset(WithTotals(parsed)), Ranker.TopCount)
    && r.branchTop.Keys == BranchSet(parsed)
    && (forall b :: b in r.branchTop ==>
          Ranker.IsTopK(r.branchTop[b], multiset(InBranch(WithTotals(parsed), b)), Ranker.TopCount))
  }

  /** Everything `main` does after the messages have been drained. */
  method Summarise(students: seq<Student>, warnings: seq<Parser.Warning>, mismatches: seq<Validator.Mismatch>)
    returns (r: Report)
    requires mismatches == Validator.Mismatches(students)
    ensures r.warnings == warnings && Reports(r, students)
  {
    var sums, averages := Aggregator.CalculateAverages(students);
    var a := new Student[|students|](i requires 0 <= i < |students| => students[i]);
    assert a[..] == students;
    var totals, counts, branchAverages := Aggregator.CalculateBranchAverages(a);
    BranchesOfWithTotals(students, "");
    forall b | b in counts ensures counts[b] == |InBranch(students, b)| {
      BranchesOfWithTotals(students, b);
    }
    ghost var withTotals := a[..];
    assert withTotals == WithTotals(students);
    assert forall b :: b in totals ==> totals[b] == Aggregator.BranchSum(withTotals, b);
    WithTotalsIdempotent(students);
    var top, branchTop := Ranker.RankStudents(a);
    r := Report(a[..], warnings, mismatches, sums, averages, totals, counts, branchAverages, top, branchTop);
  }

  /** `main` once the sheet's rows have been read, with one channel slot per
      record. The row loop's warnings are printed in any case, before the
      validator runs. The run then deadlocks (None) exactly when more parsed
      records fail both checks than pass both; otherwise it reports on the
      parsed records. */
  method Run(rows: seq<Parser.Row>, parse: Parser.ParseFloat)
    returns (warnings: seq<Parser.Warning>, r: Option<Report>)
    ensures warnings == Parser.Warnings(rows, parse, |rows|)
    ensures var parsed := Parser.Parsed(rows, parse, |rows|);
      && (r == None <==> Validator.CountFailsBoth(parsed) > Validator.CountFailsNeither(parsed))
      && (r.Some? ==> r.value.warnings == Parser.Warnings(rows, parse, |rows|) && Reports(r.value, parsed))
  {
    var students;
    students, warnings := Parser.ParseRows(rows, parse);
    var msgs := Validator.ValidateData(students);
    Validator.AsWrittenDeadlocksIff(students);
    var delivered := Validator.Collect(msgs, Validator.AsWrittenCapacity(students));
    if delivered == None {
      return warnings, None;
    }
    var report := Summarise(students, warnings, delivered.value);
    r := Some(report);
  }

  /** `main` with two channel slots per record: it always reports on the
      parsed records, every message delivered. */
  method RunCorrected(rows: seq<Parser.Row>, parse: Parser.ParseFloat) returns (r: Report)
    ensures var parsed := Parser.Parsed(rows, parse, |rows|);
      r.warnings == Parser.Warnings(rows, parse, |rows|) && Reports(r, parsed)
  {
    var students, warnings := Parser.ParseRows(rows, parse);
    var msgs := Validator.ValidateData(students);
    Validator.CorrectedNeverBlocks(students);
    var mismatches := Validator.Collect(msgs, Validator.CorrectedCapacity(students)).value;
    r := Summarise(students, warnings, mismatches);
  }

  /** Two data rows under a header; B's Pre-Compre is 41 where its four
      base components add up to 40. */
  const RowA: Parser.Row := ["1", "Student A", "A1", "2019XXAB01", "10", "10", "10", "10", "40", "30", "70"]
  const RowB: Parser.Row := ["2", "Student B", "B1", "2019XXAB02", "10", "10", "10", "10", "41", "30", "70"]
  const ScenarioRows: seq<Parser.Row> := [[], RowA, RowB]

  /** The numbers the scenario's cells hold. */
  predicate ReadsScenarioCells(parse: Parser.ParseFloat) {
    parse("10") == Some(10.0) && parse("30") == Some(30.0) &&
    parse("40") == Some(40.0) && parse("41") == Some(41.0) && parse("70") == Some(70.0)
  }

  /** The header is skipped and both data rows are accepted, in order. */
  lemma ScenarioParsed(parse: Parser.ParseFloat)
    ensures |RowA| == 11 && |RowA[3]| == 10 && |RowB| == 11 && |RowB[3]| == 10
    ensures Parser.Parsed(ScenarioRows, parse, 3) == [Parser.StudentOf(RowA, parse), Parser.StudentOf(RowB, parse)]
  {
    assert Parser.Parsed(ScenarioRows, parse, 1) == [];
    assert Parser.Parsed(ScenarioRows, parse, 2) == [Parser.StudentOf(RowA, parse)];
  }

  /** A scenario record's Quiz, Mid-Sem, Lab Test and Weekly Labs are 10 and
      its Compre 30; its Pre-Compre and final total come from cells 8 and 10. */
  lemma ScenarioMarks(row: Parser.Row, parse: Parser.ParseFloat)
    requires ReadsScenarioCells(parse)
    requires |row| == 11 && |row[3]| >= 6
    requires row[4] == "10" && row[5] == "10" && row[6] == "10" && row[7] == "10" && row[9] == "30"
    ensures var s := Parser.StudentOf(row, parse);
      && MarkOf(s, Quiz) == 10.0 && MarkOf(s, MidSem) == 10.0 && MarkOf(s, LabTest) == 10.0
      && MarkOf(s, WeeklyLabs) == 10.0 && MarkOf(s, Compre) == 30.0
      && MarkOf(s, PreCompre) == Parser.ParseMark(parse, row[8])
      && FinalTotal in s.marks && s.marks[FinalTotal] == Parser.ParseMark(parse, row[10])
      && s.empID == row[2]
  {
    Parser.RowMarksShape(row, parse);
    assert Components[0] == Quiz && Components[1] == MidSem && Components[2] == LabTest;
    assert Components[3] == WeeklyLabs && Components[4] == PreCompre && Components[5] == Compre;
  }

  /** With the two rows, B fails both checks (40 != 41, and 41 + 30 != 70),
      A fails neither; the Quiz average is 10 and both Totals are 70. */
  lemma Scenario(parse: Parser.ParseFloat)
    requires ReadsScenarioCells(parse)
    ensures var ss := Parser.Parsed(ScenarioRows, parse, 3);
      && |ss| == 2
      && Validator.Mismatches(ss) == [Validator.PreCompreMismatch("B1"), Validator.FinalTotalMismatch("B1", 71.0, 70.0)]
      && Aggregator.ComponentSum(ss, Quiz) / (|ss| as real) == 10.0
      && WithTotals(ss)[0].total == 70.0 && WithTotals(ss)[1].total == 70.0
  {
    ScenarioParsed(parse);
    var a, b := Parser.StudentOf(RowA, parse), Parser.StudentOf(RowB, parse);
    ScenarioMarks(RowA, parse);
    ScenarioMarks(RowB, parse);
    var ss := [a, b];
    assert Validator.StudentMismatches(a) == [];
    assert Validator.StudentMismatches(b) == [Validator.PreCompreMismatch("B1"), Validator.FinalTotalMismatch("B1", 71.0, 70.0)];
    assert ss[..1] == [a] && [a][..0] == [];
    assert Validator.Mismatches(ss) == Validator.Mismatches([a]) + Validator.StudentMismatches(b);
    assert Aggregator.ComponentSum(ss, Quiz) == Aggregator.ComponentSum([a], Quiz) + 10.0;
  }
}
