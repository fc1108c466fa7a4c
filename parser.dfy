/** The row loop of `parseExcel`: turns the sheet's rows, already in memory,
    into student records. */
module Parser {
  import opened Gradesheet

  type Row = seq<string>

  /** `strconv.ParseFloat(cell, 64)`: Some(value) on success, None on error. */
  type ParseFloat = string -> Option<real>

  const MinCells := 11
  const MinCampusIDLength := 6
  const EmpIDColumn := 2
  const CampusIDColumn := 3
  const FirstMarkColumn := 4
  const FinalTotalColumn := 10

  /** The warning printed for a dropped row: its 1-based row number and the
      offending CampusID. */
  datatype Warning = InvalidCampusID(rowNumber: nat, campusID: string)

  /** What the loop body does with row `i`. */
  datatype RowOutcome = Skipped | Dropped(warning: Warning) | Accepted(student: Student)

  /** The parse error is discarded: an unparsable cell reads as Go's zero value. */
  function ParseMark(parse: ParseFloat, cell: string): real {
    match parse(cell)
    case Some(v) => v
    case None => 0.0
  }

  /** The marks map after the first `n` iterations of the components loop. */
  function ComponentMarks(row: Row, parse: ParseFloat, n: nat): Marks
    requires n <= |Components| && |row| >= MinCells
  {
    if n == 0 then map[]
    else ComponentMarks(row, parse, n - 1)[Components[n - 1] := ParseMark(parse, row[n - 1 + FirstMarkColumn])]
  }

  /** The complete marks map of a row: the six components and the final total. */
  function RowMarks(row: Row, parse: ParseFloat): Marks
    requires |row| >= MinCells
  {
    ComponentMarks(row, parse, |Components|)[FinalTotal := ParseMark(parse, row[FinalTotalColumn])]
  }

  const MarkKeys: set<string> := {Quiz, MidSem, LabTest, WeeklyLabs, PreCompre, Compre, FinalTotal}

  /** Every record holds exactly the six component keys plus "Final Total";
      component j comes from cell j+4 and the final total from cell 10. */
  lemma RowMarksShape(row: Row, parse: ParseFloat)
    requires |row| >= MinCells
    ensures RowMarks(row, parse).Keys == MarkKeys
    ensures forall j :: 0 <= j < |Components| ==>
      RowMarks(row, parse)[Components[j]] == ParseMark(parse, row[j + FirstMarkColumn])
    ensures RowMarks(row, parse)[FinalTotal] == ParseMark(parse, row[FinalTotalColumn])
  {
    var m := ComponentMarks(row, parse, |Components|);
    assert m == map[Quiz := ParseMark(parse, row[4]), MidSem := ParseMark(parse, row[5]),
                    LabTest := ParseMark(parse, row[6]), WeeklyLabs := ParseMark(parse, row[7]),
                    PreCompre := ParseMark(parse, row[8]), Compre := ParseMark(parse, row[9])]
    by {
      assert ComponentMarks(row, parse, 1) == map[Quiz := ParseMark(parse, row[4])];
      assert ComponentMarks(row, parse, 2) == ComponentMarks(row, parse, 1)[MidSem := ParseMark(parse, row[5])];
      assert ComponentMarks(row, parse, 3) == ComponentMarks(row, parse, 2)[LabTest := ParseMark(parse, row[6])];
      assert ComponentMarks(row, parse, 4) == ComponentMarks(row, parse, 3)[WeeklyLabs := ParseMark(parse, row[7])];
      assert ComponentMarks(row, parse, 5) == ComponentMarks(row, parse, 4)[PreCompre := ParseMark(parse, row[8])];
    }
  }

  /** Row `i` yields a record when it is not the header, has at least 11 cells
      and its CampusID has at least 6 characters. */
  predicate Acceptable(i: nat, row: Row) {
    i != 0 && |row| >= MinCells && |row[CampusIDColumn]| >= MinCampusIDLength
  }

  /** The record built from an accepted row. */
  function StudentOf(row: Row, parse: ParseFloat): Student
    requires |row| >= MinCells && |row[CampusIDColumn]| >= MinCampusIDLength
  {
    Student(row[EmpIDColumn], row[CampusIDColumn][4..6], RowMarks(row, parse), 0.0)
  }

  /** One iteration of the row loop. */
  function Classify(i: nat, row: Row, parse: ParseFloat): RowOutcome {
    if i == 0 || |row| < MinCells then Skipped
    else if |row[CampusIDColumn]| < MinCampusIDLength then Dropped(InvalidCampusID(i + 1, row[CampusIDColumn]))
    else Accepted(StudentOf(row, parse))
  }

  /** The records produced by the first `n` rows. */
  function Parsed(rows: seq<Row>, parse: ParseFloat, n: nat): seq<Student>
    requires n <= |rows|
  {
    if n == 0 then []
    else
      Parsed(rows, parse, n - 1) +
        match Classify(n - 1, rows[n - 1], parse)
        case Accepted(s) => [s]
        case _ => []
  }

  /** The warnings printed for the first `n` rows. */
  function Warnings(rows: seq<Row>, parse: ParseFloat, n: nat): seq<Warning>
    requires n <= |rows|
  {
    if n == 0 then []
    else
      Warnings(rows, parse, n - 1) +
        match Classify(n - 1, rows[n - 1], parse)
        case Dropped(w) => [w]
        case _ => []
  }

  /** The indices of the accepted rows among the first `n`, in increasing order. */
  function AcceptedRows(rows: seq<Row>, n: nat): (idx: seq<nat>)
    requires n <= |rows|
    ensures forall k :: 0 <= k < |idx| ==> idx[k] < n && Acceptable(idx[k], rows[idx[k]])
    ensures forall k, l :: 0 <= k < l < |idx| ==> idx[k] < idx[l]
    ensures forall i :: 0 <= i < n && Acceptable(i, rows[i]) ==> i in idx
  {
    if n == 0 then []
    else AcceptedRows(rows, n - 1) + (if Acceptable(n - 1, rows[n - 1]) then [n - 1] else [])
  }

  /** The parser is a filter that keeps input order: the k-th record is built
      from the k-th accepted row, and the accepted rows are exactly those that
      are not the header, have at least 11 cells and a CampusID of length >= 6. */
  lemma {:induction false} ParsedIsFilter(rows: seq<Row>, parse: ParseFloat, n: nat)
    requires n <= |rows|
    ensures var p, idx := Parsed(rows, parse, n), AcceptedRows(rows, n);
      |p| == |idx| &&
      forall k :: 0 <= k < |p| ==> p[k] == StudentOf(rows[idx[k]], parse)
  {
    if n > 0 {
      ParsedIsFilter(rows, parse, n - 1);
    }
  }

  lemma StudentOfFields(row: Row, parse: ParseFloat)
    requires |row| >= MinCells && |row[CampusIDColumn]| >= MinCampusIDLength
    ensures |StudentOf(row, parse).branch| == 2
    ensures StudentOf(row, parse).marks.Keys == MarkKeys
  {
    RowMarksShape(row, parse);
  }

  /** Record `s` is what an accepted row `i` yields. */
  predicate BuiltFromRow(s: Student, rows: seq<Row>, parse: ParseFloat, i: nat) {
    0 < i < |rows| && Acceptable(i, rows[i]) &&
    s.empID == rows[i][EmpIDColumn] && s.branch == rows[i][CampusIDColumn][4..6] &&
    s.marks == RowMarks(rows[i], parse) && s.total == 0.0
  }

  /** Every record comes from an accepted row: its EmpID is cell 2, its branch
      code is CampusID[4:6] and so has 2 characters, it holds the full set of
      mark keys, and its Total is still 0. */
  lemma ParsedFields(rows: seq<Row>, parse: ParseFloat)
    ensures forall s :: s in Parsed(rows, parse, |rows|) ==>
      |s.branch| == 2 && s.marks.Keys == MarkKeys &&
      exists i :: BuiltFromRow(s, rows, parse, i)
  {
    var p, idx := Parsed(rows, parse, |rows|), AcceptedRows(rows, |rows|);
    ParsedIsFilter(rows, parse, |rows|);
    forall s | s in p
      ensures |s.branch| == 2 && s.marks.Keys == MarkKeys && exists i :: BuiltFromRow(s, rows, parse, i)
    {
      var k :| 0 <= k < |p| && p[k] == s;
      var i := idx[k];
      StudentOfFields(rows[i], parse);
      assert BuiltFromRow(s, rows, parse, i);
    }
  }

  /** A row whose CampusID is shorter than 6 characters never yields a record,
      and such a row (when it is not the header and has 11 cells) is reported
      with its 1-based row number. */
  lemma {:induction false} ShortCampusIDDropped(rows: seq<Row>, parse: ParseFloat, n: nat, i: nat)
    requires n <= |rows| && i < n && |rows[i]| >= MinCells && |rows[i][CampusIDColumn]| < MinCampusIDLength
    ensures i !in AcceptedRows(rows, n)
    ensures i != 0 ==> InvalidCampusID(i + 1, rows[i][CampusIDColumn]) in Warnings(rows, parse, n)
  {
    if i < n - 1 {
      ShortCampusIDDropped(rows, parse, n - 1, i);
    }
  }

  /** There are at most |rows|-1 records and warnings together: the header
      never contributes, and each row contributes at most one of the two. */
  lemma {:induction false} ParsedCount(rows: seq<Row>, parse: ParseFloat, n: nat)
    requires 0 < n <= |rows|
    ensures |Parsed(rows, parse, n)| + |Warnings(rows, parse, n)| <= n - 1
  {
    if n > 1 {
      ParsedCount(rows, parse, n - 1);
    }
  }

  /** The components loop of `parseExcel`. */
  method ReadMarks(row: Row, parse: ParseFloat) returns (marks: Marks)
    requires |row| >= MinCells
    ensures marks == RowMarks(row, parse)
    ensures marks.Keys == MarkKeys
  {
    marks := map[];
    for j := 0 to |Components|
      invariant marks == ComponentMarks(row, parse, j)
    {
      var mark := ParseMark(parse, row[j + FirstMarkColumn]);
      marks := marks[Components[j] := mark];
    }
    var finalTotal := ParseMark(parse, row[FinalTotalColumn]);
    marks := marks[FinalTotal := finalTotal];
    RowMarksShape(row, parse);
  }

  /** The row loop of `parseExcel`: the records in input order and the
      warnings printed for rows with a malformed CampusID. */
  method ParseRows(rows: seq<Row>, parse: ParseFloat) returns (students: seq<Student>, warnings: seq<Warning>)
    ensures students == Parsed(rows, parse, |rows|)
    ensures warnings == Warnings(rows, parse, |rows|)
    ensures |rows| > 0 ==> |students| + |warnings| <= |rows| - 1
    ensures forall s :: s in students ==> |s.branch| == 2 && s.marks.Keys == MarkKeys
  {
    students, warnings := [], [];
    for i := 0 to |rows|
      invariant students == Parsed(rows, parse, i)
      invariant warnings == Warnings(rows, parse, i)
    {
      var row := rows[i];
      if i == 0 || |row| < MinCells {
        continue;
      }
      var empID := row[EmpIDColumn];
      var campusID := row[CampusIDColumn];
      if |campusID| < MinCampusIDLength {
        warnings := warnings + [InvalidCampusID(i + 1, campusID)];
        continue;
      }
      var branch := campusID[4..6];
      var marks := ReadMarks(row, parse);
      students := students + [Student(empID, branch, marks, 0.0)];
    }
    if |rows| > 0 {
      ParsedCount(rows, parse, |rows|);
    }
    ParsedFields(rows, parse);
  }
}
