/** `validateData`: the two arithmetic checks per record, and the buffered
    channel through which `main` collects their messages. */
module Validator {
  import opened Gradesheet

  /** A mismatch message, reduced to its kind and the fields it reports. */
  datatype Mismatch =
    | PreCompreMismatch(empID: string)
    | FinalTotalMismatch(empID: string, expected: real, found: real)
  {
    function EmpID(): string {
      match this
      case PreCompreMismatch(e) => e
      case FinalTotalMismatch(e, _, _) => e
    }
  }

  /** Quiz + Mid-Sem + Lab Test + Weekly Labs == Pre-Compre, exactly. */
  predicate PreCompreConsistent(s: Student) {
    MarkOf(s, Quiz) + MarkOf(s, MidSem) + MarkOf(s, LabTest) + MarkOf(s, WeeklyLabs) == MarkOf(s, PreCompre)
  }

  /** Pre-Compre + Compre == Final Total, checked only when the key exists. */
  predicate FinalTotalConsistent(s: Student) {
    FinalTotal in s.marks ==> MarkOf(s, PreCompre) + MarkOf(s, Compre) == s.marks[FinalTotal]
  }

  /** The messages one iteration of the loop sends, in order. */
  function StudentMismatches(s: Student): seq<Mismatch> {
    (if PreCompreConsistent(s) then [] else [PreCompreMismatch(s.empID)]) +
    (if FinalTotalConsistent(s) then []
     else [FinalTotalMismatch(s.empID, MarkOf(s, PreCompre) + MarkOf(s, Compre), s.marks[FinalTotal])])
  }

  /** The messages sent for a whole list of records, in list order. */
  function Mismatches(ss: seq<Student>): seq<Mismatch> {
    if ss == [] then [] else Mismatches(ss[..|ss| - 1]) + StudentMismatches(ss[|ss| - 1])
  }

  /** Record `s` fails the second check and reports (e, expected, found). */
  predicate FinalTotalReports(s: Student, e: string, expected: real, found: real) {
    s.empID == e && FinalTotal in s.marks && !FinalTotalConsistent(s) &&
    expected == MarkOf(s, PreCompre) + MarkOf(s, Compre) && found == s.marks[FinalTotal]
  }

  /** A record yields the first message iff its four base components do not
      add up to Pre-Compre, the second iff it has a final total that differs
      from Pre-Compre + Compre, so at most two, each naming its EmpID. */
  lemma StudentMismatchesSpec(s: Student)
    ensures PreCompreMismatch(s.empID) in StudentMismatches(s) <==> !PreCompreConsistent(s)
    ensures (exists m :: m in StudentMismatches(s) && m.FinalTotalMismatch?) <==> !FinalTotalConsistent(s)
    ensures forall e, x, f :: FinalTotalMismatch(e, x, f) in StudentMismatches(s) <==> FinalTotalReports(s, e, x, f)
    ensures |StudentMismatches(s)| <= 2
    ensures forall m :: m in StudentMismatches(s) ==> m.EmpID() == s.empID
  {
    if !FinalTotalConsistent(s) {
      var m := FinalTotalMismatch(s.empID, MarkOf(s, PreCompre) + MarkOf(s, Compre), s.marks[FinalTotal]);
      assert StudentMismatches(s)[|StudentMismatches(s)| - 1] == m;
    }
  }

  /** At most two messages per record. */
  lemma {:induction false} MismatchesBound(ss: seq<Student>)
    ensures |Mismatches(ss)| <= 2 * |ss|
  {
    if ss != [] {
      MismatchesBound(ss[..|ss| - 1]);
      StudentMismatchesSpec(ss[|ss| - 1]);
    }
  }

  /** A message is sent iff some record of the list produces it. */
  lemma {:induction false} MismatchesFromRecords(ss: seq<Student>, m: Mismatch)
    ensures m in Mismatches(ss) <==> exists i :: 0 <= i < |ss| && m in StudentMismatches(ss[i])
  {
    if ss != [] {
      var init := ss[..|ss| - 1];
      MismatchesFromRecords(init, m);
      if m in Mismatches(ss) && m !in Mismatches(init) {
        assert m in StudentMismatches(ss[|ss| - 1]);
      }
      if exists i :: 0 <= i < |ss| && m in StudentMismatches(ss[i]) {
        var i :| 0 <= i < |ss| && m in StudentMismatches(ss[i]);
        if i < |ss| - 1 {
          assert init[i] == ss[i];
        }
      }
    }
  }

  /** The list-level statement of the first check: a Pre-Compre message names
      EmpID e iff some record with EmpID e fails that check. */
  lemma PreCompreMismatchIff(ss: seq<Student>, e: string)
    ensures PreCompreMismatch(e) in Mismatches(ss) <==>
      exists i :: 0 <= i < |ss| && ss[i].empID == e && !PreCompreConsistent(ss[i])
  {
    MismatchesFromRecords(ss, PreCompreMismatch(e));
    forall i | 0 <= i < |ss|
      ensures PreCompreMismatch(e) in StudentMismatches(ss[i]) <==> ss[i].empID == e && !PreCompreConsistent(ss[i])
    {
      StudentMismatchesSpec(ss[i]);
    }
  }

  /** The list-level statement of the second check: a final-total message
      (e, expected, found) is sent iff some record with EmpID e has a final
      total `found` that differs from its Pre-Compre + Compre `expected`. */
  lemma FinalTotalMismatchIff(ss: seq<Student>, e: string, expected: real, found: real)
    ensures FinalTotalMismatch(e, expected, found) in Mismatches(ss) <==>
      exists i :: 0 <= i < |ss| && FinalTotalReports(ss[i], e, expected, found)
  {
    var m := FinalTotalMismatch(e, expected, found);
    MismatchesFromRecords(ss, m);
    forall i | 0 <= i < |ss|
      ensures m in StudentMismatches(ss[i]) <==> FinalTotalReports(ss[i], e, expected, found)
    {
      StudentMismatchesSpec(ss[i]);
    }
  }

  /** Mismatches of a concatenation are the concatenation of the mismatches. */
  lemma {:induction false} MismatchesAppend(ss: seq<Student>, tt: seq<Student>)
    ensures Mismatches(ss + tt) == Mismatches(ss) + Mismatches(tt)
  {
    if tt == [] {
      assert ss + tt == ss;
    } else {
      var init := tt[..|tt| - 1];
      assert (ss + tt)[..|ss + tt| - 1] == ss + init;
      MismatchesAppend(ss, init);
    }
  }

  /** Taking record j out of a list: the rest holds one copy of it fewer. */
  lemma RemoveAt(tt: seq<Student>, j: nat)
    requires j < |tt|
    ensures tt == tt[..j] + [tt[j]] + tt[j + 1..]
    ensures multiset(tt[..j] + tt[j + 1..]) == multiset(tt) - multiset{tt[j]}
  {
    assert tt == tt[..j] + [tt[j]] + tt[j + 1..];
  }

  /** The messages of a list are those of the list without record j plus
      those of record j. */
  lemma MismatchesRemoveAt(tt: seq<Student>, j: nat)
    requires j < |tt|
    ensures multiset(Mismatches(tt)) ==
      multiset(Mismatches(tt[..j] + tt[j + 1..])) + multiset(StudentMismatches(tt[j]))
  {
    var p, x, q := tt[..j], tt[j], tt[j + 1..];
    RemoveAt(tt, j);
    MismatchesAppend(p + [x], q);
    MismatchesAppend(p, [x]);
    MismatchesAppend(p, q);
    assert [x][..0] == [];
    var mp, mx, mq := Mismatches(p), StudentMismatches(x), Mismatches(q);
    assert Mismatches(tt) == mp + mx + mq;
    assert Mismatches(p + q) == mp + mq;
    assert multiset(mp + mx + mq) == multiset(mp) + multiset(mx) + multiset(mq);
  }

  /** The collection of messages does not depend on the order in which the
      records are checked: any permutation of the list yields the same
      multiset of messages. */
  lemma {:induction false} MismatchesOrderIndependent(ss: seq<Student>, tt: seq<Student>)
    requires multiset(ss) == multiset(tt)
    ensures multiset(Mismatches(ss)) == multiset(Mismatches(tt))
    decreases |ss|
  {
    if ss != [] {
      var last := ss[|ss| - 1];
      RemoveLast(ss);
      MismatchesLast(ss);
      var j :| 0 <= j < |tt| && tt[j] == last;
      RemoveAt(tt, j);
      MismatchesOrderIndependent(ss[..|ss| - 1], tt[..j] + tt[j + 1..]);
      MismatchesRemoveAt(tt, j);
    }
  }

  /** The messages of a list are those of all records but the last together
      with those of the last. */
  lemma MismatchesLast(ss: seq<Student>)
    requires ss != []
    ensures multiset(Mismatches(ss)) == multiset(Mismatches(ss[..|ss| - 1])) + multiset(StudentMismatches(ss[|ss| - 1]))
  {
    var m1, m2 := Mismatches(ss[..|ss| - 1]), StudentMismatches(ss[|ss| - 1]);
    assert Mismatches(ss) == m1 + m2;
    assert multiset(m1 + m2) == multiset(m1) + multiset(m2);
  }

  /** Taking the last record off a list: the rest holds one copy of it fewer. */
  lemma RemoveLast(ss: seq<Student>)
    requires ss != []
    ensures multiset(ss[..|ss| - 1]) == multiset(ss) - multiset{ss[|ss| - 1]}
    ensures ss[|ss| - 1] in multiset(ss)
  {
    assert ss == ss[..|ss| - 1] + [ss[|ss| - 1]];
  }

  /** A record that passes both checks has Total == its declared final total,
      which is why Total can use Compre in place of Pre-Compre + Compre. */
  lemma ConsistentTotalIsFinalTotal(s: Student)
    requires StudentMismatches(s) == [] && FinalTotal in s.marks
    ensures ComputedTotal(s) == s.marks[FinalTotal]
  {
    StudentMismatchesSpec(s);
  }

  /** `validateData`: one pass over the records; they are read, not modified. */
  method ValidateData(students: seq<Student>) returns (msgs: seq<Mismatch>)
    ensures msgs == Mismatches(students)
    ensures |msgs| <= 2 * |students|
  {
    msgs := [];
    for i := 0 to |students|
      invariant msgs == Mismatches(students[..i])
    {
      var student := students[i];
      assert students[..i + 1][..i] == students[..i];
      var sent: seq<Mismatch> := [];
      var expectedI := MarkOf(student, Quiz) + MarkOf(student, MidSem) + MarkOf(student, LabTest) + MarkOf(student, WeeklyLabs);
      if expectedI != MarkOf(student, PreCompre) {
        sent := sent + [PreCompreMismatch(student.empID)];
      }
      var expectedTotal := MarkOf(student, PreCompre) + MarkOf(student, Compre);
      if FinalTotal in student.marks && expectedTotal != student.marks[FinalTotal] {
        sent := sent + [FinalTotalMismatch(student.empID, expectedTotal, student.marks[FinalTotal])];
      }
      msgs := msgs + sent;
    }
    assert students[..|students|] == students;
    MismatchesBound(students);
  }

  /** `main` runs the validator as the only sender on a buffered channel and
      drains it only after the sender has finished. A message beyond the
      buffer's capacity blocks the sender in its send while `main` blocks in
      `wg.Wait()`; with every goroutine asleep, Go's runtime normally stops the
      process with a fatal deadlock error before anything more is printed
      (None). Otherwise every message arrives, in send order. */
  function Collect(msgs: seq<Mismatch>, capacity: nat): (r: Option<seq<Mismatch>>)
  {
    if |msgs| <= capacity then Some(msgs) else None
  }

  /** The capacity `main` gives the channel: one slot per record. */
  function AsWrittenCapacity(students: seq<Student>): nat {
    |students|
  }

  /** Two slots per record, the most `validateData` can send. */
  function CorrectedCapacity(students: seq<Student>): nat {
    2 * |students|
  }

  /** The record fails both checks, and so sends two messages. */
  predicate FailsBoth(s: Student) {
    !PreCompreConsistent(s) && !FinalTotalConsistent(s)
  }

  /** The record passes both checks, and so sends nothing. */
  predicate FailsNeither(s: Student) {
    PreCompreConsistent(s) && FinalTotalConsistent(s)
  }

  /** How many records of the list fail both checks. */
  function CountFailsBoth(ss: seq<Student>): nat {
    if ss == [] then 0
    else CountFailsBoth(ss[..|ss| - 1]) + (if FailsBoth(ss[|ss| - 1]) then 1 else 0)
  }

  /** How many records of the list pass both checks. */
  function CountFailsNeither(ss: seq<Student>): nat {
    if ss == [] then 0
    else CountFailsNeither(ss[..|ss| - 1]) + (if FailsNeither(ss[|ss| - 1]) then 1 else 0)
  }

  /** Every record sends one message, except that one failing both checks
      sends one more and one passing both sends one fewer. */
  lemma {:induction false} MessageExcess(ss: seq<Student>)
    ensures |Mismatches(ss)| + CountFailsNeither(ss) == |ss| + CountFailsBoth(ss)
  {
    if ss != [] {
      MessageExcess(ss[..|ss| - 1]);
      StudentMismatchesSpec(ss[|ss| - 1]);
    }
  }

  /** As written, the run deadlocks exactly when more records fail both
      checks than pass both. */
  lemma AsWrittenDeadlocksIff(ss: seq<Student>)
    ensures Collect(Mismatches(ss), AsWrittenCapacity(ss)) == None <==> CountFailsBoth(ss) > CountFailsNeither(ss)
  {
    MessageExcess(ss);
  }

  /** A single record that fails both checks: base components 0, Pre-Compre 1,
      Compre 0, final total 0. */
  const BothChecksFail: Student :=
    Student("E1", "AB", map[Quiz := 0.0, MidSem := 0.0, LabTest := 0.0, WeeklyLabs := 0.0,
                          PreCompre := 1.0, Compre := 0.0, FinalTotal := 0.0], 0.0)

  /** The input that shows the deadlock: one record, two messages, one slot. */
  lemma AsWrittenDeadlocks()
    ensures |Mismatches([BothChecksFail])| == 2
    ensures Collect(Mismatches([BothChecksFail]), AsWrittenCapacity([BothChecksFail])) == None
  {
    var s := BothChecksFail;
    assert MarkOf(s, PreCompre) == 1.0 && MarkOf(s, Quiz) == 0.0 && MarkOf(s, MidSem) == 0.0;
    assert MarkOf(s, LabTest) == 0.0 && MarkOf(s, WeeklyLabs) == 0.0 && MarkOf(s, Compre) == 0.0;
    assert !PreCompreConsistent(s) && !FinalTotalConsistent(s);
    assert [s][..0] == [];
  }

  /** With two slots per record the run never deadlocks and delivers every
      message `validateData` sends. */
  lemma CorrectedNeverBlocks(ss: seq<Student>)
    ensures Collect(Mismatches(ss), CorrectedCapacity(ss)) == Some(Mismatches(ss))
  {
    MismatchesBound(ss);
  }
}
