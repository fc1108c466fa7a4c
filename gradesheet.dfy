/** The gradesheet's data model: a student record, the fixed component
    names, the Go map lookup with its zero default, the derived Total, and
    the grouping of records by branch that the aggregator and the ranker
    share. */
module Gradesheet {

  datatype Option<T> = None | Some(value: T)

  /** Component name to score. Go's `map[string]float64`, with scores as reals. */
  type Marks = map<string, real>

  /** One row of the gradesheet. `total` is Go's zero value (0.0) until the
      aggregator or the ranker computes it. */
  datatype Student = Student(empID: string, branch: string, marks: Marks, total: real)

  const Quiz := "Quiz"
  const MidSem := "Mid-Sem"
  const LabTest := "Lab Test"
  const WeeklyLabs := "Weekly Labs"
  const PreCompre := "Pre-Compre"
  const Compre := "Compre"
  /** The six graded components, in column order. */
  const Components: seq<string> := [Quiz, MidSem, LabTest, WeeklyLabs, PreCompre, Compre]
  /** The synthetic key under which the declared final total is stored. */
  const FinalTotal := "Final Total"

  /** Go's `m[key]` on a `map[string]float64`: a missing key reads as 0. */
  function MarkOf(s: Student, key: string): real {
    if key in s.marks then s.marks[key] else 0.0
  }

  /** The ranking score: Quiz + Mid-Sem + Lab Test + Weekly Labs + Compre.
      Pre-Compre and the declared final total take no part in it. */
  function ComputedTotal(s: Student): real {
    MarkOf(s, Quiz) + MarkOf(s, MidSem) + MarkOf(s, LabTest) + MarkOf(s, WeeklyLabs) + MarkOf(s, Compre)
  }

  /** The record after `students[i].Total = ...`. */
  function WithTotal(s: Student): Student {
    s.(total := ComputedTotal(s))
  }

  function WithTotals(ss: seq<Student>): (r: seq<Student>)
    ensures |r| == |ss|
  {
    seq(|ss|, i requires 0 <= i < |ss| => WithTotal(ss[i]))
  }

  /** Recomputing Total changes nothing once it has been computed, and nothing
      but Total ever changes: identity, branch and marks are those of the input. */
  lemma WithTotalsIdempotent(ss: seq<Student>)
    ensures WithTotals(WithTotals(ss)) == WithTotals(ss)
    ensures forall i :: 0 <= i < |ss| ==>
      var r := WithTotals(ss)[i];
      r.empID == ss[i].empID && r.branch == ss[i].branch && r.marks == ss[i].marks &&
      r.total == ComputedTotal(ss[i])
  {
  }

  function Min(a: nat, b: nat): nat {
    if a <= b then a else b
  }

  /** The branch codes present in a list of records. */
  function BranchSet(ss: seq<Student>): set<string> {
    set i | 0 <= i < |ss| :: ss[i].branch
  }

  /** The records of branch `b`, in list order (what appending to
      `branchStudents[b]` produces). */
  function InBranch(ss: seq<Student>, b: string): (g: seq<Student>)
    ensures |g| <= |ss|
  {
    if ss == [] then []
    else
      var last := ss[|ss| - 1];
      InBranch(ss[..|ss| - 1], b) + (if last.branch == b then [last] else [])
  }

  lemma BranchSetSnoc(ss: seq<Student>, x: Student)
    ensures BranchSet(ss + [x]) == BranchSet(ss) + {x.branch}
  {
    var t := ss + [x];
    forall c | c in BranchSet(t) ensures c in BranchSet(ss) + {x.branch} {
      var i :| 0 <= i < |t| && t[i].branch == c;
      if i < |ss| { assert t[i] == ss[i]; }
    }
    forall c | c in BranchSet(ss) ensures c in BranchSet(t) {
      var i :| 0 <= i < |ss| && ss[i].branch == c;
      assert t[i] == ss[i];
    }
    assert t[|ss|] == x;
  }

  lemma BranchSetLast(ss: seq<Student>)
    requires ss != []
    ensures BranchSet(ss) == BranchSet(ss[..|ss| - 1]) + {ss[|ss| - 1].branch}
  {
    assert ss == ss[..|ss| - 1] + [ss[|ss| - 1]];
    BranchSetSnoc(ss[..|ss| - 1], ss[|ss| - 1]);
  }

  lemma InBranchSnoc(ss: seq<Student>, x: Student, b: string)
    ensures InBranch(ss + [x], b) == InBranch(ss, b) + (if x.branch == b then [x] else [])
  {
    assert (ss + [x])[..|ss|] == ss;
  }

  /** A branch has a non-empty group iff it occurs in the list. */
  lemma InBranchEmpty(ss: seq<Student>, b: string)
    ensures InBranch(ss, b) == [] <==> b !in BranchSet(ss)
  {
    if InBranch(ss, b) != [] {
      var x := InBranch(ss, b)[0];
      InBranchMember(ss, b, x);
      var i :| 0 <= i < |ss| && ss[i] == x;
    }
    if b in BranchSet(ss) {
      var i :| 0 <= i < |ss| && ss[i].branch == b;
      InBranchMember(ss, b, ss[i]);
    }
  }

  /** Filtering keeps every record of branch `b` with its multiplicity and
      no other: the branch groups partition the list. */
  lemma {:induction false} InBranchMultiplicity(ss: seq<Student>, b: string, x: Student)
    ensures multiset(InBranch(ss, b))[x] == if x.branch == b then multiset(ss)[x] else 0
  {
    if ss != [] {
      var init, last := ss[..|ss| - 1], ss[|ss| - 1];
      assert ss == init + [last];
      InBranchMultiplicity(init, b, x);
    }
  }

  /** The group of branch `b` holds exactly the records of that branch. */
  lemma InBranchMember(ss: seq<Student>, b: string, x: Student)
    ensures x in InBranch(ss, b) <==> x in ss && x.branch == b
  {
    InBranchMultiplicity(ss, b, x);
  }

  /** Reordering the list does not change the contents of any branch group. */
  lemma InBranchPermutation(ss: seq<Student>, tt: seq<Student>, b: string)
    requires multiset(ss) == multiset(tt)
    ensures multiset(InBranch(ss, b)) == multiset(InBranch(tt, b))
  {
    forall x ensures multiset(InBranch(ss, b))[x] == multiset(InBranch(tt, b))[x] {
      InBranchMultiplicity(ss, b, x);
      InBranchMultiplicity(tt, b, x);
    }
  }

  /** The branch set depends only on the records present, not their order. */
  lemma BranchSetPermutation(ss: seq<Student>, tt: seq<Student>)
    requires multiset(ss) == multiset(tt)
    ensures BranchSet(ss) == BranchSet(tt)
  {
    forall b | b in BranchSet(ss) ensures b in BranchSet(tt) {
      var i :| 0 <= i < |ss| && ss[i].branch == b;
      assert ss[i] in multiset(tt);
    }
    forall b | b in BranchSet(tt) ensures b in BranchSet(ss) {
      var i :| 0 <= i < |tt| && tt[i].branch == b;
      assert tt[i] in multiset(ss);
    }
  }

  /** Computing totals does not move any record to another branch. */
  lemma BranchesOfWithTotals(ss: seq<Student>, b: string)
    ensures BranchSet(WithTotals(ss)) == BranchSet(ss)
    ensures |InBranch(WithTotals(ss), b)| == |InBranch(ss, b)|
  {
    assert forall i :: 0 <= i < |ss| ==> WithTotals(ss)[i].branch == ss[i].branch;
    InBranchLengthWithTotals(ss, b);
  }

  lemma {:induction false} InBranchLengthWithTotals(ss: seq<Student>, b: string)
    ensures |InBranch(WithTotals(ss), b)| == |InBranch(ss, b)|
  {
    if ss != [] {
      var init := ss[..|ss| - 1];
      assert WithTotals(ss)[..|ss| - 1] == WithTotals(init);
      InBranchLengthWithTotals(init, b);
    }
  }
}
