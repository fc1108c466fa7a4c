/** `calculateAverages` and `calculateBranchAverages`: component sums over all
    records, the in-place Total computation, and per-branch sums and counts. */
module Aggregator {
  import opened Gradesheet

  /** Sum of the mark stored under `key` over a list of records (a missing key
      contributes Go's zero value). */
  function ComponentSum(ss: seq<Student>, key: string): real {
    if ss == [] then 0.0 else ComponentSum(ss[..|ss| - 1], key) + MarkOf(ss[|ss| - 1], key)
  }

  /** Every key that occurs in some record's marks map. */
  function KeysOf(ss: seq<Student>): set<string> {
    set i, k | 0 <= i < |ss| && k in ss[i].marks :: k
  }

  lemma KeysOfSnoc(ss: seq<Student>, x: Student)
    ensures KeysOf(ss + [x]) == KeysOf(ss) + x.marks.Keys
  {
    var t := ss + [x];
    forall k | k in KeysOf(t) ensures k in KeysOf(ss) + x.marks.Keys {
      var i :| 0 <= i < |t| && k in t[i].marks;
      if i < |ss| { assert t[i] == ss[i]; }
    }
    forall k | k in KeysOf(ss) ensures k in KeysOf(t) {
      var i :| 0 <= i < |ss| && k in ss[i].marks;
      assert t[i] == ss[i];
    }
    forall k | k in x.marks ensures k in KeysOf(t) {
      assert t[|ss|] == x;
    }
  }

  /** A key that no record holds sums to zero. */
  lemma {:induction false} ComponentSumOfAbsentKey(ss: seq<Student>, key: string)
    requires key !in KeysOf(ss)
    ensures ComponentSum(ss, key) == 0.0
  {
    if ss != [] {
      var init := ss[..|ss| - 1];
      assert ss == init + [ss[|ss| - 1]];
      KeysOfSnoc(init, ss[|ss| - 1]);
      ComponentSumOfAbsentKey(init, key);
    }
  }

  /** The inner loop of `calculateAverages`: adds one record's marks to the
      running sums, a key seen for the first time starting from zero. */
  method AddMarks(sums: map<string, real>, student: Student) returns (r: map<string, real>)
    ensures r.Keys == sums.Keys + student.marks.Keys
    ensures forall k :: k in r ==> r[k] == (if k in sums then sums[k] else 0.0) + MarkOf(student, k)
  {
    r := sums;
    // Go ranges over the marks map in an unspecified order.
    var pending := student.marks.Keys;
    while pending != {}
      invariant pending <= student.marks.Keys
      invariant r.Keys == sums.Keys + (student.marks.Keys - pending)
      invariant forall k :: k in r ==>
        r[k] == (if k in sums then sums[k] else 0.0) + (if k !in pending then MarkOf(student, k) else 0.0)
      decreases pending
    {
      var comp :| comp in pending;
      var mark := student.marks[comp];
      r := r[comp := (if comp in r then r[comp] else 0.0) + mark];
      pending := pending - {comp};
    }
  }

  /** `calculateAverages`: for every key found in any record, the sum of its
      marks over all records and that sum divided by the number of records.
      With no records there are no keys, so nothing is divided. */
  method CalculateAverages(students: seq<Student>) returns (sums: map<string, real>, averages: map<string, real>)
    ensures sums.Keys == KeysOf(students) && averages.Keys == sums.Keys
    ensures forall k :: k in sums ==> sums[k] == ComponentSum(students, k)
    ensures students == [] ==> averages == map[]
    ensures forall k :: k in averages ==> |students| > 0 && averages[k] == sums[k] / (|students| as real)
  {
    var count := |students| as real;
    sums := map[];
    for i := 0 to |students|
      invariant sums.Keys == KeysOf(students[..i])
      invariant forall k :: k in sums ==> sums[k] == ComponentSum(students[..i], k)
    {
      var student := students[i];
      assert students[..i + 1] == students[..i] + [student];
      KeysOfSnoc(students[..i], student);
      var before := sums;
      sums := AddMarks(sums, student);
      forall k | k in sums ensures sums[k] == ComponentSum(students[..i + 1], k) {
        assert students[..i + 1][..i] == students[..i];
        if k !in before {
          ComponentSumOfAbsentKey(students[..i], k);
        }
      }
    }
    assert students[..|students|] == students;
    assert count == 0.0 ==> sums == map[];
    averages := map comp | comp in sums :: sums[comp] / count;
  }

  /** The first loop of `calculateBranchAverages` (and of `rankStudents`):
      every record's Total is set in place; nothing else changes. */
  method ComputeTotals(a: array<Student>)
    modifies a
    ensures a[..] == WithTotals(old(a[..]))
  {
    for i := 0 to a.Length
      invariant forall j :: 0 <= j < i ==> a[j] == WithTotal(old(a[j]))
      invariant forall j :: i <= j < a.Length ==> a[j] == old(a[j])
    {
      a[i] := a[i].(total := ComputedTotal(a[i]));
    }
  }

  /** Sum of the values of a map of counts. */
  ghost function SumValues(m: map<string, nat>): nat
    decreases |m|
  {
    if m == map[] then 0
    else
      var k :| k in m;
      m[k] + SumValues(m - {k})
  }

  /** SumValues does not depend on which key is taken first. */
  lemma {:induction false} SumValuesRemove(m: map<string, nat>, k: string)
    requires k in m
    ensures SumValues(m) == m[k] + SumValues(m - {k})
    decreases |m|
  {
    var k' :| k' in m && SumValues(m) == m[k'] + SumValues(m - {k'});
    if k' != k {
      assert (m - {k'}) - {k} == (m - {k}) - {k'};
      SumValuesRemove(m - {k'}, k);
      SumValuesRemove(m - {k}, k');
    }
  }

  /** `branchCounts` after the loop has seen the records of `ss`. */
  function BranchCounts(ss: seq<Student>): map<string, nat> {
    if ss == [] then map[]
    else
      var m, b := BranchCounts(ss[..|ss| - 1]), ss[|ss| - 1].branch;
      m[b := (if b in m then m[b] else 0) + 1]
  }

  /** `branchTotals` after the loop has seen the records of `ss`. */
  function BranchTotals(ss: seq<Student>): map<string, real> {
    if ss == [] then map[]
    else
      var m, last := BranchTotals(ss[..|ss| - 1]), ss[|ss| - 1];
      m[last.branch := (if last.branch in m then m[last.branch] else 0.0) + last.total]
  }

  /** The accumulated counts hold one entry per branch present: the number
      of its records. */
  lemma {:induction false} BranchCountsMeaning(ss: seq<Student>)
    ensures BranchCounts(ss).Keys == BranchSet(ss)
    ensures forall b :: b in BranchCounts(ss) ==> BranchCounts(ss)[b] == |InBranch(ss, b)|
  {
    if ss != [] {
      var init, last := ss[..|ss| - 1], ss[|ss| - 1];
      BranchCountsMeaning(init);
      BranchSetLast(ss);
      InBranchEmpty(init, last.branch);
    }
  }

  /** Sum of Total over the records of branch `b`. */
  function BranchSum(ss: seq<Student>, b: string): real {
    if ss == [] then 0.0
    else
      var last := ss[|ss| - 1];
      BranchSum(ss[..|ss| - 1], b) + (if last.branch == b then last.total else 0.0)
  }

  /** The accumulated totals hold one entry per branch present: the sum of
      the Totals of its records. */
  lemma {:induction false} BranchTotalsMeaning(ss: seq<Student>)
    ensures BranchTotals(ss).Keys == BranchSet(ss)
    ensures forall b :: b in BranchTotals(ss) ==> BranchTotals(ss)[b] == BranchSum(ss, b)
  {
    if ss != [] {
      var init, last := ss[..|ss| - 1], ss[|ss| - 1];
      BranchTotalsMeaning(init);
      BranchSetLast(ss);
      if last.branch !in BranchSet(init) {
        BranchSumAbsent(init, last.branch);
      }
    }
  }

  /** A branch with no records sums to zero. */
  lemma {:induction false} BranchSumAbsent(ss: seq<Student>, b: string)
    requires b !in BranchSet(ss)
    ensures BranchSum(ss, b) == 0.0
  {
    if ss != [] {
      BranchSetLast(ss);
      BranchSumAbsent(ss[..|ss| - 1], b);
    }
  }

  /** Replacing one entry changes the sum by the difference. */
  lemma SumValuesUpdate(m: map<string, nat>, k: string, v: nat)
    ensures SumValues(m[k := v]) + (if k in m then m[k] else 0) == SumValues(m) + v
  {
    var m' := m[k := v];
    SumValuesRemove(m', k);
    if k in m {
      SumValuesRemove(m, k);
      assert m' - {k} == m - {k};
    } else {
      assert m' - {k} == m;
    }
  }

  /** The per-branch counts add up to the number of records. */
  lemma {:induction false} BranchCountsSumToLength(ss: seq<Student>)
    ensures SumValues(BranchCounts(ss)) == |ss|
  {
    if ss == [] {
    } else {
      var init, last := ss[..|ss| - 1], ss[|ss| - 1];
      BranchCountsSumToLength(init);
      var before := BranchCounts(init);
      SumValuesUpdate(before, last.branch, (if last.branch in before then before[last.branch] else 0) + 1);
    }
  }

  /** The second loop of `calculateBranchAverages`: per-branch sums of Total
      and per-branch counts, with the counts adding up to the list length. */
  method AccumulateBranches(students: seq<Student>) returns (totals: map<string, real>, counts: map<string, nat>)
    ensures totals.Keys == BranchSet(students) && counts.Keys == totals.Keys
    ensures forall b :: b in totals ==> totals[b] == BranchSum(students, b)
    ensures forall b :: b in counts ==> counts[b] == |InBranch(students, b)| && counts[b] >= 1
    ensures SumValues(counts) == |students|
  {
    totals, counts := map[], map[];
    for i := 0 to |students|
      invariant totals == BranchTotals(students[..i])
      invariant counts == BranchCounts(students[..i])
    {
      var student := students[i];
      var branch := student.branch;
      assert students[..i + 1][..i] == students[..i];
      totals := totals[branch := (if branch in totals then totals[branch] else 0.0) + student.total];
      counts := counts[branch := (if branch in counts then counts[branch] else 0) + 1];
    }
    assert students[..|students|] == students;
    BranchCountsMeaning(students);
    BranchTotalsMeaning(students);
    BranchCountsSumToLength(students);
    forall b | b in counts ensures counts[b] >= 1 {
      InBranchEmpty(students, b);
    }
  }

  /** `calculateBranchAverages`: computes every Total in place, then sums the
      Totals and counts the records of each branch, and divides. */
  method CalculateBranchAverages(a: array<Student>)
    returns (totals: map<string, real>, counts: map<string, nat>, averages: map<string, real>)
    modifies a
    ensures a[..] == WithTotals(old(a[..]))
    ensures totals.Keys == BranchSet(a[..]) && counts.Keys == totals.Keys && averages.Keys == totals.Keys
    ensures forall b :: b in totals ==> totals[b] == BranchSum(a[..], b)
    ensures forall b :: b in counts ==> counts[b] == |InBranch(a[..], b)| && counts[b] >= 1
    ensures forall b :: b in averages ==> averages[b] == totals[b] / (counts[b] as real)
    ensures SumValues(counts) == a.Length
  {
    ComputeTotals(a);
    totals, counts := AccumulateBranches(a[..]);
    averages := map b | b in totals :: totals[b] / (counts[b] as real);
  }
}
