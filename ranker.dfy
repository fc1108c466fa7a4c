/** `rankStudents`: recomputes Total, sorts the caller's records in place by
    Total descending, reports the top 3, then groups the records by branch,
    sorts each group and reports its top 3. */
module Ranker {
  import opened Gradesheet
  import Aggregator

  /** How many records each ranking reports. */
  const TopCount := 3

  /** Total is non-increasing along the list. */
  predicate SortedByTotal(ss: seq<Student>) {
    forall i, j :: 0 <= i < j < |ss| ==> ss[j].total <= ss[i].total
  }

  /** `t` is a valid top-k report of the records in `pool`: min(k, |pool|)
      of them, in non-increasing Total order, and no record left out has a
      higher Total than any record reported. Nothing is said about which of
      several records with equal Totals is chosen. */
  predicate IsTopK(t: seq<Student>, pool: multiset<Student>, k: nat) {
    && |t| == Min(k, |pool|)
    && SortedByTotal(t)
    && multiset(t) <= pool
    && forall x, y :: x in pool - multiset(t) && y in t ==> x.total <= y.total
  }

  /** The first min(k, n) records of a sorted list are a top-k report of it. */
  lemma SortedPrefixIsTopK(g: seq<Student>, k: nat)
    requires SortedByTotal(g)
    ensures IsTopK(g[..Min(k, |g|)], multiset(g), k)
  {
    var m := Min(k, |g|);
    PrefixSplit(g, m);
    PrefixDominates(g, m);
  }

  lemma PrefixSplit(g: seq<Student>, m: nat)
    requires m <= |g|
    ensures multiset(g) - multiset(g[..m]) == multiset(g[m..])
    ensures multiset(g[..m]) <= multiset(g)
    ensures |multiset(g)| == |g|
  {
    assert g == g[..m] + g[m..];
  }

  lemma PrefixDominates(g: seq<Student>, m: nat)
    requires m <= |g| && SortedByTotal(g)
    ensures forall x, y :: x in multiset(g[m..]) && y in g[..m] ==> x.total <= y.total
  {
    forall x: Student, y: Student | x in multiset(g[m..]) && y in g[..m] ensures x.total <= y.total {
      var j :| m <= j < |g| && g[j] == x;
      var i :| 0 <= i < m && g[i] == y;
    }
  }

  /** A branch group taken from a sorted list is already sorted: the second
      sort in `rankStudents` can only reorder records with equal Totals. */
  lemma {:induction false} InBranchOfSorted(ss: seq<Student>, b: string)
    requires SortedByTotal(ss)
    ensures SortedByTotal(InBranch(ss, b))
  {
    if ss != [] {
      var init, last := ss[..|ss| - 1], ss[|ss| - 1];
      InBranchOfSorted(init, b);
      var g := InBranch(init, b);
      forall x | x in g ensures last.total <= x.total {
        InBranchMember(init, b, x);
      }
    }
  }

  method Swap(a: array<Student>, i: nat, j: nat)
    requires i < a.Length && j < a.Length
    modifies a
    ensures a[..] == old(a[..])[i := old(a[j])][j := old(a[i])]
    ensures multiset(a[..]) == old(multiset(a[..]))
  {
    a[i], a[j] := a[j], a[i];
  }

  /** One step of insertion sort: moves a[i] left into the sorted prefix
      a[..i], leaving the rest of the array alone. */
  method InsertInto(a: array<Student>, i: nat)
    requires i < a.Length && SortedByTotal(a[..i])
    modifies a
    ensures SortedByTotal(a[..i + 1])
    ensures a[i + 1..] == old(a[i + 1..])
    ensures multiset(a[..]) == old(multiset(a[..]))
  {
    var j := i;
    while j > 0 && a[j - 1].total < a[j].total
      invariant 0 <= j <= i
      invariant forall p, q :: 0 <= p < q <= i && p != j && q != j ==> a[q].total <= a[p].total
      invariant forall q :: j < q <= i ==> a[q].total <= a[j].total
      invariant a[i + 1..] == old(a[i + 1..])
      invariant multiset(a[..]) == old(multiset(a[..]))
    {
      Swap(a, j - 1, j);
      j := j - 1;
    }
  }

  /** Insertion sort into non-increasing Total order; stands for `sort.Slice`,
      which promises a sorted permutation and no particular order among ties. */
  method SortByTotal(a: array<Student>)
    modifies a
    ensures SortedByTotal(a[..])
    ensures multiset(a[..]) == old(multiset(a[..]))
  {
    for i := 0 to a.Length
      invariant SortedByTotal(a[..i])
      invariant multiset(a[..]) == old(multiset(a[..]))
    {
      InsertInto(a, i);
    }
    assert a[..a.Length] == a[..];
  }

  /** Building `branchStudents` by appending, in the order of the (sorted)
      list: one group per branch present, each holding that branch's records
      in list order. */
  method GroupByBranch(students: seq<Student>) returns (groups: map<string, seq<Student>>)
    ensures groups.Keys == BranchSet(students)
    ensures forall b :: b in groups ==> groups[b] == InBranch(students, b)
  {
    groups := map[];
    for i := 0 to |students|
      invariant groups.Keys == BranchSet(students[..i])
      invariant forall b :: b in groups ==> groups[b] == InBranch(students[..i], b)
    {
      var student := students[i];
      var branch := student.branch;
      assert students[..i + 1] == students[..i] + [student];
      BranchSetSnoc(students[..i], student);
      InBranchEmpty(students[..i], branch);
      forall b ensures InBranch(students[..i + 1], b) == InBranch(students[..i], b) + (if student.branch == b then [student] else []) {
        InBranchSnoc(students[..i], student, b);
      }
      groups := groups[branch := (if branch in groups then groups[branch] else []) + [student]];
    }
    assert students[..|students|] == students;
  }

  /** Sorts a copy of one group (Go sorts the group's own slice) and reports
      its first three records. */
  method RankGroup(group: seq<Student>) returns (top: seq<Student>)
    ensures IsTopK(top, multiset(group), TopCount)
  {
    var g := new Student[|group|](i requires 0 <= i < |group| => group[i]);
    assert g[..] == group;
    SortByTotal(g);
    top := g[..Min(TopCount, g.Length)];
    SortedPrefixIsTopK(g[..], TopCount);
  }

  /** The loop over `branchStudents`: one top-3 report per group. */
  method RankGroups(groups: map<string, seq<Student>>) returns (branchTop: map<string, seq<Student>>)
    ensures branchTop.Keys == groups.Keys
    ensures forall b :: b in branchTop ==> IsTopK(branchTop[b], multiset(groups[b]), TopCount)
  {
    branchTop := map[];
    // Go ranges over the groups map in an unspecified order.
    var pending := groups.Keys;
    while pending != {}
      invariant pending <= groups.Keys
      invariant branchTop.Keys == groups.Keys - pending
      invariant forall b :: b in branchTop ==> IsTopK(branchTop[b], multiset(groups[b]), TopCount)
      decreases pending
    {
      var branch :| branch in pending;
      var top := RankGroup(groups[branch]);
      branchTop := branchTop[branch := top];
      pending := pending - {branch};
    }
  }

  /** The second half of `rankStudents`: groups the records by branch and
      reports each group's top 3. */
  method RankBranches(students: seq<Student>) returns (branchTop: map<string, seq<Student>>)
    ensures branchTop.Keys == BranchSet(students)
    ensures forall b :: b in branchTop ==> IsTopK(branchTop[b], multiset(InBranch(students, b)), TopCount)
  {
    var groups := GroupByBranch(students);
    branchTop := RankGroups(groups);
  }

  /** `rankStudents`. The caller's records end up with their Totals computed
      and permuted into non-increasing Total order; the overall report is
      their first three; each branch present gets a top-3 report of its
      records. */
  method RankStudents(a: array<Student>) returns (top: seq<Student>, branchTop: map<string, seq<Student>>)
    modifies a
    ensures multiset(a[..]) == multiset(WithTotals(old(a[..])))
    ensures SortedByTotal(a[..])
    ensures top == a[..Min(TopCount, a.Length)]
    ensures IsTopK(top, multiset(WithTotals(old(a[..]))), TopCount)
    ensures branchTop.Keys == BranchSet(old(a[..]))
    ensures forall b :: b in branchTop ==>
      IsTopK(branchTop[b], multiset(InBranch(WithTotals(old(a[..])), b)), TopCount)
  {
    ghost var input := WithTotals(old(a[..]));
    Aggregator.ComputeTotals(a);
    SortByTotal(a);
    top := a[..Min(TopCount, a.Length)];
    SortedPrefixIsTopK(a[..], TopCount);
    branchTop := RankBranches(a[..]);
    BranchSetPermutation(a[..], input);
    BranchesOfWithTotals(old(a[..]), "");
    forall b | b in branchTop
      ensures IsTopK(branchTop[b], multiset(InBranch(input, b)), TopCount)
    {
      InBranchPermutation(a[..], input, b);
    }
  }
}
