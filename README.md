# Gradesheet pipeline, modelled in Dafny

A model of `task.go`, a command-line tool that reads a course gradesheet,
one row per student. For each row it:

- builds a record holding the EmpID, a two-character branch code taken from
  characters 4–5 of the CampusID, and a map of marks. The map holds the six
  graded components (Quiz, Mid-Sem, Lab Test, Weekly Labs, Pre-Compre,
  Compre) and the declared "Final Total".

For the whole sheet it then:

- checks two arithmetic relations per record. The first is
  Quiz + Mid-Sem + Lab Test + Weekly Labs = Pre-Compre. The second is
  Pre-Compre + Compre = Final Total;
- collects the mismatch messages through a buffered channel;
- computes the per-component sums and averages, and per-branch totals,
  counts and averages of a computed Total (Quiz + Mid-Sem + Lab Test +
  Weekly Labs + Compre);
- ranks the records by Total, overall and within each branch, and reports
  the top 3.

Modules, one per stage of the program:

- `Gradesheet` (`gradesheet.dfy`): the record, the component names, Go's
  zero-default map lookup, the computed Total, and the branch grouping that
  the later stages share.
- `Parser` (`parser.dfy`): the row loop of `parseExcel`. It works on the rows
  once they are in memory. `strconv.ParseFloat` is a parameter
  `string -> Option<real>`, and a parse error gives 0, as in the code.
- `Validator` (`validator.dfy`): `validateData`, as the sequence of messages
  it sends, and the channel through which `main` collects them.
- `Aggregator` (`aggregator.dfy`): the summations of `calculateAverages` and
  `calculateBranchAverages`. This includes the in-place Total computation on
  an `array`.
- `Ranker` (`ranker.dfy`): `rankStudents`:
  - Total is recomputed in place;
  - the array is sorted in place into non-increasing Total order;
  - the prefix of length min(3, n) is the overall report;
  - the records are grouped by branch, and each group is sorted and cut to 3.
- `Pipeline` (`pipeline.dfy`): `main`'s sequence of calls once the sheet's
  rows have been read (task.go:90), starting with the row loop. `Pipeline.Run` uses the channel capacity of the code and can
  deadlock; `Pipeline.RunCorrected` uses two slots per record (see
  "## Findings"). The module also holds a two-row end-to-end scenario.

Go map iteration order is unspecified. Wherever the code ranges over a map,
the model picks any key not yet visited, so every proof holds for every
order. `sort.Slice` promises a sorted permutation and nothing about the
order of equal keys. It is modelled by an insertion sort whose contract
promises exactly that, so the reports are specified as *a* valid top 3
(`Ranker.IsTopK`), whichever of several tied records is chosen.

Three behaviours of the code are worth stating outright:

- With an empty record list, the sums map stays empty, so no component
  average is computed or printed and nothing is divided by zero
  (`Aggregator.CalculateAverages` ensures `averages == map[]`).
- The ranking has no tie-break: records with equal Totals may be reported in
  any order, and none is promised.
- A record whose Pre-Compre is 41 while its four base components add up to
  40, with Compre 30 and final total 70, fails both checks (41 + 30 is 71).
  So it sends two messages, both naming it. `Pipeline.Scenario` states this
  for a two-row sheet.

## Model

| member | source | states |
|---|---|---|
| `Parser.RowMarksShape` | task.go:118-124 | a record's marks hold exactly the six component keys and "Final Total"; component j is read from cell j+4 and the final total from cell 10, a parse failure giving 0 |
| `Parser.ReadMarks` | task.go:118-124 | the components loop builds exactly that marks map |
| `Parser.AcceptedRows` | task.go:97-108 | the indices of the rows that yield a record: not the header, at least 11 cells and a CampusID of at least 6 characters, in increasing order, and all such rows |
| `Parser.ParsedIsFilter` | task.go:97-127 | the parser is an order-preserving filter: the k-th record is built from the k-th accepted row |
| `Parser.ParsedFields` | task.go:102-126 | every record comes from an accepted row: EmpID is cell 2, the branch is CampusID[4:6] and has two characters, all seven mark keys are present, and Total is still 0 |
| `Parser.ShortCampusIDDropped` | task.go:105-108 | a row with 11 cells and a CampusID shorter than 6 characters never yields a record, and is reported with its 1-based row number unless it is the header |
| `Parser.ParsedCount` | task.go:97-127 | records and warnings together number at most one less than the rows: the header contributes nothing, and every other row at most one of the two |
| `Parser.ParseRows` | task.go:97-127 | the loop returns exactly the filtered records and the warnings, in row order, with the count bound and the field facts above |
| `Validator.StudentMismatchesSpec` | task.go:134-144 | one record sends the first message iff its four base components do not add up to Pre-Compre; it sends the second, with expected = Pre-Compre + Compre and found = the final total, iff the final total exists and differs; it sends at most two messages, each naming its EmpID |
| `Validator.MismatchesBound` | task.go:133-145 | a list of n records sends at most 2n messages |
| `Validator.MismatchesFromRecords` | task.go:133-145 | a message is sent iff some record of the list produces it |
| `Validator.PreCompreMismatchIff` | task.go:134-137 | a Pre-Compre message names e iff some record with EmpID e fails the first check |
| `Validator.FinalTotalMismatchIff` | task.go:139-144 | a final-total message (e, expected, found) is sent iff some record with EmpID e has final total found and Pre-Compre + Compre = expected, and the two differ |
| `Validator.MismatchesAppend` | task.go:133-145 | the messages for a concatenation of lists are the concatenation of their messages |
| `Validator.MismatchesLast` | task.go:133-145 | the messages of a list are those of all records but the last together with those of the last |
| `Validator.MismatchesRemoveAt` | task.go:133-145 | the messages of a list are those of the list without record j together with those of record j |
| `Validator.MismatchesOrderIndependent` | task.go:133-145 | checking a permutation of the records yields the same multiset of messages |
| `Validator.ConsistentTotalIsFinalTotal` | task.go:139-144 | for a record with a final total that passes both checks, the computed Total equals its declared final total |
| `Validator.ValidateData` | task.go:132-146 | the loop sends exactly the messages above, in record order, and at most 2n of them |
| `Validator.MessageExcess` | task.go:133-145 | every record sends one message, except that a record failing both checks sends one more and a record passing both sends one fewer |
| `Validator.AsWrittenDeadlocksIff` | task.go:47-62 | with one channel slot per record, the run deadlocks iff more records fail both checks than pass both |
| `Validator.AsWrittenDeadlocks` | task.go:48 | one record failing both checks sends two messages into a one-slot channel, so the run blocks |
| `Validator.CorrectedNeverBlocks` | task.go:47-62 | with two slots per record, every message is delivered in send order |
| `Aggregator.ComponentSumOfAbsentKey` | task.go:152-156 | a key that no record holds sums to zero |
| `Aggregator.AddMarks` | task.go:153-155 | adding one record's marks: every key of the record is present afterwards, and its sum grew by that record's mark |
| `Aggregator.CalculateAverages` | task.go:148-156 | the sums map has exactly the keys found in some record, and each is the sum over all records of that key's mark (0 where absent); each average is its sum divided by the record count; with no records there is nothing to divide |
| `Aggregator.ComputeTotals` | task.go:168-171 | in place, every record's Total becomes Quiz + Mid-Sem + Lab Test + Weekly Labs + Compre, and nothing else changes |
| `Aggregator.BranchCountsMeaning` | task.go:173-177 | the accumulated counts have one entry per branch present, the number of its records |
| `Aggregator.BranchTotalsMeaning` | task.go:173-177 | the accumulated totals have one entry per branch present, the sum of its records' Totals |
| `Aggregator.BranchSumAbsent` | task.go:173-177 | a branch without records has total zero |
| `Aggregator.SumValuesRemove` | task.go:176 | the sum of the counts does not depend on which branch is taken first |
| `Aggregator.SumValuesUpdate` | task.go:176 | replacing one count changes the sum of the counts by the difference |
| `Aggregator.BranchCountsSumToLength` | task.go:173-177 | the per-branch counts add up to the number of records |
| `Aggregator.AccumulateBranches` | task.go:173-177 | the loop yields these totals and counts; every count is at least 1, and the counts add up to n |
| `Aggregator.CalculateBranchAverages` | task.go:164-177 | the records get their Totals in place; then per-branch totals, counts (each at least 1, so no division by zero) and averages = total / count |
| `Gradesheet.WithTotals` | task.go:189-192 | computing Totals keeps the number of records |
| `Gradesheet.WithTotalsIdempotent` | task.go:189-192 | recomputing Total (as `rankStudents` does after `calculateBranchAverages`) changes nothing, and only Total ever changes |
| `Gradesheet.InBranch` | task.go:202-205 | a branch group is no longer than the list |
| `Gradesheet.BranchSetSnoc` | task.go:202-205 | appending a record adds its branch to the branches present |
| `Gradesheet.BranchSetLast` | task.go:202-205 | the branches present are those of all records but the last, plus the last record's |
| `Gradesheet.InBranchSnoc` | task.go:204 | appending a record appends it to its own branch's group only |
| `Gradesheet.InBranchEmpty` | task.go:202-205 | a branch has a non-empty group iff it occurs in the list |
| `Gradesheet.InBranchMultiplicity` | task.go:202-205 | each group holds every record of its branch with its multiplicity and no other record, so the groups partition the list |
| `Gradesheet.InBranchMember` | task.go:202-205 | a record is in group b iff it is in the list and has branch b |
| `Gradesheet.InBranchPermutation` | task.go:194-205 | grouping a permutation of the list gives groups with the same contents |
| `Gradesheet.BranchSetPermutation` | task.go:194-205 | the branches present do not depend on the order of the records |
| `Gradesheet.BranchesOfWithTotals` | task.go:189-192 | computing Totals moves no record to another branch |
| `Gradesheet.InBranchLengthWithTotals` | task.go:189-192 | computing Totals keeps every group's size |
| `Ranker.SortedPrefixIsTopK` | task.go:198-200 | the first min(3, n) records of a sorted list are a valid top 3: sorted, drawn from the list, and no record left out has a higher Total than one reported |
| `Ranker.PrefixSplit` | task.go:198-200 | a prefix and the rest of a list together hold exactly the list's records |
| `Ranker.PrefixDominates` | task.go:198-200 | in a sorted list, no record after the prefix has a higher Total than one in it |
| `Ranker.InBranchOfSorted` | task.go:202-211 | a group taken from a sorted list is already sorted, so the second sort can only reorder ties |
| `Ranker.Swap` | task.go:194-196 | exchanging two entries keeps the multiset of records |
| `Ranker.InsertInto` | task.go:194-196 | one insertion step extends the sorted prefix by one, is a permutation, and leaves the rest of the array alone |
| `Ranker.SortByTotal` | task.go:194-196 | the array ends up in non-increasing Total order and is a permutation of its former contents |
| `Ranker.GroupByBranch` | task.go:202-205 | one group per branch present, each holding exactly that branch's records in list order |
| `Ranker.RankGroup` | task.go:209-216 | sorting a group and taking its first three gives a valid top 3 of the group |
| `Ranker.RankGroups` | task.go:208-217 | every group gets a valid top-3 report, and no other key is reported |
| `Ranker.RankBranches` | task.go:202-217 | every branch present gets a valid top-3 report of its records, and no other branch is reported |
| `Ranker.RankStudents` | task.go:186-217 | the caller's array ends up holding its records with their Totals, sorted by Total and permuted; the overall report is its first min(3, n) records and a valid top 3; every branch present gets a valid top 3 of its records with their Totals |
| `Pipeline.Summarise` | task.go:59-75 | after the messages are drained, the report is that of the given records: messages in order; component sums, and averages = sum / n with no average for an empty list; branch totals = sum of Totals, counts (each at least 1) and averages = total / count for every branch present; the records with their Totals, sorted; and valid top-3 reports overall and per branch |
| `Pipeline.Run` | task.go:41-75 | with one channel slot per record: the row loop's warnings are always produced; `main` then deadlocks exactly when more parsed records fail both checks than pass both, and otherwise reports on the parsed records as above |
| `Pipeline.RunCorrected` | task.go:41-75 | with two slots per record, `main` always produces the warnings and reports on the parsed records as above, every message delivered |
| `Pipeline.ScenarioParsed` | task.go:97-127 | of a header and two well-formed rows, both rows become records, in order |
| `Pipeline.ScenarioMarks` | task.go:118-124 | a scenario row's marks are the numbers in its cells |
| `Pipeline.Scenario` | task.go:132-171 | in the two-row scenario, B gets two messages (Pre-Compre, and final total expected 71 found 70) and A none; the Quiz average is 10; both Totals are 70 |

## Left out

- Opening the workbook and reading its first sheet (task.go:82-93) is file I/O, including its error returns. The model starts from the rows in memory, once the sheet's rows have been read (task.go:90).
- The usage check on the command-line arguments (task.go:35-38) is left out, and so are the `-export` and `-class` flags and their globals (task.go:22-32). The class filter is never used by the code.
- `exportToJSON` (task.go:220-241) is file output and JSON encoding.
- Every `fmt.Print*` call in the code is output formatting. This covers the text of the messages (a message is modelled by its kind and fields), `%.2f` rounding, and the order in which maps are printed.
- The goroutine and `sync.WaitGroup` of task.go:47-57 are not modelled as threads. The validator is the only sender and the receiver drains only after it has finished, so the channel is modelled by `Validator.Collect`. It either delivers every message in order, or, once the buffer is full, gives None, which stands for the fatal deadlock error from Go's runtime.
- Marks are reals, not IEEE-754 doubles. The rounding of sums, and NaN or infinity from `ParseFloat`, are not modelled; what `ParseFloat` returns is a parameter.
- Strings are sequences of characters, each standing for one byte. Go's `len` and slicing of a CampusID count bytes.
- `Ranker.SortByTotal`: the sort is an insertion sort in place of Go's pattern-defeating quicksort. Its contract (sorted, and a permutation) is all that `sort.Slice` promises, so which of several tied records ends up first is not determined.
- `Ranker.RankGroup`: Go sorts each group's own slice, which was built by appending copies of the records. The model sorts a fresh array holding the group, so nothing outside the group is changed in either case.

## Findings

| source | as written | input that shows it | evidently intended | confidence | as-written member | corrected member |
|---|---|---|---|---|---|---|
| task.go:48 | the mismatch channel has one slot per record, and `main` waits for the validator to finish before it drains the channel | one record whose base components add up to 0 with Pre-Compre 1, Compre 0 and final total 0: it sends two messages into one slot, so the second send blocks while `main` waits in `wg.Wait()`; with every goroutine asleep, Go's runtime normally stops the process with a fatal deadlock error, before any validation result or statistic is printed | a buffer large enough for every message the validator can send (two per record), or draining the channel while the validator runs | not executed | `Validator.AsWrittenDeadlocks` | `Validator.CorrectedNeverBlocks` |
