# National Angling Championship report, modelled in Dafny

The program reads a results file in which every line holds an angler's name,
a contest ID and the (species, size) pairs of the fish the angler caught; the
lines are ordered by contest ID. It answers two questions: (1) is there an
angler who caught only catfish, and at least three of them, in one contest
(and which one, first in file order); (2) in how many contests did at least
one angler do so.

The model follows `main.cpp` component by component:

- `Catches` (catches.dfy): the catch record and `optSum`, the fold of a
  line's catches into (all catfish, number of catfish), with its neutral
  value, its combining operator and what the fold computes.
- `LineFormat` (lineformat.dfy): a line as its list of tokens, the reading
  of the size numerals, the pairwise reading of the catches until the
  tokens run out, and `ReadCompetition`, the loop that reads one line and
  sums its catches. A rendering of lines is the parser's partner: reading a
  rendered line gives back its name, contest and catch summary.
- `RecordEnumerator` (recordenumerator.dfy): the file enumerator of
  competitor records as a class with a cursor; every step reads the next
  line as a `Competition`.
- `AnglerSearch` (search.dfy): the condition of `isThereAnAngler`, the
  first-match specification and the linear search loop.
- `Grouping` (grouping.dfy): `countAll` (its contribution, neutral value,
  combining operator and `whileCond`), the fold bounded to one contest that
  starts at the current record without rewinding, and `ContestEnor`, the
  enumerator of contests, whose remaining output is always the list of
  maximal runs of equal contest IDs from the record cursor on.
- `ContestCount` (contestcount.dfy): `OutputCnt` and its counting loop over
  the contest enumerator, and the theorems relating the count to the
  records.
- `Report` (report.dfy): the decision in `main`.

A library fold normally restarts its enumerator and has an identity as its
neutral value; `countAll` in main.cpp overrides both, and the model follows
main.cpp. `countAll::first` is a no-op, so a grouped fold continues from the
enumerator's current record instead of restarting. Its neutral value
`("", false)` is not a left identity: the folded ID is always `""`. That is
why `ContestEnor::next` takes the ID from the current record. The grouping
yields one contest per maximal run of equal IDs; it yields one per distinct
contest only because the file is sorted. `SortedIsContiguous` and
`CountIsQualifyingContests` state this.

## Model

| member | source | states |
|---|---|---|
| `Catches.Contribution` | main.cpp:54 | `optSum::func`; its meaning over a whole list is stated by `Catches.FoldMeaning` |
| `Catches.Neutral` | main.cpp:55 | `optSum::neutral`, (true, 0); `Catches.NeutralIsIdentity` proves it an identity |
| `Catches.Add` | main.cpp:56-60 | `optSum::add`; `Catches.AddIsAssociative` and `Catches.NeutralIsIdentity` give its laws |
| `Catches.Fold` | main.cpp:83-91 | the `optSum` run over a line's catches; `Catches.FoldMeaning` and `Catches.FoldAppend` state what it computes |
| `LineFormat.NumeralValue` | main.cpp:35 | reading a size token; `LineFormat.NumeralRoundTrip` proves it inverts decimal writing |
| `LineFormat.ParseCatches` | main.cpp:33-37 | the catches read from a line's tail; `LineFormat.ParseCatchesAt` and `LineFormat.ParseRenderCatches` state its meaning |
| `LineFormat.CompetitionOf` | main.cpp:75-93 | the record a line reads as; `LineFormat.CompetitionOfMeaning` and `LineFormat.ReadRenderedLine` state its meaning |
| `AnglerSearch.AnglerCond` | main.cpp:98-101 | the search condition; `AnglerSearch.AnglerCondOnLine` states it on a line's tokens |
| `Grouping.ContestContribution` | main.cpp:120 | `countAll::func`; `Grouping.ContestFoldMeaning` states its effect over a run |
| `Grouping.ContestNeutral` | main.cpp:121 | `countAll::neutral`, ("", false); `Grouping.ContestNeutralIdentity` shows it is a right identity only |
| `Grouping.ContestAdd` | main.cpp:122-125 | `countAll::add`; `Grouping.ContestAddIsAssociative` and `Grouping.ContestNeutralIdentity` give its laws |
| `Grouping.WhileCond` | main.cpp:127 | `countAll::whileCond`; `Grouping.RunEnd` and `Grouping.RunCountAll` state where it stops the fold |
| `Grouping.ContestFold` | main.cpp:162-165 | the `countAll` run's fold; `Grouping.ContestFoldMeaning` states its ID and condition |
| `Grouping.GroupsFrom` | main.cpp:155-168 | the contests enumerated from a record position; `Grouping.GroupsFromShape` and `Grouping.GroupsFromDistinct` state their shape |
| `Grouping.ContestEnor.IsEmpty` | main.cpp:151 | `isEmpty`; `Grouping.ContestEnor.First` proves it holds exactly for a file without records |
| `ContestCount.OutputCond` | main.cpp:189-192 | `OutputCnt::cond`; `ContestCount.CountTrueBound` and `ContestCount.CountContests` state the count it drives |
| `ContestCount.CountTrue` | main.cpp:187-193 | the number of contests satisfying `OutputCnt::cond`; `ContestCount.CountTrueBound` and `ContestCount.CountIsQualifyingContests` state its meaning |
| `Catches.NeutralIsIdentity` | main.cpp:55-59 | (true, 0) is a left and a right identity of the conjunction-and-sum operator |
| `Catches.AddIsAssociative` | main.cpp:56-60 | the conjunction-and-sum operator is associative |
| `Catches.FoldMeaning` | main.cpp:52-61 | folding a catch list yields `allCatfish` exactly when every species is "catfish" and `catfishCnt` equal to the number of catfish; the empty list yields (true, 0) |
| `Catches.FoldAppend` | main.cpp:52-61 | the fold of a concatenation is the combination of the folds of its parts |
| `Catches.CatfishCountBound` | main.cpp:54 | the catfish count is at most the number of catches, and equals it exactly when all catches are catfish |
| `LineFormat.NumeralRoundTrip` | main.cpp:35 | reading the decimal numeral of a size gives the size back |
| `LineFormat.ParseCatchesAt` | main.cpp:33-37 | the tail of a line is consumed as successive pairs: there are half as many catches as tokens, and catch k is species token 2k with size token 2k+1 |
| `LineFormat.ParseRenderCatches` | main.cpp:33-37 | reading the tokens written for a catch list gives the same list back |
| `LineFormat.RenderLine` | main.cpp:10-17 | a line written as name, contest ID and catch pairs is in the correct form |
| `LineFormat.CompetitionOfMeaning` | main.cpp:75-93 | a read line has the first token as name and the second as contest ID; `allCatfish` holds exactly when every species token is "catfish"; `catfishCnt` is the number of catfish and at most the number of pairs |
| `LineFormat.ReadRenderedLine` | main.cpp:75-93 | reading a written line gives its name, contest ID, whether all catches are catfish and how many are |
| `LineFormat.ReadCompetition` | main.cpp:75-93 | the reading loop over the catch pairs computes exactly the record of the line |
| `RecordEnumerator.RecordEnor.constructor` | main.cpp:202 | a newly opened enumerator holds the file's lines and has not started |
| `RecordEnumerator.RecordEnor.First` | main.cpp:146 | the first step on a freshly opened file puts the cursor on record 0, or at the end for an empty file |
| `RecordEnumerator.RecordEnor.Next` | main.cpp:75-93 | each step reads one further line and moves the cursor one record on |
| `RecordEnumerator.RecordEnor.Current` | main.cpp:160 | the current element is the record read from the line at the cursor |
| `RecordEnumerator.RecordEnor.End` | main.cpp:157 | the enumerator is at its end exactly when the cursor has passed every line |
| `AnglerSearch.AnglerCondOnLine` | main.cpp:98-101 | a line satisfies the search condition exactly when it has at least three catch pairs and every species is "catfish" |
| `AnglerSearch.FirstMatch` | main.cpp:96-102 | a found index lies within the records |
| `AnglerSearch.FirstMatchMeaning` | main.cpp:96-102 | there is no match exactly when no record satisfies the condition; a match is the first satisfying record in file order |
| `AnglerSearch.FindAngler` | main.cpp:200-205 | `found` holds exactly when some record satisfies the condition, and the element is then the first such record; the search stops one record past it |
| `Grouping.ContestNeutralIdentity` | main.cpp:121-124 | `("", false)` is a right identity of `countAll::add`, but on the left it replaces the ID by "" |
| `Grouping.ContestAddIsAssociative` | main.cpp:122-125 | `countAll::add` is associative |
| `Grouping.ContestFoldMeaning` | main.cpp:120-125 | a `countAll` fold has ID "" and its condition is the OR of the angler condition over the folded records |
| `Grouping.RunEnd` | main.cpp:127 | the run of contest `key` from a position ends at the first later record with another ID, or at the end, and every record before that has ID `key` |
| `Grouping.RunCountAll` | main.cpp:113-129 | `countAll` starts at the current record without rewinding, stops at the first record of another contest or at the end, yields ID "" and the OR of the condition over exactly that run |
| `Grouping.GroupsFromShape` | main.cpp:155-168 | from any position the contests number at most the records left, there are none exactly at the end, the first has the current record's ID and neighbouring contests differ in ID |
| `Grouping.GroupsShape` | main.cpp:146 | the file's contests number at most its records, there are none exactly when the file has no records, and neighbouring contests differ in ID |
| `Grouping.GroupsFromDistinct` | main.cpp:13 | when the records of a contest are adjacent, every contest ID from a position comes from the records there and no two contests share an ID |
| `Grouping.GroupsFromCover` | main.cpp:155-168 | every record's contest ID from a position is the ID of one of the contests enumerated from there |
| `Grouping.GroupsOnePerContest` | main.cpp:13 | when the records of a contest are adjacent, there is one contest per contest ID of the file: every contest ID comes from a record, every record's contest ID is among the contests, and no two contests share an ID |
| `Grouping.SortedIsContiguous` | main.cpp:13 | a file ordered by contest ID has the records of each contest adjacent |
| `Grouping.ContestEnor.constructor` | main.cpp:143 | a new contest enumerator owns a freshly opened record enumerator and is marked empty |
| `Grouping.ContestEnor.First` | main.cpp:146 | after `first` the enumerator's invariant holds (the record cursor at the start of a run, the current contest the fold of the run just read), and the contests still to come are exactly the runs of equal contest IDs of the file, and `isEmpty` holds exactly when the file has no records |
| `Grouping.ContestEnor.Next` | main.cpp:155-168 | `end` becomes true exactly when the records were exhausted on entry; otherwise the ID is that of the record at the group start, the record cursor has moved past every record of that contest onto the next contest's first record or the end, and the condition is the OR over that run; one contest has been consumed |
| `Grouping.ContestEnor.End` | main.cpp:148 | the enumerator is at its end exactly when no contest remains |
| `Grouping.ContestEnor.Current` | main.cpp:149 | the current contest is the first remaining one |
| `ContestCount.CountTrueBound` | main.cpp:187-193 | the count is at most the number of contests, and 0 exactly when no contest satisfies the condition |
| `ContestCount.CountContests` | main.cpp:207-211 | the counting run yields the number of enumerated contests whose condition holds, and leaves `isEmpty` true exactly for a file without records |
| `ContestCount.QualifyingSplit` | main.cpp:155-168 | the qualifying contest IDs from a position are that of the first run, if it qualifies, and those after it |
| `ContestCount.CountGroupsFrom` | main.cpp:22-23 | with adjacent contests, the count from a position is the number of distinct qualifying contest IDs from there |
| `ContestCount.CountIsQualifyingContests` | main.cpp:22-23 | with adjacent contests, the count is the number of distinct contests in which some angler caught only catfish, and at least three |
| `ContestCount.CountPositiveIffFound` | main.cpp:213-229 | some contest counts exactly when the search finds an angler |
| `Report.RunReport` | main.cpp:196-236 | a missing file is reported as such; otherwise an empty file, a found angler (the first in file order, with its contest ID) or no angler, in that priority, and the count of qualifying contests whenever the file is not empty; the count is positive exactly when an angler is found, and for a sorted file it is the number of distinct qualifying contests |

## Left out

- File and stream input: opening the file, `getline`, `stringstream` and the extraction operators. A line is modelled as its list of tokens and the file as its list of lines. A file that cannot be opened is the `None` input of `Report.RunReport`.
- The bodies of the library's summation, counting and linear-search algorithms and enumerators: the header files are not part of this model. Each run is modelled as the usual loop: start from the neutral value or zero, and advance while the enumerator is not at its end and, for `countAll`, while `whileCond` holds.
- `RecordEnumerator.RecordEnor.First`: modelled only on a freshly opened enumerator, as every caller in main.cpp uses it. Whether the library rewinds a file on a second `first()` is not claimed.
- `AnglerSearch.FindAngler`: the cursor position after a match (one record past it) follows the usual shape of a linear-search loop. The position is not used by `main`.
- Opening the file twice: main.cpp opens `input.txt` once for the search (main.cpp:202) and again for the contest enumerator (main.cpp:208). The model gives both the same lines, so it assumes the file neither changes nor fails to open between the two opens.
- The `Output` class (main.cpp:171-184): it formats contests as text and `main` never uses it.
- Console message text: the decision is returned as an `Outcome` value. The exception for a missing file is the `FileNotFound` outcome.
- Memory ownership, the `new`/`delete` of the record enumerator: not modelled.
- Uninitialised fields before `first()`: by default, `Result`, `Contest` and the end flag are left unset. The model gives them fixed initial values that nothing reads.
- Malformed lines: the program assumes the correct form (main.cpp:13-14). `WellFormedLine` is the matching precondition: two leading tokens, then pairs whose size is a decimal numeral.
- Integer width: `size` and `catfishCnt` are C++ `int`. The model uses unbounded naturals, so overflow and signed size tokens are not modelled.
