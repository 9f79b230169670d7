/**
 * The program's decision (main.cpp:196-236): search for a qualifying angler,
 * count the qualifying contests, and report an empty file, a found angler or
 * no angler, in that order of priority, with the count whenever the file is
 * not empty. A file that cannot be opened is reported as not found.
 */
module Report {
  import opened Wrappers
  import opened LineFormat
  import opened RecordEnumerator
  import opened AnglerSearch
  import opened Grouping
  import opened ContestCount

  datatype Outcome =
    | FileNotFound
    | EmptyFile
    | AnglerFound(name: string, comp: string, contests: nat)
    | NoAngler(contests: nat)

  /**
   * The report for a file, given as its lines when it could be opened.
   * Both the search and the contest enumerator open the file afresh.
   */
  method RunReport(file: Option<seq<Line>>) returns (o: Outcome)
    requires file.Some? ==> WellFormedFile(file.value)
    ensures o == FileNotFound <==> file.None?
    ensures o == EmptyFile <==> file == Some([])
    ensures o.AnglerFound? || o.NoAngler? ==>
      && file.Some?
      && o.contests == CountTrue(Groups(Records(file.value)))
      && o.contests <= |file.value|
    ensures o.AnglerFound? <==>
      file.Some? && file.value != [] && FirstMatch(Records(file.value)).Some?
    ensures o.AnglerFound? ==>
      var angler := Records(file.value)[FirstMatch(Records(file.value)).value];
      o.name == angler.name && o.comp == angler.comp && o.contests > 0
    ensures o.NoAngler? ==> o.contests == 0
    ensures o.AnglerFound? || o.NoAngler? ==>
      SortedByContest(Records(file.value)) ==>
      o.contests == |QualifyingContests(Records(file.value))|
  {
    if file.None? {
      return FileNotFound;
    }
    var lines := file.value;
    var enor := new RecordEnor(lines);
    var found, elem := FindAngler(enor);
    var contestEnor := new ContestEnor(lines);
    var count := CountContests(contestEnor);
    ghost var rs := Records(lines);
    CountPositiveIffFound(rs);
    CountTrueBound(Groups(rs));
    GroupsShape(rs);
    if SortedByContest(rs) {
      SortedIsContiguous(rs);
      CountIsQualifyingContests(rs);
    }
    if contestEnor.IsEmpty() {
      o := EmptyFile;
    } else if found {
      o := AnglerFound(elem.name, elem.comp, count);
    } else {
      o := NoAngler(count);
    }
  }
}
