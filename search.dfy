/**
 * `isThereAnAngler` (main.cpp:96-102): a linear search over the competitor
 * records for the first angler who caught only catfish, and at least three.
 */
module AnglerSearch {
  import opened Wrappers
  import opened Catches
  import opened LineFormat
  import opened RecordEnumerator

  /** The search condition, also the per-angler condition of `countAll`. */
  predicate AnglerCond(c: Competition) {
    c.allCatfish && c.catfishCnt >= 3
  }

  /**
   * On a line, the condition means: only catfish, and at least three of
   * them, that is at least three (species, size) pairs all naming "catfish".
   */
  lemma AnglerCondOnLine(toks: Line)
    requires WellFormedLine(toks)
    ensures AnglerCond(CompetitionOf(toks)) <==>
      |toks| >= 8 && forall i :: 2 <= i < |toks| && i % 2 == 0 ==> toks[i] == "catfish"
  {
    var fs := ParseCatches(toks[2..]);
    CompetitionOfMeaning(toks);
    FoldMeaning(fs);
    ParseCatchesAt(toks[2..]);
    CatfishCountBound(fs);
  }

  /** The index of the first record that satisfies the condition. */
  function FirstMatch(rs: seq<Competition>): (r: Option<nat>)
    ensures r.Some? ==> r.value < |rs|
    decreases |rs|
  {
    if rs == [] then None
    else if AnglerCond(rs[0]) then Some(0)
    else match FirstMatch(rs[1..])
      case None => None
      case Some(i) => Some(i + 1)
  }

  lemma {:induction false} FirstMatchMeaning(rs: seq<Competition>)
    ensures FirstMatch(rs).None? <==> forall j :: 0 <= j < |rs| ==> !AnglerCond(rs[j])
    ensures FirstMatch(rs).Some? ==>
      && FirstMatch(rs).value < |rs|
      && AnglerCond(rs[FirstMatch(rs).value])
      && forall j :: 0 <= j < FirstMatch(rs).value ==> !AnglerCond(rs[j])
    decreases |rs|
  {
    if rs != [] && !AnglerCond(rs[0]) {
      FirstMatchMeaning(rs[1..]);
      assert forall j :: 1 <= j < |rs| ==> rs[j] == rs[1..][j - 1];
    }
  }

  /**
   * The search run over a freshly opened record enumerator (main.cpp:200-205):
   * it stops at the first satisfying record, having moved past it once, or
   * at the end when there is none.
   */
  method FindAngler(e: RecordEnor) returns (found: bool, elem: Competition)
    requires e.Valid() && !e.Started()
    modifies e
    ensures e.Valid() && e.Started()
    ensures found <==> FirstMatch(Records(e.lines)).Some?
    ensures found ==> elem == Records(e.lines)[FirstMatch(Records(e.lines)).value]
    ensures e.Pos() == if found then FirstMatch(Records(e.lines)).value + 1 else |e.lines|
  {
    ghost var rs := Records(e.lines);
    e.First();
    found := false;
    elem := Competition("", "", false, 0);
    while !found && !e.End()
      invariant e.Valid() && e.Started()
      invariant !found ==> forall j :: 0 <= j < e.Pos() ==> !AnglerCond(rs[j])
      invariant found ==> 1 <= e.Pos() && elem == rs[e.Pos() - 1] && AnglerCond(elem)
      invariant found ==> forall j :: 0 <= j < e.Pos() - 1 ==> !AnglerCond(rs[j])
      decreases |e.lines| - e.Pos()
    {
      elem := e.Current();
      found := AnglerCond(elem);
      e.Next();
    }
    FirstMatchMeaning(rs);
  }
}
