/**
 * The per-contest grouping (main.cpp:104-168): `countAll` folds the records
 * of one contest, starting at the enumerator's current record without
 * rewinding, and `ContestEnor` re-exposes those folds as an enumerator of
 * `Contest` values, one per maximal run of records with the same contest ID.
 */
module Grouping {
  import opened LineFormat
  import opened RecordEnumerator
  import opened AnglerSearch

  /** One contest: its ID, and whether some angler of it satisfies the condition. */
  datatype Contest = Contest(ID: string, anglersCondition: bool)

  /** `countAll::func`: a record's contribution. */
  function ContestContribution(c: Competition): Contest {
    Contest(c.comp, AnglerCond(c))
  }

  /** `countAll::neutral`. Its ID is the empty string. */
  function ContestNeutral(): Contest {
    Contest("", false)
  }

  /** `countAll::add`: keeps the left ID and ORs the conditions. */
  function ContestAdd(a: Contest, b: Contest): Contest {
    Contest(a.ID, a.anglersCondition || b.anglersCondition)
  }

  /** `countAll::whileCond`: the record still belongs to the contest `key`. */
  predicate WhileCond(key: string, c: Competition) {
    c.comp == key
  }

  /**
   * The neutral value is a right identity, but a left identity only for the
   * condition: on the left it replaces the ID by "".
   */
  lemma ContestNeutralIdentity(a: Contest)
    ensures ContestAdd(a, ContestNeutral()) == a
    ensures ContestAdd(ContestNeutral(), a) == Contest("", a.anglersCondition)
  {
  }

  lemma ContestAddIsAssociative(a: Contest, b: Contest, c: Contest)
    ensures ContestAdd(ContestAdd(a, b), c) == ContestAdd(a, ContestAdd(b, c))
  {
  }

  /** The summation `countAll` runs over a run of records. */
  function ContestFold(cs: seq<Competition>): Contest
    decreases |cs|
  {
    if cs == [] then ContestNeutral()
    else ContestAdd(ContestFold(cs[..|cs| - 1]), ContestContribution(cs[|cs| - 1]))
  }

  /**
   * The fold's ID is always "" (it comes from the neutral value), and its
   * condition is the OR of the angler condition over the run.
   */
  lemma {:induction false} ContestFoldMeaning(cs: seq<Competition>)
    ensures ContestFold(cs).ID == ""
    ensures ContestFold(cs).anglersCondition <==> exists i :: 0 <= i < |cs| && AnglerCond(cs[i])
    decreases |cs|
  {
    if cs != [] {
      var init := cs[..|cs| - 1];
      ContestFoldMeaning(init);
      assert forall i :: 0 <= i < |init| ==> init[i] == cs[i];
    }
  }

  /** Extending a folded slice by one record combines that record's contribution. */
  lemma ContestFoldStep(rs: seq<Competition>, p: nat, q: nat)
    requires p <= q < |rs|
    ensures ContestFold(rs[p..q + 1]) == ContestAdd(ContestFold(rs[p..q]), ContestContribution(rs[q]))
  {
    assert rs[p..q + 1][..q - p] == rs[p..q];
  }

  /** The fold of the slice `rs[p..q]` has ID "" and the OR of the condition over it. */
  lemma ContestFoldRun(rs: seq<Competition>, p: nat, q: nat)
    requires p <= q <= |rs|
    ensures ContestFold(rs[p..q]).ID == ""
    ensures ContestFold(rs[p..q]).anglersCondition <==> AnyCond(rs, p, q)
  {
    var run := rs[p..q];
    ContestFoldMeaning(run);
    assert forall i :: 0 <= i < |run| ==> run[i] == rs[p + i];
    if AnyCond(rs, p, q) {
      var j :| p <= j < q && AnglerCond(rs[j]);
      assert run[j - p] == rs[j];
    }
  }

  /** The end of the run of records with contest ID `key` that starts at `p`. */
  function RunEnd(rs: seq<Competition>, p: nat, key: string): (q: nat)
    requires p <= |rs|
    ensures p <= q <= |rs|
    ensures forall j :: p <= j < q ==> rs[j].comp == key
    ensures q == |rs| || rs[q].comp != key
    decreases |rs| - p
  {
    if p < |rs| && rs[p].comp == key then RunEnd(rs, p + 1, key) else p
  }

  /** Position `p` is the start of a run of equal contest IDs, or the end. */
  predicate RunBoundary(rs: seq<Competition>, p: nat)
    requires p <= |rs|
  {
    p == 0 || p == |rs| || rs[p - 1].comp != rs[p].comp
  }

  /** Some record in `rs[p..q]` satisfies the angler condition. */
  predicate AnyCond(rs: seq<Competition>, p: nat, q: nat)
    requires p <= q <= |rs|
  {
    exists j :: p <= j < q && AnglerCond(rs[j])
  }

  /** The contests of `rs[p..]`: one per maximal run of equal contest IDs, in order. */
  function GroupsFrom(rs: seq<Competition>, p: nat): seq<Contest>
    requires p <= |rs|
    decreases |rs| - p
  {
    if p == |rs| then []
    else
      var q := RunEnd(rs, p, rs[p].comp);
      [Contest(rs[p].comp, AnyCond(rs, p, q))] + GroupsFrom(rs, q)
  }

  function Groups(rs: seq<Competition>): seq<Contest> {
    GroupsFrom(rs, 0)
  }

  /**
   * There are at most as many contests as records, none exactly when there
   * are no records, and neighbouring contests have different IDs.
   */
  lemma {:induction false} GroupsFromShape(rs: seq<Competition>, p: nat)
    requires p <= |rs|
    ensures |GroupsFrom(rs, p)| <= |rs| - p
    ensures GroupsFrom(rs, p) == [] <==> p == |rs|
    ensures p < |rs| ==> GroupsFrom(rs, p)[0].ID == rs[p].comp
    ensures forall k :: 0 <= k < |GroupsFrom(rs, p)| - 1 ==>
      GroupsFrom(rs, p)[k].ID != GroupsFrom(rs, p)[k + 1].ID
    decreases |rs| - p
  {
    if p < |rs| {
      var q := RunEnd(rs, p, rs[p].comp);
      GroupsFromShape(rs, q);
    }
  }

  lemma GroupsShape(rs: seq<Competition>)
    ensures |Groups(rs)| <= |rs|
    ensures Groups(rs) == [] <==> rs == []
    ensures forall k :: 0 <= k < |Groups(rs)| - 1 ==> Groups(rs)[k].ID != Groups(rs)[k + 1].ID
  {
    GroupsFromShape(rs, 0);
  }

  /** Records with the same contest ID are adjacent. */
  ghost predicate Contiguous(rs: seq<Competition>) {
    forall i, j, k :: 0 <= i < j < k < |rs| && rs[i].comp == rs[k].comp ==> rs[j].comp == rs[i].comp
  }

  /** Under contiguity a contest's ID does not occur again after its run. */
  lemma RunKeyAbsentLater(rs: seq<Competition>, p: nat)
    requires Contiguous(rs) && p < |rs|
    ensures forall j :: RunEnd(rs, p, rs[p].comp) <= j < |rs| ==> rs[j].comp != rs[p].comp
  {
  }

  /** Some contest of `g` has the ID `id`. */
  predicate HasID(g: seq<Contest>, id: string) {
    exists a :: 0 <= a < |g| && g[a].ID == id
  }

  /** Every record's contest ID from `p` on is the ID of some contest of `rs[p..]`. */
  lemma {:induction false} GroupsFromCover(rs: seq<Competition>, p: nat)
    requires p <= |rs|
    ensures forall j :: p <= j < |rs| ==> HasID(GroupsFrom(rs, p), rs[j].comp)
    decreases |rs| - p
  {
    if p < |rs| {
      var q := RunEnd(rs, p, rs[p].comp);
      var g, rest := GroupsFrom(rs, p), GroupsFrom(rs, q);
      GroupsFromCover(rs, q);
      assert g == [Contest(rs[p].comp, AnyCond(rs, p, q))] + rest;
      forall j | p <= j < |rs| ensures HasID(g, rs[j].comp) {
        if j < q {
          assert g[0].ID == rs[j].comp;
        } else {
          var a :| 0 <= a < |rest| && rest[a].ID == rs[j].comp;
          assert g[a + 1] == rest[a];
        }
      }
    }
  }

  /**
   * Under contiguity every contest ID of `rs[p..]` comes from a record and
   * no two contests share an ID.
   */
  lemma {:induction false} GroupsFromDistinct(rs: seq<Competition>, p: nat)
    requires Contiguous(rs) && p <= |rs|
    ensures forall a :: 0 <= a < |GroupsFrom(rs, p)| ==>
      exists j :: p <= j < |rs| && rs[j].comp == GroupsFrom(rs, p)[a].ID
    ensures forall a, b :: 0 <= a < b < |GroupsFrom(rs, p)| ==>
      GroupsFrom(rs, p)[a].ID != GroupsFrom(rs, p)[b].ID
    decreases |rs| - p
  {
    if p < |rs| {
      var key := rs[p].comp;
      var q := RunEnd(rs, p, key);
      var g, rest := GroupsFrom(rs, p), GroupsFrom(rs, q);
      GroupsFromDistinct(rs, q);
      assert g == [Contest(key, AnyCond(rs, p, q))] + rest;
      RunKeyAbsentLater(rs, p);
      forall a | 0 <= a < |g| ensures exists j :: p <= j < |rs| && rs[j].comp == g[a].ID {
        if a == 0 {
          assert rs[p].comp == g[0].ID;
        } else {
          assert g[a] == rest[a - 1];
          var j :| q <= j < |rs| && rs[j].comp == rest[a - 1].ID;
          assert p <= j < |rs| && rs[j].comp == g[a].ID;
        }
      }
      forall a, b | 0 <= a < b < |g| ensures g[a].ID != g[b].ID {
        assert g[b] == rest[b - 1];
        if a > 0 {
          assert g[a] == rest[a - 1];
        } else {
          var j :| q <= j < |rs| && rs[j].comp == rest[b - 1].ID;
        }
      }
    } else {
      assert GroupsFrom(rs, p) == [];
    }
  }

  /**
   * Under contiguity the file's contests are one per contest ID: every
   * contest ID comes from a record, every record's contest ID is among the
   * contests, and no two contests share an ID.
   */
  lemma GroupsOnePerContest(rs: seq<Competition>)
    requires Contiguous(rs)
    ensures forall a :: 0 <= a < |Groups(rs)| ==>
      exists j :: 0 <= j < |rs| && rs[j].comp == Groups(rs)[a].ID
    ensures forall j :: 0 <= j < |rs| ==> HasID(Groups(rs), rs[j].comp)
    ensures forall a, b :: 0 <= a < b < |Groups(rs)| ==> Groups(rs)[a].ID != Groups(rs)[b].ID
  {
    var g := Groups(rs);
    assert g == GroupsFrom(rs, 0);
    GroupsFromDistinct(rs, 0);
    GroupsFromCover(rs, 0);
    forall a | 0 <= a < |g| ensures exists j :: 0 <= j < |rs| && rs[j].comp == g[a].ID {
      var j :| 0 <= j < |rs| && rs[j].comp == GroupsFrom(rs, 0)[a].ID;
    }
  }

  /** Lexicographic order on contest IDs. */
  predicate LexLe(a: string, b: string)
    decreases |a|
  {
    a == [] || (b != [] && (a[0] < b[0] || (a[0] == b[0] && LexLe(a[1..], b[1..]))))
  }

  lemma {:induction false} LexLeAntisymmetric(a: string, b: string)
    requires LexLe(a, b) && LexLe(b, a)
    ensures a == b
    decreases |a|
  {
    if a != [] {
      LexLeAntisymmetric(a[1..], b[1..]);
      assert a == [a[0]] + a[1..] && b == [b[0]] + b[1..];
    }
  }

  /** The file's lines are ordered by contest ID (main.cpp:13). */
  ghost predicate SortedByContest(rs: seq<Competition>) {
    forall i, j :: 0 <= i < j < |rs| ==> LexLe(rs[i].comp, rs[j].comp)
  }

  lemma SortedIsContiguous(rs: seq<Competition>)
    requires SortedByContest(rs)
    ensures Contiguous(rs)
  {
    forall i, j, k | 0 <= i < j < k < |rs| && rs[i].comp == rs[k].comp
      ensures rs[j].comp == rs[i].comp
    {
      LexLeAntisymmetric(rs[i].comp, rs[j].comp);
    }
  }

  /**
   * `countAll::run` on the contest `key`: starts at the current record (its
   * `first` does not rewind), folds while the records belong to `key`, and
   * leaves the enumerator on the first record of another contest or at the end.
   */
  method RunCountAll(f: RecordEnor, key: string) returns (res: Contest)
    requires f.Valid() && f.Started()
    modifies f
    ensures f.Valid() && f.Started()
    ensures f.Pos() == RunEnd(Records(f.lines), old(f.Pos()), key)
    ensures res == ContestFold(Records(f.lines)[old(f.Pos())..f.Pos()])
    ensures res.ID == ""
    ensures res.anglersCondition <==> AnyCond(Records(f.lines), old(f.Pos()), f.Pos())
  {
    ghost var rs := Records(f.lines);
    ghost var p0 := f.Pos();
    res := ContestNeutral();
    while !f.End() && WhileCond(key, f.Current())
      invariant f.Valid() && f.Started() && p0 <= f.Pos()
      invariant RunEnd(rs, f.Pos(), key) == RunEnd(rs, p0, key)
      invariant res == ContestFold(rs[p0..f.Pos()])
      decreases |f.lines| - f.Pos()
    {
      ContestFoldStep(rs, p0, f.Pos());
      res := ContestAdd(res, ContestContribution(f.Current()));
      f.Next();
    }
    ContestFoldRun(rs, p0, f.Pos());
  }

  /** `ContestEnor`: the enumerator of contests over the records of a file. */
  class ContestEnor {
    /** The underlying record enumerator (`_f`). */
    const f: RecordEnor
    var contest: Contest
    var atEnd: bool
    var empty: bool
    /** Where the current contest's run of records starts. */
    ghost var groupStart: nat

    /**
     * Once started, the record cursor is at the start of a run; unless at
     * the end, `contest` is the fold of the run that starts at `groupStart`
     * and ends at the record cursor.
     */
    ghost predicate Valid()
      reads this, f
    {
      && f.Valid()
      && (atEnd ==> f.Started() && f.End())
      && (f.Started() ==> RunBoundary(Records(f.lines), f.Pos()))
      && (f.Started() && !atEnd ==>
            && groupStart < f.Pos()
            && contest == Contest(Records(f.lines)[groupStart].comp,
                                  AnyCond(Records(f.lines), groupStart, f.Pos()))
            && f.Pos() == RunEnd(Records(f.lines), groupStart, contest.ID))
    }

    predicate Started()
      reads this, f
    {
      f.Started()
    }

    /** The contests still to be enumerated, the current one first. */
    ghost function Remaining(): seq<Contest>
      reads this, f
      requires Valid() && Started()
    {
      if atEnd then [] else [contest] + GroupsFrom(Records(f.lines), f.Pos())
    }

    function End(): (b: bool)
      reads this, f
      requires Valid() && Started()
      ensures b <==> Remaining() == []
    {
      atEnd
    }

    function Current(): (c: Contest)
      reads this, f
      requires Valid() && Started() && !End()
      ensures c == Remaining()[0]
    {
      contest
    }

    function IsEmpty(): bool
      reads this
    {
      empty
    }

    constructor (lines: seq<Line>)
      requires WellFormedFile(lines)
      ensures Valid() && !Started() && IsEmpty() && f.lines == lines && fresh(f)
    {
      f := new RecordEnor(lines);
      contest := Contest("", false);
      atEnd := false;
      empty := true;
    }

    /**
     * Reads the first record, then the first contest; the enumerator is
     * empty exactly when the file has no records.
     */
    method First()
      requires Valid() && !Started() && IsEmpty()
      modifies this, f
      ensures Valid() && Started()
      ensures Remaining() == Groups(Records(f.lines))
      ensures IsEmpty() <==> f.lines == []
    {
      f.First();
      Next();
      if !End() {
        empty := false;
      }
    }

    /**
     * Ends when the records are exhausted; otherwise takes the ID from the
     * current record and runs `countAll` over its contest, which leaves the
     * record enumerator on the next contest's first record or at the end.
     */
    method Next()
      requires f.Valid() && f.Started() && RunBoundary(Records(f.lines), f.Pos())
      modifies this, f
      ensures Valid() && Started()
      ensures atEnd == old(f.End())
      ensures atEnd ==> f.Pos() == old(f.Pos())
      ensures !atEnd ==> contest.ID == Records(f.lines)[old(f.Pos())].comp
      ensures !atEnd ==> f.Pos() == RunEnd(Records(f.lines), old(f.Pos()), contest.ID)
      ensures !atEnd ==> (contest.anglersCondition <==> AnyCond(Records(f.lines), old(f.Pos()), f.Pos()))
      ensures Remaining() == GroupsFrom(Records(f.lines), old(f.Pos()))
      ensures empty == old(empty)
    {
      atEnd := f.End();
      if atEnd {
        return;
      }
      contest := contest.(ID := f.Current().comp);
      groupStart := f.Pos();
      var pr := RunCountAll(f, contest.ID);
      contest := contest.(anglersCondition := pr.anglersCondition);
    }
  }
}
