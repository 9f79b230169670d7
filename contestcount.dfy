/**
 * `OutputCnt` (main.cpp:187-193): counts, over the contest enumerator, the
 * contests where at least one angler satisfies the condition.
 */
module ContestCount {
  import opened LineFormat
  import opened AnglerSearch
  import opened Grouping

  /** `OutputCnt::cond`. */
  predicate OutputCond(c: Contest) {
    c.anglersCondition
  }

  /** The number of contests that satisfy `OutputCond`. */
  function CountTrue(cs: seq<Contest>): nat
    decreases |cs|
  {
    if cs == [] then 0 else (if OutputCond(cs[0]) then 1 else 0) + CountTrue(cs[1..])
  }

  /** The count never exceeds the number of contests, and is 0 exactly when none qualifies. */
  lemma {:induction false} CountTrueBound(cs: seq<Contest>)
    ensures CountTrue(cs) <= |cs|
    ensures CountTrue(cs) == 0 <==> forall k :: 0 <= k < |cs| ==> !OutputCond(cs[k])
    decreases |cs|
  {
    if cs != [] {
      CountTrueBound(cs[1..]);
      assert forall k :: 1 <= k < |cs| ==> cs[k] == cs[1..][k - 1];
    }
  }

  /**
   * The counting run over a freshly constructed contest enumerator
   * (main.cpp:207-211): every enumerated contest is visited once.
   */
  method CountContests(ce: ContestEnor) returns (n: nat)
    requires ce.Valid() && !ce.Started() && ce.IsEmpty()
    modifies ce, ce.f
    ensures ce.Valid() && ce.Started() && ce.End()
    ensures n == CountTrue(Groups(Records(ce.f.lines)))
    ensures ce.IsEmpty() <==> ce.f.lines == []
  {
    ghost var total := CountTrue(Groups(Records(ce.f.lines)));
    n := 0;
    ce.First();
    while !ce.End()
      invariant ce.Valid() && ce.Started()
      invariant n + CountTrue(ce.Remaining()) == total
      invariant ce.IsEmpty() <==> ce.f.lines == []
      decreases |ce.Remaining()|
    {
      if OutputCond(ce.Current()) {
        n := n + 1;
      }
      ce.Next();
    }
  }

  /** The contest IDs among `rs[p..]` that have a satisfying angler. */
  ghost function QualifyingFrom(rs: seq<Competition>, p: nat): set<string>
    requires p <= |rs|
  {
    set i | p <= i < |rs| && AnglerCond(rs[i]) :: rs[i].comp
  }

  /** The contest IDs of the file that have a satisfying angler. */
  ghost function QualifyingContests(rs: seq<Competition>): set<string> {
    QualifyingFrom(rs, 0)
  }

  /** The qualifying IDs of `rs[p..]` are those of its first run and those after it. */
  lemma QualifyingSplit(rs: seq<Competition>, p: nat)
    requires p < |rs|
    ensures QualifyingFrom(rs, p) ==
      (if AnyCond(rs, p, RunEnd(rs, p, rs[p].comp)) then {rs[p].comp} else {})
      + QualifyingFrom(rs, RunEnd(rs, p, rs[p].comp))
  {
  }

  lemma {:induction false} CountGroupsFrom(rs: seq<Competition>, p: nat)
    requires Contiguous(rs) && p <= |rs|
    ensures CountTrue(GroupsFrom(rs, p)) == |QualifyingFrom(rs, p)|
    decreases |rs| - p
  {
    if p == |rs| {
      assert QualifyingFrom(rs, p) == {};
    } else {
      var key := rs[p].comp;
      var q := RunEnd(rs, p, key);
      CountGroupsFrom(rs, q);
      QualifyingSplit(rs, p);
      RunKeyAbsentLater(rs, p);
      assert key !in QualifyingFrom(rs, q);
    }
  }

  /**
   * For a file whose records of one contest are adjacent (as a file ordered
   * by contest ID is), the count is the number of distinct contests in
   * which some angler caught only catfish, and at least three.
   */
  lemma CountIsQualifyingContests(rs: seq<Competition>)
    requires Contiguous(rs)
    ensures CountTrue(Groups(rs)) == |QualifyingContests(rs)|
  {
    CountGroupsFrom(rs, 0);
  }

  lemma {:induction false} CountPositiveFrom(rs: seq<Competition>, p: nat)
    requires p <= |rs|
    ensures CountTrue(GroupsFrom(rs, p)) > 0 <==> exists i :: p <= i < |rs| && AnglerCond(rs[i])
    decreases |rs| - p
  {
    if p < |rs| {
      var q := RunEnd(rs, p, rs[p].comp);
      CountPositiveFrom(rs, q);
      var g := GroupsFrom(rs, p);
      assert g[1..] == GroupsFrom(rs, q);
      if exists i :: p <= i < |rs| && AnglerCond(rs[i]) {
        var i :| p <= i < |rs| && AnglerCond(rs[i]);
        if i < q {
          assert AnyCond(rs, p, q);
        }
      }
    }
  }

  /** The two answers agree: some contest counts exactly when the search finds an angler. */
  lemma CountPositiveIffFound(rs: seq<Competition>)
    ensures CountTrue(Groups(rs)) > 0 <==> FirstMatch(rs).Some?
  {
    CountPositiveFrom(rs, 0);
    FirstMatchMeaning(rs);
  }
}
