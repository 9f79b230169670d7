/**
 * The catches on one line of the results file and the `optSum` fold over
 * them (main.cpp:28-61): each catch contributes whether it is a catfish and
 * how many catfish it is, and the contributions are combined by conjunction
 * and sum, starting from the neutral value (true, 0).
 */
module Catches {

  /** One (species, size) pair of a line. The size is a natural number. */
  datatype Fish = Fish(species: string, size: nat)

  /** The accumulator of the fold (`Result` in main.cpp). */
  datatype Summary = Summary(allCatfish: bool, catfishCnt: nat)

  predicate IsCatfish(f: Fish) {
    f.species == "catfish"
  }

  /** `optSum::func`: the contribution of one catch. */
  function Contribution(f: Fish): Summary {
    Summary(IsCatfish(f), if IsCatfish(f) then 1 else 0)
  }

  /** `optSum::neutral`. */
  function Neutral(): Summary {
    Summary(true, 0)
  }

  /** `optSum::add`. */
  function Add(a: Summary, b: Summary): Summary {
    Summary(a.allCatfish && b.allCatfish, a.catfishCnt + b.catfishCnt)
  }

  lemma NeutralIsIdentity(a: Summary)
    ensures Add(Neutral(), a) == a
    ensures Add(a, Neutral()) == a
  {
  }

  lemma AddIsAssociative(a: Summary, b: Summary, c: Summary)
    ensures Add(Add(a, b), c) == Add(a, Add(b, c))
  {
  }

  /**
   * The fold the summation runs: start from the neutral value and combine
   * the contribution of every catch, left to right.
   */
  function Fold(fs: seq<Fish>): Summary
    decreases |fs|
  {
    if fs == [] then Neutral()
    else Add(Fold(fs[..|fs| - 1]), Contribution(fs[|fs| - 1]))
  }

  /** Reference definitions: every catch is a catfish; the number of catfish. */
  predicate AllCatfish(fs: seq<Fish>) {
    forall i :: 0 <= i < |fs| ==> IsCatfish(fs[i])
  }

  function CatfishCount(fs: seq<Fish>): nat
    decreases |fs|
  {
    if fs == [] then 0 else (if IsCatfish(fs[0]) then 1 else 0) + CatfishCount(fs[1..])
  }

  lemma {:induction false} CatfishCountAppend(fs: seq<Fish>, f: Fish)
    ensures CatfishCount(fs + [f]) == CatfishCount(fs) + (if IsCatfish(f) then 1 else 0)
    decreases |fs|
  {
    if fs != [] {
      assert (fs + [f])[1..] == fs[1..] + [f];
      CatfishCountAppend(fs[1..], f);
    }
  }

  /** The count never exceeds the number of catches, and reaches it exactly when all are catfish. */
  lemma {:induction false} CatfishCountBound(fs: seq<Fish>)
    ensures CatfishCount(fs) <= |fs|
    ensures CatfishCount(fs) == |fs| <==> AllCatfish(fs)
    decreases |fs|
  {
    if fs != [] {
      CatfishCountBound(fs[1..]);
      if AllCatfish(fs[1..]) && IsCatfish(fs[0]) {
        forall i | 0 <= i < |fs| ensures IsCatfish(fs[i]) {
          if i > 0 { assert fs[i] == fs[1..][i - 1]; }
        }
      }
      if AllCatfish(fs) {
        forall i | 0 <= i < |fs| - 1 ensures IsCatfish(fs[1..][i]) {
          assert fs[1..][i] == fs[i + 1];
        }
      }
    }
  }

  /**
   * What the fold computes: `allCatfish` holds exactly when every catch is a
   * catfish and `catfishCnt` is the number of catfish; in particular the
   * empty list folds to (true, 0).
   */
  lemma {:induction false} FoldMeaning(fs: seq<Fish>)
    ensures Fold(fs) == Summary(AllCatfish(fs), CatfishCount(fs))
    decreases |fs|
  {
    if fs != [] {
      var init, last := fs[..|fs| - 1], fs[|fs| - 1];
      assert fs == init + [last];
      FoldMeaning(init);
      CatfishCountAppend(init, last);
      assert AllCatfish(fs) <==> AllCatfish(init) && IsCatfish(last) by {
        if AllCatfish(init) && IsCatfish(last) {
          forall i | 0 <= i < |fs| ensures IsCatfish(fs[i]) {
            if i < |init| { assert fs[i] == init[i]; }
          }
        }
      }
    }
  }

  /** Folding a concatenation combines the folds of the parts. */
  lemma {:induction false} FoldAppend(a: seq<Fish>, b: seq<Fish>)
    ensures Fold(a + b) == Add(Fold(a), Fold(b))
    decreases |b|
  {
    if b == [] {
      assert a + b == a;
      NeutralIsIdentity(Fold(a));
    } else {
      var init, last := b[..|b| - 1], b[|b| - 1];
      assert (a + b)[..|a + b| - 1] == a + init;
      FoldAppend(a, init);
      AddIsAssociative(Fold(a), Fold(init), Contribution(last));
    }
  }
}
