/**
 * One line of the results file, already split into its whitespace-separated
 * tokens: the angler's name, the contest ID, then any number of
 * (species, size) pairs read until the tokens run out (main.cpp:33-37,
 * 64-93). Reading a line folds its catches with `optSum` at once, so a
 * `Competition` keeps only the two aggregates.
 */
module LineFormat {
  import opened Catches

  /** A line as its sequence of tokens. */
  type Line = seq<string>

  /** A competitor's record as read from one line. */
  datatype Competition = Competition(name: string, comp: string, allCatfish: bool, catfishCnt: nat)

  predicate IsDigit(c: char) {
    '0' <= c <= '9'
  }

  /** A size token: a non-empty string of decimal digits. */
  predicate IsNumeral(t: string) {
    |t| > 0 && forall i :: 0 <= i < |t| ==> IsDigit(t[i])
  }

  function DigitValue(c: char): nat
    requires IsDigit(c)
  {
    c as int - '0' as int
  }

  function DigitChar(d: nat): (c: char)
    requires d < 10
    ensures IsDigit(c) && DigitValue(c) == d
  {
    ('0' as int + d) as char
  }

  /** The value of a numeral, read left to right as integer extraction does. */
  function NumeralValue(t: string): nat
    requires IsNumeral(t)
    decreases |t|
  {
    if |t| == 1 then DigitValue(t[0])
    else 10 * NumeralValue(t[..|t| - 1]) + DigitValue(t[|t| - 1])
  }

  /** The decimal numeral of a natural number. */
  function Numeral(n: nat): (t: string)
    ensures IsNumeral(t)
    decreases n
  {
    if n < 10 then [DigitChar(n)] else Numeral(n / 10) + [DigitChar(n % 10)]
  }

  lemma {:induction false} NumeralRoundTrip(n: nat)
    ensures NumeralValue(Numeral(n)) == n
    decreases n
  {
    if n >= 10 {
      var t := Numeral(n);
      assert t[..|t| - 1] == Numeral(n / 10);
      NumeralRoundTrip(n / 10);
    }
  }

  /** The tail of a line: (species, size) pairs, every size a numeral. */
  predicate WellFormedTail(tail: Line) {
    |tail| % 2 == 0 && forall i :: 0 <= i < |tail| && i % 2 == 1 ==> IsNumeral(tail[i])
  }

  /** A line in the correct form the program assumes (main.cpp:13-14). */
  predicate WellFormedLine(toks: Line) {
    |toks| >= 2 && WellFormedTail(toks[2..])
  }

  predicate WellFormedFile(lines: seq<Line>) {
    forall i :: 0 <= i < |lines| ==> WellFormedLine(lines[i])
  }

  lemma WellFormedTailDrop(tail: Line)
    requires WellFormedTail(tail) && |tail| >= 2
    ensures WellFormedTail(tail[2..])
  {
  }

  /** The catches of a tail, one per (species, size) pair, in order. */
  function ParseCatches(tail: Line): seq<Fish>
    requires WellFormedTail(tail)
    decreases |tail|
  {
    if tail == [] then []
    else
      WellFormedTailDrop(tail);
      [Fish(tail[0], NumeralValue(tail[1]))] + ParseCatches(tail[2..])
  }

  /** The tail is consumed as successive pairs: catch k is tokens 2k and 2k+1. */
  lemma {:induction false} ParseCatchesAt(tail: Line)
    requires WellFormedTail(tail)
    ensures |tail| == 2 * |ParseCatches(tail)|
    ensures forall k :: 0 <= k < |ParseCatches(tail)| ==>
      ParseCatches(tail)[k] == Fish(tail[2 * k], NumeralValue(tail[2 * k + 1]))
    decreases |tail|
  {
    if tail != [] {
      WellFormedTailDrop(tail);
      var rest := tail[2..];
      ParseCatchesAt(rest);
      var fs := ParseCatches(tail);
      assert fs == [Fish(tail[0], NumeralValue(tail[1]))] + ParseCatches(rest);
      forall k | 1 <= k < |fs|
        ensures fs[k] == Fish(tail[2 * k], NumeralValue(tail[2 * k + 1]))
      {
        var j := k - 1;
        assert fs[k] == ParseCatches(rest)[j];
        assert 2 * k == 2 * j + 2;
        assert rest[2 * j] == tail[2 * k];
        assert rest[2 * j + 1] == tail[2 * k + 1];
      }
    }
  }

  /** The tokens that write a list of catches. */
  function RenderCatches(fs: seq<Fish>): (tail: Line)
    ensures WellFormedTail(tail) && |tail| == 2 * |fs|
    decreases |fs|
  {
    if fs == [] then []
    else
      var rest := RenderCatches(fs[1..]);
      var tail := [fs[0].species, Numeral(fs[0].size)] + rest;
      assert forall i :: 2 <= i < |tail| ==> tail[i] == rest[i - 2];
      tail
  }

  lemma {:induction false} ParseRenderCatches(fs: seq<Fish>)
    ensures ParseCatches(RenderCatches(fs)) == fs
    decreases |fs|
  {
    if fs != [] {
      var tail := RenderCatches(fs);
      assert tail[2..] == RenderCatches(fs[1..]);
      NumeralRoundTrip(fs[0].size);
      ParseRenderCatches(fs[1..]);
    }
  }

  /** The record a well-formed line reads as (`operator>>` for Competition). */
  function CompetitionOf(toks: Line): Competition
    requires WellFormedLine(toks)
  {
    var s := Fold(ParseCatches(toks[2..]));
    Competition(toks[0], toks[1], s.allCatfish, s.catfishCnt)
  }

  /** Every catch of a line is a catfish exactly when every species token is "catfish". */
  lemma AllCatfishOnTokens(toks: Line)
    requires WellFormedLine(toks)
    ensures AllCatfish(ParseCatches(toks[2..])) <==>
      forall i :: 2 <= i < |toks| && i % 2 == 0 ==> toks[i] == "catfish"
  {
    var tail := toks[2..];
    var fs := ParseCatches(tail);
    ParseCatchesAt(tail);
    if AllCatfish(fs) {
      forall i | 2 <= i < |toks| && i % 2 == 0 ensures toks[i] == "catfish" {
        var k := (i - 2) / 2;
        assert 2 * k == i - 2;
        assert fs[k].species == tail[2 * k] == toks[i];
      }
    }
    if forall i :: 2 <= i < |toks| && i % 2 == 0 ==> toks[i] == "catfish" {
      forall k | 0 <= k < |fs| ensures IsCatfish(fs[k]) {
        assert fs[k].species == tail[2 * k] == toks[2 * k + 2];
      }
    }
  }

  /**
   * Name and contest ID are the first two tokens; `allCatfish` holds exactly
   * when every species token is "catfish"; `catfishCnt` counts the catfish.
   */
  lemma CompetitionOfMeaning(toks: Line)
    requires WellFormedLine(toks)
    ensures CompetitionOf(toks).name == toks[0] && CompetitionOf(toks).comp == toks[1]
    ensures CompetitionOf(toks).allCatfish <==>
      forall i :: 2 <= i < |toks| && i % 2 == 0 ==> toks[i] == "catfish"
    ensures CompetitionOf(toks).catfishCnt == CatfishCount(ParseCatches(toks[2..]))
    ensures CompetitionOf(toks).catfishCnt <= (|toks| - 2) / 2
  {
    var fs := ParseCatches(toks[2..]);
    FoldMeaning(fs);
    ParseCatchesAt(toks[2..]);
    CatfishCountBound(fs);
    AllCatfishOnTokens(toks);
  }

  /** The line written for a competitor with the given catches. */
  function RenderLine(name: string, comp: string, fs: seq<Fish>): (toks: Line)
    ensures WellFormedLine(toks)
  {
    assert ([name, comp] + RenderCatches(fs))[2..] == RenderCatches(fs);
    [name, comp] + RenderCatches(fs)
  }

  /** Reading back a written line gives its name, contest and catch summary. */
  lemma ReadRenderedLine(name: string, comp: string, fs: seq<Fish>)
    ensures CompetitionOf(RenderLine(name, comp, fs)) ==
      Competition(name, comp, AllCatfish(fs), CatfishCount(fs))
  {
    var toks := RenderLine(name, comp, fs);
    assert toks[2..] == RenderCatches(fs);
    ParseRenderCatches(fs);
    FoldMeaning(fs);
  }

  /**
   * Reading one line: the two leading fields, then the `optSum` summation
   * over the catches enumerated from the rest of the line (main.cpp:75-93).
   * The loop's cursor is the token position 2 + 2k.
   */
  method ReadCompetition(toks: Line) returns (c: Competition)
    requires WellFormedLine(toks)
    ensures c == CompetitionOf(toks)
  {
    var tail := toks[2..];
    ghost var fs := ParseCatches(tail);
    ParseCatchesAt(tail);
    var s := Neutral();
    var k := 0;
    while 2 * k < |tail|
      invariant 0 <= k <= |fs|
      invariant s == Fold(fs[..k])
    {
      var f := Fish(tail[2 * k], NumeralValue(tail[2 * k + 1]));
      assert fs[..k + 1][..k] == fs[..k];
      s := Add(s, Contribution(f));
      k := k + 1;
    }
    assert fs[..k] == fs;
    c := Competition(toks[0], toks[1], s.allCatfish, s.catfishCnt);
  }

  /** The records of a whole file, one per line, in file order. */
  function Records(lines: seq<Line>): (rs: seq<Competition>)
    requires WellFormedFile(lines)
  {
    seq(|lines|, i requires 0 <= i < |lines| => CompetitionOf(lines[i]))
  }
}
