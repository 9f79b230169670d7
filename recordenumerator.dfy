/**
 * The file enumerator of competitor records (`SeqInFileEnumerator<Competition>`
 * in main.cpp:135, 202): it reads one line per step and reads it as a
 * `Competition`. The opened file is given as its sequence of tokenised
 * lines; opening a missing file is handled by the caller.
 */
module RecordEnumerator {
  import opened LineFormat

  class RecordEnor {
    /** The lines of the opened file. */
    const lines: seq<Line>
    /** How many lines have been read so far. */
    var read: nat
    /** The record read last. */
    var cur: Competition
    var atEnd: bool

    ghost predicate Valid()
      reads this
    {
      && WellFormedFile(lines)
      && read <= |lines|
      && (atEnd ==> read == |lines|)
      && (!atEnd && read > 0 ==> cur == CompetitionOf(lines[read - 1]))
    }

    /** Whether `First` has been called. */
    predicate Started()
      reads this
    {
      atEnd || read > 0
    }

    /** The index of the current record; the number of records once at the end. */
    function Pos(): (p: nat)
      reads this
      requires Valid() && Started()
      ensures p <= |lines|
    {
      if atEnd then |lines| else read - 1
    }

    function End(): (b: bool)
      reads this
      requires Valid() && Started()
      ensures b <==> Pos() == |lines|
    {
      atEnd
    }

    function Current(): (c: Competition)
      reads this
      requires Valid() && Started() && !End()
      ensures c == Records(lines)[Pos()]
    {
      cur
    }

    constructor (lines: seq<Line>)
      requires WellFormedFile(lines)
      ensures Valid() && !Started() && this.lines == lines
    {
      this.lines := lines;
      read := 0;
      cur := Competition("", "", false, 0);
      atEnd := false;
    }

    /** Reads the first record of the freshly opened file, if there is one. */
    method First()
      requires Valid() && !Started()
      modifies this
      ensures Valid() && Started() && Pos() == 0
    {
      ReadLine();
    }

    /** Moves to the following record, or to the end. */
    method Next()
      requires Valid() && Started() && !End()
      modifies this
      ensures Valid() && Started() && Pos() == old(Pos()) + 1
    {
      ReadLine();
    }

    /** Reads the next line, or reaches the end when the lines are exhausted. */
    method ReadLine()
      requires Valid() && !atEnd
      modifies this
      ensures Valid() && Started()
      ensures Pos() == old(read)
    {
      if read < |lines| {
        cur := ReadCompetition(lines[read]);
        read := read + 1;
      } else {
        atEnd := true;
      }
    }
  }
}
