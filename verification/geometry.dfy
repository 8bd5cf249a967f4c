/** Geometry of the 3x3 board: the eight winning lines, the set-semantic win
    test used as the reference for the source's scans, and the position
    categories (center / corner / edge) that the opponent's rules consult. */
module Geometry {
  import opened Types
  import opened Sorting

  /** A winning line: three square identifiers in ascending order. */
  type Line = seq<SquareId>

  const Rows: seq<Line> := [[0, 1, 2], [3, 4, 5], [6, 7, 8]]
  const Columns: seq<Line> := [[0, 3, 6], [1, 4, 7], [2, 5, 8]]
  /** Left-to-right diagonal first, then right-to-left, as the source reports them. */
  const Diagonals: seq<Line> := [[0, 4, 8], [2, 4, 6]]

  /** All eight lines in the order the source reports them: rows, columns, diagonals. */
  const AllLines: seq<Line> := Rows + Columns + Diagonals

  /** Every square of `line` occurs in `occ` (duplicates in `occ` are irrelevant). */
  predicate Covers(occ: seq<SquareId>, line: Line) {
    forall i :: 0 <= i < |line| ==> line[i] in occ
  }

  /** The lines of `lines` that `occ` covers, keeping their order. */
  function CoveredLines(lines: seq<Line>, occ: seq<SquareId>): seq<Line> {
    if lines == [] then []
    else (if Covers(occ, lines[0]) then [lines[0]] else []) + CoveredLines(lines[1..], occ)
  }

  /** The covered lines are exactly the lines of `lines` that `occ` covers. */
  lemma {:induction false} CoveredLinesMeaning(lines: seq<Line>, occ: seq<SquareId>)
    ensures forall l :: l in CoveredLines(lines, occ) <==> l in lines && Covers(occ, l)
  {
    if lines != [] {
      CoveredLinesMeaning(lines[1..], occ);
      assert forall l :: l in lines <==> l == lines[0] || l in lines[1..] by {
        assert lines == [lines[0]] + lines[1..];
      }
    }
  }

  lemma {:induction false} CoveredLinesAppend(a: seq<Line>, b: seq<Line>, occ: seq<SquareId>)
    ensures CoveredLines(a + b, occ) == CoveredLines(a, occ) + CoveredLines(b, occ)
  {
    if a == [] {
      assert a + b == b;
    } else {
      var h := if Covers(occ, a[0]) then [a[0]] else [];
      assert CoveredLines(a + b, occ) == h + CoveredLines(a[1..] + b, occ) by {
        assert (a + b)[0] == a[0];
        assert (a + b)[1..] == a[1..] + b;
      }
      CoveredLinesAppend(a[1..], b, occ);
    }
  }

  /** Reference win detection: the canonical lines all of whose squares occur
      in `occ`, as rows, then columns, then diagonals. It depends only on the
      set of elements of `occ`. */
  function Wins(occ: seq<SquareId>): (r: seq<Line>)
    ensures forall l :: l in r <==> l in AllLines && Covers(occ, l)
    ensures r == [] <==> forall l :: l in AllLines ==> !Covers(occ, l)
  {
    CoveredLinesMeaning(AllLines, occ);
    var r := CoveredLines(AllLines, occ);
    assert r != [] ==> r[0] in r;
    r
  }

  /** Nothing covers a line when nothing is occupied. */
  lemma WinsOfEmpty()
    ensures Wins([]) == []
  {
    forall l | l in AllLines ensures !Covers([], l) {
      assert |l| == 3;
      assert l[0] !in [];
    }
  }

  lemma WinsSplit(occ: seq<SquareId>)
    ensures Wins(occ) == CoveredLines(Rows, occ) + CoveredLines(Columns, occ) + CoveredLines(Diagonals, occ)
  {
    CoveredLinesAppend(Rows + Columns, Diagonals, occ);
    CoveredLinesAppend(Rows, Columns, occ);
  }

  /** Two sequences with the same elements have the same wins: duplicates and order do not matter. */
  lemma WinsOnlyOnElements(a: seq<SquareId>, b: seq<SquareId>)
    requires forall x :: x in a <==> x in b
    ensures Wins(a) == Wins(b)
  {
    CoveredLinesSameElements(AllLines, a, b);
  }

  lemma {:induction false} CoveredLinesSameElements(lines: seq<Line>, a: seq<SquareId>, b: seq<SquareId>)
    requires forall x :: x in a <==> x in b
    ensures CoveredLines(lines, a) == CoveredLines(lines, b)
  {
    if lines != [] {
      assert Covers(a, lines[0]) == Covers(b, lines[0]);
      CoveredLinesSameElements(lines[1..], a, b);
    }
  }

  /** Covering a three-square line means containing its three squares. */
  lemma CoversTriple(s: seq<SquareId>, a: SquareId, b: SquareId, c: SquareId)
    ensures Covers(s, [a, b, c]) <==> a in s && b in s && c in s
  {
    var line := [a, b, c];
    assert line[0] == a && line[1] == b && line[2] == c;
  }

  /** A list that misses a square of every line has no win. */
  lemma NoWinWhen(occ: seq<SquareId>)
    requires !(0 in occ && 1 in occ && 2 in occ) && !(3 in occ && 4 in occ && 5 in occ)
    requires !(6 in occ && 7 in occ && 8 in occ) && !(0 in occ && 3 in occ && 6 in occ)
    requires !(1 in occ && 4 in occ && 7 in occ) && !(2 in occ && 5 in occ && 8 in occ)
    requires !(0 in occ && 4 in occ && 8 in occ) && !(2 in occ && 4 in occ && 6 in occ)
    ensures Wins(occ) == []
  {
    CoversTriple(occ, 0, 1, 2); CoversTriple(occ, 3, 4, 5); CoversTriple(occ, 6, 7, 8);
    CoversTriple(occ, 0, 3, 6); CoversTriple(occ, 1, 4, 7); CoversTriple(occ, 2, 5, 8);
    CoversTriple(occ, 0, 4, 8); CoversTriple(occ, 2, 4, 6);
    assert AllLines == [[0, 1, 2], [3, 4, 5], [6, 7, 8], [0, 3, 6], [1, 4, 7], [2, 5, 8], [0, 4, 8], [2, 4, 6]];
  }

  /** `occ` plus the square `s` covers some line: `s` completes a line for `occ`. */
  predicate Completes(occ: seq<SquareId>, s: SquareId) {
    Wins(occ + [s]) != []
  }

  /** Position categories of the squares. */
  datatype PositionType = Center | Corner | Edge

  /** The category of a square: 4 is the center, 0, 2, 6 and 8 are corners, the rest are edges. */
  function TypeOf(id: SquareId): (t: PositionType)
    ensures t == Center <==> id == 4
    ensures t == Corner <==> id in {0, 2, 6, 8}
    ensures t == Edge <==> id in {1, 3, 5, 7}
  {
    if id == 4 then Center
    else if id % 2 == 0 then Corner
    else Edge
  }

  /** The squares of `free` with category `t`, in the order of `free`. */
  function FreeByType(free: seq<SquareId>, t: PositionType): (r: seq<SquareId>)
    ensures forall x :: x in r <==> x in free && TypeOf(x) == t
    ensures |r| <= |free|
    ensures StrictlyAscending(free) ==> StrictlyAscending(r)
  {
    var ofType := (x: SquareId) => TypeOf(x) == t;
    KeepStrictlyAscending(free, ofType);
    Keep(free, ofType)
  }
}
