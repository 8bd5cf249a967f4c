/** The board's win scans as the source writes them: a row scan over
    consecutive triples of the sorted list, a column filter by `% 3`, and two
    diagonal filters. They are proved equal to the reference `Geometry.Wins`
    on lists without duplicates; with duplicates they can disagree with it. */
module WinScan {
  import opened Types
  import opened Geometry
  import opened Sorting

  /** The horizontal test on three consecutive entries of the sorted list:
      consecutive values, in columns 0, 1 and 2. */
  predicate IsRowTriple(a: SquareId, b: SquareId, c: SquareId) {
    a + 1 == b && b + 1 == c && a % 3 == 0 && b % 3 == 1 && c % 3 == 2
  }

  /** The row loop `for (i = 0; i < length - 2; i++)` over an already sorted list. */
  function RowScan(t: seq<SquareId>): seq<Line>
    decreases |t|
  {
    if |t| < 3 then []
    else (if IsRowTriple(t[0], t[1], t[2]) then [t[..3]] else []) + RowScan(t[1..])
  }

  /** findHorizontalWins: sorts its argument, then scans consecutive triples. */
  function FindHorizontalWins(filled: seq<SquareId>): seq<Line> {
    RowScan(Sort(filled))
  }

  /** The column-`c` filter of findVerticalWins. */
  function InColumn(c: int): SquareId -> bool {
    el => el % 3 == c
  }

  /** The left-to-right diagonal filter of findDiagonalWins. */
  function OnLeftDiagonal(): SquareId -> bool {
    el => el == 0 || el == 4 || el == 8
  }

  /** The right-to-left diagonal filter of findDiagonalWins. */
  function OnRightDiagonal(): SquareId -> bool {
    el => el == 2 || el == 4 || el == 6
  }

  /** The filtered candidate, reported when it has exactly three elements. */
  function TripleWin(filled: seq<SquareId>, f: SquareId -> bool): seq<Line> {
    var pattern := Keep(filled, f);
    if |pattern| == 3 then [pattern] else []
  }

  /** The column-`c` candidate of findVerticalWins. */
  function ColumnWin(filled: seq<SquareId>, c: int): seq<Line> {
    TripleWin(filled, InColumn(c))
  }

  /** findVerticalWins: columns 0, 1, 2 in turn, without sorting. */
  function FindVerticalWins(filled: seq<SquareId>): seq<Line> {
    ColumnWin(filled, 0) + ColumnWin(filled, 1) + ColumnWin(filled, 2)
  }

  /** findDiagonalWins: the 0-4-8 filter, then the 2-4-6 filter, each reported when it has three elements. */
  function FindDiagonalWins(filled: seq<SquareId>): seq<Line> {
    TripleWin(filled, OnLeftDiagonal()) + TripleWin(filled, OnRightDiagonal())
  }

  /** findWins. The horizontal scan sorts the caller's list in place, so the
      column and diagonal scans that follow see it sorted. */
  function FindWins(filled: seq<SquareId>): seq<Line> {
    FindHorizontalWins(filled) + FindVerticalWins(Sort(filled)) + FindDiagonalWins(Sort(filled))
  }

  // ---------------------------------------------------------------------------
  // Agreement with the reference on strictly ascending lists.

  /** The reference contribution of one line: the line itself when `s` covers it. */
  function LineIfCovered(s: seq<SquareId>, line: Line): seq<Line> {
    if Covers(s, line) then [line] else []
  }

  /** A strictly ascending list containing three distinct squares has at least three elements. */
  lemma ThreeNeedThree(s: seq<SquareId>, a: SquareId, b: SquareId, c: SquareId)
    requires StrictlyAscending(s) && a < b < c
    ensures a in s && b in s && c in s ==> |s| >= 3
  {
    if a in s && b in s && c in s {
      var ia :| 0 <= ia < |s| && s[ia] == a;
      var ib :| 0 <= ib < |s| && s[ib] == b;
      var ic :| 0 <= ic < |s| && s[ic] == c;
      assert ia < ib < ic;
    }
  }

  /** If a strictly ascending list covers the row starting at `p` but its tail
      does not, the list starts with that row. */
  lemma RowAtHead(s: seq<SquareId>, p: SquareId)
    requires StrictlyAscending(s) && s != []
    requires p == 0 || p == 3 || p == 6
    requires p in s && p + 1 in s && p + 2 in s
    requires !(p in s[1..] && p + 1 in s[1..] && p + 2 in s[1..])
    ensures |s| >= 3 && s[0] == p && IsRowTriple(s[0], s[1], s[2])
  {
    var t := s[1..];
    assert forall y :: y in s ==> y == s[0] || y in t by {
      assert s == [s[0]] + t;
    }
    var i0 :| 0 <= i0 < |s| && s[i0] == p;
    var i1 :| 0 <= i1 < |s| && s[i1] == p + 1;
    var i2 :| 0 <= i2 < |s| && s[i2] == p + 2;
    assert s[0] <= s[i0];
    assert s[0] == p;
    assert 0 < i1 < i2;
    assert s[0] < s[1] <= s[i1];
    assert s[1] < s[2] <= s[i2];
    RowTripleAt(p);
  }

  /** The three squares of the row starting at `p` pass the row test. */
  lemma RowTripleAt(p: SquareId)
    requires p == 0 || p == 3 || p == 6
    ensures IsRowTriple(p, p + 1, p + 2)
  {
  }

  /** How the row starting at `p` contributes for a strictly ascending list
      `s` compared with its tail: the list starts with that row exactly when
      the row is covered by `s` but not by the tail. */
  lemma RowCoverStep(s: seq<SquareId>, p: SquareId, row: Line)
    requires StrictlyAscending(s) && s != []
    requires p == 0 || p == 3 || p == 6
    requires row == [p, p + 1, p + 2]
    ensures |s| >= 3 && s[0] == p && IsRowTriple(s[0], s[1], s[2]) ==>
      LineIfCovered(s, row) == [row] && LineIfCovered(s[1..], row) == []
    ensures !(|s| >= 3 && s[0] == p && IsRowTriple(s[0], s[1], s[2])) ==>
      LineIfCovered(s, row) == LineIfCovered(s[1..], row)
    ensures p < s[0] ==> LineIfCovered(s[1..], row) == []
  {
    var t := s[1..];
    HeadBelowTail(s);
    CoversTriple(s, p, p + 1, p + 2);
    CoversTriple(t, p, p + 1, p + 2);
    assert forall y :: y in t ==> y in s;
    if p in s && p + 1 in s && p + 2 in s && !(p in t && p + 1 in t && p + 2 in t) {
      RowAtHead(s, p);
    }
    if |s| >= 3 && s[0] == p && IsRowTriple(s[0], s[1], s[2]) {
      assert s[0] in s && s[1] in s && s[2] in s;
    }
  }

  /** The reference contribution of the three rows, in row order. */
  function RowRef(s: seq<SquareId>): seq<Line> {
    LineIfCovered(s, [0, 1, 2]) + LineIfCovered(s, [3, 4, 5]) + LineIfCovered(s, [6, 7, 8])
  }

  /** On a strictly ascending list the row scan reports exactly the covered rows, in row order. */
  lemma {:induction false} RowScanIsReference(s: seq<SquareId>)
    requires StrictlyAscending(s)
    ensures RowScan(s) == RowRef(s)
    decreases |s|
  {
    if |s| < 3 {
      RowBase(s);
    } else {
      HeadBelowTail(s);
      RowScanIsReference(s[1..]);
      if IsRowTriple(s[0], s[1], s[2]) {
        RowStepHit(s);
      } else {
        RowStepMiss(s);
      }
    }
  }

  /** A strictly ascending list shorter than three covers no row. */
  lemma RowBase(s: seq<SquareId>)
    requires StrictlyAscending(s) && |s| < 3
    ensures RowRef(s) == []
  {
    ThreeNeedThree(s, 0, 1, 2);
    ThreeNeedThree(s, 3, 4, 5);
    ThreeNeedThree(s, 6, 7, 8);
    CoversTriple(s, 0, 1, 2);
    CoversTriple(s, 3, 4, 5);
    CoversTriple(s, 6, 7, 8);
  }

  /** A list not starting with a row contributes the same rows as its tail. */
  lemma RowStepMiss(s: seq<SquareId>)
    requires StrictlyAscending(s) && |s| >= 3 && !IsRowTriple(s[0], s[1], s[2])
    ensures RowRef(s) == RowRef(s[1..])
  {
    RowCoverStep(s, 0, [0, 1, 2]);
    RowCoverStep(s, 3, [3, 4, 5]);
    RowCoverStep(s, 6, [6, 7, 8]);
  }

  /** A list starting with a row contributes that row ahead of its tail's rows. */
  lemma RowStepHit(s: seq<SquareId>)
    requires StrictlyAscending(s) && |s| >= 3 && IsRowTriple(s[0], s[1], s[2])
    ensures RowRef(s) == [s[..3]] + RowRef(s[1..])
  {
    var t := s[1..];
    assert s[..3] == [s[0], s[0] + 1, s[0] + 2];
    if s[0] == 0 {
      RowCoverStep(s, 0, [0, 1, 2]);
      RowCoverStep(s, 3, [3, 4, 5]);
      RowCoverStep(s, 6, [6, 7, 8]);
    } else if s[0] == 3 {
      RowCoverStep(s, 0, [0, 1, 2]);
      RowCoverStep(s, 3, [3, 4, 5]);
      RowCoverStep(s, 6, [6, 7, 8]);
      assert LineIfCovered(t, [0, 1, 2]) == [];
    } else {
      RowCoverStep(s, 0, [0, 1, 2]);
      RowCoverStep(s, 3, [3, 4, 5]);
      RowCoverStep(s, 6, [6, 7, 8]);
      assert LineIfCovered(t, [0, 1, 2]) == [] && LineIfCovered(t, [3, 4, 5]) == [];
    }
  }

  lemma RowsReference(s: seq<SquareId>)
    ensures CoveredLines(Rows, s) == RowRef(s)
  {
    var r1: seq<Line> := Rows[1..];
    var r2: seq<Line> := r1[1..];
    var r3: seq<Line> := r2[1..];
    assert Rows[0] == [0, 1, 2] && r1[0] == [3, 4, 5] && r2[0] == [6, 7, 8] && r3 == [];
    assert CoveredLines(r2, s) == LineIfCovered(s, [6, 7, 8]);
    assert CoveredLines(r1, s) == LineIfCovered(s, [3, 4, 5]) + LineIfCovered(s, [6, 7, 8]);
  }

  /** Two strictly ascending lists with the same elements are equal. */
  lemma {:induction false} SameElementsSameList(p: seq<SquareId>, q: seq<SquareId>)
    requires StrictlyAscending(p) && StrictlyAscending(q)
    requires forall x :: x in p <==> x in q
    ensures p == q
  {
    assert forall i :: 0 <= i < |p| ==> p[i] in p;
    assert forall i :: 0 <= i < |q| ==> q[i] in q;
    if p != [] && q != [] {
      assert p[0] <= q[0] && q[0] <= p[0];
      HeadBelowTail(p);
      HeadBelowTail(q);
      assert p == [p[0]] + p[1..] && q == [q[0]] + q[1..];
      assert forall x :: x in p[1..] <==> x in p && x != p[0];
      assert forall x :: x in q[1..] <==> x in q && x != q[0];
      SameElementsSameList(p[1..], q[1..]);
    }
  }

  /** The squares among `a < b < c` that occur in `s`, in ascending order. */
  function PresentOf(s: seq<SquareId>, a: SquareId, b: SquareId, c: SquareId): seq<SquareId> {
    (if a in s then [a] else []) + (if b in s then [b] else []) + (if c in s then [c] else [])
  }

  /** Filtering a strictly ascending list down to the three squares `a < b < c`
      yields a three-element list exactly when all three occur, and then it is `[a, b, c]`. */
  lemma KeepTriple(s: seq<SquareId>, f: SquareId -> bool, a: SquareId, b: SquareId, c: SquareId)
    requires StrictlyAscending(s) && a < b < c
    requires forall y :: f(y) <==> y == a || y == b || y == c
    ensures |Keep(s, f)| == 3 <==> a in s && b in s && c in s
    ensures |Keep(s, f)| == 3 ==> Keep(s, f) == [a, b, c]
  {
    var k := Keep(s, f);
    KeepStrictlyAscending(s, f);
    var present := PresentOf(s, a, b, c);
    PresentOfFacts(s, a, b, c);
    SameElementsSameList(k, present);
  }

  lemma PresentOfFacts(s: seq<SquareId>, a: SquareId, b: SquareId, c: SquareId)
    requires a < b < c
    ensures StrictlyAscending(PresentOf(s, a, b, c))
    ensures forall y :: y in PresentOf(s, a, b, c) <==> y in s && (y == a || y == b || y == c)
    ensures |PresentOf(s, a, b, c)| == 3 <==> a in s && b in s && c in s
    ensures |PresentOf(s, a, b, c)| == 3 ==> PresentOf(s, a, b, c) == [a, b, c]
  {
  }

  /** On a strictly ascending list the column filter of column `c` reports exactly the covered column. */
  lemma ColumnWinIsReference(s: seq<SquareId>, c: SquareId)
    requires StrictlyAscending(s) && c < 3
    ensures ColumnWin(s, c) == LineIfCovered(s, [c, c + 3, c + 6])
  {
    InColumnExactly(c);
    TripleWinIsReference(s, InColumn(c), c, c + 3, c + 6);
  }

  /** On a strictly ascending list, a filter for the squares `a < b < c`
      reports exactly the line `a, b, c` when the list covers it. */
  lemma TripleWinIsReference(s: seq<SquareId>, f: SquareId -> bool, a: SquareId, b: SquareId, c: SquareId)
    requires StrictlyAscending(s) && a < b < c
    requires forall y :: f(y) <==> y == a || y == b || y == c
    ensures TripleWin(s, f) == LineIfCovered(s, [a, b, c])
  {
    KeepTriple(s, f, a, b, c);
    CoversTriple(s, a, b, c);
  }

  /** Column `c` holds exactly the squares `c`, `c + 3` and `c + 6`. */
  lemma InColumnExactly(c: SquareId)
    requires c < 3
    ensures forall y: SquareId :: InColumn(c)(y) <==> y == c || y == c + 3 || y == c + 6
  {
    forall y: SquareId ensures InColumn(c)(y) <==> y == c || y == c + 3 || y == c + 6 {
      if y < 3 {
        assert y % 3 == y;
      } else if y < 6 {
        assert y % 3 == y - 3;
      } else {
        assert y % 3 == y - 6;
      }
    }
  }

  lemma {:induction false} VerticalIsReference(s: seq<SquareId>)
    requires StrictlyAscending(s)
    ensures FindVerticalWins(s) == CoveredLines(Columns, s)
  {
    ColumnWinIsReference(s, 0);
    ColumnWinIsReference(s, 1);
    ColumnWinIsReference(s, 2);
    ColumnsReference(s);
  }

  lemma ColumnsReference(s: seq<SquareId>)
    ensures CoveredLines(Columns, s) == LineIfCovered(s, [0, 3, 6]) + LineIfCovered(s, [1, 4, 7]) + LineIfCovered(s, [2, 5, 8])
  {
    var r1: seq<Line> := Columns[1..];
    var r2: seq<Line> := r1[1..];
    var r3: seq<Line> := r2[1..];
    assert Columns[0] == [0, 3, 6] && r1[0] == [1, 4, 7] && r2[0] == [2, 5, 8] && r3 == [];
    assert CoveredLines(r2, s) == LineIfCovered(s, [2, 5, 8]);
    assert CoveredLines(r1, s) == LineIfCovered(s, [1, 4, 7]) + LineIfCovered(s, [2, 5, 8]);
  }

  lemma DiagonalIsReference(s: seq<SquareId>)
    requires StrictlyAscending(s)
    ensures FindDiagonalWins(s) == CoveredLines(Diagonals, s)
  {
    TripleWinIsReference(s, OnLeftDiagonal(), 0, 4, 8);
    TripleWinIsReference(s, OnRightDiagonal(), 2, 4, 6);
    DiagonalsReference(s);
  }

  lemma DiagonalsReference(s: seq<SquareId>)
    ensures CoveredLines(Diagonals, s) == LineIfCovered(s, [0, 4, 8]) + LineIfCovered(s, [2, 4, 6])
  {
    var r1: seq<Line> := Diagonals[1..];
    assert Diagonals[0] == [0, 4, 8] && r1[0] == [2, 4, 6] && r1[1..] == [];
    assert CoveredLines(r1, s) == LineIfCovered(s, [2, 4, 6]);
  }

  /** For a list without duplicates, the source's findWins reports exactly
      the lines all of whose squares occur in the list: rows, then columns,
      then the 0-4-8 and 2-4-6 diagonals, each line ascending. */
  lemma FindWinsIsReference(filled: seq<SquareId>)
    requires NoDuplicates(filled)
    ensures FindWins(filled) == Wins(filled)
  {
    var s := Sort(filled);
    assert forall x :: x in s <==> x in filled by {
      assert forall x :: x in s <==> x in multiset(s);
      assert forall x :: x in filled <==> x in multiset(filled);
    }
    RowScanIsReference(s);
    RowsReference(s);
    VerticalIsReference(s);
    DiagonalIsReference(s);
    WinsSplit(s);
    WinsOnlyOnElements(s, filled);
  }

  /** On a list without duplicates, the literal scan finds a win whenever the list covers a line. */
  lemma ScanFindsCoveredLine(filled: seq<SquareId>, l: Line)
    requires NoDuplicates(filled) && l in AllLines && Covers(filled, l)
    ensures l in FindWins(filled)
  {
    FindWinsIsReference(filled);
  }
}
