/** The opponent's searches exactly as the source writes them: every win test
    goes through the board's literal scan `WinScan.FindWins`, and the fork
    search hands each candidate list, sorted in place by the first scan, to
    the completing-square search, which appends the square it tries. When
    the tried square equals the candidate, the list holds a duplicate and
    the column and diagonal filters can count it twice. */
module AsWritten {
  import opened Types
  import opened Geometry
  import opened Sorting
  import opened WinScan
  import opened SmartAI
  import Scenarios

  /** The loop of findCompletingPatterns with the literal scan. */
  function CompletingFromAsWritten(free: seq<SquareId>, occ: seq<SquareId>): (r: seq<SquareId>)
    ensures forall s :: s in r <==> s in free && FindWins(occ + [s]) != []
  {
    Keep(free, (s: SquareId) => FindWins(occ + [s]) != [])
  }

  /** findCompletingPatterns with the literal scan. */
  function FindCompletingPatternsAsWritten(free: seq<SquareId>, occ: seq<SquareId>): (r: Result<seq<SquareId>, AIError>)
    ensures r.Failure? <==> FindWins(occ) != []
    ensures r.Success? ==> forall s :: s in r.value <==> s in free && FindWins(occ + [s]) != []
  {
    if FindWins(occ) != [] then Failure(AlreadyWon) else Success(CompletingFromAsWritten(free, occ))
  }

  /** The loop of findFork as written: the candidate list `occ + [f]` is sorted
      by the guard scan before the completing-square search appends to it. */
  function ForkScanAsWritten(cands: seq<SquareId>, free: seq<SquareId>, occ: seq<SquareId>): (r: Result<Option<SquareId>, AIError>)
    ensures r.Success? && r.value.Some? ==> r.value.value in cands
    decreases |cands|
  {
    if cands == [] then Success(None)
    else
      var t :- FindCompletingPatternsAsWritten(free, Sort(occ + [cands[0]]));
      if |t| >= 2 then Success(Some(cands[0]))
      else
        assert forall y :: y in cands[1..] ==> y in cands;
        ForkScanAsWritten(cands[1..], free, occ)
  }

  /** findFork as written. */
  function FindForkAsWritten(free: seq<SquareId>, occ: seq<SquareId>): (r: Result<Option<SquareId>, AIError>)
    ensures FindWins(occ) != [] ==> r == Failure(AlreadyWon)
    ensures r.Success? && r.value.Some? ==> r.value.value in free
  {
    if FindWins(occ) != [] then Failure(AlreadyWon) else ForkScanAsWritten(free, free, occ)
  }

  /** On a list without duplicates and free squares outside it, the literal
      completing-square search agrees with the reference one. */
  lemma CompletingAgrees(free: seq<SquareId>, occ: seq<SquareId>)
    requires NoDuplicates(occ)
    requires forall s :: s in free ==> s !in occ
    ensures CompletingFromAsWritten(free, occ) == CompletingFrom(free, occ)
  {
    var scan := (s: SquareId) => FindWins(occ + [s]) != [];
    var completes := (s: SquareId) => Completes(occ, s);
    forall s | s in free ensures scan(s) == completes(s) {
      AppendNoDuplicates(occ, s);
      FindWinsIsReference(occ + [s]);
    }
    KeepAgrees(free, scan, completes);
  }

  /** findCompletingPatterns as written is the reference search on the board's
      lists: a player's list has no duplicates and shares no square with the free list. */
  lemma FindCompletingPatternsAgrees(free: seq<SquareId>, occ: seq<SquareId>)
    requires NoDuplicates(occ)
    requires forall s :: s in free ==> s !in occ
    ensures FindCompletingPatternsAsWritten(free, occ) == FindCompletingPatterns(free, occ)
  {
    FindWinsIsReference(occ);
    CompletingAgrees(free, occ);
  }

  // ---------------------------------------------------------------------
  // The discrepancy: X holds 0 and 5, the free squares are 2, 3, 4, 6, 7, 8
  // (the position after the moves 5, 1, 0).
  // ---------------------------------------------------------------------

  lemma InsertTwoBeforeFive()
    ensures Insert([2, 5], 2) == [2, 2, 5] && Insert([5], 2) == [2, 5]
  {
  }

  lemma InsertTwoAfterZero()
    ensures Insert([0, 2, 5], 2) == [0, 2, 2, 5] && Insert([0, 5], 2) == [0, 2, 5]
  {
    InsertTwoBeforeFive();
    assert [0, 2, 5][1..] == [2, 5];
    assert [0, 5][1..] == [5];
  }

  lemma SortedAlready()
    ensures Sort([0, 5]) == [0, 5] && Sort([0, 2, 5]) == [0, 2, 5]
  {
    assert StrictlyAscending([0, 5]) && StrictlyAscending([0, 2, 5]);
    SortOfAscending([0, 5]);
    SortOfAscending([0, 2, 5]);
  }

  /** Sorting after appending 2, as the scan does. */
  lemma SortsWithTwo()
    ensures Sort([0, 5] + [2]) == [0, 2, 5]
    ensures Sort([0, 2, 5] + [2]) == [0, 2, 2, 5]
  {
    InsertTwoAfterZero();
    SortedAlready();
    SortAppend([0, 5], 2);
    SortAppend([0, 2, 5], 2);
  }

  /** The column-2 filter keeps both copies of 2. */
  lemma ColumnTwoKeepsDuplicate()
    ensures Keep([0, 2, 2, 5], InColumn(2)) == [2, 2, 5]
  {
    var col := InColumn(2);
    var s := [0, 2, 2, 5];
    assert s[1..] == [2, 2, 5];
    assert [2, 2, 5][1..] == [2, 5];
    assert [2, 5][1..] == [5];
    assert [5][1..] == [];
    assert !col(0) && col(2) && col(5);
  }

  /** The literal scan reports column 2 for the list 0, 2, 5, 2: the square 2
      is counted twice. */
  lemma DuplicateFakesColumn()
    ensures [2, 2, 5] in FindWins([0, 2, 5] + [2])
  {
    SortsWithTwo();
    ColumnTwoKeepsDuplicate();
    var sorted := [0, 2, 2, 5];
    assert ColumnWin(sorted, 2) == [[2, 2, 5]];
    assert [2, 2, 5] in FindVerticalWins(sorted);
  }

  /** The squares held, 0, 2 and 5, cover no line. */
  lemma NoLineForZeroTwoFive()
    ensures Wins([0, 2, 5] + [2]) == [] && Wins([0, 2, 5]) == [] && Wins([0, 5]) == []
  {
    NoWinWhen([0, 2, 5] + [2]);
    NoWinWhen([0, 2, 5]);
    NoWinWhen([0, 5]);
  }

  /** Neither 0, 5 nor 0, 2, 5 wins under the literal scan. */
  lemma GenuineScansEmpty()
    ensures FindWins([0, 5]) == [] && FindWins([0, 2, 5]) == []
  {
    assert NoDuplicates([0, 5]) && NoDuplicates([0, 2, 5]);
    FindWinsIsReference([0, 5]);
    FindWinsIsReference([0, 2, 5]);
    NoLineForZeroTwoFive();
  }

  /** 0, 2, 5, 8 wins with column 2-5-8. */
  lemma GenuineColumn()
    ensures FindWins([0, 2, 5] + [8]) != []
  {
    assert NoDuplicates([0, 2, 5]);
    AppendNoDuplicates([0, 2, 5], 8);
    CoversTriple([0, 2, 5] + [8], 2, 5, 8);
    ScanFindsCoveredLine([0, 2, 5] + [8], [2, 5, 8]);
  }

  /** A scan whose first candidate yields two completing squares stops there. */
  lemma ForkScanAsWrittenHead(cands: seq<SquareId>, free: seq<SquareId>, occ: seq<SquareId>)
    requires cands != [] && FindWins(Sort(occ + [cands[0]])) == []
    requires |CompletingFromAsWritten(free, Sort(occ + [cands[0]]))| >= 2
    ensures ForkScanAsWritten(cands, free, occ) == Success(Some(cands[0]))
  {
  }

  /** With X on 0, 2 and 5, the literal loop keeps both 2 (the duplicate) and 8. */
  lemma TwoThreatsAsWritten()
    ensures |CompletingFromAsWritten([2, 3, 4, 6, 7, 8], [0, 2, 5])| >= 2
  {
    GenuineColumn();
    DuplicateFakesColumn();
    var t := CompletingFromAsWritten([2, 3, 4, 6, 7, 8], [0, 2, 5]);
    assert 2 in t && 8 in t;
    TwoDistinctMembers(t, 2, 8);
  }

  /** As written, the first candidate 2 passes for a fork: the duplicate 2 and
      the genuine column 2-5-8 make two completing squares. */
  lemma ForkAsWrittenTakesTwo()
    ensures FindForkAsWritten([2, 3, 4, 6, 7, 8], [0, 5]) == Success(Some(2))
  {
    var free := [2, 3, 4, 6, 7, 8];
    SortsWithTwo();
    GenuineScansEmpty();
    TwoThreatsAsWritten();
    ForkScanAsWrittenHead(free, free, [0, 5]);
  }

  /** No free square completes a line for X holding 0 and 5. */
  lemma NoThreatFromZeroFive(s: SquareId)
    requires s in [2, 3, 4, 6, 7, 8]
    ensures !Completes([0, 5], s)
  {
    NoWinWhen([0, 5] + [s]);
  }

  /** After 2, only 8 would complete a line for X. */
  lemma OnlyEightAfterTwo(s: SquareId)
    requires s in [2, 3, 4, 6, 7, 8] && s != 8
    ensures !Completes([0, 5] + [2], s)
  {
    NoWinWhen([0, 5] + [2] + [s]);
  }

  /** Square 2 is no fork for 0, 5: it leaves a single threat. */
  lemma TwoIsNoFork()
    ensures !TwoThreats([2, 3, 4, 6, 7, 8], [0, 5], 2)
  {
    forall s | s in [2, 3, 4, 6, 7, 8] && s != 8 ensures !Completes([0, 5] + [2], s) {
      OnlyEightAfterTwo(s);
    }
  }

  /** Square 3 is a fork for 0, 5: then 4 (row 3-4-5) and 6 (column 0-3-6) both complete a line. */
  lemma ThreeIsFork()
    ensures TwoThreats([2, 3, 4, 6, 7, 8], [0, 5], 3)
  {
    var three := [0, 5] + [3];
    CoversTriple(three + [4], 3, 4, 5);
    CoversTriple(three + [6], 0, 3, 6);
    assert [3, 4, 5] in Wins(three + [4]);
    assert [0, 3, 6] in Wins(three + [6]);
    assert Completes(three, 4) && Completes(three, 6);
  }

  /** The position meets the conditions under which findFork means "the first fork". */
  lemma ForkPremises()
    ensures StrictlyAscending([2, 3, 4, 6, 7, 8]) && Wins([0, 5]) == []
    ensures forall s :: s in [2, 3, 4, 6, 7, 8] ==> !Completes([0, 5], s)
  {
    NoWinWhen([0, 5]);
    forall s | s in [2, 3, 4, 6, 7, 8] ensures !Completes([0, 5], s) {
      NoThreatFromZeroFive(s);
    }
  }

  /** Scanning 2, 3, ... for the first fork stops at 3. */
  lemma FirstForkIsThree()
    ensures FirstFork([2, 3, 4, 6, 7, 8], [2, 3, 4, 6, 7, 8], [0, 5]) == Some(3)
  {
    var free := [2, 3, 4, 6, 7, 8];
    TwoIsNoFork();
    ThreeIsFork();
    var p := IsFork(free, [0, 5]);
    assert !p(2) && p(3);
    assert free[1..] == [3, 4, 6, 7, 8];
    assert FirstWhere(free, p) == FirstWhere(free[1..], p);
  }

  /** The reference search takes 3. */
  lemma ForkCorrectedTakesThree()
    ensures FindFork([2, 3, 4, 6, 7, 8], [0, 5]) == Success(Some(3))
  {
    ForkPremises();
    FindForkMeaning([2, 3, 4, 6, 7, 8], [0, 5]);
    FirstForkIsThree();
  }

  /** The two searches disagree on the same position. */
  lemma ForkDiscrepancy()
    ensures FindForkAsWritten([2, 3, 4, 6, 7, 8], [0, 5]) != FindFork([2, 3, 4, 6, 7, 8], [0, 5])
  {
    ForkAsWrittenTakesTwo();
    ForkCorrectedTakesThree();
  }

  // ---------------------------------------------------------------------
  // A second position: X holds 0 and 2, the free squares are 3 to 8
  // (the position after the moves 0, 1, 2).
  // ---------------------------------------------------------------------

  /** Sorting after appending 3, as the scan does. */
  lemma SortsWithThree()
    ensures Sort([0, 2] + [3]) == [0, 2, 3]
    ensures Sort([0, 2, 3] + [3]) == [0, 2, 3, 3]
  {
    InsertThreeAfterTwo();
    SortedZeroTwo();
    SortAppend([0, 2], 3);
    SortAppend([0, 2, 3], 3);
  }

  lemma InsertThreeAfterTwo()
    ensures Insert([0, 2], 3) == [0, 2, 3] && Insert([0, 2, 3], 3) == [0, 2, 3, 3]
  {
    InsertThreeAtTail();
    assert [0, 2][1..] == [2];
    assert [0, 2, 3][1..] == [2, 3];
  }

  lemma InsertThreeAtTail()
    ensures Insert([2], 3) == [2, 3] && Insert([2, 3], 3) == [2, 3, 3]
  {
    assert [2][1..] == [];
    assert [2, 3][1..] == [3];
  }

  lemma SortedZeroTwo()
    ensures Sort([0, 2]) == [0, 2] && Sort([0, 2, 3]) == [0, 2, 3]
  {
    assert StrictlyAscending([0, 2]) && StrictlyAscending([0, 2, 3]);
    SortOfAscending([0, 2]);
    SortOfAscending([0, 2, 3]);
  }

  /** The column-0 filter keeps both copies of 3. */
  lemma ColumnZeroKeepsDuplicate()
    ensures Keep([0, 2, 3, 3], InColumn(0)) == [0, 3, 3]
  {
    var col := InColumn(0);
    var s := [0, 2, 3, 3];
    assert s[1..] == [2, 3, 3];
    assert [2, 3, 3][1..] == [3, 3];
    assert [3, 3][1..] == [3];
    assert [3][1..] == [];
    assert col(0) && !col(2) && col(3);
  }

  /** The literal scan reports column 0 for the list 0, 2, 3, 3: the square 3
      is counted twice. */
  lemma DuplicateFakesColumnZero()
    ensures [0, 3, 3] in FindWins([0, 2, 3] + [3])
  {
    SortsWithThree();
    ColumnZeroKeepsDuplicate();
    var sorted := [0, 2, 3, 3];
    assert ColumnWin(sorted, 0) == [[0, 3, 3]];
    assert [0, 3, 3] in FindVerticalWins(sorted);
  }

  /** Neither 0, 2 nor 0, 2, 3 wins under the literal scan. */
  lemma ScansEmptyForZeroTwo()
    ensures FindWins([0, 2]) == [] && FindWins([0, 2, 3]) == []
  {
    assert NoDuplicates([0, 2]) && NoDuplicates([0, 2, 3]);
    FindWinsIsReference([0, 2]);
    FindWinsIsReference([0, 2, 3]);
    NoLineForZeroTwoThree();
  }

  /** The squares 0, 2 and 3 cover no line. */
  lemma NoLineForZeroTwoThree()
    ensures Wins([0, 2]) == [] && Wins([0, 2, 3]) == []
  {
    NoWinWhen([0, 2]);
    NoWinWhen([0, 2, 3]);
  }

  /** 0, 2, 3, 6 wins with column 0-3-6. */
  lemma GenuineColumnZero()
    ensures FindWins([0, 2, 3] + [6]) != []
  {
    assert NoDuplicates([0, 2, 3]);
    AppendNoDuplicates([0, 2, 3], 6);
    CoversTriple([0, 2, 3] + [6], 0, 3, 6);
    ScanFindsCoveredLine([0, 2, 3] + [6], [0, 3, 6]);
  }

  /** With X on 0, 2 and 3, the literal loop keeps both 3 (the duplicate) and 6. */
  lemma TwoThreatsAsWrittenAtThree()
    ensures |CompletingFromAsWritten([3, 4, 5, 6, 7, 8], [0, 2, 3])| >= 2
  {
    GenuineColumnZero();
    DuplicateFakesColumnZero();
    var t := CompletingFromAsWritten([3, 4, 5, 6, 7, 8], [0, 2, 3]);
    assert 3 in t && 6 in t;
    TwoDistinctMembers(t, 3, 6);
  }

  /** As written, the first candidate 3 passes for a fork: the duplicate 3 and
      the genuine column 0-3-6 make two completing squares. */
  lemma ForkAsWrittenTakesThree()
    ensures FindForkAsWritten([3, 4, 5, 6, 7, 8], [0, 2]) == Success(Some(3))
  {
    var free := [3, 4, 5, 6, 7, 8];
    SortsWithThree();
    ScansEmptyForZeroTwo();
    TwoThreatsAsWrittenAtThree();
    ForkScanAsWrittenHead(free, free, [0, 2]);
  }

  /** The two searches disagree on this position too: 3 as written, 4 by the reference. */
  lemma SecondForkDiscrepancy()
    ensures FindForkAsWritten([3, 4, 5, 6, 7, 8], [0, 2]) == Success(Some(3))
    ensures FindFork([3, 4, 5, 6, 7, 8], [0, 2]) == Success(Some(4))
  {
    ForkAsWrittenTakesThree();
    Scenarios.ForkAtFour();
  }

  // ---------------------------------------------------------------------
  // A third position: X holds the center alone, every other square is free
  // (the position after the move 4).
  // ---------------------------------------------------------------------

  /** Sorting after appending 0, as the scan does. */
  lemma SortsWithZero()
    ensures Sort([4] + [0]) == [0, 4]
    ensures Sort([0, 4] + [0]) == [0, 0, 4]
  {
    SortAppend([4], 0);
    SortAppend([0, 4], 0);
    SortedCenter();
    InsertZeroInFront();
  }

  lemma InsertZeroInFront()
    ensures Insert([4], 0) == [0, 4] && Insert([0, 4], 0) == [0, 0, 4]
  {
  }

  lemma SortedCenter()
    ensures Sort([4]) == [4] && Sort([0, 4]) == [0, 4]
  {
    assert StrictlyAscending([4]) && StrictlyAscending([0, 4]);
    SortOfAscending([4]);
    SortOfAscending([0, 4]);
  }

  /** The 0-4-8 diagonal filter keeps both copies of 0. */
  lemma LeftDiagonalKeepsDuplicate()
    ensures Keep([0, 0, 4], OnLeftDiagonal()) == [0, 0, 4]
  {
    var d := OnLeftDiagonal();
    assert [0, 0, 4][1..] == [0, 4];
    assert [0, 4][1..] == [4];
    assert [4][1..] == [];
    assert d(0) && d(4);
  }

  /** The literal scan reports the diagonal 0-4-8 for the list 0, 4, 0: the
      square 0 is counted twice. */
  lemma DuplicateFakesDiagonal()
    ensures [0, 0, 4] in FindWins([0, 4] + [0])
  {
    SortsWithZero();
    LeftDiagonalKeepsDuplicate();
    var sorted := [0, 0, 4];
    assert TripleWin(sorted, OnLeftDiagonal()) == [[0, 0, 4]];
    assert [0, 0, 4] in FindDiagonalWins(sorted);
  }

  /** Neither 4 nor 0, 4 wins under the literal scan. */
  lemma ScansEmptyForCenter()
    ensures FindWins([4]) == [] && FindWins([0, 4]) == []
  {
    assert NoDuplicates([4]) && NoDuplicates([0, 4]);
    FindWinsIsReference([4]);
    FindWinsIsReference([0, 4]);
    NoLineForZeroFour();
  }

  /** The squares 0 and 4 cover no line. */
  lemma NoLineForZeroFour()
    ensures Wins([4]) == [] && Wins([0, 4]) == []
  {
    NoWinWhen([4]);
    NoWinWhen([0, 4]);
  }

  /** 0, 4, 8 wins with the diagonal 0-4-8. */
  lemma GenuineDiagonal()
    ensures FindWins([0, 4] + [8]) != []
  {
    assert NoDuplicates([0, 4]);
    AppendNoDuplicates([0, 4], 8);
    CoversTriple([0, 4] + [8], 0, 4, 8);
    ScanFindsCoveredLine([0, 4] + [8], [0, 4, 8]);
  }

  /** With X on 0 and 4, the literal loop keeps both 0 (the duplicate) and 8. */
  lemma TwoThreatsAsWrittenAtZero()
    ensures |CompletingFromAsWritten([0, 1, 2, 3, 5, 6, 7, 8], [0, 4])| >= 2
  {
    GenuineDiagonal();
    DuplicateFakesDiagonal();
    var t := CompletingFromAsWritten([0, 1, 2, 3, 5, 6, 7, 8], [0, 4]);
    assert 0 in t && 8 in t;
    TwoDistinctMembers(t, 0, 8);
  }

  /** As written, the first candidate 0 passes for a fork: the duplicate 0 and
      the genuine diagonal 0-4-8 make two completing squares. */
  lemma ForkAsWrittenTakesZero()
    ensures FindForkAsWritten([0, 1, 2, 3, 5, 6, 7, 8], [4]) == Success(Some(0))
  {
    var free := [0, 1, 2, 3, 5, 6, 7, 8];
    SortsWithZero();
    ScansEmptyForCenter();
    TwoThreatsAsWrittenAtZero();
    ForkScanAsWrittenHead(free, free, [4]);
  }

  /** The two searches disagree here as well: 0 as written, no fork by the reference. */
  lemma ThirdForkDiscrepancy()
    ensures FindForkAsWritten([0, 1, 2, 3, 5, 6, 7, 8], [4]) == Success(Some(0))
    ensures FindFork([0, 1, 2, 3, 5, 6, 7, 8], [4]) == Success(None)
  {
    ForkAsWrittenTakesZero();
    Scenarios.NoForkForCenter();
  }
}
