/** Concrete positions from the repository's own test expectations, stated
    against the reference searches. Each lemma is stated on a position (X's
    ascending list and the free list); the move sequence the test plays to
    reach it, alternating X, O, X, ..., is named in the comment only. */
module Scenarios {
  import opened Types
  import opened Geometry
  import opened Sorting
  import opened SmartAI
  import opened Boards
  import opened BoardInvariant
  import opened Squares

  /** X holds 0 and 2, O holds 5 (the test plays 0, 5, 2); the first free square that
      completes a line for X is 1. */
  lemma CompletesTopRow()
    ensures CompletePattern([1, 3, 4, 6, 7, 8], [0, 2]) == Success(Some(1))
  {
    var free := [1, 3, 4, 6, 7, 8];
    assert StrictlyAscending(free);
    NoWinWhen([0, 2]);
    CoversTriple([0, 2] + [1], 0, 1, 2);
    assert [0, 1, 2] in Wins([0, 2] + [1]);
    assert Completes([0, 2], 1);
  }

  /** X holds 0, 1 and 2, O holds 5 and 6 (the test plays 0, 5, 2, 6, 1): X already wins and the search fails. */
  lemma AlreadyWonFails()
    ensures FindCompletingPatterns([3, 4, 7, 8], [0, 1, 2]) == Failure(AlreadyWon)
  {
    CoversTriple([0, 1, 2], 0, 1, 2);
    assert [0, 1, 2] in Wins([0, 1, 2]);
  }

  /** Nothing free completes a line for X holding 2 and 6 while O holds the center. */
  lemma NoThreatFromTwoSix(s: SquareId)
    requires s in [0, 1, 3, 5, 7, 8]
    ensures !Completes([2, 6], s)
  {
    NoWinWhen([2, 6] + [s]);
  }

  /** Taking 0 gives X two threats: 1 (row 0-1-2) and 3 (column 0-3-6). */
  lemma ZeroIsFork()
    ensures TwoThreats([0, 1, 3, 5, 7, 8], [2, 6], 0)
  {
    var occ := [2, 6] + [0];
    CoversTriple(occ + [1], 0, 1, 2);
    CoversTriple(occ + [3], 0, 3, 6);
    assert [0, 1, 2] in Wins(occ + [1]);
    assert [0, 3, 6] in Wins(occ + [3]);
    assert Completes(occ, 1) && Completes(occ, 3);
  }

  /** X holds 2 and 6, O holds 4 (the test plays 2, 4, 6): the fork search answers 0. */
  lemma ForkAtZero()
    ensures FindFork([0, 1, 3, 5, 7, 8], [2, 6]) == Success(Some(0))
  {
    var free := [0, 1, 3, 5, 7, 8];
    assert StrictlyAscending(free);
    NoWinWhen([2, 6]);
    forall s | s in free ensures !Completes([2, 6], s) {
      NoThreatFromTwoSix(s);
    }
    FindForkMeaning(free, [2, 6]);
    ZeroIsFork();
    assert IsFork(free, [2, 6])(0);
  }

  /** X holds 0, 5 and 8, O holds 4 and 7 (the test plays 0, 4, 5, 7, 8); the first free square
      completing a line for X is 2 (column 2-5-8), as 1 completes nothing. */
  lemma CompletesColumnTwo()
    ensures CompletePattern([1, 2, 3, 6], [0, 5, 8]) == Success(Some(2))
  {
    var free := [1, 2, 3, 6];
    assert StrictlyAscending(free);
    NoWinWhen([0, 5, 8]);
    OneCompletesNothing();
    TwoCompletesColumn();
  }

  lemma OneCompletesNothing()
    ensures !Completes([0, 5, 8], 1)
  {
    NoWinWhen([0, 5, 8] + [1]);
  }

  lemma TwoCompletesColumn()
    ensures Completes([0, 5, 8], 2)
  {
    CoversTriple([0, 5, 8] + [2], 2, 5, 8);
    assert [2, 5, 8] in Wins([0, 5, 8] + [2]);
  }

  /** Nothing free completes a line for X holding 0 and 2 while O holds 1. */
  lemma NoThreatFromZeroTwo(s: SquareId)
    requires s in [3, 4, 5, 6, 7, 8]
    ensures !Completes([0, 2], s)
  {
    NoWinWhen([0, 2] + [s]);
  }

  /** Taking 3 leaves X holding 0, 2 and 3 a single threat, at 6. */
  lemma ThreeIsNoForkForZeroTwo()
    ensures !TwoThreats([3, 4, 5, 6, 7, 8], [0, 2], 3)
  {
    forall s | s in [3, 4, 5, 6, 7, 8] && s != 6 ensures !Completes([0, 2] + [3], s) {
      OnlySixAfterThree(s);
    }
  }

  /** After 3, only 6 would complete a line for X holding 0 and 2. */
  lemma OnlySixAfterThree(s: SquareId)
    requires s in [3, 4, 5, 6, 7, 8] && s != 6
    ensures !Completes([0, 2] + [3], s)
  {
    NoWinWhen([0, 2] + [3] + [s]);
  }

  /** Taking 4 gives X holding 0 and 2 two threats: 6 (diagonal 2-4-6) and 8 (diagonal 0-4-8). */
  lemma FourIsFork()
    ensures TwoThreats([3, 4, 5, 6, 7, 8], [0, 2], 4)
  {
    var occ := [0, 2] + [4];
    CoversTriple(occ + [6], 2, 4, 6);
    CoversTriple(occ + [8], 0, 4, 8);
    assert [2, 4, 6] in Wins(occ + [6]);
    assert [0, 4, 8] in Wins(occ + [8]);
    assert Completes(occ, 6) && Completes(occ, 8);
  }

  /** X holds 0 and 2, O holds 1 (the test plays 0, 1, 2): the fork search answers 4. */
  lemma ForkAtFour()
    ensures FindFork([3, 4, 5, 6, 7, 8], [0, 2]) == Success(Some(4))
  {
    var free := [3, 4, 5, 6, 7, 8];
    assert StrictlyAscending(free);
    NoWinWhen([0, 2]);
    forall s | s in free ensures !Completes([0, 2], s) {
      NoThreatFromZeroTwo(s);
    }
    FindForkMeaning(free, [0, 2]);
    FirstForkIsFour();
  }

  /** Scanning 3, 4, ... for the first fork of 0, 2 stops at 4. */
  lemma FirstForkIsFour()
    ensures FirstFork([3, 4, 5, 6, 7, 8], [3, 4, 5, 6, 7, 8], [0, 2]) == Some(4)
  {
    var free := [3, 4, 5, 6, 7, 8];
    ThreeIsNoForkForZeroTwo();
    FourIsFork();
    var p := IsFork(free, [0, 2]);
    assert !p(3) && p(4);
    assert free[1..] == [4, 5, 6, 7, 8];
    assert FirstWhere(free, p) == FirstWhere(free[1..], p);
  }

  /** X holds 0, 2, 3, 4 and 7 and no square is free (the test plays 0, 1, 2,
      5, 3, 6, 4, 8, 7): X has no line and the fork search answers nothing. */
  lemma NoForkOnFullBoard()
    ensures FindFork([], [0, 2, 3, 4, 7]) == Success(None)
  {
    NoWinWhen([0, 2, 3, 4, 7]);
  }

  /** Nothing free completes a line for X holding 1, 2 and 6 while O holds 0 and 4. */
  lemma NoThreatFromOneTwoSix(s: SquareId)
    requires s in [3, 5, 7, 8]
    ensures !Completes([1, 2, 6], s)
  {
    NoWinWhen([1, 2, 6] + [s]);
  }

  /** After 3, nothing would complete a line for X. */
  lemma NothingAfterThree(s: SquareId)
    requires s in [3, 5, 7, 8]
    ensures !Completes([1, 2, 6] + [3], s)
  {
    NoWinWhen([1, 2, 6] + [3] + [s]);
  }

  /** After 5, only 8 would complete a line for X (column 2-5-8). */
  lemma OnlyEightAfterFive(s: SquareId)
    requires s in [3, 5, 7, 8] && s != 8
    ensures !Completes([1, 2, 6] + [5], s)
  {
    NoWinWhen([1, 2, 6] + [5] + [s]);
  }

  /** After 7, only 8 would complete a line for X (row 6-7-8). */
  lemma OnlyEightAfterSeven(s: SquareId)
    requires s in [3, 5, 7, 8] && s != 8
    ensures !Completes([1, 2, 6] + [7], s)
  {
    NoWinWhen([1, 2, 6] + [7] + [s]);
  }

  /** None of 3, 5 and 7 is a fork for 1, 2, 6. */
  lemma NoEarlierForkThanEight()
    ensures !TwoThreats([3, 5, 7, 8], [1, 2, 6], 3)
    ensures !TwoThreats([3, 5, 7, 8], [1, 2, 6], 5)
    ensures !TwoThreats([3, 5, 7, 8], [1, 2, 6], 7)
  {
    forall s | s in [3, 5, 7, 8] ensures !Completes([1, 2, 6] + [3], s) {
      NothingAfterThree(s);
    }
    forall s | s in [3, 5, 7, 8] && s != 8 ensures !Completes([1, 2, 6] + [5], s) {
      OnlyEightAfterFive(s);
    }
    forall s | s in [3, 5, 7, 8] && s != 8 ensures !Completes([1, 2, 6] + [7], s) {
      OnlyEightAfterSeven(s);
    }
  }

  /** Taking 8 gives X holding 1, 2 and 6 two threats: 5 (column 2-5-8) and 7 (row 6-7-8). */
  lemma EightIsFork()
    ensures TwoThreats([3, 5, 7, 8], [1, 2, 6], 8)
  {
    var occ := [1, 2, 6] + [8];
    CoversTriple(occ + [5], 2, 5, 8);
    CoversTriple(occ + [7], 6, 7, 8);
    assert [2, 5, 8] in Wins(occ + [5]);
    assert [6, 7, 8] in Wins(occ + [7]);
    assert Completes(occ, 5) && Completes(occ, 7);
  }

  /** Scanning 3, 5, 7, 8 for the first fork of 1, 2, 6 stops at 8. */
  lemma FirstForkIsEight()
    ensures FirstFork([3, 5, 7, 8], [3, 5, 7, 8], [1, 2, 6]) == Some(8)
  {
    var free := [3, 5, 7, 8];
    NoEarlierForkThanEight();
    EightIsFork();
    var p := IsFork(free, [1, 2, 6]);
    assert !p(3) && !p(5) && !p(7) && p(8);
    assert free[1..] == [5, 7, 8] && free[1..][1..] == [7, 8] && free[1..][1..][1..] == [8];
    assert FirstWhere(free, p) == FirstWhere([8], p);
  }

  /** X holds 1, 2 and 6, O holds 0 and 4 (the test plays 2, 4, 6, 0, 1): the fork search answers 8. */
  lemma ForkAtEight()
    ensures FindFork([3, 5, 7, 8], [1, 2, 6]) == Success(Some(8))
  {
    var free := [3, 5, 7, 8];
    assert StrictlyAscending(free);
    NoWinWhen([1, 2, 6]);
    forall s | s in free ensures !Completes([1, 2, 6], s) {
      NoThreatFromOneTwoSix(s);
    }
    FindForkMeaning(free, [1, 2, 6]);
    FirstForkIsEight();
  }

  /** With X on the center and O on corner 0, the center is taken and the
      positional rules answer 8, the corner opposite O's, ahead of the free
      corner 2 and the first free square 1. */
  lemma OppositeCornerAfterFourZero()
    ensures Positional([1, 2, 3, 5, 6, 7, 8], [0]) == Some(8)
  {
    PositionalPicksOpposite([1, 2, 3, 5, 6, 7, 8], [0], 8);
  }

  /** With the center taken, a free corner whose opposite is the only
      opposite the other side holds is the positional choice. */
  lemma PositionalPicksOpposite(free: seq<SquareId>, their: seq<SquareId>, c: SquareId)
    requires 4 !in free && TypeOf(c) == Corner && c in free && Opposite(c) in their
    requires forall d: SquareId :: TypeOf(d) == Corner && Opposite(d) in their ==> d == c
    ensures Positional(free, their) == Some(c)
  {
  }

  /** X holds 0, 1 and 2, O holds 5 and 6 (the test plays 0, 5, 2, 6, 1): X
      already wins and the fork search fails. */
  lemma ForkAlreadyWonFails()
    ensures FindFork([3, 4, 7, 8], [0, 1, 2]) == Failure(AlreadyWon)
  {
    CoversTriple([0, 1, 2], 0, 1, 2);
    assert [0, 1, 2] in Wins([0, 1, 2]);
  }

  /** X holds the center alone, O nothing (the test plays 4): no free square
      completes a line for X. */
  lemma NoCompletionForCenter()
    ensures CompletePattern([0, 1, 2, 3, 5, 6, 7, 8], [4]) == Success(None)
  {
    NoWinWhen([4]);
    forall s | s in [0, 1, 2, 3, 5, 6, 7, 8] ensures !Completes([4], s) {
      NoWinWhen([4] + [s]);
    }
  }

  /** X holds 0 and 5, O holds 1 (the test plays 5, 1, 0): no free square
      completes a line for X. */
  lemma NoCompletionForZeroFive()
    ensures CompletePattern([2, 3, 4, 6, 7, 8], [0, 5]) == Success(None)
  {
    NoWinWhen([0, 5]);
    forall s | s in [2, 3, 4, 6, 7, 8] ensures !Completes([0, 5], s) {
      NoWinWhen([0, 5] + [s]);
    }
  }

  /** X holds 0, 2 and 5, O holds 4 and 7 (the test plays 0, 4, 5, 7, 2): the
      first free square completing a line for X is 1 (row 0-1-2). */
  lemma CompletesTopRowBesideFive()
    ensures CompletePattern([1, 3, 6, 8], [0, 2, 5]) == Success(Some(1))
  {
    var free := [1, 3, 6, 8];
    assert StrictlyAscending(free);
    NoWinWhen([0, 2, 5]);
    CoversTriple([0, 2, 5] + [1], 0, 1, 2);
    assert [0, 1, 2] in Wins([0, 2, 5] + [1]);
    assert Completes([0, 2, 5], 1);
  }

  /** With X on the center and one square `f`, only the square opposite `f`
      can complete a line. */
  lemma OnlyOppositeCompletes(f: SquareId, s: SquareId)
    requires s != 8 - f
    ensures !Completes([4] + [f], s)
  {
    NoWinWhen([4] + [f] + [s]);
  }

  /** No square gives X, holding the center alone, two threats. */
  lemma CenterLeavesOneThreat(free: seq<SquareId>, f: SquareId)
    ensures !TwoThreats(free, [4], f)
  {
    forall s: SquareId | s != 8 - f ensures !Completes([4] + [f], s) {
      OnlyOppositeCompletes(f, s);
    }
  }

  /** X holds the center alone (the test plays 4): the fork search answers nothing. */
  lemma NoForkForCenter()
    ensures FindFork([0, 1, 2, 3, 5, 6, 7, 8], [4]) == Success(None)
  {
    var free := [0, 1, 2, 3, 5, 6, 7, 8];
    assert StrictlyAscending(free);
    NoWinWhen([4]);
    forall s | s in free ensures !Completes([4], s) {
      NoWinWhen([4] + [s]);
    }
    FindForkMeaning(free, [4]);
    forall f | f in free ensures !TwoThreats(free, [4], f) {
      CenterLeavesOneThreat(free, f);
    }
    FirstForkMeaning(free, free, [4]);
  }

  /** The moves the test replays to fill the board. */
  const FullReplay: seq<SquareId> := [0, 1, 2, 3, 4, 5, 6, 7, 8]

  /** The board after the first `k` moves of the replay: X holds the even
      squares below `k`, O the odd ones, and the squares from `k` on are free. */
  predicate Replayed(b: Board, k: nat) {
    && Valid(b)
    && (b.turn == PlayerX <==> k % 2 == 0)
    && (forall s: SquareId :: s in b.xs <==> s < k && s % 2 == 0)
    && (forall s: SquareId :: s in b.os <==> s < k && s % 2 == 1)
    && (forall s: SquareId :: s in b.free <==> k <= s)
  }

  /** Before move 7 nobody holds a line and a square is free, so the move of
      the player to move succeeds and reaches the next replayed position. */
  lemma ReplayStep(b: Board, k: nat)
    requires k < 7 && Replayed(b, k)
    ensures PlayerMove(b, k, b.turn).Moved?
    ensures Replayed(PlayerMove(b, k, b.turn).board, k + 1)
  {
    NoLineBeforeSeven(b, k);
    assert k in b.free;
    MoveKeepsValid(b, k, b.turn);
    ReplayAdvance(b, PlayerMove(b, k, b.turn).board, k);
  }

  /** A board that gained the square `k` for the player to move, and nothing
      else, is the next replayed position. */
  lemma ReplayAdvance(b: Board, b': Board, k: nat)
    requires k < 7 && Replayed(b, k) && Valid(b') && b'.turn == Other(b.turn)
    requires forall s :: s in b'.xs <==> s in b.xs || (b.turn == PlayerX && s == k)
    requires forall s :: s in b'.os <==> s in b.os || (b.turn == PlayerO && s == k)
    requires forall s :: s in b'.free <==> s in b.free && s != k
    ensures Replayed(b', k + 1)
  {
    ParityStep(k);
  }

  /** Before move 7, X holds only squares among 0, 2, 4 and O only squares
      among 1, 3, 5, so neither holds a line. */
  lemma NoLineBeforeSeven(b: Board, k: nat)
    requires k < 7 && Replayed(b, k)
    ensures Wins(b.xs) == [] && Wins(b.os) == []
  {
    assert forall s :: s in b.xs ==> s == 0 || s == 2 || s == 4;
    assert forall s :: s in b.os ==> s == 1 || s == 3 || s == 5;
    NoWinWhen(b.xs);
    NoWinWhen(b.os);
  }

  /** The next move is by the other player. */
  lemma ParityStep(k: nat)
    ensures k % 2 == 0 <==> (k + 1) % 2 == 1
  {
  }

  /** After move 6, X holds the diagonal 2-4-6, so the game is over and O's
      move 7 fails on the deactivated cell. */
  lemma ReplayStop(b: Board)
    requires Replayed(b, 7)
    ensures PlayerMove(b, 7, b.turn).Failed?
    ensures PlayerMove(b, 7, b.turn).error == SquareFailure(InactiveSquare)
  {
    CoversTriple(b.xs, 2, 4, 6);
    assert [2, 4, 6] in Wins(b.xs);
    MoveAfterGameOver(b, 7, b.turn);
  }

  /** Replaying the moves from `k` on stops at move 7 on an inactive cell. */
  lemma {:induction false} ReplayFrom(b: Board, k: nat)
    requires k <= 7 && Replayed(b, k)
    ensures Play(b, FullReplay[k..]).Failed?
    ensures Play(b, FullReplay[k..]).error == SquareFailure(InactiveSquare)
    decreases 7 - k
  {
    var moves := FullReplay[k..];
    assert moves[0] == k;
    if k == 7 {
      ReplayStop(b);
    } else {
      ReplayStep(b, k);
      assert moves[1..] == FullReplay[k + 1..];
      ReplayFrom(PlayerMove(b, k, b.turn).board, k + 1);
    }
  }

  /** Filling the board with the moves 0, 1, ..., 8 from a new board fails
      before the completing-square search is reached: the game ends at move
      6 and move 7 fails on an inactive cell. */
  lemma FullReplayFails()
    ensures Play(NewBoard(), FullReplay).Failed?
    ensures Play(NewBoard(), FullReplay).error == SquareFailure(InactiveSquare)
  {
    NewBoardValid();
    EverySquareFree(NewBoard().free);
    assert FullReplay[0..] == FullReplay;
    ReplayFrom(NewBoard(), 0);
  }
}
