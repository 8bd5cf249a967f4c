/** The smart opponent's move choice: take a win, block the opponent's win,
    the edge rule for O's second move, take a fork, block the opponent's
    fork, the center, a corner opposite the opponent, a corner, and finally
    the first free square. Win detection is the reference `Geometry.Wins`;
    the functions with the `AsWritten` suffix keep the source's literal scan
    for comparison. */
module SmartAI {
  import opened Types
  import opened Geometry
  import opened Sorting
  import opened WinScan
  import opened Boards
  import opened Seats

  /** The error every search throws when the list it is given already wins. */
  datatype AIError = AlreadyWon

  // ---------------------------------------------------------------------
  // Completing squares
  // ---------------------------------------------------------------------

  /** The squares of `free`, in order, that complete a line for `occ`. */
  function CompletingFrom(free: seq<SquareId>, occ: seq<SquareId>): (r: seq<SquareId>)
    ensures forall s :: s in r <==> s in free && Completes(occ, s)
    ensures |r| <= |free|
    ensures StrictlyAscending(free) ==> StrictlyAscending(r)
  {
    var completes := (s: SquareId) => Completes(occ, s);
    KeepStrictlyAscending(free, completes);
    Keep(free, completes)
  }

  /** findCompletingPatterns: fails when `occ` already wins, otherwise lists
      the free squares that would complete a line. */
  function FindCompletingPatterns(free: seq<SquareId>, occ: seq<SquareId>): (r: Result<seq<SquareId>, AIError>)
    ensures r.Failure? <==> Wins(occ) != []
    ensures r.Success? ==> forall s :: s in r.value <==> s in free && Completes(occ, s)
    ensures r.Success? && StrictlyAscending(free) ==> StrictlyAscending(r.value)
  {
    if Wins(occ) != [] then Failure(AlreadyWon) else Success(CompletingFrom(free, occ))
  }

  /** completePattern: the first free square that completes a line for `occ`, if any. */
  function CompletePattern(free: seq<SquareId>, occ: seq<SquareId>): (r: Result<Option<SquareId>, AIError>)
    ensures r.Failure? <==> Wins(occ) != []
    ensures r.Success? && r.value.Some? ==> r.value.value in free && Completes(occ, r.value.value)
    ensures r.Success? && r.value.None? ==> forall s :: s in free ==> !Completes(occ, s)
    ensures r.Success? && r.value.Some? && StrictlyAscending(free) ==>
      forall s :: s in free && Completes(occ, s) ==> r.value.value <= s
  {
    var found :- FindCompletingPatterns(free, occ);
    if found == [] then Success(None)
    else
      assert found[0] in found;
      FirstIsSmallest(found);
      Success(Some(found[0]))
  }

  /** The head of a strictly ascending list is its smallest element. */
  lemma FirstIsSmallest(r: seq<SquareId>)
    requires r != []
    ensures StrictlyAscending(r) ==> forall s :: s in r ==> r[0] <= s
  {
  }

  // ---------------------------------------------------------------------
  // Forks
  // ---------------------------------------------------------------------

  /** Taking `f` leaves two different free squares each of which would complete a line. */
  predicate TwoThreats(free: seq<SquareId>, occ: seq<SquareId>, f: SquareId) {
    exists s1, s2 :: s1 in free && s2 in free && s1 != s2 && Completes(occ + [f], s1) && Completes(occ + [f], s2)
  }

  /** The loop of findFork over the candidates, asking each for its completing squares. */
  function ForkScan(cands: seq<SquareId>, free: seq<SquareId>, occ: seq<SquareId>): (r: Result<Option<SquareId>, AIError>)
    ensures r.Success? && r.value.Some? ==> r.value.value in cands
    decreases |cands|
  {
    if cands == [] then Success(None)
    else
      var t :- FindCompletingPatterns(free, occ + [cands[0]]);
      if |t| >= 2 then Success(Some(cands[0]))
      else
        assert forall y :: y in cands[1..] ==> y in cands;
        ForkScan(cands[1..], free, occ)
  }

  /** findFork: fails when `occ` already wins; otherwise the first free square
      whose occupation yields at least two completing squares, if any. */
  function FindFork(free: seq<SquareId>, occ: seq<SquareId>): (r: Result<Option<SquareId>, AIError>)
    ensures Wins(occ) != [] ==> r == Failure(AlreadyWon)
    ensures r.Success? && r.value.Some? ==> r.value.value in free
  {
    if Wins(occ) != [] then Failure(AlreadyWon) else ForkScan(free, free, occ)
  }

  /** Two completing squares, counted in a strictly ascending free list, are two different squares. */
  lemma {:induction false} AtLeastTwoIffTwoThreats(free: seq<SquareId>, occ: seq<SquareId>, f: SquareId)
    requires StrictlyAscending(free)
    ensures |CompletingFrom(free, occ + [f])| >= 2 <==> TwoThreats(free, occ, f)
  {
    var r := CompletingFrom(free, occ + [f]);
    if |r| >= 2 {
      assert r[0] in r && r[1] in r;
      assert r[0] < r[1];
    }
    if TwoThreats(free, occ, f) {
      var s1, s2 :| s1 in free && s2 in free && s1 != s2 && Completes(occ + [f], s1) && Completes(occ + [f], s2);
      TwoDistinctMembers(r, s1, s2);
    }
  }

  /** A list holding two different elements has at least two entries. */
  lemma TwoDistinctMembers(r: seq<SquareId>, a: SquareId, b: SquareId)
    requires a in r && b in r && a != b
    ensures |r| >= 2
  {
    var i :| 0 <= i < |r| && r[i] == a;
    var j :| 0 <= j < |r| && r[j] == b;
    assert i != j;
  }

  /** One round of the scan on a candidate that does not itself complete a line. */
  lemma ForkScanStep(cands: seq<SquareId>, free: seq<SquareId>, occ: seq<SquareId>)
    requires StrictlyAscending(free) && cands != [] && !Completes(occ, cands[0])
    ensures ForkScan(cands, free, occ) ==
      if TwoThreats(free, occ, cands[0]) then Success(Some(cands[0])) else ForkScan(cands[1..], free, occ)
  {
    AtLeastTwoIffTwoThreats(free, occ, cands[0]);
  }

  /** The first candidate satisfying `p`, if any. */
  function FirstWhere(cands: seq<SquareId>, p: SquareId -> bool): Option<SquareId>
    decreases |cands|
  {
    if cands == [] then None
    else if p(cands[0]) then Some(cands[0])
    else FirstWhere(cands[1..], p)
  }

  /** The search answers nothing exactly when no candidate satisfies `p`, and
      otherwise the earliest candidate that does. */
  lemma {:induction false} FirstWhereMeaning(cands: seq<SquareId>, p: SquareId -> bool)
    ensures FirstWhere(cands, p).None? <==> forall s :: s in cands ==> !p(s)
    ensures FirstWhere(cands, p).Some? ==>
      exists k :: 0 <= k < |cands| && cands[k] == FirstWhere(cands, p).value && p(cands[k])
        && forall j :: 0 <= j < k ==> !p(cands[j])
    decreases |cands|
  {
    if cands != [] && !p(cands[0]) {
      var tail := cands[1..];
      FirstWhereMeaning(tail, p);
      var r := FirstWhere(tail, p);
      if r.Some? {
        var k :| 0 <= k < |tail| && tail[k] == r.value && p(tail[k]) && forall j :: 0 <= j < k ==> !p(tail[j]);
        assert cands[k + 1] == tail[k];
        assert forall j :: 1 <= j <= k ==> cands[j] == tail[j - 1];
      } else {
        assert cands == [cands[0]] + tail;
      }
    }
  }

  /** The fork test as a predicate on candidates. */
  function IsFork(free: seq<SquareId>, occ: seq<SquareId>): SquareId -> bool {
    (f: SquareId) => TwoThreats(free, occ, f)
  }

  /** Reference for the fork search: the first candidate that creates two threats. */
  function FirstFork(cands: seq<SquareId>, free: seq<SquareId>, occ: seq<SquareId>): (r: Option<SquareId>) {
    FirstWhere(cands, IsFork(free, occ))
  }

  /** The reference fork search answers nothing exactly when no candidate is a
      fork, and otherwise the first candidate that is one. */
  lemma FirstForkMeaning(cands: seq<SquareId>, free: seq<SquareId>, occ: seq<SquareId>)
    ensures FirstFork(cands, free, occ).None? <==> forall s :: s in cands ==> !TwoThreats(free, occ, s)
    ensures FirstFork(cands, free, occ).Some? ==>
      exists k :: 0 <= k < |cands| && cands[k] == FirstFork(cands, free, occ).value && TwoThreats(free, occ, cands[k])
        && forall j :: 0 <= j < k ==> !TwoThreats(free, occ, cands[j])
  {
    FirstWhereMeaning(cands, IsFork(free, occ));
  }

  /** When no candidate completes a line for `occ`, the scan cannot fail:
      every candidate list it builds is free of wins. */
  lemma {:induction false} ForkScanSucceeds(cands: seq<SquareId>, free: seq<SquareId>, occ: seq<SquareId>)
    requires forall s :: s in cands ==> !Completes(occ, s)
    ensures ForkScan(cands, free, occ).Success?
    decreases |cands|
  {
    if cands != [] {
      assert cands[0] in cands;
      assert forall y :: y in cands[1..] ==> y in cands;
      ForkScanSucceeds(cands[1..], free, occ);
    }
  }

  /** When no candidate completes a line for `occ`, the literal scan cannot
      fail and agrees with the reference. */
  lemma {:induction false} ForkScanIsFirstFork(cands: seq<SquareId>, free: seq<SquareId>, occ: seq<SquareId>)
    requires StrictlyAscending(free)
    requires forall s :: s in cands ==> !Completes(occ, s)
    ensures ForkScan(cands, free, occ) == Success(FirstFork(cands, free, occ))
    decreases |cands|
  {
    if cands != [] {
      assert cands[0] in cands;
      ForkScanStep(cands, free, occ);
      assert IsFork(free, occ)(cands[0]) == TwoThreats(free, occ, cands[0]);
      assert forall y :: y in cands[1..] ==> y in cands;
      ForkScanIsFirstFork(cands[1..], free, occ);
    }
  }

  /** findFork on a free list none of whose squares completes a line for `occ`
      (and `occ` not winning): it succeeds, and it answers the first free square
      that creates two threats, or nothing exactly when no square does. */
  lemma FindForkMeaning(free: seq<SquareId>, occ: seq<SquareId>)
    requires StrictlyAscending(free) && Wins(occ) == []
    requires forall s :: s in free ==> !Completes(occ, s)
    ensures FindFork(free, occ) == Success(FirstFork(free, free, occ))
  {
    ForkScanIsFirstFork(free, free, occ);
  }

  // ---------------------------------------------------------------------
  // Positional rules
  // ---------------------------------------------------------------------

  /** The opposite-corner pairs in the order the source tries them: take the
      first when it is free and the opponent holds the second. */
  const OppositePairs: seq<(SquareId, SquareId)> := [(0, 8), (2, 6), (6, 2), (8, 0)]

  /** The corner diagonally opposite `c`. */
  function Opposite(c: SquareId): (o: SquareId)
    requires TypeOf(c) == Corner
    ensures TypeOf(o) == Corner
    ensures (if c < o then [c, 4, o] else [o, 4, c]) in Diagonals
  {
    8 - c
  }

  /** The loop over the pairs from index `i` on. */
  function OppositeFrom(free: seq<SquareId>, their: seq<SquareId>, i: nat): (r: Option<SquareId>)
    requires i <= |OppositePairs|
    ensures r.Some? ==>
      exists k :: i <= k < |OppositePairs| && r.value == OppositePairs[k].0
        && OppositePairs[k].0 in free && OppositePairs[k].1 in their
        && forall j :: i <= j < k ==> !(OppositePairs[j].0 in free && OppositePairs[j].1 in their)
    ensures r.None? ==> forall k :: i <= k < |OppositePairs| ==> !(OppositePairs[k].0 in free && OppositePairs[k].1 in their)
    decreases |OppositePairs| - i
  {
    if i == |OppositePairs| then None
    else if OppositePairs[i].0 in free && OppositePairs[i].1 in their then Some(OppositePairs[i].0)
    else OppositeFrom(free, their, i + 1)
  }

  /** A free corner whose opposite corner the opponent holds, trying 0, 2, 6, 8
      in turn: the smallest such corner. */
  function OppositeCorner(free: seq<SquareId>, their: seq<SquareId>): (r: Option<SquareId>)
    ensures r.Some? ==> r.value in free && TypeOf(r.value) == Corner && Opposite(r.value) in their
    ensures r.Some? ==> forall c: SquareId :: TypeOf(c) == Corner && c in free && Opposite(c) in their ==> r.value <= c
    ensures r.None? ==> forall c: SquareId :: TypeOf(c) == Corner && c in free ==> Opposite(c) !in their
  {
    CornerPairs();
    var r := OppositeFrom(free, their, 0);
    if r.Some? then
      var k :| 0 <= k < |OppositePairs| && r.value == OppositePairs[k].0
        && OppositePairs[k].0 in free && OppositePairs[k].1 in their
        && forall j :: 0 <= j < k ==> !(OppositePairs[j].0 in free && OppositePairs[j].1 in their);
      FirstPairIsSmallest(free, their, k);
      r
    else r
  }

  /** The corner of the first qualifying pair is no larger than any corner
      that qualifies, since the table lists the corners in ascending order. */
  lemma FirstPairIsSmallest(free: seq<SquareId>, their: seq<SquareId>, k: nat)
    requires k < |OppositePairs|
    requires forall j :: 0 <= j < k ==> !(OppositePairs[j].0 in free && OppositePairs[j].1 in their)
    ensures forall c: SquareId :: TypeOf(c) == Corner && c in free && Opposite(c) in their ==> OppositePairs[k].0 <= c
  {
    CornerPairs();
    forall c: SquareId | TypeOf(c) == Corner && c in free && Opposite(c) in their
      ensures OppositePairs[k].0 <= c
    {
      var j := CornerIndex(c);
      assert k <= j;
    }
  }

  /** Where corner `c` heads its pair in the table of opposite corners. */
  function CornerIndex(c: SquareId): (k: nat)
    requires TypeOf(c) == Corner
    ensures k < |OppositePairs| && OppositePairs[k] == (c, Opposite(c))
  {
    if c == 0 then 0 else if c == 2 then 1 else if c == 6 then 2 else 3
  }

  /** The table pairs each corner, and only corners, with its opposite. */
  lemma CornerPairs()
    ensures forall k :: 0 <= k < |OppositePairs| ==>
      TypeOf(OppositePairs[k].0) == Corner && OppositePairs[k].1 == Opposite(OppositePairs[k].0)
    ensures forall j, k :: 0 <= j <= k < |OppositePairs| ==> OppositePairs[j].0 <= OppositePairs[k].0
  {
  }

  /** The tail of the rule chain: the center, an opposite corner, a corner,
      the first free square, and nothing on a full board. */
  function Positional(free: seq<SquareId>, their: seq<SquareId>): (r: Option<SquareId>)
    ensures r.Some? <==> free != []
    ensures r.Some? ==> r.value in free
    ensures 4 in free ==> r == Some(4)
    ensures forall c: SquareId :: 4 !in free && TypeOf(c) == Corner && c in free && Opposite(c) in their ==>
      r.Some? && TypeOf(r.value) == Corner && Opposite(r.value) in their && r.value <= c
    ensures forall c: SquareId ::
      && StrictlyAscending(free) && 4 !in free && TypeOf(c) == Corner && c in free
      && (forall d: SquareId :: TypeOf(d) == Corner && d in free ==> Opposite(d) !in their)
      ==> r.Some? && TypeOf(r.value) == Corner && r.value <= c
    ensures free != [] && (forall d: SquareId :: d in free ==> TypeOf(d) == Edge) ==> r == Some(free[0])
  {
    var centers := FreeByType(free, Center);
    var corners := FreeByType(free, Corner);
    if centers != [] then
      assert centers[0] in centers;
      Some(centers[0])
    else if OppositeCorner(free, their).Some? then OppositeCorner(free, their)
    else if corners != [] then
      assert corners[0] in corners;
      FirstIsSmallest(corners);
      Some(corners[0])
    else if free != [] then Some(free[0])
    else None
  }

  /** The edge rule: on turn 4 an O opponent facing two X corners takes the first free edge. */
  predicate EdgeRuleApplies(b: Board, me: Player) {
    && TurnNumber(b) == 4
    && me == PlayerO
    && FreeByType(b.free, Edge) != []
    && |b.xs| >= 2
    && TypeOf(b.xs[0]) == Corner
    && TypeOf(b.xs[1]) == Corner
  }

  /** The fork rules and the positional rules, after neither side can complete a line. */
  function ForkRules(free: seq<SquareId>, mine: seq<SquareId>, theirs: seq<SquareId>): (r: Result<Option<SquareId>, AIError>)
    requires Wins(mine) == [] && Wins(theirs) == []
    requires forall s :: s in free ==> !Completes(mine, s) && !Completes(theirs, s)
    ensures r.Success?
    ensures r.value.Some? <==> free != []
    ensures r.value.Some? ==> r.value.value in free
  {
    ForkScanSucceeds(free, free, mine);
    ForkScanSucceeds(free, free, theirs);
    var own := FindFork(free, mine).value;
    var block := FindFork(free, theirs).value;
    if own.Some? then Success(own)
    else if block.Some? then Success(block)
    else Success(Positional(free, theirs))
  }

  /** The rules from the edge rule on, after neither side can complete a line. */
  function Strategic(b: Board, me: Player): (r: Result<Option<SquareId>, AIError>)
    requires Wins(MyMoves(b, me)) == [] && Wins(OpponentMoves(b, me)) == []
    requires forall s :: s in b.free ==> !Completes(MyMoves(b, me), s) && !Completes(OpponentMoves(b, me), s)
    ensures r.Success?
    ensures r.value.Some? <==> b.free != []
    ensures r.value.Some? ==> r.value.value in b.free
  {
    var edges := FreeByType(b.free, Edge);
    if EdgeRuleApplies(b, me) then
      assert edges[0] in edges;
      Success(Some(edges[0]))
    else ForkRules(b.free, MyMoves(b, me), OpponentMoves(b, me))
  }

  /** getMove for the seat `me`: take the win, block the opponent's win, then
      the remaining rules. Fails when the seat's own list already wins, or
      when the opponent's list wins and the seat cannot win at once. */
  function GetMove(b: Board, me: Player): (r: Result<Option<SquareId>, AIError>)
    ensures r.Failure? <==>
      || Wins(MyMoves(b, me)) != []
      || (Wins(OpponentMoves(b, me)) != [] && forall s :: s in b.free ==> !Completes(MyMoves(b, me), s))
    ensures r.Success? && r.value.Some? ==> r.value.value in b.free
    ensures r.Success? ==> (r.value.Some? <==> b.free != [])
  {
    var mine, theirs := MyMoves(b, me), OpponentMoves(b, me);
    var win :- CompletePattern(b.free, mine);
    if win.Some? then Success(win)
    else
      var block :- CompletePattern(b.free, theirs);
      if block.Some? then Success(block)
      else Strategic(b, me)
  }

  // ---------------------------------------------------------------------
  // What the choice means on a board in play
  // ---------------------------------------------------------------------

  /** The opponent takes the smallest free square that wins for it. */
  lemma TakesWin(b: Board, me: Player, s: SquareId)
    requires StrictlyAscending(b.free) && Wins(MyMoves(b, me)) == []
    requires s in b.free && Completes(MyMoves(b, me), s)
    ensures GetMove(b, me).Success? && GetMove(b, me).value.Some?
    ensures Completes(MyMoves(b, me), GetMove(b, me).value.value)
    ensures GetMove(b, me).value.value <= s
  {
  }

  /** With no win of its own, the opponent blocks the smallest free square
      that would win for the other side. */
  lemma BlocksWin(b: Board, me: Player, s: SquareId)
    requires StrictlyAscending(b.free)
    requires Wins(MyMoves(b, me)) == [] && Wins(OpponentMoves(b, me)) == []
    requires forall t :: t in b.free ==> !Completes(MyMoves(b, me), t)
    requires s in b.free && Completes(OpponentMoves(b, me), s)
    ensures GetMove(b, me).Success? && GetMove(b, me).value.Some?
    ensures Completes(OpponentMoves(b, me), GetMove(b, me).value.value)
    ensures GetMove(b, me).value.value <= s
  {
  }

  /** With nothing to win or block, no edge rule and no fork on either side,
      a free center is taken. */
  lemma TakesCenter(b: Board, me: Player)
    requires StrictlyAscending(b.free) && 4 in b.free
    requires Wins(MyMoves(b, me)) == [] && Wins(OpponentMoves(b, me)) == []
    requires forall t :: t in b.free ==> !Completes(MyMoves(b, me), t) && !Completes(OpponentMoves(b, me), t)
    requires !EdgeRuleApplies(b, me)
    requires forall t :: t in b.free ==> !TwoThreats(b.free, MyMoves(b, me), t) && !TwoThreats(b.free, OpponentMoves(b, me), t)
    ensures GetMove(b, me) == Success(Some(4))
  {
    var mine, theirs := MyMoves(b, me), OpponentMoves(b, me);
    NoWinToTake(b.free, mine);
    NoWinToTake(b.free, theirs);
    assert GetMove(b, me) == Strategic(b, me);
    NoForkToTake(b.free, mine, theirs);
  }

  /** None of the rules before the positional ones fires: nothing to win or
      block, no edge rule, and no fork on either side. */
  predicate NoEarlierRule(b: Board, me: Player) {
    && Wins(MyMoves(b, me)) == [] && Wins(OpponentMoves(b, me)) == []
    && (forall t :: t in b.free ==> !Completes(MyMoves(b, me), t) && !Completes(OpponentMoves(b, me), t))
    && !EdgeRuleApplies(b, me)
    && (forall t :: t in b.free ==> !TwoThreats(b.free, MyMoves(b, me), t) && !TwoThreats(b.free, OpponentMoves(b, me), t))
  }

  /** When no earlier rule fires, the choice is the positional rules' choice. */
  lemma FallsToPositional(b: Board, me: Player)
    requires StrictlyAscending(b.free) && NoEarlierRule(b, me)
    ensures GetMove(b, me) == Success(Positional(b.free, OpponentMoves(b, me)))
  {
    var mine, theirs := MyMoves(b, me), OpponentMoves(b, me);
    NoWinToTake(b.free, mine);
    NoWinToTake(b.free, theirs);
    assert GetMove(b, me) == Strategic(b, me);
    NoForkToTake(b.free, mine, theirs);
  }

  /** With the center taken and no earlier rule firing, the opponent plays the
      smallest free corner whose opposite corner the other side holds. */
  lemma TakesOppositeCorner(b: Board, me: Player, c: SquareId)
    requires StrictlyAscending(b.free) && NoEarlierRule(b, me) && 4 !in b.free
    requires TypeOf(c) == Corner && c in b.free && Opposite(c) in OpponentMoves(b, me)
    ensures GetMove(b, me).Success? && GetMove(b, me).value.Some?
    ensures var r := GetMove(b, me).value.value;
      r in b.free && TypeOf(r) == Corner && Opposite(r) in OpponentMoves(b, me) && r <= c
  {
    FallsToPositional(b, me);
  }

  /** Otherwise, with the center taken, the smallest free corner is played. */
  lemma TakesCorner(b: Board, me: Player, c: SquareId)
    requires StrictlyAscending(b.free) && NoEarlierRule(b, me) && 4 !in b.free
    requires forall d: SquareId :: TypeOf(d) == Corner && d in b.free ==> Opposite(d) !in OpponentMoves(b, me)
    requires TypeOf(c) == Corner && c in b.free
    ensures GetMove(b, me).Success? && GetMove(b, me).value.Some?
    ensures var r := GetMove(b, me).value.value; r in b.free && TypeOf(r) == Corner && r <= c
  {
    FallsToPositional(b, me);
  }

  /** With only edges free and no earlier rule firing, the first free square is played. */
  lemma TakesFirstFree(b: Board, me: Player)
    requires StrictlyAscending(b.free) && NoEarlierRule(b, me) && b.free != []
    requires forall d: SquareId :: d in b.free ==> TypeOf(d) == Edge
    ensures GetMove(b, me) == Success(Some(b.free[0]))
    ensures forall d :: d in b.free ==> b.free[0] <= d
  {
    FallsToPositional(b, me);
    FirstIsSmallest(b.free);
  }

  /** With no completing square, the win search finds nothing. */
  lemma NoWinToTake(free: seq<SquareId>, occ: seq<SquareId>)
    requires Wins(occ) == [] && forall t :: t in free ==> !Completes(occ, t)
    ensures CompletePattern(free, occ) == Success(None)
  {
  }

  /** With no fork on either side, the fork rules fall through to the positional rules. */
  lemma NoForkToTake(free: seq<SquareId>, mine: seq<SquareId>, theirs: seq<SquareId>)
    requires StrictlyAscending(free) && Wins(mine) == [] && Wins(theirs) == []
    requires forall s :: s in free ==> !Completes(mine, s) && !Completes(theirs, s)
    requires forall t :: t in free ==> !TwoThreats(free, mine, t) && !TwoThreats(free, theirs, t)
    ensures ForkRules(free, mine, theirs) == Success(Positional(free, theirs))
  {
    FindForkMeaning(free, mine);
    FindForkMeaning(free, theirs);
    FirstForkMeaning(free, free, mine);
    FirstForkMeaning(free, free, theirs);
  }

  /** With nothing to win or block and no edge rule, a fork of its own is taken: the first one. */
  lemma TakesOwnFork(b: Board, me: Player, f: SquareId)
    requires StrictlyAscending(b.free)
    requires Wins(MyMoves(b, me)) == [] && Wins(OpponentMoves(b, me)) == []
    requires forall t :: t in b.free ==> !Completes(MyMoves(b, me), t) && !Completes(OpponentMoves(b, me), t)
    requires !EdgeRuleApplies(b, me)
    requires FirstFork(b.free, b.free, MyMoves(b, me)) == Some(f)
    ensures GetMove(b, me) == Success(Some(f))
    ensures f in b.free && TwoThreats(b.free, MyMoves(b, me), f)
  {
    var mine, theirs := MyMoves(b, me), OpponentMoves(b, me);
    NoWinToTake(b.free, mine);
    NoWinToTake(b.free, theirs);
    assert GetMove(b, me) == Strategic(b, me);
    OwnForkRule(b.free, mine, theirs, f);
    FirstForkIsFork(b.free, b.free, mine, f);
  }

  lemma OwnForkRule(free: seq<SquareId>, mine: seq<SquareId>, theirs: seq<SquareId>, f: SquareId)
    requires StrictlyAscending(free) && Wins(mine) == [] && Wins(theirs) == []
    requires forall s :: s in free ==> !Completes(mine, s) && !Completes(theirs, s)
    requires FirstFork(free, free, mine) == Some(f)
    ensures ForkRules(free, mine, theirs) == Success(Some(f))
  {
    FindForkMeaning(free, mine);
  }

  /** What the reference fork search returns is a candidate that creates two threats. */
  lemma FirstForkIsFork(cands: seq<SquareId>, free: seq<SquareId>, occ: seq<SquareId>, f: SquareId)
    requires FirstFork(cands, free, occ) == Some(f)
    ensures f in cands && TwoThreats(free, occ, f)
  {
    FirstForkMeaning(cands, free, occ);
    var k :| 0 <= k < |cands| && cands[k] == f && TwoThreats(free, occ, cands[k])
      && forall j :: 0 <= j < k ==> !TwoThreats(free, occ, cands[j]);
  }

  lemma BlockForkRule(free: seq<SquareId>, mine: seq<SquareId>, theirs: seq<SquareId>, g: SquareId)
    requires StrictlyAscending(free) && Wins(mine) == [] && Wins(theirs) == []
    requires forall s :: s in free ==> !Completes(mine, s) && !Completes(theirs, s)
    requires forall t :: t in free ==> !TwoThreats(free, mine, t)
    requires FirstFork(free, free, theirs) == Some(g)
    ensures ForkRules(free, mine, theirs) == Success(Some(g))
  {
    FindForkMeaning(free, mine);
    FindForkMeaning(free, theirs);
    FirstForkMeaning(free, free, mine);
  }

  /** Without a fork of its own, the opponent's first fork square is taken to block it. */
  lemma BlocksFork(b: Board, me: Player, g: SquareId)
    requires StrictlyAscending(b.free)
    requires Wins(MyMoves(b, me)) == [] && Wins(OpponentMoves(b, me)) == []
    requires forall t :: t in b.free ==> !Completes(MyMoves(b, me), t) && !Completes(OpponentMoves(b, me), t)
    requires !EdgeRuleApplies(b, me)
    requires forall t :: t in b.free ==> !TwoThreats(b.free, MyMoves(b, me), t)
    requires FirstFork(b.free, b.free, OpponentMoves(b, me)) == Some(g)
    ensures GetMove(b, me) == Success(Some(g))
    ensures g in b.free && TwoThreats(b.free, OpponentMoves(b, me), g)
  {
    var mine, theirs := MyMoves(b, me), OpponentMoves(b, me);
    NoWinToTake(b.free, mine);
    NoWinToTake(b.free, theirs);
    assert GetMove(b, me) == Strategic(b, me);
    BlockForkRule(b.free, mine, theirs, g);
    FirstForkIsFork(b.free, b.free, theirs, g);
  }

  /** With nothing to win or block, the edge rule takes the first free edge, ahead of any fork. */
  lemma TakesEdge(b: Board, me: Player)
    requires Wins(MyMoves(b, me)) == [] && Wins(OpponentMoves(b, me)) == []
    requires forall t :: t in b.free ==> !Completes(MyMoves(b, me), t) && !Completes(OpponentMoves(b, me), t)
    requires EdgeRuleApplies(b, me)
    ensures GetMove(b, me) == Success(Some(FreeByType(b.free, Edge)[0]))
    ensures TypeOf(GetMove(b, me).value.value) == Edge && GetMove(b, me).value.value in b.free
  {
    NoWinToTake(b.free, MyMoves(b, me));
    NoWinToTake(b.free, OpponentMoves(b, me));
    var edges := FreeByType(b.free, Edge);
    assert edges[0] in edges;
  }
}
