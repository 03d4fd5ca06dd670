/**
 * What the turn engine of src/Game.jsx guarantees, proved about the value model
 * of module GameState.
 */
module GameProperties {
  import opened Wrappers
  import opened WinDetector
  import Blocks
  import opened GameState
  import GameInfo

  // ----- counting the revealed blocks -----

  predicate NoDuplicates(xs: seq<int>) {
    forall i, j :: 0 <= i < j < |xs| ==> xs[i] != xs[j]
  }

  /** The first `n` reveals are the `(n + 1) / 2` front blocks and the `n / 2` back blocks. */
  lemma {:induction false} RevealOrderMembers(n: nat)
    requires n <= Blocks.BlockCount
    ensures forall k :: k in RevealOrder(n) <==> 0 <= k < (n + 1) / 2 || Blocks.BlockCount - 1 - n / 2 < k < Blocks.BlockCount
  {
    if n > 0 {
      RevealOrderMembers(n - 1);
      assert RevealOrder(n) == RevealOrder(n - 1) + [RevealPosition(n - 1)];
    }
  }

  /** No block is revealed twice. */
  lemma {:induction false} RevealOrderDistinct(n: nat)
    requires n <= Blocks.BlockCount
    ensures NoDuplicates(RevealOrder(n))
  {
    if n > 0 {
      RevealOrderDistinct(n - 1);
      RevealOrderMembers(n - 1);
      var r := RevealOrder(n);
      assert r == RevealOrder(n - 1) + [RevealPosition(n - 1)];
      forall i, j | 0 <= i < j < n ensures r[i] != r[j] {
        if j == n - 1 {
          assert r[i] in RevealOrder(n - 1);
        } else {
          assert r[i] == RevealOrder(n - 1)[i] && r[j] == RevealOrder(n - 1)[j];
        }
      }
    }
  }

  /** The revealed indices are exactly the blocks outside the cursors, each revealed once,
      so as many blocks have been revealed as are no longer available. */
  lemma RevealedExactlyTheEnds(s: State)
    requires Valid(s)
    ensures 0 <= AvailableBlocks(s) <= Blocks.BlockCount
    ensures |s.revealedIndices| == Blocks.BlockCount - AvailableBlocks(s)
    ensures NoDuplicates(s.revealedIndices)
    ensures forall k :: k in s.revealedIndices <==> 0 <= k < s.frontIndex || s.backIndex < k < Blocks.BlockCount
  {
    RevealOrderMembers(|s.revealedIndices|);
    RevealOrderDistinct(|s.revealedIndices|);
  }

  // ----- revealing a block -----

  /** A reveal changes the state exactly when it passes the three checks. */
  lemma RevealNoOpIffRejected(s: State, isFromFront: bool)
    requires Valid(s)
    ensures Reveal(s, isFromFront) == s <==> !RevealAccepted(s, isFromFront)
  {
  }

  /** An accepted reveal takes the block at the requested end, moves that cursor inward
      by one, records the index, and changes nothing else. */
  lemma RevealEffect(s: State, isFromFront: bool)
    requires Valid(s) && RevealAccepted(s, isFromFront)
    ensures var t := Reveal(s, isFromFront);
      && var index := if isFromFront then s.frontIndex else s.backIndex;
      && t.revealedIndices == s.revealedIndices + [index]
      && t.currentSymbol == Some(s.blocks[index])
      && t.frontIndex == s.frontIndex + (if isFromFront then 1 else 0)
      && t.backIndex == s.backIndex - (if isFromFront then 0 else 1)
      && AvailableBlocks(t) == AvailableBlocks(s) - 1
      && t == s.(currentSymbol := t.currentSymbol, frontIndex := t.frontIndex,
                 backIndex := t.backIndex, revealedIndices := t.revealedIndices)
  {
  }

  /** Once a block is revealed, no further reveal succeeds until the symbol is placed. */
  lemma SecondRevealRejected(s: State, first: bool, second: bool)
    requires Valid(s) && RevealAccepted(s, first)
    ensures Reveal(Reveal(s, first), second) == Reveal(s, first)
  {
  }

  // ----- placing the symbol -----

  lemma {:induction false} CountEmptyFill(b: Squares, i: nat, v: Symbol)
    requires i < |b| && b[i].None?
    ensures CountEmpty(b[i := Some(v)]) == CountEmpty(b) - 1
  {
    if i > 0 {
      assert b[i := Some(v)][1..] == b[1..][i - 1 := Some(v)];
      CountEmptyFill(b[1..], i - 1, v);
    }
  }

  /** A click changes the state exactly when it passes the three checks. */
  lemma ClickNoOpIffRejected(s: State, i: nat)
    requires Valid(s) && i < 9
    ensures Click(s, i) == s <==> !ClickAccepted(s, i)
  {
  }

  /** No placement without a revealed symbol, and none on a board that has a winner. */
  lemma ClickRejections(s: State, i: nat)
    requires Valid(s) && i < 9
    ensures s.currentSymbol.None? ==> Click(s, i) == s
    ensures CalculateWinner(CurrentBoard(s)).Some? ==> Click(s, i) == s
    ensures CurrentBoard(s)[i].Some? ==> Click(s, i) == s
  {
  }

  /** An accepted click drops the boards after the one on display, appends that board
      with cell `i` set to the revealed symbol, hands the turn and the reveal side
      over, and leaves the blocks and cursors alone. */
  lemma ClickEffect(s: State, i: nat)
    requires Valid(s) && i < 9 && ClickAccepted(s, i)
    ensures var t := Click(s, i);
      && |t.history| == s.stepNumber + 2
      && t.history[..s.stepNumber + 1] == s.history[..s.stepNumber + 1]
      && t.stepNumber == s.stepNumber + 1
      && CurrentBoard(t)[i] == s.currentSymbol
      && (forall j :: 0 <= j < 9 && j != i ==> CurrentBoard(t)[j] == CurrentBoard(s)[j])
      && CountEmpty(CurrentBoard(t)) == CountEmpty(CurrentBoard(s)) - 1
      && t.xIsNext == !s.xIsNext && t.fromFront == !s.fromFront && t.currentSymbol.None?
      && t.blocks == s.blocks && t.revealedIndices == s.revealedIndices
      && t.frontIndex == s.frontIndex && t.backIndex == s.backIndex
  {
    CountEmptyFill(CurrentBoard(s), i, s.currentSymbol.value);
  }

  // ----- time travel -----

  /** `jumpTo(0)` starts a new game: one empty board, Player 1 to reveal the first block. */
  lemma JumpToStartRestarts(s: State, newBlocks: seq<Symbol>)
    requires Valid(s) && Blocks.Balanced(newBlocks)
    ensures var t := JumpTo(s, 0, newBlocks);
      && t.history == [EmptyBoard] && t.stepNumber == 0 && t.xIsNext && t.fromFront
      && t.blocks == newBlocks && t.revealedIndices == [] && t.currentSymbol.None?
      && t.frontIndex == 0 && t.backIndex == Blocks.BlockCount - 1
      && AvailableBlocks(t) == Blocks.BlockCount
      && Status(t) == "Next player: Player 1"
      && (forall index :: IsClickable(t, index) <==> index == 0)
  {
    EmptyBoardHasNoWinner();
  }

  /** `jumpTo(k)` for k > 0 only moves the board on display and sets the turn by parity;
      the blocks, the cursors, the reveal side and a pending symbol carry over. */
  lemma JumpToPast(s: State, k: nat, newBlocks: seq<Symbol>)
    requires Valid(s) && 0 < k < |s.history| && Blocks.Balanced(newBlocks)
    ensures var t := JumpTo(s, k, newBlocks);
      && CurrentBoard(t) == s.history[k]
      && t == s.(stepNumber := k, xIsNext := k % 2 == 0)
  {
  }

  /** After a jump back, the next placement discards every board after the one jumped to. */
  lemma JumpThenClickDropsFuture(s: State, k: nat, i: nat, newBlocks: seq<Symbol>)
    requires Valid(s) && 0 < k < |s.history| && i < 9 && Blocks.Balanced(newBlocks)
    requires ClickAccepted(JumpTo(s, k, newBlocks), i)
    ensures var t := Click(JumpTo(s, k, newBlocks), i);
      && |t.history| == k + 2
      && t.history[..k + 1] == s.history[..k + 1]
      && t.history[k + 1] == s.history[k][i := s.currentSymbol]
  {
  }

  // ----- which end each player reveals from -----

  /** The rules promise: Player 1 reveals from the first block, Player 2 from the last. */
  predicate SideFollowsPlayer(s: State) {
    Valid(s) && s.fromFront == s.xIsNext
  }

  /** While the rules promise holds, the one clickable block is at Player 1's end
      (the front) on Player 1's turn and at Player 2's end (the back) otherwise. */
  lemma PlayerRevealsOwnEnd(s: State, index: int)
    requires SideFollowsPlayer(s) && IsClickable(s, index)
    ensures index == if s.xIsNext then s.frontIndex else s.backIndex
  {
    RevealedExactlyTheEnds(s);
  }

  lemma InitialSideFollowsPlayer(blocks: seq<Symbol>)
    requires Blocks.Balanced(blocks)
    ensures SideFollowsPlayer(Initial(blocks))
  {
  }

  lemma RevealKeepsSide(s: State, isFromFront: bool)
    requires SideFollowsPlayer(s)
    ensures SideFollowsPlayer(Reveal(s, isFromFront))
  {
  }

  lemma ClickKeepsSide(s: State, i: nat)
    requires SideFollowsPlayer(s) && i < 9
    ensures SideFollowsPlayer(Click(s, i))
  {
  }

  /** Both block click handlers, the corrected one and the one as written, keep the promise. */
  lemma BlockClickKeepsSide(s: State, index: int)
    requires SideFollowsPlayer(s)
    ensures SideFollowsPlayer(BlockClick(s, index))
    ensures SideFollowsPlayer(BlockClickAsWritten(s, index))
  {
  }

  /** The restart, `jumpTo(0)`, keeps the promise from any state. */
  lemma RestartKeepsSide(s: State, newBlocks: seq<Symbol>)
    requires Valid(s) && Blocks.Balanced(newBlocks)
    ensures SideFollowsPlayer(JumpTo(s, 0, newBlocks))
  {
  }

  /** A jump back to a step k > 0 breaks the promise. After a turn on cell 0 and a turn
      on cell 1, `jumpTo(1)` makes it Player 2's turn while the front block is due:
      Player 2 may click only block 1, at Player 1's end. */
  lemma JumpBackBreaksSide(blocks: seq<Symbol>)
    requires Blocks.Balanced(blocks)
    ensures var s := Turn(Turn(Initial(blocks), 0), 1);
      && SideFollowsPlayer(s) && 1 < |s.history|
      && var t := JumpTo(s, 1, blocks);
      && !t.xIsNext && t.fromFront && !SideFollowsPlayer(t)
      && forall index :: 0 <= index < Blocks.BlockCount ==> (IsClickable(t, index) <==> index == 1)
  {
    var s1 := Turn(Initial(blocks), 0);
    FirstTurn(blocks);
    RewindOnce(s1);
    var t := RewindStep(s1);
    TwoCellsNoWinner(CurrentBoard(t));
    forall index | 0 <= index < Blocks.BlockCount
      ensures IsClickable(t, index) <==> index == 1
    {
      ClickableExactlyOne(t, index);
    }
  }

  // ----- what render shows -----

  /** The status line: the winner if there is one, a draw exactly when no block is left,
      otherwise the player to move. */
  lemma StatusCases(s: State)
    requires Valid(s)
    ensures var winner := CalculateWinner(CurrentBoard(s));
      && (winner.Some? ==> Status(s) == "Winner: " + SymbolName(winner.value))
      && (Status(s) == "Draw!" <==> winner.None? && AvailableBlocks(s) == 0)
      && (Status(s) == "Next player: Player 1" <==> winner.None? && AvailableBlocks(s) > 0 && s.xIsNext)
      && (Status(s) == "Next player: Player 2" <==> winner.None? && AvailableBlocks(s) > 0 && !s.xIsNext)
  {
    var winner := CalculateWinner(CurrentBoard(s));
    if winner.Some? {
      var w := "Winner: " + SymbolName(winner.value);
      assert w[0] == 'W';
      assert "Draw!"[0] == 'D' && "Next player: Player 1"[0] == 'N' && "Next player: Player 2"[0] == 'N';
    }
    assert "Next player: Player 1"[20] != "Next player: Player 2"[20];
  }

  /** A full board with blocks still hidden is not reported as a draw: the test for a
      full board is subsumed by the test for no blocks left. */
  lemma FullBoardWithBlocksLeftIsNoDraw(s: State)
    requires Valid(s) && CountEmpty(CurrentBoard(s)) == 0
    requires CalculateWinner(CurrentBoard(s)).None? && AvailableBlocks(s) > 0
    ensures Status(s) != "Draw!"
  {
    StatusCases(s);
  }

  /** The status line with the draw test as evidently intended: a draw when no block is
      left or when the board is full. */
  function StatusIntended(s: State): string
    requires Valid(s)
  {
    var winner := CalculateWinner(CurrentBoard(s));
    if winner.Some? then "Winner: " + SymbolName(winner.value)
    else if AvailableBlocks(s) <= 0 || CountEmpty(CurrentBoard(s)) == 0 then "Draw!"
    else "Next player: " + (if s.xIsNext then "Player 1" else "Player 2")
  }

  /** The intended status: a draw exactly when there is no winner and either no block is
      left or no cell is empty; it agrees with the component's status whenever the
      board has an empty cell. */
  lemma StatusIntendedCases(s: State)
    requires Valid(s)
    ensures StatusIntended(s) == "Draw!" <==>
      CalculateWinner(CurrentBoard(s)).None? && (AvailableBlocks(s) == 0 || CountEmpty(CurrentBoard(s)) == 0)
    ensures CountEmpty(CurrentBoard(s)) > 0 ==> StatusIntended(s) == Status(s)
  {
    StatusCases(s);
    RevealedExactlyTheEnds(s);
    var winner := CalculateWinner(CurrentBoard(s));
    if winner.Some? {
      assert StatusIntended(s)[0] == 'W';
    }
    assert ("Next player: " + (if s.xIsNext then "Player 1" else "Player 2"))[0] == 'N';
  }

  /** A full board without a line: X O X / X O O / O X X. */
  const FullDrawnBoard: Squares :=
    [Some(X), Some(O), Some(X), Some(X), Some(O), Some(O), Some(O), Some(X), Some(X)]

  lemma FullDrawnBoardFacts()
    ensures CountEmpty(FullDrawnBoard) == 0 && CalculateWinner(FullDrawnBoard).None?
  {
  }

  /** A board whose every filled cell agrees with FullDrawnBoard. */
  predicate WithinDrawnBoard(b: Squares) {
    |b| == 9 && forall k :: 0 <= k < 9 ==> b[k].None? || b[k] == FullDrawnBoard[k]
  }

  /** A line held on a board is held on every board that agrees with its filled cells. */
  lemma LineLifts(b: Squares, full: Squares, k: nat, p: Symbol)
    requires |b| == 9 && |full| == 9 && k < |Lines|
    requires forall j :: 0 <= j < 9 ==> b[j].None? || b[j] == full[j]
    ensures LineHeldBy(b, k, p) ==> LineHeldBy(full, k, p)
  {
  }

  /** A board within FullDrawnBoard has no winner: any line it held would be held on
      FullDrawnBoard too. */
  lemma WithinDrawnBoardNoWinner(b: Squares)
    requires WithinDrawnBoard(b)
    ensures CalculateWinner(b).None?
  {
    FullDrawnBoardFacts();
    WinnerIffLine(FullDrawnBoard);
    forall p, k | 0 <= k < |Lines| ensures !LineHeldBy(b, k, p) {
      LineLifts(b, FullDrawnBoard, k, p);
    }
    WinnerIffLine(b);
  }

  /** The cell of the `m`-th placement of the drawn game: 0, 1, 2, 4, 3, 5, 7, 6, 8. The
      order is its own inverse, so the cell played `m`-th also tells when cell `m` is played. */
  function DrawnCell(m: nat): (c: nat)
    requires m < 9
    ensures c < 9
  {
    if m == 3 then 4 else if m == 4 then 3 else if m == 6 then 7 else if m == 7 then 6 else m
  }

  /** The order of the drawn game is its own inverse. */
  lemma DrawnCellSelfInverse(m: nat)
    requires m < 9
    ensures DrawnCell(DrawnCell(m)) == m
  {
  }

  /** The board after the first `m` placements of the drawn game. */
  function DrawnBoardAfter(m: nat): (b: Squares)
    ensures WithinDrawnBoard(b)
  {
    seq(9, k requires 0 <= k < 9 => if DrawnCell(k) < m then FullDrawnBoard[k] else None)
  }

  /** The `m`-th placement fills one more cell of the drawn board. */
  lemma DrawnBoardGrows(m: nat)
    requires m < 9
    ensures DrawnBoardAfter(m)[DrawnCell(m)].None?
    ensures DrawnBoardAfter(m)[DrawnCell(m) := FullDrawnBoard[DrawnCell(m)]] == DrawnBoardAfter(m + 1)
  {
    var c := DrawnCell(m);
    DrawnCellSelfInverse(m);
    forall k | 0 <= k < 9 ensures DrawnCell(k) == m <==> k == c {
      DrawnCellSelfInverse(k);
    }
  }

  /** Played from the unshuffled deque, the `m`-th revealed block is the symbol the drawn
      board has in the `m`-th cell played. */
  lemma DrawnSymbol(m: nat)
    requires m < 9
    ensures Blocks.Unshuffled[RevealPosition(m)] == FullDrawnBoard[DrawnCell(m)].value
    ensures FullDrawnBoard[DrawnCell(m)].Some?
  {
  }

  /** The state after `m` placements of the drawn game from the unshuffled deque, with no
      jump back in between. */
  predicate DrawnAfter(s: State, m: nat) {
    && Valid(s) && m < 10 && s.blocks == Blocks.Unshuffled && s.currentSymbol.None?
    && |s.revealedIndices| == m && s.stepNumber == m && |s.history| == m + 1
    && s.xIsNext == (m % 2 == 0) && CurrentBoard(s) == DrawnBoardAfter(m)
  }

  /** The reveal of the drawn game's `m`-th turn takes the due block, whose symbol is the
      one the drawn board has in the next cell. */
  lemma DrawnReveal(s: State, m: nat)
    requires DrawnAfter(s, m) && m < 9
    ensures var r := Reveal(s, s.fromFront);
      && Valid(r) && r.currentSymbol == FullDrawnBoard[DrawnCell(m)]
      && r.history == s.history && r.stepNumber == m && r.xIsNext == s.xIsNext
      && r.blocks == s.blocks && |r.revealedIndices| == m + 1
  {
    RevealedExactlyTheEnds(s);
    assert RevealAccepted(s, s.fromFront);
    var r := Reveal(s, s.fromFront);
    assert r.revealedIndices == RevealOrder(m + 1);
    assert LastRevealed(r) == RevealPosition(m);
    DrawnSymbol(m);
  }

  /** One turn of the drawn game: the due block is revealed and placed in the next cell. */
  lemma DrawnStep(s: State, m: nat)
    requires DrawnAfter(s, m) && m < 9
    ensures DrawnAfter(Turn(s, DrawnCell(m)), m + 1)
  {
    var c := DrawnCell(m);
    DrawnReveal(s, m);
    var r := Reveal(s, s.fromFront);
    DrawnBoardGrows(m);
    WithinDrawnBoardNoWinner(DrawnBoardAfter(m));
    assert ClickAccepted(r, c);
    ClickEffect(r, c);
    var t := Click(r, c);
    assert CurrentBoard(t) == DrawnBoardAfter(m)[c := FullDrawnBoard[c]];
  }

  /** The rest of the drawn game, from its `m`-th placement on. */
  function DrawnFrom(s: State, m: nat): (t: State)
    requires Valid(s) && m <= 9
    ensures Valid(t)
    ensures DrawnAfter(s, m) ==> DrawnAfter(t, 9)
    decreases 9 - m
  {
    if m == 9 then s
    else if DrawnAfter(s, m) then
      DrawnStep(s, m);
      DrawnFrom(Turn(s, DrawnCell(m)), m + 1)
    else DrawnFrom(Turn(s, DrawnCell(m)), m + 1)
  }

  /** A whole game played from the unshuffled deque, each revealed block placed in the
      cells 0, 1, 2, 4, 3, 5, 7, 6, 8 in turn, without time travel. */
  function DrawnGame(): (s: State)
    ensures Valid(s)
  {
    Blocks.UnshuffledBalanced();
    DrawnFrom(Initial(Blocks.Unshuffled), 0)
  }

  /** The drawn game fills the board with X O X / X O O / O X X and leaves one block. */
  lemma DrawnGameFillsTheBoard()
    ensures var s := DrawnGame();
      && CurrentBoard(s) == FullDrawnBoard && AvailableBlocks(s) == 1 && !s.xIsNext
      && s.currentSymbol.None? && s.frontIndex == s.backIndex == 5 && !s.fromFront
  {
    Blocks.UnshuffledBalanced();
    var s0 := Initial(Blocks.Unshuffled);
    assert CurrentBoard(s0) == DrawnBoardAfter(0);
    assert DrawnAfter(s0, 0);
    var s := DrawnGame();
    assert DrawnAfter(s, 9);
    assert DrawnBoardAfter(9) == FullDrawnBoard;
  }

  /** Nine placements without a line: the board is full and one block is still hidden,
      and the component names the next player where a draw is intended. */
  lemma FullBoardNotDrawAsWritten()
    ensures var s := DrawnGame();
      && CountEmpty(CurrentBoard(s)) == 0 && CalculateWinner(CurrentBoard(s)).None?
      && AvailableBlocks(s) == 1
      && Status(s) == "Next player: Player 2" && StatusIntended(s) == "Draw!"
  {
    DrawnGameFillsTheBoard();
    FullDrawnBoardFacts();
    StatusCases(DrawnGame());
    StatusIntendedCases(DrawnGame());
  }

  /** With nothing pending, the cursors meet only once nine blocks have been revealed,
      and then it is a back turn. */
  lemma CursorsMeetAfterNineReveals(s: State)
    requires Valid(s) && s.currentSymbol.None? && s.frontIndex == s.backIndex
    ensures |s.revealedIndices| == 9 && !s.fromFront
  {
  }

  /** The drawn game reaches that meeting point, and there the handler as written refuses
      the last block. */
  lemma DrawnGameRefusesLastBlockAsWritten()
    ensures var s := DrawnGame();
      && (forall index :: IsClickable(s, index) <==> index == 5)
      && BlockClickAsWritten(s, 5) == s
  {
    DrawnGameFillsTheBoard();
    FullDrawnBoardFacts();
    AsWrittenRefusesLastBackBlock(DrawnGame());
  }

  /** A state the component can reach with the block click handler as written: at most
      nine blocks revealed. */
  predicate AtMostNineRevealed(s: State) {
    Valid(s) && |s.revealedIndices| <= 9
  }

  lemma InitialAtMostNine(blocks: seq<Symbol>)
    requires Blocks.Balanced(blocks)
    ensures AtMostNineRevealed(Initial(blocks))
  {
  }

  /** The handler as written never reveals the tenth block: the ninth reveal leaves the
      cursors on one block on a back turn, which it refuses. */
  lemma BlockClickAsWrittenKeepsNine(s: State, index: int)
    requires AtMostNineRevealed(s)
    ensures AtMostNineRevealed(BlockClickAsWritten(s, index))
  {
    if s.currentSymbol.None? && s.frontIndex == s.backIndex && CalculateWinner(CurrentBoard(s)).None? {
      CursorsMeetAfterNineReveals(s);
      AsWrittenRefusesLastBackBlock(s);
    }
  }

  lemma ClickKeepsNine(s: State, i: nat)
    requires AtMostNineRevealed(s) && i < 9
    ensures AtMostNineRevealed(Click(s, i))
  {
  }

  lemma JumpToKeepsNine(s: State, step: nat, newBlocks: seq<Symbol>)
    requires AtMostNineRevealed(s) && step < |s.history| && Blocks.Balanced(newBlocks)
    ensures AtMostNineRevealed(JumpTo(s, step, newBlocks))
  {
  }

  /** So, as written, no game ends in a draw: a block is always left, the status never
      reads "Draw!", the draw banner never shows, and without a winner the turn
      indicator stays. */
  lemma NoDrawAsWritten(s: State)
    requires AtMostNineRevealed(s)
    ensures AvailableBlocks(s) >= 1
    ensures var winner := CalculateWinner(CurrentBoard(s));
      && Status(s) != "Draw!" && !GameInfo.ShowDrawBanner(winner, AvailableBlocks(s), Status(s))
      && (winner.None? ==> GameInfo.ShowTurnIndicator(winner, AvailableBlocks(s)))
  {
    RevealedExactlyTheEnds(s);
    StatusCases(s);
  }

  /** With the corrected handler the last block is revealed, and the status, the draw
      banner and the turn indicator agree on a draw. */
  lemma LastRevealGivesDraw(s: State, index: int)
    requires Valid(s) && AvailableBlocks(s) == 1 && IsClickable(s, index)
    ensures var t := BlockClick(s, index);
      var winner := CalculateWinner(CurrentBoard(t));
      && AvailableBlocks(t) == 0 && Status(t) == "Draw!"
      && GameInfo.ShowDrawBanner(winner, AvailableBlocks(t), Status(t))
      && !GameInfo.ShowTurnIndicator(winner, AvailableBlocks(t))
  {
    BlockClickRevealsIt(s, index);
    RevealEffect(s, s.fromFront);
    StatusCases(BlockClick(s, index));
  }

  /** On the drawn game's full board, the corrected block click handler alone already
      gives the draw. */
  lemma DrawnGameDrawsWithCorrectedHandler()
    ensures var t := BlockClick(DrawnGame(), 5);
      var winner := CalculateWinner(CurrentBoard(t));
      && Status(t) == "Draw!" && GameInfo.ShowDrawBanner(winner, AvailableBlocks(t), Status(t))
      && !GameInfo.ShowTurnIndicator(winner, AvailableBlocks(t))
  {
    DrawnGameRefusesLastBlockAsWritten();
    DrawnGameFillsTheBoard();
    LastRevealGivesDraw(DrawnGame(), 5);
  }

  /** The intended status disagrees with the panel on the drawn game: the panel keys its
      parts to the blocks left, so it keeps the turn indicator and hides the draw banner
      while the status reads "Draw!". */
  lemma StatusIntendedDisagreesWithPanel()
    ensures var s := DrawnGame();
      var winner := CalculateWinner(CurrentBoard(s));
      && StatusIntended(s) == "Draw!"
      && GameInfo.ShowTurnIndicator(winner, AvailableBlocks(s))
      && !GameInfo.ShowDrawBanner(winner, AvailableBlocks(s), StatusIntended(s))
  {
    FullBoardNotDrawAsWritten();
  }

  /** While a reveal is due, exactly one block is clickable: the front one on a front
      turn, the back one on a back turn; no block is clickable otherwise. */
  lemma ClickableExactlyOne(s: State, index: int)
    requires Valid(s) && 0 <= index < Blocks.BlockCount
    ensures IsClickable(s, index) <==>
      && s.currentSymbol.None? && CalculateWinner(CurrentBoard(s)).None? && AvailableBlocks(s) > 0
      && index == (if s.fromFront then s.frontIndex else s.backIndex)
  {
    RevealedExactlyTheEnds(s);
  }

  /** The reveal instruction is shown exactly when some block can be clicked. */
  lemma InstructionIffClickable(s: State)
    requires Valid(s)
    ensures Instruction(s).Some? <==> exists index :: 0 <= index < Blocks.BlockCount && IsClickable(s, index)
  {
    RevealedExactlyTheEnds(s);
    if Instruction(s).Some? {
      var index := if s.fromFront then s.frontIndex else s.backIndex;
      ClickableExactlyOne(s, index);
    }
  }

  /** Clicking the clickable block reveals that very block. */
  lemma BlockClickRevealsIt(s: State, index: int)
    requires Valid(s) && IsClickable(s, index)
    ensures RevealAccepted(s, s.fromFront)
    ensures BlockClick(s, index).revealedIndices == s.revealedIndices + [index]
    ensures BlockClick(s, index).currentSymbol == Some(s.blocks[index])
  {
  }

  /** On a board with a winner no block can be clicked and no placement succeeds. */
  lemma NothingAfterWin(s: State, index: int, i: nat)
    requires Valid(s) && i < 9 && CalculateWinner(CurrentBoard(s)).Some?
    ensures BlockClick(s, index) == s && BlockClickAsWritten(s, index) == s && Click(s, i) == s
  {
  }

  /** The information panel shows the draw banner exactly when the status is a draw,
      and the turn indicator exactly when the status names the next player. */
  lemma PanelMatchesStatus(s: State)
    requires Valid(s)
    ensures var winner := CalculateWinner(CurrentBoard(s));
      && (GameInfo.ShowDrawBanner(winner, AvailableBlocks(s), Status(s)) <==> Status(s) == "Draw!")
      && (GameInfo.ShowTurnIndicator(winner, AvailableBlocks(s)) <==>
            Status(s) == "Next player: " + (if s.xIsNext then "Player 1" else "Player 2"))
  {
    StatusCases(s);
  }

  /** After a placement, the panel credits a win to the player who just moved. */
  lemma WinCreditedToMover(s: State, i: nat, mode: GameInfo.GameMode, isOnlineHost: bool)
    requires Valid(s) && i < 9 && ClickAccepted(s, i)
    ensures GameInfo.WinnerLabel(mode, isOnlineHost, Click(s, i).xIsNext)
            == if s.xIsNext then GameInfo.Player1Label(mode, isOnlineHost) else GameInfo.Player2Label(mode, isOnlineHost)
  {
  }

  // ----- the block click handler as written -----

  /** Away from the last block the component's argument `index === frontIndex` names the
      side whose turn it is, so the handler as written behaves as intended. */
  lemma AsWrittenAgreesWhileEndsDiffer(s: State, index: int)
    requires Valid(s) && s.frontIndex != s.backIndex
    ensures BlockClickAsWritten(s, index) == BlockClick(s, index)
  {
  }

  /** One turn: reveal from the side whose turn it is, then place at `cell`. */
  function Turn(s: State, cell: nat): (t: State)
    requires Valid(s) && cell < 9
    ensures Valid(t)
  {
    Click(Reveal(s, s.fromFront), cell)
  }

  /** A turn on cell 1, then a jump back to step 1. */
  function RewindStep(s: State): (t: State)
    requires Valid(s)
    ensures Valid(t) && t.blocks == s.blocks
  {
    var t := Turn(s, 1);
    if 1 < |t.history| then JumpTo(t, 1, t.blocks) else t
  }

  /** Only cell 0 of a board is (possibly) filled. */
  predicate OnlyFirstCell(b: Squares) {
    |b| == 9 && forall k :: 1 <= k < 9 ==> b[k].None?
  }

  lemma {:induction false} TwoCellsNoWinner(b: Squares)
    requires |b| == 9 && forall k :: 2 <= k < 9 ==> b[k].None?
    ensures CalculateWinner(b).None?
  {
    forall p ensures !HasLine(b, p) {
      forall k | 0 <= k < |Lines| ensures !LineHeldBy(b, k, p) {
        assert k == 0 || k == 1 || k == 2 || k == 3 || k == 4 || k == 5 || k == 6 || k == 7;
        assert Lines[k].2 >= 2;
      }
    }
    WinnerIffLine(b);
  }

  /** The facts a rewind needs and keeps: step 1 on display, nothing pending, and a
      board with at most its first cell filled. */
  predicate AtStepOne(s: State)
    requires Valid(s)
  {
    s.stepNumber == 1 && s.currentSymbol.None? && OnlyFirstCell(s.history[1])
  }

  lemma RewindOnce(s: State)
    requires Valid(s) && AtStepOne(s) && |s.revealedIndices| < Blocks.BlockCount - 1
    ensures AtStepOne(RewindStep(s)) && RewindStep(s).history[1] == s.history[1]
    ensures |RewindStep(s).revealedIndices| == |s.revealedIndices| + 1
  {

    var r := Reveal(s, s.fromFront);
    assert r.history == s.history && r.stepNumber == 1 && r.currentSymbol.Some?;
    assert |r.revealedIndices| == |s.revealedIndices| + 1;
    TwoCellsNoWinner(CurrentBoard(r));
    assert ClickAccepted(r, 1);
  }

  /** `n` rewind steps: from step 1 with nothing pending, each one reveals a block,
      places it on cell 1 and jumps back, so the board at step 1 survives while the
      reveals pile up. */
  function Rewinds(s: State, n: nat): (t: State)
    requires Valid(s)
    ensures Valid(t) && t.blocks == s.blocks
    ensures AtStepOne(s) && |s.revealedIndices| + n < Blocks.BlockCount ==>
      && AtStepOne(t) && t.history[1] == s.history[1]
      && |t.revealedIndices| == |s.revealedIndices| + n
    decreases n
  {
    if n == 0 then s
    else if AtStepOne(s) && |s.revealedIndices| < Blocks.BlockCount - 1 then
      RewindOnce(s);
      Rewinds(RewindStep(s), n - 1)
    else Rewinds(RewindStep(s), n - 1)
  }

  /** The first turn of a game: the first block is placed in cell 0. */
  lemma FirstTurn(blocks: seq<Symbol>)
    requires Blocks.Balanced(blocks)
    ensures var s := Turn(Initial(blocks), 0);
      && AtStepOne(s) && |s.revealedIndices| == 1 && s.blocks == blocks
      && s.history[1] == EmptyBoard[0 := Some(blocks[0])]
  {
    EmptyBoardHasNoWinner();
    assert ClickAccepted(Reveal(Initial(blocks), true), 0);
  }

  /** From step 1 with eight blocks revealed, a turn on cell 1 reveals the ninth block
      and leaves a back turn with the cursors on the same, last block. */
  lemma NinthTurn(s: State)
    requires Valid(s) && AtStepOne(s) && |s.revealedIndices| == 8
    ensures var t := Turn(s, 1);
      && t.frontIndex == t.backIndex == 5 && !t.fromFront && t.currentSymbol.None?
      && AvailableBlocks(t) == 1 && t.blocks == s.blocks
      && CurrentBoard(t) == s.history[1][1 := Some(s.blocks[4])]
  {
    var r := Reveal(s, s.fromFront);
    TwoCellsNoWinner(CurrentBoard(r));
    assert ClickAccepted(r, 1);
  }

  /** On a back turn with one block left, that block is the only clickable one, the
      handler as written passes `true` for it and the reveal is refused, while the
      corrected handler reveals it. */
  lemma AsWrittenRefusesLastBackBlock(s: State)
    requires Valid(s) && s.frontIndex == s.backIndex && !s.fromFront && s.currentSymbol.None?
    requires CalculateWinner(CurrentBoard(s)).None?
    ensures forall index :: IsClickable(s, index) <==> index == s.backIndex
    ensures BlockClickAsWritten(s, s.backIndex) == s
    ensures BlockClick(s, s.backIndex).currentSymbol == Some(s.blocks[s.backIndex])
  {
    RevealedExactlyTheEnds(s);
  }

  /** A game played from `blocks`: the first block goes to cell 0, then seven rewind
      steps, then one more turn on cell 1. */
  function StuckTrace(blocks: seq<Symbol>): (s: State)
    requires Blocks.Balanced(blocks)
    ensures Valid(s)
  {
    Turn(Rewinds(Turn(Initial(blocks), 0), 7), 1)
  }

  /** Seven rewind steps after the first turn: eight blocks revealed, step 1 on display
      with only the first placement on it. */
  lemma SevenRewinds(blocks: seq<Symbol>)
    requires Blocks.Balanced(blocks)
    ensures var s := Rewinds(Turn(Initial(blocks), 0), 7);
      && AtStepOne(s) && |s.revealedIndices| == 8 && s.blocks == blocks
      && s.history[1] == EmptyBoard[0 := Some(blocks[0])]
  {
    FirstTurn(blocks);
  }

  /** The empty board with cells 0 and 1 filled has seven empty cells and no winner. */
  lemma TwoPlacements(first: Symbol, second: Symbol)
    ensures var b := EmptyBoard[0 := Some(first)][1 := Some(second)];
      CountEmpty(b) == 7 && CalculateWinner(b).None?
  {
    var b1 := EmptyBoard[0 := Some(first)];
    CountEmptyFill(EmptyBoard, 0, first);
    CountEmptyFill(b1, 1, second);
    TwoCellsNoWinner(b1[1 := Some(second)]);
  }

  /** The turn on cell 1 that follows leaves seven empty cells and no winner. */
  lemma LastTurnBoard(s: State, first: Symbol)
    requires Valid(s) && AtStepOne(s) && |s.revealedIndices| == 8
    requires s.history[1] == EmptyBoard[0 := Some(first)]
    ensures var b := CurrentBoard(Turn(s, 1));
      && CountEmpty(b) == 7 && CalculateWinner(b).None?
  {
    NinthTurn(s);
    TwoPlacements(first, s.blocks[4]);
  }

  /** After the whole trace one block is left, it is the back block on a back turn, and
      the board has seven empty cells and no winner. */
  lemma StuckTraceReachesLastBlock(blocks: seq<Symbol>)
    requires Blocks.Balanced(blocks)
    ensures var s := StuckTrace(blocks);
      && AvailableBlocks(s) == 1 && s.frontIndex == s.backIndex == 5 && !s.fromFront
      && s.currentSymbol.None? && s.blocks == blocks
      && CountEmpty(CurrentBoard(s)) == 7 && CalculateWinner(CurrentBoard(s)).None?
  {
    SevenRewinds(blocks);
    var s8 := Rewinds(Turn(Initial(blocks), 0), 7);
    NinthTurn(s8);
    LastTurnBoard(s8, blocks[0]);
  }

  /** The stuck state: after that trace the last block is the only clickable one, yet
      the handler as written refuses it, so with seven empty cells and no winner the
      game can neither go on nor end. The corrected handler reveals it. */
  lemma LastBlockRefusedAsWritten(blocks: seq<Symbol>)
    requires Blocks.Balanced(blocks)
    ensures var s := StuckTrace(blocks);
      && AvailableBlocks(s) == 1 && CountEmpty(CurrentBoard(s)) == 7
      && CalculateWinner(CurrentBoard(s)).None?
      && (forall index :: IsClickable(s, index) <==> index == 5)
      && BlockClickAsWritten(s, 5) == s
      && BlockClick(s, 5).currentSymbol == Some(blocks[5])
  {
    StuckTraceReachesLastBlock(blocks);
    AsWrittenRefusesLastBackBlock(StuckTrace(blocks));
  }
}
