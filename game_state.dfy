/**
 * The state of the `Game` component (src/Game.jsx) as a value, the three
 * transitions its handlers make, the derivations `render` computes from it,
 * and what is proved about them. The class in module GameComponent mirrors
 * these fields and performs the same steps in place.
 */
module GameState {
  import opened Wrappers
  import opened WinDetector
  import Blocks


  /** `this.state` of the component (the rules-overlay flag left aside). */
  datatype State = State(
    history: seq<Squares>,       // one board per completed placement, from the empty board on
    stepNumber: nat,             // the board on display
    xIsNext: bool,               // Player 1 moves next
    blocks: seq<Symbol>,         // the ten hidden blocks
    revealedIndices: seq<int>,   // the block indices revealed so far, in order
    fromFront: bool,             // the next reveal is taken from the front
    currentSymbol: Option<Symbol>, // the revealed symbol waiting to be placed
    frontIndex: int,             // next block revealed from the front
    backIndex: int)              // next block revealed from the back

  /** The block taken by the `n`-th reveal (from 0): reveals alternate front, back,
      front, ..., so the even ones come from the front and the odd ones from the back. */
  function RevealPosition(n: nat): int {
    if n % 2 == 0 then n / 2 else Blocks.BlockCount - 1 - n / 2
  }

  /** The indices of the first `n` reveals, in order. */
  function RevealOrder(n: nat): (r: seq<int>)
    ensures |r| == n
  {
    if n == 0 then [] else RevealOrder(n - 1) + [RevealPosition(n - 1)]
  }

  function LastRevealed(s: State): int
    requires |s.revealedIndices| > 0
  {
    s.revealedIndices[|s.revealedIndices| - 1]
  }

  /** The invariant of every state the handlers can reach. */
  predicate Valid(s: State) {
    var n := |s.revealedIndices|;
    // the hidden sequence
    && Blocks.Balanced(s.blocks)
    // the reveals so far, alternating from the front, and the cursors just inside them
    && n <= Blocks.BlockCount
    && s.revealedIndices == RevealOrder(n)
    && s.frontIndex == (n + 1) / 2
    && s.backIndex == Blocks.BlockCount - 1 - n / 2
    // the side of the next reveal flips with every placement
    && s.fromFront == ((n % 2 == 0) == s.currentSymbol.None?)
    // a pending symbol is the block revealed last
    && (s.currentSymbol.Some? ==>
          && n > 0
          && 0 <= LastRevealed(s) < |s.blocks|
          && s.currentSymbol == Some(s.blocks[LastRevealed(s)]))
    // the history of boards
    && |s.history| > 0
    && (forall k :: 0 <= k < |s.history| ==> |s.history[k]| == 9)
    && s.stepNumber < |s.history|
  }

  /** The state the constructor builds, and `jumpTo(0)` rebuilds, around fresh blocks. */
  function Initial(blocks: seq<Symbol>): (s: State)
    requires Blocks.Balanced(blocks)
    ensures Valid(s)
  {
    State([EmptyBoard], 0, true, blocks, [], true, None, 0, Blocks.BlockCount - 1)
  }

  function CurrentBoard(s: State): (b: Squares)
    requires Valid(s)
    ensures |b| == 9
  {
    s.history[s.stepNumber]
  }

  /** `availableBlocks` of `render`: the size of the unrevealed region. */
  function AvailableBlocks(s: State): int {
    s.backIndex - s.frontIndex + 1
  }

  /** The three checks of `handleBlockReveal`, passed. */
  predicate RevealAccepted(s: State, isFromFront: bool) {
    s.currentSymbol.None? && s.frontIndex <= s.backIndex && isFromFront == s.fromFront
  }

  /** `handleBlockReveal(isFromFront)`. */
  function Reveal(s: State, isFromFront: bool): (t: State)
    requires Valid(s)
    ensures Valid(t)
  {
    if s.currentSymbol.Some? then s
    else if s.frontIndex > s.backIndex then s
    else if isFromFront != s.fromFront then s
    else
      var blockIndex := if isFromFront then s.frontIndex else s.backIndex;
      s.(currentSymbol := Some(s.blocks[blockIndex]),
         frontIndex := if isFromFront then s.frontIndex + 1 else s.frontIndex,
         backIndex := if isFromFront then s.backIndex else s.backIndex - 1,
         revealedIndices := s.revealedIndices + [blockIndex])
  }

  /** The checks of `handleClick(i)`, passed: no winner yet, cell `i` empty, a symbol revealed. */
  predicate ClickAccepted(s: State, i: nat)
    requires Valid(s) && i < 9
  {
    CalculateWinner(CurrentBoard(s)).None? && CurrentBoard(s)[i].None? && s.currentSymbol.Some?
  }

  /** `handleClick(i)`: place the revealed symbol in a copy of the board on display,
      drop the boards after it and append the new one. */
  function Click(s: State, i: nat): (t: State)
    requires Valid(s) && i < 9
    ensures Valid(t)
  {
    var history := s.history[..s.stepNumber + 1];
    var squares := history[|history| - 1];
    if CalculateWinner(squares).Some? || squares[i].Some? then s
    else if s.currentSymbol.None? then s
    else
      s.(history := history + [squares[i := s.currentSymbol]],
         stepNumber := |history|,
         xIsNext := !s.xIsNext,
         fromFront := !s.fromFront,
         currentSymbol := None)
  }

  /** `jumpTo(step)`: step 0 restarts around fresh blocks; any other step only
      moves the board on display and sets whose turn it is by parity. */
  function JumpTo(s: State, step: nat, newBlocks: seq<Symbol>): (t: State)
    requires Valid(s) && step < |s.history| && Blocks.Balanced(newBlocks)
    ensures Valid(t)
  {
    if step == 0 then Initial(newBlocks)
    else s.(stepNumber := step, xIsNext := step % 2 == 0)
  }

  function CountEmpty(b: Squares): (n: nat)
    ensures n <= |b|
  {
    if b == [] then 0 else (if b[0].None? then 1 else 0) + CountEmpty(b[1..])
  }

  /** The status line of `render`. The second disjunct of the draw test is
      written as in the component, where `availableBlocks <= 0` subsumes it. */
  function Status(s: State): string
    requires Valid(s)
  {
    var winner := CalculateWinner(CurrentBoard(s));
    var availableBlocks := AvailableBlocks(s);
    if winner.Some? then "Winner: " + SymbolName(winner.value)
    else if availableBlocks <= 0 || (availableBlocks == 0 && CountEmpty(CurrentBoard(s)) == 0) then "Draw!"
    else "Next player: " + (if s.xIsNext then "Player 1" else "Player 2")
  }

  /** `isClickable` of block `index` in `render`. */
  predicate IsClickable(s: State, index: int)
    requires Valid(s)
  {
    && index !in s.revealedIndices
    && s.currentSymbol.None?
    && CalculateWinner(CurrentBoard(s)).None?
    && ((s.fromFront && index == s.frontIndex) || (!s.fromFront && index == s.backIndex))
  }

  /** The instruction `render` shows above the blocks, if any. */
  function Instruction(s: State): Option<string>
    requires Valid(s)
  {
    if s.currentSymbol.None? && CalculateWinner(CurrentBoard(s)).None? && AvailableBlocks(s) > 0 then
      Some(if s.fromFront then "Click on the FIRST hidden block to reveal it!"
           else "Click on the LAST hidden block to reveal it!")
    else None
  }

  /** The click handler on block `index`: a clickable block reveals from the side
      whose turn it is (see BlockClickAsWritten for the component's own argument). */
  function BlockClick(s: State, index: int): (t: State)
    requires Valid(s)
    ensures Valid(t)
  {
    if IsClickable(s, index) then Reveal(s, s.fromFront) else s
  }

  /** The click handler on block `index` as the component writes it: the side
      passed is `index === frontIndex`. */
  function BlockClickAsWritten(s: State, index: int): (t: State)
    requires Valid(s)
    ensures Valid(t)
  {
    if IsClickable(s, index) then Reveal(s, index == s.frontIndex) else s
  }
}
