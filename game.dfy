/**
 * The `Game` component of src/Game.jsx as an object: its fields are `this.state`
 * (the rules-overlay flag left aside) and each handler replaces them in place,
 * as `setState` does. Every handler is proved to perform exactly the transition
 * of module GameState on the snapshot of the fields, so everything proved there
 * about the transitions holds of the object.
 */
module GameComponent {
  import opened Wrappers
  import opened WinDetector
  import Blocks
  import GameState

  class Game {
    var history: seq<Squares>
    var stepNumber: nat
    var xIsNext: bool
    var blocks: seq<Symbol>
    var revealedIndices: seq<int>
    var fromFront: bool
    var currentSymbol: Option<Symbol>
    var frontIndex: int
    var backIndex: int

    /** The fields as a value. */
    function Snapshot(): GameState.State
      reads this
    {
      GameState.State(history, stepNumber, xIsNext, blocks, revealedIndices,
                      fromFront, currentSymbol, frontIndex, backIndex)
    }

    predicate Valid()
      reads this
    {
      GameState.Valid(Snapshot())
    }

    /** `setState(t)`: replace the fields by those of `t`. */
    method SetState(t: GameState.State)
      modifies this
      ensures Snapshot() == t
    {
      history, stepNumber, xIsNext, blocks, revealedIndices := t.history, t.stepNumber, t.xIsNext, t.blocks, t.revealedIndices;
      fromFront, currentSymbol, frontIndex, backIndex := t.fromFront, t.currentSymbol, t.frontIndex, t.backIndex;
    }

    /** The constructor: shuffle the ten blocks with the random draws `picks`, one empty
        board, Player 1 to reveal the first block. */
    constructor(picks: seq<nat>)
      requires Blocks.ValidPicks(picks)
      ensures Valid()
      ensures Snapshot() == GameState.Initial(Blocks.Shuffled(picks))
    {
      var shuffled := Blocks.GenerateBalancedBlocks(picks);
      new;
      SetState(GameState.Initial(shuffled));
    }

    /** `handleClick(i)`: place the revealed symbol on cell `i` of the board on display. */
    method HandleClick(i: nat)
      requires Valid() && i < 9
      modifies this
      ensures Valid()
      ensures Snapshot() == GameState.Click(old(Snapshot()), i)
    {
      var kept := history[..stepNumber + 1];
      var squares := kept[|kept| - 1];
      if CalculateWinner(squares).Some? || squares[i].Some? {
        return;
      }
      if currentSymbol.None? {
        return;
      }
      squares := squares[i := currentSymbol];
      SetState(Snapshot().(history := kept + [squares], stepNumber := |kept|, xIsNext := !xIsNext,
                           fromFront := !fromFront, currentSymbol := None));
    }

    /** `handleBlockReveal(isFromFront)`: reveal the next block from the requested end. */
    method HandleBlockReveal(isFromFront: bool)
      requires Valid()
      modifies this
      ensures Valid()
      ensures Snapshot() == GameState.Reveal(old(Snapshot()), isFromFront)
    {
      if currentSymbol.Some? {
        return;
      }
      if frontIndex > backIndex {
        return;
      }
      if isFromFront != fromFront {
        return;
      }
      var blockIndex := if isFromFront then frontIndex else backIndex;
      var newFrontIndex := if isFromFront then frontIndex + 1 else frontIndex;
      var newBackIndex := if isFromFront then backIndex else backIndex - 1;
      SetState(Snapshot().(currentSymbol := Some(blocks[blockIndex]), frontIndex := newFrontIndex,
                           backIndex := newBackIndex, revealedIndices := revealedIndices + [blockIndex]));
    }

    /** `jumpTo(step)`: step 0 restarts with blocks reshuffled by `picks`; any other
        step shows that board and sets the turn by parity. */
    method JumpTo(step: nat, picks: seq<nat>)
      requires Valid() && step < |history| && Blocks.ValidPicks(picks)
      modifies this
      ensures Valid()
      ensures Snapshot() == GameState.JumpTo(old(Snapshot()), step, Blocks.Shuffled(picks))
    {
      if step == 0 {
        var shuffled := Blocks.GenerateBalancedBlocks(picks);
        SetState(GameState.Initial(shuffled));
      } else {
        SetState(Snapshot().(stepNumber := step, xIsNext := step % 2 == 0));
      }
    }

    /** The click handler of block `index` as the component writes it. */
    method OnBlockClickAsWritten(index: int)
      requires Valid()
      modifies this
      ensures Valid()
      ensures Snapshot() == GameState.BlockClickAsWritten(old(Snapshot()), index)
    {
      if GameState.IsClickable(Snapshot(), index) {
        HandleBlockReveal(index == frontIndex);
      }
    }

    /** The click handler of block `index`, revealing from the side whose turn it is. */
    method OnBlockClick(index: int)
      requires Valid()
      modifies this
      ensures Valid()
      ensures Snapshot() == GameState.BlockClick(old(Snapshot()), index)
    {
      if GameState.IsClickable(Snapshot(), index) {
        HandleBlockReveal(fromFront);
      }
    }
  }
}
