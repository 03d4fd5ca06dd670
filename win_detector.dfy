/**
 * The win detector the game imports as `calculateWinner`. Its file is not part of
 * this model; it is stated here as the standard helper: the eight lines of a 3x3
 * board are checked in order and the symbol of the first line whose three cells
 * hold the same symbol is returned, `None` when there is none.
 */
module WinDetector {
  import opened Wrappers

  datatype Symbol = X | O

  /** A cell is empty (`null`) or holds a symbol. */
  type Cell = Option<Symbol>

  /** A board: nine cells in row-major order. */
  type Squares = seq<Cell>

  type CellIndex = i: nat | i < 9

  /** Three rows, three columns, two diagonals, in the order they are checked. */
  const Lines: seq<(CellIndex, CellIndex, CellIndex)> :=
    [(0, 1, 2), (3, 4, 5), (6, 7, 8), (0, 3, 6), (1, 4, 7), (2, 5, 8), (0, 4, 8), (2, 4, 6)]

  const EmptyBoard: Squares := [None, None, None, None, None, None, None, None, None]

  function SymbolName(p: Symbol): string {
    match p
    case X => "X"
    case O => "O"
  }

  /** Line `k` of the board holds symbol `p` in all three of its cells. */
  predicate LineHeldBy(b: Squares, k: nat, p: Symbol)
    requires |b| == 9 && k < |Lines|
  {
    var (x, y, z) := Lines[k];
    b[x] == Some(p) && b[y] == Some(p) && b[z] == Some(p)
  }

  ghost predicate HasLine(b: Squares, p: Symbol)
    requires |b| == 9
  {
    exists k :: 0 <= k < |Lines| && LineHeldBy(b, k, p)
  }

  /** The symbol of the first of lines `k..` that is complete. */
  function WinnerFrom(b: Squares, k: nat): Option<Symbol>
    requires |b| == 9 && k <= |Lines|
    decreases |Lines| - k
  {
    if k == |Lines| then None
    else
      var (x, y, z) := Lines[k];
      if b[x].Some? && b[x] == b[y] && b[x] == b[z] then b[x] else WinnerFrom(b, k + 1)
  }

  function CalculateWinner(b: Squares): Option<Symbol>
    requires |b| == 9
  {
    WinnerFrom(b, 0)
  }

  lemma {:induction false} WinnerFromSound(b: Squares, k: nat, p: Symbol)
    requires |b| == 9 && k <= |Lines|
    requires WinnerFrom(b, k) == Some(p)
    ensures exists j :: k <= j < |Lines| && LineHeldBy(b, j, p)
    decreases |Lines| - k
  {
    var (x, y, z) := Lines[k];
    if b[x].Some? && b[x] == b[y] && b[x] == b[z] {
      assert LineHeldBy(b, k, p);
    } else {
      WinnerFromSound(b, k + 1, p);
    }
  }

  lemma {:induction false} WinnerFromComplete(b: Squares, k: nat, j: nat, p: Symbol)
    requires |b| == 9 && k <= j < |Lines|
    requires LineHeldBy(b, j, p)
    ensures WinnerFrom(b, k).Some?
    decreases |Lines| - k
  {
    if k < j {
      var (x, y, z) := Lines[k];
      if !(b[x].Some? && b[x] == b[y] && b[x] == b[z]) {
        WinnerFromComplete(b, k + 1, j, p);
      }
    }
  }

  /** A reported winner owns a complete line, and a board with a complete line
      always reports a winner. */
  lemma WinnerIffLine(b: Squares)
    requires |b| == 9
    ensures forall p :: CalculateWinner(b) == Some(p) ==> HasLine(b, p)
    ensures CalculateWinner(b).None? <==> (forall p :: !HasLine(b, p))
  {
    forall p | CalculateWinner(b) == Some(p)
      ensures HasLine(b, p)
    {
      WinnerFromSound(b, 0, p);
    }
    forall p | HasLine(b, p)
      ensures CalculateWinner(b).Some?
    {
      var j :| 0 <= j < |Lines| && LineHeldBy(b, j, p);
      WinnerFromComplete(b, 0, j, p);
    }
  }

  /** The empty board with which every game starts has no winner. */
  lemma EmptyBoardHasNoWinner()
    ensures |EmptyBoard| == 9 && CalculateWinner(EmptyBoard).None?
  {
    forall p ensures !HasLine(EmptyBoard, p) {
      forall k | 0 <= k < |Lines| ensures !LineHeldBy(EmptyBoard, k, p) {
        var (x, y, z) := Lines[k];
        assert EmptyBoard[x] == None;
      }
    }
    WinnerIffLine(EmptyBoard);
  }
}
