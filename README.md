# TwistTacToe turn engine, information panel and room utilities in Dafny

TwistTacToe is tic-tac-toe with hidden symbols. Ten blocks, five `X` and five `O`,
are shuffled and laid out in a row. On each turn the player to move reveals one
block and must place the revealed symbol on the board. The first reveal takes the
front block, the next the back block, and so on, alternating. Every placement
appends a board to a history, which the players can jump back into. Jumping to
step 0 restarts the game with a fresh shuffle.

This project models three parts of the repository:

- **The `Game` component** (src/Game.jsx). `GameComponent.Game` is a class whose
  fields are the component's `this.state`, with one method per handler (`handleClick`,
  `handleBlockReveal`, `jumpTo`, the block click handler) and the Fisher-Yates shuffle
  as an in-place array loop (`Blocks.GenerateBalancedBlocks`). Each method is proved
  to perform exactly one pure transition of module `GameState` (`Reveal`, `Click`,
  `JumpTo`, `BlockClick`, `BlockClickAsWritten`) on the snapshot of its fields. Those transitions preserve the
  invariant `GameState.Valid`, and module `GameProperties` proves what the component
  promises about them. The derivations of `render` are functions: the status line,
  `availableBlocks`, `isClickable` and the reveal instruction.
- **The information panel** (src/components/game-info/GameInfo.jsx), module `GameInfo`:
  - the player labels;
  - who is credited with a win;
  - whose turn it is online;
  - which parts of the panel are shown.
- **The room utilities** (src/utils/onlineRoom.js), module `OnlineRoom`:
  - room-code generation and validation;
  - `formatError`;
  - the thirty-minute freshness rule of `getLastRoom`;
  - the reconnect counter of `PeerConnectionManager`, its `disconnect` and the guard of
    `send`.

Parameters replace what the model cannot see:
- The random draws of both shuffles and of the room-code generator are arguments:
  `picks[i] <= i` for the swap partner of position `i`, and an alphabet position for
  each code character.
- The clock is the parameter `now`.
- The stored cache entry is a parameter.
- Whether the transport throws in `send` is a parameter.
- The messages handed to the `onError` and `onConnectionChange` callbacks by
  `attemptReconnect`, `send` and `disconnect` are returned as values.

`calculateWinner` comes from src/helpers/calculateWinner, which is not part of this
model. Module `WinDetector` states it as the usual helper: the eight lines of the
board, checked in order, and the symbol of the first line whose three cells hold the
same symbol.

The invariant `GameState.Valid` is stronger than the component's comments spell out:
- The revealed indices are exactly the first `n` entries of the order 0, 9, 1, 8, 2, …,
  where `n` is their number.
- `frontIndex` is `(n + 1) / 2` and `backIndex` is `9 - n / 2`.
- The side of the next reveal is fixed by the parity of `n` and by whether a symbol is
  pending.

From this `GameProperties.RevealedExactlyTheEnds` derives the deque facts:
- no index is revealed twice;
- the revealed set is `[0, frontIndex) ∪ (backIndex, 9]`;
- `|revealedIndices| = 10 - availableBlocks`.

Where the code's own text and its behaviour part ways, the model follows the behaviour:
- **Draw on a full board.** The draw test of src/Game.jsx:160 spells out a full-board
  case, but joins it to `availableBlocks === 0`, which the first disjunct already
  covers. So only "no block left" would end the game in a draw, and with the block click
  handler as written that point is never reached. See Findings.
- **Reconnect delays.** The comment at src/utils/onlineRoom.js:295 calls the back-off
  exponential. The code waits `2000 * attempt` ms, which is linear
  (`OnlineRoom.DelaysAreLinear`).
- **Which end each player reveals from.** The rules text at src/Game.jsx:198-200 says
  Player 1 reveals from the first block and Player 2 from the last. A new game, reveals,
  placements and the restart keep this (`GameProperties.SideFollowsPlayer`). A jump back
  to a step `k > 0` does not: it resets the player by parity but keeps the reveal side
  and the blocks already used, so the rules text no longer holds
  (`GameProperties.JumpBackBreaksSide`).
- **Revealing after a win.** A reveal after a win is refused by `isClickable` only;
  `handleBlockReveal` itself does not look for a winner.

## Model

| member | source | states |
|---|---|---|
| WinDetector.CalculateWinner | src/Game.jsx:2 | the symbol of the first of the eight lines whose three cells hold it; its meaning is stated by `WinDetector.WinnerIffLine` |
| WinDetector.WinnerFromSound | src/Game.jsx:2 | a winner reported by the scan from line `k` on owns one of the lines from `k` on |
| WinDetector.WinnerFromComplete | src/Game.jsx:2 | if a line from `k` on is held, the scan from `k` reports a winner |
| WinDetector.WinnerIffLine | src/Game.jsx:2 | the winner reported for a board holds one of the eight lines, and no winner is reported exactly when no line is held |
| WinDetector.EmptyBoardHasNoWinner | src/Game.jsx:23-27 | the empty starting board has no winner |
| Blocks.Swap | src/Game.jsx:15 | the destructuring swap exchanges the two positions, keeps every other position and the multiset |
| Blocks.MultisetCount | src/Game.jsx:11 | the multiplicity of a symbol is its count in the row |
| Blocks.ShuffleDown | src/Game.jsx:12-15 | the swaps of the shuffle loop keep the length and the multiset of the blocks |
| Blocks.Shuffled | src/Game.jsx:10-18 | the shuffle of the unshuffled row by the draws; its balance is stated by `Blocks.ShuffledBalanced` |
| Blocks.UnshuffledBalanced | src/Game.jsx:11 | the unshuffled row has ten blocks, five X and five O |
| Blocks.ShuffledBalanced | src/Game.jsx:10-18 | whatever the random draws, the shuffled row has ten blocks, five X and five O |
| Blocks.GenerateBalancedBlocks | src/Game.jsx:10-18 | the in-place Fisher-Yates loop returns the shuffle of the draws, which is balanced |
| GameState.Initial | src/Game.jsx:21-34 | the initial state satisfies the invariant |
| GameState.CurrentBoard | src/Game.jsx:151-152 | the board on display has nine cells |
| GameState.AvailableBlocks | src/Game.jsx:155 | `backIndex - frontIndex + 1`; `GameProperties.RevealedExactlyTheEnds` shows it counts the unrevealed blocks |
| GameState.RevealAccepted | src/Game.jsx:83-98 | the three checks of `handleBlockReveal`; `GameProperties.RevealNoOpIffRejected` shows they decide whether the state changes |
| GameState.ClickAccepted | src/Game.jsx:51-63 | the three checks of `handleClick`; `GameProperties.ClickNoOpIffRejected` shows they decide whether the state changes |
| GameState.Status | src/Game.jsx:157-164 | the status line as written; its cases are stated by `GameProperties.StatusCases` |
| GameState.IsClickable | src/Game.jsx:248-251 | the `isClickable` test of a block; `GameProperties.ClickableExactlyOne` shows which block it admits |
| GameState.Instruction | src/Game.jsx:239-245 | the reveal instruction; `GameProperties.InstructionIffClickable` ties it to the clickable block |
| GameState.Reveal | src/Game.jsx:81-112 | `handleBlockReveal` keeps the invariant |
| GameState.Click | src/Game.jsx:50-79 | `handleClick` keeps the invariant |
| GameState.JumpTo | src/Game.jsx:114-148 | `jumpTo` keeps the invariant |
| GameState.BlockClick | src/Game.jsx:257-261 | the corrected block click handler keeps the invariant |
| GameState.BlockClickAsWritten | src/Game.jsx:257-261 | the block click handler as written keeps the invariant |
| GameState.CountEmpty | src/Game.jsx:160 | the number of empty cells is at most the number of cells |
| GameProperties.RevealOrderMembers | src/Game.jsx:101-104 | the first `n` reveals are the `(n+1)/2` front blocks and the `n/2` back blocks |
| GameProperties.RevealOrderDistinct | src/Game.jsx:101-104 | no block is revealed twice |
| GameProperties.RevealedExactlyTheEnds | src/Game.jsx:101-104 | the revealed indices are duplicate-free and are exactly `[0, frontIndex) ∪ (backIndex, 9]`, so their number is `10 - availableBlocks` |
| GameProperties.RevealNoOpIffRejected | src/Game.jsx:83-98 | a reveal leaves the state unchanged if and only if a symbol is pending, no block is left, or the wrong side is asked |
| GameProperties.RevealEffect | src/Game.jsx:101-111 | an accepted reveal takes the block at the requested end, moves only that cursor inward, records the index and changes nothing else |
| GameProperties.SecondRevealRejected | src/Game.jsx:83-111 | a second reveal before a placement is refused |
| GameProperties.CountEmptyFill | src/Game.jsx:66 | filling an empty cell lowers the count of empty cells by one |
| GameProperties.ClickNoOpIffRejected | src/Game.jsx:51-63 | a click leaves the state unchanged if and only if the board has a winner, the cell is filled, or no symbol is pending |
| GameProperties.ClickRejections | src/Game.jsx:56-63 | each of the three refusal conditions alone makes the click a no-op |
| GameProperties.ClickEffect | src/Game.jsx:51-78 | an accepted click keeps the history up to the board on display, appends that board with cell `i` set, advances the step, flips both turn flags, clears the symbol, and leaves blocks and cursors alone |
| GameProperties.JumpToStartRestarts | src/Game.jsx:117-141 | `jumpTo(0)` restores one empty board, step 0, Player 1 to reveal the front block, cursors 0 and 9, nothing revealed, the new shuffle |
| GameProperties.JumpToPast | src/Game.jsx:142-146 | `jumpTo(k)` for `k > 0` changes only the step and sets `xIsNext` to the parity of `k` |
| GameProperties.JumpThenClickDropsFuture | src/Game.jsx:51-77 | after a jump back, the next placement discards every board after the one jumped to |
| GameProperties.PlayerRevealsOwnEnd | src/Game.jsx:198-200 | while the promise holds, the one clickable block is the front block on Player 1's turn and the back block on Player 2's |
| GameProperties.InitialSideFollowsPlayer | src/Game.jsx:21-34 | a new game starts with Player 1 and the front side, so the promise holds |
| GameProperties.RevealKeepsSide | src/Game.jsx:81-112 | a reveal keeps the promise |
| GameProperties.ClickKeepsSide | src/Game.jsx:50-79 | a placement flips the player and the side together, so it keeps the promise |
| GameProperties.BlockClickKeepsSide | src/Game.jsx:257-261 | both block click handlers keep the promise |
| GameProperties.RestartKeepsSide | src/Game.jsx:117-141 | `jumpTo(0)` restores the promise from any state |
| GameProperties.JumpBackBreaksSide | src/Game.jsx:142-146 | after turns on cells 0 and 1, `jumpTo(1)` makes it Player 2's turn with the front side due, and block 1, at Player 1's end, is the only clickable block |
| GameProperties.StatusCases | src/Game.jsx:157-164 | the status names the winner if there is one; it is "Draw!" exactly when there is no winner and no block is left; otherwise it names Player 1 exactly when `xIsNext` |
| GameProperties.FullBoardWithBlocksLeftIsNoDraw | src/Game.jsx:160 | a full board with blocks still hidden and no winner is not reported as a draw |
| GameProperties.StatusIntended | src/Game.jsx:157-164 | the status line with the full-board draw test the source spells out; its cases are stated by `GameProperties.StatusIntendedCases` |
| GameProperties.StatusIntendedCases | src/Game.jsx:160 | with the intended test, "Draw!" exactly when there is no winner and no block is left or no cell is empty; it agrees with the component's status while a cell is empty |
| GameProperties.FullDrawnBoardFacts | src/Game.jsx:160 | the board X O X / X O O / O X X is full and has no winner |
| GameProperties.LineLifts | src/Game.jsx:55 | a line held on a board stays held once more cells are filled |
| GameProperties.WithinDrawnBoardNoWinner | src/Game.jsx:55 | a board whose filled cells agree with X O X / X O O / O X X has no winner |
| GameProperties.DrawnCell | src/Game.jsx:50-79 | the cell of the `m`-th placement of the drawn game, below 9 |
| GameProperties.DrawnCellSelfInverse | src/Game.jsx:50-79 | the order in which the drawn game plays its cells is its own inverse |
| GameProperties.DrawnBoardAfter | src/Game.jsx:66 | every board of the drawn game agrees with X O X / X O O / O X X |
| GameProperties.DrawnBoardGrows | src/Game.jsx:56-69 | the next cell of the drawn game is empty, and filling it gives the next board of the game |
| GameProperties.DrawnSymbol | src/Game.jsx:101-104 | from the unshuffled row, the `m`-th revealed block is the symbol of the `m`-th cell played |
| GameProperties.DrawnReveal | src/Game.jsx:81-112 | the reveal of each turn of the drawn game takes the due block, whose symbol is the one the drawn board has in the next cell |
| GameProperties.DrawnStep | src/Game.jsx:50-112 | one turn of the drawn game reveals the due block and places it in the next cell, with no winner in between |
| GameProperties.DrawnFrom | src/Game.jsx:50-112 | playing the drawn game on from any of its states reaches its ninth placement |
| GameProperties.DrawnGame | src/Game.jsx:21-112 | nine turns from the initial state of the unshuffled row keep the invariant |
| GameProperties.DrawnGameFillsTheBoard | src/Game.jsx:50-112 | after those nine turns the board is X O X / X O O / O X X, one block is left, it is Player 2's back turn, and both cursors are on block 5 |
| GameProperties.FullBoardNotDrawAsWritten | src/Game.jsx:157-164 | after that game the board is full with no winner and one block left; the component names Player 2 as next where a draw is intended |
| GameProperties.CursorsMeetAfterNineReveals | src/Game.jsx:101-104 | with nothing pending, the cursors meet only once nine blocks have been revealed, and then it is a back turn |
| GameProperties.DrawnGameRefusesLastBlockAsWritten | src/Game.jsx:248-261 | at the end of the drawn game the cursors meet on block 5, the only clickable block, and the handler as written refuses it |
| GameProperties.InitialAtMostNine | src/Game.jsx:21-34 | a new game has at most nine blocks revealed |
| GameProperties.BlockClickAsWrittenKeepsNine | src/Game.jsx:257-261 | the block click handler as written never reveals a tenth block |
| GameProperties.ClickKeepsNine | src/Game.jsx:50-79 | a placement reveals nothing, so at most nine blocks stay revealed |
| GameProperties.JumpToKeepsNine | src/Game.jsx:114-148 | a jump, and the restart at step 0, keep at most nine blocks revealed |
| GameProperties.NoDrawAsWritten | src/Game.jsx:155-164 | with at most nine blocks revealed a block is always left, the status is never "Draw!", the draw banner never shows, and without a winner the turn indicator stays |
| GameProperties.LastRevealGivesDraw | src/Game.jsx:257-261 | with the corrected handler, clicking the last block reveals it, and the status, the draw banner and the turn indicator all agree on a draw |
| GameProperties.DrawnGameDrawsWithCorrectedHandler | src/Game.jsx:155-164 | on the full board of the drawn game, the corrected block click handler alone gives "Draw!", the draw banner and no turn indicator |
| GameProperties.StatusIntendedDisagreesWithPanel | src/components/game-info/GameInfo.jsx:63-96 | on the drawn game the intended status reads "Draw!" while the panel, keyed to the blocks left, keeps the turn indicator and hides the draw banner |
| GameProperties.ClickableExactlyOne | src/Game.jsx:248-251 | a block is clickable exactly when no symbol is pending, there is no winner, a block is left, and it is the front block on a front turn or the back block on a back turn |
| GameProperties.InstructionIffClickable | src/Game.jsx:239-245 | the reveal instruction is shown exactly when some block is clickable |
| GameProperties.BlockClickRevealsIt | src/Game.jsx:257-261 | clicking the clickable block with the corrected handler reveals that very block |
| GameProperties.NothingAfterWin | src/Game.jsx:55-57 | on a board with a winner no placement and no block click, as written or corrected, changes the state |
| GameProperties.PanelMatchesStatus | src/components/game-info/GameInfo.jsx:63-96 | the panel shows the draw banner exactly when the status is "Draw!" and the turn indicator exactly when the status names the next player |
| GameProperties.WinCreditedToMover | src/components/game-info/GameInfo.jsx:33-34 | after a placement the panel credits a win to the player who just moved |
| GameProperties.AsWrittenAgreesWhileEndsDiffer | src/Game.jsx:259 | while the two cursors differ, the handler as written behaves as the corrected one |
| GameProperties.Turn | src/Game.jsx:81-112 | a reveal followed by a placement keeps the invariant |
| GameProperties.RewindStep | src/Game.jsx:114-148 | a turn followed by a jump back to step 1 keeps the invariant and the blocks |
| GameProperties.TwoCellsNoWinner | src/Game.jsx:55 | a board with at most cells 0 and 1 filled has no winner |
| GameProperties.RewindOnce | src/Game.jsx:50-148 | from step 1 with nothing pending, a turn on cell 1 and a jump back keep step 1 and its board and reveal one more block |
| GameProperties.Rewinds | src/Game.jsx:50-148 | `n` such rewinds keep step 1 and its board and reveal `n` more blocks |
| GameProperties.FirstTurn | src/Game.jsx:50-112 | the first turn of a game places the first block in cell 0 |
| GameProperties.NinthTurn | src/Game.jsx:50-112 | with eight blocks revealed at step 1, a turn leaves one block, a back turn, and both cursors on block 5 |
| GameProperties.AsWrittenRefusesLastBackBlock | src/Game.jsx:248-261 | on a back turn with one block left, that block is the only clickable one, the handler as written refuses it, and the corrected handler reveals it |
| GameProperties.StuckTrace | src/Game.jsx:50-148 | the trace of the finding keeps the invariant |
| GameProperties.SevenRewinds | src/Game.jsx:114-148 | seven rewinds after the first turn leave eight blocks revealed at step 1 |
| GameProperties.TwoPlacements | src/Game.jsx:55 | the board with cells 0 and 1 filled has seven empty cells and no winner |
| GameProperties.LastTurnBoard | src/Game.jsx:50-79 | the ninth turn leaves seven empty cells and no winner |
| GameProperties.StuckTraceReachesLastBlock | src/Game.jsx:155 | after the trace one block is left, on a back turn, with seven empty cells and no winner |
| GameProperties.LastBlockRefusedAsWritten | src/Game.jsx:259 | after the trace the last block is the only clickable one and the handler as written refuses it, while the corrected handler reveals it |
| GameComponent.Game.SetState | src/Game.jsx:70-77 | `setState` replaces the fields by the given state |
| GameComponent.Game.constructor | src/Game.jsx:7-37 | the constructor builds the initial state around the shuffle of the draws |
| GameComponent.Game.HandleClick | src/Game.jsx:50-79 | `handleClick(i)` performs exactly `GameState.Click` on the fields and keeps the invariant |
| GameComponent.Game.HandleBlockReveal | src/Game.jsx:81-112 | `handleBlockReveal` performs exactly `GameState.Reveal` and keeps the invariant |
| GameComponent.Game.JumpTo | src/Game.jsx:114-148 | `jumpTo` performs exactly `GameState.JumpTo` with the new shuffle and keeps the invariant |
| GameComponent.Game.OnBlockClickAsWritten | src/Game.jsx:257-261 | the block click handler as written performs exactly `GameState.BlockClickAsWritten` |
| GameComponent.Game.OnBlockClick | src/Game.jsx:257-261 | the corrected block click handler performs exactly `GameState.BlockClick` |
| GameInfo.Player1Label | src/components/game-info/GameInfo.jsx:22-28 | the label of Player 1's badge; stated by `GameInfo.OnlineLabels` and `GameInfo.LabelsDiffer` |
| GameInfo.Player2Label | src/components/game-info/GameInfo.jsx:22-28 | the label of Player 2's badge; stated by `GameInfo.OnlineLabels` and `GameInfo.LabelsDiffer` |
| GameInfo.WinnerLabel | src/components/game-info/GameInfo.jsx:33-34 | the label of the player credited with the win; stated by `GameInfo.WinnerIsLastMover` |
| GameInfo.IsMyTurn | src/components/game-info/GameInfo.jsx:37 | whether the local player is to move; stated by `GameInfo.TurnOwnership` and `GameInfo.MyTurnIsMyBadge` |
| GameInfo.ShowRoomBanner | src/components/game-info/GameInfo.jsx:41 | the condition of the room banner; stated by `GameInfo.GeneratedCodeShowsBanner` |
| GameInfo.ShowWinCounter | src/components/game-info/GameInfo.jsx:49 | the condition of the win counter; stated by `GameInfo.WinCounterOnlyOnline` |
| GameInfo.ShowTurnIndicator | src/components/game-info/GameInfo.jsx:63 | the condition of the turn indicator; stated by `GameInfo.PanelsExclusive` and `GameProperties.PanelMatchesStatus` |
| GameInfo.ShowWinnerAnnouncement | src/components/game-info/GameInfo.jsx:84 | the condition of the winner announcement; stated by `GameInfo.PanelsExclusive` |
| GameInfo.ShowDrawBanner | src/components/game-info/GameInfo.jsx:92 | the condition of the draw banner; stated by `GameInfo.PanelsExclusive` and `GameProperties.PanelMatchesStatus` |
| GameInfo.Player1Actions | src/components/game-info/GameInfo.jsx:69-71 | the action labels of Player 1's badge; stated by `GameInfo.Player1ActionsOne` |
| GameInfo.Player2Actions | src/components/game-info/GameInfo.jsx:76-79 | the action labels of Player 2's badge; stated by `GameInfo.Player2ActionsOne` |
| GameInfo.GeneratedCodeShowsBanner | src/components/game-info/GameInfo.jsx:41 | a consistency check across modules, not a link the source makes: any code the room generator produces would show the room banner online, and no code shows it offline |
| GameInfo.OnlineLabels | src/components/game-info/GameInfo.jsx:25-28 | online the host is "You" as Player 1 and the guest is "You" as Player 2; the other is "Opponent" |
| GameInfo.LabelsDiffer | src/components/game-info/GameInfo.jsx:22-28 | the two players always carry different labels |
| GameInfo.WinnerIsLastMover | src/components/game-info/GameInfo.jsx:33-34 | the winner label is Player 1's exactly when `xIsNext` is false, that is, when Player 1 moved last |
| GameInfo.TurnOwnership | src/components/game-info/GameInfo.jsx:37 | offline it is always my turn; online it is the host's turn exactly when `xIsNext`, and never both players' |
| GameInfo.MyTurnIsMyBadge | src/components/game-info/GameInfo.jsx:37 | online it is my turn exactly when the player to move is labelled "You" |
| GameInfo.Player1ActionsOne | src/components/game-info/GameInfo.jsx:69-71 | Player 1's badge shows one action label while Player 1 is to move and none otherwise |
| GameInfo.Player2ActionsOne | src/components/game-info/GameInfo.jsx:76-78 | without the computer thinking, Player 2's badge shows one action label while Player 2 is to move and none otherwise |
| GameInfo.WinCounterOnlyOnline | src/components/game-info/GameInfo.jsx:49 | the win counter is shown exactly online once someone has won |
| GameInfo.PanelsExclusive | src/components/game-info/GameInfo.jsx:63-96 | at most one of the turn indicator, the winner announcement and the draw banner is shown |
| OnlineRoom.CodeFor | src/utils/onlineRoom.js:15-17 | the code has one character per draw, the alphabet character at that draw's position |
| OnlineRoom.AlphabetAt | src/utils/onlineRoom.js:13 | each alphabet character is a capital other than I and O or a digit 2 to 9, and sits at its own position |
| OnlineRoom.AlphabetHas | src/utils/onlineRoom.js:13 | the alphabet holds exactly the capitals other than I and O and the digits 2 to 9 |
| OnlineRoom.AlphabetFacts | src/utils/onlineRoom.js:13 | the alphabet has 32 distinct characters, capitals or digits, none of 0, O, I and 1 |
| OnlineRoom.GenerateRoomCode | src/utils/onlineRoom.js:12-19 | the loop returns the code of the draws, which has five alphabet characters and passes `isValidRoomCode` |
| OnlineRoom.CodeForInjective | src/utils/onlineRoom.js:15-17 | different draws give different codes |
| OnlineRoom.DrawsFor | src/utils/onlineRoom.js:15-17 | every string over the alphabet is spelled by some draws |
| OnlineRoom.EveryAlphabetCodeIsGenerated | src/utils/onlineRoom.js:12-19 | every five-character code over the alphabet can be generated |
| OnlineRoom.ValidatorAcceptsUngeneratedCodes | src/utils/onlineRoom.js:22-24 | `isValidRoomCode` accepts codes such as "0OI1a" that no draw produces |
| OnlineRoom.FormatError | src/utils/onlineRoom.js:358-371 | a string passes through, the six known types get their fixed messages, anything else the default message |
| OnlineRoom.ErrorMessagesDistinct | src/utils/onlineRoom.js:361-370 | the six messages and the default message are pairwise different |
| OnlineRoom.TypedErrorMessageNonEmpty | src/utils/onlineRoom.js:370 | an error object always gets a non-empty message |
| OnlineRoom.GetLastRoom | src/utils/onlineRoom.js:388-402 | the cached record is returned exactly when one is stored, it parses and it is less than 1,800,000 ms old |
| OnlineRoom.SaveRoom | src/utils/onlineRoom.js:376-384 | the entry saved holds the code, the role and the clock reading |
| OnlineRoom.SavedRoomFreshForThirtyMinutes | src/utils/onlineRoom.js:376-402 | a saved room is offered back exactly while less than thirty minutes have passed |
| OnlineRoom.ExpiredStaysExpired | src/utils/onlineRoom.js:395 | once the cached room is too old it stays too old |
| OnlineRoom.ReconnectOutcomeFor | src/utils/onlineRoom.js:279-296 | the attempt gives up exactly at the ceiling, with the fixed message; otherwise it schedules attempt `a + 1` with a delay of `2000 * (a + 1)` ms |
| OnlineRoom.AttemptsStayBounded | src/utils/onlineRoom.js:280-285 | from a count within the ceiling, `n` attempts reach `min(a + n, max)` |
| OnlineRoom.DelaysAreLinear | src/utils/onlineRoom.js:295 | a fresh manager waits 2, 4 and 6 seconds, then gives up |
| OnlineRoom.IsValidRoomCode | src/utils/onlineRoom.js:22-24 | five ASCII letters or digits in either case; `OnlineRoom.GenerateRoomCode` and `OnlineRoom.ValidatorAcceptsUngeneratedCodes` relate it to the generator |
| OnlineRoom.NextAttempts | src/utils/onlineRoom.js:280-285 | the counter after one call of `attemptReconnect`; bounded by `OnlineRoom.AttemptsStayBounded` |
| OnlineRoom.AttemptsAfter | src/utils/onlineRoom.js:280-285 | the counter after `n` calls; stated in closed form by `OnlineRoom.AttemptsStayBounded` |
| OnlineRoom.PeerConnectionManager.IsConnected | src/utils/onlineRoom.js:351-353 | a connection exists and is open; `Disconnect` ensures it is false afterwards |
| OnlineRoom.PeerConnectionManager.RejoinsOnTimer | src/utils/onlineRoom.js:289 | the guard of the rejoin timer: a guest with a non-empty room code; `AttemptReconnect` ensures it is unchanged |
| OnlineRoom.PeerConnectionManager.constructor | src/utils/onlineRoom.js:41-49 | a new manager has no peer, no connection, no room, no attempts and a ceiling of three |
| OnlineRoom.PeerConnectionManager.AttemptReconnect | src/utils/onlineRoom.js:279-296 | the count rises by one below the ceiling and stays at it otherwise, the outcome is as above, and nothing else changes, so the guard the timer reads is as before |
| OnlineRoom.PeerConnectionManager.Disconnect | src/utils/onlineRoom.js:322-346 | the count is set to the ceiling so every later attempt gives up, the connection is dropped, the peer is dropped unless it was already destroyed, and the status reported is "disconnected" |
| OnlineRoom.PeerConnectionManager.Send | src/utils/onlineRoom.js:301-317 | the transport is used exactly when the connection is open; the result is true exactly when it is open and the transport does not throw; each failure carries its message |

## Findings

| source | as written | input that shows it | evidently intended | confidence | as-written member | corrected member |
|---|---|---|---|---|---|---|
| src/Game.jsx:259 | the block click handler passes `index === frontIndex` as the side of the reveal | With nothing pending, the cursors meet only after nine reveals, on a back turn (`GameProperties.CursorsMeetAfterNineReveals`). The one clickable block is then the back block, which is also the front block, so the handler passes `true` and the reveal is refused. As written, the tenth block is never revealed: a new game, placements, jumps and the handler all keep at most nine blocks revealed (`InitialAtMostNine`, `ClickKeepsNine`, `JumpToKeepsNine`, `BlockClickAsWrittenKeepsNine`). So no game can end in a draw: a block is always left, the status never reads "Draw!" and the draw banner never shows (`NoDrawAsWritten`). The drawn game below, for one, stops on its full board with "Next player: Player 2" (`DrawnGameRefusesLastBlockAsWritten`). With time travel the same refusal comes earlier. First turn on cell 0; then seven times a turn on cell 1 and `jumpTo(1)`; then a turn on cell 1. This leaves seven empty cells, the last block refused, and no way to go on. That trace assumes the Board component, which is not part of this model and is the only caller of `jumpTo`, offers step 1. | pass the side whose turn it is (`fromFront`); then the last reveal ends the game in a draw | high, not executed | GameProperties.LastBlockRefusedAsWritten | GameProperties.LastRevealGivesDraw |
| src/Game.jsx:160 | the full-board test is joined to `availableBlocks === 0`, whereas the first disjunct already covers it, so a full board counts as a draw only when no block is left | From the unshuffled row, nine turns on cells 0, 1, 2, 4, 3, 5, 7, 6, 8 place X, O, X, O, X, O, X, O, X and fill the board X O X / X O O / O X X with no line. One block is still hidden and the status reads "Next player: Player 2". `GameProperties.FullBoardWithBlocksLeftIsNoDraw` states the same for every full board with a block left. Two facts weaken the reading that a full board was meant to be a draw on its own. First, the panel keys its turn indicator and draw banner to the blocks left (src/components/game-info/GameInfo.jsx:63 and 92), so with the intended status it would show "Draw!" beside the turn indicator and without the banner (`StatusIntendedDisagreesWithPanel`). Second, once the block click handler of line 259 is corrected, the last block is revealed on that board and the status, banner and indicator agree on a draw (`DrawnGameDrawsWithCorrectedHandler`). The disjunct is dead code either way. | a draw when no block is left or the board is full; `StatusIntended` is a partial correction, which the panel does not follow | low, not executed | GameProperties.FullBoardNotDrawAsWritten | GameProperties.StatusIntendedCases |

The class keeps both block click handlers: `OnBlockClickAsWritten` as the component
writes it and `OnBlockClick` corrected. `GameState.Status` stays as written, because
the panel (src/components/game-info/GameInfo.jsx:92) compares against its text;
`GameProperties.StatusIntended` is the status with the dead disjunct made effective,
a partial correction that the panel does not follow.

## Left out

- GameState.JumpTo: requires `step < |history|`. The component does not check this, and `render` would fail on a step past the end of the history. The only caller of `jumpTo` is the Board component, which is not part of this model; the bound assumes it offers only steps of the history.
- GameComponent.Game.HandleClick: requires `i < 9`. The board component, which is not part of this model, only passes the nine cell indices.
- GameComponent.Game.JumpTo: takes the draws for a reshuffle even when `step > 0`, where they are unused. The random source is a parameter.
- The rules overlay of the component (`showRules`, `toggleRules`, `componentDidMount`): browser storage and markup only.
- The JSX markup, CSS classes and the block labels; only the conditions behind them are modelled.
- `Math.random`: the draws are parameters within their ranges. Uniformity of the shuffle and of the codes is not modelled.
- src/helpers/calculateWinner is not part of this model; the win detector is the stated helper described above.
- Board, Menu, OnlineRoom and the wrapper components are not part of this model; they only route and render.
- Arrangement mode, the computer opponent, win counting and message synchronisation are not implemented in any of the modelled files.
- All PeerJS networking: `createRoom` and `joinRoom`, the connection handlers, promise timeouts, and the peer-level `reconnect` on signalling loss. This is asynchronous network I/O.
- The singleton reuse in the `PeerConnectionManager` constructor, which depends on a module global and on foreign `peer.destroyed` state.
- The `onMessage`, `onError` and `onConnectionChange` callbacks and `console` logging. The messages that `attemptReconnect`, `send` and `disconnect` pass to them are returned as values; the callbacks of the networking code are left out with it.
- OnlineRoom.PeerConnectionManager.AttemptReconnect: the rejoin after the delay is a timer callback. Its guard is the predicate `RejoinsOnTimer`, not an executed `joinRoom`.
- OnlineRoom.PeerConnectionManager.Disconnect: closing the connection and destroying the peer are foreign calls whose exceptions are swallowed; only the resulting fields are modelled. Clearing the cache is browser storage.
- `saveRoomToCache`, `clearRoomCache`, `copyToClipboard` and `generateShareableLink`: browser storage, clipboard and location.
- OnlineRoom.GetLastRoom: the stored text and the result of `JSON.parse` are a parameter, and `timestamp` is an integer. A record with a missing or non-numeric timestamp is not modelled.
- OnlineRoom.FormatError: an error `type` that names a property every object inherits, such as `toString`, would make the source return that property instead of a message. The model treats every type outside the six as unknown.
- OnlineRoom.IsValidRoomCode: the model takes strings only. It does not cover the coercion of a non-string argument by the regular expression test.
