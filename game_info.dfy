/**
 * The information panel (src/components/game-info/GameInfo.jsx): the labels of
 * the two players, who is credited with a win, whether it is the local player's
 * turn online, and which of the panel's parts are shown. All pure derivations
 * from the panel's inputs.
 */
module GameInfo {
  import opened Wrappers
  import opened WinDetector
  import OnlineRoom

  /** The `gameMode` input: 'computer', 'online', or anything else (local play). */
  datatype GameMode = Local | Computer | Online

  function Player1Label(mode: GameMode, isOnlineHost: bool): string {
    if mode.Online? then (if isOnlineHost then "You" else "Opponent") else "Player 1"
  }

  function Player2Label(mode: GameMode, isOnlineHost: bool): string {
    if mode.Online? then (if isOnlineHost then "Opponent" else "You")
    else if mode.Computer? then "Computer" else "Player 2"
  }

  /** The player credited with a win: Player 1 exactly when it is no longer Player 1's
      turn, that is, when Player 1 made the last move. */
  function WinnerLabel(mode: GameMode, isOnlineHost: bool, xIsNext: bool): string {
    var lastMoveByPlayer1 := !xIsNext;
    if lastMoveByPlayer1 then Player1Label(mode, isOnlineHost) else Player2Label(mode, isOnlineHost)
  }

  /** Online, the host plays as Player 1 and the guest as Player 2; offline both
      players share the screen, so it is always "my" turn. */
  predicate IsMyTurn(mode: GameMode, isOnlineHost: bool, xIsNext: bool) {
    if mode.Online? then (if isOnlineHost then xIsNext else !xIsNext) else true
  }

  predicate ShowRoomBanner(mode: GameMode, roomCode: Option<string>) {
    mode.Online? && roomCode.Some? && roomCode.value != ""
  }

  predicate ShowWinCounter(mode: GameMode, hostWins: int, guestWins: int) {
    mode.Online? && (hostWins > 0 || guestWins > 0)
  }

  predicate ShowTurnIndicator(winner: Option<Symbol>, availableBlocks: int) {
    winner.None? && availableBlocks > 0
  }

  predicate ShowWinnerAnnouncement(winner: Option<Symbol>) {
    winner.Some?
  }

  predicate ShowDrawBanner(winner: Option<Symbol>, availableBlocks: int, status: string) {
    winner.None? && availableBlocks == 0 && status == "Draw!"
  }

  /** The action labels shown on Player 1's badge, in the order the panel lists them. */
  function Player1Actions(xIsNext: bool, currentSymbol: Option<Symbol>, isMyTurn: bool): seq<string> {
    (if xIsNext && currentSymbol.None? && isMyTurn then ["Reveal!"] else [])
    + (if xIsNext && currentSymbol.Some? && isMyTurn then ["Place it!"] else [])
    + (if xIsNext && !isMyTurn then ["Waiting..."] else [])
  }

  /** The action labels shown on Player 2's badge, in the order the panel lists them. */
  function Player2Actions(xIsNext: bool, currentSymbol: Option<Symbol>, isComputerThinking: bool, isMyTurn: bool): seq<string> {
    (if !xIsNext && currentSymbol.None? && !isComputerThinking && isMyTurn then ["Reveal!"] else [])
    + (if !xIsNext && currentSymbol.Some? && !isComputerThinking && isMyTurn then ["Place it!"] else [])
    + (if !xIsNext && !isMyTurn then ["Waiting..."] else [])
    + (if !xIsNext && isComputerThinking then ["Thinking..."] else [])
  }

  /** A consistency check between two modules: the panel's room code comes from the
      room screen, which is not modelled here, but any code the room generator produces
      would show the banner online, and no code shows it outside online play. */
  lemma GeneratedCodeShowsBanner(mode: GameMode, picks: seq<nat>)
    requires OnlineRoom.ValidCodePicks(picks)
    ensures ShowRoomBanner(mode, Some(OnlineRoom.CodeFor(picks))) <==> mode.Online?
  {
    assert |OnlineRoom.CodeFor(picks)| == OnlineRoom.RoomCodeLength;
  }

  /** Online, exactly one of the two labels is "You": the first for the host, the
      second for the guest; the other is "Opponent". */
  lemma OnlineLabels(isOnlineHost: bool)
    ensures (Player1Label(Online, isOnlineHost) == "You") == isOnlineHost
    ensures (Player2Label(Online, isOnlineHost) == "You") == !isOnlineHost
    ensures (Player1Label(Online, isOnlineHost) == "Opponent") == !isOnlineHost
    ensures (Player2Label(Online, isOnlineHost) == "Opponent") == isOnlineHost
  {
  }

  /** The two players always carry different labels. */
  lemma LabelsDiffer(mode: GameMode, isOnlineHost: bool)
    ensures Player1Label(mode, isOnlineHost) != Player2Label(mode, isOnlineHost)
  {
    assert "Player 1"[7] != "Player 2"[7];
    assert "You"[0] != "Opponent"[0];
  }

  /** The winner label names Player 1 if and only if Player 1 moved last. */
  lemma WinnerIsLastMover(mode: GameMode, isOnlineHost: bool, xIsNext: bool)
    ensures (WinnerLabel(mode, isOnlineHost, xIsNext) == Player1Label(mode, isOnlineHost)) == !xIsNext
    ensures (WinnerLabel(mode, isOnlineHost, xIsNext) == Player2Label(mode, isOnlineHost)) == xIsNext
  {
    LabelsDiffer(mode, isOnlineHost);
  }

  /** Offline it is always "my" turn; online the host and the guest never both
      think it is their turn, and one of them always does. */
  lemma TurnOwnership(mode: GameMode, xIsNext: bool)
    ensures !mode.Online? ==> IsMyTurn(mode, true, xIsNext) && IsMyTurn(mode, false, xIsNext)
    ensures IsMyTurn(Online, true, xIsNext) == xIsNext
    ensures IsMyTurn(Online, true, xIsNext) != IsMyTurn(Online, false, xIsNext)
  {
  }

  /** Online, the player labelled "You" is the one to move exactly when it is my turn. */
  lemma MyTurnIsMyBadge(isOnlineHost: bool, xIsNext: bool)
    ensures IsMyTurn(Online, isOnlineHost, xIsNext)
            == ((if xIsNext then Player1Label(Online, isOnlineHost) else Player2Label(Online, isOnlineHost)) == "You")
  {
    assert "You" != "Opponent";
  }

  /** Player 1's badge carries one action label while Player 1 is to move and none
      otherwise. */
  lemma Player1ActionsOne(xIsNext: bool, currentSymbol: Option<Symbol>, isMyTurn: bool)
    ensures |Player1Actions(xIsNext, currentSymbol, isMyTurn)| == (if xIsNext then 1 else 0)
  {
  }

  /** Without the computer thinking, Player 2's badge carries one action label while
      Player 2 is to move and none otherwise. */
  lemma Player2ActionsOne(xIsNext: bool, currentSymbol: Option<Symbol>, isMyTurn: bool)
    ensures |Player2Actions(xIsNext, currentSymbol, false, isMyTurn)| == (if xIsNext then 0 else 1)
  {
  }

  /** The win counter is only ever shown online, once someone has won. */
  lemma WinCounterOnlyOnline(mode: GameMode, hostWins: int, guestWins: int)
    requires hostWins >= 0 && guestWins >= 0
    ensures ShowWinCounter(mode, hostWins, guestWins) <==> mode.Online? && hostWins + guestWins > 0
  {
  }

  /** At most one of the turn indicator, the winner announcement and the draw banner
      is shown. */
  lemma PanelsExclusive(winner: Option<Symbol>, availableBlocks: int, status: string)
    ensures !(ShowTurnIndicator(winner, availableBlocks) && ShowWinnerAnnouncement(winner))
    ensures !(ShowTurnIndicator(winner, availableBlocks) && ShowDrawBanner(winner, availableBlocks, status))
    ensures !(ShowWinnerAnnouncement(winner) && ShowDrawBanner(winner, availableBlocks, status))
  {
  }
}
