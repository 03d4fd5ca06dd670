/**
 * The parts of src/utils/onlineRoom.js that do not touch the network: room codes,
 * the error messages shown to the user, the freshness of the cached last room, and
 * the connection manager's reconnect counter, disconnect and send guard. PeerJS,
 * timers and localStorage are not modelled; the random draws of the room-code
 * generator are a parameter.
 */
module OnlineRoom {
  import opened Wrappers

  // ----- room codes -----

  /** The alphabet of generated codes: capitals and digits without 0, O, I and 1. */
  const RoomCodeChars: string := "ABCDEFGHJKLMNPQRSTUVWXYZ23456789"
  const RoomCodeLength: nat := 5

  /** Random draws a code can be generated from: one alphabet position per character. */
  predicate InAlphabetRange(picks: seq<nat>) {
    forall k :: 0 <= k < |picks| ==> picks[k] < |RoomCodeChars|
  }

  predicate ValidCodePicks(picks: seq<nat>) {
    |picks| == RoomCodeLength && InAlphabetRange(picks)
  }

  /** The code spelled by the draws `picks`. */
  function CodeFor(picks: seq<nat>): (code: string)
    requires InAlphabetRange(picks)
    ensures |code| == |picks|
    ensures forall k :: 0 <= k < |picks| ==> code[k] == RoomCodeChars[picks[k]]
  {
    if picks == [] then "" else CodeFor(picks[..|picks| - 1]) + [RoomCodeChars[picks[|picks| - 1]]]
  }

  predicate IsAsciiAlphanumeric(c: char) {
    ('A' <= c <= 'Z') || ('a' <= c <= 'z') || ('0' <= c <= '9')
  }

  /** `isValidRoomCode`: exactly five characters, each an ASCII letter of either case
      or a digit (the case-insensitive pattern `^[A-Z0-9]{5}$`). */
  predicate IsValidRoomCode(code: string) {
    |code| == RoomCodeLength && forall k :: 0 <= k < |code| ==> IsAsciiAlphanumeric(code[k])
  }

  /** The characters of the alphabet: the capitals other than I and O, and the digits
      2 to 9. */
  predicate InAlphabet(c: char) {
    ('A' <= c <= 'Z' && c != 'I' && c != 'O') || ('2' <= c <= '9')
  }

  /** The position of an alphabet character, counted along the alphabet. */
  function AlphabetPosition(c: char): int {
    if 'A' <= c <= 'H' then c as int - 'A' as int
    else if 'J' <= c <= 'N' then c as int - 'J' as int + 8
    else if 'P' <= c <= 'Z' then c as int - 'P' as int + 13
    else c as int - '2' as int + 24
  }

  lemma AlphabetRuns()
    ensures RoomCodeChars == "ABCDEFGH" + "JKLMN" + "PQRSTUVWXYZ" + "23456789"
  {
  }

  /** The character at position `k` of the alphabet is an alphabet character whose
      position is `k`. */
  lemma AlphabetAt(k: nat)
    requires k < |RoomCodeChars|
    ensures InAlphabet(RoomCodeChars[k]) && AlphabetPosition(RoomCodeChars[k]) == k
  {
    AlphabetRuns();
    if k < 8 {
      assert RoomCodeChars[k] == "ABCDEFGH"[k];
    } else if k < 13 {
      assert RoomCodeChars[k] == "JKLMN"[k - 8];
    } else if k < 24 {
      assert RoomCodeChars[k] == "PQRSTUVWXYZ"[k - 13];
    } else {
      assert RoomCodeChars[k] == "23456789"[k - 24];
    }
  }

  /** The alphabet holds exactly the alphabet characters, each at its position. */
  lemma AlphabetHas(c: char)
    ensures InAlphabet(c) <==> c in RoomCodeChars
    ensures InAlphabet(c) ==> 0 <= AlphabetPosition(c) < |RoomCodeChars| && RoomCodeChars[AlphabetPosition(c)] == c
  {
    if InAlphabet(c) {
      AlphabetAt(AlphabetPosition(c));
    }
    if c in RoomCodeChars {
      var k :| 0 <= k < |RoomCodeChars| && RoomCodeChars[k] == c;
      AlphabetAt(k);
    }
  }

  /** The alphabet has 32 distinct characters, all of them capitals or digits, and none
      of the look-alikes 0, O, I and 1. */
  lemma AlphabetFacts()
    ensures |RoomCodeChars| == 32
    ensures forall k :: 0 <= k < |RoomCodeChars| ==>
      && IsAsciiAlphanumeric(RoomCodeChars[k]) && !('a' <= RoomCodeChars[k] <= 'z')
      && RoomCodeChars[k] != '0' && RoomCodeChars[k] != 'O'
      && RoomCodeChars[k] != 'I' && RoomCodeChars[k] != '1'
    ensures forall i, j :: 0 <= i < j < |RoomCodeChars| ==> RoomCodeChars[i] != RoomCodeChars[j]
  {
    forall k | 0 <= k < |RoomCodeChars| ensures InAlphabet(RoomCodeChars[k]) && AlphabetPosition(RoomCodeChars[k]) == k {
      AlphabetAt(k);
    }
  }

  /** `generateRoomCode`: append one alphabet character per draw, five times. */
  method GenerateRoomCode(picks: seq<nat>) returns (code: string)
    requires ValidCodePicks(picks)
    ensures code == CodeFor(picks)
    ensures IsValidRoomCode(code)
    ensures forall k :: 0 <= k < |code| ==> InAlphabet(code[k])
  {
    code := "";
    var i := 0;
    while i < RoomCodeLength
      invariant 0 <= i <= RoomCodeLength
      invariant code == CodeFor(picks[..i])
    {
      assert picks[..i + 1][..i] == picks[..i];
      code := code + [RoomCodeChars[picks[i]]];
      i := i + 1;
    }
    assert picks[..RoomCodeLength] == picks;
    forall k | 0 <= k < |code| ensures InAlphabet(code[k]) && IsAsciiAlphanumeric(code[k]) {
      AlphabetAt(picks[k]);
    }
  }

  /** Different draws give different codes. */
  lemma {:induction false} CodeForInjective(p: seq<nat>, q: seq<nat>)
    requires InAlphabetRange(p) && InAlphabetRange(q) && CodeFor(p) == CodeFor(q)
    ensures p == q
  {
    AlphabetFacts();
    forall k | 0 <= k < |p| ensures p[k] == q[k] {
      assert RoomCodeChars[p[k]] == CodeFor(p)[k] == CodeFor(q)[k] == RoomCodeChars[q[k]];
    }
  }

  /** The draws that spell `code`. */
  function DrawsFor(code: string): (picks: seq<nat>)
    requires forall k :: 0 <= k < |code| ==> InAlphabet(code[k])
    ensures |picks| == |code| && InAlphabetRange(picks)
    ensures forall k :: 0 <= k < |code| ==> RoomCodeChars[picks[k]] == code[k]
  {
    if code == [] then []
    else
      var last := code[|code| - 1];
      AlphabetHas(last);
      DrawsFor(code[..|code| - 1]) + [AlphabetPosition(last) as nat]
  }

  /** Every five-character code over the alphabet can be generated. */
  lemma EveryAlphabetCodeIsGenerated(code: string)
    requires |code| == RoomCodeLength && forall k :: 0 <= k < |code| ==> InAlphabet(code[k])
    ensures ValidCodePicks(DrawsFor(code)) && CodeFor(DrawsFor(code)) == code
  {
  }

  /** The validator is more permissive than the generator: it accepts lower-case letters
      and the look-alike characters, which no draw produces. */
  lemma ValidatorAcceptsUngeneratedCodes()
    ensures IsValidRoomCode("0OI1a")
    ensures forall picks :: InAlphabetRange(picks) ==> CodeFor(picks) != "0OI1a"
  {
    forall picks | InAlphabetRange(picks) ensures CodeFor(picks) != "0OI1a" {
      if |picks| == 5 {
        AlphabetAt(picks[0]);
      }
    }
  }

  // ----- error messages -----

  /** What `formatError` is handed: a plain string, or an error object whose `type`
      property may be missing. */
  datatype PeerError = Text(message: string) | Typed(errorType: Option<string>)

  const ErrorMessages: map<string, string> := map[
    "peer-unavailable" := "Room not found. Please check the room code.",
    "network" := "Network error. Please check your internet connection.",
    "disconnected" := "Connection lost. Attempting to reconnect...",
    "browser-incompatible" := "Your browser doesn't support WebRTC.",
    "ssl-unavailable" := "Secure connection required. Please use HTTPS.",
    "server-error" := "Connection server error. Please try again later."
  ]

  const DefaultErrorMessage: string := "Connection error. Please try again."

  /** `formatError`: strings pass through, the six known types have fixed messages,
      anything else gets the default message. */
  function FormatError(e: PeerError): (msg: string)
    ensures e.Text? ==> msg == e.message
    ensures e.Typed? && e.errorType.Some? && e.errorType.value in ErrorMessages ==>
      msg == ErrorMessages[e.errorType.value]
    ensures e.Typed? && (e.errorType.None? || e.errorType.value !in ErrorMessages) ==>
      msg == DefaultErrorMessage
  {
    match e
    case Text(message) => message
    case Typed(t) =>
      if t.Some? && t.value in ErrorMessages then ErrorMessages[t.value] else DefaultErrorMessage
  }

  /** The messages of the known types and the default message are all different, so
      the message tells which kind of error occurred. */
  lemma ErrorMessagesDistinct(t1: string, t2: string)
    requires t1 in ErrorMessages && t2 in ErrorMessages && t1 != t2
    ensures ErrorMessages[t1] != ErrorMessages[t2]
    ensures ErrorMessages[t1] != DefaultErrorMessage
  {
  }

  /** An error object's message is never empty. */
  lemma TypedErrorMessageNonEmpty(t: Option<string>)
    ensures |FormatError(Typed(t))| > 0
  {
  }

  // ----- the cached last room -----

  /** The record `saveRoomToCache` stores. */
  datatype RoomRecord = RoomRecord(code: string, isHost: bool, timestamp: int)

  /** The stored entry: text that does not parse, or a parsed record. */
  datatype CacheEntry = Unparseable | Parsed(record: RoomRecord)

  /** Thirty minutes, in milliseconds. */
  const CacheLifetimeMs: int := 30 * 60 * 1000

  /** `getLastRoom` at clock reading `now`: the stored record if there is one, it parses
      and it is less than thirty minutes old. */
  function GetLastRoom(stored: Option<CacheEntry>, now: int): (r: Option<RoomRecord>)
    ensures r.Some? <==> stored.Some? && stored.value.Parsed? && now - stored.value.record.timestamp < 1800000
    ensures r.Some? ==> r.value == stored.value.record
  {
    match stored
    case None => None
    case Some(Unparseable) => None
    case Some(Parsed(record)) => if now - record.timestamp < CacheLifetimeMs then Some(record) else None
  }

  /** The entry `saveRoomToCache(code, isHost)` writes at clock reading `savedAt`. */
  function SaveRoom(code: string, isHost: bool, savedAt: int): (entry: CacheEntry)
    ensures entry.Parsed? && entry.record.code == code && entry.record.isHost == isHost
    ensures entry.record.timestamp == savedAt
  {
    Parsed(RoomRecord(code, isHost, savedAt))
  }

  /** A saved room is offered back for exactly thirty minutes after it was saved. */
  lemma SavedRoomFreshForThirtyMinutes(code: string, isHost: bool, savedAt: int, now: int)
    ensures GetLastRoom(Some(SaveRoom(code, isHost, savedAt)), now)
            == if now < savedAt + 1800000 then Some(RoomRecord(code, isHost, savedAt)) else None
  {
  }

  /** Once a cached room is too old it stays too old. */
  lemma ExpiredStaysExpired(stored: Option<CacheEntry>, now: int, later: int)
    requires now <= later && GetLastRoom(stored, now).None?
    ensures GetLastRoom(stored, later).None?
  {
  }

  // ----- reconnecting -----

  /** The counter after one `attemptReconnect`: raised by one below the ceiling,
      left alone at or above it. */
  function NextAttempts(attempts: int, maxAttempts: int): int {
    if attempts >= maxAttempts then attempts else attempts + 1
  }

  /** What one `attemptReconnect` reports: giving up at the ceiling, otherwise the
      attempt number and the delay before the rejoin is tried. */
  datatype ReconnectOutcome = GaveUp(message: string) | Scheduled(attempt: int, delayMs: int)

  const GaveUpMessage: string := "Connection lost. Please create a new room."

  function ReconnectOutcomeFor(attempts: int, maxAttempts: int): (r: ReconnectOutcome)
    ensures r.GaveUp? <==> attempts >= maxAttempts
    ensures r.GaveUp? ==> r.message == GaveUpMessage
    ensures r.Scheduled? ==> r.attempt == NextAttempts(attempts, maxAttempts) && r.delayMs == 2000 * r.attempt
  {
    if attempts >= maxAttempts then GaveUp(GaveUpMessage)
    else Scheduled(attempts + 1, 2000 * (attempts + 1))
  }

  /** The counter after `n` calls of `attemptReconnect`. */
  function AttemptsAfter(attempts: int, maxAttempts: int, n: nat): int
    decreases n
  {
    if n == 0 then attempts else AttemptsAfter(NextAttempts(attempts, maxAttempts), maxAttempts, n - 1)
  }

  /** From a count within the ceiling, `n` calls raise the count to `attempts + n`
      but never past the ceiling. */
  lemma {:induction false} AttemptsStayBounded(attempts: int, maxAttempts: int, n: nat)
    requires attempts <= maxAttempts
    ensures AttemptsAfter(attempts, maxAttempts, n) == if attempts + n < maxAttempts then attempts + n else maxAttempts
    decreases n
  {
    if n > 0 {
      AttemptsStayBounded(NextAttempts(attempts, maxAttempts), maxAttempts, n - 1);
    }
  }

  /** The delays grow linearly with the attempt number, not exponentially: a fresh
      manager waits 2, 4 and 6 seconds and then gives up. */
  lemma DelaysAreLinear()
    ensures ReconnectOutcomeFor(0, 3) == Scheduled(1, 2000)
    ensures ReconnectOutcomeFor(1, 3) == Scheduled(2, 4000)
    ensures ReconnectOutcomeFor(2, 3) == Scheduled(3, 6000)
    ensures ReconnectOutcomeFor(3, 3).GaveUp?
  {
  }

  // ----- the connection manager -----

  /** The PeerJS peer, reduced to whether it has been destroyed. */
  datatype PeerHandle = PeerHandle(destroyed: bool)

  /** The data connection, reduced to whether it is open. */
  datatype Connection = Connection(open: bool)

  /** The outcome of `send`: whether it returned true, whether the transport was
      asked to send, and the message passed to the error callback, if any. */
  datatype SendResult = SendResult(sent: bool, transmitted: bool, error: Option<string>)

  const NotConnectedMessage: string := "Not connected. Please check your connection."
  const SendFailedMessage: string := "Failed to send data. Connection may be unstable."

  /** The status `disconnect` hands to the connection callback. */
  const DisconnectedStatus: string := "disconnected"

  class PeerConnectionManager {
    var peer: Option<PeerHandle>
    var connection: Option<Connection>
    var isHost: bool
    var roomCode: Option<string>
    var reconnectAttempts: int
    const maxReconnectAttempts: int

    /** The counter stays within the ceiling of three attempts. */
    predicate Valid()
      reads this
    {
      maxReconnectAttempts == 3 && 0 <= reconnectAttempts <= maxReconnectAttempts
    }

    /** A new manager: no peer, no connection, guest, no room, no attempts made. */
    constructor()
      ensures Valid()
      ensures peer.None? && connection.None? && !isHost && roomCode.None?
      ensures reconnectAttempts == 0 && maxReconnectAttempts == 3
    {
      peer := None;
      connection := None;
      isHost := false;
      roomCode := None;
      reconnectAttempts := 0;
      maxReconnectAttempts := 3;
    }

    /** `isConnected`: there is a connection and it is open. */
    predicate IsConnected()
      reads this
    {
      connection.Some? && connection.value.open
    }

    /** The guard of the rejoin timer `attemptReconnect` sets: only a guest with a room
        code rejoins. It reads the fields when the timer fires. */
    predicate RejoinsOnTimer()
      reads this
    {
      !isHost && roomCode.Some? && roomCode.value != ""
    }

    /** `attemptReconnect`: at the ceiling it reports giving up and changes nothing;
        below it, it counts the attempt and schedules the rejoin. */
    method AttemptReconnect() returns (outcome: ReconnectOutcome)
      requires Valid()
      modifies this
      ensures Valid()
      ensures outcome == ReconnectOutcomeFor(old(reconnectAttempts), maxReconnectAttempts)
      ensures reconnectAttempts == NextAttempts(old(reconnectAttempts), maxReconnectAttempts)
      ensures peer == old(peer) && connection == old(connection)
      ensures isHost == old(isHost) && roomCode == old(roomCode)
      ensures RejoinsOnTimer() == old(RejoinsOnTimer())
    {
      if reconnectAttempts >= maxReconnectAttempts {
        outcome := GaveUp(GaveUpMessage);
        return;
      }
      reconnectAttempts := reconnectAttempts + 1;
      outcome := Scheduled(reconnectAttempts, 2000 * reconnectAttempts);
    }

    /** `disconnect`: raise the counter to the ceiling so no reconnect follows, drop the
        connection, drop the peer unless it was already destroyed, and report the status
        handed to the connection callback. */
    method Disconnect() returns (status: string)
      requires Valid()
      modifies this
      ensures Valid()
      ensures reconnectAttempts == maxReconnectAttempts
      ensures ReconnectOutcomeFor(reconnectAttempts, maxReconnectAttempts).GaveUp?
      ensures connection.None? && !IsConnected()
      ensures peer == if old(peer).Some? && !old(peer).value.destroyed then None else old(peer)
      ensures isHost == old(isHost) && roomCode == old(roomCode)
      ensures status == DisconnectedStatus
    {
      reconnectAttempts := maxReconnectAttempts;
      if connection.Some? {
        connection := None;
      }
      if peer.Some? && !peer.value.destroyed {
        peer := None;
      }
      status := DisconnectedStatus;
    }

    /** `send`: only an open connection is asked to send; `transportThrows` says whether
        the transport throws when asked. */
    method Send(transportThrows: bool) returns (r: SendResult)
      ensures r.transmitted <==> IsConnected()
      ensures r.sent <==> IsConnected() && !transportThrows
      ensures r.error.None? <==> r.sent
      ensures !IsConnected() ==> r.error == Some(NotConnectedMessage)
      ensures IsConnected() && transportThrows ==> r.error == Some(SendFailedMessage)
    {
      if connection.Some? && connection.value.open {
        if transportThrows {
          r := SendResult(false, true, Some(SendFailedMessage));
        } else {
          r := SendResult(true, true, None);
        }
      } else {
        r := SendResult(false, false, Some(NotConnectedMessage));
      }
    }
  }
}
