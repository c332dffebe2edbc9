/**
 * GameService: listing, creating and joining games.  A CodedException is
 * the result Coded(status, message).  The store's DataAccessException is
 * an Err reply of the store; the in-memory store never raises it for
 * these operations, so joinGame is also given as a method on that store.
 */
module GameService {
  import opened Basics
  import opened Pieces
  import opened GameRecords
  import opened MemoryStore

  /** A service result: the value, or a status code and message. */
  datatype Coded<T> = Done(value: T) | Coded(code: int, message: string)

  /** A store failure becomes 500 "Server error"; a store reply is passed through. */
  function Guard<T>(reply: Result<T>): (r: Coded<T>)
    ensures reply.Err? <==> r.Coded?
    ensures r.Coded? ==> r.code == 500 && r.message == "Server error"
    ensures r.Done? ==> r.value == reply.value
  {
    match reply
    case Ok(v) => Done(v)
    case Err(_) => Coded(500, "Server error")
  }

  /** listGames: the store's listing, or 500 on a store failure. */
  function ListGames(reply: Result<set<GameData>>): (r: Coded<set<GameData>>)
    ensures reply.Err? ==> r == Coded(500, "Server error")
    ensures reply.Ok? ==> r == Done(reply.value)
  {
    Guard(reply)
  }

  /** createGame: the store's new game, or 500 on a store failure. */
  function CreateGame(reply: Result<GameData>): (r: Coded<GameData>)
    ensures reply.Err? ==> r == Coded(500, "Server error")
    ensures reply.Ok? ==> r == Done(reply.value)
  {
    Guard(reply)
  }

  /** A seat may be claimed when it is empty or already held by the same user. */
  predicate SeatOpen(seat: Option<string>, username: string)
  {
    seat.None? || seat == Some(username)
  }

  /**
   * joinGame's decision chain on the record read from the store: unknown
   * game, missing colour, finished game, then the seat test for the
   * requested colour.  Done carries the record to write back.
   */
  function JoinDecision(found: Option<GameData>, username: string, color: Option<TeamColor>): Coded<GameData>
  {
    if found.None? then Coded(400, "Unknown game")
    else if color.None? then Coded(400, "Missing color")
    else if IsGameOver(found.value) then Coded(403, "Game is over")
    else if color.value == White then
      if SeatOpen(found.value.whiteUsername, username) then Done(SetWhite(found.value, Some(username)))
      else Coded(403, "Color taken")
    else
      if SeatOpen(found.value.blackUsername, username) then Done(SetBlack(found.value, Some(username)))
      else Coded(403, "Color taken")
  }

  /**
   * joinGame with the store's replies: a failing read, or a failing write
   * of an accepted join, is 500; otherwise the decision chain's answer.
   */
  function JoinGame(read: Result<Option<GameData>>, username: string, color: Option<TeamColor>, writeFails: bool): (r: Coded<GameData>)
    ensures read.Err? ==> r == Coded(500, "Server error")
    ensures read.Ok? && JoinDecision(read.value, username, color).Coded? ==> r == JoinDecision(read.value, username, color)
    ensures read.Ok? && JoinDecision(read.value, username, color).Done? ==>
      r == if writeFails then Coded(500, "Server error") else JoinDecision(read.value, username, color)
  {
    match read
    case Err(_) => Coded(500, "Server error")
    case Ok(found) =>
      var decision := JoinDecision(found, username, color);
      if decision.Done? && writeFails then Coded(500, "Server error") else decision
  }

  /**
   * The join rules: it succeeds exactly for a known, undecided game, a
   * colour, and a requested seat that is empty or already the user's;
   * then that seat holds the user and nothing else changes.
   */
  lemma JoinRules(found: Option<GameData>, username: string, color: Option<TeamColor>)
    ensures var r := JoinDecision(found, username, color);
      (r.Done? <==>
        found.Some? && color.Some? && !IsGameOver(found.value) &&
        SeatOpen(if color.value == White then found.value.whiteUsername else found.value.blackUsername, username)) &&
      (r.Done? && color.value == White ==> r.value == found.value.(whiteUsername := Some(username))) &&
      (r.Done? && color.value == Black ==> r.value == found.value.(blackUsername := Some(username)))
  {
  }

  /** The errors in order: unknown game first, then missing colour, then a finished game, then a taken seat. */
  lemma JoinErrors(found: Option<GameData>, username: string, color: Option<TeamColor>)
    ensures found.None? ==> JoinDecision(found, username, color) == Coded(400, "Unknown game")
    ensures found.Some? && color.None? ==> JoinDecision(found, username, color) == Coded(400, "Missing color")
    ensures found.Some? && color.Some? && IsGameOver(found.value) ==>
      JoinDecision(found, username, color) == Coded(403, "Game is over")
    ensures (found.Some? && color == Some(White) && !IsGameOver(found.value) &&
             found.value.whiteUsername.Some? && found.value.whiteUsername != Some(username)) ==>
      JoinDecision(found, username, color) == Coded(403, "Color taken")
    ensures (found.Some? && color == Some(Black) && !IsGameOver(found.value) &&
             found.value.blackUsername.Some? && found.value.blackUsername != Some(username)) ==>
      JoinDecision(found, username, color) == Coded(403, "Color taken")
  {
  }

  /**
   * Rejoining is idempotent: joining again with the record a join wrote
   * gives that same record, so the seat's occupant may always rejoin.
   */
  lemma JoinIdempotent(d: GameData, username: string, color: Option<TeamColor>)
    requires JoinDecision(Some(d), username, color).Done?
    ensures JoinDecision(Some(JoinDecision(Some(d), username, color).value), username, color) ==
      JoinDecision(Some(d), username, color)
  {
  }

  /**
   * joinGame against the in-memory store: the decision chain on the
   * record filed under the ID; an accepted join is written back with
   * updateGame, a refused one writes nothing.
   */
  method JoinGameOn(store: MemoryDataAccess, username: string, color: Option<TeamColor>, gameID: int)
    returns (r: Coded<GameData>)
    requires store.Valid()
    modifies store
    ensures store.Valid()
    ensures r == JoinDecision(if gameID in old(store.games) then Some(old(store.games)[gameID]) else None, username, color)
    ensures r.Done? ==> r.value.gameID == gameID && store.games == old(store.games)[gameID := r.value]
    ensures r.Coded? ==> store.games == old(store.games)
    ensures store.users == old(store.users) && store.auths == old(store.auths) && store.nextID == old(store.nextID)
  {
    var found := store.ReadGame(gameID);
    r := JoinDecision(found, username, color);
    if r.Done? {
      store.UpdateGame(r.value);
    }
  }
}
