/**
 * GameData: the stored record of one game, with its seats, name, chess
 * game and outcome state, and its "with-style" setters that return a new
 * record.  The chess game is held as its value (GameRules.Game).
 */
module GameRecords {
  import opened Basics
  import opened Pieces
  import opened GameRules

  /** The outcome of a game: a side has won, a draw, or still undecided. */
  datatype State = WhiteWon | BlackWon | Draw | Undecided

  /** A stored game; a missing (null) seat is None. */
  datatype GameData = GameData(
    gameID: int,
    whiteUsername: Option<string>,
    blackUsername: Option<string>,
    gameName: string,
    game: Game,
    state: State)

  /** isGameOver: the state is decided. */
  predicate IsGameOver(d: GameData)
  {
    d.state != Undecided
  }

  /** setWhite: a record with the white seat set to u and every other component kept. */
  function SetWhite(d: GameData, u: Option<string>): (r: GameData)
    ensures r.whiteUsername == u
    ensures r.gameID == d.gameID && r.blackUsername == d.blackUsername && r.gameName == d.gameName
    ensures r.game == d.game && r.state == d.state
  {
    d.(whiteUsername := u)
  }

  /** setBlack: a record with the black seat set to u and every other component kept. */
  function SetBlack(d: GameData, u: Option<string>): (r: GameData)
    ensures r.blackUsername == u
    ensures r.gameID == d.gameID && r.whiteUsername == d.whiteUsername && r.gameName == d.gameName
    ensures r.game == d.game && r.state == d.state
  {
    d.(blackUsername := u)
  }

  /** setState: a record with the state set to s and every other component kept. */
  function SetState(d: GameData, s: State): (r: GameData)
    ensures r.state == s
    ensures r.gameID == d.gameID && r.whiteUsername == d.whiteUsername && r.blackUsername == d.blackUsername
    ensures r.gameName == d.gameName && r.game == d.game
  {
    d.(state := s)
  }

  /** After setState(s) the game is over exactly when s is not UNDECIDED. */
  lemma SetStateGameOver(d: GameData, s: State)
    ensures IsGameOver(SetState(d, s)) <==> s != Undecided
  {
  }

  /** Setting a seat to what it already holds gives back the same record. */
  lemma SetSeatIdempotent(d: GameData)
    ensures SetWhite(d, d.whiteUsername) == d && SetBlack(d, d.blackUsername) == d
  {
  }

  /** The two seat setters act on different components, so they commute. */
  lemma SeatSettersCommute(d: GameData, w: Option<string>, b: Option<string>)
    ensures SetWhite(SetBlack(d, b), w) == SetBlack(SetWhite(d, w), b)
  {
  }
}
