/**
 * MemoryDataAccess: the in-memory store behind the server, three maps
 * (users by name, auths by token, games by ID) and the counter that
 * hands out game IDs.
 */
module MemoryStore {
  import opened Basics
  import opened Pieces
  import opened GameRules
  import opened GameRecords

  datatype UserData = UserData(username: string, password: string, email: string)

  datatype AuthData = AuthData(authToken: string, username: string)

  /** The first game ID the counter hands out. */
  const FirstGameID := 1000

  /** The record newGame stores: no players, undecided, White to move on the starting board. */
  function FreshGame(id: int, name: string): (d: GameData)
    ensures d.gameID == id && d.gameName == name
    ensures d.whiteUsername.None? && d.blackUsername.None? && !IsGameOver(d)
    ensures d.game.turn == White && d.game == NewGame()
  {
    GameData(id, None, None, name, NewGame(), Undecided)
  }

  class MemoryDataAccess {
    var nextID: int
    var users: map<string, UserData>
    var auths: map<string, AuthData>
    var games: map<int, GameData>

    /** Every game is filed under its own ID, and every auth under its own token. */
    ghost predicate Valid()
      reads this
    {
      (forall id :: id in games ==> games[id].gameID == id) &&
      (forall t :: t in auths ==> auths[t].authToken == t)
    }

    /** Every stored ID was handed out by the counter, so the counter's next value is unused. */
    ghost predicate Issued()
      reads this
    {
      forall id :: id in games ==> id < nextID
    }

    constructor ()
      ensures Valid() && Issued() && nextID == FirstGameID
      ensures users == map[] && auths == map[] && games == map[]
    {
      nextID := FirstGameID;
      users := map[];
      auths := map[];
      games := map[];
    }

    /** clear: all three maps emptied; the ID counter is not reset. */
    method Clear()
      modifies this
      ensures Valid() && Issued() && users == map[] && auths == map[] && games == map[]
      ensures nextID == old(nextID)
    {
      users := map[];
      auths := map[];
      games := map[];
    }

    /**
     * writeUser: a new name is stored and the user returned; a taken name
     * is refused with "User already exists" and the stored user kept.
     */
    method WriteUser(user: UserData) returns (r: Result<UserData>)
      modifies this
      ensures user.username !in old(users) ==> r == Ok(user) && users == old(users)[user.username := user]
      ensures user.username in old(users) ==> r == Err("User already exists") && users == old(users)
      ensures auths == old(auths) && games == old(games) && nextID == old(nextID)
    {
      if user.username !in users {
        users := users[user.username := user];
        return Ok(user);
      }
      return Err("User already exists");
    }

    /** readUser: the stored user, or None. */
    method ReadUser(username: string) returns (r: Option<UserData>)
      ensures r.Some? <==> username in users
      ensures r.Some? ==> r.value == users[username]
    {
      if username in users {
        return Some(users[username]);
      }
      return None;
    }

    /**
     * writeAuth: store an auth for the user under a fresh token (the
     * random UUID, passed in) and return it.
     */
    method WriteAuth(username: string, token: string) returns (auth: AuthData)
      requires Valid() && token !in auths
      modifies this
      ensures Valid()
      ensures auth == AuthData(token, username) && auths == old(auths)[token := auth]
      ensures users == old(users) && games == old(games) && nextID == old(nextID)
    {
      auth := AuthData(token, username);
      auths := auths[token := auth];
    }

    /** readAuth: the auth stored under the token, or None. */
    method ReadAuth(token: string) returns (r: Option<AuthData>)
      ensures r.Some? <==> token in auths
      ensures r.Some? ==> r.value == auths[token]
    {
      if token in auths {
        return Some(auths[token]);
      }
      return None;
    }

    /**
     * deleteAuth: only the token's entry goes; an unknown token changes
     * nothing, so deleting the same token again changes nothing.
     */
    method DeleteAuth(token: string)
      requires Valid()
      modifies this
      ensures Valid() && auths == old(auths) - {token}
      ensures token !in auths && (token !in old(auths) ==> auths == old(auths))
      ensures users == old(users) && games == old(games) && nextID == old(nextID)
    {
      auths := auths - {token};
    }

    /**
     * newGame: the counter's value becomes the game's ID and the counter
     * moves on by one; the fresh record is stored under that ID.
     */
    method NewGame(gameName: string) returns (d: GameData)
      requires Valid()
      modifies this
      ensures Valid()
      ensures d == FreshGame(old(nextID), gameName) && nextID == old(nextID) + 1
      ensures games == old(games)[d.gameID := d]
      ensures old(Issued()) ==> Issued() && d.gameID !in old(games)
      ensures users == old(users) && auths == old(auths)
    {
      var gameID := nextID;
      nextID := nextID + 1;
      d := FreshGame(gameID, gameName);
      games := games[d.gameID := d];
    }

    /** updateGame: the record replaces whatever was filed under its ID. */
    method UpdateGame(d: GameData)
      requires Valid()
      modifies this
      ensures Valid() && games == old(games)[d.gameID := d]
      ensures users == old(users) && auths == old(auths) && nextID == old(nextID)
      ensures old(Issued()) && d.gameID in old(games) ==> Issued()
    {
      games := games[d.gameID := d];
    }

    /** readGame: the record filed under the ID, or None. */
    method ReadGame(gameID: int) returns (r: Option<GameData>)
      requires Valid()
      ensures r.Some? <==> gameID in games
      ensures r.Some? ==> r.value == games[gameID] && r.value.gameID == gameID
    {
      if gameID in games {
        return Some(games[gameID]);
      }
      return None;
    }

    /** listGames: exactly the stored records. */
    method ListGames() returns (listed: set<GameData>)
      ensures forall d :: d in listed <==> exists id :: id in games && games[id] == d
    {
      listed := set id | id in games :: games[id];
    }
  }
}
