/**
 * The live-game connection registry of WebSocketHandler: one connection
 * per username, and broadcast, which sends a message to the open
 * connections of a game and drops the closed ones.  A send is a delivery
 * handed back to the caller, which appends it to its outbox.
 *
 * The registry's value is a Registry: the map, and the order in which the
 * map's values are visited (a hash map's iteration order, modelled as the
 * order of insertion with removed keys left out).
 */
module Connections {
  import opened Basics
  import opened Pieces
  import opened Moves
  import opened GameRecords

  /** What a notification says. */
  datatype Note =
    | Joined(user: string, gameName: string, color: Option<TeamColor>)
    | Moved(user: string, move: Move)
    | Resigned(user: string)
    | Left(user: string)
    | StalemateDraw
    | Wins(winner: TeamColor, username: Option<string>)
    | Check(side: TeamColor, username: Option<string>)

  /** Why a request was answered with an error. */
  datatype Reason =
    | PlayerNotJoined
    | GameNotFound
    | InvalidMove(move: Move)
    | GameIsOver(state: State)
    | UnknownGame
    | OnlyPlayersResign
    | MoveRefused(move: Move)
    | Failure

  /** The three kinds of server message: LOAD_GAME, NOTIFICATION and ERROR. */
  datatype Message = Load(game: GameData) | Notification(note: Note) | Error(reason: Reason)

  /** A message sent to the session of a user's connection. */
  datatype Delivery = Delivery(to: string, msg: Message)

  /**
   * A connection: its user, the ID of the game it has joined (null until
   * join), its session and whether that session is open.
   */
  datatype Connection = Connection(user: string, gameID: Option<int>, session: int, open: bool)

  /** The registry as a value: the connections by username and their iteration order. */
  datatype Registry = Registry(conns: map<string, Connection>, keys: seq<string>)

  /** keys lists every username of the map once, and each connection is filed under its own user. */
  ghost predicate WellFormed(r: Registry)
  {
    Distinct(r.keys) && (forall u :: u in r.keys <==> u in r.conns) &&
    (forall u :: u in r.conns ==> r.conns[u].user == u)
  }

  // ---------------------------------------------------------------------
  // add, get, remove

  /** add: the connection filed under the username; a new name goes last in the order. */
  function Added(r: Registry, username: string, c: Connection): (r': Registry)
    requires c.user == username
    ensures WellFormed(r) ==> WellFormed(r')
    ensures r'.conns == r.conns[username := c]
  {
    if username in r.conns then Registry(r.conns[username := c], r.keys)
    else Registry(r.conns[username := c], r.keys + [username])
  }

  /** Setting connection.game: the user's connection, if still filed, now names the game. */
  function Attached(r: Registry, username: string, gameID: int): (r': Registry)
    ensures WellFormed(r) ==> WellFormed(r')
    ensures forall u :: u in r'.conns <==> u in r.conns
    ensures forall u :: u in r.conns && u != username ==> r'.conns[u] == r.conns[u]
    ensures username in r.conns ==> r'.conns[username] == r.conns[username].(gameID := Some(gameID))
  {
    if username in r.conns then Registry(r.conns[username := r.conns[username].(gameID := Some(gameID))], r.keys)
    else r
  }

  /** The keys that are still filed in conns, in the same order. */
  function Restrict(keys: seq<string>, conns: map<string, Connection>): seq<string>
  {
    if keys == [] then []
    else (if keys[0] in conns then [keys[0]] else []) + Restrict(keys[1..], conns)
  }

  lemma {:induction false} RestrictExact(keys: seq<string>, conns: map<string, Connection>)
    ensures forall v :: v in Restrict(keys, conns) <==> v in keys && v in conns
    ensures Distinct(keys) ==> Distinct(Restrict(keys, conns))
  {
    if keys != [] {
      RestrictExact(keys[1..], conns);
      assert forall v :: v in keys <==> v == keys[0] || v in keys[1..];
      if Distinct(keys) {
        assert Distinct(keys[1..]);
        var rest := Restrict(keys[1..], conns);
        var head := if keys[0] in conns then [keys[0]] else [];
        forall i, j | 0 <= i < j < |head + rest| ensures (head + rest)[i] != (head + rest)[j] {
          if i < |head| {
            assert (head + rest)[j] in rest;
          } else {
            assert (head + rest)[i] == rest[i - |head|] && (head + rest)[j] == rest[j - |head|];
          }
        }
      }
    }
  }

  /** Restricting a key list to a map that holds all of them changes nothing. */
  lemma {:induction false} RestrictAll(keys: seq<string>, conns: map<string, Connection>)
    requires forall u :: u in keys ==> u in conns
    ensures Restrict(keys, conns) == keys
  {
    if keys != [] {
      RestrictAll(keys[1..], conns);
      assert keys == [keys[0]] + keys[1..];
    }
  }

  /** Restricting to a smaller map after a larger one is restricting to the smaller one. */
  lemma {:induction false} RestrictTwice(keys: seq<string>, a: map<string, Connection>, b: map<string, Connection>)
    requires forall u :: u in b ==> u in a
    ensures Restrict(Restrict(keys, a), b) == Restrict(keys, b)
  {
    if keys != [] {
      RestrictTwice(keys[1..], a, b);
      if keys[0] in a {
        var rest := Restrict(keys[1..], a);
        var s := [keys[0]] + rest;
        assert s[0] == keys[0] && s[1..] == rest;
        assert Restrict(keys, a) == s;
        assert Restrict(s, b) == (if keys[0] in b then [keys[0]] else []) + Restrict(rest, b);
        assert Restrict(keys, b) == (if keys[0] in b then [keys[0]] else []) + Restrict(keys[1..], b);
      } else {
        assert Restrict(keys, a) == Restrict(keys[1..], a);
        assert Restrict(keys, b) == Restrict(keys[1..], b);
      }
    }
  }

  /** The first connection, in iteration order, whose session is the given one. */
  function FirstWithSession(conns: map<string, Connection>, keys: seq<string>, session: int): Option<string>
    requires forall u :: u in keys ==> u in conns
  {
    if keys == [] then None
    else if conns[keys[0]].session == session then Some(keys[0])
    else FirstWithSession(conns, keys[1..], session)
  }

  lemma {:induction false} FirstWithSessionExact(conns: map<string, Connection>, keys: seq<string>, session: int)
    requires forall u :: u in keys ==> u in conns
    ensures FirstWithSession(conns, keys, session).None? <==> forall u :: u in keys ==> conns[u].session != session
    ensures FirstWithSession(conns, keys, session).Some? ==>
      FirstWithSession(conns, keys, session).value in keys &&
      conns[FirstWithSession(conns, keys, session).value].session == session
  {
    if keys != [] {
      FirstWithSessionExact(conns, keys[1..], session);
      assert forall u :: u in keys ==> u == keys[0] || u in keys[1..];
    }
  }

  /** remove: the first connection in iteration order with the session is dropped, if there is one. */
  function Removed(r: Registry, session: int): (r': Registry)
    requires WellFormed(r)
    ensures WellFormed(r')
  {
    match FirstWithSession(r.conns, r.keys, session)
    case None => r
    case Some(u) =>
      RestrictExact(r.keys, r.conns - {u});
      Registry(r.conns - {u}, Restrict(r.keys, r.conns - {u}))
  }

  /**
   * remove deletes exactly one connection whose session matches, keeps
   * every other entry as it was, and changes nothing when no session
   * matches.
   */
  lemma RemovedExact(r: Registry, session: int)
    requires WellFormed(r)
    ensures (forall u :: u in r.conns ==> r.conns[u].session != session) ==> Removed(r, session) == r
    ensures (exists u :: u in r.conns && r.conns[u].session == session) ==>
      exists v :: v in r.conns && r.conns[v].session == session && Removed(r, session).conns == r.conns - {v}
  {
    FirstWithSessionExact(r.conns, r.keys, session);
  }

  // ---------------------------------------------------------------------
  // broadcast

  /** An open connection that has not joined a game: broadcast dereferences its null game. */
  predicate Unjoined(c: Connection)
  {
    c.open && c.gameID.None?
  }

  /** Where broadcast's walk stops: the first unjoined open connection, or the end. */
  function FirstUnjoined(conns: map<string, Connection>, keys: seq<string>): (k: nat)
    requires forall u :: u in keys ==> u in conns
    ensures k <= |keys|
    ensures forall j :: 0 <= j < k ==> !Unjoined(conns[keys[j]])
    ensures k < |keys| ==> Unjoined(conns[keys[k]])
  {
    if keys == [] then 0
    else if Unjoined(conns[keys[0]]) then 0
    else 1 + FirstUnjoined(conns, keys[1..])
  }

  /** broadcast's sends over a prefix of the iteration order. */
  function Sends(conns: map<string, Connection>, keys: seq<string>, gameID: int, exclude: string, msg: Message): seq<Delivery>
    requires forall u :: u in keys ==> u in conns
  {
    if keys == [] then []
    else
      var c := conns[keys[|keys| - 1]];
      Sends(conns, keys[..|keys| - 1], gameID, exclude, msg) +
      (if c.open && c.gameID == Some(gameID) && c.user != exclude then [Delivery(c.user, msg)] else [])
  }

  /** broadcast's removeList over a prefix of the iteration order: the closed connections. */
  function Closed(conns: map<string, Connection>, keys: seq<string>): seq<string>
    requires forall u :: u in keys ==> u in conns
  {
    if keys == [] then []
    else
      Closed(conns, keys[..|keys| - 1]) + (if !conns[keys[|keys| - 1]].open then [conns[keys[|keys| - 1]].user] else [])
  }

  /** What broadcast sends: the sends of the walk up to where it stops. */
  function Casting(r: Registry, gameID: int, exclude: string, msg: Message): seq<Delivery>
    requires WellFormed(r)
  {
    Sends(r.conns, r.keys[..FirstUnjoined(r.conns, r.keys)], gameID, exclude, msg)
  }

  /** broadcast completes when no open connection lacks a game. */
  predicate Completes(r: Registry)
    requires WellFormed(r)
  {
    FirstUnjoined(r.conns, r.keys) == |r.keys|
  }

  /** After a complete broadcast: the closed connections are gone, the order of the rest kept. */
  function Swept(r: Registry): (r': Registry)
    ensures forall u :: u in r'.conns <==> u in r.conns && r.conns[u].open
    ensures forall u :: u in r'.conns ==> r'.conns[u] == r.conns[u]
    ensures WellFormed(r) ==> WellFormed(r')
  {
    var open := map u | u in r.conns && r.conns[u].open :: r.conns[u];
    RestrictExact(r.keys, open);
    Registry(open, Restrict(r.keys, open))
  }

  /**
   * broadcast sends msg exactly to the open connections that have joined
   * the game and do not belong to the excluded user, in iteration order.
   */
  lemma {:induction false} SendsExact(conns: map<string, Connection>, keys: seq<string>, gameID: int, exclude: string, msg: Message, d: Delivery)
    requires forall u :: u in keys ==> u in conns
    ensures d in Sends(conns, keys, gameID, exclude, msg) <==>
      exists u :: u in keys && conns[u].open && conns[u].gameID == Some(gameID) && conns[u].user != exclude &&
        d == Delivery(conns[u].user, msg)
  {
    if keys != [] {
      var front := keys[..|keys| - 1];
      var last := keys[|keys| - 1];
      assert keys == front + [last];
      SendsExact(conns, front, gameID, exclude, msg, d);
      assert forall u :: u in keys <==> u in front || u == last;
    }
  }

  /** The removeList holds exactly the users of the closed connections. */
  lemma {:induction false} ClosedExact(conns: map<string, Connection>, keys: seq<string>, v: string)
    requires forall u :: u in keys ==> u in conns
    ensures v in Closed(conns, keys) <==> exists u :: u in keys && !conns[u].open && conns[u].user == v
  {
    if keys != [] {
      var front := keys[..|keys| - 1];
      var last := keys[|keys| - 1];
      assert keys == front + [last];
      ClosedExact(conns, front, v);
      assert forall u :: u in keys <==> u in front || u == last;
    }
  }

  /**
   * broadcast's recipients: a complete broadcast reaches exactly the open
   * connections of the game other than the excluded user's; an
   * interrupted one reaches some of them; a closed connection never gets
   * a message.
   */
  lemma CastingExact(r: Registry, gameID: int, exclude: string, msg: Message)
    requires WellFormed(r)
    ensures Completes(r) <==> forall u :: u in r.conns ==> !Unjoined(r.conns[u])
    ensures Completes(r) ==> forall d :: d in Casting(r, gameID, exclude, msg) <==>
      exists u :: u in r.conns && r.conns[u].open && r.conns[u].gameID == Some(gameID) && u != exclude &&
        d == Delivery(u, msg)
    ensures forall d :: d in Casting(r, gameID, exclude, msg) ==>
      d.msg == msg && d.to in r.conns && d.to != exclude &&
      r.conns[d.to].open && r.conns[d.to].gameID == Some(gameID)
  {
    var k := FirstUnjoined(r.conns, r.keys);
    if Completes(r) {
      forall u | u in r.conns ensures !Unjoined(r.conns[u]) {
        var j :| 0 <= j < |r.keys| && r.keys[j] == u;
      }
      assert r.keys[..k] == r.keys;
    }
    forall d | d in Casting(r, gameID, exclude, msg)
      ensures d.msg == msg && d.to in r.conns && d.to != exclude && r.conns[d.to].open && r.conns[d.to].gameID == Some(gameID)
    {
      SendsExact(r.conns, r.keys[..k], gameID, exclude, msg, d);
    }
    if Completes(r) {
      forall d ensures d in Casting(r, gameID, exclude, msg) <==>
        exists u :: u in r.conns && r.conns[u].open && r.conns[u].gameID == Some(gameID) && u != exclude &&
          d == Delivery(u, msg)
      {
        SendsExact(r.conns, r.keys, gameID, exclude, msg, d);
      }
    }
  }

  /** Sweeping keeps a registry complete: it removes only closed connections, and an unjoined one is open. */
  lemma SweptCompletes(r: Registry)
    requires WellFormed(r) && Completes(r)
    ensures Completes(Swept(r))
  {
    CastingExact(r, 0, "", Error(Failure));
    CastingExact(Swept(r), 0, "", Error(Failure));
  }

  /** A second sweep changes nothing. */
  lemma SweptIdempotent(r: Registry)
    ensures Swept(Swept(r)) == Swept(r)
  {
    var s := Swept(r);
    RestrictTwice(r.keys, s.conns, Swept(s).conns);
    assert Swept(s).conns == s.conns;
  }

  /** One more connection walked: the sends and the removeList grow by what it contributes. */
  lemma WalkStep(conns: map<string, Connection>, keys: seq<string>, i: nat, gameID: int, exclude: string, msg: Message)
    requires forall u :: u in keys ==> u in conns
    requires i < |keys|
    ensures var c := conns[keys[i]];
      Sends(conns, keys[..i + 1], gameID, exclude, msg) ==
        Sends(conns, keys[..i], gameID, exclude, msg) +
        (if c.open && c.gameID == Some(gameID) && c.user != exclude then [Delivery(c.user, msg)] else [])
    ensures Closed(conns, keys[..i + 1]) == Closed(conns, keys[..i]) + (if !conns[keys[i]].open then [conns[keys[i]].user] else [])
  {
    assert keys[..i + 1][..i] == keys[..i];
  }

  /** The walk stops at i exactly when i is the first open connection without a game. */
  lemma FirstUnjoinedAt(conns: map<string, Connection>, keys: seq<string>, i: nat)
    requires forall u :: u in keys ==> u in conns
    requires i <= |keys| && forall j :: 0 <= j < i ==> !Unjoined(conns[keys[j]])
    requires i < |keys| ==> Unjoined(conns[keys[i]])
    ensures FirstUnjoined(conns, keys) == i
  {
  }

  /** Dropping the next listed user keeps "the old map minus the users listed so far". */
  lemma DropStep(start: map<string, Connection>, before: map<string, Connection>, list: seq<string>, j: nat)
    requires j < |list|
    requires forall u :: u in before <==> u in start && u !in list[..j]
    requires forall u :: u in before ==> before[u] == start[u]
    ensures forall u :: u in before - {list[j]} <==> u in start && u !in list[..j + 1]
    ensures forall u :: u in before - {list[j]} ==> (before - {list[j]})[u] == start[u]
  {
    assert list[..j + 1] == list[..j] + [list[j]];
  }

  // ---------------------------------------------------------------------
  // The registry object

  class ConnectionManager {
    var connections: map<string, Connection>
    /** The order in which the map's values are visited. */
    var keys: seq<string>

    function Contents(): Registry
      reads this
    {
      Registry(connections, keys)
    }

    ghost predicate Valid()
      reads this
    {
      WellFormed(Contents())
    }

    constructor ()
      ensures Valid() && Contents() == Registry(map[], [])
    {
      connections := map[];
      keys := [];
    }

    /** add: file the connection under the username, replacing any earlier one. */
    method Add(username: string, c: Connection)
      requires Valid() && c.user == username
      modifies this
      ensures Valid() && Contents() == Added(old(Contents()), username, c)
    {
      if username !in connections {
        keys := keys + [username];
      }
      connections := connections[username := c];
    }

    /** Set the game of the user's connection, when one is filed. */
    method Attach(username: string, gameID: int)
      requires Valid()
      modifies this
      ensures Valid() && Contents() == Attached(old(Contents()), username, gameID)
    {
      if username in connections {
        connections := connections[username := connections[username].(gameID := Some(gameID))];
      }
    }

    /** get: the connection filed under the username, or None. */
    method Get(username: string) returns (c: Option<Connection>)
      ensures c.Some? <==> username in connections
      ensures c.Some? ==> c.value == connections[username]
    {
      if username in connections {
        return Some(connections[username]);
      }
      return None;
    }

    /** connections.remove(u): the other entries keep their order. */
    method Drop(u: string)
      requires Valid()
      modifies this
      ensures Valid() && connections == old(connections) - {u}
      ensures keys == Restrict(old(keys), connections)
    {
      connections := connections - {u};
      RestrictExact(keys, connections);
      keys := Restrict(keys, connections);
    }

    /** remove: drop the first connection, in iteration order, whose session is the given one. */
    method Remove(session: int)
      requires Valid()
      modifies this
      ensures Valid() && Contents() == Removed(old(Contents()), session)
    {
      var found: Option<string> := None;
      var i := 0;
      while i < |keys|
        invariant 0 <= i <= |keys|
        invariant FirstWithSession(connections, keys, session) == FirstWithSession(connections, keys[i..], session)
      {
        if connections[keys[i]].session == session {
          found := Some(keys[i]);
          break;
        }
        assert keys[i..][1..] == keys[i + 1..];
        i := i + 1;
      }
      if found.Some? {
        Drop(connections[found.value].user);
      }
    }

    /**
     * broadcast's walk over the connections, in iteration order: each open
     * connection of the game whose user is not the excluded one gets msg,
     * each closed one goes on the removeList.  An open connection that has
     * not joined a game stops the walk with a null dereference (ok false).
     */
    method Scan(gameID: int, exclude: string, msg: Message) returns (sent: seq<Delivery>, removeList: seq<string>, ok: bool)
      requires Valid()
      ensures sent == Casting(Contents(), gameID, exclude, msg) && ok == Completes(Contents())
      ensures ok ==> removeList == Closed(connections, keys)
    {
      sent := [];
      removeList := [];
      var i := 0;
      while i < |keys|
        invariant 0 <= i <= |keys|
        invariant forall j :: 0 <= j < i ==> !Unjoined(connections[keys[j]])
        invariant sent == Sends(connections, keys[..i], gameID, exclude, msg)
        invariant removeList == Closed(connections, keys[..i])
      {
        var c := connections[keys[i]];
        WalkStep(connections, keys, i, gameID, exclude, msg);
        if c.open {
          if c.gameID.None? {
            FirstUnjoinedAt(connections, keys, i);
            return sent, removeList, false;
          }
          if c.gameID == Some(gameID) && c.user != exclude {
            sent := sent + [Delivery(c.user, msg)];
          }
        } else {
          removeList := removeList + [c.user];
        }
        i := i + 1;
      }
      assert keys[..i] == keys;
      FirstUnjoinedAt(connections, keys, i);
      ok := true;
    }

    /** The removal loop of broadcast: each listed user's connection is dropped. */
    method RemoveAll(removeList: seq<string>)
      requires Valid()
      modifies this
      ensures Valid()
      ensures forall u :: u in connections <==> u in old(connections) && u !in removeList
      ensures forall u :: u in connections ==> connections[u] == old(connections)[u]
      ensures keys == Restrict(old(keys), connections)
    {
      RestrictAll(keys, connections);
      var j := 0;
      while j < |removeList|
        invariant 0 <= j <= |removeList| && Valid()
        invariant forall u :: u in connections <==> u in old(connections) && u !in removeList[..j]
        invariant forall u :: u in connections ==> connections[u] == old(connections)[u]
        invariant keys == Restrict(old(keys), connections)
      {
        ghost var before := connections;
        DropStep(old(connections), before, removeList, j);
        Drop(removeList[j]);
        RestrictTwice(old(keys), before, connections);
        j := j + 1;
      }
      assert removeList[..j] == removeList;
    }

    /**
     * broadcast: the walk of Scan, then the closed connections are removed.
     * When the walk stops on a null game, what was sent so far stays sent
     * and nothing is removed.
     */
    method Broadcast(gameID: int, exclude: string, msg: Message) returns (sent: seq<Delivery>, ok: bool)
      requires Valid()
      modifies this
      ensures Valid()
      ensures sent == Casting(old(Contents()), gameID, exclude, msg) && ok == Completes(old(Contents()))
      ensures Contents() == if ok then Swept(old(Contents())) else old(Contents())
    {
      var removeList;
      sent, removeList, ok := Scan(gameID, exclude, msg);
      if !ok {
        return;
      }
      ghost var before := Contents();
      forall v ensures v in removeList <==> v in connections && !connections[v].open {
        ClosedExact(connections, keys, v);
      }
      RemoveAll(removeList);
      assert connections == Swept(before).conns;
    }
  }
}
