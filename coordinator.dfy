/**
 * WebSocketHandler's game commands: join, move, resign and leave, with
 * getPlayerColor, isTurn and handleGameState.  Each command first decides
 * on the stored record (a Plan), then acts: it writes the store, changes
 * the registry and appends messages to the outbox.  A crash inside a
 * command (a null dereference or an array index out of range) is caught by
 * onMessage, which sends an error to the requester; what the command did
 * before the crash stays done.
 */
module Coordinator {
  import opened Basics
  import opened Positions
  import opened Pieces
  import opened Moves
  import opened Grids
  import opened BoardRules
  import opened GameRules
  import opened GameRecords
  import opened MemoryStore
  import opened Connections
  import GameService

  /** readGame on a map: the record filed under the ID, or None. */
  function Lookup(games: map<int, GameData>, gameID: int): (found: Option<GameData>)
    ensures found.Some? <==> gameID in games
    ensures found.Some? ==> found.value == games[gameID]
  {
    if gameID in games then Some(games[gameID]) else None
  }

  // ---------------------------------------------------------------------
  // getPlayerColor and isTurn

  /** getPlayerColor: the black seat is looked at first, so a user holding both seats plays Black. */
  function PlayerColor(d: GameData, username: string): (c: Option<TeamColor>)
    ensures c == Some(Black) <==> d.blackUsername == Some(username)
    ensures c == Some(White) <==> d.whiteUsername == Some(username) && d.blackUsername != Some(username)
    ensures c.None? <==> d.whiteUsername != Some(username) && d.blackUsername != Some(username)
  {
    if d.blackUsername == Some(username) then Some(Black)
    else if d.whiteUsername == Some(username) then Some(White)
    else None
  }

  /** The seat whose holder is to move. */
  function TurnSeat(d: GameData): Option<string>
  {
    if d.game.turn == White then d.whiteUsername else d.blackUsername
  }

  /** isTurn's answer, or the crash it runs into. */
  datatype TurnCheck = Crash | Turn(mine: bool)

  /**
   * isTurn: the user holds the seat of the side to move and the move
   * starts on a piece of that side.  getPiece indexes the board array
   * first, so an off-board start crashes; an empty seat is then a null
   * dereference.
   */
  function IsTurn(d: GameData, m: Move, username: string): (r: TurnCheck)
    ensures r.Crash? <==> !OnBoard(m.start) || TurnSeat(d).None?
    ensures r == Turn(true) <==>
      OnBoard(m.start) && TurnSeat(d) == Some(username) &&
      At(d.game.board, m.start).Some? && At(d.game.board, m.start).value.color == d.game.turn
  {
    if !OnBoard(m.start) then Crash
    else if TurnSeat(d).None? then Crash
    else
      var piece := At(d.game.board, m.start);
      Turn(TurnSeat(d).value == username && piece.Some? && piece.value.color == d.game.turn)
  }

  /**
   * Whoever isTurn lets through is seated, and plays the side to move
   * unless they hold both seats; makeMove then accepts exactly the
   * piece's valid moves.
   */
  lemma TurnOwner(d: GameData, m: Move, username: string)
    requires IsTurn(d, m, username) == Turn(true)
    ensures PlayerColor(d, username).Some?
    ensures d.whiteUsername != d.blackUsername ==> PlayerColor(d, username) == Some(d.game.turn)
    ensures CanMove(d.game, m) <==> m in ValidMoves(d.game.board, m.start)
  {
    CanMoveIffValid(d.game, m);
  }

  // ---------------------------------------------------------------------
  // The decisions

  /** A command's decision: an error for the requester, or the record to go on with. */
  datatype Plan = Refuse(reason: Reason) | Proceed(record: GameData)

  /**
   * join: the game must exist and the seat the colour names (black for
   * BLACK, white for anything else, a missing colour included) must hold
   * the user; the record is used as read.
   */
  function JoinPlan(found: Option<GameData>, username: string, color: Option<TeamColor>): (p: Plan)
    ensures p.Proceed? ==> found.Some? && p.record == found.value
  {
    if found.None? then Refuse(GameNotFound)
    else
      var expected := if color == Some(Black) then found.value.blackUsername else found.value.whiteUsername;
      if expected == Some(username) then Proceed(found.value) else Refuse(PlayerNotJoined)
  }

  /**
   * move: the game must exist and be undecided, isTurn must hold and
   * makeMove must accept the move; the record then holds the moved game.
   */
  function MovePlan(found: Option<GameData>, username: string, m: Move): (p: Plan)
    ensures p.Proceed? ==> found.Some? && OnBoard(m.start) && CanMove(found.value.game, m)
    ensures p.Proceed? ==> p.record == found.value.(game := AfterMove(found.value.game, m))
  {
    if found.None? then Refuse(UnknownGame)
    else if IsGameOver(found.value) then Refuse(GameIsOver(found.value.state))
    else match IsTurn(found.value, m, username)
      case Crash => Refuse(Failure)
      case Turn(mine) =>
        if !mine then Refuse(InvalidMove(m))
        else if CanMove(found.value.game, m) then Proceed(found.value.(game := AfterMove(found.value.game, m)))
        else Refuse(MoveRefused(m))
  }

  /** resign: an undecided game and a seated user; the opponent's side wins. */
  function ResignPlan(found: Option<GameData>, username: string): (p: Plan)
    ensures p.Proceed? ==> found.Some? && p.record.gameID == found.value.gameID
  {
    if found.None? || IsGameOver(found.value) then Refuse(GameNotFound)
    else match PlayerColor(found.value, username)
      case None => Refuse(OnlyPlayersResign)
      case Some(c) => Proceed(SetState(found.value, if c == White then BlackWon else WhiteWon))
  }

  /** leave: the user's black seat is cleared, else the user's white seat; a spectator changes no seat. */
  function LeavePlan(found: Option<GameData>, username: string): (p: Plan)
    ensures p.Proceed? ==> found.Some? && p.record.gameID == found.value.gameID
  {
    if found.None? then Refuse(GameNotFound)
    else if found.value.blackUsername == Some(username) then Proceed(SetBlack(found.value, None))
    else if found.value.whiteUsername == Some(username) then Proceed(SetWhite(found.value, None))
    else Proceed(found.value)
  }

  /** The outcome handleGameState decides: the record to store and the notification, if any. */
  datatype Outcome = Outcome(record: GameData, note: Option<Note>)

  /**
   * handleGameState: stalemate of either side is a draw; otherwise a
   * mated White loses, then a mated Black loses; otherwise a side in check
   * (White first) is only announced.
   */
  function GameOutcome(d: GameData): (o: Outcome)
    ensures o.record == d.(state := o.record.state)
  {
    var g := d.game.board;
    if InStalemate(g, White) || InStalemate(g, Black) then Outcome(SetState(d, Draw), Some(StalemateDraw))
    else if InCheckmate(g, White) then Outcome(SetState(d, BlackWon), Some(Wins(Black, d.blackUsername)))
    else if InCheckmate(g, Black) then Outcome(SetState(d, WhiteWon), Some(Wins(White, d.whiteUsername)))
    else if InCheck(g, White) then Outcome(d, Some(Check(White, d.whiteUsername)))
    else if InCheck(g, Black) then Outcome(d, Some(Check(Black, d.blackUsername)))
    else Outcome(d, None)
  }

  // ---------------------------------------------------------------------
  // What the decisions promise

  /**
   * join succeeds exactly for an existing game whose seat named by the
   * colour holds the user; a spectator is always refused.
   */
  lemma JoinRules(found: Option<GameData>, username: string, color: Option<TeamColor>)
    ensures JoinPlan(found, username, color).Proceed? <==>
      found.Some? &&
      (if color == Some(Black) then found.value.blackUsername else found.value.whiteUsername) == Some(username)
    ensures found.None? ==> JoinPlan(found, username, color) == Refuse(GameNotFound)
    ensures found.Some? && PlayerColor(found.value, username).None? ==>
      JoinPlan(found, username, color) == Refuse(PlayerNotJoined)
  {
  }

  /** A seat claimed through joinGame lets its holder join the game over the socket with that colour. */
  lemma ClaimThenJoin(d: GameData, username: string, c: TeamColor)
    requires GameService.JoinDecision(Some(d), username, Some(c)).Done?
    ensures JoinPlan(Some(GameService.JoinDecision(Some(d), username, Some(c)).value), username, Some(c)) ==
      Proceed(GameService.JoinDecision(Some(d), username, Some(c)).value)
  {
  }

  /**
   * move goes ahead exactly for an undecided game, the holder of the seat
   * to move and one of the valid moves of a piece of that side; the turn
   * then passes and nothing but the game changes.  The refusals come in
   * the order: unknown game, finished game, a crash in isTurn (a failure),
   * not the user's turn (an invalid move), move rejected by makeMove.
   */
  lemma MoveRules(found: Option<GameData>, username: string, m: Move)
    ensures MovePlan(found, username, m).Proceed? <==>
      found.Some? && !IsGameOver(found.value) && OnBoard(m.start) && TurnSeat(found.value) == Some(username) &&
      At(found.value.game.board, m.start).Some? &&
      At(found.value.game.board, m.start).value.color == found.value.game.turn &&
      m in ValidMoves(found.value.game.board, m.start)
    ensures MovePlan(found, username, m).Proceed? ==>
      MovePlan(found, username, m).record.game.turn == Other(found.value.game.turn)
    ensures found.None? ==> MovePlan(found, username, m) == Refuse(UnknownGame)
    ensures found.Some? && IsGameOver(found.value) ==> MovePlan(found, username, m) == Refuse(GameIsOver(found.value.state))
    ensures found.Some? && !IsGameOver(found.value) && IsTurn(found.value, m, username) == Turn(false) ==>
      MovePlan(found, username, m) == Refuse(InvalidMove(m))
    ensures found.Some? && !IsGameOver(found.value) && IsTurn(found.value, m, username).Crash? ==>
      MovePlan(found, username, m) == Refuse(Failure)
    ensures found.Some? && !IsGameOver(found.value) && IsTurn(found.value, m, username) == Turn(true) &&
            !CanMove(found.value.game, m) ==>
      MovePlan(found, username, m) == Refuse(MoveRefused(m))
  {
    if found.Some? && OnBoard(m.start) {
      CanMoveIffValid(found.value.game, m);
    }
  }

  /**
   * resign goes ahead exactly for an undecided game and a seated user;
   * the game is then over, won by the other side, and nothing else
   * changes.  A spectator is told only players resign; a missing or
   * finished game is reported as not found.
   */
  lemma ResignRules(found: Option<GameData>, username: string)
    ensures ResignPlan(found, username).Proceed? <==>
      found.Some? && !IsGameOver(found.value) && PlayerColor(found.value, username).Some?
    ensures ResignPlan(found, username).Proceed? ==>
      var r := ResignPlan(found, username).record;
      IsGameOver(r) && r == found.value.(state := r.state) &&
      r.state == (if PlayerColor(found.value, username) == Some(White) then BlackWon else WhiteWon)
    ensures found.Some? && !IsGameOver(found.value) && PlayerColor(found.value, username).None? ==>
      ResignPlan(found, username) == Refuse(OnlyPlayersResign)
    ensures found.None? || IsGameOver(found.value) ==> ResignPlan(found, username) == Refuse(GameNotFound)
  {
  }

  /**
   * leave always goes ahead on an existing game and then frees the seat
   * the user held (black first); the game and its state stay, and the
   * freed seat is open to anyone's joinGame.
   */
  lemma LeaveRules(found: Option<GameData>, username: string, other: string)
    ensures LeavePlan(found, username).Proceed? <==> found.Some?
    ensures LeavePlan(found, username).Proceed? ==>
      var r := LeavePlan(found, username).record;
      r.game == found.value.game && r.state == found.value.state && r.gameName == found.value.gameName &&
      (found.value.blackUsername == Some(username) ==>
        r.blackUsername.None? && r.whiteUsername == found.value.whiteUsername &&
        GameService.SeatOpen(r.blackUsername, other)) &&
      (found.value.blackUsername != Some(username) && found.value.whiteUsername == Some(username) ==>
        r.whiteUsername.None? && r.blackUsername == found.value.blackUsername &&
        GameService.SeatOpen(r.whiteUsername, other)) &&
      (PlayerColor(found.value, username).None? ==> r == found.value)
  {
  }

  /**
   * handleGameState changes only the state, and only to end the game:
   * stalemate of either side draws, then checkmate of White, then of
   * Black decides, each announced to everyone; a game without any of them
   * keeps its state, and a check (White's looked at first) is only
   * announced.
   */
  lemma OutcomeRules(d: GameData)
    ensures GameOutcome(d).record.state != d.state ==> IsGameOver(GameOutcome(d).record)
    ensures InStalemate(d.game.board, White) || InStalemate(d.game.board, Black) ==>
      GameOutcome(d).record.state == Draw && GameOutcome(d).note == Some(StalemateDraw)
    ensures !InStalemate(d.game.board, White) && !InStalemate(d.game.board, Black) && InCheckmate(d.game.board, White) ==>
      GameOutcome(d).record.state == BlackWon && GameOutcome(d).note == Some(Wins(Black, d.blackUsername))
    ensures (!InStalemate(d.game.board, White) && !InStalemate(d.game.board, Black) &&
             !InCheckmate(d.game.board, White) && InCheckmate(d.game.board, Black)) ==>
      GameOutcome(d).record.state == WhiteWon && GameOutcome(d).note == Some(Wins(White, d.whiteUsername))
    ensures (!InStalemate(d.game.board, White) && !InStalemate(d.game.board, Black) &&
             !InCheckmate(d.game.board, White) && !InCheckmate(d.game.board, Black)) ==>
      GameOutcome(d).record == d
    ensures (!InStalemate(d.game.board, White) && !InStalemate(d.game.board, Black) &&
             !InCheckmate(d.game.board, White) && !InCheckmate(d.game.board, Black)) ==>
      (InCheck(d.game.board, White) ==> GameOutcome(d).note == Some(Check(White, d.whiteUsername))) &&
      (!InCheck(d.game.board, White) && InCheck(d.game.board, Black) ==>
        GameOutcome(d).note == Some(Check(Black, d.blackUsername)))
    ensures GameOutcome(d).note.None? <==>
      (!InCheck(d.game.board, White) && !InCheck(d.game.board, Black) &&
       !InStalemate(d.game.board, White) && !InStalemate(d.game.board, Black))
  {
    var g := d.game.board;
    if InCheckmate(g, White) {
      assert InCheck(g, White);
    }
    if InCheckmate(g, Black) {
      assert InCheck(g, Black);
    }
  }

  /**
   * After an accepted move the mover is never found checkmated or in
   * check: handleGameState never awards the game to the mover's opponent
   * and never warns the mover.
   */
  lemma MoverNeverLoses(d: GameData, m: Move)
    requires OnBoard(m.start) && CanMove(d.game, m) && !IsGameOver(d)
    ensures var c := d.game.turn;
      var o := GameOutcome(d.(game := AfterMove(d.game, m)));
      o.record.state != (if c == White then BlackWon else WhiteWon) &&
      o.note != Some(Check(c, if c == White then d.whiteUsername else d.blackUsername))
  {
    AfterMoveKingSafe(d.game, m);
  }

  /** A decided game stays decided: no command can change its state. */
  lemma FinishedStaysFinished(d: GameData, username: string, m: Move, color: Option<TeamColor>)
    requires IsGameOver(d)
    ensures MovePlan(Some(d), username, m) == Refuse(GameIsOver(d.state))
    ensures ResignPlan(Some(d), username) == Refuse(GameNotFound)
    ensures LeavePlan(Some(d), username).record.state == d.state
    ensures JoinPlan(Some(d), username, color).Proceed? ==> JoinPlan(Some(d), username, color).record == d
  {
  }

  // ---------------------------------------------------------------------
  // Broadcasting from a command

  /** The registry, the deliveries and whether the command may go on, after one step. */
  datatype Step = Step(reg: Registry, out: seq<Delivery>, ok: bool)

  /** One broadcast from a command; when it crashes, onMessage sends the requester an error. */
  function Announce(r: Registry, requester: string, gameID: int, exclude: string, msg: Message): (s: Step)
    requires WellFormed(r)
    ensures WellFormed(s.reg)
    ensures s.ok <==> Completes(r)
    ensures s.ok ==> s.reg == Swept(r) && s.out == Casting(r, gameID, exclude, msg)
    ensures !s.ok ==> s.reg == r && s.out == Casting(r, gameID, exclude, msg) + [Delivery(requester, Error(Failure))]
  {
    if Completes(r) then Step(Swept(r), Casting(r, gameID, exclude, msg), true)
    else Step(r, Casting(r, gameID, exclude, msg) + [Delivery(requester, Error(Failure))], false)
  }

  /** handleGameState's broadcast: the outcome's notification to everyone in the game, if there is one. */
  function AnnounceOutcome(r: Registry, requester: string, o: Outcome, gameID: int): (s: Step)
    requires WellFormed(r)
    ensures WellFormed(s.reg)
  {
    if o.note.Some? then Announce(r, requester, gameID, "", Notification(o.note.value)) else Step(r, [], true)
  }

  /** The rest of a command after makeMove, and what it stores. */
  datatype Run = Run(stored: GameData, reg: Registry, out: seq<Delivery>)

  /**
   * The end of an accepted move, from handleGameState on: announce the
   * outcome, then store its record, attach the mover to the game and send
   * everyone the new game.  A crash in the announcement leaves the moved
   * game stored as it was.
   */
  function Conclusion(r: Registry, moved: GameData, o: Outcome, username: string): Run
    requires WellFormed(r)
  {
    var s2 := AnnounceOutcome(r, username, o, moved.gameID);
    if !s2.ok then Run(moved, s2.reg, s2.out)
    else
      var s3 := Announce(Attached(s2.reg, username, moved.gameID), username, moved.gameID, "", Load(o.record));
      Run(o.record, s3.reg, s2.out + s3.out)
  }

  /**
   * After an accepted move: announce it to the others, then the
   * Conclusion.  The moved board is in the store from makeMove on (the
   * stored game object is the one moved), so a crash leaves it there with
   * the state undecided.
   */
  function MoveRun(r: Registry, moved: GameData, username: string, m: Move, o: Outcome): Run
    requires WellFormed(r)
  {
    var s1 := Announce(r, username, moved.gameID, username, Notification(Moved(username, m)));
    if !s1.ok then Run(moved, s1.reg, s1.out)
    else
      var c := Conclusion(s1.reg, moved, o, username);
      Run(c.stored, c.reg, s1.out + c.out)
  }

  /**
   * What an accepted move leaves in the store: always the moved game, and
   * the decided outcome exactly when every broadcast went through, in
   * which case everyone still connected to the game is sent that record.
   */
  lemma MoveRunStores(r: Registry, moved: GameData, username: string, m: Move)
    requires WellFormed(r)
    ensures var run := MoveRun(r, moved, username, m, GameOutcome(moved));
      run.stored.game == moved.game && run.stored.gameID == moved.gameID &&
      (run.stored == moved || run.stored == GameOutcome(moved).record) &&
      (Completes(r) ==> run.stored == GameOutcome(moved).record)
  {
    SweptIdempotent(r);
    if Completes(r) {
      SweptCompletes(r);
    }
  }

  // ---------------------------------------------------------------------
  // The handler

  class WebSocketHandler {
    const store: MemoryDataAccess
    const manager: ConnectionManager
    /** Every message sent, in order. */
    var outbox: seq<Delivery>

    ghost predicate Valid()
      reads this, store, manager
    {
      store.Valid() && manager.Valid()
    }

    constructor (dataAccess: MemoryDataAccess)
      requires dataAccess.Valid()
      ensures Valid() && store == dataAccess && fresh(manager)
      ensures manager.Contents() == Registry(map[], []) && outbox == []
    {
      store := dataAccess;
      manager := new ConnectionManager();
      outbox := [];
    }

    /** connection.send / sendError: one message to the user's session. */
    method Send(to: string, msg: Message)
      modifies this
      ensures outbox == old(outbox) + [Delivery(to, msg)]
    {
      outbox := outbox + [Delivery(to, msg)];
    }

    /** connections.broadcast, with onMessage's catch of its crash. */
    method Broadcast(requester: string, gameID: int, exclude: string, msg: Message) returns (ok: bool)
      requires Valid()
      modifies this, manager
      ensures Valid()
      ensures var s := Announce(old(manager.Contents()), requester, gameID, exclude, msg);
        manager.Contents() == s.reg && outbox == old(outbox) + s.out && ok == s.ok
    {
      var sent;
      sent, ok := manager.Broadcast(gameID, exclude, msg);
      outbox := outbox + sent;
      if !ok {
        Send(requester, Error(Failure));
      }
    }

    /**
     * join: on success the user's connection is attached to the game, the
     * user is sent the game, and the others in it are told who joined.
     * The store is only read.
     */
    method Join(username: string, gameID: int, color: Option<TeamColor>)
      requires Valid()
      modifies this, manager
      ensures Valid()
      ensures var plan := JoinPlan(Lookup(store.games, gameID), username, color);
        plan.Refuse? ==>
          manager.Contents() == old(manager.Contents()) && outbox == old(outbox) + [Delivery(username, Error(plan.reason))]
      ensures var plan := JoinPlan(Lookup(store.games, gameID), username, color);
        plan.Proceed? ==>
          var s := Announce(Attached(old(manager.Contents()), username, gameID), username, gameID, username,
            Notification(Joined(username, plan.record.gameName, color)));
          manager.Contents() == s.reg && outbox == old(outbox) + [Delivery(username, Load(plan.record))] + s.out
    {
      var found := store.ReadGame(gameID);
      var plan := JoinPlan(found, username, color);
      if plan.Refuse? {
        Send(username, Error(plan.reason));
        return;
      }
      var d := plan.record;
      manager.Attach(username, d.gameID);
      Send(username, Load(d));
      var ok := Broadcast(username, d.gameID, username, Notification(Joined(username, d.gameName, color)));
    }

    /**
     * The broadcast half of handleGameState: the outcome's notification to
     * everyone in the game, when there is one.
     */
    method Tell(requester: string, gameID: int, o: Outcome) returns (ok: bool)
      requires Valid()
      modifies this, manager
      ensures Valid()
      ensures var s := AnnounceOutcome(old(manager.Contents()), requester, o, gameID);
        ok == s.ok && manager.Contents() == s.reg && outbox == old(outbox) + s.out
    {
      ok := true;
      if o.note.Some? {
        ok := Broadcast(requester, gameID, "", Notification(o.note.value));
      }
    }

    /**
     * move: a refused move gets one error and changes nothing; an
     * accepted one is stored at once (makeMove changes the stored game),
     * then runs as MoveRun says.
     */
    method Move(username: string, gameID: int, m: Move)
      requires Valid()
      modifies this, manager, store
      ensures Valid()
      ensures store.users == old(store.users) && store.auths == old(store.auths) && store.nextID == old(store.nextID)
      ensures var plan := MovePlan(Lookup(old(store.games), gameID), username, m);
        plan.Refuse? ==>
          store.games == old(store.games) && manager.Contents() == old(manager.Contents()) &&
          outbox == old(outbox) + [Delivery(username, Error(plan.reason))]
      ensures var plan := MovePlan(Lookup(old(store.games), gameID), username, m);
        plan.Proceed? ==>
          var run := MoveRun(old(manager.Contents()), plan.record, username, m, GameOutcome(plan.record));
          store.games == old(store.games)[gameID := run.stored] && manager.Contents() == run.reg &&
          outbox == old(outbox) + run.out
    {
      var found := store.ReadGame(gameID);
      var plan := MovePlan(found, username, m);
      if plan.Refuse? {
        Send(username, Error(plan.reason));
        return;
      }
      var o := GameOutcome(plan.record);
      Play(username, plan.record, m, o);
    }

    /** An accepted move, from makeMove on: the moved game is stored, then MoveRun with its outcome o. */
    method Play(username: string, moved: GameData, m: Move, o: Outcome)
      requires Valid() && o.record.gameID == moved.gameID
      modifies this, manager, store
      ensures Valid()
      ensures store.users == old(store.users) && store.auths == old(store.auths) && store.nextID == old(store.nextID)
      ensures var run := MoveRun(old(manager.Contents()), moved, username, m, o);
        store.games == old(store.games)[moved.gameID := run.stored] && manager.Contents() == run.reg &&
        outbox == old(outbox) + run.out
    {
      ghost var s1 := Announce(manager.Contents(), username, moved.gameID, username, Notification(Moved(username, m)));
      store.UpdateGame(moved);
      var ok := Broadcast(username, moved.gameID, username, Notification(Moved(username, m)));
      if ok {
        ghost var c := Conclusion(s1.reg, moved, o, username);
        Conclude(username, moved, o);
        Regroup(old(outbox), s1.out, c.out);
      }
    }

    /**
     * handleGameState with its decided outcome o, then, unless its
     * broadcast crashed, updateGame, connection.game and the LOAD broadcast.
     */
    method Conclude(username: string, moved: GameData, o: Outcome)
      requires Valid() && moved.gameID in store.games && store.games[moved.gameID] == moved
      requires o.record.gameID == moved.gameID
      modifies this, manager, store
      ensures Valid()
      ensures store.users == old(store.users) && store.auths == old(store.auths) && store.nextID == old(store.nextID)
      ensures var c := Conclusion(old(manager.Contents()), moved, o, username);
        store.games == old(store.games)[moved.gameID := c.stored] && manager.Contents() == c.reg &&
        outbox == old(outbox) + c.out
    {
      var ok := Tell(username, moved.gameID, o);
      if !ok {
        assert store.games == old(store.games)[moved.gameID := moved];
        return;
      }
      ghost var s2 := AnnounceOutcome(old(manager.Contents()), username, o, moved.gameID);
      store.UpdateGame(o.record);
      manager.Attach(username, moved.gameID);
      ok := Broadcast(username, moved.gameID, "", Load(o.record));
      Regroup(old(outbox), s2.out, Announce(Attached(s2.reg, username, moved.gameID), username, moved.gameID, "", Load(o.record)).out);
    }

    /**
     * resign: on success the record with the opponent winning is stored,
     * the user's connection attached to the game, and everyone in it told.
     */
    method Resign(username: string, gameID: int)
      requires Valid()
      modifies this, manager, store
      ensures Valid()
      ensures store.users == old(store.users) && store.auths == old(store.auths) && store.nextID == old(store.nextID)
      ensures var plan := ResignPlan(Lookup(old(store.games), gameID), username);
        plan.Refuse? ==>
          store.games == old(store.games) && manager.Contents() == old(manager.Contents()) &&
          outbox == old(outbox) + [Delivery(username, Error(plan.reason))]
      ensures var plan := ResignPlan(Lookup(old(store.games), gameID), username);
        plan.Proceed? ==>
          var s := Announce(Attached(old(manager.Contents()), username, gameID), username, gameID, "",
            Notification(Resigned(username)));
          store.games == old(store.games)[gameID := plan.record] && manager.Contents() == s.reg &&
          outbox == old(outbox) + s.out
    {
      var found := store.ReadGame(gameID);
      var plan := ResignPlan(found, username);
      if plan.Refuse? {
        Send(username, Error(plan.reason));
        return;
      }
      var d := plan.record;
      store.UpdateGame(d);
      manager.Attach(username, d.gameID);
      var ok := Broadcast(username, d.gameID, "", Notification(Resigned(username)));
    }

    /**
     * leave: on an existing game the record with the user's seat freed is
     * stored, the connection with the user's session removed, and everyone
     * left in the game told.
     */
    method Leave(username: string, gameID: int)
      requires Valid() && username in manager.connections
      modifies this, manager, store
      ensures Valid()
      ensures store.users == old(store.users) && store.auths == old(store.auths) && store.nextID == old(store.nextID)
      ensures var plan := LeavePlan(Lookup(old(store.games), gameID), username);
        plan.Refuse? ==>
          store.games == old(store.games) && manager.Contents() == old(manager.Contents()) &&
          outbox == old(outbox) + [Delivery(username, Error(plan.reason))]
      ensures var plan := LeavePlan(Lookup(old(store.games), gameID), username);
        plan.Proceed? ==>
          var s := Announce(Removed(old(manager.Contents()), old(manager.connections)[username].session), username,
            gameID, "", Notification(Left(username)));
          store.games == old(store.games)[gameID := plan.record] && manager.Contents() == s.reg &&
          outbox == old(outbox) + s.out
    {
      var session := manager.connections[username].session;
      var found := store.ReadGame(gameID);
      var plan := LeavePlan(found, username);
      if plan.Refuse? {
        Send(username, Error(plan.reason));
        return;
      }
      var d := plan.record;
      store.UpdateGame(d);
      manager.Remove(session);
      var ok := Broadcast(username, d.gameID, "", Notification(Left(username)));
    }
  }
}
