/**
  The provider of the shared game state: whether a session is active, the
  parameters of the current game, the names chosen for a new game, and the
  players as last read from the database.  `updateOnlineStatus` changes a
  player's presence in the database by check-then-set.
*/
module GameContext {
  import opened Wrappers
  import opened Store
  import opened Text
  import opened CreateGame
  import opened CreateGameProperties

  /** The parameters of the current game; `Cleared` is the empty object a
      reset installs. */
  datatype GameInfo =
    | Cleared
    | GameInfo(
        currency: string,
        initialBalance: string,
        crossStartBonus: string,
        numberOfPlayers: int,
        gameID: int,
        playerCode: string,
        token: string,
        playerNames: seq<string>)

  /** One entry of the players as read from `/games/game-{id}/players`. */
  datatype DbPlayer = DbPlayer(name: string, balance: int, status: string)

  /** The game parameters before any game is chosen. */
  const InitialGameInfo: GameInfo := GameInfo("PLN", "1500", "200", 4, 0, "", "", [])

  /** `/games/game-{id}/players/{code}/status` */
  function StatusPath(gameID: int, playerCode: string): (p: Path)
    ensures p == GamePath(gameID) + ["players", playerCode, "status"]
    ensures |p| == 5 && p[0] == "games" && p[4] == "status"
  {
    ["games", "game-" + IntToString(gameID), "players", playerCode, "status"]
  }

  class GameContextProvider {
    var gameSessionActive: bool
    var gameInfo: GameInfo
    var newPlayerNames: seq<string>
    var newPlayerNamesDefined: bool
    var dbPlayersInfo: map<string, DbPlayer>

    /** The initial state of the provider. */
    constructor ()
      ensures !gameSessionActive
      ensures gameInfo == InitialGameInfo
      ensures newPlayerNames == [] && !newPlayerNamesDefined
      ensures dbPlayersInfo == map[]
    {
      gameSessionActive := false;
      gameInfo := InitialGameInfo;
      newPlayerNames := [];
      newPlayerNamesDefined := false;
      dbPlayersInfo := map[];
    }

    /** `resetGameContext`: forget the names and the session; the players
        read from the database stay. */
    method ResetGameContext()
      modifies this
      ensures newPlayerNames == [] && !newPlayerNamesDefined
      ensures !gameSessionActive && gameInfo == Cleared
      ensures dbPlayersInfo == old(dbPlayersInfo)
    {
      newPlayerNames := [];
      newPlayerNamesDefined := false;
      gameSessionActive := false;
      gameInfo := Cleared;
    }

    /** `updateOnlineStatus`: overwrite the player's status if it is already
        there; a missing node, or a store that rejects the read, leaves the
        store as it was.  Errors are caught, so there is no failure outcome. */
    method UpdateOnlineStatus(s: Store, gameID: int, playerCode: string, status: string) returns (s': Store)
      ensures s'.online == s.online
      ensures s.online && Get(s.root, StatusPath(gameID, playerCode)).Some? ==>
                Get(s'.root, StatusPath(gameID, playerCode)) == Some(Str(status))
      ensures !(s.online && Get(s.root, StatusPath(gameID, playerCode)).Some?) ==> s' == s
      ensures forall q :: Diverge(StatusPath(gameID, playerCode), q) ==> Get(s'.root, q) == Get(s.root, q)
    {
      var nodeRef := StatusPath(gameID, playerCode);
      var snapshot := Exists(s, nodeRef);
      if snapshot == Ok(true) {
        s' := Write(s, nodeRef, Str(status));
        forall q | Diverge(nodeRef, q) ensures Get(s'.root, q) == Get(s.root, q) {
          WriteKeepsDiverging(s, nodeRef, Str(status), q);
        }
      } else {
        s' := s;
      }
    }
  }

  /** A presence update for one player diverges from every other player's
      status and from every player's name, balance and owner flag, so
      `UpdateOnlineStatus` changes none of them. */
  lemma StatusPathIsolated(gameID: int, playerCode: string, other: string, field: string)
    ensures other != playerCode ==>
              Diverge(StatusPath(gameID, playerCode), GamePath(gameID) + ["players", other, field])
    ensures field != "status" ==>
              Diverge(StatusPath(gameID, playerCode), GamePath(gameID) + ["players", other, field])
  {
    var p := StatusPath(gameID, playerCode);
    var q := GamePath(gameID) + ["players", other, field];
    assert |p| == |q| == 5 && p[3] == playerCode && q[3] == other && p[4] == "status" && q[4] == field;
  }

  /** The status of a player inside a game record. */
  lemma GameRecordStatus(opts: NewGameOptions, players: map<string, Node>, nowCreated: nat, nowExpired: nat, c: string)
    requires c in players && players[c].Obj? && "status" in players[c].fields
    ensures Get(GameRecord(opts, players, nowCreated, nowExpired), ["players", c, "status"]) == Some(players[c].fields["status"])
  {
    var p: Path := ["players", c, "status"];
    var game := GameRecord(opts, players, nowCreated, nowExpired);
    assert p[1..] == [c, "status"] && p[1..][1..] == ["status"] && p[1..][1..][1..] == [];
    assert game.fields["players"] == Obj(players);
    assert Get(players[c], ["status"]) == Some(players[c].fields["status"]);
    assert Get(Obj(players), [c, "status"]) == Get(players[c], ["status"]);
  }

  /** After a successful `createGame`, every drawn code has a status node,
      holding `offline`: `updateOnlineStatus` for any of them writes. */
  lemma CreatedPlayersHaveStatus(s: Store, opts: NewGameOptions, rand: seq<Draw>, nowCreated: nat, nowExpired: nat, c: string)
    requires CreateGameSpec(s, opts, rand, nowCreated, nowExpired).0.Ok?
    requires c in CreateGameSpec(s, opts, rand, nowCreated, nowExpired).0.value.playerCodes
    ensures var (r, s') := CreateGameSpec(s, opts, rand, nowCreated, nowExpired);
            s'.online && Get(s'.root, StatusPath(r.value.newId, c)) == Some(Str("offline"))
  {
    var (r, s') := CreateGameSpec(s, opts, rand, nowCreated, nowExpired);
    var id := r.value.newId;
    var codes := r.value.playerCodes;
    var n := |codes|;
    CreatedSessionLayout(s, opts, rand, nowCreated, nowExpired);
    var players := PlayersUpTo(codes, opts.playerNames, opts.initialBalance, n);
    PlayersKeys(codes, opts.playerNames, opts.initialBalance, n);
    var i :| 0 <= i < n && codes[i] == c;
    PlayersStartFresh(codes, opts.playerNames, opts.initialBalance, n, c);
    GameRecordStatus(opts, players, nowCreated, nowExpired, c);
    GetAppend(s'.root, GamePath(id), ["players", c, "status"]);
  }
}
