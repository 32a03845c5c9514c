/** server/src/models/GameManager.ts: the registry of running games. `games` maps a game
    id to its game, `order` is the order in which ids entered that map (the iteration
    order of the source's Map), and `playerGameMap` maps a player id to the id of the
    game the player joined. */
module GameManagers {
  import opened Types
  import GameRules
  import PlayerRules
  import Games
  import Players

  /** The ids of the given players. */
  function PlayerIds(ps: seq<Players.PlayerModel>): (r: set<string>)
    ensures forall j :: 0 <= j < |ps| ==> ps[j].id in r
    ensures forall x :: x in r ==> exists j :: 0 <= j < |ps| && ps[j].id == x
  {
    set p | p in ps :: p.id
  }

  /** ks without every occurrence of k, in the same order. */
  function Without(ks: seq<string>, k: string): (r: seq<string>)
    ensures forall x :: x in r <==> x in ks && x != k
    ensures |r| <= |ks|
  {
    if ks == [] then []
    else if ks[0] == k then Without(ks[1..], k)
    else [ks[0]] + Without(ks[1..], k)
  }

  predicate Distinct(ks: seq<string>)
  {
    forall i, j :: 0 <= i < j < |ks| ==> ks[i] != ks[j]
  }

  /** Removing a key from a list without repetitions leaves a list without repetitions. */
  lemma {:induction false} WithoutKeepsDistinct(ks: seq<string>, k: string)
    requires Distinct(ks)
    ensures Distinct(Without(ks, k))
  {
    if ks != [] {
      assert Distinct(ks[1..]);
      WithoutKeepsDistinct(ks[1..], k);
      if ks[0] != k {
        var w := Without(ks[1..], k);
        assert ks[0] !in ks[1..];
        assert ks[0] !in w;
        assert Without(ks, k) == [ks[0]] + w;
      }
    }
  }

  /** The games stored under ks, in the order of ks. */
  function GamesAt(ks: seq<string>, m: map<string, Games.Game>): (r: seq<Games.Game>)
    requires forall k :: k in ks ==> k in m
    ensures |r| == |ks|
    ensures forall i :: 0 <= i < |ks| ==> r[i] == m[ks[i]]
  {
    if ks == [] then [] else [m[ks[0]]] + GamesAt(ks[1..], m)
  }

  /** A game a new player may join: not started and fewer than two seats taken. */
  predicate Joinable(g: Games.Game)
    reads g
  {
    !g.started && |g.players| < 2
  }

  /** A game one of whose players has the given id. */
  predicate HasPlayer(g: Games.Game, playerId: string)
    reads g
  {
    exists j :: 0 <= j < |g.players| && g.players[j].id == playerId
  }

  /** The joinable games of gs, in the order of gs. */
  function JoinableOf(gs: seq<Games.Game>): (r: seq<Games.Game>)
    reads gs
    ensures forall g :: g in r ==> g in gs && Joinable(g)
    ensures forall g :: g in gs && Joinable(g) ==> g in r
    ensures |r| <= |gs|
  {
    if gs == [] then []
    else if Joinable(gs[0]) then [gs[0]] + JoinableOf(gs[1..])
    else JoinableOf(gs[1..])
  }

  /** The games of gs with a player of the given id, in the order of gs. */
  function WithPlayerOf(gs: seq<Games.Game>, playerId: string): (r: seq<Games.Game>)
    reads gs
    ensures forall g :: g in r ==> g in gs && HasPlayer(g, playerId)
    ensures forall g :: g in gs && HasPlayer(g, playerId) ==> g in r
    ensures |r| <= |gs|
  {
    if gs == [] then []
    else if HasPlayer(gs[0], playerId) then [gs[0]] + WithPlayerOf(gs[1..], playerId)
    else WithPlayerOf(gs[1..], playerId)
  }

  /** Listing the joinable games of two runs one after the other keeps the order of
      both; together with the one-game case this fixes the order and the repeats. */
  lemma {:induction false} JoinableOfAppend(a: seq<Games.Game>, b: seq<Games.Game>)
    ensures JoinableOf(a + b) == JoinableOf(a) + JoinableOf(b)
  {
    if a != [] {
      var ab := a + b;
      assert ab[0] == a[0] && ab[1..] == a[1..] + b;
      JoinableOfAppend(a[1..], b);
    } else {
      assert a + b == b;
    }
  }

  /** Listing the games with a player of two runs one after the other keeps the order
      of both. */
  lemma {:induction false} WithPlayerOfAppend(a: seq<Games.Game>, b: seq<Games.Game>, playerId: string)
    ensures WithPlayerOf(a + b, playerId) == WithPlayerOf(a, playerId) + WithPlayerOf(b, playerId)
  {
    if a != [] {
      var ab := a + b;
      assert ab[0] == a[0] && ab[1..] == a[1..] + b;
      WithPlayerOfAppend(a[1..], b, playerId);
    } else {
      assert a + b == b;
    }
  }

  /** A game whose own fields and whose players' fields are as they were has the same
      snapshot. */
  twostate lemma SnapshotKept(g: Games.Game)
    requires old(|g.players|) <= 2 && unchanged(g)
    requires forall p :: p in g.players ==> unchanged(p)
    ensures g.Snapshot() == old(g.Snapshot())
  {
    var ps := g.players;
    if |ps| >= 1 {
      assert ps[0] in g.players;
    }
    if |ps| == 2 {
      assert ps[1] in g.players;
    }
    assert Games.States(ps) == old(Games.States(ps));
  }

  /** A manager whose maps are as they were, and whose games each keep their player
      objects and stay well formed, is still valid. */
  twostate lemma ValidKept(m: GameManager)
    requires old(m.Valid())
    requires m.games == old(m.games) && m.order == old(m.order) && m.playerGameMap == old(m.playerGameMap)
    requires m.owner == old(m.owner)
    requires forall k :: k in m.games ==> m.games[k].players == old(m.games[k].players) && m.games[k].Valid()
    ensures m.Valid()
  {
  }

  class GameManager {
    var games: map<string, Games.Game>
    var order: seq<string>
    var playerGameMap: map<string, string>
    /** The id of the game each seated player object was created to join. */
    ghost var owner: map<Players.PlayerModel, string>

    /** Every game is stored under its own id and is well formed, no id is empty, two
        games never share a player object (each seated player is owned by its game),
        and `order` lists each stored id once. */
    ghost predicate Valid()
      reads this, games.Values
    {
      && (forall k :: k in games ==> games[k].id == k && k != "" && games[k].Valid())
      && (forall k :: k in games ==> forall p :: p in games[k].players ==> p in owner && owner[p] == k)
      && (forall p :: p in playerGameMap ==> playerGameMap[p] != "")
      && Distinct(order)
      && (forall k :: k in games ==> k in order)
      && (forall k :: k in order ==> k in games)
    }

    constructor ()
      ensures Valid() && games == map[] && order == [] && playerGameMap == map[]
    {
      games := map[];
      order := [];
      playerGameMap := map[];
      owner := map[];
    }

    /** Creates a game with the id rendered from idNumber and stores it under that id,
        replacing a game already stored there. */
    method CreateGame(idNumber: int) returns (game: Games.Game)
      requires Valid() && 1000 <= idNumber <= 9999
      modifies this
      ensures Valid() && fresh(game) && game.Valid()
      ensures game.Snapshot() == GameRules.NewGame(idNumber)
      ensures games == old(games)[game.id := game] && GetGame(game.id) == Some(game)
      ensures playerGameMap == old(playerGameMap)
      ensures order == if game.id in old(games) then old(order) else old(order) + [game.id]
    {
      game := new Games.Game(idNumber);
      if game.id !in games {
        order := order + [game.id];
      }
      games := games[game.id := game];
    }

    /** The game stored under gameId, if any. */
    function GetGame(gameId: string): (r: Option<Games.Game>)
      reads this
      ensures r.Some? <==> gameId in games
      ensures r.Some? ==> r.value == games[gameId]
    {
      if gameId in games then Some(games[gameId]) else None
    }

    /** The game the player was last mapped to, if that id is still stored. */
    function GetPlayerGame(playerId: string): (r: Option<Games.Game>)
      reads this
      ensures r.Some? ==> playerId in playerGameMap && playerGameMap[playerId] in games
                          && r.value == games[playerGameMap[playerId]]
      ensures playerId !in playerGameMap ==> r.None?
      ensures playerId in playerGameMap && playerGameMap[playerId] != "" && playerGameMap[playerId] in games
              ==> r == Some(games[playerGameMap[playerId]])
    {
      if playerId in playerGameMap && playerGameMap[playerId] != "" then GetGame(playerGameMap[playerId])
      else None
    }

    /** Seats a new player with the given deck in the game stored under gameId; the
        player is mapped to that game only when seating succeeds. */
    method AddPlayerToGame(gameId: string, playerId: string, username: string, deck: seq<Card>)
      returns (success: bool)
      requires Valid()
      modifies this, games.Values
      ensures Valid() && games == old(games) && order == old(order)
      ensures gameId !in games ==> !success
      ensures playerGameMap == if success then old(playerGameMap)[playerId := gameId] else old(playerGameMap)
      ensures gameId in games ==>
                (games[gameId].Snapshot(), success)
                == GameRules.AddPlayer(old(games[gameId].Snapshot()),
                                       PlayerState(playerId, username, deck, [], [], [], [], [], 0, false))
      ensures forall k :: k in games && k != gameId ==> unchanged(games[k])
    {
      var game := GetGame(gameId);
      if game.None? {
        return false;
      }
      var player := new Players.PlayerModel(playerId, username, deck);
      success := Seat(gameId, player);
      ghost var seated := games[gameId].Snapshot();
      if success {
        Record(playerId, gameId);
      }
      assert games[gameId].Snapshot() == seated;
    }

    /** Seats the player object, held by no game yet, in the game stored under gameId,
        which becomes its owner; every other game stays as it was. */
    method Seat(gameId: string, player: Players.PlayerModel) returns (success: bool)
      requires Valid() && gameId in games
      requires forall k :: k in games ==> player !in games[k].players
      modifies this`owner, games[gameId]
      ensures Valid() && owner == old(owner)[player := gameId]
      ensures (games[gameId].Snapshot(), success) == GameRules.AddPlayer(old(games[gameId].Snapshot()), player.ToJSON())
      ensures forall k :: k in games && k != gameId ==> unchanged(games[k])
    {
      owner := owner[player := gameId];
      var g := games[gameId];
      success := g.AddPlayer(player);
    }

    /** Maps the player id to the stored game gameId; nothing else changes. */
    method Record(playerId: string, gameId: string)
      requires Valid() && gameId in games
      modifies this`playerGameMap
      ensures Valid()
      ensures playerGameMap == old(playerGameMap)[playerId := gameId]
    {
      playerGameMap := playerGameMap[playerId := gameId];
    }

    /** Starts the game stored under gameId; see Games.Game.Start. */
    method StartGame(gameId: string, first: nat, choices0: seq<nat>, choices1: seq<nat>) returns (ok: bool)
      requires Valid() && first <= 1
      modifies games.Values, if gameId in games then games[gameId].players else []
      ensures Valid()
      ensures gameId !in games ==> !ok
      ensures gameId in games ==>
                (games[gameId].Snapshot(), ok) == GameRules.Start(old(games[gameId].Snapshot()), first, choices0, choices1)
      ensures forall k :: k in games && k != gameId ==> unchanged(games[k])
      ensures forall k :: k in games && k != gameId ==>
                games[k].players == old(games[k].players) && games[k].Snapshot() == old(games[k].Snapshot())
    {
      var game := GetGame(gameId);
      if game.None? {
        return false;
      }
      var g := game.value;
      ok := g.Start(first, choices0, choices1);
      forall k | k in games && k != gameId
        ensures unchanged(games[k]) && games[k].Snapshot() == old(games[k].Snapshot())
      {
        assert games[k] != g && forall p :: p in games[k].players ==> p !in g.players;
        SnapshotKept(games[k]);
      }
      ValidKept(this);
    }

    /** Removes the game stored under gameId and the player mapping of each of its
        players; false when no game is stored there. */
    method EndGame(gameId: string) returns (ok: bool)
      requires Valid()
      modifies this
      ensures Valid()
      ensures ok <==> gameId in old(games)
      ensures !ok ==> games == old(games) && playerGameMap == old(playerGameMap) && order == old(order)
      ensures ok ==> games == old(games) - {gameId}
                     && playerGameMap == old(playerGameMap) - PlayerIds(old(games[gameId].players))
                     && order == Without(old(order), gameId)
    {
      var game := GetGame(gameId);
      if game.None? {
        return false;
      }
      var ps := game.value.players;
      for i := 0 to |ps|
        invariant playerGameMap == old(playerGameMap) - PlayerIds(ps[..i])
        invariant forall p :: p in playerGameMap ==> playerGameMap[p] != ""
        invariant games == old(games) && order == old(order) && owner == old(owner)
      {
        assert ps[..i + 1] == ps[..i] + [ps[i]];
        playerGameMap := playerGameMap - {ps[i].id};
      }
      assert ps[..|ps|] == ps;
      games := games - {gameId};
      WithoutKeepsDistinct(order, gameId);
      order := Without(order, gameId);
      return true;
    }

    /** Every stored game, in the order its id was first stored. */
    function GetAllGames(): (r: seq<Games.Game>)
      requires Valid()
      reads this, games.Values
      ensures |r| == |order|
      ensures forall g :: g in r ==> g in games.Values
      ensures forall g :: g in games.Values ==> g in r
      ensures forall i :: 0 <= i < |r| ==> r[i].id == order[i]
    {
      GamesAt(order, games)
    }

    /** The stored games that are not started and have a free seat. */
    function GetJoinableGames(): (r: seq<Games.Game>)
      requires Valid()
      reads this, games.Values
      ensures forall g :: g in r ==> g in games.Values && !g.started && |g.players| < 2
      ensures forall g :: g in games.Values && !g.started && |g.players| < 2 ==> g in r
    {
      JoinableOf(GetAllGames())
    }

    /** The stored games in which some player has the given id. */
    function GetPlayerGames(playerId: string): (r: seq<Games.Game>)
      requires Valid()
      reads this, games.Values
      ensures forall g :: g in r ==> g in games.Values && HasPlayer(g, playerId)
      ensures forall g :: g in games.Values && HasPlayer(g, playerId) ==> g in r
    {
      WithPlayerOf(GetAllGames(), playerId)
    }
  }
}
