/** server/src/models/Game.ts: a game object holding two PlayerModel objects and the turn
    state. Every method is proved to leave the game, seen through Snapshot, in exactly
    the state the matching GameRules function computes from the state before the call. */
module Games {
  import opened Types
  import GameRules
  import PlayerRules
  import Players

  /** The serialised players, in seat order. */
  function States(ps: seq<Players.PlayerModel>): (r: seq<PlayerState>)
    requires |ps| <= 2
    reads ps
    ensures |r| == |ps|
  {
    if |ps| == 0 then [] else if |ps| == 1 then [ps[0].ToJSON()] else [ps[0].ToJSON(), ps[1].ToJSON()]
  }

  /** The seat of player w, the first position holding it, or None for no player. */
  function SeatOfObject(ps: seq<Players.PlayerModel>, w: Players.PlayerModel?): (r: Option<nat>)
    ensures r.Some? ==> r.value < |ps| && ps[r.value] == w
    ensures r.None? ==> w !in ps
  {
    if w == null || ps == [] then None
    else if ps[0] == w then Some(0)
    else
      match SeatOfObject(ps[1..], w)
      case Some(k) => Some(k + 1)
      case None => None
  }

  class Game {
    const id: string
    var players: seq<Players.PlayerModel>
    var currentPlayerIndex: int
    var phase: Phase
    var turn: int
    var winner: Players.PlayerModel?
    var lastAction: Option<Action>
    var started: bool
    var ended: bool

    /** At most two distinct players, the turn index is a seat, a winner is one of
        the players, and a game with fewer than two players is in its draw phase. */
    predicate Valid()
      reads this
    {
      |players| <= 2 && (|players| == 2 ==> players[0] != players[1])
      && 0 <= currentPlayerIndex < 2
      && (winner != null ==> winner in players)
      && (|players| < 2 ==> phase == DrawPhase)
    }

    /** The game as a value: each player's state and the winner's seat. */
    function Snapshot(): GameRules.GameRecord
      requires |players| <= 2
      reads this, players
    {
      GameRules.GameRecord(id, States(players), currentPlayerIndex, phase, turn, SeatOfObject(players, winner),
                 lastAction, started, ended)
    }

    /** A new game with the given four-digit id: no players, draw phase of turn 1. */
    constructor (idNumber: int)
      requires 1000 <= idNumber <= 9999
      ensures Valid() && Snapshot() == GameRules.NewGame(idNumber)
    {
      id := GameRules.DecimalString(idNumber);
      players := [];
      currentPlayerIndex := 0;
      phase := DrawPhase;
      turn := 1;
      winner := null;
      lastAction := None;
      started := false;
      ended := false;
    }

    /** Seats the player unless two are seated or the game has started. */
    method AddPlayer(player: Players.PlayerModel) returns (added: bool)
      requires Valid() && player !in players
      modifies this
      ensures Valid()
      ensures players == if added then old(players) + [player] else old(players)
      ensures (Snapshot(), added) == GameRules.AddPlayer(old(Snapshot()), player.ToJSON())
    {
      if |players| >= 2 || started {
        return false;
      }
      players := players + [player];
      assert States(players) == old(States(players)) + [player.ToJSON()];
      assert SeatOfObject(players, winner) == SeatOfObject(old(players), winner) by {
        SeatOfAppend(old(players), player, winner);
      }
      return true;
    }

    /** Starts a two-player game: both players make their opening deal, `first` moves
        first, and the game enters the set phase. */
    method Start(first: nat, choices0: seq<nat>, choices1: seq<nat>) returns (ok: bool)
      requires Valid() && first <= 1
      modifies this, players
      ensures Valid() && players == old(players)
      ensures (Snapshot(), ok) == GameRules.Start(old(Snapshot()), first, choices0, choices1)
    {
      if |players| != 2 || started {
        return false;
      }
      players[0].Initialize(choices0);
      players[1].Initialize(choices1);
      currentPlayerIndex := first;
      started := true;
      phase := SetPhase;
      return true;
    }

    function GetCurrentPlayer(): (p: Players.PlayerModel)
      requires Valid() && |players| == 2
      reads this, players
      ensures p.ToJSON() == GameRules.Current(Snapshot())
    {
      players[currentPlayerIndex]
    }

    function GetOpponentPlayer(): (p: Players.PlayerModel)
      requires Valid() && |players| == 2
      reads this, players
      ensures p.ToJSON() == GameRules.Opponent(Snapshot())
      ensures p != GetCurrentPlayer()
    {
      players[(currentPlayerIndex + 1) % 2]
    }

    /** Advances the phase; see GameRules.NextPhase. */
    method NextPhase()
      requires Valid() && |players| == 2
      modifies this, players
      ensures Valid() && players == old(players)
      ensures Snapshot() == GameRules.NextPhase(old(Snapshot()))
    {
      match phase
      case DrawPhase =>
        phase := SetPhase;
      case SetPhase =>
        EnterMainPhase();
      case MainPhase =>
        LeaveMainPhase();
      case EndPhase =>
        currentPlayerIndex := (currentPlayerIndex + 1) % 2;
        phase := DrawPhase;
        if currentPlayerIndex == 0 {
          turn := turn + 1;
        }
    }

    /** The set-phase case of NextPhase: the main phase begins with the current player's
        food refreshed. */
    method EnterMainPhase()
      requires Valid() && |players| == 2 && phase == SetPhase
      modifies this, players
      ensures Valid() && players == old(players)
      ensures Snapshot() == GameRules.NextPhase(old(Snapshot()))
    {
      phase := MainPhase;
      players[currentPlayerIndex].UpdateFood();
      assert States(players) == old(States(players))[currentPlayerIndex := players[currentPlayerIndex].ToJSON()];
    }

    /** The main-phase case of NextPhase: the end phase begins with the current player's
        field cleared of damage and attack flags. */
    method LeaveMainPhase()
      requires Valid() && |players| == 2 && phase == MainPhase
      modifies this, players
      ensures Valid() && players == old(players)
      ensures Snapshot() == GameRules.NextPhase(old(Snapshot()))
    {
      phase := EndPhase;
      players[currentPlayerIndex].EndTurn();
      assert States(players) == old(States(players))[currentPlayerIndex := players[currentPlayerIndex].ToJSON()];
    }

    /** Processes an action from a seated player. None stands for the call throwing,
        which only a game with one seat reaches; see GameRules.ProcessActionAlone. */
    method ProcessAction(action: Action) returns (r: Option<Response>)
      requires Valid() && |players| >= 1
      modifies this, players
      ensures Valid() && players == old(players)
      ensures |players| == 2 ==> r.Some? && (Snapshot(), r.value) == GameRules.ProcessAction(old(Snapshot()), action)
      ensures |players| == 1 ==> (Snapshot(), r) == GameRules.ProcessActionAlone(old(Snapshot()), action)
    {
      if |players| == 2 {
        var response := ProcessSeated(action);
        return Some(response);
      }
      if ended {
        return Some(Fail(InvalidAction));
      }
      if currentPlayerIndex != 0 {
        return None;
      }
      if action.playerId != players[0].id {
        return Some(Fail(NotYourTurn));
      }
      match action.actionType
      case EndTurn =>
        phase := EndPhase;
        currentPlayerIndex := (currentPlayerIndex + 1) % 2;
        phase := DrawPhase;
        return None;
      case Surrender =>
        winner := null;
        ended := true;
        return Some(Ok());
      case _ =>
        return Some(Fail(InvalidAction));
    }

    /** Dispatches an action in a two-player game after the ended and turn-ownership
        checks. */
    method ProcessSeated(action: Action) returns (r: Response)
      requires Valid() && |players| == 2
      modifies this, players
      ensures Valid() && players == old(players)
      ensures (Snapshot(), r) == GameRules.ProcessAction(old(Snapshot()), action)
    {
      if ended {
        return Fail(InvalidAction);
      }
      var currentPlayer := players[currentPlayerIndex];
      if action.playerId != currentPlayer.id {
        return Fail(NotYourTurn);
      }
      ghost var g := Snapshot();
      match action.actionType
      case PlayCard =>
        assert GameRules.ProcessAction(g, action) == GameRules.HandlePlayCard(g, action);
        r := HandlePlayCard(action, currentPlayer);
      case Attack =>
        assert GameRules.ProcessAction(g, action) == GameRules.HandleAttack(g, action);
        r := HandleAttack(action, currentPlayer);
      case SetFood =>
        assert GameRules.ProcessAction(g, action) == GameRules.HandleSetFood(g, action);
        r := HandleSetFood(action, currentPlayer);
      case UseTechnique =>
        assert GameRules.ProcessAction(g, action) == GameRules.HandleUseTechnique(g, action);
        r := HandleUseTechnique(action);
      case EndTurn =>
        assert GameRules.ProcessAction(g, action) == GameRules.HandleEndTurn(g);
        r := HandleEndTurn();
      case Surrender =>
        assert GameRules.ProcessAction(g, action) == GameRules.HandleSurrender(g);
        r := HandleSurrender();
      case SkipSetPhase =>
        r := Fail(InvalidAction);
      case Unrecognized =>
        r := Fail(InvalidAction);
    }

    method HandlePlayCard(action: Action, player: Players.PlayerModel) returns (r: Response)
      requires Valid() && |players| == 2 && player == players[currentPlayerIndex]
      modifies this, players
      ensures Valid() && players == old(players)
      ensures (Snapshot(), r) == GameRules.HandlePlayCard(old(Snapshot()), action)
    {
      if phase != MainPhase {
        return Fail(InvalidAction);
      }
      var cardIndex := GameRules.HandIndex(player.hand, action.cardId);
      if cardIndex == -1 {
        return Fail(CardNotFound);
      }
      r := PlayCardFound(action, player, cardIndex);
    }

    /** The part of playing a card after it is found in the hand. */
    method PlayCardFound(action: Action, player: Players.PlayerModel, cardIndex: int) returns (r: Response)
      requires Valid() && |players| == 2 && player == players[currentPlayerIndex] && phase == MainPhase
      requires cardIndex == GameRules.HandIndex(player.hand, action.cardId) && cardIndex != -1
      modifies this, players
      ensures Valid() && players == old(players)
      ensures (Snapshot(), r) == GameRules.HandlePlayCard(old(Snapshot()), action)
    {
      ghost var g := Snapshot();
      assert GameRules.Current(g) == player.ToJSON();
      var playedCard := player.PlayCard(cardIndex);
      ghost var q := player.ToJSON();
      assert players[GameRules.Other(currentPlayerIndex)].ToJSON() == g.players[GameRules.Other(currentPlayerIndex)];
      assert States(players) == g.players[currentPlayerIndex := q];
      if playedCard.None? {
        return Fail(InsufficientFood);
      }
      lastAction := Some(action);
      PlayCardPlays(g, action, cardIndex, q);
      return Ok();
    }

    method HandleAttack(action: Action, player: Players.PlayerModel) returns (r: Response)
      requires Valid() && |players| == 2 && player == players[currentPlayerIndex]
      modifies this, players
      ensures Valid() && players == old(players)
      ensures (Snapshot(), r) == GameRules.HandleAttack(old(Snapshot()), action)
    {
      if phase != MainPhase {
        return Fail(InvalidAction);
      }
      var attackerIndex := GameRules.FieldIndex(player.field, action.cardId);
      if attackerIndex == -1 {
        return Fail(CardNotFound);
      }
      var techniqueIndex := GameRules.TechniqueChoice(action);
      var attackerCard := player.field[attackerIndex];
      if attackerCard.card.techniques.None? || techniqueIndex >= |attackerCard.card.techniques.value|
         || techniqueIndex < 0 {
        return Fail(InvalidAction);
      }
      r := AttackWith(action, player, attackerIndex, techniqueIndex);
    }

    /** The part of an attack after the checks on the attacker: the attacker is marked,
        then an attack with positive power strikes. */
    method AttackWith(action: Action, player: Players.PlayerModel, attackerIndex: int, techniqueIndex: int)
      returns (r: Response)
      requires Valid() && |players| == 2 && player == players[currentPlayerIndex] && phase == MainPhase
      requires attackerIndex == GameRules.FieldIndex(player.field, action.cardId) && attackerIndex != -1
      requires techniqueIndex == GameRules.TechniqueChoice(action)
      requires var t := player.field[attackerIndex].card.techniques;
               t.Some? && 0 <= techniqueIndex < |t.value|
      modifies this, players
      ensures Valid() && players == old(players)
      ensures (Snapshot(), r) == GameRules.HandleAttack(old(Snapshot()), action)
    {
      ghost var g := Snapshot();
      assert GameRules.Current(g) == player.ToJSON();
      var attackPower := player.Attack(attackerIndex, techniqueIndex);
      ghost var p1 := player.ToJSON();
      assert players[GameRules.Other(currentPlayerIndex)].ToJSON() == g.players[GameRules.Other(currentPlayerIndex)];
      assert States(players) == g.players[currentPlayerIndex := p1];
      AttackMarks(g, action, attackerIndex, techniqueIndex, p1, attackPower);
      assert Snapshot() == GameRules.WithPlayer(g, currentPlayerIndex, p1);
      if attackPower <= 0 {
        return Fail(InvalidAction);
      }
      r := Strike(action, attackPower, techniqueIndex);
    }

    /** The part of an attack after the attacker is marked; see GameRules.Strike. */
    method Strike(action: Action, attackPower: int, techniqueIndex: int) returns (r: Response)
      requires Valid() && |players| == 2
      modifies this, players
      ensures Valid() && players == old(players)
      ensures (Snapshot(), r) == GameRules.Strike(old(Snapshot()), action, attackPower, techniqueIndex)
    {
      if Truthy(action.targetId) {
        r := StrikeTarget(action, attackPower, techniqueIndex);
      } else {
        r := StrikeDirect(action, attackPower, techniqueIndex);
      }
    }

    /** An attack on the opposing bug named by the target id. */
    method StrikeTarget(action: Action, attackPower: int, techniqueIndex: int) returns (r: Response)
      requires Valid() && |players| == 2 && Truthy(action.targetId)
      modifies this, players
      ensures Valid() && players == old(players)
      ensures (Snapshot(), r) == GameRules.Strike(old(Snapshot()), action, attackPower, techniqueIndex)
    {
      ghost var g := Snapshot();
      var o := GameRules.Other(currentPlayerIndex);
      var opponent := players[o];
      var defenderIndex := GameRules.FieldIndex(opponent.field, action.targetId);
      if defenderIndex == -1 {
        return Fail(InvalidTarget);
      }
      assert GameRules.Opponent(g) == opponent.ToJSON();
      var _ := opponent.ReceiveDamage(defenderIndex, attackPower);
      ghost var o1 := opponent.ToJSON();
      assert players[currentPlayerIndex].ToJSON() == g.players[currentPlayerIndex];
      assert States(players) == g.players[o := o1];
      lastAction := Some(action.(actionType := Attack, techniqueIndex := Some(techniqueIndex)));
      StrikeHits(g, action, attackPower, techniqueIndex, defenderIndex, o1);
      return Ok();
    }

    /** An attack on the opposing player, allowed only when its field is empty: it
        removes the last territory card, or wins the game when there is none. */
    method StrikeDirect(action: Action, attackPower: int, techniqueIndex: int) returns (r: Response)
      requires Valid() && |players| == 2 && !Truthy(action.targetId)
      modifies this, players
      ensures Valid() && players == old(players)
      ensures (Snapshot(), r) == GameRules.Strike(old(Snapshot()), action, attackPower, techniqueIndex)
    {
      var opponent := players[GameRules.Other(currentPlayerIndex)];
      if |opponent.field| > 0 {
        return Fail(InvalidTarget);
      }
      if |opponent.territory| > 0 {
        TakeTerritory(action, attackPower, techniqueIndex);
      } else {
        ghost var g := Snapshot();
        winner := players[currentPlayerIndex];
        ended := true;
        assert SeatOfObject(players, winner) == Some(currentPlayerIndex);
        StrikeWins(g, action, attackPower, techniqueIndex);
        lastAction := Some(action.(actionType := Attack, techniqueIndex := Some(techniqueIndex)));
      }
      return Ok();
    }

    /** A direct attack on an empty field removes the opponent's last territory card. */
    method TakeTerritory(action: Action, attackPower: int, techniqueIndex: int)
      requires Valid() && |players| == 2 && !Truthy(action.targetId)
      requires |players[GameRules.Other(currentPlayerIndex)].field| == 0
      requires |players[GameRules.Other(currentPlayerIndex)].territory| > 0
      modifies this, players
      ensures Valid() && players == old(players)
      ensures (Snapshot(), Ok()) == GameRules.Strike(old(Snapshot()), action, attackPower, techniqueIndex)
    {
      ghost var g := Snapshot();
      var o := GameRules.Other(currentPlayerIndex);
      var opponent := players[o];
      assert GameRules.Opponent(g) == opponent.ToJSON();
      opponent.territory := opponent.territory[..|opponent.territory| - 1];
      ghost var o1 := opponent.ToJSON();
      assert players[currentPlayerIndex].ToJSON() == g.players[currentPlayerIndex];
      assert States(players) == g.players[o := o1];
      StrikePops(g, action, attackPower, techniqueIndex, o1);
      lastAction := Some(action.(actionType := Attack, techniqueIndex := Some(techniqueIndex)));
    }

    method HandleSetFood(action: Action, player: Players.PlayerModel) returns (r: Response)
      requires Valid() && |players| == 2 && player == players[currentPlayerIndex]
      modifies this, players
      ensures Valid() && players == old(players)
      ensures (Snapshot(), r) == GameRules.HandleSetFood(old(Snapshot()), action)
    {
      if phase != SetPhase {
        return Fail(InvalidAction);
      }
      var cardIndex := GameRules.HandIndex(player.hand, action.cardId);
      if cardIndex == -1 {
        return Fail(CardNotFound);
      }
      SetFoodFound(action, player, cardIndex);
      return Ok();
    }

    /** The part of setting food after the card is found in the hand. */
    method SetFoodFound(action: Action, player: Players.PlayerModel, cardIndex: int)
      requires Valid() && |players| == 2 && player == players[currentPlayerIndex] && phase == SetPhase
      requires cardIndex == GameRules.HandIndex(player.hand, action.cardId) && cardIndex != -1
      modifies this, players
      ensures Valid() && players == old(players)
      ensures (Snapshot(), Ok()) == GameRules.HandleSetFood(old(Snapshot()), action)
    {
      ghost var g := Snapshot();
      assert GameRules.Current(g) == player.ToJSON();
      var setCard := player.SetFood(cardIndex);
      if setCard.None? {
        // The index was found in the hand, so setting food cannot fail here.
        assert false;
      }
      lastAction := Some(action);
      ghost var q := player.ToJSON();
      assert players[GameRules.Other(currentPlayerIndex)].ToJSON() == g.players[GameRules.Other(currentPlayerIndex)];
      ghost var g1 := GameRules.WithPlayer(g, currentPlayerIndex, q).(lastAction := Some(action));
      assert Snapshot() == g1 by {
        assert States(players) == g.players[currentPlayerIndex := q];
      }
      SetFoodMoves(g, action, cardIndex, q);
      NextPhase();
    }

    /** Records the action in the main phase; a technique has no other effect. */
    method HandleUseTechnique(action: Action) returns (r: Response)
      requires Valid() && |players| == 2
      modifies this
      ensures Valid() && players == old(players)
      ensures (Snapshot(), r) == GameRules.HandleUseTechnique(old(Snapshot()), action)
    {
      if phase != MainPhase {
        return Fail(InvalidAction);
      }
      lastAction := Some(action);
      return Ok();
    }

    method HandleEndTurn() returns (r: Response)
      requires Valid() && |players| == 2
      modifies this, players
      ensures Valid() && players == old(players)
      ensures (Snapshot(), r) == GameRules.HandleEndTurn(old(Snapshot()))
    {
      phase := EndPhase;
      NextPhase();
      DrawForTurn();
      NextPhase();
      return Ok();
    }

    /** The draw step of ending a turn; see GameRules.TurnDraw. */
    method DrawForTurn()
      requires Valid() && |players| == 2
      modifies this, players
      ensures Valid() && players == old(players)
      ensures Snapshot() == GameRules.TurnDraw(old(Snapshot()))
    {
      if !(turn == 1 && currentPlayerIndex == 0) {
        var currentPlayer := players[currentPlayerIndex];
        var drawnCard := currentPlayer.DrawCard();
        assert States(players) == old(States(players))[currentPlayerIndex := currentPlayer.ToJSON()];
        if drawnCard.None? {
          CheckDeckOutWinner();
        }
      }
    }

    /** The opponent of the player whose turn it is wins. */
    method HandleSurrender() returns (r: Response)
      requires Valid() && |players| == 2
      modifies this
      ensures Valid() && players == old(players)
      ensures (Snapshot(), r) == GameRules.HandleSurrender(old(Snapshot()))
    {
      winner := players[(currentPlayerIndex + 1) % 2];
      ended := true;
      return Ok();
    }

    /** Ends the game; the player with strictly more territory wins, a tie leaves the
        winner as it was. */
    method CheckDeckOutWinner()
      requires Valid() && |players| == 2
      modifies this
      ensures Valid() && players == old(players)
      ensures Snapshot() == GameRules.CheckDeckOutWinner(old(Snapshot()))
    {
      var player1Territory := |players[0].territory|;
      var player2Territory := |players[1].territory|;
      if player1Territory > player2Territory {
        winner := players[0];
      } else if player2Territory > player1Territory {
        winner := players[1];
      }
      ended := true;
    }

    /** The game as every client receives it. */
    function ToJSON(): (s: GameState)
      requires Valid()
      reads this, players
      ensures s == GameRules.View(Snapshot())
    {
      GameState(id, States(players), currentPlayerIndex, phase, turn,
                if winner != null then Some(winner.ToJSON()) else None,
                lastAction, started)
    }

    /** The game as one player sees it; None where the server throws. */
    function ToJSONForPlayer(playerId: string): (v: Option<GameState>)
      requires Valid()
      reads this, players
      ensures v == GameRules.ViewFor(Snapshot(), playerId)
    {
      var playerIndex := GameRules.SeatOf(States(players), playerId);
      if playerIndex == -1 || !(0 <= 1 - playerIndex < |players|) then None
      else
        var player := players[playerIndex];
        var opponent := players[1 - playerIndex];
        Some(GameState(id, [player.ToJSON(), opponent.ToJSON()],
                       if currentPlayerIndex == playerIndex then 0 else 1,
                       phase, turn, None, None, started))
    }
  }

  // Single outcomes of GameRules.Strike, stated on values for the Strike method.

  lemma StrikeHits(g: GameRules.GameRecord, a: Action, power: int, ti: int, di: int, o1: PlayerState)
    requires GameRules.Seated(g) && Truthy(a.targetId)
    requires di == GameRules.FieldIndex(GameRules.Opponent(g).field, a.targetId) && di != -1
    requires o1 == PlayerRules.ReceiveDamage(GameRules.Opponent(g), di, power).0
    ensures GameRules.Strike(g, a, power, ti)
            == (GameRules.WithPlayer(g, GameRules.Other(g.currentPlayerIndex), o1)
                  .(lastAction := Some(a.(actionType := Attack, techniqueIndex := Some(ti)))), Ok())
  {
  }

  lemma StrikePops(g: GameRules.GameRecord, a: Action, power: int, ti: int, o1: PlayerState)
    requires GameRules.Seated(g) && !Truthy(a.targetId)
    requires var o := GameRules.Opponent(g);
             |o.field| == 0 && |o.territory| > 0 && o1 == o.(territory := o.territory[..|o.territory| - 1])
    ensures GameRules.Strike(g, a, power, ti)
            == (GameRules.WithPlayer(g, GameRules.Other(g.currentPlayerIndex), o1)
                  .(lastAction := Some(a.(actionType := Attack, techniqueIndex := Some(ti)))), Ok())
  {
  }

  lemma StrikeWins(g: GameRules.GameRecord, a: Action, power: int, ti: int)
    requires GameRules.Seated(g) && !Truthy(a.targetId)
    requires |GameRules.Opponent(g).field| == 0 && |GameRules.Opponent(g).territory| == 0
    ensures GameRules.Strike(g, a, power, ti)
            == (g.(winner := Some(g.currentPlayerIndex), ended := true,
                   lastAction := Some(a.(actionType := Attack, techniqueIndex := Some(ti)))), Ok())
  {
  }

  // The successful outcomes of setting food and of marking an attacker, on values.

  lemma SetFoodMoves(g: GameRules.GameRecord, a: Action, k: int, q: PlayerState)
    requires GameRules.Seated(g) && g.phase == SetPhase
    requires k == GameRules.HandIndex(GameRules.Current(g).hand, a.cardId) && k != -1
    requires PlayerRules.SetFood(GameRules.Current(g), k).1.Some?
    requires q == PlayerRules.SetFood(GameRules.Current(g), k).0
    ensures GameRules.HandleSetFood(g, a)
            == (GameRules.NextPhase(GameRules.WithPlayer(g, g.currentPlayerIndex, q).(lastAction := Some(a))), Ok())
  {
  }

  lemma PlayCardPlays(g: GameRules.GameRecord, a: Action, k: int, q: PlayerState)
    requires GameRules.Seated(g) && g.phase == MainPhase
    requires k == GameRules.HandIndex(GameRules.Current(g).hand, a.cardId) && k != -1
    requires PlayerRules.PlayCard(GameRules.Current(g), k).1.Some?
    requires q == PlayerRules.PlayCard(GameRules.Current(g), k).0
    ensures GameRules.HandlePlayCard(g, a)
            == (GameRules.WithPlayer(g, g.currentPlayerIndex, q).(lastAction := Some(a)), Ok())
  {
  }

  lemma AttackMarks(g: GameRules.GameRecord, a: Action, ai: int, ti: int, p1: PlayerState, power: int)
    requires GameRules.Seated(g) && g.phase == MainPhase
    requires ai == GameRules.FieldIndex(GameRules.Current(g).field, a.cardId) && ai != -1
    requires ti == GameRules.TechniqueChoice(a)
    requires var t := GameRules.Current(g).field[ai].card.techniques;
             t.Some? && 0 <= ti < |t.value|
    requires (p1, power) == PlayerRules.Attack(GameRules.Current(g), ai, ti)
    ensures var g1 := GameRules.WithPlayer(g, g.currentPlayerIndex, p1);
            GameRules.HandleAttack(g, a)
            == if power <= 0 then (g1, Fail(InvalidAction)) else GameRules.Strike(g1, a, power, ti)
  {
  }

  lemma SeatOfAppend(ps: seq<Players.PlayerModel>, p: Players.PlayerModel, w: Players.PlayerModel?)
    requires w == null || w in ps
    ensures SeatOfObject(ps + [p], w) == SeatOfObject(ps, w)
  {
    if w != null && ps[0] != w {
      assert (ps + [p])[1..] == ps[1..] + [p];
      SeatOfAppend(ps[1..], p, w);
    }
  }
}
