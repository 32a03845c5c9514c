/** client/src/hooks/useGame.ts: the client's legality predicates over the game state the
    server sends. A missing game state is `None`. */
module UseGame {
  import opened Types

  /** The viewer's own player and an opposing player, each possibly absent. */
  datatype Perspective = Perspective(me: Option<PlayerState>, opponent: Option<PlayerState>)

  /** The cards an attacker may target, and whether it may attack the player. */
  datatype Targets = Targets(validTargets: seq<FieldCard>, canAttackPlayer: bool)

  /** A technique as the client shows it, with the defaults filled in. */
  datatype TechniqueInfo = TechniqueInfo(name: string, attack: int, effect: string)

  /** The first position whose player id equals id (when same) or differs from it (when
      not same), or -1. */
  function FindSeat(ps: seq<PlayerState>, id: string, same: bool): (k: int)
    ensures -1 <= k < |ps|
    ensures k == -1 <==> forall j :: 0 <= j < |ps| ==> (ps[j].id == id) != same
    ensures k >= 0 ==> (ps[k].id == id) == same && forall j :: 0 <= j < k ==> (ps[j].id == id) != same
  {
    if ps == [] then -1
    else if (ps[0].id == id) == same then 0
    else
      var k := FindSeat(ps[1..], id, same);
      if k == -1 then -1 else k + 1
  }

  /** `me` is the first player with the viewer's id, `opponent` the first with another
      id; both are absent without a game state. */
  function GetPlayerPerspective(gameState: Option<GameState>, playerId: string): (r: Perspective)
    ensures gameState.None? ==> r == Perspective(None, None)
    ensures r.me.Some? ==> gameState.Some? && r.me.value in gameState.value.players && r.me.value.id == playerId
    ensures r.opponent.Some? ==> gameState.Some? && r.opponent.value in gameState.value.players
                                 && r.opponent.value.id != playerId
    ensures gameState.Some? && (exists j :: 0 <= j < |gameState.value.players| && gameState.value.players[j].id == playerId)
            ==> r.me.Some?
    ensures gameState.Some? && (exists j :: 0 <= j < |gameState.value.players| && gameState.value.players[j].id != playerId)
            ==> r.opponent.Some?
    ensures r.me.Some? ==>
              var ps := gameState.value.players;
              exists k :: 0 <= k < |ps| && ps[k] == r.me.value && forall j :: 0 <= j < k ==> ps[j].id != playerId
    ensures r.opponent.Some? ==>
              var ps := gameState.value.players;
              exists k :: 0 <= k < |ps| && ps[k] == r.opponent.value && forall j :: 0 <= j < k ==> ps[j].id == playerId
  {
    match gameState
    case None => Perspective(None, None)
    case Some(s) =>
      var m := FindSeat(s.players, playerId, true);
      var o := FindSeat(s.players, playerId, false);
      Perspective(if m == -1 then None else Some(s.players[m]),
                  if o == -1 then None else Some(s.players[o]))
  }

  /** The player at the current index has the viewer's id; an index outside the
      players holds nobody. */
  predicate IsMyTurn(gameState: Option<GameState>, playerId: string)
  {
    gameState.Some? && 0 <= gameState.value.currentPlayerIndex < |gameState.value.players|
    && gameState.value.players[gameState.value.currentPlayerIndex].id == playerId
  }

  /** A card can be played on the viewer's turn in the main phase when its cost is at
      most the viewer's food. */
  predicate CanPlayCard(gameState: Option<GameState>, playerId: string, card: Card)
  {
    if !IsMyTurn(gameState, playerId) || gameState.value.phase != MainPhase then false
    else
      var me := GetPlayerPerspective(gameState, playerId).me;
      me.Some? && card.cost <= me.value.currentFood
  }

  predicate CanSetFood(gameState: Option<GameState>, playerId: string)
  {
    IsMyTurn(gameState, playerId) && gameState.value.phase == SetPhase
  }

  predicate CanSkipSetPhase(gameState: Option<GameState>, playerId: string)
  {
    IsMyTurn(gameState, playerId) && gameState.value.phase == SetPhase
  }

  /** An attacker can attack on the viewer's turn in the main phase unless it has
      attacked. */
  predicate CanAttack(gameState: Option<GameState>, playerId: string, attacker: FieldCard)
  {
    IsMyTurn(gameState, playerId) && gameState.value.phase == MainPhase && !attacker.hasAttacked
  }

  /** A turn can be ended in any phase. */
  predicate CanEndTurn(gameState: Option<GameState>, playerId: string)
  {
    IsMyTurn(gameState, playerId)
  }

  /** The opposing field when the attacker can attack and there is an opponent; the
      player can be attacked exactly when that field is empty. */
  function GetValidTargets(gameState: Option<GameState>, playerId: string, attacker: FieldCard): (r: Targets)
    ensures !CanAttack(gameState, playerId, attacker) ==> r == Targets([], false)
    ensures r.canAttackPlayer ==> r.validTargets == []
    ensures r.validTargets != [] || r.canAttackPlayer ==>
              CanAttack(gameState, playerId, attacker)
              && var o := GetPlayerPerspective(gameState, playerId).opponent;
                 o.Some? && r.validTargets == o.value.field
    ensures CanAttack(gameState, playerId, attacker) && GetPlayerPerspective(gameState, playerId).opponent.Some? ==>
              r.validTargets == GetPlayerPerspective(gameState, playerId).opponent.value.field
              && (r.canAttackPlayer <==> r.validTargets == [])
    ensures GetPlayerPerspective(gameState, playerId).opponent.None? ==> r == Targets([], false)
  {
    if !CanAttack(gameState, playerId, attacker) then Targets([], false)
    else
      var o := GetPlayerPerspective(gameState, playerId).opponent;
      if o.None? then Targets([], false)
      else Targets(o.value.field, |o.value.field| == 0)
  }

  /** A technique can be used when the attacker can attack and the index names one of
      its techniques. */
  predicate CanUseTechnique(gameState: Option<GameState>, playerId: string, attacker: FieldCard, techniqueIndex: int)
  {
    CanAttack(gameState, playerId, attacker)
    && attacker.card.techniques.Some?
    && 0 <= techniqueIndex < |attacker.card.techniques.value|
  }

  /** The technique at the index with attack 0 and effect "" when they are missing,
      or None when the index names no technique. */
  function GetTechniqueInfo(card: Card, techniqueIndex: int): (r: Option<TechniqueInfo>)
    ensures r.Some? <==> card.techniques.Some? && 0 <= techniqueIndex < |card.techniques.value|
    ensures r.Some? ==>
              var t := card.techniques.value[techniqueIndex];
              && r.value.name == t.name
              && r.value.attack == (if t.attack.Some? then t.attack.value else 0)
              && r.value.effect == (if t.effect.Some? then t.effect.value else "")
  {
    if card.techniques.None? || techniqueIndex >= |card.techniques.value| || techniqueIndex < 0 then None
    else
      var t := card.techniques.value[techniqueIndex];
      Some(TechniqueInfo(t.name,
                         match t.attack case Some(a) => a case None => 0,
                         match t.effect case Some(e) => e case None => ""))
  }

  /** Every client check that guards an action demands the viewer's turn, and the
      phase checks of the set and main phases exclude each other. */
  lemma GatesNeedTurn(gameState: Option<GameState>, playerId: string, card: Card, attacker: FieldCard, ti: int)
    ensures CanPlayCard(gameState, playerId, card) ==> IsMyTurn(gameState, playerId)
    ensures CanUseTechnique(gameState, playerId, attacker, ti) ==> CanAttack(gameState, playerId, attacker)
    ensures CanAttack(gameState, playerId, attacker) ==> CanEndTurn(gameState, playerId) && !CanSetFood(gameState, playerId)
    ensures CanSetFood(gameState, playerId) <==> CanSkipSetPhase(gameState, playerId)
    ensures CanPlayCard(gameState, playerId, card) ==> !CanSetFood(gameState, playerId)
  {
  }
}
