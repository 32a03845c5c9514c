/** Properties that tie the client's predicates (client/src/hooks/useGame.ts) and the
    validators (server/src/utils/validators.ts) to the server's action processing
    (server/src/models/Game.ts). */
module CrossChecks {
  import opened Types
  import GameRules
  import UseGame
  import Validators
  import DeckRules
  import CardService

  /** The two seats hold different player ids. */
  predicate DistinctIds(g: GameRules.GameRecord)
    requires GameRules.Seated(g)
  {
    g.players[0].id != g.players[1].id
  }

  /** Whose turn it is reads the same on the view every client receives and on the
      view built for the asking player. */
  lemma IsMyTurnOnBothViews(g: GameRules.GameRecord, playerId: string)
    requires GameRules.Seated(g)
    ensures UseGame.IsMyTurn(Some(GameRules.View(g)), playerId)
            == UseGame.IsMyTurn(GameRules.ViewFor(g, playerId), playerId)
    ensures UseGame.IsMyTurn(Some(GameRules.View(g)), playerId) <==> GameRules.Current(g).id == playerId
  {
    var k := GameRules.SeatOf(g.players, playerId);
    if k != -1 {
      assert g.currentPlayerIndex != k ==> g.currentPlayerIndex == 1 - k;
    }
  }

  /** For a card the current player holds (the first in hand with its id), the client
      allows playing it exactly when the server accepts playing it. */
  lemma PlayCardGateAgrees(g: GameRules.GameRecord, a: Action, card: Card)
    requires GameRules.Seated(g) && DistinctIds(g) && !g.ended
    requires a.actionType == PlayCard && a.cardId == Some(card.id)
    requires var k := GameRules.HandIndex(GameRules.Current(g).hand, a.cardId);
             k >= 0 && GameRules.Current(g).hand[k] == card
    ensures UseGame.CanPlayCard(Some(GameRules.View(g)), a.playerId, card)
            <==> GameRules.ProcessAction(g, a).1.success
  {
    var i := g.currentPlayerIndex;
    if a.playerId == GameRules.Current(g).id {
      assert UseGame.FindSeat(g.players, a.playerId, true) == i;
    }
  }

  /** For a card the current player holds, the client allows setting it as food
      exactly when the server accepts it. */
  lemma SetFoodGateAgrees(g: GameRules.GameRecord, a: Action)
    requires GameRules.Seated(g) && !g.ended
    requires a.actionType == SetFood
    requires GameRules.HandIndex(GameRules.Current(g).hand, a.cardId) >= 0
    ensures UseGame.CanSetFood(Some(GameRules.View(g)), a.playerId)
            <==> GameRules.ProcessAction(g, a).1.success
  {
  }

  /** In a game that has not ended, the client allows ending the turn exactly when the
      server accepts it; the client does not see whether the game has ended. */
  lemma EndTurnGateAgrees(g: GameRules.GameRecord, a: Action)
    requires GameRules.Seated(g)
    requires a.actionType == EndTurn
    ensures !g.ended ==>
              (UseGame.CanEndTurn(Some(GameRules.View(g)), a.playerId) <==> GameRules.ProcessAction(g, a).1.success)
    ensures g.ended ==> !GameRules.ProcessAction(g, a).1.success
  {
  }

  /** An attack the server accepts used an attacker and a technique the client would
      have offered. The converse does not hold: the server also rejects a technique
      that attacks for nothing and a missing target. */
  lemma AttackAcceptedWasOffered(g: GameRules.GameRecord, a: Action)
    requires GameRules.Seated(g)
    requires a.actionType == Attack
    requires GameRules.ProcessAction(g, a).1.success
    ensures var k := GameRules.FieldIndex(GameRules.Current(g).field, a.cardId);
            k >= 0
            && UseGame.CanUseTechnique(Some(GameRules.View(g)), a.playerId,
                                       GameRules.Current(g).field[k], GameRules.TechniqueChoice(a))
  {
  }

  /** The client offers to skip the set phase whenever it is the viewer's set phase,
      and the validator accepts the action, but the server rejects every skip and
      leaves the game as it was. */
  lemma SkipSetPhaseOfferedButRejected(g: GameRules.GameRecord, a: Action)
    requires GameRules.Seated(g)
    requires a.actionType == SkipSetPhase
    ensures g.phase == SetPhase ==> UseGame.CanSkipSetPhase(Some(GameRules.View(g)), GameRules.Current(g).id)
    ensures a.playerId != "" ==> Validators.ValidateAction(a) == Valid
    ensures GameRules.ProcessAction(g, a) == (g, GameRules.ProcessAction(g, a).1)
            && !GameRules.ProcessAction(g, a).1.success
  {
  }

  /** An action of a type the validator does not know is rejected by the server too,
      and changes nothing. */
  lemma UnknownTypeRejected(g: GameRules.GameRecord, a: Action)
    requires GameRules.Seated(g)
    requires Validators.ValidateAction(a) == Invalid(UnknownActionType)
    ensures GameRules.ProcessAction(g, a).0 == g && !GameRules.ProcessAction(g, a).1.success
  {
  }

  /** Every id a new game receives passes the game id validator. */
  lemma NewGameIdsAreValid(idNumber: int)
    requires 1000 <= idNumber <= 9999
    ensures Validators.ValidateGameId(GameRules.NewGame(idNumber).id) == Valid
  {
    var id := GameRules.NewGame(idNumber).id;
    assert Validators.FourDigits(id);
    Validators.GameIdVerdict(id);
  }

  /** A deck the catalog-aware validator accepts is accepted by the other two, and a
      twenty-card deck of catalog cards is accepted by all three alike. */
  lemma DeckValidatorsAgree(catalog: seq<Card>, deck: seq<Card>)
    ensures CardService.DeckVerdict(catalog, deck) == Valid ==> DeckRules.SizeAndNames(deck) == Valid
    ensures (forall i :: 0 <= i < |deck| ==> CardService.Known(catalog, deck[i].id)) ==>
              CardService.DeckVerdict(catalog, deck) == DeckRules.SizeAndNames(deck)
  {
  }
}
