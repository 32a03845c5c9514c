/** server/src/models/Player.ts: a player whose six zones change in place. Every method
    is proved to leave the player in exactly the state the matching PlayerRules
    function computes from the state before the call. */
module Players {
  import opened Types
  import PlayerRules
  import Cards

  class PlayerModel {
    const id: string
    const username: string
    var deck: seq<Card>
    var hand: seq<Card>
    var field: seq<FieldCard>
    var foodArea: seq<Card>
    var territory: seq<Card>
    var graveyard: seq<Card>
    var currentFood: int
    var isReady: bool

    /** A new player holds only the given deck (copied), no food and is not ready. */
    constructor (id: string, username: string, deck: seq<Card>)
      ensures ToJSON() == PlayerState(id, username, deck, [], [], [], [], [], 0, false)
    {
      this.id := id;
      this.username := username;
      this.deck := deck;
      this.hand := [];
      this.field := [];
      this.foodArea := [];
      this.territory := [];
      this.graveyard := [];
      this.currentFood := 0;
      this.isReady := false;
    }

    /** The serialised player: a copy of every zone. */
    function ToJSON(): PlayerState
      reads this
    {
      PlayerState(id, username, deck, hand, field, foodArea, territory, graveyard, currentFood, isReady)
    }

    method SetReady(ready: bool)
      modifies this
      ensures ToJSON() == old(ToJSON()).(isReady := ready)
    {
      isReady := ready;
    }

    /** Shuffles the deck, deals six cards to the territory and draws four. */
    method Initialize(choices: seq<nat>)
      modifies this
      ensures ToJSON() == PlayerRules.Initialize(old(ToJSON()), choices)
    {
      ShuffleDeck(choices);
      ghost var start := ToJSON();
      for i := 0 to 6
        invariant ToJSON() == PlayerRules.DealTerritory(start, i)
      {
        var card := DrawCardFromDeck();
        if card.Some? {
          territory := territory + [card.value];
        }
      }
      ghost var dealt := ToJSON();
      for i := 0 to 4
        invariant ToJSON() == PlayerRules.DrawTimes(dealt, i)
      {
        var _ := DrawCard();
      }
    }

    /** Fisher-Yates: for i from the last position down to 1, swap position i with the
        position the random draw picks in 0..i. */
    method ShuffleDeck(choices: seq<nat>)
      modifies this
      ensures ToJSON() == old(ToJSON()).(deck := PlayerRules.Shuffle(old(deck), choices))
    {
      var i := |deck| - 1;
      while i > 0
        invariant -1 <= i < |deck|
        invariant PlayerRules.ShuffleFrom(deck, choices, i) == PlayerRules.Shuffle(old(deck), choices)
        invariant hand == old(hand) && field == old(field) && foodArea == old(foodArea)
        invariant territory == old(territory) && graveyard == old(graveyard)
        invariant currentFood == old(currentFood) && isReady == old(isReady)
      {
        var j := PlayerRules.Pick(choices, i);
        PlayerRules.ShuffleFromStep(deck, choices, i);
        deck := deck[i := deck[j]][j := deck[i]];
        i := i - 1;
      }
    }

    /** Draws the front card of the deck into the hand; None when the deck is empty. */
    method DrawCard() returns (card: Option<Card>)
      modifies this
      ensures (ToJSON(), card) == PlayerRules.DrawCard(old(ToJSON()))
    {
      card := DrawCardFromDeck();
      if card.Some? {
        hand := hand + [card.value];
      }
    }

    /** Removes the front card of the deck and returns it; None when the deck is empty. */
    method DrawCardFromDeck() returns (card: Option<Card>)
      modifies this
      ensures (ToJSON(), card) == PlayerRules.DrawFromDeck(old(ToJSON()))
    {
      if |deck| == 0 {
        return None;
      }
      card := Some(deck[0]);
      deck := deck[1..];
    }

    /** Plays the hand card at cardIndex if its cost is covered by the food. */
    method PlayCard(cardIndex: int) returns (played: Option<Card>)
      modifies this
      ensures (ToJSON(), played) == PlayerRules.PlayCard(old(ToJSON()), cardIndex)
    {
      if cardIndex < 0 || cardIndex >= |hand| {
        return None;
      }
      var card := hand[cardIndex];
      var cardModel := Cards.FromCard(card);
      if cardModel.cost > currentFood {
        return None;
      }
      currentFood := currentFood - cardModel.cost;
      hand := hand[..cardIndex] + hand[cardIndex + 1..];
      if cardModel.IsBug() {
        field := field + [FieldCard(card, [], 0, false)];
      } else if cardModel.IsTechnique() {
        graveyard := graveyard + [card];
      }
      played := Some(card);
    }

    /** Moves the hand card at cardIndex to the food area. */
    method SetFood(cardIndex: int) returns (setCard: Option<Card>)
      modifies this
      ensures (ToJSON(), setCard) == PlayerRules.SetFood(old(ToJSON()), cardIndex)
    {
      if cardIndex < 0 || cardIndex >= |hand| {
        return None;
      }
      var card := hand[cardIndex];
      hand := hand[..cardIndex] + hand[cardIndex + 1..];
      foodArea := foodArea + [card];
      setCard := Some(card);
    }

    method UpdateFood()
      modifies this
      ensures ToJSON() == PlayerRules.UpdateFood(old(ToJSON()))
    {
      currentFood := |foodArea|;
    }

    /** Attacks with the field card at fieldIndex using technique techniqueIndex and
        returns its attack; 0 when the attack is not allowed. */
    method Attack(fieldIndex: int, techniqueIndex: int) returns (attack: int)
      modifies this
      ensures (ToJSON(), attack) == PlayerRules.Attack(old(ToJSON()), fieldIndex, techniqueIndex)
    {
      if fieldIndex < 0 || fieldIndex >= |field| {
        return 0;
      }
      var fieldCard := field[fieldIndex];
      if fieldCard.hasAttacked {
        return 0;
      }
      if fieldCard.card.techniques.None? || techniqueIndex >= |fieldCard.card.techniques.value|
         || techniqueIndex < 0 {
        return 0;
      }
      var selected := fieldCard.card.techniques.value[techniqueIndex];
      attack := Cards.AttackValue(selected);
      field := field[fieldIndex := fieldCard.(hasAttacked := true)];
    }

    /** Adds damage to the field card at fieldIndex; true when it is destroyed. */
    method ReceiveDamage(fieldIndex: int, damage: int) returns (destroyed: bool)
      modifies this
      ensures (ToJSON(), destroyed) == PlayerRules.ReceiveDamage(old(ToJSON()), fieldIndex, damage)
    {
      if fieldIndex < 0 || fieldIndex >= |field| {
        return false;
      }
      var fieldCard := field[fieldIndex];
      fieldCard := fieldCard.(damage := fieldCard.damage + damage);
      field := field[fieldIndex := fieldCard];
      var maxHp := Cards.HitpointsOrZero(fieldCard.card);
      if fieldCard.damage >= maxHp {
        graveyard := graveyard + [fieldCard.card];
        graveyard := graveyard + fieldCard.enhancements;
        field := field[..fieldIndex] + field[fieldIndex + 1..];
        return true;
      }
      return false;
    }

    /** Clears the attack flag and the damage of every field card. */
    method EndTurn()
      modifies this
      ensures ToJSON() == PlayerRules.EndTurn(old(ToJSON()))
    {
      for k := 0 to |field|
        invariant |field| == |old(field)|
        invariant forall m :: 0 <= m < k ==> field[m] == PlayerRules.ClearedForNewTurn(old(field)[m])
        invariant forall m :: k <= m < |field| ==> field[m] == old(field)[m]
        invariant ToJSON() == old(ToJSON()).(field := field)
      {
        field := field[k := field[k].(hasAttacked := false)];
        field := field[k := field[k].(damage := 0)];
      }
    }

    /** Sets positive damage to 0 on every field card. */
    method ResetDamageOnly()
      modifies this
      ensures ToJSON() == PlayerRules.ResetDamageOnly(old(ToJSON()))
    {
      for k := 0 to |field|
        invariant |field| == |old(field)|
        invariant forall m :: 0 <= m < k ==> field[m] == PlayerRules.DamageCleared(old(field)[m])
        invariant forall m :: k <= m < |field| ==> field[m] == old(field)[m]
        invariant ToJSON() == old(ToJSON()).(field := field)
      {
        if field[k].damage > 0 {
          field := field[k := field[k].(damage := 0)];
        }
      }
    }

    /** Clears the attack flag of every field card. */
    method ResetAttackFlags()
      modifies this
      ensures ToJSON() == PlayerRules.ResetAttackFlags(old(ToJSON()))
    {
      for k := 0 to |field|
        invariant |field| == |old(field)|
        invariant forall m :: 0 <= m < k ==> field[m] == PlayerRules.FlagCleared(old(field)[m])
        invariant forall m :: k <= m < |field| ==> field[m] == old(field)[m]
        invariant ToJSON() == old(ToJSON()).(field := field)
      {
        if field[k].hasAttacked {
          field := field[k := field[k].(hasAttacked := false)];
        }
      }
    }
  }
}
