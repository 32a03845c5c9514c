/** server/src/models/Card.ts: a card wrapped with category predicates and attack lookup. */
module Cards {
  import opened Types

  /** The attack of a technique; a technique without one attacks for 0. */
  function AttackValue(t: Technique): int {
    match t.attack
    case Some(a) => a
    case None => 0
  }

  /** The hitpoints of a card; a card without them has 0. */
  function HitpointsOrZero(c: Card): int {
    match c.hitpoints
    case Some(h) => h
    case None => 0
  }

  /** CardModel holds every field of a Card except `hitpoints`, which its
      constructor does not copy. */
  datatype CardModel = CardModel(
    id: string,
    name: string,
    cardType: CardType,
    attribute: CardAttribute,
    cost: int,
    techniques: Option<seq<Technique>>,
    flavorText: Option<string>,
    rarity: string,
    cardSet: string,
    image: string)
  {
    predicate IsBug() { cardType == BugCard }

    predicate IsEnhancement() { cardType == EnhancementCard }

    predicate IsTechnique() { cardType == TechniqueCard }

    /** The attack of the chosen technique. A non-bug or a card without techniques
        attacks for 0; an index that names no technique (absent, negative or too
        large) falls back to the first technique. */
    function GetAttack(techniqueIndex: Option<int>): (r: int)
      ensures !IsBug() || techniques.None? || |techniques.value| == 0 ==> r == 0
      ensures IsBug() && techniques.Some? && techniqueIndex.Some?
              && 0 <= techniqueIndex.value < |techniques.value|
              ==> r == AttackValue(techniques.value[techniqueIndex.value])
      ensures IsBug() && techniques.Some? && |techniques.value| > 0
              && !(techniqueIndex.Some? && 0 <= techniqueIndex.value < |techniques.value|)
              ==> r == AttackValue(techniques.value[0])
    {
      if !IsBug() || techniques.None? || |techniques.value| == 0 then 0
      else if techniqueIndex.Some? && 0 <= techniqueIndex.value < |techniques.value| then
        AttackValue(techniques.value[techniqueIndex.value])
      else
        AttackValue(techniques.value[0])
    }

    /** The card record this model serialises to: hitpoints is absent. */
    function ToJSON(): (c: Card)
      ensures c.hitpoints.None?
      ensures FromCard(c) == this
    {
      Card(id, name, cardType, attribute, cost, None, techniques, flavorText, rarity, cardSet, image)
    }
  }

  /** The CardModel constructor: copies the card's fields, dropping hitpoints. */
  function FromCard(c: Card): (m: CardModel)
    ensures m.id == c.id && m.name == c.name && m.cardType == c.cardType && m.attribute == c.attribute
    ensures m.cost == c.cost && m.techniques == c.techniques && m.flavorText == c.flavorText
    ensures m.rarity == c.rarity && m.cardSet == c.cardSet && m.image == c.image
  {
    CardModel(c.id, c.name, c.cardType, c.attribute, c.cost, c.techniques, c.flavorText,
              c.rarity, c.cardSet, c.image)
  }

  /** Serialising a freshly wrapped card gives back the card without its hitpoints. */
  lemma ToJSONOfFromCard(c: Card)
    ensures FromCard(c).ToJSON() == c.(hitpoints := None)
    ensures c.hitpoints.None? ==> FromCard(c).ToJSON() == c
  {
  }

  /** Exactly one of the three category predicates holds of every card. */
  lemma ExactlyOneCategory(m: CardModel)
    ensures m.IsBug() <==> !m.IsEnhancement() && !m.IsTechnique()
    ensures m.IsEnhancement() <==> !m.IsBug() && !m.IsTechnique()
    ensures m.IsTechnique() <==> !m.IsBug() && !m.IsEnhancement()
  {
  }
}
