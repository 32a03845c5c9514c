/** The zone moves of server/src/models/Player.ts stated on PlayerState values.
    The PlayerModel class in module Players is proved to perform exactly these moves. */
module PlayerRules {
  import opened Types
  import Cards

  // ---------------------------------------------------------------------------
  // Card accounting

  /** Every card a field holds: each bug and the cards attached to it. */
  function FieldCards(f: seq<FieldCard>): multiset<Card>
  {
    if f == [] then multiset{}
    else FieldCards(f[..|f| - 1]) + multiset{f[|f| - 1].card} + multiset(f[|f| - 1].enhancements)
  }

  /** Every card a player holds, in any of the six zones. */
  function AllCards(p: PlayerState): multiset<Card>
  {
    multiset(p.deck) + multiset(p.hand) + FieldCards(p.field) + multiset(p.foodArea)
    + multiset(p.territory) + multiset(p.graveyard)
  }

  lemma {:induction false} FieldCardsAppend(a: seq<FieldCard>, b: seq<FieldCard>)
    ensures FieldCards(a + b) == FieldCards(a) + FieldCards(b)
    decreases |b|
  {
    if b == [] {
      assert a + b == a;
    } else {
      var b' := b[..|b| - 1];
      assert (a + b)[..|a + b| - 1] == a + b';
      assert (a + b)[|a + b| - 1] == b[|b| - 1];
      FieldCardsAppend(a, b');
    }
  }

  /** Two fields holding the same cards and attachments, position by position, hold the
      same cards, whatever their damage and attack flags. */
  lemma {:induction false} FieldCardsPointwise(f: seq<FieldCard>, g: seq<FieldCard>)
    requires |f| == |g|
    requires forall k :: 0 <= k < |f| ==> f[k].card == g[k].card && f[k].enhancements == g[k].enhancements
    ensures FieldCards(f) == FieldCards(g)
    decreases |f|
  {
    if f != [] {
      FieldCardsPointwise(f[..|f| - 1], g[..|g| - 1]);
    }
  }

  /** Removing the field card at i loses exactly that bug and its attachments. */
  lemma FieldCardsRemove(f: seq<FieldCard>, i: int)
    requires 0 <= i < |f|
    ensures FieldCards(f) == FieldCards(f[..i] + f[i + 1..]) + multiset{f[i].card} + multiset(f[i].enhancements)
  {
    SplitAt(f, i);
    FieldCardsSplit(f, f[..i], f[i], f[i + 1..]);
  }

  /** Moving the element at n from the rest of s onto the end of a ++ s[..n]. */
  lemma TakeNext<T>(a: seq<T>, s: seq<T>, n: int)
    requires 0 <= n < |s|
    ensures a + s[..n] + [s[n]] == a + s[..n + 1]
    ensures s[n..][0] == s[n] && s[n..][1..] == s[n + 1..]
  {
    assert s[..n + 1] == s[..n] + [s[n]];
  }

  /** A sequence is the part before position i, the element at i, and the rest. */
  lemma SplitAt<T>(s: seq<T>, i: int)
    requires 0 <= i < |s|
    ensures s == s[..i] + [s[i]] + s[i + 1..]
  {
  }

  lemma FieldCardsSplit(f: seq<FieldCard>, a: seq<FieldCard>, x: FieldCard, b: seq<FieldCard>)
    requires f == a + [x] + b
    ensures FieldCards(f) == FieldCards(a + b) + multiset{x.card} + multiset(x.enhancements)
  {
    FieldCardsAppend(a + [x], b);
    FieldCardsSingle(a, x);
    FieldCardsAppend(a, b);
  }

  lemma FieldCardsSingle(a: seq<FieldCard>, x: FieldCard)
    ensures FieldCards(a + [x]) == FieldCards(a) + multiset{x.card} + multiset(x.enhancements)
  {
    assert (a + [x])[..|a + [x]| - 1] == a;
  }

  // ---------------------------------------------------------------------------
  // Drawing

  /** Takes the front card of the deck, if any, without putting it anywhere. */
  function DrawFromDeck(p: PlayerState): (r: (PlayerState, Option<Card>))
    ensures r.1.None? <==> p.deck == []
    ensures r.1.None? ==> r.0 == p
    ensures r.1.Some? ==> r.1.value == p.deck[0] && r.0.deck == p.deck[1..]
    ensures r.0.(deck := p.deck) == p
  {
    if |p.deck| == 0 then (p, None)
    else (p.(deck := p.deck[1..]), Some(p.deck[0]))
  }

  /** Moves the front card of the deck to the end of the hand; an empty deck gives None. */
  function DrawCard(p: PlayerState): (r: (PlayerState, Option<Card>))
    ensures r.1.None? <==> p.deck == []
    ensures r.1.None? ==> r.0 == p
    ensures r.1.Some? ==> r.1.value == p.deck[0] && r.0.deck == p.deck[1..]
                          && r.0.hand == p.hand + [p.deck[0]]
    ensures r.0.(deck := p.deck, hand := p.hand) == p
  {
    var (q, c) := DrawFromDeck(p);
    match c
    case None => (q, None)
    case Some(card) => (q.(hand := q.hand + [card]), Some(card))
  }

  // ---------------------------------------------------------------------------
  // Playing and feeding

  /** Whether a hand index can be played: it names a card whose cost is covered. */
  predicate CanPlay(p: PlayerState, i: int)
  {
    0 <= i < |p.hand| && Cards.FromCard(p.hand[i]).cost <= p.currentFood
  }

  /** Plays the hand card at i: pays its cost, takes it out of the hand, and puts a bug
      on the field (undamaged, not yet attacked) or a technique in the graveyard; an
      enhancement goes nowhere. A bad index or a cost above the food changes nothing. */
  function PlayCard(p: PlayerState, i: int): (r: (PlayerState, Option<Card>))
    ensures r.1.Some? <==> CanPlay(p, i)
    ensures r.1.None? ==> r.0 == p
    ensures r.1.Some? ==> r.1.value == p.hand[i] && r.0.hand == p.hand[..i] + p.hand[i + 1..]
                          && r.0.currentFood == p.currentFood - p.hand[i].cost
    ensures p.currentFood >= 0 ==> r.0.currentFood >= 0
    ensures r.1.Some? ==>
              r.0.field == p.field + (if p.hand[i].cardType == BugCard
                                      then [FieldCard(p.hand[i], [], 0, false)] else [])
    ensures r.1.Some? ==>
              r.0.graveyard == p.graveyard + (if p.hand[i].cardType == TechniqueCard
                                              then [p.hand[i]] else [])
    ensures r.0.(hand := p.hand, field := p.field, graveyard := p.graveyard, currentFood := p.currentFood) == p
  {
    if i < 0 || i >= |p.hand| then (p, None)
    else
      var card := p.hand[i];
      var model := Cards.FromCard(card);
      if model.cost > p.currentFood then (p, None)
      else
        var q := p.(currentFood := p.currentFood - model.cost, hand := p.hand[..i] + p.hand[i + 1..]);
        if model.IsBug() then
          (q.(field := q.field + [FieldCard(card, [], 0, false)]), Some(card))
        else if model.IsTechnique() then
          (q.(graveyard := q.graveyard + [card]), Some(card))
        else
          (q, Some(card))
  }

  /** Moves the hand card at i to the end of the food area; a bad index changes nothing. */
  function SetFood(p: PlayerState, i: int): (r: (PlayerState, Option<Card>))
    ensures r.1.Some? <==> 0 <= i < |p.hand|
    ensures r.1.None? ==> r.0 == p
    ensures r.1.Some? ==> r.1.value == p.hand[i] && r.0.hand == p.hand[..i] + p.hand[i + 1..]
                          && r.0.foodArea == p.foodArea + [p.hand[i]]
    ensures r.0.(hand := p.hand, foodArea := p.foodArea) == p
  {
    if i < 0 || i >= |p.hand| then (p, None)
    else
      var card := p.hand[i];
      (p.(hand := p.hand[..i] + p.hand[i + 1..], foodArea := p.foodArea + [card]), Some(card))
  }

  /** The food available equals the number of cards in the food area. */
  function UpdateFood(p: PlayerState): (r: PlayerState)
    ensures r.currentFood == |r.foodArea| && r.(currentFood := p.currentFood) == p
  {
    p.(currentFood := |p.foodArea|)
  }

  // ---------------------------------------------------------------------------
  // Combat

  /** Whether the field card at fi may attack with technique ti: it exists, has not
      attacked, and ti names one of its techniques. */
  predicate CanAttackWith(p: PlayerState, fi: int, ti: int)
  {
    && 0 <= fi < |p.field|
    && !p.field[fi].hasAttacked
    && p.field[fi].card.techniques.Some?
    && 0 <= ti < |p.field[fi].card.techniques.value|
  }

  /** Marks the field card at fi as having attacked and returns the attack of its
      technique ti (0 when it has none). Returns 0 with no change when the attack is
      not allowed. */
  function Attack(p: PlayerState, fi: int, ti: int): (r: (PlayerState, int))
    ensures !CanAttackWith(p, fi, ti) ==> r == (p, 0)
    ensures CanAttackWith(p, fi, ti) ==>
              && r.1 == Cards.AttackValue(p.field[fi].card.techniques.value[ti])
              && r.0 == p.(field := p.field[fi := p.field[fi].(hasAttacked := true)])
  {
    if fi < 0 || fi >= |p.field| then (p, 0)
    else
      var fc := p.field[fi];
      if fc.hasAttacked then (p, 0)
      else if fc.card.techniques.None? || ti >= |fc.card.techniques.value| || ti < 0 then (p, 0)
      else
        (p.(field := p.field[fi := fc.(hasAttacked := true)]), Cards.AttackValue(fc.card.techniques.value[ti]))
  }

  /** Adds damage to the field card at fi. When the total reaches its hitpoints (missing
      hitpoints count as 0) the card and its attachments go to the graveyard and it
      leaves the field, and the result is true. A bad index changes nothing. */
  function ReceiveDamage(p: PlayerState, fi: int, damage: int): (r: (PlayerState, bool))
    ensures r.1 <==> 0 <= fi < |p.field|
                     && p.field[fi].damage + damage >= Cards.HitpointsOrZero(p.field[fi].card)
    ensures !(0 <= fi < |p.field|) ==> r.0 == p
    ensures r.1 ==> && r.0.field == p.field[..fi] + p.field[fi + 1..]
                    && r.0.graveyard == p.graveyard + [p.field[fi].card] + p.field[fi].enhancements
    ensures 0 <= fi < |p.field| && !r.1 ==>
              r.0.field == p.field[fi := p.field[fi].(damage := p.field[fi].damage + damage)]
    ensures r.0.(field := p.field, graveyard := p.graveyard) == p
  {
    if fi < 0 || fi >= |p.field| then (p, false)
    else
      var fc := p.field[fi];
      var total := fc.damage + damage;
      if total >= Cards.HitpointsOrZero(fc.card) then
        (p.(graveyard := p.graveyard + [fc.card] + fc.enhancements,
            field := p.field[..fi] + p.field[fi + 1..]), true)
      else
        (p.(field := p.field[fi := fc.(damage := total)]), false)
  }

  /** Damage never gains or loses a card: a destroyed bug and its attachments move
      together from the field to the graveyard. */
  lemma ReceiveDamageKeepsCards(p: PlayerState, fi: int, damage: int)
    ensures AllCards(ReceiveDamage(p, fi, damage).0) == AllCards(p)
  {
    var (q, destroyed) := ReceiveDamage(p, fi, damage);
    if destroyed {
      var fc := p.field[fi];
      FieldCardsRemove(p.field, fi);
      assert multiset(q.graveyard) == multiset(p.graveyard) + multiset{fc.card} + multiset(fc.enhancements);
    } else if 0 <= fi < |p.field| {
      FieldCardsPointwise(p.field, q.field);
    }
  }

  // ---------------------------------------------------------------------------
  // Field sweeps

  function ClearedForNewTurn(fc: FieldCard): FieldCard { fc.(hasAttacked := false, damage := 0) }

  function DamageCleared(fc: FieldCard): FieldCard { if fc.damage > 0 then fc.(damage := 0) else fc }

  function FlagCleared(fc: FieldCard): FieldCard { if fc.hasAttacked then fc.(hasAttacked := false) else fc }

  /** Clears the attack flag and the damage of every field card. */
  function EndTurn(p: PlayerState): (r: PlayerState)
    ensures |r.field| == |p.field| && r.(field := p.field) == p
    ensures forall k :: 0 <= k < |r.field| ==>
              r.field[k].card == p.field[k].card && r.field[k].enhancements == p.field[k].enhancements
              && r.field[k].damage == 0 && !r.field[k].hasAttacked
  {
    p.(field := seq(|p.field|, k requires 0 <= k < |p.field| => ClearedForNewTurn(p.field[k])))
  }

  /** Sets positive damage to 0 on every field card; attack flags are kept. */
  function ResetDamageOnly(p: PlayerState): (r: PlayerState)
    ensures |r.field| == |p.field| && r.(field := p.field) == p
    ensures forall k :: 0 <= k < |r.field| ==>
              r.field[k].(damage := p.field[k].damage) == p.field[k]
              && r.field[k].damage == (if p.field[k].damage > 0 then 0 else p.field[k].damage)
  {
    p.(field := seq(|p.field|, k requires 0 <= k < |p.field| => DamageCleared(p.field[k])))
  }

  /** Clears the attack flag of every field card; damage is kept. */
  function ResetAttackFlags(p: PlayerState): (r: PlayerState)
    ensures |r.field| == |p.field| && r.(field := p.field) == p
    ensures forall k :: 0 <= k < |r.field| ==>
              r.field[k].(hasAttacked := p.field[k].hasAttacked) == p.field[k] && !r.field[k].hasAttacked
  {
    p.(field := seq(|p.field|, k requires 0 <= k < |p.field| => FlagCleared(p.field[k])))
  }

  // ---------------------------------------------------------------------------
  // Card conservation: no move other than playing an enhancement gains or loses a card

  /** Taking the front card of the deck removes exactly that card from the player. */
  lemma DrawFromDeckKeepsCards(p: PlayerState)
    ensures var (q, c) := DrawFromDeck(p);
            c.Some? ==> AllCards(q) + multiset{c.value} == AllCards(p)
  {
    if p.deck != [] {
      assert p.deck == [p.deck[0]] + p.deck[1..];
    }
  }

  lemma DrawCardKeepsCards(p: PlayerState)
    ensures AllCards(DrawCard(p).0) == AllCards(p)
  {
    DrawFromDeckKeepsCards(p);
  }

  /** Taking the card at i out of a hand loses exactly that card. */
  lemma HandRemove(h: seq<Card>, i: int)
    requires 0 <= i < |h|
    ensures multiset(h) == multiset(h[..i] + h[i + 1..]) + multiset{h[i]}
  {
    SplitAt(h, i);
  }

  /** A played bug or technique stays with the player; a played enhancement is the one
      card that leaves every zone. */
  lemma PlayCardKeepsCards(p: PlayerState, i: int)
    ensures var (q, c) := PlayCard(p, i);
            c.Some? ==>
              AllCards(q) + (if c.value.cardType == EnhancementCard then multiset{c.value}
                             else multiset{}) == AllCards(p)
  {
    if CanPlay(p, i) {
      var q := PlayCard(p, i).0;
      if p.hand[i].cardType == BugCard {
        PlayedBugKept(p, i, q);
      } else if p.hand[i].cardType == TechniqueCard {
        PlayedTechniqueKept(p, i, q);
      } else {
        PlayedEnhancementLeaves(p, i, q);
      }
    }
  }

  lemma PlayedBugKept(p: PlayerState, i: int, q: PlayerState)
    requires 0 <= i < |p.hand|
    requires q == p.(hand := p.hand[..i] + p.hand[i + 1..], field := p.field + [FieldCard(p.hand[i], [], 0, false)],
                     currentFood := q.currentFood)
    ensures AllCards(q) == AllCards(p)
  {
    HandRemove(p.hand, i);
    FieldCardsSingle(p.field, FieldCard(p.hand[i], [], 0, false));
    MovedBetweenZones(multiset(p.deck), multiset(q.hand), multiset(p.hand), FieldCards(p.field),
                      FieldCards(q.field), multiset(p.foodArea) + multiset(p.territory) + multiset(p.graveyard),
                      p.hand[i]);
  }

  lemma PlayedTechniqueKept(p: PlayerState, i: int, q: PlayerState)
    requires 0 <= i < |p.hand|
    requires q == p.(hand := p.hand[..i] + p.hand[i + 1..], graveyard := p.graveyard + [p.hand[i]],
                     currentFood := q.currentFood)
    ensures AllCards(q) == AllCards(p)
  {
    HandRemove(p.hand, i);
    MovedBetweenZones(multiset(p.deck), multiset(q.hand), multiset(p.hand), multiset(p.graveyard),
                      multiset(q.graveyard), FieldCards(p.field) + multiset(p.foodArea) + multiset(p.territory),
                      p.hand[i]);
  }

  lemma PlayedEnhancementLeaves(p: PlayerState, i: int, q: PlayerState)
    requires 0 <= i < |p.hand|
    requires q == p.(hand := p.hand[..i] + p.hand[i + 1..], currentFood := q.currentFood)
    ensures AllCards(q) + multiset{p.hand[i]} == AllCards(p)
  {
    HandRemove(p.hand, i);
  }

  /** Moving one card from the second zone to the third keeps the total. */
  lemma MovedBetweenZones<T>(a: multiset<T>, b': multiset<T>, b: multiset<T>, c: multiset<T>, c': multiset<T>,
                             d: multiset<T>, x: T)
    requires b == b' + multiset{x} && c' == c + multiset{x}
    ensures a + b' + c' + d == a + b + c + d
  {
  }

  lemma SetFoodKeepsCards(p: PlayerState, i: int)
    ensures AllCards(SetFood(p, i).0) == AllCards(p)
  {
    if 0 <= i < |p.hand| {
      HandRemove(p.hand, i);
    }
  }

  lemma AttackKeepsCards(p: PlayerState, fi: int, ti: int)
    ensures AllCards(Attack(p, fi, ti).0) == AllCards(p)
  {
    FieldCardsPointwise(p.field, Attack(p, fi, ti).0.field);
  }

  /** The three field sweeps only touch damage and attack flags. */
  lemma SweepsKeepCards(p: PlayerState)
    ensures AllCards(EndTurn(p)) == AllCards(p)
    ensures AllCards(ResetDamageOnly(p)) == AllCards(p)
    ensures AllCards(ResetAttackFlags(p)) == AllCards(p)
  {
    FieldCardsPointwise(p.field, EndTurn(p).field);
    FieldCardsPointwise(p.field, ResetDamageOnly(p).field);
    FieldCardsPointwise(p.field, ResetAttackFlags(p).field);
  }

  // ---------------------------------------------------------------------------
  // Shuffling and the opening deal

  /** The swap partner the shuffle picks at position i from the random draw at i;
      with no draw it keeps the card in place. */
  function Pick(choices: seq<nat>, i: nat): (j: nat)
    ensures j <= i
  {
    if i < |choices| then choices[i] % (i + 1) else i
  }

  function Swap(s: seq<Card>, i: nat, j: nat): seq<Card>
    requires i < |s| && j < |s|
  {
    s[i := s[j]][j := s[i]]
  }

  lemma SwapPermutes(s: seq<Card>, i: nat, j: nat)
    requires i < |s| && j < |s|
    ensures |Swap(s, i, j)| == |s| && multiset(Swap(s, i, j)) == multiset(s)
  {
    var t := s[i := s[j]];
    assert multiset(t) == multiset(s) - multiset{s[i]} + multiset{s[j]};
    assert multiset(t[j := s[i]]) == multiset(t) - multiset{t[j]} + multiset{s[i]};
  }

  /** The deck after the Fisher-Yates passes at positions i, i - 1, ..., 1: a
      permutation of the deck. */
  function ShuffleFrom(s: seq<Card>, choices: seq<nat>, i: int): (r: seq<Card>)
    requires i < |s|
    ensures |r| == |s|
    decreases i
  {
    if i <= 0 then s
    else
      ShuffleFrom(Swap(s, i, Pick(choices, i)), choices, i - 1)
  }

  /** One pass of the shuffle: swap at i, then continue from i - 1. */
  lemma ShuffleFromStep(s: seq<Card>, choices: seq<nat>, i: int)
    requires 0 < i < |s|
    ensures ShuffleFrom(s, choices, i)
            == ShuffleFrom(s[i := s[Pick(choices, i)]][Pick(choices, i) := s[i]], choices, i - 1)
  {
  }

  /** The passes from i down to 1 only reorder the deck. */
  lemma {:induction false} ShuffleFromPermutes(s: seq<Card>, choices: seq<nat>, i: int)
    requires i < |s|
    ensures multiset(ShuffleFrom(s, choices, i)) == multiset(s)
    decreases i
  {
    if i > 0 {
      SwapPermutes(s, i, Pick(choices, i));
      ShuffleFromPermutes(Swap(s, i, Pick(choices, i)), choices, i - 1);
    }
  }

  /** The deck after a full Fisher-Yates shuffle driven by the given random draws: the
      same cards in a new order. */
  function Shuffle(s: seq<Card>, choices: seq<nat>): (r: seq<Card>)
    ensures |r| == |s| && multiset(r) == multiset(s)
  {
    ShuffleFromPermutes(s, choices, |s| - 1);
    ShuffleFrom(s, choices, |s| - 1)
  }

  function Min(a: int, b: int): int { if a < b then a else b }

  /** One pass of the territory loop: the front card of the deck, if any, goes to the
      end of the territory. */
  function PlaceTerritory(p: PlayerState): PlayerState
  {
    var (q, c) := DrawFromDeck(p);
    if c.Some? then q.(territory := q.territory + [c.value]) else q
  }

  /** k passes of the territory loop. */
  function DealTerritory(p: PlayerState, k: nat): PlayerState
  {
    if k == 0 then p else PlaceTerritory(DealTerritory(p, k - 1))
  }

  /** k draws into the hand. */
  function DrawTimes(p: PlayerState, k: nat): PlayerState
  {
    if k == 0 then p else DrawCard(DrawTimes(p, k - 1)).0
  }

  /** The opening deal: shuffle the deck, run six passes that put the front card of the
      deck into the territory, then draw four times. */
  function Initialize(p: PlayerState, choices: seq<nat>): PlayerState
  {
    DrawTimes(DealTerritory(p.(deck := Shuffle(p.deck, choices)), 6), 4)
  }

  /** k territory passes move the first min(k, |deck|) cards of the deck, in order. */
  lemma {:induction false} DealTerritoryTakesFront(p: PlayerState, k: nat)
    ensures var n := Min(k, |p.deck|);
            DealTerritory(p, k) == p.(territory := p.territory + p.deck[..n], deck := p.deck[n..])
  {
    if k == 0 {
      assert p.territory + p.deck[..0] == p.territory && p.deck[0..] == p.deck;
    } else {
      DealTerritoryTakesFront(p, k - 1);
      var n := Min(k - 1, |p.deck|);
      var q := DealTerritory(p, k - 1);
      assert q == p.(territory := p.territory + p.deck[..n], deck := p.deck[n..]);
      if n < |p.deck| {
        TakeNext(p.territory, p.deck, n);
        assert DealTerritory(p, k) == q.(territory := q.territory + [p.deck[n]], deck := p.deck[n + 1..]);
      } else {
        assert q.deck == [];
      }
    }
  }

  /** k draws move the first min(k, |deck|) cards of the deck to the hand, in order. */
  lemma {:induction false} DrawTimesTakesFront(p: PlayerState, k: nat)
    ensures var n := Min(k, |p.deck|);
            DrawTimes(p, k) == p.(hand := p.hand + p.deck[..n], deck := p.deck[n..])
  {
    if k == 0 {
      assert p.hand + p.deck[..0] == p.hand && p.deck[0..] == p.deck;
    } else {
      DrawTimesTakesFront(p, k - 1);
      var n := Min(k - 1, |p.deck|);
      var q := DrawTimes(p, k - 1);
      assert q == p.(hand := p.hand + p.deck[..n], deck := p.deck[n..]);
      if n < |p.deck| {
        TakeNext(p.hand, p.deck, n);
        assert DrawTimes(p, k) == q.(hand := q.hand + [p.deck[n]], deck := p.deck[n + 1..]);
      } else {
        assert q.deck == [];
      }
    }
  }

  /** The opening deal in closed form: six cards from the front of the shuffled deck (or
      all of them) to the territory, the next four (or fewer) to the hand. */
  lemma InitializeTakesFront(p: PlayerState, choices: seq<nat>)
    ensures var s := Shuffle(p.deck, choices);
            var t := Min(6, |s|);
            var h := Min(10, |s|);
            Initialize(p, choices) == p.(deck := s[h..], territory := p.territory + s[..t], hand := p.hand + s[t..h])
  {
    var s := Shuffle(p.deck, choices);
    var t := Min(6, |s|);
    var p1 := p.(deck := s);
    DealTerritoryTakesFront(p1, 6);
    var p2 := DealTerritory(p1, 6);
    DrawTimesTakesFront(p2, 4);
    var h := Min(10, |s|);
    assert s[t..][..Min(4, |s| - t)] == s[t..h];
    assert s[t..][Min(4, |s| - t)..] == s[h..];
  }

  /** From a deck of n >= 10 cards the opening deal leaves 6 in the territory, 4 in the
      hand and n - 10 in the deck, all taken in order from the front of the shuffled deck,
      and no card is gained or lost. */
  lemma InitializeDeals(p: PlayerState, choices: seq<nat>)
    requires |p.deck| >= 10
    ensures var q := Initialize(p, choices);
            var s := Shuffle(p.deck, choices);
            && q.territory == p.territory + s[..6]
            && q.hand == p.hand + s[6..10]
            && q.deck == s[10..]
            && |q.deck| == |p.deck| - 10
            && q.(deck := p.deck, hand := p.hand, territory := p.territory) == p
            && AllCards(q) == AllCards(p)
  {
    InitializeTakesFront(p, choices);
    InitializeKeepsCards(p, choices);
  }

  /** The opening deal never gains or loses a card, whatever the deck size, and the
      player keeps its id. */
  lemma InitializeKeepsCards(p: PlayerState, choices: seq<nat>)
    ensures AllCards(Initialize(p, choices)) == AllCards(p)
    ensures Initialize(p, choices).id == p.id
  {
    var s := Shuffle(p.deck, choices);
    var t := Min(6, |s|);
    var h := Min(10, |s|);
    assert s == s[..t] + s[t..h] + s[h..];
    InitializeTakesFront(p, choices);
    var q := Initialize(p, choices);
    assert multiset(q.hand) == multiset(p.hand) + multiset(s[t..h]);
    assert multiset(q.territory) == multiset(p.territory) + multiset(s[..t]);
    assert multiset(p.deck) == multiset(s[..t]) + multiset(s[t..h]) + multiset(s[h..]);
  }

  /** A field card attacks at most once: once an attack with it has gone through, any
      further attack with it returns 0 and changes nothing. */
  lemma AttackAtMostOnce(p: PlayerState, fi: int, ti: int, ti': int)
    requires CanAttackWith(p, fi, ti)
    ensures var q := Attack(p, fi, ti).0;
            q.field[fi].hasAttacked && Attack(q, fi, ti') == (q, 0)
  {
  }
}
