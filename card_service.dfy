/** server/src/services/CardService.ts: lookups and filters over the card catalog, the
    catalog-aware deck validator and the random deck builder. The catalog the service
    loads from its data file is a parameter of every member here. */
module CardService {
  import opened Types
  import DeckRules

  // ---------------------------------------------------------------------------
  // Lookup

  /** The first catalog position holding a card with the given id, or -1. */
  function IdIndex(catalog: seq<Card>, id: string): (k: int)
    ensures -1 <= k < |catalog|
    ensures k == -1 <==> forall j :: 0 <= j < |catalog| ==> catalog[j].id != id
    ensures k >= 0 ==> catalog[k].id == id && forall j :: 0 <= j < k ==> catalog[j].id != id
  {
    if catalog == [] then -1
    else if catalog[0].id == id then 0
    else
      var k := IdIndex(catalog[1..], id);
      if k == -1 then -1 else k + 1
  }

  /** Some catalog card has the given id. */
  predicate Known(catalog: seq<Card>, id: string)
  {
    exists j :: 0 <= j < |catalog| && catalog[j].id == id
  }

  /** The first catalog card with the given id, or None. */
  function GetCardById(catalog: seq<Card>, id: string): (r: Option<Card>)
    ensures r.None? <==> !Known(catalog, id)
    ensures r.Some? ==> r.value.id == id && r.value in catalog
    ensures r.Some? ==> forall j :: 0 <= j < |catalog| && catalog[j].id == id ==> r == Some(catalog[IdIndex(catalog, id)])
  {
    var k := IdIndex(catalog, id);
    if k == -1 then None else Some(catalog[k])
  }

  // ---------------------------------------------------------------------------
  // Filters

  /** The positions of the cards that satisfy keep, in increasing order. */
  function KeptPositions(cards: seq<Card>, keep: Card -> bool): (ps: seq<nat>)
    ensures |ps| <= |cards|
    ensures forall k :: 0 <= k < |ps| ==> ps[k] < |cards| && keep(cards[ps[k]])
    ensures forall k, l :: 0 <= k < l < |ps| ==> ps[k] < ps[l]
    ensures forall j :: 0 <= j < |cards| && keep(cards[j]) ==> j in ps
  {
    if cards == [] then []
    else
      var n := |cards| - 1;
      var ps := KeptPositions(cards[..n], keep);
      assert forall j :: 0 <= j < n ==> cards[..n][j] == cards[j];
      ps + (if keep(cards[n]) then [n] else [])
  }

  /** r lists the cards at positions ps, one for one and in the order of ps. */
  predicate ListsAt(r: seq<Card>, cards: seq<Card>, ps: seq<nat>)
  {
    |r| == |ps| && forall k :: 0 <= k < |ps| ==> ps[k] < |cards| && r[k] == cards[ps[k]]
  }

  /** Positions listed in all but the last card are positions in the whole run. */
  lemma ListsAtPrefix(r: seq<Card>, cards: seq<Card>, ps: seq<nat>)
    requires |cards| > 0 && ListsAt(r, cards[..|cards| - 1], ps)
    ensures ListsAt(r, cards, ps)
  {
  }

  /** The cards that satisfy keep, each as often and in the order the cards hold
      it: the cards at the kept positions. */
  function Select(cards: seq<Card>, keep: Card -> bool): (r: seq<Card>)
    ensures ListsAt(r, cards, KeptPositions(cards, keep))
  {
    if cards == [] then []
    else
      var n := |cards| - 1;
      var r := Select(cards[..n], keep);
      ListsAtPrefix(r, cards, KeptPositions(cards[..n], keep));
      r + (if keep(cards[n]) then [cards[n]] else [])
  }

  /** Selecting from two runs of cards one after the other keeps the order of both. */
  lemma {:induction false} SelectAppend(a: seq<Card>, b: seq<Card>, keep: Card -> bool)
    ensures Select(a + b, keep) == Select(a, keep) + Select(b, keep)
  {
    if b == [] {
      assert a + b == a;
    } else {
      var n := |b| - 1;
      assert (a + b)[..|a + b| - 1] == a + b[..n];
      assert (a + b)[|a + b| - 1] == b[n];
      SelectAppend(a, b[..n], keep);
    }
  }

  /** The selected cards are exactly the cards that pass the test. */
  lemma SelectMembers(cards: seq<Card>, keep: Card -> bool)
    ensures forall c :: c in Select(cards, keep) <==> c in cards && keep(c)
  {
    var r := Select(cards, keep);
    var ps := KeptPositions(cards, keep);
    forall c | c in cards && keep(c)
      ensures c in r
    {
      var j :| 0 <= j < |cards| && cards[j] == c;
      var k :| 0 <= k < |ps| && ps[k] == j;
      assert r[k] == c;
    }
  }

  /** A card that passes the test is selected as often as the cards hold it; any
      other card not at all. */
  lemma {:induction false} SelectCounts(cards: seq<Card>, keep: Card -> bool, c: Card)
    ensures multiset(Select(cards, keep))[c] == if keep(c) then multiset(cards)[c] else 0
  {
    if cards != [] {
      var n := |cards| - 1;
      assert cards == cards[..n] + [cards[n]];
      SelectCounts(cards[..n], keep, c);
    }
  }

  function FilterCardsByType(catalog: seq<Card>, cardType: CardType): (r: seq<Card>)
    ensures ListsAt(r, catalog, KeptPositions(catalog, (c: Card) => c.cardType == cardType))
    ensures forall c :: c in r <==> c in catalog && c.cardType == cardType
  {
    Select(catalog, (c: Card) => c.cardType == cardType)
  }

  function FilterCardsByAttribute(catalog: seq<Card>, attribute: CardAttribute): (r: seq<Card>)
    ensures ListsAt(r, catalog, KeptPositions(catalog, (c: Card) => c.attribute == attribute))
    ensures forall c :: c in r <==> c in catalog && c.attribute == attribute
  {
    Select(catalog, (c: Card) => c.attribute == attribute)
  }

  /** The cards whose cost lies between the two bounds, both included. */
  function FilterCardsByCost(catalog: seq<Card>, minCost: int, maxCost: int): (r: seq<Card>)
    ensures ListsAt(r, catalog, KeptPositions(catalog, (c: Card) => c.cost >= minCost && c.cost <= maxCost))
    ensures forall c :: c in r <==> c in catalog && minCost <= c.cost <= maxCost
    ensures minCost > maxCost ==> r == []
  {
    var r := Select(catalog, (c: Card) => c.cost >= minCost && c.cost <= maxCost);
    assert r != [] ==> r[0] in r;
    r
  }

  function FilterCardsByRarity(catalog: seq<Card>, rarity: string): (r: seq<Card>)
    ensures ListsAt(r, catalog, KeptPositions(catalog, (c: Card) => c.rarity == rarity))
    ensures forall c :: c in r <==> c in catalog && c.rarity == rarity
  {
    Select(catalog, (c: Card) => c.rarity == rarity)
  }

  function FilterCardsBySet(catalog: seq<Card>, cardSet: string): (r: seq<Card>)
    ensures ListsAt(r, catalog, KeptPositions(catalog, (c: Card) => c.cardSet == cardSet))
    ensures forall c :: c in r <==> c in catalog && c.cardSet == cardSet
  {
    Select(catalog, (c: Card) => c.cardSet == cardSet)
  }

  // ---------------------------------------------------------------------------
  // Deck validation

  /** The first deck position at or after i whose card id the catalog lacks, or None. */
  function FirstUnknownFrom(catalog: seq<Card>, deck: seq<Card>, i: nat): (r: Option<nat>)
    requires i <= |deck|
    decreases |deck| - i
    ensures r.Some? ==> i <= r.value < |deck| && !Known(catalog, deck[r.value].id)
    ensures r.Some? ==> forall j :: i <= j < r.value ==> Known(catalog, deck[j].id)
    ensures r.None? <==> forall j :: i <= j < |deck| ==> Known(catalog, deck[j].id)
  {
    if i == |deck| then None
    else if GetCardById(catalog, deck[i].id).None? then Some(i)
    else FirstUnknownFrom(catalog, deck, i + 1)
  }

  /** The verdict of the three checks in order: size, then names, then catalog
      membership of every card id. */
  function DeckVerdict(catalog: seq<Card>, deck: seq<Card>): Validation
  {
    if DeckRules.SizeAndNames(deck) != Valid then DeckRules.SizeAndNames(deck)
    else
      match FirstUnknownFrom(catalog, deck, 0)
      case Some(i) => Invalid(UnknownCard(deck[i].name))
      case None => Valid
  }

  /** The catalog-aware deck validator: the size, then a scan with a map of name counts
      that rejects a card when two of its name have been counted, then a scan that
      rejects the first card whose id the catalog lacks. */
  method ValidateDeck(catalog: seq<Card>, deck: seq<Card>) returns (r: Validation)
    ensures r == DeckVerdict(catalog, deck)
    ensures r == Valid <==> |deck| == DeckRules.DeckLength && DeckRules.WithinCopies(deck)
                            && forall i :: 0 <= i < |deck| ==> Known(catalog, deck[i].id)
    ensures |deck| != DeckRules.DeckLength ==> r == Invalid(DeckSize)
  {
    if |deck| != DeckRules.DeckLength {
      return Invalid(DeckSize);
    }
    DeckRules.SizeAndNamesMeaning(deck);
    var counts: map<string, nat> := map[];
    for i := 0 to |deck|
      invariant forall n :: DeckRules.CountOf(counts, n) == DeckRules.NameCount(deck[..i], n)
      invariant DeckRules.FirstThirdFrom(deck, i) == DeckRules.FirstThirdFrom(deck, 0)
    {
      var count := DeckRules.CountOf(counts, deck[i].name);
      if count >= DeckRules.MaxCopies {
        return Invalid(DuplicateName(deck[i].name));
      }
      counts := counts[deck[i].name := count + 1];
      forall n
        ensures DeckRules.CountOf(counts, n) == DeckRules.NameCount(deck[..i + 1], n)
      {
        DeckRules.NameCountStep(deck, i, n);
      }
    }
    for i := 0 to |deck|
      invariant FirstUnknownFrom(catalog, deck, i) == FirstUnknownFrom(catalog, deck, 0)
    {
      var found := GetCardById(catalog, deck[i].id);
      if found.None? {
        return Invalid(UnknownCard(deck[i].name));
      }
    }
    return Valid;
  }

  // ---------------------------------------------------------------------------
  // Random decks

  /** The ids of the given cards. */
  function Ids(cards: seq<Card>): set<string>
  {
    set c | c in cards :: c.id
  }

  /** No two positions hold cards with the same id. */
  predicate UniqueIds(cards: seq<Card>)
  {
    forall i, j :: 0 <= i < j < |cards| ==> cards[i].id != cards[j].id
  }

  /** A card held twice has two positions. */
  lemma {:induction false} TwoCopies(s: seq<Card>, c: Card) returns (p: nat, q: nat)
    requires multiset(s)[c] >= 2
    ensures p < q < |s| && s[p] == c && s[q] == c
  {
    assert s == [s[0]] + s[1..];
    if s[0] == c {
      assert c in multiset(s[1..]);
      var k :| 0 <= k < |s[1..]| && s[1..][k] == c;
      p, q := 0, k + 1;
    } else {
      var p', q' := TwoCopies(s[1..], c);
      p, q := p' + 1, q' + 1;
    }
  }

  /** Reordering a run of cards with distinct ids keeps the ids distinct. */
  lemma PermutationKeepsUniqueIds(a: seq<Card>, b: seq<Card>)
    requires multiset(a) == multiset(b) && UniqueIds(a)
    ensures UniqueIds(b)
  {
    forall i, j | 0 <= i < j < |b|
      ensures b[i].id != b[j].id
    {
      if b[i] == b[j] {
        assert b == b[..i] + [b[i]] + b[i + 1..j] + [b[j]] + b[j + 1..];
        var p, q := TwoCopies(a, b[i]);
      } else {
        assert b[i] in multiset(b) && b[j] in multiset(b);
        var p :| 0 <= p < |a| && a[p] == b[i];
        var q :| 0 <= q < |a| && a[q] == b[j];
      }
    }
  }

  /** The first twenty cards of the order, or all of them when there are fewer. */
  function Front(shuffled: seq<Card>): (f: seq<Card>)
    ensures |f| <= DeckRules.DeckLength && |f| <= |shuffled| && f == shuffled[..|f|]
    ensures |shuffled| >= DeckRules.DeckLength ==> |f| == DeckRules.DeckLength
  {
    if |shuffled| <= DeckRules.DeckLength then shuffled else shuffled[..DeckRules.DeckLength]
  }

  /** The deck built from the order: the front pass over its first twenty cards, then
      the second pass over the whole order. */
  function RandomDeck(shuffled: seq<Card>): seq<Card>
  {
    Filled(shuffled, KeptFront(Front(shuffled), |Front(shuffled)|))
  }

  /** The built deck has at most twenty cards of the catalog, holds no name more than
      twice, keeps ids distinct when the catalog does, starts with the cards the front
      pass kept, and when short leaves no card of the catalog it could still take. */
  lemma RandomDeckMeaning(catalog: seq<Card>, shuffled: seq<Card>)
    requires multiset(shuffled) == multiset(catalog)
    ensures var deck := RandomDeck(shuffled);
            var kept := KeptFront(Front(shuffled), |Front(shuffled)|);
            |kept| <= |deck| <= DeckRules.DeckLength && deck[..|kept|] == kept
            && (forall i :: 0 <= i < |deck| ==> deck[i] in catalog)
            && DeckRules.WithinCopies(deck)
            && (UniqueIds(catalog) ==> UniqueIds(deck))
            && (|deck| < DeckRules.DeckLength ==>
                  forall c :: c in catalog ==> c.id in Ids(deck) || DeckRules.NameCount(deck, c.name) >= DeckRules.MaxCopies)
  {
    var selected := Front(shuffled);
    var kept := KeptFront(selected, |selected|);
    var deck := RandomDeck(shuffled);
    forall c | c in shuffled || c in catalog
      ensures c in shuffled <==> c in catalog
    {
      assert c in shuffled <==> c in multiset(shuffled);
    }
    KeptFrontMeaning(selected, |selected|);
    assert selected[..|selected|] == selected;
    assert forall c :: c in selected ==> c in shuffled;
    FilledExtends(shuffled, kept);
    FilledKeeps(shuffled, kept);
    FilledIsMaximal(shuffled, kept);
    if UniqueIds(catalog) {
      PermutationKeepsUniqueIds(catalog, shuffled);
      assert UniqueIds(selected);
      KeptFrontKeepsIds(selected, |selected|);
    }
  }

  /** The random deck builder, given the catalog in the random order the service's
      sort produced: the first twenty cards of that order are kept while fewer than
      two of a name are kept, and a short deck is then filled from the whole order. */
  method GenerateRandomDeck(catalog: seq<Card>, shuffled: seq<Card>) returns (deck: seq<Card>)
    requires multiset(shuffled) == multiset(catalog)
    ensures deck == RandomDeck(shuffled)
    ensures |deck| <= DeckRules.DeckLength
    ensures forall i :: 0 <= i < |deck| ==> deck[i] in catalog
    ensures DeckRules.WithinCopies(deck)
    ensures UniqueIds(catalog) ==> UniqueIds(deck)
    ensures |deck| < DeckRules.DeckLength ==>
              forall c :: c in catalog ==> c.id in Ids(deck) || DeckRules.NameCount(deck, c.name) >= DeckRules.MaxCopies
  {
    var selected := if |shuffled| <= DeckRules.DeckLength then shuffled else shuffled[..DeckRules.DeckLength];
    deck := KeepFromFront(selected);
    deck := FillUp(shuffled, deck);
    RandomDeckMeaning(catalog, shuffled);
  }

  /** The cards kept from the first k cards of s: each card in turn joins the kept
      cards when fewer than two of its name are kept already. */
  function KeptFront(s: seq<Card>, k: nat): (r: seq<Card>)
    requires k <= |s|
    ensures |r| <= k
  {
    if k == 0 then []
    else
      var p := KeptFront(s, k - 1);
      if DeckRules.NameCount(p, s[k - 1].name) < DeckRules.MaxCopies then p + [s[k - 1]] else p
  }

  /** The cards kept from the front come from the first k cards and hold no name more
      than twice. */
  lemma {:induction false} KeptFrontMeaning(s: seq<Card>, k: nat)
    requires k <= |s|
    ensures forall d :: d in KeptFront(s, k) ==> d in s[..k]
    ensures DeckRules.WithinCopies(KeptFront(s, k))
  {
    if k > 0 {
      var p := KeptFront(s, k - 1);
      KeptFrontMeaning(s, k - 1);
      assert s[..k] == s[..k - 1] + [s[k - 1]];
      if DeckRules.NameCount(p, s[k - 1].name) < DeckRules.MaxCopies {
        KeepsCopies(p, s[k - 1]);
      }
    }
  }

  /** Every one of the first k cards left out of the kept cards had two of its name
      kept. */
  lemma {:induction false} KeptFrontSkips(s: seq<Card>, k: nat)
    requires k <= |s|
    ensures forall j :: 0 <= j < k ==> s[j] in KeptFront(s, k)
                                        || DeckRules.NameCount(KeptFront(s, k), s[j].name) >= DeckRules.MaxCopies
  {
    if k > 0 {
      var p := KeptFront(s, k - 1);
      var r := KeptFront(s, k);
      KeptFrontSkips(s, k - 1);
      forall j | 0 <= j < k
        ensures s[j] in r || DeckRules.NameCount(r, s[j].name) >= DeckRules.MaxCopies
      {
        if r != p {
          DeckRules.NameCountAppend(p, s[k - 1], s[j].name);
        }
      }
    }
  }

  /** Keeping cards from the front of a run with distinct ids keeps them distinct. */
  lemma {:induction false} KeptFrontKeepsIds(s: seq<Card>, k: nat)
    requires k <= |s|
    ensures UniqueIds(s) ==> UniqueIds(KeptFront(s, k))
  {
    if k > 0 && UniqueIds(s) {
      KeptFrontKeepsIds(s, k - 1);
      KeptFrontMeaning(s, k - 1);
      KeepsIds(KeptFront(s, k - 1), s, k - 1);
    }
  }

  /** The first pass of the random deck builder: each card of the selection is kept,
      in order, while fewer than two cards of its name are kept (a set of the kept
      names answers the first half of that test), stopping at twenty cards. */
  method KeepFromFront(selected: seq<Card>) returns (deck: seq<Card>)
    requires |selected| <= DeckRules.DeckLength
    ensures deck == KeptFront(selected, |selected|)
    ensures UniqueIds(selected) ==> UniqueIds(deck)
  {
    var uniqueNames: set<string> := {};
    deck := [];
    for k := 0 to |selected|
      invariant deck == KeptFront(selected, k)
      invariant forall n :: n !in uniqueNames ==> DeckRules.NameCount(deck, n) == 0
    {
      var card := selected[k];
      if card.name !in uniqueNames || DeckRules.NameCount(deck, card.name) < DeckRules.MaxCopies {
        forall n | n !in uniqueNames + {card.name}
          ensures DeckRules.NameCount(deck + [card], n) == 0
        {
          DeckRules.NameCountAppend(deck, card, n);
        }
        deck := deck + [card];
        uniqueNames := uniqueNames + {card.name};
        if |deck| >= DeckRules.DeckLength {
          break;
        }
      }
    }
    KeptFrontKeepsIds(selected, |selected|);
  }

  /** A card the second pass may add to the deck: its id is not in the deck and the
      deck holds fewer than two cards of its name. */
  predicate Eligible(deck: seq<Card>, c: Card)
  {
    c.id !in Ids(deck) && DeckRules.NameCount(deck, c.name) < DeckRules.MaxCopies
  }

  /** The deck the second pass builds from deck: while it is short, the first
      eligible card of the order is added; it stops when none is left. */
  function Filled(shuffled: seq<Card>, deck: seq<Card>): (r: seq<Card>)
    decreases DeckRules.DeckLength - |deck|
  {
    if |deck| >= DeckRules.DeckLength then deck
    else
      var remaining := Select(shuffled, (c: Card) => Eligible(deck, c));
      if remaining == [] then deck else Filled(shuffled, deck + [remaining[0]])
  }

  /** The second pass only appends, and stops at twenty cards. */
  lemma {:induction false} FilledExtends(shuffled: seq<Card>, deck: seq<Card>)
    requires |deck| <= DeckRules.DeckLength
    ensures var r := Filled(shuffled, deck); |deck| <= |r| <= DeckRules.DeckLength && r[..|deck|] == deck
    decreases DeckRules.DeckLength - |deck|
  {
    if |deck| < DeckRules.DeckLength {
      var remaining := Select(shuffled, (c: Card) => Eligible(deck, c));
      if remaining != [] {
        var next := deck + [remaining[0]];
        FilledExtends(shuffled, next);
        assert Filled(shuffled, deck)[..|deck|] == Filled(shuffled, next)[..|next|][..|deck|];
      }
    }
  }

  /** Every card the second pass adds is eligible when added, so the name limit and
      distinct ids are kept, and every card comes from the order. */
  lemma {:induction false} FilledKeeps(shuffled: seq<Card>, deck: seq<Card>)
    requires DeckRules.WithinCopies(deck) && forall d :: d in deck ==> d in shuffled
    ensures var r := Filled(shuffled, deck);
            DeckRules.WithinCopies(r) && (forall d :: d in r ==> d in shuffled)
            && (UniqueIds(deck) ==> UniqueIds(r))
    decreases DeckRules.DeckLength - |deck|
  {
    if |deck| < DeckRules.DeckLength {
      var eligible := (c: Card) => Eligible(deck, c);
      var remaining := Select(shuffled, eligible);
      SelectMembers(shuffled, eligible);
      if remaining != [] {
        var card := remaining[0];
        assert card in remaining && eligible(card);
        KeepsCopies(deck, card);
        NewIdKeepsIds(deck, card);
        FilledKeeps(shuffled, deck + [card]);
      }
    }
  }

  /** A deck the second pass leaves short has no eligible card left in the order. */
  lemma {:induction false} FilledIsMaximal(shuffled: seq<Card>, deck: seq<Card>)
    ensures var r := Filled(shuffled, deck);
            |r| < DeckRules.DeckLength ==> forall c :: c in shuffled ==> !Eligible(r, c)
    decreases DeckRules.DeckLength - |deck|
  {
    if |deck| < DeckRules.DeckLength {
      var eligible := (c: Card) => Eligible(deck, c);
      var remaining := Select(shuffled, eligible);
      SelectMembers(shuffled, eligible);
      if remaining != [] {
        FilledIsMaximal(shuffled, deck + [remaining[0]]);
      } else {
        assert forall c :: c in shuffled ==> !eligible(c);
      }
    }
  }

  /** The second pass of the random deck builder: while the deck is short, add the
      first card of the whole order whose id is not in the deck and of whose name the
      deck holds fewer than two; stop when there is none. */
  method FillUp(shuffled: seq<Card>, start: seq<Card>) returns (deck: seq<Card>)
    ensures deck == Filled(shuffled, start)
  {
    deck := start;
    while |deck| < DeckRules.DeckLength
      invariant Filled(shuffled, deck) == Filled(shuffled, start)
      decreases DeckRules.DeckLength - |deck|
    {
      var remaining := Select(shuffled, (c: Card) => Eligible(deck, c));
      if |remaining| == 0 {
        break;
      }
      deck := deck + [remaining[0]];
    }
  }

  /** Keeping a card of a name with fewer than two cards keeps the name limit. */
  lemma KeepsCopies(deck: seq<Card>, card: Card)
    requires DeckRules.WithinCopies(deck) && DeckRules.NameCount(deck, card.name) < DeckRules.MaxCopies
    ensures DeckRules.WithinCopies(deck + [card])
    ensures forall n :: DeckRules.NameCount(deck + [card], n) == DeckRules.NameCount(deck, n) + (if card.name == n then 1 else 0)
  {
    forall n
      ensures DeckRules.NameCount(deck + [card], n) == DeckRules.NameCount(deck, n) + (if card.name == n then 1 else 0)
    {
      DeckRules.NameCountAppend(deck, card, n);
    }
  }

  /** Keeping the k-th card of a run with distinct ids, after cards from before it,
      keeps the ids distinct. */
  lemma KeepsIds(deck: seq<Card>, selected: seq<Card>, k: nat)
    requires k < |selected| && UniqueIds(selected) && UniqueIds(deck)
    requires forall d :: d in deck ==> d in selected[..k]
    ensures UniqueIds(deck + [selected[k]])
  {
    forall i | 0 <= i < |deck|
      ensures deck[i].id != selected[k].id
    {
      assert deck[i] in selected[..k];
      var j :| 0 <= j < k && selected[j] == deck[i];
    }
  }

  /** Adding a card whose id is not in the deck keeps the ids distinct. */
  lemma NewIdKeepsIds(deck: seq<Card>, card: Card)
    requires card.id !in Ids(deck)
    ensures UniqueIds(deck) ==> UniqueIds(deck + [card])
  {
    forall i | 0 <= i < |deck|
      ensures deck[i].id != card.id
    {
      assert deck[i] in deck;
    }
  }
}
