/** The deck rules the server's three deck validators share (server/src/utils/validators.ts,
    server/src/services/CardService.ts, server/src/services/DeckService.ts): a deck has
    exactly twenty cards and at most two cards of any one name. Each validator scans the
    deck once with a map of name counts and reports the first card that is the third of
    its name; FirstThirdFrom states that scan on values. */
module DeckRules {
  import opened Types

  /** The number of cards a deck must have. */
  const DeckLength := 20

  /** The number of cards of one name a deck may hold. */
  const MaxCopies := 2

  /** The number of cards of deck with the given name. */
  function NameCount(deck: seq<Card>, name: string): nat
  {
    if deck == [] then 0
    else NameCount(deck[..|deck| - 1], name) + (if deck[|deck| - 1].name == name then 1 else 0)
  }

  /** No name occurs more than twice (a name absent from the deck occurs no times). */
  predicate WithinCopies(deck: seq<Card>)
  {
    forall i :: 0 <= i < |deck| ==> NameCount(deck, deck[i].name) <= MaxCopies
  }

  /** The count a map holds for a key; a key the map does not hold counts 0. */
  function CountOf(counts: map<string, nat>, name: string): nat
  {
    if name in counts then counts[name] else 0
  }

  /** The first position at or after i whose card already has two cards of its name
      before it, or None. */
  function FirstThirdFrom(deck: seq<Card>, i: nat): (r: Option<nat>)
    requires i <= |deck|
    decreases |deck| - i
    ensures r.Some? ==> i <= r.value < |deck| && NameCount(deck[..r.value], deck[r.value].name) >= MaxCopies
    ensures r.Some? ==> forall j :: i <= j < r.value ==> NameCount(deck[..j], deck[j].name) < MaxCopies
    ensures r.None? ==> forall j :: i <= j < |deck| ==> NameCount(deck[..j], deck[j].name) < MaxCopies
  {
    if i == |deck| then None
    else if NameCount(deck[..i], deck[i].name) >= MaxCopies then Some(i)
    else FirstThirdFrom(deck, i + 1)
  }

  /** The verdict of the size check followed by the name check: the size is reported
      first, then the name of the first card that is the third of its name. */
  function SizeAndNames(deck: seq<Card>): (r: Validation)
    ensures |deck| != DeckLength ==> r == Invalid(DeckSize)
    ensures r.Invalid? ==> r.reason == DeckSize || r.reason.DuplicateName?
  {
    if |deck| != DeckLength then Invalid(DeckSize)
    else
      match FirstThirdFrom(deck, 0)
      case Some(i) => Invalid(DuplicateName(deck[i].name))
      case None => Valid
  }

  /** Adding one card to the end of a prefix adds one to the count of its name only. */
  lemma NameCountStep(deck: seq<Card>, i: nat, name: string)
    requires i < |deck|
    ensures NameCount(deck[..i + 1], name) == NameCount(deck[..i], name) + (if deck[i].name == name then 1 else 0)
  {
    assert deck[..i + 1][..i] == deck[..i];
  }

  /** Adding a card to the end of a deck adds one to the count of its name only. */
  lemma NameCountAppend(deck: seq<Card>, c: Card, name: string)
    ensures NameCount(deck + [c], name) == NameCount(deck, name) + (if c.name == name then 1 else 0)
  {
    assert (deck + [c])[..|deck|] == deck;
  }

  /** A prefix holds no more cards of a name than the whole deck. */
  lemma {:induction false} NameCountPrefix(deck: seq<Card>, j: nat, name: string)
    requires j <= |deck|
    ensures NameCount(deck[..j], name) <= NameCount(deck, name)
    decreases |deck| - j
  {
    if j < |deck| {
      NameCountStep(deck, j, name);
      NameCountPrefix(deck, j + 1, name);
    } else {
      assert deck[..j] == deck;
    }
  }

  /** A name that occurs three times has a card with two of its name before it. */
  lemma {:induction false} ThirdOccurrence(deck: seq<Card>, name: string) returns (j: nat)
    requires NameCount(deck, name) > MaxCopies
    ensures j < |deck| && deck[j].name == name && NameCount(deck[..j], name) >= MaxCopies
  {
    var front := deck[..|deck| - 1];
    if NameCount(front, name) > MaxCopies {
      j := ThirdOccurrence(front, name);
      assert front[..j] == deck[..j];
    } else {
      j := |deck| - 1;
      assert deck[..j] == front;
    }
  }

  /** The scan finds nothing exactly when no name occurs more than twice. */
  lemma FirstThirdMeaning(deck: seq<Card>)
    ensures FirstThirdFrom(deck, 0).None? <==> WithinCopies(deck)
    ensures FirstThirdFrom(deck, 0).Some? ==>
              NameCount(deck, deck[FirstThirdFrom(deck, 0).value].name) > MaxCopies
  {
    var r := FirstThirdFrom(deck, 0);
    if r.Some? {
      var i := r.value;
      NameCountStep(deck, i, deck[i].name);
      NameCountPrefix(deck, i + 1, deck[i].name);
    } else if !WithinCopies(deck) {
      var k :| 0 <= k < |deck| && NameCount(deck, deck[k].name) > MaxCopies;
      var j := ThirdOccurrence(deck, deck[k].name);
    }
  }

  /** A twenty-card deck passes the size and name checks exactly when no name occurs
      more than twice, and a rejected one names a card that occurs more than twice. */
  lemma SizeAndNamesMeaning(deck: seq<Card>)
    ensures SizeAndNames(deck) == Valid <==> |deck| == DeckLength && WithinCopies(deck)
    ensures SizeAndNames(deck).Invalid? && |deck| == DeckLength ==>
              SizeAndNames(deck).reason.DuplicateName?
              && NameCount(deck, SizeAndNames(deck).reason.name) > MaxCopies
  {
    FirstThirdMeaning(deck);
  }
}
