/** server/src/utils/validators.ts: the deck, action, username and game id validators. */
module Validators {
  import opened Types
  import DeckRules

  // ---------------------------------------------------------------------------
  // Deck

  /** The deck validator: a missing deck or one of the wrong size is reported first;
      then the deck is scanned with a map of name counts, each count is raised before it
      is compared, and the first name whose count passes two is reported. */
  method ValidateDeck(deck: Option<seq<Card>>) returns (r: Validation)
    ensures r == if deck.None? then Invalid(DeckSize) else DeckRules.SizeAndNames(deck.value)
    ensures r == Valid <==> deck.Some? && |deck.value| == DeckRules.DeckLength
                            && DeckRules.WithinCopies(deck.value)
  {
    if deck.None? || |deck.value| != DeckRules.DeckLength {
      return Invalid(DeckSize);
    }
    var cards := deck.value;
    DeckRules.SizeAndNamesMeaning(cards);
    var counts: map<string, nat> := map[];
    for i := 0 to |cards|
      invariant forall n :: DeckRules.CountOf(counts, n) == DeckRules.NameCount(cards[..i], n)
      invariant DeckRules.FirstThirdFrom(cards, i) == DeckRules.FirstThirdFrom(cards, 0)
    {
      var name := cards[i].name;
      var count := DeckRules.CountOf(counts, name);
      counts := counts[name := count + 1];
      forall n
        ensures DeckRules.CountOf(counts, n) == DeckRules.NameCount(cards[..i + 1], n)
      {
        DeckRules.NameCountStep(cards, i, n);
      }
      if counts[name] > DeckRules.MaxCopies {
        return Invalid(DuplicateName(name));
      }
    }
    return Valid;
  }

  // ---------------------------------------------------------------------------
  // Actions

  /** The action types that name a card. */
  predicate NeedsCard(t: ActionType)
  {
    t == PlayCard || t == SetFood || t == Attack || t == UseTechnique
  }

  /** The action validator: an unknown type, then an empty player id, then the
      parameters each type needs, in that order. A card id that is empty counts as
      missing. */
  function ValidateAction(a: Action): (r: Validation)
    ensures r == Valid <==>
              a.actionType != Unrecognized && a.playerId != ""
              && (NeedsCard(a.actionType) ==> Truthy(a.cardId))
              && (a.actionType == UseTechnique ==> a.techniqueIndex.Some?)
    ensures a.actionType == Unrecognized ==> r == Invalid(UnknownActionType)
    ensures a.actionType != Unrecognized && a.playerId == "" ==> r == Invalid(MissingPlayerId)
  {
    if a.actionType == Unrecognized then Invalid(UnknownActionType)
    else if a.playerId == "" then Invalid(MissingPlayerId)
    else
      match a.actionType
      case PlayCard => if !Truthy(a.cardId) then Invalid(MissingCardId) else Valid
      case SetFood => if !Truthy(a.cardId) then Invalid(MissingCardId) else Valid
      case Attack => if !Truthy(a.cardId) then Invalid(MissingAttackerId) else Valid
      case UseTechnique =>
        if !Truthy(a.cardId) then Invalid(MissingTechniqueCardId)
        else if a.techniqueIndex.None? then Invalid(MissingTechniqueIndex)
        else Valid
      case _ => Valid
  }

  // ---------------------------------------------------------------------------
  // Whitespace and trimming as String.prototype.trim defines them

  /** The white space and line terminator characters that trimming removes. */
  predicate IsSpace(c: char)
  {
    || c == '\t' || c == '\n' || c == '\U{000B}' || c == '\U{000C}' || c == '\r' || c == ' '
    || c == '\U{00A0}' || c == '\U{1680}' || ('\U{2000}' <= c <= '\U{200A}')
    || c == '\U{2028}' || c == '\U{2029}' || c == '\U{202F}' || c == '\U{205F}'
    || c == '\U{3000}' || c == '\U{FEFF}'
  }

  /** Every character of s is white space (so is the empty string). */
  predicate Blank(s: string)
  {
    forall k :: 0 <= k < |s| ==> IsSpace(s[k])
  }

  /** s without its leading white space. */
  function TrimStart(s: string): (r: string)
    ensures |r| <= |s| && r == s[|s| - |r|..]
    ensures Blank(s[..|s| - |r|])
    ensures r != [] ==> !IsSpace(r[0])
  {
    if s != [] && IsSpace(s[0]) then
      var r := TrimStart(s[1..]);
      assert s[..|s| - |r|] == [s[0]] + s[1..][..|s[1..]| - |r|];
      r
    else s
  }

  /** s without its trailing white space. */
  function TrimEnd(s: string): (r: string)
    ensures |r| <= |s| && r == s[..|r|]
    ensures Blank(s[|r|..])
    ensures r != [] ==> !IsSpace(r[|r| - 1])
  {
    if s != [] && IsSpace(s[|s| - 1]) then
      var r := TrimEnd(s[..|s| - 1]);
      assert s[|r|..] == s[..|s| - 1][|r|..] + [s[|s| - 1]];
      r
    else s
  }

  function Trim(s: string): string
  {
    TrimEnd(TrimStart(s))
  }

  /** Trimming leaves nothing exactly when the string is all white space; otherwise
      what is left starts and ends with a character that is not white space. */
  lemma TrimEmptyIffBlank(s: string)
    ensures Trim(s) == "" <==> Blank(s)
    ensures Trim(s) != "" ==> !IsSpace(Trim(s)[0]) && !IsSpace(Trim(s)[|Trim(s)| - 1])
  {
    var t := TrimStart(s);
    if Trim(s) == "" {
      assert Blank(t[0..]);
      assert s == s[..|s| - |t|] + t;
    } else {
      assert TrimEnd(t) == t[..|Trim(s)|];
      assert Trim(s)[0] == t[0];
      assert !IsSpace(s[|s| - |t|]);
    }
  }

  // ---------------------------------------------------------------------------
  // Usernames and game ids

  /** The username validator: blank after trimming, then shorter than two characters,
      then longer than twenty, with the lengths taken before trimming. */
  function ValidateUsername(username: string): (r: Validation)
    ensures r.Invalid? ==> r.reason in {UsernameBlank, UsernameTooShort, UsernameTooLong}
  {
    if Trim(username) == "" then Invalid(UsernameBlank)
    else if |username| < 2 then Invalid(UsernameTooShort)
    else if |username| > 20 then Invalid(UsernameTooLong)
    else Valid
  }

  /** A name is accepted exactly when it has a character that is not white space and
      two to twenty characters; each rejection names the first rule it breaks. */
  lemma UsernameVerdict(username: string)
    ensures ValidateUsername(username) == Valid <==> !Blank(username) && 2 <= |username| <= 20
    ensures ValidateUsername(username) == Invalid(UsernameBlank) <==> Blank(username)
    ensures ValidateUsername(username) == Invalid(UsernameTooShort) <==> !Blank(username) && |username| < 2
    ensures ValidateUsername(username) == Invalid(UsernameTooLong) <==> !Blank(username) && |username| > 20
  {
    TrimEmptyIffBlank(username);
  }

  /** Exactly four characters, each an ASCII digit. */
  predicate FourDigits(s: string)
  {
    |s| == 4 && forall k :: 0 <= k < |s| ==> '0' <= s[k] <= '9'
  }

  /** The game id validator: blank after trimming, then not four ASCII digits. */
  function ValidateGameId(gameId: string): (r: Validation)
    ensures r.Invalid? ==> r.reason in {GameIdBlank, GameIdMalformed}
  {
    if Trim(gameId) == "" then Invalid(GameIdBlank)
    else if !FourDigits(gameId) then Invalid(GameIdMalformed)
    else Valid
  }

  /** An id is accepted exactly when it is four ASCII digits; the blank check never
      decides anything the digit check would not. */
  lemma GameIdVerdict(gameId: string)
    ensures ValidateGameId(gameId) == Valid <==> FourDigits(gameId)
    ensures ValidateGameId(gameId) == Invalid(GameIdBlank) <==> Blank(gameId)
  {
    TrimEmptyIffBlank(gameId);
    if FourDigits(gameId) {
      assert !IsSpace(gameId[0]);
    }
  }
}
