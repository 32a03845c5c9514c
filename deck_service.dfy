/** server/src/services/DeckService.ts: the deck validator of the deck store and the
    file-name sanitising that places a user's decks on disk. */
module DeckService {
  import opened Types
  import DeckRules

  /** The deck store's validator: a missing deck or one of the wrong size first; then
      a scan with a map of name counts that rejects a card when two of its name have
      already been counted. */
  method ValidateDeck(cards: Option<seq<Card>>) returns (r: Validation)
    ensures r == if cards.None? then Invalid(DeckSize) else DeckRules.SizeAndNames(cards.value)
    ensures r == Valid <==> cards.Some? && |cards.value| == DeckRules.DeckLength
                            && DeckRules.WithinCopies(cards.value)
  {
    if cards.None? || |cards.value| != DeckRules.DeckLength {
      return Invalid(DeckSize);
    }
    var deck := cards.value;
    DeckRules.SizeAndNamesMeaning(deck);
    var counts: map<string, nat> := map[];
    for i := 0 to |deck|
      invariant forall n :: DeckRules.CountOf(counts, n) == DeckRules.NameCount(deck[..i], n)
      invariant DeckRules.FirstThirdFrom(deck, i) == DeckRules.FirstThirdFrom(deck, 0)
    {
      var count := DeckRules.CountOf(counts, deck[i].name);
      if count >= DeckRules.MaxCopies {
        return Invalid(DuplicateName(deck[i].name));
      }
      counts := counts[deck[i].name := count + 1];
      forall n
        ensures DeckRules.CountOf(counts, n) == DeckRules.NameCount(deck[..i + 1], n)
      {
        DeckRules.NameCountStep(deck, i, n);
      }
    }
    return Valid;
  }

  // ---------------------------------------------------------------------------
  // File names

  /** The characters a file-name segment keeps: ASCII letters and digits, `_` and `-`. */
  predicate IsSafe(c: char)
  {
    ('a' <= c <= 'z') || ('A' <= c <= 'Z') || ('0' <= c <= '9') || c == '_' || c == '-'
  }

  predicate AllSafe(s: string)
  {
    forall k :: 0 <= k < |s| ==> IsSafe(s[k])
  }

  /** Every character outside the safe set replaced by `_`. */
  function Sanitize(s: string): (r: string)
    ensures |r| == |s| && AllSafe(r)
    ensures forall k :: 0 <= k < |s| && IsSafe(s[k]) ==> r[k] == s[k]
    ensures forall k :: 0 <= k < |s| && !IsSafe(s[k]) ==> r[k] == '_'
  {
    if s == [] then []
    else [if IsSafe(s[0]) then s[0] else '_'] + Sanitize(s[1..])
  }

  /** A name that is already safe is its own file name, and sanitising twice is
      sanitising once. */
  lemma SanitizeFixesSafe(s: string)
    ensures AllSafe(s) ==> Sanitize(s) == s
    ensures Sanitize(Sanitize(s)) == Sanitize(s)
  {
  }

  /** A path below a directory: path.join of a normalised directory and one segment,
      where an empty segment adds nothing. */
  function Join(dir: string, segment: string): string
  {
    if segment == [] then dir else dir + "/" + segment
  }

  /** The directory of a user's decks under the store's base directory. */
  function UserDirectory(baseDir: string, username: string): string
  {
    Join(baseDir, Sanitize(username))
  }

  /** The file name of a deck: the sanitised deck name with the `.json` extension. */
  function DeckFileName(deckName: string): (r: string)
    ensures |r| == |deckName| + 5 && r[..|deckName|] == Sanitize(deckName)
    ensures r[|deckName|..] == ".json"
  {
    Sanitize(deckName) + ".json"
  }

  /** The file of a deck in its user's directory. */
  function DeckFilePath(baseDir: string, username: string, deckName: string): string
  {
    Join(UserDirectory(baseDir, username), DeckFileName(deckName))
  }

  /** A deck file lies directly in its user's directory, which lies directly in the
      base directory (or is the base directory itself for an empty username): neither
      added segment holds a `/`, and the only `.` of the file name is the one before
      `json`, so no segment is `.` or `..`. An empty deck name gives the file `.json`. */
  lemma {:induction false} DeckFileStaysInUserDirectory(baseDir: string, username: string, deckName: string)
    ensures DeckFilePath(baseDir, username, deckName)
            == (if username == [] then baseDir else baseDir + "/" + Sanitize(username))
               + "/" + Sanitize(deckName) + ".json"
    ensures deckName == [] ==> DeckFileName(deckName) == ".json"
    ensures forall k :: 0 <= k < |Sanitize(username)| ==> Sanitize(username)[k] !in {'/', '.'}
    ensures forall k :: 0 <= k < |DeckFileName(deckName)| && DeckFileName(deckName)[k] == '.' ==> k == |deckName|
    ensures forall k :: 0 <= k < |DeckFileName(deckName)| ==> DeckFileName(deckName)[k] != '/'
  {
    var f := DeckFileName(deckName);
    var u := Sanitize(username);
    assert |u| == |username|;
    if username == [] {
      assert UserDirectory(baseDir, username) == baseDir;
    } else {
      assert UserDirectory(baseDir, username) == baseDir + "/" + u;
    }
    assert DeckFilePath(baseDir, username, deckName) == UserDirectory(baseDir, username) + "/" + f;
    forall k | 0 <= k < |f|
      ensures f[k] != '/' && (f[k] == '.' ==> k == |deckName|)
    {
      if k < |deckName| {
        assert f[k] == Sanitize(deckName)[k];
      } else {
        assert f[k] == ".json"[k - |deckName|];
      }
    }
  }
}
