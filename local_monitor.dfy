/** The permissive validity filter and the within-run deduplication of the local
    `IKEAEventsMonitor` (ikea_events_monitor.py). Change detection, state
    loading and `extract_event_data` are the same as in the cloud monitor and
    live in Monitor. */
module LocalMonitor {
  import opened Strings
  import opened Collections
  import opened Events
  import CloudMonitor

  /** The promotional phrases the permissive `is_valid_event` rejects: the first
      seventeen of the cloud monitor's list. */
  const InvalidKeywords: set<string> := {
    "sign up for", "log in to", "create account", "newsletter signup", "follow us on",
    "social media", "customer service", "contact us", "store hours", "directions to store",
    "parking information", "return policy", "privacy policy", "terms and conditions",
    "shop online", "add to cart", "add to wishlist"
  }

  /** The link texts it rejects in the title: the first three of the cloud monitor's list. */
  const GenericTitles: set<string> := {
    "click here", "read more", "view all details"
  }

  /** `is_valid_event`: a title of at least 3 characters, no promotional phrase in
      the lower-cased title or description, and no generic link text in the title.
      No event indicator is needed. */
  predicate IsValidEvent(e: Event) {
    var title := Lower(e.title);
    var description := Lower(e.description);
    && |e.title| >= 3
    && !(AnyOccurs(InvalidKeywords, title) || AnyOccurs(InvalidKeywords, description))
    && !AnyOccurs(GenericTitles, title)
  }

  lemma ShortTitleInvalid(e: Event)
    requires |e.title| < 3
    ensures !IsValidEvent(e)
  {
  }

  /** A promotional phrase rejects the event. */
  lemma InvalidKeywordVetoes(e: Event, w: string)
    requires w in InvalidKeywords
    requires Contains(Lower(e.title), w) || Contains(Lower(e.description), w)
    ensures !IsValidEvent(e)
  {
  }

  /** The local keyword lists are parts of the cloud ones. */
  lemma KeywordsAreCloudKeywords()
    ensures InvalidKeywords <= CloudMonitor.InvalidKeywords
    ensures GenericTitles <= CloudMonitor.GenericTitles
  {
  }

  /** Everything the strict cloud filter accepts, the permissive one accepts too. */
  lemma StrictImpliesPermissive(e: Event)
    requires CloudMonitor.IsValidEvent(e)
    ensures IsValidEvent(e)
  {
    KeywordsAreCloudKeywords();
    var title := Lower(e.title);
    var description := Lower(e.description);
    if AnyOccurs(InvalidKeywords, title) {
      AnyOccursMono(InvalidKeywords, CloudMonitor.InvalidKeywords, title);
    }
    if AnyOccurs(InvalidKeywords, description) {
      AnyOccursMono(InvalidKeywords, CloudMonitor.InvalidKeywords, description);
    }
    if AnyOccurs(GenericTitles, title) {
      AnyOccursMono(GenericTitles, CloudMonitor.GenericTitles, title);
    }
  }

  lemma BingoNightHasNoInvalidKeywordPart0(s: string, alphabet: set<char>)
    requires alphabet == {' ', 'b', 'g', 'h', 'i', 'n', 'o', 't'}
    requires forall j :: 0 <= j < |s| ==> s[j] in alphabet
    ensures !Contains(s, "sign up for")
    ensures !Contains(s, "log in to")
    ensures !Contains(s, "create account")
    ensures !Contains(s, "newsletter signup")
    ensures !Contains(s, "follow us on")
  {
    NotContainsByChar(s, alphabet, "sign up for", 0);
    NotContainsByChar(s, alphabet, "log in to", 0);
    NotContainsByChar(s, alphabet, "create account", 0);
    NotContainsByChar(s, alphabet, "newsletter signup", 1);
    NotContainsByChar(s, alphabet, "follow us on", 0);
  }

  lemma BingoNightHasNoInvalidKeywordPart1(s: string, alphabet: set<char>)
    requires alphabet == {' ', 'b', 'g', 'h', 'i', 'n', 'o', 't'}
    requires forall j :: 0 <= j < |s| ==> s[j] in alphabet
    ensures !Contains(s, "social media")
    ensures !Contains(s, "customer service")
    ensures !Contains(s, "contact us")
    ensures !Contains(s, "store hours")
    ensures !Contains(s, "directions to store")
  {
    NotContainsByChar(s, alphabet, "social media", 0);
    NotContainsByChar(s, alphabet, "customer service", 0);
    NotContainsByChar(s, alphabet, "contact us", 0);
    NotContainsByChar(s, alphabet, "store hours", 0);
    NotContainsByChar(s, alphabet, "directions to store", 0);
  }

  lemma BingoNightHasNoInvalidKeywordPart2(s: string, alphabet: set<char>)
    requires alphabet == {' ', 'b', 'g', 'h', 'i', 'n', 'o', 't'}
    requires forall j :: 0 <= j < |s| ==> s[j] in alphabet
    ensures !Contains(s, "parking information")
    ensures !Contains(s, "return policy")
    ensures !Contains(s, "privacy policy")
    ensures !Contains(s, "terms and conditions")
    ensures !Contains(s, "shop online")
  {
    NotContainsByChar(s, alphabet, "parking information", 0);
    NotContainsByChar(s, alphabet, "return policy", 0);
    NotContainsByChar(s, alphabet, "privacy policy", 0);
    NotContainsByChar(s, alphabet, "terms and conditions", 1);
    NotContainsByChar(s, alphabet, "shop online", 0);
  }

  lemma BingoNightHasNoInvalidKeywordPart3(s: string, alphabet: set<char>)
    requires alphabet == {' ', 'b', 'g', 'h', 'i', 'n', 'o', 't'}
    requires forall j :: 0 <= j < |s| ==> s[j] in alphabet
    ensures !Contains(s, "add to cart")
    ensures !Contains(s, "add to wishlist")
  {
    NotContainsByChar(s, alphabet, "add to cart", 0);
    NotContainsByChar(s, alphabet, "add to wishlist", 0);
  }

  /** No promotional phrase of the permissive filter occurs in "bingo night". */
  lemma BingoNightHasNoInvalidKeyword()
    ensures !AnyOccurs(InvalidKeywords, "bingo night")
  {
    var s := "bingo night";
    var alphabet := {' ', 'b', 'g', 'h', 'i', 'n', 'o', 't'};
    BingoNightHasNoInvalidKeywordAlphabet(s, alphabet);
    BingoNightHasNoInvalidKeywordPart0(s, alphabet);
    BingoNightHasNoInvalidKeywordPart1(s, alphabet);
    BingoNightHasNoInvalidKeywordPart2(s, alphabet);
    BingoNightHasNoInvalidKeywordPart3(s, alphabet);
  }

  lemma BingoNightHasNoInvalidKeywordAlphabet(s: string, alphabet: set<char>)
    requires s == "bingo night" && alphabet == {' ', 'b', 'g', 'h', 'i', 'n', 'o', 't'}
    ensures forall j :: 0 <= j < |s| ==> s[j] in alphabet
  {
  }

  lemma BingoNightIsNotGenericPart0(s: string, alphabet: set<char>)
    requires alphabet == {' ', 'b', 'g', 'h', 'i', 'n', 'o', 't'}
    requires forall j :: 0 <= j < |s| ==> s[j] in alphabet
    ensures !Contains(s, "click here")
    ensures !Contains(s, "read more")
    ensures !Contains(s, "view all details")
  {
    NotContainsByChar(s, alphabet, "click here", 0);
    NotContainsByChar(s, alphabet, "read more", 0);
    NotContainsByChar(s, alphabet, "view all details", 0);
  }

  /** No generic link text occurs in "bingo night". */
  lemma BingoNightIsNotGeneric()
    ensures !AnyOccurs(GenericTitles, "bingo night")
  {
    var s := "bingo night";
    var alphabet := {' ', 'b', 'g', 'h', 'i', 'n', 'o', 't'};
    BingoNightIsNotGenericAlphabet(s, alphabet);
    BingoNightIsNotGenericPart0(s, alphabet);
  }

  lemma BingoNightIsNotGenericAlphabet(s: string, alphabet: set<char>)
    requires s == "bingo night" && alphabet == {' ', 'b', 'g', 'h', 'i', 'n', 'o', 't'}
    ensures forall j :: 0 <= j < |s| ==> s[j] in alphabet
  {
  }

  /** "Bingo Night" passes the permissive filter whenever its description has no
      promotional phrase, although the cloud title filter rejects it. */
  lemma BingoNightAccepted(date: string, description: string, url: string, location: string)
    requires !AnyOccurs(InvalidKeywords, Lower(description))
    ensures IsValidEvent(Event("Bingo Night", date, description, url, location))
    ensures !CloudMonitor.IsValidEventTitle("Bingo Night")
  {
    CloudMonitor.LowerBingoNight();
    BingoNightHasNoInvalidKeyword();
    BingoNightIsNotGeneric();
    CloudMonitor.BingoNightTitleRejected();
  }

  // ------------------------------------------------------------ deduplication

  /** The md5 pre-image of `deduplicate_events`: the lower-cased title followed by
      the first 100 characters of the description. md5 is modelled as the
      identity on it, which assumes that md5 has no collisions. */
  function DedupKey(e: Event): string {
    Lower(e.title + Take(e.description, 100))
  }

  /** `deduplicate_events`: the first event of each key, in input order. */
  method DeduplicateEvents(events: seq<Event>) returns (unique: seq<Event>)
    ensures unique == KeepFirst(events, DedupKey)
  {
    if |events| == 0 {
      return events;
    }
    unique := [];
    var seenHashes: set<string> := {};
    for i := 0 to |events|
      invariant unique == KeepFirst(events[..i], DedupKey)
      invariant seenHashes == KeysOf(unique, DedupKey)
    {
      var e := events[i];
      assert events[..i + 1] == events[..i] + [e];
      unique, seenHashes := KeepIfUnseen(e, DedupKey, unique, seenHashes, events[..i]);
    }
    assert events[..|events|] == events;
  }

  /** The output of deduplication: in input order, one event per key, and no key lost. */
  lemma DeduplicatedShape(events: seq<Event>)
    ensures IsSubsequence(KeepFirst(events, DedupKey), events)
    ensures DistinctKeys(KeepFirst(events, DedupKey), DedupKey)
    ensures KeysOf(KeepFirst(events, DedupKey), DedupKey) == KeysOf(events, DedupKey)
    ensures events == [] ==> KeepFirst(events, DedupKey) == []
  {
  }

  /** The first event of every key is the one kept. */
  lemma FirstOccurrenceKept(events: seq<Event>, i: nat)
    requires i < |events| && DedupKey(events[i]) !in KeysOf(events[..i], DedupKey)
    ensures events[i] in KeepFirst(events, DedupKey)
  {
    KeepFirstKeepsFirst(events, i, DedupKey);
  }

  /** Deduplicating a deduplicated list changes nothing. */
  lemma DeduplicateIdempotent(events: seq<Event>)
    ensures KeepFirst(KeepFirst(events, DedupKey), DedupKey) == KeepFirst(events, DedupKey)
  {
    KeepFirstIdempotent(events, DedupKey);
  }

  /** The key is lower-cased, so titles that differ only in case are duplicates. */
  lemma DedupKeyIgnoresCase(e: Event)
    ensures DedupKey(e.(title := Lower(e.title))) == DedupKey(e)
  {
    var d := Take(e.description, 100);
    LowerAppend(Lower(e.title), d);
    LowerAppend(e.title, d);
    LowerIdempotent(e.title);
  }

  /** Only the first 100 characters of the description count. */
  lemma DedupKeyIgnoresLongTail(e: Event, tail: string)
    requires |e.description| >= 100
    ensures DedupKey(e.(description := e.description + tail)) == DedupKey(e)
  {
    assert (e.description + tail)[..100] == e.description[..100];
  }

  /** A later copy of an event that differs only in title case, link or store is dropped. */
  lemma LaterNearDuplicateDropped(e: Event, url: string, location: string)
    ensures KeepFirst([e, e.(title := Lower(e.title), url := url, location := location)], DedupKey) == [e]
  {
    var copy := e.(title := Lower(e.title), url := url, location := location);
    assert DedupKey(copy) == DedupKey(e.(title := Lower(e.title)));
    DedupKeyIgnoresCase(e);
    assert [e, copy] == [e] + [copy];
    assert DedupKey(copy) in KeysOf([e], DedupKey);
    KeepFirstDropsLater([e], copy, DedupKey);
    KeepFirstOfDistinct([e], DedupKey);
  }
}
