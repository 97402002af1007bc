/** The strict validity filters and the parsing loops of `IKEAEventsMonitorCloud`
    (ikea_events_monitor_cloud.py). Change detection, state loading and
    `extract_event_data` are shared with the local monitor and live in Monitor. */
module CloudMonitor {
  import opened Strings
  import opened Collections
  import opened Events
  import Monitor

  // -------------------------------------------------------------- keywords

  /** The promotional phrases `is_valid_event` rejects in the title or the description. */
  const InvalidKeywords: set<string> := {
    "sign up for", "log in to", "create account", "newsletter signup", "follow us on",
    "social media", "customer service", "contact us", "store hours", "directions to store",
    "parking information", "return policy", "privacy policy", "terms and conditions",
    "shop online", "add to cart", "add to wishlist", "ikea family",
    "rewards and instant benefits", "business owner", "meet ikea for business",
    "enjoy rewards", "instant benefits", "family membership", "loyalty program", "credit card",
    "ikea card", "financing", "delivery", "assembly", "installation", "catalog", "brochure",
    "flyer"
  }

  /** The link texts `is_valid_event` rejects in the title. */
  const GenericTitles: set<string> := {
    "click here", "read more", "view all details", "learn more", "find out more",
    "discover more"
  }

  /** At least one of these must occur in the title or the description. */
  const EventIndicators: set<string> := {
    "workshop", "class", "session", "seminar", "training", "demonstration", "tour",
    "presentation", "meeting", "event", "activity", "program", "course", "lesson", "cooking",
    "crafting", "design", "decorating", "sustainability", "organization", "storage", "kids",
    "children", "family fun", "story time"
  }

  /** The phrases `is_valid_event_title` rejects in the title. */
  const TitleInvalidKeywords: set<string> := {
    "ikea family", "rewards and instant benefits", "enjoy rewards", "business owner",
    "meet ikea for business", "family membership", "loyalty program", "credit card",
    "ikea card", "financing", "delivery", "assembly", "installation", "catalog", "brochure",
    "flyer", "newsletter", "sign up", "log in", "create account", "customer service",
    "contact us", "store hours", "directions", "parking", "return policy", "privacy policy",
    "terms and conditions", "shop online", "add to cart", "add to wishlist", "click here",
    "read more", "view all details", "learn more", "find out more"
  }

  /** `is_valid_event_title` accepts a title with one of these: the event
      indicators of `is_valid_event` and eight sale and celebration words. */
  const TitleIndicators: set<string> := EventIndicators + SaleIndicators

  const SaleIndicators: set<string> := {
    "sale", "warehouse sale", "clearance", "special offer", "launch", "opening", "celebration",
    "festival"
  }

  // ----------------------------------------------------------- classifiers

  /** `is_valid_event`: a title of at least 3 characters, no promotional phrase in
      the lower-cased title or description, no generic link text in the title, and
      an event indicator in one of the two. */
  predicate IsValidEvent(e: Event) {
    var title := Lower(e.title);
    var description := Lower(e.description);
    && |e.title| >= 3
    && !(AnyOccurs(InvalidKeywords, title) || AnyOccurs(InvalidKeywords, description))
    && !AnyOccurs(GenericTitles, title)
    && (AnyOccurs(EventIndicators, title) || AnyOccurs(EventIndicators, description))
  }

  /** `is_valid_event_title`: no promotional phrase and some indicator in the lower-cased title. */
  predicate IsValidEventTitle(title: string) {
    var t := Lower(title);
    !AnyOccurs(TitleInvalidKeywords, t) && AnyOccurs(TitleIndicators, t)
  }

  lemma ShortTitleInvalid(e: Event)
    requires |e.title| < 3
    ensures !IsValidEvent(e)
  {
  }

  /** A promotional phrase rejects the event whatever indicators it also has. */
  lemma InvalidKeywordVetoes(e: Event, w: string)
    requires w in InvalidKeywords
    requires Contains(Lower(e.title), w) || Contains(Lower(e.description), w)
    ensures !IsValidEvent(e)
  {
  }

  /** The filters lower-case before they compare, so the case of the input does not matter. */
  lemma IsValidEventIgnoresCase(e: Event)
    ensures IsValidEvent(e) <==> IsValidEvent(e.(title := Lower(e.title), description := Lower(e.description)))
  {
    LowerIdempotent(e.title);
    LowerIdempotent(e.description);
  }

  lemma IsValidEventTitleIgnoresCase(title: string)
    ensures IsValidEventTitle(title) <==> IsValidEventTitle(Lower(title))
  {
    LowerIdempotent(title);
  }

  /** A promotional phrase in the title rejects it whatever indicator it also has. */
  lemma TitleInvalidKeywordVetoes(title: string, w: string)
    requires w in TitleInvalidKeywords && Contains(Lower(title), w)
    ensures !IsValidEventTitle(title)
  {
  }

  /** Every event indicator is also a title indicator. */
  lemma IndicatorsAreTitleIndicators(title: string)
    requires AnyOccurs(EventIndicators, Lower(title))
    ensures AnyOccurs(TitleIndicators, Lower(title))
  {
    AnyOccursMono(EventIndicators, TitleIndicators, Lower(title));
  }

  // -------------------------------------------------------------- examples

  lemma LowerSignUp()
    ensures Lower("Sign up for IKEA Family") == "sign up for ikea family"
  {
  }

  /** "Sign up for IKEA Family" is rejected, whatever the description says. */
  lemma SignUpRejected(date: string, description: string, url: string, location: string)
    ensures !IsValidEvent(Event("Sign up for IKEA Family", date, description, url, location))
  {
    LowerSignUp();
    var t := "sign up for ikea family";
    assert OccursAt(t, "sign up for", 0);
    assert Contains(t, "sign up for");
  }

  lemma LowerKidsCooking()
    ensures Lower("Kids Cooking Workshop") == "kids cooking workshop"
  {
  }

  lemma KidsCookingHasNoInvalidKeywordPart0(s: string, alphabet: set<char>)
    requires alphabet == {' ', 'c', 'd', 'g', 'h', 'i', 'k', 'n', 'o', 'p', 'r', 's', 'w'}
    requires forall j :: 0 <= j < |s| ==> s[j] in alphabet
    ensures !Contains(s, "sign up for")
    ensures !Contains(s, "log in to")
    ensures !Contains(s, "create account")
    ensures !Contains(s, "newsletter signup")
    ensures !Contains(s, "follow us on")
  {
    NotContainsByChar(s, alphabet, "sign up for", 5);
    NotContainsByChar(s, alphabet, "log in to", 0);
    NotContainsByChar(s, alphabet, "create account", 2);
    NotContainsByChar(s, alphabet, "newsletter signup", 1);
    NotContainsByChar(s, alphabet, "follow us on", 0);
  }

  lemma KidsCookingHasNoInvalidKeywordPart1(s: string, alphabet: set<char>)
    requires alphabet == {' ', 'c', 'd', 'g', 'h', 'i', 'k', 'n', 'o', 'p', 'r', 's', 'w'}
    requires forall j :: 0 <= j < |s| ==> s[j] in alphabet
    ensures !Contains(s, "social media")
    ensures !Contains(s, "customer service")
    ensures !Contains(s, "contact us")
    ensures !Contains(s, "store hours")
    ensures !Contains(s, "directions to store")
  {
    NotContainsByChar(s, alphabet, "social media", 4);
    NotContainsByChar(s, alphabet, "customer service", 1);
    NotContainsByChar(s, alphabet, "contact us", 3);
    NotContainsByChar(s, alphabet, "store hours", 1);
    NotContainsByChar(s, alphabet, "directions to store", 3);
  }

  lemma KidsCookingHasNoInvalidKeywordPart2(s: string, alphabet: set<char>)
    requires alphabet == {' ', 'c', 'd', 'g', 'h', 'i', 'k', 'n', 'o', 'p', 'r', 's', 'w'}
    requires forall j :: 0 <= j < |s| ==> s[j] in alphabet
    ensures !Contains(s, "parking information")
    ensures !Contains(s, "return policy")
    ensures !Contains(s, "privacy policy")
    ensures !Contains(s, "terms and conditions")
    ensures !Contains(s, "shop online")
  {
    NotContainsByChar(s, alphabet, "parking information", 1);
    NotContainsByChar(s, alphabet, "return policy", 1);
    NotContainsByChar(s, alphabet, "privacy policy", 3);
    NotContainsByChar(s, alphabet, "terms and conditions", 0);
    NotContainsByChar(s, alphabet, "shop online", 7);
  }

  lemma KidsCookingHasNoInvalidKeywordPart3(s: string, alphabet: set<char>)
    requires alphabet == {' ', 'c', 'd', 'g', 'h', 'i', 'k', 'n', 'o', 'p', 'r', 's', 'w'}
    requires forall j :: 0 <= j < |s| ==> s[j] in alphabet
    ensures !Contains(s, "add to cart")
    ensures !Contains(s, "add to wishlist")
    ensures !Contains(s, "ikea family")
    ensures !Contains(s, "rewards and instant benefits")
    ensures !Contains(s, "business owner")
  {
    NotContainsByChar(s, alphabet, "add to cart", 0);
    NotContainsByChar(s, alphabet, "add to wishlist", 0);
    NotContainsByChar(s, alphabet, "ikea family", 2);
    NotContainsByChar(s, alphabet, "rewards and instant benefits", 1);
    NotContainsByChar(s, alphabet, "business owner", 0);
  }

  lemma KidsCookingHasNoInvalidKeywordPart4(s: string, alphabet: set<char>)
    requires alphabet == {' ', 'c', 'd', 'g', 'h', 'i', 'k', 'n', 'o', 'p', 'r', 's', 'w'}
    requires forall j :: 0 <= j < |s| ==> s[j] in alphabet
    ensures !Contains(s, "meet ikea for business")
    ensures !Contains(s, "enjoy rewards")
    ensures !Contains(s, "instant benefits")
    ensures !Contains(s, "family membership")
    ensures !Contains(s, "loyalty program")
  {
    NotContainsByChar(s, alphabet, "meet ikea for business", 0);
    NotContainsByChar(s, alphabet, "enjoy rewards", 0);
    NotContainsByChar(s, alphabet, "instant benefits", 3);
    NotContainsByChar(s, alphabet, "family membership", 0);
    NotContainsByChar(s, alphabet, "loyalty program", 0);
  }

  lemma KidsCookingHasNoInvalidKeywordPart5(s: string, alphabet: set<char>)
    requires alphabet == {' ', 'c', 'd', 'g', 'h', 'i', 'k', 'n', 'o', 'p', 'r', 's', 'w'}
    requires forall j :: 0 <= j < |s| ==> s[j] in alphabet
    ensures !Contains(s, "credit card")
    ensures !Contains(s, "ikea card")
    ensures !Contains(s, "financing")
    ensures !Contains(s, "delivery")
    ensures !Contains(s, "assembly")
  {
    NotContainsByChar(s, alphabet, "credit card", 2);
    NotContainsByChar(s, alphabet, "ikea card", 2);
    NotContainsByChar(s, alphabet, "financing", 0);
    NotContainsByChar(s, alphabet, "delivery", 1);
    NotContainsByChar(s, alphabet, "assembly", 0);
  }

  lemma KidsCookingHasNoInvalidKeywordPart6(s: string, alphabet: set<char>)
    requires alphabet == {' ', 'c', 'd', 'g', 'h', 'i', 'k', 'n', 'o', 'p', 'r', 's', 'w'}
    requires forall j :: 0 <= j < |s| ==> s[j] in alphabet
    ensures !Contains(s, "installation")
    ensures !Contains(s, "catalog")
    ensures !Contains(s, "brochure")
    ensures !Contains(s, "flyer")
  {
    NotContainsByChar(s, alphabet, "installation", 3);
    NotContainsByChar(s, alphabet, "catalog", 1);
    NotContainsByChar(s, alphabet, "brochure", 0);
    NotContainsByChar(s, alphabet, "flyer", 0);
  }

  /** No promotional phrase occurs in "kids cooking workshop". */
  lemma KidsCookingHasNoInvalidKeyword()
    ensures !AnyOccurs(InvalidKeywords, "kids cooking workshop")
  {
    var s := "kids cooking workshop";
    var alphabet := {' ', 'c', 'd', 'g', 'h', 'i', 'k', 'n', 'o', 'p', 'r', 's', 'w'};
    KidsCookingHasNoInvalidKeywordAlphabet(s, alphabet);
    KidsCookingHasNoInvalidKeywordPart0(s, alphabet);
    KidsCookingHasNoInvalidKeywordPart1(s, alphabet);
    KidsCookingHasNoInvalidKeywordPart2(s, alphabet);
    KidsCookingHasNoInvalidKeywordPart3(s, alphabet);
    KidsCookingHasNoInvalidKeywordPart4(s, alphabet);
    KidsCookingHasNoInvalidKeywordPart5(s, alphabet);
    KidsCookingHasNoInvalidKeywordPart6(s, alphabet);
  }

  lemma KidsCookingHasNoInvalidKeywordAlphabet(s: string, alphabet: set<char>)
    requires s == "kids cooking workshop" && alphabet == {' ', 'c', 'd', 'g', 'h', 'i', 'k', 'n', 'o', 'p', 'r', 's', 'w'}
    ensures forall j :: 0 <= j < |s| ==> s[j] in alphabet
  {
  }

  lemma KidsCookingIsNotGenericPart0(s: string, alphabet: set<char>)
    requires alphabet == {' ', 'c', 'd', 'g', 'h', 'i', 'k', 'n', 'o', 'p', 'r', 's', 'w'}
    requires forall j :: 0 <= j < |s| ==> s[j] in alphabet
    ensures !Contains(s, "click here")
    ensures !Contains(s, "read more")
    ensures !Contains(s, "view all details")
    ensures !Contains(s, "learn more")
    ensures !Contains(s, "find out more")
  {
    NotContainsByChar(s, alphabet, "click here", 1);
    NotContainsByChar(s, alphabet, "read more", 1);
    NotContainsByChar(s, alphabet, "view all details", 0);
    NotContainsByChar(s, alphabet, "learn more", 0);
    NotContainsByChar(s, alphabet, "find out more", 0);
  }

  lemma KidsCookingIsNotGenericPart1(s: string, alphabet: set<char>)
    requires alphabet == {' ', 'c', 'd', 'g', 'h', 'i', 'k', 'n', 'o', 'p', 'r', 's', 'w'}
    requires forall j :: 0 <= j < |s| ==> s[j] in alphabet
    ensures !Contains(s, "discover more")
  {
    NotContainsByChar(s, alphabet, "discover more", 5);
  }

  /** No generic link text occurs in "kids cooking workshop". */
  lemma KidsCookingIsNotGeneric()
    ensures !AnyOccurs(GenericTitles, "kids cooking workshop")
  {
    var s := "kids cooking workshop";
    var alphabet := {' ', 'c', 'd', 'g', 'h', 'i', 'k', 'n', 'o', 'p', 'r', 's', 'w'};
    KidsCookingIsNotGenericAlphabet(s, alphabet);
    KidsCookingIsNotGenericPart0(s, alphabet);
    KidsCookingIsNotGenericPart1(s, alphabet);
  }

  lemma KidsCookingIsNotGenericAlphabet(s: string, alphabet: set<char>)
    requires s == "kids cooking workshop" && alphabet == {' ', 'c', 'd', 'g', 'h', 'i', 'k', 'n', 'o', 'p', 'r', 's', 'w'}
    ensures forall j :: 0 <= j < |s| ==> s[j] in alphabet
  {
  }

  /** "Kids Cooking Workshop" is accepted with any description free of promotional phrases. */
  lemma KidsCookingAccepted(date: string, description: string, url: string, location: string)
    requires !AnyOccurs(InvalidKeywords, Lower(description))
    ensures IsValidEvent(Event("Kids Cooking Workshop", date, description, url, location))
  {
    LowerKidsCooking();
    KidsCookingHasNoInvalidKeyword();
    KidsCookingIsNotGeneric();
    var t := "kids cooking workshop";
    assert OccursAt(t, "workshop", 13);
    assert Contains(t, "workshop");
  }

  lemma LowerBingoNight()
    ensures Lower("Bingo Night") == "bingo night"
  {
  }

  /** "Bingo Night" names no indicator, so `is_valid_event_title` rejects it. */
  lemma BingoNightTitleRejected()
    ensures !IsValidEventTitle("Bingo Night")
  {
    LowerBingoNight();
    BingoNightHasNoEventIndicator();
    BingoNightHasNoSaleIndicator();
  }

  lemma BingoNightHasNoEventIndicatorPart0(s: string, alphabet: set<char>)
    requires alphabet == {' ', 'b', 'g', 'h', 'i', 'n', 'o', 't'}
    requires forall j :: 0 <= j < |s| ==> s[j] in alphabet
    ensures !Contains(s, "workshop")
    ensures !Contains(s, "class")
    ensures !Contains(s, "session")
    ensures !Contains(s, "seminar")
    ensures !Contains(s, "training")
  {
    NotContainsByChar(s, alphabet, "workshop", 0);
    NotContainsByChar(s, alphabet, "class", 0);
    NotContainsByChar(s, alphabet, "session", 0);
    NotContainsByChar(s, alphabet, "seminar", 0);
    NotContainsByChar(s, alphabet, "training", 1);
  }

  lemma BingoNightHasNoEventIndicatorPart1(s: string, alphabet: set<char>)
    requires alphabet == {' ', 'b', 'g', 'h', 'i', 'n', 'o', 't'}
    requires forall j :: 0 <= j < |s| ==> s[j] in alphabet
    ensures !Contains(s, "demonstration")
    ensures !Contains(s, "tour")
    ensures !Contains(s, "presentation")
    ensures !Contains(s, "meeting")
    ensures !Contains(s, "event")
  {
    NotContainsByChar(s, alphabet, "demonstration", 0);
    NotContainsByChar(s, alphabet, "tour", 2);
    NotContainsByChar(s, alphabet, "presentation", 0);
    NotContainsByChar(s, alphabet, "meeting", 0);
    NotContainsByChar(s, alphabet, "event", 0);
  }

  lemma BingoNightHasNoEventIndicatorPart2(s: string, alphabet: set<char>)
    requires alphabet == {' ', 'b', 'g', 'h', 'i', 'n', 'o', 't'}
    requires forall j :: 0 <= j < |s| ==> s[j] in alphabet
    ensures !Contains(s, "activity")
    ensures !Contains(s, "program")
    ensures !Contains(s, "course")
    ensures !Contains(s, "lesson")
    ensures !Contains(s, "cooking")
  {
    NotContainsByChar(s, alphabet, "activity", 0);
    NotContainsByChar(s, alphabet, "program", 0);
    NotContainsByChar(s, alphabet, "course", 0);
    NotContainsByChar(s, alphabet, "lesson", 0);
    NotContainsByChar(s, alphabet, "cooking", 0);
  }

  lemma BingoNightHasNoEventIndicatorPart3(s: string, alphabet: set<char>)
    requires alphabet == {' ', 'b', 'g', 'h', 'i', 'n', 'o', 't'}
    requires forall j :: 0 <= j < |s| ==> s[j] in alphabet
    ensures !Contains(s, "crafting")
    ensures !Contains(s, "design")
    ensures !Contains(s, "decorating")
    ensures !Contains(s, "sustainability")
    ensures !Contains(s, "organization")
  {
    NotContainsByChar(s, alphabet, "crafting", 0);
    NotContainsByChar(s, alphabet, "design", 0);
    NotContainsByChar(s, alphabet, "decorating", 0);
    NotContainsByChar(s, alphabet, "sustainability", 0);
    NotContainsByChar(s, alphabet, "organization", 1);
  }

  lemma BingoNightHasNoEventIndicatorPart4(s: string, alphabet: set<char>)
    requires alphabet == {' ', 'b', 'g', 'h', 'i', 'n', 'o', 't'}
    requires forall j :: 0 <= j < |s| ==> s[j] in alphabet
    ensures !Contains(s, "storage")
    ensures !Contains(s, "kids")
    ensures !Contains(s, "children")
    ensures !Contains(s, "family fun")
    ensures !Contains(s, "story time")
  {
    NotContainsByChar(s, alphabet, "storage", 0);
    NotContainsByChar(s, alphabet, "kids", 0);
    NotContainsByChar(s, alphabet, "children", 0);
    NotContainsByChar(s, alphabet, "family fun", 0);
    NotContainsByChar(s, alphabet, "story time", 0);
  }

  /** No event indicator occurs in "bingo night". */
  lemma BingoNightHasNoEventIndicator()
    ensures !AnyOccurs(EventIndicators, "bingo night")
  {
    var s := "bingo night";
    var alphabet := {' ', 'b', 'g', 'h', 'i', 'n', 'o', 't'};
    BingoNightHasNoEventIndicatorAlphabet(s, alphabet);
    BingoNightHasNoEventIndicatorPart0(s, alphabet);
    BingoNightHasNoEventIndicatorPart1(s, alphabet);
    BingoNightHasNoEventIndicatorPart2(s, alphabet);
    BingoNightHasNoEventIndicatorPart3(s, alphabet);
    BingoNightHasNoEventIndicatorPart4(s, alphabet);
  }

  lemma BingoNightHasNoEventIndicatorAlphabet(s: string, alphabet: set<char>)
    requires s == "bingo night" && alphabet == {' ', 'b', 'g', 'h', 'i', 'n', 'o', 't'}
    ensures forall j :: 0 <= j < |s| ==> s[j] in alphabet
  {
  }

  lemma BingoNightHasNoSaleIndicatorPart0(s: string, alphabet: set<char>)
    requires alphabet == {' ', 'b', 'g', 'h', 'i', 'n', 'o', 't'}
    requires forall j :: 0 <= j < |s| ==> s[j] in alphabet
    ensures !Contains(s, "sale")
    ensures !Contains(s, "warehouse sale")
    ensures !Contains(s, "clearance")
    ensures !Contains(s, "special offer")
    ensures !Contains(s, "launch")
  {
    NotContainsByChar(s, alphabet, "sale", 0);
    NotContainsByChar(s, alphabet, "warehouse sale", 0);
    NotContainsByChar(s, alphabet, "clearance", 0);
    NotContainsByChar(s, alphabet, "special offer", 0);
    NotContainsByChar(s, alphabet, "launch", 0);
  }

  lemma BingoNightHasNoSaleIndicatorPart1(s: string, alphabet: set<char>)
    requires alphabet == {' ', 'b', 'g', 'h', 'i', 'n', 'o', 't'}
    requires forall j :: 0 <= j < |s| ==> s[j] in alphabet
    ensures !Contains(s, "opening")
    ensures !Contains(s, "celebration")
    ensures !Contains(s, "festival")
  {
    NotContainsByChar(s, alphabet, "opening", 1);
    NotContainsByChar(s, alphabet, "celebration", 0);
    NotContainsByChar(s, alphabet, "festival", 0);
  }

  /** No sale or celebration word occurs in "bingo night". */
  lemma BingoNightHasNoSaleIndicator()
    ensures !AnyOccurs(SaleIndicators, "bingo night")
  {
    var s := "bingo night";
    var alphabet := {' ', 'b', 'g', 'h', 'i', 'n', 'o', 't'};
    BingoNightHasNoSaleIndicatorAlphabet(s, alphabet);
    BingoNightHasNoSaleIndicatorPart0(s, alphabet);
    BingoNightHasNoSaleIndicatorPart1(s, alphabet);
  }

  lemma BingoNightHasNoSaleIndicatorAlphabet(s: string, alphabet: set<char>)
    requires s == "bingo night" && alphabet == {' ', 'b', 'g', 'h', 'i', 'n', 'o', 't'}
    ensures forall j :: 0 <= j < |s| ==> s[j] in alphabet
  {
  }

  lemma LowerWarehouseSale()
    ensures Lower("Warehouse Sale") == "warehouse sale"
  {
  }

  lemma WarehouseSaleHasNoInvalidKeywordPart0(s: string, alphabet: set<char>)
    requires alphabet == {' ', 'a', 'e', 'h', 'l', 'o', 'r', 's', 'u', 'w'}
    requires forall j :: 0 <= j < |s| ==> s[j] in alphabet
    ensures !Contains(s, "ikea family")
    ensures !Contains(s, "rewards and instant benefits")
    ensures !Contains(s, "enjoy rewards")
    ensures !Contains(s, "business owner")
    ensures !Contains(s, "meet ikea for business")
  {
    NotContainsByChar(s, alphabet, "ikea family", 0);
    NotContainsByChar(s, alphabet, "rewards and instant benefits", 5);
    NotContainsByChar(s, alphabet, "enjoy rewards", 1);
    NotContainsByChar(s, alphabet, "business owner", 0);
    NotContainsByChar(s, alphabet, "meet ikea for business", 0);
  }

  lemma WarehouseSaleHasNoInvalidKeywordPart1(s: string, alphabet: set<char>)
    requires alphabet == {' ', 'a', 'e', 'h', 'l', 'o', 'r', 's', 'u', 'w'}
    requires forall j :: 0 <= j < |s| ==> s[j] in alphabet
    ensures !Contains(s, "family membership")
    ensures !Contains(s, "loyalty program")
    ensures !Contains(s, "credit card")
    ensures !Contains(s, "ikea card")
    ensures !Contains(s, "financing")
  {
    NotContainsByChar(s, alphabet, "family membership", 0);
    NotContainsByChar(s, alphabet, "loyalty program", 2);
    NotContainsByChar(s, alphabet, "credit card", 0);
    NotContainsByChar(s, alphabet, "ikea card", 0);
    NotContainsByChar(s, alphabet, "financing", 0);
  }

  lemma WarehouseSaleHasNoInvalidKeywordPart2(s: string, alphabet: set<char>)
    requires alphabet == {' ', 'a', 'e', 'h', 'l', 'o', 'r', 's', 'u', 'w'}
    requires forall j :: 0 <= j < |s| ==> s[j] in alphabet
    ensures !Contains(s, "delivery")
    ensures !Contains(s, "assembly")
    ensures !Contains(s, "installation")
    ensures !Contains(s, "catalog")
    ensures !Contains(s, "brochure")
  {
    NotContainsByChar(s, alphabet, "delivery", 0);
    NotContainsByChar(s, alphabet, "assembly", 4);
    NotContainsByChar(s, alphabet, "installation", 0);
    NotContainsByChar(s, alphabet, "catalog", 0);
    NotContainsByChar(s, alphabet, "brochure", 0);
  }

  lemma WarehouseSaleHasNoInvalidKeywordPart3(s: string, alphabet: set<char>)
    requires alphabet == {' ', 'a', 'e', 'h', 'l', 'o', 'r', 's', 'u', 'w'}
    requires forall j :: 0 <= j < |s| ==> s[j] in alphabet
    ensures !Contains(s, "flyer")
    ensures !Contains(s, "newsletter")
    ensures !Contains(s, "sign up")
    ensures !Contains(s, "log in")
    ensures !Contains(s, "create account")
  {
    NotContainsByChar(s, alphabet, "flyer", 0);
    NotContainsByChar(s, alphabet, "newsletter", 0);
    NotContainsByChar(s, alphabet, "sign up", 1);
    NotContainsByChar(s, alphabet, "log in", 2);
    NotContainsByChar(s, alphabet, "create account", 0);
  }

  lemma WarehouseSaleHasNoInvalidKeywordPart4(s: string, alphabet: set<char>)
    requires alphabet == {' ', 'a', 'e', 'h', 'l', 'o', 'r', 's', 'u', 'w'}
    requires forall j :: 0 <= j < |s| ==> s[j] in alphabet
    ensures !Contains(s, "customer service")
    ensures !Contains(s, "contact us")
    ensures !Contains(s, "store hours")
    ensures !Contains(s, "directions")
    ensures !Contains(s, "parking")
  {
    NotContainsByChar(s, alphabet, "customer service", 0);
    NotContainsByChar(s, alphabet, "contact us", 0);
    NotContainsByChar(s, alphabet, "store hours", 1);
    NotContainsByChar(s, alphabet, "directions", 0);
    NotContainsByChar(s, alphabet, "parking", 0);
  }

  lemma WarehouseSaleHasNoInvalidKeywordPart5(s: string, alphabet: set<char>)
    requires alphabet == {' ', 'a', 'e', 'h', 'l', 'o', 'r', 's', 'u', 'w'}
    requires forall j :: 0 <= j < |s| ==> s[j] in alphabet
    ensures !Contains(s, "return policy")
    ensures !Contains(s, "privacy policy")
    ensures !Contains(s, "terms and conditions")
    ensures !Contains(s, "shop online")
    ensures !Contains(s, "add to cart")
  {
    NotContainsByChar(s, alphabet, "return policy", 2);
    NotContainsByChar(s, alphabet, "privacy policy", 0);
    NotContainsByChar(s, alphabet, "terms and conditions", 0);
    NotContainsByChar(s, alphabet, "shop online", 3);
    NotContainsByChar(s, alphabet, "add to cart", 1);
  }

  lemma WarehouseSaleHasNoInvalidKeywordPart6(s: string, alphabet: set<char>)
    requires alphabet == {' ', 'a', 'e', 'h', 'l', 'o', 'r', 's', 'u', 'w'}
    requires forall j :: 0 <= j < |s| ==> s[j] in alphabet
    ensures !Contains(s, "add to wishlist")
    ensures !Contains(s, "click here")
    ensures !Contains(s, "read more")
    ensures !Contains(s, "view all details")
    ensures !Contains(s, "learn more")
  {
    NotContainsByChar(s, alphabet, "add to wishlist", 1);
    NotContainsByChar(s, alphabet, "click here", 0);
    NotContainsByChar(s, alphabet, "read more", 3);
    NotContainsByChar(s, alphabet, "view all details", 0);
    NotContainsByChar(s, alphabet, "learn more", 4);
  }

  lemma WarehouseSaleHasNoInvalidKeywordPart7(s: string, alphabet: set<char>)
    requires alphabet == {' ', 'a', 'e', 'h', 'l', 'o', 'r', 's', 'u', 'w'}
    requires forall j :: 0 <= j < |s| ==> s[j] in alphabet
    ensures !Contains(s, "find out more")
  {
    NotContainsByChar(s, alphabet, "find out more", 0);
  }

  /** No promotional phrase of `is_valid_event_title` occurs in "warehouse sale". */
  lemma WarehouseSaleHasNoInvalidKeyword()
    ensures !AnyOccurs(TitleInvalidKeywords, "warehouse sale")
  {
    var s := "warehouse sale";
    var alphabet := {' ', 'a', 'e', 'h', 'l', 'o', 'r', 's', 'u', 'w'};
    WarehouseSaleHasNoInvalidKeywordAlphabet(s, alphabet);
    WarehouseSaleHasNoInvalidKeywordPart0(s, alphabet);
    WarehouseSaleHasNoInvalidKeywordPart1(s, alphabet);
    WarehouseSaleHasNoInvalidKeywordPart2(s, alphabet);
    WarehouseSaleHasNoInvalidKeywordPart3(s, alphabet);
    WarehouseSaleHasNoInvalidKeywordPart4(s, alphabet);
    WarehouseSaleHasNoInvalidKeywordPart5(s, alphabet);
    WarehouseSaleHasNoInvalidKeywordPart6(s, alphabet);
    WarehouseSaleHasNoInvalidKeywordPart7(s, alphabet);
  }

  lemma WarehouseSaleHasNoInvalidKeywordAlphabet(s: string, alphabet: set<char>)
    requires s == "warehouse sale" && alphabet == {' ', 'a', 'e', 'h', 'l', 'o', 'r', 's', 'u', 'w'}
    ensures forall j :: 0 <= j < |s| ==> s[j] in alphabet
  {
  }

  /** "Warehouse Sale" is accepted as a title through the indicator 'sale'. */
  lemma WarehouseSaleTitleAccepted()
    ensures IsValidEventTitle("Warehouse Sale")
  {
    LowerWarehouseSale();
    WarehouseSaleHasNoInvalidKeyword();
    assert OccursAt("warehouse sale", "sale", 10);
    assert Contains("warehouse sale", "sale");
  }

  // --------------------------------------------------------------- parsing

  /** What `parse_events` reads from an element: the `href` of its first link that
      has one, and the stripped texts of its first `<h3>` and first `<p>`. */
  datatype Block = Block(href: Option<string>, heading: Option<string>, paragraph: Option<string>)

  /** A `<section>` with a class containing `sc-`, and the ancestor it is filed under:
      its nearest `<li>` ancestor, or its nearest `<div>` ancestor when it has no `<li>` one. */
  datatype Section = Section(heading: Option<string>, paragraph: Option<string>, parent: Option<Block>)

  /** Method 1: the list items whose first link points into `/events/`. */
  function EventListItems(items: seq<Block>): (r: seq<Block>)
    ensures forall b :: b in r <==> b in items && b.href.Some? && Contains(b.href.value, "/events/")
  {
    if items == [] then []
    else
      var rest := EventListItems(items[..|items| - 1]);
      var b := items[|items| - 1];
      assert items == items[..|items| - 1] + [b];
      if b.href.Some? && Contains(b.href.value, "/events/") then rest + [b] else rest
  }

  /** Method 2: the ancestors of the sections with a non-empty heading and a paragraph. */
  function SectionParents(sections: seq<Section>): (r: seq<Block>)
    ensures forall b :: b in r <==> exists s :: s in sections && s.parent == Some(b) &&
                                               s.heading.Some? && s.heading.value != [] && s.paragraph.Some?
  {
    if sections == [] then []
    else
      var rest := SectionParents(sections[..|sections| - 1]);
      var s := sections[|sections| - 1];
      assert sections == sections[..|sections| - 1] + [s];
      if s.heading.Some? && s.heading.value != [] && s.paragraph.Some? && s.parent.Some?
      then rest + [s.parent.value] else rest
  }

  /** Method 2 is used only when method 1 finds no container. */
  function EventContainers(items: seq<Block>, sections: seq<Section>): (r: seq<Block>)
    ensures EventListItems(items) != [] ==> r == EventListItems(items)
    ensures EventListItems(items) == [] ==> r == SectionParents(sections)
  {
    var listed := EventListItems(items);
    if listed != [] then listed else SectionParents(sections)
  }

  function OrEmpty(s: Option<string>): string {
    match s case Some(v) => v case None => []
  }

  /** The event `parse_events` builds from one container, if its title passes. */
  function ParsedEvent(b: Block, location: string): (r: Option<Event>)
    ensures r.Some? <==> OrEmpty(b.heading) != [] && IsValidEventTitle(OrEmpty(b.heading))
    ensures r.Some? ==> r.value.title == OrEmpty(b.heading) && r.value.date == OrEmpty(b.paragraph)
                        && r.value.url == MakeFullUrl(OrEmpty(b.href))
                        && r.value.description == [] && r.value.location == location
  {
    var title := OrEmpty(b.heading);
    if title != [] && IsValidEventTitle(title) then
      Some(Event(title, OrEmpty(b.paragraph), "", MakeFullUrl(OrEmpty(b.href)), location))
    else None
  }

  /** The events of a list of containers, in container order. */
  function ParsedEvents(containers: seq<Block>, location: string): (r: seq<Event>)
    ensures |r| <= |containers|
    ensures forall e :: e in r ==> IsValidEventTitle(e.title) && e.title != [] && !("/" <= e.url)
                                   && e.description == [] && e.location == location
  {
    if containers == [] then []
    else
      var rest := ParsedEvents(containers[..|containers| - 1], location);
      match ParsedEvent(containers[|containers| - 1], location)
      case Some(e) => rest + [e]
      case None => rest
  }

  /** `ParsedEvent` as a function to lists of at most one event. */
  function ParsedAsSeq(location: string): Block -> seq<Event> {
    b => OptionSeq(ParsedEvent(b, location))
  }

  /** The parsed events are the events of the containers, each container
      contributing its own event or nothing, in container order; so every
      container that yields an event contributes it (`FlatMapComplete`) and
      nothing else is there (`FlatMapSound`). */
  lemma {:induction false} ParsedEventsIsFlatMap(containers: seq<Block>, location: string)
    ensures ParsedEvents(containers, location) == FlatMap(containers, ParsedAsSeq(location))
  {
    if containers != [] {
      ParsedEventsIsFlatMap(containers[..|containers| - 1], location);
    }
  }

  /** Method 1 of `parse_events`, then method 2 when method 1 found nothing. */
  method SelectContainers(items: seq<Block>, sections: seq<Section>) returns (containers: seq<Block>)
    ensures containers == EventContainers(items, sections)
  {
    containers := [];
    for i := 0 to |items|
      invariant containers == EventListItems(items[..i])
    {
      assert items[..i + 1][..i] == items[..i];
      var b := items[i];
      if b.href.Some? && Contains(b.href.value, "/events/") {
        containers := containers + [b];
      }
    }
    assert items[..|items|] == items;
    if |containers| == 0 {
      for i := 0 to |sections|
        invariant containers == SectionParents(sections[..i])
      {
        assert sections[..i + 1][..i] == sections[..i];
        var s := sections[i];
        if s.heading.Some? && s.heading.value != "" && s.paragraph.Some? && s.parent.Some? {
          containers := containers + [s.parent.value];
        }
      }
      assert sections[..|sections|] == sections;
    }
  }

  /** The body of the `parse_events` loop for one container: read the title,
      the date and the link, and build the event when the title passes. */
  method ParseContainer(b: Block, location: string) returns (e: Option<Event>)
    ensures e == ParsedEvent(b, location)
  {
    var title := OrEmpty(b.heading);
    var date := OrEmpty(b.paragraph);
    var url := OrEmpty(b.href);
    if title != "" && IsValidEventTitle(title) {
      if url != "" && "/" <= url {
        url := "https://www.ikea.com" + url;
      }
      assert url == MakeFullUrl(OrEmpty(b.href));
      e := Some(Event(title, date, "", url, location));
    } else {
      e := None;
    }
  }

  /** One more container adds its parsed event, or nothing. */
  lemma ParsedStep(containers: seq<Block>, i: nat, location: string)
    requires i < |containers|
    ensures ParsedEvent(containers[i], location).Some? ==>
            ParsedEvents(containers[..i + 1], location) ==
            ParsedEvents(containers[..i], location) + [ParsedEvent(containers[i], location).value]
    ensures ParsedEvent(containers[i], location).None? ==>
            ParsedEvents(containers[..i + 1], location) == ParsedEvents(containers[..i], location)
  {
    assert containers[..i + 1][..i] == containers[..i];
  }

  /** `parse_events(html, location_key)`: choose the containers, then keep the
      containers whose title passes, with their links made absolute. The source
      raises a KeyError for an unknown store, so the store must be known. */
  method ParseEvents(items: seq<Block>, sections: seq<Section>, location: string) returns (events: seq<Event>)
    requires location in Locations
    ensures events == ParsedEvents(EventContainers(items, sections), location)
  {
    var containers := SelectContainers(items, sections);
    events := [];
    for i := 0 to |containers|
      invariant events == ParsedEvents(containers[..i], location)
    {
      var e := ParseContainer(containers[i], location);
      ParsedStep(containers, i, location);
      if e.Some? {
        events := events + [e.value];
      }
    }
    assert containers[..|containers|] == containers;
  }

  /** When a list item links into `/events/`, the sections are never looked at. */
  lemma SectionsIgnoredWhenListed(items: seq<Block>, sections: seq<Section>, sections': seq<Section>)
    requires exists b :: b in items && b.href.Some? && Contains(b.href.value, "/events/")
    ensures EventContainers(items, sections) == EventContainers(items, sections')
  {
    var b :| b in items && b.href.Some? && Contains(b.href.value, "/events/");
    assert b in EventListItems(items);
  }

  /** The event one container contributes to the fallback: its extracted record
      when there is one and it passes `is_valid_event`, and nothing otherwise. */
  function FallbackContribution(c: Monitor.Container, location: string): (r: seq<Event>)
    ensures |r| <= 1
    ensures forall e :: e in r ==> IsValidEvent(e) && |e.title| > 3 && e.location == location
  {
    match Monitor.Extracted(c, location)
    case Some(e) => if IsValidEvent(e) then [e] else []
    case None => []
  }

  /** The events `parse_events_fallback` keeps: the extracted containers that pass `is_valid_event`. */
  function FallbackEvents(containers: seq<Monitor.Container>, location: string): (r: seq<Event>)
    ensures |r| <= |containers|
    ensures forall e :: e in r ==> IsValidEvent(e) && |e.title| > 3 && e.location == location
  {
    if containers == [] then []
    else FallbackEvents(containers[..|containers| - 1], location) + FallbackContribution(containers[|containers| - 1], location)
  }

  /** `FallbackContribution` as a function of the container. */
  function FallbackAsSeq(location: string): Monitor.Container -> seq<Event> {
    c => FallbackContribution(c, location)
  }

  /** The fallback events are the valid extracted events of the containers, in
      container order: every container whose extracted event is valid contributes
      it, and nothing else is there. */
  lemma {:induction false} FallbackEventsIsFlatMap(containers: seq<Monitor.Container>, location: string)
    ensures FallbackEvents(containers, location) == FlatMap(containers, FallbackAsSeq(location))
  {
    if containers != [] {
      FallbackEventsIsFlatMap(containers[..|containers| - 1], location);
    }
  }

  /** One more container adds its valid extracted event, or nothing. */
  lemma FallbackStep(containers: seq<Monitor.Container>, i: nat, location: string)
    requires i < |containers|
    ensures var data := Monitor.Extracted(containers[i], location);
            FallbackEvents(containers[..i + 1], location) ==
            FallbackEvents(containers[..i], location) + (if data.Some? && IsValidEvent(data.value) then [data.value] else [])
  {
    assert containers[..i + 1][..i] == containers[..i];
  }

  /** `parse_events_fallback`: extract every container and keep the valid events. */
  method ParseEventsFallback(containers: seq<Monitor.Container>, location: string) returns (events: seq<Event>)
    ensures events == FallbackEvents(containers, location)
  {
    events := [];
    for i := 0 to |containers|
      invariant events == FallbackEvents(containers[..i], location)
    {
      var data := Monitor.ExtractEventData(containers[i], location);
      FallbackStep(containers, i, location);
      if data.Some? && IsValidEvent(data.value) {
        events := events + [data.value];
      }
    }
    assert containers[..|containers|] == containers;
  }
}
