/** What ikea_selenium_db.py and ikea_selenium_simple.py share: the two
    candidate strategies of `scrape_ikea_events` with their `seen_events`
    filter, the `title|date|location` event hash and `find_new_events`.
    The two files carry the same code for all of these. The browser is not
    modelled: the page is given as what its `li` elements contain. */
module SeleniumScrape {
  import opened Strings
  import opened Collections
  import opened Events

  /** The nearest `li` ancestor of a matched element: the texts of its `h3`
      and `p` descendants and the `href`s of its `a` descendants, in document order. */
  datatype ListItem = ListItem(headings: seq<string>, paragraphs: seq<string>, links: seq<string>)

  /** A link of strategy 2: its `href` and its nearest `li` ancestor. A link
      without one (`find_element` raises) has `None`. */
  datatype EventLink = EventLink(href: string, parent: Option<ListItem>)

  /** The `seen_events` key of one scrape: `f"{title}|{date}|{url}"`. */
  function SeenKey(e: Event): string {
    Join3(e.title, e.date, e.url)
  }

  /** The md5 pre-image of `get_event_hash`: `f"{title}|{date}|{location}"`.
      md5 is modelled as the identity on it, which assumes that md5 has no collisions. */
  function EventHash(e: Event): string {
    Join3(e.title, e.date, e.location)
  }

  /** What every scraped event looks like: a stripped title of more than 5
      characters, the store it was scraped for, and no description. */
  predicate WellFormed(e: Event, location: string) {
    && |e.title| > 5
    && Stripped(e.title)
    && Stripped(e.date)
    && e.description == []
    && e.location == location
  }

  /** Neither starts nor ends with whitespace. */
  predicate Stripped(s: string) {
    s == [] || (!IsSpace(s[0]) && !IsSpace(s[|s| - 1]))
  }

  /** The event a list item yields with a given link: its first heading and
      first paragraph, stripped, when the stripped heading is longer than 5 characters. */
  function ItemEvent(item: ListItem, url: string, location: string): (r: Option<Event>)
    requires |item.headings| > 0
    ensures r.Some? <==> |Strip(item.headings[0])| > 5
    ensures r.Some? ==> WellFormed(r.value, location) && r.value.url == url
    ensures r.Some? ==> r.value.title == Strip(item.headings[0])
    ensures r.Some? ==> r.value.date == if |item.paragraphs| > 0 then Strip(item.paragraphs[0]) else ""
  {
    var title := Strip(item.headings[0]);
    var date := if |item.paragraphs| > 0 then Strip(item.paragraphs[0]) else "";
    if title != "" && |title| > 5 then Some(Event(title, date, "", url, location)) else None
  }

  /** Strategy 1: an `li` with a heading and a link yields its event, with the first link. */
  function ElementCandidate(parent: Option<ListItem>, location: string): (r: Option<Event>)
    ensures r.Some? ==> WellFormed(r.value, location)
    ensures r.Some? ==> parent.Some? && |parent.value.headings| > 0 && |parent.value.links| > 0
                        && r.value.url == parent.value.links[0]
    ensures parent.Some? && |parent.value.headings| > 0 && |parent.value.links| > 0
            ==> r == ItemEvent(parent.value, parent.value.links[0], location)
  {
    match parent
    case Some(item) =>
      if |item.headings| > 0 && |item.links| > 0 then ItemEvent(item, item.links[0], location) else None
    case None => None
  }

  /** Strategy 2: a link inside an `li` with a heading yields that item's event, with this link. */
  function LinkCandidate(link: EventLink, location: string): (r: Option<Event>)
    ensures r.Some? ==> WellFormed(r.value, location) && r.value.url == link.href
    ensures r.Some? ==> link.parent.Some? && |link.parent.value.headings| > 0
    ensures link.parent.Some? && |link.parent.value.headings| > 0
            ==> r == ItemEvent(link.parent.value, link.href, location)
  {
    match link.parent
    case Some(item) =>
      if |item.headings| > 0 then ItemEvent(item, link.href, location) else None
    case None => None
  }

  /** The events strategy 1 offers to the `seen_events` filter, in page order. */
  function ElementCandidates(parents: seq<Option<ListItem>>, location: string): (r: seq<Event>)
    ensures |r| <= |parents|
  {
    if parents == [] then []
    else
      ElementCandidates(parents[..|parents| - 1], location)
        + OptionSeq(ElementCandidate(parents[|parents| - 1], location))
  }

  /** The events strategy 2 offers to the `seen_events` filter, in page order. */
  function LinkCandidates(links: seq<EventLink>, location: string): (r: seq<Event>)
    ensures |r| <= |links|
  {
    if links == [] then []
    else
      LinkCandidates(links[..|links| - 1], location)
        + OptionSeq(LinkCandidate(links[|links| - 1], location))
  }

  /** Every candidate of either strategy is well formed. */
  lemma {:induction false} CandidatesWellFormed(parents: seq<Option<ListItem>>, links: seq<EventLink>, location: string)
    ensures forall e :: e in ElementCandidates(parents, location) ==> WellFormed(e, location)
    ensures forall e :: e in LinkCandidates(links, location) ==> WellFormed(e, location)
    decreases |parents| + |links|
  {
    if parents != [] {
      CandidatesWellFormed(parents[..|parents| - 1], links, location);
    }
    if links != [] {
      CandidatesWellFormed(parents, links[..|links| - 1], location);
    }
  }

  /** The result of `scrape_ikea_events`: the first candidate of each key from
      strategy 1, or, when that is empty, from strategy 2. */
  function Scraped(parents: seq<Option<ListItem>>, links: seq<EventLink>, location: string): seq<Event> {
    var first := KeepFirst(ElementCandidates(parents, location), SeenKey);
    if first != [] then first else KeepFirst(LinkCandidates(links, location), SeenKey)
  }

  /** `scrape_ikea_events` once the page is loaded: strategy 1 over the matched
      elements, then strategy 2 over the event links only if strategy 1 found nothing. */
  method ScrapeEvents(parents: seq<Option<ListItem>>, links: seq<EventLink>, location: string)
    returns (events: seq<Event>)
    ensures events == Scraped(parents, links, location)
  {
    events := [];
    var seenEvents: set<string> := {};
    for i := 0 to |parents|
      invariant events == KeepFirst(ElementCandidates(parents[..i], location), SeenKey)
      invariant seenEvents == KeysOf(events, SeenKey)
    {
      assert parents[..i + 1][..i] == parents[..i];
      ghost var offered := ElementCandidates(parents[..i], location);
      var candidate := ElementCandidate(parents[i], location);
      if candidate.Some? {
        events, seenEvents := KeepIfUnseen(candidate.value, SeenKey, events, seenEvents, offered);
      } else {
        assert ElementCandidates(parents[..i + 1], location) == offered;
      }
    }
    assert parents[..|parents|] == parents;
    if events == [] {
      for i := 0 to |links|
        invariant events == KeepFirst(LinkCandidates(links[..i], location), SeenKey)
        invariant seenEvents == KeysOf(events, SeenKey)
      {
        assert links[..i + 1][..i] == links[..i];
        ghost var offered := LinkCandidates(links[..i], location);
        var candidate := LinkCandidate(links[i], location);
        if candidate.Some? {
          events, seenEvents := KeepIfUnseen(candidate.value, SeenKey, events, seenEvents, offered);
        } else {
          assert LinkCandidates(links[..i + 1], location) == offered;
        }
      }
      assert links[..|links|] == links;
    }
  }

  /** Every scraped event is well formed, no two share a `seen_events` key, and
      they come in the order the strategy that produced them found them. */
  lemma ScrapedShape(parents: seq<Option<ListItem>>, links: seq<EventLink>, location: string)
    ensures forall e :: e in Scraped(parents, links, location) ==> WellFormed(e, location)
    ensures DistinctKeys(Scraped(parents, links, location), SeenKey)
    ensures || IsSubsequence(Scraped(parents, links, location), ElementCandidates(parents, location))
            || IsSubsequence(Scraped(parents, links, location), LinkCandidates(links, location))
  {
    CandidatesWellFormed(parents, links, location);
    var r := Scraped(parents, links, location);
    var first := KeepFirst(ElementCandidates(parents, location), SeenKey);
    if first == [] {
      var second := KeepFirst(LinkCandidates(links, location), SeenKey);
      SubsequenceMembers(second, LinkCandidates(links, location));
    } else {
      SubsequenceMembers(first, ElementCandidates(parents, location));
    }
  }

  /** Strategy 2 is consulted only when strategy 1 found nothing. */
  lemma LinksIgnoredWhenElementsFound(parents: seq<Option<ListItem>>, links: seq<EventLink>, links': seq<EventLink>, location: string)
    requires ElementCandidates(parents, location) != []
    ensures Scraped(parents, links, location) == Scraped(parents, links', location)
    ensures Scraped(parents, links, location) == KeepFirst(ElementCandidates(parents, location), SeenKey)
  {
    var c := ElementCandidates(parents, location);
    assert SeenKey(c[0]) in KeysOf(c, SeenKey);
  }

  /** When strategy 1 found nothing, the result is that of strategy 2. */
  lemma LinksUsedWhenNoElements(parents: seq<Option<ListItem>>, links: seq<EventLink>, location: string)
    requires ElementCandidates(parents, location) == []
    ensures Scraped(parents, links, location) == KeepFirst(LinkCandidates(links, location), SeenKey)
  {
  }

  /** One more matched element adds its candidate, if any, at the end. */
  lemma ElementCandidatesSnoc(parents: seq<Option<ListItem>>, parent: Option<ListItem>, location: string)
    ensures ElementCandidates(parents + [parent], location)
         == ElementCandidates(parents, location) + OptionSeq(ElementCandidate(parent, location))
  {
    assert (parents + [parent])[..|parents|] == parents;
  }

  /** An item whose stripped heading has at most 5 characters yields nothing. */
  lemma ShortHeadingSkipped(parents: seq<Option<ListItem>>, item: ListItem, location: string)
    requires |item.headings| > 0 && |Strip(item.headings[0])| <= 5
    ensures ElementCandidates(parents + [Some(item)], location) == ElementCandidates(parents, location)
  {
    ElementCandidatesSnoc(parents, Some(item), location);
    assert ItemEvent(item, if |item.links| > 0 then item.links[0] else "", location).None?;
  }

  /** Two matching texts inside one `li`, met one after the other, give one event. */
  lemma RematchedItemAddsNothing(parents: seq<Option<ListItem>>, parent: Option<ListItem>, location: string)
    ensures KeepFirst(ElementCandidates(parents + [parent, parent], location), SeenKey)
         == KeepFirst(ElementCandidates(parents + [parent], location), SeenKey)
  {
    var once := parents + [parent];
    assert parents + [parent, parent] == once + [parent];
    ElementCandidatesSnoc(once, parent, location);
    var c := ElementCandidate(parent, location);
    var before := ElementCandidates(once, location);
    if c.Some? {
      ElementCandidatesSnoc(parents, parent, location);
      assert before[|before| - 1] == c.value;
      assert SeenKey(c.value) in KeysOf(before, SeenKey);
      KeepFirstDropsLater(before, c.value, SeenKey);
    } else {
      assert before + OptionSeq(c) == before;
    }
  }

  /** The concatenation of the per-store scrapes (`all_events.extend(events)`). */
  function Concat(perLocation: seq<seq<Event>>): (r: seq<Event>)
    ensures forall l, e :: 0 <= l < |perLocation| && e in perLocation[l] ==> e in r
    ensures forall e :: e in r ==> exists l :: 0 <= l < |perLocation| && e in perLocation[l]
  {
    if perLocation == [] then []
    else
      var p := perLocation[..|perLocation| - 1];
      assert forall l :: 0 <= l < |p| ==> p[l] == perLocation[l];
      Concat(p) + perLocation[|perLocation| - 1]
  }

  /** The stores' lists follow each other in store order: concatenating two runs
      of stores is concatenating their results. */
  lemma {:induction false} ConcatAppend(a: seq<seq<Event>>, b: seq<seq<Event>>)
    ensures Concat(a + b) == Concat(a) + Concat(b)
    decreases |b|
  {
    if b == [] {
      assert a + b == a;
    } else {
      var b' := b[..|b| - 1];
      assert b == b' + [b[|b| - 1]];
      assert (a + b)[..|a + b| - 1] == a + b';
      ConcatAppend(a, b');
      ConcatAssoc(Concat(a), Concat(b'), b[|b| - 1]);
    }
  }

  /** A list of stores with one store is that store's list. */
  lemma ConcatOne(events: seq<Event>)
    ensures Concat([events]) == events
  {
    assert [events][..0] == [];
  }

  // ------------------------------------------------------------ event hash

  /** The hash reads only the title, the date and the store. */
  lemma EventHashIgnoresUrl(e: Event, url: string, description: string)
    ensures EventHash(e.(url := url, description := description)) == EventHash(e)
  {
  }

  /** For titles and dates without a `|`, equal hashes mean the same title, date and store. */
  lemma EventHashInjective(a: Event, b: Event)
    requires '|' !in a.title && '|' !in a.date && '|' !in b.title && '|' !in b.date
    requires EventHash(a) == EventHash(b)
    ensures a.title == b.title && a.date == b.date && a.location == b.location
  {
    Join3Injective(a.title, a.date, a.location, b.title, b.date, b.location);
  }

  /** Without that condition two different events can hash alike. */
  lemma EventHashBarCollision()
    ensures EventHash(Event("a|b", "c", "", "", "x")) == EventHash(Event("a", "b|c", "", "", "x"))
  {
  }

  /** `find_new_events`: the current events whose hash is not a key of the previous map. */
  method FindNewEvents<V>(currentEvents: seq<Event>, previousEvents: map<string, V>)
    returns (newEvents: seq<Event>)
    ensures newEvents == Unseen(currentEvents, EventHash, previousEvents.Keys)
  {
    newEvents := [];
    for i := 0 to |currentEvents|
      invariant newEvents == Unseen(currentEvents[..i], EventHash, previousEvents.Keys)
    {
      var event := currentEvents[i];
      assert currentEvents[..i + 1] == currentEvents[..i] + [event];
      UnseenSnoc(currentEvents[..i], event, EventHash, previousEvents.Keys);
      var eventHash := Join3(event.title, event.date, event.location);
      if eventHash !in previousEvents {
        newEvents := newEvents + [event];
      }
    }
    assert currentEvents[..|currentEvents|] == currentEvents;
  }

  /** Against an empty map everything is new. */
  lemma NothingStoredAllNew<V>(currentEvents: seq<Event>, previousEvents: map<string, V>)
    requires |previousEvents| == 0
    ensures Unseen(currentEvents, EventHash, previousEvents.Keys) == currentEvents
  {
    assert previousEvents.Keys == {};
    UnseenNothing(currentEvents, EventHash);
  }

  /** Whether an event is new does not depend on its link. */
  lemma NewnessIgnoresUrl<V>(e: Event, url: string, previousEvents: map<string, V>)
    ensures Unseen([e], EventHash, previousEvents.Keys) == [e]
        <==> Unseen([e.(url := url)], EventHash, previousEvents.Keys) == [e.(url := url)]
  {
    UnseenSingle(e, EventHash, previousEvents.Keys);
    UnseenSingle(e.(url := url), EventHash, previousEvents.Keys);
  }
}
