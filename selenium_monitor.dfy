/** The single-file BeautifulSoup monitor (selenium_ikea_monitor.py): its
    change detection compares `(title, date)` pairs per store, its state
    defaults to an empty list for each store, and every run saves what it
    scraped. The page parsing, the e-mail and the JSON file are not modelled. */
module SeleniumMonitor {
  import opened Collections
  import opened Events
  import Monitor

  /** The comparison key of `find_new_events`. */
  function TitleDate(e: Event): (string, string) {
    (e.title, e.date)
  }

  /** `find_new_events`: the current events whose `(title, date)` pair is not
      among those of the previous ones, in their order. */
  function FindNewEvents(current: seq<Event>, previous: seq<Event>): (r: seq<Event>)
    ensures forall e :: e in r <==> e in current && forall p :: p in previous ==> TitleDate(p) != TitleDate(e)
    ensures IsSubsequence(r, current)
  {
    Unseen(current, TitleDate, KeysOf(previous, TitleDate))
  }

  /** Nothing is new when compared with itself. */
  lemma FindNewEventsOfSelf(events: seq<Event>)
    ensures FindNewEvents(events, events) == []
  {
    UnseenOwnKeys(events, TitleDate);
  }

  /** Everything is new when compared with nothing. */
  lemma FindNewEventsFromNothing(events: seq<Event>)
    ensures FindNewEvents(events, []) == events
  {
    assert KeysOf([], TitleDate) == {};
    UnseenNothing(events, TitleDate);
  }

  /** A moved link or a changed store does not make an event new. */
  lemma UrlChangeNotNew(e: Event, url: string, location: string)
    ensures FindNewEvents([e.(url := url, location := location)], [e]) == []
  {
    assert TitleDate(e) in KeysOf([e], TitleDate);
    UnseenSingle(e.(url := url, location := location), TitleDate, KeysOf([e], TitleDate));
  }

  /** The state file holds a map from store key to its events; without one each store starts empty. */
  function LoadPreviousEvents(stored: Option<map<string, seq<Event>>>): (r: map<string, seq<Event>>)
    ensures stored.Some? ==> r == stored.value
    ensures stored.None? ==> r.Keys == Locations && forall k :: k in r ==> r[k] == []
  {
    match stored
    case Some(m) => m
    case None => map[Etobicoke := [], NorthYork := []]
  }

  /** `new_events_by_location`: each scraped store diffed against its stored list, or `[]`. */
  function NewByLocation(allEvents: map<string, seq<Event>>, previous: map<string, seq<Event>>): (r: map<string, seq<Event>>)
    ensures r.Keys == allEvents.Keys
    ensures forall k :: k in r ==> r[k] == FindNewEvents(allEvents[k], Monitor.PreviousAt(previous, k))
  {
    map k | k in allEvents :: FindNewEvents(allEvents[k], Monitor.PreviousAt(previous, k))
  }

  /** A store without a stored list reports all its events. */
  lemma MissingLocationAllNew(allEvents: map<string, seq<Event>>, previous: map<string, seq<Event>>, k: string)
    requires k in allEvents && k !in previous
    ensures NewByLocation(allEvents, previous)[k] == allEvents[k]
  {
    FindNewEventsFromNothing(allEvents[k]);
  }

  /** On the first run every scraped event is new. */
  lemma FirstRunAllNew(allEvents: map<string, seq<Event>>, k: string)
    requires k in allEvents
    ensures NewByLocation(allEvents, LoadPreviousEvents(None))[k] == allEvents[k]
  {
    var previous := LoadPreviousEvents(None);
    assert k in previous ==> previous[k] == [];
    FindNewEventsFromNothing(allEvents[k]);
  }

  /** `save_events(all_events)` runs every time, so a second run on the same page reports nothing. */
  lemma RerunIsQuiet(allEvents: map<string, seq<Event>>, k: string)
    requires k in allEvents
    ensures NewByLocation(allEvents, LoadPreviousEvents(Some(allEvents)))[k] == []
  {
    FindNewEventsOfSelf(allEvents[k]);
  }
}
