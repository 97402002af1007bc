/** The file-backed Selenium monitor (ikea_selenium_simple.py). Its state is
    the map from event hash to event that `main` writes to
    previous_events.json; reading and writing the file are not modelled. */
module SeleniumSimple {
  import opened Strings
  import opened Collections
  import opened Events
  import opened SeleniumScrape

  /** `current_event_hashes`: each event under its hash, a later event with the
      same hash replacing the earlier one. */
  function HashIndex(events: seq<Event>): (r: map<string, Event>)
    ensures r.Keys == KeysOf(events, EventHash)
    ensures forall k :: k in r ==> EventHash(r[k]) == k && r[k] in events
  {
    if events == [] then map[]
    else
      var p := events[..|events| - 1];
      var e := events[|events| - 1];
      assert events == p + [e];
      KeysOfSnoc(p, e, EventHash);
      HashIndex(p)[EventHash(e) := e]
  }

  /** The loop in `main` that fills `current_event_hashes`. */
  method BuildHashIndex(allEvents: seq<Event>) returns (currentEventHashes: map<string, Event>)
    ensures currentEventHashes == HashIndex(allEvents)
  {
    currentEventHashes := map[];
    for i := 0 to |allEvents|
      invariant currentEventHashes == HashIndex(allEvents[..i])
    {
      var event := allEvents[i];
      assert allEvents[..i + 1][..i] == allEvents[..i];
      var eventHash := Join3(event.title, event.date, event.location);
      currentEventHashes := currentEventHashes[eventHash := event];
    }
    assert allEvents[..|allEvents|] == allEvents;
  }

  /** The last event of each hash is the one kept. */
  lemma {:induction false} HashIndexLastWins(events: seq<Event>, i: nat)
    requires i < |events|
    requires forall j :: i < j < |events| ==> EventHash(events[j]) != EventHash(events[i])
    ensures HashIndex(events)[EventHash(events[i])] == events[i]
  {
    if i < |events| - 1 {
      var p := events[..|events| - 1];
      assert p[i] == events[i];
      HashIndexLastWins(p, i);
    }
  }

  /** The state after `main`: replaced by the current events when one of them is
      new, and left as it was otherwise. */
  function NextState(previousEvents: map<string, Event>, allEvents: seq<Event>): map<string, Event> {
    if Unseen(allEvents, EventHash, previousEvents.Keys) != [] then HashIndex(allEvents) else previousEvents
  }

  /** `main` once every store has been scraped: the events it reports as new and
      the state it leaves for the next run. */
  method RunCheck(previousEvents: map<string, Event>, perLocation: seq<seq<Event>>)
    returns (newEvents: seq<Event>, saved: map<string, Event>)
    ensures newEvents == Unseen(Concat(perLocation), EventHash, previousEvents.Keys)
    ensures saved == NextState(previousEvents, Concat(perLocation))
  {
    var allEvents: seq<Event> := [];
    for l := 0 to |perLocation|
      invariant allEvents == Concat(perLocation[..l])
    {
      assert perLocation[..l + 1][..l] == perLocation[..l];
      allEvents := allEvents + perLocation[l];
    }
    assert perLocation[..|perLocation|] == perLocation;
    newEvents := [];
    saved := previousEvents;
    if allEvents != [] {
      newEvents := FindNewEvents(allEvents, previousEvents);
      if newEvents != [] {
        saved := BuildHashIndex(allEvents);
      }
    }
  }

  /** Running again on the same scrape reports nothing. */
  lemma RerunIsQuiet(previousEvents: map<string, Event>, allEvents: seq<Event>)
    ensures Unseen(allEvents, EventHash, NextState(previousEvents, allEvents).Keys) == []
  {
    if Unseen(allEvents, EventHash, previousEvents.Keys) != [] {
      UnseenOwnKeys(allEvents, EventHash);
    }
  }

  /** The state is replaced, not merged: after a run with news, a stored hash
      that this run did not see is gone. */
  lemma ReplacedNotMerged(previousEvents: map<string, Event>, allEvents: seq<Event>, k: string)
    requires Unseen(allEvents, EventHash, previousEvents.Keys) != []
    requires k in previousEvents && k !in KeysOf(allEvents, EventHash)
    ensures k !in NextState(previousEvents, allEvents)
  {
  }

  /** So an event that drops off the page for a run with news elsewhere is
      reported again when it comes back, which the database monitor never does. */
  lemma ReturningEventReportedAgain(previousEvents: map<string, Event>, allEvents: seq<Event>, e: Event)
    requires Unseen(allEvents, EventHash, previousEvents.Keys) != []
    requires EventHash(e) in previousEvents && EventHash(e) !in KeysOf(allEvents, EventHash)
    ensures Unseen([e], EventHash, NextState(previousEvents, allEvents).Keys) == [e]
  {
    ReplacedNotMerged(previousEvents, allEvents, EventHash(e));
    UnseenSingle(e, EventHash, NextState(previousEvents, allEvents).Keys);
  }

  /** A run without news leaves the state untouched. */
  lemma QuietRunKeepsState(previousEvents: map<string, Event>, allEvents: seq<Event>)
    requires forall i :: 0 <= i < |allEvents| ==> EventHash(allEvents[i]) in previousEvents
    ensures NextState(previousEvents, allEvents) == previousEvents
  {
    UnseenCovered(allEvents, EventHash, previousEvents.Keys);
  }
}
