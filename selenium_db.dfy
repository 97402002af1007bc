/** The PostgreSQL-backed Selenium monitor (ikea_selenium_db.py): the
    `previous_events` table keyed by event hash, its insert-if-absent save and
    the decision in `main` to save only when something is new. The connection
    itself is not modelled: a table is a map from hash to row. */
module SeleniumDb {
  import opened Strings
  import opened Collections
  import opened Events
  import opened SeleniumScrape

  /** The columns besides the key: `(title, date, location, url)`. */
  datatype Row = Row(title: string, date: string, location: string, url: string)

  function RowOf(e: Event): Row {
    Row(e.title, e.date, e.location, e.url)
  }

  /** The rows after inserting `events` in order with `ON CONFLICT (event_hash) DO NOTHING`. */
  function InsertAll(rows: map<string, Row>, events: seq<Event>): (r: map<string, Row>)
    ensures r.Keys == rows.Keys + KeysOf(events, EventHash)
    ensures forall k :: k in rows ==> r[k] == rows[k]
  {
    if events == [] then rows
    else
      var p := events[..|events| - 1];
      var e := events[|events| - 1];
      var before := InsertAll(rows, p);
      assert events == p + [e];
      KeysOfSnoc(p, e, EventHash);
      UnionAssoc(rows.Keys, KeysOf(p, EventHash), {EventHash(e)});
      if EventHash(e) in before then before else before[EventHash(e) := RowOf(e)]
  }

  /** The `previous_events` table. */
  class PreviousEventsTable {
    var rows: map<string, Row>

    /** `init_database` on an empty database. */
    constructor ()
      ensures rows == map[]
    {
      rows := map[];
    }

    /** `get_previous_events`: every stored hash, mapped to `True`. */
    function PreviousEvents(): (r: map<string, bool>)
      reads this
      ensures r.Keys == rows.Keys
      ensures forall k :: k in r ==> r[k]
    {
      map k | k in rows :: true
    }

    /** One `INSERT ... ON CONFLICT (event_hash) DO NOTHING`. */
    method Insert(e: Event)
      modifies this
      ensures rows == InsertAll(old(rows), [e])
    {
      assert [e][..0] == [];
      var eventHash := Join3(e.title, e.date, e.location);
      if eventHash !in rows {
        rows := rows[eventHash := RowOf(e)];
      }
    }

    /** `save_previous_events`: the inserts of all events, in order. */
    method SavePreviousEvents(events: seq<Event>)
      modifies this
      ensures rows == InsertAll(old(rows), events)
    {
      for i := 0 to |events|
        invariant rows == InsertAll(old(rows), events[..i])
      {
        assert events[..i + 1][..i] == events[..i];
        Insert(events[i]);
        assert [events[i]][..0] == [];
      }
      assert events[..|events|] == events;
    }
  }

  /** The table after `main`: all current events are saved, but only when one of them is new. */
  function Persisted(rows: map<string, Row>, allEvents: seq<Event>): map<string, Row> {
    if Unseen(allEvents, EventHash, rows.Keys) != [] then InsertAll(rows, allEvents) else rows
  }

  /** `main` once every store has been scraped: the events it reports as new,
      with the table updated as `main` leaves it. */
  method RunCheck(table: PreviousEventsTable, perLocation: seq<seq<Event>>) returns (newEvents: seq<Event>)
    modifies table
    ensures newEvents == Unseen(Concat(perLocation), EventHash, old(table.rows).Keys)
    ensures table.rows == Persisted(old(table.rows), Concat(perLocation))
  {
    var previousEvents := table.PreviousEvents();
    var allEvents: seq<Event> := [];
    for l := 0 to |perLocation|
      invariant allEvents == Concat(perLocation[..l])
    {
      assert perLocation[..l + 1][..l] == perLocation[..l];
      allEvents := allEvents + perLocation[l];
    }
    assert perLocation[..|perLocation|] == perLocation;
    newEvents := [];
    if allEvents != [] {
      newEvents := FindNewEvents(allEvents, previousEvents);
      if newEvents != [] {
        table.SavePreviousEvents(allEvents);
      }
    }
  }

  /** Inserting events whose hashes are all stored changes nothing. */
  lemma {:induction false} InsertAllPresent(rows: map<string, Row>, events: seq<Event>)
    requires forall i :: 0 <= i < |events| ==> EventHash(events[i]) in rows
    ensures InsertAll(rows, events) == rows
  {
    if events != [] {
      InsertAllPresent(rows, events[..|events| - 1]);
    }
  }

  /** Inserting the same batch twice is inserting it once. */
  lemma InsertAllTwice(rows: map<string, Row>, events: seq<Event>)
    ensures InsertAll(InsertAll(rows, events), events) == InsertAll(rows, events)
  {
    var once := InsertAll(rows, events);
    forall i | 0 <= i < |events| ensures EventHash(events[i]) in once {
      assert events[i] in events;
    }
    InsertAllPresent(once, events);
  }

  /** The first of several events with one hash is the row stored for it. */
  lemma {:induction false} InsertAllFirstWins(rows: map<string, Row>, events: seq<Event>, i: nat)
    requires i < |events| && EventHash(events[i]) !in rows
    requires EventHash(events[i]) !in KeysOf(events[..i], EventHash)
    ensures InsertAll(rows, events)[EventHash(events[i])] == RowOf(events[i])
  {
    var p := events[..|events| - 1];
    if i < |events| - 1 {
      assert p[..i] == events[..i] && p[i] == events[i];
      InsertAllFirstWins(rows, p, i);
    } else {
      assert p == events[..i];
    }
  }

  /** Stored rows are never changed or removed, whatever a run finds. */
  lemma PersistedKeepsRows(rows: map<string, Row>, allEvents: seq<Event>)
    ensures rows.Keys <= Persisted(rows, allEvents).Keys
    ensures forall k :: k in rows ==> Persisted(rows, allEvents)[k] == rows[k]
  {
  }

  /** Running again on the same scrape reports nothing. */
  lemma RerunIsQuiet(rows: map<string, Row>, allEvents: seq<Event>)
    ensures Unseen(allEvents, EventHash, Persisted(rows, allEvents).Keys) == []
  {
    var after := Persisted(rows, allEvents);
    if Unseen(allEvents, EventHash, rows.Keys) != [] {
      forall i | 0 <= i < |allEvents| ensures EventHash(allEvents[i]) in after.Keys {
        assert allEvents[i] in allEvents;
      }
      UnseenCovered(allEvents, EventHash, after.Keys);
    }
  }

  /** An event stored once is never reported again, even after runs that did not see it. */
  lemma StoredNeverNewAgain(rows: map<string, Row>, missing: seq<Event>, e: Event, later: seq<Event>)
    requires EventHash(e) in rows
    ensures e !in Unseen(later, EventHash, Persisted(rows, missing).Keys)
  {
    PersistedKeepsRows(rows, missing);
  }
}
