/** What the two BeautifulSoup monitors (the local `IKEAEventsMonitor` and
    `IKEAEventsMonitorCloud`) have in common, line for line: the change
    detection of `find_new_events`, the legacy branch of
    `load_previous_events`, and the string logic of `extract_event_data`. */
module Monitor {
  import opened Strings
  import opened Collections
  import opened Events

  // ---------------------------------------------------------- change detection

  /** The md5 pre-image `f"{title}{date}{description}"`. md5 itself is modelled as
      the identity on this string, which assumes that md5 has no collisions.
      There is no separator between the parts, and `url`, `location` and the
      extraction time play no part. */
  function Fingerprint(e: Event): string {
    e.title + e.date + e.description
  }

  /** What `find_new_events(current, previous)` returns: everything when there is
      no history, and otherwise the current events whose fingerprint no previous
      event has, in their original order. */
  function NewEvents(current: seq<Event>, previous: seq<Event>): (r: seq<Event>)
    ensures previous == [] ==> r == current
    ensures previous != [] ==>
      forall e :: e in r <==> e in current && Fingerprint(e) !in KeysOf(previous, Fingerprint)
    ensures IsSubsequence(r, current)
  {
    if previous == [] then
      SubsequenceRefl(current);
      current
    else Unseen(current, Fingerprint, KeysOf(previous, Fingerprint))
  }

  /** `find_new_events`: with no history every current event is returned;
      otherwise its two loops collect the previous fingerprints into a set and
      keep the current events missing from it. */
  method FindNewEvents(current: seq<Event>, previous: seq<Event>) returns (found: seq<Event>)
    ensures found == NewEvents(current, previous)
  {
    if |previous| == 0 {
      return current;
    }
    var previousHashes := CollectKeys(previous, Fingerprint);
    found := FilterUnseen(current, Fingerprint, previousHashes);
  }

  /** The bootstrap branch agrees with the general one: with no previous events
      nothing is filtered out anyway. */
  lemma NewEventsIsUnseen(current: seq<Event>, previous: seq<Event>)
    ensures NewEvents(current, previous) == Unseen(current, Fingerprint, KeysOf(previous, Fingerprint))
  {
    if previous == [] {
      assert KeysOf(previous, Fingerprint) == {};
      UnseenNothing(current, Fingerprint);
    }
  }

  /** Comparing a run with itself finds nothing new. */
  lemma NewEventsOfSelf(events: seq<Event>)
    ensures NewEvents(events, events) == []
  {
    if events != [] {
      UnseenOwnKeys(events, Fingerprint);
    }
  }

  /** An event seen before under another link or at another store is still not new. */
  lemma MovedEventNotNew(e: Event, previous: seq<Event>, url: string, location: string)
    requires e in previous
    ensures NewEvents([e.(url := url, location := location)], previous) == []
  {
    var moved := e.(url := url, location := location);
    assert Fingerprint(moved) in KeysOf(previous, Fingerprint);
    UnseenSingle(moved, Fingerprint, KeysOf(previous, Fingerprint));
  }

  /** Without a separator, moving text from the end of the title to the start of
      the date gives the same fingerprint, so such an event is not reported as new. */
  lemma FingerprintCollision()
    ensures Fingerprint(Event("ab", "", "x", "", Etobicoke)) == Fingerprint(Event("a", "b", "x", "", Etobicoke))
    ensures NewEvents([Event("a", "b", "x", "", Etobicoke)], [Event("ab", "", "x", "", Etobicoke)]) == []
  {
    var old_ := Event("ab", "", "x", "", Etobicoke);
    var new_ := Event("a", "b", "x", "", Etobicoke);
    assert Fingerprint(new_) == Fingerprint(old_);
    assert Fingerprint(new_) in KeysOf([old_], Fingerprint);
    UnseenSingle(new_, Fingerprint, KeysOf([old_], Fingerprint));
  }

  // -------------------------------------------------------------- stored state

  /** The parsed contents of `previous_events.json`, or its absence. */
  datatype StoredEvents =
    | NoFile
    | FlatList(events: seq<Event>)                       // the legacy format
    | ByLocation(byLocation: map<string, seq<Event>>)

  /** `load_previous_events`: a legacy flat list belongs to Etobicoke, a missing
      file means no history at either store, and a dictionary is used as it is. */
  function LoadPreviousEvents(stored: StoredEvents): (r: map<string, seq<Event>>)
    ensures stored.NoFile? ==> r.Keys == Locations && forall k :: k in r ==> r[k] == []
    ensures stored.FlatList? ==> r.Keys == Locations && r[Etobicoke] == stored.events && r[NorthYork] == []
    ensures stored.ByLocation? ==> r == stored.byLocation
  {
    match stored
    case NoFile => map[Etobicoke := [], NorthYork := []]
    case FlatList(events) => map[Etobicoke := events, NorthYork := []]
    case ByLocation(m) => m
  }

  /** `previous_events_by_location.get(location_key, [])` */
  function PreviousAt(previous: map<string, seq<Event>>, location: string): seq<Event> {
    if location in previous then previous[location] else []
  }

  /** What `save_events` writes is what the next run loads. */
  lemma SaveThenLoad(byLocation: map<string, seq<Event>>, location: string)
    ensures PreviousAt(LoadPreviousEvents(ByLocation(byLocation)), location) == PreviousAt(byLocation, location)
  {
  }

  /** After migrating a legacy file, Etobicoke is compared with the old list and
      every North York event counts as new. */
  lemma LegacyMigration(events: seq<Event>, etobicoke: seq<Event>, northYork: seq<Event>)
    ensures NewEvents(etobicoke, PreviousAt(LoadPreviousEvents(FlatList(events)), Etobicoke)) == NewEvents(etobicoke, events)
    ensures NewEvents(northYork, PreviousAt(LoadPreviousEvents(FlatList(events)), NorthYork)) == northYork
  {
  }

  /** With no file, both stores report everything they find. */
  lemma FirstRunReportsEverything(location: string, current: seq<Event>)
    ensures NewEvents(current, PreviousAt(LoadPreviousEvents(NoFile), location)) == current
  {
  }

  // ---------------------------------------------------------------- extraction

  /** An element found by a date selector: its text and its `datetime` attribute, if any. */
  datatype DateElement = DateElement(text: string, datetime: Option<string>)

  /** What `extract_event_data` can see of a container. Each selector hit is the
      first element `select_one` finds for that selector, in the order the
      selectors are tried, or None when it finds nothing. The first match of the
      date patterns over the container text is given, not computed. */
  datatype Container = Container(
    titleHits: seq<Option<string>>,
    dateHits: seq<Option<DateElement>>,
    text: string,
    dateMatch: Option<string>)

  /** The first selector that matched anything: a hit with no hit before it. */
  function FirstHit<T>(hits: seq<Option<T>>): (r: Option<T>)
    ensures r.Some? <==> exists i :: 0 <= i < |hits| && hits[i].Some?
    ensures r.Some? ==> exists i :: 0 <= i < |hits| && hits[i] == r && forall j :: 0 <= j < i ==> hits[j].None?
  {
    if hits == [] then None
    else if hits[0].Some? then hits[0]
    else
      assert forall i :: 0 < i < |hits| ==> hits[i] == hits[1..][i - 1];
      FirstHit(hits[1..])
  }

  /** The index of the first line at or after `start` that is not blank, or
      `|lines|` when there is none. */
  function FirstNonBlank(lines: seq<string>, start: nat): (i: nat)
    requires start <= |lines|
    ensures start <= i <= |lines|
    ensures forall k :: start <= k < i ==> AllSpace(lines[k])
    ensures i < |lines| ==> !AllSpace(lines[i])
    decreases |lines| - start
  {
    if start == |lines| || !AllSpace(lines[start]) then start
    else FirstNonBlank(lines, start + 1)
  }

  /** Every line is blank. */
  predicate AllBlank(lines: seq<string>) {
    forall k :: 0 <= k < |lines| ==> AllSpace(lines[k])
  }

  /** The stripped text is blank exactly when the text is, and it is the join of its lines. */
  lemma FallbackLinesBlank(text: string)
    ensures AllSpace(text) <==> AllBlank(Split(Strip(text), '\n'))
  {
    var stripped := Strip(text);
    var lines := Split(stripped, '\n');
    assert AllSpace(text) <==> AllSpace(stripped) by {
      if stripped != [] {
        assert !IsSpace(stripped[0]);
      }
    }
    assert AllSpace(stripped) <==> AllBlank(lines) by {
      JoinAllSpace(lines, '\n');
    }
  }

  /** A non-blank line without a line break, stripped and cut, is still non-blank and unbroken. */
  lemma FallbackLineShape(line: string)
    requires '\n' !in line && !AllSpace(line)
    ensures var r := Take(Strip(line), 100);
      r != [] && !IsSpace(r[0]) && '\n' !in r
  {
    var t := Strip(line);
    var r := Take(t, 100);
    assert r[0] == t[0];
    assert forall k :: 0 <= k < |r| ==> r[k] == t[k];
  }

  /** `t` is the first 100 characters of line `k`, stripped, and `k` is the first
      line that is not blank. */
  predicate TitleOfLine(lines: seq<string>, k: nat, t: string) {
    k < |lines| && AllBlank(lines[..k]) && !AllSpace(lines[k]) && t == Take(Strip(lines[k]), 100)
  }

  /** The title used when no title selector matched: the first non-blank line of
      the stripped text, stripped, and cut to 100 characters. */
  function FallbackTitle(text: string): (r: string)
    ensures |r| <= 100
    ensures '\n' !in r
    ensures r == [] || !IsSpace(r[0])
    ensures r == [] <==> AllSpace(text)
    ensures r != [] ==> exists k :: TitleOfLine(Split(Strip(text), '\n'), k, r)
  {
    var lines := Split(Strip(text), '\n');
    var i := FirstNonBlank(lines, 0);
    FallbackLinesBlank(text);
    if i < |lines| then
      FallbackLineShape(lines[i]);
      assert TitleOfLine(lines, i, Take(Strip(lines[i]), 100));
      Take(Strip(lines[i]), 100)
    else
      []
  }

  /** The title of `extract_event_data`: the stripped text of the first title
      selector hit, and the fallback title when that is empty or nothing matched. */
  function ChosenTitle(c: Container): string {
    var t := match FirstHit(c.titleHits) case Some(s) => Strip(s) case None => [];
    if t == [] then FallbackTitle(c.text) else t
  }

  /** The date of `extract_event_data`: the stripped text of the first date
      selector hit, or its non-empty `datetime` attribute when the text is blank,
      and the first date-pattern match in the text when both give nothing. */
  function ChosenDate(c: Container): string {
    var d := match FirstHit(c.dateHits)
      case Some(el) =>
        var t := Strip(el.text);
        if t == [] && el.datetime.Some? && el.datetime.value != [] then el.datetime.value else t
      case None => [];
    if d == [] then (match c.dateMatch case Some(m) => m case None => []) else d
  }

  /** `s.replace(w, '').strip()` when `w` is a non-empty part of `s`: at least one
      occurrence of `w` is gone and the rest is stripped; otherwise `s` is kept. */
  function RemoveOccurring(s: string, w: string): (r: string)
    ensures |r| <= |s|
    ensures w == [] || !Contains(s, w) ==> r == s
    ensures w != [] && Contains(s, w) ==> |r| <= |s| - |w| && (r == [] || (!IsSpace(r[0]) && !IsSpace(r[|r| - 1])))
  {
    if w != [] && Contains(s, w) then Strip(RemoveAll(s, w)) else s
  }

  /** The description of `extract_event_data`: the stripped text without the
      title and then without the date, every whitespace run made one space, and
      the first 500 characters of that. */
  function CleanDescription(text: string, title: string, date: string): (r: string)
    ensures |r| <= 500 && |r| <= |Strip(text)|
    ensures NoSpaceRuns(r) && OnlyPlainSpaces(r)
    ensures r == [] || !IsSpace(r[0])
    ensures title != [] && Contains(Strip(text), title) ==> |r| <= |Strip(text)| - |title|
    ensures (title == [] || !Contains(Strip(text), title)) && (date == [] || !Contains(Strip(text), date))
            ==> r == Take(Collapse(Strip(text)), 500)
  {
    var d := RemoveOccurring(RemoveOccurring(Strip(text), title), date);
    var c := Collapse(d);
    TakeKeepsClean(c, 500);
    Take(c, 500)
  }

  /** What `extract_event_data(container, location_key)` returns: an event when the
      chosen title is longer than 3 characters and the store is known (an unknown
      key raises a KeyError that the method catches), and None otherwise. */
  function Extracted(c: Container, location: string): (r: Option<Event>)
    ensures r.Some? <==> |ChosenTitle(c)| > 3 && location in Locations
    ensures r.Some? ==> r.value == Event(ChosenTitle(c), ChosenDate(c),
                                         CleanDescription(c.text, ChosenTitle(c), ChosenDate(c)), "", location)
    ensures r.Some? ==> var e := r.value;
      && |e.title| > 3 && !IsSpace(e.title[0])
      && |e.description| <= 500 && NoSpaceRuns(e.description) && OnlyPlainSpaces(e.description)
      && e.url == [] && e.location == location
  {
    var title := ChosenTitle(c);
    var date := ChosenDate(c);
    if |title| > 3 && location in Locations then
      assert !IsSpace(title[0]) by {
        var t := match FirstHit(c.titleHits) case Some(s) => Strip(s) case None => [];
        assert t == [] || !IsSpace(t[0]);
      }
      Some(Event(title, date, CleanDescription(c.text, title, date), "", location))
    else None
  }

  /** The title selector loop of `extract_event_data`, left at the first hit,
      followed by the fallback to the first line of text. */
  method SelectTitle(c: Container) returns (title: string)
    ensures title == ChosenTitle(c)
  {
    title := "";
    var i := 0;
    while i < |c.titleHits|
      invariant 0 <= i <= |c.titleHits|
      invariant FirstHit(c.titleHits) == FirstHit(c.titleHits[i..])
    {
      assert c.titleHits[i..][1..] == c.titleHits[i + 1..];
      if c.titleHits[i].Some? {
        title := Strip(c.titleHits[i].value);
        break;
      }
      i := i + 1;
    }
    if title == "" {
      title := FallbackTitle(c.text);
    }
  }

  /** The date selector loop of `extract_event_data`, left at the first hit,
      followed by the fallback to the date patterns. */
  method SelectDate(c: Container) returns (date: string)
    ensures date == ChosenDate(c)
  {
    date := "";
    var i := 0;
    while i < |c.dateHits|
      invariant 0 <= i <= |c.dateHits|
      invariant FirstHit(c.dateHits) == FirstHit(c.dateHits[i..])
    {
      assert c.dateHits[i..][1..] == c.dateHits[i + 1..];
      if c.dateHits[i].Some? {
        var el := c.dateHits[i].value;
        date := Strip(el.text);
        if date == "" && el.datetime.Some? && el.datetime.value != "" {
          date := el.datetime.value;
        }
        break;
      }
      i := i + 1;
    }
    if date == "" && c.dateMatch.Some? {
      date := c.dateMatch.value;
    }
  }

  /** `extract_event_data`: the title and the date, then the description
      reassigned step by step, then the length guard. */
  method ExtractEventData(c: Container, location: string) returns (r: Option<Event>)
    ensures r == Extracted(c, location)
  {
    var title := SelectTitle(c);
    var date := SelectDate(c);
    var description := Strip(c.text);
    if title != "" && Contains(description, title) {
      description := Strip(RemoveAll(description, title));
    }
    if date != "" && Contains(description, date) {
      description := Strip(RemoveAll(description, date));
    }
    description := Collapse(description);
    description := Take(description, 500);
    assert description == CleanDescription(c.text, title, date);
    if title != "" && |title| > 3 && location in Locations {
      r := Some(Event(title, date, description, "", location));
    } else {
      r := None;
    }
  }

  /** A container with a title selector hit of more than 3 characters, after
      stripping, is extracted under that title. */
  lemma TitleSelectorWins(c: Container, location: string)
    requires c.titleHits != [] && c.titleHits[0].Some? && |Strip(c.titleHits[0].value)| > 3
    ensures ChosenTitle(c) == Strip(c.titleHits[0].value)
  {
  }

  /** Without any title element, a container whose text is blank yields no event. */
  lemma BlankContainerYieldsNothing(c: Container)
    requires forall i :: 0 <= i < |c.titleHits| ==> c.titleHits[i].None?
    requires AllSpace(c.text)
    ensures ChosenTitle(c) == []
  {
  }
}
