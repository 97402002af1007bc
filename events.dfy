/** The record every scraper produces for one event, and the helpers on it
    that several scrapers share. */
module Events {
  import opened Strings

  datatype Option<T> = None | Some(value: T)

  /** The value of an option as a list of at most one element. */
  function OptionSeq<T>(o: Option<T>): seq<T> {
    if o.Some? then [o.value] else []
  }

  /** One scraped event. Records built by `extract_event_data` have no `url`
      key and those built by the Selenium scrapers no `description` key;
      both are the empty string here, which is what `event.get(k, '')`
      reads for them. */
  datatype Event = Event(title: string, date: string, description: string, url: string, location: string)

  /** The two store keys every monitor knows (`self.locations` / `locations`). */
  const Etobicoke: string := "etobicoke"
  const NorthYork: string := "north_york"
  const Locations: set<string> := {Etobicoke, NorthYork}

  const IkeaOrigin: string := "https://www.ikea.com"

  /** A link relative to the site root gets the IKEA origin in front; any other link is kept. */
  function MakeFullUrl(url: string): (r: string)
    ensures "/" <= url ==> r == IkeaOrigin + url
    ensures !("/" <= url) ==> r == url
    ensures !("/" <= r)
  {
    if "/" <= url then
      assert (IkeaOrigin + url)[0] == IkeaOrigin[0] == 'h';
      IkeaOrigin + url
    else url
  }

  /** Absolutising an absolute link changes nothing, so applying it twice is applying it once. */
  lemma MakeFullUrlIdempotent(url: string)
    ensures MakeFullUrl(MakeFullUrl(url)) == MakeFullUrl(url)
  {
  }

  /** The origin is added in front of the link, which is kept whole after it. */
  lemma MakeFullUrlKeepsPath(url: string)
    requires "/" <= url
    ensures MakeFullUrl(url)[|IkeaOrigin|..] == url
    ensures Contains(MakeFullUrl(url), url)
  {
    var r := MakeFullUrl(url);
    assert r[|IkeaOrigin|..] == url;
    assert OccursAt(r, url, |IkeaOrigin|);
  }
}
