# IKEA events monitors in Dafny

This project models the list, set and string logic of the IKEA Canada events
monitors: the scripts that scrape the event pages of the Etobicoke and North
York stores, decide which scraped records are real events, drop duplicates
within one run, and work out which events are new compared with the previous
run. Each scraped record is an `Event` of five strings (title, date,
description, url, location). The page, the browser, the database connection
and the state file are not modelled. Instead their results are given as
values: candidate elements, stored maps and per-store lists.

The modules follow the repository's files:

- `Strings` (strings.dfy): the Python string operations the scrapers use. These are
  `strip`, `lower`, `in`, `split`, `replace`, `re.sub(r'\s+', ' ', s)`, slicing and `|`-separated keys.
- `Collections` (collections.dfy): the two loops every variant repeats. `Unseen` drops the
  elements whose key is already in a set. `KeepFirst` keeps the first element of each key.
- `Events` (events.dfy): the record and the relative-link absolutisation.
- `Monitor` (monitor.dfy): what the cloud and local monitors share. This covers change
  detection on the separator-free `title+date+description` fingerprint, state loading with
  the legacy flat-list migration, and `extract_event_data`.
- `CloudMonitor` (cloud_monitor.dfy): the strict `is_valid_event` and
  `is_valid_event_title`, plus the container selection of `parse_events` and
  `parse_events_fallback`.
- `LocalMonitor` (local_monitor.dfy): the permissive `is_valid_event` and `deduplicate_events`.
- `SeleniumScrape` (selenium_scrape.dfy): what ikea_selenium_db.py and
  ikea_selenium_simple.py share. This is the two candidate strategies of `scrape_ikea_events`
  with their `seen_events` filter, `get_event_hash` over `title|date|location`, and
  `find_new_events`.
- `SeleniumDb` (selenium_db.dfy): the `previous_events` table as a class over a map, with
  `ON CONFLICT DO NOTHING` inserts and the save decision of `main`.
- `SeleniumSimple` (selenium_simple.dfy): the hash-to-event map `main` builds and saves only
  when something is new.
- `SeleniumMonitor` (selenium_ikea_monitor.py's logic): change detection on `(title, date)`,
  the default state and the per-store diff.

md5 is modelled as the identity on the string it hashes, which assumes that md5 has no
collisions. The fingerprints and keys are therefore exactly the pre-images the code builds.

The three filters disagree on an event titled "Bingo Night". The cloud `is_valid_event_title`
rejects it because no indicator occurs in "bingo night" (`CloudMonitor.BingoNightTitleRejected`), and
the strict cloud `is_valid_event` needs an event indicator too. Only the permissive local filter
accepts it (`LocalMonitor.BingoNightAccepted`).

## Model

| member | source | states |
|---|---|---|
| Strings.Strip | ikea_events_monitor_cloud.py:212 | `str.strip()`: the result is the slice of the input between a leading and a trailing whitespace run; neither of its ends is whitespace, and it is empty exactly when the input is all whitespace |
| Strings.LStrip | ikea_events_monitor_cloud.py:212 | the left half of `strip()`: a suffix of the input whose first character is not whitespace, with only whitespace cut off |
| Strings.RStrip | ikea_events_monitor_cloud.py:212 | the right half of `strip()`: a prefix of the input whose last character is not whitespace, with only whitespace cut off |
| Strings.Lower | ikea_events_monitor_cloud.py:285-286 | `str.lower()` on ASCII letters, character by character (no contract of its own; see the two lemmas below) |
| Strings.LowerIdempotent | ikea_events_monitor_cloud.py:339 | lower-casing twice is lower-casing once |
| Strings.LowerAppend | ikea_events_monitor_cloud.py:285-286 | lower-casing a concatenation lower-cases each part |
| Strings.RemoveAll | ikea_events_monitor_cloud.py:259-261 | `str.replace(w, '')`: a text without `w` comes back unchanged; otherwise it loses at least the length of one occurrence |
| Strings.Collapse | ikea_events_monitor_cloud.py:264 | `re.sub(r'\s+', ' ', s)`: no whitespace runs, only plain spaces, never longer, empty only for an empty input, and it starts with whitespace exactly when the input does |
| Strings.Take | ikea_events_monitor_cloud.py:220 | the slice `s[:n]`: a prefix of at most `n` characters, the whole string when it is short enough |
| Strings.Split | ikea_events_monitor_cloud.py:217 | `split('\n')`: at least one piece, no piece holds the separator, and joining the pieces gives back the input |
| Strings.CollapseClean | ikea_events_monitor_cloud.py:264 | `re.sub(r'\s+', ' ', s)` leaves a string with no whitespace runs and only plain spaces unchanged |
| Strings.CollapseIdempotent | ikea_events_monitor_cloud.py:264 | collapsing whitespace twice is collapsing it once |
| Strings.Join3Injective | ikea_selenium_db.py:236 | a `a|b|c` key determines its three parts when the first two hold no `|` |
| Collections.Unseen | ikea_events_monitor_cloud.py:401-406 | the filter loop: an order-preserving subsequence holding exactly the elements whose key is not in the set |
| Collections.UnseenAppend | ikea_events_monitor_cloud.py:401-406 | the filter works element by element, so it distributes over concatenation |
| Collections.CollectKeys | ikea_events_monitor_cloud.py:396-399 | the hash-set loop builds exactly the set of keys of the list |
| Collections.AddKey | ikea_events_monitor_cloud.py:397-399 | one step of the hash-set loop adds the key of one more element |
| Collections.FilterUnseen | ikea_events_monitor_cloud.py:401-406 | the filter loop computes `Unseen` |
| Collections.AppendIfUnseen | ikea_events_monitor_cloud.py:402-406 | one step of the filter loop extends `Unseen` by one element |
| Collections.FlatMap | ikea_events_monitor_cloud.py:138-170 | the outputs of a per-element function, in element order: the shape of the loops that append zero or one event per container |
| Collections.FlatMapAppend | ikea_events_monitor_cloud.py:138-170 | the outputs of a concatenation are the outputs of its parts, concatenated |
| Collections.FlatMapComplete | ikea_events_monitor_cloud.py:187-193 | every output of every element is in the result |
| Collections.FlatMapSound | ikea_events_monitor_cloud.py:187-193 | everything in the result is an output of some element |
| Collections.KeepFirst | ikea_events_monitor.py:318-327 | the seen-set loop: an order-preserving subsequence with pairwise distinct keys and the same set of keys as the input |
| Collections.KeepIfUnseen | ikea_events_monitor.py:323-325 | one step of the seen-set loop extends `KeepFirst` by one element and keeps the seen set equal to the keys kept; the `seen_events` steps of ikea_selenium_db.py:172-181 are the same |
| Collections.KeepFirstKeepsFirst | ikea_events_monitor.py:323-325 | the first element of every key is in the result |
| Collections.KeepFirstIdempotent | ikea_events_monitor.py:315-327 | filtering the output again returns it unchanged |
| Events.MakeFullUrl | ikea_events_monitor_cloud.py:155-156 | a link starting with `/` gets `https://www.ikea.com` in front and any other link is kept; the result never starts with `/` (same rule as `make_full_url`, selenium_ikea_monitor.py:44-47) |
| Events.MakeFullUrlIdempotent | selenium_ikea_monitor.py:44-47 | absolutising twice is absolutising once |
| Events.MakeFullUrlKeepsPath | selenium_ikea_monitor.py:44-47 | the origin goes in front and the whole link follows it |
| Monitor.Fingerprint | ikea_events_monitor_cloud.py:398-404 | the md5 pre-image `title + date + description` (a definition; `Monitor.MovedEventNotNew` and `Monitor.FingerprintCollision` state what it ignores and confuses) |
| Monitor.NewEvents | ikea_events_monitor_cloud.py:390-408 | an empty previous list reports all current events; otherwise an event is reported exactly when its fingerprint is not among the previous ones, in current order |
| Monitor.FindNewEvents | ikea_events_monitor_cloud.py:390-408 | the early return and the two loops (hash set, then filter) compute `NewEvents`; ikea_events_monitor.py:351-369 is the same code |
| Monitor.NewEventsIsUnseen | ikea_events_monitor_cloud.py:392-393 | the bootstrap branch agrees with the filter, so it changes no result |
| Monitor.NewEventsOfSelf | ikea_events_monitor.py:351-369 | comparing a list with itself reports nothing |
| Monitor.MovedEventNotNew | ikea_events_monitor_cloud.py:398 | the fingerprint ignores url and store: a stored event with a new link or store is not new |
| Monitor.FingerprintCollision | ikea_events_monitor_cloud.py:398 | `("ab","","x")` and `("a","b","x")` share a fingerprint, so the second is not reported after the first |
| Monitor.LoadPreviousEvents | ikea_events_monitor_cloud.py:373-383 | no file gives both stores empty, a flat list becomes Etobicoke's list with North York empty, a map passes through; ikea_events_monitor.py:329-339 is the same code |
| Monitor.PreviousAt | ikea_events_monitor_cloud.py:545 | `previous_events_by_location.get(location_key, [])` (a definition; `Monitor.SaveThenLoad` and `Monitor.LegacyMigration` use it) |
| Monitor.SaveThenLoad | ikea_events_monitor_cloud.py:385-388 | what is saved by store is what the next run loads |
| Monitor.LegacyMigration | ikea_events_monitor_cloud.py:379-380 | after migration Etobicoke is diffed against the old list and every North York event is new |
| Monitor.FirstRunReportsEverything | ikea_events_monitor.py:339 | without a state file every event is new |
| Monitor.FirstHit | ikea_events_monitor_cloud.py:209-213 | the selector loop with `break`: some hit exists exactly when the result is one, and the result is a hit with no hit before it |
| Monitor.FirstNonBlank | ikea_events_monitor_cloud.py:217-220 | skips exactly the blank lines before the first non-blank one |
| Monitor.FallbackTitle | ikea_events_monitor_cloud.py:216-220 | the fallback title is empty exactly when the text is blank; otherwise it is the first 100 characters of the stripped first non-blank line, every earlier line being blank; it has no newline and does not start with whitespace |
| Monitor.RemoveOccurring | ikea_events_monitor_cloud.py:258-262 | `replace(w, '').strip()` under the `if w in s` guard: nothing changes when `w` is empty or absent; otherwise at least one occurrence's length goes and the result is stripped |
| Monitor.CleanDescription | ikea_events_monitor_cloud.py:257-265 | the description has at most 500 characters, no whitespace runs, only plain spaces, and no leading space; an occurring title shortens it by at least the title's length; when neither title nor date occurs it is the first 500 characters of the collapsed stripped text |
| Monitor.Extracted | ikea_events_monitor_cloud.py:266-281 | a record is produced exactly when the chosen title is longer than 3 characters and the store key is known; it is the chosen title, the chosen date, the description cleaned of both, an empty url and the given store |
| Monitor.ChosenTitle | ikea_events_monitor_cloud.py:201-220 | the stripped first title-selector hit, or the fallback title when that is empty (a definition; `Monitor.SelectTitle` and `Monitor.TitleSelectorWins` state its properties) |
| Monitor.ChosenDate | ikea_events_monitor_cloud.py:222-255 | the stripped first date-selector hit or its non-empty `datetime`, or the first pattern match when both are empty (a definition; `Monitor.SelectDate` computes it) |

| Monitor.SelectTitle | ikea_events_monitor_cloud.py:201-220 | the title loop picks the title `Extracted` describes |
| Monitor.SelectDate | ikea_events_monitor_cloud.py:223-254 | the date loop picks the date `Extracted` describes |
| Monitor.ExtractEventData | ikea_events_monitor_cloud.py:197-281 | the method returns `Extracted`; ikea_events_monitor.py:190-274 is the same code |
| Monitor.TitleSelectorWins | ikea_events_monitor_cloud.py:209-213 | a first selector hit longer than 3 characters is the title |
| Monitor.BlankContainerYieldsNothing | ikea_events_monitor_cloud.py:216-220 | with no selector hit and blank text there is no title |
| CloudMonitor.IsValidEvent | ikea_events_monitor_cloud.py:283-335 | the strict filter: a title of at least 3 characters, no promotional phrase in the lower-cased title or description, no generic link text in the title, and an event indicator in either (a definition; the lemmas below state its properties) |
| CloudMonitor.IsValidEventTitle | ikea_events_monitor_cloud.py:337-371 | the title filter: no promotional phrase in the lower-cased title and an event or sale indicator in it (a definition; the lemmas below state its properties) |
| CloudMonitor.ShortTitleInvalid | ikea_events_monitor_cloud.py:289-290 | a title under 3 characters is rejected |
| CloudMonitor.InvalidKeywordVetoes | ikea_events_monitor_cloud.py:293-311 | a promotional phrase in the lower-cased title or description rejects the event, whatever its indicators |
| CloudMonitor.IsValidEventIgnoresCase | ikea_events_monitor_cloud.py:286-287 | the verdict does not depend on letter case |
| CloudMonitor.IsValidEventTitleIgnoresCase | ikea_events_monitor_cloud.py:339 | the title verdict does not depend on letter case |
| CloudMonitor.TitleInvalidKeywordVetoes | ikea_events_monitor_cloud.py:341-356 | a promotional phrase in the title rejects it whatever indicator it holds |
| CloudMonitor.IndicatorsAreTitleIndicators | ikea_events_monitor_cloud.py:358-371 | every event indicator also makes a title acceptable |
| CloudMonitor.SignUpRejected | ikea_events_monitor_cloud.py:293-311 | "Sign up for IKEA Family" is rejected |
| CloudMonitor.KidsCookingAccepted | ikea_events_monitor_cloud.py:314-335 | "Kids Cooking Workshop" is accepted when its description has no promotional phrase |
| CloudMonitor.BingoNightTitleRejected | ikea_events_monitor_cloud.py:358-371 | "Bingo Night" holds no title indicator and is rejected |
| CloudMonitor.WarehouseSaleTitleAccepted | ikea_events_monitor_cloud.py:358-371 | "Warehouse Sale" is accepted through the indicator `sale` |
| CloudMonitor.EventListItems | ikea_events_monitor_cloud.py:116-122 | method 1 keeps exactly the items whose first link contains `/events/` |
| CloudMonitor.SectionParents | ikea_events_monitor_cloud.py:125-135 | method 2 keeps exactly the parents of sections with a heading |
| CloudMonitor.EventContainers | ikea_events_monitor_cloud.py:116-135 | method 2 is used only when method 1 found no container |
| CloudMonitor.SectionsIgnoredWhenListed | ikea_events_monitor_cloud.py:124 | when a list item links to an event the sections do not matter |
| CloudMonitor.ParsedEvent | ikea_events_monitor_cloud.py:138-170 | a container yields an event exactly when its heading is non-empty and a valid event title; the link is absolutised |
| CloudMonitor.ParsedEvents | ikea_events_monitor_cloud.py:138-170 | every parsed event has a valid non-empty title and an absolute link |
| CloudMonitor.ParsedEventsIsFlatMap | ikea_events_monitor_cloud.py:138-170 | the parse loop is a flat map: each container contributes its own event or nothing, in container order, so with `Collections.FlatMapComplete` and `Collections.FlatMapSound` every container that yields an event contributes it and nothing else is there |

| CloudMonitor.SelectContainers | ikea_events_monitor_cloud.py:113-135 | the selection loops compute `EventContainers` |
| CloudMonitor.ParseContainer | ikea_events_monitor_cloud.py:140-166 | one pass of the parse loop builds exactly the event `ParsedEvent` describes, with a root-relative link made absolute |
| CloudMonitor.ParseEvents | ikea_events_monitor_cloud.py:108-179 | the parse loop computes `ParsedEvents` of the selected containers |
| CloudMonitor.FallbackContribution | ikea_events_monitor_cloud.py:191-193 | one container gives at most one event, and what it gives passes the strict `is_valid_event`, has a title over 3 characters and the given store |
| CloudMonitor.FallbackEvents | ikea_events_monitor_cloud.py:181-195 | every fallback event passes the strict `is_valid_event`, has a title over 3 characters and the given store |
| CloudMonitor.FallbackEventsIsFlatMap | ikea_events_monitor_cloud.py:187-193 | the fallback loop is a flat map: each container contributes its extracted record when that passes `is_valid_event`, and nothing otherwise, in container order |

| CloudMonitor.ParseEventsFallback | ikea_events_monitor_cloud.py:181-195 | the fallback loop computes `FallbackEvents` |
| LocalMonitor.IsValidEvent | ikea_events_monitor.py:276-308 | the permissive filter: a title of at least 3 characters, no promotional phrase in the lower-cased title or description, and no generic link text in the title (a definition; the lemmas below state its properties) |
| LocalMonitor.ShortTitleInvalid | ikea_events_monitor.py:282-283 | a title under 3 characters is rejected |
| LocalMonitor.InvalidKeywordVetoes | ikea_events_monitor.py:286-297 | a promotional phrase in the lower-cased title or description rejects the event |
| LocalMonitor.KeywordsAreCloudKeywords | ikea_events_monitor.py:286-302 | the local keyword and generic-title lists are part of the cloud ones |
| LocalMonitor.StrictImpliesPermissive | ikea_events_monitor.py:276-308 | whatever the strict cloud filter accepts, the permissive one accepts |
| LocalMonitor.BingoNightAccepted | ikea_events_monitor.py:276-308 | "Bingo Night" passes the permissive filter when its description has no promotional phrase, while the cloud title filter rejects it |
| LocalMonitor.DedupKey | ikea_events_monitor.py:320-321 | the md5 pre-image `lower(title + description[:100])` (a definition; `LocalMonitor.DedupKeyIgnoresCase` and `LocalMonitor.DedupKeyIgnoresLongTail` state what it ignores) |
| LocalMonitor.DeduplicateEvents | ikea_events_monitor.py:310-327 | the loop computes `KeepFirst` on the key `lower(title + description[:100])` and returns an empty input unchanged |
| LocalMonitor.DeduplicatedShape | ikea_events_monitor.py:315-327 | the output is an order-preserving subsequence, no two outputs share a key, every input key appears, and an empty input gives an empty output |
| LocalMonitor.FirstOccurrenceKept | ikea_events_monitor.py:323-325 | the first event of each key is kept |
| LocalMonitor.DeduplicateIdempotent | ikea_events_monitor.py:315-327 | deduplicating the output again returns it unchanged |
| LocalMonitor.DedupKeyIgnoresCase | ikea_events_monitor.py:320-321 | titles that differ only in case have the same key |
| LocalMonitor.DedupKeyIgnoresLongTail | ikea_events_monitor.py:320 | only the first 100 description characters count |
| LocalMonitor.LaterNearDuplicateDropped | ikea_events_monitor.py:320-325 | a later copy differing only in title case, link or store is dropped |
| SeleniumScrape.ItemEvent | ikea_selenium_db.py:167-180 | an `li` yields an event exactly when its stripped first heading is longer than 5 characters; its title is that heading, its date the stripped first paragraph or empty, its url the given link, and its store the given one |
| SeleniumScrape.SeenKey | ikea_selenium_db.py:171 | the `seen_events` key `title|date|url` (a definition; `SeleniumScrape.ScrapedShape` uses it) |
| SeleniumScrape.ElementCandidate | ikea_selenium_db.py:160-180 | strategy 1 yields something only for a parent with a heading and a link, and then yields exactly the item's event with its first link |
| SeleniumScrape.LinkCandidate | ikea_selenium_db.py:196-206 | strategy 2 yields something only for a link with an `li` ancestor that has a heading, and then yields exactly that item's event with the matched link |
| SeleniumScrape.CandidatesWellFormed | ikea_selenium_db.py:158-218 | every candidate of either strategy has a stripped title longer than 5 characters, a stripped date, no description and the given store |
| SeleniumScrape.Scraped | ikea_selenium_db.py:158-218 | the first candidate of each `seen_events` key from strategy 1, or from strategy 2 when strategy 1 gives nothing (a definition; `SeleniumScrape.ScrapedShape` states its properties) |
| SeleniumScrape.ScrapeEvents | ikea_selenium_db.py:155-222 | the two strategy loops compute `Scraped`; ikea_selenium_simple.py:73-148 is the same code |
| SeleniumScrape.ScrapedShape | ikea_selenium_simple.py:92-103 | every scraped event has a stripped title longer than 5 characters and the given store, no two share a `title|date|url` key, and they come in page order |
| SeleniumScrape.LinksIgnoredWhenElementsFound | ikea_selenium_db.py:189 | strategy 2 is not consulted when strategy 1 produced a candidate |
| SeleniumScrape.LinksUsedWhenNoElements | ikea_selenium_simple.py:112 | when strategy 1 produced nothing the result is strategy 2's |
| SeleniumScrape.ShortHeadingSkipped | ikea_selenium_db.py:171 | a stripped heading of at most 5 characters contributes nothing |
| SeleniumScrape.RematchedItemAddsNothing | ikea_selenium_db.py:172-174 | an `li` met twice in a row, through two of its matching texts, adds one event, not two |
| SeleniumScrape.Concat | ikea_selenium_db.py:314-318 | `all_events` holds every event of every store and nothing else |
| SeleniumScrape.ConcatAppend | ikea_selenium_db.py:316-318 | the stores' lists follow each other in store order: concatenating two runs of stores concatenates their results |
| SeleniumScrape.ConcatOne | ikea_selenium_db.py:316-318 | with one store, `all_events` is that store's list |

| SeleniumScrape.EventHash | ikea_selenium_db.py:234-237 | the md5 pre-image `title|date|location` (a definition; the lemmas below state what it ignores and when it is injective) |
| SeleniumScrape.EventHashIgnoresUrl | ikea_selenium_db.py:234-237 | the hash reads only title, date and store |
| SeleniumScrape.EventHashInjective | ikea_selenium_simple.py:178-182 | without `|` in titles and dates, equal hashes mean equal title, date and store |
| SeleniumScrape.EventHashBarCollision | ikea_selenium_db.py:236 | with a `|` inside a title two different events hash alike |
| SeleniumScrape.FindNewEvents | ikea_selenium_db.py:239-249 | the loop keeps exactly the current events whose hash is not a stored key, in order; ikea_selenium_simple.py:184-194 is the same code |
| SeleniumScrape.NothingStoredAllNew | ikea_selenium_simple.py:184-194 | against an empty map every event is new |
| SeleniumScrape.NewnessIgnoresUrl | ikea_selenium_db.py:239-249 | whether an event is new does not depend on its link |
| SeleniumDb.InsertAll | ikea_selenium_db.py:99-105 | after the inserts the keys are the old keys plus the batch's hashes, and stored rows are unchanged |
| SeleniumDb.PreviousEventsTable.PreviousEvents | ikea_selenium_db.py:74-89 | the stored hashes, each mapped to true |
| SeleniumDb.PreviousEventsTable.Insert | ikea_selenium_db.py:101-105 | one insert adds a row only for an absent hash |
| SeleniumDb.PreviousEventsTable.SavePreviousEvents | ikea_selenium_db.py:91-113 | the insert loop gives `InsertAll` of the old table |
| SeleniumDb.RunCheck | ikea_selenium_db.py:310-333 | reports the events whose hash is not stored, and saves all current events only when one of them is new |
| SeleniumDb.InsertAllPresent | ikea_selenium_db.py:104 | inserting only stored hashes leaves the table unchanged |
| SeleniumDb.InsertAllTwice | ikea_selenium_db.py:99-105 | inserting a batch twice is inserting it once |
| SeleniumDb.InsertAllFirstWins | ikea_selenium_db.py:104 | the first event of a new hash is the row stored for it |
| SeleniumDb.Persisted | ikea_selenium_db.py:324-333 | the table after `main`: all current events inserted when one of them is new, the table unchanged otherwise (a definition; `SeleniumDb.RunCheck` leaves it, the lemmas below state its properties) |
| SeleniumDb.PersistedKeepsRows | ikea_selenium_db.py:324-333 | a run never changes or removes a stored row |
| SeleniumDb.RerunIsQuiet | ikea_selenium_db.py:324-333 | a second run on the same scrape reports nothing |
| SeleniumDb.StoredNeverNewAgain | ikea_selenium_db.py:324-333 | an event stored once is never reported again |
| SeleniumSimple.HashIndex | ikea_selenium_simple.py:272-276 | the keys are exactly the hashes of the events, and each key maps to an event with that hash |
| SeleniumSimple.BuildHashIndex | ikea_selenium_simple.py:272-275 | the loop computes `HashIndex` |
| SeleniumSimple.HashIndexLastWins | ikea_selenium_simple.py:274-275 | for a repeated hash the last event is kept |
| SeleniumSimple.RunCheck | ikea_selenium_simple.py:238-280 | reports the events whose hash is not stored, and replaces the state by the current events only when one of them is new |
| SeleniumSimple.NextState | ikea_selenium_simple.py:265-278 | the state after `main`: the hash index of the current events when one of them is new, the old state otherwise (a definition; `SeleniumSimple.RunCheck` leaves it, the lemmas below state its properties) |
| SeleniumSimple.RerunIsQuiet | ikea_selenium_simple.py:265-278 | a second run on the same scrape reports nothing |
| SeleniumSimple.ReplacedNotMerged | ikea_selenium_simple.py:272-276 | after a run with news, a stored hash this run did not see is gone |
| SeleniumSimple.ReturningEventReportedAgain | ikea_selenium_simple.py:265-278 | such an event is reported again when it returns |
| SeleniumSimple.QuietRunKeepsState | ikea_selenium_simple.py:265-278 | a run without news leaves the state as it was |
| SeleniumMonitor.FindNewEvents | selenium_ikea_monitor.py:39-42 | exactly the current events whose `(title, date)` is absent from previous, in order |
| SeleniumMonitor.FindNewEventsOfSelf | selenium_ikea_monitor.py:41-42 | comparing a list with itself reports nothing |
| SeleniumMonitor.FindNewEventsFromNothing | selenium_ikea_monitor.py:41-42 | compared with nothing everything is new |
| SeleniumMonitor.UrlChangeNotNew | selenium_ikea_monitor.py:40-42 | a changed link or store does not make an event new |
| SeleniumMonitor.LoadPreviousEvents | selenium_ikea_monitor.py:29-33 | without a file both stores start empty; a loaded map passes through |
| SeleniumMonitor.NewByLocation | selenium_ikea_monitor.py:130 | one entry per scraped store, diffed against its stored list or `[]` |
| SeleniumMonitor.MissingLocationAllNew | selenium_ikea_monitor.py:130 | a store missing from the state reports all its events |
| SeleniumMonitor.FirstRunAllNew | selenium_ikea_monitor.py:29-33 | on the first run every event is new |
| SeleniumMonitor.RerunIsQuiet | selenium_ikea_monitor.py:134 | the scrape is always saved, so a second run on the same page reports nothing |

## Left out

- Fetching pages, the Selenium driver, waits and sleeps: I/O. The page is given as its candidate elements.
- BeautifulSoup and XPath queries: foreign library calls. The model takes their results as
  `Block`, `Section`, `Container`, `ListItem` and `EventLink` values.
- The date regular expression (ikea_events_monitor_cloud.py:241-254): it depends on Python's
  `re`. Its first match is an input (`Container.dateMatch`).
- `has_event_indicators` and the local `parse_events` (ikea_events_monitor.py:110-188): regex- and DOM-driven.
- md5: modelled as the identity on its pre-image, which assumes it has no collisions.
- E-mail, SMTP and webhook formatting and delivery; scheduling and `run_scheduler`; configuration and environment loading.
- JSON reading and writing: the model starts from the value already parsed. Unreadable-file
  handling (`load_previous_events` in ikea_selenium_simple.py returns `{}`) is the map the caller passes.
- The PostgreSQL connection and table setup: `PreviousEventsTable` is the table as a map. An
  unreachable database (empty previous map, failed save) is not modelled.
- `check_for_updates` (ikea_events_monitor_cloud.py:514-564, ikea_events_monitor.py:470-520):
  the orchestration around fetching and notifying. A failed fetch there stores `[]` for that store.
- The module-level scrape loop of selenium_ikea_monitor.py (lines 87-114): DOM-driven.
- `datetime.now()` timestamps, `location_name` and `extracted_at`: not read by any key or filter.
- `get_content_hash` (ikea_events_monitor.py:346-349): JSON serialisation, used by no modelled operation.
- Strings.Lower: lower-cases ASCII letters only; Python's `str.lower` also folds non-ASCII letters.
- A `None` `href` from Selenium's `get_attribute` is modelled as a string; the code would put `None` into the key text.
- debug_ikea.py, selenium_etobicoke.py, test_improved.py and test_etobicoke.py: inspection and live-run scripts without logic to model.
