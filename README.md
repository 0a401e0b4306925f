# Google Maps scraper — verified model of the scraping core

This project models, in Dafny, the core of a Google Maps business-listing
scraper that exists in two forms:

- the browser extension's content script (`gmap-scraper/content.js`), a
  `GoogleMapsScraper` session object. It scrolls the results feed of a
  search page until no more results load, then reads every result item
  (`div[role="article"]`) into a record of eight string fields, and
  accumulates the records that carry a business name;
- the extension popup (`gmap-scraper/popup.js`). It shows the session
  state (`updateUI`, `updateStatus`) and exports the records as CSV text
  (`exportToCSV`, `escapeCSV`);
- the Selenium scraper (`src/google_maps_scraper/scraper.py`). It finds
  the results container through three fallback XPaths and scrolls it
  (`_scroll_results_container`). It then extracts one `Location` per item
  (`_get_data_from_location_div`) and, after clicking the item, its
  website (`_get_website_from_location_page`).

The page is an input, never a live document:

- which selectors or XPaths find an element;
- the container heights read before and after each scroll (`HeightLog`);
- the end-of-list span text before each scroll;
- what each item's element lookups find.

A scroll past the end of the height log reads the last height again, so
such a feed no longer grows.

Files:

- `wrappers.dfy`: `Option`.
- `js_string.dfy`: the parts of `String.prototype.trim` and
  `String.prototype.includes` the core relies on.
- `locators.dfy`: the prioritised fallback lookup both scrapers use.
- `scroll_feed.dfy`: the termination rule shared by both scroll loops. A
  loop stops after 100 scrolls, after 5 consecutive scrolls without
  growth, or (extension only) once the end-of-list message is visible.
- `content.dfy`: the content script. The session is a class whose methods
  update its fields.
- `csv.dfy`: `escapeCSV`, plus an independent reader in the style of
  section 2 of RFC 4180. The escaping and the export are proved to round
  trip against this reader.
- `popup.dfy`: the popup's control state and the CSV export.
- `scraper.dfy`: the Selenium scraper.

The Selenium scraper keeps no state of its own between calls; apart from
its logger, `GoogleMapsScraper` in `scraper.py` holds only a constant. Its
methods are therefore modelled as module-level methods over their inputs.
`location.website = website` updates a `Location` the loop has just
created, which nothing else references, so it is modelled as a value update.

## Model

| member | source | states |
|---|---|---|
| JsString.TrimStart | gmap-scraper/content.js:187 | the result is a suffix of the input; every character removed is white space or a line terminator; the result does not start with one |
| JsString.TrimEnd | gmap-scraper/content.js:187 | the result is a prefix of the input; every character removed is white space or a line terminator; the result does not end with one |
| JsString.TrimIsCore | gmap-scraper/content.js:187 | `trim()` yields a contiguous slice of the input that neither starts nor ends with white space, and everything cut on either side is white space |
| JsString.TrimmedIsTrim | gmap-scraper/content.js:187 | a slice cut only at white space that neither starts nor ends with white space is the `trim()` of its text, so `IsTrimmed` fixes a field exactly |
| JsString.TrimEmptyIff | gmap-scraper/content.js:187 | a trimmed text is empty exactly when every character of the input is white space |
| JsString.ContainsIff | gmap-scraper/popup.js:113 | `includes` holds exactly when the searched text occurs at some position of the string |
| JsString.ContainsOnlyItsChars | gmap-scraper/popup.js:113 | a string lacking some character of the searched text does not include it |
| Locators.FirstPresent | gmap-scraper/content.js:126-134 | the locator chosen is present and every locator listed before it is absent; nothing is chosen exactly when no locator is present |
| ScrollFeed.StopFrom | gmap-scraper/content.js:72-104 | from scroll count `k`, the loop stops at the first count that meets an exit condition, never beyond 100 |
| ScrollFeed.StopIndexUnique | gmap-scraper/content.js:72 | a count at which the loop stops, with no stop before it, is the loop's scroll count |
| ScrollFeed.ScrollExits | gmap-scraper/content.js:72-81 | the loop makes at most 100 scrolls; it ends on the ceiling, on exactly 5 scrolls without growth, or on the end marker; none of these held earlier |
| ScrollFeed.StallRunIsFlat | src/google_maps_scraper/scraper.py:101-112 | throughout a run of unchanged reads, every read gives the current height |
| ScrollFeed.StallExitMeansFlatTail | src/google_maps_scraper/scraper.py:101-107 | a loop that stops before the ceiling and without the marker read the same height on the last 6 reads |
| ScrollFeed.GrowingFeedHitsCeiling | src/google_maps_scraper/scraper.py:80-85 | a feed that grows on every scroll is scrolled exactly 100 times |
| Content.HasReachedEndOfList | gmap-scraper/content.js:109-116 | true exactly when the end-of-list span exists and "You've reached the end of the list." occurs in its text at some position |
| Content.EndMarkers | gmap-scraper/content.js:109-116 | the loop sees the end marker exactly when the end-of-list span exists and its text includes "You've reached the end of the list." |
| Content.FieldTextIsTrim | gmap-scraper/content.js:193-248 | a field read from a found element is that element's text trimmed (`IsTrimmed`), and a missing element reads as `''` |
| Content.ArticleRecordFields | gmap-scraper/content.js:168-263 | extraction fails exactly when the name element is missing or a read raises; the name is the name element's text trimmed; each optional field is its own element's text trimmed, or `''` when that element was not found; the website is the link's `href`, untrimmed |
| Content.ArticleRecord | gmap-scraper/content.js:168-263 | the record `scrapeArticle` returns, or none; `ArticleRecordFields` proves what each field holds and `ScrapeArticle` is proved to compute it |
| Content.ScrapedRecords | gmap-scraper/content.js:143-165 | the records the listing loop accumulates; `ScrapedRecordsMembers` proves a record is among them exactly when some item yields it with a name, `ScrapedRecordsAppend` fixes their order and `ScrapedRecordsNamed` that all are named |
| Content.LastKeptEnd | gmap-scraper/content.js:151-153 | where the loop leaves `currentIndex`; `LastKeptEndIsKept` and `LastKeptEndIsLast` prove it is just past the last item that contributes a record, or 0 |
| Content.KeepsIff | gmap-scraper/content.js:151 | an item contributes a record exactly when reading it does not raise and its name holds a character `trim` keeps |
| Content.ScrapedRecordsNamed | gmap-scraper/content.js:143-161 | every accumulated record has a non-empty name; there are no more records than items up to the last kept one |
| Content.ScrapedRecordsAppend | gmap-scraper/content.js:143-165 | items are processed one by one: the records of a concatenation are the records of the parts, in order |
| Content.ScrapedRecordsMembers | gmap-scraper/content.js:149-152 | a record is accumulated exactly when some item yields it with a non-empty name |
| Content.ScrapedRecordsOnlyYielded | gmap-scraper/content.js:149-152 | every accumulated record is yielded, with a non-empty name, by some item |
| Content.ScrapedRecordsHasYielded | gmap-scraper/content.js:149-152 | the record an item yields with a non-empty name is accumulated |
| Content.LastKeptEndIsKept | gmap-scraper/content.js:151-153 | `currentIndex` ends at most at the number of items, and when it is not 0 it is one past an item that contributed a record |
| Content.LastKeptEndIsLast | gmap-scraper/content.js:151-153 | no item at or after `currentIndex` contributes a record |
| Content.GoogleMapsScraper.constructor | gmap-scraper/content.js:4-12 | a new session has no records, is inactive and unpaused, with `currentIndex`, `scrollAttempts` and `lastScrollHeight` at 0 |
| Content.GoogleMapsScraper.Cleanup | gmap-scraper/content.js:14-25 | every field returns to its initial value, and the reply is success |
| Content.GoogleMapsScraper.Begin | gmap-scraper/content.js:28-35 | a call while a run is active, paused or not, is rejected and changes nothing; otherwise the session becomes active and unpaused with no records and `currentIndex` 0 |
| Content.GoogleMapsScraper.Finish | gmap-scraper/content.js:44-56 | the session becomes inactive; the records and the pause flag are kept |
| Content.GoogleMapsScraper.StartScraping | gmap-scraper/content.js:27-59 | a call during an active run is rejected and changes nothing; otherwise a run with no pause requested ends inactive and unpaused; a missing feed yields the container error with no records; otherwise the records are those of the page's items in order, `currentIndex` is one past the last kept item, and `lastScrollHeight` is the height at the stopping scroll |
| Content.GoogleMapsScraper.ScrollStep | gmap-scraper/content.js:72-104 | while paused nothing changes; otherwise the pass stops at the end-of-list message, or scrolls once, remembers the height read, and grows or restarts the run of unchanged reads |
| Content.GoogleMapsScraper.ScrollToLoadAll | gmap-scraper/content.js:61-107 | with a feed container, the loop makes exactly the scroll count the termination rule gives and ends with the last height read; without one nothing is scrolled |
| Content.GoogleMapsScraper.GetFeedContainer | gmap-scraper/content.js:118-135 | the first of the three feed selectors, in listed order, that matches; none exactly when none matches |
| Content.GoogleMapsScraper.ScrapeStep | gmap-scraper/content.js:143-165 | while paused nothing changes; otherwise the item's record is appended and `currentIndex` moved just past the item exactly when the item yields a named record; on an item not behind the cursor it keeps every record named and no more records than `currentIndex` |
| Content.GoogleMapsScraper.ScrapeAllListings | gmap-scraper/content.js:137-166 | from the empty list and cursor `Begin` leaves, the records are those of the items that yield a named record, in item order, and `currentIndex` ends just past the last such item, or at 0 when there is none |
| Content.GoogleMapsScraper.ScrapeArticle | gmap-scraper/content.js:168-263 | filling the record field by field gives the item's record, with the properties `ArticleRecordFields` proves |
| Content.GoogleMapsScraper.TogglePause | gmap-scraper/content.js:276-282 | the pause flag flips and the new value is returned; nothing else changes |
| Content.GoogleMapsScraper.GetState | gmap-scraper/content.js:307-315 | the reply has the record count, the records and both flags; the status is "Ready to scrape" when inactive, "Paused" when paused, and "Scraping in progress..." otherwise |
| Content.GoogleMapsScraper.GetData | gmap-scraper/content.js:317-319 | the accumulated records, every one named, no more of them than `currentIndex` |
| Content.TogglePauseTwice | gmap-scraper/content.js:276-282 | pausing and then resuming restores the flag and leaves the session as it was |
| Content.StartWhileRunning | gmap-scraper/content.js:28-30 | a second start during a run, also a paused one, is rejected and leaves the running session as it was |
| Content.PauseDuringLastWait | gmap-scraper/content.js:143-165 | a pause requested in the wait after the last item outlives the run: the session ends inactive but paused and reports "Ready to scrape" |
| Csv.EscapeCsv | gmap-scraper/popup.js:173-180 | `escapeCSV`; `EscapeCsvCases` proves its three cases and `FieldRoundTrip` that every escaped value reads back as itself |
| Csv.EscapeCsvCases | gmap-scraper/popup.js:173-180 | a missing value becomes `''`; a value without a comma, quote or line feed is kept; any other value is enclosed in quotes, and reading it back as a quoted field gives the value, so its quotes are doubled |
| Csv.DoubleQuotesKeepsOthers | gmap-scraper/popup.js:177 | a value without a quote is unchanged by the replacement; the result is longer than the value by exactly its number of quotes |
| Csv.DoubleQuotesAppend | gmap-scraper/popup.js:177 | the global replacement works piece by piece over a concatenation |
| Csv.DoubleQuotesAround | gmap-scraper/popup.js:177 | a quote followed by quote-free text becomes two quotes followed by that text |
| Csv.QuotedRoundTrip | gmap-scraper/popup.js:177 | the body of a quoted field reads back as the value it was made from, followed by what came after it |
| Csv.PlainRoundTrip | gmap-scraper/popup.js:179 | an unquoted value without a comma or line feed reads back unchanged |
| Csv.FieldRoundTrip | gmap-scraper/popup.js:173-180 | every escaped value reads back as the value itself |
| Csv.RecordRoundTrip | gmap-scraper/popup.js:144 | a row's escaped fields joined by commas read back as exactly those fields |
| Csv.CsvRoundTrip | gmap-scraper/popup.js:147 | rows joined by line feeds read back as exactly those rows |
| Csv.EscapeTwoQuotes | gmap-scraper/popup.js:176-177 | a value holding two quotes is enclosed in quotes with each inner quote doubled |
| Csv.CarriageReturnNotQuoted | gmap-scraper/popup.js:176 | a lone carriage return does not cause quoting |
| Popup.UpdateStatus | gmap-scraper/popup.js:96-122 | while active, scraping is disabled, pausing is enabled, and the button reads "Resume" exactly when paused; while inactive, scraping is enabled, pausing is disabled, and the status is "completed" exactly when its text includes "completed"; `isScraperActive` follows `isActive` |
| Popup.UpdateUI | gmap-scraper/popup.js:90-94 | a missing count shows 0; missing data is empty; a missing or empty status reads "Ready to scrape"; missing flags are false |
| Popup.PopupMirrorsSession | gmap-scraper/popup.js:90-122 | opened on a session's `getState` reply, the popup counts its records; the scrape button is disabled exactly during a run; the pause button reads "Resume" exactly when a run is active and paused; the status is never "completed" |
| Popup.CompletionShowsCompleted | gmap-scraper/popup.js:113-118 | the message "Scraping completed!" marks the status completed and re-enables scraping |
| Popup.ExportToCsv | gmap-scraper/popup.js:124-147 | no file exactly when there is no data, with the status "No data to export"; otherwise the text is the line-feed join of the escaped header record (the raw header join, by `HeaderNeedsNoEscape`) and each item's escaped record, and reading it back gives the header row, then each item's six values in input order, with missing values as `''` |
| Popup.HeaderNeedsNoEscape | gmap-scraper/popup.js:131-132 | the header line joined without escaping equals the escaped header record |
| SeleniumScraper.ScrollResultsContainer | src/google_maps_scraper/scraper.py:68-112 | scrolls at least once and at most 100 times; stops at the count the termination rule gives for a feed without an end marker; stopping early means exactly 5 unchanged reads; ends with the last height read |
| SeleniumScraper.SameStopWithoutMarker | src/google_maps_scraper/scraper.py:85-107 | without a visible end marker, both scroll loops make the same number of scrolls |
| SeleniumScraper.LocationOfDiv | src/google_maps_scraper/scraper.py:114-130 | no location exactly when the title anchor cannot be read or the rating lookup raises something other than "no such element"; otherwise the location has the anchor's label and link, the rating label (or "No rating" when the element is absent), and no website |
| SeleniumScraper.WebsiteOnPage | src/google_maps_scraper/scraper.py:132-143 | the `Website` link's `href` when the link is found; `None` whenever the lookup raises |
| SeleniumScraper.KeptIndices | src/google_maps_scraper/scraper.py:187-189 | the items that yield a location, in strictly increasing item order, each index listed exactly when its item yields one |
| SeleniumScraper.LocationsOf | src/google_maps_scraper/scraper.py:186-205 | the locations the item loop collects; `LocationsInItemOrder` and `WebsiteOnlyFromDetail` prove they are the yielding items' locations in item order, each with a website only from its own detail page |
| SeleniumScraper.LocationsInItemOrder | src/google_maps_scraper/scraper.py:186-207 | one location per item that yields one, in item order, so no more locations than items; the `j`-th location is the `j`-th such item's, and its website is set only after a successful click |
| SeleniumScraper.WebsiteOnlyFromDetail | src/google_maps_scraper/scraper.py:191-204 | every location keeps its item's title, rating and link, and carries a website only when that item's detail page opened and showed it |
| SeleniumScraper.GetLocationsFromPage | src/google_maps_scraper/scraper.py:145-207 | with `full`, the container is the first XPath, in listed order, that finds an element, and it is scrolled as the termination rule says; without `full` or a container, nothing is scrolled and only visible items are read; the locations are those of the items read, in order |

## Left out

- Pausing as suspension: `waitForResume` polls while paused and may wait
  forever (gmap-scraper/content.js:284-292). A pass of either loop made
  while paused (`ScrollStep`, `ScrapeStep`) is modelled as still waiting:
  it changes nothing. Interleavings of `togglePause` and `startScraping`
  with a run are expressed by calling `Begin`, the steps, `TogglePause`
  and `Finish` in the order the messages arrive; `StartWhileRunning` and
  `PauseDuringLastWait` are two such orders.
- Content.GoogleMapsScraper.StartScraping: models a run during which no
  pause is requested, so it ends unpaused. A `togglePause` that arrives
  during one of the run's waits, for instance the `sleep(100)` after the
  last item (gmap-scraper/content.js:164), leaves the session paused when
  the run ends; `PauseDuringLastWait` shows that outcome. For the same
  reason `ScrollToLoadAll` and `ScrapeAllListings` are stated for a run
  that is not paused: a paused run only moves on after a resume.
- Messaging: `sendMessage`, `updateStatus` broadcasts, the progress and
  counter messages, and the `onMessage` dispatch (gmap-scraper/content.js:294-305, 326-347) have no effect on the session state.
- The popup's `chrome.tabs` handlers (gmap-scraper/popup.js:15-88).
- The file download: `Blob`, `URL.createObjectURL`, `chrome.downloads`, the
  date-based file name and the timed "Exported" status
  (gmap-scraper/popup.js:149-170).
- Sleeps and timeouts (`sleep`, `time.sleep`, `setTimeout`): they only
  delay.
- Logging and `console` output.
- DOM and Selenium access (`querySelector`, `document.evaluate`,
  `find_element`, `execute_script`, `click`) and the XPath strings of the
  item fields. Each becomes an input: a set of matching locators, a height
  log, end-span texts, and per-item lookup results.
- The website in the extension: its "Open website" link is looked up in the
  whole document after the item is clicked. The model takes what that
  lookup finds for each item as given. It therefore cannot express that a
  panel which failed to load still shows the previous item's link.
- Loaded items in the Selenium scraper: the items read after scrolling are given as
  one list. The model does not tie how many items load to the number of
  scrolls.
- `google_maps_scraper/models.py` is not part of this model. `Location` is
  taken as four optional strings whose construction does not fail.
- A `cleanup` message during a run: `cleanup` (gmap-scraper/content.js:14-25)
  clears `isActive` but does not stop the running loop
  (gmap-scraper/content.js:143-165). A following `startScraping` passes the
  guard and starts a second loop that pushes into the same record list with
  its own item positions, so the records can outnumber `currentIndex`, and
  the first run's end clears `isActive` while the second still runs
  (gmap-scraper/content.js:45). Every step method keeps the invariant that
  the records are named and no more than `currentIndex`, and `ScrapeStep`
  requires the cursor not to be past the item it reads, so the model rules
  this interleaving out and does not show its outcome.
- Selenium exceptions outside the modelled `try` blocks (in `driver.get`,
  `find_elements`, `execute_script`), and an exception other than
  `NoSuchElementException` from the results-container lookup
  (src/google_maps_scraper/scraper.py:161-167), propagate to `get_maps_data`, which is
  not part of this model. Driver initialisation, the consent click and
  `driver.close` are not modelled either
  (src/google_maps_scraper/scraper.py:40-66, 209-238).
- `escapeCSV` on values that are not strings (`String(value)` on numbers or
  objects). Every field of a record the content script builds is a string:
  all start as `''` (gmap-scraper/content.js:170-179) and are only assigned
  `trim()` results or a link's `href` (gmap-scraper/content.js:187-253), and
  `|| ''` in the popup only fills in missing ones.
- JavaScript falsiness: in `updateUI` and `exportToCSV`, `||` falls back
  only on a missing value or an empty status. Other falsy values (`0`,
  `false`, `''`) give the same result, except a `count` of 0, which shows 0
  either way.
- `debug_scraper.py` and `gmap-scraper/background.js`: interactive
  debugging and extension start-up glue, with no model state.
- A batch orchestrator, an 8-column CSV and search-term sanitisation do not
  appear in these source files.
