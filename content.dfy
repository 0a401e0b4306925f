/** The extension's content script (`gmap-scraper/content.js`): the
    `GoogleMapsScraper` session object that reveals every result of a search
    page by scrolling, extracts one record per result item and accumulates
    the records that carry a business name.

    The page is an input. A `Page` says which container selectors match, the
    heights the container reports as it is scrolled, the text of the
    end-of-list span before each scroll, and what each result item's element
    lookups find. */
module Content {
  import opened Wrappers
  import opened JsString
  import opened Locators
  import opened ScrollFeed

  /** One business listing, as the content script builds it: every field a
      string, `''` when its element was not found. */
  datatype Record = Record(
    name: string,
    rating: string,
    reviewCount: string,
    category: string,
    address: string,
    phone: string,
    website: string,
    hours: string)

  /** One `div[role="article"]` result item, seen through the lookups the
      extractor makes: the text content of each element it looks for (`None`
      when the lookup finds nothing), the `href` of the document's "Open
      website" link at the time the item is read, and whether reading the
      item raises an error. */
  datatype Article = Article(
    name: Option<string>,
    rating: Option<string>,
    reviewCount: Option<string>,
    category: Option<string>,
    address: Option<string>,
    hours: Option<string>,
    phone: Option<string>,
    website: Option<string>,
    raises: bool)

  /** A search results page. `present` holds the selectors that match an
      element, `feed` the container heights as it is scrolled, `endSpans[k]`
      the text of the `span.HlvSq` element (if any) before scroll `k + 1`,
      and `articles` the result items once scrolling is over. */
  datatype Page = Page(
    present: set<string>,
    feed: HeightLog,
    endSpans: seq<Option<string>>,
    articles: seq<Article>)

  /** The `{ success, error }` reply of `startScraping` and `cleanup`. */
  datatype Outcome = Success | Failure(error: string)

  /** The reply of `getState`. */
  datatype ScraperState = ScraperState(
    count: nat,
    data: seq<Record>,
    isActive: bool,
    isPaused: bool,
    status: string)

  /** Selectors tried, in this order, for the scrollable results feed. */
  const FeedSelectors: seq<string> :=
    ["div[role=\"feed\"]", "div[aria-label*=\"Results for\"]", "div.m6QErb"]

  const EndOfListText: string := "You've reached the end of the list."
  const AlreadyRunning: string := "Scraping already in progress"
  const ContainerMissing: string :=
    "Could not find results container. Make sure you are on a Google Maps search page."
  const StatusReady: string := "Ready to scrape"
  const StatusPaused: string := "Paused"
  const StatusScraping: string := "Scraping in progress..."

  /** `hasReachedEndOfList`: the end-of-list span is present and its text
      includes the end-of-list message. */
  function HasReachedEndOfList(endSpan: Option<string>): (r: bool)
    ensures r <==> endSpan.Some? && exists i :: OccursAt(endSpan.value, EndOfListText, i)
  {
    if endSpan.Some? then
      ContainsIff(endSpan.value, EndOfListText);
      Contains(endSpan.value, EndOfListText)
    else false
  }

  /** The end-of-list span as seen after `k` scrolls. */
  function EndSpanAt(endSpans: seq<Option<string>>, k: nat): Option<string> {
    if k < |endSpans| then endSpans[k] else None
  }

  /** The end-marker flags the scroll loop observes. */
  function EndMarkers(endSpans: seq<Option<string>>): (m: seq<bool>)
    ensures |m| == |endSpans|
    ensures forall k: nat :: MarkerAt(m, k) == HasReachedEndOfList(EndSpanAt(endSpans, k))
  {
    seq(|endSpans|, i requires 0 <= i < |endSpans| => HasReachedEndOfList(endSpans[i]))
  }

  /** The trimmed text of an optional element, `''` when it is absent. */
  function FieldText(element: Option<string>): string {
    match element
    case Some(text) => Trim(text)
    case None => ""
  }

  /** What `scrapeArticle` returns for one item: nothing when the name
      element is missing or reading raises; otherwise the record with the
      trimmed name and each optional field filled only from its own
      element. */
  function ArticleRecord(a: Article): Option<Record> {
    if a.raises || a.name.None? then None
    else Some(Record(
      name := Trim(a.name.value),
      rating := FieldText(a.rating),
      reviewCount := FieldText(a.reviewCount),
      category := FieldText(a.category),
      address := FieldText(a.address),
      phone := FieldText(a.phone),
      website := a.website.GetOr(""),
      hours := FieldText(a.hours)))
  }

  /** Whether `scrapeAllListings` appends the record of this item: the
      extraction succeeded and the name is truthy (non-empty). */
  predicate Keeps(a: Article) {
    ArticleRecord(a).Some? && ArticleRecord(a).value.name != ""
  }

  /** The records `scrapeAllListings` appends for `articles`, in order. */
  function ScrapedRecords(articles: seq<Article>): seq<Record> {
    if articles == [] then []
    else
      var last := articles[|articles| - 1];
      ScrapedRecords(articles[..|articles| - 1])
        + (if Keeps(last) then [ArticleRecord(last).value] else [])
  }

  /** One past the index of the last item whose record is appended, or 0
      when none is. */
  function LastKeptEnd(articles: seq<Article>): nat {
    if articles == [] then 0
    else if Keeps(articles[|articles| - 1]) then |articles|
    else LastKeptEnd(articles[..|articles| - 1])
  }

  /** The status text `getState` reports. */
  function StatusText(isActive: bool, isPaused: bool): string {
    if isActive then (if isPaused then StatusPaused else StatusScraping) else StatusReady
  }

  /** Reading one more item extends the records and the cursor by what that
      item alone contributes. */
  lemma ListingStep(articles: seq<Article>, i: nat)
    requires i < |articles|
    ensures ScrapedRecords(articles[..i + 1]) ==
      ScrapedRecords(articles[..i]) + (if Keeps(articles[i]) then [ArticleRecord(articles[i]).value] else [])
    ensures LastKeptEnd(articles[..i + 1]) ==
      if Keeps(articles[i]) then i + 1 else LastKeptEnd(articles[..i])
  {
    assert articles[..i + 1][..i] == articles[..i];
  }

  /** A field read from a found element is that element's text trimmed; a
      field whose element is missing reads as `''`. */
  lemma FieldTextIsTrim(element: Option<string>)
    ensures element.None? ==> FieldText(element) == ""
    ensures element.Some? ==> IsTrimmed(FieldText(element), element.value)
  {
    if element.Some? {
      TrimIsCore(element.value);
    }
  }

  /** An extracted record holds the name element's text trimmed; each
      optional field holds its own element's text trimmed, or `''` when that
      element was not found; the website is the link's `href` as read. */
  lemma ArticleRecordFields(a: Article)
    ensures ArticleRecord(a).None? <==> a.raises || a.name.None?
    ensures ArticleRecord(a).Some? ==>
      var r := ArticleRecord(a).value;
      && IsTrimmed(r.name, a.name.value)
      && (a.rating.None? ==> r.rating == "")
      && (a.rating.Some? ==> IsTrimmed(r.rating, a.rating.value))
      && (a.reviewCount.None? ==> r.reviewCount == "")
      && (a.reviewCount.Some? ==> IsTrimmed(r.reviewCount, a.reviewCount.value))
      && (a.category.None? ==> r.category == "")
      && (a.category.Some? ==> IsTrimmed(r.category, a.category.value))
      && (a.address.None? ==> r.address == "")
      && (a.address.Some? ==> IsTrimmed(r.address, a.address.value))
      && (a.hours.None? ==> r.hours == "")
      && (a.hours.Some? ==> IsTrimmed(r.hours, a.hours.value))
      && (a.phone.None? ==> r.phone == "")
      && (a.phone.Some? ==> IsTrimmed(r.phone, a.phone.value))
      && (a.website.None? ==> r.website == "")
      && (a.website.Some? ==> r.website == a.website.value)
  {
    if ArticleRecord(a).Some? {
      TrimIsCore(a.name.value);
      FieldTextIsTrim(a.rating);
      FieldTextIsTrim(a.reviewCount);
      FieldTextIsTrim(a.category);
      FieldTextIsTrim(a.address);
      FieldTextIsTrim(a.hours);
      FieldTextIsTrim(a.phone);
    }
  }

  /** An item contributes a record exactly when reading it does not raise
      and its name element holds some character that `trim` keeps. */
  lemma KeepsIff(a: Article)
    ensures Keeps(a) <==>
      !a.raises && a.name.Some? && exists k :: 0 <= k < |a.name.value| && !IsTrimmable(a.name.value[k])
  {
    if a.name.Some? {
      TrimEmptyIff(a.name.value);
    }
  }

  /** Every accumulated record has a non-empty name, and there are no more
      records than items up to the last one kept, which is at most the
      number of items. */
  lemma {:induction false} ScrapedRecordsNamed(articles: seq<Article>)
    ensures forall r <- ScrapedRecords(articles) :: r.name != ""
    ensures |ScrapedRecords(articles)| <= LastKeptEnd(articles) <= |articles|
    ensures ScrapedRecords(articles) == [] <==> LastKeptEnd(articles) == 0
  {
    if articles != [] {
      ScrapedRecordsNamed(articles[..|articles| - 1]);
    }
  }

  /** Extraction runs item by item: the records of a concatenation are the
      records of each part, in order. */
  lemma {:induction false} ScrapedRecordsAppend(a: seq<Article>, b: seq<Article>)
    ensures ScrapedRecords(a + b) == ScrapedRecords(a) + ScrapedRecords(b)
    decreases |b|
  {
    if b == [] {
      assert a + b == a;
    } else {
      var b' := b[..|b| - 1];
      assert (a + b)[..|a + b| - 1] == a + b';
      ScrapedRecordsAppend(a, b');
    }
  }

  /** Item `a` yields the record `r`, with a non-empty name. */
  predicate Yields(a: Article, r: Record) {
    ArticleRecord(a) == Some(r) && r.name != ""
  }

  /** Every accumulated record is yielded, with a non-empty name, by some
      item. */
  lemma {:induction false} ScrapedRecordsOnlyYielded(articles: seq<Article>, r: Record)
    requires r in ScrapedRecords(articles)
    ensures exists i :: 0 <= i < |articles| && Yields(articles[i], r)
  {
    var init := articles[..|articles| - 1];
    var last := articles[|articles| - 1];
    var tail := if Keeps(last) then [ArticleRecord(last).value] else [];
    assert ScrapedRecords(articles) == ScrapedRecords(init) + tail;
    if r in ScrapedRecords(init) {
      ScrapedRecordsOnlyYielded(init, r);
      var i :| 0 <= i < |init| && Yields(init[i], r);
      assert Yields(articles[i], r);
    } else {
      assert Yields(last, r);
    }
  }

  /** The record every item yields with a non-empty name is accumulated. */
  lemma {:induction false} ScrapedRecordsHasYielded(articles: seq<Article>, r: Record, i: nat)
    requires i < |articles| && Yields(articles[i], r)
    ensures r in ScrapedRecords(articles)
  {
    var init := articles[..|articles| - 1];
    var last := articles[|articles| - 1];
    if i < |init| {
      assert init[i] == articles[i];
      ScrapedRecordsHasYielded(init, r, i);
      ScrapedRecordsPrefix(articles);
    } else {
      assert ScrapedRecords(articles) == ScrapedRecords(init) + [r];
    }
  }

  /** The records of all items but the last are among the records of all. */
  lemma ScrapedRecordsPrefix(articles: seq<Article>)
    requires articles != []
    ensures forall x :: x in ScrapedRecords(articles[..|articles| - 1]) ==> x in ScrapedRecords(articles)
  {
    var init := articles[..|articles| - 1];
    var last := articles[|articles| - 1];
    var tail := if Keeps(last) then [ArticleRecord(last).value] else [];
    assert ScrapedRecords(articles) == ScrapedRecords(init) + tail;
  }

  /** A record is accumulated exactly when some item yields it with a
      non-empty name. */
  lemma ScrapedRecordsMembers(articles: seq<Article>, r: Record)
    ensures r in ScrapedRecords(articles) <==> exists i :: 0 <= i < |articles| && Yields(articles[i], r)
  {
    if r in ScrapedRecords(articles) {
      ScrapedRecordsOnlyYielded(articles, r);
    }
    if exists i :: 0 <= i < |articles| && Yields(articles[i], r) {
      var i :| 0 <= i < |articles| && Yields(articles[i], r);
      ScrapedRecordsHasYielded(articles, r, i);
    }
  }

  /** `LastKeptEnd` points just past an item that contributes a record. */
  lemma {:induction false} LastKeptEndIsKept(articles: seq<Article>)
    ensures LastKeptEnd(articles) <= |articles|
    ensures LastKeptEnd(articles) > 0 ==> Keeps(articles[LastKeptEnd(articles) - 1])
  {
    if articles != [] && !Keeps(articles[|articles| - 1]) {
      var init := articles[..|articles| - 1];
      var n := LastKeptEnd(init);
      assert LastKeptEnd(articles) == n;
      LastKeptEndIsKept(init);
      if n > 0 {
        assert articles[n - 1] == init[n - 1];
      }
    }
  }

  /** No item after `LastKeptEnd` contributes a record. */
  lemma {:induction false} LastKeptEndIsLast(articles: seq<Article>)
    ensures forall j :: LastKeptEnd(articles) <= j < |articles| ==> !Keeps(articles[j])
  {
    if articles != [] && !Keeps(articles[|articles| - 1]) {
      var init := articles[..|articles| - 1];
      var n := LastKeptEnd(init);
      assert LastKeptEnd(articles) == n;
      LastKeptEndIsLast(init);
      forall j | n <= j < |articles| ensures !Keeps(articles[j]) {
        if j < |init| {
          assert articles[j] == init[j];
        }
      }
    }
  }

  /** The content script's session object. */
  class GoogleMapsScraper {
    var scrapedData: seq<Record>
    var isActive: bool
    var isPaused: bool
    var currentIndex: nat
    var scrollAttempts: nat
    var lastScrollHeight: int
    const maxScrollAttempts: nat := MaxNoChange

    /** Every accumulated record has a name, and the position cursor is never
        behind the number of records. */
    ghost predicate Valid()
      reads this
    {
      && |scrapedData| <= currentIndex
      && forall r <- scrapedData :: r.name != ""
    }

    constructor ()
      ensures Valid()
      ensures scrapedData == [] && !isActive && !isPaused
      ensures currentIndex == 0 && scrollAttempts == 0 && lastScrollHeight == 0
    {
      scrapedData := [];
      isActive := false;
      isPaused := false;
      currentIndex := 0;
      scrollAttempts := 0;
      lastScrollHeight := 0;
    }

    /** Returns every field to its initial value, whatever the state. */
    method Cleanup() returns (r: Outcome)
      modifies this
      ensures Valid()
      ensures scrapedData == [] && !isActive && !isPaused
      ensures currentIndex == 0 && scrollAttempts == 0 && lastScrollHeight == 0
      ensures r == Success
    {
      scrapedData := [];
      isActive := false;
      isPaused := false;
      currentIndex := 0;
      scrollAttempts := 0;
      lastScrollHeight := 0;
      return Success;
    }

    /** The start of `startScraping`: a call made while a run is active is
        rejected and changes nothing, paused or not; otherwise the session
        becomes active and unpaused, with no records and the cursor at the
        first item. */
    method Begin() returns (started: bool)
      requires Valid()
      modifies this`isActive, this`isPaused, this`scrapedData, this`currentIndex
      ensures Valid()
      ensures started <==> !old(isActive)
      ensures !started ==> unchanged(this)
      ensures started ==> isActive && !isPaused && scrapedData == [] && currentIndex == 0
    {
      if isActive {
        return false;
      }
      isActive := true;
      isPaused := false;
      scrapedData := [];
      currentIndex := 0;
      return true;
    }

    /** The end of `startScraping`, after success and after an error alike:
        the session becomes inactive. The records and the pause flag stay as
        they are, so a pause requested while the run waited after its last
        item outlives the run. */
    method Finish()
      requires Valid()
      modifies this`isActive
      ensures Valid()
      ensures !isActive
      ensures isPaused == old(isPaused) && scrapedData == old(scrapedData)
    {
      isActive := false;
    }

    /** One extraction run with no pause requested while it runs: a call
        made while a run is active is rejected and changes nothing, paused
        or not. Otherwise the run starts from an empty record list, reveals
        the whole feed, extracts every item, and ends inactive, with an error
        if the feed is missing. */
    method StartScraping(page: Page) returns (r: Outcome)
      requires Valid()
      modifies this
      ensures Valid()
      ensures old(isActive) ==> r == Failure(AlreadyRunning) && unchanged(this)
      ensures !old(isActive) ==>
        && !isActive && !isPaused
        && scrollAttempts == old(scrollAttempts)
      ensures !old(isActive) && !AnyPresent(FeedSelectors, page.present) ==>
        && r == Failure(ContainerMissing)
        && scrapedData == [] && currentIndex == 0
        && lastScrollHeight == old(lastScrollHeight)
      ensures !old(isActive) && AnyPresent(FeedSelectors, page.present) ==>
        && r == Success
        && scrapedData == ScrapedRecords(page.articles)
        && currentIndex == LastKeptEnd(page.articles)
        && lastScrollHeight ==
             HeightAt(page.feed, StopIndex(page.feed, EndMarkers(page.endSpans)))
    {
      var started := Begin();
      if !started {
        return Failure(AlreadyRunning);
      }
      var found, _ := ScrollToLoadAll(page);
      if !found {
        Finish();
        return Failure(ContainerMissing);
      }
      ScrapeAllListings(page.articles);
      ScrapedRecordsNamed(page.articles);
      Finish();
      return Success;
    }

    /** One pass of the scrolling loop. While the session is paused the pass
        is still waiting for a resume and nothing changes. Otherwise it stops
        at the end-of-list message, or scrolls once and reads the new height:
        that height is now the last one seen, and the run of unchanged reads
        grows when it equals the previous one and restarts otherwise. */
    method ScrollStep(page: Page, scrollCount: nat, noChangeCount: nat)
      returns (count: nat, noChange: nat, atEnd: bool)
      requires Valid()
      modifies this`lastScrollHeight
      ensures Valid()
      ensures isPaused ==>
        && count == scrollCount && noChange == noChangeCount && !atEnd
        && lastScrollHeight == old(lastScrollHeight)
      ensures !isPaused && HasReachedEndOfList(EndSpanAt(page.endSpans, scrollCount)) ==>
        && count == scrollCount && noChange == noChangeCount && atEnd
        && lastScrollHeight == old(lastScrollHeight)
      ensures !isPaused && !HasReachedEndOfList(EndSpanAt(page.endSpans, scrollCount)) ==>
        && count == scrollCount + 1 && !atEnd
        && lastScrollHeight == HeightAt(page.feed, count)
        && noChange == if HeightAt(page.feed, count) == old(lastScrollHeight) then noChangeCount + 1 else 0
    {
      if isPaused {
        return scrollCount, noChangeCount, false;
      }
      if HasReachedEndOfList(EndSpanAt(page.endSpans, scrollCount)) {
        return scrollCount, noChangeCount, true;
      }
      var newHeight := HeightAt(page.feed, scrollCount + 1);
      count := scrollCount + 1;
      if newHeight == lastScrollHeight {
        noChange := noChangeCount + 1;
      } else {
        noChange := 0;
        lastScrollHeight := newHeight;
      }
      atEnd := false;
    }

    /** Scrolls the feed of a run that is not paused until it stops: after
        `StopIndex` scrolls, with `lastScrollHeight` the height read at the
        last scroll. Without a feed container nothing is scrolled (the
        source throws). */
    method ScrollToLoadAll(page: Page) returns (found: bool, scrollCount: nat)
      requires Valid() && !isPaused
      modifies this`lastScrollHeight
      ensures Valid()
      ensures found <==> AnyPresent(FeedSelectors, page.present)
      ensures found ==>
        && scrollCount == StopIndex(page.feed, EndMarkers(page.endSpans))
        && lastScrollHeight == HeightAt(page.feed, scrollCount)
      ensures !found ==> scrollCount == 0 && lastScrollHeight == old(lastScrollHeight)
    {
      var container := GetFeedContainer(page);
      if container.None? {
        return false, 0;
      }
      var feed := page.feed;
      ghost var markers := EndMarkers(page.endSpans);
      lastScrollHeight := HeightAt(feed, 0);
      var noChangeCount := 0;
      scrollCount := 0;
      while scrollCount < MaxScrolls && noChangeCount < maxScrollAttempts
        invariant scrollCount <= MaxScrolls
        invariant lastScrollHeight == HeightAt(feed, scrollCount)
        invariant noChangeCount == StallRun(feed, scrollCount)
        invariant forall j :: 0 <= j < scrollCount ==> !Stops(feed, markers, j)
        invariant Valid()
        decreases MaxScrolls - scrollCount
      {
        var atEnd;
        scrollCount, noChangeCount, atEnd := ScrollStep(page, scrollCount, noChangeCount);
        if atEnd {
          break;
        }
      }
      StopIndexUnique(feed, markers, scrollCount);
      return true, scrollCount;
    }

    /** `getFeedContainer`: the first of `FeedSelectors` that matches. */
    method GetFeedContainer(page: Page) returns (selector: Option<nat>)
      ensures selector.Some? ==>
        && selector.value < |FeedSelectors|
        && FeedSelectors[selector.value] in page.present
        && forall j :: 0 <= j < selector.value ==> FeedSelectors[j] !in page.present
      ensures selector.None? <==> !AnyPresent(FeedSelectors, page.present)
    {
      selector := FirstPresent(FeedSelectors, page.present);
    }

    /** One pass of the listing loop over the item at `index`. While the
        session is paused the pass is still waiting for a resume and nothing
        changes. Otherwise the item's record is appended, and the cursor
        moved just past the item, exactly when the item yields a record with
        a name. */
    method ScrapeStep(article: Article, index: nat) returns (done: bool)
      requires Valid() && currentIndex <= index
      modifies this`scrapedData, this`currentIndex
      ensures Valid()
      ensures done == !isPaused
      ensures isPaused || !Keeps(article) ==>
        scrapedData == old(scrapedData) && currentIndex == old(currentIndex)
      ensures !isPaused && Keeps(article) ==>
        scrapedData == old(scrapedData) + [ArticleRecord(article).value] && currentIndex == index + 1
    {
      if isPaused {
        return false;
      }
      var businessData := ScrapeArticle(article, index);
      if businessData.Some? && businessData.value.name != "" {
        scrapedData := scrapedData + [businessData.value];
        currentIndex := index + 1;
      }
      return true;
    }

    /** In a run that is not paused and starts with no records and the
        cursor at the first item, as `Begin` leaves it: collects, in item
        order, the record of every item that yields one with a name, and
        moves `currentIndex` just past the last such item. */
    method ScrapeAllListings(articles: seq<Article>)
      requires Valid() && !isPaused && scrapedData == [] && currentIndex == 0
      modifies this`scrapedData, this`currentIndex
      ensures Valid()
      ensures scrapedData == ScrapedRecords(articles)
      ensures currentIndex == LastKeptEnd(articles)
    {
      for i := 0 to |articles|
        invariant scrapedData == ScrapedRecords(articles[..i])
        invariant currentIndex == LastKeptEnd(articles[..i])
        invariant !isPaused
        invariant Valid() && currentIndex <= i
      {
        ListingStep(articles, i);
        var _ := ScrapeStep(articles[i], i);
      }
      assert articles[..|articles|] == articles;
    }

    /** Reads one item field by field into a record that starts all `''`. */
    method ScrapeArticle(article: Article, index: nat) returns (r: Option<Record>)
      ensures r == ArticleRecord(article)
    {
      var data := Record("", "", "", "", "", "", "", "");
      if article.name.None? {
        return None;
      }
      data := data.(name := Trim(article.name.value));
      if article.rating.Some? {
        data := data.(rating := Trim(article.rating.value));
      }
      if article.reviewCount.Some? {
        data := data.(reviewCount := Trim(article.reviewCount.value));
      }
      if article.category.Some? {
        data := data.(category := Trim(article.category.value));
      }
      if article.address.Some? {
        data := data.(address := Trim(article.address.value));
      }
      if article.hours.Some? {
        data := data.(hours := Trim(article.hours.value));
      }
      if article.phone.Some? {
        data := data.(phone := Trim(article.phone.value));
      }
      if article.website.Some? {
        data := data.(website := article.website.value);
      }
      // an error raised anywhere in the reads above discards the record
      if article.raises {
        return None;
      }
      return Some(data);
    }

    /** Flips the pause flag and reports its new value; nothing else changes. */
    method TogglePause() returns (paused: bool)
      requires Valid()
      modifies this`isPaused
      ensures Valid()
      ensures isPaused == !old(isPaused) && paused == isPaused
    {
      isPaused := !isPaused;
      return isPaused;
    }

    /** `getState`: the record count and records, both flags, and a status
        that is "Ready to scrape" when inactive, "Paused" when active and
        paused, and "Scraping in progress..." otherwise. */
    function GetState(): (s: ScraperState)
      reads this
      ensures s.count == |scrapedData| && s.data == scrapedData
      ensures s.isActive == isActive && s.isPaused == isPaused
      ensures !isActive ==> s.status == "Ready to scrape"
      ensures isActive && isPaused ==> s.status == "Paused"
      ensures isActive && !isPaused ==> s.status == "Scraping in progress..."
    {
      ScraperState(|scrapedData|, scrapedData, isActive, isPaused, StatusText(isActive, isPaused))
    }

    /** `getData`: the accumulated records, all of them named. */
    function GetData(): (data: seq<Record>)
      reads this
      requires Valid()
      ensures data == scrapedData
      ensures forall r <- data :: r.name != ""
      ensures |data| <= currentIndex
    {
      scrapedData
    }
  }

  /** Pausing and resuming restores the pause flag and leaves the rest of
      the session as it was. */
  method TogglePauseTwice(s: GoogleMapsScraper)
    requires s.Valid()
    modifies s
    ensures unchanged(s)
    ensures s.isPaused == old(s.isPaused)
    ensures s.scrapedData == old(s.scrapedData) && s.isActive == old(s.isActive)
    ensures s.currentIndex == old(s.currentIndex) && s.lastScrollHeight == old(s.lastScrollHeight)
  {
    var p1 := s.TogglePause();
    var p2 := s.TogglePause();
    assert p2 == !p1;
  }

  /** A second start while a run is active is rejected, also while that run
      is paused, and leaves the running session as it was. */
  method StartWhileRunning(s: GoogleMapsScraper) returns (first: bool, second: bool)
    requires s.Valid() && !s.isActive
    modifies s
    ensures first && !second
    ensures s.isActive && s.isPaused && s.scrapedData == [] && s.currentIndex == 0
    ensures s.lastScrollHeight == old(s.lastScrollHeight) && s.scrollAttempts == old(s.scrollAttempts)
  {
    first := s.Begin();
    var _ := s.TogglePause();
    second := s.Begin();
  }

  /** A pause requested while the run waits after its last item outlives the
      run: the session ends inactive but still paused, and reports "Ready to
      scrape". */
  method PauseDuringLastWait(s: GoogleMapsScraper, last: Article, index: nat)
    returns (state: ScraperState)
    requires s.Valid() && s.isActive && !s.isPaused && s.currentIndex <= index
    modifies s
    ensures !s.isActive && s.isPaused
    ensures state.status == StatusReady && state.isPaused && !state.isActive
  {
    var _ := s.ScrapeStep(last, index);
    var _ := s.TogglePause();
    s.Finish();
    state := s.GetState();
  }
}
