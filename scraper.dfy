/** The Selenium scraper (`src/google_maps_scraper/scraper.py`): the scroll
    loop over the results container, the fallback search for that container,
    the per-item extraction and the optional website lookup on an item's
    detail page.

    Every Selenium lookup is abstracted as a `Lookup`: the element was found
    (with what its attributes read), `find_element` raised
    `NoSuchElementException`, or some other exception was raised on the way
    (a stale element, a failed attribute read). */
module SeleniumScraper {
  import opened Wrappers
  import opened Locators
  import opened ScrollFeed

  /** Outcome of a Selenium lookup. */
  datatype Lookup<T> = Found(value: T) | NoSuchElement | Failed

  /** The title anchor (class `hfpxzc`) of an item: its `aria-label` and
      `href` attributes, `None` when the attribute is absent. */
  datatype Anchor = Anchor(ariaLabel: Option<string>, href: Option<string>)

  /** One result item (class `Nv2PK`) as the scraper meets it.
      `title` is the lookup of the title anchor, `rating` the lookup of the
      rating element (class `ZkP5Je`) and the `aria-label` it reads,
      `opens` whether looking the anchor up again and clicking it succeeds,
      and `detail` the lookup of the `Website` link (its `href`) on the
      detail page that click opens. */
  datatype LocationDiv = LocationDiv(
    title: Lookup<Anchor>,
    rating: Lookup<Option<string>>,
    opens: bool,
    detail: Lookup<Option<string>>)

  /** A scraped location. */
  datatype Location = Location(
    title: Option<string>,
    rating: Option<string>,
    url: Option<string>,
    website: Option<string>)

  /** The search page: the results-container XPaths that find an element,
      the heights the container shows as it is scrolled, the items visible
      without scrolling and the items present once scrolling has ended. */
  datatype SearchPage = SearchPage(
    present: set<string>,
    feed: HeightLog,
    visible: seq<LocationDiv>,
    loaded: seq<LocationDiv>)

  /** The candidate XPaths of the results container, in the order tried. */
  const ResultContainerXPaths: seq<string> := [
    "//div[contains(@aria-label, 'Results for')]",
    "//div[@role='feed']",
    "//div[contains(@class, 'm6QErb')]"
  ]

  /** The rating recorded for an item without a rating element. */
  const NoRating: string := "No rating"

  // ---------------------------------------------------------------------
  // Scrolling
  // ---------------------------------------------------------------------

  /** `_scroll_results_container`: scrolls until `MaxNoChange` consecutive
      scrolls leave the height unchanged or `MaxScrolls` scrolls have been
      made. It always scrolls at least once, stops at the scroll count the
      shared termination rule gives for a feed without an end marker, and
      ends holding the height read last and the current run of unchanged
      reads. */
  method ScrollResultsContainer(log: HeightLog) returns (scrollCount: nat, noChangeCount: nat, lastHeight: int)
    ensures 1 <= scrollCount <= MaxScrolls
    ensures scrollCount == StopIndex(log, [])
    ensures lastHeight == HeightAt(log, scrollCount)
    ensures noChangeCount == StallRun(log, scrollCount)
    ensures scrollCount < MaxScrolls ==> noChangeCount == MaxNoChange
  {
    lastHeight := HeightAt(log, 0);
    noChangeCount := 0;
    scrollCount := 0;
    while scrollCount < MaxScrolls
      invariant scrollCount <= MaxScrolls
      invariant lastHeight == HeightAt(log, scrollCount)
      invariant noChangeCount == StallRun(log, scrollCount) && noChangeCount < MaxNoChange
      invariant forall j :: 0 <= j <= scrollCount ==> !Stops(log, [], j) || j == MaxScrolls
      decreases MaxScrolls - scrollCount
    {
      var newHeight := HeightAt(log, scrollCount + 1);
      scrollCount := scrollCount + 1;
      if newHeight == lastHeight {
        noChangeCount := noChangeCount + 1;
        if noChangeCount >= MaxNoChange {
          break;
        }
      } else {
        noChangeCount := 0;
        lastHeight := newHeight;
      }
    }
    StopIndexUnique(log, [], scrollCount);
  }

  /** Without an end marker in view the extension's loop and this one make
      the same number of scrolls. */
  lemma SameStopWithoutMarker(log: HeightLog, markers: seq<bool>)
    requires forall k :: 0 <= k < |markers| ==> !markers[k]
    ensures StopIndex(log, markers) == StopIndex(log, [])
  {
    var n := StopIndex(log, []);
    forall j | 0 <= j < n ensures !Stops(log, markers, j) {
      assert !Stops(log, [], j);
    }
    StopIndexUnique(log, markers, n);
  }

  // ---------------------------------------------------------------------
  // Extraction
  // ---------------------------------------------------------------------

  /** `_get_data_from_location_div`: no location when the title anchor
      cannot be read or the rating lookup raises anything other than
      `NoSuchElementException`; otherwise the anchor's label and link, the
      rating's label or "No rating" when the item has no rating element,
      and no website. */
  function LocationOfDiv(div: LocationDiv): (r: Option<Location>)
    ensures r.Some? <==> div.title.Found? && !div.rating.Failed?
    ensures r.Some? ==>
      && r.value.title == div.title.value.ariaLabel
      && r.value.url == div.title.value.href
      && r.value.website.None?
      && (div.rating.NoSuchElement? <==> r.value.rating == Some(NoRating) && !div.rating.Found?)
      && (div.rating.Found? ==> r.value.rating == div.rating.value)
  {
    match div.title
    case Found(anchor) =>
      (match div.rating
       case Found(text) => Some(Location(anchor.ariaLabel, text, anchor.href, None))
       case NoSuchElement => Some(Location(anchor.ariaLabel, Some(NoRating), anchor.href, None))
       case Failed => None)
    case _ => None
  }

  /** `_get_website_from_location_page`: the link's `href` when the
      `Website` link is found; `None` whenever the lookup raises. */
  function WebsiteOnPage(link: Lookup<Option<string>>): (r: Option<string>)
    ensures r.Some? ==> link == Found(r)
    ensures link.Found? ==> r == link.value
  {
    match link
    case Found(href) => href
    case _ => None
  }

  /** The location appended for an extractable item: its website is the
      detail-page lookup when the click succeeded, and stays unset when it
      did not. */
  function Visited(location: Location, div: LocationDiv): Location {
    if div.opens then location.(website := WebsiteOnPage(div.detail)) else location
  }

  /** The locations `_get_locations_from_page` collects from `divs`. */
  function LocationsOf(divs: seq<LocationDiv>): seq<Location> {
    if divs == [] then []
    else
      var last := divs[|divs| - 1];
      var prior := LocationsOf(divs[..|divs| - 1]);
      match LocationOfDiv(last)
      case None => prior
      case Some(location) => prior + [Visited(location, last)]
  }

  /** Indices of the items that yield a location, in item order. */
  ghost function KeptIndices(divs: seq<LocationDiv>): (r: seq<nat>)
    ensures forall j :: 0 <= j < |r| ==> r[j] < |divs| && LocationOfDiv(divs[r[j]]).Some?
    ensures forall j, k :: 0 <= j < k < |r| ==> r[j] < r[k]
    ensures forall i :: 0 <= i < |divs| && LocationOfDiv(divs[i]).Some? ==> i in r
  {
    if divs == [] then []
    else
      var init := divs[..|divs| - 1];
      var prior := KeptIndices(init);
      assert forall i :: 0 <= i < |init| ==> init[i] == divs[i];
      if LocationOfDiv(divs[|divs| - 1]).Some? then prior + [|divs| - 1] else prior
  }

  /** One location per item that yields one, in item order, whatever the
      website lookup does: the `j`-th location comes from the `j`-th such
      item, keeps that item's title, rating and link, and carries a website
      only when the item's detail page was opened. */
  lemma {:induction false} LocationsInItemOrder(divs: seq<LocationDiv>)
    ensures |LocationsOf(divs)| == |KeptIndices(divs)| <= |divs|
    ensures forall j :: 0 <= j < |KeptIndices(divs)| ==>
      var div := divs[KeptIndices(divs)[j]];
      LocationsOf(divs)[j] == Visited(LocationOfDiv(div).value, div)
  {
    if divs != [] {
      var init := divs[..|divs| - 1];
      LocationsInItemOrder(init);
      var prior := KeptIndices(init);
      assert |prior| <= |init|;
      forall j | 0 <= j < |prior|
        ensures LocationsOf(divs)[j] == Visited(LocationOfDiv(divs[prior[j]]).value, divs[prior[j]])
      {
        assert init[prior[j]] == divs[prior[j]];
      }
    }
  }

  /** `location` is what item `div` yields: the item's own title, rating
      and link, and a website only when the item's detail page opened and
      showed that link. */
  predicate CameFrom(location: Location, div: LocationDiv) {
    && LocationOfDiv(div).Some?
    && location.title == LocationOfDiv(div).value.title
    && location.rating == LocationOfDiv(div).value.rating
    && location.url == LocationOfDiv(div).value.url
    && (location.website.Some? ==> div.opens && div.detail == Found(location.website))
  }

  /** Every collected location came from one of the items. */
  lemma WebsiteOnlyFromDetail(divs: seq<LocationDiv>, j: nat)
    requires j < |LocationsOf(divs)|
    ensures exists i :: 0 <= i < |divs| && CameFrom(LocationsOf(divs)[j], divs[i])
  {
    LocationsInItemOrder(divs);
    var i := KeptIndices(divs)[j];
    assert CameFrom(LocationsOf(divs)[j], divs[i]);
  }

  // ---------------------------------------------------------------------
  // The page
  // ---------------------------------------------------------------------

  /** The items `_get_locations_from_page` reads: those loaded by scrolling
      when a container was found and scrolled, the visible ones otherwise. */
  function ItemsRead(page: SearchPage, scrolled: bool): seq<LocationDiv> {
    if scrolled then page.loaded else page.visible
  }

  /** `_get_locations_from_page` after the page has loaded: with `full` it
      looks for the results container by the first XPath that finds an
      element and scrolls it; it then extracts every item in order. Without
      `full`, or when no XPath finds the container, nothing is scrolled and
      only the visible items are read. */
  method GetLocationsFromPage(page: SearchPage, full: bool)
    returns (locations: seq<Location>, container: Option<nat>, scrolls: nat)
    ensures container.Some? ==>
      && full
      && container.value < |ResultContainerXPaths|
      && ResultContainerXPaths[container.value] in page.present
      && forall j :: 0 <= j < container.value ==> ResultContainerXPaths[j] !in page.present
    ensures container.None? <==> !full || !AnyPresent(ResultContainerXPaths, page.present)
    ensures scrolls == if container.Some? then StopIndex(page.feed, []) else 0
    ensures locations == LocationsOf(ItemsRead(page, container.Some?))
  {
    container := None;
    scrolls := 0;
    if full {
      container := FirstPresent(ResultContainerXPaths, page.present);
      if container.Some? {
        var noChangeCount, lastHeight;
        scrolls, noChangeCount, lastHeight := ScrollResultsContainer(page.feed);
      }
    }
    var divs := ItemsRead(page, container.Some?);
    locations := [];
    for i := 0 to |divs|
      invariant locations == LocationsOf(divs[..i])
    {
      var div := divs[i];
      assert divs[..i + 1][..i] == divs[..i];
      var location := LocationOfDiv(div);
      if location.Some? {
        var found := location.value;
        if div.opens {
          var website := WebsiteOnPage(div.detail);
          found := found.(website := website);
        }
        locations := locations + [found];
      }
    }
    assert divs[..|divs|] == divs;
  }
}
