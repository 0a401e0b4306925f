/** The extension popup (`gmap-scraper/popup.js`): the CSV text built by
    `exportToCSV`, the control state set by `updateStatus`, and the defaults
    `updateUI` applies to a state reply from the content script. DOM writes
    are modelled as the returned control state. */
module Popup {
  import opened Wrappers
  import opened JsString
  import opened Csv
  import Content

  /** A record as the popup receives it: any field may be missing. */
  datatype Item = Item(
    name: Option<string>,
    category: Option<string>,
    address: Option<string>,
    phone: Option<string>,
    website: Option<string>,
    hours: Option<string>)

  /** The header row of the exported file. */
  const Headers: seq<string> :=
    ["Business Name", "Category", "Address", "Phone", "Website", "Business Hours"]

  const NoDataText: string := "No data to export"
  const ReadyText: string := "Ready to scrape"

  /** `value || ''` on an optional string. */
  function OrEmpty(value: Option<string>): string {
    value.GetOr("")
  }

  /** The six exported values of an item, in column order. */
  function ItemFields(item: Item): (r: seq<string>)
    ensures |r| == |Headers|
  {
    [OrEmpty(item.name), OrEmpty(item.category), OrEmpty(item.address),
     OrEmpty(item.phone), OrEmpty(item.website), OrEmpty(item.hours)]
  }

  /** What the popup's status element and buttons show. */
  datatype Controls = Controls(
    statusText: string,
    statusClasses: seq<string>,
    scrapeDisabled: bool,
    pauseDisabled: bool,
    pauseLabel: string,
    isScraperActive: bool)

  /** `updateStatus`: while a run is active the scrape button is disabled,
      the pause button enabled and labelled "Resume" exactly when paused;
      otherwise the scrape button is enabled, the pause button disabled and
      labelled "Pause", and the status carries the class "completed" only
      when its text mentions "completed". The module-level
      `isScraperActive` follows `isActive`. */
  function UpdateStatus(statusText: string, isActive: bool, isPaused: bool): (c: Controls)
    ensures c.statusText == statusText && c.isScraperActive == isActive
    ensures c.scrapeDisabled == isActive && c.pauseDisabled == !isActive
    ensures c.pauseLabel == "Resume" <==> isActive && isPaused
    ensures c.pauseLabel == "Resume" || c.pauseLabel == "Pause"
    ensures |c.statusClasses| >= 1 && c.statusClasses[0] == "status"
    ensures isActive ==> c.statusClasses == ["status", if isPaused then "paused" else "scraping"]
    ensures !isActive ==> ("completed" in c.statusClasses <==> Contains(statusText, "completed"))
    ensures !isActive ==> "paused" !in c.statusClasses && "scraping" !in c.statusClasses
  {
    if isActive then
      if isPaused then Controls(statusText, ["status", "paused"], true, false, "Resume", isActive)
      else Controls(statusText, ["status", "scraping"], true, false, "Pause", isActive)
    else
      var classes := if Contains(statusText, "completed") then ["status", "completed"] else ["status"];
      Controls(statusText, classes, false, true, "Pause", isActive)
  }

  /** The `getState` reply as the popup reads it: any field may be missing. */
  datatype StateReply = StateReply(
    count: Option<nat>,
    data: Option<seq<Item>>,
    status: Option<string>,
    isActive: Option<bool>,
    isPaused: Option<bool>)

  /** What the popup shows after `updateUI`. */
  datatype View = View(counter: nat, data: seq<Item>, controls: Controls)

  /** `updateUI`: a missing count shows 0, missing data is empty, a missing
      or empty status reads "Ready to scrape", missing flags are false. */
  function UpdateUI(state: StateReply): (v: View)
    ensures v.counter == state.count.GetOr(0) && v.data == state.data.GetOr([])
    ensures state.status.None? || state.status == Some("") ==> v.controls.statusText == ReadyText
    ensures state.status.Some? && state.status.value != "" ==> v.controls.statusText == state.status.value
    ensures v.controls.isScraperActive == state.isActive.GetOr(false)
    ensures v.controls == UpdateStatus(v.controls.statusText, state.isActive.GetOr(false), state.isPaused.GetOr(false))
  {
    var status := if state.status.Some? && state.status.value != "" then state.status.value else ReadyText;
    View(state.count.GetOr(0), state.data.GetOr([]),
         UpdateStatus(status, state.isActive.GetOr(false), state.isPaused.GetOr(false)))
  }

  /** A record of the content script as the popup receives it. */
  function ItemOf(r: Content.Record): Item {
    Item(Some(r.name), Some(r.category), Some(r.address), Some(r.phone), Some(r.website), Some(r.hours))
  }

  /** The `getState` reply as sent by the content script: every field set. */
  function ReplyOf(s: Content.ScraperState): StateReply {
    StateReply(Some(s.count), Some(seq(|s.data|, i requires 0 <= i < |s.data| => ItemOf(s.data[i]))),
               Some(s.status), Some(s.isActive), Some(s.isPaused))
  }

  /** The popup mirrors the session it opens on: the counter shows the number
      of records, the scrape button is disabled exactly while a run is
      active, the pause button is labelled "Resume" exactly when a run is
      active and paused, and the status never carries "completed" in the
      initial reply. */
  lemma PopupMirrorsSession(scraper: Content.GoogleMapsScraper)
    ensures var s := scraper.GetState();
      var v := UpdateUI(ReplyOf(s));
      && v.counter == |scraper.scrapedData|
      && v.controls.scrapeDisabled == scraper.isActive
      && v.controls.pauseDisabled == !scraper.isActive
      && (v.controls.pauseLabel == "Resume" <==> scraper.isActive && scraper.isPaused)
      && "completed" !in v.controls.statusClasses
  {
    var s := scraper.GetState();
    if !scraper.isActive {
      ContainsOnlyItsChars(Content.StatusReady, "completed", 'm');
    }
  }

  /** The completion message turns the status into a "completed" one and
      re-enables scraping. */
  lemma CompletionShowsCompleted()
    ensures var c := UpdateStatus("Scraping completed!", false, false);
      c.statusClasses == ["status", "completed"] && !c.scrapeDisabled && c.pauseDisabled
  {
    assert Contains("Scraping completed!", "completed");
  }

  /** The exported values of each item, in order. */
  function ItemRows(items: seq<Item>): (r: seq<seq<string>>)
    ensures |r| == |items|
  {
    seq(|items|, k requires 0 <= k < |items| => ItemFields(items[k]))
  }

  /** Adding an item adds its row at the end. */
  lemma ItemRowsSnoc(items: seq<Item>, item: Item)
    ensures ItemRows(items + [item]) == ItemRows(items) + [ItemFields(item)]
  {
  }

  /** Result of `exportToCSV`: no file when there is nothing to export (the
      status then reads "No data to export"), otherwise the CSV text. */
  datatype Export = NoData(controls: Controls) | CsvText(text: string)

  /** `exportToCSV`, text construction: the header row, then one row per
      item pushed in order, all joined by line feeds. The text is the
      line-feed join of the escaped records of the header and of each item's
      six values, with missing ones as `''`; reading it back gives exactly
      those rows. */
  method ExportToCsv(data: seq<Item>) returns (r: Export)
    ensures r.NoData? <==> data == []
    ensures r.NoData? ==> r.controls == UpdateStatus(NoDataText, false, false)
    ensures r.CsvText? ==> r.text == Join(RecordLines([Headers] + ItemRows(data)), '\n')
    ensures r.CsvText? ==>
      ParseCsv(r.text) == Some([Headers] + ItemRows(data))
  {
    if |data| == 0 {
      return NoData(UpdateStatus(NoDataText, false, false));
    }
    var csvRows := [Join(Headers, ',')];
    ExportStart(data);
    for i := 0 to |data|
      invariant csvRows == RecordLines([Headers] + ItemRows(data[..i]))
    {
      var item := data[i];
      var row := [
        EscapeCsv(Some(OrEmpty(item.name))),
        EscapeCsv(Some(OrEmpty(item.category))),
        EscapeCsv(Some(OrEmpty(item.address))),
        EscapeCsv(Some(OrEmpty(item.phone))),
        EscapeCsv(Some(OrEmpty(item.website))),
        EscapeCsv(Some(OrEmpty(item.hours)))
      ];
      ExportStep(data, i);
      csvRows := csvRows + [Join(row, ',')];
    }
    var csvContent := Join(csvRows, '\n');
    assert data[..|data|] == data;
    ExportRoundTrip(data);
    return CsvText(csvContent);
  }

  /** The row `exportToCSV` builds for an item is its escaped fields. */
  lemma EscapedItem(item: Item)
    ensures [EscapeCsv(Some(OrEmpty(item.name))), EscapeCsv(Some(OrEmpty(item.category))),
             EscapeCsv(Some(OrEmpty(item.address))), EscapeCsv(Some(OrEmpty(item.phone))),
             EscapeCsv(Some(OrEmpty(item.website))), EscapeCsv(Some(OrEmpty(item.hours)))]
            == EscapeAll(ItemFields(item))
  {
  }

  /** Appending a record appends its line. */
  lemma RecordLinesSnoc(rows: seq<seq<string>>, fields: seq<string>)
    ensures RecordLines(rows + [fields]) == RecordLines(rows) + [RecordText(fields)]
  {
  }

  /** One pass of the export loop appends the line of the next item. */
  lemma ExportStep(data: seq<Item>, i: nat)
    requires i < |data|
    ensures var item := data[i];
      RecordLines([Headers] + ItemRows(data[..i + 1]))
      == RecordLines([Headers] + ItemRows(data[..i])) + [Join([
        EscapeCsv(Some(OrEmpty(item.name))), EscapeCsv(Some(OrEmpty(item.category))),
        EscapeCsv(Some(OrEmpty(item.address))), EscapeCsv(Some(OrEmpty(item.phone))),
        EscapeCsv(Some(OrEmpty(item.website))), EscapeCsv(Some(OrEmpty(item.hours)))], ',')]
  {
    var item := data[i];
    EscapedItem(item);
    assert data[..i + 1] == data[..i] + [item];
    ItemRowsSnoc(data[..i], item);
    assert [Headers] + ItemRows(data[..i + 1]) == ([Headers] + ItemRows(data[..i])) + [ItemFields(item)];
    RecordLinesSnoc([Headers] + ItemRows(data[..i]), ItemFields(item));
  }

  /** Before the loop the lines hold only the header. */
  lemma ExportStart(data: seq<Item>)
    ensures [Join(Headers, ',')] == RecordLines([Headers] + ItemRows(data[..0]))
  {
    HeaderNeedsNoEscape();
    assert data[..0] == [];
  }

  /** The exported lines read back as the header and the items' rows. */
  lemma ExportRoundTrip(data: seq<Item>)
    ensures ParseCsv(Join(RecordLines([Headers] + ItemRows(data)), '\n')) == Some([Headers] + ItemRows(data))
  {
    var rows := [Headers] + ItemRows(data);
    assert forall i :: 0 <= i < |rows| ==> |rows[i]| >= 1;
    CsvRoundTrip(rows);
  }

  /** The header names contain nothing `escapeCSV` would quote, so the
      header line is also the escaped record of the header names. */
  lemma HeaderNeedsNoEscape()
    ensures Join(Headers, ',') == RecordText(Headers)
  {
    assert !NeedsQuoting("Business Name") && !NeedsQuoting("Category");
    assert !NeedsQuoting("Address") && !NeedsQuoting("Phone");
    assert !NeedsQuoting("Website") && !NeedsQuoting("Business Hours");
    assert EscapeAll(Headers) == Headers;
  }
}
