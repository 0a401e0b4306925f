/** Prioritised element lookup. Both scrapers find the scrollable results
    container by trying a fixed list of locators (CSS selectors in the
    extension, XPath expressions in the Selenium scraper) in order and taking
    the first one that matches. The page is abstracted as the set of locators
    that match an element on it. */
module Locators {
  import opened Wrappers

  /** Whether at least one locator of the list matches on the page. */
  predicate AnyPresent(locators: seq<string>, present: set<string>) {
    exists j :: 0 <= j < |locators| && locators[j] in present
  }

  /** Index of the first locator in `locators` that matches on the page, if
      any: the winning locator matches, none before it does, and `None`
      means no locator in the list matches. */
  method FirstPresent(locators: seq<string>, present: set<string>) returns (r: Option<nat>)
    ensures r.Some? ==> r.value < |locators| && locators[r.value] in present
    ensures r.Some? ==> forall j :: 0 <= j < r.value ==> locators[j] !in present
    ensures r.None? <==> !AnyPresent(locators, present)
  {
    for i := 0 to |locators|
      invariant forall j :: 0 <= j < i ==> locators[j] !in present
    {
      if locators[i] in present {
        return Some(i);
      }
    }
    return None;
  }
}
