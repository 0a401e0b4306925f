/** The termination rule shared by both scroll loops: the extension's
    `scrollToLoadAll` and the Selenium scraper's `_scroll_results_container`.
    Each loop scrolls the results container to its bottom, waits, reads the
    container's `scrollHeight` and counts consecutive reads that show no
    growth. It stops after `MaxScrolls` scrolls, after `MaxNoChange`
    consecutive reads without growth, or (extension only) when the
    end-of-list marker is visible before a scroll.

    The page is abstracted as a log of observed heights: the height before
    the first scroll and the height read after each scroll. A loop that
    scrolls further than the log reaches sees a feed that no longer grows. */
module ScrollFeed {

  /** Hard ceiling on the number of scrolls (`maxScrolls`, `max_scrolls`). */
  const MaxScrolls: nat := 100

  /** Consecutive scrolls without growth that end the loop
      (`maxScrollAttempts`, `max_no_change`). */
  const MaxNoChange: nat := 5

  /** `initial` is the container's height before the first scroll,
      `observed[k]` the height read after scroll `k + 1`. */
  datatype HeightLog = HeightLog(initial: int, observed: seq<int>)

  /** Height of the container after `k` scrolls. */
  function HeightAt(log: HeightLog, k: nat): int {
    if k == 0 || log.observed == [] then log.initial
    else if k <= |log.observed| then log.observed[k - 1]
    else log.observed[|log.observed| - 1]
  }

  /** Whether the end-of-list marker is visible after `k` scrolls;
      `markers[k]` is what the check before scroll `k + 1` sees. */
  function MarkerAt(markers: seq<bool>, k: nat): bool {
    k < |markers| && markers[k]
  }

  /** Number of consecutive scrolls, ending with scroll `k`, after which the
      height read was the same as the one read just before. */
  function StallRun(log: HeightLog, k: nat): nat {
    if k == 0 || HeightAt(log, k) != HeightAt(log, k - 1) then 0
    else StallRun(log, k - 1) + 1
  }

  /** Whether a loop that has made `k` scrolls stops before scrolling again. */
  predicate Stops(log: HeightLog, markers: seq<bool>, k: nat) {
    k >= MaxScrolls || StallRun(log, k) >= MaxNoChange || MarkerAt(markers, k)
  }

  /** The first scroll count from `k` on at which the loop stops. */
  function StopFrom(log: HeightLog, markers: seq<bool>, k: nat): (r: nat)
    requires k <= MaxScrolls
    ensures k <= r <= MaxScrolls && Stops(log, markers, r)
    ensures forall j :: k <= j < r ==> !Stops(log, markers, j)
    decreases MaxScrolls - k
  {
    if Stops(log, markers, k) then k else StopFrom(log, markers, k + 1)
  }

  /** Total number of scrolls the loop performs on this feed. */
  function StopIndex(log: HeightLog, markers: seq<bool>): nat {
    StopFrom(log, markers, 0)
  }

  /** A scroll count at which the loop stops and before which it never
      stops is the one `StopIndex` gives. */
  lemma StopIndexUnique(log: HeightLog, markers: seq<bool>, n: nat)
    requires Stops(log, markers, n)
    requires forall j :: 0 <= j < n ==> !Stops(log, markers, j)
    ensures StopIndex(log, markers) == n
  {
  }

  /** The three exits: the loop stops within `MaxScrolls` scrolls, and it
      stops because the ceiling was reached, because `MaxNoChange`
      consecutive scrolls brought no growth, or because the end marker was
      visible; it does not stop earlier than the first of these. */
  lemma ScrollExits(log: HeightLog, markers: seq<bool>)
    ensures var n := StopIndex(log, markers);
      && n <= MaxScrolls
      && (n == MaxScrolls || StallRun(log, n) == MaxNoChange || MarkerAt(markers, n))
      && forall j :: 0 <= j < n ==> StallRun(log, j) < MaxNoChange && !MarkerAt(markers, j)
  {
    var n := StopIndex(log, markers);
    forall j | 0 <= j < n ensures StallRun(log, j) < MaxNoChange && !MarkerAt(markers, j) {
      assert !Stops(log, markers, j);
    }
  }

  /** The run of unchanged reads ending at scroll `k` is no longer than `k`,
      and every height read during it equals the height at `k`. */
  lemma {:induction false} StallRunIsFlat(log: HeightLog, k: nat)
    ensures StallRun(log, k) <= k
    ensures forall j :: k - StallRun(log, k) <= j <= k ==> HeightAt(log, j) == HeightAt(log, k)
    decreases k
  {
    if k > 0 && HeightAt(log, k) == HeightAt(log, k - 1) {
      StallRunIsFlat(log, k - 1);
    }
  }

  /** A loop that stops short of the ceiling without seeing the marker has
      read the same height `MaxNoChange + 1` times in a row. */
  lemma StallExitMeansFlatTail(log: HeightLog, markers: seq<bool>)
    requires StopIndex(log, markers) < MaxScrolls
    requires !MarkerAt(markers, StopIndex(log, markers))
    ensures var n := StopIndex(log, markers);
      n >= MaxNoChange && forall j :: n - MaxNoChange <= j <= n ==> HeightAt(log, j) == HeightAt(log, n)
  {
    var n := StopIndex(log, markers);
    ScrollExits(log, markers);
    StallRunIsFlat(log, n);
  }

  /** A feed that grows on every scroll and never shows the marker is
      scrolled exactly `MaxScrolls` times: the ceiling alone bounds the run. */
  lemma GrowingFeedHitsCeiling(log: HeightLog, markers: seq<bool>)
    requires forall k :: 0 < k <= MaxScrolls ==> HeightAt(log, k) != HeightAt(log, k - 1)
    requires forall k :: 0 <= k < |markers| ==> !markers[k]
    ensures StopIndex(log, markers) == MaxScrolls
  {
    var n := StopIndex(log, markers);
    assert StallRun(log, n) == 0;
  }
}
