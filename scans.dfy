/** The two "first match, else fallback" scans of the strategy panel:
    the dynamic-average rate (`rate_a`) and the depth-accumulation rate
    (`rate_b`). */
module Scans {
  import opened Levels
  import opened Depth

  /** The breakout factor applied to the mean volume. */
  const BreakoutFactor: real := 3.0

  /** The cumulative amount the depth scan waits for. */
  const DepthTarget: real := 2000000.0

  /** The first index at or after `i` whose amount exceeds `limit`, or `|book|` when there is none. */
  function FirstAboveFrom(book: seq<Level>, limit: real, i: nat): (k: nat)
    requires i <= |book|
    decreases |book| - i
    ensures i <= k <= |book|
    ensures k < |book| ==> book[k].amount > limit
    ensures forall j :: i <= j < k ==> book[j].amount <= limit
  {
    if i == |book| || book[i].amount > limit then i
    else FirstAboveFrom(book, limit, i + 1)
  }

  /** `rate_a`: the rate of the first level whose amount exceeds `factor`
      times the mean amount, or the lowest rate when no level does. */
  function DynamicAverage(book: seq<Level>, factor: real): (rate: real)
    requires book != []
    ensures var limit := factor * MeanAmount(book);
      if exists k :: 0 <= k < |book| && book[k].amount > limit
      then exists k :: 0 <= k < |book| && rate == book[k].rate && book[k].amount > limit
                       && forall j :: 0 <= j < k ==> book[j].amount <= limit
      else rate == book[0].rate
  {
    var k := FirstAboveFrom(book, factor * MeanAmount(book), 0);
    if k < |book| then book[k].rate else book[0].rate
  }

  /** The first index at or after `i` whose cumulative amount reaches
      `target`, or `|book|` when there is none. */
  function FirstReachingFrom(book: seq<Level>, target: real, i: nat): (k: nat)
    requires i <= |book|
    decreases |book| - i
    ensures i <= k <= |book|
    ensures k < |book| ==> DepthAt(book, k) >= target
    ensures forall j :: i <= j < k ==> DepthAt(book, j) < target
  {
    if i == |book| || DepthAt(book, i) >= target then i
    else FirstReachingFrom(book, target, i + 1)
  }

  /** `rate_b`: the rate of the first level whose cumulative amount reaches
      `target`, or the highest rate when the book never reaches it. */
  function DepthAccumulation(book: seq<Level>, target: real): (rate: real)
    requires book != []
    ensures if exists k :: 0 <= k < |book| && DepthAt(book, k) >= target
      then exists k :: 0 <= k < |book| && rate == book[k].rate && DepthAt(book, k) >= target
                       && forall j :: 0 <= j < k ==> DepthAt(book, j) < target
      else rate == book[|book| - 1].rate
  {
    var k := FirstReachingFrom(book, target, 0);
    if k < |book| then book[k].rate else book[|book| - 1].rate
  }

  /** Once the cumulative amount reaches the target it stays there: over
      positive amounts every level after the first one reaching it reaches it too. */
  lemma DepthTargetPersists(book: seq<Level>, target: real, j: nat)
    requires AllPositive(book)
    requires FirstReachingFrom(book, target, 0) <= j < |book|
    ensures DepthAt(book, j) >= target
  {
    var k := FirstReachingFrom(book, target, 0);
    if k < j {
      DepthIncreasing(book, k, j);
    }
  }

  /** Both scan results are rates that the book holds. */
  lemma ScansStayInBook(book: seq<Level>, factor: real, target: real)
    requires book != []
    ensures DynamicAverage(book, factor) in Rates(book)
    ensures DepthAccumulation(book, target) in Rates(book)
  {
    RatesMembership(book, DynamicAverage(book, factor));
    RatesMembership(book, DepthAccumulation(book, target));
  }
}
