/**
 * `get_closest_price_yf`: the closing price of the nearest trading day on
 * or before a target date. Dates are whole UTC calendar days; the
 * market-data provider is a parameter that, given the requested window,
 * either raises or returns a series of (day, close) samples.
 */
module History {
  import opened Wrappers

  datatype Sample = Sample(day: int, close: real)

  /** What asking the provider for a history window produces. */
  datatype Fetch = Raised(exception: string) | Series(samples: seq<Sample>)

  /** The history request: `history(start, end)`, end exclusive. */
  type Provider = (int, int) -> Fetch

  /** The requested window: ten days back from the target, up to and including it. */
  function WindowStart(target: int): int
  {
    target - 10
  }

  function WindowEnd(target: int): int
  {
    target + 1
  }

  /** Samples are in the provider's date order. */
  ghost predicate Ascending(s: seq<Sample>)
  {
    forall i, j :: 0 <= i < j < |s| ==> s[i].day <= s[j].day
  }

  /**
   * The index of the last sample that survives the filter `day <= target`,
   * as `hist[hist_index <= target]` followed by `iloc[-1]` selects it.
   */
  function LastOnOrBefore(s: seq<Sample>, target: int): (r: Option<nat>)
    ensures r.Some? ==> r.value < |s| && s[r.value].day <= target
    ensures r.Some? ==> forall j :: r.value < j < |s| ==> s[j].day > target
    ensures r.None? <==> forall j :: 0 <= j < |s| ==> s[j].day > target
  {
    if s == [] then None
    else if s[|s| - 1].day <= target then Some(|s| - 1)
    else LastOnOrBefore(s[..|s| - 1], target)
  }

  /** `get_closest_price_yf(ticker, target)`: never raises, gives `None` instead. */
  function ClosestPrice(history: Provider, target: int): (r: Option<real>)
    ensures history(WindowStart(target), WindowEnd(target)).Raised? ==> r.None?
    ensures history(WindowStart(target), WindowEnd(target)).Series? ==>
              var s := history(WindowStart(target), WindowEnd(target)).samples;
              && (r.None? <==> forall j :: 0 <= j < |s| ==> s[j].day > target)
              && (r.Some? ==> exists i :: 0 <= i < |s| && s[i].day <= target && r.value == s[i].close
                                          && forall j :: i < j < |s| ==> s[j].day > target)
  {
    match history(WindowStart(target), WindowEnd(target))
    case Raised(_) => None
    case Series(s) =>
      if s == [] then None
      else
        match LastOnOrBefore(s, target)
        case None => None
        case Some(i) => Some(s[i].close)
  }

  /**
   * On a date-ordered series the chosen close belongs to the latest trading
   * day not after the target: no surviving sample has a later day.
   */
  lemma ClosestIsLatest(history: Provider, target: int)
    requires history(WindowStart(target), WindowEnd(target)).Series?
    requires Ascending(history(WindowStart(target), WindowEnd(target)).samples)
    requires ClosestPrice(history, target).Some?
    ensures var s := history(WindowStart(target), WindowEnd(target)).samples;
            exists i :: 0 <= i < |s| && s[i].day <= target
                        && ClosestPrice(history, target).value == s[i].close
                        && forall j :: 0 <= j < |s| && s[j].day <= target ==> s[j].day <= s[i].day
  {
    var s := history(WindowStart(target), WindowEnd(target)).samples;
    var i :| 0 <= i < |s| && s[i].day <= target && ClosestPrice(history, target).value == s[i].close
              && forall j :: i < j < |s| ==> s[j].day > target;
  }

  /** An empty series, or one holding only later days, gives no price (not zero). */
  lemma NoPriceWithoutEarlierSample(history: Provider, target: int)
    requires history(WindowStart(target), WindowEnd(target)).Series?
    requires forall j :: 0 <= j < |history(WindowStart(target), WindowEnd(target)).samples| ==>
               history(WindowStart(target), WindowEnd(target)).samples[j].day > target
    ensures ClosestPrice(history, target) == None
  {
  }
}
