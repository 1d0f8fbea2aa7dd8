/**
 * `get_stock_data_for_ticker`: the per-ticker result record. The three
 * provider steps (creating the ticker handle, reading its info, reading
 * its history) are inputs; the percentage changes over five business days
 * and over one month are computed from the three resolved prices.
 */
module StockData {
  import opened Wrappers
  import opened History

  /** A percentage change: absent (`None`), `float('inf')`, or a number. */
  datatype Change = NoChange | Infinite | Pct(pct: real)

  /** `today` is `base` moved by `pct` percent. */
  predicate MovedBy(base: real, today: real, pct: real)
  {
    today == base + base * pct / 100.0
  }

  /** The five-day change (the first `if` block of the change computation). */
  function FiveDayChange(today: Option<real>, base: Option<real>): (c: Change)
    ensures c.NoChange? <==> today.None? || base.None?
    ensures c.Infinite? <==> today.Some? && base.Some? && base.value == 0.0 && today.value != 0.0
    ensures c.Pct? ==> MovedBy(base.value, today.value, c.pct)
    ensures c.Pct? && base.value == 0.0 ==> c.pct == 0.0
  {
    if today.Some? && base.Some? then
      if base.value != 0.0 then Pct(Percent(today.value, base.value))
      else if today.value == 0.0 then Pct(0.0)
      else Infinite
    else NoChange
  }

  /**
   * The one-month change. Its zero-baseline test is `price_1mo == 0` where
   * the five-day block tests `price_today == 0`, so a zero baseline always
   * gives 0.0 and the infinite case is never produced.
   */
  function OneMonthChange(today: Option<real>, base: Option<real>): (c: Change)
    ensures c.NoChange? <==> today.None? || base.None?
    ensures !c.Infinite?
    ensures c.Pct? ==> base.value != 0.0 ==> MovedBy(base.value, today.value, c.pct)
    ensures c.Pct? && base.value == 0.0 ==> c.pct == 0.0
  {
    if today.Some? && base.Some? then
      if base.value != 0.0 then Pct(Percent(today.value, base.value))
      else if base.value == 0.0 then Pct(0.0)
      else Infinite
    else NoChange
  }

  /** `((today - base) / base) * 100`, the change of `today` over `base` in percent. */
  function Percent(today: real, base: real): (p: real)
    requires base != 0.0
    ensures MovedBy(base, today, p)
  {
    var p := (today - base) / base * 100.0;
    assert base * p / 100.0 == today - base;
    p
  }

  /** The two changes agree except on a zero baseline with a non-zero current price. */
  lemma ChangesAgreeOffZeroBaseline(today: Option<real>, base: Option<real>)
    ensures OneMonthChange(today, base) != FiveDayChange(today, base) <==>
              today.Some? && base.Some? && base.value == 0.0 && today.value != 0.0
  {
  }

  /** The worked examples: 100 over 0 is infinite, 0 over 0 is 0 %, 110 over 100 is 10 %. */
  lemma ChangeExamples()
    ensures FiveDayChange(Some(100.0), Some(0.0)) == Infinite
    ensures FiveDayChange(Some(0.0), Some(0.0)) == Pct(0.0)
    ensures FiveDayChange(None, Some(100.0)) == NoChange
    ensures FiveDayChange(Some(110.0), Some(100.0)) == Pct(10.0)
    ensures OneMonthChange(Some(100.0), Some(0.0)) == Pct(0.0)
  {
  }

  /** Why a fetch failed; the exception payload stands for its type name and first argument. */
  datatype FetchError =
    | TickerInitReturnedNone
    | TickerInitError(exception: string)
    | InfoReturnedNone
    | InvalidInfo
    | InfoFetchError(exception: string)
    | HistoryFetchError(exception: string)

  /** The dictionary `get_stock_data_for_ticker` returns. */
  datatype TickerData = TickerData(
    todayPrice: Option<real>,
    price5d: Option<real>,
    price1mo: Option<real>,
    change5d: Change,
    change1mo: Change,
    error: Option<FetchError>)

  /** The outcome of `yf.Ticker(adjusted_ticker)`. */
  datatype TickerInit = InitRaised(exception: string) | InitReturnedNone | Initialised

  /** The outcome of `stock.info`; the record keeps the three keys that are checked. */
  datatype InfoFetch =
    | InfoRaised(exception: string)
    | InfoIsNone
    | Info(marketState: Option<string>, regularMarketPrice: Option<real>, currency: Option<string>)

  /**
   * The three target dates, computed from one captured "now", or the
   * exception raised while computing them or while resolving the prices.
   */
  datatype Lookback = LookbackRaised(exception: string) | Dates(today: int, fiveDaysAgo: int, oneMonthAgo: int)

  /** `default_error_return` with its error set. */
  function Failed(e: FetchError): TickerData
  {
    TickerData(None, None, None, NoChange, NoChange, Some(e))
  }

  predicate InfoMissing(info: InfoFetch)
    requires info.Info?
  {
    info.marketState.None? && info.regularMarketPrice.None? && info.currency.None?
  }

  /** `get_stock_data_for_ticker` with the provider's behaviour for this ticker given. */
  function GetStockData(init: TickerInit, info: InfoFetch, dates: Lookback, history: Provider): (r: TickerData)
    ensures r.error.None? <==> init.Initialised? && info.Info? && !InfoMissing(info) && dates.Dates?
    ensures r.error.Some? ==> r == Failed(r.error.value)
    ensures r.error.None? ==>
              && r.todayPrice == ClosestPrice(history, dates.today)
              && r.price5d == ClosestPrice(history, dates.fiveDaysAgo)
              && r.price1mo == ClosestPrice(history, dates.oneMonthAgo)
              && r.change5d == FiveDayChange(r.todayPrice, r.price5d)
              && r.change1mo == OneMonthChange(r.todayPrice, r.price1mo)
  {
    match init
    case InitRaised(e) => Failed(TickerInitError(e))
    case InitReturnedNone => Failed(TickerInitReturnedNone)
    case Initialised =>
      match info
      case InfoRaised(e) => Failed(InfoFetchError(e))
      case InfoIsNone => Failed(InfoReturnedNone)
      case Info(_, _, _) =>
        if InfoMissing(info) then Failed(InvalidInfo)
        else
          match dates
          case LookbackRaised(e) => Failed(HistoryFetchError(e))
          case Dates(today, fiveDaysAgo, oneMonthAgo) =>
            var priceToday := ClosestPrice(history, today);
            var price5d := ClosestPrice(history, fiveDaysAgo);
            var price1mo := ClosestPrice(history, oneMonthAgo);
            TickerData(priceToday, price5d, price1mo,
                       FiveDayChange(priceToday, price5d), OneMonthChange(priceToday, price1mo), None)
  }

  /**
   * A successful record carries changes only when today's price is known;
   * an unknown price today is not an error: the record still reports
   * success, with both changes absent.
   */
  lemma NoTodayPriceIsNotAnError(init: TickerInit, info: InfoFetch, dates: Lookback, history: Provider)
    requires init.Initialised? && info.Info? && !InfoMissing(info) && dates.Dates?
    requires ClosestPrice(history, dates.today).None?
    ensures var r := GetStockData(init, info, dates, history);
            r.error.None? && r.todayPrice.None? && r.change5d.NoChange? && r.change1mo.NoChange?
  {
  }

  /** A change is only ever infinite in the five-day column, and then today's price is non-zero. */
  lemma InfiniteOnlyFiveDay(init: TickerInit, info: InfoFetch, dates: Lookback, history: Provider)
    ensures var r := GetStockData(init, info, dates, history);
            !r.change1mo.Infinite?
            && (r.change5d.Infinite? ==> r.price5d == Some(0.0) && r.todayPrice.Some? && r.todayPrice.value != 0.0)
  {
  }
}
