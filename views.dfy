/** The dashboard: `get_currency_rates`, `get_stock_prices` and `get_dashboard_data`, with every
    HTTP exchange replaced by the reply it produced. */
module Views {

  import opened Wrappers
  import opened Seqs
  import opened Calendar
  import opened DateText
  import opened Ledger
  import opened Utils

  /** One entry of a user list (`user_currencies` or `user_stocks`) and the reply its request got. */
  datatype Fetched<R> = Fetched(symbol: string, reply: R)

  // ---------------------------------------------------------------- currency rates

  /** How a request to the exchange-rate service ended: an `HTTPError` from `raise_for_status`,
      another `RequestException`, any other exception (a `rates` value that is not a dictionary, so that `.get` fails, say), a body
      without `rates`, or a body with `rates` whose `RUB` entry is `rub` (None when absent). */
  datatype CurrencyReply =
    | HttpError(detail: string)
    | RequestError(detail: string)
    | OtherError(detail: string)
    | NoRates
    | Rates(rub: Option<real>)

  datatype CurrencyRate = CurrencyRate(currency: string, rate: real)

  /** A reply that makes `get_currency_rates` return its error dictionary at once. */
  predicate Aborts(r: CurrencyReply)
  {
    !r.Rates?
  }

  function AbortMessage(r: CurrencyReply): string
    requires Aborts(r)
  {
    match r
    case HttpError(d) => "HTTP error occurred: " + d
    case RequestError(d) => "Request error occurred: " + d
    case OtherError(d) => "An error occurred: " + d
    case NoRates => "Курсы не обнаружены в данных ответа"
  }

  /** `if rate:` — a RUB rate that is present and not zero. */
  predicate KeepsRate(f: Fetched<CurrencyReply>)
  {
    f.reply.Rates? && f.reply.rub.Some? && f.reply.rub.value != 0.0
  }

  function RateOf(f: Fetched<CurrencyReply>): CurrencyRate
  {
    CurrencyRate(f.symbol, if f.reply.Rates? && f.reply.rub.Some? then f.reply.rub.value else 0.0)
  }

  /** The list `rates` the loop builds, one currency after the other. */
  function RatesOf(fs: seq<Fetched<CurrencyReply>>): seq<CurrencyRate>
  {
    if fs == [] then []
    else RatesOf(fs[..|fs| - 1]) + (if KeepsRate(fs[|fs| - 1]) then [RateOf(fs[|fs| - 1])] else [])
  }

  /** The position of the first reply that aborts, `|fs|` when there is none. */
  function FirstAbort(fs: seq<Fetched<CurrencyReply>>): (k: nat)
    ensures k <= |fs|
    ensures k < |fs| ==> Aborts(fs[k].reply)
    ensures forall j :: 0 <= j < k ==> !Aborts(fs[j].reply)
  {
    if fs == [] then 0
    else if Aborts(fs[0].reply) then 0
    else 1 + FirstAbort(fs[1..])
  }

  /** What `get_currency_rates` returns: the first abort's error, or all the rates kept. */
  function CurrencyRates(fs: seq<Fetched<CurrencyReply>>): Result<seq<CurrencyRate>, string>
  {
    var k := FirstAbort(fs);
    if k < |fs| then Failure(AbortMessage(fs[k].reply)) else Success(RatesOf(fs))
  }

  method GetCurrencyRates(fs: seq<Fetched<CurrencyReply>>) returns (r: Result<seq<CurrencyRate>, string>)
    ensures r == CurrencyRates(fs)
  {
    var rates: seq<CurrencyRate> := [];
    for i := 0 to |fs|
      invariant forall j :: 0 <= j < i ==> !Aborts(fs[j].reply)
      invariant rates == RatesOf(fs[..i])
    {
      var reply := fs[i].reply;
      if Aborts(reply) {
        return Failure(AbortMessage(reply));
      }
      if reply.rub.Some? && reply.rub.value != 0.0 {
        rates := rates + [CurrencyRate(fs[i].symbol, reply.rub.value)];
      }
      assert fs[..i + 1][..i] == fs[..i];
    }
    assert fs[..|fs|] == fs;
    r := Success(rates);
  }

  /** The error is returned exactly when some reply aborts, and it is the first one's. */
  lemma CurrencyRatesSpec(fs: seq<Fetched<CurrencyReply>>)
    ensures CurrencyRates(fs).Failure? <==> exists i :: 0 <= i < |fs| && Aborts(fs[i].reply)
    ensures CurrencyRates(fs).Failure? ==>
      (exists k :: 0 <= k < |fs| && Aborts(fs[k].reply) &&
        (forall j :: 0 <= j < k ==> !Aborts(fs[j].reply)) && CurrencyRates(fs).error == AbortMessage(fs[k].reply))
    ensures CurrencyRates(fs).Success? ==> CurrencyRates(fs).value == RatesOf(fs)
  {
    var k := FirstAbort(fs);
    if k < |fs| {
      assert Aborts(fs[k].reply);
    }
  }

  /** The rates are the kept currencies, each with its RUB rate, in order. */
  lemma {:induction false} RatesOfKept(fs: seq<Fetched<CurrencyReply>>) returns (kept: seq<Fetched<CurrencyReply>>)
    ensures kept == Filter(fs, KeepsRate)
    ensures forall i :: 0 <= i < |kept| ==> KeepsRate(kept[i]) && RateOf(kept[i]) == CurrencyRate(kept[i].symbol, kept[i].reply.rub.value)
    ensures RatesOf(fs) == seq(|kept|, i requires 0 <= i < |kept| => RateOf(kept[i]))
  {
    kept := Filter(fs, KeepsRate);
    FilterMembers(fs, KeepsRate);
    if fs != [] {
      var init := fs[..|fs| - 1];
      var last := fs[|fs| - 1];
      var keptInit := RatesOfKept(init);
      assert fs == init + [last];
      FilterAppend(init, [last], KeepsRate);
      assert Filter([last], KeepsRate) == if KeepsRate(last) then [last] else [] by {
        assert [last][1..] == [];
      }
    }
  }

  // ---------------------------------------------------------------- stock prices

  /** How a request to the market-data service ended: any exception (HTTP, request or other,
      each only logged), a body whose `data` is missing or empty, or a first record whose
      `close` is `price` (None for a JSON null, which the source appends as it is). */
  datatype StockReply = Failed(detail: string) | NoData | Closing(price: Option<real>)

  datatype StockPrice = StockPrice(stock: string, price: Option<real>)

  predicate Priced(f: Fetched<StockReply>)
  {
    f.reply.Closing?
  }

  function PriceOf(f: Fetched<StockReply>): StockPrice
  {
    StockPrice(f.symbol, if f.reply.Closing? then f.reply.price else None)
  }

  /** The list `stock_prices` the loop builds. */
  function PricesOf(fs: seq<Fetched<StockReply>>): seq<StockPrice>
  {
    if fs == [] then []
    else PricesOf(fs[..|fs| - 1]) + (if Priced(fs[|fs| - 1]) then [PriceOf(fs[|fs| - 1])] else [])
  }

  /** What `get_stock_prices` returns; `keyPresent` is whether `MARKETSTACK_API_KEY` is set and
      not empty. */
  function StockPrices(keyPresent: bool, fs: seq<Fetched<StockReply>>): Result<seq<StockPrice>, string>
  {
    if keyPresent then Success(PricesOf(fs)) else Failure("API key is missing")
  }

  method GetStockPrices(keyPresent: bool, fs: seq<Fetched<StockReply>>) returns (r: Result<seq<StockPrice>, string>)
    ensures r == StockPrices(keyPresent, fs)
  {
    if !keyPresent {
      return Failure("API key is missing");
    }
    var prices: seq<StockPrice> := [];
    for i := 0 to |fs|
      invariant prices == PricesOf(fs[..i])
    {
      assert fs[..i + 1][..i] == fs[..i];
      match fs[i].reply
      case Failed(_) =>
        continue;
      case NoData =>
        continue;
      case Closing(price) =>
        prices := prices + [StockPrice(fs[i].symbol, price)];
    }
    assert fs[..|fs|] == fs;
    r := Success(prices);
  }

  /** The prices are those of the stocks whose request succeeded with data, in user-list order. */
  lemma {:induction false} PricesOfPriced(fs: seq<Fetched<StockReply>>) returns (priced: seq<Fetched<StockReply>>)
    ensures priced == Filter(fs, Priced)
    ensures forall i :: 0 <= i < |priced| ==> priced[i].reply.Closing? && PriceOf(priced[i]) == StockPrice(priced[i].symbol, priced[i].reply.price)
    ensures PricesOf(fs) == seq(|priced|, i requires 0 <= i < |priced| => PriceOf(priced[i]))
  {
    priced := Filter(fs, Priced);
    FilterMembers(fs, Priced);
    if fs != [] {
      var init := fs[..|fs| - 1];
      var last := fs[|fs| - 1];
      var pricedInit := PricesOfPriced(init);
      assert fs == init + [last];
      FilterAppend(init, [last], Priced);
      assert Filter([last], Priced) == if Priced(last) then [last] else [] by {
        assert [last][1..] == [];
      }
    }
  }

  lemma {:induction false} PricesOfAppend(a: seq<Fetched<StockReply>>, b: seq<Fetched<StockReply>>)
    ensures PricesOf(a + b) == PricesOf(a) + PricesOf(b)
    decreases |b|
  {
    if b == [] {
      assert a + b == a;
    } else {
      var init := b[..|b| - 1];
      assert (a + b)[..|a + b| - 1] == a + init;
      PricesOfAppend(a, init);
    }
  }

  /** A stock whose request fails or brings no data is skipped, and the loop goes on with the
      next: the stocks on either side are priced as if it were not in the list. */
  lemma SkipsUnpriced(a: seq<Fetched<StockReply>>, f: Fetched<StockReply>, b: seq<Fetched<StockReply>>)
    requires !f.reply.Closing?
    ensures PricesOf(a + [f] + b) == PricesOf(a) + PricesOf(b)
  {
    PricesOfAppend(a + [f], b);
    assert PricesOf(a + [f]) == PricesOf(a) by {
      assert (a + [f])[..|a + [f]| - 1] == a;
    }
  }

  // ---------------------------------------------------------------- dashboard

  /** `target_date` as given: a string to parse, or a `datetime` used as it is. */
  datatype DateArg = Text(text: string) | Moment(at: DateTime)

  /** The dashboard dictionary; the two lists from the services are `[]` whenever the service
      answered with an error. */
  datatype Snapshot = Snapshot(
    greeting: string,
    cards: seq<CardSummary>,
    topTransactions: seq<TopTxn>,
    currencyRates: seq<CurrencyRate>,
    stockPrices: seq<StockPrice>)

  const BadDateFormat := "Неверный формат даты. Используйте формат 'YYYY-MM-DD HH:MM:SS'."

  function TargetMoment(target: DateArg): Option<DateTime>
  {
    match target
    case Text(s) => ParseDateTime(s)
    case Moment(t) => Some(t)
  }

  /** `get_dashboard_data`. The operations table, the current hour, the settings lists with the
      replies their requests got, and whether the stock key is set come in as parameters. */
  method GetDashboardData(
      target: DateArg, table: seq<Txn>, hour: int,
      currencies: seq<Fetched<CurrencyReply>>, stockKey: bool, stocks: seq<Fetched<StockReply>>)
    returns (r: Result<Snapshot, string>)
    ensures r.Failure? <==> TargetMoment(target).None?
    ensures r.Failure? ==> r.error == BadDateFormat
    ensures r.Success? ==>
      var slice := FilterByDate(table, TargetMoment(target).value);
      && r.value.greeting == Greeting(hour)
      && r.value.cards == CardReport(slice)
      && (exists picked :: IsRanking(slice, picked) && RendersRanking(slice, picked, Success(r.value.topTransactions)))
    ensures r.Success? && (exists i :: 0 <= i < |currencies| && Aborts(currencies[i].reply)) ==>
      r.value.currencyRates == []
    ensures r.Success? && (forall i :: 0 <= i < |currencies| ==> !Aborts(currencies[i].reply)) ==>
      r.value.currencyRates == RatesOf(currencies)
    ensures r.Success? && !stockKey ==> r.value.stockPrices == []
    ensures r.Success? && stockKey ==> r.value.stockPrices == PricesOf(stocks)
  {
    var at := TargetMoment(target);
    if at.None? {
      return Failure(BadDateFormat);
    }
    var slice := FilterByDate(table, at.value);
    FilteredRowsDated(table, at.value);
    var cards := CalculateCardData(slice);
    var top := TopFiveTransact(slice);
    var rates := GetCurrencyRates(currencies);
    var prices := GetStockPrices(stockKey, stocks);
    CurrencyRatesSpec(currencies);
    // `.get("currency_rates", [])` and `.get("stock_prices", [])` on the two answers
    var rateList := if rates.Success? then rates.value else [];
    var priceList := if prices.Success? then prices.value else [];
    r := Success(Snapshot(Greeting(hour), cards, top.value, rateList, priceList));
  }

  /** A date without a time of day is refused. */
  lemma DateOnlyRefused()
    ensures TargetMoment(Text("2021-12-20")).None?
  {
  }

  lemma RenderedTarget()
    ensures RenderDateTime(Timestamp(2021, 12, 20, 17 * 3600)) == "2021-12-20 17:00:00"
  {
    assert Pad4(2021) == "2021" && Pad2(12) == "12" && Pad2(20) == "20";
    assert Pad2(17) == "17" && Pad2(0) == "00";
  }

  /** The full form is read to the second. */
  lemma FullDateRead()
    ensures TargetMoment(Text("2021-12-20 17:00:00")) == Some(Timestamp(2021, 12, 20, 17 * 3600))
  {
    var t: DateTime := Timestamp(2021, 12, 20, 17 * 3600);
    RenderedTarget();
    ParseRenderDateTime(t);
  }
}
