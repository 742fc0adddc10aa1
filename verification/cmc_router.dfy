/**
 * The CoinMarketCap router (`src/server/trpc/api/routers/cmc/router.ts`):
 * the request URLs it builds, the merge of one quotes response per convert
 * currency into a single result, the failure rules of the global-metrics
 * query and the paging offset of the coin list.
 *
 * `fetch` and `Response.json()` are parameters: a response body is `None`
 * when `json()` rejects. The API base URL comes from a constants module
 * that is not part of this model, so it is a parameter too. Field values the
 * router only passes along (prices, dominance figures, coin records) are
 * type parameters.
 */
module CmcRouter {
  import opened Wrappers
  import opened Ascii

  /** Why a query throws. */
  datatype CmcError =
    | InvalidJson                 // `json()` rejected
    | MissingData                 // a quotes response without `data`
    | NoResponses                 // `results[0]` is undefined
    | MissingEntry                // `result.data[key]` is undefined in a later response
    | FearGreedFailed(status: int)
    | MetricsFailed(status: int)
    | MissingMetrics              // the metrics body lacks `data` or `data.quote`: reading from it throws
    | CoinListFailed(status: int)
    | BadRequest                  // the input schema rejects the input

  // =====================================================================
  // getCryptoInfos: request URLs
  // =====================================================================

  /** `ids.join(",")` with every id rendered in base 10. */
  function IdsParam(ids: seq<int>): string
  {
    Join(seq(|ids|, (k: int) requires 0 <= k < |ids| => IntToDecimal(ids[k])), ',')
  }

  /** The ids can be read back from the joined parameter, in input order. */
  lemma IdsParamRoundTrip(ids: seq<int>)
    requires |ids| >= 1
    ensures var parts := Split(IdsParam(ids), ',');
            && |parts| == |ids|
            && forall k :: 0 <= k < |ids| ==> parts[k] == IntToDecimal(ids[k]) && ParseDecimal(parts[k]) == ids[k]
  {
    var rendered := seq(|ids|, (k: int) requires 0 <= k < |ids| => IntToDecimal(ids[k]));
    assert forall k :: 0 <= k < |rendered| ==> ',' !in rendered[k] by {
      forall k | 0 <= k < |rendered|
        ensures ',' !in rendered[k]
      {
        var s := rendered[k];
        assert forall i :: 0 <= i < |s| ==> IsDigit(s[i]) || s[i] == '-';
      }
    }
    SplitJoin(rendered, ',');
    forall k | 0 <= k < |ids|
      ensures ParseDecimal(rendered[k]) == ids[k]
    {
      ParseDecimalRoundTrip(ids[k]);
    }
  }

  /** With no ids the parameter is empty: `[].join(",")` is `""`. */
  lemma IdsParamEmpty()
    ensures IdsParam([]) == ""
  {
  }

  /** The `convert` list after the schema's default. */
  function ConvertList(convert: Option<seq<string>>): (r: seq<string>)
    ensures convert.None? ==> r == ["USD"]
    ensures convert.Some? ==> r == convert.value
  {
    convert.GetOr(["USD"])
  }

  function QuotesUrl(apiUrl: string, idsParam: string, currency: string): string
  {
    apiUrl + "/v2/cryptocurrency/quotes/latest?id=" + idsParam + "&convert=" + currency
  }

  /** One request per convert currency, in order, each carrying all ids. */
  function CryptoInfoUrls(apiUrl: string, ids: seq<int>, convert: Option<seq<string>>): (r: seq<string>)
    ensures |r| == |ConvertList(convert)|
    ensures forall k :: 0 <= k < |r| ==> r[k] == QuotesUrl(apiUrl, IdsParam(ids), ConvertList(convert)[k])
  {
    var currencies := ConvertList(convert);
    seq(|currencies|, (k: int) requires 0 <= k < |currencies| => QuotesUrl(apiUrl, IdsParam(ids), currencies[k]))
  }

  // =====================================================================
  // getCryptoInfos: merging the responses
  // =====================================================================

  /** One coin of a quotes response: its other fields and its quotes keyed by currency. */
  datatype Entry<I, Q> = Entry(info: I, quote: map<string, Q>)

  /** A response's `data`: entries keyed by coin id. */
  type CoinData<I, Q> = map<string, Entry<I, Q>>

  /** A parsed quotes response; `data` may be missing. */
  datatype QuotesBody<I, Q> = QuotesBody(data: Option<CoinData<I, Q>>)

  /** Every response lists `key`. */
  predicate AllList<I, Q>(datas: seq<CoinData<I, Q>>, key: string) {
    forall i :: 0 <= i < |datas| ==> key in datas[i]
  }

  /**
   * The quotes of `key` gathered over the responses in order, a later
   * response overwriting an earlier one for the same currency.
   */
  function MergeQuote<I, Q>(datas: seq<CoinData<I, Q>>, key: string): map<string, Q>
    requires AllList(datas, key)
  {
    if |datas| == 0 then map[] else MergeQuote(datas[..|datas| - 1], key) + datas[|datas| - 1][key].quote
  }

  /**
   * A currency is in the merged quote exactly when some response quotes it,
   * and its value comes from the last response that does.
   */
  lemma {:induction false} MergeQuoteSources<I, Q>(datas: seq<CoinData<I, Q>>, key: string, c: string)
    requires AllList(datas, key)
    ensures c in MergeQuote(datas, key) <==> exists i :: 0 <= i < |datas| && c in datas[i][key].quote
    ensures forall i :: 0 <= i < |datas| && c in datas[i][key].quote
                        && (forall j :: i < j < |datas| ==> c !in datas[j][key].quote)
                        ==> c in MergeQuote(datas, key) && MergeQuote(datas, key)[c] == datas[i][key].quote[c]
  {
    if |datas| > 0 {
      var n := |datas| - 1;
      var init := datas[..n];
      assert AllList(init, key);
      MergeQuoteSources(init, key, c);
      if c !in datas[n][key].quote {
        if exists i :: 0 <= i < |datas| && c in datas[i][key].quote {
          var i :| 0 <= i < |datas| && c in datas[i][key].quote;
          assert init[i] == datas[i];
        }
      }
      forall i | 0 <= i < |datas| && c in datas[i][key].quote
                 && (forall j :: i < j < |datas| ==> c !in datas[j][key].quote)
        ensures c in MergeQuote(datas, key) && MergeQuote(datas, key)[c] == datas[i][key].quote[c]
      {
        if i < n {
          assert init[i] == datas[i];
          assert forall j :: i < j < |init| ==> init[j] == datas[j];
        }
      }
    }
  }

  /** The merged result: the first response's coins, each with its quotes merged over all responses. */
  ghost predicate IsMerged<I, Q>(datas: seq<CoinData<I, Q>>, merged: CoinData<I, Q>)
    requires |datas| >= 1
  {
    && merged.Keys == datas[0].Keys
    && forall key :: key in merged ==> AllList(datas, key) && merged[key] == Entry(datas[0][key].info, MergeQuote(datas, key))
  }

  /** Some coin of the first response is missing from a response. */
  predicate SomeEntryMissing<I, Q>(datas: seq<CoinData<I, Q>>)
    requires |datas| >= 1
  {
    exists key, i :: key in datas[0] && 0 <= i < |datas| && key !in datas[i]
  }

  /**
   * The loops of `getCryptoInfos` over the first response's coins and,
   * for each, over all responses. Coins are visited in an unspecified
   * order; the outcome does not depend on it.
   */
  method MergeResponses<I, Q>(datas: seq<CoinData<I, Q>>) returns (r: Result<CoinData<I, Q>, CmcError>)
    requires |datas| >= 1
    ensures r.Err? <==> SomeEntryMissing(datas)
    ensures r.Err? ==> r.error == MissingEntry
    ensures r.Ok? ==> IsMerged(datas, r.value)
  {
    var first := datas[0];
    var edited: CoinData<I, Q> := map[];
    var todo := first.Keys;
    while todo != {}
      invariant todo <= first.Keys
      invariant edited.Keys == first.Keys - todo
      invariant forall key :: key in edited ==> AllList(datas, key) && edited[key] == Entry(first[key].info, MergeQuote(datas, key))
      decreases todo
    {
      var key :| key in todo;
      var quoteObj: map<string, Q> := map[];
      for i := 0 to |datas|
        invariant AllList(datas[..i], key)
        invariant quoteObj == MergeQuote(datas[..i], key)
      {
        if key !in datas[i] {
          assert SomeEntryMissing(datas);
          return Err(MissingEntry);
        }
        // `for (const currency in quote) quoteObj[currency] = quote[currency]`
        assert datas[..i + 1][..i] == datas[..i];
        quoteObj := quoteObj + datas[i][key].quote;
      }
      assert datas[..|datas|] == datas;
      edited := edited[key := Entry(first[key].info, quoteObj)];
      todo := todo - {key};
    }
    r := Ok(edited);
    assert !SomeEntryMissing(datas) by {
      forall key, i | key in first && 0 <= i < |datas|
        ensures key in datas[i]
      {
        assert AllList(datas, key);
      }
    }
  }

  predicate AllParsed<I, Q>(bodies: seq<Option<QuotesBody<I, Q>>>) {
    forall k :: 0 <= k < |bodies| ==> bodies[k].Some?
  }

  predicate AllHaveData<I, Q>(bodies: seq<Option<QuotesBody<I, Q>>>)
    requires AllParsed(bodies)
  {
    forall k :: 0 <= k < |bodies| ==> bodies[k].value.data.Some?
  }

  function DataOf<I, Q>(bodies: seq<Option<QuotesBody<I, Q>>>): (r: seq<CoinData<I, Q>>)
    requires AllParsed(bodies) && AllHaveData(bodies)
    ensures |r| == |bodies|
    ensures forall k :: 0 <= k < |r| ==> Some(QuotesBody(Some(r[k]))) == bodies[k]
  {
    seq(|bodies|, (k: int) requires 0 <= k < |bodies| => bodies[k].value.data.value)
  }

  /** The parsed bodies of the responses to `urls`, in request order. */
  function FetchAll<T>(urls: seq<string>, fetchBody: string -> T): (r: seq<T>)
    ensures |r| == |urls| && forall k :: 0 <= k < |urls| ==> r[k] == fetchBody(urls[k])
  {
    seq(|urls|, (k: int) requires 0 <= k < |urls| => fetchBody(urls[k]))
  }

  /**
   * `getCryptoInfos`: fetch one response per convert currency, reject if a
   * body is not JSON or lacks `data`, then merge. `fetchQuotes` maps a URL
   * to its parsed body, or to `None` when `json()` rejects.
   */
  method GetCryptoInfos<I, Q>(apiUrl: string, ids: seq<int>, convert: Option<seq<string>>,
                              fetchQuotes: string -> Option<QuotesBody<I, Q>>)
    returns (r: Result<CoinData<I, Q>, CmcError>)
    ensures var bodies := FetchAll(CryptoInfoUrls(apiUrl, ids, convert), fetchQuotes);
            && (!AllParsed(bodies) <==> r == Err(InvalidJson))
            && (AllParsed(bodies) && !AllHaveData(bodies) <==> r == Err(MissingData))
            && (|ConvertList(convert)| == 0 <==> r == Err(NoResponses))
            && (r == Err(MissingEntry) <==>
                  AllParsed(bodies) && AllHaveData(bodies) && |bodies| >= 1 && SomeEntryMissing(DataOf(bodies)))
            && (r.Ok? <==>
                  AllParsed(bodies) && AllHaveData(bodies) && |bodies| >= 1 && !SomeEntryMissing(DataOf(bodies)))
            && (r.Ok? ==> AllParsed(bodies) && AllHaveData(bodies) && |bodies| >= 1
                          && IsMerged(DataOf(bodies), r.value))
  {
    var urls := CryptoInfoUrls(apiUrl, ids, convert);
    var bodies := FetchAll(urls, fetchQuotes);
    if !AllParsed(bodies) {
      return Err(InvalidJson);
    }
    if !AllHaveData(bodies) {
      return Err(MissingData);
    }
    if |bodies| == 0 {
      return Err(NoResponses);
    }
    r := MergeResponses(DataOf(bodies));
  }

  /** Without `convert` there is a single request, in US dollars. */
  lemma DefaultConvertIsUsd(apiUrl: string, ids: seq<int>)
    ensures CryptoInfoUrls(apiUrl, ids, None) == [QuotesUrl(apiUrl, IdsParam(ids), "USD")]
  {
  }

  // =====================================================================
  // getGlobalMetrics
  // =====================================================================

  /** What `fetch` resolves to: the `ok` flag, the status, and the body `json()` yields (`None` when it rejects). */
  datatype HttpResponse<T> = HttpResponse(ok: bool, status: int, body: Option<T>)

  /** A parsed body whose payload sits under `data`: the fear-and-greed body and the coin-list body. */
  datatype DataBody<D> = DataBody(data: D)

  /** The global-metrics `data`: the dominance figures and the totals per currency; `quote` may be missing. */
  datatype MetricsData<N, T> = MetricsData(btcDominance: N, ethDominance: N, quote: Option<map<string, T>>)

  /** A parsed global-metrics body; `data` may be missing. */
  datatype MetricsBody<N, T> = MetricsBody(data: Option<MetricsData<N, T>>)

  /** The query's answer; `fearGreedIndex` is the fear-and-greed body's `data`, `totals` is the spread of `quote[convert]`, absent when that currency is not quoted. */
  datatype GlobalMetrics<F, N, T> = GlobalMetrics(fearGreedIndex: F, btcDominance: N, ethDominance: N, totals: Option<T>)

  function MetricsUrl(apiUrl: string, convert: Option<string>): string
  {
    apiUrl + "/v1/global-metrics/quotes/latest?convert=" + convert.GetOr("USD")
  }

  function FearAndGreedUrl(apiUrl: string): string
  {
    apiUrl + "/v3/fear-and-greed/latest"
  }

  /** A metrics body the answer can be read from: it has `data`, and `data` has `quote`. */
  predicate HasMetrics<N, T>(body: MetricsBody<N, T>) {
    body.data.Some? && body.data.value.quote.Some?
  }

  /**
   * `getGlobalMetrics`: both responses must be ok (the fear-and-greed one is
   * checked first), then both bodies are parsed, then the metrics are read
   * from `data` and `data.quote`.
   */
  function GetGlobalMetrics<F, N, T>(convert: Option<string>, fearGreed: HttpResponse<DataBody<F>>,
                                     metrics: HttpResponse<MetricsBody<N, T>>): (r: Result<GlobalMetrics<F, N, T>, CmcError>)
    ensures !fearGreed.ok <==> r == Err(FearGreedFailed(fearGreed.status))
    ensures fearGreed.ok && !metrics.ok <==> r == Err(MetricsFailed(metrics.status))
    ensures fearGreed.ok && metrics.ok && (fearGreed.body.None? || metrics.body.None?) <==> r == Err(InvalidJson)
    ensures r == Err(MissingMetrics) <==> fearGreed.ok && metrics.ok && fearGreed.body.Some? && metrics.body.Some?
                                          && !HasMetrics(metrics.body.value)
    ensures r.Ok? <==> fearGreed.ok && metrics.ok && fearGreed.body.Some? && metrics.body.Some? && HasMetrics(metrics.body.value)
    ensures r.Ok? ==> && var data := metrics.body.value.data.value;
                      && r.value.fearGreedIndex == fearGreed.body.value.data
                      && r.value.btcDominance == data.btcDominance
                      && r.value.ethDominance == data.ethDominance
                      && (r.value.totals.Some? <==> convert.GetOr("USD") in data.quote.value)
                      && (r.value.totals.Some? ==> r.value.totals.value == data.quote.value[convert.GetOr("USD")])
  {
    var currency := convert.GetOr("USD");
    if !fearGreed.ok then Err(FearGreedFailed(fearGreed.status))
    else if !metrics.ok then Err(MetricsFailed(metrics.status))
    else if fearGreed.body.None? || metrics.body.None? then Err(InvalidJson)
    else if !HasMetrics(metrics.body.value) then Err(MissingMetrics)
    else
      var data := metrics.body.value.data.value;
      var quote := data.quote.value;
      Ok(GlobalMetrics(fearGreed.body.value.data, data.btcDominance, data.ethDominance,
                       if currency in quote then Some(quote[currency]) else None))
  }

  // =====================================================================
  // getCoinList
  // =====================================================================

  const PageSize: nat := 100

  /** `((page || 1) - 1) * limit + 1`: the 1-based rank of the page's first coin. */
  function CoinListStart(page: nat): (start: int)
    ensures start >= 1 && start % PageSize == 1
    ensures (start - 1) / PageSize + 1 == if page == 0 then 1 else page
  {
    ((if page == 0 then 1 else page) - 1) * PageSize + 1
  }

  /** Consecutive pages ask for adjacent, non-overlapping windows of 100 coins. */
  lemma CoinListPagesAdjacent(page: nat)
    requires page >= 1
    ensures CoinListStart(page + 1) == CoinListStart(page) + PageSize
  {
  }

  /** Distinct pages ask for distinct windows, except that pages 0 and 1 coincide. */
  lemma CoinListStartInjective(p: nat, q: nat)
    requires CoinListStart(p) == CoinListStart(q)
    ensures p == q || (p <= 1 && q <= 1)
  {
  }

  function CoinListUrl(apiUrl: string, convert: string, start: int): string
  {
    apiUrl + "/v1/cryptocurrency/listings/latest?convert=" + convert + "&limit=100&start=" + IntToDecimal(start)
  }

  /**
   * The page the input schema hands to `getCoinList`, `None` when it rejects
   * the input. An explicit page must be a positive integer. An omitted page
   * gets the default 0; zod 3 runs a default through `.positive()` and so
   * rejects it, while zod 4 passes it on unchecked. `defaultIsChecked`
   * chooses between the two.
   */
  function SchemaPage(page: Option<int>, defaultIsChecked: bool): (r: Option<nat>)
    ensures r.None? <==> (page.Some? && page.value <= 0) || (page.None? && defaultIsChecked)
    ensures r.Some? ==> r.value == if page.Some? then page.value else 0
  {
    match page
    case Some(p) => if p <= 0 then None else Some(p)
    case None => if defaultIsChecked then None else Some(0)
  }

  /** The coin-list query's answer, `{coin_list: data}`. */
  datatype CoinList<D> = CoinList(coinList: D)

  /**
   * `getCoinList`. The body is parsed before the status is checked, so an
   * unparsable failed response reports the parse error.
   */
  function GetCoinList<C>(apiUrl: string, convert: Option<string>, page: Option<int>, defaultIsChecked: bool,
                          fetchCoins: string -> HttpResponse<DataBody<C>>): (r: Result<CoinList<C>, CmcError>)
    ensures SchemaPage(page, defaultIsChecked).None? <==> r == Err(BadRequest)
    ensures SchemaPage(page, defaultIsChecked).Some? ==>
              && var response := fetchCoins(CoinListUrl(apiUrl, convert.GetOr("USD"),
                                                        CoinListStart(SchemaPage(page, defaultIsChecked).value)));
              && (response.body.None? ==> r == Err(InvalidJson))
              && (response.body.Some? && !response.ok ==> r == Err(CoinListFailed(response.status)))
              && (r.Ok? <==> response.ok && response.body.Some?)
              && (r.Ok? ==> r.value.coinList == response.body.value.data)
  {
    match SchemaPage(page, defaultIsChecked)
    case None => Err(BadRequest)
    case Some(p) =>
      var response := fetchCoins(CoinListUrl(apiUrl, convert.GetOr("USD"), CoinListStart(p)));
      match response.body
      case None => Err(InvalidJson)
      case Some(body) => if !response.ok then Err(CoinListFailed(response.status)) else Ok(CoinList(body.data))
  }

  /**
   * An omitted page is either rejected (a checked default) or read as the
   * first page: it then fetches exactly what page 1 fetches.
   */
  lemma OmittedPage<C>(apiUrl: string, convert: Option<string>, defaultIsChecked: bool,
                       fetchCoins: string -> HttpResponse<DataBody<C>>)
    ensures defaultIsChecked ==> GetCoinList(apiUrl, convert, None, defaultIsChecked, fetchCoins) == Err(BadRequest)
    ensures !defaultIsChecked ==>
              GetCoinList(apiUrl, convert, None, defaultIsChecked, fetchCoins) == GetCoinList(apiUrl, convert, Some(1), defaultIsChecked, fetchCoins)
  {
    assert CoinListStart(0) == CoinListStart(1);
  }

  /**
   * A failed response whose body is not JSON: the coin list reports the
   * parse error, the global metrics report the status.
   */
  lemma FailureReportsDiffer<N, T, C>(apiUrl: string, status: int, fg: HttpResponse<DataBody<()>>)
    requires fg.ok && fg.body.Some?
    ensures GetCoinList(apiUrl, None, Some(1), true, (url: string) => HttpResponse<DataBody<C>>.HttpResponse(false, status, None)) == Err(InvalidJson)
    ensures GetGlobalMetrics(None, fg, HttpResponse<MetricsBody<N, T>>.HttpResponse(false, status, None)) == Err(MetricsFailed(status))
  {
  }
}
