/** The records that flow between the components: chain rows, per-strike
    analytics, gamma levels and the historical context a scorer consumes.
    Python dicts keyed by ticker become sequences of `Keyed` entries in
    insertion order. */
module Records {
  import opened Common

  /** The `Type` column of a chain row. Anything other than CALL/PUT is `OtherType`. */
  datatype OptionType = Call | Put | OtherType

  /** Where the last trade sat relative to the quote. */
  datatype TradeSide = AskBuy | BidSell | NearAsk | NearBid | Mid

  /** One option leg of a fetch cycle. `days` is what parsing `expiration`
      against today gives (expiration minus today, in days), or `None` when
      the expiration is missing or unparseable; the clock itself is not part
      of the model. Missing numeric fields are already 0 (the `or 0` idiom). */
  datatype Contract = Contract(
    symbol: string,
    underlyingPrice: real,
    expiration: string,
    days: Option<int>,
    strike: real,
    kind: OptionType,
    tradeSide: TradeSide,
    volume: real,
    openInterest: real,
    delta: real,
    gamma: real,
    theta: real,
    vega: real)

  /** Open-interest-weighted Greek totals of one strike. */
  datatype StrikeTotals = StrikeTotals(
    totalDelta: real,
    totalGamma: real,
    totalTheta: real,
    totalVega: real,
    oi: real,
    volume: real)

  datatype StrikeEntry = StrikeEntry(strike: real, totals: StrikeTotals)

  /** One ticker's aggregated analytics: its price and its strikes in first-seen order. */
  datatype Analytics = Analytics(price: real, strikes: seq<StrikeEntry>)

  /** The call wall (most positive cell) and put wall (most negative cell) of one ticker. */
  datatype GammaLevels = GammaLevels(
    price: real,
    posStrike: Option<real>,
    posValue: real,
    negStrike: Option<real>,
    negValue: real)

  /** Net GEX as used downstream: the sum of the two wall values only. */
  function NetGex(g: GammaLevels): real
  {
    g.posValue + g.negValue
  }

  /** Short-term trend of net GEX. */
  datatype Momentum = Momentum(trend: real, samples: int, startGex: real, endGex: real)

  /** What the scorer reads from the history store for one ticker. */
  datatype HistoricalContext = HistoricalContext(
    gexPercentile: real,
    momentum: Option<Momentum>,
    ivRank: real,
    previousPcRatio: Option<real>)

  /** The neutral context used when history is unavailable. */
  const DefaultContext: HistoricalContext := HistoricalContext(0.5, None, 0.5, None)

  /** One entry of a dict keyed by ticker. */
  datatype Keyed<T> = Keyed(ticker: string, value: T)

  /** `d.get(ticker)`: the value stored under `t`, if any. */
  function Lookup<T>(entries: seq<Keyed<T>>, t: string): (r: Option<T>)
    ensures r.Some? <==> exists i :: 0 <= i < |entries| && entries[i].ticker == t
    ensures r.Some? ==> exists i :: 0 <= i < |entries| && entries[i] == Keyed(t, r.value)
  {
    if |entries| == 0 then None
    else if entries[0].ticker == t then Some(entries[0].value)
    else
      var r := Lookup(entries[1..], t);
      assert forall i :: 1 <= i < |entries| ==> entries[i] == entries[1..][i - 1];
      r
  }

  /** Dict keys are unique. */
  predicate DistinctTickers<T>(entries: seq<Keyed<T>>)
  {
    forall i, j :: 0 <= i < j < |entries| ==> entries[i].ticker != entries[j].ticker
  }

  lemma LookupDistinct<T>(entries: seq<Keyed<T>>, i: int)
    requires DistinctTickers(entries)
    requires 0 <= i < |entries|
    ensures Lookup(entries, entries[i].ticker) == Some(entries[i].value)
  {
    var r := Lookup(entries, entries[i].ticker);
    var j :| 0 <= j < |entries| && entries[j] == Keyed(entries[i].ticker, r.value);
    assert i == j;
  }
}
