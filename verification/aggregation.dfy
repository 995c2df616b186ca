/** The analytics aggregation written after each fetch: contracts grouped by
    display symbol and then by strike, with open-interest-weighted Greek
    totals, open interest and volume summed per strike. Tickers and strikes
    keep first-seen order, as the nested dicts that hold them iterate. */
module Aggregation {
  import opened Common
  import opened Records

  /** What one contract adds to its strike: each Greek times open interest,
      its open interest and its volume. */
  function Weighted(c: Contract): StrikeTotals
  {
    StrikeTotals(c.delta * c.openInterest, c.gamma * c.openInterest, c.theta * c.openInterest,
                 c.vega * c.openInterest, c.openInterest, c.volume)
  }

  const NoTotals: StrikeTotals := StrikeTotals(0.0, 0.0, 0.0, 0.0, 0.0, 0.0)

  function Plus(a: StrikeTotals, b: StrikeTotals): StrikeTotals
  {
    StrikeTotals(a.totalDelta + b.totalDelta, a.totalGamma + b.totalGamma, a.totalTheta + b.totalTheta,
                 a.totalVega + b.totalVega, a.oi + b.oi, a.volume + b.volume)
  }

  // ---------------------------------------------------------------- one ticker's strikes

  /** The reference totals of a strike: the sum over the contracts at it. */
  function StrikeSum(cs: seq<Contract>, strike: real): StrikeTotals
  {
    if |cs| == 0 then NoTotals
    else
      var last := cs[|cs| - 1];
      Plus(StrikeSum(cs[..|cs| - 1], strike), if last.strike == strike then Weighted(last) else NoTotals)
  }

  predicate StrikeUsed(cs: seq<Contract>, strike: real)
  {
    exists j :: 0 <= j < |cs| && cs[j].strike == strike
  }

  lemma {:induction false} StrikeSumUnused(cs: seq<Contract>, strike: real)
    requires !StrikeUsed(cs, strike)
    ensures StrikeSum(cs, strike) == NoTotals
    decreases |cs|
  {
    if |cs| > 0 {
      StrikeSumUnused(cs[..|cs| - 1], strike);
    }
  }

  predicate DistinctStrikes(es: seq<StrikeEntry>)
  {
    forall i, j :: 0 <= i < j < |es| ==> es[i].strike != es[j].strike
  }

  function FindStrike(es: seq<StrikeEntry>, strike: real): (k: Option<nat>)
    ensures k.Some? ==> k.value < |es| && es[k.value].strike == strike
    ensures k.None? ==> forall i :: 0 <= i < |es| ==> es[i].strike != strike
  {
    if |es| == 0 then None
    else if es[|es| - 1].strike == strike then Some(|es| - 1)
    else FindStrike(es[..|es| - 1], strike)
  }

  /** The strike entries of one ticker are the aggregation of `cs`: one
      entry per strike that occurs, holding that strike's reference totals. */
  ghost predicate StrikesFor(cs: seq<Contract>, es: seq<StrikeEntry>)
  {
    && DistinctStrikes(es)
    && (forall i :: 0 <= i < |es| ==> es[i].totals == StrikeSum(cs, es[i].strike))
    && (forall i :: 0 <= i < |es| ==> StrikeUsed(cs, es[i].strike))
    && (forall strike :: StrikeUsed(cs, strike) ==> FindStrike(es, strike).Some?)
  }

  /** One contract added to its ticker's strikes, creating the strike at
      zero totals when it is new. */
  function AddStrike(es: seq<StrikeEntry>, c: Contract): (out: seq<StrikeEntry>)
    requires DistinctStrikes(es)
    ensures DistinctStrikes(out)
    ensures |out| >= |es|
    ensures forall i :: 0 <= i < |es| ==> out[i].strike == es[i].strike
    ensures forall i :: 0 <= i < |es| ==>
      out[i].totals == Plus(es[i].totals, if es[i].strike == c.strike then Weighted(c) else NoTotals)
    ensures FindStrike(es, c.strike).Some? ==> |out| == |es|
    ensures FindStrike(es, c.strike).None? ==>
      |out| == |es| + 1 && out[|es|] == StrikeEntry(c.strike, Plus(NoTotals, Weighted(c)))
  {
    match FindStrike(es, c.strike)
    case Some(k) =>
      var out := es[k := es[k].(totals := Plus(es[k].totals, Weighted(c)))];
      assert forall i :: 0 <= i < |es| && i != k ==> es[i].strike != c.strike;
      out
    case None => es + [StrikeEntry(c.strike, Plus(NoTotals, Weighted(c)))]
  }

  /** Adding NoTotals changes nothing. */
  lemma PlusNoTotals(a: StrikeTotals)
    ensures Plus(a, NoTotals) == a && Plus(NoTotals, a) == a
  {
  }

  lemma {:induction false} AddStrikeKeepsStrikes(cs: seq<Contract>, prev: seq<StrikeEntry>)
    requires |cs| > 0
    requires StrikesFor(cs[..|cs| - 1], prev)
    ensures StrikesFor(cs, AddStrike(prev, cs[|cs| - 1]))
  {
    var init := cs[..|cs| - 1];
    var last := cs[|cs| - 1];
    var out := AddStrike(prev, last);
    forall strike | StrikeUsed(cs, strike)
      ensures FindStrike(out, strike).Some?
    {
      var j :| 0 <= j < |cs| && cs[j].strike == strike;
      if j < |init| {
        assert init[j] == cs[j];
        assert StrikeUsed(init, strike);
        var k := FindStrike(prev, strike).value;
        assert out[k].strike == strike;
      } else {
        var f := FindStrike(prev, strike);
        if f.Some? {
          assert out[f.value].strike == strike;
        } else {
          assert out[|prev|].strike == strike;
        }
      }
    }
    forall i | 0 <= i < |out|
      ensures StrikeUsed(cs, out[i].strike)
      ensures out[i].totals == StrikeSum(cs, out[i].strike)
    {
      if i < |prev| {
        var j :| 0 <= j < |init| && init[j].strike == prev[i].strike;
        assert cs[j] == init[j];
        PlusNoTotals(prev[i].totals);
      } else {
        assert FindStrike(prev, last.strike).None?;
        StrikeSumUnused(init, last.strike);
        assert cs[|cs| - 1].strike == out[i].strike;
      }
    }
  }

  /** The strike loop over one ticker's contracts. */
  function BuildStrikes(cs: seq<Contract>): (es: seq<StrikeEntry>)
    ensures StrikesFor(cs, es)
    decreases |cs|
  {
    if |cs| == 0 then []
    else
      var prev := BuildStrikes(cs[..|cs| - 1]);
      AddStrikeKeepsStrikes(cs, prev);
      AddStrike(prev, cs[|cs| - 1])
  }

  /** The position of the first contract at a strike, if any: when the
      strike's entry is created. */
  function FirstStrikeUse(cs: seq<Contract>, strike: real): (f: Option<nat>)
    ensures f.Some? <==> StrikeUsed(cs, strike)
    ensures f.Some? ==> f.value < |cs| && cs[f.value].strike == strike
    ensures f.Some? ==> forall i :: 0 <= i < f.value ==> cs[i].strike != strike
    decreases |cs|
  {
    if |cs| == 0 then None
    else
      var init := cs[..|cs| - 1];
      var f := FirstStrikeUse(init, strike);
      assert forall i :: 0 <= i < |init| ==> init[i] == cs[i];
      if f.Some? then f
      else if cs[|cs| - 1].strike == strike then
        assert !StrikeUsed(init, strike);
        Some(|cs| - 1)
      else
        assert !StrikeUsed(init, strike);
        None
  }

  /** Strike entries are ordered by when their strike first occurs. */
  predicate StrikesInFirstUseOrder(cs: seq<Contract>, es: seq<StrikeEntry>)
  {
    && (forall i :: 0 <= i < |es| ==> FirstStrikeUse(cs, es[i].strike).Some?)
    && (forall i, j :: 0 <= i < j < |es| ==>
          FirstStrikeUse(cs, es[i].strike).value < FirstStrikeUse(cs, es[j].strike).value)
  }

  /** The strikes come out in first-seen order, as the inner dict iterates. */
  lemma {:induction false} BuildStrikesInFirstUseOrder(cs: seq<Contract>)
    ensures StrikesInFirstUseOrder(cs, BuildStrikes(cs))
    decreases |cs|
  {
    if |cs| > 0 {
      var init, last := cs[..|cs| - 1], cs[|cs| - 1];
      var prev := BuildStrikes(init);
      BuildStrikesInFirstUseOrder(init);
      assert BuildStrikes(cs) == AddStrike(prev, last);
      StrikeKeysInFirstUseOrder(cs, prev, AddStrike(prev, last));
    }
  }

  /** The ordering argument for one step, knowing of the new entries only
      that the old strikes stay in place and that a new strike is appended. */
  lemma {:induction false} StrikeKeysInFirstUseOrder(cs: seq<Contract>, prev: seq<StrikeEntry>, out: seq<StrikeEntry>)
    requires |cs| > 0
    requires StrikesInFirstUseOrder(cs[..|cs| - 1], prev)
    requires |prev| <= |out| <= |prev| + 1
    requires forall i :: 0 <= i < |prev| ==> out[i].strike == prev[i].strike
    requires |out| == |prev| + 1 ==>
      !StrikeUsed(cs[..|cs| - 1], cs[|cs| - 1].strike) && out[|prev|].strike == cs[|cs| - 1].strike
    ensures StrikesInFirstUseOrder(cs, out)
  {
    var init := cs[..|cs| - 1];
    forall i | 0 <= i < |prev|
      ensures FirstStrikeUse(cs, out[i].strike) == FirstStrikeUse(init, prev[i].strike)
    {
      assert StrikeUsed(init, prev[i].strike);
    }
    if |out| == |prev| + 1 {
      assert FirstStrikeUse(cs, out[|prev|].strike) == Some(|cs| - 1);
    }
  }

  // ---------------------------------------------------------------- tickers

  /** The contracts of one ticker, in input order. */
  function OfTicker(cs: seq<Contract>, t: string): (group: seq<Contract>)
    ensures forall i :: 0 <= i < |group| ==> group[i].symbol == t
    ensures |group| <= |cs|
  {
    if |cs| == 0 then []
    else
      var last := cs[|cs| - 1];
      OfTicker(cs[..|cs| - 1], t) + (if last.symbol == t then [last] else [])
  }

  /** A ticker has an entry exactly when some contract carries it. */
  lemma {:induction false} OfTickerEmpty(cs: seq<Contract>, t: string)
    ensures |OfTicker(cs, t)| == 0 <==> forall j :: 0 <= j < |cs| ==> cs[j].symbol != t
    decreases |cs|
  {
    if |cs| > 0 {
      OfTickerEmpty(cs[..|cs| - 1], t);
      assert forall j :: 0 <= j < |cs| - 1 ==> cs[..|cs| - 1][j] == cs[j];
    }
  }

  function FindTicker(out: seq<Keyed<Analytics>>, t: string): (k: Option<nat>)
    ensures k.Some? ==> k.value < |out| && out[k.value].ticker == t
    ensures k.None? ==> forall i :: 0 <= i < |out| ==> out[i].ticker != t
  {
    if |out| == 0 then None
    else if out[|out| - 1].ticker == t then Some(|out| - 1)
    else FindTicker(out[..|out| - 1], t)
  }

  /** Every ticker's strikes are keyed uniquely. */
  predicate StrikesDistinct(out: seq<Keyed<Analytics>>)
  {
    forall i :: 0 <= i < |out| ==> DistinctStrikes(out[i].value.strikes)
  }

  /** One ticker's entry describes its contracts in `cs`: it has some, its
      price is the first one's underlying price, and its strikes aggregate
      them. */
  ghost predicate EntryFor(cs: seq<Contract>, e: Keyed<Analytics>)
  {
    var group := OfTicker(cs, e.ticker);
    |group| > 0 && e.value.price == group[0].underlyingPrice && StrikesFor(group, e.value.strikes)
  }

  /** `out` is the analytics of `cs`: one entry per ticker that occurs,
      priced by its first contract, its strikes aggregated from its own
      contracts. */
  ghost predicate TickersFor(cs: seq<Contract>, out: seq<Keyed<Analytics>>)
  {
    && DistinctTickers(out)
    && StrikesDistinct(out)
    && (forall i :: 0 <= i < |out| ==> EntryFor(cs, out[i]))
    && (forall t :: |OfTicker(cs, t)| > 0 ==> FindTicker(out, t).Some?)
  }

  /** One iteration of the contract loop: the ticker is created with this
      contract's underlying price when new, then the contract is added to
      its strike. */
  function AddToTicker(out: seq<Keyed<Analytics>>, c: Contract): (next: seq<Keyed<Analytics>>)
    requires DistinctTickers(out) && StrikesDistinct(out)
    ensures DistinctTickers(next) && StrikesDistinct(next)
    ensures FindTicker(next, c.symbol).Some?
    ensures |out| <= |next| <= |out| + 1
    ensures forall i :: 0 <= i < |out| ==> next[i].ticker == out[i].ticker
    ensures forall i :: 0 <= i < |out| && out[i].ticker != c.symbol ==> next[i] == out[i]
    ensures forall i :: 0 <= i < |out| ==> next[i].value.price == out[i].value.price
    ensures FindTicker(out, c.symbol).None? ==> next[|out|].value.price == c.underlyingPrice
  {
    match FindTicker(out, c.symbol)
    case Some(k) =>
      var a := out[k].value;
      var next := out[k := Keyed(c.symbol, a.(strikes := AddStrike(a.strikes, c)))];
      assert forall i :: 0 <= i < |out| && i != k ==> out[i].ticker != c.symbol;
      assert next[k].ticker == c.symbol;
      next
    case None =>
      var next := out + [Keyed(c.symbol, Analytics(c.underlyingPrice, AddStrike([], c)))];
      assert next[|out|].ticker == c.symbol;
      next
  }

  /** A new entry is appended last, and only for a ticker that had none. */
  lemma AddToTickerAppends(out: seq<Keyed<Analytics>>, c: Contract)
    requires DistinctTickers(out) && StrikesDistinct(out)
    ensures var next := AddToTicker(out, c);
      |next| == |out| + 1 ==> FindTicker(out, c.symbol).None? && next[|out|].ticker == c.symbol
  {
  }

  lemma OfTickerStep(cs: seq<Contract>, t: string)
    requires |cs| > 0
    ensures cs[|cs| - 1].symbol != t ==> OfTicker(cs, t) == OfTicker(cs[..|cs| - 1], t)
    ensures cs[|cs| - 1].symbol == t ==> OfTicker(cs, t) == OfTicker(cs[..|cs| - 1], t) + [cs[|cs| - 1]]
  {
  }

  /** Every ticker of the longer prefix still has an entry. */
  lemma AddToTickerCovers(cs: seq<Contract>, prev: seq<Keyed<Analytics>>, t: string)
    requires |cs| > 0
    requires TickersFor(cs[..|cs| - 1], prev)
    requires |OfTicker(cs, t)| > 0
    ensures FindTicker(AddToTicker(prev, cs[|cs| - 1]), t).Some?
  {
    var last := cs[|cs| - 1];
    var out := AddToTicker(prev, last);
    OfTickerStep(cs, t);
    if t != last.symbol {
      var k := FindTicker(prev, t).value;
      assert out[k].ticker == t;
    } else {
      var f := FindTicker(prev, t);
      if f.Some? {
        assert out[f.value].ticker == t;
      } else {
        assert out[|prev|].ticker == t;
      }
    }
  }

  /** An entry of another ticker is untouched by the new contract. */
  lemma EntryOtherTicker(cs: seq<Contract>, e: Keyed<Analytics>)
    requires |cs| > 0 && e.ticker != cs[|cs| - 1].symbol
    requires EntryFor(cs[..|cs| - 1], e)
    ensures EntryFor(cs, e)
  {
    OfTickerStep(cs, e.ticker);
  }

  /** The contract's own ticker, already present, takes it into its strikes. */
  lemma EntrySameTicker(cs: seq<Contract>, e: Keyed<Analytics>)
    requires |cs| > 0 && e.ticker == cs[|cs| - 1].symbol
    requires EntryFor(cs[..|cs| - 1], e)
    ensures DistinctStrikes(e.value.strikes)
    ensures EntryFor(cs, Keyed(e.ticker, e.value.(strikes := AddStrike(e.value.strikes, cs[|cs| - 1]))))
  {
    var group := OfTicker(cs, e.ticker);
    OfTickerStep(cs, e.ticker);
    assert group[..|group| - 1] == OfTicker(cs[..|cs| - 1], e.ticker);
    AddStrikeKeepsStrikes(group, e.value.strikes);
  }

  /** A ticker seen for the first time starts from this contract. */
  lemma EntryNewTicker(cs: seq<Contract>)
    requires |cs| > 0 && |OfTicker(cs[..|cs| - 1], cs[|cs| - 1].symbol)| == 0
    ensures var last := cs[|cs| - 1];
      EntryFor(cs, Keyed(last.symbol, Analytics(last.underlyingPrice, AddStrike([], last))))
  {
    var last := cs[|cs| - 1];
    var group := OfTicker(cs, last.symbol);
    OfTickerStep(cs, last.symbol);
    assert group == [last];
    assert group[..0] == [];
    AddStrikeKeepsStrikes(group, []);
  }

  /** Each entry of the updated analytics describes its ticker's contracts. */
  lemma AddToTickerEntry(cs: seq<Contract>, prev: seq<Keyed<Analytics>>, i: nat)
    requires |cs| > 0
    requires TickersFor(cs[..|cs| - 1], prev)
    requires i < |AddToTicker(prev, cs[|cs| - 1])|
    ensures EntryFor(cs, AddToTicker(prev, cs[|cs| - 1])[i])
  {
    var last := cs[|cs| - 1];
    var out := AddToTicker(prev, last);
    match FindTicker(prev, last.symbol)
    case Some(k) =>
      if i == k {
        EntrySameTicker(cs, prev[k]);
      } else {
        EntryOtherTicker(cs, prev[i]);
      }
    case None =>
      if i < |prev| {
        EntryOtherTicker(cs, prev[i]);
      } else {
        EntryNewTicker(cs);
      }
  }

  lemma AddToTickerKeepsTickers(cs: seq<Contract>, prev: seq<Keyed<Analytics>>)
    requires |cs| > 0
    requires TickersFor(cs[..|cs| - 1], prev)
    ensures TickersFor(cs, AddToTicker(prev, cs[|cs| - 1]))
  {
    var out := AddToTicker(prev, cs[|cs| - 1]);
    forall t | |OfTicker(cs, t)| > 0
      ensures FindTicker(out, t).Some?
    {
      AddToTickerCovers(cs, prev, t);
    }
    forall i | 0 <= i < |out|
      ensures EntryFor(cs, out[i])
    {
      AddToTickerEntry(cs, prev, i);
    }
  }

  /** `save_analytics_data`'s aggregation over the cycle's chain rows (their
      symbols already stripped of `$`). */
  function SaveAnalytics(cs: seq<Contract>): (out: seq<Keyed<Analytics>>)
    ensures TickersFor(cs, out)
    decreases |cs|
  {
    if |cs| == 0 then []
    else
      var prev := SaveAnalytics(cs[..|cs| - 1]);
      AddToTickerKeepsTickers(cs, prev);
      AddToTicker(prev, cs[|cs| - 1])
  }
  /** The position of the first contract of a ticker, if any: when the
      ticker's entry is created. */
  function FirstSeen(cs: seq<Contract>, t: string): (f: Option<nat>)
    ensures f.Some? <==> exists j :: 0 <= j < |cs| && cs[j].symbol == t
    ensures f.Some? ==> f.value < |cs| && cs[f.value].symbol == t
    ensures f.Some? ==> forall i :: 0 <= i < f.value ==> cs[i].symbol != t
    decreases |cs|
  {
    if |cs| == 0 then None
    else
      var init := cs[..|cs| - 1];
      var f := FirstSeen(init, t);
      assert forall i :: 0 <= i < |init| ==> init[i] == cs[i];
      if f.Some? then f
      else if cs[|cs| - 1].symbol == t then Some(|cs| - 1)
      else None
  }

  /** Ticker entries are ordered by when their ticker first occurs. */
  predicate TickersInFirstSeenOrder(cs: seq<Contract>, out: seq<Keyed<Analytics>>)
  {
    && (forall i :: 0 <= i < |out| ==> FirstSeen(cs, out[i].ticker).Some?)
    && (forall i, j :: 0 <= i < j < |out| ==> FirstSeen(cs, out[i].ticker).value < FirstSeen(cs, out[j].ticker).value)
  }

  /** The tickers come out in first-seen order, as the outer dict iterates. */
  lemma {:induction false} SaveAnalyticsInFirstSeenOrder(cs: seq<Contract>)
    ensures TickersInFirstSeenOrder(cs, SaveAnalytics(cs))
    decreases |cs|
  {
    if |cs| > 0 {
      var init, last := cs[..|cs| - 1], cs[|cs| - 1];
      var prev := SaveAnalytics(init);
      SaveAnalyticsInFirstSeenOrder(init);
      SaveAnalyticsSeen(init);
      assert SaveAnalytics(cs) == AddToTicker(prev, last);
      AddToTickerInOrder(cs, prev);
    }
  }

  /** One loop step keeps the entries in first-seen order. */
  lemma {:induction false} AddToTickerInOrder(cs: seq<Contract>, prev: seq<Keyed<Analytics>>)
    requires |cs| > 0
    requires DistinctTickers(prev) && StrikesDistinct(prev)
    requires TickersInFirstSeenOrder(cs[..|cs| - 1], prev)
    requires forall t :: FindTicker(prev, t).None? ==> FirstSeen(cs[..|cs| - 1], t).None?
    ensures TickersInFirstSeenOrder(cs, AddToTicker(prev, cs[|cs| - 1]))
  {
    var out := AddToTicker(prev, cs[|cs| - 1]);
    AddToTickerAppends(prev, cs[|cs| - 1]);
    if |out| == |prev| + 1 {
      assert FirstSeen(cs[..|cs| - 1], cs[|cs| - 1].symbol).None?;
    }
    KeysInFirstSeenOrder(cs, prev, out);
  }

  /** The ordering argument for one step, knowing of the new entries only
      that the old keys stay in place and that a new key is appended. */
  lemma {:induction false} KeysInFirstSeenOrder(cs: seq<Contract>, prev: seq<Keyed<Analytics>>, out: seq<Keyed<Analytics>>)
    requires |cs| > 0
    requires TickersInFirstSeenOrder(cs[..|cs| - 1], prev)
    requires |prev| <= |out| <= |prev| + 1
    requires forall i :: 0 <= i < |prev| ==> out[i].ticker == prev[i].ticker
    requires |out| == |prev| + 1 ==>
      FirstSeen(cs[..|cs| - 1], cs[|cs| - 1].symbol).None? && out[|prev|].ticker == cs[|cs| - 1].symbol
    ensures TickersInFirstSeenOrder(cs, out)
  {
    var init := cs[..|cs| - 1];
    forall i | 0 <= i < |prev|
      ensures FirstSeen(cs, out[i].ticker) == FirstSeen(init, prev[i].ticker)
    {
      FirstSeenStep(cs, prev[i].ticker);
    }
    if |out| == |prev| + 1 {
      FirstSeenStep(cs, cs[|cs| - 1].symbol);
    }
  }

  lemma FirstSeenStep(cs: seq<Contract>, t: string)
    requires |cs| > 0
    ensures FirstSeen(cs[..|cs| - 1], t).Some? ==> FirstSeen(cs, t) == FirstSeen(cs[..|cs| - 1], t)
    ensures FirstSeen(cs[..|cs| - 1], t).None? && cs[|cs| - 1].symbol == t ==> FirstSeen(cs, t) == Some(|cs| - 1)
  {
  }

  /** Every entry's ticker occurs in the contracts, and a ticker without an
      entry does not. */
  lemma SaveAnalyticsSeen(cs: seq<Contract>)
    ensures forall i :: 0 <= i < |SaveAnalytics(cs)| ==> FirstSeen(cs, SaveAnalytics(cs)[i].ticker).Some?
    ensures forall t :: FindTicker(SaveAnalytics(cs), t).None? ==> FirstSeen(cs, t).None?
  {
    var out := SaveAnalytics(cs);
    forall i | 0 <= i < |out|
      ensures FirstSeen(cs, out[i].ticker).Some?
    {
      assert EntryFor(cs, out[i]);
      OfTickerEmpty(cs, out[i].ticker);
    }
    forall t | FindTicker(out, t).None?
      ensures FirstSeen(cs, t).None?
    {
      OfTickerEmpty(cs, t);
    }
  }


  /** Each saved ticker's strikes are the strike loop run over that ticker's
      own contracts in input order, so they inherit its first-use order. */
  lemma {:induction false} SaveAnalyticsStrikes(cs: seq<Contract>, i: nat)
    requires i < |SaveAnalytics(cs)|
    ensures SaveAnalytics(cs)[i].value.strikes == BuildStrikes(OfTicker(cs, SaveAnalytics(cs)[i].ticker))
    decreases |cs|
  {
    var init, last := cs[..|cs| - 1], cs[|cs| - 1];
    var prev := SaveAnalytics(init);
    assert SaveAnalytics(cs) == AddToTicker(prev, last);
    var out := AddToTicker(prev, last);
    var t := out[i].ticker;
    AddToTickerStrikes(prev, last, i);
    OfTickerStep(cs, t);
    if i < |prev| {
      SaveAnalyticsStrikes(init, i);
      if t == last.symbol {
        BuildStrikesSnoc(OfTicker(init, t), last);
      }
    } else {
      assert |OfTicker(init, t)| == 0;
      assert OfTicker(cs, t) == [] + [last];
      BuildStrikesSnoc([], last);
    }
  }

  /** The saved strikes of each ticker stand in the order they are first
      traded by that ticker's contracts. */
  lemma SavedStrikesInFirstUseOrder(cs: seq<Contract>, i: nat)
    requires i < |SaveAnalytics(cs)|
    ensures StrikesInFirstUseOrder(OfTicker(cs, SaveAnalytics(cs)[i].ticker), SaveAnalytics(cs)[i].value.strikes)
  {
    SaveAnalyticsStrikes(cs, i);
    BuildStrikesInFirstUseOrder(OfTicker(cs, SaveAnalytics(cs)[i].ticker));
  }

  /** What one step does to the strikes of entry `i`. */
  lemma AddToTickerStrikes(prev: seq<Keyed<Analytics>>, c: Contract, i: nat)
    requires DistinctTickers(prev) && StrikesDistinct(prev)
    requires i < |AddToTicker(prev, c)|
    ensures var out := AddToTicker(prev, c);
      && (i < |prev| && out[i].ticker == c.symbol ==> out[i].value.strikes == AddStrike(prev[i].value.strikes, c))
      && (i < |prev| && out[i].ticker != c.symbol ==> out[i].value.strikes == prev[i].value.strikes)
      && (i == |prev| ==>
            (out[i].ticker == c.symbol && FindTicker(prev, c.symbol).None? && out[i].value.strikes == AddStrike([], c)))
  {
    match FindTicker(prev, c.symbol)
    case Some(k) =>
      assert forall j :: 0 <= j < |prev| && j != k ==> prev[j].ticker != c.symbol;
    case None =>
  }

  /** One more contract is one more step of the strike loop. */
  lemma BuildStrikesSnoc(xs: seq<Contract>, c: Contract)
    ensures BuildStrikes(xs + [c]) == AddStrike(BuildStrikes(xs), c)
  {
    assert (xs + [c])[..|xs|] == xs;
  }

  /** The first contract of a ticker heads its group. */
  lemma {:induction false} OfTickerFirst(cs: seq<Contract>, t: string, j: nat)
    requires j < |cs| && cs[j].symbol == t
    requires forall i :: 0 <= i < j ==> cs[i].symbol != t
    ensures |OfTicker(cs, t)| > 0 && OfTicker(cs, t)[0] == cs[j]
    decreases |cs|
  {
    var init := cs[..|cs| - 1];
    OfTickerStep(cs, t);
    if j == |cs| - 1 {
      OfTickerEmpty(init, t);
    } else {
      OfTickerFirst(init, t, j);
    }
  }

  /** What the written analytics say about one ticker: it is present exactly
      when some contract carries it, priced by its first contract, and every
      strike it trades at holds that strike's summed totals. */
  lemma {:induction false} AnalyticsOfTicker(cs: seq<Contract>, t: string, j: nat)
    requires j < |cs| && cs[j].symbol == t
    requires forall i :: 0 <= i < j ==> cs[i].symbol != t
    ensures var out := SaveAnalytics(cs);
      && DistinctTickers(out)
      && Lookup(out, t).Some?
      && Lookup(out, t).value.price == cs[j].underlyingPrice
      && (forall k :: 0 <= k < |cs| && cs[k].symbol == t ==>
            exists e :: (e in Lookup(out, t).value.strikes && e.strike == cs[k].strike
              && e.totals == StrikeSum(OfTicker(cs, t), cs[k].strike)))
  {
    var out := SaveAnalytics(cs);
    OfTickerFirst(cs, t, j);
    var n := FindTicker(out, t).value;
    LookupDistinct(out, n);
    var a := out[n].value;
    assert EntryFor(cs, out[n]);
    var group := OfTicker(cs, t);
    forall k | 0 <= k < |cs| && cs[k].symbol == t
      ensures exists e :: (e in a.strikes && e.strike == cs[k].strike
        && e.totals == StrikeSum(group, cs[k].strike))
    {
      OfTickerHas(cs, t, k);
      var m := FindStrike(a.strikes, cs[k].strike).value;
      assert a.strikes[m] in a.strikes;
    }
  }

  /** Every contract of a ticker is in its group. */
  lemma {:induction false} OfTickerHas(cs: seq<Contract>, t: string, k: nat)
    requires k < |cs| && cs[k].symbol == t
    ensures StrikeUsed(OfTicker(cs, t), cs[k].strike)
    decreases |cs|
  {
    var init := cs[..|cs| - 1];
    var group := OfTicker(cs, t);
    OfTickerStep(cs, t);
    if k == |cs| - 1 {
      assert group[|group| - 1] == cs[k];
    } else {
      OfTickerHas(init, t, k);
      var i :| 0 <= i < |OfTicker(init, t)| && OfTicker(init, t)[i].strike == init[k].strike;
      assert group[i] == OfTicker(init, t)[i];
    }
  }

  /** A symbol no contract carries has no entry. */
  lemma AnalyticsWithoutTicker(cs: seq<Contract>, t: string)
    requires forall i :: 0 <= i < |cs| ==> cs[i].symbol != t
    ensures Lookup(SaveAnalytics(cs), t).None?
  {
    var out := SaveAnalytics(cs);
    OfTickerEmpty(cs, t);
    forall i | 0 <= i < |out| ensures out[i].ticker != t {
      assert EntryFor(cs, out[i]);
    }
  }
}
