/** The backtest evaluator: past recommendations graded against the price
    move since they were made, tallied per direction and per score tier. */
module Backtester {
  import opened Common
  import Queries

  /** One graded recommendation: its score, its direction label and the
      percentage return since it was made. */
  datatype Outcome = Outcome(score: int, direction: string, returnPct: real)

  /** The statistics of one score tier; `hitRate` is absent for an empty tier. */
  datatype TierStats = TierStats(count: nat, correct: nat, avgReturn: real, hitRate: Option<real>)

  datatype Accuracy = Accuracy(
    bullishHitRate: real,
    bearishHitRate: real,
    overallHitRate: real,
    bullishTotal: nat,
    bearishTotal: nat,
    neutralTotal: nat)

  /** `Failed`: the outcome query raised. `NoData`: it returned no rows.
      `tiers` lists "80-100", "60-79", "40-59", "0-39" in that order. */
  datatype Backtest =
    | Failed
    | NoData
    | Report(total: nat, lookbackHours: int, accuracy: Accuracy, tiers: seq<TierStats>, outcomes: seq<Outcome>)

  /** How many outcomes the report lists. */
  const OutcomeCap: nat := 50

  /** The tier of a score: 0 is "80-100", 1 "60-79", 2 "40-59", 3 "0-39". */
  function TierOf(score: int): (k: nat)
    ensures k < 4
    ensures k == 0 <==> 80 <= score
    ensures k == 1 <==> 60 <= score < 80
    ensures k == 2 <==> 40 <= score < 60
    ensures k == 3 <==> score < 40
  {
    if score >= 80 then 0 else if score >= 60 then 1 else if score >= 40 then 2 else 3
  }

  /** A higher score never lands in a lower tier. */
  lemma TierOfMonotone(a: int, b: int)
    requires a <= b
    ensures TierOf(b) <= TierOf(a)
  {
  }

  predicate IsBullish(o: Outcome) { o.direction == "BULLISH" }
  predicate IsBearish(o: Outcome) { o.direction == "BEARISH" }

  /** Whether a recommendation was right: up for BULLISH, down for BEARISH,
      and for any other label a move smaller than half a percent. */
  predicate Hit(o: Outcome)
  {
    if IsBullish(o) then o.returnPct > 0.0
    else if IsBearish(o) then o.returnPct < 0.0
    else Abs(o.returnPct) < 0.5
  }

  function Last(os: seq<Outcome>): Outcome
    requires |os| > 0
  {
    os[|os| - 1]
  }

  function Init(os: seq<Outcome>): seq<Outcome>
    requires |os| > 0
  {
    os[..|os| - 1]
  }

  /** The reference tallies, each a plain count or sum over the list. */
  function CountTier(os: seq<Outcome>, k: nat): nat
  {
    if |os| == 0 then 0 else CountTier(Init(os), k) + (if TierOf(Last(os).score) == k then 1 else 0)
  }

  function HitsTier(os: seq<Outcome>, k: nat): nat
  {
    if |os| == 0 then 0 else HitsTier(Init(os), k) + (if TierOf(Last(os).score) == k && Hit(Last(os)) then 1 else 0)
  }

  function ReturnsTier(os: seq<Outcome>, k: nat): real
  {
    if |os| == 0 then 0.0 else ReturnsTier(Init(os), k) + (if TierOf(Last(os).score) == k then Last(os).returnPct else 0.0)
  }

  function CountBullish(os: seq<Outcome>): nat
  {
    if |os| == 0 then 0 else CountBullish(Init(os)) + (if IsBullish(Last(os)) then 1 else 0)
  }

  function HitsBullish(os: seq<Outcome>): nat
  {
    if |os| == 0 then 0 else HitsBullish(Init(os)) + (if IsBullish(Last(os)) && Hit(Last(os)) then 1 else 0)
  }

  function CountBearish(os: seq<Outcome>): nat
  {
    if |os| == 0 then 0 else CountBearish(Init(os)) + (if IsBearish(Last(os)) then 1 else 0)
  }

  function HitsBearish(os: seq<Outcome>): nat
  {
    if |os| == 0 then 0 else HitsBearish(Init(os)) + (if IsBearish(Last(os)) && Hit(Last(os)) then 1 else 0)
  }

  function CountOther(os: seq<Outcome>): nat
  {
    if |os| == 0 then 0 else CountOther(Init(os)) + (if !IsBullish(Last(os)) && !IsBearish(Last(os)) then 1 else 0)
  }

  /** The hit rate as a percentage rounded to one decimal, or 0 when nothing was counted. */
  function Rate(correct: nat, total: nat): real
  {
    if total > 0 then Round1(correct as real / total as real * 100.0) else 0.0
  }

  /** A tier's statistics from its tallies. */
  function Summary(count: nat, correct: nat, returnSum: real): TierStats
  {
    if count > 0
    then TierStats(count, correct, Round3(returnSum / count as real), Some(Rate(correct, count)))
    else TierStats(0, correct, 0.0, None)
  }

  /** The loop's running counters: per tier (indexed by `TierOf`) the
      count, the hits and the sum of returns, then the direction totals. */
  datatype Tally = Tally(
    counts: seq<nat>, hits: seq<nat>, sums: seq<real>,
    bullTotal: nat, bullCorrect: nat, bearTotal: nat, bearCorrect: nat, neutralTotal: nat)

  const EmptyTally: Tally := Tally([0, 0, 0, 0], [0, 0, 0, 0], [0.0, 0.0, 0.0, 0.0], 0, 0, 0, 0, 0)

  /** `t` holds the reference tallies of `os`. */
  predicate Tallies(os: seq<Outcome>, t: Tally)
  {
    && |t.counts| == 4 && |t.hits| == 4 && |t.sums| == 4
    && (forall k :: 0 <= k < 4 ==> t.counts[k] == CountTier(os, k))
    && (forall k :: 0 <= k < 4 ==> t.hits[k] == HitsTier(os, k))
    && (forall k :: 0 <= k < 4 ==> t.sums[k] == ReturnsTier(os, k))
    && t.bullTotal == CountBullish(os) && t.bullCorrect == HitsBullish(os)
    && t.bearTotal == CountBearish(os) && t.bearCorrect == HitsBearish(os)
    && t.neutralTotal == CountOther(os)
  }

  /** One pass of the loop body. */
  function Step(t: Tally, o: Outcome): Tally
    requires |t.counts| == 4 && |t.hits| == 4 && |t.sums| == 4
  {
    var k := TierOf(o.score);
    var t := t.(counts := t.counts[k := t.counts[k] + 1], sums := t.sums[k := t.sums[k] + o.returnPct]);
    if o.direction == "BULLISH" then
      if o.returnPct > 0.0
      then t.(bullTotal := t.bullTotal + 1, bullCorrect := t.bullCorrect + 1, hits := t.hits[k := t.hits[k] + 1])
      else t.(bullTotal := t.bullTotal + 1)
    else if o.direction == "BEARISH" then
      if o.returnPct < 0.0
      then t.(bearTotal := t.bearTotal + 1, bearCorrect := t.bearCorrect + 1, hits := t.hits[k := t.hits[k] + 1])
      else t.(bearTotal := t.bearTotal + 1)
    else if Abs(o.returnPct) < 0.5
    then t.(neutralTotal := t.neutralTotal + 1, hits := t.hits[k := t.hits[k] + 1])
    else t.(neutralTotal := t.neutralTotal + 1)
  }

  /** The loop body keeps the counters equal to the reference tallies. */
  lemma {:induction false} StepTallies(os: seq<Outcome>, t: Tally, o: Outcome)
    requires Tallies(os, t)
    ensures Tallies(os + [o], Step(t, o))
  {
    StepTiers(os, t, o);
    StepDirections(os, t, o);
  }

  lemma {:induction false} StepTiers(os: seq<Outcome>, t: Tally, o: Outcome)
    requires Tallies(os, t)
    ensures var t' := Step(t, o);
      && |t'.counts| == 4 && |t'.hits| == 4 && |t'.sums| == 4
      && (forall k :: 0 <= k < 4 ==> t'.counts[k] == CountTier(os + [o], k))
      && (forall k :: 0 <= k < 4 ==> t'.hits[k] == HitsTier(os + [o], k))
      && (forall k :: 0 <= k < 4 ==> t'.sums[k] == ReturnsTier(os + [o], k))
  {
    forall k | 0 <= k < 4
      ensures Step(t, o).counts[k] == CountTier(os + [o], k)
      ensures Step(t, o).hits[k] == HitsTier(os + [o], k)
      ensures Step(t, o).sums[k] == ReturnsTier(os + [o], k)
    {
      StepTier(os, t, o, k);
    }
  }

  /** A step counts the outcome in its tier, in its direction's total, and
      as a hit exactly when `Hit` holds. */
  lemma StepEffect(t: Tally, o: Outcome)
    requires |t.counts| == 4 && |t.hits| == 4 && |t.sums| == 4
    ensures var t', k := Step(t, o), TierOf(o.score);
      && t'.counts == t.counts[k := t.counts[k] + 1]
      && t'.sums == t.sums[k := t.sums[k] + o.returnPct]
      && t'.hits == (if Hit(o) then t.hits[k := t.hits[k] + 1] else t.hits)
      && t'.bullTotal == t.bullTotal + (if IsBullish(o) then 1 else 0)
      && t'.bullCorrect == t.bullCorrect + (if IsBullish(o) && Hit(o) then 1 else 0)
      && t'.bearTotal == t.bearTotal + (if IsBearish(o) then 1 else 0)
      && t'.bearCorrect == t.bearCorrect + (if IsBearish(o) && Hit(o) then 1 else 0)
      && t'.neutralTotal == t.neutralTotal + (if !IsBullish(o) && !IsBearish(o) then 1 else 0)
  {
  }

  /** One tier's counters after a step. */
  lemma {:induction false} StepTier(os: seq<Outcome>, t: Tally, o: Outcome, k: nat)
    requires Tallies(os, t) && k < 4
    ensures var t' := Step(t, o);
      && |t'.counts| == 4 && |t'.hits| == 4 && |t'.sums| == 4
      && t'.counts[k] == CountTier(os + [o], k)
      && t'.hits[k] == HitsTier(os + [o], k)
      && t'.sums[k] == ReturnsTier(os + [o], k)
  {
    StepEffect(t, o);
    assert Init(os + [o]) == os && Last(os + [o]) == o;
  }

  lemma {:induction false} StepDirections(os: seq<Outcome>, t: Tally, o: Outcome)
    requires Tallies(os, t)
    ensures var t' := Step(t, o);
      && t'.bullTotal == CountBullish(os + [o]) && t'.bullCorrect == HitsBullish(os + [o])
      && t'.bearTotal == CountBearish(os + [o]) && t'.bearCorrect == HitsBearish(os + [o])
      && t'.neutralTotal == CountOther(os + [o])
  {
    StepEffect(t, o);
    assert Init(os + [o]) == os && Last(os + [o]) == o;
  }

  /** `evaluate_recommendations`, with the outcome query's result (None when
      it raised) passed in. */
  method Evaluate(fetched: Option<seq<Outcome>>, hours: int) returns (r: Backtest)
    ensures fetched.None? <==> r.Failed?
    ensures fetched == Some([]) <==> r.NoData?
    ensures r.Report? ==> fetched.Some? && |fetched.value| > 0
    ensures r.Report? ==> r.total == |fetched.value| && r.lookbackHours == hours
    ensures r.Report? ==> |r.tiers| == 4
    ensures r.Report? ==> forall k :: 0 <= k < |r.tiers| ==>
      r.tiers[k] == Summary(CountTier(fetched.value, k), HitsTier(fetched.value, k), ReturnsTier(fetched.value, k))
    ensures r.Report? ==> r.accuracy == Accuracy(
      Rate(HitsBullish(fetched.value), CountBullish(fetched.value)),
      Rate(HitsBearish(fetched.value), CountBearish(fetched.value)),
      Rate(HitsBullish(fetched.value) + HitsBearish(fetched.value),
           CountBullish(fetched.value) + CountBearish(fetched.value)),
      CountBullish(fetched.value), CountBearish(fetched.value), CountOther(fetched.value))
    ensures r.Report? ==> r.outcomes == fetched.value[..if |fetched.value| < OutcomeCap then |fetched.value| else OutcomeCap]
  {
    if fetched.None? {
      return Failed;
    }
    var os := fetched.value;
    if |os| == 0 {
      return NoData;
    }
    var t := TallyAll(os);
    var tiers := [Summary(t.counts[0], t.hits[0], t.sums[0]), Summary(t.counts[1], t.hits[1], t.sums[1]),
                  Summary(t.counts[2], t.hits[2], t.sums[2]), Summary(t.counts[3], t.hits[3], t.sums[3])];
    var accuracy := Accuracy(
      Rate(t.bullCorrect, t.bullTotal), Rate(t.bearCorrect, t.bearTotal),
      Rate(t.bullCorrect + t.bearCorrect, t.bullTotal + t.bearTotal),
      t.bullTotal, t.bearTotal, t.neutralTotal);
    var shown := if |os| < OutcomeCap then |os| else OutcomeCap;
    r := Report(|os|, hours, accuracy, tiers, os[..shown]);
  }

  /** The single pass over the outcomes that fills the counters. */
  method TallyAll(os: seq<Outcome>) returns (t: Tally)
    ensures Tallies(os, t)
  {
    t := EmptyTally;
    var i := 0;
    while i < |os|
      invariant 0 <= i <= |os|
      invariant Tallies(os[..i], t)
    {
      StepTallies(os[..i], t, os[i]);
      assert os[..i + 1] == os[..i] + [os[i]];
      t := Step(t, os[i]);
      i := i + 1;
    }
    assert os[..|os|] == os;
  }

  /** Every outcome falls in exactly one tier. */
  lemma {:induction false} TiersPartition(os: seq<Outcome>)
    ensures CountTier(os, 0) + CountTier(os, 1) + CountTier(os, 2) + CountTier(os, 3) == |os|
  {
    if |os| > 0 {
      TiersPartition(Init(os));
    }
  }

  /** Every outcome is bullish, bearish or neither. */
  lemma {:induction false} DirectionsPartition(os: seq<Outcome>)
    ensures CountBullish(os) + CountBearish(os) + CountOther(os) == |os|
  {
    if |os| > 0 {
      DirectionsPartition(Init(os));
    }
  }

  /** Correct counts never exceed their totals. */
  lemma {:induction false} HitsWithinTotals(os: seq<Outcome>, k: nat)
    ensures HitsTier(os, k) <= CountTier(os, k)
    ensures HitsBullish(os) <= CountBullish(os)
    ensures HitsBearish(os) <= CountBearish(os)
  {
    if |os| > 0 {
      HitsWithinTotals(Init(os), k);
    }
  }

  /** A rate is a percentage. */
  lemma RateInRange(correct: nat, total: nat)
    requires correct <= total
    ensures 0.0 <= Rate(correct, total) <= 100.0
  {
    if total > 0 {
      var x := correct as real / total as real * 100.0;
      assert correct as real / total as real <= 1.0;
      Round1Between(x, 0, 1000);
    }
  }

  lemma FracLe(x: real, y: real, u: real, v: real)
    requires y > 0.0 && v > 0.0 && x * v <= u * y
    ensures x / y <= u / v
  {
    var p, q := x / y, u / v;
    assert x == p * y && u == q * v;
    assert (p - q) * (y * v) <= 0.0;
  }

  /** The mediant of two fractions lies between them, and rounding keeps the
      order. */
  lemma {:induction false} MediantBetween(bc: nat, bt: nat, ec: nat, et: nat)
    requires 0 < bt && 0 < et
    requires bc as real * et as real <= ec as real * bt as real
    ensures Rate(bc, bt) <= Rate(bc + ec, bt + et) <= Rate(ec, et)
  {
    var BC, BT, EC, ET := bc as real, bt as real, ec as real, et as real;
    assert BC * (BT + ET) == BC * BT + BC * ET;
    assert (BC + EC) * BT == BC * BT + EC * BT;
    FracLe(BC, BT, BC + EC, BT + ET);
    assert (BC + EC) * ET == BC * ET + EC * ET;
    assert EC * (BT + ET) == EC * BT + EC * ET;
    FracLe(BC + EC, BT + ET, EC, ET);
    assert (bc + ec) as real == BC + EC && (bt + et) as real == BT + ET;
    RateLe(bc, bt, bc + ec, bt + et);
    RateLe(bc + ec, bt + et, ec, et);
  }

  /** `Rate` keeps the order of the fractions it rounds. */
  lemma RateLe(a: nat, b: nat, c: nat, d: nat)
    requires 0 < b && 0 < d
    requires a as real / b as real <= c as real / d as real
    ensures Rate(a, b) <= Rate(c, d)
  {
    Round1Monotone(a as real / b as real * 100.0, c as real / d as real * 100.0);
  }

  /** The overall rate lies between the bullish and the bearish rate. */
  lemma {:induction false} OverallBetween(os: seq<Outcome>)
    requires CountBullish(os) > 0 && CountBearish(os) > 0
    ensures var overall := Rate(HitsBullish(os) + HitsBearish(os), CountBullish(os) + CountBearish(os));
      Min(Rate(HitsBullish(os), CountBullish(os)), Rate(HitsBearish(os), CountBearish(os))) <= overall
      <= Max(Rate(HitsBullish(os), CountBullish(os)), Rate(HitsBearish(os), CountBearish(os)))
  {
    var bc, bt, ec, et := HitsBullish(os), CountBullish(os), HitsBearish(os), CountBearish(os);
    if bc as real * et as real <= ec as real * bt as real {
      MediantBetween(bc, bt, ec, et);
    } else {
      MediantBetween(ec, et, bc, bt);
      assert bc + ec == ec + bc && bt + et == et + bt;
    }
  }

  /** Empty tiers report neither an average nor a hit rate. */
  lemma {:induction false} EmptyTierHasNoHitRate(os: seq<Outcome>, k: nat)
    requires CountTier(os, k) == 0
    ensures Summary(CountTier(os, k), HitsTier(os, k), ReturnsTier(os, k)).hitRate.None?
    ensures Summary(CountTier(os, k), HitsTier(os, k), ReturnsTier(os, k)).avgReturn == 0.0
  {
  }

  /** Neutral hits count towards their tier but not towards the overall rate:
      a single neutral outcome that barely moved scores a full tier and an
      overall rate of 0. */
  lemma NeutralHitsOnlyCountInTiers()
    ensures var os := [Outcome(50, "NEUTRAL", 0.1)];
      && HitsTier(os, 2) == 1 && CountTier(os, 2) == 1
      && HitsBullish(os) + HitsBearish(os) == 0
      && Rate(HitsBullish(os) + HitsBearish(os), CountBullish(os) + CountBearish(os)) == 0.0
  {
    var os := [Outcome(50, "NEUTRAL", 0.1)];
    assert Init(os) == [];
  }

  /** Graded with the `return_pct` of the outcome query, a BULLISH hit means
      the price rose and a BEARISH hit that it fell; without both prices the
      return is 0, which no directional call hits. */
  lemma HitMeansPriceMoved(o: Outcome, priceAtScore: real, current: Option<real>)
    requires o.returnPct == Queries.ReturnPct(priceAtScore, current)
    ensures IsBullish(o) && Hit(o) ==> Queries.OrZero(current) > priceAtScore
    ensures IsBearish(o) && Hit(o) ==> Queries.OrZero(current) < priceAtScore
    ensures (priceAtScore <= 0.0 || current.None?) && (IsBullish(o) || IsBearish(o)) ==> !Hit(o)
  {
  }
}
