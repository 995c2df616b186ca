/** The ticker scorer: nine signals summed into a 0-100 score, the strategy
    looked up from regime, wall position and skew, the risk notes, and the
    ranking of every ticker of a fetch cycle. */
module Scorer {
  import opened Common
  import opened Records
  import opened Strategies
  import opened Signals

  /** The fixed risk sentences, in the order they are appended. */
  datatype RiskNote =
    | NegativeGexRegime
    | NoNearbyWall
    | NoSkewConviction
    | LowSignalStrength
    | IvElevated
    | StandardRisk

  /** A scored ticker. The reasoning text and timestamp are not modelled. */
  datatype Recommendation = Recommendation(
    ticker: string,
    score: int,
    direction: Direction,
    playType: PlayType,
    riskNotes: seq<RiskNote>,
    signals: seq<SignalScore>,
    priceAtScore: real,
    ivRankValue: real,
    netGexValue: real)

  /** The order in which `score_ticker` lists its nine signals. */
  const SignalOrder: seq<Signal> := [GexRegime, WallProximity, PcSkew, VolumeOiSurge,
    IvRank, DirectionalBias, GexMomentum, SkewMomentum, DteConviction]

  /** The analytics' underlying price, or 0 when there are no analytics. */
  function PriceOf(analytics: Option<Analytics>): real
  {
    match analytics
    case None => 0.0
    case Some(a) => a.price
  }

  /** Sum of the two wall values, 0 without gamma levels. */
  function GammaNet(gamma: Option<GammaLevels>): real
  {
    match gamma
    case None => 0.0
    case Some(g) => NetGex(g)
  }

  function CallWall(gamma: Option<GammaLevels>): Option<real>
  {
    if gamma.Some? then gamma.value.posStrike else None
  }

  function PutWall(gamma: Option<GammaLevels>): Option<real>
  {
    if gamma.Some? then gamma.value.negStrike else None
  }

  /** `gex_regime`: zero net exposure counts as positive. */
  function RegimeOf(netGex: real): (g: Regime)
    ensures g == Negative <==> netGex < 0.0
    ensures g == Positive <==> netGex >= 0.0
  {
    if netGex >= 0.0 then Positive else Negative
  }

  /** A truthy wall strike within 3% of a positive price. */
  predicate NearWall(price: real, strike: Option<real>)
  {
    price > 0.0 && strike.Some? && strike.value != 0.0 && DistancePct(price, strike.value) <= 3.0
  }

  /** The call wall is checked first, so a price near both walls is near the
      call wall. */
  function WallPositionOf(price: real, callWall: Option<real>, putWall: Option<real>): (w: WallPosition)
    ensures w == NearCallWall <==> NearWall(price, callWall)
    ensures w == NearPutWall <==> !NearWall(price, callWall) && NearWall(price, putWall)
    ensures w == MidRange <==> !NearWall(price, callWall) && !NearWall(price, putWall)
    ensures price <= 0.0 || (callWall.None? && putWall.None?) ==> w == MidRange
    ensures price > 0.0 && callWall == Some(price) ==> w == NearCallWall
  {
    if NearWall(price, callWall) then NearCallWall
    else if NearWall(price, putWall) then NearPutWall
    else MidRange
  }

  /** Bearish evidence from either detail wins over bullish evidence. */
  function SkewOf(pcDetail: Detail, deltaDetail: Detail): (k: Skew)
    ensures k == BearishSkew <==> pcDetail == Skewed(PutHeavy) || deltaDetail == Positioned(BearishDelta)
    ensures k == BullishSkew <==>
      && pcDetail != Skewed(PutHeavy) && deltaDetail != Positioned(BearishDelta)
      && (pcDetail == Skewed(CallHeavy) || deltaDetail == Positioned(BullishDelta))
    ensures k == NeutralSkew <==>
      && pcDetail !in {Skewed(PutHeavy), Skewed(CallHeavy)}
      && deltaDetail !in {Positioned(BearishDelta), Positioned(BullishDelta)}
  {
    if pcDetail == Skewed(PutHeavy) || deltaDetail == Positioned(BearishDelta) then BearishSkew
    else if pcDetail == Skewed(CallHeavy) || deltaDetail == Positioned(BullishDelta) then BullishSkew
    else NeutralSkew
  }

  lemma BearishEvidenceWins(pcDetail: Detail, deltaDetail: Detail)
    requires pcDetail == Skewed(PutHeavy) || deltaDetail == Positioned(BearishDelta)
    ensures SkewOf(pcDetail, deltaDetail) == BearishSkew
    ensures SkewOf(Skewed(CallHeavy), Positioned(BearishDelta)) == BearishSkew
  {
  }

  /** The nine signal scores in `score_ticker` order. */
  function NineSignals(contracts: seq<Contract>, analytics: Option<Analytics>,
                       gamma: Option<GammaLevels>, ctx: HistoricalContext,
                       decay: int -> real): (ss: seq<SignalScore>)
    ensures |ss| == 9
    ensures forall i :: 0 <= i < 9 ==> Scored(ss[i], SignalOrder[i], 0.0 <= ctx.ivRank <= 1.0)
  {
    var price := PriceOf(analytics);
    var mult := DteWeight(contracts, price);
    var s1 := ScoreGexRegime(Some(GammaNet(gamma)), ctx.gexPercentile, Weight(GexRegime));
    var s2 := ScoreWallProximity(price, CallWall(gamma), PutWall(gamma), Weight(WallProximity));
    var s3 := ScorePcSkew(contracts, price, decay, Weight(PcSkew));
    var s4 := ScoreVolumeOiSurge(contracts, price, decay, Weight(VolumeOiSurge));
    var s5 := ScoreIvRank(Some(ctx.ivRank), Weight(IvRank));
    var s6 := ScoreDirectionalBias(analytics, price, Weight(DirectionalBias));
    var s7 := ScoreGexMomentum(ctx.momentum, Weight(GexMomentum));
    var s8 := ScoreSkewMomentum(contracts, price, ctx.previousPcRatio, Weight(SkewMomentum));
    var s9 := ScoreDteConviction(mult, Weight(DteConviction));
    AllScored(s1, s2, s3, s4, s5, s6, s7, s8, s9, 0.0 <= ctx.ivRank <= 1.0);
    [s1, s2, s3, s4, s5, s6, s7, s8, s9]
  }

  /** A score for signal `sig` with its table weight as maximum and a
      non-negative score, within range when `capped`. */
  predicate Scored(s: SignalScore, sig: Signal, capped: bool)
  {
    s.signal == sig && s.maxScore == Weight(sig) && 0 <= s.score && (capped ==> InRange(s))
  }

  lemma AllScored(s1: SignalScore, s2: SignalScore, s3: SignalScore, s4: SignalScore, s5: SignalScore,
                  s6: SignalScore, s7: SignalScore, s8: SignalScore, s9: SignalScore, capped: bool)
    requires Scored(s1, GexRegime, capped) && Scored(s2, WallProximity, capped) && Scored(s3, PcSkew, capped)
    requires Scored(s4, VolumeOiSurge, capped) && Scored(s5, IvRank, capped) && Scored(s6, DirectionalBias, capped)
    requires Scored(s7, GexMomentum, capped) && Scored(s8, SkewMomentum, capped) && Scored(s9, DteConviction, capped)
    ensures var ss := [s1, s2, s3, s4, s5, s6, s7, s8, s9];
      forall i :: 0 <= i < 9 ==> Scored(ss[i], SignalOrder[i], capped)
  {
    var ss := [s1, s2, s3, s4, s5, s6, s7, s8, s9];
    forall i | 0 <= i < 9 ensures Scored(ss[i], SignalOrder[i], capped) {
      if i == 0 {
      } else if i == 1 {
      } else if i == 2 {
      } else if i == 3 {
      } else if i == 4 {
      } else if i == 5 {
      } else if i == 6 {
      } else if i == 7 {
      } else {
      }
    }
  }

  function SumScores(ss: seq<SignalScore>): int
  {
    if |ss| == 0 then 0 else ss[0].score + SumScores(ss[1..])
  }

  function SumMax(ss: seq<SignalScore>): int
  {
    if |ss| == 0 then 0 else ss[0].maxScore + SumMax(ss[1..])
  }

  lemma {:induction false} SumWithinMax(ss: seq<SignalScore>)
    requires forall i :: 0 <= i < |ss| ==> InRange(ss[i])
    ensures 0 <= SumScores(ss) <= SumMax(ss)
  {
    if |ss| > 0 {
      assert forall i :: 0 <= i < |ss[1..]| ==> ss[1..][i] == ss[i + 1];
      SumWithinMax(ss[1..]);
    }
  }

  lemma {:induction false} SumNonNegative(ss: seq<SignalScore>)
    requires forall i :: 0 <= i < |ss| ==> 0 <= ss[i].score
    ensures 0 <= SumScores(ss)
  {
    if |ss| > 0 {
      assert forall i :: 0 <= i < |ss[1..]| ==> ss[1..][i] == ss[i + 1];
      SumNonNegative(ss[1..]);
    }
  }

  lemma {:induction false} SumMaxIsWeightSum(ss: seq<SignalScore>, order: seq<Signal>)
    requires |ss| == |order|
    requires forall i :: 0 <= i < |ss| ==> ss[i].maxScore == Weight(order[i])
    ensures SumMax(ss) == WeightSum(order)
  {
    if |ss| > 0 {
      assert forall i :: 0 <= i < |ss[1..]| ==> ss[1..][i] == ss[i + 1] && order[1..][i] == order[i + 1];
      SumMaxIsWeightSum(ss[1..], order[1..]);
    }
  }

  /** `score_ticker` lists every signal once, so its weights add up to 100. */
  lemma SignalOrderCoversWeights()
    ensures |SignalOrder| == 9
    ensures forall s: Signal :: s in SignalOrder
    ensures WeightSum(SignalOrder) == 100
  {
    forall s: Signal ensures s in SignalOrder {
      match s
      case GexRegime => assert SignalOrder[0] == s;
      case WallProximity => assert SignalOrder[1] == s;
      case PcSkew => assert SignalOrder[2] == s;
      case VolumeOiSurge => assert SignalOrder[3] == s;
      case IvRank => assert SignalOrder[4] == s;
      case DirectionalBias => assert SignalOrder[5] == s;
      case GexMomentum => assert SignalOrder[6] == s;
      case SkewMomentum => assert SignalOrder[7] == s;
      case DteConviction => assert SignalOrder[8] == s;
    }
    WeightSumOfNine(SignalOrder);
  }

  /** Nine scores for the signals in scoring order have maxima adding up to 100. */
  lemma ScoredMaxIsHundred(ss: seq<SignalScore>, capped: bool)
    requires |ss| == 9
    requires forall i :: 0 <= i < 9 ==> Scored(ss[i], SignalOrder[i], capped)
    ensures SumMax(ss) == 100
  {
    WeightSumOfNine(SignalOrder);
    SumMaxIsWeightSum(ss, SignalOrder);
  }

  /** The nine maximum scores of a ticker add up to 100. */
  lemma MaxScoresSumToHundred(contracts: seq<Contract>, analytics: Option<Analytics>,
                              gamma: Option<GammaLevels>, ctx: HistoricalContext, decay: int -> real)
    ensures SumMax(NineSignals(contracts, analytics, gamma, ctx, decay)) == 100
  {
    var ss := NineSignals(contracts, analytics, gamma, ctx, decay);
    ScoredMaxIsHundred(ss, 0.0 <= ctx.ivRank <= 1.0);
  }

  /** The total of nine scores, term by term. */
  lemma SumOfNine(ss: seq<SignalScore>)
    requires |ss| == 9
    ensures SumScores(ss) == ss[0].score + ss[1].score + ss[2].score + ss[3].score + ss[4].score
      + ss[5].score + ss[6].score + ss[7].score + ss[8].score
  {
    assert SumScores(ss[9..]) == 0;
    assert SumScores(ss[8..]) == ss[8].score + SumScores(ss[9..]) by { assert ss[8..][1..] == ss[9..]; }
    assert SumScores(ss[7..]) == ss[7].score + SumScores(ss[8..]) by { assert ss[7..][1..] == ss[8..]; }
    assert SumScores(ss[6..]) == ss[6].score + SumScores(ss[7..]) by { assert ss[6..][1..] == ss[7..]; }
    assert SumScores(ss[5..]) == ss[5].score + SumScores(ss[6..]) by { assert ss[5..][1..] == ss[6..]; }
    assert SumScores(ss[4..]) == ss[4].score + SumScores(ss[5..]) by { assert ss[4..][1..] == ss[5..]; }
    assert SumScores(ss[3..]) == ss[3].score + SumScores(ss[4..]) by { assert ss[3..][1..] == ss[4..]; }
    assert SumScores(ss[2..]) == ss[2].score + SumScores(ss[3..]) by { assert ss[2..][1..] == ss[3..]; }
    assert SumScores(ss[1..]) == ss[1].score + SumScores(ss[2..]) by { assert ss[1..][1..] == ss[2..]; }
  }

  /** The risk sentences, or the standard one when none applies. */
  function RiskNotes(regime: Regime, wall: WallPosition, pcDetail: Detail, score: int, ivRank: real): (notes: seq<RiskNote>)
    ensures notes != []
    ensures NegativeGexRegime in notes <==> regime == Negative
    ensures NoNearbyWall in notes <==> wall == MidRange
    ensures NoSkewConviction in notes <==> pcDetail == Skewed(Balanced)
    ensures LowSignalStrength in notes <==> score < 40
    ensures IvElevated in notes <==> ivRank > 0.8
    ensures StandardRisk in notes <==> notes == [StandardRisk]
    ensures StandardRisk in notes <==>
      regime != Negative && wall != MidRange && pcDetail != Skewed(Balanced) && score >= 40 && ivRank <= 0.8
  {
    var parts :=
      (if regime == Negative then [NegativeGexRegime] else [])
      + (if wall == MidRange then [NoNearbyWall] else [])
      + (if pcDetail == Skewed(Balanced) then [NoSkewConviction] else [])
      + (if score < 40 then [LowSignalStrength] else [])
      + (if ivRank > 0.8 then [IvElevated] else []);
    if parts == [] then [StandardRisk] else parts
  }

  /** The part of `score_ticker` after the nine signals: the clamped total,
      the strategy lookup and the risk notes. */
  function Assemble(ticker: string, ss: seq<SignalScore>, price: real, net: real, ivRank: real,
                    gamma: Option<GammaLevels>): (r: Recommendation)
    requires |ss| == 9
    ensures r.ticker == ticker && r.signals == ss
    ensures r.priceAtScore == price && r.netGexValue == net && r.ivRankValue == ivRank
    ensures 0 <= r.score <= 100
    ensures r.score == ClampInt(SumScores(ss), 0, 100)
    ensures 0 <= SumScores(ss) <= 100 ==> r.score == SumScores(ss)
    ensures SumScores(ss) > 100 ==> r.score == 100
    ensures r.direction == PlayDirection(r.playType)
    ensures r.playType == Strategy(RegimeOf(net), WallPositionOf(price, CallWall(gamma), PutWall(gamma)),
      SkewOf(ss[2].detail, ss[5].detail))
    ensures NegativeGexRegime in r.riskNotes <==> net < 0.0
    ensures NoNearbyWall in r.riskNotes <==> WallPositionOf(price, CallWall(gamma), PutWall(gamma)) == MidRange
    ensures LowSignalStrength in r.riskNotes <==> r.score < 40
    ensures IvElevated in r.riskNotes <==> ivRank > 0.8
    ensures NoSkewConviction in r.riskNotes <==> ss[2].detail == Skewed(Balanced)
    ensures StandardRisk in r.riskNotes <==> r.riskNotes == [StandardRisk]
    ensures StandardRisk in r.riskNotes <==>
      net >= 0.0 && WallPositionOf(price, CallWall(gamma), PutWall(gamma)) != MidRange
      && ss[2].detail != Skewed(Balanced) && r.score >= 40 && ivRank <= 0.8
  {
    var total := ClampInt(SumScores(ss), 0, 100);
    var regime := RegimeOf(net);
    var wall := WallPositionOf(price, CallWall(gamma), PutWall(gamma));
    var skew := SkewOf(ss[2].detail, ss[5].detail);
    var strategy := GetStrategy(RegimeLabel(regime), WallLabel(wall), SkewLabel(skew));
    LookupMatchesTable(regime, wall, skew);
    Recommendation(ticker, total, strategy.direction, strategy.playType,
      RiskNotes(regime, wall, ss[2].detail, total, ivRank), ss, price, ivRank, net)
  }

  /** The historical context used for scoring: the neutral default when it
      could not be fetched. */
  function ContextOf(history: Option<HistoricalContext>): HistoricalContext
  {
    if history.Some? then history.value else DefaultContext
  }

  /** `score_ticker`; a missing historical context is the neutral default. */
  function ScoreTicker(ticker: string, contracts: seq<Contract>, analytics: Option<Analytics>,
                       gamma: Option<GammaLevels>, history: Option<HistoricalContext>,
                       decay: int -> real): (r: Recommendation)
    ensures r.ticker == ticker
    ensures 0 <= r.score <= 100
    ensures r.score == ClampInt(SumScores(r.signals), 0, 100)
    ensures SumScores(r.signals) > 100 ==> r.score == 100
    ensures |r.signals| == 9
    ensures forall i :: 0 <= i < 9 ==>
      r.signals[i].signal == SignalOrder[i] && r.signals[i].maxScore == Weight(SignalOrder[i])
    ensures r.priceAtScore == PriceOf(analytics)
    ensures r.netGexValue == GammaNet(gamma)
    ensures history.None? ==> r.ivRankValue == 0.5
    ensures history.Some? ==> r.ivRankValue == history.value.ivRank
    ensures r.direction == PlayDirection(r.playType)
    ensures r.playType == Strategy(RegimeOf(r.netGexValue),
      WallPositionOf(r.priceAtScore, CallWall(gamma), PutWall(gamma)),
      SkewOf(r.signals[2].detail, r.signals[5].detail))
    ensures NegativeGexRegime in r.riskNotes <==> r.netGexValue < 0.0
    ensures LowSignalStrength in r.riskNotes <==> r.score < 40
    ensures IvElevated in r.riskNotes <==> r.ivRankValue > 0.8
    ensures NoSkewConviction in r.riskNotes <==> r.signals[2].detail == Skewed(Balanced)
    ensures NoNearbyWall in r.riskNotes <==>
      WallPositionOf(r.priceAtScore, CallWall(gamma), PutWall(gamma)) == MidRange
    ensures StandardRisk in r.riskNotes <==> r.riskNotes == [StandardRisk]
    ensures StandardRisk in r.riskNotes <==>
      r.netGexValue >= 0.0 && WallPositionOf(r.priceAtScore, CallWall(gamma), PutWall(gamma)) != MidRange
      && r.signals[2].detail != Skewed(Balanced) && r.score >= 40 && r.ivRankValue <= 0.8
    ensures r.signals == NineSignals(contracts, analytics, gamma, ContextOf(history), decay)
  {
    var ctx := ContextOf(history);
    Assemble(ticker, NineSignals(contracts, analytics, gamma, ctx, decay),
      PriceOf(analytics), GammaNet(gamma), ctx.ivRank, gamma)
  }

  /** With an IV rank inside [0, 1] every signal stays within its weight, so
      the clamp to [0, 100] never changes the sum. */
  lemma {:induction false} ClampNeverBites(ticker: string, contracts: seq<Contract>, analytics: Option<Analytics>,
                                           gamma: Option<GammaLevels>, history: Option<HistoricalContext>,
                                           decay: int -> real)
    requires history.Some? ==> 0.0 <= history.value.ivRank <= 1.0
    ensures var r := ScoreTicker(ticker, contracts, analytics, gamma, history, decay);
      r.score == SumScores(r.signals)
  {
    var ctx := ContextOf(history);
    assert 0.0 <= ctx.ivRank <= 1.0;
    var ss := NineSignals(contracts, analytics, gamma, ctx, decay);
    ScoredSumInRange(ss);
    assert ScoreTicker(ticker, contracts, analytics, gamma, history, decay)
      == Assemble(ticker, ss, PriceOf(analytics), GammaNet(gamma), ctx.ivRank, gamma);
  }

  /** Nine in-range scores for the signals in scoring order total 0..100. */
  lemma ScoredSumInRange(ss: seq<SignalScore>)
    requires |ss| == 9
    requires forall i :: 0 <= i < 9 ==> Scored(ss[i], SignalOrder[i], true)
    ensures 0 <= SumScores(ss) <= 100
  {
    SumWithinMax(ss);
    ScoredMaxIsHundred(ss, true);
  }

  /** The score is the plain sum of the nine signals whenever that sum is in
      range; in particular it is never below the sum's floor of 0. */
  lemma {:induction false} ScoreIsClampedSum(ticker: string, contracts: seq<Contract>, analytics: Option<Analytics>,
                                             gamma: Option<GammaLevels>, history: Option<HistoricalContext>,
                                             decay: int -> real)
    ensures var r := ScoreTicker(ticker, contracts, analytics, gamma, history, decay);
      SumScores(r.signals) >= 0 && (SumScores(r.signals) <= 100 ==> r.score == SumScores(r.signals))
  {
    SumNonNegative(NineSignals(contracts, analytics, gamma, ContextOf(history), decay));
  }

  /** With no data at all the score is the small base of the neutral IV rank
      (1 point) and the neutral DTE multiplier (3 points), and the play is an
      iron condor. */
  lemma EmptyTickerScore(decay: int -> real)
    ensures var r := ScoreTicker("SPY", [], None, None, None, decay);
      r.score == 4 && r.playType == IronCondor && r.direction == Neutral
      && r.riskNotes == [NoNearbyWall, LowSignalStrength]
  {
    var ss := NineSignals([], None, None, DefaultContext, decay);
    EmptySignalsSum(decay);
    assert ss[2].detail == NoData;
    assert ss[5].detail == NoData;
    assert WallPositionOf(0.0, None, None) == MidRange;
    assert Strategy(Positive, MidRange, NeutralSkew) == IronCondor;
    assert RiskNotes(Positive, MidRange, NoData, 4, 0.5) == [NoNearbyWall, LowSignalStrength];
  }

  /** The nine signals of a ticker with no data sum to 4 points. */
  lemma EmptySignalsSum(decay: int -> real)
    ensures SumScores(NineSignals([], None, None, DefaultContext, decay)) == 4
  {
    var ss := NineSignals([], None, None, DefaultContext, decay);
    assert ss[4].score == 1 by { assert Points(0.1, 10) == 1; }
    assert ss[8].score == 3 by {
      assert DteWeight([], 0.0) == 1.0;
      assert Points(0.45, 8) == 3;
    }
    SumOfNine(ss);
  }

  // ---------------------------------------------------------------- all tickers

  /** Insert a ticker into a strictly sorted ticker list (a set union step). */
  function InsertTicker(t: string, s: seq<string>): (r: seq<string>)
    requires StrictlySorted(s)
    ensures StrictlySorted(r)
    ensures forall x :: x in r <==> x == t || x in s
  {
    if |s| == 0 then [t]
    else if t == s[0] then s
    else if StrLt(t, s[0]) then
      assert forall j :: 0 <= j < |s| ==> StrLt(t, s[j]) by {
        forall j | 0 <= j < |s| ensures StrLt(t, s[j]) {
          if j > 0 { StrLtTransitive(t, s[0], s[j]); }
        }
      }
      [t] + s
    else
      StrLtTotal(t, s[0]);
      var rest := InsertTicker(t, s[1..]);
      assert forall x :: x in rest ==> StrLt(s[0], x) by {
        forall x | x in rest ensures StrLt(s[0], x) {
          if x != t {
            var j :| 0 <= j < |s[1..]| && s[1..][j] == x;
            assert s[j + 1] == x;
          }
        }
      }
      assert forall x :: x in s ==> x == s[0] || x in s[1..] by {
        forall x | x in s ensures x == s[0] || x in s[1..] {
          var j :| 0 <= j < |s| && s[j] == x;
          if j > 0 { assert s[1..][j - 1] == x; }
        }
      }
      [s[0]] + rest
  }

  /** The distinct tickers of `ts` in ascending order. */
  function SortedTickers(ts: seq<string>): (r: seq<string>)
    ensures StrictlySorted(r)
    ensures forall x :: x in r <==> x in ts
  {
    if |ts| == 0 then []
    else
      var r := InsertTicker(ts[0], SortedTickers(ts[1..]));
      assert forall x :: x in ts ==> x == ts[0] || x in ts[1..] by {
        forall x | x in ts ensures x == ts[0] || x in ts[1..] {
          var j :| 0 <= j < |ts| && ts[j] == x;
          if j > 0 { assert ts[1..][j - 1] == x; }
        }
      }
      r
  }

  /** A strictly sorted list is determined by its elements: `SortedTickers`
      is exactly Python's `sorted` of the set. */
  lemma {:induction false} StrictlySortedUnique(a: seq<string>, b: seq<string>)
    requires StrictlySorted(a) && StrictlySorted(b)
    requires forall x :: x in a <==> x in b
    ensures a == b
  {
    assert |a| > 0 ==> a[0] in b;
    assert |b| > 0 ==> b[0] in a;
    if |a| > 0 && |b| > 0 {
      if a[0] != b[0] {
        var i :| 0 <= i < |a| && a[i] == b[0];
        var j :| 0 <= j < |b| && b[j] == a[0];
        assert StrLt(a[0], b[0]) by { assert i > 0; }
        assert StrLt(b[0], a[0]) by { assert j > 0; }
        StrLtAsymmetric(a[0], b[0]);
      }
      forall x ensures x in a[1..] <==> x in b[1..] {
        if x in a[1..] {
          var i :| 0 <= i < |a[1..]| && a[1..][i] == x;
          assert StrLt(a[0], x) by { assert a[i + 1] == x; }
          StrLtIrreflexive(x);
          assert x in a;
          assert x in b;
          var j :| 0 <= j < |b| && b[j] == x;
          assert j > 0;
          assert b[1..][j - 1] == x;
        }
        if x in b[1..] {
          var j :| 0 <= j < |b[1..]| && b[1..][j] == x;
          assert StrLt(b[0], x) by { assert b[j + 1] == x; }
          StrLtIrreflexive(x);
          assert x in b;
          assert x in a;
          var i :| 0 <= i < |a| && a[i] == x;
          assert i > 0;
          assert a[1..][i - 1] == x;
        }
      }
      StrictlySortedUnique(a[1..], b[1..]);
      assert a == [a[0]] + a[1..] && b == [b[0]] + b[1..];
    }
  }

  /** The non-empty symbols of the contracts, in order. */
  function ContractTickers(contracts: seq<Contract>): (ts: seq<string>)
    ensures forall t :: t in ts <==> t != "" && exists i :: 0 <= i < |contracts| && contracts[i].symbol == t
  {
    if |contracts| == 0 then []
    else
      var rest := ContractTickers(contracts[1..]);
      assert forall i :: 1 <= i < |contracts| ==> contracts[i] == contracts[1..][i - 1];
      (if contracts[0].symbol != "" then [contracts[0].symbol] else []) + rest
  }

  function Keys<T>(entries: seq<Keyed<T>>): (ks: seq<string>)
    ensures |ks| == |entries|
    ensures forall i :: 0 <= i < |entries| ==> ks[i] == entries[i].ticker
  {
    if |entries| == 0 then [] else [entries[0].ticker] + Keys(entries[1..])
  }

  /** The contracts whose symbol is `t`, in their original order. */
  function WithSymbol(contracts: seq<Contract>, t: string): seq<Contract>
  {
    if |contracts| == 0 then []
    else (if contracts[0].symbol == t then [contracts[0]] else []) + WithSymbol(contracts[1..], t)
  }

  /** `WithSymbol` keeps every contract carrying `t`, as often as it occurs,
      and nothing else. */
  lemma {:induction false} WithSymbolCount(contracts: seq<Contract>, t: string)
    ensures forall i :: 0 <= i < |WithSymbol(contracts, t)| ==> WithSymbol(contracts, t)[i].symbol == t
    ensures forall c :: multiset(WithSymbol(contracts, t))[c] == (if c.symbol == t then multiset(contracts)[c] else 0)
  {
    if |contracts| > 0 {
      WithSymbolCount(contracts[1..], t);
      assert contracts == [contracts[0]] + contracts[1..];
    }
  }

  /** `by_ticker.get(t, [])`: the grouping skips empty symbols, so the empty
      ticker never has contracts. */
  function ContractsOf(contracts: seq<Contract>, t: string): (cs: seq<Contract>)
    ensures t == "" ==> cs == []
    ensures forall i :: 0 <= i < |cs| ==> cs[i].symbol == t
  {
    if t == "" then [] else WithSymbolCount(contracts, t); WithSymbol(contracts, t)
  }

  /** A non-empty ticker gets every one of its contracts, as often as it
      occurs in the input, and nothing else. */
  lemma ContractsOfCount(contracts: seq<Contract>, t: string)
    ensures forall c :: multiset(ContractsOf(contracts, t))[c] == (if t != "" && c.symbol == t then multiset(contracts)[c] else 0)
  {
    if t != "" {
      WithSymbolCount(contracts, t);
    }
  }

  /** Grouping keeps the input order: the contracts of a concatenation are
      those of its first part followed by those of its second. */
  lemma {:induction false} ContractsOfAppend(a: seq<Contract>, b: seq<Contract>, t: string)
    ensures ContractsOf(a + b, t) == ContractsOf(a, t) + ContractsOf(b, t)
  {
    if t != "" {
      WithSymbolAppend(a, b, t);
    }
  }

  lemma {:induction false} WithSymbolAppend(a: seq<Contract>, b: seq<Contract>, t: string)
    ensures WithSymbol(a + b, t) == WithSymbol(a, t) + WithSymbol(b, t)
  {
    if |a| > 0 {
      assert (a + b)[0] == a[0] && (a + b)[1..] == a[1..] + b;
      WithSymbolAppend(a[1..], b, t);
    } else {
      assert a + b == b;
    }
  }

  /** A single contract is kept exactly when it carries the (non-empty) ticker. */
  lemma ContractsOfSingle(c: Contract, t: string)
    ensures ContractsOf([c], t) == if t != "" && c.symbol == t then [c] else []
  {
    if t != "" {
      assert [c][1..] == [];
      assert WithSymbol([c], t) == (if c.symbol == t then [c] else []) + WithSymbol([], t);
    }
  }

  /** The tickers of a cycle: symbols with contracts, analytics keys and
      gamma keys, sorted. */
  function AllTickers(contracts: seq<Contract>, analytics: seq<Keyed<Analytics>>,
                      gamma: seq<Keyed<GammaLevels>>): (ts: seq<string>)
    ensures StrictlySorted(ts)
    ensures forall t :: t in ts <==>
      (t != "" && exists i :: 0 <= i < |contracts| && contracts[i].symbol == t)
      || (exists i :: 0 <= i < |analytics| && analytics[i].ticker == t)
      || (exists i :: 0 <= i < |gamma| && gamma[i].ticker == t)
  {
    var ks := Keys(analytics);
    var gs := Keys(gamma);
    assert forall t :: t in ks <==> exists i :: 0 <= i < |analytics| && analytics[i].ticker == t by {
      forall t ensures t in ks <==> exists i :: 0 <= i < |analytics| && analytics[i].ticker == t {
        if t in ks { var i :| 0 <= i < |ks| && ks[i] == t; }
      }
    }
    assert forall t :: t in gs <==> exists i :: 0 <= i < |gamma| && gamma[i].ticker == t by {
      forall t ensures t in gs <==> exists i :: 0 <= i < |gamma| && gamma[i].ticker == t {
        if t in gs { var i :| 0 <= i < |gs| && gs[i] == t; }
      }
    }
    SortedTickers(ContractTickers(contracts) + ks + gs)
  }

  /** What one ticker's recommendation is computed from. */
  function ScoreOne(t: string, contracts: seq<Contract>, analytics: seq<Keyed<Analytics>>,
                    gamma: seq<Keyed<GammaLevels>>, contexts: string -> HistoricalContext,
                    decay: int -> real): (r: Recommendation)
    ensures r.ticker == t
  {
    ScoreTicker(t, ContractsOf(contracts, t), Lookup(analytics, t), Lookup(gamma, t), Some(contexts(t)), decay)
  }

  /** A ticker is scored from its own data: its grouped contracts (none for
      the empty ticker), and its own analytics, gamma levels and context. */
  lemma ScoreOneData(t: string, contracts: seq<Contract>, analytics: seq<Keyed<Analytics>>,
                     gamma: seq<Keyed<GammaLevels>>, contexts: string -> HistoricalContext, decay: int -> real)
    ensures var r := ScoreOne(t, contracts, analytics, gamma, contexts, decay);
      && r.signals == NineSignals(ContractsOf(contracts, t), Lookup(analytics, t), Lookup(gamma, t), contexts(t), decay)
      && (t == "" ==> r.signals == NineSignals([], Lookup(analytics, t), Lookup(gamma, t), contexts(t), decay))
      && r.priceAtScore == PriceOf(Lookup(analytics, t))
      && r.netGexValue == GammaNet(Lookup(gamma, t))
      && r.ivRankValue == contexts(t).ivRank
  {
  }

  /** The loop over sorted tickers, `score` standing for one ticker's
      scoring; tickers in `failing` raise and are skipped. */
  function ScoreEach(ts: seq<string>, score: string -> Recommendation, failing: set<string>): (rs: seq<Recommendation>)
    requires forall t :: score(t).ticker == t
    ensures |rs| <= |ts|
    ensures forall i :: 0 <= i < |rs| ==> rs[i] == score(rs[i].ticker)
    ensures forall i :: 0 <= i < |rs| ==> rs[i].ticker in ts && rs[i].ticker !in failing
  {
    if |ts| == 0 then []
    else
      var rest := ScoreEach(ts[1..], score, failing);
      assert forall i :: 0 <= i < |rest| ==> rest[i].ticker in ts by {
        forall i | 0 <= i < |rest| ensures rest[i].ticker in ts {
          var k :| 0 <= k < |ts[1..]| && ts[1..][k] == rest[i].ticker;
          assert ts[k + 1] == rest[i].ticker;
        }
      }
      (if ts[0] in failing then [] else [score(ts[0])]) + rest
  }

  /** Every ticker that does not fail gets a recommendation. */
  lemma {:induction false} ScoreEachCovers(ts: seq<string>, score: string -> Recommendation, failing: set<string>, t: string)
    requires forall t :: score(t).ticker == t
    requires t in ts && t !in failing
    ensures exists i :: 0 <= i < |ScoreEach(ts, score, failing)| && ScoreEach(ts, score, failing)[i].ticker == t
  {
    var rs := ScoreEach(ts, score, failing);
    var rest := ScoreEach(ts[1..], score, failing);
    var head := if ts[0] in failing then [] else [score(ts[0])];
    assert rs == head + rest;
    if t == ts[0] {
      assert rs[0].ticker == t;
    } else {
      var k :| 0 <= k < |ts| && ts[k] == t;
      assert ts[1..][k - 1] == t;
      ScoreEachCovers(ts[1..], score, failing, t);
      var i :| 0 <= i < |rest| && rest[i].ticker == t;
      assert rs[i + |head|].ticker == t;
    }
  }

  /** Strictly increasing tickers. */
  predicate TickerOrdered(rs: seq<Recommendation>)
  {
    forall i, j :: 0 <= i < j < |rs| ==> StrLt(rs[i].ticker, rs[j].ticker)
  }

  /** The recommendations come out in ticker order. */
  lemma {:induction false} ScoreEachSorted(ts: seq<string>, score: string -> Recommendation, failing: set<string>)
    requires StrictlySorted(ts)
    requires forall t :: score(t).ticker == t
    ensures TickerOrdered(ScoreEach(ts, score, failing))
  {
    if |ts| > 0 {
      var rs := ScoreEach(ts, score, failing);
      var rest := ScoreEach(ts[1..], score, failing);
      var head := if ts[0] in failing then [] else [score(ts[0])];
      assert rs == head + rest;
      ScoreEachSorted(ts[1..], score, failing);
      forall j | 0 <= j < |rest| ensures StrLt(ts[0], rest[j].ticker) {
        var k :| 0 <= k < |ts[1..]| && ts[1..][k] == rest[j].ticker;
        assert ts[k + 1] == rest[j].ticker;
      }
      forall i, j | 0 <= i < j < |rs| ensures StrLt(rs[i].ticker, rs[j].ticker) {
        assert rs[j] == rest[j - |head|];
        if i >= |head| {
          assert rs[i] == rest[i - |head|];
        } else {
          assert rs[i].ticker == ts[0];
          assert StrLt(ts[0], rest[j - |head|].ticker);
        }
      }
    }
  }

  /** Higher score first; equal scores keep ticker order. */
  predicate RankedBefore(a: Recommendation, b: Recommendation)
  {
    a.score > b.score || (a.score == b.score && StrLt(a.ticker, b.ticker))
  }

  predicate Ranked(rs: seq<Recommendation>)
  {
    forall i, j :: 0 <= i < j < |rs| ==> RankedBefore(rs[i], rs[j])
  }

  /** One step of the stable descending sort: `r` goes in front of the first
      entry whose score does not exceed its own. */
  function InsertByScore(r: Recommendation, s: seq<Recommendation>): (out: seq<Recommendation>)
    ensures multiset(out) == multiset(s) + multiset{r}
    ensures |out| == |s| + 1
  {
    if |s| == 0 || s[0].score <= r.score then [r] + s
    else
      assert s == [s[0]] + s[1..];
      [s[0]] + InsertByScore(r, s[1..])
  }

  lemma {:induction false} InsertByScoreRanked(r: Recommendation, s: seq<Recommendation>)
    requires Ranked(s)
    requires forall j :: 0 <= j < |s| ==> StrLt(r.ticker, s[j].ticker)
    ensures Ranked(InsertByScore(r, s))
  {
    if |s| == 0 {
    } else if s[0].score <= r.score {
      forall j | 0 <= j < |s| ensures RankedBefore(r, s[j]) {
        if j > 0 {
          assert RankedBefore(s[0], s[j]);
        }
      }
    } else {
      assert Ranked(s[1..]) by {
        forall i, j | 0 <= i < j < |s[1..]| ensures RankedBefore(s[1..][i], s[1..][j]) {
          assert RankedBefore(s[i + 1], s[j + 1]);
        }
      }
      InsertByScoreRanked(r, s[1..]);
      var rest := InsertByScore(r, s[1..]);
      forall j | 0 <= j < |rest| ensures RankedBefore(s[0], rest[j]) {
        assert rest[j] in multiset(s[1..]) + multiset{r};
        if rest[j] != r {
          assert rest[j] in s[1..];
          var k :| 0 <= k < |s[1..]| && s[1..][k] == rest[j];
          assert RankedBefore(s[0], s[k + 1]);
        }
      }
    }
  }

  /** `recommendations.sort(key=score, reverse=True)` as an insertion sort. */
  function SortByScore(rs: seq<Recommendation>): (out: seq<Recommendation>)
    ensures multiset(out) == multiset(rs)
    ensures |out| == |rs|
  {
    if |rs| == 0 then []
    else
      assert rs == [rs[0]] + rs[1..];
      InsertByScore(rs[0], SortByScore(rs[1..]))
  }

  /** Sorting a ticker-ordered list yields score-descending order with ties
      in ticker order: the stable sort keeps the earlier of two equal scores
      first. */
  lemma {:induction false} SortByScoreRanked(rs: seq<Recommendation>)
    requires TickerOrdered(rs)
    ensures Ranked(SortByScore(rs))
  {
    if |rs| > 0 {
      SortByScoreRanked(rs[1..]);
      var sorted := SortByScore(rs[1..]);
      forall j | 0 <= j < |sorted| ensures StrLt(rs[0].ticker, sorted[j].ticker) {
        assert sorted[j] in multiset(rs[1..]);
        var k :| 0 <= k < |rs[1..]| && rs[1..][k] == sorted[j];
        assert rs[k + 1] == sorted[j];
      }
      InsertByScoreRanked(rs[0], sorted);
    }
  }

  /** Score every ticker of a list and rank the results. */
  function RankTickers(ts: seq<string>, score: string -> Recommendation, failing: set<string>): (rs: seq<Recommendation>)
    requires forall t :: score(t).ticker == t
    ensures multiset(rs) == multiset(ScoreEach(ts, score, failing))
  {
    SortByScore(ScoreEach(ts, score, failing))
  }

  /** Sequences with equal multisets hold the same elements. */
  lemma SameElements<T>(a: seq<T>, b: seq<T>)
    requires multiset(a) == multiset(b)
    ensures forall x :: x in a <==> x in b
  {
    forall x ensures x in a <==> x in b {
      assert x in a <==> x in multiset(a);
      assert x in b <==> x in multiset(b);
    }
  }

  /** Ranking a strictly sorted ticker list: score-descending with ties in
      ticker order, one recommendation per ticker that does not fail, each
      the scoring of its own ticker. */
  lemma {:induction false} RankTickersCorrect(ts: seq<string>, score: string -> Recommendation, failing: set<string>)
    requires StrictlySorted(ts)
    requires forall t :: score(t).ticker == t
    ensures var rs := RankTickers(ts, score, failing);
      && Ranked(rs)
      && (forall i :: 0 <= i < |rs| ==> rs[i] == score(rs[i].ticker))
      && (forall t :: (exists i :: 0 <= i < |rs| && rs[i].ticker == t) <==> t in ts && t !in failing)
  {
    var scored := ScoreEach(ts, score, failing);
    var rs := RankTickers(ts, score, failing);
    ScoreEachSorted(ts, score, failing);
    SortByScoreRanked(scored);
    SameElements(rs, scored);
    forall i | 0 <= i < |rs| ensures rs[i] == score(rs[i].ticker) {
      assert rs[i] in scored;
    }
    forall t ensures (exists i :: 0 <= i < |rs| && rs[i].ticker == t) <==> t in ts && t !in failing {
      if t in ts && t !in failing {
        ScoreEachCovers(ts, score, failing, t);
        var k :| 0 <= k < |scored| && scored[k].ticker == t;
        assert scored[k] in rs;
      }
      if exists i :: 0 <= i < |rs| && rs[i].ticker == t {
        var i :| 0 <= i < |rs| && rs[i].ticker == t;
        assert rs[i] in scored;
      }
    }
  }

  /** `score_all_tickers`. `contexts` supplies each ticker's historical
      context; `failing` holds the tickers whose scoring raises. */
  function ScoreAllTickers(contracts: seq<Contract>, analytics: seq<Keyed<Analytics>>,
                           gamma: seq<Keyed<GammaLevels>>, contexts: string -> HistoricalContext,
                           failing: set<string>, decay: int -> real): (rs: seq<Recommendation>)
    ensures Ranked(rs)
    ensures forall i :: 0 <= i < |rs| ==> rs[i] == ScoreOne(rs[i].ticker, contracts, analytics, gamma, contexts, decay)
    ensures forall t ::
      (exists i :: 0 <= i < |rs| && rs[i].ticker == t) <==> t in AllTickers(contracts, analytics, gamma) && t !in failing
  {
    var score := t => ScoreOne(t, contracts, analytics, gamma, contexts, decay);
    RankTickersCorrect(AllTickers(contracts, analytics, gamma), score, failing);
    RankTickers(AllTickers(contracts, analytics, gamma), score, failing)
  }

  /** Ranked recommendations never go up in score. */
  lemma RankedIsDescending(rs: seq<Recommendation>, i: int, j: int)
    requires Ranked(rs)
    requires 0 <= i < j < |rs|
    ensures rs[i].score >= rs[j].score
    ensures rs[i].score == rs[j].score ==> StrLt(rs[i].ticker, rs[j].ticker)
  {
    assert RankedBefore(rs[i], rs[j]);
  }

  /** No contracts, analytics or gamma levels: nothing to score. */
  lemma EmptyCycle(contexts: string -> HistoricalContext, failing: set<string>, decay: int -> real)
    ensures ScoreAllTickers([], [], [], contexts, failing, decay) == []
  {
  }
}
