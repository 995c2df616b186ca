/** The strategy mapper: a fixed table from (GEX regime, wall position, skew)
    to a suggested options play, looked up by the three string labels the
    scorer produces, with a neutral fallback for any other key. */
module Strategies {

  datatype Regime = Positive | Negative
  datatype WallPosition = NearCallWall | NearPutWall | MidRange
  datatype Skew = BullishSkew | BearishSkew | NeutralSkew

  datatype Direction = Bullish | Bearish | Neutral

  datatype PlayType =
    | BearCallSpread
    | BullCallSpread
    | BullPutSpread
    | BearPutSpread
    | IronCondor
    | LongStraddle

  datatype RiskProfile = DefinedRisk | UndefinedRisk

  datatype StrategyRecommendation = StrategyRecommendation(
    playType: PlayType,
    direction: Direction,
    riskProfile: RiskProfile)

  /** The key labels as the table spells them. */
  function RegimeLabel(r: Regime): string
  {
    match r
    case Positive => "positive"
    case Negative => "negative"
  }

  function WallLabel(w: WallPosition): string
  {
    match w
    case NearCallWall => "near_call_wall"
    case NearPutWall => "near_put_wall"
    case MidRange => "mid_range"
  }

  function SkewLabel(s: Skew): string
  {
    match s
    case BullishSkew => "bullish"
    case BearishSkew => "bearish"
    case NeutralSkew => "neutral"
  }

  type Key = (string, string, string)

  function KeyOf(r: Regime, w: WallPosition, s: Skew): Key
  {
    (RegimeLabel(r), WallLabel(w), SkewLabel(s))
  }

  function Entry(p: PlayType, d: Direction): StrategyRecommendation
  {
    StrategyRecommendation(p, d, DefinedRisk)
  }

  /** STRATEGY_MAP, entry for entry (play type and direction; the
      descriptions are free text and not modelled). */
  const StrategyMap: map<Key, StrategyRecommendation> := map[
    ("positive", "near_call_wall", "bullish") := Entry(BearCallSpread, Bearish),
    ("positive", "near_call_wall", "bearish") := Entry(BearCallSpread, Bearish),
    ("positive", "near_call_wall", "neutral") := Entry(IronCondor, Neutral),
    ("positive", "near_put_wall", "bullish") := Entry(BullCallSpread, Bullish),
    ("positive", "near_put_wall", "bearish") := Entry(BullPutSpread, Bullish),
    ("positive", "near_put_wall", "neutral") := Entry(BullPutSpread, Bullish),
    ("positive", "mid_range", "bullish") := Entry(IronCondor, Neutral),
    ("positive", "mid_range", "bearish") := Entry(IronCondor, Neutral),
    ("positive", "mid_range", "neutral") := Entry(IronCondor, Neutral),
    ("negative", "near_call_wall", "bullish") := Entry(BullCallSpread, Bullish),
    ("negative", "near_call_wall", "bearish") := Entry(BearPutSpread, Bearish),
    ("negative", "near_call_wall", "neutral") := Entry(LongStraddle, Neutral),
    ("negative", "near_put_wall", "bullish") := Entry(BullCallSpread, Bullish),
    ("negative", "near_put_wall", "bearish") := Entry(BearPutSpread, Bearish),
    ("negative", "near_put_wall", "neutral") := Entry(LongStraddle, Neutral),
    ("negative", "mid_range", "bullish") := Entry(BullCallSpread, Bullish),
    ("negative", "mid_range", "bearish") := Entry(BearPutSpread, Bearish),
    ("negative", "mid_range", "neutral") := Entry(LongStraddle, Neutral)
  ]

  /** The play returned for a key the table does not hold. */
  const Fallback: StrategyRecommendation := Entry(IronCondor, Neutral)

  /** `get_strategy`: the table entry for a present key, otherwise the fallback. */
  function GetStrategy(regime: string, wall: string, skew: string): (s: StrategyRecommendation)
    ensures (regime, wall, skew) in StrategyMap ==> s == StrategyMap[(regime, wall, skew)]
    ensures (regime, wall, skew) !in StrategyMap ==> s == Fallback
    ensures s.riskProfile == DefinedRisk
    ensures s.direction == PlayDirection(s.playType)
  {
    var key := (regime, wall, skew);
    if key in StrategyMap then StrategyMap[key] else Fallback
  }

  /** The direction each play type implies. */
  function PlayDirection(p: PlayType): Direction
  {
    match p
    case BullCallSpread => Bullish
    case BullPutSpread => Bullish
    case BearCallSpread => Bearish
    case BearPutSpread => Bearish
    case IronCondor => Neutral
    case LongStraddle => Neutral
  }

  /** The table as an exhaustive match over the three enumerated axes: the
      independent reference the string-keyed map is checked against. */
  function Strategy(r: Regime, w: WallPosition, s: Skew): (p: PlayType)
  {
    match (r, w, s)
    case (Positive, NearCallWall, NeutralSkew) => IronCondor
    case (Positive, NearCallWall, _) => BearCallSpread
    case (Positive, NearPutWall, BullishSkew) => BullCallSpread
    case (Positive, NearPutWall, _) => BullPutSpread
    case (Positive, MidRange, _) => IronCondor
    case (Negative, _, BullishSkew) => BullCallSpread
    case (Negative, _, BearishSkew) => BearPutSpread
    case (Negative, _, NeutralSkew) => LongStraddle
  }

  /** Every label triple is a key of the table. */
  lemma {:induction false} EveryCombinationIsKey(r: Regime, w: WallPosition, s: Skew)
    ensures KeyOf(r, w, s) in StrategyMap
  {
  }

  /** Every key of the table is a label triple. */
  lemma {:induction false} EveryKeyIsCombination(k: Key)
    requires k in StrategyMap
    ensures exists r, w, s :: k == KeyOf(r, w, s)
  {
    var r := if k.0 == "positive" then Positive else Negative;
    var w := if k.1 == "near_call_wall" then NearCallWall else if k.1 == "near_put_wall" then NearPutWall else MidRange;
    var s := if k.2 == "bullish" then BullishSkew else if k.2 == "bearish" then BearishSkew else NeutralSkew;
    assert k == KeyOf(r, w, s);
  }

  /** Distinct enum triples have distinct label triples. */
  lemma LabelsInjective()
    ensures forall r1, w1, s1, r2, w2, s2 :: KeyOf(r1, w1, s1) == KeyOf(r2, w2, s2) ==> r1 == r2 && w1 == w2 && s1 == s2
  {
  }

  /** Looking up the labels of any enum triple hits the table (never the
      fallback) and agrees with the exhaustive match. */
  lemma {:induction false} LookupMatchesTable(r: Regime, w: WallPosition, s: Skew)
    ensures KeyOf(r, w, s) in StrategyMap
    ensures GetStrategy(RegimeLabel(r), WallLabel(w), SkewLabel(s)).playType == Strategy(r, w, s)
  {
  }

  /** A positive regime away from both walls always sells an iron condor. */
  lemma PositiveMidRangeIsIronCondor(s: Skew)
    ensures GetStrategy("positive", "mid_range", SkewLabel(s)).playType == IronCondor
    ensures GetStrategy("positive", "mid_range", SkewLabel(s)).direction == Neutral
  {
  }

  /** In the negative regime only the skew matters. */
  lemma NegativeRegimeIgnoresWall(w1: WallPosition, w2: WallPosition, s: Skew)
    ensures GetStrategy("negative", WallLabel(w1), SkewLabel(s)) .playType
         == GetStrategy("negative", WallLabel(w2), SkewLabel(s)).playType
    ensures s == BullishSkew ==> GetStrategy("negative", WallLabel(w1), SkewLabel(s)).playType == BullCallSpread
    ensures s == BearishSkew ==> GetStrategy("negative", WallLabel(w1), SkewLabel(s)).playType == BearPutSpread
    ensures s == NeutralSkew ==> GetStrategy("negative", WallLabel(w1), SkewLabel(s)).playType == LongStraddle
  {
  }
}
