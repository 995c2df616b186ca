/** The nine weighted sub-signals of the scorer and the DTE multiplier they
    share. Each sub-scorer maps a feature to a fraction `raw` of its weight and
    truncates `raw * weight` to an integer, as `int(raw * max_weight)` does. */
module Signals {
  import opened Common
  import opened Records

  datatype Signal =
    | GexRegime
    | WallProximity
    | PcSkew
    | VolumeOiSurge
    | DirectionalBias
    | IvRank
    | GexMomentum
    | SkewMomentum
    | DteConviction

  /** WEIGHTS: the maximum score of each signal. */
  function Weight(s: Signal): nat
  {
    match s
    case GexRegime => 20
    case WallProximity => 15
    case PcSkew => 12
    case VolumeOiSurge => 12
    case DirectionalBias => 10
    case IvRank => 10
    case GexMomentum => 8
    case SkewMomentum => 5
    case DteConviction => 8
  }

  /** The keys of WEIGHTS in declaration order. */
  const WeightKeys: seq<Signal> := [GexRegime, WallProximity, PcSkew, VolumeOiSurge,
    DirectionalBias, IvRank, GexMomentum, SkewMomentum, DteConviction]

  function WeightSum(ss: seq<Signal>): nat
  {
    if |ss| == 0 then 0 else Weight(ss[0]) + WeightSum(ss[1..])
  }

  /** The weight total of nine signals, term by term. */
  lemma WeightSumOfNine(ss: seq<Signal>)
    requires |ss| == 9
    ensures WeightSum(ss) == Weight(ss[0]) + Weight(ss[1]) + Weight(ss[2]) + Weight(ss[3]) + Weight(ss[4])
      + Weight(ss[5]) + Weight(ss[6]) + Weight(ss[7]) + Weight(ss[8])
  {
    assert WeightSum(ss[9..]) == 0;
    assert WeightSum(ss[8..]) == Weight(ss[8]) + WeightSum(ss[9..]);
    assert WeightSum(ss[7..]) == Weight(ss[7]) + WeightSum(ss[8..]);
    assert WeightSum(ss[6..]) == Weight(ss[6]) + WeightSum(ss[7..]);
    assert WeightSum(ss[5..]) == Weight(ss[5]) + WeightSum(ss[6..]);
    assert WeightSum(ss[4..]) == Weight(ss[4]) + WeightSum(ss[5..]);
    assert WeightSum(ss[3..]) == Weight(ss[3]) + WeightSum(ss[4..]);
    assert WeightSum(ss[2..]) == Weight(ss[2]) + WeightSum(ss[3..]);
    assert WeightSum(ss[1..]) == Weight(ss[1]) + WeightSum(ss[2..]);
    assert WeightSum(ss[0..]) == Weight(ss[0]) + WeightSum(ss[1..]);
    assert ss[0..] == ss;
  }

  /** The position of each signal among the keys of WEIGHTS. */
  function Slot(s: Signal): nat
  {
    match s
    case GexRegime => 0
    case WallProximity => 1
    case PcSkew => 2
    case VolumeOiSurge => 3
    case DirectionalBias => 4
    case IvRank => 5
    case GexMomentum => 6
    case SkewMomentum => 7
    case DteConviction => 8
  }

  lemma WeightKeysSlots()
    ensures forall i :: 0 <= i < |WeightKeys| ==> Slot(WeightKeys[i]) == i
    ensures forall s: Signal :: Slot(s) < |WeightKeys| && WeightKeys[Slot(s)] == s
  {
    forall i | 0 <= i < |WeightKeys| ensures Slot(WeightKeys[i]) == i {
      if i == 0 {
        assert WeightKeys[0] == GexRegime;
      } else if i == 1 {
        assert WeightKeys[1] == WallProximity;
      } else if i == 2 {
        assert WeightKeys[2] == PcSkew;
      } else if i == 3 {
        assert WeightKeys[3] == VolumeOiSurge;
      } else if i == 4 {
        assert WeightKeys[4] == DirectionalBias;
      } else if i == 5 {
        assert WeightKeys[5] == IvRank;
      } else if i == 6 {
        assert WeightKeys[6] == GexMomentum;
      } else if i == 7 {
        assert WeightKeys[7] == SkewMomentum;
      } else if i == 8 {
        assert WeightKeys[8] == DteConviction;
      }
    }
  }

  /** WEIGHTS has one positive entry per signal and the entries sum to 100. */
  lemma WeightTable()
    ensures |WeightKeys| == 9
    ensures forall s: Signal :: s in WeightKeys
    ensures forall i, j :: 0 <= i < j < |WeightKeys| ==> WeightKeys[i] != WeightKeys[j]
    ensures forall s: Signal :: Weight(s) > 0
    ensures WeightSum(WeightKeys) == 100
  {
    WeightKeysSlots();
    forall s: Signal ensures s in WeightKeys {
      assert WeightKeys[Slot(s)] == s;
    }
    WeightSumOfNine(WeightKeys);
  }

  /** What the detail text of a P/C skew score says about the ratio. */
  datatype PcSide = PutHeavy | CallHeavy | Balanced

  /** What the detail text of a directional-bias score says about net delta. */
  datatype DeltaSide = BullishDelta | BearishDelta | FlatDelta

  /** The part of a detail string the rest of the program branches on. */
  datatype Detail =
    | NoData                     // a "No ... data" fallback
    | Skewed(side: PcSide)       // P/C skew label
    | Positioned(bias: DeltaSide) // directional-bias label
    | NoHistory                  // skew momentum without a previous ratio
    | Measured                   // any other computed detail

  datatype SignalScore = SignalScore(signal: Signal, score: int, maxScore: int, detail: Detail)

  /** A raw strength in [0, 1] scaled to the signal's weight and truncated toward zero. */
  function Points(raw: real, w: nat): (p: int)
    ensures 0.0 <= raw ==> 0 <= p
    ensures raw <= 1.0 ==> p <= w
    ensures raw == 1.0 ==> p == w
  {
    ScaleFacts(raw, w as real);
    Trunc(raw * w as real)
  }

  /** What a non-negative weight does to a fraction of it. */
  lemma ScaleFacts(raw: real, w: real)
    requires 0.0 <= w
    ensures 0.0 <= raw ==> 0.0 <= raw * w
    ensures raw <= 1.0 ==> raw * w <= w
    ensures raw == 1.0 ==> raw * w == w
  {
    if 0.0 <= raw {
      MulMonotone(0.0, raw, w);
    }
    if raw <= 1.0 {
      MulMonotone(raw, 1.0, w);
    }
  }

  lemma PointsMonotone(a: real, b: real, w: nat)
    requires 0.0 <= a <= b
    ensures Points(a, w) <= Points(b, w)
  {
    MulMonotone(a, b, w as real);
    MulMonotone(0.0, a, w as real);
    TruncMonotone(a * w as real, b * w as real);
  }

  predicate InRange(s: SignalScore)
  {
    0 <= s.score <= s.maxScore
  }

  // ---------------------------------------------------------------- windows

  /** The ±5% at-the-money strike window. */
  predicate InAtmWindow(strike: real, price: real)
  {
    price * 0.95 <= strike <= price * 1.05
  }

  /** The ±10% window of the directional-bias signal. */
  predicate InDeltaWindow(strike: real, price: real)
  {
    price * 0.9 <= strike <= price * 1.1
  }

  // ---------------------------------------------------------------- DTE

  /** Days to expiry floored at 1, 30 when the expiration cannot be read. */
  function ContractDte(c: Contract): (d: int)
    ensures d >= 1
    ensures c.days.None? ==> d == 30
  {
    match c.days
    case None => 30
    case Some(days) => MaxInt(days, 1)
  }

  predicate DteQualifies(c: Contract, price: real)
  {
    InAtmWindow(c.strike, price) && c.openInterest > 0.0
  }

  /** Total open interest of the contracts the DTE average ranges over. */
  function QualifyingOi(cs: seq<Contract>, price: real): (t: real)
    ensures t >= 0.0
    ensures t > 0.0 <==> exists i :: 0 <= i < |cs| && DteQualifies(cs[i], price)
  {
    if |cs| == 0 then 0.0
    else
      var rest := QualifyingOi(cs[1..], price);
      assert forall i :: 1 <= i < |cs| ==> cs[i] == cs[1..][i - 1];
      (if DteQualifies(cs[0], price) then cs[0].openInterest else 0.0) + rest
  }

  /** Sum of `dte * oi` over the same contracts. */
  function QualifyingDteOi(cs: seq<Contract>, price: real): real
  {
    if |cs| == 0 then 0.0
    else
      (if DteQualifies(cs[0], price) then ContractDte(cs[0]) as real * cs[0].openInterest else 0.0)
      + QualifyingDteOi(cs[1..], price)
  }

  /** The piecewise curve before rounding. */
  function DteCurve(avg: real): (m: real)
    ensures 0.5 <= m <= 1.5
    ensures avg <= 1.0 ==> m == 1.5
    ensures 1.0 < avg <= 7.0 ==> 1.2 <= m < 1.5
    ensures 7.0 < avg <= 30.0 ==> 0.9999 <= m < 1.2
    ensures 30.0 < avg ==> m < 1.0
  {
    if avg <= 1.0 then 1.5
    else if avg <= 7.0 then 1.5 - (avg - 1.0) * 0.05
    else if avg <= 30.0 then 1.2 - (avg - 7.0) * 0.0087
    else Max(0.5, 1.0 - (avg - 30.0) * 0.005)
  }

  /** The multiplier for an average DTE: the curve rounded to 3 decimals. */
  function DteMultiplier(avg: real): (m: real)
    ensures 0.5 <= m <= 1.5
    ensures DteCurve(avg) - 0.0005 <= m <= DteCurve(avg) + 0.0005
    ensures avg <= 1.0 ==> m == 1.5
  {
    Round3Between(DteCurve(avg), 500, 1500);
    Round3Fixed(1500);
    Round3(DteCurve(avg))
  }

  /** Each piece of the unrounded curve is non-increasing. */
  lemma DteCurveMonotoneWithinPieces(a: real, b: real)
    requires a <= b
    requires (b <= 7.0) || (1.0 < a && b <= 30.0 && (a > 7.0 || b <= 7.0)) || (30.0 < a)
    ensures DteCurve(a) >= DteCurve(b)
  {
  }

  /** At the 30-day joint the unrounded curve steps up (0.9999 on the left,
      just under 1.0 on the right): it is not monotone across pieces. */
  lemma DteCurveRisesAtThirtyDays()
    ensures DteCurve(30.0) == 0.9999
    ensures DteCurve(30.01) > DteCurve(30.0)
  {
  }

  /** After rounding to 3 decimals the multiplier never increases with the
      average DTE: the rounding absorbs the step at the 30-day joint. */
  lemma {:induction false} DteMultiplierMonotone(a: real, b: real)
    requires a <= b
    ensures DteMultiplier(a) >= DteMultiplier(b)
  {
    if 7.0 < a <= 30.0 && 30.0 < b {
      assert RoundHalfEven(0.9999 * 1000.0) == 1000 by {
        assert (999.9).Floor == 999;
      }
      Round3Monotone(0.9999, DteCurve(a));
      Round3Monotone(DteCurve(b), 1.0);
      Round3Fixed(1000);
    } else {
      Round3Monotone(DteCurve(b), DteCurve(a));
    }
  }

  /** `_compute_dte_weight`: the multiplier of the OI-weighted average DTE of
      the in-window contracts with positive OI. */
  function DteWeight(cs: seq<Contract>, price: real): (m: real)
    ensures 0.5 <= m <= 1.5
    ensures |cs| == 0 || price <= 0.0 ==> m == 1.0
    ensures (forall i :: 0 <= i < |cs| ==> !DteQualifies(cs[i], price)) ==> m == 1.0
  {
    if |cs| == 0 || price <= 0.0 then 1.0
    else
      var total := QualifyingOi(cs, price);
      if total == 0.0 then 1.0
      else DteMultiplier(QualifyingDteOi(cs, price) / total)
  }

  // ---------------------------------------------------------------- GEX regime

  function GexRegimeRaw(percentile: real): (raw: real)
    ensures 0.2 <= raw <= 1.0
  {
    Min(1.0, 0.2 + Abs(percentile - 0.5) * 2.0 * 0.8)
  }

  /** Scores the size of the net gamma exposure and labels its regime (`_score_gex_regime`). */
  function ScoreGexRegime(netGex: Option<real>, percentile: real, w: nat): (s: SignalScore)
    ensures s.signal == GexRegime && s.maxScore == w
    ensures InRange(s)
    ensures s.detail == NoData <==> netGex == None || netGex == Some(0.0)
    ensures s.detail == NoData ==> s.score == 0
    ensures s.detail != NoData ==> Points(0.2, w) <= s.score
  {
    if netGex == None || netGex == Some(0.0) then SignalScore(GexRegime, 0, w, NoData)
    else
      var raw := GexRegimeRaw(percentile);
      PointsMonotone(0.2, raw, w);
      SignalScore(GexRegime, Points(raw, w), w, Measured)
  }

  /** Percentiles equally far from the median score the same. */
  lemma GexRegimeSymmetric(netGex: Option<real>, percentile: real, w: nat)
    ensures ScoreGexRegime(netGex, percentile, w) == ScoreGexRegime(netGex, 1.0 - percentile, w)
  {
  }

  /** A more extreme percentile never scores lower. */
  lemma GexRegimeMonotone(netGex: Option<real>, p: real, q: real, w: nat)
    requires Abs(p - 0.5) <= Abs(q - 0.5)
    ensures ScoreGexRegime(netGex, p, w).score <= ScoreGexRegime(netGex, q, w).score
  {
    if !(netGex == None || netGex == Some(0.0)) {
      PointsMonotone(GexRegimeRaw(p), GexRegimeRaw(q), w);
    }
  }

  // ---------------------------------------------------------------- wall proximity

  /** A wall the proximity signal considers: present and positive. */
  predicate UsableWall(strike: Option<real>)
  {
    strike.Some? && strike.value > 0.0
  }

  /** The smaller of 100 and the distances to the usable walls. */
  function NearestWallPct(price: real, pos: Option<real>, neg: Option<real>): (d: real)
    requires price > 0.0
    ensures 0.0 <= d <= 100.0
    ensures UsableWall(pos) ==> d <= DistancePct(price, pos.value)
    ensures UsableWall(neg) ==> d <= DistancePct(price, neg.value)
    ensures d == 100.0
         || (UsableWall(pos) && d == DistancePct(price, pos.value))
         || (UsableWall(neg) && d == DistancePct(price, neg.value))
  {
    var afterCall := if UsableWall(pos) && DistancePct(price, pos.value) < 100.0
      then DistancePct(price, pos.value) else 100.0;
    if UsableWall(neg) && DistancePct(price, neg.value) < afterCall
    then DistancePct(price, neg.value) else afterCall
  }

  function ProximityRaw(d: real): (raw: real)
    ensures 0.15 <= raw <= 1.0
  {
    if d <= 0.5 then 1.0
    else if d <= 1.0 then 0.85
    else if d <= 2.0 then 0.65
    else if d <= 5.0 then 0.4
    else 0.15
  }

  /** Scores how close the price is to the nearest gamma wall (`_score_wall_proximity`). */
  function ScoreWallProximity(price: real, pos: Option<real>, neg: Option<real>, w: nat): (s: SignalScore)
    ensures s.signal == WallProximity && s.maxScore == w
    ensures InRange(s)
    ensures price <= 0.0 ==> s.score == 0 && s.detail == NoData
    ensures price > 0.0 ==> s.detail == Measured && Points(0.15, w) <= s.score
    ensures price > 0.0 && UsableWall(pos) && DistancePct(price, pos.value) <= 0.5 ==> s.score == w
    ensures price > 0.0 && UsableWall(neg) && DistancePct(price, neg.value) <= 0.5 ==> s.score == w
    ensures price > 0.0 && !UsableWall(pos) && !UsableWall(neg) ==> s.score == Points(0.15, w)
  {
    if price <= 0.0 then SignalScore(WallProximity, 0, w, NoData)
    else
      var raw := ProximityRaw(NearestWallPct(price, pos, neg));
      PointsMonotone(0.15, raw, w);
      SignalScore(WallProximity, Points(raw, w), w, Measured)
  }

  /** A closer nearest wall never scores lower. */
  lemma ProximityMonotone(price1: real, pos1: Option<real>, neg1: Option<real>,
                          price2: real, pos2: Option<real>, neg2: Option<real>, w: nat)
    requires price1 > 0.0 && price2 > 0.0
    requires NearestWallPct(price1, pos1, neg1) <= NearestWallPct(price2, pos2, neg2)
    ensures ScoreWallProximity(price2, pos2, neg2, w).score <= ScoreWallProximity(price1, pos1, neg1, w).score
  {
    PointsMonotone(ProximityRaw(NearestWallPct(price2, pos2, neg2)), ProximityRaw(NearestWallPct(price1, pos1, neg1)), w);
  }

  // ---------------------------------------------------------------- P/C skew

  /** The `1/sqrt(dte)` weight of a contract; 1.0 when the expiration cannot
      be read. `decay` stands for `1/sqrt` and is applied to DTE >= 1. */
  function DecayWeight(c: Contract, decay: int -> real): real
  {
    match c.days
    case None => 1.0
    case Some(d) => decay(MaxInt(d, 1))
  }

  /** Decay-weighted open interest of the in-window contracts of one type. */
  function WeightedOi(cs: seq<Contract>, price: real, kind: OptionType, decay: int -> real): real
  {
    if |cs| == 0 then 0.0
    else
      (if InAtmWindow(cs[0].strike, price) && cs[0].kind == kind
       then cs[0].openInterest * DecayWeight(cs[0], decay) else 0.0)
      + WeightedOi(cs[1..], price, kind, decay)
  }

  /** No in-window contract carries open interest. */
  predicate NoAtmOi(cs: seq<Contract>, price: real)
  {
    forall i :: 0 <= i < |cs| && InAtmWindow(cs[i].strike, price) ==> cs[i].openInterest == 0.0
  }

  lemma {:induction false} WeightedOiZero(cs: seq<Contract>, price: real, kind: OptionType, decay: int -> real)
    requires NoAtmOi(cs, price)
    ensures WeightedOi(cs, price, kind, decay) == 0.0
  {
    if |cs| > 0 {
      assert NoAtmOi(cs[1..], price) by {
        forall i | 0 <= i < |cs[1..]| && InAtmWindow(cs[1..][i].strike, price)
          ensures cs[1..][i].openInterest == 0.0
        {
          assert cs[1..][i] == cs[i + 1];
        }
      }
      WeightedOiZero(cs[1..], price, kind, decay);
    }
  }

  /** put/call, or 999 when the call side is not positive. */
  function PcRatio(callOi: real, putOi: real): real
  {
    if callOi > 0.0 then putOi / callOi else 999.0
  }

  function PcSideOf(ratio: real): PcSide
  {
    if ratio > 1.2 then PutHeavy
    else if ratio < 0.83 then CallHeavy
    else Balanced
  }

  function PcSkewRaw(ratio: real): (raw: real)
    ensures 0.25 <= raw <= 1.0
  {
    if ratio > 2.0 || ratio < 0.5 then 1.0
    else if ratio > 1.5 || ratio < 0.67 then 0.75
    else if ratio > 1.2 || ratio < 0.83 then 0.5
    else 0.25
  }

  /** "balanced" is exactly the lowest bucket, the ratio band [0.83, 1.2]. */
  lemma BalancedIsLowestBucket(ratio: real)
    ensures PcSideOf(ratio) == Balanced <==> PcSkewRaw(ratio) == 0.25
    ensures PcSideOf(ratio) == Balanced <==> 0.83 <= ratio <= 1.2
  {
  }

  /** `_score_pc_skew` (its `dte_multiplier` argument is never read and is omitted). */
  function ScorePcSkew(cs: seq<Contract>, price: real, decay: int -> real, w: nat): (s: SignalScore)
    ensures s.signal == PcSkew && s.maxScore == w
    ensures InRange(s)
    ensures |cs| == 0 || price <= 0.0 || NoAtmOi(cs, price) ==> s.score == 0 && s.detail == NoData
    ensures s.detail == NoData || s.detail.Skewed?
    ensures s.detail.Skewed? ==> Points(0.25, w) <= s.score
    ensures s.detail == Skewed(Balanced) ==> s.score == Points(0.25, w)
    ensures s.detail.Skewed? && s.detail != Skewed(Balanced) ==> Points(0.5, w) <= s.score
    ensures s.detail.Skewed? ==> s.detail == Skewed(PcSideOf(PcRatio(
      WeightedOi(cs, price, Call, decay), WeightedOi(cs, price, Put, decay))))
    ensures (|cs| > 0 && price > 0.0 && WeightedOi(cs, price, Call, decay) == 0.0
      && WeightedOi(cs, price, Put, decay) != 0.0) ==> s.score == w && s.detail == Skewed(PutHeavy)
  {
    if |cs| == 0 || price <= 0.0 then SignalScore(PcSkew, 0, w, NoData)
    else
      var callOi := WeightedOi(cs, price, Call, decay);
      var putOi := WeightedOi(cs, price, Put, decay);
      if NoAtmOi(cs, price) then
        WeightedOiZero(cs, price, Call, decay);
        WeightedOiZero(cs, price, Put, decay);
        SignalScore(PcSkew, 0, w, NoData)
      else if callOi == 0.0 && putOi == 0.0 then SignalScore(PcSkew, 0, w, NoData)
      else
        var ratio := PcRatio(callOi, putOi);
        var raw := PcSkewRaw(ratio);
        PointsMonotone(0.25, raw, w);
        PointsMonotone(if PcSideOf(ratio) == Balanced then raw else 0.5, raw, w);
        SignalScore(PcSkew, Points(raw, w), w, Skewed(PcSideOf(ratio)))
  }

  // ---------------------------------------------------------------- volume / OI surge

  /** Decay-weighted volume and open interest of all in-window contracts. */
  function WeightedVolume(cs: seq<Contract>, price: real, decay: int -> real): real
  {
    if |cs| == 0 then 0.0
    else
      (if InAtmWindow(cs[0].strike, price) then cs[0].volume * DecayWeight(cs[0], decay) else 0.0)
      + WeightedVolume(cs[1..], price, decay)
  }

  function WeightedAllOi(cs: seq<Contract>, price: real, decay: int -> real): real
  {
    if |cs| == 0 then 0.0
    else
      (if InAtmWindow(cs[0].strike, price) then cs[0].openInterest * DecayWeight(cs[0], decay) else 0.0)
      + WeightedAllOi(cs[1..], price, decay)
  }

  function SurgeRaw(ratio: real): (raw: real)
    ensures 0.1 <= raw <= 1.0
  {
    if ratio > 1.0 then 1.0
    else if ratio > 0.5 then 0.75
    else if ratio > 0.25 then 0.5
    else if ratio > 0.1 then 0.3
    else 0.1
  }

  /** Weighted volume over weighted open interest near the money; 0 when
      there is no open interest. */
  function SurgeRatio(cs: seq<Contract>, price: real, decay: int -> real): real
  {
    var oi := WeightedAllOi(cs, price, decay);
    if oi > 0.0 then WeightedVolume(cs, price, decay) / oi else 0.0
  }

  /** `_score_volume_oi_surge` (its `dte_multiplier` argument is never read and is omitted). */
  function ScoreVolumeOiSurge(cs: seq<Contract>, price: real, decay: int -> real, w: nat): (s: SignalScore)
    ensures s.signal == VolumeOiSurge && s.maxScore == w
    ensures InRange(s)
    ensures |cs| == 0 || price <= 0.0 ==> s.score == 0 && s.detail == NoData
    ensures |cs| > 0 && price > 0.0 ==> s.detail == Measured && Points(0.1, w) <= s.score
    ensures |cs| > 0 && price > 0.0 && WeightedAllOi(cs, price, decay) <= 0.0 ==> s.score == Points(0.1, w)
  {
    if |cs| == 0 || price <= 0.0 then SignalScore(VolumeOiSurge, 0, w, NoData)
    else
      var raw := SurgeRaw(SurgeRatio(cs, price, decay));
      PointsMonotone(0.1, raw, w);
      SignalScore(VolumeOiSurge, Points(raw, w), w, Measured)
  }

  /** A higher volume/OI ratio never scores lower. */
  lemma SurgeMonotone(cs1: seq<Contract>, price1: real, cs2: seq<Contract>, price2: real, decay: int -> real, w: nat)
    requires |cs1| > 0 && price1 > 0.0 && |cs2| > 0 && price2 > 0.0
    requires SurgeRatio(cs1, price1, decay) <= SurgeRatio(cs2, price2, decay)
    ensures ScoreVolumeOiSurge(cs1, price1, decay, w).score <= ScoreVolumeOiSurge(cs2, price2, decay, w).score
  {
    PointsMonotone(SurgeRaw(SurgeRatio(cs1, price1, decay)), SurgeRaw(SurgeRatio(cs2, price2, decay)), w);
  }

  // ---------------------------------------------------------------- IV rank

  /** Not capped at 1: it exceeds 1 when the rank lies outside [0, 1]. */
  function IvRankRaw(ivRank: real): real
  {
    0.1 + Abs(ivRank - 0.5) * 2.0 * 0.9
  }

  /** Scores how far the IV rank is from its middle (`_score_iv_rank`). */
  function ScoreIvRank(ivRank: Option<real>, w: nat): (s: SignalScore)
    ensures s.signal == IvRank && s.maxScore == w
    ensures 0 <= s.score
    ensures ivRank.None? <==> s.detail == NoData
    ensures ivRank.None? ==> s.score == 0
    ensures ivRank.Some? && 0.0 <= ivRank.value <= 1.0 ==> InRange(s) && Points(0.1, w) <= s.score
  {
    match ivRank
    case None => SignalScore(IvRank, 0, w, NoData)
    case Some(iv) =>
      var raw := IvRankRaw(iv);
      PointsMonotone(0.1, raw, w);
      SignalScore(IvRank, Points(raw, w), w, Measured)
  }

  lemma IvRankSymmetric(iv: real, w: nat)
    ensures ScoreIvRank(Some(iv), w) == ScoreIvRank(Some(1.0 - iv), w)
  {
  }

  /** A more extreme IV rank never scores lower. */
  lemma IvRankMonotone(p: real, q: real, w: nat)
    requires Abs(p - 0.5) <= Abs(q - 0.5)
    ensures ScoreIvRank(Some(p), w).score <= ScoreIvRank(Some(q), w).score
  {
    PointsMonotone(IvRankRaw(p), IvRankRaw(q), w);
  }

  /** Outside [0, 1] the IV-rank score exceeds its weight. */
  lemma IvRankUncappedOutsideUnitRange()
    ensures ScoreIvRank(Some(2.0), 10).score == 28
  {
  }

  // ---------------------------------------------------------------- directional bias

  /** Net total delta of the strikes within ±10% of price. */
  function NetDelta(strikes: seq<StrikeEntry>, price: real): real
  {
    if |strikes| == 0 then 0.0
    else
      (if InDeltaWindow(strikes[0].strike, price) then strikes[0].totals.totalDelta else 0.0)
      + NetDelta(strikes[1..], price)
  }

  function DeltaSideOf(net: real): DeltaSide
  {
    if net > 0.0 then BullishDelta else if net < 0.0 then BearishDelta else FlatDelta
  }

  function BiasRaw(absDelta: real): (raw: real)
    ensures 0.1 <= raw <= 1.0
  {
    if absDelta > 500000.0 then 1.0
    else if absDelta > 100000.0 then 0.75
    else if absDelta > 25000.0 then 0.5
    else if absDelta > 5000.0 then 0.3
    else 0.1
  }

  predicate HasAnalytics(a: Option<Analytics>)
  {
    a.Some? && |a.value.strikes| > 0
  }

  /** Scores the size of the net dealer delta near the money and labels its side (`_score_directional_bias`). */
  function ScoreDirectionalBias(analytics: Option<Analytics>, price: real, w: nat): (s: SignalScore)
    ensures s.signal == DirectionalBias && s.maxScore == w
    ensures InRange(s)
    ensures !HasAnalytics(analytics) || price <= 0.0 <==> s.detail == NoData
    ensures s.detail == NoData ==> s.score == 0
    ensures s.detail != NoData ==> (Points(0.1, w) <= s.score
      && s.detail == Positioned(DeltaSideOf(NetDelta(analytics.value.strikes, price))))
  {
    if !HasAnalytics(analytics) || price <= 0.0 then SignalScore(DirectionalBias, 0, w, NoData)
    else
      var net := NetDelta(analytics.value.strikes, price);
      var raw := BiasRaw(Abs(net));
      PointsMonotone(0.1, raw, w);
      SignalScore(DirectionalBias, Points(raw, w), w, Positioned(DeltaSideOf(net)))
  }

  /** A larger net delta exposure, in either direction, never scores lower. */
  lemma BiasMonotone(a1: Option<Analytics>, a2: Option<Analytics>, price1: real, price2: real, w: nat)
    requires HasAnalytics(a1) && price1 > 0.0
    requires HasAnalytics(a2) && price2 > 0.0
    requires Abs(NetDelta(a1.value.strikes, price1)) <= Abs(NetDelta(a2.value.strikes, price2))
    ensures ScoreDirectionalBias(a1, price1, w).score <= ScoreDirectionalBias(a2, price2, w).score
  {
    PointsMonotone(BiasRaw(Abs(NetDelta(a1.value.strikes, price1))), BiasRaw(Abs(NetDelta(a2.value.strikes, price2))), w);
  }

  // ---------------------------------------------------------------- GEX momentum

  function TrendRaw(absTrend: real): (raw: real)
    ensures 0.15 <= raw <= 1.0
  {
    if absTrend > 0.5 then 1.0
    else if absTrend > 0.25 then 0.7
    else if absTrend > 0.1 then 0.4
    else 0.15
  }

  /** `_score_gex_momentum`; `None` is an empty momentum dict. */
  function ScoreGexMomentum(m: Option<Momentum>, w: nat): (s: SignalScore)
    ensures s.signal == GexMomentum && s.maxScore == w
    ensures InRange(s)
    ensures m.None? || m.value.samples < 2 <==> s.detail == NoData
    ensures s.detail == NoData ==> s.score == 0
    ensures s.detail != NoData ==> Points(0.15, w) <= s.score
  {
    if m.None? || m.value.samples < 2 then SignalScore(GexMomentum, 0, w, NoData)
    else
      var raw := TrendRaw(Abs(m.value.trend));
      PointsMonotone(0.15, raw, w);
      SignalScore(GexMomentum, Points(raw, w), w, Measured)
  }

  /** A steeper trend never scores lower. */
  lemma GexMomentumMonotone(m1: Momentum, m2: Momentum, w: nat)
    requires m1.samples >= 2 && m2.samples >= 2
    requires Abs(m1.trend) <= Abs(m2.trend)
    ensures ScoreGexMomentum(Some(m1), w).score <= ScoreGexMomentum(Some(m2), w).score
  {
    PointsMonotone(TrendRaw(Abs(m1.trend)), TrendRaw(Abs(m2.trend)), w);
  }

  // ---------------------------------------------------------------- skew momentum

  /** Unweighted open interest of the in-window contracts of one type. */
  function AtmOi(cs: seq<Contract>, price: real, kind: OptionType): real
  {
    if |cs| == 0 then 0.0
    else
      (if InAtmWindow(cs[0].strike, price) && cs[0].kind == kind then cs[0].openInterest else 0.0)
      + AtmOi(cs[1..], price, kind)
  }

  function ChangeRaw(absChange: real): (raw: real)
    ensures 0.15 <= raw <= 1.0
  {
    if absChange > 0.3 then 1.0
    else if absChange > 0.15 then 0.7
    else if absChange > 0.05 then 0.4
    else 0.15
  }

  /** There is some at-the-money open interest to form a ratio from. */
  predicate HasAtmOi(cs: seq<Contract>, price: real)
  {
    |cs| > 0 && price > 0.0 && (AtmOi(cs, price, Call) != 0.0 || AtmOi(cs, price, Put) != 0.0)
  }

  /** The relative change of the at-the-money put/call ratio since `previous`. */
  function SkewChange(cs: seq<Contract>, price: real, previous: real): real
    requires previous > 0.0
  {
    (PcRatio(AtmOi(cs, price, Call), AtmOi(cs, price, Put)) - previous) / previous
  }

  /** Scores the relative change of the put/call ratio since the previous cycle (`_score_skew_momentum`). */
  function ScoreSkewMomentum(cs: seq<Contract>, price: real, previous: Option<real>, w: nat): (s: SignalScore)
    ensures s.signal == SkewMomentum && s.maxScore == w
    ensures InRange(s)
    ensures s.detail == NoData <==>
      |cs| == 0 || price <= 0.0 || (AtmOi(cs, price, Call) == 0.0 && AtmOi(cs, price, Put) == 0.0)
    ensures s.detail == NoData ==> s.score == 0
    ensures s.detail == NoHistory <==> s.detail != NoData && (previous.None? || previous.value <= 0.0)
    ensures s.detail == NoHistory ==> s.score == Points(0.2, w)
    ensures s.detail == Measured ==> Points(0.15, w) <= s.score
  {
    if |cs| == 0 || price <= 0.0 then SignalScore(SkewMomentum, 0, w, NoData)
    else
      var callOi := AtmOi(cs, price, Call);
      var putOi := AtmOi(cs, price, Put);
      if callOi == 0.0 && putOi == 0.0 then SignalScore(SkewMomentum, 0, w, NoData)
      else if previous.None? || previous.value <= 0.0 then
        SignalScore(SkewMomentum, Points(0.2, w), w, NoHistory)
      else
        var raw := ChangeRaw(Abs(SkewChange(cs, price, previous.value)));
        PointsMonotone(0.15, raw, w);
        SignalScore(SkewMomentum, Points(raw, w), w, Measured)
  }

  /** A sharper shift of the put/call ratio never scores lower. */
  lemma SkewMomentumMonotone(cs1: seq<Contract>, cs2: seq<Contract>, price1: real, price2: real,
                             previous1: real, previous2: real, w: nat)
    requires HasAtmOi(cs1, price1) && previous1 > 0.0
    requires HasAtmOi(cs2, price2) && previous2 > 0.0
    requires Abs(SkewChange(cs1, price1, previous1)) <= Abs(SkewChange(cs2, price2, previous2))
    ensures ScoreSkewMomentum(cs1, price1, Some(previous1), w).score
         <= ScoreSkewMomentum(cs2, price2, Some(previous2), w).score
  {
    PointsMonotone(ChangeRaw(Abs(SkewChange(cs1, price1, previous1))),
                   ChangeRaw(Abs(SkewChange(cs2, price2, previous2))), w);
  }

  // ---------------------------------------------------------------- DTE conviction

  function ConvictionRaw(multiplier: real): (raw: real)
    ensures 0.1 <= raw <= 1.0
  {
    if multiplier >= 1.4 then 1.0
    else if multiplier >= 1.2 then 0.75
    else if multiplier >= 1.0 then 0.45
    else if multiplier >= 0.7 then 0.25
    else 0.1
  }

  /** Scores the open-interest-weighted expiry multiplier (`_score_dte_conviction`). */
  function ScoreDteConviction(multiplier: real, w: nat): (s: SignalScore)
    ensures s.signal == DteConviction && s.maxScore == w
    ensures InRange(s)
    ensures s.detail == Measured
    ensures Points(0.1, w) <= s.score
    ensures multiplier >= 1.4 ==> s.score == w
  {
    var raw := ConvictionRaw(multiplier);
    PointsMonotone(0.1, raw, w);
    SignalScore(DteConviction, Points(raw, w), w, Measured)
  }

  /** Heavier near-term positioning never scores lower. */
  lemma DteConvictionMonotone(m1: real, m2: real, w: nat)
    requires m1 <= m2
    ensures ScoreDteConviction(m1, w).score <= ScoreDteConviction(m2, w).score
  {
    PointsMonotone(ConvictionRaw(m1), ConvictionRaw(m2), w);
  }
}
