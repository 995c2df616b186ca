/** The history queries' post-processing: what is computed from the rows a
    query returns. The queries themselves (SQL, the clock that sets the
    lookback window) are not modelled; each function takes the rows, in the
    query's order, as its input. */
module Queries {
  import opened Common
  import opened Records

  // ---------------------------------------------------------------- flip events

  /** A strict sign change between two consecutive net GEX values. */
  predicate SignChange(older: real, newer: real)
  {
    (older > 0.0 && newer < 0.0) || (older < 0.0 && newer > 0.0)
  }

  /** Rows `j - 1` and `j` of the history differ strictly in sign. */
  predicate FlipAt(h: seq<real>, j: int)
  {
    1 <= j < |h| && SignChange(h[j - 1], h[j])
  }

  /** A flip between rows `index - 1` and `index` (the row's timestamp is
      represented by its index). */
  datatype FlipEvent = FlipEvent(index: nat, oldGex: real, newGex: real, toNegative: bool)

  /** What an event at `e.index` must say about the history. */
  predicate Describes(h: seq<real>, e: FlipEvent)
  {
    1 <= e.index < |h| && e.oldGex == h[e.index - 1] && e.newGex == h[e.index]
    && SignChange(e.oldGex, e.newGex) && (e.toNegative <==> e.oldGex > 0.0)
  }

  /** The flip scan from row `i` on. */
  function FlipsFrom(h: seq<real>, i: nat): (r: seq<FlipEvent>)
    requires 1 <= i <= |h|
    ensures forall e :: e in r ==> Describes(h, e) && i <= e.index
    ensures forall j :: i <= j && FlipAt(h, j) ==> exists e :: e in r && e.index == j
    ensures forall a, b :: 0 <= a < b < |r| ==> r[a].index < r[b].index
    decreases |h| - i
  {
    if i == |h| then []
    else
      var rest := FlipsFrom(h, i + 1);
      if SignChange(h[i - 1], h[i])
      then [FlipEvent(i, h[i - 1], h[i], h[i - 1] > 0.0)] + rest
      else rest
  }

  /** `get_gex_flip_events` over the net GEX column: one event per strict
      sign change, in time order; none for fewer than two rows. */
  function GexFlipEvents(h: seq<real>): (r: seq<FlipEvent>)
    ensures |h| < 2 ==> r == []
    ensures forall e :: e in r ==> Describes(h, e)
    ensures forall j :: FlipAt(h, j) ==> exists e :: e in r && e.index == j
    ensures forall a, b :: 0 <= a < b < |r| ==> r[a].index < r[b].index
  {
    if |h| < 2 then [] else FlipsFrom(h, 1)
  }

  /** A zero reading never takes part in a flip. */
  lemma {:induction false} ZerosNeverFlip(h: seq<real>, j: nat)
    requires j < |h| && h[j] == 0.0
    ensures forall e :: e in GexFlipEvents(h) ==> e.index != j && e.index != j + 1
  {
    var r := GexFlipEvents(h);
    forall e | e in r ensures e.index != j && e.index != j + 1 {
      assert Describes(h, e);
    }
  }

  // ---------------------------------------------------------------- percentile

  /** The columns a percentile may be taken of. */
  const PercentileFields: set<string> := {"net_gex", "max_pos_gex", "max_neg_gex", "price"}

  /** How many values lie strictly below `x`. */
  function CountBelow(vs: seq<real>, x: real): (n: nat)
    ensures n <= |vs|
    ensures (forall i :: 0 <= i < |vs| ==> vs[i] < x) ==> n == |vs|
    ensures (forall i :: 0 <= i < |vs| ==> x <= vs[i]) ==> n == 0
  {
    if |vs| == 0 then 0
    else
      assert forall i :: 1 <= i < |vs| ==> vs[1..][i - 1] == vs[i];
      (if vs[0] < x then 1 else 0) + CountBelow(vs[1..], x)
  }

  lemma {:induction false} CountBelowMonotone(vs: seq<real>, x: real, y: real)
    requires x <= y
    ensures CountBelow(vs, x) <= CountBelow(vs, y)
  {
    if |vs| > 0 {
      CountBelowMonotone(vs[1..], x, y);
    }
  }

  /** `get_historical_percentile`: the share of the window's values strictly
      below the current one, to three decimals; 0.5 for a column outside the
      allow-list or fewer than three values. */
  function HistoricalPercentile(field: string, values: seq<real>, current: real): (p: real)
    ensures 0.0 <= p <= 1.0
    ensures field !in PercentileFields || |values| < 3 ==> p == 0.5
    ensures field in PercentileFields && |values| >= 3 ==>
      Abs(p - CountBelow(values, current) as real / |values| as real) <= 0.0005
  {
    if field !in PercentileFields then 0.5
    else if |values| < 3 then 0.5
    else
      var share := CountBelow(values, current) as real / |values| as real;
      RatioInUnit(CountBelow(values, current) as real, |values| as real);
      Round3Unit(share);
      Round3(share)
  }

  /** A larger current value never ranks lower. */
  lemma PercentileMonotone(field: string, values: seq<real>, x: real, y: real)
    requires x <= y
    ensures HistoricalPercentile(field, values, x) <= HistoricalPercentile(field, values, y)
  {
    if field in PercentileFields && |values| >= 3 {
      var n := |values| as real;
      CountBelowMonotone(values, x, y);
      DivMonotone(CountBelow(values, x) as real, CountBelow(values, y) as real, n);
      Round3Monotone(CountBelow(values, x) as real / n, CountBelow(values, y) as real / n);
    }
  }

  /** Above the whole window ranks 1; at or below its minimum ranks 0. */
  lemma PercentileExtremes(field: string, values: seq<real>, current: real)
    requires field in PercentileFields && |values| >= 3
    ensures (forall i :: 0 <= i < |values| ==> values[i] < current) ==> HistoricalPercentile(field, values, current) == 1.0
    ensures (forall i :: 0 <= i < |values| ==> current <= values[i]) ==> HistoricalPercentile(field, values, current) == 0.0
  {
    var n := |values| as real;
    if forall i :: 0 <= i < |values| ==> values[i] < current {
      assert n / n == 1000 as real / 1000.0;
      Round3Fixed(1000);
    }
    if forall i :: 0 <= i < |values| ==> current <= values[i] {
      assert 0.0 / n == 0 as real / 1000.0;
      Round3Fixed(0);
    }
  }

  // ---------------------------------------------------------------- momentum

  /** `x or 0`: a missing reading counts as 0. */
  function OrZero(v: Option<real>): real
  {
    if v.Some? then v.value else 0.0
  }

  /** The sign of a value as -1, 0 or 1. */
  function Sign(x: real): real
  {
    if x > 0.0 then 1.0 else if x < 0.0 then -1.0 else 0.0
  }

  /** `get_signal_momentum` over the net GEX column: the relative move from
      the first to the last reading, clamped to [-1, 1] and rounded to three
      decimals; from a zero start, the sign of the end. */
  function SignalMomentum(rows: seq<Option<real>>): (m: Momentum)
    ensures m.samples == |rows|
    ensures -1.0 <= m.trend <= 1.0
    ensures |rows| < 2 ==> m.trend == 0.0 && m.startGex == 0.0 && m.endGex == 0.0
    ensures |rows| >= 2 ==> m.startGex == OrZero(rows[0]) && m.endGex == OrZero(rows[|rows| - 1])
    ensures |rows| >= 2 && m.startGex == 0.0 ==> m.trend == Sign(m.endGex)
    ensures |rows| >= 2 && m.startGex != 0.0 ==>
      Abs(m.trend - Clamp((m.endGex - m.startGex) / Abs(m.startGex), -1.0, 1.0)) <= 0.0005
    ensures m.trend > 0.0 ==> m.endGex > m.startGex
    ensures m.trend < 0.0 ==> m.endGex < m.startGex
  {
    if |rows| < 2 then Momentum(0.0, |rows|, 0.0, 0.0)
    else
      var start := OrZero(rows[0]);
      var end := OrZero(rows[|rows| - 1]);
      var trend :=
        if start == 0.0 then Sign(end)
        else Clamp((end - start) / Abs(start), -1.0, 1.0);
      Round3Between(trend, -1000, 1000);
      Round3Fixed(1000);
      Round3Fixed(-1000);
      Round3Fixed(0);
      if start != 0.0 then
        ChangeSign(start, end);
        Momentum(Round3(trend), |rows|, start, end)
      else
        Momentum(Round3(trend), |rows|, start, end)
  }

  /** The relative change has the sign of the move. */
  lemma ChangeSign(start: real, end: real)
    requires start != 0.0
    ensures (end - start) / Abs(start) > 0.0 <==> end > start
    ensures (end - start) / Abs(start) < 0.0 <==> end < start
  {
  }

  // ---------------------------------------------------------------- IV rank

  /** A reading that `if r['avg_iv']` lets through: present and non-zero. */
  predicate Usable(o: Option<real>)
  {
    o.Some? && o.value != 0.0
  }

  /** The usable readings, in row order. */
  function Truthy(rows: seq<Option<real>>): (vs: seq<real>)
    ensures |vs| <= |rows|
    ensures forall i :: 0 <= i < |vs| ==> vs[i] != 0.0 && Some(vs[i]) in rows
  {
    if |rows| == 0 then []
    else (if Usable(rows[0]) then [rows[0].value] else []) + Truthy(rows[1..])
  }

  /** Row `i` holds the last usable reading. */
  predicate LastUsableAt(rows: seq<Option<real>>, i: int)
    requires 0 <= i < |rows|
  {
    Usable(rows[i]) && forall j :: i < j < |rows| ==> !Usable(rows[j])
  }

  /** Every usable reading is kept, and some is kept exactly when a row is usable. */
  lemma {:induction false} TruthyKeepsUsable(rows: seq<Option<real>>)
    ensures forall i :: 0 <= i < |rows| && Usable(rows[i]) ==> rows[i].value in Truthy(rows)
    ensures |Truthy(rows)| > 0 <==> exists i :: 0 <= i < |rows| && Usable(rows[i])
  {
    if |rows| > 0 {
      TruthyKeepsUsable(rows[1..]);
      assert forall i :: 1 <= i < |rows| ==> rows[i] == rows[1..][i - 1];
    }
  }

  function SeqMin(vs: seq<real>): (m: real)
    requires |vs| > 0
    ensures m in vs
    ensures forall i :: 0 <= i < |vs| ==> m <= vs[i]
  {
    if |vs| == 1 then vs[0]
    else
      var rest := SeqMin(vs[1..]);
      assert forall i :: 1 <= i < |vs| ==> vs[1..][i - 1] == vs[i];
      Min(vs[0], rest)
  }

  function SeqMax(vs: seq<real>): (m: real)
    requires |vs| > 0
    ensures m in vs
    ensures forall i :: 0 <= i < |vs| ==> vs[i] <= m
  {
    if |vs| == 1 then vs[0]
    else
      var rest := SeqMax(vs[1..]);
      assert forall i :: 1 <= i < |vs| ==> vs[1..][i - 1] == vs[i];
      Max(vs[0], rest)
  }

  /** Where the latest reading sits between the window's extremes. */
  function Position(vs: seq<real>): (p: real)
    requires |vs| > 0 && SeqMin(vs) != SeqMax(vs)
    ensures 0.0 <= p <= 1.0
  {
    LatestBetween(vs);
    Fraction(vs[|vs| - 1], SeqMin(vs), SeqMax(vs))
  }

  /** The rank of the latest usable reading, to three decimals; 0.5 for a
      flat window. */
  function RankOfLatest(vs: seq<real>): (r: real)
    requires |vs| > 0
    ensures 0.0 <= r <= 1.0
    ensures SeqMin(vs) == SeqMax(vs) ==> r == 0.5
    ensures SeqMin(vs) != SeqMax(vs) ==> Abs(r - Position(vs)) <= 0.0005
  {
    if SeqMax(vs) == SeqMin(vs) then 0.5
    else
      var rank := Clamp(Position(vs), 0.0, 1.0);
      Round3Unit(rank);
      Round3(rank)
  }

  /** `get_iv_percentile` over the per-snapshot average IV column: where the
      latest reading sits between the window's lowest and highest, to three
      decimals; 0.5 with fewer than three rows, no usable reading or a flat
      window. */
  function IvPercentile(rows: seq<Option<real>>): (r: real)
    ensures 0.0 <= r <= 1.0
    ensures |rows| < 3 ==> r == 0.5
    ensures (forall i :: 0 <= i < |rows| ==> !Usable(rows[i])) ==> r == 0.5
    ensures |rows| >= 3 && |Truthy(rows)| > 0 ==> r == RankOfLatest(Truthy(rows))
  {
    if |rows| < 3 then 0.5
    else
      var vs := Truthy(rows);
      TruthyKeepsUsable(rows);
      if |vs| == 0 then 0.5 else RankOfLatest(vs)
  }

  /** `lo` and `hi` are the lowest and highest usable readings. */
  predicate UsableExtremes(rows: seq<Option<real>>, lo: real, hi: real)
  {
    && (exists i :: 0 <= i < |rows| && Usable(rows[i]) && rows[i].value == lo)
    && (exists i :: 0 <= i < |rows| && Usable(rows[i]) && rows[i].value == hi)
    && (forall i :: 0 <= i < |rows| && Usable(rows[i]) ==> lo <= rows[i].value <= hi)
  }

  /** With at least three rows, the IV rank is the last usable reading's
      position between the lowest and highest usable readings, to three
      decimals, and 0.5 when those are equal. */
  lemma IvPercentileRank(rows: seq<Option<real>>, k: int, lo: real, hi: real)
    requires |rows| >= 3 && 0 <= k < |rows| && LastUsableAt(rows, k)
    requires UsableExtremes(rows, lo, hi)
    ensures lo == hi ==> IvPercentile(rows) == 0.5
    ensures lo != hi ==> Abs(IvPercentile(rows) - (rows[k].value - lo) / (hi - lo)) <= 0.0005
  {
    TruthyLastIs(rows, k);
    TruthyExtremes(rows, lo, hi);
    if lo != hi {
      RankOfLatestAt(Truthy(rows), rows[k].value, lo, hi);
    }
  }

  /** Some reading is kept when row `k` is the last usable one, and the last
      kept reading is row `k`'s. */
  lemma {:induction false} TruthyLastIs(rows: seq<Option<real>>, k: int)
    requires 0 <= k < |rows| && LastUsableAt(rows, k)
    ensures |Truthy(rows)| > 0 && Truthy(rows)[|Truthy(rows)| - 1] == rows[k].value
  {
    var rest := Truthy(rows[1..]);
    assert Truthy(rows) == (if Usable(rows[0]) then [rows[0].value] else []) + rest;
    if k == 0 {
      TruthyKeepsUsable(rows[1..]);
      assert forall j :: 0 <= j < |rows[1..]| ==> rows[1..][j] == rows[j + 1];
    } else {
      assert forall j :: k - 1 < j < |rows[1..]| ==> rows[1..][j] == rows[j + 1];
      assert LastUsableAt(rows[1..], k - 1);
      TruthyLastIs(rows[1..], k - 1);
    }
  }

  /** The rank in terms of the latest reading and the window's extremes. */
  lemma RankOfLatestAt(vs: seq<real>, x: real, lo: real, hi: real)
    requires |vs| > 0 && vs[|vs| - 1] == x
    requires SeqMin(vs) == lo && SeqMax(vs) == hi && lo != hi
    ensures Abs(RankOfLatest(vs) - (x - lo) / (hi - lo)) <= 0.0005
  {
    LatestBetween(vs);
    assert Position(vs) == Fraction(x, lo, hi);
  }

  /** The extremes of the kept readings are those of the usable rows. */
  lemma TruthyExtremes(rows: seq<Option<real>>, lo: real, hi: real)
    requires UsableExtremes(rows, lo, hi)
    requires |Truthy(rows)| > 0
    ensures SeqMin(Truthy(rows)) == lo && SeqMax(Truthy(rows)) == hi
  {
    var vs := Truthy(rows);
    TruthyKeepsUsable(rows);
    var a :| 0 <= a < |rows| && Usable(rows[a]) && rows[a].value == lo;
    var b :| 0 <= b < |rows| && Usable(rows[b]) && rows[b].value == hi;
    assert lo in vs && hi in vs;
    var m, n := SeqMin(vs), SeqMax(vs);
    assert Some(m) in rows && Some(n) in rows;
    var p :| 0 <= p < |rows| && rows[p] == Some(m);
    var q :| 0 <= q < |rows| && rows[q] == Some(n);
    assert Usable(rows[p]) && Usable(rows[q]);
  }

  /** The latest reading lies between the window's extremes. */
  lemma LatestBetween(vs: seq<real>)
    requires |vs| > 0
    ensures SeqMin(vs) <= vs[|vs| - 1] <= SeqMax(vs)
  {
    var k := |vs| - 1;
    assert SeqMin(vs) <= vs[k];
    assert vs[k] <= SeqMax(vs);
  }

  /** A value between two distinct bounds sits in [0, 1] relative to them. */
  function Fraction(x: real, lo: real, hi: real): (f: real)
    requires lo <= x <= hi && lo != hi
    ensures 0.0 <= f <= 1.0
  {
    RatioInUnit(x - lo, hi - lo);
    (x - lo) / (hi - lo)
  }

  // ---------------------------------------------------------------- return_pct

  /** The `return_pct` of a logged recommendation: the percentage move from
      the price at scoring to the current price, to three decimals, or 0
      unless both prices are positive. */
  function ReturnPct(priceAtScore: real, currentPrice: Option<real>): (r: real)
    ensures priceAtScore <= 0.0 || OrZero(currentPrice) <= 0.0 ==> r == 0.0
    ensures priceAtScore > 0.0 && OrZero(currentPrice) > 0.0 ==>
      Abs(r - (OrZero(currentPrice) - priceAtScore) / priceAtScore * 100.0) <= 0.0005
    ensures r >= -100.0
    ensures r > 0.0 ==> OrZero(currentPrice) > priceAtScore
    ensures r < 0.0 ==> OrZero(currentPrice) < priceAtScore
  {
    var current := OrZero(currentPrice);
    if priceAtScore > 0.0 && current > 0.0 then
      var move := (current - priceAtScore) / priceAtScore * 100.0;
      MoveFacts(priceAtScore, current);
      Round3Monotone(-100000 as real / 1000.0, move);
      Round3Fixed(-100000);
      Round3(move)
    else 0.0
  }

  /** The percentage move between two positive prices exceeds -100 and has
      the sign of the price change. */
  lemma MoveFacts(from: real, to: real)
    requires 0.0 < from && 0.0 < to
    ensures (to - from) / from * 100.0 > -100.0
    ensures (to - from) / from * 100.0 > 0.0 <==> to > from
    ensures (to - from) / from * 100.0 < 0.0 <==> to < from
  {
    var q := (to - from) / from;
    assert q * from == to - from;
    assert (q + 1.0) * from == to;
  }
}
