/** The gamma-wall aggregator: signed exposure of each contract summed into
    (strike, expiration) cells, and the most positive and most negative cell
    of each ticker. Cells are kept in first-insertion order, as the dict that
    holds them iterates. */
module Gamma {
  import opened Common
  import opened Records

  datatype Cell = Cell(strike: real, expiration: string, gex: real)

  /** A contract the aggregator keeps: it has a symbol and a non-zero spot
      (a negative spot is kept). */
  predicate Kept(c: Contract)
  {
    c.symbol != "" && c.underlyingPrice != 0.0
  }

  /** Gamma x OI x 100 x spot^2 x 0.01. */
  function Exposure(gamma: real, oi: real, spot: real): real
  {
    gamma * oi * 100.0 * spot * spot * 0.01
  }

  /** Only CALL and PUT contracts at a non-zero strike reach a cell. */
  predicate Contributes(c: Contract)
  {
    c.strike != 0.0 && (c.kind == Call || c.kind == Put)
  }

  /** Calls add their exposure, puts subtract it. */
  function SignedExposure(c: Contract, spot: real): real
  {
    match c.kind
    case Call => Exposure(c.gamma, c.openInterest, spot)
    case Put => -Exposure(c.gamma, c.openInterest, spot)
    case OtherType => 0.0
  }

  /** A call and a put with the same gamma and OI cancel exactly. */
  lemma CallPutCancel(c: Contract, spot: real)
    ensures SignedExposure(c.(kind := Call), spot) == -SignedExposure(c.(kind := Put), spot)
    ensures SignedExposure(c.(kind := Call), spot) + SignedExposure(c.(kind := Put), spot) == 0.0
  {
  }

  /** gamma 0.02, OI 10000, spot 500: 50,000,000. */
  lemma ExposureExample()
    ensures Exposure(0.02, 10000.0, 500.0) == 50000000.0
  {
  }

  predicate HasKey(c: Cell, strike: real, expiration: string)
  {
    c.strike == strike && c.expiration == expiration
  }

  /** No two cells share a (strike, expiration) key. */
  predicate DistinctKeys(cells: seq<Cell>)
  {
    forall i, j :: 0 <= i < j < |cells| ==> !HasKey(cells[j], cells[i].strike, cells[i].expiration)
  }

  /** The position of the cell with a given key, if any. */
  function FindCell(cells: seq<Cell>, strike: real, expiration: string): (k: Option<nat>)
    ensures k.Some? ==> k.value < |cells| && HasKey(cells[k.value], strike, expiration)
    ensures k.None? ==> forall i :: 0 <= i < |cells| ==> !HasKey(cells[i], strike, expiration)
  {
    if |cells| == 0 then None
    else if HasKey(cells[|cells| - 1], strike, expiration) then Some(|cells| - 1)
    else FindCell(cells[..|cells| - 1], strike, expiration)
  }

  /** Adds `v` to the cell of a (strike, expiration) key, creating the cell at 0 first when it is new. */
  function AddToCell(cells: seq<Cell>, strike: real, expiration: string, v: real): (out: seq<Cell>)
    requires DistinctKeys(cells)
    ensures DistinctKeys(out)
    ensures |out| >= |cells|
    ensures forall i :: 0 <= i < |cells| ==> out[i].strike == cells[i].strike && out[i].expiration == cells[i].expiration
    ensures forall i :: 0 <= i < |cells| ==>
      out[i].gex == cells[i].gex + (if HasKey(cells[i], strike, expiration) then v else 0.0)
    ensures FindCell(cells, strike, expiration).Some? ==> |out| == |cells|
    ensures FindCell(cells, strike, expiration).None? ==>
      |out| == |cells| + 1 && out[|cells|] == Cell(strike, expiration, 0.0 + v)
  {
    match FindCell(cells, strike, expiration)
    case Some(k) => cells[k := cells[k].(gex := cells[k].gex + v)]
    case None => cells + [Cell(strike, expiration, 0.0 + v)]
  }

  /** The reference value of a cell: the signed exposure summed over the
      contributing contracts with that key. */
  function CellSum(cs: seq<Contract>, strike: real, expiration: string, spot: real): real
  {
    if |cs| == 0 then 0.0
    else
      var last := cs[|cs| - 1];
      CellSum(cs[..|cs| - 1], strike, expiration, spot)
      + (if Contributes(last) && last.strike == strike && last.expiration == expiration
         then SignedExposure(last, spot) else 0.0)
  }

  /** Some contributing contract carries the key. */
  predicate KeyUsed(cs: seq<Contract>, strike: real, expiration: string)
  {
    exists j :: 0 <= j < |cs| && Contributes(cs[j]) && cs[j].strike == strike && cs[j].expiration == expiration
  }

  /** A key no contract uses sums to nothing. */
  lemma {:induction false} CellSumUnused(cs: seq<Contract>, strike: real, expiration: string, spot: real)
    requires !KeyUsed(cs, strike, expiration)
    ensures CellSum(cs, strike, expiration, spot) == 0.0
    decreases |cs|
  {
    if |cs| > 0 {
      CellSumUnused(cs[..|cs| - 1], strike, expiration, spot);
    }
  }

  /** `cells` is the aggregation of `cs`: one cell per used key, each holding
      the key's reference sum. */
  ghost predicate CellsFor(cs: seq<Contract>, spot: real, cells: seq<Cell>)
  {
    && DistinctKeys(cells)
    && (forall i :: 0 <= i < |cells| ==> cells[i].gex == CellSum(cs, cells[i].strike, cells[i].expiration, spot))
    && (forall i :: 0 <= i < |cells| ==> KeyUsed(cs, cells[i].strike, cells[i].expiration))
    && (forall strike, expiration :: KeyUsed(cs, strike, expiration) ==> FindCell(cells, strike, expiration).Some?)
  }

  /** One iteration of the per-contract loop. */
  function AddContract(cells: seq<Cell>, c: Contract, spot: real): (out: seq<Cell>)
    requires DistinctKeys(cells)
    ensures DistinctKeys(out)
    ensures !Contributes(c) ==> out == cells
    ensures Contributes(c) ==> FindCell(out, c.strike, c.expiration).Some?
    ensures |cells| <= |out| <= |cells| + 1
    ensures |out| == |cells| + 1 ==>
      Contributes(c) && FindCell(cells, c.strike, c.expiration).None? && HasKey(out[|cells|], c.strike, c.expiration)
    ensures forall i :: 0 <= i < |cells| ==> out[i].strike == cells[i].strike && out[i].expiration == cells[i].expiration
    ensures forall i :: 0 <= i < |cells| ==>
      out[i].gex == cells[i].gex + (if Contributes(c) && HasKey(cells[i], c.strike, c.expiration) then SignedExposure(c, spot) else 0.0)
  {
    if Contributes(c) then AddToCell(cells, c.strike, c.expiration, SignedExposure(c, spot)) else cells
  }

  lemma {:induction false} AddContractKeepsCells(cs: seq<Contract>, spot: real, prev: seq<Cell>)
    requires |cs| > 0
    requires CellsFor(cs[..|cs| - 1], spot, prev)
    ensures CellsFor(cs, spot, AddContract(prev, cs[|cs| - 1], spot))
  {
    AddContractCovers(cs, spot, prev);
    AddContractSums(cs, spot, prev);
  }

  /** After one step every used key has a cell. */
  lemma {:induction false} AddContractCovers(cs: seq<Contract>, spot: real, prev: seq<Cell>)
    requires |cs| > 0
    requires CellsFor(cs[..|cs| - 1], spot, prev)
    ensures var out := AddContract(prev, cs[|cs| - 1], spot);
      forall strike, expiration :: KeyUsed(cs, strike, expiration) ==> FindCell(out, strike, expiration).Some?
  {
    var init := cs[..|cs| - 1];
    var last := cs[|cs| - 1];
    var out := AddContract(prev, last, spot);
    forall strike, expiration | KeyUsed(cs, strike, expiration)
      ensures FindCell(out, strike, expiration).Some?
    {
      var j :| 0 <= j < |cs| && Contributes(cs[j]) && cs[j].strike == strike && cs[j].expiration == expiration;
      if j < |init| {
        assert init[j] == cs[j];
        assert KeyUsed(init, strike, expiration);
        var k := FindCell(prev, strike, expiration).value;
        assert HasKey(out[k], strike, expiration);
      } else {
        var f := FindCell(prev, strike, expiration);
        if f.Some? {
          assert HasKey(out[f.value], strike, expiration);
        } else {
          assert HasKey(out[|prev|], strike, expiration);
        }
      }
    }
  }

  /** After one step every cell's key is used and holds its reference sum. */
  lemma {:induction false} AddContractSums(cs: seq<Contract>, spot: real, prev: seq<Cell>)
    requires |cs| > 0
    requires CellsFor(cs[..|cs| - 1], spot, prev)
    ensures var out := AddContract(prev, cs[|cs| - 1], spot);
      forall i :: 0 <= i < |out| ==>
        KeyUsed(cs, out[i].strike, out[i].expiration) && out[i].gex == CellSum(cs, out[i].strike, out[i].expiration, spot)
  {
    var init := cs[..|cs| - 1];
    var last := cs[|cs| - 1];
    var out := AddContract(prev, last, spot);
    forall i | 0 <= i < |out|
      ensures KeyUsed(cs, out[i].strike, out[i].expiration)
      ensures out[i].gex == CellSum(cs, out[i].strike, out[i].expiration, spot)
    {
      if i < |prev| {
        var j :| 0 <= j < |init| && Contributes(init[j]) && init[j].strike == prev[i].strike
          && init[j].expiration == prev[i].expiration;
        assert cs[j] == init[j];
      } else {
        assert FindCell(prev, last.strike, last.expiration).None?;
        CellSumUnused(init, last.strike, last.expiration, spot);
      }
    }
  }

  /** The per-cell loop over one ticker's contracts, a left fold: cells
      appear in first-use order. */
  function BuildCells(cs: seq<Contract>, spot: real): (cells: seq<Cell>)
    ensures CellsFor(cs, spot, cells)
    decreases |cs|
  {
    if |cs| == 0 then []
    else
      var prev := BuildCells(cs[..|cs| - 1], spot);
      AddContractKeepsCells(cs, spot, prev);
      AddContract(prev, cs[|cs| - 1], spot)
  }

  /** The position of the first contributing contract with a given key, if
      any: when the key's cell is created. */
  function FirstUse(cs: seq<Contract>, strike: real, expiration: string): (f: Option<nat>)
    ensures f.Some? <==> KeyUsed(cs, strike, expiration)
    ensures f.Some? ==>
      (f.value < |cs| && Contributes(cs[f.value]) && cs[f.value].strike == strike && cs[f.value].expiration == expiration)
    ensures f.Some? ==> forall i :: 0 <= i < f.value ==>
      !(Contributes(cs[i]) && cs[i].strike == strike && cs[i].expiration == expiration)
    decreases |cs|
  {
    if |cs| == 0 then None
    else
      var init, last := cs[..|cs| - 1], cs[|cs| - 1];
      var f := FirstUse(init, strike, expiration);
      assert forall i :: 0 <= i < |init| ==> init[i] == cs[i];
      if f.Some? then f
      else if Contributes(last) && last.strike == strike && last.expiration == expiration then
        assert !KeyUsed(init, strike, expiration);
        Some(|cs| - 1)
      else
        assert !KeyUsed(init, strike, expiration);
        None
  }

  /** Each cell's key is used, and cells are ordered by when their key is
      first used. */
  predicate InFirstUseOrder(cs: seq<Contract>, cells: seq<Cell>)
  {
    && (forall i :: 0 <= i < |cells| ==> FirstUse(cs, cells[i].strike, cells[i].expiration).Some?)
    && (forall i, j :: 0 <= i < j < |cells| ==>
          FirstUse(cs, cells[i].strike, cells[i].expiration).value
          < FirstUse(cs, cells[j].strike, cells[j].expiration).value)
  }

  /** The cells come out in the order their keys are first used, as the
      dict that holds them iterates. */
  lemma {:induction false} BuildCellsInFirstUseOrder(cs: seq<Contract>, spot: real)
    ensures InFirstUseOrder(cs, BuildCells(cs, spot))
    decreases |cs|
  {
    if |cs| > 0 {
      var init, last := cs[..|cs| - 1], cs[|cs| - 1];
      var prev := BuildCells(init, spot);
      BuildCellsInFirstUseOrder(init, spot);
      var out := BuildCells(cs, spot);
      assert out == AddContract(prev, last, spot);
      forall i | 0 <= i < |prev|
        ensures FirstUse(cs, out[i].strike, out[i].expiration) == FirstUse(init, prev[i].strike, prev[i].expiration)
      {
        assert KeyUsed(init, prev[i].strike, prev[i].expiration);
      }
      if |out| == |prev| + 1 {
        assert !KeyUsed(init, last.strike, last.expiration);
        assert FirstUse(cs, out[|prev|].strike, out[|prev|].expiration) == Some(|cs| - 1);
      }
    }
  }

  /** Cells never sit at strike 0. */
  lemma {:induction false} NoCellAtStrikeZero(cs: seq<Contract>, spot: real)
    ensures forall i :: 0 <= i < |BuildCells(cs, spot)| ==> BuildCells(cs, spot)[i].strike != 0.0
  {
    var cells := BuildCells(cs, spot);
    forall i | 0 <= i < |cells| ensures cells[i].strike != 0.0 {
      assert KeyUsed(cs, cells[i].strike, cells[i].expiration);
    }
  }

  lemma {:induction false} CellSumAppend(a: seq<Contract>, b: seq<Contract>, strike: real, expiration: string, spot: real)
    ensures CellSum(a + b, strike, expiration, spot) == CellSum(a, strike, expiration, spot) + CellSum(b, strike, expiration, spot)
    decreases |b|
  {
    if |b| > 0 {
      assert (a + b)[..|a + b| - 1] == a + b[..|b| - 1];
      assert (a + b)[|a + b| - 1] == b[|b| - 1];
      CellSumAppend(a, b[..|b| - 1], strike, expiration, spot);
    } else {
      assert a + b == a;
    }
  }

  function Term(c: Contract, strike: real, expiration: string, spot: real): real
  {
    if Contributes(c) && c.strike == strike && c.expiration == expiration then SignedExposure(c, spot) else 0.0
  }

  lemma CellSumSingle(c: Contract, strike: real, expiration: string, spot: real)
    ensures CellSum([c], strike, expiration, spot) == Term(c, strike, expiration, spot)
  {
    assert [c][..0] == [];
  }

  /** A cell's value does not depend on the order of the contracts. */
  lemma {:induction false} CellSumOrderIndependent(a: seq<Contract>, b: seq<Contract>, strike: real, expiration: string, spot: real)
    requires multiset(a) == multiset(b)
    ensures CellSum(a, strike, expiration, spot) == CellSum(b, strike, expiration, spot)
    decreases |a|
  {
    if |a| == 0 {
      assert |b| == |multiset(b)| == 0;
    } else {
      var x := a[|a| - 1];
      assert x in multiset(b);
      var k :| 0 <= k < |b| && b[k] == x;
      var rest := b[..k] + b[k + 1..];
      assert b == b[..k] + [x] + b[k + 1..];
      assert a == a[..|a| - 1] + [x];
      assert multiset(b) == multiset(b[..k]) + multiset{x} + multiset(b[k + 1..]);
      assert multiset(a) == multiset(a[..|a| - 1]) + multiset{x};
      assert multiset(rest) == multiset(b[..k]) + multiset(b[k + 1..]);
      assert multiset(a[..|a| - 1]) == multiset(a) - multiset{x};
      assert multiset(rest) == multiset(b) - multiset{x};
      CellSumOrderIndependent(a[..|a| - 1], rest, strike, expiration, spot);
      CellSumAppend(b[..k] + [x], b[k + 1..], strike, expiration, spot);
      CellSumAppend(b[..k], [x], strike, expiration, spot);
      CellSumAppend(b[..k], b[k + 1..], strike, expiration, spot);
      CellSumSingle(x, strike, expiration, spot);
    }
  }

  // ---------------------------------------------------------------- walls

  datatype Side = PositiveSide | NegativeSide

  /** The value as the side compares it: larger is better on both sides. */
  function Oriented(side: Side, g: real): real
  {
    if side == PositiveSide then g else -g
  }

  /** `best` is the first cell of `cells[..n]` whose oriented value is
      positive and not exceeded, or None when no such cell exists. */
  predicate IsFirstBest(cells: seq<Cell>, side: Side, n: int, best: Option<nat>)
    requires 0 <= n <= |cells|
  {
    match best
    case None => forall j :: 0 <= j < n ==> Oriented(side, cells[j].gex) <= 0.0
    case Some(b) =>
      b < n && Oriented(side, cells[b].gex) > 0.0
      && (forall j :: 0 <= j < n ==> Oriented(side, cells[j].gex) <= Oriented(side, cells[b].gex))
      && (forall j :: 0 <= j < b ==> Oriented(side, cells[j].gex) < Oriented(side, cells[b].gex))
  }

  /** The star scan from cell `i` on, with the best so far in `best`: a cell
      replaces it only when strictly better. */
  function Scan(cells: seq<Cell>, side: Side, i: nat, best: Option<nat>): (k: Option<nat>)
    requires i <= |cells|
    requires IsFirstBest(cells, side, i, best)
    ensures IsFirstBest(cells, side, |cells|, k)
    decreases |cells| - i
  {
    if i == |cells| then best
    else
      var v := Oriented(side, cells[i].gex);
      if v > 0.0 && (best.None? || v > Oriented(side, cells[best.value].gex))
      then Scan(cells, side, i + 1, Some(i))
      else Scan(cells, side, i + 1, best)
  }

  /** `strike` and `value` are one side's wall of `cells`: None and 0 when no
      cell is on that side of zero; otherwise the strike and value of the
      first cell that no other cell beats (so every earlier cell is strictly
      worse). */
  predicate IsWall(cells: seq<Cell>, side: Side, strike: Option<real>, value: real)
  {
    && (strike.None? <==> forall j :: 0 <= j < |cells| ==> Oriented(side, cells[j].gex) <= 0.0)
    && (strike.None? ==> value == 0.0)
    && (strike.Some? ==>
          Oriented(side, value) > 0.0
          && (exists k :: 0 <= k < |cells| && cells[k].strike == strike.value && cells[k].gex == value
               && (forall j :: 0 <= j < |cells| ==> Oriented(side, cells[j].gex) <= Oriented(side, value))
               && (forall j :: 0 <= j < k ==> Oriented(side, cells[j].gex) < Oriented(side, value))))
  }

  /** One side's wall: the scan's cell, its value reported only when its
      strike is truthy (cells never sit at strike 0, so always). */
  function WallLevel(cells: seq<Cell>, side: Side): (w: (Option<real>, real))
    requires forall i :: 0 <= i < |cells| ==> cells[i].strike != 0.0
    ensures IsWall(cells, side, w.0, w.1)
  {
    var k := Scan(cells, side, 0, None);
    var strike := if k.Some? then Some(cells[k.value].strike) else None;
    (strike, if strike.Some? && strike.value != 0.0 then cells[k.value].gex else 0.0)
  }

  /** The spot a ticker's exposures use: its first kept contract's. */
  function Spot(group: seq<Contract>): real
  {
    if |group| == 0 then 0.0 else group[0].underlyingPrice
  }

  /** One ticker's levels from its kept contracts. */
  function TickerLevels(group: seq<Contract>): (g: GammaLevels)
    ensures g.price == Spot(group)
    ensures IsWall(BuildCells(group, Spot(group)), PositiveSide, g.posStrike, g.posValue)
    ensures IsWall(BuildCells(group, Spot(group)), NegativeSide, g.negStrike, g.negValue)
  {
    var cells := BuildCells(group, Spot(group));
    NoCellAtStrikeZero(group, Spot(group));
    var pos := WallLevel(cells, PositiveSide);
    var neg := WallLevel(cells, NegativeSide);
    GammaLevels(Spot(group), pos.0, pos.1, neg.0, neg.1)
  }

  /** The put wall in plain terms: the most negative cell, the first one
      among equals; None exactly when no cell is negative. */
  lemma PutWallIsMostNegative(cells: seq<Cell>, strike: Option<real>, value: real)
    requires IsWall(cells, NegativeSide, strike, value)
    ensures strike.None? <==> forall j :: 0 <= j < |cells| ==> cells[j].gex >= 0.0
    ensures strike.Some? ==> value < 0.0
    ensures strike.Some? ==> forall j :: 0 <= j < |cells| ==> value <= cells[j].gex
  {
  }

  /** The call wall in plain terms: the most positive cell. */
  lemma CallWallIsMostPositive(cells: seq<Cell>, strike: Option<real>, value: real)
    requires IsWall(cells, PositiveSide, strike, value)
    ensures strike.None? <==> forall j :: 0 <= j < |cells| ==> cells[j].gex <= 0.0
    ensures strike.Some? ==> value > 0.0
    ensures strike.Some? ==> forall j :: 0 <= j < |cells| ==> cells[j].gex <= value
  {
  }

  // ---------------------------------------------------------------- tickers

  /** The kept contracts of one ticker, in order. */
  function KeptOf(cs: seq<Contract>, t: string): (group: seq<Contract>)
    ensures forall i :: 0 <= i < |group| ==> Kept(group[i]) && group[i].symbol == t
    ensures |group| > 0 <==> HasKept(cs, t)
  {
    if |cs| == 0 then []
    else
      assert forall j :: 1 <= j < |cs| ==> cs[j] == cs[1..][j - 1];
      (if Kept(cs[0]) && cs[0].symbol == t then [cs[0]] else []) + KeptOf(cs[1..], t)
  }

  /** The group holds every kept contract of `t`, as often as it occurs in
      the input, and nothing else. */
  lemma {:induction false} KeptOfCount(cs: seq<Contract>, t: string)
    ensures forall c :: multiset(KeptOf(cs, t))[c] == (if Kept(c) && c.symbol == t then multiset(cs)[c] else 0)
  {
    if |cs| > 0 {
      KeptOfCount(cs[1..], t);
      assert cs == [cs[0]] + cs[1..];
    }
  }

  /** Grouping keeps the input order: the group of a concatenation is the
      group of its first part followed by that of its second. */
  lemma {:induction false} KeptOfAppend(a: seq<Contract>, b: seq<Contract>, t: string)
    ensures KeptOf(a + b, t) == KeptOf(a, t) + KeptOf(b, t)
  {
    if |a| > 0 {
      assert (a + b)[0] == a[0] && (a + b)[1..] == a[1..] + b;
      KeptOfAppend(a[1..], b, t);
    } else {
      assert a + b == b;
    }
  }

  /** A single contract forms its ticker's group exactly when it is kept. */
  lemma KeptOfSingle(c: Contract, t: string)
    ensures KeptOf([c], t) == if Kept(c) && c.symbol == t then [c] else []
  {
    assert [c][1..] == [];
  }

  /** The first element of a ticker's group is its first kept contract. */
  lemma {:induction false} KeptOfStartsAtFirst(cs: seq<Contract>, t: string, j: int)
    requires 0 <= j < |cs| && Kept(cs[j]) && cs[j].symbol == t
    requires forall i :: 0 <= i < j ==> !(Kept(cs[i]) && cs[i].symbol == t)
    ensures |KeptOf(cs, t)| > 0 && KeptOf(cs, t)[0] == cs[j]
  {
    if j > 0 {
      assert forall i :: 0 <= i < j - 1 ==> cs[1..][i] == cs[i + 1];
      KeptOfStartsAtFirst(cs[1..], t, j - 1);
    }
  }

  /** Some kept contract has ticker `t`. */
  predicate HasKept(cs: seq<Contract>, t: string)
  {
    exists j :: 0 <= j < |cs| && Kept(cs[j]) && cs[j].symbol == t
  }

  /** Tickers of the kept contracts in first-seen order (the dict's keys). */
  function KeptTickers(cs: seq<Contract>): (ts: seq<string>)
    ensures forall i, j :: 0 <= i < j < |ts| ==> ts[i] != ts[j]
    ensures forall t :: t in ts <==> HasKept(cs, t)
    decreases |cs|
  {
    if |cs| == 0 then []
    else
      var prev := KeptTickers(cs[..|cs| - 1]);
      KeptTickersStep(cs, prev);
      var last := cs[|cs| - 1];
      if Kept(last) && last.symbol !in prev then prev + [last.symbol] else prev
  }

  lemma {:induction false} KeptTickersStep(cs: seq<Contract>, prev: seq<string>)
    requires |cs| > 0
    requires forall t :: t in prev <==> HasKept(cs[..|cs| - 1], t)
    ensures forall t :: HasKept(cs, t) <==> t in prev || (Kept(cs[|cs| - 1]) && cs[|cs| - 1].symbol == t)
  {
    var init := cs[..|cs| - 1];
    forall t ensures HasKept(cs, t) <==> t in prev || (Kept(cs[|cs| - 1]) && cs[|cs| - 1].symbol == t) {
      if HasKept(cs, t) {
        var j :| 0 <= j < |cs| && Kept(cs[j]) && cs[j].symbol == t;
        if j < |init| {
          assert init[j] == cs[j];
        }
      }
      if t in prev {
        var j :| 0 <= j < |init| && Kept(init[j]) && init[j].symbol == t;
        assert cs[j] == init[j];
      }
    }
  }

  /** The position of a ticker's first kept contract, if any: when the
      ticker's key enters the dict. */
  function FirstKept(cs: seq<Contract>, t: string): (f: Option<nat>)
    ensures f.Some? <==> HasKept(cs, t)
    ensures f.Some? ==> (f.value < |cs| && Kept(cs[f.value]) && cs[f.value].symbol == t)
    ensures f.Some? ==> forall i :: 0 <= i < f.value ==> !(Kept(cs[i]) && cs[i].symbol == t)
    decreases |cs|
  {
    if |cs| == 0 then None
    else
      var init := cs[..|cs| - 1];
      var f := FirstKept(init, t);
      assert forall i :: 0 <= i < |init| ==> init[i] == cs[i];
      if f.Some? then f
      else if Kept(cs[|cs| - 1]) && cs[|cs| - 1].symbol == t then Some(|cs| - 1)
      else
        assert !HasKept(init, t);
        None
  }

  lemma FirstKeptStep(cs: seq<Contract>, t: string)
    requires |cs| > 0
    ensures FirstKept(cs[..|cs| - 1], t).Some? ==> FirstKept(cs, t) == FirstKept(cs[..|cs| - 1], t)
    ensures FirstKept(cs[..|cs| - 1], t).None? && Kept(cs[|cs| - 1]) && cs[|cs| - 1].symbol == t ==>
      FirstKept(cs, t) == Some(|cs| - 1)
  {
  }

  /** Tickers are ordered by where their first kept contract stands. */
  predicate InFirstKeptOrder(cs: seq<Contract>, ts: seq<string>)
  {
    && (forall i :: 0 <= i < |ts| ==> FirstKept(cs, ts[i]).Some?)
    && (forall i, j :: 0 <= i < j < |ts| ==> FirstKept(cs, ts[i]).value < FirstKept(cs, ts[j]).value)
  }

  /** The grouped tickers come out in first-seen order, as the dict's keys. */
  lemma {:induction false} KeptTickersInFirstKeptOrder(cs: seq<Contract>)
    ensures InFirstKeptOrder(cs, KeptTickers(cs))
    decreases |cs|
  {
    if |cs| > 0 {
      var init, last := cs[..|cs| - 1], cs[|cs| - 1];
      var prev := KeptTickers(init);
      KeptTickersInFirstKeptOrder(init);
      var ts := KeptTickers(cs);
      assert ts == if Kept(last) && last.symbol !in prev then prev + [last.symbol] else prev;
      if |ts| == |prev| + 1 {
        assert FirstKept(init, last.symbol).None?;
      }
      KeptOrderStep(cs, prev, ts);
    }
  }

  /** The ordering argument for one step, knowing of the new key sequence
      only that the old keys stay in place and that a new key is appended. */
  lemma {:induction false} KeptOrderStep(cs: seq<Contract>, prev: seq<string>, ts: seq<string>)
    requires |cs| > 0
    requires InFirstKeptOrder(cs[..|cs| - 1], prev)
    requires |prev| <= |ts| <= |prev| + 1
    requires forall i :: 0 <= i < |prev| ==> ts[i] == prev[i]
    requires |ts| == |prev| + 1 ==>
      (FirstKept(cs[..|cs| - 1], ts[|prev|]).None? && Kept(cs[|cs| - 1]) && ts[|prev|] == cs[|cs| - 1].symbol)
    ensures InFirstKeptOrder(cs, ts)
  {
    var init := cs[..|cs| - 1];
    forall i | 0 <= i < |prev|
      ensures FirstKept(cs, ts[i]) == FirstKept(init, prev[i])
    {
      FirstKeptStep(cs, prev[i]);
    }
    if |ts| == |prev| + 1 {
      FirstKeptStep(cs, ts[|prev|]);
    }
  }

  /** `compute_star_levels`: one entry per ticker with a kept contract, in
      first-seen order, holding the levels of that ticker's kept contracts. */
  function ComputeStarLevels(cs: seq<Contract>): (out: seq<Keyed<GammaLevels>>)
    ensures DistinctTickers(out)
    ensures forall t :: Lookup(out, t).Some? <==> HasKept(cs, t)
    ensures forall t :: Lookup(out, t).Some? ==> Lookup(out, t).value == TickerLevels(KeptOf(cs, t))
  {
    var ts := KeptTickers(cs);
    var out := seq(|ts|, i requires 0 <= i < |ts| => Keyed(ts[i], TickerLevels(KeptOf(cs, ts[i]))));
    StarLevelsLookup(cs, ts, out);
    out
  }

  lemma {:induction false} StarLevelsLookup(cs: seq<Contract>, ts: seq<string>, out: seq<Keyed<GammaLevels>>)
    requires |out| == |ts|
    requires forall i :: 0 <= i < |ts| ==> out[i] == Keyed(ts[i], TickerLevels(KeptOf(cs, ts[i])))
    ensures forall t :: Lookup(out, t).Some? <==> t in ts
    ensures forall t :: Lookup(out, t).Some? ==> Lookup(out, t).value == TickerLevels(KeptOf(cs, t))
  {
    forall t ensures Lookup(out, t).Some? <==> t in ts {
      if t in ts {
        var i :| 0 <= i < |ts| && ts[i] == t;
        assert out[i].ticker == t;
      }
    }
    forall t | Lookup(out, t).Some? ensures Lookup(out, t).value == TickerLevels(KeptOf(cs, t)) {
      var i :| 0 <= i < |out| && out[i] == Keyed(t, Lookup(out, t).value);
    }
  }

  /** The levels come out in first-seen order of their tickers. */
  lemma StarLevelsInFirstKeptOrder(cs: seq<Contract>)
    ensures var out := ComputeStarLevels(cs);
      && (forall i :: 0 <= i < |out| ==> FirstKept(cs, out[i].ticker).Some?)
      && (forall i, j :: 0 <= i < j < |out| ==>
            FirstKept(cs, out[i].ticker).value < FirstKept(cs, out[j].ticker).value)
  {
    var ts, out := KeptTickers(cs), ComputeStarLevels(cs);
    KeptTickersInFirstKeptOrder(cs);
    assert |out| == |ts|;
    forall i | 0 <= i < |out|
      ensures out[i].ticker == ts[i]
    {
    }
    KeysInFirstKeptOrder(cs, ts, out);
  }

  lemma KeysInFirstKeptOrder(cs: seq<Contract>, ts: seq<string>, out: seq<Keyed<GammaLevels>>)
    requires InFirstKeptOrder(cs, ts)
    requires |out| == |ts| && forall i :: 0 <= i < |out| ==> out[i].ticker == ts[i]
    ensures forall i :: 0 <= i < |out| ==> FirstKept(cs, out[i].ticker).Some?
    ensures forall i, j :: 0 <= i < j < |out| ==>
      FirstKept(cs, out[i].ticker).value < FirstKept(cs, out[j].ticker).value
  {
  }

  /** Each ticker's price is the spot of its first kept contract. */
  lemma {:induction false} PriceFromFirstKeptContract(cs: seq<Contract>, j: int)
    requires 0 <= j < |cs| && Kept(cs[j])
    requires forall i :: 0 <= i < j ==> !(Kept(cs[i]) && cs[i].symbol == cs[j].symbol)
    ensures Lookup(ComputeStarLevels(cs), cs[j].symbol).Some?
    ensures Lookup(ComputeStarLevels(cs), cs[j].symbol).value.price == cs[j].underlyingPrice
  {
    var t := cs[j].symbol;
    assert HasKept(cs, t);
    KeptOfStartsAtFirst(cs, t, j);
  }
}
