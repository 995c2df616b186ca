/** The alert detector: comparisons of the current gamma levels of each
    ticker against the previous cycle's, and a stable ordering of the alerts
    by severity. Alert texts are not modelled; an alert carries the facts its
    text reports. */
module Detector {
  import opened Common
  import opened Records

  datatype Severity = Critical | Warning | Info

  datatype WallSide = CallWall | PutWall

  /** What an alert is about. */
  datatype AlertKind =
    | GexFlip(toNegative: bool)
    | WallShift(side: WallSide, previous: real, current: real)
    | NearWall(side: WallSide, strike: real)

  datatype Alert = Alert(ticker: string, kind: AlertKind, severity: Severity)

  /** The categories the three check flags switch. */
  datatype Category = FlipCategory | ShiftCategory | WallCategory

  function CategoryOf(a: Alert): Category
  {
    match a.kind
    case GexFlip(_) => FlipCategory
    case WallShift(_, _, _) => ShiftCategory
    case NearWall(_, _) => WallCategory
  }

  /** The sort key: critical, then warning, then info. */
  function Rank(s: Severity): nat
  {
    match s
    case Critical => 0
    case Warning => 1
    case Info => 2
  }

  // ---------------------------------------------------------------- checks

  /** `detect_gex_flip`: a strict sign change of net GEX; positive to
      negative is critical, negative to positive a warning. */
  function DetectGexFlip(ticker: string, current: Option<real>, previous: Option<real>): (r: Option<Alert>)
    ensures r.Some? <==>
      (current.Some? && previous.Some?
       && ((previous.value > 0.0 && current.value < 0.0) || (previous.value < 0.0 && current.value > 0.0)))
    ensures r.Some? ==> r.value.ticker == ticker && r.value.kind.GexFlip? && CategoryOf(r.value) == FlipCategory
    ensures r.Some? ==> (r.value.severity == Critical <==> previous.value > 0.0)
    ensures r.Some? ==> (r.value.severity == Critical <==> r.value.kind.toNegative)
    ensures r.Some? ==> r.value.severity != Info
  {
    if previous.None? || current.None? then None
    else if previous.value > 0.0 && current.value < 0.0 then Some(Alert(ticker, GexFlip(true), Critical))
    else if previous.value < 0.0 && current.value > 0.0 then Some(Alert(ticker, GexFlip(false), Warning))
    else None
  }

  /** A zero on either side never flips. */
  lemma ZeroNeverFlips(ticker: string, x: real)
    ensures DetectGexFlip(ticker, Some(0.0), Some(x)).None?
    ensures DetectGexFlip(ticker, Some(x), Some(0.0)).None?
  {
  }

  /** A wall moved: both sides known and different. */
  predicate Shifted(current: Option<real>, previous: Option<real>)
  {
    current.Some? && previous.Some? && current.value != previous.value
  }

  /** `detect_new_max_strike`: one info alert per wall that moved, the call
      wall first. */
  function DetectNewMaxStrike(ticker: string, currentPos: Option<real>, currentNeg: Option<real>,
                              previousPos: Option<real>, previousNeg: Option<real>): (r: seq<Alert>)
    ensures |r| == (if Shifted(currentPos, previousPos) then 1 else 0) + (if Shifted(currentNeg, previousNeg) then 1 else 0)
    ensures forall a :: a in r ==> a.ticker == ticker && a.severity == Info && CategoryOf(a) == ShiftCategory
    ensures Shifted(currentPos, previousPos) ==> Alert(ticker, WallShift(CallWall, previousPos.value, currentPos.value), Info) in r
    ensures Shifted(currentNeg, previousNeg) ==> Alert(ticker, WallShift(PutWall, previousNeg.value, currentNeg.value), Info) in r
    ensures forall a :: a in r && a.kind.WallShift? && a.kind.side == CallWall ==> Shifted(currentPos, previousPos)
    ensures forall a :: a in r && a.kind.WallShift? && a.kind.side == PutWall ==> Shifted(currentNeg, previousNeg)
    ensures |r| > 0 ==> (r[0].kind.side == CallWall <==> Shifted(currentPos, previousPos))
  {
    (if Shifted(currentPos, previousPos) then [Alert(ticker, WallShift(CallWall, previousPos.value, currentPos.value), Info)] else [])
    + (if Shifted(currentNeg, previousNeg) then [Alert(ticker, WallShift(PutWall, previousNeg.value, currentNeg.value), Info)] else [])
  }

  /** The price is within `threshold` percent of a usable wall strike. */
  predicate Near(price: real, strike: Option<real>, threshold: real)
  {
    price > 0.0 && strike.Some? && strike.value > 0.0 && DistancePct(price, strike.value) <= threshold
  }

  /** `detect_price_near_wall`: one warning per wall the price is near,
      nothing at all for a non-positive price. */
  function DetectPriceNearWall(ticker: string, price: real, posStrike: Option<real>, negStrike: Option<real>,
                               threshold: real): (r: seq<Alert>)
    ensures price <= 0.0 ==> r == []
    ensures |r| == (if Near(price, posStrike, threshold) then 1 else 0) + (if Near(price, negStrike, threshold) then 1 else 0)
    ensures forall a :: a in r ==> a.ticker == ticker && a.severity == Warning && CategoryOf(a) == WallCategory
    ensures Near(price, posStrike, threshold) ==> Alert(ticker, NearWall(CallWall, posStrike.value), Warning) in r
    ensures Near(price, negStrike, threshold) ==> Alert(ticker, NearWall(PutWall, negStrike.value), Warning) in r
    ensures forall a :: a in r && a.kind.NearWall? && a.kind.side == CallWall ==> Near(price, posStrike, threshold)
    ensures forall a :: a in r && a.kind.NearWall? && a.kind.side == PutWall ==> Near(price, negStrike, threshold)
  {
    if price <= 0.0 then []
    else
      (if Near(price, posStrike, threshold) then [Alert(ticker, NearWall(CallWall, posStrike.value), Warning)] else [])
      + (if Near(price, negStrike, threshold) then [Alert(ticker, NearWall(PutWall, negStrike.value), Warning)] else [])
  }

  // ---------------------------------------------------------------- severity order

  /** The alerts of one severity, in order. */
  function OfSeverity(xs: seq<Alert>, s: Severity): seq<Alert>
  {
    if |xs| == 0 then []
    else (if xs[0].severity == s then [xs[0]] else []) + OfSeverity(xs[1..], s)
  }

  /** The alerts of severity `s` are exactly the alerts of `xs` with that severity. */
  lemma {:induction false} OfSeverityMembers(xs: seq<Alert>, s: Severity)
    ensures forall a :: a in OfSeverity(xs, s) <==> a in xs && a.severity == s
  {
    if |xs| > 0 {
      OfSeverityMembers(xs[1..], s);
      assert xs == [xs[0]] + xs[1..];
    }
  }

  lemma {:induction false} OfSeverityAppend(a: seq<Alert>, b: seq<Alert>, s: Severity)
    ensures OfSeverity(a + b, s) == OfSeverity(a, s) + OfSeverity(b, s)
  {
    if |a| > 0 {
      assert (a + b)[1..] == a[1..] + b;
      OfSeverityAppend(a[1..], b, s);
    } else {
      assert a + b == b;
    }
  }

  lemma {:induction false} OfSeverityTwice(xs: seq<Alert>, s: Severity, t: Severity)
    ensures OfSeverity(OfSeverity(xs, t), s) == if s == t then OfSeverity(xs, s) else []
  {
    if |xs| > 0 {
      OfSeverityTwice(xs[1..], s, t);
      OfSeverityAppend(if xs[0].severity == t then [xs[0]] else [], OfSeverity(xs[1..], t), s);
      assert OfSeverity([xs[0]], s) == (if xs[0].severity == s then [xs[0]] else []) by {
        assert [xs[0]][1..] == [];
      }
    }
  }

  lemma {:induction false} SeverityMultiset(xs: seq<Alert>)
    ensures multiset(xs) == multiset(OfSeverity(xs, Critical)) + multiset(OfSeverity(xs, Warning)) + multiset(OfSeverity(xs, Info))
  {
    if |xs| > 0 {
      var h, t := xs[0], xs[1..];
      SeverityMultiset(t);
      assert xs == [h] + t;
      assert multiset(xs) == multiset{h} + multiset(t);
      OfSeverityConsCount(xs, Critical);
      OfSeverityConsCount(xs, Warning);
      OfSeverityConsCount(xs, Info);
      ThreeBands(h, multiset(OfSeverity(t, Critical)), multiset(OfSeverity(t, Warning)), multiset(OfSeverity(t, Info)),
        multiset(OfSeverity(xs, Critical)), multiset(OfSeverity(xs, Warning)), multiset(OfSeverity(xs, Info)));
    }
  }

  /** Adding one alert to three severity bands grows exactly its own band. */
  lemma ThreeBands(h: Alert, c: multiset<Alert>, w: multiset<Alert>, f: multiset<Alert>,
                   c': multiset<Alert>, w': multiset<Alert>, f': multiset<Alert>)
    requires c' == (if h.severity == Critical then multiset{h} else multiset{}) + c
    requires w' == (if h.severity == Warning then multiset{h} else multiset{}) + w
    requires f' == (if h.severity == Info then multiset{h} else multiset{}) + f
    ensures multiset{h} + (c + w + f) == c' + w' + f'
  {
    match h.severity
    case Critical =>
    case Warning =>
    case Info =>
  }

  lemma OfSeverityConsCount(xs: seq<Alert>, s: Severity)
    requires |xs| > 0
    ensures multiset(OfSeverity(xs, s))
      == (if xs[0].severity == s then multiset{xs[0]} else multiset{}) + multiset(OfSeverity(xs[1..], s))
  {
    if xs[0].severity == s {
      assert OfSeverity(xs, s) == [xs[0]] + OfSeverity(xs[1..], s);
    } else {
      assert OfSeverity(xs, s) == OfSeverity(xs[1..], s);
    }
  }

  /** The stable sort by severity: a permutation, ordered by rank, and the
      alerts of each severity keep their generated order. */
  function SortBySeverity(xs: seq<Alert>): (r: seq<Alert>)
    ensures multiset(r) == multiset(xs)
    ensures forall i, j :: 0 <= i < j < |r| ==> Rank(r[i].severity) <= Rank(r[j].severity)
    ensures forall s :: OfSeverity(r, s) == OfSeverity(xs, s)
  {
    var c, w, f := OfSeverity(xs, Critical), OfSeverity(xs, Warning), OfSeverity(xs, Info);
    SeverityMultiset(xs);
    OfSeverityMembers(xs, Critical);
    OfSeverityMembers(xs, Warning);
    OfSeverityMembers(xs, Info);
    BandsSorted(c, w, f);
    BandsStable(xs);
    c + w + f
  }

  lemma {:induction false} BandsSorted(c: seq<Alert>, w: seq<Alert>, f: seq<Alert>)
    requires forall a :: a in c ==> a.severity == Critical
    requires forall a :: a in w ==> a.severity == Warning
    requires forall a :: a in f ==> a.severity == Info
    ensures var r := c + w + f;
      forall i, j :: 0 <= i < j < |r| ==> Rank(r[i].severity) <= Rank(r[j].severity)
  {
    var r := c + w + f;
    forall k | 0 <= k < |r|
      ensures Rank(r[k].severity) == if k < |c| then 0 else if k < |c| + |w| then 1 else 2
    {
      if k < |c| {
        assert r[k] == c[k];
      } else if k < |c| + |w| {
        assert r[k] == w[k - |c|];
      } else {
        assert r[k] == f[k - |c| - |w|];
      }
    }
  }

  lemma {:induction false} BandsStable(xs: seq<Alert>)
    ensures var r := OfSeverity(xs, Critical) + OfSeverity(xs, Warning) + OfSeverity(xs, Info);
      forall s :: OfSeverity(r, s) == OfSeverity(xs, s)
  {
    var c, w, f := OfSeverity(xs, Critical), OfSeverity(xs, Warning), OfSeverity(xs, Info);
    var r := c + w + f;
    forall s ensures OfSeverity(r, s) == OfSeverity(xs, s) {
      OfSeverityAppend(c + w, f, s);
      OfSeverityAppend(c, w, s);
      OfSeverityTwice(xs, s, Critical);
      OfSeverityTwice(xs, s, Warning);
      OfSeverityTwice(xs, s, Info);
      match s
      case Critical =>
        assert OfSeverity(xs, s) + [] + [] == OfSeverity(xs, s);
      case Warning =>
        assert [] + OfSeverity(xs, s) + [] == OfSeverity(xs, s);
      case Info =>
        assert [] + [] + OfSeverity(xs, s) == OfSeverity(xs, s);
    }
  }

  // ---------------------------------------------------------------- run_all_checks

  /** One ticker's row of gamma data as the detector reads it; missing wall
      values are already 0 (`or 0`). */
  datatype Entry = Entry(price: real, posStrike: Option<real>, negStrike: Option<real>, posValue: real, negValue: real)

  function Net(e: Entry): real
  {
    e.posValue + e.negValue
  }

  datatype Flags = Flags(gexFlip: bool, maxStrike: bool, priceWall: bool)

  function Enabled(flags: Flags, c: Category): bool
  {
    match c
    case FlipCategory => flags.gexFlip
    case ShiftCategory => flags.maxStrike
    case WallCategory => flags.priceWall
  }

  /** The flags with one category switched. */
  function With(flags: Flags, c: Category, on: bool): (f: Flags)
    ensures Enabled(f, c) == on
    ensures forall d :: d != c ==> Enabled(f, d) == Enabled(flags, d)
  {
    match c
    case FlipCategory => flags.(gexFlip := on)
    case ShiftCategory => flags.(maxStrike := on)
    case WallCategory => flags.(priceWall := on)
  }

  function OptionToSeq(a: Option<Alert>): seq<Alert>
  {
    if a.Some? then [a.value] else []
  }

  /** The previous cycle's net GEX and wall strikes, absent without a previous cycle. */
  function PreviousNet(previous: Option<Entry>): Option<real>
  {
    if previous.Some? then Some(Net(previous.value)) else None
  }

  function PreviousPos(previous: Option<Entry>): Option<real>
  {
    if previous.Some? then previous.value.posStrike else None
  }

  function PreviousNeg(previous: Option<Entry>): Option<real>
  {
    if previous.Some? then previous.value.negStrike else None
  }

  /** The alerts of one ticker, in the order the checks run: flip, wall
      shifts, price near a wall. */
  function TickerAlerts(ticker: string, current: Entry, previous: Option<Entry>, threshold: real, flags: Flags): (r: seq<Alert>)
    ensures forall a :: a in r ==> a.ticker == ticker && Enabled(flags, CategoryOf(a))
    ensures previous.None? ==> forall a :: a in r ==> CategoryOf(a) == WallCategory
    ensures |r| <= 5
    ensures flags.gexFlip && DetectGexFlip(ticker, Some(Net(current)), PreviousNet(previous)).Some? ==>
      DetectGexFlip(ticker, Some(Net(current)), PreviousNet(previous)).value in r
    ensures flags.maxStrike ==>
      var shifts := DetectNewMaxStrike(ticker, current.posStrike, current.negStrike, PreviousPos(previous), PreviousNeg(previous));
      forall a :: a in shifts ==> a in r
    ensures flags.priceWall ==>
      forall a :: a in DetectPriceNearWall(ticker, current.price, current.posStrike, current.negStrike, threshold) ==> a in r
  {
    var prevNet := PreviousNet(previous);
    var prevPos := PreviousPos(previous);
    var prevNeg := PreviousNeg(previous);
    var flips := if flags.gexFlip then OptionToSeq(DetectGexFlip(ticker, Some(Net(current)), prevNet)) else [];
    var shifts := if flags.maxStrike then DetectNewMaxStrike(ticker, current.posStrike, current.negStrike, prevPos, prevNeg) else [];
    var walls := if flags.priceWall then DetectPriceNearWall(ticker, current.price, current.posStrike, current.negStrike, threshold) else [];
    assert |flips| <= 1 && |shifts| <= 2 && |walls| <= 2;
    assert previous.None? ==> flips == [] && shifts == [];
    assert forall a :: a in flips + shifts + walls <==> a in flips || a in shifts || a in walls;
    flips + shifts + walls
  }

  /** The alerts of every ticker of the current data, in its order. */
  function Generated(current: seq<Keyed<Entry>>, previous: seq<Keyed<Entry>>, threshold: real, flags: Flags): (r: seq<Alert>)
    ensures forall a :: a in r ==> Enabled(flags, CategoryOf(a))
    ensures forall a :: a in r ==> exists i :: 0 <= i < |current| && current[i].ticker == a.ticker
    ensures |r| <= 5 * |current|
  {
    if |current| == 0 then []
    else
      var rest := Generated(current[1..], previous, threshold, flags);
      assert forall i :: 1 <= i < |current| ==> current[i] == current[1..][i - 1];
      TickerAlerts(current[0].ticker, current[0].value, Lookup(previous, current[0].ticker), threshold, flags) + rest
  }

  /** Every alert of a ticker of the current data is generated. */
  lemma {:induction false} GeneratedCovers(current: seq<Keyed<Entry>>, previous: seq<Keyed<Entry>>, threshold: real,
                                           flags: Flags, i: int, a: Alert)
    requires 0 <= i < |current|
    requires a in TickerAlerts(current[i].ticker, current[i].value, Lookup(previous, current[i].ticker), threshold, flags)
    ensures a in Generated(current, previous, threshold, flags)
  {
    GeneratedCons(current, previous, threshold, flags);
    if i > 0 {
      assert current[1..][i - 1] == current[i];
      GeneratedCovers(current[1..], previous, threshold, flags, i - 1, a);
    }
  }

  lemma GeneratedCons(current: seq<Keyed<Entry>>, previous: seq<Keyed<Entry>>, threshold: real, flags: Flags)
    requires |current| > 0
    ensures Generated(current, previous, threshold, flags) ==
      TickerAlerts(current[0].ticker, current[0].value, Lookup(previous, current[0].ticker), threshold, flags)
      + Generated(current[1..], previous, threshold, flags)
  {
  }

  /** All enabled alerts of every ticker, ordered by severity (`run_all_checks`). */
  function RunAllChecks(current: seq<Keyed<Entry>>, previous: seq<Keyed<Entry>>, threshold: real, flags: Flags): (r: seq<Alert>)
    ensures multiset(r) == multiset(Generated(current, previous, threshold, flags))
    ensures forall i, j :: 0 <= i < j < |r| ==> Rank(r[i].severity) <= Rank(r[j].severity)
    ensures forall s :: OfSeverity(r, s) == OfSeverity(Generated(current, previous, threshold, flags), s)
    ensures forall a :: a in r <==> a in Generated(current, previous, threshold, flags)
    ensures forall a :: a in r ==> Enabled(flags, CategoryOf(a))
  {
    var g := Generated(current, previous, threshold, flags);
    var r := SortBySeverity(g);
    SameMembers(r, g);
    r
  }

  /** Sequences with the same multiset have the same members. */
  lemma SameMembers(r: seq<Alert>, g: seq<Alert>)
    requires multiset(r) == multiset(g)
    ensures forall a :: a in r <==> a in g
  {
    forall a ensures a in r <==> a in g {
      assert a in r <==> a in multiset(r);
      assert a in g <==> a in multiset(g);
    }
  }

  /** A ticker with no previous entry gets no flip and no shift alert. */
  lemma {:induction false} NoPreviousOnlyWallAlerts(current: seq<Keyed<Entry>>, previous: seq<Keyed<Entry>>,
                                                    threshold: real, flags: Flags, t: string)
    requires Lookup(previous, t).None?
    ensures forall a :: a in RunAllChecks(current, previous, threshold, flags) && a.ticker == t ==>
      CategoryOf(a) == WallCategory
  {
    GeneratedNoPrevious(current, previous, threshold, flags, t);
  }

  lemma {:induction false} GeneratedNoPrevious(current: seq<Keyed<Entry>>, previous: seq<Keyed<Entry>>,
                                               threshold: real, flags: Flags, t: string)
    requires Lookup(previous, t).None?
    ensures forall a :: a in Generated(current, previous, threshold, flags) && a.ticker == t ==>
      CategoryOf(a) == WallCategory
  {
    if |current| > 0 {
      GeneratedNoPrevious(current[1..], previous, threshold, flags, t);
    }
  }

  // ---------------------------------------------------------------- check flags

  /** The alerts outside one category, in order. */
  function Without(xs: seq<Alert>, c: Category): seq<Alert>
  {
    if |xs| == 0 then []
    else (if CategoryOf(xs[0]) != c then [xs[0]] else []) + Without(xs[1..], c)
  }

  /** `Without` keeps exactly the alerts outside category `c`. */
  lemma {:induction false} WithoutMembers(xs: seq<Alert>, c: Category)
    ensures forall a :: a in Without(xs, c) <==> a in xs && CategoryOf(a) != c
  {
    if |xs| > 0 {
      WithoutMembers(xs[1..], c);
      assert xs == [xs[0]] + xs[1..];
    }
  }

  lemma {:induction false} WithoutAppend(a: seq<Alert>, b: seq<Alert>, c: Category)
    ensures Without(a + b, c) == Without(a, c) + Without(b, c)
  {
    if |a| > 0 {
      var head := if CategoryOf(a[0]) != c then [a[0]] else [];
      assert (a + b)[0] == a[0] && (a + b)[1..] == a[1..] + b;
      assert Without(a + b, c) == head + Without(a[1..] + b, c);
      WithoutAppend(a[1..], b, c);
      assert Without(a, c) == head + Without(a[1..], c);
    } else {
      assert a + b == b;
    }
  }

  lemma {:induction false} WithoutNothing(xs: seq<Alert>, c: Category)
    requires forall a :: a in xs ==> CategoryOf(a) != c
    ensures Without(xs, c) == xs
  {
    if |xs| > 0 {
      WithoutNothing(xs[1..], c);
      assert xs == [xs[0]] + xs[1..];
    }
  }

  lemma {:induction false} WithoutEverything(xs: seq<Alert>, c: Category)
    requires forall a :: a in xs ==> CategoryOf(a) == c
    ensures Without(xs, c) == []
  {
    if |xs| > 0 {
      WithoutEverything(xs[1..], c);
    }
  }

  lemma {:induction false} WithoutOfSeverity(xs: seq<Alert>, c: Category, s: Severity)
    ensures Without(OfSeverity(xs, s), c) == OfSeverity(Without(xs, c), s)
  {
    if |xs| > 0 {
      WithoutOfSeverity(xs[1..], c, s);
      var h := if xs[0].severity == s then [xs[0]] else [];
      WithoutAppend(h, OfSeverity(xs[1..], s), c);
      var g := if CategoryOf(xs[0]) != c then [xs[0]] else [];
      OfSeverityAppend(g, Without(xs[1..], c), s);
      assert Without([xs[0]], c) == g by { assert [xs[0]][1..] == []; }
      assert OfSeverity([xs[0]], s) == h by { assert [xs[0]][1..] == []; }
    }
  }

  /** Dropping a category commutes with the severity sort. */
  lemma {:induction false} WithoutSort(xs: seq<Alert>, c: Category)
    ensures Without(SortBySeverity(xs), c) == SortBySeverity(Without(xs, c))
  {
    var cr, w, f := OfSeverity(xs, Critical), OfSeverity(xs, Warning), OfSeverity(xs, Info);
    WithoutAppend(cr + w, f, c);
    WithoutAppend(cr, w, c);
    WithoutOfSeverity(xs, c, Critical);
    WithoutOfSeverity(xs, c, Warning);
    WithoutOfSeverity(xs, c, Info);
  }

  lemma {:induction false} TickerFlagOff(ticker: string, current: Entry, previous: Option<Entry>,
                                         threshold: real, flags: Flags, c: Category)
    ensures TickerAlerts(ticker, current, previous, threshold, With(flags, c, false))
         == Without(TickerAlerts(ticker, current, previous, threshold, With(flags, c, true)), c)
  {
    var prevNet := if previous.Some? then Some(Net(previous.value)) else None;
    var prevPos := if previous.Some? then previous.value.posStrike else None;
    var prevNeg := if previous.Some? then previous.value.negStrike else None;
    var on, off := With(flags, c, true), With(flags, c, false);
    var f1 := if on.gexFlip then OptionToSeq(DetectGexFlip(ticker, Some(Net(current)), prevNet)) else [];
    var f2 := if on.maxStrike then DetectNewMaxStrike(ticker, current.posStrike, current.negStrike, prevPos, prevNeg) else [];
    var f3 := if on.priceWall then DetectPriceNearWall(ticker, current.price, current.posStrike, current.negStrike, threshold) else [];
    var g1 := if off.gexFlip then OptionToSeq(DetectGexFlip(ticker, Some(Net(current)), prevNet)) else [];
    var g2 := if off.maxStrike then DetectNewMaxStrike(ticker, current.posStrike, current.negStrike, prevPos, prevNeg) else [];
    var g3 := if off.priceWall then DetectPriceNearWall(ticker, current.price, current.posStrike, current.negStrike, threshold) else [];
    assert forall a :: a in f1 ==> CategoryOf(a) == FlipCategory;
    assert forall a :: a in f2 ==> CategoryOf(a) == ShiftCategory;
    assert forall a :: a in f3 ==> CategoryOf(a) == WallCategory;
    assert g1 == (if c == FlipCategory then [] else f1);
    assert g2 == (if c == ShiftCategory then [] else f2);
    assert g3 == (if c == WallCategory then [] else f3);
    DropBlock(f1, f2, f3, g1, g2, g3, c);
  }

  /** Alerts laid out as a flip block, a shift block and a wall block:
      dropping category `c` empties exactly its own block. */
  lemma {:induction false} DropBlock(f1: seq<Alert>, f2: seq<Alert>, f3: seq<Alert>,
                                     g1: seq<Alert>, g2: seq<Alert>, g3: seq<Alert>, c: Category)
    requires forall a :: a in f1 ==> CategoryOf(a) == FlipCategory
    requires forall a :: a in f2 ==> CategoryOf(a) == ShiftCategory
    requires forall a :: a in f3 ==> CategoryOf(a) == WallCategory
    requires g1 == (if c == FlipCategory then [] else f1)
    requires g2 == (if c == ShiftCategory then [] else f2)
    requires g3 == (if c == WallCategory then [] else f3)
    ensures g1 + g2 + g3 == Without(f1 + f2 + f3, c)
  {
    WithoutAppend(f1 + f2, f3, c);
    WithoutAppend(f1, f2, c);
    match c
    case FlipCategory =>
      WithoutEverything(f1, c); WithoutNothing(f2, c); WithoutNothing(f3, c);
    case ShiftCategory =>
      WithoutNothing(f1, c); WithoutEverything(f2, c); WithoutNothing(f3, c);
    case WallCategory =>
      WithoutNothing(f1, c); WithoutNothing(f2, c); WithoutEverything(f3, c);
  }

  lemma {:induction false} GeneratedFlagOff(current: seq<Keyed<Entry>>, previous: seq<Keyed<Entry>>,
                                            threshold: real, flags: Flags, c: Category)
    ensures Generated(current, previous, threshold, With(flags, c, false))
         == Without(Generated(current, previous, threshold, With(flags, c, true)), c)
  {
    if |current| > 0 {
      GeneratedFlagOff(current[1..], previous, threshold, flags, c);
      var t := current[0].ticker;
      TickerFlagOff(t, current[0].value, Lookup(previous, t), threshold, flags, c);
      WithoutAppend(TickerAlerts(t, current[0].value, Lookup(previous, t), threshold, With(flags, c, true)),
                    Generated(current[1..], previous, threshold, With(flags, c, true)), c);
    }
  }

  /** Switching a check off removes exactly that category of alert and
      leaves the rest, in the same order. */
  lemma {:induction false} FlagRemovesCategory(current: seq<Keyed<Entry>>, previous: seq<Keyed<Entry>>,
                                               threshold: real, flags: Flags, c: Category)
    ensures RunAllChecks(current, previous, threshold, With(flags, c, false))
         == Without(RunAllChecks(current, previous, threshold, With(flags, c, true)), c)
  {
    GeneratedFlagOff(current, previous, threshold, flags, c);
    WithoutSort(Generated(current, previous, threshold, With(flags, c, true)), c);
  }

  // ---------------------------------------------------------------- quiet data

  /** Neither wall is near the price. */
  predicate Quiet(e: Entry, threshold: real)
  {
    !Near(e.price, e.posStrike, threshold) && !Near(e.price, e.negStrike, threshold)
  }

  lemma {:induction false} GeneratedQuiet(cs: seq<Keyed<Entry>>, previous: seq<Keyed<Entry>>, threshold: real, flags: Flags)
    requires forall i :: 0 <= i < |cs| ==> Lookup(previous, cs[i].ticker) == Some(cs[i].value)
    requires forall i :: 0 <= i < |cs| ==> Quiet(cs[i].value, threshold)
    ensures Generated(cs, previous, threshold, flags) == []
  {
    if |cs| > 0 {
      assert forall i :: 1 <= i < |cs| ==> cs[1..][i - 1] == cs[i];
      GeneratedQuiet(cs[1..], previous, threshold, flags);
    }
  }

  /** Comparing a cycle with itself, walls away from the price, raises no
      alert: no flip, no shift, nothing near a wall. */
  lemma {:induction false} UnchangedDataIsQuiet(current: seq<Keyed<Entry>>, threshold: real, flags: Flags)
    requires DistinctTickers(current)
    requires forall i :: 0 <= i < |current| ==> Quiet(current[i].value, threshold)
    ensures RunAllChecks(current, current, threshold, flags) == []
  {
    forall i | 0 <= i < |current| ensures Lookup(current, current[i].ticker) == Some(current[i].value) {
      LookupDistinct(current, i);
    }
    GeneratedQuiet(current, current, threshold, flags);
  }
}
