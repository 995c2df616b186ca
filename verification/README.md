# Options-chain scoring core, modelled in Dafny

This project models the decision logic of an options-chain analytics system.
The system pulls option chains from a broker and aggregates greeks per
ticker and strike. It then finds each ticker's gamma "walls": the
(strike, expiration) cells with the most positive and the most negative
dealer gamma exposure. From these it raises alerts when the walls move or
net exposure changes sign. It scores every ticker 0-100 from nine
weighted signals and maps the market regime, wall position and skew to an
options strategy. Finally it back-tests past recommendations against later
prices.

The Dafny modules follow the program's files:

| module | file | what it holds |
|---|---|---|
| `Common` | common.dfy | Option, clamps, Python `int()` truncation, `round(x, n)` with half-even ties, Python string order |
| `Records` | records.dfy | contracts, analytics, gamma levels, momentum, historical context; dicts as keyed sequences |
| `Strategies` | strategies.dfy | the 18-entry strategy table and its lookup |
| `Signals` | signals.dfy | signal weights, DTE multiplier, the nine sub-scorers |
| `Scorer` | scorer.dfy | scoring one ticker, scoring and ranking all tickers |
| `Gamma` | gamma.dfy | star-level (wall) extraction per ticker |
| `Detector` | detector.dfy | the three alert detectors and the sorted alert run |
| `Queries` | queries.dfy | the arithmetic applied to database rows: flip events, percentile, momentum, IV rank, return |
| `Backtester` | backtester.dfy | tiering, hit counting and hit rates of past recommendations |
| `Fetcher` | fetcher.dfy | trade-side label, display symbol, retry/backoff schedule |
| `Aggregation` | aggregation.dfy | per-ticker, per-strike greek aggregation written for the analytics view |

Modelling conventions:

- Python dicts become sequences of `Keyed` entries in insertion order, and
  lookup returns the first match.
- Floats become exact reals.
- `round(x, n)` and `int(x)` are written out: half-to-even ties and
  truncation toward zero.
- Things the code reads from outside become parameters:
  - `today` becomes each contract's day count (`Contract.days`, `None`
    when the expiration is missing or unparseable);
  - `1/sqrt(dte)` becomes a `decay` function parameter;
  - database rows and broker replies become input sequences;
  - an exception caught by the code becomes an `Option` or an error
    constructor.

Behaviour of the code worth noting:

- The P/C-skew and volume/OI decay weight for a contract with a missing or
  unparseable expiration is 1.0.
- The wall extractor drops only contracts whose spot equals 0, so a
  negative spot is kept. Cells follow the first use of their (strike,
  expiration) key, and among equal cell values the earliest cell wins.
- `previous_pc_ratio` is never filled in by the historical-context fetch.
  The skew-momentum signal therefore always takes its "no history" branch
  in a scoring cycle. The model keeps the parameter and proves both
  branches.

## Model

| member | source | states |
|---|---|---|
| Strategies.GetStrategy | agent/strategies.py:108-130 | a key in the table returns its entry and any other key returns the fallback; every result is defined-risk, and its direction is the one its play type implies |
| Strategies.EveryCombinationIsKey | agent/strategies.py:25-105 | each regime × wall position × skew combination is a key of the table |
| Strategies.EveryKeyIsCombination | agent/strategies.py:25-105 | the table has no other keys |
| Strategies.LabelsInjective | agent/strategies.py:25-105 | distinct combinations give distinct string keys |
| Strategies.LookupMatchesTable | agent/strategies.py:108-130 | looking up a combination's labels never hits the fallback and returns the play the table assigns |
| Strategies.PositiveMidRangeIsIronCondor | agent/strategies.py:53-64 | positive regime with price mid-range is a neutral iron condor whatever the skew |
| Strategies.NegativeRegimeIgnoresWall | agent/strategies.py:67-105 | in a negative regime the wall position does not change the play: bullish gives bull call spread, bearish gives bear put spread, neutral gives long straddle |
| Signals.WeightTable | agent/scorer.py:30-41 | nine distinct signals, each with a positive weight, weights adding up to 100 |
| Signals.Points | agent/scorer.py:135-159 | `int(raw × weight)` lies in 0..weight for raw in 0..1 and equals the weight at raw 1 |
| Signals.PointsMonotone | agent/scorer.py:135-159 | a larger raw value never gives fewer points |
| Signals.ContractDte | agent/scorer.py:101-109 | a contract's DTE is at least 1, and 30 when the expiration is unknown |
| Signals.QualifyingOi | agent/scorer.py:87-115 | the DTE-weighting OI is positive exactly when some contract lies within 5% of spot with positive OI |
| Signals.DteCurve | agent/scorer.py:119-129 | multiplier 1.5 at or below 1 day, 1.2-1.5 up to 7 days, 0.9999-1.2 up to 30 days, below 1 beyond, never outside 0.5-1.5 |
| Signals.DteCurveMonotoneWithinPieces | agent/scorer.py:119-129 | within each piece of the curve a longer DTE never raises the multiplier |
| Signals.DteCurveRisesAtThirtyDays | agent/scorer.py:123-127 | the unrounded curve is 0.9999 at 30 days and higher just after 30 days |
| Signals.DteMultiplier | agent/scorer.py:119-129 | the multiplier lies in 0.5-1.5, within 0.0005 of the unrounded curve, and is exactly 1.5 at or below 1 day |
| Signals.DteMultiplierMonotone | agent/scorer.py:75-129 | after rounding to 3 places the multiplier never rises as the average DTE grows |
| Signals.DteWeight | agent/scorer.py:75-129 | the DTE multiplier lies in 0.5-1.5 and is 1.0 with no contracts, no price or no qualifying OI |
| Signals.ScoreGexRegime | agent/scorer.py:135-159 | no data (score 0) exactly when net GEX is missing or zero; otherwise at least the 0.2 floor and at most the weight |
| Signals.GexRegimeSymmetric | agent/scorer.py:146-156 | percentiles p and 1 - p score the same |
| Signals.GexRegimeMonotone | agent/scorer.py:146-156 | a percentile further from the median never scores less |
| Signals.NearestWallPct | agent/scorer.py:175-188 | the nearest distance is at most each usable wall's distance, and is one of them or the 100% default |
| Signals.ScoreWallProximity | agent/scorer.py:162-205 | no price gives 0; within 0.5% of a usable wall gives full points; no usable wall gives the 0.15 floor |
| Signals.ProximityMonotone | agent/scorer.py:190-201 | with positive prices, a smaller nearest-wall distance never gives a lower wall-proximity score |
| Signals.WeightedOiZero | agent/scorer.py:225-246 | with no OI near the money the distance-and-DTE-weighted OI is zero |
| Signals.BalancedIsLowestBucket | agent/scorer.py:253-262 | the balanced label and the 0.25 bucket both hold exactly for ratios 0.83-1.2 |
| Signals.ScorePcSkew | agent/scorer.py:208-268 | no data with no contracts, no price or no ATM OI; otherwise the label is the P/C ratio's side; a balanced label scores exactly the 0.25 bucket and any other label at least the 0.5 bucket; zero call OI against put OI gives full points, PUT-heavy |
| Signals.ScoreVolumeOiSurge | agent/scorer.py:271-331 | no data with no contracts or price; otherwise at least the 0.1 floor, and exactly the floor when the weighted OI is not positive |
| Signals.SurgeMonotone | agent/scorer.py:310-325 | with contracts and a positive price, a higher weighted volume/OI ratio never gives a lower surge score |
| Signals.ScoreIvRank | agent/scorer.py:334-361 | no rank means no data and 0; a rank in 0..1 scores between the 0.1 floor and the weight |
| Signals.IvRankSymmetric | agent/scorer.py:346-350 | IV ranks r and 1 - r score the same |
| Signals.IvRankMonotone | agent/scorer.py:346-350 | a rank further from 0.5 never scores less |
| Signals.IvRankUncappedOutsideUnitRange | agent/scorer.py:346-350 | the raw value is not capped: a rank of 2.0 with weight 10 scores 28 |
| Signals.ScoreDirectionalBias | agent/scorer.py:364-401 | no data exactly when analytics or price are missing; otherwise the label is the side of the net delta near the money and the score is at least the 0.1 floor |
| Signals.BiasMonotone | agent/scorer.py:382-396 | a larger absolute net delta near the money never scores less |
| Signals.ScoreGexMomentum | agent/scorer.py:404-434 | no data (0) exactly when fewer than two samples; otherwise at least the 0.15 floor |
| Signals.GexMomentumMonotone | agent/scorer.py:416-428 | a stronger trend in either direction never scores less |
| Signals.ScoreSkewMomentum | agent/scorer.py:437-494 | no data exactly when there is no ATM OI; no usable previous ratio gives the 0.2 default; a measured change scores at least the 0.15 floor |
| Signals.SkewMomentumMonotone | agent/scorer.py:474-490 | a larger relative change of the put/call ratio never scores less |
| Signals.ScoreDteConviction | agent/scorer.py:497-522 | between the 0.1 floor and the weight, full points from a 1.4 multiplier up |
| Signals.DteConvictionMonotone | agent/scorer.py:502-518 | a larger multiplier never scores less |
| Scorer.RegimeOf | agent/scorer.py:581 | the regime is negative exactly when net GEX is below zero; zero counts as positive |
| Scorer.WallPositionOf | agent/scorer.py:583-588 | near the call wall exactly when a non-zero call wall is within 3% of a positive price; near the put wall exactly when that fails and the put wall qualifies; mid-range otherwise, and always without a price or without walls; a call wall at the price is near |
| Scorer.SkewOf | agent/scorer.py:590-597 | bearish exactly when the P/C detail is PUT-heavy or the delta detail is bearish; bullish exactly when neither holds and the P/C detail is CALL-heavy or the delta detail bullish; neutral exactly when none of the four holds |
| Scorer.BearishEvidenceWins | agent/scorer.py:590-597 | PUT-heavy skew or bearish delta makes the skew bearish, even against CALL-heavy skew |
| Scorer.NineSignals | agent/scorer.py:562-576 | nine signals in the fixed order, each with its table weight as maximum and a non-negative score, each in range when the IV rank is in 0..1 |
| Scorer.SignalOrderCoversWeights | agent/scorer.py:30-41 | the scoring order names every signal once and its weights add up to 100 |
| Scorer.MaxScoresSumToHundred | agent/scorer.py:562-578 | the nine maxima always add up to 100 |
| Scorer.RiskNotes | agent/scorer.py:606-618 | each warning appears exactly when its condition holds; "standard" appears exactly when no other does |
| Scorer.ScoreTicker | agent/scorer.py:528-632 | the signals are the nine sub-scores of the ticker's data in the fixed order; the score is their sum clamped to 0..100, so a sum above 100 gives 100; price, net GEX and IV rank are carried through, with IV rank 0.5 when there is no history; the play follows regime, wall position and skew; "no nearby wall" appears exactly when the price is mid-range; every risk note matches its condition, and "standard" appears exactly when no other note does, and then alone |
| Scorer.Assemble | agent/scorer.py:576-632 | the total is the signal sum clamped to 0..100, so a sum above 100 gives 100; the play follows the strategy table; each risk note appears exactly when its condition holds, and "standard" exactly when none of the others does, and then alone |
| Scorer.ClampNeverBites | agent/scorer.py:576-578 | for any ticker, with an IV rank in 0..1 the total is exactly the sum of the nine scores |
| Scorer.ScoreIsClampedSum | agent/scorer.py:576-578 | the total is the signal sum whenever that sum is at most 100 |
| Scorer.EmptyTickerScore | agent/scorer.py:545-632 | a ticker with no data scores 4, an iron condor, neutral, noting no wall and low signal strength |
| Scorer.SortedTickers | agent/scorer.py:687-691 | the sorted ticker set is strictly ascending and has the same members |
| Scorer.ContractTickers | agent/scorer.py:681-685 | the tickers taken from contracts are exactly the non-empty contract symbols |
| Scorer.ContractsOf | agent/scorer.py:681-696 | the empty ticker has no contracts, since the grouping skips empty symbols; any other ticker gets only contracts with its symbol |
| Scorer.ContractsOfCount | agent/scorer.py:681-696 | a non-empty ticker keeps every contract with its symbol, as often as it occurs in the input, and nothing else |
| Scorer.ContractsOfAppend | agent/scorer.py:681-696 | grouping distributes over concatenation, so a ticker's contracts keep their input order |
| Scorer.AllTickers | agent/scorer.py:681-691 | ascending, and exactly the union of contract, analytics and gamma tickers |
| Scorer.ScoreEach | agent/scorer.py:693-706 | each kept recommendation is the score of its own ticker, which is listed and did not fail |
| Scorer.ScoreEachCovers | agent/scorer.py:693-706 | every listed ticker that does not fail is scored |
| Scorer.ScoreEachSorted | agent/scorer.py:693-706 | results stay in ticker order |
| Scorer.InsertByScore | agent/scorer.py:708 | insertion keeps every element, adding one |
| Scorer.SortByScore | agent/scorer.py:708 | the sort is a permutation of its input |
| Scorer.SortByScoreRanked | agent/scorer.py:708 | a stable descending sort of a ticker-ordered list is ranked: score descending, ties by ticker ascending |
| Scorer.RankTickers | agent/scorer.py:693-708 | ranking permutes the scored list |
| Scorer.RankTickersCorrect | agent/scorer.py:693-708 | the ranked list is ranked, holds each ticker's own score, and holds exactly the tickers that did not fail |
| Scorer.ScoreOne | agent/scorer.py:695-703 | the recommendation is for the ticker being scored |
| Scorer.ScoreOneData | agent/scorer.py:695-703 | a ticker is scored from its own grouped contracts (none for the empty ticker), its own analytics, gamma levels and historical context; price, net GEX and IV rank come from those lookups |
| Scorer.ScoreAllTickers | agent/scorer.py:671-714 | ranked; each entry is its ticker's own score (which Scorer.ScoreOneData ties to that ticker's data, with no contracts for the empty ticker); exactly the known tickers that did not fail appear |
| Scorer.RankedIsDescending | agent/scorer.py:708 | in a ranked list an earlier entry never scores lower, and equal scores are in ticker order |
| Scorer.EmptyCycle | agent/scorer.py:681-714 | with no data at all there are no recommendations |
| Gamma.CallPutCancel | extract_gamma_levels.py:80-89 | a call and a put with the same figures contribute opposite exposure |
| Gamma.ExposureExample | extract_gamma_levels.py:80-81 | gamma 0.02, OI 10000, spot 500 give 50,000,000 |
| Gamma.AddToCell | extract_gamma_levels.py:91-94 | adding to a (strike, expiration) cell changes only that cell, appending it at 0 + v when new; keys stay distinct |
| Gamma.AddContract | extract_gamma_levels.py:70-94 | a contract at strike 0 or of another type changes nothing; otherwise its (strike, expiration) cell exists afterwards; existing cells keep their keys and only the matching cell gains the contract's signed exposure; at most one cell is added, only for a contributing contract whose key had no cell, and it is appended last with that key; keys stay distinct |
| Gamma.BuildCells | extract_gamma_levels.py:67-94 | one cell per used (strike, expiration) key, holding the signed exposure sum of its contracts (order: Gamma.BuildCellsInFirstUseOrder) |
| Gamma.FirstUse | extract_gamma_levels.py:91-94 | the position of the first contributing contract with a key: present exactly when the key is used, and no earlier contributing contract has that key |
| Gamma.BuildCellsInFirstUseOrder | extract_gamma_levels.py:70-94 | the cells stand in the order their keys are first used, as the dict's insertion order |
| Gamma.NoCellAtStrikeZero | extract_gamma_levels.py:77-78 | contracts at strike 0 never form a cell |
| Gamma.CellSumOrderIndependent | extract_gamma_levels.py:70-94 | a cell's value does not depend on the order of the contracts |
| Gamma.Scan | extract_gamma_levels.py:102-108 | the scan returns the first cell with the extreme value on its side |
| Gamma.WallLevel | extract_gamma_levels.py:96-116 | the wall strike and value are those of the first extreme cell, or none and 0 |
| Gamma.TickerLevels | extract_gamma_levels.py:64-116 | a ticker's levels are its spot and the call and put walls of its cells |
| Gamma.PutWallIsMostNegative | extract_gamma_levels.py:99-115 | no put wall exactly when no cell is negative; otherwise its value is negative and no cell is lower |
| Gamma.CallWallIsMostPositive | extract_gamma_levels.py:97-113 | no call wall exactly when no cell is positive; otherwise its value is positive and no cell is higher |
| Gamma.KeptOf | extract_gamma_levels.py:48-60 | a ticker's group holds only its kept contracts, and is non-empty exactly when one exists (completeness and order: Gamma.KeptOfCount, Gamma.KeptOfAppend) |
| Gamma.KeptOfCount | extract_gamma_levels.py:48-60 | a ticker's group holds every kept contract of that ticker as often as it occurs in the input, and nothing else |
| Gamma.KeptOfAppend | extract_gamma_levels.py:57-60 | grouping keeps input order: the group of a concatenation is the first part's group followed by the second's |
| Gamma.KeptTickers | extract_gamma_levels.py:45-60 | the grouped tickers are distinct and are exactly those with a kept contract |
| Gamma.ComputeStarLevels | extract_gamma_levels.py:33-118 | one entry per ticker with a kept contract, holding the levels of that ticker's group, which is complete and in input order by Gamma.KeptOfCount and Gamma.KeptOfAppend |
| Gamma.FirstKept | extract_gamma_levels.py:48-60 | the position of a ticker's first kept contract: present exactly when the ticker has one, and no earlier kept contract has that ticker |
| Gamma.KeptTickersInFirstKeptOrder | extract_gamma_levels.py:48-60 | the grouped tickers stand in the order of their first kept contracts |
| Gamma.StarLevelsInFirstKeptOrder | extract_gamma_levels.py:64-116 | the level entries stand in the order of their tickers' first kept contracts |
| Gamma.PriceFromFirstKeptContract | extract_gamma_levels.py:53-59 | a ticker's price is the spot of its first kept contract |
| Detector.DetectGexFlip | alerts/detector.py:25-51 | an alert exactly when both values exist and strictly change sign; critical exactly for positive to negative, warning otherwise |
| Detector.ZeroNeverFlips | alerts/detector.py:33-42 | a zero on either side never raises a flip |
| Detector.DetectNewMaxStrike | alerts/detector.py:54-86 | one info alert per wall whose strike is known on both sides and changed, call wall first |
| Detector.DetectPriceNearWall | alerts/detector.py:89-126 | nothing without a price; one warning per positive wall within the threshold, naming that wall |
| Detector.OfSeverityAppend | alerts/detector.py:182-184 | filtering by severity distributes over concatenation |
| Detector.SeverityMultiset | alerts/detector.py:182-184 | the three severity bands together hold exactly the alerts |
| Detector.SortBySeverity | alerts/detector.py:182-184 | a permutation, critical before warning before info, keeping the order within each severity |
| Detector.TickerAlerts | alerts/detector.py:150-180 | a ticker's alerts name it and come only from enabled checks; with no previous entry only wall alerts; at most five; each enabled check's alerts are all raised: the GEX flip against the previous net GEX, both wall shifts, and every near-wall alert |
| Detector.Generated | alerts/detector.py:150-180 | every alert is from an enabled check and names a ticker of the current data; at most five per ticker |
| Detector.GeneratedCovers | alerts/detector.py:150-180 | every alert of every current ticker is generated |
| Detector.RunAllChecks | alerts/detector.py:129-189 | the generated alerts, stably sorted by severity, only from enabled checks |
| Detector.NoPreviousOnlyWallAlerts | alerts/detector.py:150-180 | a ticker with no previous entry only gets near-wall alerts |
| Detector.FlagRemovesCategory | alerts/detector.py:166-180 | turning a check off removes exactly its alerts and leaves the rest in place |
| Detector.WithoutMembers | alerts/detector.py:166-180 | the alerts kept when a category is dropped are exactly those outside it |
| Detector.WithoutSort | alerts/detector.py:182-184 | removing a category commutes with the severity sort |
| Detector.UnchangedDataIsQuiet | alerts/detector.py:129-189 | comparing unchanged data with itself, with price away from walls, raises nothing |
| Queries.GexFlipEvents | db/queries.py:85-108 | fewer than two rows give no events; each event is a genuine sign change at its row; every sign change is reported, in order |
| Queries.ZerosNeverFlip | db/queries.py:95-99 | a zero reading never takes part in a flip |
| Queries.HistoricalPercentile | db/queries.py:185-206 | 0.5 for an unknown field or fewer than 3 values; otherwise the fraction strictly below the current value, rounded to 3 places |
| Queries.PercentileMonotone | db/queries.py:200-206 | a larger current value never gets a lower percentile |
| Queries.PercentileExtremes | db/queries.py:200-206 | above all values gives 1.0, at or below all gives 0.0 |
| Queries.SignalMomentum | db/queries.py:231-250 | fewer than two rows give no trend; otherwise the trend is the clamped relative change (or the end's sign from a zero start), and its sign is the direction of the move |
| Queries.ChangeSign | db/queries.py:239-243 | the relative change is positive exactly when the value rose, negative exactly when it fell |
| Queries.SeqMin | db/queries.py:289 | the minimum is an element and no element is below it |
| Queries.SeqMax | db/queries.py:290 | the maximum is an element and no element is above it |
| Queries.RankOfLatest | db/queries.py:288-296 | in 0..1; 0.5 when all values are equal, else the latest value's position between min and max |
| Queries.IvPercentile | db/queries.py:281-296 | in 0..1; 0.5 with fewer than 3 rows or when no row has a non-zero IV; otherwise the rank of the latest non-zero IV among the non-zero IVs |
| Queries.Truthy | db/queries.py:284 | no more values are kept than there are rows, and each kept value is a non-zero reading present in the rows |
| Queries.TruthyKeepsUsable | db/queries.py:284-286 | every present non-zero reading is kept, and some value is kept exactly when some row has one |
| Queries.TruthyLastIs | db/queries.py:284-288 | the last kept value is the reading of the last row with a non-zero IV |
| Queries.TruthyExtremes | db/queries.py:284-290 | the minimum and maximum of the kept values are the lowest and highest non-zero readings |
| Queries.IvPercentileRank | db/queries.py:281-296 | with at least three rows, the IV rank is within 0.0005 of (last non-zero IV - lowest) / (highest - lowest), and 0.5 when lowest equals highest |
| Queries.RankOfLatestAt | db/queries.py:288-296 | the rank is within 0.0005 of the latest value's position between the extremes |
| Queries.Position | db/queries.py:288-296 | the latest value's position between the window's minimum and maximum lies in 0..1, so the clamp never changes it |
| Queries.ReturnPct | db/queries.py:327-336 | 0 without both prices; otherwise the percentage move rounded to 3 places, never below -100, its sign that of the move |
| Backtester.TierOf | agent/backtester.py:67-75 | scores 80+, 60-79, 40-59 and below 40 fall in tiers 0..3 |
| Backtester.TierOfMonotone | agent/backtester.py:67-75 | a higher score never falls in a lower tier |
| Backtester.StepTallies | agent/backtester.py:62-94 | one loop step keeps every counter equal to its count over the outcomes seen so far |
| Backtester.TallyAll | agent/backtester.py:62-94 | after the single pass every counter equals its count, hit count or return sum over all the outcomes |
| Backtester.Evaluate | agent/backtester.py:31-119 | error without data access, "no data" for no outcomes; otherwise per-tier and per-direction counts, hits and rates over all outcomes, with at most 50 outcomes echoed |
| Backtester.TiersPartition | agent/backtester.py:67-78 | each outcome is counted in exactly one tier |
| Backtester.DirectionsPartition | agent/backtester.py:80-92 | each outcome is bullish, bearish or other, exactly once |
| Backtester.HitsWithinTotals | agent/backtester.py:80-94 | hits never exceed the counts they are drawn from |
| Backtester.RateInRange | agent/backtester.py:100-113 | a hit rate lies in 0..100 |
| Backtester.MediantBetween | agent/backtester.py:111-113 | the pooled rate lies between the two rates it pools |
| Backtester.OverallBetween | agent/backtester.py:104-113 | the overall hit rate lies between the bullish and bearish rates |
| Backtester.EmptyTierHasNoHitRate | agent/backtester.py:96-101 | an empty tier has no hit rate and a zero average return |
| Backtester.NeutralHitsOnlyCountInTiers | agent/backtester.py:91-94 | a neutral call that held still counts as a tier hit but not in the directional accuracy |
| Backtester.HitMeansPriceMoved | agent/backtester.py:80-90 | a bullish hit means the price rose since scoring, a bearish hit that it fell; without both prices no directional call is a hit |
| Fetcher.ClassifyTradeSide | fetch_options_data.py:107-121 | MID without a two-sided positive quote; ASK exactly when last is at or above the ask; BID exactly when below the ask and at or below the bid; near-ask or near-bid strictly inside the spread on their side of the mid |
| Fetcher.TradeSideMonotone | fetch_options_data.py:111-121 | for a fixed quote a higher last never moves the label toward the bid |
| Fetcher.StripDollar | fetch_options_data.py:69 | the result is a suffix of the input, only `$` was removed, and it does not start with `$` |
| Fetcher.StripDollarIdempotent | fetch_options_data.py:69 | stripping twice is stripping once |
| Fetcher.StripDollarPrefix | fetch_options_data.py:69 | any number of leading `$` gives the same display symbol |
| Fetcher.FetchOptionData | fetch_options_data.py:66-162 | at most the configured attempts; one sleep of base × 2^(k-1) after each failed attempt k that is followed by another; only failures are retried; rows only from a SUCCESS reply |
| Fetcher.NotSuccessIsFinal | fetch_options_data.py:91-94 | a 200 reply without SUCCESS ends the request at once with no rows |
| Fetcher.AllFailuresExhaust | fetch_options_data.py:71-94 | when every attempt fails, all are made and nothing is returned |
| Fetcher.DefaultScheduleOnFailure | fetch_options_data.py:41-48 | with the default configuration three failures sleep 2 s and then 4 s |
| Fetcher.RunWait | fetch_options_data.py:84-87 | the total time slept is base × (2^n - 1) for n sleeps |
| Aggregation.AddToTicker | fetch_options_data.py:173-204 | after a contract its ticker has an entry; a new ticker is appended, priced by this contract; other tickers' entries and every existing price are unchanged; tickers and strikes stay distinct |
| Aggregation.AddToTickerAppends | fetch_options_data.py:177-182 | an entry is added only for a ticker that had none, and it is appended last under that ticker |
| Aggregation.BuildStrikes | fetch_options_data.py:185-204 | one entry per strike the contracts trade, each holding the OI-weighted greek, OI and volume sums of that strike's contracts |
| Aggregation.FirstStrikeUse | fetch_options_data.py:184-192 | the position of the first contract at a strike: present exactly when the strike is traded, and no earlier contract has it |
| Aggregation.BuildStrikesInFirstUseOrder | fetch_options_data.py:184-204 | the strike loop leaves strikes in the order they are first traded, as the inner dict's insertion order; Aggregation.SaveAnalyticsStrikes carries this to the saved analytics |
| Aggregation.AddStrike | fetch_options_data.py:185-204 | adding a contract changes only its strike's totals, creating the strike when new |
| Aggregation.SaveAnalytics | fetch_options_data.py:165-204 | each ticker entry holds the greek-times-OI, OI and volume sums of each of its strikes (strike order: Aggregation.SavedStrikesInFirstUseOrder) |
| Aggregation.SaveAnalyticsStrikes | fetch_options_data.py:173-204 | each saved ticker's strikes are exactly the strike loop run over that ticker's own contracts in input order |
| Aggregation.SavedStrikesInFirstUseOrder | fetch_options_data.py:184-192 | each saved ticker's strikes stand in the order that ticker's contracts first trade them |
| Aggregation.FirstSeen | fetch_options_data.py:173-182 | the position of a ticker's first contract: present exactly when some contract carries it, and no earlier contract does |
| Aggregation.SaveAnalyticsInFirstSeenOrder | fetch_options_data.py:173-182 | the ticker entries stand in the order their tickers first occur, as the outer dict's insertion order |
| Aggregation.AnalyticsOfTicker | fetch_options_data.py:171-204 | a ticker appears once, priced by its first contract, with every strike it trades summed over its contracts |
| Aggregation.AnalyticsWithoutTicker | fetch_options_data.py:173-183 | a ticker with no contracts has no entry |

## Left out

- Broker access, authentication, token refresh and the DNS patch: network I/O. Broker replies are a scripted input sequence.
- Copying quote fields into rows, CSV and JavaScript file output, and the analytics timestamp and metadata: formatting and I/O only.
- SQL text, table layouts and the storage layer: the model starts from the rows a query returns. The gamma history, latest levels, recent alerts, OI change and snapshot-time queries are pure SQL.
- The API server, notifier, configuration loader, logger, continuous and market-hours runners, ticker list and manual test scripts: outside the scoring core.
- The clock: day counts are taken as inputs, and flip-event timestamps become row indices.
- `1/sqrt(dte)`: a `decay` parameter, since Dafny has no real square root.
- Free text: alert messages, signal detail strings and strategy reasoning become enumerated labels. The strategy table's descriptions are dropped, so a recommendation carries only its play, direction and risk profile.
- IEEE floating point, NaN and infinities: values are exact reals. The only model of rounding is `round()`'s half-even rule.
- `None` values where the code would raise a `TypeError`, for example in comparisons: those fields are modelled as numbers.
- The unused `dte_multiplier` parameters of the P/C-skew and volume/OI scorers: they are never read.
- Saving recommendations, outcomes and alerts to the database: persistence.
- Fetcher.FetchOptionData: the broker script must hold a reply for every permitted attempt. Replies past the last attempt are never read.
- Queries.HistoricalPercentile: states the result to within half of the third decimal, 0.0005, rather than the exact rounded value. The rounding itself is modelled by Common.Round3.
- Queries.SignalMomentum: the trend is stated to within 0.0005 of the clamped change, for the same reason.
- Queries.RankOfLatest: the rank is stated to within 0.0005 of the position, for the same reason.
- Queries.IvPercentileRank: the IV rank is stated to within 0.0005 of the exact ratio, for the same reason.
- Queries.RankOfLatestAt: the rank is stated to within 0.0005 of the exact ratio, for the same reason.
- Signals.DteMultiplier: the multiplier is stated to within 0.0005 of the unrounded curve, except at or below 1 day, where it is exactly 1.5.
- Queries.ReturnPct: the percentage is stated to within 0.0005 of the exact move, for the same reason.
- Signals.ScoreIvRank: the range bound is stated only for ranks in 0..1. The code does not cap the raw value, as Signals.IvRankUncappedOutsideUnitRange shows.
