/** The fetcher's own logic around the broker call: the trade-side label of
    each contract, the display symbol, the retry/backoff schedule of one
    chain request, and the per-ticker, per-strike aggregation written to the
    analytics file. The broker is a scripted sequence of replies, one per
    request; sleeping is recorded rather than performed. */
module Fetcher {
  import opened Common
  import opened Records

  // ---------------------------------------------------------------- trade side

  /** Where the last trade sat against the quote. Without a two-sided
      positive quote the label stays MID; otherwise the checks apply in
      order: at or above the ask, at or below the bid, above the mid, below
      the mid. A last exactly at the mid stays MID. */
  function ClassifyTradeSide(bid: real, ask: real, last: real): (s: TradeSide)
    ensures !(bid > 0.0 && ask > 0.0) ==> s == Mid
    ensures s == AskBuy <==> bid > 0.0 && ask > 0.0 && last >= ask
    ensures s == BidSell <==> bid > 0.0 && ask > 0.0 && last < ask && last <= bid
    ensures s == NearAsk ==> bid < last < ask && last > (bid + ask) / 2.0
    ensures s == NearBid ==> bid < last < ask && last < (bid + ask) / 2.0
    ensures s == Mid && bid > 0.0 && ask > 0.0 ==> last == (bid + ask) / 2.0
  {
    if ask > 0.0 && bid > 0.0 then
      var mid := (bid + ask) / 2.0;
      if last >= ask then AskBuy
      else if last <= bid then BidSell
      else if last > mid then NearAsk
      else if last < mid then NearBid
      else Mid
    else Mid
  }

  /** The labels ordered from the bid side to the ask side. */
  function SideRank(s: TradeSide): int
  {
    match s
    case BidSell => 0
    case NearBid => 1
    case Mid => 2
    case NearAsk => 3
    case AskBuy => 4
  }

  /** For a fixed, positive, uncrossed quote a higher last never moves the
      label toward the bid. */
  lemma TradeSideMonotone(bid: real, ask: real, last1: real, last2: real)
    requires 0.0 < bid <= ask && last1 <= last2
    ensures SideRank(ClassifyTradeSide(bid, ask, last1)) <= SideRank(ClassifyTradeSide(bid, ask, last2))
  {
  }

  /** Bid 5.0, ask 5.5, last 5.6: a buy at the ask. */
  lemma TradeSideExample()
    ensures ClassifyTradeSide(5.0, 5.5, 5.6) == AskBuy
    ensures ClassifyTradeSide(5.0, 5.5, 5.25) == Mid
    ensures ClassifyTradeSide(0.0, 5.5, 9.0) == Mid
  {
  }

  // ---------------------------------------------------------------- display symbol

  /** `ticker.lstrip('$')`: every leading `$` removed. */
  function StripDollar(t: string): (s: string)
    ensures |s| <= |t| && s == t[|t| - |s|..]
    ensures forall i :: 0 <= i < |t| - |s| ==> t[i] == '$'
    ensures |s| > 0 ==> s[0] != '$'
  {
    if |t| > 0 && t[0] == '$' then StripDollar(t[1..]) else t
  }

  /** Stripping twice is stripping once. */
  lemma StripDollarIdempotent(t: string)
    ensures StripDollar(StripDollar(t)) == StripDollar(t)
  {
  }

  /** Prefixing any number of `$` does not change the display symbol. */
  lemma {:induction false} StripDollarPrefix(n: nat, t: string)
    ensures StripDollar(seq(n, _ => '$') + t) == StripDollar(t)
  {
    if n > 0 {
      var p := seq(n, _ => '$');
      assert (p + t)[1..] == seq(n - 1, _ => '$') + t;
      StripDollarPrefix(n - 1, t);
    } else {
      assert seq(n, _ => '$') + t == t;
    }
  }

  // ---------------------------------------------------------------- retry schedule

  /** What one chain request produced: an exception anywhere in the attempt,
      or an HTTP reply with its status code, its payload `status` and the
      rows built from it. */
  datatype Response<T> = Raised | Reply(statusCode: int, status: string, rows: seq<T>)

  /** A failure that is retried while attempts remain. */
  predicate Retryable<T>(r: Response<T>)
  {
    r.Raised? || r.statusCode != 200
  }

  /** A reply whose rows are returned. */
  predicate Delivered<T>(r: Response<T>)
  {
    r.Reply? && r.statusCode == 200 && r.status == "SUCCESS"
  }

  /** The defaults when the configuration cannot be loaded. */
  const DefaultAttempts: int := 3
  const DefaultBaseDelay: int := 2

  function Pow2(n: nat): (p: nat)
    ensures p >= 1
  {
    if n == 0 then 1 else 2 * Pow2(n - 1)
  }

  /** How one request ended: the number of requests made, the sleeps taken
      between them (seconds, in order) and the rows returned. */
  datatype FetchRun<T> = FetchRun(requests: nat, sleeps: seq<int>, rows: seq<T>)

  /** The attempt loop from attempt number `attempt` on; `replies[k - 1]`
      answers attempt `k`. */
  function AttemptsFrom<T>(replies: seq<Response<T>>, maxAttempts: int, base: int, attempt: int): (run: FetchRun<T>)
    requires 1 <= attempt && maxAttempts <= |replies|
    ensures run.requests <= MaxInt(maxAttempts - attempt + 1, 0)
    ensures attempt <= maxAttempts ==> run.requests >= 1
    ensures |run.sleeps| == MaxInt(run.requests - 1, 0)
    ensures forall i :: 0 <= i < |run.sleeps| ==> run.sleeps[i] == base * Pow2(attempt - 1 + i)
    ensures forall k :: attempt - 1 <= k < attempt - 2 + run.requests ==> Retryable(replies[k])
    ensures 0 < run.requests && attempt - 1 + run.requests < maxAttempts ==>
      !Retryable(replies[attempt - 2 + run.requests])
    ensures run.rows == (if run.requests > 0 && Delivered(replies[attempt - 2 + run.requests])
                         then replies[attempt - 2 + run.requests].rows else [])
    decreases maxAttempts - attempt
  {
    if attempt > maxAttempts then FetchRun(0, [], [])
    else
      var reply := replies[attempt - 1];
      if Retryable(reply) then
        if attempt < maxAttempts then
          var rest := AttemptsFrom(replies, maxAttempts, base, attempt + 1);
          FetchRun(1 + rest.requests, [base * Pow2(attempt - 1)] + rest.sleeps, rest.rows)
        else FetchRun(1, [], [])
      else if reply.status != "SUCCESS" then FetchRun(1, [], [])
      else FetchRun(1, [], reply.rows)
  }

  /** `fetch_option_data` as seen from outside: at most `maxAttempts`
      requests, a sleep of base x 2^(k-1) seconds after a failed attempt `k`
      when another follows and none after the last, and the rows of the
      first reply that is not retried when it reports SUCCESS, else none. */
  function FetchOptionData<T>(replies: seq<Response<T>>, maxAttempts: int, base: int): (run: FetchRun<T>)
    requires maxAttempts <= |replies|
    ensures run.requests <= MaxInt(maxAttempts, 0)
    ensures maxAttempts >= 1 ==> run.requests >= 1
    ensures |run.sleeps| == MaxInt(run.requests - 1, 0)
    ensures forall i :: 0 <= i < |run.sleeps| ==> run.sleeps[i] == base * Pow2(i)
    ensures forall i :: 0 <= i < run.requests - 1 ==> Retryable(replies[i])
    ensures 0 < run.requests < maxAttempts ==> !Retryable(replies[run.requests - 1])
    ensures run.rows == (if run.requests > 0 && Delivered(replies[run.requests - 1])
                         then replies[run.requests - 1].rows else [])
  {
    AttemptsFrom(replies, maxAttempts, base, 1)
  }

  /** A 200 reply whose payload is not SUCCESS ends the request at once,
      without a retry. */
  lemma NotSuccessIsFinal<T>(replies: seq<Response<T>>, maxAttempts: int, base: int)
    requires 1 <= maxAttempts <= |replies|
    requires replies[0].Reply? && replies[0].statusCode == 200 && replies[0].status != "SUCCESS"
    ensures FetchOptionData(replies, maxAttempts, base) == FetchRun(1, [], [])
  {
  }

  /** When every attempt fails, all of them are made and nothing is returned. */
  lemma {:induction false} AllFailuresExhaust<T>(replies: seq<Response<T>>, maxAttempts: int, base: int)
    requires 1 <= maxAttempts <= |replies|
    requires forall i :: 0 <= i < maxAttempts ==> Retryable(replies[i])
    ensures FetchOptionData(replies, maxAttempts, base).requests == maxAttempts
    ensures FetchOptionData(replies, maxAttempts, base).rows == []
  {
  }

  /** With the default configuration and three failures: sleeps of 2 s and 4 s. */
  lemma DefaultScheduleOnFailure<T>(replies: seq<Response<T>>)
    requires |replies| >= 3
    requires forall i :: 0 <= i < 3 ==> Retryable(replies[i])
    ensures FetchOptionData(replies, DefaultAttempts, DefaultBaseDelay).sleeps == [2, 4]
  {
    AllFailuresExhaust(replies, DefaultAttempts, DefaultBaseDelay);
    var run := FetchOptionData(replies, DefaultAttempts, DefaultBaseDelay);
    assert run.sleeps[0] == 2 * Pow2(0);
    assert run.sleeps[1] == 2 * Pow2(1);
  }

  function Sum(xs: seq<int>): int
  {
    if |xs| == 0 then 0 else Sum(xs[..|xs| - 1]) + xs[|xs| - 1]
  }

  /** The first `n` backoff delays. */
  function Backoff(base: int, n: nat): (ds: seq<int>)
    ensures |ds| == n
  {
    if n == 0 then [] else Backoff(base, n - 1) + [base * Pow2(n - 1)]
  }

  /** The `k`-th backoff delay is base x 2^k. */
  lemma {:induction false} BackoffDelays(base: int, n: nat)
    ensures forall i :: 0 <= i < n ==> Backoff(base, n)[i] == base * Pow2(i)
  {
    if n > 0 {
      BackoffDelays(base, n - 1);
    }
  }

  /** One doubling step of the geometric total. */
  lemma WaitStep(base: int, n: nat)
    requires n > 0
    requires Sum(Backoff(base, n - 1)) == base * (Pow2(n - 1) - 1)
    ensures Sum(Backoff(base, n)) == base * (Pow2(n) - 1)
  {
    BackoffSnoc(base, n);
    var p := Pow2(n - 1);
    assert base * (p - 1) + base * p == base * (2 * p - 1);
  }

  /** The total waiting time of `n` backoff delays is base x (2^n - 1). */
  lemma {:induction false} TotalWait(base: int, n: nat)
    ensures Sum(Backoff(base, n)) == base * (Pow2(n) - 1)
  {
    if n > 0 {
      TotalWait(base, n - 1);
      WaitStep(base, n);
    } else {
      assert Pow2(n) - 1 == 0;
      assert base * (Pow2(n) - 1) == base * 0 == 0;
    }
  }

  /** The `n`-th delay adds base x 2^(n-1) to the total. */
  lemma BackoffSnoc(base: int, n: nat)
    requires n > 0
    ensures Sum(Backoff(base, n)) == Sum(Backoff(base, n - 1)) + base * Pow2(n - 1)
  {
    SumSnoc(Backoff(base, n - 1), base * Pow2(n - 1));
  }

  /** Appending a delay adds it to the total. */
  lemma SumSnoc(xs: seq<int>, x: int)
    ensures Sum(xs + [x]) == Sum(xs) + x
  {
    assert (xs + [x])[..|xs|] == xs;
  }

  /** A run sleeps base x (2^(r-1) - 1) seconds in total over its `r` requests. */
  lemma RunWait<T>(replies: seq<Response<T>>, maxAttempts: int, base: int)
    requires maxAttempts <= |replies|
    ensures var run := FetchOptionData(replies, maxAttempts, base);
      run.sleeps == Backoff(base, |run.sleeps|) && Sum(run.sleeps) == base * (Pow2(|run.sleeps|) - 1)
  {
    var run := FetchOptionData(replies, maxAttempts, base);
    BackoffDelays(base, |run.sleeps|);
    assert run.sleeps == Backoff(base, |run.sleeps|);
    TotalWait(base, |run.sleeps|);
  }
}
