/**
 * The profit engine of `TwStockCrawler` (twstockcrawler.py): each operation is
 * one pass over the price list updating a few local variables (or, for the
 * bounded model, a table), proved equal to its reference definition in
 * TradingSpec and, through the lemmas there, to what the model promises.
 */
module TwStockCrawler {
  import opened Wrappers
  import opened TradingSpec

  /**
   * `maxProfit`: at most one round trip. `hold` is None until the first day,
   * standing for the `-float('inf')` the source starts from.
   */
  method MaxProfit(prices: seq<int>) returns (profit: int)
    ensures profit == BestSingleTrip(prices)
    ensures profit >= 0
    ensures forall i, j :: 0 <= i < j < |prices| ==> prices[j] - prices[i] <= profit
    ensures profit == 0 || exists i, j :: 0 <= i < j < |prices| && prices[j] - prices[i] == profit
  {
    var hold: Option<int> := None;
    var notHold := 0;
    for i := 0 to |prices|
      invariant notHold == BestSingleTrip(prices[..i])
      invariant hold.Some? <==> i > 0
      invariant i > 0 ==> hold.value == -MinOf(prices[..i])
    {
      var price := prices[i];
      assert prices[..i + 1][..i] == prices[..i];
      notHold := if hold.Some? then Max(notHold, hold.value + price) else notHold;
      hold := Some(if hold.Some? then Max(hold.value, -price) else -price);
    }
    assert prices[..|prices|] == prices;
    profit := notHold;
    BestSingleTripIsMaxSpread(prices);
  }

  /** `maxProfitII`: unlimited round trips, the running total of every rise. */
  method MaxProfitII(prices: seq<int>) returns (total: int)
    ensures total == SumOfRises(prices)
    ensures total >= 0 && (|prices| < 2 ==> total == 0)
    ensures BestSingleTrip(prices) <= total
    ensures forall trips :: IsSchedule(prices, trips, |prices|) ==> Earnings(prices, trips, 0) <= total
    ensures exists trips :: IsSchedule(prices, trips, |prices|) && Earnings(prices, trips, 0) == total
  {
    total := 0;
    var i := 1;
    while i < |prices|
      invariant 1 <= i
      invariant |prices| > 0 ==> i <= |prices| && total == SumOfRises(prices[..i])
      invariant |prices| == 0 ==> total == 0
    {
      var profit := prices[i] - prices[i - 1];
      assert prices[..i + 1][..i] == prices[..i];
      if profit > 0 {
        total := total + profit;
      }
      i := i + 1;
    }
    assert |prices| > 0 ==> prices[..i] == prices;
    SingleTripBelowSumOfRises(prices);
    SumOfRisesIsBestSchedule(prices);
  }

  /**
   * The table of `maxProfitIV` (lines 142-148): `k + 1` rows of `n` zeros, rows
   * 1 to `k` then filled in turn.
   */
  method FillTable(k: nat, prices: seq<int>) returns (dp: array2<int>)
    requires |prices| > 0
    ensures fresh(dp)
    ensures dp.Length0 == k + 1 && dp.Length1 == |prices|
    ensures forall t, d :: 0 <= t <= k && 0 <= d < |prices| ==> dp[t, d] == BoundedDp(prices, t, d)
    ensures forall d :: 0 <= d < |prices| ==> dp[0, d] == 0
    ensures forall t :: 0 <= t <= k ==> dp[t, 0] == 0
  {
    var n := |prices|;
    dp := new int[k + 1, n]((_, _) => 0);
    for t := 1 to k + 1
      invariant forall t', d :: 0 <= t' < t && 0 <= d < n ==> dp[t', d] == BoundedDp(prices, t', d)
      invariant forall t', d :: t <= t' <= k && 0 <= d < n ==> dp[t', d] == 0
    {
      FillRow(dp, t, prices);
    }
  }

  /** Row `t` of `dp` holds the reference values of the bounded model. */
  ghost predicate RowHolds(dp: array2<int>, t: nat, prices: seq<int>)
    reads dp
  {
    t < dp.Length0 && dp.Length1 == |prices| &&
    forall d :: 0 <= d < |prices| ==> dp[t, d] == BoundedDp(prices, t, d)
  }

  /**
   * One pass of the outer loop of `maxProfitIV` (lines 145-148): row `t` filled
   * left to right from row `t - 1`, with the running buy balance of the row.
   */
  method FillRow(dp: array2<int>, t: nat, prices: seq<int>)
    requires 1 <= t < dp.Length0 && dp.Length1 == |prices| && |prices| > 0
    requires RowHolds(dp, t - 1, prices)
    requires dp[t, 0] == 0
    modifies dp
    ensures RowHolds(dp, t, prices)
    ensures forall t', d :: 0 <= t' < dp.Length0 && t' != t && 0 <= d < dp.Length1 ==> dp[t', d] == old(dp[t', d])
  {
    var n := |prices|;
    var balance := 0 - prices[0];
    for d := 1 to n
      invariant balance == HoldBalance(prices, t, d - 1)
      invariant forall d' :: 0 <= d' < d ==> dp[t, d'] == BoundedDp(prices, t, d')
      invariant forall t', d' :: 0 <= t' < dp.Length0 && t' != t && 0 <= d' < n ==> dp[t', d'] == old(dp[t', d'])
    {
      dp[t, d] := Max(dp[t, d - 1], balance + prices[d]);
      balance := Max(balance, dp[t - 1, d - 1] - prices[d]);
    }
  }

  /**
   * `maxProfitIV`: at most `k` round trips. A negative `k` on a non-empty list
   * builds a table without rows, and reading `dp[k]` raises; that is None here.
   */
  method MaxProfitIV(k: int, prices: seq<int>) returns (r: Option<int>)
    ensures r.None? <==> k < 0 && |prices| > 0
    ensures r.Some? && |prices| > 0 ==> r.value == BoundedDp(prices, k, |prices| - 1)
    ensures r.Some? && (|prices| <= 1 || k == 0) ==> r.value == 0
    ensures r.Some? ==> 0 <= r.value <= SumOfRises(prices)
    ensures r.Some? && 2 * k >= |prices| ==> r.value == SumOfRises(prices)
    ensures k == 1 ==> r == Some(BestSingleTrip(prices))
    ensures r.Some? ==> (forall trips :: IsSchedule(prices, trips, |prices|) && |trips| <= k ==>
                           Earnings(prices, trips, 0) <= r.value)
    ensures k >= 0 ==> r.Some? && (exists trips :: IsSchedule(prices, trips, |prices|) && |trips| <= k &&
                                     Earnings(prices, trips, 0) == r.value)
  {
    var n := |prices|;
    if n == 0 {
      assert IsSchedule(prices, [], 0) && Earnings(prices, [], 0) == 0;
      return Some(0);
    }
    if k < 0 {
      return None;
    }
    var dp := FillTable(k, prices);
    var best := dp[k, n - 1];
    BoundedDpLastDay(prices, k);
    r := Some(best);
  }

  /**
   * `maxProfitwithfee`: unlimited round trips, `fee` paid in every buy update;
   * the balances are those of `FeeRun`, and an empty list gives 0.
   */
  method MaxProfitWithFee(prices: seq<int>, fee: int) returns (profit: int)
    ensures profit == FeeRun(prices, fee).cash
    ensures profit >= 0 && (|prices| == 0 ==> profit == 0)
    ensures fee == 0 ==> profit == SumOfRises(prices)
    ensures fee >= 0 ==> profit <= SumOfRises(prices)
    ensures forall trips :: IsSchedule(prices, trips, |prices|) ==> Earnings(prices, trips, fee) <= profit
    ensures exists trips :: IsSchedule(prices, trips, |prices|) && Earnings(prices, trips, fee) == profit
  {
    var hold: Option<int> := None;
    var notHold := 0;
    for i := 0 to |prices|
      invariant Position(notHold, hold) == FeeRun(prices[..i], fee)
    {
      var price := prices[i];
      assert prices[..i + 1][..i] == prices[..i];
      notHold := if hold.Some? then Max(notHold, hold.value + price) else notHold;
      hold := Some(if hold.Some? then Max(hold.value, notHold - price - fee) else notHold - price - fee);
    }
    assert prices[..|prices|] == prices;
    profit := if |prices| > 0 then notHold else 0;
    if |prices| > 0 {
      FeeRunWithoutFee(prices);
    }
    if fee >= 0 {
      FeeRunBelowSumOfRises(prices, fee);
    }
    FeeRunIsBestSchedule(prices, fee);
  }

  /**
   * `minimumUpLines`: 0 for one point, 1 for two, otherwise the number of
   * middle points whose triple passes the cross-product test.
   */
  method MinimumUpLines(stockPrices: seq<Point>) returns (lines: nat)
    ensures |stockPrices| <= 1 ==> lines == 0
    ensures |stockPrices| == 2 ==> lines == 1
    ensures |stockPrices| >= 3 ==> lines == CountNotSteeper(stockPrices, |stockPrices| - 1)
    ensures |stockPrices| >= 3 ==> lines == |NotSteeperAt(stockPrices, |stockPrices| - 1)|
    ensures |stockPrices| >= 3 ==> lines <= |stockPrices| - 2
  {
    if |stockPrices| == 1 {
      return 0;
    }
    if |stockPrices| == 2 {
      return 1;
    }
    var n := |stockPrices|;
    lines := 0;
    var i := 1;
    while i < n - 1
      invariant 1 <= i && (n >= 2 ==> i <= n - 1)
      invariant n >= 2 ==> lines == CountNotSteeper(stockPrices, i)
      invariant n < 2 ==> lines == 0
    {
      var a, b, c := stockPrices[i - 1], stockPrices[i], stockPrices[i + 1];
      if (b.day - a.day) * (c.price - b.price) <= (c.day - b.day) * (b.price - a.price) {
        lines := lines + 1;
      }
      i := i + 1;
    }
    if n >= 3 {
      CountNotSteeperIsSize(stockPrices, n - 1);
    }
  }
}
