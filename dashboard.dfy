/**
 * The dashboard's summary of the three collections it is handed: income and
 * expense totals, the net worth with its change since the previous snapshot,
 * the most recent transactions and the net-worth chart.
 */
module Dashboard {
  import opened Seqs
  import opened Figures
  import T = Transactions
  import NW = NetWorth
  import IT = IncomeTracker

  /** `totalIncome`: the sum of the income amounts. */
  function TotalIncome(incomes: seq<IT.Income>): int {
    if incomes == [] then 0 else incomes[0].amount + TotalIncome(incomes[1..])
  }

  /** A newly added income raises the total by its amount. */
  lemma TotalIncomeAfterAdd(created: IT.Income, incomes: seq<IT.Income>)
    ensures TotalIncome([created] + incomes) == created.amount + TotalIncome(incomes)
  {
    assert ([created] + incomes)[1..] == incomes;
  }

  lemma {:induction false} TotalIncomeConcat(a: seq<IT.Income>, b: seq<IT.Income>)
    ensures TotalIncome(a + b) == TotalIncome(a) + TotalIncome(b)
  {
    if a == [] {
      assert a + b == b;
    } else {
      assert (a + b)[1..] == a[1..] + b;
      TotalIncomeConcat(a[1..], b);
    }
  }

  /** `totalExpenses`: the sum of the transaction amounts. */
  function TotalExpenses(ts: seq<T.Transaction>): int {
    T.TotalAmount(ts)
  }

  /** The expenses are the per-category totals of the transaction view added up. */
  lemma ExpensesAreCategoryTotals(ts: seq<T.Transaction>)
    ensures TotalExpenses(ts) == T.ValueSum(T.CategoryData(T.Categories(ts), ts))
  {
    var cats := T.Categories(ts);
    T.ValueSumIsGroupSum(cats, ts);
    T.PartitionTotal(ts, T.CategoryKey, cats);
  }

  /** `previousNetWorth`: the second-to-last total, or 0 with fewer than two snapshots. */
  function PreviousNetWorth(data: seq<NW.Snapshot>): int {
    if |data| > 1 then data[|data| - 2].totalAmount else 0
  }

  /** `netWorthChange`, with `currentNetWorth` the last total or 0. */
  function NetWorthChange(data: seq<NW.Snapshot>): int {
    NW.CurrentNetWorth(data) - PreviousNetWorth(data)
  }

  /** `netWorthChangePercent`: `'0'` unless the previous total is positive. */
  function ChangePercent(data: seq<NW.Snapshot>): (p: PercentText)
    ensures p.ZeroText? <==> PreviousNetWorth(data) <= 0
    ensures p.Ratio? ==> p.percent * (PreviousNetWorth(data) as real) == (NetWorthChange(data) as real) * 100.0
  {
    PercentOf(NetWorthChange(data), PreviousNetWorth(data))
  }

  /**
   * The green up-arrow is shown for a change that is not negative. When a
   * ratio is shown, the arrow points up exactly when that ratio is not negative,
   * so the arrow and the `+` sign beside it never contradict the figure.
   */
  predicate ArrowUp(data: seq<NW.Snapshot>)
    ensures PreviousNetWorth(data) > 0 ==> (ArrowUp(data) <==> ChangePercent(data).percent >= 0.0)
  {
    if PreviousNetWorth(data) > 0 then
      PercentSign(NetWorthChange(data), PreviousNetWorth(data));
      NetWorthChange(data) >= 0
    else
      NetWorthChange(data) >= 0
  }

  /**
   * With exactly two snapshots the dashboard's change and percent are the
   * net-worth view's growth and growth percent; with more they use different bases.
   */
  lemma TwoSnapshotsAgree(data: seq<NW.Snapshot>)
    requires |data| == 2
    ensures NetWorthChange(data) == NW.TotalGrowth(data)
    ensures ChangePercent(data) == NW.GrowthPercent(data)
  {
  }

  /** With a single snapshot the whole total counts as change, and the percent shows `'0'`. */
  lemma SingleSnapshot(data: seq<NW.Snapshot>)
    requires |data| == 1
    ensures NetWorthChange(data) == data[0].totalAmount
    ensures ChangePercent(data) == ZeroText
    ensures ArrowUp(data) <==> data[0].totalAmount >= 0
  {
  }

  /** `recentTransactions`: `slice(0, 5)`, the first five records or all of fewer. */
  function RecentTransactions(ts: seq<T.Transaction>): (r: seq<T.Transaction>)
    ensures |r| == if |ts| < 5 then |ts| else 5
    ensures r == ts[..|r|]
  {
    JsSlice(ts, 0, 5)
  }

  /** A point of the dashboard's chart: `{date, amount}`. */
  datatype ChartPoint = ChartPoint(date: string, amount: int)

  /** `chartData`: one point per snapshot, in order. */
  function ChartData(data: seq<NW.Snapshot>): (r: seq<ChartPoint>)
    ensures |r| == |data|
    ensures forall i :: 0 <= i < |data| ==> r[i].date == data[i].date && r[i].amount == data[i].totalAmount
  {
    seq(|data|, i requires 0 <= i < |data| => ChartPoint(data[i].date, data[i].totalAmount))
  }

  /** The dashboard's chart and the net-worth view's chart plot the same series. */
  lemma SameSeriesAsNetWorthChart(data: seq<NW.Snapshot>)
    ensures |ChartData(data)| == |NW.TotalChartData(data)|
    ensures forall i :: 0 <= i < |data| ==>
              ChartData(data)[i].date == NW.TotalChartData(data)[i].date
              && ChartData(data)[i].amount == NW.TotalChartData(data)[i].total
  {
  }
}
