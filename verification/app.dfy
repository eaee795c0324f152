/** The dashboard's derived state: the zero-filled starting dataset, the
    year total of the actual series with its metrics, and the per-month rows
    the charts and the pivot table read. */
module App {
  import opened Types
  import opened Calculations

  /** The dataset used when nothing is stored: twelve zero records in each
      series. */
  function InitialYearData(): (y: YearData)
    ensures WellFormed(y)
    ensures forall m :: 0 <= m < MonthCount ==> y.target[m] == Zero && y.actual[m] == Zero
  {
    YearData(seq(MonthCount, _ => Zero), seq(MonthCount, _ => Zero))
  }

  /** `totalActual`: the summed raw figures next to the metrics of that sum. */
  datatype Total = Total(figures: MonthlyData, metrics: CalculatedMetrics)

  /** `totalActual`: the actual series reduced field-wise from the zero
      record, and `calculateMetrics` applied to the reduced figures. */
  function TotalActual(y: YearData): (r: Total)
    ensures forall f: Field :: r.figures.Get(f) == FieldTotal(y.actual, f)
    ensures r.metrics == CalculateMetrics(r.figures)
  {
    var sum := Sum(y.actual);
    Total(sum, CalculateMetrics(sum))
  }

  /** The year total reads only the actual series: editing targets leaves it
      as it was. */
  lemma TotalIgnoresTarget(y: YearData, target: seq<MonthlyData>)
    ensures TotalActual(y.(target := target)) == TotalActual(y)
  {
    var a := TotalActual(y.(target := target)).figures;
    var b := TotalActual(y).figures;
    FieldwiseEqual(a, b);
  }

  /** The summed figures are the last year-to-date figures. */
  lemma TotalIsLastCumulative(y: YearData)
    requires |y.actual| > 0
    ensures TotalActual(y).figures == CumulativeData(y.actual)[|y.actual| - 1]
  {
    CumulativeLastIsSum(y.actual);
  }

  /** The operating profits of the months of a series, added up. */
  function MonthlyProfitTotal(s: seq<MonthlyData>): real
    decreases |s|
  {
    if |s| == 0 then 0.0
    else MonthlyProfitTotal(s[..|s| - 1]) + CalculateMetrics(s[|s| - 1]).operatingProfit
  }

  /** Operating profit is linear in the raw figures, so the year total's
      operating profit is the sum of the monthly operating profits. */
  lemma {:induction false} TotalProfitIsSumOfMonthly(y: YearData)
    ensures TotalActual(y).metrics.operatingProfit == MonthlyProfitTotal(y.actual)
  {
    ProfitOfFieldTotals(y.actual);
  }

  lemma {:induction false} ProfitOfFieldTotals(s: seq<MonthlyData>)
    ensures FieldTotal(s, Sales)
              - (FieldTotal(s, MaterialCost) + (FieldTotal(s, AdminLabor) + FieldTotal(s, MfgLabor))
                 + (FieldTotal(s, AdminOH) + FieldTotal(s, MfgOH)))
            == MonthlyProfitTotal(s)
    decreases |s|
  {
    if |s| > 0 {
      ProfitOfFieldTotals(s[..|s| - 1]);
    }
  }

  /** The year's operating margin is the year's operating profit as a share
      of the year's sales: a sales-weighted mean of the monthly margins, not
      their plain average. */
  lemma TotalMarginIsProfitShare(y: YearData)
    requires TotalActual(y).figures.sales > 0.0
    ensures TotalActual(y).metrics.opMargin * TotalActual(y).figures.sales == 100.0 * MonthlyProfitTotal(y.actual)
  {
    TotalMarginOfTotalProfit(y);
    TotalProfitIsSumOfMonthly(y);
  }

  lemma TotalMarginOfTotalProfit(y: YearData)
    requires TotalActual(y).figures.sales > 0.0
    ensures TotalActual(y).metrics.opMargin * TotalActual(y).figures.sales == 100.0 * TotalActual(y).metrics.operatingProfit
  {
    MarginsAreProfitShares(TotalActual(y).figures);
  }

  lemma TwoMonthFieldTotal(a: MonthlyData, b: MonthlyData, f: Field)
    ensures FieldTotal([a, b], f) == a.Get(f) + b.Get(f)
  {
    assert [a, b][..1] == [a];
    assert [a][..0] == [];
    assert FieldTotal([a], f) == FieldTotal([], f) + a.Get(f);
  }

  lemma TwoMonthProfitTotal(a: MonthlyData, b: MonthlyData)
    ensures MonthlyProfitTotal([a, b]) == CalculateMetrics(a).operatingProfit + CalculateMetrics(b).operatingProfit
  {
    assert [a, b][..1] == [a];
    assert [a][..0] == [];
    assert MonthlyProfitTotal([a]) == MonthlyProfitTotal([]) + CalculateMetrics(a).operatingProfit;
  }

  /** For two months with positive sales the year margin is the
      sales-weighted mean of the monthly margins. */
  lemma TwoMonthMarginIsWeightedMean(t: seq<MonthlyData>, a: MonthlyData, b: MonthlyData)
    requires a.sales > 0.0 && b.sales > 0.0
    ensures TotalActual(YearData(t, [a, b])).metrics.opMargin * (a.sales + b.sales)
            == CalculateMetrics(a).opMargin * a.sales + CalculateMetrics(b).opMargin * b.sales
  {
    var y := YearData(t, [a, b]);
    TwoMonthFieldTotal(a, b, Sales);
    TwoMonthProfitTotal(a, b);
    MarginsAreProfitShares(a);
    MarginsAreProfitShares(b);
    TwoMonthSales(t, a, b);
    TotalMarginIsProfitShare(y);
  }

  lemma TwoMonthSales(t: seq<MonthlyData>, a: MonthlyData, b: MonthlyData)
    ensures TotalActual(YearData(t, [a, b])).figures.sales == a.sales + b.sales
  {
    TwoMonthFieldTotal(a, b, Sales);
    assert TotalActual(YearData(t, [a, b])).figures.Get(Sales) == a.sales + b.sales;
  }

  /** Two months with margins 50% and 0% on sales 100 and 300 (material
      cost 50 and 300, no labor or overhead) give a year margin of 12.5%,
      not the 25% an average of the monthly margins gives. */
  lemma TotalMarginIsNotMeanMargin(target: seq<MonthlyData>, jan: MonthlyData, feb: MonthlyData)
    requires jan.sales == 100.0 && jan.materialCost == 50.0
    requires feb.sales == 300.0 && feb.materialCost == 300.0
    requires jan.adminLabor == jan.mfgLabor == jan.adminOH == jan.mfgOH == 0.0
    requires feb.adminLabor == feb.mfgLabor == feb.adminOH == feb.mfgOH == 0.0
    ensures CalculateMetrics(jan).opMargin == 50.0
    ensures CalculateMetrics(feb).opMargin == 0.0
    ensures TotalActual(YearData(target, [jan, feb])).metrics.opMargin == 12.5
  {
    MarginsAreProfitShares(jan);
    MarginsAreProfitShares(feb);
    TwoMonthMarginIsWeightedMean(target, jan, feb);
  }

  /** With nothing entered, the year total and all of its metrics are 0. */
  lemma InitialTotalIsZero()
    ensures TotalActual(InitialYearData()).figures == Zero
    ensures TotalActual(InitialYearData()).metrics.bep == 0.0
    ensures TotalActual(InitialYearData()).metrics.opMargin == 0.0
  {
    InitialFiguresZero();
    var t := TotalActual(InitialYearData());
    assert t.metrics == CalculateMetrics(Zero);
    assert Zero.sales <= 0.0;
  }

  lemma InitialFiguresZero()
    ensures TotalActual(InitialYearData()).figures == Zero
  {
    var y := InitialYearData();
    var figures := TotalActual(y).figures;
    forall f: Field ensures figures.Get(f) == Zero.Get(f) {
      ZeroTotals(y.actual, f);
    }
    FieldwiseEqual(figures, Zero);
  }

  lemma {:induction false} ZeroTotals(s: seq<MonthlyData>, f: Field)
    requires forall i :: 0 <= i < |s| ==> s[i] == Zero
    ensures FieldTotal(s, f) == 0.0
    decreases |s|
  {
    if |s| > 0 {
      ZeroTotals(s[..|s| - 1], f);
    }
  }

  /** One month of the charts and the pivot table: both series' sales and
      break-even points, and the actual month's metrics spread alongside. */
  datatype DashboardRow = DashboardRow(
    name: string,
    targetSales: real,
    actualSales: real,
    actualBEP: real,
    targetBEP: real,
    metrics: CalculatedMetrics)

  function MonthRow(y: YearData, idx: nat): DashboardRow
    requires idx < MonthCount <= |y.target| && MonthCount <= |y.actual|
  {
    MonthNamesCount();
    var targetMetrics := CalculateMetrics(y.target[idx]);
    var actualMetrics := CalculateMetrics(y.actual[idx]);
    DashboardRow(MonthNames[idx], y.target[idx].sales, y.actual[idx].sales,
                 actualMetrics.bep, targetMetrics.bep, actualMetrics)
  }

  /** `dashboardData`: one row per month name. Row i reads month i of each
      series and nothing else. */
  function DashboardData(y: YearData): (rows: seq<DashboardRow>)
    requires MonthCount <= |y.target| && MonthCount <= |y.actual|
    ensures |rows| == |MonthNames|
    ensures forall i :: 0 <= i < |rows| ==>
              && rows[i].name == MonthNames[i]
              && rows[i].targetSales == y.target[i].sales
              && rows[i].actualSales == y.actual[i].sales
              && rows[i].actualBEP == rows[i].metrics.bep
              && rows[i].metrics == CalculateMetrics(y.actual[i])
              && rows[i].targetBEP == CalculateMetrics(y.target[i]).bep
  {
    MonthNamesCount();
    seq(MonthCount, i requires 0 <= i < MonthCount => MonthRow(y, i))
  }

  /** Row i depends on month i alone: two datasets that agree on month i
      give the same row i. */
  lemma DashboardRowIsLocal(y: YearData, z: YearData, i: nat)
    requires MonthCount <= |y.target| && MonthCount <= |y.actual|
    requires MonthCount <= |z.target| && MonthCount <= |z.actual|
    requires i < MonthCount
    requires y.target[i] == z.target[i] && y.actual[i] == z.actual[i]
    ensures DashboardData(y)[i] == DashboardData(z)[i]
  {
    MonthNamesCount();
  }

  /** A month whose actual sales do not exceed its material cost shows a
      break-even point of 0 on the chart. */
  lemma DashboardBepZeroWithoutMargin(y: YearData, i: nat)
    requires MonthCount <= |y.target| && MonthCount <= |y.actual|
    requires i < MonthCount
    requires y.actual[i].sales <= y.actual[i].materialCost
    ensures DashboardData(y)[i].actualBEP == 0.0
  {
    MonthNamesCount();
  }
}
