/** Metric derivation for one figure set, the field-wise sum of a series, and
    the year-to-date (cumulative) transform of a series. */
module Calculations {
  import opened Types

  /** `x` as a percentage of `sales`; 0 unless sales are positive. */
  function Ratio(x: real, sales: real): real {
    if sales > 0.0 then (x / sales) * 100.0 else 0.0
  }

  lemma RatioAdds(x: real, y: real, sales: real)
    ensures Ratio(x, sales) + Ratio(y, sales) == Ratio(x + y, sales)
  {
    if sales > 0.0 {
      calc {
        (x / sales) * 100.0 + (y / sales) * 100.0;
        ((x + y) / sales) * 100.0;
      }
    }
  }

  lemma RatioOfSales(sales: real)
    ensures sales > 0.0 ==> Ratio(sales, sales) == 100.0
  {
  }

  /** `calculateMetrics`: every ratio is guarded by `sales > 0` and the
      break-even point by a positive marginal-profit ratio, so the function
      is total and never divides by zero. */
  function CalculateMetrics(data: MonthlyData): (m: CalculatedMetrics)
    ensures m.totalLabor == data.adminLabor + data.mfgLabor
    ensures m.totalOH == data.adminOH + data.mfgOH
    ensures m.totalMaterial == data.materialCost
    ensures m.totalFixedCost == m.totalLabor + m.totalOH
    ensures m.operatingProfit == data.sales - m.totalMaterial - m.totalFixedCost
    ensures m.opInclDepr == m.operatingProfit - data.depreciation
    // Degenerate sales: every ratio and the break-even point are exactly 0.
    ensures data.sales <= 0.0 ==>
              && m.opMargin == 0.0 && m.opMarginInclDepr == 0.0
              && m.materialRatio == 0.0 && m.laborRatio == 0.0
              && m.expenseRatio == 0.0 && m.fixedCostRatio == 0.0
              && m.marginalProfitRatio == 0.0 && m.bep == 0.0
    // Positive sales: the ratios are shares of sales that fit together.
    ensures data.sales > 0.0 ==>
              && m.materialRatio + m.laborRatio + m.expenseRatio + m.opMargin == 100.0
              && m.fixedCostRatio == m.laborRatio + m.expenseRatio
              && m.marginalProfitRatio == 100.0 - m.materialRatio
    // The break-even point exists exactly when material cost leaves a margin.
    ensures m.marginalProfitRatio > 0.0 <==> 0.0 < data.sales && data.materialCost < data.sales
    ensures m.marginalProfitRatio <= 0.0 ==> m.bep == 0.0
  {
    var totalLabor := data.adminLabor + data.mfgLabor;
    var totalOH := data.adminOH + data.mfgOH;
    var totalMaterial := data.materialCost;
    var totalFixedCost := totalLabor + totalOH;
    var operatingProfit := data.sales - (data.materialCost + totalLabor + totalOH);
    var opInclDepr := operatingProfit - data.depreciation;
    var marginalProfitRatio := Ratio(data.sales - data.materialCost, data.sales);
    var fixedCosts := totalFixedCost + data.depreciation;
    var bep := if marginalProfitRatio > 0.0 then fixedCosts / (marginalProfitRatio / 100.0) else 0.0;
    RatioAdds(data.sales - data.materialCost, totalMaterial, data.sales);
    assert (data.sales - data.materialCost) + totalMaterial == data.sales;
    RatioOfSales(data.sales);
    CalculatedMetrics(
      operatingProfit := operatingProfit,
      opMargin := Ratio(operatingProfit, data.sales),
      opInclDepr := opInclDepr,
      opMarginInclDepr := Ratio(opInclDepr, data.sales),
      materialRatio := Ratio(totalMaterial, data.sales),
      laborRatio := Ratio(totalLabor, data.sales),
      expenseRatio := Ratio(totalOH, data.sales),
      fixedCostRatio := Ratio(totalFixedCost, data.sales),
      marginalProfitRatio := marginalProfitRatio,
      bep := bep,
      totalLabor := totalLabor,
      totalOH := totalOH,
      totalMaterial := totalMaterial,
      totalFixedCost := totalFixedCost)
  }

  /** With positive sales the two operating margins are the operating
      profits, before and after depreciation, as percentages of sales. */
  lemma MarginsAreProfitShares(data: MonthlyData)
    requires data.sales > 0.0
    ensures CalculateMetrics(data).opMargin * data.sales == 100.0 * CalculateMetrics(data).operatingProfit
    ensures CalculateMetrics(data).opMarginInclDepr * data.sales == 100.0 * CalculateMetrics(data).opInclDepr
  {
    var m := CalculateMetrics(data);
    assert m.opMargin == (m.operatingProfit / data.sales) * 100.0;
    assert m.opMarginInclDepr == (m.opInclDepr / data.sales) * 100.0;
  }

  /** With positive sales each cost ratio is its cost total as a percentage
      of sales, and the marginal-profit ratio is the margin over material
      cost as a percentage of sales. */
  lemma RatiosAreCostShares(data: MonthlyData)
    requires data.sales > 0.0
    ensures CalculateMetrics(data).materialRatio * data.sales == 100.0 * CalculateMetrics(data).totalMaterial
    ensures CalculateMetrics(data).laborRatio * data.sales == 100.0 * CalculateMetrics(data).totalLabor
    ensures CalculateMetrics(data).expenseRatio * data.sales == 100.0 * CalculateMetrics(data).totalOH
    ensures CalculateMetrics(data).fixedCostRatio * data.sales == 100.0 * CalculateMetrics(data).totalFixedCost
    ensures CalculateMetrics(data).marginalProfitRatio * data.sales == 100.0 * (data.sales - data.materialCost)
  {
    var m := CalculateMetrics(data);
    assert m.materialRatio == (m.totalMaterial / data.sales) * 100.0;
    assert m.laborRatio == (m.totalLabor / data.sales) * 100.0;
    assert m.expenseRatio == (m.totalOH / data.sales) * 100.0;
    assert m.fixedCostRatio == (m.totalFixedCost / data.sales) * 100.0;
    assert m.marginalProfitRatio == ((data.sales - data.materialCost) / data.sales) * 100.0;
  }

  /** At the break-even point the marginal profit covers exactly the fixed
      costs and depreciation. */
  lemma BreakEvenCoversFixedCosts(data: MonthlyData)
    requires CalculateMetrics(data).marginalProfitRatio > 0.0
    ensures var m := CalculateMetrics(data);
            m.bep * m.marginalProfitRatio / 100.0 == m.totalFixedCost + data.depreciation
    ensures var m := CalculateMetrics(data);
            m.bep > 0.0 <==> m.totalFixedCost + data.depreciation > 0.0
  {
    var m := CalculateMetrics(data);
    var fixedCosts := m.totalFixedCost + data.depreciation;
    var share := m.marginalProfitRatio / 100.0;
    assert share > 0.0;
    assert m.bep == fixedCosts / share;
    assert m.bep * share == fixedCosts;
  }

  /** The figures (1000, 300, 100, 100, 50, 50, 20): a 40% operating margin,
      380 after depreciation, a 70% marginal-profit ratio and a break-even
      point of 320 / 0.7. */
  lemma WorkedExample()
    ensures var m := CalculateMetrics(MonthlyData(1000.0, 300.0, 100.0, 100.0, 50.0, 50.0, 20.0));
            && m.totalLabor == 200.0 && m.totalOH == 100.0 && m.totalFixedCost == 300.0
            && m.operatingProfit == 400.0 && m.opMargin == 40.0
            && m.opInclDepr == 380.0 && m.opMarginInclDepr == 38.0
            && m.marginalProfitRatio == 70.0 && m.bep == 320.0 / 0.7
  {
  }

  /** Field-wise addition of two figure sets: the step both the year-total
      reducer and the running total of the cumulative transform take. */
  function Add(a: MonthlyData, b: MonthlyData): (r: MonthlyData)
    ensures forall f: Field :: r.Get(f) == a.Get(f) + b.Get(f)
  {
    MonthlyData(
      a.sales + b.sales,
      a.materialCost + b.materialCost,
      a.adminLabor + b.adminLabor,
      a.mfgLabor + b.mfgLabor,
      a.adminOH + b.adminOH,
      a.mfgOH + b.mfgOH,
      a.depreciation + b.depreciation)
  }

  /** `reduce` with the field-wise step: folds `s` left to right into `acc`. */
  function FoldFrom(acc: MonthlyData, s: seq<MonthlyData>): MonthlyData
    decreases |s|
  {
    if |s| == 0 then acc else FoldFrom(Add(acc, s[0]), s[1..])
  }

  /** The field-wise sum of a series, starting from the zero record: each
      field of the result is the plain total of that field. */
  function Sum(s: seq<MonthlyData>): (r: MonthlyData)
    ensures forall f: Field :: r.Get(f) == FieldTotal(s, f)
  {
    forall f: Field ensures FoldFrom(Zero, s).Get(f) == FieldTotal(s, f) {
      SumIsFieldTotal(s, f);
    }
    FoldFrom(Zero, s)
  }

  /** The plain sum of one field over a series: the reference for `Sum`. */
  function FieldTotal(s: seq<MonthlyData>, f: Field): real
    decreases |s|
  {
    if |s| == 0 then 0.0 else FieldTotal(s[..|s| - 1], f) + s[|s| - 1].Get(f)
  }

  /** The running loop of `getCumulativeData`: each month adds onto the
      running total and the new total is emitted. */
  function Accumulate(running: MonthlyData, s: seq<MonthlyData>): (r: seq<MonthlyData>)
    ensures |r| == |s|
    ensures |s| > 0 ==> r[0] == Add(running, s[0])
    ensures forall i :: 0 < i < |s| ==> r[i] == Add(r[i - 1], s[i])
    decreases |s|
  {
    if |s| == 0 then []
    else
      var next := Add(running, s[0]);
      [next] + Accumulate(next, s[1..])
  }

  /** `getCumulativeData`: the year-to-date series, starting from zero. */
  function CumulativeData(s: seq<MonthlyData>): (r: seq<MonthlyData>)
    ensures |r| == |s|
    ensures |s| > 0 ==> r[0] == s[0]
    ensures forall i :: 0 < i < |s| ==> r[i] == Add(r[i - 1], s[i])
  {
    var r := Accumulate(Zero, s);
    if |s| > 0 then
      FieldwiseEqual(r[0], s[0]);
      r
    else r
  }

  /** Every running total is the fold of the months up to and including it. */
  lemma {:induction false} AccumulateIsPrefixFold(running: MonthlyData, s: seq<MonthlyData>, i: nat)
    requires i < |s|
    ensures Accumulate(running, s)[i] == FoldFrom(running, s[..i + 1])
    decreases |s|
  {
    var next := Add(running, s[0]);
    if i == 0 {
      assert s[..1][1..] == [];
    } else {
      AccumulateIsPrefixFold(next, s[1..], i - 1);
      assert s[..i + 1][1..] == s[1..][..i];
    }
  }

  /** Folding a prefix and then one more month is folding the longer prefix. */
  lemma {:induction false} FoldSnoc(acc: MonthlyData, s: seq<MonthlyData>, x: MonthlyData)
    ensures FoldFrom(acc, s + [x]) == Add(FoldFrom(acc, s), x)
    decreases |s|
  {
    if |s| == 0 {
      assert [x][1..] == [];
    } else {
      assert (s + [x])[1..] == s[1..] + [x];
      FoldSnoc(Add(acc, s[0]), s[1..], x);
    }
  }

  /** The reduce from the zero record adds each field independently: it
      agrees with `FieldTotal`. */
  lemma {:induction false} SumIsFieldTotal(s: seq<MonthlyData>, f: Field)
    ensures FoldFrom(Zero, s).Get(f) == FieldTotal(s, f)
    decreases |s|
  {
    if |s| == 0 {
      ZeroIsAllZero(f);
    } else {
      var init := s[..|s| - 1];
      assert s == init + [s[|s| - 1]];
      FoldSnoc(Zero, init, s[|s| - 1]);
      SumIsFieldTotal(init, f);
    }
  }

  /** Output i of the cumulative transform is the sum of months 0..i. */
  lemma CumulativeIsPrefixSum(s: seq<MonthlyData>, i: nat)
    requires i < |s|
    ensures CumulativeData(s)[i] == Sum(s[..i + 1])
  {
    AccumulateIsPrefixFold(Zero, s, i);
  }

  /** The last running total is the sum of the whole series. */
  lemma CumulativeLastIsSum(s: seq<MonthlyData>)
    requires |s| > 0
    ensures CumulativeData(s)[|s| - 1] == Sum(s)
  {
    CumulativeIsPrefixSum(s, |s| - 1);
    assert s[..|s|] == s;
  }

  predicate NonNegative(d: MonthlyData) {
    forall f: Field :: d.Get(f) >= 0.0
  }

  /** With non-negative entries every field of the running total is
      non-decreasing from month to month. */
  lemma {:induction false} CumulativeMonotone(s: seq<MonthlyData>, i: nat, j: nat, f: Field)
    requires forall k :: 0 <= k < |s| ==> NonNegative(s[k])
    requires i <= j < |s|
    ensures CumulativeData(s)[i].Get(f) <= CumulativeData(s)[j].Get(f)
    decreases j - i
  {
    if i < j {
      CumulativeMonotone(s, i, j - 1, f);
      assert NonNegative(s[j]);
    }
  }

  /** Without that hypothesis a running total can fall: one negative month
      after a positive one lowers the year-to-date sales. */
  lemma CumulativeCanDecrease()
    ensures var s := [Zero.(sales := 5.0), Zero.(sales := -2.0)];
            CumulativeData(s)[1].sales < CumulativeData(s)[0].sales
  {
    var s := [Zero.(sales := 5.0), Zero.(sales := -2.0)];
    var r := CumulativeData(s);
    assert r[1] == Add(r[0], s[1]);
    assert r[1].Get(Sales) == r[0].Get(Sales) + s[1].Get(Sales);
  }
}
