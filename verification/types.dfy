/** The record shapes shared by the dashboard: one month's raw figures, the
    two twelve-month series of a year, and the derived metrics record. */
module Types {

  /** The seven raw line items of one month, as named in `MonthlyData`. */
  datatype Field =
    | Sales
    | MaterialCost
    | AdminLabor
    | MfgLabor
    | AdminOH
    | MfgOH
    | Depreciation

  /** One month's raw figures for one series. Amounts are unvalidated reals:
      the user may enter negative or fractional values. */
  datatype MonthlyData = MonthlyData(
    sales: real,
    materialCost: real,
    adminLabor: real,
    mfgLabor: real,
    adminOH: real,
    mfgOH: real,
    depreciation: real)
  {
    /** Reads the figure named by `f`. */
    function Get(f: Field): real {
      match f
      case Sales => sales
      case MaterialCost => materialCost
      case AdminLabor => adminLabor
      case MfgLabor => mfgLabor
      case AdminOH => adminOH
      case MfgOH => mfgOH
      case Depreciation => depreciation
    }

    /** Replaces the figure named by `f`, keeping the other six. */
    function Set(f: Field, v: real): (r: MonthlyData)
      ensures r.Get(f) == v
      ensures forall g :: g != f ==> r.Get(g) == Get(g)
    {
      match f
      case Sales => this.(sales := v)
      case MaterialCost => this.(materialCost := v)
      case AdminLabor => this.(adminLabor := v)
      case MfgLabor => this.(mfgLabor := v)
      case AdminOH => this.(adminOH := v)
      case MfgOH => this.(mfgOH := v)
      case Depreciation => this.(depreciation := v)
    }
  }

  /** Two records are equal exactly when they agree on every field. */
  lemma FieldwiseEqual(a: MonthlyData, b: MonthlyData)
    requires forall f: Field :: a.Get(f) == b.Get(f)
    ensures a == b
  {
    assert a.Get(Sales) == b.Get(Sales);
    assert a.Get(MaterialCost) == b.Get(MaterialCost);
    assert a.Get(AdminLabor) == b.Get(AdminLabor);
    assert a.Get(MfgLabor) == b.Get(MfgLabor);
    assert a.Get(AdminOH) == b.Get(AdminOH);
    assert a.Get(MfgOH) == b.Get(MfgOH);
    assert a.Get(Depreciation) == b.Get(Depreciation);
  }

  /** `INITIAL_MONTHLY_DATA`: the zero record every month starts from. */
  const Zero: MonthlyData := MonthlyData(0.0, 0.0, 0.0, 0.0, 0.0, 0.0, 0.0)

  lemma ZeroIsAllZero(f: Field)
    ensures Zero.Get(f) == 0.0
  {
  }

  /** `DataType`: which of the two series of a year is meant. */
  datatype DataType = Target | Actual

  /** `YearData`: the planned and the realised series, indexed by month. */
  datatype YearData = YearData(target: seq<MonthlyData>, actual: seq<MonthlyData>)
  {
    /** The series keyed by `t`. */
    function Series(t: DataType): seq<MonthlyData> {
      match t
      case Target => target
      case Actual => actual
    }

    /** Replaces the series keyed by `t`, keeping the other one. */
    function WithSeries(t: DataType, s: seq<MonthlyData>): (r: YearData)
      ensures r.Series(t) == s
      ensures forall u :: u != t ==> r.Series(u) == Series(u)
    {
      match t
      case Target => this.(target := s)
      case Actual => this.(actual := s)
    }
  }

  /** `MONTH_NAMES`: "1월" .. "12월"; its length fixes the month range. */
  const MonthNames: seq<string> := [
    "1\U{C6D4}", "2\U{C6D4}", "3\U{C6D4}", "4\U{C6D4}", "5\U{C6D4}", "6\U{C6D4}",
    "7\U{C6D4}", "8\U{C6D4}", "9\U{C6D4}", "10\U{C6D4}", "11\U{C6D4}", "12\U{C6D4}"]

  const MonthCount: nat := 12

  /** One name per month: the month index ranges over 0 .. 11. */
  lemma MonthNamesCount()
    ensures |MonthNames| == MonthCount
  {
  }

  /** The dataset invariant: both series hold one record per month. */
  predicate WellFormed(y: YearData) {
    |y.target| == MonthCount && |y.actual| == MonthCount
  }

  /** `CalculatedMetrics`: the fourteen derived values of one figure set. */
  datatype CalculatedMetrics = CalculatedMetrics(
    operatingProfit: real,
    opMargin: real,
    opInclDepr: real,
    opMarginInclDepr: real,
    materialRatio: real,
    laborRatio: real,
    expenseRatio: real,
    fixedCostRatio: real,
    marginalProfitRatio: real,
    bep: real,
    totalLabor: real,
    totalOH: real,
    totalMaterial: real,
    totalFixedCost: real)

  /** Absent value, standing for NaN where a parse fails. */
  datatype Option<T> = None | Some(value: T) {
    function GetOr(default: T): T {
      match this
      case Some(v) => v
      case None => default
    }
  }
}
