/** The break-even helper and the forward projection of the merged
    statement: revenue and liabilities compound, assets accumulate net
    income, and each forecast year gets a full income and balance row. */
module Forecasting {
  import opened Common
  import opened FinancialMetrics

  // ---------------------------------------------------------------------
  // Break-even revenue
  // ---------------------------------------------------------------------

  /** `calculate_break_even_revenue`: absent inputs or a variable-cost
      ratio of one or more give no answer. */
  function BreakEven(fixedCost: Option<real>, variableCostRatio: Option<real>): (be: Option<real>)
    ensures be.Some? <==> fixedCost.Some? && variableCostRatio.Some? && variableCostRatio.value < 1.0
    ensures be.Some? ==> be.value - (fixedCost.value + be.value * variableCostRatio.value) == 0.0
    ensures be.Some? && fixedCost.value >= 0.0 ==> be.value >= 0.0
  {
    if fixedCost.None? || variableCostRatio.None? then None
    else if variableCostRatio.value >= 1.0 then None
    else
      var be := fixedCost.value / (1.0 - variableCostRatio.value);
      assert be * (1.0 - variableCostRatio.value) == fixedCost.value;
      Some(be)
  }


  // ---------------------------------------------------------------------
  // Scenario and output rows
  // ---------------------------------------------------------------------

  datatype Scenario = Scenario(yearsAhead: int, revenueGrowth: real, variableCostRatio: real, fixedCost: real,
                               taxRate: real, interestRate: real, debtChange: real)

  /** The keyword defaults of `forecast_financials`. */
  const DefaultScenario: Scenario := Scenario(3, 0.05, 0.30, 200000.0, 0.25, 0.06, 0.0)

  /** With the default fixed cost and variable-cost ratio the break-even
      revenue is 200000 / 0.7, a little over 285714.28. */
  lemma BreakEvenDefaults()
    ensures BreakEven(Some(DefaultScenario.fixedCost), Some(DefaultScenario.variableCostRatio)).Some?
    ensures 285714.28 < BreakEven(Some(DefaultScenario.fixedCost), Some(DefaultScenario.variableCostRatio)).value < 285714.29
  {
    var be := BreakEven(Some(DefaultScenario.fixedCost), Some(DefaultScenario.variableCostRatio)).value;
    assert be * 0.7 == 200000.0;
  }

  /** A row of the output frame, tagged by its `Type` column. Historical
      rows are the input rows as they were. */
  datatype ForecastRow =
    | Historical(row: MergedRow)
    | Forecast(year: int, revenue: real, operatingExpense: real, netIncome: real, ebit: real,
               interestExpense: real, tax: real, totalAssets: real, totalLiabilities: real, equity: real)

  function RevenueOf(r: ForecastRow): real
  {
    match r
    case Historical(m) => m.revenue
    case Forecast(_, rev, _, _, _, _, _, _, _, _) => rev
  }

  function YearOf(r: ForecastRow): int
  {
    match r
    case Historical(m) => m.year
    case Forecast(y, _, _, _, _, _, _, _, _, _) => y
  }

  /** How many forecast rows `range(1, years_ahead + 1)` yields. */
  function Horizon(sc: Scenario): nat
  {
    if sc.yearsAhead > 0 then sc.yearsAhead else 0
  }

  // ---------------------------------------------------------------------
  // The recurrence
  // ---------------------------------------------------------------------

  /** The three loop accumulators `revenue`, `liabilities` and `assets`. */
  datatype Accumulators = Accumulators(revenue: real, liabilities: real, assets: real)

  /** The income-statement figures of one forecast year. */
  datatype Earnings = Earnings(operatingCost: real, ebit: real, interest: real, tax: real, netIncome: real)

  /** Costs, interest and the floored tax on a year's revenue and
      liabilities. */
  function EarningsFor(sc: Scenario, revenue: real, liabilities: real): Earnings
  {
    var operatingCost := sc.fixedCost + revenue * sc.variableCostRatio;
    var ebit := revenue - operatingCost;
    var interest := liabilities * sc.interestRate;
    var taxableIncome := ebit - interest;
    var tax := Max(taxableIncome, 0.0) * sc.taxRate;
    Earnings(operatingCost, ebit, interest, tax, taxableIncome - tax)
  }

  /** The row of forecast year `year` from that year's revenue and
      liabilities and the assets of the year before: assets take the
      year's net income and equity is what the liabilities leave. */
  function RowFor(sc: Scenario, year: int, revenue: real, liabilities: real, priorAssets: real): (r: ForecastRow)
    ensures r.Forecast?
  {
    var e := EarningsFor(sc, revenue, liabilities);
    var assets := priorAssets + e.netIncome;
    Forecast(year, revenue, e.operatingCost, e.netIncome, e.ebit, e.interest, e.tax, assets, liabilities,
             assets - liabilities)
  }

  /** One pass of the loop body: revenue and liabilities of the year before
      compound by the growth rate and the debt change. */
  function YearRow(sc: Scenario, year: int, a: Accumulators): (r: ForecastRow)
    ensures r.Forecast?
  {
    RowFor(sc, year, Grow(a.revenue, sc.revenueGrowth), Grow(a.liabilities, sc.debtChange), a.assets)
  }

  /** The accumulators a forecast row leaves behind. */
  function After(r: ForecastRow): Accumulators
    requires r.Forecast?
  {
    Accumulators(r.revenue, r.totalLiabilities, r.totalAssets)
  }

  /** One year's growth of `x` at `rate`. */
  function Grow(x: real, rate: real): real
  {
    x * (1.0 + rate)
  }

  /** `x` compounded `n` times at `rate`. */
  function Compounded(x: real, rate: real, n: nat): real
  {
    if n == 0 then x else Grow(Compounded(x, rate, n - 1), rate)
  }

  /** Net income of forecast year `i` (from 1). */
  function NetIncomeAt(sc: Scenario, last: MergedRow, i: nat): real
  {
    EarningsFor(sc, Compounded(last.revenue, sc.revenueGrowth, i),
                Compounded(last.totalLiabilities, sc.debtChange, i)).netIncome
  }

  /** Total assets after `i` forecast years. */
  function AssetsAt(sc: Scenario, last: MergedRow, i: nat): real
  {
    if i == 0 then last.totalAssets else AssetsAt(sc, last, i - 1) + NetIncomeAt(sc, last, i)
  }

  /** The accumulators after `i` forecast years, seeded from the last
      historical row. */
  function StateAt(sc: Scenario, last: MergedRow, i: nat): Accumulators
  {
    Accumulators(Compounded(last.revenue, sc.revenueGrowth, i), Compounded(last.totalLiabilities, sc.debtChange, i),
                 AssetsAt(sc, last, i))
  }

  /** Forecast year `i` (from 1). */
  function ProjectionRow(sc: Scenario, last: MergedRow, i: nat): (r: ForecastRow)
    requires i >= 1
    ensures r.Forecast?
  {
    RowFor(sc, last.year + i, Compounded(last.revenue, sc.revenueGrowth, i),
           Compounded(last.totalLiabilities, sc.debtChange, i), AssetsAt(sc, last, i - 1))
  }

  /** The accumulators after year `i` are that year's revenue, liabilities
      and assets. */
  lemma StateIsRow(sc: Scenario, last: MergedRow, i: nat)
    requires i >= 1
    ensures StateAt(sc, last, i) == After(ProjectionRow(sc, last, i))
  {
  }

  /** The first `n` forecast rows. */
  function Projection(sc: Scenario, last: MergedRow, n: nat): (p: seq<ForecastRow>)
    ensures |p| == n
  {
    if n == 0 then [] else Projection(sc, last, n - 1) + [ProjectionRow(sc, last, n)]
  }

  /** `forecast_financials`: the historical rows, then the forecast rows. */
  function ForecastFinancials(history: seq<MergedRow>, sc: Scenario): seq<ForecastRow>
    requires |history| > 0
  {
    seq(|history|, k requires 0 <= k < |history| => Historical(history[k]))
    + Projection(sc, history[|history| - 1], Horizon(sc))
  }

  /** The loop of `forecast_financials`: three accumulators updated once a
      year and one row appended per year; `YearRow` is the arithmetic of
      the loop body. */
  method ForecastMethod(history: seq<MergedRow>, sc: Scenario) returns (out: seq<ForecastRow>)
    requires |history| > 0
    ensures out == ForecastFinancials(history, sc)
  {
    var last := history[|history| - 1];
    var revenue := last.revenue;
    var assets := last.totalAssets;
    var liabilities := last.totalLiabilities;
    var forecasts: seq<ForecastRow> := [];
    var lastYear := last.year;
    var i := 1;
    while i <= sc.yearsAhead
      invariant 1 <= i <= Horizon(sc) + 1
      invariant Accumulators(revenue, liabilities, assets) == StateAt(sc, last, i - 1)
      invariant forecasts == Projection(sc, last, i - 1)
    {
      var row := YearRow(sc, lastYear + i, Accumulators(revenue, liabilities, assets));
      assert row == ProjectionRow(sc, last, i);
      revenue, liabilities, assets := row.revenue, row.totalLiabilities, row.totalAssets;
      forecasts := forecasts + [row];
      i := i + 1;
    }
    var hist := seq(|history|, k requires 0 <= k < |history| => Historical(history[k]));
    out := hist + forecasts;
  }

  // ---------------------------------------------------------------------
  // Shape of the output
  // ---------------------------------------------------------------------

  lemma {:induction false} ProjectionAt(sc: Scenario, last: MergedRow, n: nat, k: nat)
    requires k < n
    ensures Projection(sc, last, n)[k] == ProjectionRow(sc, last, k + 1)
  {
    if k < n - 1 {
      ProjectionAt(sc, last, n - 1, k);
    }
  }

  /** Historical rows first and unchanged, then one forecast row per year
      ahead, the `i`-th dated `i` years after the last historical year. */
  lemma ForecastShape(history: seq<MergedRow>, sc: Scenario)
    requires |history| > 0
    ensures var f := ForecastFinancials(history, sc);
            var last := history[|history| - 1];
            |f| == |history| + Horizon(sc)
            && (forall k :: 0 <= k < |history| ==> f[k] == Historical(history[k]))
            && (forall k :: |history| <= k < |f| ==>
                  f[k] == ProjectionRow(sc, last, k - |history| + 1)
                  && f[k].Forecast? && f[k].year == last.year + (k - |history| + 1))
  {
    var f := ForecastFinancials(history, sc);
    var last := history[|history| - 1];
    forall k | |history| <= k < |f|
      ensures f[k] == ProjectionRow(sc, last, k - |history| + 1)
    {
      ProjectionAt(sc, last, Horizon(sc), k - |history|);
    }
  }

  /** The forecast years follow the last historical year without gaps, so
      they strictly increase. */
  lemma ForecastYearsIncrease(history: seq<MergedRow>, sc: Scenario)
    requires |history| > 0
    ensures var f := ForecastFinancials(history, sc);
            forall a, b :: |history| <= a < b < |f| ==> history[|history| - 1].year < YearOf(f[a]) < YearOf(f[b])
  {
    ForecastShape(history, sc);
    var f := ForecastFinancials(history, sc);
    forall k | |history| <= k < |f| ensures YearOf(f[k]) == history[|history| - 1].year + (k - |history| + 1) {
      assert f[k].Forecast?;
    }
  }

  // ---------------------------------------------------------------------
  // Year over year
  // ---------------------------------------------------------------------

  /** Each forecast row grows the previous row's revenue and liabilities
      and carries its assets forward by its own net income; the first
      forecast row starts from the last historical row. */
  lemma CarryOver(sc: Scenario, last: MergedRow, i: nat)
    requires i >= 1
    ensures var r := ProjectionRow(sc, last, i);
            var prior := if i == 1 then Accumulators(last.revenue, last.totalLiabilities, last.totalAssets)
                         else After(ProjectionRow(sc, last, i - 1));
            r.revenue == Grow(prior.revenue, sc.revenueGrowth)
            && r.totalLiabilities == Grow(prior.liabilities, sc.debtChange)
            && r.totalAssets == prior.assets + r.netIncome
  {
    if i > 1 {
      StateIsRow(sc, last, i - 1);
    } else {
      assert StateAt(sc, last, 0) == Accumulators(last.revenue, last.totalLiabilities, last.totalAssets);
    }
    assert ProjectionRow(sc, last, i) == YearRow(sc, last.year + i, StateAt(sc, last, i - 1));
  }

  function Pow(x: real, n: nat): real
  {
    if n == 0 then 1.0 else Pow(x, n - 1) * x
  }

  /** Compounding `n` times multiplies by the `n`-th power of one plus
      the rate. */
  lemma {:induction false} CompoundedClosedForm(x: real, rate: real, n: nat)
    ensures Compounded(x, rate, n) == x * Pow(1.0 + rate, n)
  {
    if n > 0 {
      CompoundedClosedForm(x, rate, n - 1);
      assert x * Pow(1.0 + rate, n - 1) * (1.0 + rate) == x * (Pow(1.0 + rate, n - 1) * (1.0 + rate));
    }
  }

  /** Forecast year `i` has revenue `last.revenue * (1 + g)^i` and
      liabilities `last.totalLiabilities * (1 + d)^i`. */
  lemma ClosedForms(sc: Scenario, last: MergedRow, i: nat)
    requires i >= 1
    ensures ProjectionRow(sc, last, i).revenue == last.revenue * Pow(1.0 + sc.revenueGrowth, i)
    ensures ProjectionRow(sc, last, i).totalLiabilities == last.totalLiabilities * Pow(1.0 + sc.debtChange, i)
  {
    CompoundedClosedForm(last.revenue, sc.revenueGrowth, i);
    CompoundedClosedForm(last.totalLiabilities, sc.debtChange, i);
  }

  lemma MulNonNegative(x: real, y: real)
    requires x >= 0.0 && y >= 0.0
    ensures x * y >= 0.0
  {
  }

  /** Compounding a non-negative value at a rate of at least -100% never
      makes it negative. */
  lemma {:induction false} CompoundedNonNegative(x: real, rate: real, n: nat)
    requires x >= 0.0 && rate >= -1.0
    ensures Compounded(x, rate, n) >= 0.0
  {
    if n > 0 {
      CompoundedNonNegative(x, rate, n - 1);
      MulNonNegative(Compounded(x, rate, n - 1), 1.0 + rate);
    }
  }

  /** Compounding a positive value at a positive rate gives a positive
      value that grows strictly with every step. */
  lemma {:induction false} CompoundedIncreasing(x: real, rate: real, m: nat, n: nat)
    requires x > 0.0 && rate > 0.0 && m < n
    ensures 0.0 < Compounded(x, rate, m) < Compounded(x, rate, n)
  {
    if m < n - 1 {
      CompoundedIncreasing(x, rate, m, n - 1);
    } else if m > 0 {
      CompoundedIncreasing(x, rate, m - 1, m);
    }
    var c := Compounded(x, rate, n - 1);
    assert c * (1.0 + rate) == c + c * rate;
  }

  /** Positive growth from a positive last revenue: every forecast year's
      revenue is above the last historical revenue and above the year
      before. */
  lemma RevenueIncreasing(sc: Scenario, last: MergedRow, i: nat)
    requires sc.revenueGrowth > 0.0 && last.revenue > 0.0 && i >= 1
    ensures last.revenue < ProjectionRow(sc, last, i).revenue
    ensures i > 1 ==> ProjectionRow(sc, last, i - 1).revenue < ProjectionRow(sc, last, i).revenue
  {
    CompoundedIncreasing(last.revenue, sc.revenueGrowth, 0, i);
    if i > 1 {
      CompoundedIncreasing(last.revenue, sc.revenueGrowth, i - 1, i);
    }
  }

  /** Forecast revenue is never negative while the growth rate is at
      least -100% and the last revenue is not negative. */
  lemma RevenueNonNegative(sc: Scenario, last: MergedRow, i: nat)
    requires sc.revenueGrowth >= -1.0 && last.revenue >= 0.0 && i >= 1
    ensures ProjectionRow(sc, last, i).revenue >= 0.0
  {
    CompoundedNonNegative(last.revenue, sc.revenueGrowth, i);
  }

  // ---------------------------------------------------------------------
  // Earnings and assets
  // ---------------------------------------------------------------------

  /** Net income summed over the first `n` forecast years. */
  function NetIncomeSum(sc: Scenario, last: MergedRow, n: nat): real
  {
    if n == 0 then 0.0 else NetIncomeSum(sc, last, n - 1) + ProjectionRow(sc, last, n).netIncome
  }

  /** Assets after `n` forecast years are the last historical assets plus
      the net income of those years. */
  lemma {:induction false} AssetsAccumulate(sc: Scenario, last: MergedRow, n: nat)
    ensures AssetsAt(sc, last, n) == last.totalAssets + NetIncomeSum(sc, last, n)
    ensures n >= 1 ==> ProjectionRow(sc, last, n).totalAssets == last.totalAssets + NetIncomeSum(sc, last, n)
  {
    if n > 0 {
      AssetsAccumulate(sc, last, n - 1);
      assert ProjectionRow(sc, last, n).netIncome == NetIncomeAt(sc, last, n);
    }
  }

  /** The per-row identities of a forecast year: operating expense is the
      fixed cost plus the variable share of revenue, EBIT is what it leaves,
      interest is charged on the liabilities, net income is EBIT less
      interest and tax, and assets take that net income. Tax is never
      negative at a non-negative rate, a year without taxable income pays
      none and keeps its pre-tax result, and equity is assets less
      liabilities. */
  lemma TaxFacts(sc: Scenario, year: int, revenue: real, liabilities: real, priorAssets: real)
    ensures var r := RowFor(sc, year, revenue, liabilities, priorAssets);
            r.year == year && r.revenue == revenue && r.totalLiabilities == liabilities
            && r.operatingExpense == sc.fixedCost + r.revenue * sc.variableCostRatio
            && r.ebit == r.revenue - r.operatingExpense
            && r.interestExpense == r.totalLiabilities * sc.interestRate
            && r.netIncome == r.ebit - r.interestExpense - r.tax
            && r.totalAssets == priorAssets + r.netIncome
            && (sc.taxRate >= 0.0 ==> r.tax >= 0.0)
            && (r.ebit - r.interestExpense <= 0.0 ==> r.tax == 0.0 && r.netIncome == r.ebit - r.interestExpense)
            && (r.ebit - r.interestExpense > 0.0 ==> r.tax == (r.ebit - r.interestExpense) * sc.taxRate)
            && r.equity == r.totalAssets - r.totalLiabilities
  {
    var r := RowFor(sc, year, revenue, liabilities, priorAssets);
    if sc.taxRate >= 0.0 {
      MulNonNegative(Max(r.ebit - r.interestExpense, 0.0), sc.taxRate);
    }
  }

  // ---------------------------------------------------------------------
  // Worked figures
  // ---------------------------------------------------------------------

  /** From a 2021 row with revenue 1,000,000, assets 1,500,000 and
      liabilities 700,000, at 10% growth, a 0.30 variable-cost ratio,
      200,000 fixed cost, 25% tax and 5% interest, the 2022 row is fixed. */
  lemma WorkedYear2022()
    ensures ProjectionRow(Scenario(2, 0.10, 0.30, 200000.0, 0.25, 0.05, 0.0),
                          MergedRow(2021, 1000000.0, 600000.0, 200000.0, 1500000.0, 700000.0, 800000.0), 1)
            == Forecast(2022, 1100000.0, 530000.0, 401250.0, 570000.0, 35000.0, 133750.0,
                        1901250.0, 700000.0, 1201250.0)
  {
    var sc := Scenario(2, 0.10, 0.30, 200000.0, 0.25, 0.05, 0.0);
    var last := MergedRow(2021, 1000000.0, 600000.0, 200000.0, 1500000.0, 700000.0, 800000.0);
    assert Compounded(1000000.0, 0.10, 1) == 1100000.0;
    assert Compounded(700000.0, 0.0, 1) == 700000.0;
    assert EarningsFor(sc, 1100000.0, 700000.0) == Earnings(530000.0, 570000.0, 35000.0, 133750.0, 401250.0) by {
      assert Max(535000.0, 0.0) == 535000.0;
    }
  }

  /** Three years of history, two forecast years at 10% growth: five rows,
      the last revenue above the last historical one, no negative revenue. */
  lemma BasicForecast()
    ensures var history := [MergedRow(2021, 1000000.0, 600000.0, 200000.0, 1500000.0, 700000.0, 800000.0),
                            MergedRow(2022, 1100000.0, 650000.0, 220000.0, 1600000.0, 750000.0, 850000.0),
                            MergedRow(2023, 1200000.0, 700000.0, 250000.0, 1700000.0, 800000.0, 900000.0)];
            var f := ForecastFinancials(history, Scenario(2, 0.10, 0.30, 200000.0, 0.25, 0.05, 0.0));
            |f| == 5 && RevenueOf(f[4]) > RevenueOf(f[2])
            && forall k :: 0 <= k < |f| ==> RevenueOf(f[k]) >= 0.0
  {
    var history := [MergedRow(2021, 1000000.0, 600000.0, 200000.0, 1500000.0, 700000.0, 800000.0),
                    MergedRow(2022, 1100000.0, 650000.0, 220000.0, 1600000.0, 750000.0, 850000.0),
                    MergedRow(2023, 1200000.0, 700000.0, 250000.0, 1700000.0, 800000.0, 900000.0)];
    var sc := Scenario(2, 0.10, 0.30, 200000.0, 0.25, 0.05, 0.0);
    var f := ForecastFinancials(history, sc);
    ForecastShape(history, sc);
    RevenueIncreasing(sc, history[2], 2);
    RevenueNonNegative(sc, history[2], 1);
    RevenueNonNegative(sc, history[2], 2);
    assert f[3] == ProjectionRow(sc, history[2], 1);
    assert f[4] == ProjectionRow(sc, history[2], 2);
  }

  /** With the keyword defaults the history is followed by three forecast
      years, and a positive last revenue rises year on year. */
  lemma DefaultForecast(history: seq<MergedRow>)
    requires |history| > 0
    ensures var f := ForecastFinancials(history, DefaultScenario);
            var n := |history|;
            |f| == n + 3
            && (history[n - 1].revenue > 0.0 ==>
                  history[n - 1].revenue < RevenueOf(f[n]) < RevenueOf(f[n + 1]) < RevenueOf(f[n + 2]))
  {
    var sc := DefaultScenario;
    var n := |history|;
    var last := history[n - 1];
    var f := ForecastFinancials(history, sc);
    ForecastShape(history, sc);
    assert f[n] == ProjectionRow(sc, last, 1);
    assert f[n + 1] == ProjectionRow(sc, last, 2);
    assert f[n + 2] == ProjectionRow(sc, last, 3);
    if last.revenue > 0.0 {
      RevenueIncreasing(sc, last, 1);
      RevenueIncreasing(sc, last, 2);
      RevenueIncreasing(sc, last, 3);
    }
  }
}
