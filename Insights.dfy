/** Three threshold rules over the first and last merged rows, producing
    an ordered list of plain-language insights. */
module Insights {
  import opened FinancialMetrics

  // ---------------------------------------------------------------------
  // Floating-point quotients
  // ---------------------------------------------------------------------

  /** The value of a floating-point quotient: a zero divisor gives an
      infinity of the dividend's sign, or NaN for 0/0, instead of an
      error. */
  datatype Quotient = Finite(value: real) | PosInf | NegInf | NaN

  function Divide(num: real, den: real): (q: Quotient)
    ensures q.Finite? <==> den != 0.0
    ensures q.Finite? ==> q.value * den == num
  {
    if den != 0.0 then Finite(num / den)
    else if num > 0.0 then PosInf
    else if num < 0.0 then NegInf
    else NaN
  }

  function Minus(q: Quotient, c: real): Quotient
  {
    match q
    case Finite(x) => Finite(x - c)
    case _ => q
  }

  /** `q > t`: false for NaN and negative infinity, true for positive
      infinity. */
  predicate Exceeds(q: Quotient, t: real)
  {
    match q
    case Finite(x) => x > t
    case PosInf => true
    case NegInf => false
    case NaN => false
  }

  // ---------------------------------------------------------------------
  // The three rules
  // ---------------------------------------------------------------------

  const StrongGrowthMessage: string := "Revenue shows strong long-term growth."
  const ImprovedMessage: string := "Profitability has improved over time."
  const PressureMessage: string := "Profitability pressure observed."
  const HighLeverageMessage: string := "High leverage increases financial risk."
  const ManageableMessage: string := "Debt levels remain manageable."

  /** Revenue growth from the first row to the last exceeds 20%. */
  predicate StrongGrowth(rows: seq<MergedRow>)
    requires |rows| > 0
  {
    Exceeds(Minus(Divide(rows[|rows| - 1].revenue, rows[0].revenue), 1.0), 0.2)
  }

  /** Net income rose from the first row to the last. */
  predicate Improved(rows: seq<MergedRow>)
    requires |rows| > 0
  {
    rows[|rows| - 1].netIncome - rows[0].netIncome > 0.0
  }

  /** The last row's debt ratio is above 0.6. */
  predicate HighLeverage(rows: seq<MergedRow>)
    requires |rows| > 0
  {
    Exceeds(Divide(rows[|rows| - 1].totalLiabilities, rows[|rows| - 1].totalAssets), 0.6)
  }

  /** `generate_insights`: the optional growth message, then exactly one
      profitability message, then exactly one leverage message. */
  method GenerateInsights(rows: seq<MergedRow>) returns (insights: seq<string>)
    requires |rows| > 0
    ensures |insights| == if StrongGrowth(rows) then 3 else 2
    ensures (StrongGrowthMessage in insights) <==> StrongGrowth(rows)
    ensures StrongGrowth(rows) ==> insights[0] == StrongGrowthMessage
    ensures insights[|insights| - 2] == (if Improved(rows) then ImprovedMessage else PressureMessage)
    ensures insights[|insights| - 1] == (if HighLeverage(rows) then HighLeverageMessage else ManageableMessage)
  {
    insights := [];
    var first := rows[0];
    var last := rows[|rows| - 1];
    var revGrowth := Minus(Divide(last.revenue, first.revenue), 1.0);
    var marginTrend := last.netIncome - first.netIncome;
    var debtRatio := Divide(last.totalLiabilities, last.totalAssets);

    if Exceeds(revGrowth, 0.2) {
      insights := insights + [StrongGrowthMessage];
    }

    if marginTrend > 0.0 {
      insights := insights + [ImprovedMessage];
    } else {
      insights := insights + [PressureMessage];
    }

    if Exceeds(debtRatio, 0.6) {
      insights := insights + [HighLeverageMessage];
    } else {
      insights := insights + [ManageableMessage];
    }
  }

  // ---------------------------------------------------------------------
  // Properties of the rules
  // ---------------------------------------------------------------------

  /** With a nonzero first revenue the growth rule is the plain
      comparison of the ratio; with a zero one it fires exactly for a
      positive last revenue. */
  lemma GrowthRule(rows: seq<MergedRow>)
    requires |rows| > 0
    ensures var first := rows[0].revenue;
            var last := rows[|rows| - 1].revenue;
            (first != 0.0 ==> (StrongGrowth(rows) <==> last / first - 1.0 > 0.2))
            && (first == 0.0 ==> (StrongGrowth(rows) <==> last > 0.0))
  {
  }

  /** With positive first revenue, strong growth means the last revenue
      is more than 1.2 times the first. */
  lemma GrowthThreshold(rows: seq<MergedRow>)
    requires |rows| > 0 && rows[0].revenue > 0.0
    ensures StrongGrowth(rows) <==> rows[|rows| - 1].revenue > 1.2 * rows[0].revenue
  {
    var first := rows[0].revenue;
    var last := rows[|rows| - 1].revenue;
    var q := last / first;
    assert q * first == last;
    if q > 1.2 {
      assert q * first > 1.2 * first;
    } else {
      assert q * first <= 1.2 * first;
    }
  }

  /** The leverage rule compares the debt ratio strictly, so a ratio of
      exactly 0.6 is still manageable; with zero assets it fires exactly
      for positive liabilities. */
  lemma LeverageRule(rows: seq<MergedRow>)
    requires |rows| > 0
    ensures var last := rows[|rows| - 1];
            (last.totalAssets != 0.0 ==> (HighLeverage(rows) <==> last.totalLiabilities / last.totalAssets > 0.6))
            && (last.totalAssets == 0.0 ==> (HighLeverage(rows) <==> last.totalLiabilities > 0.0))
            && (last.totalAssets != 0.0 && last.totalLiabilities == 0.6 * last.totalAssets ==> !HighLeverage(rows))
  {
    var last := rows[|rows| - 1];
    if last.totalAssets != 0.0 && last.totalLiabilities == 0.6 * last.totalAssets {
      assert last.totalLiabilities / last.totalAssets == 0.6;
    }
  }

  /** A single year shows no growth and no improvement. */
  lemma SingleRow(rows: seq<MergedRow>)
    requires |rows| == 1
    ensures !StrongGrowth(rows) && !Improved(rows)
  {
    var r := rows[0].revenue;
    if r != 0.0 {
      assert r / r == 1.0;
    }
  }
}
