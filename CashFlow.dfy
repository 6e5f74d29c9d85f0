/** The simplified cash-flow statement: operating cash flow is net income,
    investing cash flow is the fall in total assets and financing cash
    flow the rise in total liabilities from the previous row, with zeros
    in the first row. */
module CashFlow {
  import opened Common
  import opened FinancialMetrics

  /** A merged row with its three cash-flow columns. */
  datatype CashFlowRow = CashFlowRow(base: MergedRow, cfo: real, cfi: real, cff: real)

  /** `Series.diff()` at position `k`: NaN in the first row. */
  function DiffAt(xs: seq<real>, k: nat): Option<real>
    requires k < |xs|
  {
    if k == 0 then None else Some(xs[k] - xs[k - 1])
  }

  function Negate(v: Option<real>): Option<real>
  {
    match v
    case None => None
    case Some(x) => Some(-x)
  }

  /** `fillna(0)`. */
  function FillZero(v: Option<real>): real
  {
    match v
    case None => 0.0
    case Some(x) => x
  }

  function AssetsColumn(rows: seq<MergedRow>): (xs: seq<real>)
    ensures |xs| == |rows|
  {
    seq(|rows|, k requires 0 <= k < |rows| => rows[k].totalAssets)
  }

  function LiabilitiesColumn(rows: seq<MergedRow>): (xs: seq<real>)
    ensures |xs| == |rows|
  {
    seq(|rows|, k requires 0 <= k < |rows| => rows[k].totalLiabilities)
  }

  /** `compute_cash_flow`: a new frame with the three columns added, the
      differences taken by row position. */
  function ComputeCashFlow(rows: seq<MergedRow>): (out: seq<CashFlowRow>)
    ensures |out| == |rows|
    ensures forall k :: 0 <= k < |rows| ==> out[k].base == rows[k] && out[k].cfo == rows[k].netIncome
  {
    seq(|rows|, k requires 0 <= k < |rows| =>
          CashFlowRow(rows[k], rows[k].netIncome,
                      FillZero(Negate(DiffAt(AssetsColumn(rows), k))),
                      FillZero(DiffAt(LiabilitiesColumn(rows), k))))
  }

  /** The first row has no investing and no financing cash flow; every
      later row compares with the row before it. */
  lemma CashFlowDifferences(rows: seq<MergedRow>)
    ensures var out := ComputeCashFlow(rows);
            (|rows| > 0 ==> out[0].cfi == 0.0 && out[0].cff == 0.0)
            && forall k :: 1 <= k < |rows| ==>
                 out[k].cfi == rows[k - 1].totalAssets - rows[k].totalAssets
                 && out[k].cff == rows[k].totalLiabilities - rows[k - 1].totalLiabilities
  {
    var out := ComputeCashFlow(rows);
    forall k | 1 <= k < |rows|
      ensures out[k].cfi == rows[k - 1].totalAssets - rows[k].totalAssets
      ensures out[k].cff == rows[k].totalLiabilities - rows[k - 1].totalLiabilities
    {
      assert AssetsColumn(rows)[k] == rows[k].totalAssets && AssetsColumn(rows)[k - 1] == rows[k - 1].totalAssets;
      assert LiabilitiesColumn(rows)[k] == rows[k].totalLiabilities
             && LiabilitiesColumn(rows)[k - 1] == rows[k - 1].totalLiabilities;
    }
  }

  /** Sum of the financing column over the first `n` rows. */
  function FinancingSum(out: seq<CashFlowRow>, n: nat): real
    requires n <= |out|
  {
    if n == 0 then 0.0 else FinancingSum(out, n - 1) + out[n - 1].cff
  }

  /** Sum of the investing column over the first `n` rows. */
  function InvestingSum(out: seq<CashFlowRow>, n: nat): real
    requires n <= |out|
  {
    if n == 0 then 0.0 else InvestingSum(out, n - 1) + out[n - 1].cfi
  }

  lemma {:induction false} FinancingPrefix(rows: seq<MergedRow>, n: nat)
    requires 1 <= n <= |rows|
    ensures FinancingSum(ComputeCashFlow(rows), n) == rows[n - 1].totalLiabilities - rows[0].totalLiabilities
  {
    CashFlowDifferences(rows);
    if n > 1 {
      FinancingPrefix(rows, n - 1);
    }
  }

  lemma {:induction false} InvestingPrefix(rows: seq<MergedRow>, n: nat)
    requires 1 <= n <= |rows|
    ensures InvestingSum(ComputeCashFlow(rows), n) == rows[0].totalAssets - rows[n - 1].totalAssets
  {
    CashFlowDifferences(rows);
    if n > 1 {
      InvestingPrefix(rows, n - 1);
    }
  }

  /** The differences telescope: the financing column adds up to the
      change in liabilities from the first row to the last, the investing
      column to the fall in assets. */
  lemma CashFlowTelescopes(rows: seq<MergedRow>)
    requires |rows| > 0
    ensures var out := ComputeCashFlow(rows);
            FinancingSum(out, |out|) == rows[|rows| - 1].totalLiabilities - rows[0].totalLiabilities
            && InvestingSum(out, |out|) == rows[0].totalAssets - rows[|rows| - 1].totalAssets
  {
    FinancingPrefix(rows, |rows|);
    InvestingPrefix(rows, |rows|);
  }
}
