/** Merging the two validated statements on `Year` and the five per-row
    financial ratios. Statements are typed records here: a validated row
    has a present year and numeric mandatory cells, which is what
    `IncomeRecord` and `BalanceRecord` read off a cleaned row. */
module FinancialMetrics {
  import opened Common
  import Validator

  // ---------------------------------------------------------------------
  // Records
  // ---------------------------------------------------------------------

  datatype IncomeRow = IncomeRow(year: int, revenue: real, operatingExpense: real, netIncome: real)

  datatype BalanceRow = BalanceRow(year: int, totalAssets: real, totalLiabilities: real, equity: real)

  /** One row of the merged frame: the income fields, then the balance
      fields, under the shared year. */
  datatype MergedRow = MergedRow(year: int, revenue: real, operatingExpense: real, netIncome: real,
                                 totalAssets: real, totalLiabilities: real, equity: real)

  /** The typed income record of a frame row, when it has one. */
  function IncomeRecord(r: Validator.Row): (o: Option<IncomeRow>)
    ensures o.Some? <==> r.year.Some? && Validator.Get(r, "Revenue").Num?
                         && Validator.Get(r, "Operating_Expense").Num? && Validator.Get(r, "Net_Income").Num?
    ensures o.Some? ==> o.value.year == r.year.value
                        && Validator.Get(r, "Revenue") == Validator.Num(o.value.revenue)
                        && Validator.Get(r, "Operating_Expense") == Validator.Num(o.value.operatingExpense)
                        && Validator.Get(r, "Net_Income") == Validator.Num(o.value.netIncome)
  {
    match (r.year, Validator.Get(r, "Revenue"), Validator.Get(r, "Operating_Expense"), Validator.Get(r, "Net_Income"))
    case (Some(y), Num(rev), Num(opex), Num(ni)) => Some(IncomeRow(y, rev, opex, ni))
    case _ => None
  }

  /** The typed balance record of a frame row, when it has one. */
  function BalanceRecord(r: Validator.Row): (o: Option<BalanceRow>)
    ensures o.Some? <==> r.year.Some? && Validator.Get(r, "Total_Assets").Num?
                         && Validator.Get(r, "Total_Liabilities").Num? && Validator.Get(r, "Equity").Num?
    ensures o.Some? ==> o.value.year == r.year.value
                        && Validator.Get(r, "Total_Assets") == Validator.Num(o.value.totalAssets)
                        && Validator.Get(r, "Total_Liabilities") == Validator.Num(o.value.totalLiabilities)
                        && Validator.Get(r, "Equity") == Validator.Num(o.value.equity)
  {
    match (r.year, Validator.Get(r, "Total_Assets"), Validator.Get(r, "Total_Liabilities"), Validator.Get(r, "Equity"))
    case (Some(y), Num(ta), Num(tl), Num(eq)) => Some(BalanceRow(y, ta, tl, eq))
    case _ => None
  }

  /** Every row a successful income-statement validation returns is an
      income record. */
  lemma ValidatedIncomeRowsAreRecords(t: Validator.Table, mode: string, parse: Validator.Parser, r: Validator.Row)
    requires Validator.Validation(t, Validator.IncomeMandatoryColumns, "Income Statement", mode, parse).Success?
    requires r in Validator.Validation(t, Validator.IncomeMandatoryColumns, "Income Statement", mode, parse).table.rows
    ensures IncomeRecord(r).Some?
  {
    var req := Validator.IncomeMandatoryColumns;
    Validator.CleanRowShape(t.rows, req, parse, r);
    assert req[0] == Validator.YearColumn;
    assert req[1] == "Revenue" && req[2] == "Operating_Expense" && req[3] == "Net_Income";
  }

  /** Every row a successful balance-sheet validation returns is a
      balance record. */
  lemma ValidatedBalanceRowsAreRecords(t: Validator.Table, mode: string, parse: Validator.Parser, r: Validator.Row)
    requires Validator.Validation(t, Validator.BalanceMandatoryColumns, "Balance Sheet", mode, parse).Success?
    requires r in Validator.Validation(t, Validator.BalanceMandatoryColumns, "Balance Sheet", mode, parse).table.rows
    ensures BalanceRecord(r).Some?
  {
    var req := Validator.BalanceMandatoryColumns;
    Validator.CleanRowShape(t.rows, req, parse, r);
    assert req[0] == Validator.YearColumn;
    assert req[1] == "Total_Assets" && req[2] == "Total_Liabilities" && req[3] == "Equity";
  }

  // ---------------------------------------------------------------------
  // Years
  // ---------------------------------------------------------------------

  function IncomeYears(income: seq<IncomeRow>): (ys: seq<int>)
    ensures |ys| == |income|
  {
    seq(|income|, k requires 0 <= k < |income| => income[k].year)
  }

  function BalanceYears(balance: seq<BalanceRow>): (ys: seq<int>)
    ensures |ys| == |balance|
  {
    seq(|balance|, k requires 0 <= k < |balance| => balance[k].year)
  }

  function MergedYears(rows: seq<MergedRow>): (ys: seq<int>)
    ensures |ys| == |rows|
  {
    seq(|rows|, k requires 0 <= k < |rows| => rows[k].year)
  }

  /** No year occurs twice. */
  predicate Distinct(ys: seq<int>)
  {
    forall a, b :: 0 <= a < b < |ys| ==> ys[a] != ys[b]
  }

  /** Years strictly increase from row to row. */
  predicate StrictlyIncreasing(ys: seq<int>)
  {
    forall a, b :: 0 <= a < b < |ys| ==> ys[a] < ys[b]
  }

  function Elements(ys: seq<int>): set<int>
  {
    set y | y in ys
  }

  lemma ElementsSnoc(init: seq<int>, last: int)
    ensures Elements(init + [last]) == Elements(init) + {last}
  {
  }

  /** A sequence of distinct years has as many elements as its set. */
  lemma {:induction false} DistinctCard(ys: seq<int>)
    requires Distinct(ys)
    ensures |Elements(ys)| == |ys|
  {
    if ys != [] {
      var init := ys[..|ys| - 1];
      var last := ys[|ys| - 1];
      assert ys == init + [last];
      assert Distinct(init);
      DistinctCard(init);
      ElementsSnoc(init, last);
      assert last !in init by {
        forall k | 0 <= k < |init| ensures init[k] != last {
          assert init[k] == ys[k];
        }
      }
    }
  }

  /** A sequence has at least as many elements as its set. */
  lemma {:induction false} ElementsCard(ys: seq<int>)
    ensures |Elements(ys)| <= |ys|
  {
    if ys != [] {
      var init := ys[..|ys| - 1];
      assert ys == init + [ys[|ys| - 1]];
      ElementsCard(init);
      ElementsSnoc(init, ys[|ys| - 1]);
    }
  }

  lemma SubsetCard(a: set<int>, b: set<int>)
    requires a <= b
    ensures |a| <= |b|
  {
    assert b == a + (b - a);
  }

  lemma IncreasingIsDistinct(ys: seq<int>)
    requires StrictlyIncreasing(ys)
    ensures Distinct(ys)
  {
  }

  // ---------------------------------------------------------------------
  // Validated statements as records
  // ---------------------------------------------------------------------

  function IncomeRecords(rows: seq<Validator.Row>): (recs: seq<IncomeRow>)
    requires forall r :: r in rows ==> IncomeRecord(r).Some?
    ensures |recs| == |rows|
    ensures forall k :: 0 <= k < |rows| ==>
              rows[k].year == Some(recs[k].year)
              && Validator.Get(rows[k], "Revenue") == Validator.Num(recs[k].revenue)
              && Validator.Get(rows[k], "Operating_Expense") == Validator.Num(recs[k].operatingExpense)
              && Validator.Get(rows[k], "Net_Income") == Validator.Num(recs[k].netIncome)
  {
    seq(|rows|, k requires 0 <= k < |rows| => IncomeRecord(rows[k]).value)
  }

  function BalanceRecords(rows: seq<Validator.Row>): (recs: seq<BalanceRow>)
    requires forall r :: r in rows ==> BalanceRecord(r).Some?
    ensures |recs| == |rows|
    ensures forall k :: 0 <= k < |rows| ==>
              rows[k].year == Some(recs[k].year)
              && Validator.Get(rows[k], "Total_Assets") == Validator.Num(recs[k].totalAssets)
              && Validator.Get(rows[k], "Total_Liabilities") == Validator.Num(recs[k].totalLiabilities)
              && Validator.Get(rows[k], "Equity") == Validator.Num(recs[k].equity)
  {
    seq(|rows|, k requires 0 <= k < |rows| => BalanceRecord(rows[k]).value)
  }

  /** A validated income statement reads as records whose years strictly
      increase. */
  lemma ValidatedIncomeAscending(t: Validator.Table, mode: string, parse: Validator.Parser)
    requires Validator.Validation(t, Validator.IncomeMandatoryColumns, "Income Statement", mode, parse).Success?
    ensures var rows := Validator.Validation(t, Validator.IncomeMandatoryColumns, "Income Statement", mode, parse).table.rows;
            (forall r :: r in rows ==> IncomeRecord(r).Some?)
            && StrictlyIncreasing(IncomeYears(IncomeRecords(rows)))
  {
    var req := Validator.IncomeMandatoryColumns;
    var rows := Validator.Validation(t, req, "Income Statement", mode, parse).table.rows;
    forall r | r in rows ensures IncomeRecord(r).Some? {
      ValidatedIncomeRowsAreRecords(t, mode, parse, r);
    }
    assert req[0] == Validator.YearColumn;
    Validator.CleanAscending(t.rows, req, parse);
    var recs := IncomeRecords(rows);
    forall a, b | 0 <= a < b < |recs| ensures IncomeYears(recs)[a] < IncomeYears(recs)[b] {
      assert rows[a].year.value < rows[b].year.value;
    }
  }

  /** A validated balance sheet reads as records whose years strictly
      increase. */
  lemma ValidatedBalanceAscending(t: Validator.Table, mode: string, parse: Validator.Parser)
    requires Validator.Validation(t, Validator.BalanceMandatoryColumns, "Balance Sheet", mode, parse).Success?
    ensures var rows := Validator.Validation(t, Validator.BalanceMandatoryColumns, "Balance Sheet", mode, parse).table.rows;
            (forall r :: r in rows ==> BalanceRecord(r).Some?)
            && StrictlyIncreasing(BalanceYears(BalanceRecords(rows)))
  {
    var req := Validator.BalanceMandatoryColumns;
    var rows := Validator.Validation(t, req, "Balance Sheet", mode, parse).table.rows;
    forall r | r in rows ensures BalanceRecord(r).Some? {
      ValidatedBalanceRowsAreRecords(t, mode, parse, r);
    }
    assert req[0] == Validator.YearColumn;
    Validator.CleanAscending(t.rows, req, parse);
    var recs := BalanceRecords(rows);
    forall a, b | 0 <= a < b < |recs| ensures BalanceYears(recs)[a] < BalanceYears(recs)[b] {
      assert rows[a].year.value < rows[b].year.value;
    }
  }

  // ---------------------------------------------------------------------
  // Inner join on Year
  // ---------------------------------------------------------------------

  function Combine(i: IncomeRow, b: BalanceRow): MergedRow
  {
    MergedRow(i.year, i.revenue, i.operatingExpense, i.netIncome, b.totalAssets, b.totalLiabilities, b.equity)
  }

  /** The merged rows one income row contributes: one per balance row of
      the same year, in balance-sheet order. */
  function MatchesOf(i: IncomeRow, balance: seq<BalanceRow>): (m: seq<MergedRow>)
    ensures |m| <= |balance|
  {
    if balance == [] then []
    else
      var last := balance[|balance| - 1];
      MatchesOf(i, balance[..|balance| - 1]) + (if last.year == i.year then [Combine(i, last)] else [])
  }

  /** `pd.merge(income, balance, on="Year", how="inner")`: the left keys'
      order, and for each left row its matches in right order. */
  function Merge(income: seq<IncomeRow>, balance: seq<BalanceRow>): seq<MergedRow>
  {
    if income == [] then []
    else Merge(income[..|income| - 1], balance) + MatchesOf(income[|income| - 1], balance)
  }

  lemma {:induction false} MatchesOfMembers(i: IncomeRow, balance: seq<BalanceRow>, m: MergedRow)
    ensures m in MatchesOf(i, balance)
            <==> exists b :: 0 <= b < |balance| && balance[b].year == i.year && m == Combine(i, balance[b])
  {
    if balance != [] {
      var init := balance[..|balance| - 1];
      MatchesOfMembers(i, init, m);
      if exists b :: 0 <= b < |balance| && balance[b].year == i.year && m == Combine(i, balance[b]) {
        var b :| 0 <= b < |balance| && balance[b].year == i.year && m == Combine(i, balance[b]);
        if b < |init| { assert init[b] == balance[b]; }
      }
      if exists b :: 0 <= b < |init| && init[b].year == i.year && m == Combine(i, init[b]) {
        var b :| 0 <= b < |init| && init[b].year == i.year && m == Combine(i, init[b]);
        assert balance[b] == init[b];
      }
    }
  }

  /** A merged row is a match of one of the income rows. */
  lemma {:induction false} MergeMembersAt(income: seq<IncomeRow>, balance: seq<BalanceRow>, m: MergedRow)
    ensures m in Merge(income, balance)
            <==> exists a :: 0 <= a < |income| && m in MatchesOf(income[a], balance)
  {
    if income != [] {
      var init := income[..|income| - 1];
      var last := income[|income| - 1];
      assert Merge(income, balance) == Merge(init, balance) + MatchesOf(last, balance);
      MergeMembersAt(init, balance, m);
      if exists a :: 0 <= a < |income| && m in MatchesOf(income[a], balance) {
        var a :| 0 <= a < |income| && m in MatchesOf(income[a], balance);
        if a < |init| {
          assert init[a] == income[a];
          assert m in Merge(init, balance);
        } else {
          assert a == |income| - 1;
          assert income[a] == last;
        }
      }
      if m in Merge(income, balance) {
        if m in Merge(init, balance) {
          var a :| 0 <= a < |init| && m in MatchesOf(init[a], balance);
          assert income[a] == init[a];
        } else {
          assert m in MatchesOf(income[|income| - 1], balance);
        }
      }
    }
  }

  /** A merged row is exactly an income row joined with a balance row of
      the same year, each field carried over unchanged. */
  lemma MergeMembers(income: seq<IncomeRow>, balance: seq<BalanceRow>, m: MergedRow)
    ensures m in Merge(income, balance)
            <==> exists a, b :: 0 <= a < |income| && 0 <= b < |balance|
                                && income[a].year == balance[b].year && m == Combine(income[a], balance[b])
  {
    MergeMembersAt(income, balance, m);
    if m in Merge(income, balance) {
      var a :| 0 <= a < |income| && m in MatchesOf(income[a], balance);
      MatchesOfMembers(income[a], balance, m);
    }
    if exists a, b :: 0 <= a < |income| && 0 <= b < |balance|
                      && income[a].year == balance[b].year && m == Combine(income[a], balance[b]) {
      var a, b :| 0 <= a < |income| && 0 <= b < |balance|
                  && income[a].year == balance[b].year && m == Combine(income[a], balance[b]);
      MatchesOfMembers(income[a], balance, m);
    }
  }

  /** The merged years are exactly the years both statements have. */
  lemma MergeYears(income: seq<IncomeRow>, balance: seq<BalanceRow>)
    ensures Elements(MergedYears(Merge(income, balance)))
            == Elements(IncomeYears(income)) * Elements(BalanceYears(balance))
  {
    var merged := Merge(income, balance);
    forall y ensures y in Elements(MergedYears(merged))
                     <==> y in Elements(IncomeYears(income)) * Elements(BalanceYears(balance)) {
      if y in MergedYears(merged) {
        var k :| 0 <= k < |merged| && MergedYears(merged)[k] == y;
        MergeMembers(income, balance, merged[k]);
        var a, b :| 0 <= a < |income| && 0 <= b < |balance|
                    && income[a].year == balance[b].year && merged[k] == Combine(income[a], balance[b]);
        assert IncomeYears(income)[a] == y && BalanceYears(balance)[b] == y;
      }
      if y in IncomeYears(income) && y in BalanceYears(balance) {
        var a :| 0 <= a < |income| && IncomeYears(income)[a] == y;
        var b :| 0 <= b < |balance| && BalanceYears(balance)[b] == y;
        MergeMembers(income, balance, Combine(income[a], balance[b]));
        var k :| 0 <= k < |merged| && merged[k] == Combine(income[a], balance[b]);
        assert MergedYears(merged)[k] == y;
      }
    }
  }

  // ---------------------------------------------------------------------
  // The join when years are unique
  // ---------------------------------------------------------------------

  /** The first balance row of year `y`, if any. */
  function Lookup(balance: seq<BalanceRow>, y: int): (o: Option<BalanceRow>)
    ensures o.Some? ==> o.value in balance && o.value.year == y
  {
    if balance == [] then None
    else
      var last := balance[|balance| - 1];
      match Lookup(balance[..|balance| - 1], y)
      case Some(b) => Some(b)
      case None => if last.year == y then Some(last) else None
  }

  /** The lookup fails exactly for a year the balance sheet lacks. */
  lemma {:induction false} LookupNone(balance: seq<BalanceRow>, y: int)
    ensures Lookup(balance, y).None? <==> y !in BalanceYears(balance)
  {
    if balance != [] {
      var init := balance[..|balance| - 1];
      LookupNone(init, y);
      assert forall k :: 0 <= k < |init| ==> BalanceYears(init)[k] == BalanceYears(balance)[k];
      assert BalanceYears(balance)[|balance| - 1] == balance[|balance| - 1].year;
      if y in BalanceYears(balance) {
        var k :| 0 <= k < |balance| && BalanceYears(balance)[k] == y;
        if k < |init| { assert BalanceYears(init)[k] == y; }
      }
      if y in BalanceYears(init) {
        var k :| 0 <= k < |init| && BalanceYears(init)[k] == y;
        assert BalanceYears(balance)[k] == y;
      }
    }
  }

  /** Reference join for unique balance years: each income row, in order,
      joined with the balance row of its year, dropped when there is none. */
  function LookupJoin(income: seq<IncomeRow>, balance: seq<BalanceRow>): (m: seq<MergedRow>)
    ensures |m| <= |income|
  {
    if income == [] then []
    else
      var last := income[|income| - 1];
      LookupJoin(income[..|income| - 1], balance)
      + match Lookup(balance, last.year)
        case None => []
        case Some(b) => [Combine(last, b)]
  }

  lemma {:induction false} MatchesOfUnique(i: IncomeRow, balance: seq<BalanceRow>)
    requires Distinct(BalanceYears(balance))
    ensures MatchesOf(i, balance) == match Lookup(balance, i.year)
                                     case None => []
                                     case Some(b) => [Combine(i, b)]
  {
    if balance != [] {
      var init := balance[..|balance| - 1];
      var last := balance[|balance| - 1];
      assert forall k :: 0 <= k < |init| ==> BalanceYears(init)[k] == BalanceYears(balance)[k];
      assert Distinct(BalanceYears(init));
      MatchesOfUnique(i, init);
      if last.year == i.year {
        assert i.year !in BalanceYears(init) by {
          forall k | 0 <= k < |init| ensures BalanceYears(init)[k] != i.year {
            assert BalanceYears(balance)[k] != BalanceYears(balance)[|balance| - 1];
          }
        }
        LookupNone(init, i.year);
      }
    }
  }

  /** With unique balance years the join is the lookup join: at most one
      merged row per income row, in income-statement order. */
  lemma {:induction false} MergeIsLookupJoin(income: seq<IncomeRow>, balance: seq<BalanceRow>)
    requires Distinct(BalanceYears(balance))
    ensures Merge(income, balance) == LookupJoin(income, balance)
  {
    if income != [] {
      MergeIsLookupJoin(income[..|income| - 1], balance);
      MatchesOfUnique(income[|income| - 1], balance);
    }
  }

  /** Each year of the lookup join is a year of the income statement. */
  lemma {:induction false} LookupJoinYears(income: seq<IncomeRow>, balance: seq<BalanceRow>)
    ensures forall k :: 0 <= k < |LookupJoin(income, balance)| ==> MergedYears(LookupJoin(income, balance))[k] in IncomeYears(income)
  {
    if income != [] {
      var init := income[..|income| - 1];
      LookupJoinYears(init, balance);
      var m0 := LookupJoin(init, balance);
      var m := LookupJoin(income, balance);
      forall k | 0 <= k < |m| ensures MergedYears(m)[k] in IncomeYears(income) {
        if k < |m0| {
          assert m[k] == m0[k];
          var a :| 0 <= a < |init| && IncomeYears(init)[a] == MergedYears(m0)[k];
          assert IncomeYears(income)[a] == IncomeYears(init)[a];
        } else {
          assert IncomeYears(income)[|income| - 1] == m[k].year;
        }
      }
    }
  }

  /** With unique income years the merged years are unique too. */
  lemma {:induction false} LookupJoinDistinct(income: seq<IncomeRow>, balance: seq<BalanceRow>)
    requires Distinct(IncomeYears(income))
    ensures Distinct(MergedYears(LookupJoin(income, balance)))
  {
    if income != [] {
      var init := income[..|income| - 1];
      var last := income[|income| - 1];
      assert forall k :: 0 <= k < |init| ==> IncomeYears(init)[k] == IncomeYears(income)[k];
      assert Distinct(IncomeYears(init));
      LookupJoinDistinct(init, balance);
      LookupJoinYears(init, balance);
      var m0 := LookupJoin(init, balance);
      var m := LookupJoin(income, balance);
      assert last.year !in IncomeYears(init) by {
        forall k | 0 <= k < |init| ensures IncomeYears(init)[k] != last.year {
          assert IncomeYears(income)[k] != IncomeYears(income)[|income| - 1];
        }
      }
      forall a, b | 0 <= a < b < |m| ensures MergedYears(m)[a] != MergedYears(m)[b] {
        assert m[a] == m0[a];
        if b < |m0| {
          assert m[b] == m0[b];
          assert MergedYears(m0)[a] != MergedYears(m0)[b];
        } else {
          assert MergedYears(m0)[a] in IncomeYears(init);
        }
      }
    }
  }

  /** Rows keep the income statement's order: when its years increase, so
      do the lookup join's. */
  lemma {:induction false} LookupJoinAscending(income: seq<IncomeRow>, balance: seq<BalanceRow>)
    requires StrictlyIncreasing(IncomeYears(income))
    ensures StrictlyIncreasing(MergedYears(LookupJoin(income, balance)))
  {
    if income != [] {
      var init := income[..|income| - 1];
      var last := income[|income| - 1];
      assert forall k :: 0 <= k < |init| ==> IncomeYears(init)[k] == IncomeYears(income)[k];
      assert StrictlyIncreasing(IncomeYears(init));
      LookupJoinAscending(init, balance);
      LookupJoinYears(init, balance);
      var m0 := LookupJoin(init, balance);
      var m := LookupJoin(income, balance);
      forall a, b | 0 <= a < b < |m| ensures MergedYears(m)[a] < MergedYears(m)[b] {
        assert m[a] == m0[a];
        if b < |m0| {
          assert m[b] == m0[b];
          assert MergedYears(m0)[a] < MergedYears(m0)[b];
        } else {
          var j :| 0 <= j < |init| && IncomeYears(init)[j] == MergedYears(m0)[a];
          assert IncomeYears(income)[j] < IncomeYears(income)[|income| - 1];
        }
      }
    }
  }

  /** When both statements have unique years (which validation ensures)
      there is one merged row per common year, so at most as many as
      either statement has, rows in income-statement order. */
  lemma MergeUniqueYears(income: seq<IncomeRow>, balance: seq<BalanceRow>)
    requires Distinct(IncomeYears(income)) && Distinct(BalanceYears(balance))
    ensures Merge(income, balance) == LookupJoin(income, balance)
    ensures Distinct(MergedYears(Merge(income, balance)))
    ensures |Merge(income, balance)| == |Elements(IncomeYears(income)) * Elements(BalanceYears(balance))|
    ensures |Merge(income, balance)| <= |income| && |Merge(income, balance)| <= |balance|
  {
    MergeIsLookupJoin(income, balance);
    LookupJoinDistinct(income, balance);
    var m := Merge(income, balance);
    MergeYears(income, balance);
    DistinctCard(MergedYears(m));
    SubsetCard(Elements(MergedYears(m)), Elements(BalanceYears(balance)));
    ElementsCard(BalanceYears(balance));
  }

  /** Validated statements come sorted by year, and the merge keeps the
      income statement's order, so the merged years increase strictly. */
  lemma MergeAscending(income: seq<IncomeRow>, balance: seq<BalanceRow>)
    requires StrictlyIncreasing(IncomeYears(income)) && Distinct(BalanceYears(balance))
    ensures StrictlyIncreasing(MergedYears(Merge(income, balance)))
  {
    MergeIsLookupJoin(income, balance);
    LookupJoinAscending(income, balance);
  }

  // ---------------------------------------------------------------------
  // Ratios
  // ---------------------------------------------------------------------

  /** `num / den`, absent when the denominator is zero (pandas yields an
      infinity or NaN there instead of raising). */
  function Ratio(num: real, den: real): (q: Option<real>)
    ensures q.Some? <==> den != 0.0
    ensures q.Some? ==> q.value * den == num
  {
    if den == 0.0 then None else Some(num / den)
  }

  /** A merged row with its five ratio columns. */
  datatype RatioRow = RatioRow(base: MergedRow, operatingMargin: Option<real>, netProfitMargin: Option<real>,
                               returnOnAssets: Option<real>, returnOnEquity: Option<real>, debtRatio: Option<real>)

  /** The five ratios of one row. */
  function RatiosOf(m: MergedRow): (r: RatioRow)
    ensures r.base == m
    ensures r.operatingMargin.Some? <==> m.revenue != 0.0
    ensures r.operatingMargin.Some? ==> r.operatingMargin.value * m.revenue == m.revenue - m.operatingExpense
    ensures r.netProfitMargin.Some? <==> m.revenue != 0.0
    ensures r.netProfitMargin.Some? ==> r.netProfitMargin.value * m.revenue == m.netIncome
    ensures r.returnOnAssets.Some? <==> m.totalAssets != 0.0
    ensures r.returnOnAssets.Some? ==> r.returnOnAssets.value * m.totalAssets == m.netIncome
    ensures r.returnOnEquity.Some? <==> m.equity != 0.0
    ensures r.returnOnEquity.Some? ==> r.returnOnEquity.value * m.equity == m.netIncome
    ensures r.debtRatio.Some? <==> m.totalAssets != 0.0
    ensures r.debtRatio.Some? ==> r.debtRatio.value * m.totalAssets == m.totalLiabilities
  {
    RatioRow(m,
             Ratio(m.revenue - m.operatingExpense, m.revenue),
             Ratio(m.netIncome, m.revenue),
             Ratio(m.netIncome, m.totalAssets),
             Ratio(m.netIncome, m.equity),
             Ratio(m.totalLiabilities, m.totalAssets))
  }

  /** `compute_financial_ratios`: a new frame, one ratio row per merged
      row, the merged fields kept. */
  function ComputeRatios(rows: seq<MergedRow>): (out: seq<RatioRow>)
    ensures |out| == |rows|
    ensures forall k :: 0 <= k < |rows| ==> out[k].base == rows[k]
    ensures forall k :: 0 <= k < |rows| ==>
              var m, r := rows[k], out[k];
              (r.operatingMargin.Some? <==> m.revenue != 0.0)
              && (r.operatingMargin.Some? ==> r.operatingMargin.value * m.revenue == m.revenue - m.operatingExpense)
              && (r.netProfitMargin.Some? <==> m.revenue != 0.0)
              && (r.netProfitMargin.Some? ==> r.netProfitMargin.value * m.revenue == m.netIncome)
              && (r.returnOnAssets.Some? <==> m.totalAssets != 0.0)
              && (r.returnOnAssets.Some? ==> r.returnOnAssets.value * m.totalAssets == m.netIncome)
              && (r.returnOnEquity.Some? <==> m.equity != 0.0)
              && (r.returnOnEquity.Some? ==> r.returnOnEquity.value * m.equity == m.netIncome)
              && (r.debtRatio.Some? <==> m.totalAssets != 0.0)
              && (r.debtRatio.Some? ==> r.debtRatio.value * m.totalAssets == m.totalLiabilities)
  {
    seq(|rows|, k requires 0 <= k < |rows| => RatiosOf(rows[k]))
  }

  /** The DuPont identities: return on assets is net margin times asset
      turnover, return on equity is return on assets times the equity
      multiplier. */
  lemma DuPont(m: MergedRow)
    requires m.revenue != 0.0 && m.totalAssets != 0.0 && m.equity != 0.0
    ensures var r := RatiosOf(m);
            r.returnOnAssets.value == r.netProfitMargin.value * (m.revenue / m.totalAssets)
            && r.returnOnEquity.value == r.returnOnAssets.value * (m.totalAssets / m.equity)
  {
    var r := RatiosOf(m);
    assert r.netProfitMargin.value == m.netIncome / m.revenue;
    assert r.returnOnAssets.value == m.netIncome / m.totalAssets;
    assert r.returnOnEquity.value == m.netIncome / m.equity;
    calc {
      r.netProfitMargin.value * (m.revenue / m.totalAssets);
      (m.netIncome / m.revenue) * (m.revenue / m.totalAssets);
      m.netIncome / m.totalAssets;
    }
    calc {
      r.returnOnAssets.value * (m.totalAssets / m.equity);
      (m.netIncome / m.totalAssets) * (m.totalAssets / m.equity);
      m.netIncome / m.equity;
    }
  }

  /** Under the balance-sheet identity assets = liabilities + equity, the
      debt ratio and the equity share of assets add up to one. */
  lemma DebtRatioComplement(m: MergedRow)
    requires m.totalAssets != 0.0 && m.totalAssets == m.totalLiabilities + m.equity
    ensures RatiosOf(m).debtRatio.value + m.equity / m.totalAssets == 1.0
  {
    var d := RatiosOf(m).debtRatio.value;
    assert d * m.totalAssets == m.totalLiabilities;
    assert (m.equity / m.totalAssets) * m.totalAssets == m.equity;
    assert (d + m.equity / m.totalAssets) * m.totalAssets == m.totalAssets;
  }

  /** Operating margin and the expense share of revenue add up to one. */
  lemma OperatingMarginComplement(m: MergedRow)
    requires m.revenue != 0.0
    ensures RatiosOf(m).operatingMargin.value + m.operatingExpense / m.revenue == 1.0
  {
    var o := RatiosOf(m).operatingMargin.value;
    assert o * m.revenue == m.revenue - m.operatingExpense;
    assert (m.operatingExpense / m.revenue) * m.revenue == m.operatingExpense;
    assert (o + m.operatingExpense / m.revenue) * m.revenue == m.revenue;
  }

  /** The merge of two validated statements: one row per common year,
      years strictly increasing. */
  lemma ValidatedMerge(income: Validator.Table, balance: Validator.Table, incomeMode: string, balanceMode: string,
                       parse: Validator.Parser)
    requires Validator.Validation(income, Validator.IncomeMandatoryColumns, "Income Statement", incomeMode, parse).Success?
    requires Validator.Validation(balance, Validator.BalanceMandatoryColumns, "Balance Sheet", balanceMode, parse).Success?
    ensures var ir := Validator.Validation(income, Validator.IncomeMandatoryColumns, "Income Statement", incomeMode, parse).table.rows;
            var br := Validator.Validation(balance, Validator.BalanceMandatoryColumns, "Balance Sheet", balanceMode, parse).table.rows;
            (forall r :: r in ir ==> IncomeRecord(r).Some?) && (forall r :: r in br ==> BalanceRecord(r).Some?)
            && var m := Merge(IncomeRecords(ir), BalanceRecords(br));
               StrictlyIncreasing(MergedYears(m)) && |m| <= |ir| && |m| <= |br|
  {
    ValidatedIncomeAscending(income, incomeMode, parse);
    ValidatedBalanceAscending(balance, balanceMode, parse);
    var ir := Validator.Validation(income, Validator.IncomeMandatoryColumns, "Income Statement", incomeMode, parse).table.rows;
    var br := Validator.Validation(balance, Validator.BalanceMandatoryColumns, "Balance Sheet", balanceMode, parse).table.rows;
    var inc := IncomeRecords(ir);
    var bal := BalanceRecords(br);
    IncreasingIsDistinct(IncomeYears(inc));
    IncreasingIsDistinct(BalanceYears(bal));
    MergeAscending(inc, bal);
    MergeUniqueYears(inc, bal);
  }
}
