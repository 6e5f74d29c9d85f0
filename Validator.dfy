/** Statement validation: a required-column check that runs in every mode,
    anomaly detection on the raw rows, and the three cleaning policies
    (`strict`, `auto_clean`, `auto_clean_warn`). One generic validator
    stands for both the income statement and the balance sheet. */
module Validator {
  import opened Common

  // ---------------------------------------------------------------------
  // Data model
  // ---------------------------------------------------------------------

  /** One cell of a data frame as read from a file. */
  datatype Cell = Missing | Num(value: real) | Text(text: string)

  /** A row: the `Year` cell (None is NaN) and the other cells by label. */
  datatype Row = Row(year: Option<int>, cells: map<string, Cell>)

  datatype Table = Table(columns: seq<string>, rows: seq<Row>)

  /** What `pd.to_numeric(errors="coerce")` makes of a text cell; the
      parsing rules themselves are not modelled. */
  type Parser = string -> Option<real>

  const YearColumn: string := "Year"

  const IncomeMandatoryColumns: seq<string> := ["Year", "Revenue", "Operating_Expense", "Net_Income"]

  const BalanceMandatoryColumns: seq<string> := ["Year", "Total_Assets", "Total_Liabilities", "Equity"]

  /** A label the row does not carry reads as missing. */
  function Get(r: Row, col: string): Cell
  {
    if col in r.cells then r.cells[col] else Missing
  }

  /** Numeric coercion of one cell: missing stays NaN, numbers stay. */
  function Coerce(cell: Cell, parse: Parser): Option<real>
  {
    match cell
    case Missing => None
    case Num(x) => Some(x)
    case Text(t) => parse(t)
  }

  function FromNumeric(v: Option<real>): Cell
  {
    match v
    case None => Missing
    case Some(x) => Num(x)
  }

  lemma CoerceFromNumeric(v: Option<real>, parse: Parser)
    ensures Coerce(FromNumeric(v), parse) == v
  {
  }

  // ---------------------------------------------------------------------
  // Required columns
  // ---------------------------------------------------------------------

  /** The required columns the table lacks, in required-list order. */
  function MissingColumns(columns: seq<string>, required: seq<string>): (missing: seq<string>)
    ensures |missing| <= |required|
  {
    if required == [] then []
    else
      var c := required[|required| - 1];
      MissingColumns(columns, required[..|required| - 1]) + (if c in columns then [] else [c])
  }

  /** A column is reported exactly when it is required and absent. */
  lemma {:induction false} MissingColumnsMembers(columns: seq<string>, required: seq<string>)
    ensures forall c :: c in MissingColumns(columns, required) <==> c in required && c !in columns
  {
    if required != [] {
      var init := required[..|required| - 1];
      MissingColumnsMembers(columns, init);
      assert required == init + [required[|required| - 1]];
    }
  }

  /** The check filters the required list in order: the report for a
      concatenation is the concatenation of the reports. */
  lemma {:induction false} MissingColumnsAppend(columns: seq<string>, a: seq<string>, b: seq<string>)
    ensures MissingColumns(columns, a + b) == MissingColumns(columns, a) + MissingColumns(columns, b)
  {
    if b == [] {
      assert a + b == a;
    } else {
      var b' := b[..|b| - 1];
      assert (a + b)[..|a + b| - 1] == a + b';
      assert (a + b)[|a + b| - 1] == b[|b| - 1];
      MissingColumnsAppend(columns, a, b');
    }
  }

  // ---------------------------------------------------------------------
  // Anomalies on the raw rows
  // ---------------------------------------------------------------------

  /** `isnull` on one required cell of the raw row. */
  predicate IsNull(r: Row, col: string)
  {
    if col == YearColumn then r.year.None? else Get(r, col).Missing?
  }

  predicate HasNull(r: Row, required: seq<string>)
  {
    required != [] && (HasNull(r, required[..|required| - 1]) || IsNull(r, required[|required| - 1]))
  }

  lemma {:induction false} HasNullMeans(r: Row, required: seq<string>)
    ensures HasNull(r, required) <==> exists c :: c in required && IsNull(r, c)
  {
    if required != [] {
      var init := required[..|required| - 1];
      HasNullMeans(r, init);
      assert required == init + [required[|required| - 1]];
    }
  }

  /** The number of rows with a null in some required column. */
  function CountWithNulls(rows: seq<Row>, required: seq<string>): (n: nat)
    ensures n <= |rows|
  {
    if rows == [] then 0
    else CountWithNulls(rows[..|rows| - 1], required) + (if HasNull(rows[|rows| - 1], required) then 1 else 0)
  }

  lemma {:induction false} CountWithNullsPositive(rows: seq<Row>, required: seq<string>)
    ensures CountWithNulls(rows, required) > 0 <==> exists i :: 0 <= i < |rows| && HasNull(rows[i], required)
  {
    if rows != [] {
      var init := rows[..|rows| - 1];
      CountWithNullsPositive(init, required);
      assert forall i :: 0 <= i < |init| ==> init[i] == rows[i];
    }
  }

  function YearsOf(rows: seq<Row>): set<Option<int>>
  {
    if rows == [] then {} else YearsOf(rows[..|rows| - 1]) + {rows[|rows| - 1].year}
  }

  lemma {:induction false} YearsOfMembers(rows: seq<Row>)
    ensures forall y :: y in YearsOf(rows) <==> exists i :: 0 <= i < |rows| && rows[i].year == y
  {
    if rows != [] {
      var init := rows[..|rows| - 1];
      YearsOfMembers(init);
      assert forall i :: 0 <= i < |init| ==> init[i] == rows[i];
    }
  }

  /** `duplicated(subset="Year")` keeps the first occurrence of each year
      unflagged; NaN years count as equal to each other. */
  function RepeatedYears(rows: seq<Row>): seq<Option<int>>
  {
    if rows == [] then []
    else
      var init := rows[..|rows| - 1];
      var y := rows[|rows| - 1].year;
      RepeatedYears(init) + (if y in YearsOf(init) then [y] else [])
  }

  /** How many rows carry year `y`. */
  function YearCount(rows: seq<Row>, y: Option<int>): nat
  {
    if rows == [] then 0
    else YearCount(rows[..|rows| - 1], y) + (if rows[|rows| - 1].year == y then 1 else 0)
  }

  lemma {:induction false} YearCountPositive(rows: seq<Row>, y: Option<int>)
    ensures YearCount(rows, y) > 0 <==> y in YearsOf(rows)
  {
    if rows != [] {
      YearCountPositive(rows[..|rows| - 1], y);
    }
  }

  /** The duplicate report lists a year once for every row after the first
      that carries it. */
  lemma {:induction false} RepeatedYearsCount(rows: seq<Row>, y: Option<int>)
    ensures multiset(RepeatedYears(rows))[y] == if y in YearsOf(rows) then YearCount(rows, y) - 1 else 0
  {
    if rows != [] {
      var init := rows[..|rows| - 1];
      RepeatedYearsCount(init, y);
      YearCountPositive(init, y);
    }
  }

  /** A year is reported exactly when two rows carry it. */
  lemma RepeatedYearsMembers(rows: seq<Row>, y: Option<int>)
    ensures y in RepeatedYears(rows) <==> YearCount(rows, y) >= 2
  {
    RepeatedYearsCount(rows, y);
    YearCountPositive(rows, y);
  }

  /** Some cell of the column fails numeric coercion (or is missing). */
  predicate HasNonNumeric(rows: seq<Row>, col: string, parse: Parser)
  {
    rows != [] && (HasNonNumeric(rows[..|rows| - 1], col, parse) || Coerce(Get(rows[|rows| - 1], col), parse).None?)
  }

  lemma {:induction false} HasNonNumericMeans(rows: seq<Row>, col: string, parse: Parser)
    ensures HasNonNumeric(rows, col, parse) <==> exists i :: 0 <= i < |rows| && Coerce(Get(rows[i], col), parse).None?
  {
    if rows != [] {
      var init := rows[..|rows| - 1];
      HasNonNumericMeans(init, col, parse);
      assert forall i :: 0 <= i < |init| ==> init[i] == rows[i];
    }
  }

  datatype Anomaly = MissingValues(count: nat) | DuplicateYears(years: seq<Option<int>>) | NonNumeric(column: string)

  /** The non-numeric reports for the first `k` columns of `cols`. */
  function NonNumericUpTo(rows: seq<Row>, cols: seq<string>, k: nat, parse: Parser): (r: seq<Anomaly>)
    requires k <= |cols|
    ensures forall a :: a in r ==> a.NonNumeric?
  {
    if k == 0 then []
    else
      var c := cols[k - 1];
      NonNumericUpTo(rows, cols, k - 1, parse)
        + (if c != YearColumn && HasNonNumeric(rows, c, parse) then [NonNumeric(c)] else [])
  }

  /** One report per non-Year column, in the order of `cols`. */
  function NonNumericAnomalies(rows: seq<Row>, cols: seq<string>, parse: Parser): (r: seq<Anomaly>)
    ensures forall a :: a in r ==> a.NonNumeric?
  {
    NonNumericUpTo(rows, cols, |cols|, parse)
  }

  lemma {:induction false} NonNumericUpToMembers(rows: seq<Row>, cols: seq<string>, k: nat, parse: Parser, c: string)
    requires k <= |cols|
    ensures (NonNumeric(c) in NonNumericUpTo(rows, cols, k, parse))
            == ((exists i :: 0 <= i < k && cols[i] == c) && c != YearColumn && HasNonNumeric(rows, c, parse))
  {
    if k > 0 {
      NonNumericUpToMembers(rows, cols, k - 1, parse, c);
    }
  }

  lemma NonNumericAnomaliesMembers(rows: seq<Row>, cols: seq<string>, parse: Parser, c: string)
    ensures (NonNumeric(c) in NonNumericAnomalies(rows, cols, parse))
            == (c in cols && c != YearColumn && HasNonNumeric(rows, c, parse))
  {
    NonNumericUpToMembers(rows, cols, |cols|, parse, c);
  }

  /** The missing-values and duplicate-years reports, when they apply. */
  function HeadAnomalies(rows: seq<Row>, required: seq<string>): seq<Anomaly>
  {
    var n := CountWithNulls(rows, required);
    var d := RepeatedYears(rows);
    (if n > 0 then [MissingValues(n)] else []) + (if d != [] then [DuplicateYears(d)] else [])
  }

  /** The anomalies of `_collect_anomalies`, in its order. */
  function Anomalies(rows: seq<Row>, required: seq<string>, parse: Parser): seq<Anomaly>
  {
    HeadAnomalies(rows, required) + NonNumericAnomalies(rows, required, parse)
  }

  function Rank(a: Anomaly): nat
  {
    match a
    case MissingValues(_) => 0
    case DuplicateYears(_) => 1
    case NonNumeric(_) => 2
  }

  /** Missing values first, then duplicate years, then the non-numeric
      columns; each of the first two kinds at most once. */
  lemma AnomaliesOrdered(rows: seq<Row>, required: seq<string>, parse: Parser)
    ensures var a := Anomalies(rows, required, parse);
            forall i, j :: 0 <= i < j < |a| ==> Rank(a[i]) <= Rank(a[j]) && (Rank(a[i]) == Rank(a[j]) ==> a[i].NonNumeric?)
  {
    var n := CountWithNulls(rows, required);
    var d := RepeatedYears(rows);
    var head := (if n > 0 then [MissingValues(n)] else []) + (if d != [] then [DuplicateYears(d)] else []);
    var tail := NonNumericAnomalies(rows, required, parse);
    assert forall k :: 0 <= k < |tail| ==> tail[k] in tail;
    assert forall k :: |head| <= k < |head + tail| ==> (head + tail)[k] == tail[k - |head|];
  }

  /** The missing-values report appears exactly when some row has a null
      in a required column. */
  lemma AnomaliesReportNulls(rows: seq<Row>, required: seq<string>, parse: Parser)
    ensures (MissingValues(CountWithNulls(rows, required)) in Anomalies(rows, required, parse))
            == (exists i :: 0 <= i < |rows| && HasNull(rows[i], required))
  {
    CountWithNullsPositive(rows, required);
    if CountWithNulls(rows, required) == 0 {
      assert MissingValues(0) !in NonNumericAnomalies(rows, required, parse);
    }
  }

  /** The duplicate-years report appears exactly when some year is repeated. */
  lemma AnomaliesReportDuplicates(rows: seq<Row>, required: seq<string>, parse: Parser)
    ensures (DuplicateYears(RepeatedYears(rows)) in Anomalies(rows, required, parse))
            == (RepeatedYears(rows) != [])
  {
    if RepeatedYears(rows) == [] {
      assert DuplicateYears([]) !in NonNumericAnomalies(rows, required, parse);
    }
  }

  /** A column is reported non-numeric exactly when it is a required
      non-Year column with a cell that does not coerce. */
  lemma AnomaliesReportNonNumeric(rows: seq<Row>, required: seq<string>, parse: Parser, c: string)
    ensures (NonNumeric(c) in Anomalies(rows, required, parse))
            == (c in required && c != YearColumn && HasNonNumeric(rows, c, parse))
  {
    NonNumericAnomaliesMembers(rows, required, parse, c);
  }

  /** A null in a non-Year required cell is reported twice: as a missing
      value and, since it coerces to NaN, as a non-numeric column. */
  lemma NullRaisesBoth(rows: seq<Row>, required: seq<string>, parse: Parser, i: nat, c: string)
    requires i < |rows| && c in required && c != YearColumn && Get(rows[i], c) == Missing
    ensures MissingValues(CountWithNulls(rows, required)) in Anomalies(rows, required, parse)
    ensures NonNumeric(c) in Anomalies(rows, required, parse)
  {
    HasNullMeans(rows[i], required);
    assert IsNull(rows[i], c);
    HasNonNumericMeans(rows, c, parse);
    AnomaliesReportNulls(rows, required, parse);
    AnomaliesReportNonNumeric(rows, required, parse, c);
  }

  // ---------------------------------------------------------------------
  // Rendering the messages
  // ---------------------------------------------------------------------

  function DigitChar(d: nat): char
    requires d < 10
  {
    "0123456789"[d]
  }

  /** Decimal digits of a natural number, no leading zeros. */
  function NatToString(n: nat): (s: string)
    ensures |s| > 0
  {
    if n < 10 then [DigitChar(n)] else NatToString(n / 10) + [DigitChar(n % 10)]
  }

  /** Reads a string of decimal digits back as a number. */
  function DigitsValue(s: string): int
  {
    if s == [] then 0 else DigitsValue(s[..|s| - 1]) * 10 + (s[|s| - 1] as int - '0' as int)
  }

  lemma {:induction false} NatToStringRoundTrip(n: nat)
    ensures DigitsValue(NatToString(n)) == n
  {
    var s := NatToString(n);
    if n >= 10 {
      NatToStringRoundTrip(n / 10);
      assert s[..|s| - 1] == NatToString(n / 10);
    }
  }

  function IntToString(i: int): string
  {
    if i < 0 then "-" + NatToString(-i) else NatToString(i)
  }

  /** The repr of one element of `df['Year'].tolist()`: a year column that
      holds a NaN is a float column, so integers print with ".0". */
  function YearRepr(y: Option<int>, floats: bool): string
  {
    match y
    case None => "nan"
    case Some(v) => IntToString(v) + (if floats then ".0" else "")
  }

  function Join(parts: seq<string>, sep: string): string
  {
    if parts == [] then ""
    else if |parts| == 1 then parts[0]
    else Join(parts[..|parts| - 1], sep) + sep + parts[|parts| - 1]
  }

  /** `str.join` puts the separator only between parts. */
  lemma {:induction false} JoinLength(parts: seq<string>, sep: string)
    requires |parts| > 0
    ensures |Join(parts, sep)| == (|parts| - 1) * |sep| + SumLengths(parts)
  {
    if |parts| > 1 {
      var init := parts[..|parts| - 1];
      JoinLength(init, sep);
      assert SumLengths(parts) == SumLengths(init) + |parts[|parts| - 1]|;
    } else {
      assert SumLengths(parts) == SumLengths(parts[..0]) + |parts[0]|;
    }
  }

  /** Read from the front, a join is the first part, the separator, and
      the join of the rest; with `Join([p], sep) == p` this fixes every
      character of the message. */
  lemma {:induction false} JoinCons(p: string, rest: seq<string>, sep: string)
    requires |rest| > 0
    ensures Join([p] + rest, sep) == p + sep + Join(rest, sep)
  {
    var parts := [p] + rest;
    if |rest| == 1 {
      assert parts[..1] == [p];
    } else {
      var init := rest[..|rest| - 1];
      JoinCons(p, init, sep);
      assert parts[..|parts| - 1] == [p] + init;
      AppendAssoc(p + sep, Join(init, sep), sep + rest[|rest| - 1]);
    }
  }

  function SumLengths(parts: seq<string>): nat
  {
    if parts == [] then 0 else SumLengths(parts[..|parts| - 1]) + |parts[|parts| - 1]|
  }

  /** Python's repr of a list whose elements print as `items`. */
  function ListRepr(items: seq<string>): string
  {
    "[" + Join(items, ", ") + "]"
  }

  function Quoted(s: string): string
  {
    "'" + s + "'"
  }

  function QuotedAll(names: seq<string>): (r: seq<string>)
    ensures |r| == |names|
    ensures forall i :: 0 <= i < |names| ==> r[i] == Quoted(names[i])
  {
    seq(|names|, i requires 0 <= i < |names| => Quoted(names[i]))
  }

  function YearReprs(years: seq<Option<int>>, floats: bool): (r: seq<string>)
    ensures |r| == |years|
    ensures forall i :: 0 <= i < |years| ==> r[i] == YearRepr(years[i], floats)
  {
    seq(|years|, i requires 0 <= i < |years| => YearRepr(years[i], floats))
  }

  /** Whether the raw Year column holds a NaN (and so is a float column). */
  predicate YearsAreFloats(rows: seq<Row>)
  {
    rows != [] && (YearsAreFloats(rows[..|rows| - 1]) || rows[|rows| - 1].year.None?)
  }

  function Render(a: Anomaly, floats: bool): string
  {
    match a
    case MissingValues(n) => NatToString(n) + " rows have missing mandatory values"
    case DuplicateYears(ys) => "Duplicate years detected: " + ListRepr(YearReprs(ys, floats))
    case NonNumeric(c) => "Non-numeric values detected in column: " + c
  }

  /** Missing columns print as Python's repr of a list of strings. */
  lemma SchemaErrorMessage(name: string)
    ensures SchemaError(name, ["Revenue", "Net_Income"])
            == name + " missing mandatory columns: ['Revenue', 'Net_Income']"
  {
    var q := QuotedAll(["Revenue", "Net_Income"]);
    var repr := "['Revenue', 'Net_Income']";
    assert ListRepr(q) == repr by {
      assert q[0] == "'Revenue'" && q[1] == "'Net_Income'";
      assert q[..1] == [q[0]];
      assert Join(q, ", ") == q[0] + ", " + q[1];
    }
    assert " missing mandatory columns: " + repr == " missing mandatory columns: ['Revenue', 'Net_Income']";
    AppendAssoc(name, " missing mandatory columns: ", repr);
  }

  /** Repeated years print as the repr of `tolist()`: integers, or floats
      with `nan` when the Year column holds a NaN. */
  lemma DuplicateYearsMessage()
    ensures Render(DuplicateYears([Some(2021)]), false) == "Duplicate years detected: [2021]"
    ensures Render(DuplicateYears([Some(2021), None]), true) == "Duplicate years detected: [2021.0, nan]"
  {
    assert NatToString(20) == "20";
    assert NatToString(202) == "202";
    assert NatToString(2021) == "2021";
    var r1 := YearReprs([Some(2021)], false);
    assert IntToString(2021) == "2021";
    assert r1[0] == "2021";
    assert r1 == ["2021"];
    var r2 := YearReprs([Some(2021), None], true);
    assert r2[0] == "2021.0" && r2[1] == "nan";
    assert r2 == ["2021.0", "nan"];
    assert r2[..1] == ["2021.0"];
  }

  function RenderAll(anomalies: seq<Anomaly>, floats: bool): (r: seq<string>)
    ensures |r| == |anomalies|
  {
    seq(|anomalies|, i requires 0 <= i < |anomalies| => Render(anomalies[i], floats))
  }

  lemma AppendAssoc<T>(a: seq<T>, b: seq<T>, c: seq<T>)
    ensures (a + b) + c == a + (b + c)
  {
  }

  /** The message list `_collect_anomalies` returns. */
  function AnomalyMessages(rows: seq<Row>, required: seq<string>, parse: Parser): seq<string>
  {
    RenderAll(Anomalies(rows, required, parse), YearsAreFloats(rows))
  }

  /** `_collect_anomalies`: appends the reports one check at a time; each
      report is rendered to its message (`Render`) as it is appended. */
  method CollectAnomalies(rows: seq<Row>, required: seq<string>, parse: Parser) returns (anomalies: seq<string>)
    ensures anomalies == AnomalyMessages(rows, required, parse)
  {
    var found: seq<Anomaly> := [];
    var missingRows := CountWithNulls(rows, required);
    if missingRows > 0 {
      found := found + [MissingValues(missingRows)];
    }
    var dupYears := RepeatedYears(rows);
    if dupYears != [] {
      found := found + [DuplicateYears(dupYears)];
    }
    ghost var head := HeadAnomalies(rows, required);
    ghost var tail: seq<Anomaly> := [];
    assert found == head + tail;
    var k := 0;
    while k < |required|
      invariant 0 <= k <= |required|
      invariant tail == NonNumericUpTo(rows, required, k, parse)
      invariant found == head + tail
    {
      var col := required[k];
      if col != YearColumn && HasNonNumeric(rows, col, parse) {
        AppendAssoc(head, tail, [NonNumeric(col)]);
        found := found + [NonNumeric(col)];
        tail := tail + [NonNumeric(col)];
      }
      k := k + 1;
    }
    anomalies := RenderAll(found, YearsAreFloats(rows));
  }

  // ---------------------------------------------------------------------
  // Cleaning
  // ---------------------------------------------------------------------

  /** `df[col] = pd.to_numeric(df[col], errors="coerce")`, seen on one row;
      the Year column is never converted. */
  function CoerceColumn(r: Row, col: string, parse: Parser): Row
  {
    if col == YearColumn then r
    else Row(r.year, r.cells[col := FromNumeric(Coerce(Get(r, col), parse))])
  }

  /** The row after the conversion loop has visited the first `k` columns. */
  function CoerceUpTo(r: Row, cols: seq<string>, k: nat, parse: Parser): Row
    requires k <= |cols|
  {
    if k == 0 then r else CoerceColumn(CoerceUpTo(r, cols, k - 1, parse), cols[k - 1], parse)
  }

  function CoerceRow(r: Row, cols: seq<string>, parse: Parser): Row
  {
    CoerceUpTo(r, cols, |cols|, parse)
  }

  /** Conversion touches only the listed non-Year columns, and a converted
      cell holds the coercion of the original cell. */
  lemma {:induction false} CoerceUpToGet(r: Row, cols: seq<string>, k: nat, parse: Parser, c: string)
    requires k <= |cols|
    ensures CoerceUpTo(r, cols, k, parse).year == r.year
    ensures Get(CoerceUpTo(r, cols, k, parse), c)
            == if (exists i :: 0 <= i < k && cols[i] == c) && c != YearColumn
               then FromNumeric(Coerce(Get(r, c), parse))
               else Get(r, c)
  {
    if k > 0 {
      CoerceUpToGet(r, cols, k - 1, parse, c);
      CoerceFromNumeric(Coerce(Get(r, c), parse), parse);
    }
  }

  lemma CoerceRowGet(r: Row, cols: seq<string>, parse: Parser, c: string)
    ensures CoerceRow(r, cols, parse).year == r.year
    ensures Get(CoerceRow(r, cols, parse), c)
            == if c in cols && c != YearColumn then FromNumeric(Coerce(Get(r, c), parse)) else Get(r, c)
  {
    CoerceUpToGet(r, cols, |cols|, parse, c);
  }

  /** A row whose listed non-Year cells are already numbers is unchanged. */
  lemma {:induction false} CoerceUpToFixes(r: Row, cols: seq<string>, k: nat, parse: Parser)
    requires k <= |cols|
    requires forall c :: c in cols && c != YearColumn ==> Get(r, c).Num?
    ensures CoerceUpTo(r, cols, k, parse) == r
  {
    if k > 0 {
      CoerceUpToFixes(r, cols, k - 1, parse);
      var c := cols[k - 1];
      if c != YearColumn {
        assert c in cols;
        assert r.cells[c := FromNumeric(Coerce(Get(r, c), parse))] == r.cells;
      }
    }
  }

  function CoerceRows(rows: seq<Row>, cols: seq<string>, parse: Parser): (out: seq<Row>)
    ensures |out| == |rows|
  {
    seq(|rows|, i requires 0 <= i < |rows| => CoerceRow(rows[i], cols, parse))
  }

  /** `_convert_numeric`: overwrites one column of every row per step. */
  method ConvertNumeric(rows: seq<Row>, cols: seq<string>, parse: Parser) returns (out: seq<Row>)
    ensures out == CoerceRows(rows, cols, parse)
  {
    out := rows;
    var k := 0;
    while k < |cols|
      invariant 0 <= k <= |cols| && |out| == |rows|
      invariant forall i :: 0 <= i < |rows| ==> out[i] == CoerceUpTo(rows[i], cols, k, parse)
    {
      var col := cols[k];
      if col != YearColumn {
        out := seq(|out|, i requires 0 <= i < |out| => CoerceColumn(out[i], col, parse));
      }
      k := k + 1;
    }
  }

  /** `dropna(subset=required)`. */
  function DropIncomplete(rows: seq<Row>, required: seq<string>): seq<Row>
  {
    if rows == [] then []
    else
      var last := rows[|rows| - 1];
      DropIncomplete(rows[..|rows| - 1], required) + (if HasNull(last, required) then [] else [last])
  }

  lemma {:induction false} DropIncompleteMembers(rows: seq<Row>, required: seq<string>)
    ensures forall r :: r in DropIncomplete(rows, required) <==> r in rows && !HasNull(r, required)
  {
    if rows != [] {
      var init := rows[..|rows| - 1];
      DropIncompleteMembers(init, required);
      assert rows == init + [rows[|rows| - 1]];
    }
  }

  /** `drop_duplicates(subset="Year")`: the first row of each year stays. */
  function DropDuplicateYears(rows: seq<Row>): seq<Row>
  {
    if rows == [] then []
    else
      var init := rows[..|rows| - 1];
      var last := rows[|rows| - 1];
      DropDuplicateYears(init) + (if last.year in YearsOf(init) then [] else [last])
  }

  predicate DistinctYears(rows: seq<Row>)
  {
    forall i, j :: 0 <= i < j < |rows| ==> rows[i].year != rows[j].year
  }

  lemma YearsOfSnoc(rows: seq<Row>, x: Row)
    ensures YearsOf(rows + [x]) == YearsOf(rows) + {x.year}
  {
    assert (rows + [x])[..|rows|] == rows;
  }

  lemma {:induction false} DropDuplicateYearsSubset(rows: seq<Row>)
    ensures forall r :: r in DropDuplicateYears(rows) ==> r in rows
  {
    if rows != [] {
      var init := rows[..|rows| - 1];
      DropDuplicateYearsSubset(init);
      assert rows == init + [rows[|rows| - 1]];
    }
  }

  lemma {:induction false} DropDuplicateYearsKeepsYears(rows: seq<Row>)
    ensures YearsOf(DropDuplicateYears(rows)) == YearsOf(rows)
  {
    if rows != [] {
      var init := rows[..|rows| - 1];
      var last := rows[|rows| - 1];
      DropDuplicateYearsKeepsYears(init);
      assert YearsOf(rows) == YearsOf(init) + {last.year};
      if last.year !in YearsOf(init) {
        assert DropDuplicateYears(rows) == DropDuplicateYears(init) + [last];
        YearsOfSnoc(DropDuplicateYears(init), last);
      } else {
        assert DropDuplicateYears(rows) == DropDuplicateYears(init);
      }
    }
  }

  lemma {:induction false} DropDuplicateYearsDistinct(rows: seq<Row>)
    ensures DistinctYears(DropDuplicateYears(rows))
  {
    if rows != [] {
      var init := rows[..|rows| - 1];
      var last := rows[|rows| - 1];
      var d := DropDuplicateYears(init);
      DropDuplicateYearsDistinct(init);
      if last.year !in YearsOf(init) {
        DropDuplicateYearsKeepsYears(init);
        YearsOfMembers(d);
        var d' := d + [last];
        forall i, j | 0 <= i < j < |d'| ensures d'[i].year != d'[j].year {
          if j == |d| {
            assert d'[i] == d[i];
          } else {
            assert d'[i] == d[i] && d'[j] == d[j];
          }
        }
      }
    }
  }

  /** na_position="last": a NaN year sorts after every number. */
  predicate Before(a: Option<int>, b: Option<int>)
  {
    b.None? || (a.Some? && a.value <= b.value)
  }

  function Insert(r: Row, sorted: seq<Row>): seq<Row>
  {
    if sorted == [] then [r]
    else if Before(r.year, sorted[0].year) then [r] + sorted
    else [sorted[0]] + Insert(r, sorted[1..])
  }

  /** `sort_values("Year")`, as an insertion sort. */
  function SortByYear(rows: seq<Row>): seq<Row>
  {
    if rows == [] then [] else Insert(rows[0], SortByYear(rows[1..]))
  }

  lemma {:induction false} InsertPermutes(r: Row, sorted: seq<Row>)
    ensures multiset(Insert(r, sorted)) == multiset(sorted) + multiset{r}
  {
    if sorted != [] && !Before(r.year, sorted[0].year) {
      InsertPermutes(r, sorted[1..]);
      assert sorted == [sorted[0]] + sorted[1..];
    }
  }

  /** Sorting only reorders the rows. */
  lemma {:induction false} SortByYearPermutes(rows: seq<Row>)
    ensures multiset(SortByYear(rows)) == multiset(rows)
  {
    if rows != [] {
      SortByYearPermutes(rows[1..]);
      InsertPermutes(rows[0], SortByYear(rows[1..]));
      assert rows == [rows[0]] + rows[1..];
    }
  }

  /** Every year present, strictly increasing. */
  predicate Ascending(rows: seq<Row>)
  {
    (forall i :: 0 <= i < |rows| ==> rows[i].year.Some?)
    && forall i, j :: 0 <= i < j < |rows| ==> rows[i].year.value < rows[j].year.value
  }

  /** Every row of `rows` has a present year above `y`. */
  predicate AllAfter(y: int, rows: seq<Row>)
  {
    forall x :: x in rows ==> x.year.Some? && y < x.year.value
  }

  lemma AscendingCons(x: Row, rows: seq<Row>)
    requires Ascending(rows) && x.year.Some? && AllAfter(x.year.value, rows)
    ensures Ascending([x] + rows)
  {
    var out := [x] + rows;
    forall i | 0 < i < |out| ensures out[i] == rows[i - 1] && out[i] in rows {
    }
  }

  lemma AscendingTail(rows: seq<Row>)
    requires Ascending(rows) && rows != []
    ensures Ascending(rows[1..]) && AllAfter(rows[0].year.value, rows[1..])
  {
    var rest := rows[1..];
    assert forall i :: 0 <= i < |rest| ==> rest[i] == rows[i + 1];
    forall x | x in rest ensures x.year.Some? && rows[0].year.value < x.year.value {
      var m :| 0 <= m < |rest| && rest[m] == x;
    }
  }

  lemma {:induction false} InsertAscending(r: Row, sorted: seq<Row>)
    requires Ascending(sorted) && r.year.Some?
    requires forall x :: x in sorted ==> x.year != r.year
    ensures Ascending(Insert(r, sorted))
  {
    if sorted == [] {
      assert Insert(r, sorted) == [r];
    } else {
      AscendingTail(sorted);
      var s0 := sorted[0];
      assert sorted == [s0] + sorted[1..];
      if Before(r.year, s0.year) {
        assert r.year != s0.year;
        assert AllAfter(r.year.value, sorted);
        AscendingCons(r, sorted);
      } else {
        InsertAscending(r, sorted[1..]);
        var rest := Insert(r, sorted[1..]);
        InsertPermutes(r, sorted[1..]);
        forall x | x in rest ensures x.year.Some? && s0.year.value < x.year.value {
          assert x in multiset(rest);
        }
        AscendingCons(s0, rest);
      }
    }
  }

  /** Rows with distinct, present years come out strictly ascending. */
  lemma {:induction false} SortByYearAscending(rows: seq<Row>)
    requires DistinctYears(rows)
    requires forall i :: 0 <= i < |rows| ==> rows[i].year.Some?
    ensures Ascending(SortByYear(rows))
  {
    if rows != [] {
      var rest := rows[1..];
      assert DistinctYears(rest) by {
        forall i, j | 0 <= i < j < |rest| ensures rest[i].year != rest[j].year {
          assert rest[i] == rows[i + 1] && rest[j] == rows[j + 1];
        }
      }
      assert forall i :: 0 <= i < |rest| ==> rest[i] == rows[i + 1];
      SortByYearAscending(rest);
      var sorted := SortByYear(rest);
      SortByYearPermutes(rest);
      forall x | x in sorted ensures x.year != rows[0].year && x.year.Some? {
        assert x in multiset(rest);
        var m :| 0 <= m < |rest| && rest[m] == x;
        assert rows[m + 1] == x;
      }
      if sorted != [] {
        assert sorted[0] in sorted;
      }
      InsertAscending(rows[0], sorted);
    }
  }

  /** Sorting leaves an already ascending table alone. */
  lemma {:induction false} SortByYearFixesAscending(rows: seq<Row>)
    requires Ascending(rows)
    ensures SortByYear(rows) == rows
  {
    if rows != [] {
      var rest := rows[1..];
      assert Ascending(rest) by {
        forall i, j | 0 <= i < j < |rest|
          ensures rest[i].year.Some? && rest[j].year.Some? && rest[i].year.value < rest[j].year.value
        {
          assert rest[i] == rows[i + 1] && rest[j] == rows[j + 1];
        }
      }
      SortByYearFixesAscending(rest);
      if rest != [] {
        assert rest[0] == rows[1];
      }
      assert rows == [rows[0]] + rest;
    }
  }

  /** Row `p` is complete and no earlier complete row has its year. */
  predicate FirstComplete(rows: seq<Row>, p: nat, required: seq<string>)
    requires p < |rows|
  {
    !HasNull(rows[p], required)
    && forall q :: 0 <= q < p && !HasNull(rows[q], required) ==> rows[q].year != rows[p].year
  }

  /** The years left after dropping incomplete rows are those of the
      complete rows. */
  lemma CompleteYears(rows: seq<Row>, required: seq<string>, y: Option<int>)
    ensures y in YearsOf(DropIncomplete(rows, required))
            <==> exists q :: 0 <= q < |rows| && !HasNull(rows[q], required) && rows[q].year == y
  {
    var k := DropIncomplete(rows, required);
    DropIncompleteMembers(rows, required);
    YearsOfMembers(k);
    if y in YearsOf(k) {
      var m :| 0 <= m < |k| && k[m].year == y;
      assert k[m] in k;
    }
    if exists q :: 0 <= q < |rows| && !HasNull(rows[q], required) && rows[q].year == y {
      var q :| 0 <= q < |rows| && !HasNull(rows[q], required) && rows[q].year == y;
      assert rows[q] in rows;
      var m :| 0 <= m < |k| && k[m] == rows[q];
    }
  }

  /** Deduplication runs after incomplete rows are dropped, so the row kept
      for a year is its first complete row. */
  lemma {:induction false} DropThenDedupMembers(rows: seq<Row>, required: seq<string>)
    ensures forall r :: r in DropDuplicateYears(DropIncomplete(rows, required))
              <==> exists p :: 0 <= p < |rows| && rows[p] == r && FirstComplete(rows, p, required)
  {
    if rows != [] {
      var n := |rows| - 1;
      var init := rows[..n];
      var x := rows[n];
      DropThenDedupMembers(init, required);
      assert forall q :: 0 <= q < n ==> init[q] == rows[q];
      forall p | 0 <= p < n ensures FirstComplete(rows, p, required) == FirstComplete(init, p, required) {
      }
      var k := DropIncomplete(init, required);
      if HasNull(x, required) {
        assert DropIncomplete(rows, required) == k;
      } else {
        assert DropIncomplete(rows, required) == k + [x];
        assert (k + [x])[..|k|] == k;
        CompleteYears(init, required, x.year);
        assert FirstComplete(rows, n, required) <==> x.year !in YearsOf(k);
      }
    }
  }

  /** The rows `validate_*` returns. */
  function Clean(rows: seq<Row>, required: seq<string>, parse: Parser): seq<Row>
  {
    SortByYear(DropDuplicateYears(DropIncomplete(CoerceRows(rows, required, parse), required)))
  }

  /** The row kept for each year is that year's first complete row after
      conversion, and no other row is kept. */
  lemma CleanSurvivors(rows: seq<Row>, required: seq<string>, parse: Parser, r: Row)
    ensures var converted := CoerceRows(rows, required, parse);
            r in Clean(rows, required, parse)
            <==> exists p :: 0 <= p < |converted| && converted[p] == r && FirstComplete(converted, p, required)
  {
    var converted := CoerceRows(rows, required, parse);
    var kept := DropDuplicateYears(DropIncomplete(converted, required));
    DropThenDedupMembers(converted, required);
    SortByYearPermutes(kept);
    assert r in Clean(rows, required, parse) <==> r in multiset(Clean(rows, required, parse));
    assert r in kept <==> r in multiset(kept);
  }

  /** Each row of the cleaned table is an input row with its required
      non-Year cells converted to numbers; every other cell, and the year,
      is passed through unchanged. With Year required, the year is present. */
  lemma CleanRowShape(rows: seq<Row>, required: seq<string>, parse: Parser, r: Row)
    requires r in Clean(rows, required, parse)
    ensures !HasNull(r, required)
    ensures YearColumn in required ==> r.year.Some?
    ensures forall c :: c in required && c != YearColumn ==> Get(r, c).Num?
    ensures exists i :: 0 <= i < |rows| && r.year == rows[i].year
              && forall c :: Get(r, c) == if c in required && c != YearColumn
                                         then FromNumeric(Coerce(Get(rows[i], c), parse))
                                         else Get(rows[i], c)
  {
    var converted := CoerceRows(rows, required, parse);
    var k := DropIncomplete(converted, required);
    var kept := DropDuplicateYears(k);
    SortByYearPermutes(kept);
    assert r in multiset(kept);
    DropDuplicateYearsSubset(k);
    DropIncompleteMembers(converted, required);
    assert r in converted && !HasNull(r, required);
    var i :| 0 <= i < |converted| && converted[i] == r;
    HasNullMeans(r, required);
    forall c ensures Get(r, c) == if c in required && c != YearColumn
                                  then FromNumeric(Coerce(Get(rows[i], c), parse))
                                  else Get(rows[i], c)
    {
      CoerceRowGet(rows[i], required, parse, c);
    }
    CoerceRowGet(rows[i], required, parse, YearColumn);
    if YearColumn in required {
      assert !IsNull(r, YearColumn);
    }
    forall c | c in required && c != YearColumn ensures Get(r, c).Num? {
      assert !IsNull(r, c);
    }
  }

  /** With Year required, the cleaned years are present, distinct and
      strictly ascending. */
  lemma CleanAscending(rows: seq<Row>, required: seq<string>, parse: Parser)
    requires YearColumn in required
    ensures Ascending(Clean(rows, required, parse))
  {
    var converted := CoerceRows(rows, required, parse);
    var k := DropIncomplete(converted, required);
    var kept := DropDuplicateYears(k);
    DropDuplicateYearsDistinct(k);
    DropDuplicateYearsSubset(k);
    DropIncompleteMembers(converted, required);
    forall i | 0 <= i < |kept| ensures kept[i].year.Some? {
      assert kept[i] in kept;
      HasNullMeans(kept[i], required);
      assert !IsNull(kept[i], YearColumn);
    }
    SortByYearAscending(kept);
  }

  // ---------------------------------------------------------------------
  // The validator
  // ---------------------------------------------------------------------

  /** A `ValueError` with its message, or the cleaned frame and the
      warnings attached to its `attrs`. */
  datatype Outcome = Failure(message: string) | Success(table: Table, warnings: seq<string>)

  function SchemaError(name: string, missing: seq<string>): string
  {
    name + " missing mandatory columns: " + ListRepr(QuotedAll(missing))
  }

  /** `validate_income_statement` / `validate_balance_sheet` for a given
      required list and statement name. */
  function Validation(t: Table, required: seq<string>, name: string, mode: string, parse: Parser): (o: Outcome)
    ensures o.Failure? <==> MissingColumns(t.columns, required) != []
                            || (mode == "strict" && Anomalies(t.rows, required, parse) != [])
    ensures o.Success? ==> o.table == Table(t.columns, Clean(t.rows, required, parse))
    ensures o.Success? ==> (o.warnings != [] <==> mode == "auto_clean_warn" && Anomalies(t.rows, required, parse) != [])
    ensures o.Success? ==> o.warnings == if mode == "auto_clean_warn" then AnomalyMessages(t.rows, required, parse) else []
    ensures MissingColumns(t.columns, required) != []
            ==> o == Failure(SchemaError(name, MissingColumns(t.columns, required)))
    ensures MissingColumns(t.columns, required) == [] && mode == "strict" && Anomalies(t.rows, required, parse) != []
            ==> o == Failure(Join(AnomalyMessages(t.rows, required, parse), " | "))
  {
    var missing := MissingColumns(t.columns, required);
    if missing != [] then Failure(SchemaError(name, missing))
    else
      var messages := AnomalyMessages(t.rows, required, parse);
      if messages != [] && mode == "strict" then Failure(Join(messages, " | "))
      else
        var warnings := if messages != [] && mode == "auto_clean_warn" then messages else [];
        Success(Table(t.columns, Clean(t.rows, required, parse)), warnings)
  }

  /** The straight-line body shared by both validators. */
  method Validate(t: Table, required: seq<string>, name: string, mode: string, parse: Parser) returns (outcome: Outcome)
    ensures outcome == Validation(t, required, name, mode, parse)
  {
    var missing := MissingColumns(t.columns, required);
    if missing != [] {
      return Failure(SchemaError(name, missing));
    }
    var anomalies := CollectAnomalies(t.rows, required, parse);
    if anomalies != [] && mode == "strict" {
      return Failure(Join(anomalies, " | "));
    }
    var rows := ConvertNumeric(t.rows, required, parse);
    rows := DropIncomplete(rows, required);
    rows := DropDuplicateYears(rows);
    rows := SortByYear(rows);
    var warnings: seq<string> := [];
    if anomalies != [] && mode == "auto_clean_warn" {
      warnings := anomalies;
    }
    outcome := Success(Table(t.columns, rows), warnings);
  }

  /** `mode` defaults to `auto_clean_warn`, as the keyword default does. */
  method ValidateIncomeStatement(t: Table, parse: Parser, mode: string := "auto_clean_warn") returns (outcome: Outcome)
    ensures outcome == Validation(t, IncomeMandatoryColumns, "Income Statement", mode, parse)
  {
    outcome := Validate(t, IncomeMandatoryColumns, "Income Statement", mode, parse);
  }

  /** `mode` defaults to `auto_clean_warn`, as the keyword default does. */
  method ValidateBalanceSheet(t: Table, parse: Parser, mode: string := "auto_clean_warn") returns (outcome: Outcome)
    ensures outcome == Validation(t, BalanceMandatoryColumns, "Balance Sheet", mode, parse)
  {
    outcome := Validate(t, BalanceMandatoryColumns, "Balance Sheet", mode, parse);
  }

  /** Without anomalies `strict` returns what every other mode returns, and
      a mode string other than `strict` and `auto_clean_warn` acts as
      `auto_clean`. */
  lemma ModesCompared(t: Table, required: seq<string>, name: string, mode: string, parse: Parser)
    ensures Anomalies(t.rows, required, parse) == []
            ==> Validation(t, required, name, "strict", parse) == Validation(t, required, name, mode, parse)
    ensures mode != "strict" && mode != "auto_clean_warn"
            ==> Validation(t, required, name, mode, parse) == Validation(t, required, name, "auto_clean", parse)
  {
  }

  // ---------------------------------------------------------------------
  // Validating a validated table
  // ---------------------------------------------------------------------

  lemma {:induction false} DistinctNoRepeats(rows: seq<Row>)
    requires DistinctYears(rows)
    ensures RepeatedYears(rows) == []
  {
    if rows != [] {
      var init := rows[..|rows| - 1];
      assert DistinctYears(init) by {
        forall i, j | 0 <= i < j < |init| ensures init[i].year != init[j].year {
          assert init[i] == rows[i] && init[j] == rows[j];
        }
      }
      DistinctNoRepeats(init);
      YearsOfMembers(init);
      forall m | 0 <= m < |init| ensures init[m].year != rows[|rows| - 1].year {
        assert rows[m] == init[m];
      }
    }
  }

  lemma {:induction false} NoNonNumeric(rows: seq<Row>, cols: seq<string>, k: nat, parse: Parser)
    requires k <= |cols|
    requires forall i :: 0 <= i < k && cols[i] != YearColumn ==> !HasNonNumeric(rows, cols[i], parse)
    ensures NonNumericUpTo(rows, cols, k, parse) == []
  {
    if k > 0 {
      NoNonNumeric(rows, cols, k - 1, parse);
    }
  }

  lemma {:induction false} DropIncompleteKeeps(rows: seq<Row>, required: seq<string>)
    requires forall i :: 0 <= i < |rows| ==> !HasNull(rows[i], required)
    ensures DropIncomplete(rows, required) == rows
  {
    if rows != [] {
      var init := rows[..|rows| - 1];
      assert forall i :: 0 <= i < |init| ==> init[i] == rows[i];
      DropIncompleteKeeps(init, required);
    }
  }

  lemma {:induction false} DropDuplicateYearsKeepsDistinct(rows: seq<Row>)
    requires DistinctYears(rows)
    ensures DropDuplicateYears(rows) == rows
  {
    if rows != [] {
      var init := rows[..|rows| - 1];
      var last := rows[|rows| - 1];
      assert DistinctYears(init) by {
        forall i, j | 0 <= i < j < |init| ensures init[i].year != init[j].year {
          assert init[i] == rows[i] && init[j] == rows[j];
        }
      }
      DropDuplicateYearsKeepsDistinct(init);
      YearsOfMembers(init);
      forall m | 0 <= m < |init| ensures init[m].year != last.year {
        assert rows[m] == init[m];
      }
      assert last.year !in YearsOf(init);
      assert rows == init + [last];
    }
  }

  lemma CleanRowsComplete(rows: seq<Row>, required: seq<string>, parse: Parser)
    ensures var out := Clean(rows, required, parse);
            forall i :: 0 <= i < |out| ==> !HasNull(out[i], required)
  {
    var out := Clean(rows, required, parse);
    forall i | 0 <= i < |out| ensures !HasNull(out[i], required) {
      CleanRowShape(rows, required, parse, out[i]);
    }
  }

  lemma CleanColumnNumeric(rows: seq<Row>, required: seq<string>, parse: Parser, c: string)
    requires c in required && c != YearColumn
    ensures !HasNonNumeric(Clean(rows, required, parse), c, parse)
  {
    var out := Clean(rows, required, parse);
    forall i | 0 <= i < |out| ensures Get(out[i], c).Num? {
      CleanRowShape(rows, required, parse, out[i]);
    }
    HasNonNumericMeans(out, c, parse);
  }

  /** A cleaned table has no anomalies left. */
  lemma CleanHasNoAnomalies(rows: seq<Row>, required: seq<string>, parse: Parser)
    requires YearColumn in required
    ensures Anomalies(Clean(rows, required, parse), required, parse) == []
  {
    var out := Clean(rows, required, parse);
    CleanRowsComplete(rows, required, parse);
    CountWithNullsPositive(out, required);
    CleanAscending(rows, required, parse);
    DistinctNoRepeats(out);
    forall i | 0 <= i < |required| && required[i] != YearColumn
      ensures !HasNonNumeric(out, required[i], parse)
    {
      CleanColumnNumeric(rows, required, parse, required[i]);
    }
    NoNonNumeric(out, required, |required|, parse);
  }

  /** Cleaning a cleaned table changes nothing. */
  lemma CleanIsIdempotent(rows: seq<Row>, required: seq<string>, parse: Parser)
    requires YearColumn in required
    ensures Clean(Clean(rows, required, parse), required, parse) == Clean(rows, required, parse)
  {
    var out := Clean(rows, required, parse);
    forall i | 0 <= i < |out| ensures CoerceRow(out[i], required, parse) == out[i] {
      CleanRowShape(rows, required, parse, out[i]);
      CoerceUpToFixes(out[i], required, |required|, parse);
    }
    assert CoerceRows(out, required, parse) == out;
    CleanRowsComplete(rows, required, parse);
    DropIncompleteKeeps(out, required);
    CleanAscending(rows, required, parse);
    DropDuplicateYearsKeepsDistinct(out);
    SortByYearFixesAscending(out);
  }

  /** Validating the output of a successful validation, in any mode, gives
      the same table back with no warnings. */
  lemma RevalidationIsIdentity(t: Table, required: seq<string>, name: string, mode: string, mode2: string, parse: Parser)
    requires YearColumn in required
    requires Validation(t, required, name, mode, parse).Success?
    ensures var t' := Validation(t, required, name, mode, parse).table;
            Validation(t', required, name, mode2, parse) == Success(t', [])
  {
    CleanHasNoAnomalies(t.rows, required, parse);
    CleanIsIdempotent(t.rows, required, parse);
  }
}
