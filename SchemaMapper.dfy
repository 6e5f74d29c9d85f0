/** Column reconciliation: messy user headers are matched to canonical field
    names through a normalised form and per-field synonym lists. */
module SchemaMapper {
  import opened Common

  // ---------------------------------------------------------------------
  // Normalisation
  // ---------------------------------------------------------------------

  /** str.lower() restricted to ASCII. */
  function Lower(c: char): char
  {
    if 'A' <= c <= 'Z' then (c as int + 32) as char else c
  }

  /** The characters the regular expression [^a-z0-9] leaves in place. */
  predicate IsKept(c: char)
  {
    'a' <= c <= 'z' || '0' <= c <= '9'
  }

  predicate IsAsciiAlnum(c: char)
  {
    'a' <= c <= 'z' || 'A' <= c <= 'Z' || '0' <= c <= '9'
  }

  predicate IsNormalized(s: string)
  {
    forall i :: 0 <= i < |s| ==> IsKept(s[i])
  }

  /** What one character of the header becomes. */
  function Kept(c: char): string
  {
    if IsKept(Lower(c)) then [Lower(c)] else []
  }

  /** Lower-case the header, then drop every character outside [a-z0-9]. */
  function Normalize(s: string): string
  {
    if s == [] then [] else Normalize(s[..|s| - 1]) + Kept(s[|s| - 1])
  }

  /** The result holds only characters of [a-z0-9] and is never longer
      than the header. */
  lemma {:induction false} NormalizeOutput(s: string)
    ensures IsNormalized(Normalize(s)) && |Normalize(s)| <= |s|
  {
    if s != [] {
      NormalizeOutput(s[..|s| - 1]);
    }
  }

  /** Normalisation works character by character, so it keeps the retained
      characters in their original order. */
  lemma {:induction false} NormalizeAppend(a: string, b: string)
    ensures Normalize(a + b) == Normalize(a) + Normalize(b)
  {
    if b == [] {
      assert a + b == a;
    } else {
      var b' := b[..|b| - 1];
      assert (a + b)[..|a + b| - 1] == a + b';
      assert (a + b)[|a + b| - 1] == b[|b| - 1];
      NormalizeAppend(a, b');
    }
  }

  /** One character: an ASCII upper-case letter is lowered and kept, a
      lower-case letter or digit is kept, anything else is dropped. */
  lemma NormalizeChar(c: char)
    ensures 'A' <= c <= 'Z' ==> Normalize([c]) == [(c as int + 32) as char]
    ensures IsKept(c) ==> Normalize([c]) == [c]
    ensures !IsAsciiAlnum(c) ==> Normalize([c]) == []
  {
    assert [c][..0] == [];
  }

  /** A header that is already normalised is left alone. */
  lemma {:induction false} NormalizeFixesNormalized(s: string)
    requires IsNormalized(s)
    ensures Normalize(s) == s
  {
    if s != [] {
      var s' := s[..|s| - 1];
      assert IsNormalized(s') by {
        forall i | 0 <= i < |s'| ensures IsKept(s'[i]) {
          assert s'[i] == s[i];
        }
      }
      NormalizeFixesNormalized(s');
      assert s == s' + [s[|s| - 1]];
    }
  }

  lemma NormalizeIdempotent(s: string)
    ensures Normalize(Normalize(s)) == Normalize(s)
  {
    NormalizeOutput(s);
    NormalizeFixesNormalized(Normalize(s));
  }

  /** No character is dropped exactly when every character is an ASCII
      letter (of either case) or digit. */
  lemma {:induction false} NormalizeKeepsAll(s: string)
    ensures |Normalize(s)| == |s| <==> forall i :: 0 <= i < |s| ==> IsAsciiAlnum(s[i])
  {
    if s != [] {
      var s' := s[..|s| - 1];
      NormalizeKeepsAll(s');
      NormalizeOutput(s');
      if forall i :: 0 <= i < |s| ==> IsAsciiAlnum(s[i]) {
        assert forall i :: 0 <= i < |s'| ==> IsAsciiAlnum(s'[i]) by {
          forall i | 0 <= i < |s'| ensures IsAsciiAlnum(s'[i]) {
            assert s'[i] == s[i];
          }
        }
        assert IsAsciiAlnum(s[|s| - 1]);
      } else {
        var k :| 0 <= k < |s| && !IsAsciiAlnum(s[k]);
        if k < |s| - 1 {
          assert s'[k] == s[k];
        }
      }
    }
  }

  // ---------------------------------------------------------------------
  // Synonym matching
  // ---------------------------------------------------------------------

  /** A dictionary from canonical field to synonym list, in insertion order. */
  type Mapping = seq<(string, seq<string>)>

  predicate Matches(col: string, synonyms: seq<string>)
  {
    Normalize(col) in synonyms
  }

  /** The first user column, in input order, whose normalised form is a
      synonym. */
  function FirstMatch(cols: seq<string>, synonyms: seq<string>): (r: Option<string>)
    ensures r.Some? ==> r.value in cols && Matches(r.value, synonyms)
  {
    if cols == [] then None
    else if Matches(cols[0], synonyms) then Some(cols[0])
    else FirstMatch(cols[1..], synonyms)
  }

  /** Nothing is found exactly when no column matches. */
  lemma {:induction false} FirstMatchNone(cols: seq<string>, synonyms: seq<string>)
    ensures FirstMatch(cols, synonyms).None? <==> forall i :: 0 <= i < |cols| ==> !Matches(cols[i], synonyms)
  {
    if cols != [] {
      FirstMatchNone(cols[1..], synonyms);
      assert forall i :: 1 <= i < |cols| ==> cols[1..][i - 1] == cols[i];
    }
  }

  /** The column found is the one at the first matching position. */
  lemma {:induction false} FirstMatchAt(cols: seq<string>, synonyms: seq<string>, j: nat)
    requires j < |cols| && Matches(cols[j], synonyms)
    requires forall i :: 0 <= i < j ==> !Matches(cols[i], synonyms)
    ensures FirstMatch(cols, synonyms) == Some(cols[j])
  {
    if j > 0 {
      assert !Matches(cols[0], synonyms);
      assert cols[1..][j - 1] == cols[j];
      forall i | 0 <= i < j - 1 ensures !Matches(cols[1..][i], synonyms) {
        assert cols[1..][i] == cols[i + 1];
      }
      FirstMatchAt(cols[1..], synonyms, j - 1);
    }
  }

  /** The converse: a found column sits at a matching position with no
      matching position before it. */
  lemma {:induction false} FirstMatchIsFirst(cols: seq<string>, synonyms: seq<string>)
    requires FirstMatch(cols, synonyms).Some?
    ensures exists j :: 0 <= j < |cols| && cols[j] == FirstMatch(cols, synonyms).value
              && Matches(cols[j], synonyms) && forall i :: 0 <= i < j ==> !Matches(cols[i], synonyms)
  {
    if !Matches(cols[0], synonyms) {
      FirstMatchIsFirst(cols[1..], synonyms);
      var j :| 0 <= j < |cols[1..]| && cols[1..][j] == FirstMatch(cols[1..], synonyms).value
                && Matches(cols[1..][j], synonyms) && forall i :: 0 <= i < j ==> !Matches(cols[1..][i], synonyms);
      assert cols[j + 1] == cols[1..][j];
      forall i | 0 <= i < j + 1 ensures !Matches(cols[i], synonyms) {
        if i > 0 { assert cols[i] == cols[1..][i - 1]; }
      }
    } else {
      assert cols[0] == FirstMatch(cols, synonyms).value;
    }
  }

  /** The column map after the outer loop has visited every field of
      `mapping`, in order; a later field overwrites an earlier binding of
      the same user column. */
  function Build(cols: seq<string>, mapping: Mapping): (m: map<string, string>)
    ensures forall c :: c in m ==> c in cols
  {
    if mapping == [] then map[]
    else
      var m0 := Build(cols, mapping[..|mapping| - 1]);
      var last := mapping[|mapping| - 1];
      match FirstMatch(cols, last.1)
      case None => m0
      case Some(c) => m0[c := last.0]
  }

  /** Every binding comes from some field whose first match is that column. */
  lemma {:induction false} BuildOrigin(cols: seq<string>, mapping: Mapping, c: string)
    requires c in Build(cols, mapping)
    ensures exists k :: 0 <= k < |mapping| && mapping[k].0 == Build(cols, mapping)[c]
              && FirstMatch(cols, mapping[k].1) == Some(c)
  {
    var prefix := mapping[..|mapping| - 1];
    var last := mapping[|mapping| - 1];
    if FirstMatch(cols, last.1) == Some(c) {
      assert mapping[|mapping| - 1].0 == Build(cols, mapping)[c];
    } else {
      BuildOrigin(cols, prefix, c);
      var k :| 0 <= k < |prefix| && prefix[k].0 == Build(cols, prefix)[c]
                && FirstMatch(cols, prefix[k].1) == Some(c);
      assert prefix[k] == mapping[k];
    }
  }

  /** One more field of the dictionary. */
  lemma BuildStep(cols: seq<string>, mapping: Mapping, k: nat)
    requires k < |mapping|
    ensures Build(cols, mapping[..k + 1]) ==
              match FirstMatch(cols, mapping[k].1)
              case None => Build(cols, mapping[..k])
              case Some(c) => Build(cols, mapping[..k])[c := mapping[k].0]
  {
    assert mapping[..k + 1][..k] == mapping[..k];
  }

  /** map_columns: for each canonical field, bind the first matching user
      column and stop scanning (the `break`). */
  method MapColumns(cols: seq<string>, mapping: Mapping) returns (columnMap: map<string, string>)
    ensures columnMap == Build(cols, mapping)
  {
    columnMap := map[];
    var k := 0;
    while k < |mapping|
      invariant 0 <= k <= |mapping|
      invariant columnMap == Build(cols, mapping[..k])
    {
      var (field, synonyms) := mapping[k];
      BuildStep(cols, mapping, k);
      var j := 0;
      ghost var matched := false;
      while j < |cols|
        invariant 0 <= j <= |cols| && !matched
        invariant forall i :: 0 <= i < j ==> !Matches(cols[i], synonyms)
        invariant columnMap == Build(cols, mapping[..k])
      {
        if Normalize(cols[j]) in synonyms {
          FirstMatchAt(cols, synonyms, j);
          columnMap := columnMap[cols[j] := field];
          matched := true;
          break;
        }
        j := j + 1;
      }
      if !matched {
        FirstMatchNone(cols, synonyms);
      }
      k := k + 1;
    }
    assert mapping[..|mapping|] == mapping;
  }

  // ---------------------------------------------------------------------
  // Properties of the column map
  // ---------------------------------------------------------------------

  predicate DistinctFields(mapping: Mapping)
  {
    forall k, l :: 0 <= k < l < |mapping| ==> mapping[k].0 != mapping[l].0
  }

  predicate ListsDisjoint(a: seq<string>, b: seq<string>)
  {
    forall s :: s in a ==> s !in b
  }

  /** No two fields share a synonym. */
  predicate DisjointSynonyms(mapping: Mapping)
  {
    forall k, l :: 0 <= k < l < |mapping| ==> ListsDisjoint(mapping[k].1, mapping[l].1)
  }

  predicate DistinctLabels(cols: seq<string>)
  {
    forall i, j :: 0 <= i < j < |cols| ==> cols[i] != cols[j]
  }

  /** Every canonical field is the value of at most one user column. */
  lemma {:induction false} FieldBoundAtMostOnce(cols: seq<string>, mapping: Mapping)
    requires DistinctFields(mapping)
    ensures forall c, d :: c in Build(cols, mapping) && d in Build(cols, mapping)
              && Build(cols, mapping)[c] == Build(cols, mapping)[d]
              ==> c == d
  {
    if mapping != [] {
      var prefix := mapping[..|mapping| - 1];
      var last := mapping[|mapping| - 1];
      assert forall k :: 0 <= k < |prefix| ==> prefix[k] == mapping[k];
      assert DistinctFields(prefix);
      FieldBoundAtMostOnce(cols, prefix);
      var m0 := Build(cols, prefix);
      forall d | d in m0 ensures m0[d] != last.0 {
        BuildOrigin(cols, prefix, d);
      }
    }
  }

  lemma DisjointAt(mapping: Mapping, k: nat, l: nat, s: string)
    requires DisjointSynonyms(mapping) && k < l < |mapping|
    ensures s in mapping[k].1 ==> s !in mapping[l].1
  {
    assert ListsDisjoint(mapping[k].1, mapping[l].1);
  }

  /** With pairwise disjoint synonym lists a binding is never overwritten:
      a field whose synonyms some column matches is bound to its first
      matching column. */
  lemma {:induction false} BuildBindsFirstMatch(cols: seq<string>, mapping: Mapping, k: nat)
    requires DisjointSynonyms(mapping)
    requires k < |mapping| && FirstMatch(cols, mapping[k].1).Some?
    ensures FirstMatch(cols, mapping[k].1).value in Build(cols, mapping)
    ensures Build(cols, mapping)[FirstMatch(cols, mapping[k].1).value] == mapping[k].0
  {
    var prefix := mapping[..|mapping| - 1];
    var last := mapping[|mapping| - 1];
    var c := FirstMatch(cols, mapping[k].1).value;
    if k < |mapping| - 1 {
      assert prefix[k] == mapping[k];
      assert DisjointSynonyms(prefix) by {
        forall i, l | 0 <= i < l < |prefix| ensures ListsDisjoint(prefix[i].1, prefix[l].1) {
          assert prefix[i] == mapping[i] && prefix[l] == mapping[l];
        }
      }
      BuildBindsFirstMatch(cols, prefix, k);
      DisjointAt(mapping, k, |mapping| - 1, Normalize(c));
      assert FirstMatch(cols, last.1) != Some(c);
    }
  }

  /** When no column matches a field's synonyms the field is absent, provided
      no field name occurs twice. */
  lemma BuildOmitsUnmatched(cols: seq<string>, mapping: Mapping, k: nat)
    requires DistinctFields(mapping)
    requires k < |mapping| && FirstMatch(cols, mapping[k].1).None?
    ensures forall c :: c in Build(cols, mapping) ==> Build(cols, mapping)[c] != mapping[k].0
  {
    forall c | c in Build(cols, mapping) ensures Build(cols, mapping)[c] != mapping[k].0 {
      BuildOrigin(cols, mapping, c);
    }
  }

  /** Two distinct user columns that normalise alike: the later one is never
      mapped, because the earlier one wins every field it could match. */
  lemma LaterDuplicateUnmapped(cols: seq<string>, mapping: Mapping, i: nat, j: nat)
    requires DistinctLabels(cols)
    requires i < j < |cols| && Normalize(cols[i]) == Normalize(cols[j])
    ensures cols[j] !in Build(cols, mapping)
  {
    if cols[j] in Build(cols, mapping) {
      BuildOrigin(cols, mapping, cols[j]);
      var k :| 0 <= k < |mapping| && FirstMatch(cols, mapping[k].1) == Some(cols[j]);
      FirstMatchIsFirst(cols, mapping[k].1);
    }
  }

  function Names(mapping: Mapping): (names: seq<string>)
    ensures |names| == |mapping|
    ensures forall k :: 0 <= k < |mapping| ==> names[k] == mapping[k].0
  {
    seq(|mapping|, k requires 0 <= k < |mapping| => mapping[k].0)
  }

  /** With canonical headers, each field's first match is its own name. */
  lemma CanonicalFirstMatch(mapping: Mapping, k: nat)
    requires DisjointSynonyms(mapping) && CanonicalNamesSelfMatch(mapping)
    requires k < |mapping|
    ensures FirstMatch(Names(mapping), mapping[k].1) == Some(mapping[k].0)
  {
    var cols := Names(mapping);
    forall i | 0 <= i < k ensures !Matches(cols[i], mapping[k].1) {
      assert Matches(mapping[i].0, mapping[i].1);
      DisjointAt(mapping, i, k, Normalize(cols[i]));
    }
    assert Matches(mapping[k].0, mapping[k].1);
    FirstMatchAt(cols, mapping[k].1, k);
  }

  /** Headers that already carry the canonical names map to themselves. */
  lemma CanonicalHeadersMapToThemselves(mapping: Mapping)
    requires DisjointSynonyms(mapping) && CanonicalNamesSelfMatch(mapping)
    ensures forall c :: c in Build(Names(mapping), mapping) ==> Build(Names(mapping), mapping)[c] == c
    ensures forall k :: 0 <= k < |mapping| ==> mapping[k].0 in Build(Names(mapping), mapping)
  {
    var cols := Names(mapping);
    var m := Build(cols, mapping);
    forall k | 0 <= k < |mapping| ensures mapping[k].0 in m && m[mapping[k].0] == mapping[k].0 {
      CanonicalFirstMatch(mapping, k);
      BuildBindsFirstMatch(cols, mapping, k);
    }
    forall c | c in m ensures m[c] == c {
      var k :| 0 <= k < |cols| && cols[k] == c;
      assert c == mapping[k].0;
    }
  }

  /** A user column is bound to the last field, in dictionary order, whose
      first match it is: later assignments overwrite earlier ones. */
  lemma {:induction false} LastMatchingFieldWins(cols: seq<string>, mapping: Mapping, l: nat, c: string)
    requires l < |mapping| && FirstMatch(cols, mapping[l].1) == Some(c)
    requires forall j :: l < j < |mapping| ==> FirstMatch(cols, mapping[j].1) != Some(c)
    ensures c in Build(cols, mapping) && Build(cols, mapping)[c] == mapping[l].0
  {
    var n := |mapping| - 1;
    assert mapping[..n + 1] == mapping;
    BuildStep(cols, mapping, n);
    if l < n {
      var prefix := mapping[..n];
      forall j | l < j < |prefix| ensures FirstMatch(cols, prefix[j].1) != Some(c) {
        assert prefix[j] == mapping[j];
      }
      assert prefix[l] == mapping[l];
      LastMatchingFieldWins(cols, prefix, l, c);
    }
  }

  /** When two fields share a synonym, the later field in dictionary order
      takes the column and the earlier one ends up unbound. */
  lemma OverlappingSynonymsOverwrite()
    ensures Build(["Sales"], [("Revenue", ["sales"]), ("Turnover", ["sales"])]) == map["Sales" := "Turnover"]
  {
    var cols := ["Sales"];
    var m: Mapping := [("Revenue", ["sales"]), ("Turnover", ["sales"])];
    NormalizeCapitalized("Sales", "sales");
    assert Matches(cols[0], ["sales"]);
    assert FirstMatch(cols, ["sales"]) == Some("Sales");
    assert m[..1] == [("Revenue", ["sales"])];
    assert m[..1][..0] == [];
    assert Build(cols, m[..1]) == map["Sales" := "Revenue"];
  }

  // ---------------------------------------------------------------------
  // The shipped dictionaries
  // ---------------------------------------------------------------------

  const IncomeStatementMapping: Mapping := [
    ("Year", ["year", "fiscalyear", "fy"]),
    ("Revenue", ["revenue", "sales", "turnover", "netsales"]),
    ("Operating_Expense", ["operatingexpense", "operatingcost", "operatingcosts", "opex", "expenses"]),
    ("Net_Income", ["netincome", "netprofit", "profitaftertax", "pat"])
  ]

  const BalanceSheetMapping: Mapping := [
    ("Year", ["year", "fiscalyear", "fy"]),
    ("Total_Assets", ["totalassets", "assets"]),
    ("Total_Liabilities", ["totalliabilities", "liabilities"]),
    ("Equity", ["equity", "shareholdersequity", "networth"])
  ]

  /** A capitalised word normalises to its lower-case spelling `t`. */
  lemma NormalizeCapitalized(s: string, t: string)
    requires |s| == |t| > 0 && 'A' <= s[0] <= 'Z' && t[0] as int == s[0] as int + 32
    requires s[1..] == t[1..] && IsNormalized(t)
    ensures Normalize(s) == t
  {
    var rest := t[1..];
    assert IsNormalized(rest) by {
      forall i | 0 <= i < |rest| ensures IsKept(rest[i]) {
        assert rest[i] == t[i + 1];
      }
    }
    NormalizeFixesNormalized(rest);
    NormalizeChar(s[0]);
    NormalizeAppend([s[0]], rest);
    assert s == [s[0]] + rest;
    assert t == [t[0]] + rest;
  }

  /** An underscore between two words disappears. */
  lemma NormalizeSnakeCase(a: string, b: string)
    ensures Normalize(a + "_" + b) == Normalize(a) + Normalize(b)
  {
    var u := "_";
    NormalizeChar('_');
    assert Normalize(u) == [];
    NormalizeAppend(a, u);
    assert Normalize(a + u) == Normalize(a);
    NormalizeAppend(a + u, b);
  }

  /** Two capitalised words joined by an underscore normalise to the two
      lower-case spellings run together. */
  lemma NormalizeSnakeWords(s: string, a: string, b: string, la: string, lb: string)
    requires s == a + "_" + b
    requires |a| == |la| > 0 && 'A' <= a[0] <= 'Z' && la[0] as int == a[0] as int + 32
    requires a[1..] == la[1..] && IsNormalized(la)
    requires |b| == |lb| > 0 && 'A' <= b[0] <= 'Z' && lb[0] as int == b[0] as int + 32
    requires b[1..] == lb[1..] && IsNormalized(lb)
    ensures Normalize(s) == la + lb
  {
    NormalizeCapitalized(a, la);
    NormalizeCapitalized(b, lb);
    NormalizeSnakeCase(a, b);
  }

  lemma NormalizeOperatingExpense()
    ensures Normalize("Operating_Expense") == "operatingexpense"
  {
    NormalizeSnakeWords("Operating_Expense", "Operating", "Expense", "operating", "expense");
  }

  lemma NormalizeNetIncome()
    ensures Normalize("Net_Income") == "netincome"
  {
    NormalizeSnakeWords("Net_Income", "Net", "Income", "net", "income");
  }

  lemma NormalizeTotalAssets()
    ensures Normalize("Total_Assets") == "totalassets"
  {
    NormalizeSnakeWords("Total_Assets", "Total", "Assets", "total", "assets");
  }

  lemma NormalizeTotalLiabilities()
    ensures Normalize("Total_Liabilities") == "totalliabilities"
  {
    NormalizeSnakeWords("Total_Liabilities", "Total", "Liabilities", "total", "liabilities");
  }

  /** Each canonical name normalises to one of its own synonyms. */
  predicate CanonicalNamesSelfMatch(mapping: Mapping)
  {
    forall k :: 0 <= k < |mapping| ==> Matches(mapping[k].0, mapping[k].1)
  }

  lemma IncomeMappingDistinct()
    ensures DistinctFields(IncomeStatementMapping)
  {
  }

  /** A four-field dictionary is disjoint when each of its six pairs is. */
  lemma DisjointFromPairs(mapping: Mapping)
    requires |mapping| == 4
    requires ListsDisjoint(mapping[0].1, mapping[1].1) && ListsDisjoint(mapping[0].1, mapping[2].1)
    requires ListsDisjoint(mapping[0].1, mapping[3].1) && ListsDisjoint(mapping[1].1, mapping[2].1)
    requires ListsDisjoint(mapping[1].1, mapping[3].1) && ListsDisjoint(mapping[2].1, mapping[3].1)
    ensures DisjointSynonyms(mapping)
  {
  }

  lemma IncomePair01()
    ensures ListsDisjoint(IncomeStatementMapping[0].1, IncomeStatementMapping[1].1)
  {
  }

  lemma IncomePair02()
    ensures ListsDisjoint(IncomeStatementMapping[0].1, IncomeStatementMapping[2].1)
  {
  }

  lemma IncomePair03()
    ensures ListsDisjoint(IncomeStatementMapping[0].1, IncomeStatementMapping[3].1)
  {
  }

  lemma IncomePair12()
    ensures ListsDisjoint(IncomeStatementMapping[1].1, IncomeStatementMapping[2].1)
  {
  }

  lemma IncomePair13()
    ensures ListsDisjoint(IncomeStatementMapping[1].1, IncomeStatementMapping[3].1)
  {
  }

  lemma IncomePair23()
    ensures ListsDisjoint(IncomeStatementMapping[2].1, IncomeStatementMapping[3].1)
  {
  }

  lemma IncomeMappingDisjoint()
    ensures DisjointSynonyms(IncomeStatementMapping)
  {
    IncomePair01();
    IncomePair02();
    IncomePair03();
    IncomePair12();
    IncomePair13();
    IncomePair23();
    DisjointFromPairs(IncomeStatementMapping);
  }

  lemma IncomeMappingSelfMatch()
    ensures CanonicalNamesSelfMatch(IncomeStatementMapping)
  {
    NormalizeCapitalized("Year", "year");
    NormalizeCapitalized("Revenue", "revenue");
    NormalizeOperatingExpense();
    NormalizeNetIncome();
  }

  lemma BalanceMappingDistinct()
    ensures DistinctFields(BalanceSheetMapping)
  {
  }

  lemma BalancePair01()
    ensures ListsDisjoint(BalanceSheetMapping[0].1, BalanceSheetMapping[1].1)
  {
  }

  lemma BalancePair02()
    ensures ListsDisjoint(BalanceSheetMapping[0].1, BalanceSheetMapping[2].1)
  {
  }

  lemma BalancePair03()
    ensures ListsDisjoint(BalanceSheetMapping[0].1, BalanceSheetMapping[3].1)
  {
  }

  lemma BalancePair12()
    ensures ListsDisjoint(BalanceSheetMapping[1].1, BalanceSheetMapping[2].1)
  {
  }

  lemma BalancePair13()
    ensures ListsDisjoint(BalanceSheetMapping[1].1, BalanceSheetMapping[3].1)
  {
  }

  lemma BalancePair23()
    ensures ListsDisjoint(BalanceSheetMapping[2].1, BalanceSheetMapping[3].1)
  {
  }

  lemma BalanceMappingDisjoint()
    ensures DisjointSynonyms(BalanceSheetMapping)
  {
    BalancePair01();
    BalancePair02();
    BalancePair03();
    BalancePair12();
    BalancePair13();
    BalancePair23();
    DisjointFromPairs(BalanceSheetMapping);
  }

  lemma BalanceMappingSelfMatch()
    ensures CanonicalNamesSelfMatch(BalanceSheetMapping)
  {
    NormalizeCapitalized("Year", "year");
    NormalizeTotalAssets();
    NormalizeTotalLiabilities();
    NormalizeCapitalized("Equity", "equity");
  }

  /** The loader's rename leaves canonical headers as they are. */
  lemma ShippedMappingsFixCanonicalHeaders()
    ensures forall c :: c in Build(Names(IncomeStatementMapping), IncomeStatementMapping)
              ==> Build(Names(IncomeStatementMapping), IncomeStatementMapping)[c] == c
    ensures forall c :: c in Build(Names(BalanceSheetMapping), BalanceSheetMapping)
              ==> Build(Names(BalanceSheetMapping), BalanceSheetMapping)[c] == c
    ensures forall k :: 0 <= k < |IncomeStatementMapping|
              ==> IncomeStatementMapping[k].0 in Build(Names(IncomeStatementMapping), IncomeStatementMapping)
    ensures forall k :: 0 <= k < |BalanceSheetMapping|
              ==> BalanceSheetMapping[k].0 in Build(Names(BalanceSheetMapping), BalanceSheetMapping)
  {
    IncomeMappingDisjoint();
    IncomeMappingSelfMatch();
    CanonicalHeadersMapToThemselves(IncomeStatementMapping);
    BalanceMappingDisjoint();
    BalanceMappingSelfMatch();
    CanonicalHeadersMapToThemselves(BalanceSheetMapping);
  }

  /** A map whose keys are exactly the canonical names, each bound to
      itself, is the identity on those names. */
  lemma IdentityOnNames(m: map<string, string>, mapping: Mapping)
    requires forall c :: c in m ==> c in Names(mapping) && m[c] == c
    requires forall k :: 0 <= k < |mapping| ==> mapping[k].0 in m
    ensures m == map c | c in Names(mapping) :: c
  {
  }

  /** The shipped dictionaries applied to their own canonical headers give
      the identity map on those headers. */
  lemma ShippedCanonicalMaps()
    ensures Build(Names(IncomeStatementMapping), IncomeStatementMapping)
            == map c | c in Names(IncomeStatementMapping) :: c
    ensures Build(Names(BalanceSheetMapping), BalanceSheetMapping)
            == map c | c in Names(BalanceSheetMapping) :: c
  {
    ShippedMappingsFixCanonicalHeaders();
    IdentityOnNames(Build(Names(IncomeStatementMapping), IncomeStatementMapping), IncomeStatementMapping);
    IdentityOnNames(Build(Names(BalanceSheetMapping), BalanceSheetMapping), BalanceSheetMapping);
  }
}
