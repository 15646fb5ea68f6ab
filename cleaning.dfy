/** `limpiar_datos`: cleaning of one market's catalog table, and the keyword
    filter it shares with the final pass of the loader. */
module Cleaning {
  import opened Wrappers
  import opened Text
  import opened Tables

  /** The sentinel category whose rows are dropped. */
  const OTRO := "Otro"

  /** Why loading or cleaning failed; any failure sends the loader to its fallback. */
  datatype LoadError = ReadFailed | MissingColumn(column: string) | NotText(column: string)

  /** `astype(int)` on a float: truncation toward zero. */
  function Trunc(x: real): (n: int)
    ensures 0.0 <= x ==> n as real <= x < n as real + 1.0
    ensures x < 0.0 ==> n as real - 1.0 < x <= n as real
  {
    if x >= 0.0 then x.Floor else -((-x).Floor)
  }

  /** `fillna(0).astype(int)` on the quantity cell of one row. */
  function FillRow(r: Row): (f: Row)
    ensures f.gramos.Whole? && f == r.(gramos := f.gramos)
    ensures r.gramos.Missing? ==> f.gramos == Whole(0)
    ensures r.gramos.Measured? ==> f.gramos == Whole(Trunc(r.gramos.x))
    ensures r.gramos.Whole? ==> f == r
  {
    match r.gramos
    case Missing => r.(gramos := Whole(0))
    case Measured(x) => r.(gramos := Whole(Trunc(x)))
    case Whole(_) => r
  }

  /** The `gramos/ml` column after `fillna(0).astype(int)`, row by row. */
  function FillQuantity(rows: seq<Row>): (filled: seq<Row>)
    ensures |filled| == |rows|
    ensures forall i :: 0 <= i < |rows| ==> filled[i] == FillRow(rows[i])
    ensures forall r :: r in filled ==> r.gramos.Whole?
  {
    seq(|rows|, i requires 0 <= i < |rows| => FillRow(rows[i]))
  }

  /** `df_clean['país'] = pais` on one row. */
  function StampRow(r: Row, pais: string): (s: Row)
    ensures s.pais == Some(pais) && s.(pais := r.pais) == r
  {
    r.(pais := Some(pais))
  }

  /** The whole `país` column set to the country. */
  function Stamp(rows: seq<Row>, pais: string): (stamped: seq<Row>)
    ensures |stamped| == |rows|
    ensures forall i :: 0 <= i < |rows| ==> stamped[i] == StampRow(rows[i], pais)
    ensures forall r :: r in stamped ==> r.pais == Some(pais)
  {
    seq(|rows|, i requires 0 <= i < |rows| => StampRow(rows[i], pais))
  }

  predicate IsOtro(r: Row)
  {
    r.categoria == Some(OTRO)
  }

  /** `df_clean[df_clean["categoria"] != "Otro"]`; a missing category is kept. */
  function DropOtro(rows: seq<Row>): (kept: seq<Row>)
    ensures forall r :: r in kept <==> r in rows && !IsOtro(r)
    ensures IsSubsequence(kept, rows)
  {
    WhereSubsequence(rows, r => !IsOtro(r));
    Where(rows, r => !IsOtro(r))
  }

  /** `df["nombre"].str.contains(kw, case=False, na=False)` on one row:
      a missing name never matches. */
  predicate Matches(r: Row, kw: string)
    ensures Matches(r, kw) ==> r.nombre.Some?
    ensures r.nombre.Some? ==> (Matches(r, kw) <==> Occurs(r.nombre.value, kw))
  {
    r.nombre.Some? && ContainsIgnoreCase(r.nombre.value, kw)
  }

  predicate MatchesAny(r: Row, keywords: seq<string>)
  {
    exists kw :: kw in keywords && Matches(r, kw)
  }

  /** The rows whose name contains none of the keywords. */
  function Survivors(rows: seq<Row>, keywords: seq<string>): (kept: seq<Row>)
    ensures forall r :: r in kept <==> r in rows && !MatchesAny(r, keywords)
  {
    Where(rows, r => !MatchesAny(r, keywords))
  }

  /** The `for keyword in keywords` loop: one mask per keyword, applied in turn. */
  method DropKeywords(rows: seq<Row>, keywords: seq<string>) returns (kept: seq<Row>)
    ensures kept == Survivors(rows, keywords)
    ensures forall r :: r in kept ==> r in rows && forall kw :: kw in keywords ==> !Matches(r, kw)
  {
    kept := rows;
    SurvivorsNone(rows);
    assert keywords[..0] == [];
    for i := 0 to |keywords|
      invariant kept == Survivors(rows, keywords[..i])
    {
      SurvivorsThenSurvivors(rows, keywords[..i], [keywords[i]]);
      assert keywords[..i + 1] == keywords[..i] + [keywords[i]];
      kept := Survivors(kept, [keywords[i]]);
    }
    assert keywords[..|keywords|] == keywords;
  }

  /** With no keywords nothing is dropped. */
  lemma SurvivorsNone(rows: seq<Row>)
    ensures Survivors(rows, []) == rows
  {
    WhereAll(rows, r => !MatchesAny(r, []));
  }

  /** Filtering by `a` and then by `b` is filtering by `a + b`. */
  lemma SurvivorsThenSurvivors(rows: seq<Row>, a: seq<string>, b: seq<string>)
    ensures Survivors(Survivors(rows, a), b) == Survivors(rows, a + b)
  {
    var p := r => !MatchesAny(r, a);
    var q := r => !MatchesAny(r, b);
    WhereWhere(rows, p, q);
    forall r | r in rows ensures (p(r) && q(r)) == !MatchesAny(r, a + b) {
      if MatchesAny(r, a + b) {
        var kw :| kw in a + b && Matches(r, kw);
        assert kw in a || kw in b;
      }
    }
    WhereAgree(rows, x => p(x) && q(x), r => !MatchesAny(r, a + b));
  }

  /** Only which keywords are in the list matters, not their order or repetitions. */
  lemma SurvivorsSameKeywords(rows: seq<Row>, a: seq<string>, b: seq<string>)
    requires forall kw :: kw in a <==> kw in b
    ensures Survivors(rows, a) == Survivors(rows, b)
  {
    WhereAgree(rows, r => !MatchesAny(r, a), r => !MatchesAny(r, b));
  }

  /** Filtering again by the same keywords removes nothing more. */
  lemma SurvivorsIdempotent(rows: seq<Row>, keywords: seq<string>)
    ensures Survivors(Survivors(rows, keywords), keywords) == Survivors(rows, keywords)
  {
    SurvivorsThenSurvivors(rows, keywords, keywords);
    SurvivorsSameKeywords(rows, keywords + keywords, keywords);
  }

  /** A filter by `a` followed by one by a superset `b` is the filter by `b` alone. */
  lemma SurvivorsSubsumed(rows: seq<Row>, a: seq<string>, b: seq<string>)
    requires forall kw :: kw in a ==> kw in b
    ensures Survivors(Survivors(rows, a), b) == Survivors(rows, b)
  {
    SurvivorsThenSurvivors(rows, a, b);
    SurvivorsSameKeywords(rows, a + b, b);
  }

  /** The keyword filter never drops a row whose name is missing (`na=False`). */
  lemma SurvivorsKeepMissingNames(rows: seq<Row>, keywords: seq<string>, r: Row)
    requires r in rows && r.nombre.None?
    ensures r in Survivors(rows, keywords)
  {
  }

  /** The keyword filter commutes with stamping the country, which leaves names alone. */
  lemma {:induction false} SurvivorsStamp(rows: seq<Row>, keywords: seq<string>, pais: string)
    ensures Survivors(Stamp(rows, pais), keywords) == Stamp(Survivors(rows, keywords), pais)
    decreases |rows|
  {
    if rows != [] {
      SurvivorsStamp(rows[1..], keywords, pais);
      assert Stamp(rows, pais)[1..] == Stamp(rows[1..], pais);
      assert MatchesAny(StampRow(rows[0], pais), keywords) == MatchesAny(rows[0], keywords) by {
        assert forall kw :: Matches(StampRow(rows[0], pais), kw) == Matches(rows[0], kw);
      }
      var tail := Survivors(rows[1..], keywords);
      if MatchesAny(rows[0], keywords) {
        assert Survivors(rows, keywords) == tail;
      } else {
        assert Survivors(rows, keywords) == [rows[0]] + tail;
        assert Stamp([rows[0]] + tail, pais) == [StampRow(rows[0], pais)] + Stamp(tail, pais);
      }
    }
  }
  /** What cleaning makes of a row that survives it. */
  function Fixed(s: Row, pais: string): Row
  {
    StampRow(FillRow(s), pais)
  }

  /** Whether a row survives cleaning, given the columns of its table. */
  predicate Kept(columns: seq<string>, s: Row, keywords: seq<string>)
  {
    (CATEGORIA in columns ==> !IsOtro(s)) && !MatchesAny(s, keywords)
  }

  /** `limpiar_datos(df, pais, keywords_pack)` as a value. Reading `gramos/ml` fails
      when the table has no such column; the keyword loop fails when there is no
      `nombre` column, or when that column is not of string dtype (`.str` raises). */
  function Clean(t: Table, pais: string, keywords: seq<string>): (r: Result<Table, LoadError>)
    ensures r.Failure? <==>
      GRAMOS !in t.columns || (|keywords| > 0 && (NOMBRE !in t.columns || !t.textNames))
    ensures r.Success? ==>
      r.value.columns == AddColumn(t.columns, PAIS) && r.value.textNames == t.textNames &&
      |r.value.rows| <= |t.rows|
  {
    if GRAMOS !in t.columns then Failure(MissingColumn(GRAMOS))
    else if |keywords| > 0 && NOMBRE !in t.columns then Failure(MissingColumn(NOMBRE))
    else if |keywords| > 0 && !t.textNames then Failure(NotText(NOMBRE))
    else
      Success(Table(AddColumn(t.columns, PAIS), Stamp(Survivors(Categorised(t), keywords), pais),
        t.textNames))
  }

  /** The rows after filling quantities and, when the column exists, dropping "Otro". */
  function Categorised(t: Table): seq<Row>
  {
    var filled := FillQuantity(t.rows);
    if CATEGORIA in t.columns then DropOtro(filled) else filled
  }

  /** The step-by-step cleaning of one market's table. */
  method LimpiarDatos(df: Table, pais: string, keywordsPack: seq<string>)
      returns (r: Result<Table, LoadError>)
    ensures r == Clean(df, pais, keywordsPack)
    ensures r.Failure? <==>
      GRAMOS !in df.columns || (|keywordsPack| > 0 && (NOMBRE !in df.columns || !df.textNames))
    ensures r.Success? ==> forall row :: row in r.value.rows ==>
      row.pais == Some(pais) && row.gramos.Whole? && !MatchesAny(row, keywordsPack) &&
      (CATEGORIA in df.columns ==> !IsOtro(row))
  {
    if GRAMOS !in df.columns {
      return Failure(MissingColumn(GRAMOS));
    }
    var rows := FillQuantity(df.rows);
    if CATEGORIA in df.columns {
      rows := DropOtro(rows);
    }
    if |keywordsPack| > 0 && NOMBRE !in df.columns {
      return Failure(MissingColumn(NOMBRE));
    }
    if |keywordsPack| > 0 && !df.textNames {
      return Failure(NotText(NOMBRE));
    }
    rows := DropKeywords(rows, keywordsPack);
    r := Success(Table(AddColumn(df.columns, PAIS), Stamp(rows, pais), df.textNames));
    CleanGuarantees(df, pais, keywordsPack);
  }

  /** Filling the quantity changes neither the name nor the category. */
  lemma FillRowKeepsKeys(s: Row, keywords: seq<string>)
    ensures MatchesAny(FillRow(s), keywords) == MatchesAny(s, keywords)
    ensures IsOtro(FillRow(s)) == IsOtro(s)
  {
    assert forall kw :: Matches(FillRow(s), kw) == Matches(s, kw);
  }

  /** Every cleaned row comes from an input row that is kept. */
  lemma CleanRowsSound(t: Table, pais: string, keywords: seq<string>, r: Row)
    requires Clean(t, pais, keywords).Success?
    requires r in Clean(t, pais, keywords).value.rows
    ensures exists s :: s in t.rows && Kept(t.columns, s, keywords) && r == Fixed(s, pais)
  {
    var filled := FillQuantity(t.rows);
    var categorised := if CATEGORIA in t.columns then DropOtro(filled) else filled;
    var survivors := Survivors(categorised, keywords);
    var k :| 0 <= k < |survivors| && r == StampRow(survivors[k], pais);
    var x := survivors[k];
    assert x in categorised;
    var j :| 0 <= j < |filled| && x == filled[j];
    FillRowKeepsKeys(t.rows[j], keywords);
    assert Kept(t.columns, t.rows[j], keywords) && r == Fixed(t.rows[j], pais);
  }

  /** Every kept input row appears, cleaned, in the output. */
  lemma CleanRowsComplete(t: Table, pais: string, keywords: seq<string>, s: Row)
    requires Clean(t, pais, keywords).Success?
    requires s in t.rows && Kept(t.columns, s, keywords)
    ensures Fixed(s, pais) in Clean(t, pais, keywords).value.rows
  {
    var out := Clean(t, pais, keywords).value;
    var filled := FillQuantity(t.rows);
    var categorised := if CATEGORIA in t.columns then DropOtro(filled) else filled;
    var survivors := Survivors(categorised, keywords);
    var j :| 0 <= j < |t.rows| && s == t.rows[j];
    FillRowKeepsKeys(s, keywords);
    assert filled[j] == FillRow(s);
    assert FillRow(s) in categorised;
    assert FillRow(s) in survivors;
    var k :| 0 <= k < |survivors| && survivors[k] == FillRow(s);
    assert out.rows[k] == Fixed(s, pais);
  }

  /** Exactly the rows that are not "Otro" and match no keyword survive, each with
      its quantity filled in and its country stamped. */
  lemma CleanRows(t: Table, pais: string, keywords: seq<string>)
    requires Clean(t, pais, keywords).Success?
    ensures forall r :: r in Clean(t, pais, keywords).value.rows <==>
      exists s :: s in t.rows && Kept(t.columns, s, keywords) && r == Fixed(s, pais)
  {
    forall r | r in Clean(t, pais, keywords).value.rows
      ensures exists s :: s in t.rows && Kept(t.columns, s, keywords) && r == Fixed(s, pais)
    {
      CleanRowsSound(t, pais, keywords, r);
    }
    forall s | s in t.rows && Kept(t.columns, s, keywords)
      ensures Fixed(s, pais) in Clean(t, pais, keywords).value.rows
    {
      CleanRowsComplete(t, pais, keywords, s);
    }
  }

  /** What cleaning guarantees of one surviving row. */
  lemma CleanRowFacts(t: Table, pais: string, keywords: seq<string>, row: Row)
    requires Clean(t, pais, keywords).Success?
    requires row in Clean(t, pais, keywords).value.rows
    ensures row.pais == Some(pais) && row.gramos.Whole? && !MatchesAny(row, keywords)
    ensures CATEGORIA in t.columns ==> !IsOtro(row)
    ensures WellFormed(t) ==> RowFits(AddColumn(t.columns, PAIS), row)
    ensures WellFormed(t) && !t.textNames ==> row.nombre.None?
  {
    CleanRowsSound(t, pais, keywords, row);
    var s :| s in t.rows && Kept(t.columns, s, keywords) && row == Fixed(s, pais);
    assert forall kw :: Matches(row, kw) == Matches(s, kw);
  }

  /** Every surviving row carries the country, a whole quantity, no keyword in its
      name and, when the table has categories, a category other than "Otro". */
  lemma CleanGuarantees(t: Table, pais: string, keywords: seq<string>)
    requires Clean(t, pais, keywords).Success?
    ensures forall row :: row in Clean(t, pais, keywords).value.rows ==>
      row.pais == Some(pais) && row.gramos.Whole? && !MatchesAny(row, keywords) &&
      (CATEGORIA in t.columns ==> !IsOtro(row))
    ensures Clean(t, pais, keywords).value.columns == AddColumn(t.columns, PAIS)
  {
    forall row | row in Clean(t, pais, keywords).value.rows
      ensures row.pais == Some(pais) && row.gramos.Whole? && !MatchesAny(row, keywords)
      ensures CATEGORIA in t.columns ==> !IsOtro(row)
    {
      CleanRowFacts(t, pais, keywords, row);
    }
  }

  /** Cleaning a well-formed table gives a well-formed table. */
  lemma CleanWellFormed(t: Table, pais: string, keywords: seq<string>)
    requires WellFormed(t)
    requires Clean(t, pais, keywords).Success?
    ensures WellFormed(Clean(t, pais, keywords).value)
  {
    var out := Clean(t, pais, keywords).value;
    forall row | row in out.rows
      ensures RowFits(out.columns, row)
      ensures !out.textNames ==> row.nombre.None?
    {
      CleanRowFacts(t, pais, keywords, row);
    }
  }

  /** Stamping keeps the order of a subsequence. */
  lemma {:induction false} StampSubsequence(a: seq<Row>, b: seq<Row>, pais: string)
    requires IsSubsequence(a, b)
    ensures IsSubsequence(Stamp(a, pais), Stamp(b, pais))
    decreases |b|
  {
    if a != [] {
      assert Stamp(b, pais)[1..] == Stamp(b[1..], pais);
      if a[0] == b[0] && IsSubsequence(a[1..], b[1..]) {
        StampSubsequence(a[1..], b[1..], pais);
        assert Stamp(a, pais)[1..] == Stamp(a[1..], pais);
      } else {
        StampSubsequence(a, b[1..], pais);
      }
    }
  }

  /** The cleaned rows keep their relative order: they are a subsequence of the
      input rows with quantities filled and the country stamped. */
  lemma CleanKeepsOrder(t: Table, pais: string, keywords: seq<string>)
    requires Clean(t, pais, keywords).Success?
    ensures IsSubsequence(Clean(t, pais, keywords).value.rows, Stamp(FillQuantity(t.rows), pais))
    ensures |Clean(t, pais, keywords).value.rows| <= |t.rows|
  {
    var filled := FillQuantity(t.rows);
    var categorised := if CATEGORIA in t.columns then DropOtro(filled) else filled;
    var survivors := Survivors(categorised, keywords);
    if CATEGORIA in t.columns {
      WhereSubsequence(filled, r => !IsOtro(r));
    } else {
      SubsequenceReflexive(filled);
    }
    WhereSubsequence(categorised, r => !MatchesAny(r, keywords));
    SubsequenceTransitive(survivors, categorised, filled);
    StampSubsequence(survivors, filled, pais);
    SubsequenceLength(Stamp(survivors, pais), Stamp(filled, pais));
  }

  /** Stamping the country commutes with the cleaning mask, which ignores `país`. */
  lemma {:induction false} StampKept(s: seq<Row>, columns: seq<string>, keywords: seq<string>, pais: string)
    ensures Stamp(Where(s, x => Kept(columns, x, keywords)), pais) ==
      Where(Stamp(s, pais), x => Kept(columns, x, keywords))
    decreases |s|
  {
    if s != [] {
      var keep := x => Kept(columns, x, keywords);
      StampKept(s[1..], columns, keywords, pais);
      assert Stamp(s, pais)[1..] == Stamp(s[1..], pais);
      assert keep(StampRow(s[0], pais)) == keep(s[0]) by {
        assert forall kw :: Matches(StampRow(s[0], pais), kw) == Matches(s[0], kw);
      }
      var tail := Where(s[1..], keep);
      if keep(s[0]) {
        assert Where(s, keep) == [s[0]] + tail;
        assert Stamp([s[0]] + tail, pais) == [StampRow(s[0], pais)] + Stamp(tail, pais);
      } else {
        assert Where(s, keep) == tail;
      }
    }
  }

  /** Cleaning is one mask over the filled and stamped input rows: every kept row
      survives, as often as it occurs and in its place. */
  lemma CleanAsOneMask(t: Table, pais: string, keywords: seq<string>)
    requires Clean(t, pais, keywords).Success?
    ensures Clean(t, pais, keywords).value.rows ==
      Where(Stamp(FillQuantity(t.rows), pais), s => Kept(t.columns, s, keywords))
  {
    var filled := FillQuantity(t.rows);
    var keep := x => Kept(t.columns, x, keywords);
    var noKeyword := r => !MatchesAny(r, keywords);
    if CATEGORIA in t.columns {
      var notOtro := r => !IsOtro(r);
      WhereWhere(filled, notOtro, noKeyword);
      WhereAgree(filled, x => notOtro(x) && noKeyword(x), keep);
    } else {
      WhereAgree(filled, noKeyword, keep);
    }
    StampKept(filled, t.columns, keywords, pais);
  }

  /** Cleaning a cleaned table again with the same country and keywords changes nothing. */
  lemma CleanIdempotent(t: Table, pais: string, keywords: seq<string>)
    requires Clean(t, pais, keywords).Success?
    ensures Clean(Clean(t, pais, keywords).value, pais, keywords) == Clean(t, pais, keywords)
  {
    var out := Clean(t, pais, keywords).value;
    CleanGuarantees(t, pais, keywords);
    assert GRAMOS in out.columns;
    assert |keywords| > 0 ==> NOMBRE in out.columns;
    assert (CATEGORIA in out.columns) == (CATEGORIA in t.columns);
    var filled := FillQuantity(out.rows);
    assert filled == out.rows;
    var categorised := if CATEGORIA in out.columns then DropOtro(filled) else filled;
    if CATEGORIA in out.columns {
      WhereAll(filled, r => !IsOtro(r));
    }
    WhereAll(categorised, r => !MatchesAny(r, keywords));
    assert Stamp(out.rows, pais) == out.rows;
  }

  /** Cleaning depends only on which keywords are given, not on their order. */
  lemma CleanSameKeywords(t: Table, pais: string, a: seq<string>, b: seq<string>)
    requires forall kw :: kw in a <==> kw in b
    ensures Clean(t, pais, a) == Clean(t, pais, b)
  {
    if |a| > 0 {
      assert a[0] in b;
    }
    if |b| > 0 {
      assert b[0] in a;
    }
    var filled := FillQuantity(t.rows);
    var categorised := if CATEGORIA in t.columns then DropOtro(filled) else filled;
    SurvivorsSameKeywords(categorised, a, b);
  }
}
