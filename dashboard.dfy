/** What the dashboard does with the loaded table before drawing anything: the
    required-column check and the per-row `gama` and `precio_eur` columns. */
module Dashboard {
  import opened Wrappers
  import opened Tables
  import opened Pricing
  import opened Loading

  const REQUIRED_COLUMNS := [PAIS, PRECIO]

  /** `[col for col in required if col not in columns]`. */
  function MissingFrom(required: seq<string>, columns: seq<string>): (m: seq<string>)
    ensures forall c :: c in m <==> c in required && c !in columns
    ensures IsSubsequence(m, required)
    decreases |required|
  {
    if required == [] then []
    else
      var rest := MissingFrom(required[1..], columns);
      if required[0] in columns then rest
      else
        var m := [required[0]] + rest;
        assert m[1..] == rest;
        m
  }

  /** The required columns the table lacks, in the order they are listed. */
  function MissingColumns(columns: seq<string>): (m: seq<string>)
    ensures forall c :: c in m <==> c in REQUIRED_COLUMNS && c !in columns
    ensures m == [] <==> PAIS in columns && PRECIO in columns
  {
    var m := MissingFrom(REQUIRED_COLUMNS, columns);
    assert m != [] ==> m[0] in m;
    assert PAIS in REQUIRED_COLUMNS && PRECIO in REQUIRED_COLUMNS;
    m
  }

  /** A row with its `gama` and `precio_eur` cells. */
  datatype PricedRow = PricedRow(row: Row, gama: Gama, precioEur: real)

  /** The country text a row is compared by; a missing cell compares unequal to
      "España", as NaN does, and so does the empty string used for it here. */
  function PaisText(r: Row): (p: string)
    ensures p == ESPANA <==> r.pais == Some(ESPANA)
  {
    match r.pais
    case Some(p) => p
    case None => ""
  }

  /** The `gama` and `precio_eur` cells of one row: the euro price undoes the lei
      conversion outside Spain, and the tier is the one that euro price gets under
      the Spanish thresholds. */
  function Price(r: Row): (p: PricedRow)
    ensures p.row == r
    ensures p.gama == ClasificarGama(p.precioEur, ESPANA)
    ensures r.pais == Some(ESPANA) ==> p.precioEur == r.precio
    ensures r.pais != Some(ESPANA) ==> p.precioEur * TIPO_CAMBIO == r.precio
  {
    GamaFollowsEuroPrice(r.precio, PaisText(r));
    PricedRow(r, ClasificarGama(r.precio, PaisText(r)), PrecioEur(r.precio, PaisText(r)))
  }

  /** The check that stops the page when a required column is missing, followed by
      the two row-wise `apply` calls. */
  function Prepare(t: Table): (p: Result<seq<PricedRow>, seq<string>>)
    ensures p.Failure? <==> PAIS !in t.columns || PRECIO !in t.columns
    ensures p.Failure? ==> p.error == MissingColumns(t.columns) && p.error != []
    ensures p.Success? ==>
      |p.value| == |t.rows| && forall i :: 0 <= i < |t.rows| ==> p.value[i].row == t.rows[i]
    ensures p.Success? ==> forall q :: q in p.value ==>
      q.gama == ClasificarGama(q.precioEur, ESPANA) &&
      (q.row.pais == Some(ESPANA) ==> q.precioEur == q.row.precio) &&
      (q.row.pais != Some(ESPANA) ==> q.precioEur * TIPO_CAMBIO == q.row.precio)
  {
    var missing := MissingColumns(t.columns);
    if missing != [] then Failure(missing)
    else Success(seq(|t.rows|, i requires 0 <= i < |t.rows| => Price(t.rows[i])))
  }

  /** The loaded table always has `país`, so the page stops only for a missing
      `precio` column, and then reports just that column. */
  lemma LoadedTableCheck(es: Option<Table>, ro: Option<Table>)
    ensures Prepare(Load(es, ro)).Failure? <==> PRECIO !in Load(es, ro).columns
    ensures Prepare(Load(es, ro)).Failure? ==> Prepare(Load(es, ro)).error == [PRECIO]
  {
    LoadCountries(es, ro);
    var m := MissingColumns(Load(es, ro).columns);
    if m != [] {
      assert m == MissingFrom([PRECIO], Load(es, ro).columns);
    }
  }
}
