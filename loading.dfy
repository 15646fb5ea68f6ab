/** `load_data`: both markets cleaned, concatenated and filtered once more, with
    the built-in example table as the answer to any failure. */
module Loading {
  import opened Wrappers
  import opened Text
  import opened Tables
  import opened Pricing
  import opened Cleaning

  const KEYWORDS_ES := ["pack", "set", "rutina"]
  const KEYWORDS_RO := ["pachet", "pack", "set", "rutina"]
  const KEYWORDS_COMBINADAS := ["pack", "set", "rutina", "pachet", "kit", "combo"]

  /** The example data returned when anything in the loading fails. */
  const FALLBACK := Table(
    [PAIS, "categoria_general", PRECIO, NOMBRE],
    [ Row(Some("Crema Facial"), None, Missing, 15.90, Some(ESPANA)),
      Row(Some("Gel de Ducha"), None, Missing, 8.50, Some(ESPANA)),
      Row(Some("Crema Facial"), None, Missing, 79.90, Some(RUMANIA)),
      Row(Some("Gel de Ducha"), None, Missing, 45.50, Some(RUMANIA)) ],
    true)

  /** The example table: two products in each country, every row fitting its columns. */
  lemma FallbackShape()
    ensures |FALLBACK.rows| == 4 && WellFormed(FALLBACK)
    ensures NOMBRE in FALLBACK.columns && PAIS in FALLBACK.columns && PRECIO in FALLBACK.columns
    ensures GRAMOS !in FALLBACK.columns && CATEGORIA !in FALLBACK.columns
    ensures forall i :: 0 <= i < 4 ==>
      FALLBACK.rows[i].pais == Some(if i < 2 then ESPANA else RUMANIA)
  {
  }

  /** `load_data` as a value: `es` and `ro` are the parsed files, `None` when reading
      one of them failed. */
  function Load(es: Option<Table>, ro: Option<Table>): (t: Table)
    ensures forall r :: r in t.rows ==> !MatchesAny(r, KEYWORDS_COMBINADAS)
    ensures es.None? || ro.None? ==> t == FALLBACK
    ensures es.Some? && ro.Some? ==>
      (Clean(es.value, ESPANA, KEYWORDS_ES).Failure? || Clean(ro.value, RUMANIA, KEYWORDS_RO).Failure?) ==>
      t == FALLBACK
  {
    FallbackExcludesKeywords();
    if es.None? || ro.None? then FALLBACK
    else
      match (Clean(es.value, ESPANA, KEYWORDS_ES), Clean(ro.value, RUMANIA, KEYWORDS_RO))
      case (Success(a), Success(b)) =>
        var combined := Concat(a, b);
        Table(combined.columns, Survivors(combined.rows, KEYWORDS_COMBINADAS), combined.textNames)
      case _ => FALLBACK
  }

  method LoadData(es: Option<Table>, ro: Option<Table>) returns (t: Table)
    ensures t == Load(es, ro)
    ensures es.None? || ro.None? ==> t == FALLBACK
    ensures forall r :: r in t.rows ==> !MatchesAny(r, KEYWORDS_COMBINADAS)
  {
    if es.None? || ro.None? {
      return FALLBACK;
    }
    var esClean := LimpiarDatos(es.value, ESPANA, KEYWORDS_ES);
    if esClean.Failure? {
      return FALLBACK;
    }
    var roClean := LimpiarDatos(ro.value, RUMANIA, KEYWORDS_RO);
    if roClean.Failure? {
      return FALLBACK;
    }
    var combined := Concat(esClean.value, roClean.value);
    var rows := DropKeywords(combined.rows, KEYWORDS_COMBINADAS);
    t := Table(combined.columns, rows, combined.textNames);
  }

  /** The fallback name "Crema Facial" contains no combined keyword. */
  lemma CremaFacialClean()
    ensures !ContainsFrom("Crema Facial", "pack", 0) && !ContainsFrom("Crema Facial", "set", 0)
    ensures !ContainsFrom("Crema Facial", "rutina", 0) && !ContainsFrom("Crema Facial", "pachet", 0)
    ensures !ContainsFrom("Crema Facial", "kit", 0) && !ContainsFrom("Crema Facial", "combo", 0)
  {
  }

  /** The fallback name "Gel de Ducha" contains no combined keyword. */
  lemma GelDeDuchaClean()
    ensures !ContainsFrom("Gel de Ducha", "pack", 0) && !ContainsFrom("Gel de Ducha", "set", 0)
    ensures !ContainsFrom("Gel de Ducha", "rutina", 0) && !ContainsFrom("Gel de Ducha", "pachet", 0)
    ensures !ContainsFrom("Gel de Ducha", "kit", 0) && !ContainsFrom("Gel de Ducha", "combo", 0)
  {
  }

  /** The fallback rows pass the combined keyword filter. */
  lemma FallbackExcludesKeywords()
    ensures forall r :: r in FALLBACK.rows ==> !MatchesAny(r, KEYWORDS_COMBINADAS)
  {
    CremaFacialClean();
    GelDeDuchaClean();
    assert forall kw :: kw in KEYWORDS_COMBINADAS ==>
      !ContainsIgnoreCase("Crema Facial", kw) && !ContainsIgnoreCase("Gel de Ducha", kw);
    assert forall r :: r in FALLBACK.rows ==>
      r.nombre == Some("Crema Facial") || r.nombre == Some("Gel de Ducha");
  }

  /** When both files load and clean, the table is the keyword-filtered concatenation
      of the Spanish rows followed by the Romanian rows, and no longer than the inputs. */
  lemma LoadCombined(es: Table, ro: Table)
    requires Clean(es, ESPANA, KEYWORDS_ES).Success? && Clean(ro, RUMANIA, KEYWORDS_RO).Success?
    ensures Load(Some(es), Some(ro)).rows ==
      Survivors(Clean(es, ESPANA, KEYWORDS_ES).value.rows, KEYWORDS_COMBINADAS) +
      Survivors(Clean(ro, RUMANIA, KEYWORDS_RO).value.rows, KEYWORDS_COMBINADAS)
    ensures |Load(Some(es), Some(ro)).rows| <= |es.rows| + |ro.rows|
  {
    var a := Clean(es, ESPANA, KEYWORDS_ES).value;
    var b := Clean(ro, RUMANIA, KEYWORDS_RO).value;
    WhereConcat(a.rows, b.rows, r => !MatchesAny(r, KEYWORDS_COMBINADAS));
    CleanKeepsOrder(es, ESPANA, KEYWORDS_ES);
    CleanKeepsOrder(ro, RUMANIA, KEYWORDS_RO);
  }

  /** The market lists are contained in the combined list, so the final pass alone
      decides: the table is what cleaning both markets with the combined list gives. */
  lemma LoadMarketListsSubsumed(es: Table, ro: Table)
    requires Clean(es, ESPANA, KEYWORDS_ES).Success? && Clean(ro, RUMANIA, KEYWORDS_RO).Success?
    ensures Clean(es, ESPANA, KEYWORDS_COMBINADAS).Success?
    ensures Clean(ro, RUMANIA, KEYWORDS_COMBINADAS).Success?
    ensures Load(Some(es), Some(ro)).rows ==
      Clean(es, ESPANA, KEYWORDS_COMBINADAS).value.rows +
      Clean(ro, RUMANIA, KEYWORDS_COMBINADAS).value.rows
  {
    LoadCombined(es, ro);
    SurvivorsStamp(Survivors(Categorised(es), KEYWORDS_ES), KEYWORDS_COMBINADAS, ESPANA);
    SurvivorsSubsumed(Categorised(es), KEYWORDS_ES, KEYWORDS_COMBINADAS);
    SurvivorsStamp(Survivors(Categorised(ro), KEYWORDS_RO), KEYWORDS_COMBINADAS, RUMANIA);
    SurvivorsSubsumed(Categorised(ro), KEYWORDS_RO, KEYWORDS_COMBINADAS);
  }

  /** Every loaded row belongs to Spain or Romania and the table has a `país` column. */
  lemma LoadCountries(es: Option<Table>, ro: Option<Table>)
    ensures PAIS in Load(es, ro).columns
    ensures forall r :: r in Load(es, ro).rows ==> r.pais == Some(ESPANA) || r.pais == Some(RUMANIA)
  {
    if es.Some? && ro.Some? &&
       Clean(es.value, ESPANA, KEYWORDS_ES).Success? && Clean(ro.value, RUMANIA, KEYWORDS_RO).Success? {
      CleanGuarantees(es.value, ESPANA, KEYWORDS_ES);
      CleanGuarantees(ro.value, RUMANIA, KEYWORDS_RO);
    }
  }

  /** Loading well-formed files gives a well-formed table. */
  lemma LoadWellFormed(es: Option<Table>, ro: Option<Table>)
    requires es.Some? ==> WellFormed(es.value)
    requires ro.Some? ==> WellFormed(ro.value)
    ensures WellFormed(Load(es, ro))
  {
    if es.Some? && ro.Some? &&
       Clean(es.value, ESPANA, KEYWORDS_ES).Success? && Clean(ro.value, RUMANIA, KEYWORDS_RO).Success? {
      var a := Clean(es.value, ESPANA, KEYWORDS_ES).value;
      var b := Clean(ro.value, RUMANIA, KEYWORDS_RO).value;
      CleanWellFormed(es.value, ESPANA, KEYWORDS_ES);
      CleanWellFormed(ro.value, RUMANIA, KEYWORDS_RO);
      ConcatWellFormed(a, b);
    }
  }

  /** Once both markets are cleaned, the combined table has a string `nombre`
      column, so the final keyword pass never fails. */
  lemma FinalPassReadsText(es: Table, ro: Table)
    requires Clean(es, ESPANA, KEYWORDS_ES).Success? && Clean(ro, RUMANIA, KEYWORDS_RO).Success?
    ensures var c := Concat(Clean(es, ESPANA, KEYWORDS_ES).value, Clean(ro, RUMANIA, KEYWORDS_RO).value);
      NOMBRE in c.columns && c.textNames
  {
  }

  /** A product named "Gift Set Deluxe" never reaches the table, whatever the files hold. */
  lemma GiftSetExcluded(es: Option<Table>, ro: Option<Table>)
    ensures forall r :: r in Load(es, ro).rows ==> r.nombre != Some("Gift Set Deluxe")
  {
    assert ContainsFrom("Gift Set Deluxe", "set", 0);
    assert "set" in KEYWORDS_COMBINADAS;
  }

  /** Matching is by substring: "set" also removes a "Sunset" product. */
  lemma SubstringMatch()
    ensures ContainsIgnoreCase("Sunset Glow", "set")
    ensures !ContainsIgnoreCase("Seda Tónica", "set")
  {
    assert ContainsFrom("Sunset Glow", "set", 0);
    assert !ContainsFrom("Seda Tónica", "set", 0);
  }
}
