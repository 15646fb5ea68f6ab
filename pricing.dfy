/** Price tiers, conversion of prices to euros and the affordability ratio.
    Prices are exact reals; the source's floating-point rounding is not modelled. */
module Pricing {
  import opened Wrappers

  /** The exchange rate: 1 EUR = 5.03 LEI. */
  const TIPO_CAMBIO: real := 5.03

  /** The country names the dashboard stamps on rows. */
  const ESPANA := "España"
  const RUMANIA := "Rumania"

  /** The monthly minimum wages: in euros for Spain, in lei for Romania. */
  const SALARIO_MIN_ES: real := 1184.0
  const SALARIO_MIN_RO: real := 4050.0

  datatype Gama = Baja | Media | Alta

  /** Orders the tiers from cheapest to dearest. */
  function Rank(g: Gama): nat
  {
    match g
    case Baja => 0
    case Media => 1
    case Alta => 2
  }

  /** `clasificar_gama`: the tier of a price given in the country's own currency.
      Spain uses the thresholds 8 and 15; every other country the same thresholds
      converted to lei, 40.24 and 75.45. A price on a threshold takes the cheaper tier. */
  function ClasificarGama(precio: real, pais: string): (g: Gama)
    ensures pais == ESPANA ==>
      (g == Baja <==> precio <= 8.0) &&
      (g == Media <==> 8.0 < precio <= 15.0) &&
      (g == Alta <==> 15.0 < precio)
    ensures pais != ESPANA ==>
      (g == Baja <==> precio <= 40.24) &&
      (g == Media <==> 40.24 < precio <= 75.45) &&
      (g == Alta <==> 75.45 < precio)
  {
    if pais == ESPANA then
      if precio <= 8.0 then Baja else if precio <= 15.0 then Media else Alta
    else
      var limiteBaja := 8.0 * TIPO_CAMBIO;
      var limiteMedia := 15.0 * TIPO_CAMBIO;
      if precio <= limiteBaja then Baja else if precio <= limiteMedia then Media else Alta
  }

  /** For a fixed country, a higher price never gets a cheaper tier. */
  lemma ClasificarGamaMonotone(p: real, q: real, pais: string)
    requires p <= q
    ensures Rank(ClasificarGama(p, pais)) <= Rank(ClasificarGama(q, pais))
  {
  }

  /** The `precio_eur` column: Spanish prices are already euros, all others are lei. */
  function PrecioEur(precio: real, pais: string): (e: real)
    ensures pais == ESPANA ==> e == precio
    ensures pais != ESPANA ==> e * TIPO_CAMBIO == precio
  {
    if pais == ESPANA then precio else precio / TIPO_CAMBIO
  }

  /** The tier of a price equals the Spanish tier of its euro value: both markets
      share the thresholds 8 EUR and 15 EUR. */
  lemma GamaFollowsEuroPrice(precio: real, pais: string)
    ensures ClasificarGama(precio, pais) == ClasificarGama(PrecioEur(precio, pais), ESPANA)
  {
  }

  /** The boundary cases: 8.00 EUR is Baja and 8.01 EUR is Media in Spain; 40.24 LEI,
      exactly 8 EUR, is Baja in Romania and 75.45 LEI, exactly 15 EUR, is Media. */
  lemma TierBoundaries()
    ensures ClasificarGama(8.0, ESPANA) == Baja && ClasificarGama(8.01, ESPANA) == Media
    ensures ClasificarGama(40.24, RUMANIA) == Baja && PrecioEur(40.24, RUMANIA) == 8.0
    ensures ClasificarGama(75.45, RUMANIA) == Media && ClasificarGama(75.46, RUMANIA) == Alta
  {
  }

  /** How many products at the median price one wage (in euros) buys; 0 when the
      median is missing (the NaN of an empty selection) or not positive. */
  function ProductosComprables(salarioEur: real, mediana: Option<real>): (n: real)
    ensures mediana.None? || mediana.value <= 0.0 ==> n == 0.0
    ensures mediana.Some? && mediana.value > 0.0 ==> n * mediana.value == salarioEur
  {
    match mediana
    case Some(m) => if m > 0.0 then salarioEur / m else 0.0
    case None => 0.0
  }

  /** A higher median price never buys more products with the same wage. */
  lemma ProductosComprablesAntitone(salarioEur: real, m1: real, m2: real)
    requires 0.0 <= salarioEur && 0.0 < m1 <= m2
    ensures ProductosComprables(salarioEur, Some(m2)) <= ProductosComprables(salarioEur, Some(m1))
  {
    var n1 := ProductosComprables(salarioEur, Some(m1));
    var n2 := ProductosComprables(salarioEur, Some(m2));
    assert n2 * m2 == n1 * m1;
    assert n1 >= 0.0 && n2 >= 0.0;
    assert n2 * m1 <= n2 * m2;
    assert (n2 - n1) * m1 <= 0.0;
  }

  /** `productos_comprables_es`: the Spanish minimum wage over the Spanish median. */
  function ProductosComprablesEs(medianaEur: Option<real>): (n: real)
    ensures medianaEur.Some? && medianaEur.value > 0.0 ==> n * medianaEur.value == 1184.0
    ensures medianaEur.None? || medianaEur.value <= 0.0 ==> n == 0.0
  {
    ProductosComprables(SALARIO_MIN_ES, medianaEur)
  }

  /** `productos_comprables_ro`: the Romanian minimum wage, first converted to euros,
      over the Romanian median euro price. */
  function ProductosComprablesRo(medianaEur: Option<real>): (n: real)
    ensures medianaEur.Some? && medianaEur.value > 0.0 ==>
      n * medianaEur.value * TIPO_CAMBIO == 4050.0
    ensures medianaEur.None? || medianaEur.value <= 0.0 ==> n == 0.0
  {
    ProductosComprables(SALARIO_MIN_RO / TIPO_CAMBIO, medianaEur)
  }
}
