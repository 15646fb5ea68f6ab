# NALA catalog pipeline — a verified model

The NALA dashboard compares cosmetics prices between Spain and Romania. Before it
draws anything it runs a small data pipeline over two catalog tables
(`nala_es.csv`, `nala_ro.csv`):

* `limpiar_datos` cleans one market's table: the `gramos/ml` quantity is filled with 0
  and truncated to an integer, rows of category `"Otro"` are dropped (only when the
  table has a `categoria` column), rows whose `nombre` contains a bundle keyword
  (case-insensitive substring, a missing name never matches) are dropped one keyword
  at a time, and every surviving row is stamped with its country in `país`;
* `load_data` cleans Spain with `pack, set, rutina` and Romania with
  `pachet, pack, set, rutina`, concatenates the two (Spanish rows first), and filters
  the result once more with `pack, set, rutina, pachet, kit, combo`; any failure
  (a file that cannot be read, a missing `gramos/ml` or `nombre` column, a `nombre`
  column that pandas did not read as strings) gives a
  fixed four-row example table instead;
* the page stops when `país` or `precio` is missing, then adds `gama` (price tier,
  `clasificar_gama`) and `precio_eur` (price in euros, rate 5.03 lei per euro);
* the affordability chart divides each market's minimum wage (1184 EUR, 4050 LEI
  converted to euros) by the market's median euro price, or shows 0.

The model keeps prices exact (`real`, the rate is `5.03` = 503/100). Tables are values
(`Table(columns, rows, textNames)`); the two keyword loops are one method, `DropKeywords`, with a
loop invariant tying the rows after `i` keywords to the specification `Survivors`, and
the cleaning and loading methods are proved equal to the functions `Clean` and `Load`,
about which the lemmas below are proved.

Files: `wrappers.dfy` (Option, Result), `text.dfy` (case-insensitive substring
search), `tables.dfy` (rows, columns, concatenation, boolean-mask selection),
`pricing.dfy` (tiers, euro conversion, affordability), `cleaning.dfy`
(`limpiar_datos` and the keyword filter), `loading.dfy` (`load_data`),
`dashboard.dfy` (column check and the `gama`/`precio_eur` columns).

Facts about data/app.py that the model makes explicit:

* `astype(int)` truncates toward zero, so a negative quantity stays negative
  (`Cleaning.Trunc`);
* every country other than `"España"` takes the lei branch of `clasificar_gama` and of
  the `precio_eur` lambda, not only `"Rumania"`;
* the combined table holds the Spanish rows first, then the Romanian rows
  (`Loading.LoadCombined`);
* the whole body of `load_data` sits in one `try`, so the example table is returned not
  only when a file cannot be read but whenever cleaning raises: when a table lacks
  `gramos/ml`; when it lacks `nombre` and the keyword list is non-empty; and when its
  `nombre` column is not of string dtype (pandas reads a column with no text at all,
  such as an all-empty one, as float64, and `.str` then raises). The flag
  `Table.textNames` records whether `nombre` is a string column;
* once both markets are cleaned, the combined `nombre` column is a string column
  (`Loading.FinalPassReadsText`), so the final keyword pass never raises;
* after loading, `país` is always present (`LoadCountries`), so the only column the
  page can stop for is `precio` (`LoadedTableCheck`).

Since every market keyword is also in the combined list, the final pass alone decides
which rows survive: `LoadMarketListsSubsumed` proves the table equals the one obtained
by cleaning both markets with the combined list.

## Model

| member | source | states |
|---|---|---|
| Pricing.ClasificarGama | data/app.py:67-73 | For "España": Baja iff price <= 8, Media iff 8 < price <= 15, Alta iff price > 15; for any other country the same with 40.24 and 75.45 (8 and 15 times 5.03); a price on a threshold takes the cheaper tier |
| Pricing.ClasificarGamaMonotone | data/app.py:67-73 | For a fixed country a higher price never gets a cheaper tier |
| Pricing.PrecioEur | data/app.py:137-140 | The euro price equals the price for "España"; for any other country, times 5.03 it gives back the price |
| Pricing.GamaFollowsEuroPrice | data/app.py:64-73 | The tier of a price in either market equals the Spanish tier of its euro price |
| Pricing.TierBoundaries | data/app.py:67-73 | 8.00 EUR is Baja and 8.01 EUR Media in Spain; 40.24 LEI (8 EUR exactly) is Baja in Romania, 75.45 LEI Media and 75.46 LEI Alta |
| Pricing.ProductosComprables | data/app.py:335-336 | 0 when the median is missing (NaN) or <= 0; otherwise the ratio times the median gives the wage |
| Pricing.ProductosComprablesAntitone | data/app.py:335-336 | With a non-negative wage, a higher positive median never buys more products |
| Pricing.ProductosComprablesEs | data/app.py:331-335 | Spanish ratio times the median is 1184 EUR; 0 for a missing or non-positive median |
| Pricing.ProductosComprablesRo | data/app.py:332-336 | Romanian ratio times the median times 5.03 is 4050 LEI; 0 for a missing or non-positive median |
| Text.AgreesFromCorrect | data/app.py:93 | The character-by-character comparison holds iff every remaining position agrees ignoring ASCII case |
| Text.OccursAtAgrees | data/app.py:93 | A window is an occurrence of the lower-cased keyword in the lower-cased name iff its characters agree ignoring case |
| Text.ContainsFromCorrect | data/app.py:93 | The search from position i succeeds iff the keyword occurs, ignoring case, at some position >= i |
| Text.ContainsIgnoreCase | data/app.py:93 | `str.contains(kw, case=False)` on a present name holds iff the lower-cased keyword is a substring of the lower-cased name |
| Text.ContainsIgnoresCase | data/app.py:93 | Lower-casing the name or the keyword first does not change the match |
| Tables.AddColumn | data/app.py:95 | Assigning `país` adds exactly that one column, last, if it is absent, keeps every existing column in place and order, and changes nothing if it is present |
| Tables.UnionColumns | data/app.py:105 | The columns of a concatenation are those of either table, those of the first in their order first |
| Tables.Concat | data/app.py:105 | `pd.concat`: the column union, the rows of the first table followed by those of the second, and a string `nombre` column iff either part has one |
| Tables.ConcatWellFormed | data/app.py:105 | Concatenating well-formed tables (no value in an absent column, no name in a non-string `nombre` column) gives a well-formed table |
| Tables.Where | data/app.py:89 | A boolean-mask selection keeps exactly the rows that pass and is no longer than its input |
| Tables.WhereSubsequence | data/app.py:89 | A mask selection keeps its rows in their original order |
| Tables.WhereConcat | data/app.py:110 | Masking a concatenation is concatenating the masked parts |
| Tables.WhereAll | data/app.py:89 | A mask every row passes selects the whole table |
| Tables.WhereAgree | data/app.py:93 | Masks that agree on every row select the same rows |
| Tables.WhereWhere | data/app.py:92-93 | Two masks in turn select what their conjunction selects |
| Cleaning.Trunc | data/app.py:86 | `astype(int)` truncates toward zero: for x >= 0 the result is the largest integer <= x, for x < 0 the smallest integer >= x |
| Cleaning.FillRow | data/app.py:86 | Filling one row changes only its quantity: a missing one becomes 0, a float one its truncation, an integer one stays |
| Cleaning.FillQuantity | data/app.py:86 | The filled column has one whole quantity per row, each row filled as `FillRow` says |
| Cleaning.DropOtro | data/app.py:88-89 | A row is kept iff its category is not "Otro" (a missing category is kept), in the original order |
| Cleaning.Matches | data/app.py:93 | A row matches a keyword iff its name is present and contains the keyword ignoring case; a missing name never matches |
| Cleaning.Survivors | data/app.py:92-93 | A row survives iff it is an input row that matches none of the keywords |
| Cleaning.StampRow | data/app.py:95 | Stamping a row sets its country and changes nothing else |
| Cleaning.Stamp | data/app.py:95 | Every stamped row has the country, one per input row, each stamped as `StampRow` says |
| Cleaning.Clean | data/app.py:84-96 | Fails exactly when `gramos/ml` is missing, or the keyword list is non-empty and `nombre` is missing or not a string column; otherwise the columns gain `país`, the string flag is kept, and no rows are added |
| Cleaning.DropKeywords | data/app.py:92-93 | After the loop over the keywords the rows are exactly `Survivors(rows, keywords)`: the input rows, in order, whose name contains no keyword |
| Cleaning.SurvivorsNone | data/app.py:92-93 | With no keywords the loop drops nothing |
| Cleaning.SurvivorsThenSurvivors | data/app.py:92-93 | Filtering by one keyword list and then another is filtering by their concatenation |
| Cleaning.SurvivorsSameKeywords | data/app.py:92-93 | The order and repetition of keywords does not change the result |
| Cleaning.SurvivorsIdempotent | data/app.py:92-93 | Running the keyword filter again with the same list removes nothing more |
| Cleaning.SurvivorsSubsumed | data/app.py:98-110 | Filtering by a list and then by a superset of it is filtering by the superset |
| Cleaning.SurvivorsKeepMissingNames | data/app.py:93 | A row whose name is missing is never dropped by the keyword filter (`na=False`) |
| Cleaning.SurvivorsStamp | data/app.py:93-95 | The keyword filter commutes with stamping the country |
| Cleaning.LimpiarDatos | data/app.py:84-96 | Equals `Clean`; fails exactly when `gramos/ml` is missing, or the keyword list is non-empty and `nombre` is missing or not a string column; every survivor has the country, a whole quantity, no keyword in its name and, with a `categoria` column, a category other than "Otro" |
| Cleaning.FillRowKeepsKeys | data/app.py:86 | Filling the quantity changes neither the name match nor the "Otro" test |
| Cleaning.CleanRowsSound | data/app.py:84-96 | Every cleaned row is an input row that is kept, with its quantity filled and its country stamped |
| Cleaning.CleanRowsComplete | data/app.py:84-96 | Every input row that is not "Otro" (when categories exist) and matches no keyword appears, cleaned, in the output |
| Cleaning.CleanRows | data/app.py:84-96 | A row is in the output iff it is a kept input row with missing quantity made 0, a float quantity truncated, and the country stamped |
| Cleaning.CleanRowFacts | data/app.py:85-95 | One survivor has the country, a whole quantity, no keyword, no "Otro" category when the column exists, and fits the new columns |
| Cleaning.CleanGuarantees | data/app.py:85-95 | All survivors have those properties, and the columns are the input columns with `país` added |
| Cleaning.CleanWellFormed | data/app.py:84-96 | Cleaning a well-formed table gives a well-formed table: no value in an absent column, and no name in a non-string `nombre` column |
| Cleaning.CleanAsOneMask | data/app.py:84-96 | The cleaned rows are exactly the filled and stamped input rows selected by one mask (not "Otro" when categories exist, no keyword), every copy kept and in order |
| Cleaning.StampKept | data/app.py:93-95 | Setting the country commutes with the cleaning mask, which does not look at `país` |
| Cleaning.CleanKeepsOrder | data/app.py:84-96 | The cleaned rows are an order-preserving subsequence of the filled and stamped input rows, so no more of them |
| Cleaning.CleanIdempotent | data/app.py:84-96 | Cleaning a cleaned table again with the same country and keywords gives the same table |
| Cleaning.CleanSameKeywords | data/app.py:92-93 | Cleaning with two keyword lists holding the same keywords gives the same result |
| Loading.LoadData | data/app.py:77-122 | Equals `Load`, which falls back on an unreadable file and on every cleaning failure (missing `gramos/ml`, missing or non-string `nombre`); the fallback table when a file cannot be read; no row's name contains any of pack, set, rutina, pachet, kit, combo |
| Loading.CremaFacialClean | data/app.py:121 | The fallback name "Crema Facial" contains none of the six combined keywords |
| Loading.GelDeDuchaClean | data/app.py:121 | The fallback name "Gel de Ducha" contains none of the six combined keywords |
| Loading.FallbackExcludesKeywords | data/app.py:117-122 | No fallback row matches a combined keyword |
| Loading.FallbackShape | data/app.py:117-122 | The example table has four well-formed rows, two for "España" then two for "Rumania", columns `país`, `precio` and `nombre` but no `gramos/ml` or `categoria` |
| Loading.Load | data/app.py:77-122 | The fallback table when a file cannot be read and when either market's cleaning fails (exactly the cases `Clean` fails on); on every path, fallback included, no loaded row matches a combined keyword |
| Loading.LoadCombined | data/app.py:104-110 | The loaded rows are the filtered Spanish rows followed by the filtered Romanian rows; there are at most as many as in the two files |
| Loading.LoadMarketListsSubsumed | data/app.py:98-110 | The loaded rows equal cleaning both markets with the combined list alone |
| Loading.LoadCountries | data/app.py:95-122 | The loaded table has a `país` column and every row's country is "España" or "Rumania" |
| Loading.LoadWellFormed | data/app.py:104-122 | Well-formed files give a well-formed table |
| Loading.FinalPassReadsText | data/app.py:101-110 | When both markets are cleaned, the combined table has a string `nombre` column, so the final keyword pass cannot raise |
| Loading.GiftSetExcluded | data/app.py:108-110 | A product named "Gift Set Deluxe" is never in the loaded table |
| Loading.SubstringMatch | data/app.py:93 | Matching is by substring: "Sunset Glow" contains "set", "Seda Tónica" does not |
| Dashboard.MissingFrom | data/app.py:129 | The list comprehension keeps exactly the required columns that are absent, in their listed order |
| Dashboard.MissingColumns | data/app.py:128-129 | The missing list is empty iff both `país` and `precio` are present |
| Dashboard.PaisText | data/app.py:136-138 | The country text equals "España" iff the cell holds "España" |
| Dashboard.Prepare | data/app.py:127-140 | Stops with the missing-column list iff `país` or `precio` is absent; otherwise one priced row per row, in order, each with the Spanish tier of its euro price and a euro price that is the price for Spain and the price divided by 5.03 otherwise |
| Dashboard.Price | data/app.py:136-140 | A priced row keeps its row; its euro price is the price for "España" and, times 5.03, the price for any other country; its tier is the Spanish tier of its euro price |
| Dashboard.LoadedTableCheck | data/app.py:125-133 | For the loaded table the page stops iff `precio` is absent, and then reports only `precio` |

## Left out

- Streamlit page setup, styling, sidebar filters, metric cards, charts and the textual
  summary (data/app.py:1-61, 142-427 except the conversion and affordability lines): UI
  and foreign library calls.
- Reading the CSV files and `@st.cache_data`: I/O and framework memoisation. A file is
  given as a parsed `Table`, or `None` when it could not be read; the error message
  shown on failure is not modelled.
- Means and medians (data/app.py:185, 327-328): the median is an input to the
  affordability functions (`None` for the NaN of an empty selection).
- Columns other than `nombre`, `categoria`, `gramos/ml`, `precio` and `país` are kept by
  name in `columns` only; their cell values (e.g. `categoria_general`) are not modelled.
- Text.ContainsIgnoreCase: case-insensitivity is ASCII lower-casing, not full Unicode
  case folding; keywords are matched as plain substrings, not regular expressions
  (none of the keywords holds a regex metacharacter).
- Floating point: prices and quantities are exact reals, so NaN prices, infinities and
  rounding of `precio / 5.03` are not modelled; a quantity cell is missing, a number or
  an integer, and `astype(int)` on a non-numeric column is not modelled.
- Cleaning.Trunc: `astype(int)` gives a 64-bit integer, while the model's result is an
  unbounded `int`; quantities outside the int64 range, whose cast numpy leaves
  undefined, are not modelled.
- Dashboard.PaisText: a missing country cell is compared as the empty string, which
  takes the same (non-Spanish) branch as NaN does in the code.
- Reading a column's dtype: whether `nombre` was read as strings is the input flag
  `Table.textNames`, not derived from the cells; pandas' type inference itself is not
  modelled, nor are numeric cells inside a string `nombre` column (they never match,
  like a missing name).
