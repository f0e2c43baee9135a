# Cubicle and professor directory — Dafny model

The `mapaback` backend keeps two document collections:
- `profesores`, keyed by a professor code derived from the name;
- `cubiculos`, keyed by a code composed from building, number and floor.

Each cubicle carries a nullable `profesorId` that refers to a professor by code. This project models the two route files that own this data: `routes/profesores.js` and `routes/cubiculos.js`.

What the model covers:
- **Creating records.** A professor code is derived from the name, then made unique by `-k` suffix probing. A duplicate cubicle code is rejected outright.
- **Referential rules.**
  - A cubicle's professor must exist.
  - A professor gets at most one cubicle, but this is enforced on create only.
  - Deleting a professor unassigns its cubicles.
  - Renaming a professor re-points its cubicles.
- **Read side.**
  - The `cubiculosAsignados` join.
  - The enrichment with `profesorNombre`/`profesorTurno`.
  - The in-memory and query filters.
  - The professors-without-a-cubicle set difference.

Layout, one module per file:
- `text.dfy` (`Text`): character and string functions. These are the JavaScript `\s` class, `toUpperCase`/`toLowerCase` and `normalize("NFD")` with combining marks stripped, over a fixed table: ASCII letters plus Á É Í Ó Ú Ü Ñ in both cases. The file also has `replace(/\s+/g, sep)`, `includes`, and the decimal rendering of a counter.
- `document_store.dfy` (`DocumentStore`): a collection is a `map` from document id to document.
  - `Snapshot` lists a collection in the store's own order. That order is a parameter, listing every key once.
  - `Where` is an order-keeping filter, used both for an equality query and for an in-memory `filter`.
  - `Truthy` is JavaScript truthiness of an optional string.
- `records.dfy` (`Records`): the documents, the update bodies, the update echoes, and the replies (`Ok(status, data)` or `Fail(error)`, with 400/404/500 codes).
- `relationships.dfy` (`Relationships`): the two invariants the handlers try to keep (`ReferencesResolve`, `OneCubiculoPerProfesor`) and the cascade `Reassign`, with lemmas about it.
- `profesores.dfy` (`Profesores`) and `cubiculos.dfy` (`Cubiculos`): the pure logic of each route file. This includes the suffix-probing loop and the `sin-cubiculo` set-building loop.
- `store.dfy` (`Store`): the class `Store`, with the two collections as `map` fields. Every route handler is a method that returns the reply and updates the maps in place. The cascades are per-document loops.
- `scenarios.dfy` (`Escenarios`): request sequences against an empty store, with the replies and final state they must give.

The authenticated user's email and the ISO timestamp are parameters of the handlers. In `PUT` bodies, an absent field is `None`. The cubicle `profesorId` of an update body has three states: absent, null (`Liberar`) or a string (`Asignar`).

Route shadowing: Express matches routes in registration order.
- `GET /profesores/sin-cubiculo` (routes/profesores.js:243) is registered after `GET /profesores/:codigo` (routes/profesores.js:90).
- `GET /cubiculos/disponibles` (routes/cubiculos.js:235) is registered after `GET /cubiculos/:codigo` (routes/cubiculos.js:120).

Wherever the router is mounted, Express answers those two paths with the by-code handlers, which look up a document named `sin-cubiculo` or `disponibles`. The model keeps their filter logic as the methods `ProfesoresSinCubiculo` and `CubiculosDisponibles`.

## Model

| member | source | states |
|---|---|---|
| Text.IsSpace | routes/profesores.js:35 | the JavaScript `\s` class: the ASCII whitespace characters, no-break space, the Unicode space separators, line and paragraph separators and the byte-order mark |
| Text.ToUpper | routes/profesores.js:32 | upper-casing a character never turns whitespace into non-whitespace or back |
| Text.ToLower | routes/profesores.js:225-227 | lower-casing keeps whitespace as whitespace and leaves no letter A-Z |
| Text.StripAccent | routes/profesores.js:33 | removing the combining marks after NFD turns Á É Í Ó Ú Ü Ñ into a letter A-Z, leaves A-Z as it is, and keeps whitespace as whitespace |
| Text.Upper | routes/cubiculos.js:27 | `toUpperCase` keeps the length and maps each character independently |
| Text.Lower | routes/profesores.js:225-227 | `toLowerCase` keeps the length and maps each character independently |
| Text.DropSpaces | routes/profesores.js:35 | the rest of a whitespace run: a suffix of the input, every dropped character whitespace, the result starting with non-whitespace |
| Text.ReplaceSpaceRuns | routes/profesores.js:35 | `replace(/\s+/g, sep)`: each maximal whitespace run becomes one `sep`; what this means is stated by the lemmas that follow |
| Text.DropSpacesOfRun | routes/profesores.js:35 | a whitespace run followed by non-whitespace is skipped entirely |
| Text.ReplaceSpaceRunsSplit | routes/profesores.js:35 | where each `sep` goes: a word, then a whitespace run, then the rest give the word, one `sep`, and the replaced rest |
| Text.ReplaceSpaceRunsChars | routes/profesores.js:35 | after `replace(/\s+/g, sep)` every character is `sep` or a non-whitespace character of the input, and the string is no longer |
| Text.ReplaceSpaceRunsHead | routes/profesores.js:35 | an input that starts with a non-whitespace character keeps it as the first character |
| Text.ReplaceSpaceRunsNoDoubleSep | routes/profesores.js:35 | when the input holds no `sep`, the output never has two `sep` in a row |
| Text.RemoveSpacesOfDropped | routes/profesores.js:35 | skipping a whitespace run loses no non-whitespace text |
| Text.ReplaceSpaceRunsKeepsText | routes/profesores.js:35 | when the input holds no `sep`, removing `sep` from the output gives the input without whitespace: no text is lost or added |
| Text.ReplaceSpaceRunsIdentity | routes/cubiculos.js:27 | a string without whitespace is left unchanged |
| Text.UpperAppend | routes/cubiculos.js:27 | upper-casing a concatenation concatenates the upper-cased parts |
| Text.Contains | routes/profesores.js:227 | `includes` holds exactly when the needle is a prefix of some suffix of the haystack, the empty needle included |
| Text.Decimal | routes/profesores.js:45 | the rendering of the counter in the template string is non-empty and all digits |
| Text.ParseDecimalOfDecimal | routes/profesores.js:45 | the decimal rendering of a counter reads back as the same number |
| Text.DecimalInjective | routes/profesores.js:45 | different counters render differently |
| DocumentStore.Snapshot | routes/profesores.js:80-81 | the listing has one entry per key of the order, the i-th being the document stored under the i-th key, and holds exactly the stored documents |
| DocumentStore.Where | routes/profesores.js:224-233 | the filter keeps each accepted element exactly as many times as the input holds it, and drops every other element |
| DocumentStore.WhereAppend | routes/profesores.js:224-233 | the filter keeps the input order: filtering a concatenation concatenates the filtered parts |
| DocumentStore.Truthy | routes/profesores.js:13-14 | JavaScript truthiness of an optional string field: absent and "" are falsy, every other string is truthy; the same test guards routes/profesores.js:28, :137, :153 and routes/cubiculos.js:19, :39, :161 |
| Records.StatusOf | routes/cubiculos.js:20-56 | a refusal carries a 4xx or 5xx status: 404 exactly for a missing professor or cubicle, 500 exactly for a write the store refuses, 400 exactly for a missing field, a bad shift, a taken cubicle code or a professor who already has a cubicle |
| Relationships.HasCubiculo | routes/cubiculos.js:48-52 | the query `where('profesorId', '==', id)` is non-empty exactly when some stored cubicle holds that `profesorId` |
| Relationships.Reassign | routes/profesores.js:159-161 | the cascade changes only `profesorId`, only on cubicles that held the old code, sets it to the new value there, and keeps the key set |
| Relationships.UnassignFreesProfesor | routes/profesores.js:188-197 | after the delete cascade no cubicle references the professor, and those that did are null |
| Relationships.UnassignKeepsReferencesResolved | routes/profesores.js:188-200 | deleting a professor with the cascade keeps every assigned cubicle's professor stored |
| Relationships.UnassignKeepsOnePerProfesor | routes/profesores.js:194-197 | unassigning never gives a professor two cubicles |
| Relationships.RepointMovesAssignment | routes/profesores.js:153-164 | after a rename the old code holds no cubicle, and the new code holds one exactly when the old or the new one did |
| Relationships.RepointKeepsOnePerProfesor | routes/profesores.js:153-164 | a rename to a code no cubicle references keeps at most one cubicle per professor |
| Relationships.InsertCubiculoKeepsInvariants | routes/cubiculos.js:39-70 | inserting an unassigned cubicle, or one assigned to a stored professor without a cubicle, keeps both invariants |
| Profesores.ValidTurno | routes/profesores.js:20 | the accepted shifts are exactly Matutino, Vespertino and Ambos; the update handler applies the same list at routes/profesores.js:137 |
| Profesores.Fold | routes/profesores.js:32-33 | folding a character keeps whitespace unchanged and never turns anything else into whitespace |
| Profesores.KeepCodeChars | routes/profesores.js:31-34 | after upper-casing, stripping accents and removing everything but A-Z and whitespace, only A-Z and whitespace remain |
| Profesores.KeepCodeCharsLetters | routes/profesores.js:31-34 | the letters left after that cleaning are the folded letters of the name, in order |
| Profesores.Letters | routes/profesores.js:31-34 | the letters of the folded name are all A-Z |
| Profesores.KeepCodeCharsAppend | routes/profesores.js:31-34 | the cleaning works character by character: cleaning a concatenation concatenates the cleaned parts |
| Profesores.KeepCodeCharsOfSpaces | routes/profesores.js:31-34 | whitespace survives the cleaning unchanged |
| Profesores.KeepCodeCharsOfWord | routes/profesores.js:31-34 | a word without whitespace is cleaned down to its folded letters |
| Profesores.DeriveCodigo | routes/profesores.js:27-36 | the derived code has only A-Z and '-', never two '-' in a row, and its letters are exactly the folded letters of the name; a name without whitespace gives exactly its letters |
| Profesores.DeriveCodigoJoin | routes/profesores.js:31-35 | where each '-' goes: a first word, then a stretch that cleans down to whitespace, then a rest give the word's letters, one '-', and the code of the rest |
| Profesores.DeriveCodigoTwoWords | routes/profesores.js:31-35 | two words separated by one space give their letters joined by one '-' |
| Profesores.RequestedCodigo | routes/profesores.js:27-36 | a truthy body `codigo` is used as given; otherwise the code is the one derived from the name, with only A-Z and '-' and the letters of the folded name |
| Profesores.Suffixed | routes/profesores.js:45 | `base-k` is longer than `base` plus the dash |
| Profesores.SuffixedInjective | routes/profesores.js:45 | `base-j` and `base-k` are equal exactly when j = k, so every probe tries a new key |
| Profesores.AllocationIsUnique | routes/profesores.js:39-53 | the probing determines the code: at most one code meets the allocation rule |
| Profesores.AllocateCodigo | routes/profesores.js:39-53 | the probing loop ends with a free code: `base` when free, otherwise `base-k` for the least free k from 1 |
| Profesores.Renames | routes/profesores.js:153 | the cascade runs exactly when the body gives a truthy `codigo` different from the route code |
| Profesores.Merge | routes/profesores.js:143-147 | an update replaces only the modelled fields the body gives, sets the update stamp, and leaves every other stored field as it was |
| Profesores.MergeNothing | routes/profesores.js:143-147 | an empty body changes only the update stamp |
| Profesores.Resumen | routes/profesores.js:105-113 | the summary keeps codigo, edificio, numeroCubiculo and planta |
| Profesores.Resumenes | routes/profesores.js:105-113 | one summary per cubicle, in order |
| Profesores.CubiculosAsignados | routes/profesores.js:101-115 | `cubiculosAsignados` holds the summary of every cubicle whose `profesorId` is the code, and of no other |
| Profesores.ResumenesAppend | routes/profesores.js:105-113 | summarising a concatenation concatenates the summaries |
| Profesores.CubiculosAsignadosAppend | routes/profesores.js:101-115 | the summaries follow the order of the cubicle listing: the join of a concatenation concatenates the joins |
| Profesores.CubiculosAsignadosOne | routes/profesores.js:101-115 | one cubicle gives its summary exactly when its `profesorId` is the code, and nothing otherwise; with the previous row, one summary per matching cubicle, in order |
| Profesores.MatchesNombre | routes/profesores.js:224-229 | with a truthy `nombre` parameter, the lower-cased name includes the lower-cased parameter; without one, every professor passes |
| Profesores.MatchesTurno | routes/profesores.js:230-233 | with a truthy `turno` parameter, the shift equals it; without one, every professor passes |
| Profesores.Buscar | routes/profesores.js:216-233 | the search keeps each professor matching the name substring (ignoring case) and the shift as many times as the listing holds it, and drops every other |
| Profesores.BuscarAppend | routes/profesores.js:216-233 | the search keeps the listing order: searching a concatenation concatenates the results |
| Profesores.BuscarOne | routes/profesores.js:216-233 | one professor is kept exactly when it matches both given filters |
| Profesores.LowerOfUpper | routes/profesores.js:225-227 | lower-casing an upper-cased string is lower-casing it |
| Profesores.MatchesNombreIgnoresCase | routes/profesores.js:225-227 | the name search gives the same answer for a query and its upper-cased form |
| Profesores.AssignedIds | routes/profesores.js:249-255 | the set holds exactly the truthy `profesorId` values of the cubicles |
| Profesores.SinCubiculo | routes/profesores.js:243-260 | a professor is listed exactly when no assigned cubicle names its `codigo`; the result is the listing filtered by the set the loop builds, in order |
| Cubiculos.Compuesto | routes/cubiculos.js:27 | `${edificio}-${numeroCubiculo}-${planta}`; what the code derived from it looks like is stated by the rows that follow |
| Cubiculos.UpperedRunsFacts | routes/cubiculos.js:27 | the composite code facts, proved about whitespace replacement followed by upper-casing |
| Cubiculos.Normalizar | routes/cubiculos.js:27 | `replace(/\s+/g, '_').toUpperCase()` leaves no whitespace and no longer string; a string without whitespace is only upper-cased; with no '_' in the input, removing '_' gives the upper-cased input without whitespace |
| Cubiculos.NormalizarJoin | routes/cubiculos.js:27 | where each '_' goes: a word, a whitespace run and a rest give the upper-cased word, one '_', and the normalised rest |
| Cubiculos.DeriveCodigo | routes/cubiculos.js:25-28 | the composite code has no whitespace and is no longer than the composite. It is the upper-cased composite when that has no whitespace. When the fields hold no '_', removing '_' gives the upper-cased composite without whitespace |
| Cubiculos.DeriveCodigoJoin | routes/cubiculos.js:27 | a whitespace run after the first word of the building name becomes one '_' between that word upper-cased and the code of the rest of the fields |
| Cubiculos.RequestedCodigo | routes/cubiculos.js:25-28 | a truthy body `codigo` is used as given, otherwise the derived composite code; either way the code is never empty |
| Cubiculos.Reasignado | routes/cubiculos.js:160-175 | an absent `profesorId` keeps the stored one, null unassigns, a string replaces it |
| Cubiculos.Merge | routes/cubiculos.js:160-175 | an update replaces only the modelled fields the body gives; null `profesorId` unassigns, a string assigns; the update stamp is set, and every other stored field is left as it was |
| Cubiculos.Enriquecer | routes/cubiculos.js:96-108 | name and shift are attached exactly when `profesorId` is truthy and names a stored professor, and they are that professor's; the stored cubicle is returned unchanged |
| Cubiculos.EnriquecerTodos | routes/cubiculos.js:88-112 | the listing enriches every cubicle, in order |
| Cubiculos.MatchesEdificio | routes/cubiculos.js:218-220 | with a truthy `edificio` parameter, the building equals it; without one, every cubicle passes |
| Cubiculos.MatchesPlanta | routes/cubiculos.js:221-223 | with a truthy `planta` parameter, the floor equals it; without one, every cubicle passes |
| Cubiculos.Buscar | routes/cubiculos.js:215-227 | the search keeps each cubicle whose `edificio` and `planta` equal the given parameters as many times as the listing holds it, and drops every other |
| Cubiculos.BuscarAppend | routes/cubiculos.js:215-227 | the search keeps the listing order: searching a concatenation concatenates the results |
| Cubiculos.BuscarOne | routes/cubiculos.js:215-227 | one cubicle is kept exactly when it matches both given equalities |
| Cubiculos.Disponibles | routes/cubiculos.js:237-241 | each cubicle whose `profesorId` is null, as many times as the listing holds it; one holding "" is not listed |
| Cubiculos.DisponiblesAppend | routes/cubiculos.js:237-241 | the free cubicles come in the listing order |
| Store.Store.CrearProfesor | routes/profesores.js:9-75 | missing or falsy fields give 400; a shift outside Matutino/Vespertino/Ambos gives 400; an empty derived code gives 500. These refusals change nothing. Otherwise 201: the probed code was not taken, the new record is stored under it, nothing else changes, and references stay resolved |
| Store.Store.ListarProfesores | routes/profesores.js:78-87 | the i-th professor listed is the one stored under the i-th key of the store's order; every stored professor appears |
| Store.Store.ObtenerProfesor | routes/profesores.js:90-122 | 404 when absent, otherwise the record joined with `cubiculosAsignados` |
| Store.Store.ReassignCubiculos | routes/profesores.js:155-163 | the per-document cascade loop leaves the cubicles equal to `Reassign` of the old ones |
| Store.Store.ActualizarProfesor | routes/profesores.js:125-174 | 404 when absent and 400 for a bad shift, both with no change. Otherwise: the body is merged at the same key with the key set unchanged; a rename re-points the cubicles and frees the old code; the reply echoes the route code overridden by the body's |
| Store.Store.EliminarProfesor | routes/profesores.js:177-211 | 404 when absent. Otherwise the key is removed and its cubicles are set to null; both invariants are preserved |
| Store.Store.BuscarProfesores | routes/profesores.js:214-240 | the result is the search over the listing in the store's order; each stored professor matching both filters is listed once, every other not at all |
| Store.Store.ProfesoresSinCubiculo | routes/profesores.js:243-267 | exactly the stored professors whose `codigo` is no assigned cubicle's `profesorId`; the result is the store-ordered listing filtered by the set of assigned codes, in order |
| Store.Store.CrearCubiculo | routes/cubiculos.js:9-83 | 400 for a missing field, then 400 for a taken code, then 404 for an unknown professor, then 400 for a professor who has a cubicle; none of these writes. Otherwise 201, inserting only the new key with `profesorId` given or null. Both invariants are preserved |
| Store.Store.HasCubiculoQuery | routes/cubiculos.js:48-52 | the query is non-empty exactly when some cubicle has that `profesorId` |
| Store.Store.ListarCubiculos | routes/cubiculos.js:86-117 | every cubicle, in the store's order, enriched |
| Store.Store.ObtenerCubiculo | routes/cubiculos.js:120-145 | 404 when absent, otherwise the enriched cubicle |
| Store.Store.ActualizarCubiculo | routes/cubiculos.js:148-188 | 404 when absent; 404 for a truthy `profesorId` naming no professor; otherwise merged at the same key with no one-cubicle check. References stay resolved |
| Store.Store.EliminarCubiculo | routes/cubiculos.js:191-210 | 404 when absent. Otherwise only that key is removed and professors are untouched; both invariants are preserved |
| Store.Store.BuscarCubiculos | routes/cubiculos.js:213-232 | the result is the search over the listing in the store's order; each stored cubicle matching both equalities is listed once, every other not at all |
| Store.Store.CubiculosDisponibles | routes/cubiculos.js:235-247 | the free cubicles of the listing in the store's order; each stored cubicle with a null `profesorId` once, every other not at all |
| Escenarios.FirstSuffixWhenOnlyBaseTaken | routes/profesores.js:42-52 | with only `base` taken, the probing yields `base-1` |
| Escenarios.CodigoA121 | routes/cubiculos.js:27 | building A, number 12, floor 1 give the code `A-12-1` |
| Escenarios.CodigoJuanPerez | routes/profesores.js:27-36 | the name "Juan Pérez" with no body `codigo` asks for JUAN-PEREZ |
| Escenarios.CodigoAnaRuiz | routes/profesores.js:27-36 | the name "Ana Ruiz" with no body `codigo` asks for ANA-RUIZ |
| Escenarios.CodigoConEspacio | routes/cubiculos.js:25-28 | building "a b", number 1, floor 2 give A_B-1-2: the space becomes '_', the separators stay '-' |
| Escenarios.AltaAsignacionYBaja | routes/cubiculos.js:47-56 | create "Ana Ruiz" with no code (stored as ANA-RUIZ) and an assigned cubicle, refuse that professor a second cubicle, delete the professor: the cubicle ends with null `profesorId` |
| Escenarios.CodigoRepetido | routes/profesores.js:27-53 | two creates of "Juan Pérez" with no code: the first is stored as JUAN-PEREZ, the second as JUAN-PEREZ-1 |
| Escenarios.AltaInvalida | routes/profesores.js:14-24 | an empty name and an unknown shift are refused with 400 |
| Escenarios.SegundoCubiculoPorActualizacion | routes/cubiculos.js:159-175 | assigning a professor who already has a cubicle through an update succeeds, and the store then breaks the one-cubicle rule |
| Escenarios.RenombrarDejaReferenciaColgante | routes/profesores.js:147-164 | after a rename the cubicle names the new code, no professor is stored under it, and reading the cubicle attaches no name |

## Left out

- routes/auth.js, routes/events.js and index.js are not part of this model. They hold library calls (password hashing, TOTP, JWT, rate limiting), a pass-through collection with no rules, and server wiring. The authenticated email is a parameter.
- The `io.emit` notifications, `console.error`, and the catch-all 500 replies for a failing store are not modelled. An empty professor code is the one exception: the store refuses it, and this is modelled as `InvalidDocumentPath`.
- Concurrency is not modelled: each handler runs to completion before the next one starts. This hides two things:
  - the check-then-write races in suffix probing and in the uniqueness checks;
  - the interleaving of the `Promise.all` cascade writes, which are a sequential loop here.
- Store.Store.CrearProfesor, Cubiculos.Normalizar and Profesores.MatchesNombre: case mapping and accent stripping cover the character table only, so the professor code, the cubicle code's `toUpperCase` (routes/cubiculos.js:27) and the name search's `toLowerCase` (routes/profesores.js:225-227) are exact on it alone; a building "à" stays "à" in the model where the runtime gives "À". It covers ASCII and Á É Í Ó Ú Ü Ñ, in either case. Other characters that `toUpperCase` or NFD decomposition would change (such as ß, À, Ç) pass through unchanged. They are then dropped as non-A-Z, whereas the real runtime might keep a base letter.
- Store.Store.CrearProfesor and Store.Store.CrearCubiculo: every id is a plain key here. In the store, `doc(id)` reads an id holding '/' as a slash-separated path: one naming a collection ("a/b") is refused, and one naming a document in a subcollection ("a/b/c") is read and written there, outside the collection listing. This applies to explicit codes and to cubicle codes derived from fields holding '/' (building "A/B" gives "A/B-1-2", routes/cubiculos.js:27). Ids such as `..` are refused by the store and accepted by the model.
- The mounting of the two routers is not modelled: index.js mounts only `/auth` and `/events` (index.js:142-143), so as the repository stands neither route file is reachable. The handlers are modelled as they would run once mounted.
- The order in which the store lists documents is a parameter (`orden`), not Firestore's key order.
- Field values are strings. A JSON body with numbers, booleans or nested objects is not modelled, and neither are fields outside the modelled ones. JSON `null` is not modelled for professor update fields. For the cubicle `profesorId`, null is modelled.
- Timestamps are opaque strings passed in by the caller.
- Profesores.Merge and Cubiculos.Merge: they merge the modelled body fields only. The handlers pass the whole body to `update` (routes/profesores.js:147, routes/cubiculos.js:175), so a body that carries `createdAt`, `createdBy` or any other field overwrites it. The model keeps the creation stamp instead.
