# Inventory backend: stock ledger, users, movements and reports in Dafny

This project models the request handlers of a small inventory backend (Express over
PostgreSQL). It covers products with a stock quantity, a movement history (`movimientos`),
users, and a set of reports. The database is one value `Tables.Db`:
- the `productos` and `usuarios` tables as maps from their SERIAL key to the row;
- the `movimientos` table as a sequence in insertion order;
- the next value of each key sequence.

Each endpoint is modelled in two forms:

- **A step function** (`Productos.Consumir`, `Usuarios.Crear`, `Movimientos.Actualizar`, …).
  It takes the database and the request and returns the new database with the reply (`Ok`,
  `BadRequest`, `NotFound`, `Conflict`, `InsufficientStock`, `ServerError`). Its contract says
  when each reply happens, as an if-and-only-if. It also says exactly what the new tables and key sequences hold,
  and that the invariant `Tables.Valid` is kept: keys positive and below their sequence,
  movement keys distinct, product codes unique.
- **A method of the class `Database.Store`.** The class holds the tables as fields and performs
  the handler's steps in place. It is proved to leave exactly the state, and give exactly the
  reply, that the step function describes. So every property proved about the step functions
  holds of the object.

Pure helpers are functions with their own contracts and lemmas:
- unit normalisation;
- the report query-string validators and the date-range default;
- the low-stock selection and order;
- the movement listing's snapshot projection and order;
- the user listing.

Code that works by loops and reassignment is a method proved against a function:
- the image-upload decision;
- the partial-update SET builder shared by the user and movement PUT handlers (a loop with an
  `idx` counter);
- the report WHERE/params builder;
- the CSV export loop.

JavaScript values are modelled explicitly:
- a request property is `Field<T>`: `Undefined`, `Null` or `Given(v)`;
- `Number(x)` yields `Num`: `NaN` or `Finite(n)`;
- truthiness, `??`, `String.prototype.trim` and ASCII lower-casing are written out in `Js`;
- `parseInt(v, 10)` is `Js.ParseInt`, proved to read back every canonical decimal numeral (no `+`, no leading zeros).

CSV output follows the quoting rule of RFC 4180, section 2, rule 7: every field is
double-quoted and inner quotes are doubled. Lines end in LF, not CRLF. A decoder for that
format shows the export is lossless.

## Model

| member | source | states |
|---|---|---|
| Productos.NormUnidad | routes/productos.js:63-66 | the result is always Kilogramo, Litro or Pieza; an allowed unit is kept, anything else (absent, null, other text) becomes Pieza |
| Productos.HandleImageUpload | routes/productos.js:36-61 | the method computes `ImageUpload`; it fails exactly when an upload is wanted and the host fails; a blob is scheduled for deletion only when a new upload replaces a truthy current id; without an upload the public id stays the current one; with neither upload nor http(s) URL nothing changes |
| Productos.Crear | routes/productos.js:102-190 | 500 iff the wanted upload fails. 409 iff the code is already taken, and then the tables are unchanged, the product key the rejected insert drew stays consumed, and the new blob is deleted. On success the new key is the next one and its row is exactly the normalised form: code, name, description, `Number(x) \|\| 0` for the numbers, the whitelisted unit, the trimmed date or null, the uploaded or `http…` image, and the truthy foreign ids. Other rows and the users are unchanged, and exactly one `entrada` movement of the quantity is appended iff it is positive (else none). Valid is kept |
| Productos.Editar | routes/productos.js:201-269 | 404 iff the product is missing. 500 iff the image upload fails, a number is not numeric, or another product has the code; then nothing changes. A failed upload deletes nothing; after a successful upload, a 500 from a non-numeric number or a taken code still deletes the replaced blob. On success that product's row is exactly the edited row (every column overwritten, the quantity absolutely), with the new URL, else the submitted `http(s)` URL, else the old one, and the new public id, else the old one; the replaced blob is deleted; one `editado` movement is appended; other products and the users are unchanged. Valid is kept |
| Productos.Eliminar | routes/productos.js:277-309 | 404 iff the product is missing, and then nothing changes. On success exactly one `eliminado` movement is appended, with the next key, quantity 0, the caller's id, the time and the pre-delete name and code; the row is removed; the users are unchanged; and the truthy blob id is scheduled for deletion |
| Productos.Consumir | routes/productos.js:314-361 | 400 iff the id is NaN ("ID inválido") or, the id being a number, the amount is not a positive number ("Cantidad inválida"). 404 iff the product is missing. "Stock insuficiente" iff the amount exceeds the stock. Any refusal changes nothing. Success sets only that quantity to old − amount (≥ 0), appends exactly one `salida` movement, and returns the new stock and movement id |
| Productos.Ingresar | routes/productos.js:366-409 | same refusals, with the same messages, without the stock check. Success sets the quantity to old + amount, appends one `entrada` movement, and returns the receipt |
| Ledger.ApplyKeepsStockNonNegative | routes/productos.js:335-346 | one consume or restock never makes a non-negative stock negative |
| Ledger.RunKeepsStockNonNegative | routes/productos.js:314-409 | any sequence of consume/restock calls keeps every quantity non-negative |
| Ledger.RunAppendsOneMovementPerSuccess | routes/productos.js:341-346 | each successful call appends exactly one movement, a refused call none, and earlier history is untouched |
| Ledger.RestockThenConsume | routes/productos.js:387-394 | restock(n) succeeds; the following consume(n) succeeds iff the stock was non-negative, and then every product is restored and exactly an `entrada` and a `salida` movement of n were added |
| Ledger.ConsumeWholeStock | routes/productos.js:335-339 | consuming exactly the stock succeeds with new stock 0; one unit more is refused with no change |
| Ledger.UnitConsumesSucceedUpToStock | routes/productos.js:335-346 | n one-unit consumptions of a product holding k ≥ 0 units: exactly min(n, k) succeed and the stock ends at k − min(n, k) |
| Ledger.Successes | routes/productos.js:314-409 | the number of calls in a run whose reply is `Ok`; it never exceeds the number of calls |
| Usuarios.NameFacts | routes/usuarios.js:29 | for a present name, trimming gives "" exactly when it is all whitespace, and trimming twice is trimming once |
| Usuarios.DefaultRoleIsTrimmed | routes/usuarios.js:47 | the stored role is `(rol \|\| 'Empleado').trim()` |
| Usuarios.Crear | routes/usuarios.js:25-55 | 400 iff the name is absent, falsy or blank, or the password is falsy. 409 iff the trimmed name exists. On success the id is the next key, not used before; the row holds the trimmed non-empty name, the digest and the role; nothing else changes |
| Usuarios.AssignUserColumns | routes/usuarios.js:65-91 | executing the built SET list changes the name and role to their trimmed value or null, and the password to its digest, exactly for the supplied fields |
| Usuarios.Actualizar | routes/usuarios.js:60-103 | 500 iff the password is null (the hash throws). 400 "Nada que actualizar" iff no field is supplied. 404 iff the id is missing. Otherwise only that user changes, exactly as the supplied fields say; blank becomes null |
| Usuarios.Eliminar | routes/usuarios.js:108-123 | 404 iff the id is missing, and nothing changes; otherwise exactly that user is removed |
| Usuarios.Login | routes/usuarios.js:128-158 | 400 iff a field is falsy. 401 "Usuario no encontrado" iff no user has that name; any other 401 is "Contraseña incorrecta". Success returns only id, name and role of a user with that name whose digest matches. It succeeds whenever every such user matches; "Contraseña incorrecta" implies some such user does not match |
| Usuarios.KeysDown | routes/usuarios.js:12-13 | the scan yields exactly the present keys in [1, k] |
| Usuarios.KeysDownDescending | routes/usuarios.js:13 | the scan is in strictly descending key order |
| Usuarios.ListarContents | routes/usuarios.js:10-20 | the listing shows every user exactly once, highest id first, each as id, name and role only (no digest) |
| Movimientos.Crear | routes/movimientos.js:40-61 | 400 iff `tipo` is falsy or `cantidad`/`id_usuario` is undefined, and nothing changes. Otherwise one row is appended with the next key; absent product id is stored as NULL; absent `fecha` becomes the current time; no snapshot |
| Movimientos.AssignMovementColumns | routes/movimientos.js:70-83 | executing the built SET list overwrites exactly the supplied columns (null included) in the order id_producto, tipo, cantidad, fecha, id_usuario |
| Movimientos.IndexOf | routes/movimientos.js:86-87 | finds the position of the row with the key, or None iff there is none |
| Movimientos.Actualizar | routes/movimientos.js:66-93 | 400 iff no column is supplied. 404 iff no row has the key. Otherwise exactly the row with the key is rewritten, and every other row, table and sequence is unchanged |
| Movimientos.ActualizarIdempotent | routes/movimientos.js:66-93 | applying the same update twice equals applying it once |
| Movimientos.RemoveAt | routes/movimientos.js:101-104 | removing one position keeps keys distinct and below the sequence, and removes exactly that row |
| Movimientos.Eliminar | routes/movimientos.js:98-111 | 404 iff no row has the key, and nothing changes. Otherwise exactly that row leaves the history, the others keep their order, and the length drops by one |
| Movimientos.EliminarTwice | routes/movimientos.js:98-111 | a second delete of the same key is a 404 |
| Movimientos.ProjectionPrefersSnapshot | routes/movimientos.js:15-16 | a snapshot name and code are shown whatever the products table holds. Without them, the live product's name and code are shown, else "Producto" and no code |
| Movimientos.DeletedProductListing | routes/movimientos.js:15-16 | after a product is deleted, its tombstone shows the name and code from the snapshot, and its older movements show "Producto" and no code |
| Movimientos.ListedBeforeIsPreorder | routes/movimientos.js:25 | `fecha DESC` (NULL first), then `id_movimiento DESC`, is a total preorder |
| Movimientos.ListarOrdered | routes/movimientos.js:10-35 | the listing is sorted by that order, is a permutation of the projected rows, and has one row per movement |
| Movimientos.ListarIsTheOrder | routes/movimientos.js:25 | since keys are distinct, any sorted arrangement of the projected rows is the listing: the order is fully determined |
| Movimientos.ProjectedNoTies | routes/movimientos.js:25 | two projected rows that tie in the order are the same row |
| Sql.SuppliedNames | routes/usuarios.js:69-84 | the names of the supplied columns (those whose property is defined), in column order; never more than the columns |
| Sql.SuppliedValues | routes/movimientos.js:74-78 | one value per supplied name |
| Sql.BuildSet | routes/movimientos.js:70-78 | the loop yields the SET list and the supplied values in request order, and `idx` ends one past the number of parameters |
| Sql.BuildUpdate | routes/usuarios.js:86-91 | none iff nothing is supplied; otherwise the parameters are the supplied values then the id, and the statement binds the id at the last placeholder |
| Sql.SetListBinds | routes/movimientos.js:74-83 | the k-th clause is the k-th supplied name followed by `=$` and a numeral that reads back as k+1: placeholders are consecutive from $1 |
| Sql.NoneSupplied | routes/movimientos.js:80 | nothing to update exactly when no column is supplied |
| Sql.SuppliedCount | routes/usuarios.js:65-84 | the number of clauses equals the number of supplied columns |
| Sql.AssignSupplied | routes/movimientos.js:82-86 | executing the SET list assigns the supplied columns their values in request order |
| Sql.AssignIgnoresExtra | routes/usuarios.js:90-92 | the id bound after the SET list does not affect the row |
| Sql.AssignAppend | routes/usuarios.js:86-92 | assignments compose: a SET list split in two acts as the first part, then the second |
| Reportes.RangoFechas | routes/reportes.js:9-22 | `from` is `q.from`, else `q.desde`, else the date 30 days back. `to` is `q.to`, else `q.hasta`, else today. `fromDT`/`toDT` are those dates followed by " 00:00:00" and " 23:59:59" |
| Reportes.IntOrNullReadsNumerals | routes/reportes.js:23-26 | the canonical decimal numeral of every integer (no `+`, no leading zeros) is read back as that integer |
| Js.ParseIntRoundTrip | routes/reportes.js:24 | `parseInt` reads back the decimal numeral of every natural number |
| Reportes.TipoValido | routes/reportes.js:27-31 | the result is "entrada" or "salida" or null. It is "entrada" iff the input lower-cases to "entrada", and likewise "salida"; an absent or empty input gives null |
| Reportes.TipoValidoIgnoresCase | routes/reportes.js:29 | two inputs that lower-case alike are judged alike |
| Reportes.TipoValidoIdempotent | routes/reportes.js:27-31 | a valid type is its own normal form |
| Reportes.SanitizeLimit | routes/reportes.js:32-36 | the default when the input does not parse; otherwise the value clamped to [1, max] |
| Reportes.SanitizeLimitIdempotent | routes/reportes.js:32-36 | sanitising a sanitised limit changes nothing |
| Reportes.BuildFilter | routes/reportes.js:169-172 | the date range is bound at $1 and $2. The user clause is added only for a non-zero id, then the type clause only for a valid type. Each placeholder is the parameter count after its push, so there are 2 + filters parameters |
| Reportes.LowKeysFrom | routes/reportes.js:115-118 | the scan yields exactly the present keys in range whose product has `cantidad <= stock_min` |
| Reportes.LowKeysFromCount | routes/reportes.js:118 | the scan has one entry per low product in range |
| Reportes.NameLeTotal | routes/reportes.js:119 | name order (code-point, as the C collation) is total |
| Reportes.NameLeTransitive | routes/reportes.js:119 | name order is transitive |
| Reportes.LowBeforeIsPreorder | routes/reportes.js:119 | `(stock_min − cantidad) DESC, nombre ASC` is a total preorder |
| Reportes.StockBajoContents | routes/reportes.js:114-128 | the report is sorted by that order, has one row per low product, and holds a row iff it is a low product's row |
| Reportes.LowStockSplitsIntoAlertsAndAtMinimum | routes/reportes.js:118-137 | the report's size is the KPI alert count (`cantidad < stock_min`) plus the products exactly at their minimum, so the alert count never exceeds it |
| Reportes.RestockShortfall | routes/reportes.js:118-137 | restocking a product by its shortfall leaves it in the low-stock report, drops it from the alerts, and lowers the alert count by one |
| Csv.ExportCsv | routes/reportes.js:301-310 | the loop yields the header line then one line per row; zero rows give the header line alone; decoding the output yields every row's nine column texts in order |
| Csv.FieldRoundTrip | routes/reportes.js:304-307 | stripping the quotes and collapsing `""` recovers every field |
| Csv.ReadBodyEscape | routes/reportes.js:306 | the doubled-quote escape is undone up to the closing quote |
| Csv.ReadRecordLine | routes/reportes.js:304-309 | a line of quoted fields joined by commas and ended by LF reads back as those fields |
| Csv.ReadLines | routes/reportes.js:303-310 | the concatenated lines read back as the table |
| Csv.DecodeEncode | routes/reportes.js:301-310 | the whole export decodes to the table; null or absent columns come back as "" |
| Csv.LinesAppend | routes/reportes.js:309 | appending a row appends its line |
| Database.Store.CrearProducto | routes/productos.js:90-195 | state and reply are exactly those of `Productos.Crear`; Valid is kept |
| Database.Store.EditarProducto | routes/productos.js:201-270 | state and reply are exactly those of `Productos.Editar` |
| Database.Store.EliminarProducto | routes/productos.js:277-309 | state and reply are exactly those of `Productos.Eliminar` |
| Database.Store.Consumir | routes/productos.js:314-361 | state and reply are exactly those of `Productos.Consumir` |
| Database.Store.Ingresar | routes/productos.js:366-409 | state and reply are exactly those of `Productos.Ingresar` |
| Database.Store.CrearUsuario | routes/usuarios.js:25-55 | state and reply are exactly those of `Usuarios.Crear` |
| Database.Store.ActualizarUsuario | routes/usuarios.js:60-103 | builds the statement with `Sql.BuildUpdate` and applies its SET list; state and reply are exactly those of `Usuarios.Actualizar` |
| Database.Store.EliminarUsuario | routes/usuarios.js:108-123 | state and reply are exactly those of `Usuarios.Eliminar` |
| Database.Store.CrearMovimiento | routes/movimientos.js:40-61 | state and reply are exactly those of `Movimientos.Crear` |
| Database.Store.ActualizarMovimiento | routes/movimientos.js:66-93 | builds the statement with `Sql.BuildUpdate` and applies its SET list; state and reply are exactly those of `Movimientos.Actualizar` |
| Database.Store.EliminarMovimiento | routes/movimientos.js:98-111 | state and reply are exactly those of `Movimientos.Eliminar` |

## Left out

- I/O, routing and status codes: Express routing, multer parsing and the HTTP responses are
  left out; replies are the `Reply` datatype.
- Concurrency and transactions: each handler is one atomic, sequential step. The pool and the
  `SELECT … FOR UPDATE` row lock are not modelled.
- Media host: uploads to the media host are an input `Upload`, which is a URL and public id or
  a failure. Blob deletion is an output, `destroy`; it is best effort and never affects the
  database.
- bcrypt: hashing is an input `digest`. `bcrypt.compare` is an input predicate `matches`.
- The clock: `NOW()` is the parameter `now`, an integer timestamp. `rangoFechas` takes today
  and the date 30 days back as parameters; the date arithmetic is not modelled.
- Numbers: quantities and prices are integers (a price in its smallest unit). Floating point,
  fractional amounts, `Infinity` and numerals too large for a double are not modelled.
- Path ids: a non-numeric id in a path makes PostgreSQL raise an error (500). The model takes
  path ids as integers, except in the stock endpoints, which check for NaN themselves. There an
  id such as "1e1", "0x10" or "5.0" passes the NaN check but not PostgreSQL's integer input, so
  the handler answers 500; the model takes the number (10, 16, 5) and looks that product up.
- Schema: only the UNIQUE constraint on `productos.codigo` is modelled. Foreign keys are not,
  and column types only as follows: the numeric product columns are taken to be integer-typed,
  so the store refuses a NaN from `Number(x ?? 0)` in the edit (500). If those columns were
  NUMERIC, which accepts NaN, the edit would store it instead. Movements keep their `id_producto` after the product
  is deleted.
- Reports not modelled: total-productos, mayor/menor-stock, the value and totals of `/kpis`
  other than the alert count, and the series/top/categoría/usuario aggregates. These are SQL
  aggregates evaluated by the database.
- Reportes.StockBajo: the order is `(stock_min − cantidad) DESC, nombre ASC`, with names
  compared by code point (the "C" collation). Under another collation the name order differs.
  Rows that tie on both keys may come in any order.
- Csv.ExportCsv: the export's SQL query (join and order) is not modelled; the method takes the
  result rows as given. Every cell is its column's text, with NULL and absent as "".
- Usuarios.Login: with several users of the same name, the query has no ORDER BY and returns
  any one of them. The contract therefore does not say which user is checked.
- Categories, providers, uploads and server wiring (`routes/categorias.js`,
  `routes/proveedores.js`, `routes/uploads.js`, `server.js`) are not part of this model.
- GET `/productos` is a plain `SELECT` and is not modelled.
- ProductForm: `codigo` and `nombre` are always present text. An absent one is sent as NULL;
  with `codigo` NOT NULL the store refuses it (500, and creation deletes the blob it just
  uploaded), and the edit of an absent `nombre` would store NULL. Text fields of the wrong JSON
  type are not modelled either: `imagen_url.startsWith` on a non-string throws (500), as does
  `nombre.trim()` in user creation.
- Productos.TruthyId: foreign ids (`id_categoria`, `id_proveedor`, `id_usuario`) are taken as
  numbers already read from the body. A multipart text "0" is truthy in the handler, which
  then stores 0; the model cannot tell it from the number 0 and stores null. Non-numeric id
  text, which PostgreSQL would reject, is not modelled either.

Two places where the code and the intended behaviour disagree; the model follows the code:
- **Low-stock boundary.** The low-stock report uses `cantidad <= stock_min`, so a product
  exactly at its minimum stays in the report. The KPI alert count uses `<` and leaves it out.
  `Reportes.LowStockSplitsIntoAlertsAndAtMinimum` and `Reportes.RestockShortfall` state this.
- **Blob deleted before the edit's UPDATE.** The product edit deletes the old blob, inside
  `handleImageUpload`, before its UPDATE runs. If the UPDATE fails (a non-numeric number, a
  duplicate code), the row still points at the deleted blob. `Productos.Editar` reports the
  deletion even on that failure.
