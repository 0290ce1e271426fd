/** The product routes: unit normalisation, image handling, and creation, editing, deletion,
    consumption and restocking as transitions of the database. Each transition is one atomic
    step; the row lock taken by consumption and restocking is not modelled. */
module Productos {
  import opened Js
  import opened Tables

  const KILOGRAMO := "Kilogramo"
  const LITRO := "Litro"
  const PIEZA := "Pieza"

  /** `normUnidad`: an allowed unit passes through, anything else becomes "Pieza". */
  function NormUnidad(tipoUnidad: Field<string>): (r: string)
    ensures r == KILOGRAMO || r == LITRO || r == PIEZA
    ensures tipoUnidad.Given? && tipoUnidad.value in {KILOGRAMO, LITRO, PIEZA} ==> r == tipoUnidad.value
    ensures !(tipoUnidad.Given? && tipoUnidad.value in {KILOGRAMO, LITRO, PIEZA}) ==> r == PIEZA
  {
    if tipoUnidad.Given? && tipoUnidad.value in [KILOGRAMO, LITRO, PIEZA] then tipoUnidad.value
    else PIEZA
  }

  // ---------------------------------------------------------------------------
  // Images
  // ---------------------------------------------------------------------------

  /** What the media host answers when asked to store an image. */
  datatype Upload = Uploaded(secureUrl: string, publicId: string) | UploadFailed

  /** The image a product ends up with, and the blob (if any) the handler asks the media host to
      delete. The deletion is best effort and never affects the database. */
  datatype Image = Image(url: Option<string>, publicId: Option<string>, destroy: Option<string>)

  predicate IsDataUri(s: string)
  {
    StartsWith(s, "data:")
  }

  /** `/^https?:\/\//i` */
  predicate IsHttpUrl(s: string)
  {
    StartsWith(ToLower(s), "http://") || StartsWith(ToLower(s), "https://")
  }

  /** An upload happens for an attached file or a data URI. */
  predicate WantsUpload(file: bool, base64: Field<string>)
  {
    file || (TruthyText(base64) && IsDataUri(base64.value))
  }

  /** `handleImageUpload`; None when the upload throws. */
  function ImageUpload(file: bool, base64: Field<string>, currentPublicId: Option<string>, upload: Upload)
    : Option<Image>
  {
    var current := if TruthyOpt(currentPublicId) then currentPublicId else None;
    if WantsUpload(file, base64) then
      if upload.UploadFailed? then None
      else Some(Image(Some(upload.secureUrl), Some(upload.publicId), current))
    else if TruthyText(base64) && IsHttpUrl(base64.value) then
      Some(Image(Some(base64.value), current, None))
    else
      Some(Image(None, current, None))
  }

  /** `handleImageUpload`, step by step: a new blob replaces the current one, and the current
      one is deleted only once its replacement is stored; an external URL is adopted without an
      upload and keeps the current public id; otherwise nothing changes. */
  method HandleImageUpload(file: bool, base64: Field<string>, currentPublicId: Option<string>, upload: Upload)
    returns (r: Option<Image>)
    ensures r == ImageUpload(file, base64, currentPublicId, upload)
    ensures r.None? <==> WantsUpload(file, base64) && upload.UploadFailed?
    ensures r.Some? && r.value.destroy.Some? ==>
              && WantsUpload(file, base64)
              && r.value.publicId == Some(upload.publicId)
              && r.value.destroy == currentPublicId
    ensures r.Some? && !WantsUpload(file, base64) ==>
              r.value.publicId == (if TruthyOpt(currentPublicId) then currentPublicId else None)
    ensures !WantsUpload(file, base64) && !(TruthyText(base64) && IsHttpUrl(base64.value)) ==>
              r.Some? && r.value.url.None? && r.value.destroy.None?
  {
    var url: Option<string> := None;
    var publicId := if TruthyOpt(currentPublicId) then currentPublicId else None;
    var destroy: Option<string> := None;
    if file || (TruthyText(base64) && IsDataUri(base64.value)) {
      if upload.UploadFailed? {
        return None;
      }
      url := Some(upload.secureUrl);
      if TruthyOpt(currentPublicId) {
        destroy := currentPublicId;
      }
      publicId := Some(upload.publicId);
    } else if TruthyText(base64) && IsHttpUrl(base64.value) {
      url := Some(base64.value);
    }
    return Some(Image(url, publicId, destroy));
  }

  /** The image of a new product: (url, public id), or None when the upload throws. Unlike the
      edit handler, creation recognises an external URL by a case-sensitive "http" prefix. */
  function CreationImage(file: bool, imagenUrl: Field<string>, upload: Upload): Option<(Option<string>, Option<string>)>
  {
    if WantsUpload(file, imagenUrl) then
      if upload.UploadFailed? then None else Some((Some(upload.secureUrl), Some(upload.publicId)))
    else if TruthyText(imagenUrl) && StartsWith(imagenUrl.value, "http") then
      Some((Some(imagenUrl.value), None))
    else
      Some((None, None))
  }

  // ---------------------------------------------------------------------------
  // Requests and replies
  // ---------------------------------------------------------------------------

  /** The body of POST `/` and PUT `/:id` (multipart fields or JSON). `codigo` and `nombre`
      are always given as text. */
  datatype ProductForm = ProductForm(
    codigo: string,
    nombre: string,
    descripcion: Field<string>,
    cantidad: Field<Num>,
    precioUnitario: Field<Num>,
    stockMin: Field<Num>,
    stockMax: Field<Num>,
    fechaIngreso: Field<string>,
    imagenUrl: Field<string>,
    idCategoria: Field<int>,
    idProveedor: Field<int>,
    tipoUnidad: Field<string>,
    idUsuario: Field<int>)

  /** A product handler's outcome, with the blob it asks the media host to delete. */
  datatype Effect<+T> = Effect(db: Db, reply: Reply<T>, destroy: Option<string>)

  /** The reply of the stock endpoints: `nuevo_stock` and `id_movimiento`. */
  datatype Receipt = Receipt(nuevoStock: int, idMovimiento: int)

  /** `x ? Number(x) : null` */
  function TruthyId(f: Field<int>): Option<int>
  {
    if TruthyInt(f) then Some(f.value) else None
  }

  /** The creation handler's `fecha_ingreso`: trimmed, or null when absent or blank. */
  function FechaSql(f: Field<string>): Option<string>
  {
    if TruthyText(f) && Trim(f.value) != "" then Some(Trim(f.value)) else None
  }

  function StockMovement(id: int, producto: int, tipo: string, cantidad: int, usuario: Option<int>, now: int): Movement
  {
    Movement(id, Some(producto), Some(tipo), Some(cantidad), usuario, Some(now), None, None)
  }

  // ---------------------------------------------------------------------------
  // POST /  (create)
  // ---------------------------------------------------------------------------

  function NewRow(f: ProductForm, url: Option<string>, publicId: Option<string>): Product
  {
    Product(f.codigo, f.nombre, Nullish(f.descripcion), NumberOrZero(f.cantidad), NormUnidad(f.tipoUnidad),
            NumberOrZero(f.precioUnitario), NumberOrZero(f.stockMin), NumberOrZero(f.stockMax),
            FechaSql(f.fechaIngreso), url, publicId, TruthyId(f.idCategoria), TruthyId(f.idProveedor))
  }

  /** Creation: upload the image if any, insert the row, and, when the initial quantity is
      positive, an `entrada` movement for it, all in one transaction. A duplicate code rolls
      the row and the movement back (409) and deletes the blob just uploaded; the product key
      the rejected `INSERT` drew from the sequence stays consumed. */
  function Crear(db: Db, f: ProductForm, file: bool, upload: Upload, now: int): (r: Effect<int>)
    requires Valid(db)
    ensures r.reply.Ok? || r.reply.Conflict? || r.reply.ServerError?
    ensures r.reply.ServerError? ==> r.db == db
    ensures r.reply.Conflict? ==> r.db == SkipProductKey(db)
    ensures r.reply.ServerError? <==> WantsUpload(file, f.imagenUrl) && upload.UploadFailed?
    ensures r.reply.Conflict? <==> CreationImage(file, f.imagenUrl, upload).Some? && CodeTaken(db.productos, f.codigo, None)
    ensures r.reply.Conflict? ==> r.destroy == CreationImage(file, f.imagenUrl, upload).value.1
    ensures r.reply.ServerError? ==> r.destroy.None?
    ensures r.reply.Ok? ==>
              && r.reply.value == db.nextProducto
              && r.db.productos.Keys == db.productos.Keys + {db.nextProducto}
              && (forall k :: k in db.productos ==> r.db.productos[k] == db.productos[k])
              && r.db.productos[db.nextProducto].cantidad == NumberOrZero(f.cantidad)
              && r.db.usuarios == db.usuarios
              && r.db.nextProducto == db.nextProducto + 1
              && r.db.nextMovimiento == db.nextMovimiento + (if NumberOrZero(f.cantidad) > 0 then 1 else 0)
              && r.db.nextUsuario == db.nextUsuario
              && r.destroy.None?
    ensures r.reply.Ok? ==>
              var img := CreationImage(file, f.imagenUrl, upload).value;
              r.db.productos[db.nextProducto] == NewRow(f, img.0, img.1)
    ensures r.reply.Ok? && NumberOrZero(f.cantidad) > 0 ==>
              r.db.movimientos == db.movimientos + [StockMovement(db.nextMovimiento, db.nextProducto, ENTRADA,
                                                                  NumberOrZero(f.cantidad), TruthyId(f.idUsuario), now)]
    ensures r.reply.Ok? && NumberOrZero(f.cantidad) <= 0 ==> r.db.movimientos == db.movimientos
    ensures Valid(r.db)
  {
    var cant := NumberOrZero(f.cantidad);
    match CreationImage(file, f.imagenUrl, upload)
    case None => Effect(db, ServerError, None)
    case Some((url, publicId)) =>
      if CodeTaken(db.productos, f.codigo, None) then
        SkipProductKeyValid(db);
        Effect(SkipProductKey(db), Conflict("CODIGO_DUPLICADO"), publicId)
      else
        var id := db.nextProducto;
        var db1 := db.(productos := db.productos[id := NewRow(f, url, publicId)], nextProducto := id + 1);
        if cant > 0 then
          var m := StockMovement(db.nextMovimiento, id, ENTRADA, cant, TruthyId(f.idUsuario), now);
          assert Valid(db1);
          AppendMovementValid(db1, m);
          Effect(db1.(movimientos := db1.movimientos + [m], nextMovimiento := db1.nextMovimiento + 1), Ok(id), None)
        else
          Effect(db1, Ok(id), None)
  }

  // ---------------------------------------------------------------------------
  // PUT /:id  (edit)
  // ---------------------------------------------------------------------------

  /** The URL the edit stores: the new one, else the submitted external URL, else the old one. */
  function FinalUrl(img: Image, imagenUrl: Field<string>, prev: Product): Option<string>
  {
    if img.url.Some? then img.url
    else if TruthyText(imagenUrl) && IsHttpUrl(imagenUrl.value) then Some(imagenUrl.value)
    else prev.imagenUrl
  }

  /** The public id the edit stores: the new one, else the old one. */
  function FinalPublicId(img: Image, prev: Product): Option<string>
  {
    if img.publicId.Some? then img.publicId else prev.imagenPublicId
  }

  /** The four numbers of the edit, each `Number(x ?? 0)`. */
  function EditNumbers(f: ProductForm): seq<Num>
  {
    [NumberOfNullishZero(f.cantidad), NumberOfNullishZero(f.precioUnitario),
     NumberOfNullishZero(f.stockMin), NumberOfNullishZero(f.stockMax)]
  }

  predicate AllFinite(ns: seq<Num>)
  {
    forall i :: 0 <= i < |ns| ==> ns[i].Finite?
  }

  function EditedRow(f: ProductForm, nums: seq<Num>, url: Option<string>, publicId: Option<string>): Product
    requires |nums| == 4 && AllFinite(nums)
  {
    Product(f.codigo, f.nombre, Some(if f.descripcion.Given? then f.descripcion.value else ""), nums[0].n,
            NormUnidad(f.tipoUnidad), nums[1].n, nums[2].n, nums[3].n, Nullish(f.fechaIngreso), url, publicId,
            Nullish(f.idCategoria), Nullish(f.idProveedor))
  }

  /** Editing: overwrite every column (the quantity absolutely, not as a delta) and append an
      `editado` movement. The image is handled first, so a failing UPDATE (a non-numeric number,
      which the store refuses, or a code taken by another product) leaves the database as it was
      even though the old blob may already have been deleted. */
  function Editar(db: Db, id: int, f: ProductForm, file: bool, upload: Upload, now: int): (r: Effect<()>)
    requires Valid(db)
    ensures r.reply.Ok? || r.reply.NotFound? || r.reply.ServerError?
    ensures r.reply.NotFound? <==> id !in db.productos
    ensures r.reply.ServerError? <==>
              && id in db.productos
              && (|| ImageUpload(file, f.imagenUrl, db.productos[id].imagenPublicId, upload).None?
                  || !AllFinite(EditNumbers(f))
                  || CodeTaken(db.productos, f.codigo, Some(id)))
    ensures !r.reply.Ok? ==> r.db == db
    ensures r.reply.NotFound? ==> r.destroy.None?
    ensures r.reply.ServerError? && ImageUpload(file, f.imagenUrl, db.productos[id].imagenPublicId, upload).None? ==>
              r.destroy.None?
    ensures r.reply.Ok? ==>
              && id in db.productos
              && r.db.productos.Keys == db.productos.Keys
              && (forall k :: k in db.productos && k != id ==> r.db.productos[k] == db.productos[k])
              && Finite(r.db.productos[id].cantidad) == NumberOfNullishZero(f.cantidad)
              && r.db.movimientos == db.movimientos + [StockMovement(db.nextMovimiento, id, EDITADO,
                                                                     NumberOrZero(f.cantidad), Nullish(f.idUsuario), now)]
              && r.db.usuarios == db.usuarios
              && r.db.nextProducto == db.nextProducto
              && r.db.nextMovimiento == db.nextMovimiento + 1
              && r.db.nextUsuario == db.nextUsuario
    ensures r.reply.Ok? ==>
              var img := ImageUpload(file, f.imagenUrl, db.productos[id].imagenPublicId, upload).value;
              && r.db.productos[id] == EditedRow(f, EditNumbers(f), FinalUrl(img, f.imagenUrl, db.productos[id]),
                                                 FinalPublicId(img, db.productos[id]))
              && r.destroy == img.destroy
    ensures r.reply.ServerError? && ImageUpload(file, f.imagenUrl, db.productos[id].imagenPublicId, upload).Some? ==>
              r.destroy == ImageUpload(file, f.imagenUrl, db.productos[id].imagenPublicId, upload).value.destroy
    ensures r.reply.Ok? && !file && !TruthyText(f.imagenUrl) ==>
              && r.db.productos[id].imagenUrl == db.productos[id].imagenUrl
              && r.db.productos[id].imagenPublicId == db.productos[id].imagenPublicId
              && r.destroy.None?
    ensures Valid(r.db)
  {
    if id !in db.productos then Effect(db, NotFound, None)
    else
      var prev := db.productos[id];
      match ImageUpload(file, f.imagenUrl, prev.imagenPublicId, upload)
      case None => Effect(db, ServerError, None)
      case Some(img) =>
        var nums := EditNumbers(f);
        if !AllFinite(nums) || CodeTaken(db.productos, f.codigo, Some(id)) then Effect(db, ServerError, img.destroy)
        else
          var row := EditedRow(f, nums, FinalUrl(img, f.imagenUrl, prev), FinalPublicId(img, prev));
          var db1 := db.(productos := db.productos[id := row]);
          var m := StockMovement(db.nextMovimiento, id, EDITADO, NumberOrZero(f.cantidad), Nullish(f.idUsuario), now);
          assert Valid(db1);
          AppendMovementValid(db1, m);
          Effect(db1.(movimientos := db1.movimientos + [m], nextMovimiento := db1.nextMovimiento + 1), Ok(()), img.destroy)
  }

  // ---------------------------------------------------------------------------
  // DELETE /:id
  // ---------------------------------------------------------------------------

  /** The `eliminado` movement: quantity 0 and a snapshot of the name and code, written before
      the row disappears so that the history can still show them. */
  function Tombstone(db: Db, id: int, idUsuario: Field<int>, now: int): Movement
    requires id in db.productos
  {
    var p := db.productos[id];
    Movement(db.nextMovimiento, Some(id), Some(ELIMINADO), Some(0), Nullish(idUsuario), Some(now), Some(p.nombre), Some(p.codigo))
  }

  /** Deletion: snapshot movement, best-effort blob deletion, then removal of the row; 404 and no
      change when the product does not exist. */
  function Eliminar(db: Db, id: int, idUsuario: Field<int>, now: int): (r: Effect<()>)
    requires Valid(db)
    ensures r.reply.Ok? || r.reply.NotFound?
    ensures r.reply.NotFound? <==> id !in db.productos
    ensures r.reply.NotFound? ==> r.db == db && r.destroy.None?
    ensures r.reply.Ok? ==>
              && id in db.productos
              && r.db.productos == db.productos - {id}
              && r.db.movimientos == db.movimientos + [Tombstone(db, id, idUsuario, now)]
              && r.db.usuarios == db.usuarios
              && r.db.nextMovimiento == db.nextMovimiento + 1
              && r.db.nextProducto == db.nextProducto
              && r.db.nextUsuario == db.nextUsuario
              && |r.db.movimientos| == |db.movimientos| + 1
              && r.db.movimientos[..|db.movimientos|] == db.movimientos
              && var m := r.db.movimientos[|db.movimientos|];
                 && m.tipo == Some(ELIMINADO) && m.cantidad == Some(0) && m.idProducto == Some(id)
                 && m.productoNombre == Some(db.productos[id].nombre)
                 && m.productoCodigo == Some(db.productos[id].codigo)
    ensures r.reply.Ok? ==>
              r.destroy == (if TruthyOpt(db.productos[id].imagenPublicId) then db.productos[id].imagenPublicId else None)
    ensures Valid(r.db)
  {
    if id !in db.productos then Effect(db, NotFound, None)
    else
      var p := db.productos[id];
      var m := Tombstone(db, id, idUsuario, now);
      AppendMovementValid(db, m);
      var db1 := db.(movimientos := db.movimientos + [m], nextMovimiento := db.nextMovimiento + 1);
      var destroy := if TruthyOpt(p.imagenPublicId) then p.imagenPublicId else None;
      Effect(db1.(productos := db.productos - {id}), Ok(()), destroy)
  }

  // ---------------------------------------------------------------------------
  // POST /:id/consumir and POST /:id/ingresar
  // ---------------------------------------------------------------------------

  /** The amount checks both stock endpoints make before touching the database:
      `!id || isNaN(Number(id))` and `!cant || cant <= 0`. */
  function CheckRequest(id: Num, cantidad: Field<Num>): Option<Reply<Receipt>>
  {
    if id.NaN? then Some(BadRequest("ID inválido"))
    else if ToNumber(cantidad).NaN? || ToNumber(cantidad).n <= 0 then Some(BadRequest("Cantidad inválida"))
    else None
  }

  /** The amount is a positive number and the id a number. */
  predicate GoodRequest(id: Num, cantidad: Field<Num>)
  {
    id.Finite? && ToNumber(cantidad).Finite? && ToNumber(cantidad).n > 0
  }

  /** Consumption: take `cantidad` out of the product's stock and append one `salida` movement,
      refusing when the stock would go below zero. */
  function Consumir(db: Db, id: Num, cantidad: Field<Num>, idUsuario: Field<int>, now: int): (r: Step<Receipt>)
    requires Valid(db)
    ensures r.reply.Ok? <==>
              GoodRequest(id, cantidad) && id.n in db.productos && ToNumber(cantidad).n <= db.productos[id.n].cantidad
    ensures r.reply.BadRequest? <==> !GoodRequest(id, cantidad)
    ensures r.reply == BadRequest("ID inválido") <==> id.NaN?
    ensures r.reply == BadRequest("Cantidad inválida") <==> id.Finite? && !GoodRequest(id, cantidad)
    ensures r.reply.NotFound? <==> GoodRequest(id, cantidad) && id.n !in db.productos
    ensures r.reply.InsufficientStock? <==>
              GoodRequest(id, cantidad) && id.n in db.productos && ToNumber(cantidad).n > db.productos[id.n].cantidad
    ensures !r.reply.Ok? ==> r.db == db
    ensures r.reply.Ok? ==>
              var old_ := db.productos[id.n].cantidad;
              var amount := ToNumber(cantidad).n;
              && r.reply.value == Receipt(old_ - amount, db.nextMovimiento)
              && r.reply.value.nuevoStock >= 0
              && r.db.productos == db.productos[id.n := db.productos[id.n].(cantidad := old_ - amount)]
              && r.db.movimientos == db.movimientos + [StockMovement(db.nextMovimiento, id.n, SALIDA, amount, Nullish(idUsuario), now)]
              && r.db.usuarios == db.usuarios
              && r.db.nextMovimiento == db.nextMovimiento + 1
              && r.db.nextProducto == db.nextProducto
              && r.db.nextUsuario == db.nextUsuario
    ensures Valid(r.db)
  {
    match CheckRequest(id, cantidad)
    case Some(bad) => Step(db, bad)
    case None =>
      var cant := ToNumber(cantidad).n;
      if id.n !in db.productos then Step(db, NotFound)
      else
        var nuevo := db.productos[id.n].cantidad - cant;
        if nuevo < 0 then Step(db, InsufficientStock)
        else
          var m := StockMovement(db.nextMovimiento, id.n, SALIDA, cant, Nullish(idUsuario), now);
          AppendMovementValid(db, m);
          var db1 := db.(movimientos := db.movimientos + [m], nextMovimiento := db.nextMovimiento + 1);
          Step(db1.(productos := db.productos[id.n := db.productos[id.n].(cantidad := nuevo)]), Ok(Receipt(nuevo, m.id)))
  }

  /** Restocking: add `cantidad` to the product's stock and append one `entrada` movement. */
  function Ingresar(db: Db, id: Num, cantidad: Field<Num>, idUsuario: Field<int>, now: int): (r: Step<Receipt>)
    requires Valid(db)
    ensures r.reply.Ok? <==> GoodRequest(id, cantidad) && id.n in db.productos
    ensures r.reply.BadRequest? <==> !GoodRequest(id, cantidad)
    ensures r.reply == BadRequest("ID inválido") <==> id.NaN?
    ensures r.reply == BadRequest("Cantidad inválida") <==> id.Finite? && !GoodRequest(id, cantidad)
    ensures r.reply.NotFound? <==> GoodRequest(id, cantidad) && id.n !in db.productos
    ensures !r.reply.Ok? ==> r.db == db
    ensures r.reply.Ok? ==>
              var old_ := db.productos[id.n].cantidad;
              var amount := ToNumber(cantidad).n;
              && r.reply.value == Receipt(old_ + amount, db.nextMovimiento)
              && r.reply.value.nuevoStock > old_
              && r.db.productos == db.productos[id.n := db.productos[id.n].(cantidad := old_ + amount)]
              && r.db.movimientos == db.movimientos + [StockMovement(db.nextMovimiento, id.n, ENTRADA, amount, Nullish(idUsuario), now)]
              && r.db.usuarios == db.usuarios
              && r.db.nextMovimiento == db.nextMovimiento + 1
              && r.db.nextProducto == db.nextProducto
              && r.db.nextUsuario == db.nextUsuario
    ensures Valid(r.db)
  {
    match CheckRequest(id, cantidad)
    case Some(bad) => Step(db, bad)
    case None =>
      var cant := ToNumber(cantidad).n;
      if id.n !in db.productos then Step(db, NotFound)
      else
        var nuevo := db.productos[id.n].cantidad + cant;
        var m := StockMovement(db.nextMovimiento, id.n, ENTRADA, cant, Nullish(idUsuario), now);
        AppendMovementValid(db, m);
        var db1 := db.(movimientos := db.movimientos + [m], nextMovimiento := db.nextMovimiento + 1);
        Step(db1.(productos := db.productos[id.n := db.productos[id.n].(cantidad := nuevo)]), Ok(Receipt(nuevo, m.id)))
  }
}
