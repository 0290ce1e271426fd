/** The database the handlers share, as one object: the three tables and their key sequences
    are fields, and each mutating endpoint is a method that updates them in place. Every method
    is proved to leave exactly the state, and give exactly the reply, that the endpoint's step
    function in `Productos`, `Usuarios` or `Movimientos` describes, so the properties proved
    about those functions hold of the object. */
module Database {
  import opened Js
  import opened Tables
  import Sql
  import Productos
  import Usuarios
  import Movimientos

  class Store {
    var productos: map<int, Product>
    var movimientos: seq<Movement>
    var usuarios: map<int, User>
    var nextProducto: int
    var nextMovimiento: int
    var nextUsuario: int

    /** The tables as one value. */
    function State(): Db
      reads this
    {
      Db(productos, movimientos, usuarios, nextProducto, nextMovimiento, nextUsuario)
    }

    predicate Valid()
      reads this
    {
      Tables.Valid(State())
    }

    /** An empty database whose sequences all start at 1. */
    constructor ()
      ensures State() == Db(map[], [], map[], 1, 1, 1)
      ensures Valid()
    {
      productos, movimientos, usuarios := map[], [], map[];
      nextProducto, nextMovimiento, nextUsuario := 1, 1, 1;
    }

    /** `INSERT INTO movimientos ... RETURNING id_movimiento` */
    method AppendMovement(m: Movement)
      requires m.id == nextMovimiento
      modifies this
      ensures State() == old(State()).(movimientos := old(movimientos) + [m], nextMovimiento := old(nextMovimiento) + 1)
    {
      movimientos := movimientos + [m];
      nextMovimiento := nextMovimiento + 1;
    }

    // -------------------------------------------------------------------------
    // routes/productos.js
    // -------------------------------------------------------------------------

    /** POST `/productos` */
    method CrearProducto(f: Productos.ProductForm, file: bool, upload: Productos.Upload, now: int)
      returns (reply: Reply<int>, destroy: Option<string>)
      requires Valid()
      modifies this
      ensures Valid()
      ensures Productos.Effect(State(), reply, destroy) == Productos.Crear(old(State()), f, file, upload, now)
    {
      var image := Productos.CreationImage(file, f.imagenUrl, upload);
      if image.None? {
        return ServerError, None;
      }
      var (url, publicId) := image.value;
      if CodeTaken(productos, f.codigo, None) {
        nextProducto := nextProducto + 1;
        return Conflict("CODIGO_DUPLICADO"), publicId;
      }
      var id := nextProducto;
      productos := productos[id := Productos.NewRow(f, url, publicId)];
      nextProducto := id + 1;
      var cant := NumberOrZero(f.cantidad);
      if cant > 0 {
        AppendMovement(Productos.StockMovement(nextMovimiento, id, ENTRADA, cant, Productos.TruthyId(f.idUsuario), now));
      }
      return Ok(id), None;
    }

    /** PUT `/productos/:id` */
    method EditarProducto(id: int, f: Productos.ProductForm, file: bool, upload: Productos.Upload, now: int)
      returns (reply: Reply<()>, destroy: Option<string>)
      requires Valid()
      modifies this
      ensures Valid()
      ensures Productos.Effect(State(), reply, destroy) == Productos.Editar(old(State()), id, f, file, upload, now)
    {
      if id !in productos {
        return NotFound, None;
      }
      var prev := productos[id];
      var img := Productos.HandleImageUpload(file, f.imagenUrl, prev.imagenPublicId, upload);
      if img.None? {
        return ServerError, None;
      }
      var nums := Productos.EditNumbers(f);
      if !Productos.AllFinite(nums) || CodeTaken(productos, f.codigo, Some(id)) {
        return ServerError, img.value.destroy;
      }
      var row := Productos.EditedRow(f, nums, Productos.FinalUrl(img.value, f.imagenUrl, prev),
                                     Productos.FinalPublicId(img.value, prev));
      productos := productos[id := row];
      AppendMovement(Productos.StockMovement(nextMovimiento, id, EDITADO, NumberOrZero(f.cantidad), Nullish(f.idUsuario), now));
      return Ok(()), img.value.destroy;
    }

    /** DELETE `/productos/:id` */
    method EliminarProducto(id: int, idUsuario: Field<int>, now: int) returns (reply: Reply<()>, destroy: Option<string>)
      requires Valid()
      modifies this
      ensures Valid()
      ensures Productos.Effect(State(), reply, destroy) == Productos.Eliminar(old(State()), id, idUsuario, now)
    {
      if id !in productos {
        return NotFound, None;
      }
      var p := productos[id];
      AppendMovement(Productos.Tombstone(State(), id, idUsuario, now));
      destroy := if TruthyOpt(p.imagenPublicId) then p.imagenPublicId else None;
      productos := productos - {id};
      reply := Ok(());
    }

    /** POST `/productos/:id/consumir` */
    method Consumir(id: Num, cantidad: Field<Num>, idUsuario: Field<int>, now: int) returns (reply: Reply<Productos.Receipt>)
      requires Valid()
      modifies this
      ensures Valid()
      ensures Step(State(), reply) == Productos.Consumir(old(State()), id, cantidad, idUsuario, now)
    {
      var bad := Productos.CheckRequest(id, cantidad);
      if bad.Some? {
        return bad.value;
      }
      var cant := ToNumber(cantidad).n;
      if id.n !in productos {
        return NotFound;
      }
      var p := productos[id.n];
      var nuevo := p.cantidad - cant;
      if nuevo < 0 {
        return InsufficientStock;
      }
      var idMovimiento := nextMovimiento;
      AppendMovement(Productos.StockMovement(idMovimiento, id.n, SALIDA, cant, Nullish(idUsuario), now));
      productos := productos[id.n := p.(cantidad := nuevo)];
      return Ok(Productos.Receipt(nuevo, idMovimiento));
    }

    /** POST `/productos/:id/ingresar` */
    method Ingresar(id: Num, cantidad: Field<Num>, idUsuario: Field<int>, now: int) returns (reply: Reply<Productos.Receipt>)
      requires Valid()
      modifies this
      ensures Valid()
      ensures Step(State(), reply) == Productos.Ingresar(old(State()), id, cantidad, idUsuario, now)
    {
      var bad := Productos.CheckRequest(id, cantidad);
      if bad.Some? {
        return bad.value;
      }
      var cant := ToNumber(cantidad).n;
      if id.n !in productos {
        return NotFound;
      }
      var p := productos[id.n];
      var nuevo := p.cantidad + cant;
      var idMovimiento := nextMovimiento;
      AppendMovement(Productos.StockMovement(idMovimiento, id.n, ENTRADA, cant, Nullish(idUsuario), now));
      productos := productos[id.n := p.(cantidad := nuevo)];
      return Ok(Productos.Receipt(nuevo, idMovimiento));
    }

    // -------------------------------------------------------------------------
    // routes/usuarios.js
    // -------------------------------------------------------------------------

    /** `INSERT INTO usuarios ... RETURNING id_usuario` */
    method InsertUser(user: User) returns (id: int)
      requires Valid()
      modifies this
      ensures id == old(nextUsuario)
      ensures State() == WithUser(old(State()), user)
      ensures Valid()
    {
      InsertUserValid(State(), user);
      id := nextUsuario;
      usuarios := usuarios[id := user];
      nextUsuario := id + 1;
    }

    /** POST `/usuarios`; `digest` is the bcrypt hash of the password. */
    method CrearUsuario(nombre: Field<string>, contrasena: Field<string>, rol: Field<string>, digest: string)
      returns (reply: Reply<int>)
      requires Valid()
      modifies this
      ensures Valid()
      ensures Step(State(), reply) == Usuarios.Crear(old(State()), nombre, contrasena, rol, digest)
    {
      if Usuarios.MissingData(nombre, contrasena) {
        return BadRequest("Faltan datos obligatorios");
      }
      var name := Trim(nombre.value);
      if Usuarios.NameTaken(usuarios, name) {
        return Conflict("El nombre ya existe");
      }
      var user := User(Some(name), digest, Some(Usuarios.RoleOrDefault(rol)));
      Usuarios.CrearInserts(State(), nombre, contrasena, rol, digest);
      var id := InsertUser(user);
      return Ok(id);
    }

    /** PUT `/usuarios/:id`: the statement is built from the supplied columns and its SET list
        applied to the row with that key. */
    method ActualizarUsuario(id: int, nombre: Field<string>, rol: Field<string>, contrasena: Field<string>,
                             digest: string)
      returns (reply: Reply<()>)
      requires Valid()
      modifies this
      ensures Valid()
      ensures Step(State(), reply) == Usuarios.Actualizar(old(State()), id, nombre, rol, contrasena, digest)
    {
      if contrasena.Null? {
        return ServerError;
      }
      var cols := Usuarios.UserColumns(nombre, rol, contrasena, digest);
      var stmt := Sql.BuildUpdate("usuarios", "id_usuario", cols, Sql.SqlInt(id));
      if stmt.None? {
        return BadRequest("Nada que actualizar");
      }
      if id !in usuarios {
        return NotFound;
      }
      var names := Sql.SuppliedNames(cols);
      Sql.AssignIgnoresExtra(usuarios[id], Usuarios.SetColumn, names, Sql.SuppliedValues(cols), [Sql.SqlInt(id)]);
      usuarios := usuarios[id := Sql.Assign(usuarios[id], Usuarios.SetColumn, names, stmt.value.params)];
      return Ok(());
    }

    /** DELETE `/usuarios/:id` */
    method EliminarUsuario(id: int) returns (reply: Reply<()>)
      requires Valid()
      modifies this
      ensures Valid()
      ensures Step(State(), reply) == Usuarios.Eliminar(old(State()), id)
    {
      if id !in usuarios {
        return NotFound;
      }
      usuarios := usuarios - {id};
      return Ok(());
    }

    // -------------------------------------------------------------------------
    // routes/movimientos.js
    // -------------------------------------------------------------------------

    /** POST `/movimientos` */
    method CrearMovimiento(idProducto: Field<int>, tipo: Field<string>, cantidad: Field<int>, idUsuario: Field<int>,
                           fecha: Field<int>, now: int)
      returns (reply: Reply<int>)
      requires Valid()
      modifies this
      ensures Valid()
      ensures Step(State(), reply) == Movimientos.Crear(old(State()), idProducto, tipo, cantidad, idUsuario, fecha, now)
    {
      if !TruthyText(tipo) || cantidad.Undefined? || idUsuario.Undefined? {
        return BadRequest("tipo, cantidad e id_usuario son obligatorios");
      }
      var id := nextMovimiento;
      AppendMovement(Movement(id, Nullish(idProducto), Some(tipo.value), Nullish(cantidad), Nullish(idUsuario),
                              Some(Nullish(fecha).GetOr(now)), None, None));
      return Ok(id);
    }

    /** PUT `/movimientos/:id`: the statement is built from the supplied columns and its SET list
        applied to the row with that key. */
    method ActualizarMovimiento(id: int, idProducto: Field<int>, tipo: Field<string>, cantidad: Field<int>,
                                fecha: Field<int>, idUsuario: Field<int>)
      returns (reply: Reply<()>)
      requires Valid()
      modifies this
      ensures Valid()
      ensures Step(State(), reply) == Movimientos.Actualizar(old(State()), id, idProducto, tipo, cantidad, fecha, idUsuario)
    {
      var cols := Movimientos.MovementColumns(idProducto, tipo, cantidad, fecha, idUsuario);
      var stmt := Sql.BuildUpdate("movimientos", "id_movimiento", cols, Sql.SqlInt(id));
      if stmt.None? {
        return BadRequest("Nada que actualizar");
      }
      var k := Movimientos.IndexOf(movimientos, id);
      if k.None? {
        return NotFound;
      }
      var names := Sql.SuppliedNames(cols);
      var row := movimientos[k.value];
      Sql.AssignIgnoresExtra(row, Movimientos.SetColumn, names, Sql.SuppliedValues(cols), [Sql.SqlInt(id)]);
      ghost var expected := Movimientos.Actualizar(State(), id, idProducto, tipo, cantidad, fecha, idUsuario);
      movimientos := movimientos[k.value := Sql.Assign(row, Movimientos.SetColumn, names, stmt.value.params)];
      assert State() == expected.db;
      return Ok(());
    }

    /** DELETE `/movimientos/:id` */
    method EliminarMovimiento(id: int) returns (reply: Reply<()>)
      requires Valid()
      modifies this
      ensures Valid()
      ensures Step(State(), reply) == Movimientos.Eliminar(old(State()), id)
    {
      var k := Movimientos.IndexOf(movimientos, id);
      if k.None? {
        return NotFound;
      }
      movimientos := movimientos[..k.value] + movimientos[k.value + 1..];
      return Ok(());
    }
  }
}
