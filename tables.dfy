/** The rows of the `productos`, `movimientos` and `usuarios` tables, the database as one value,
    and the outcomes a handler reports. */
module Tables {
  import opened Js

  /** A `productos` row; the key `id_producto` is the map key of `Db.productos`. Quantities,
      prices and thresholds are integers (a price in the smallest currency unit). */
  datatype Product = Product(
    codigo: string,
    nombre: string,
    descripcion: Option<string>,
    cantidad: int,
    tipoUnidad: string,
    precioUnitario: int,
    stockMin: int,
    stockMax: int,
    fechaIngreso: Option<string>,
    imagenUrl: Option<string>,
    imagenPublicId: Option<string>,
    idCategoria: Option<int>,
    idProveedor: Option<int>)

  /** A `movimientos` row. Every column but the key is nullable: the movement PUT handler may
      write `null` into any of them. `fecha` is a timestamp in seconds. The snapshot columns
      `producto_nombre`/`producto_codigo` are filled only by product deletion. */
  datatype Movement = Movement(
    id: int,
    idProducto: Option<int>,
    tipo: Option<string>,
    cantidad: Option<int>,
    idUsuario: Option<int>,
    fecha: Option<int>,
    productoNombre: Option<string>,
    productoCodigo: Option<string>)

  /** A `usuarios` row; `contrasena` holds the bcrypt digest, never the password. */
  datatype User = User(nombre: Option<string>, contrasena: string, rol: Option<string>)

  const ENTRADA := "entrada"
  const SALIDA := "salida"
  const EDITADO := "editado"
  const ELIMINADO := "eliminado"

  /** The database: three tables and the next value of each SERIAL key. */
  datatype Db = Db(
    productos: map<int, Product>,
    movimientos: seq<Movement>,
    usuarios: map<int, User>,
    nextProducto: int,
    nextMovimiento: int,
    nextUsuario: int)

  predicate KeysBelow<V>(m: map<int, V>, next: int)
  {
    forall k :: k in m ==> 1 <= k < next
  }

  predicate MovementIdsBelow(ms: seq<Movement>, next: int)
  {
    forall i :: 0 <= i < |ms| ==> 1 <= ms[i].id < next
  }

  predicate MovementIdsDistinct(ms: seq<Movement>)
  {
    forall i, j :: 0 <= i < j < |ms| ==> ms[i].id != ms[j].id
  }

  /** The UNIQUE constraint on `productos.codigo` (violations raise SQLSTATE 23505). */
  predicate CodesUnique(ps: map<int, Product>)
  {
    forall a, b :: a in ps && b in ps && a != b ==> ps[a].codigo != ps[b].codigo
  }

  /** Sequences start at 1, keys are positive and below their sequence's next value, movement keys are distinct, and
      product codes are unique. */
  predicate Valid(db: Db)
  {
    && db.nextProducto >= 1 && db.nextMovimiento >= 1 && db.nextUsuario >= 1
    && KeysBelow(db.productos, db.nextProducto)
    && KeysBelow(db.usuarios, db.nextUsuario)
    && MovementIdsBelow(db.movimientos, db.nextMovimiento)
    && MovementIdsDistinct(db.movimientos)
    && CodesUnique(db.productos)
  }

  /** Some other product than `except` already carries `codigo`. */
  predicate CodeTaken(ps: map<int, Product>, codigo: string, except: Option<int>)
  {
    exists k :: k in ps && ps[k].codigo == codigo && Some(k) != except
  }

  /** Every product's quantity is non-negative. Creation and editing do not enforce this; the
      stock endpoints preserve it. */
  predicate StockNonNegative(ps: map<int, Product>)
  {
    forall k :: k in ps ==> ps[k].cantidad >= 0
  }

  /** What a handler answers: the success payload, or the error it reports (400, 401, 404, 409,
      the 400 "Stock insuficiente", or 500). */
  datatype Reply<+T> =
    | Ok(value: T)
    | BadRequest(message: string)
    | Unauthorized(message: string)
    | NotFound
    | Conflict(message: string)
    | InsufficientStock
    | ServerError

  /** The database after a handler ran, with its reply. */
  datatype Step<+T> = Step(db: Db, reply: Reply<T>)

  /** `INSERT INTO usuarios`: the row under the next user key, which the sequence then passes. */
  function WithUser(db: Db, u: User): Db
  {
    db.(usuarios := db.usuarios[db.nextUsuario := u], nextUsuario := db.nextUsuario + 1)
  }

  /** Inserting a user under the next user key keeps the database valid. */
  lemma InsertUserValid(db: Db, u: User)
    ensures Valid(db) ==> Valid(WithUser(db, u))
  {
  }

  /** A product `INSERT` that the unique index on `codigo` rejected: the transaction rolls the
      row back, but the key the sequence handed out is not returned to it. */
  function SkipProductKey(db: Db): Db
  {
    db.(nextProducto := db.nextProducto + 1)
  }

  /** Drawing a product key without using it keeps the database valid. */
  lemma SkipProductKeyValid(db: Db)
    ensures Valid(db) ==> Valid(SkipProductKey(db))
  {
  }

  /** Appending a row with the next movement key keeps the movement keys valid. */
  lemma AppendMovementValid(db: Db, m: Movement)
    requires m.id == db.nextMovimiento
    ensures Valid(db) ==> Valid(db.(movimientos := db.movimientos + [m], nextMovimiento := db.nextMovimiento + 1))
  {
    if Valid(db) {
      var ms := db.movimientos + [m];
      forall i, j | 0 <= i < j < |ms| ensures ms[i].id != ms[j].id {
        if j == |ms| - 1 {
          assert ms[i] == db.movimientos[i];
        }
      }
    }
  }
}
