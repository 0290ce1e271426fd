/** The movement routes: the listing (a projection through two LEFT JOINs, with the snapshot
    columns taking precedence, ordered by date and id descending), manual creation with its
    defaults, the partial update built with the shared SET builder, and deletion. */
module Movimientos {
  import opened Js
  import opened Tables
  import opened Sql
  import opened Order
  import Productos

  const PRODUCTO := "Producto"

  // ---------------------------------------------------------------------------
  // POST /
  // ---------------------------------------------------------------------------

  /** POST `/`: 400 unless `tipo` is truthy and `cantidad` and `id_usuario` are present (`null`
      counts as present); otherwise a new row at the end of the history, with a missing product
      or user stored as NULL and a missing date replaced by the current time. */
  function Crear(db: Db, idProducto: Field<int>, tipo: Field<string>, cantidad: Field<int>, idUsuario: Field<int>,
                 fecha: Field<int>, now: int): (r: Step<int>)
    requires Valid(db)
    ensures r.reply.Ok? || r.reply.BadRequest?
    ensures r.reply.BadRequest? <==> !TruthyText(tipo) || cantidad.Undefined? || idUsuario.Undefined?
    ensures r.reply.BadRequest? ==> r.db == db
    ensures r.reply.Ok? ==>
              && r.reply.value == db.nextMovimiento
              && |r.db.movimientos| == |db.movimientos| + 1
              && r.db.movimientos[..|db.movimientos|] == db.movimientos
              && r.db.productos == db.productos && r.db.usuarios == db.usuarios
              && r.db.nextMovimiento == db.nextMovimiento + 1
              && r.db.nextProducto == db.nextProducto
              && r.db.nextUsuario == db.nextUsuario
    ensures r.reply.Ok? ==>
              var m := r.db.movimientos[|db.movimientos|];
              && m.id == r.reply.value
              && m.idProducto == Nullish(idProducto)
              && m.tipo == Some(tipo.value)
              && m.cantidad == Nullish(cantidad)
              && m.idUsuario == Nullish(idUsuario)
              && m.fecha == Some(if fecha.Given? then fecha.value else now)
              && m.productoNombre.None? && m.productoCodigo.None?
    ensures Valid(r.db)
  {
    if !TruthyText(tipo) || cantidad.Undefined? || idUsuario.Undefined? then
      Step(db, BadRequest("tipo, cantidad e id_usuario son obligatorios"))
    else
      var m := Movement(db.nextMovimiento, Nullish(idProducto), Some(tipo.value), Nullish(cantidad),
                        Nullish(idUsuario), Some(Nullish(fecha).GetOr(now)), None, None);
      AppendMovementValid(db, m);
      Step(db.(movimientos := db.movimientos + [m], nextMovimiento := db.nextMovimiento + 1), Ok(m.id))
  }

  // ---------------------------------------------------------------------------
  // PUT /:id and DELETE /:id
  // ---------------------------------------------------------------------------

  /** The update's columns, in the order the handler tests them. */
  function MovementColumns(idProducto: Field<int>, tipo: Field<string>, cantidad: Field<int>, fecha: Field<int>,
                           idUsuario: Field<int>): seq<Column>
  {
    [ IntColumn("id_producto", idProducto), TextColumn("tipo", tipo), IntColumn("cantidad", cantidad),
      IntColumn("fecha", fecha), IntColumn("id_usuario", idUsuario) ]
  }

  /** What `SET col=$k` does to a movement row, given the value bound at `$k`. */
  function SetColumn(m: Movement, col: string, v: SqlValue): Movement
  {
    if col == "id_producto" then m.(idProducto := AsInt(v))
    else if col == "tipo" then m.(tipo := AsText(v))
    else if col == "cantidad" then m.(cantidad := AsInt(v))
    else if col == "fecha" then m.(fecha := AsInt(v))
    else if col == "id_usuario" then m.(idUsuario := AsInt(v))
    else m
  }

  /** The row after an update: each supplied column overwritten, `null` included. */
  function Updated(m: Movement, idProducto: Field<int>, tipo: Field<string>, cantidad: Field<int>, fecha: Field<int>,
                   idUsuario: Field<int>): Movement
  {
    m.(idProducto := Written(idProducto, m.idProducto), tipo := Written(tipo, m.tipo),
       cantidad := Written(cantidad, m.cantidad), fecha := Written(fecha, m.fecha),
       idUsuario := Written(idUsuario, m.idUsuario))
  }

  /** The statement the PUT handler builds changes a row exactly as `Updated` says. */
  lemma AssignMovementColumns(m: Movement, idProducto: Field<int>, tipo: Field<string>, cantidad: Field<int>,
                              fecha: Field<int>, idUsuario: Field<int>)
    ensures var cols := MovementColumns(idProducto, tipo, cantidad, fecha, idUsuario);
            Assign(m, SetColumn, SuppliedNames(cols), SuppliedValues(cols))
              == Updated(m, idProducto, tipo, cantidad, fecha, idUsuario)
  {
    var cols := MovementColumns(idProducto, tipo, cantidad, fecha, idUsuario);
    AssignSupplied(m, SetColumn, cols);
    assert cols[..1][..0] == [] && cols[..2][..1] == cols[..1] && cols[..3][..2] == cols[..2];
    assert cols[..4][..3] == cols[..3] && cols[..5][..4] == cols[..4] && cols[..5] == cols;
    var m1 := AssignColumns(m, SetColumn, cols[..1]);
    assert AssignColumns(m, SetColumn, cols[..0]) == m;
    if cols[0].value.Some? {
      assert m1 == SetColumn(m, "id_producto", cols[0].value.value);
    }
    assert m1 == m.(idProducto := Written(idProducto, m.idProducto));
    var m2 := AssignColumns(m, SetColumn, cols[..2]);
    assert m2 == m1.(tipo := Written(tipo, m.tipo));
    var m3 := AssignColumns(m, SetColumn, cols[..3]);
    assert m3 == m2.(cantidad := Written(cantidad, m.cantidad));
    var m4 := AssignColumns(m, SetColumn, cols[..4]);
    assert m4 == m3.(fecha := Written(fecha, m.fecha));
  }

  predicate HasMovement(ms: seq<Movement>, id: int)
  {
    exists i :: 0 <= i < |ms| && ms[i].id == id
  }

  /** Where the row with key `id` sits in the history. */
  function IndexOf(ms: seq<Movement>, id: int): (r: Option<nat>)
    ensures r.Some? ==> r.value < |ms| && ms[r.value].id == id
    ensures r.None? <==> !HasMovement(ms, id)
    decreases |ms|
  {
    if ms == [] then None
    else if ms[|ms| - 1].id == id then Some(|ms| - 1)
    else
      IndexOf(ms[..|ms| - 1], id)
  }

  predicate SuppliesAny(idProducto: Field<int>, tipo: Field<string>, cantidad: Field<int>, fecha: Field<int>,
                        idUsuario: Field<int>)
  {
    Supplied(idProducto) || Supplied(tipo) || Supplied(cantidad) || Supplied(fecha) || Supplied(idUsuario)
  }

  /** The `SET` list is empty exactly when the request supplies no column. */
  lemma MovementColumnsSupplied(idProducto: Field<int>, tipo: Field<string>, cantidad: Field<int>,
                                fecha: Field<int>, idUsuario: Field<int>)
    ensures SuppliedNames(MovementColumns(idProducto, tipo, cantidad, fecha, idUsuario)) == [] <==>
            !SuppliesAny(idProducto, tipo, cantidad, fecha, idUsuario)
  {
    var cols := MovementColumns(idProducto, tipo, cantidad, fecha, idUsuario);
    NoneSupplied(cols);
    assert cols[0].value.None? <==> !Supplied(idProducto);
    assert cols[1].value.None? <==> !Supplied(tipo);
    assert cols[2].value.None? <==> !Supplied(cantidad);
    assert cols[3].value.None? <==> !Supplied(fecha);
    assert cols[4].value.None? <==> !Supplied(idUsuario);
  }

  /** Rewriting the row at `k` with a row of the same key keeps the database valid and changes
      only the row carrying that key. */
  lemma ReplaceRow(db: Db, k: nat, m: Movement)
    requires Valid(db) && k < |db.movimientos| && m.id == db.movimientos[k].id
    ensures var ms' := db.movimientos[k := m];
            && Valid(db.(movimientos := ms'))
            && forall i :: 0 <= i < |db.movimientos| ==>
                 ms'[i] == if db.movimientos[i].id == m.id then m else db.movimientos[i]
  {
    var ms := db.movimientos;
    var ms' := ms[k := m];
    assert forall i :: 0 <= i < |ms| && i != k ==> ms[i].id != m.id;
    assert forall i :: 0 <= i < |ms| ==> ms'[i].id == ms[i].id;
  }

  /** PUT `/:id`: 400 "Nada que actualizar" when no column is supplied, 404 when no row has the
      key, otherwise exactly that row is rewritten as `Updated` says and nothing else moves. */
  function Actualizar(db: Db, id: int, idProducto: Field<int>, tipo: Field<string>, cantidad: Field<int>,
                      fecha: Field<int>, idUsuario: Field<int>): (r: Step<()>)
    requires Valid(db)
    ensures r.reply.Ok? || r.reply.BadRequest? || r.reply.NotFound?
    ensures r.reply.BadRequest? <==> !SuppliesAny(idProducto, tipo, cantidad, fecha, idUsuario)
    ensures r.reply.NotFound? <==>
              SuppliesAny(idProducto, tipo, cantidad, fecha, idUsuario) && !HasMovement(db.movimientos, id)
    ensures !r.reply.Ok? ==> r.db == db
    ensures r.reply.Ok? ==>
              && |r.db.movimientos| == |db.movimientos|
              && (forall i :: 0 <= i < |db.movimientos| ==>
                    r.db.movimientos[i] == if db.movimientos[i].id == id
                                           then Updated(db.movimientos[i], idProducto, tipo, cantidad, fecha, idUsuario)
                                           else db.movimientos[i])
              && r.db.productos == db.productos && r.db.usuarios == db.usuarios
              && r.db.nextMovimiento == db.nextMovimiento
              && r.db.nextProducto == db.nextProducto
              && r.db.nextUsuario == db.nextUsuario
    ensures Valid(r.db)
  {
    var cols := MovementColumns(idProducto, tipo, cantidad, fecha, idUsuario);
    MovementColumnsSupplied(idProducto, tipo, cantidad, fecha, idUsuario);
    if SuppliedNames(cols) == [] then Step(db, BadRequest("Nada que actualizar"))
    else
      var k := IndexOf(db.movimientos, id);
      if k.None? then Step(db, NotFound)
      else
        var ms := db.movimientos;
        var m := Assign(ms[k.value], SetColumn, SuppliedNames(cols), SuppliedValues(cols));
        AssignMovementColumns(ms[k.value], idProducto, tipo, cantidad, fecha, idUsuario);
        ReplaceRow(db, k.value, m);
        Step(db.(movimientos := ms[k.value := m]), Ok(()))
  }

  /** Updating twice with the same request leaves what updating once did. */
  lemma ActualizarIdempotent(db: Db, id: int, idProducto: Field<int>, tipo: Field<string>, cantidad: Field<int>,
                             fecha: Field<int>, idUsuario: Field<int>)
    requires Valid(db)
    ensures var once := Actualizar(db, id, idProducto, tipo, cantidad, fecha, idUsuario);
            once.reply.Ok? ==> Actualizar(once.db, id, idProducto, tipo, cantidad, fecha, idUsuario) == once
  {
    var once := Actualizar(db, id, idProducto, tipo, cantidad, fecha, idUsuario);
    if once.reply.Ok? {
      var twice := Actualizar(once.db, id, idProducto, tipo, cantidad, fecha, idUsuario);
      var k :| 0 <= k < |db.movimientos| && db.movimientos[k].id == id;
      assert once.db.movimientos[k].id == id;
      assert twice.db.movimientos == once.db.movimientos;
    }
  }

  /** Taking out the row at `i` keeps keys distinct and below the sequence's next value, and
      leaves exactly the rows with another key. */
  lemma RemoveAt(ms: seq<Movement>, i: int, next: int)
    requires 0 <= i < |ms| && MovementIdsDistinct(ms)
    ensures var rest := ms[..i] + ms[i + 1..];
            && MovementIdsDistinct(rest)
            && (MovementIdsBelow(ms, next) ==> MovementIdsBelow(rest, next))
            && (forall m :: m in rest <==> m in ms && m.id != ms[i].id)
  {
    var rest := ms[..i] + ms[i + 1..];
    assert forall j :: 0 <= j < |rest| ==> rest[j] == if j < i then ms[j] else ms[j + 1];
    forall m
      ensures m in rest <==> m in ms && m.id != ms[i].id
    {
      if m in ms && m.id != ms[i].id {
        var j :| 0 <= j < |ms| && ms[j] == m;
        if j < i { assert rest[j] == m; } else { assert rest[j - 1] == m; }
      }
    }
  }

  /** DELETE `/:id`: exactly the row with that key leaves the history, the others keep their
      order; 404 when there is none. */
  function Eliminar(db: Db, id: int): (r: Step<()>)
    requires Valid(db)
    ensures r.reply.Ok? || r.reply.NotFound?
    ensures r.reply.NotFound? <==> !HasMovement(db.movimientos, id)
    ensures r.reply.NotFound? ==> r.db == db
    ensures r.reply.Ok? ==>
              && |r.db.movimientos| == |db.movimientos| - 1
              && (forall m :: m in r.db.movimientos <==> m in db.movimientos && m.id != id)
              && (exists i :: 0 <= i < |db.movimientos| && db.movimientos[i].id == id
                              && r.db.movimientos == db.movimientos[..i] + db.movimientos[i + 1..])
              && r.db.productos == db.productos && r.db.usuarios == db.usuarios
              && r.db.nextProducto == db.nextProducto
              && r.db.nextMovimiento == db.nextMovimiento
              && r.db.nextUsuario == db.nextUsuario
    ensures Valid(r.db)
  {
    var k := IndexOf(db.movimientos, id);
    if k.None? then Step(db, NotFound)
    else
      var ms := db.movimientos;
      var i := k.value;
      RemoveAt(ms, i, db.nextMovimiento);
      Step(db.(movimientos := ms[..i] + ms[i + 1..]), Ok(()))
  }

  /** Deleting removes the key for good: a second deletion is a 404. */
  lemma EliminarTwice(db: Db, id: int)
    requires Valid(db)
    ensures var once := Eliminar(db, id);
            Eliminar(once.db, id) == Step(once.db, NotFound)
  {
    var once := Eliminar(db, id);
    if HasMovement(once.db.movimientos, id) {
      var j :| 0 <= j < |once.db.movimientos| && once.db.movimientos[j].id == id;
      assert once.db.movimientos[j] in once.db.movimientos;
    }
  }

  // ---------------------------------------------------------------------------
  // GET /
  // ---------------------------------------------------------------------------

  /** One row of the listing. */
  datatype ListRow = ListRow(
    idMovimiento: int,
    idProducto: Option<int>,
    producto: string,
    productoCodigo: Option<string>,
    tipo: Option<string>,
    cantidad: Option<int>,
    fecha: Option<int>,
    idUsuario: Option<int>,
    usuario: Option<string>)

  /** `LEFT JOIN productos p ON m.id_producto = p.id_producto` */
  function Joined(ps: map<int, Product>, id: Option<int>): Option<Product>
  {
    if id.Some? && id.value in ps then Some(ps[id.value]) else None
  }

  /** The product name shown: the snapshot, else the live name, else "Producto". */
  function ProductName(m: Movement, p: Option<Product>): string
  {
    if m.productoNombre.Some? then m.productoNombre.value else if p.Some? then p.value.nombre else PRODUCTO
  }

  /** The product code shown: the snapshot, else the live code, else NULL. */
  function ProductCode(m: Movement, p: Option<Product>): Option<string>
  {
    if m.productoCodigo.Some? then m.productoCodigo else if p.Some? then Some(p.value.codigo) else None
  }

  function Project(db: Db, m: Movement): ListRow
  {
    var p := Joined(db.productos, m.idProducto);
    var usuario := if m.idUsuario.Some? && m.idUsuario.value in db.usuarios then db.usuarios[m.idUsuario.value].nombre else None;
    ListRow(m.id, m.idProducto, ProductName(m, p), ProductCode(m, p), m.tipo, m.cantidad, m.fecha, m.idUsuario, usuario)
  }

  function Projected(db: Db): (r: seq<ListRow>)
    ensures |r| == |db.movimientos|
    ensures forall i :: 0 <= i < |r| ==> r[i] == Project(db, db.movimientos[i])
  {
    seq(|db.movimientos|, i requires 0 <= i < |db.movimientos| => Project(db, db.movimientos[i]))
  }

  /** The name and code a row shows: a movement with a snapshot shows it whatever the products
      table holds; without one, the live product's name and code while the product exists,
      and "Producto" with no code once it is gone. */
  lemma ProjectionPrefersSnapshot(db: Db, m: Movement)
    ensures m.productoNombre.Some? ==>
              forall ps: map<int, Product> :: Project(db.(productos := ps), m).producto == m.productoNombre.value
    ensures m.productoCodigo.Some? ==>
              forall ps: map<int, Product> :: Project(db.(productos := ps), m).productoCodigo == m.productoCodigo
    ensures m.productoNombre.None? && m.productoCodigo.None? && m.idProducto.Some? && m.idProducto.value in db.productos ==>
              && Project(db, m).producto == db.productos[m.idProducto.value].nombre
              && Project(db, m).productoCodigo == Some(db.productos[m.idProducto.value].codigo)
    ensures m.productoNombre.None? && m.productoCodigo.None? && !(m.idProducto.Some? && m.idProducto.value in db.productos) ==>
              Project(db, m).producto == PRODUCTO && Project(db, m).productoCodigo.None?
  {
  }

  /** `f` comes strictly first under `fecha DESC`, where PostgreSQL puts NULL first. */
  predicate Newer(f: Option<int>, g: Option<int>)
  {
    (f.None? && g.Some?) || (f.Some? && g.Some? && f.value > g.value)
  }

  /** `ORDER BY m.fecha DESC, m.id_movimiento DESC` */
  predicate ListedBefore(a: ListRow, b: ListRow)
  {
    Newer(a.fecha, b.fecha) || (a.fecha == b.fecha && a.idMovimiento >= b.idMovimiento)
  }

  lemma ListedBeforeIsPreorder()
    ensures Total(ListedBefore) && Transitive(ListedBefore)
  {
  }

  /** GET `/`: every movement, projected, in listing order. */
  function Listar(db: Db): seq<ListRow>
  {
    Sort(Projected(db), ListedBefore)
  }

  /** The listing shows every movement exactly once and is ordered newest first, a NULL date
      ahead of all dates, and by key descending within a date. */
  lemma ListarOrdered(db: Db)
    ensures Sorted(Listar(db), ListedBefore)
    ensures multiset(Listar(db)) == multiset(Projected(db))
    ensures |Listar(db)| == |db.movimientos|
  {
    ListedBeforeIsPreorder();
    SortSorted(Projected(db), ListedBefore);
    SortPermutes(Projected(db), ListedBefore);
  }

  /** Movement keys are distinct, so no two rows tie and the order is fully determined: any
      arrangement of the projected rows in that order is the listing. */
  lemma ListarIsTheOrder(db: Db, rows: seq<ListRow>)
    requires Valid(db)
    requires Sorted(rows, ListedBefore) && multiset(rows) == multiset(Projected(db))
    ensures rows == Listar(db)
  {
    ListarOrdered(db);
    ProjectedNoTies(db);
    assert multiset(Listar(db)) == multiset(rows);
    SortedUnique(Listar(db), rows, ListedBefore);
  }

  /** Where a listed row comes from: the projection of one stored movement. */
  lemma RowSource(db: Db, a: ListRow) returns (i: nat)
    requires a in multiset(Projected(db))
    ensures i < |db.movimientos| && a == Project(db, db.movimientos[i])
  {
    var ps := Projected(db);
    assert a in ps;
    i :| 0 <= i < |ps| && ps[i] == a;
  }

  /** Two listed rows that tie in the order are the same row, because keys are distinct. */
  lemma ProjectedNoTies(db: Db)
    requires Valid(db)
    ensures NoTies(Projected(db), ListedBefore)
  {
    var ps := Projected(db);
    forall a, b | a in multiset(ps) && b in multiset(ps) && ListedBefore(a, b) && ListedBefore(b, a)
      ensures a == b
    {
      var i := RowSource(db, a);
      var j := RowSource(db, b);
      assert a.idMovimiento == b.idMovimiento;
      assert db.movimientos[i].id == db.movimientos[j].id;
    }
  }

  /** After a product is deleted, the history it leaves behind: the `eliminado` movement still
      shows the product's name and code from its snapshot, while the product's earlier
      movements, which carry no snapshot, show "Producto" and no code. */
  lemma DeletedProductListing(db: Db, id: int, u: Field<int>, now: int)
    requires Valid(db) && id in db.productos
    ensures var after := Productos.Eliminar(db, id, u, now).db;
            var p := db.productos[id];
            && |after.movimientos| == |db.movimientos| + 1
            && Project(after, after.movimientos[|db.movimientos|]).producto == p.nombre
            && Project(after, after.movimientos[|db.movimientos|]).productoCodigo == Some(p.codigo)
            && (forall i :: 0 <= i < |db.movimientos| && db.movimientos[i].idProducto == Some(id)
                            && db.movimientos[i].productoNombre.None? && db.movimientos[i].productoCodigo.None? ==>
                  && after.movimientos[i] == db.movimientos[i]
                  && Project(after, after.movimientos[i]).producto == PRODUCTO
                  && Project(after, after.movimientos[i]).productoCodigo.None?)
  {
    var after := Productos.Eliminar(db, id, u, now).db;
    assert id !in after.productos;
  }
}
