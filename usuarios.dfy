/** The user routes: creation with its validation, default role and duplicate-name check; the
    partial update built with the shared SET builder; deletion; login; and the listing, which
    never exposes the password digest. bcrypt is abstract: hashing is an input digest and the
    comparison an input predicate. */
module Usuarios {
  import opened Js
  import opened Tables
  import opened Sql

  const EMPLEADO := "Empleado"

  /** The columns a listing or a login returns: no password digest. */
  datatype UserView = UserView(idUsuario: int, nombre: Option<string>, rol: Option<string>)

  function View(id: int, u: User): UserView
  {
    UserView(id, u.nombre, u.rol)
  }

  /** `SELECT ... FROM usuarios WHERE nombre=$1` finds a row. */
  predicate NameTaken(us: map<int, User>, nombre: string)
  {
    exists k :: k in us && us[k].nombre == Some(nombre)
  }

  /** The stored role: the trimmed role when one is given, else "Empleado". */
  function RoleOrDefault(rol: Field<string>): string
  {
    if TruthyText(rol) then Trim(rol.value) else EMPLEADO
  }

  /** The creation handler's first guard: `!nombre || !nombre.trim() || !contraseña`. */
  predicate MissingData(nombre: Field<string>, contrasena: Field<string>)
  {
    !TruthyText(nombre) || Trim(nombre.value) == "" || !TruthyText(contrasena)
  }

  lemma NameFacts(nombre: Field<string>)
    ensures TruthyText(nombre) ==>
              && (Trim(nombre.value) == "" <==> IsBlank(nombre.value))
              && Trim(Trim(nombre.value)) == Trim(nombre.value)
  {
    if TruthyText(nombre) {
      TrimEmptyIffBlank(nombre.value);
      TrimIdempotent(nombre.value);
    }
  }

  /** The handler computes `(rol || 'Empleado').trim()`; trimming the default is the identity. */
  lemma DefaultRoleIsTrimmed(rol: Field<string>)
    ensures RoleOrDefault(rol) == Trim(if TruthyText(rol) then rol.value else EMPLEADO)
  {
    TrimStartFixed(EMPLEADO);
    TrimEndFixed(EMPLEADO);
  }

  /** POST `/`: 400 when the name is missing or blank or the password missing, 409 when the
      trimmed name is taken, otherwise a new row with the trimmed name, the digest and the role
      (default "Empleado"). */
  function Crear(db: Db, nombre: Field<string>, contrasena: Field<string>, rol: Field<string>, digest: string)
    : (r: Step<int>)
    requires Valid(db)
    ensures r.reply.Ok? || r.reply.BadRequest? || r.reply.Conflict?
    ensures r.reply.BadRequest? <==> !TruthyText(nombre) || IsBlank(nombre.value) || !TruthyText(contrasena)
    ensures r.reply.Conflict? <==>
              && TruthyText(nombre) && !IsBlank(nombre.value) && TruthyText(contrasena)
              && NameTaken(db.usuarios, Trim(nombre.value))
    ensures !r.reply.Ok? ==> r.db == db
    ensures r.reply.Ok? ==>
              && r.reply.value == db.nextUsuario
              && r.reply.value !in db.usuarios
              && r.db == WithUser(db, User(Some(Trim(nombre.value)), digest, Some(RoleOrDefault(rol))))
    ensures r.reply.Ok? ==>
              && Trim(nombre.value) != ""
              && Trim(Trim(nombre.value)) == Trim(nombre.value)
    ensures Valid(r.db)
  {
    NameFacts(nombre);
    if MissingData(nombre, contrasena) then Step(db, BadRequest("Faltan datos obligatorios"))
    else
      var name := Trim(nombre.value);
      if NameTaken(db.usuarios, name) then Step(db, Conflict("El nombre ya existe"))
      else
        var id := db.nextUsuario;
        var user := User(Some(name), digest, Some(RoleOrDefault(rol)));
        InsertUserValid(db, user);
        Step(WithUser(db, user), Ok(id))
  }

  /** A creation that passes both checks inserts the row under the next key and answers with
      that key. */
  lemma CrearInserts(db: Db, nombre: Field<string>, contrasena: Field<string>, rol: Field<string>, digest: string)
    requires Valid(db) && !MissingData(nombre, contrasena) && !NameTaken(db.usuarios, Trim(nombre.value))
    ensures var user := User(Some(Trim(nombre.value)), digest, Some(RoleOrDefault(rol)));
            Crear(db, nombre, contrasena, rol, digest)
              == Step(WithUser(db, user), Ok(db.nextUsuario))
  {
  }

  // ---------------------------------------------------------------------------
  // PUT /:id
  // ---------------------------------------------------------------------------

  /** `v?.trim() || null` for a supplied property; None when it is not supplied. */
  function TrimmedOrNull(f: Field<string>): Option<SqlValue>
  {
    match f
    case Undefined => None
    case Null => Some(SqlNull)
    case Given(s) => Some(if Trim(s) == "" then SqlNull else SqlText(Trim(s)))
  }

  /** The update's columns, in the order the handler tests them. */
  function UserColumns(nombre: Field<string>, rol: Field<string>, contrasena: Field<string>, digest: string)
    : seq<Column>
  {
    [ Column("nombre", TrimmedOrNull(nombre)),
      Column("rol", TrimmedOrNull(rol)),
      Column("contraseña", if Supplied(contrasena) then Some(SqlText(digest)) else None) ]
  }

  /** What `SET col=$k` does to a row, given the value bound at `$k`. */
  function SetColumn(u: User, col: string, v: SqlValue): User
  {
    if col == "nombre" then u.(nombre := AsText(v))
    else if col == "rol" then u.(rol := AsText(v))
    else if col == "contraseña" && v.SqlText? then u.(contrasena := v.s)
    else u
  }

  /** The stored value of a supplied name or role: null when blank or null, else trimmed. */
  function Updated(f: Field<string>, old_: Option<string>): Option<string>
  {
    match f
    case Undefined => old_
    case Null => None
    case Given(s) => if Trim(s) == "" then None else Some(Trim(s))
  }

  /** The SET list of a user update changes the name and role as `Updated` says and the
      digest when a password is given. */
  lemma AssignUserColumns(u: User, nombre: Field<string>, rol: Field<string>, contrasena: Field<string>, digest: string)
    requires !contrasena.Null?
    ensures var cols := UserColumns(nombre, rol, contrasena, digest);
            Assign(u, SetColumn, SuppliedNames(cols), SuppliedValues(cols))
              == u.(nombre := Updated(nombre, u.nombre), rol := Updated(rol, u.rol),
                    contrasena := if contrasena.Given? then digest else u.contrasena)
  {
    var cols := UserColumns(nombre, rol, contrasena, digest);
    AssignSupplied(u, SetColumn, cols);
    assert cols[..1][..0] == [] && cols[..2][..1] == cols[..1] && cols[..3][..2] == cols[..2] && cols[..3] == cols;
    var u1 := AssignColumns(u, SetColumn, cols[..1]);
    assert AssignColumns(u, SetColumn, cols[..0]) == u;
    if cols[0].value.Some? {
      assert u1 == SetColumn(u, "nombre", cols[0].value.value);
    }
    assert u1 == u.(nombre := Updated(nombre, u.nombre));
    var u2 := AssignColumns(u, SetColumn, cols[..2]);
    assert u2 == u1.(rol := Updated(rol, u.rol));
  }

  /** PUT `/:id`: 400 "Nada que actualizar" when nothing is supplied, 404 for an unknown id,
      otherwise exactly the supplied columns change (a blank or null name or role becomes null,
      a password becomes its digest). A `null` password makes bcrypt throw: 500. */
  function Actualizar(db: Db, id: int, nombre: Field<string>, rol: Field<string>, contrasena: Field<string>, digest: string)
    : (r: Step<()>)
    requires Valid(db)
    ensures r.reply.Ok? || r.reply.BadRequest? || r.reply.NotFound? || r.reply.ServerError?
    ensures r.reply.ServerError? <==> contrasena.Null?
    ensures r.reply.BadRequest? <==> !Supplied(nombre) && !Supplied(rol) && !Supplied(contrasena)
    ensures r.reply.NotFound? <==>
              (Supplied(nombre) || Supplied(rol) || Supplied(contrasena)) && !contrasena.Null? && id !in db.usuarios
    ensures !r.reply.Ok? ==> r.db == db
    ensures r.reply.Ok? ==>
              && id in db.usuarios
              && r.db.usuarios.Keys == db.usuarios.Keys
              && (forall k :: k in db.usuarios && k != id ==> r.db.usuarios[k] == db.usuarios[k])
              && r.db.usuarios[id].nombre == Updated(nombre, db.usuarios[id].nombre)
              && r.db.usuarios[id].rol == Updated(rol, db.usuarios[id].rol)
              && r.db.usuarios[id].contrasena == (if contrasena.Given? then digest else db.usuarios[id].contrasena)
              && r.db.productos == db.productos && r.db.movimientos == db.movimientos
              && r.db.nextProducto == db.nextProducto
              && r.db.nextMovimiento == db.nextMovimiento
              && r.db.nextUsuario == db.nextUsuario
    ensures Valid(r.db)
  {
    if contrasena.Null? then Step(db, ServerError)
    else
      var cols := UserColumns(nombre, rol, contrasena, digest);
      NoneSupplied(cols);
      assert cols[0].value.None? <==> !Supplied(nombre);
      assert cols[1].value.None? <==> !Supplied(rol);
      if SuppliedNames(cols) == [] then Step(db, BadRequest("Nada que actualizar"))
      else if id !in db.usuarios then Step(db, NotFound)
      else
        var u := Assign(db.usuarios[id], SetColumn, SuppliedNames(cols), SuppliedValues(cols));
        AssignUserColumns(db.usuarios[id], nombre, rol, contrasena, digest);
        Step(db.(usuarios := db.usuarios[id := u]), Ok(()))
  }

  // ---------------------------------------------------------------------------
  // DELETE /:id, POST /login, GET /
  // ---------------------------------------------------------------------------

  /** DELETE `/:id`: the row goes, or 404 when there is none. */
  function Eliminar(db: Db, id: int): (r: Step<()>)
    requires Valid(db)
    ensures r.reply.Ok? || r.reply.NotFound?
    ensures r.reply.NotFound? <==> id !in db.usuarios
    ensures r.reply.NotFound? ==> r.db == db
    ensures r.reply.Ok? ==> r.db == db.(usuarios := db.usuarios - {id})
    ensures Valid(r.db)
  {
    if id !in db.usuarios then Step(db, NotFound) else Step(db.(usuarios := db.usuarios - {id}), Ok(()))
  }

  /** POST `/login`: 400 when a field is missing, 401 for an unknown name or a failed password
      check, otherwise the id, name and role of a row with that name (the query has no ORDER
      BY, so with several such rows any one of them). `matches(password, digest)` stands for
      `bcrypt.compare`. */
  method Login(us: map<int, User>, nombre: Field<string>, contrasena: Field<string>, matches: (string, string) -> bool)
    returns (r: Reply<UserView>)
    ensures r.Ok? || r.BadRequest? || r.Unauthorized?
    ensures r.BadRequest? <==> !TruthyText(nombre) || !TruthyText(contrasena)
    ensures r.Unauthorized? ==> r == Unauthorized("Usuario no encontrado") || r == Unauthorized("Contraseña incorrecta")
    ensures r.Ok? ==>
              && r.value.idUsuario in us
              && us[r.value.idUsuario].nombre == Some(nombre.value)
              && matches(contrasena.value, us[r.value.idUsuario].contrasena)
              && r.value == View(r.value.idUsuario, us[r.value.idUsuario])
    ensures r == Unauthorized("Usuario no encontrado") <==>
              TruthyText(nombre) && TruthyText(contrasena) && !NameTaken(us, nombre.value)
    ensures TruthyText(nombre) && TruthyText(contrasena) && NameTaken(us, nombre.value)
            && (forall k :: k in us && us[k].nombre == Some(nombre.value) ==> matches(contrasena.value, us[k].contrasena))
            ==> r.Ok?
    ensures r == Unauthorized("Contraseña incorrecta") ==>
              exists k :: k in us && us[k].nombre == Some(nombre.value) && !matches(contrasena.value, us[k].contrasena)
  {
    if !TruthyText(nombre) || !TruthyText(contrasena) {
      return BadRequest("Faltan datos");
    }
    if !NameTaken(us, nombre.value) {
      return Unauthorized("Usuario no encontrado");
    }
    var k :| k in us && us[k].nombre == Some(nombre.value);
    var user := us[k];
    if !matches(contrasena.value, user.contrasena) {
      return Unauthorized("Contraseña incorrecta");
    }
    return Ok(View(k, user));
  }

  /** The keys in `[1, k]` present in `us`, from `k` down: a scan in `ORDER BY id_usuario DESC`. */
  function KeysDown(us: map<int, User>, k: int): (r: seq<int>)
    ensures forall j :: j in r <==> 1 <= j <= k && j in us
    ensures forall i :: 0 <= i < |r| ==> r[i] <= k
    decreases k
  {
    if k < 1 then [] else (if k in us then [k] else []) + KeysDown(us, k - 1)
  }

  predicate Descending(s: seq<int>)
  {
    forall i, j :: 0 <= i < j < |s| ==> s[i] > s[j]
  }

  /** The scan visits keys in strictly descending order. */
  lemma {:induction false} KeysDownDescending(us: map<int, User>, k: int)
    ensures Descending(KeysDown(us, k))
    decreases k
  {
    if k >= 1 {
      KeysDownDescending(us, k - 1);
      var rest := KeysDown(us, k - 1);
      var r := KeysDown(us, k);
      if k in us {
        assert r == [k] + rest;
        forall i, j | 0 <= i < j < |r| ensures r[i] > r[j] {
          assert r[j] == rest[j - 1];
          if i > 0 {
            assert r[i] == rest[i - 1];
          }
        }
      } else {
        assert r == rest;
      }
    }
  }

  /** GET `/`: every user's id, name and role, highest id first. */
  function Listar(db: Db): (r: seq<UserView>)
    requires Valid(db)
  {
    var keys := KeysDown(db.usuarios, db.nextUsuario - 1);
    seq(|keys|, i requires 0 <= i < |keys| => View(keys[i], db.usuarios[keys[i]]))
  }

  /** The listing shows every user exactly once, newest id first, and each row carries only the
      id, name and role of its user -- never the digest. */
  lemma ListarContents(db: Db)
    requires Valid(db)
    ensures var r := Listar(db);
            && (forall k :: k in db.usuarios <==> exists i :: 0 <= i < |r| && r[i].idUsuario == k)
            && (forall i :: 0 <= i < |r| ==>
                  r[i].idUsuario in db.usuarios && r[i] == View(r[i].idUsuario, db.usuarios[r[i].idUsuario]))
            && (forall i, j :: 0 <= i < j < |r| ==> r[i].idUsuario > r[j].idUsuario)
  {
    var keys := KeysDown(db.usuarios, db.nextUsuario - 1);
    var r := Listar(db);
    KeysDownDescending(db.usuarios, db.nextUsuario - 1);
    assert forall i :: 0 <= i < |r| ==> r[i].idUsuario == keys[i];
    forall k | k in db.usuarios ensures exists i :: 0 <= i < |r| && r[i].idUsuario == k {
      var i :| 0 <= i < |keys| && keys[i] == k;
      assert r[i].idUsuario == k;
    }
  }
}
