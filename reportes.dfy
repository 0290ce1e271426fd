/** The report routes' own logic: the query-string helpers (date range, integer, movement type,
    limit), the WHERE/params builder shared by the series and CSV endpoints, the low-stock
    selection and its order, and the KPI alert count. The SQL aggregates themselves are not
    modelled. */
module Reportes {
  import opened Js
  import opened Tables
  import opened Sql
  import opened Order
  import Ledger

  // ---------------------------------------------------------------------------
  // Query-string helpers
  // ---------------------------------------------------------------------------

  /** The date parameters of a report request. */
  datatype RangeQuery = RangeQuery(from: Field<string>, desde: Field<string>, to: Field<string>, hasta: Field<string>)

  datatype Range = Range(from: string, to: string, fromDT: string, toDT: string)

  const START_OF_DAY := " 00:00:00"
  const END_OF_DAY := " 23:59:59"

  /** `a || b || fallback` on query-string values. */
  function FirstGiven(a: Field<string>, b: Field<string>, fallback: string): string
  {
    if TruthyText(a) then a.value else if TruthyText(b) then b.value else fallback
  }

  /** `rangoFechas(q)`: the clock is the two dates it yields, `hoy` (today) and `hace30` (30
      days ago), both as `YYYY-MM-DD`. */
  function RangoFechas(q: RangeQuery, hoy: string, hace30: string): (r: Range)
    ensures TruthyText(q.from) ==> r.from == q.from.value
    ensures !TruthyText(q.from) && TruthyText(q.desde) ==> r.from == q.desde.value
    ensures !TruthyText(q.from) && !TruthyText(q.desde) ==> r.from == hace30
    ensures TruthyText(q.to) ==> r.to == q.to.value
    ensures !TruthyText(q.to) && TruthyText(q.hasta) ==> r.to == q.hasta.value
    ensures !TruthyText(q.to) && !TruthyText(q.hasta) ==> r.to == hoy
    ensures StartsWith(r.fromDT, r.from) && r.fromDT[|r.from|..] == START_OF_DAY
    ensures StartsWith(r.toDT, r.to) && r.toDT[|r.to|..] == END_OF_DAY
  {
    var from := FirstGiven(q.from, q.desde, hace30);
    var to := FirstGiven(q.to, q.hasta, hoy);
    Range(from, to, from + START_OF_DAY, to + END_OF_DAY)
  }

  /** `intOrNull(v)`: `parseInt(v, 10)` when it is a finite number, else null. */
  function IntOrNull(v: Field<string>): (r: Option<int>)
    ensures v.Given? ==> r == ParseInt(v.value)
    ensures !v.Given? ==> r.None?
  {
    if v.Given? then ParseInt(v.value) else None
  }

  /** Any decimal numeral, signed or not, is read back by `intOrNull`. */
  lemma IntOrNullReadsNumerals(n: nat)
    ensures IntOrNull(Given(NatToString(n))) == Some(n as int)
    ensures IntOrNull(Given("-" + NatToString(n))) == Some(-(n as int))
  {
    ParseIntRoundTrip(n);
  }

  /** `tipoValido(t)`: the lower-cased type when it is "entrada" or "salida", else null. */
  function TipoValido(t: Field<string>): (r: Option<string>)
    ensures r.Some? ==> r.value == ENTRADA || r.value == SALIDA
    ensures r == Some(ENTRADA) <==> t.Given? && ToLower(t.value) == ENTRADA
    ensures r == Some(SALIDA) <==> t.Given? && ToLower(t.value) == SALIDA
  {
    if !TruthyText(t) then None
    else
      var x := ToLower(t.value);
      if x == ENTRADA || x == SALIDA then Some(x) else None
  }

  /** The type check ignores case: two spellings that lower-case alike are treated alike. */
  lemma TipoValidoIgnoresCase(s: string, t: string)
    requires ToLower(s) == ToLower(t)
    ensures TipoValido(Given(s)) == TipoValido(Given(t))
  {
    assert |s| == |ToLower(s)| == |t|;
  }

  /** A valid type is its own normal form. */
  lemma TipoValidoIdempotent(t: Field<string>)
    ensures var r := TipoValido(t);
            r.Some? ==> TipoValido(Given(r.value)) == r
  {
    var r := TipoValido(t);
    if r.Some? {
      assert ToLower(r.value) == r.value;
    }
  }

  /** `sanitizeLimit(v, def, max)`: the default when `v` does not parse, otherwise the value
      clamped into `[1, max]`. */
  function SanitizeLimit(v: Field<string>, def: int, max: int): (r: int)
    ensures IntOrNull(v).None? ==> r == def
    ensures IntOrNull(v).Some? && 1 <= max ==>
              && 1 <= r <= max
              && (1 <= IntOrNull(v).value <= max ==> r == IntOrNull(v).value)
              && (IntOrNull(v).value < 1 ==> r == 1)
              && (IntOrNull(v).value > max ==> r == max)
  {
    var n := IntOrNull(v);
    if n.None? then def
    else
      var atLeastOne := if n.value > 1 then n.value else 1;
      if atLeastOne < max then atLeastOne else max
  }

  /** Sanitising a sanitised limit changes nothing (for the defaults the handlers use). */
  lemma SanitizeLimitIdempotent(v: Field<string>, def: int, max: int)
    requires 1 <= def <= max
    ensures var n := SanitizeLimit(v, def, max);
            SanitizeLimit(Given(NatToString(n as nat)), def, max) == n
  {
    var n := SanitizeLimit(v, def, max);
    ParseIntRoundTrip(n as nat);
  }

  // ---------------------------------------------------------------------------
  // The WHERE/params builder of /series-entradas-salidas and /export.csv
  // ---------------------------------------------------------------------------

  const SERIES_EQ := " = "
  const EXPORT_EQ := "="
  const FECHA_BETWEEN := "m.fecha BETWEEN $1 AND $2"

  /** `if (usuarioId)`: a user filter is applied for a non-zero id. */
  predicate UserFilter(usuarioId: Option<int>)
  {
    usuarioId.Some? && usuarioId.value != 0
  }

  function FilterCount(usuarioId: Option<int>, tipo: Option<string>): nat
  {
    (if UserFilter(usuarioId) then 1 else 0) + (if tipo.Some? then 1 else 0)
  }

  /** Builds the WHERE clause and its parameters: the date range at `$1` and `$2`, then the user
      clause, then the type clause, each numbered one past the parameters before it. `eq` is the
      comparison as the endpoint spells it (" = " for the series, "=" for the export). */
  method BuildFilter(fromDT: string, toDT: string, usuarioId: Option<int>, tipo: Option<string>, eq: string)
    returns (where: string, params: seq<SqlValue>)
    ensures |params| == 2 + FilterCount(usuarioId, tipo)
    ensures params[..2] == [SqlText(fromDT), SqlText(toDT)]
    ensures UserFilter(usuarioId) ==> params[2] == SqlInt(usuarioId.value)
    ensures tipo.Some? ==> params[|params| - 1] == SqlText(tipo.value)
    ensures where == FECHA_BETWEEN
                     + (if UserFilter(usuarioId) then " AND m.id_usuario" + eq + Placeholder(3) else "")
                     + (if tipo.Some? then " AND m.tipo" + eq + Placeholder(|params|) else "")
  {
    where := FECHA_BETWEEN;
    params := [SqlText(fromDT), SqlText(toDT)];
    if usuarioId.Some? && usuarioId.value != 0 {
      where := where + " AND m.id_usuario" + eq + Placeholder(|params| + 1);
      params := params + [SqlInt(usuarioId.value)];
    }
    if tipo.Some? {
      where := where + " AND m.tipo" + eq + Placeholder(|params| + 1);
      params := params + [SqlText(tipo.value)];
    }
  }

  // ---------------------------------------------------------------------------
  // GET /stock-bajo and the KPI alert count
  // ---------------------------------------------------------------------------

  /** `cantidad <= stock_min` */
  predicate Low(p: Product)
  {
    p.cantidad <= p.stockMin
  }

  /** `cantidad < stock_min`, the KPI's test. */
  predicate Alert(p: Product)
  {
    p.cantidad < p.stockMin
  }

  function LowKeys(ps: map<int, Product>): set<int>
  {
    set k | k in ps && Low(ps[k])
  }

  function AlertKeys(ps: map<int, Product>): set<int>
  {
    set k | k in ps && Alert(ps[k])
  }

  datatype LowStockRow = LowStockRow(idProducto: int, nombre: string, cantidad: int, stockMin: int)

  function Row(k: int, p: Product): LowStockRow
  {
    LowStockRow(k, p.nombre, p.cantidad, p.stockMin)
  }

  function Deficit(r: LowStockRow): int
  {
    r.stockMin - r.cantidad
  }

  /** Code-point order on names (the "C" collation). */
  predicate NameLe(a: string, b: string)
    decreases |a|
  {
    a == [] || (b != [] && (a[0] < b[0] || (a[0] == b[0] && NameLe(a[1..], b[1..]))))
  }

  lemma {:induction false} NameLeTotal(a: string, b: string)
    ensures NameLe(a, b) || NameLe(b, a)
    decreases |a|
  {
    if a != [] && b != [] && a[0] == b[0] {
      NameLeTotal(a[1..], b[1..]);
    }
  }

  lemma {:induction false} NameLeTransitive(a: string, b: string, c: string)
    requires NameLe(a, b) && NameLe(b, c)
    ensures NameLe(a, c)
    decreases |a|
  {
    if a != [] && b != [] && c != [] && a[0] == b[0] && b[0] == c[0] {
      NameLeTransitive(a[1..], b[1..], c[1..]);
    }
  }

  /** `ORDER BY (stock_min - cantidad) DESC, nombre ASC` */
  predicate LowBefore(a: LowStockRow, b: LowStockRow)
  {
    Deficit(a) > Deficit(b) || (Deficit(a) == Deficit(b) && NameLe(a.nombre, b.nombre))
  }

  lemma LowBeforeIsPreorder()
    ensures Total(LowBefore) && Transitive(LowBefore)
  {
    forall a, b ensures LowBefore(a, b) || LowBefore(b, a) {
      NameLeTotal(a.nombre, b.nombre);
    }
    forall a, b, c | LowBefore(a, b) && LowBefore(b, c) ensures LowBefore(a, c) {
      if Deficit(a) == Deficit(b) == Deficit(c) {
        NameLeTransitive(a.nombre, b.nombre, c.nombre);
      }
    }
  }

  /** The low products' keys from `k` up to (not including) `next`, ascending: the table scan
      before sorting. Its order does not affect which rows are reported. */
  function LowKeysFrom(ps: map<int, Product>, k: int, next: int): (r: seq<int>)
    ensures forall j :: j in r <==> k <= j < next && j in ps && Low(ps[j])
    decreases next - k
  {
    if k >= next then []
    else (if k in ps && Low(ps[k]) then [k] else []) + LowKeysFrom(ps, k + 1, next)
  }

  lemma {:induction false} LowKeysFromCount(ps: map<int, Product>, k: int, next: int)
    ensures |LowKeysFrom(ps, k, next)| == |set j | k <= j < next && j in ps && Low(ps[j])|
    decreases next - k
  {
    if k < next {
      LowKeysFromCount(ps, k + 1, next);
      var here := set j | k <= j < next && j in ps && Low(ps[j]);
      var later := set j | k + 1 <= j < next && j in ps && Low(ps[j]);
      if k in ps && Low(ps[k]) {
        assert here == {k} + later;
      } else {
        assert here == later;
      }
    }
  }

  /** The low products' rows in key order, before sorting. */
  function LowRows(ps: map<int, Product>, next: int): (rows: seq<LowStockRow>)
  {
    var keys := LowKeysFrom(ps, 1, next);
    seq(|keys|, i requires 0 <= i < |keys| => Row(keys[i], ps[keys[i]]))
  }

  /** Before sorting there is one row per low product, and a row is there iff it is a low
      product's row. */
  lemma LowRowsContents(ps: map<int, Product>, next: int)
    requires KeysBelow(ps, next)
    ensures |LowRows(ps, next)| == |LowKeys(ps)|
    ensures forall r: LowStockRow :: r in LowRows(ps, next) <==>
              r.idProducto in ps && Low(ps[r.idProducto]) && r == Row(r.idProducto, ps[r.idProducto])
  {
    var keys := LowKeysFrom(ps, 1, next);
    var rows := LowRows(ps, next);
    LowKeysFromCount(ps, 1, next);
    assert LowKeys(ps) == set j | 1 <= j < next && j in ps && Low(ps[j]);
    forall r: LowStockRow | r.idProducto in ps && Low(ps[r.idProducto]) && r == Row(r.idProducto, ps[r.idProducto])
      ensures r in rows
    {
      var i :| 0 <= i < |keys| && keys[i] == r.idProducto;
      assert rows[i] == r;
    }
  }

  /** GET `/stock-bajo` over a table whose keys lie in `[1, next)`: the products at or below
      their minimum, largest shortfall first and by name within a shortfall. Rows that tie on
      both keys may come in any order in SQL; this is one of the allowed orders. */
  function StockBajo(ps: map<int, Product>, next: int): seq<LowStockRow>
  {
    Sort(LowRows(ps, next), LowBefore)
  }

  /** The report lists exactly the low products, each once, in report order. */
  lemma StockBajoContents(ps: map<int, Product>, next: int)
    requires KeysBelow(ps, next)
    ensures Sorted(StockBajo(ps, next), LowBefore)
    ensures |StockBajo(ps, next)| == |LowKeys(ps)|
    ensures forall r: LowStockRow :: r in StockBajo(ps, next) <==>
              r.idProducto in ps && Low(ps[r.idProducto]) && r == Row(r.idProducto, ps[r.idProducto])
  {
    LowRowsContents(ps, next);
    LowBeforeIsPreorder();
    SortSorted(LowRows(ps, next), LowBefore);
    SortMembers(LowRows(ps, next), LowBefore);
  }

  /** The KPI "en alerta": how many products are strictly below their minimum. */
  function EnAlerta(ps: map<int, Product>): nat
  {
    |AlertKeys(ps)|
  }

  /** The low-stock report holds the alerts plus the products exactly at their minimum, which
      are listed as low but not counted as alerts. */
  lemma LowStockSplitsIntoAlertsAndAtMinimum(ps: map<int, Product>, next: int)
    requires KeysBelow(ps, next)
    ensures |StockBajo(ps, next)| == EnAlerta(ps) + |set k | k in ps && ps[k].cantidad == ps[k].stockMin|
    ensures EnAlerta(ps) <= |StockBajo(ps, next)|
  {
    StockBajoContents(ps, next);
    var atMin := set k | k in ps && ps[k].cantidad == ps[k].stockMin;
    assert forall k :: k in LowKeys(ps) <==> k in AlertKeys(ps) || k in atMin;
    assert LowKeys(ps) == AlertKeys(ps) + atMin;
    assert AlertKeys(ps) !! atMin;
  }

  /** Restocking a product by exactly its shortfall brings it to its minimum: it leaves the
      alert count but is still reported as low stock. */
  lemma RestockShortfall(db: Db, id: int, u: Field<int>, now: int)
    requires Valid(db) && id in db.productos && 0 <= db.productos[id].cantidad < db.productos[id].stockMin
    ensures var p := db.productos[id];
            var after := Ledger.Apply(db, Ledger.Restock(id, p.stockMin - p.cantidad, u), now).db;
            && Row(id, after.productos[id]) in StockBajo(after.productos, after.nextProducto)
            && id !in AlertKeys(after.productos)
            && id in AlertKeys(db.productos)
            && EnAlerta(after.productos) == EnAlerta(db.productos) - 1
  {
    var p := db.productos[id];
    var after := Ledger.Apply(db, Ledger.Restock(id, p.stockMin - p.cantidad, u), now).db;
    assert after.productos == db.productos[id := p.(cantidad := p.stockMin)];
    StockBajoContents(after.productos, after.nextProducto);
    assert AlertKeys(after.productos) == AlertKeys(db.productos) - {id};
  }
}
