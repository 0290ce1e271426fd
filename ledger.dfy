/** Properties of the stock ledger formed by the consume and restock endpoints, over single
    calls and over any sequence of calls (each call one atomic, serialised transaction). */
module Ledger {
  import opened Js
  import opened Tables
  import opened Productos

  /** A call of POST `/:id/consumir` or POST `/:id/ingresar` with a numeric id and amount. */
  datatype LedgerOp =
    | Consume(id: int, amount: int, usuario: Field<int>)
    | Restock(id: int, amount: int, usuario: Field<int>)

  function Apply(db: Db, op: LedgerOp, now: int): (r: Step<Receipt>)
    requires Valid(db)
    ensures Valid(r.db)
  {
    match op
    case Consume(id, amount, u) => Consumir(db, Finite(id), Given(Finite(amount)), u, now)
    case Restock(id, amount, u) => Ingresar(db, Finite(id), Given(Finite(amount)), u, now)
  }

  /** The database after the calls, one after the other. */
  function Run(db: Db, ops: seq<LedgerOp>, now: int): (r: Db)
    requires Valid(db)
    ensures Valid(r)
    decreases |ops|
  {
    if ops == [] then db else Run(Apply(db, ops[0], now).db, ops[1..], now)
  }

  /** How many of the calls succeed. */
  function Successes(db: Db, ops: seq<LedgerOp>, now: int): (n: nat)
    requires Valid(db)
    ensures n <= |ops|
    decreases |ops|
  {
    if ops == [] then 0
    else
      var s := Apply(db, ops[0], now);
      (if s.reply.Ok? then 1 else 0) + Successes(s.db, ops[1..], now)
  }

  /** One call never makes a non-negative stock negative: consumption refuses to, restocking
      only adds a positive amount. */
  lemma ApplyKeepsStockNonNegative(db: Db, op: LedgerOp, now: int)
    requires Valid(db) && StockNonNegative(db.productos)
    ensures StockNonNegative(Apply(db, op, now).db.productos)
  {
  }

  /** Quantities stay non-negative after any sequence of ledger calls. */
  lemma {:induction false} RunKeepsStockNonNegative(db: Db, ops: seq<LedgerOp>, now: int)
    requires Valid(db) && StockNonNegative(db.productos)
    ensures StockNonNegative(Run(db, ops, now).productos)
    decreases |ops|
  {
    if ops != [] {
      ApplyKeepsStockNonNegative(db, ops[0], now);
      RunKeepsStockNonNegative(Apply(db, ops[0], now).db, ops[1..], now);
    }
  }

  /** Each successful call appends exactly one movement and a refused one appends none, so the
      history grows by the number of successes and its old part is never altered. */
  lemma {:induction false} RunAppendsOneMovementPerSuccess(db: Db, ops: seq<LedgerOp>, now: int)
    requires Valid(db)
    ensures |Run(db, ops, now).movimientos| == |db.movimientos| + Successes(db, ops, now)
    ensures Run(db, ops, now).movimientos[..|db.movimientos|] == db.movimientos
    decreases |ops|
  {
    if ops != [] {
      var s := Apply(db, ops[0], now);
      RunAppendsOneMovementPerSuccess(s.db, ops[1..], now);
      assert s.db.movimientos[..|db.movimientos|] == db.movimientos;
    }
  }

  /** Restocking n and then consuming n leaves every product as it was and adds exactly an
      `entrada` and a `salida` movement of n. It needs the stock to start non-negative: with a
      negative stock (which creation and editing allow) the consumption is refused. */
  lemma RestockThenConsume(db: Db, id: int, n: int, u: Field<int>, now: int)
    requires Valid(db) && id in db.productos && n > 0
    ensures var s1 := Apply(db, Restock(id, n, u), now);
            var s2 := Apply(s1.db, Consume(id, n, u), now);
            && s1.reply.Ok?
            && (s2.reply.Ok? <==> db.productos[id].cantidad >= 0)
            && (s2.reply.Ok? ==>
                  && s2.db.productos == db.productos
                  && s2.db.movimientos == db.movimientos
                       + [StockMovement(db.nextMovimiento, id, ENTRADA, n, Nullish(u), now),
                          StockMovement(db.nextMovimiento + 1, id, SALIDA, n, Nullish(u), now)])
  {
    var s1 := Apply(db, Restock(id, n, u), now);
    var p := db.productos[id];
    assert s1.db.productos[id] == p.(cantidad := p.cantidad + n);
    var s2 := Apply(s1.db, Consume(id, n, u), now);
    if s2.reply.Ok? {
      assert s2.db.productos[id] == p;
      assert s2.db.productos == db.productos;
    }
  }

  /** Consuming exactly the whole stock succeeds and leaves 0; one unit more is refused. */
  lemma ConsumeWholeStock(db: Db, id: int, u: Field<int>, now: int)
    requires Valid(db) && id in db.productos && db.productos[id].cantidad > 0
    ensures var q := db.productos[id].cantidad;
            && Apply(db, Consume(id, q, u), now).reply == Ok(Receipt(0, db.nextMovimiento))
            && Apply(db, Consume(id, q + 1, u), now) == Step(db, InsufficientStock)
  {
  }

  function UnitConsumes(id: int, n: nat, u: Field<int>): (ops: seq<LedgerOp>)
    ensures |ops| == n
  {
    seq(n, _ => Consume(id, 1, u))
  }

  function Min(a: int, b: int): int
  {
    if a <= b then a else b
  }

  /** n one-unit consumptions of a product holding k >= 0 units, one after the other: exactly
      min(n, k) of them succeed and the stock ends at k - min(n, k), never below zero. This is
      what the row lock guarantees for concurrent requests, once they are serialised. */
  lemma {:induction false} UnitConsumesSucceedUpToStock(db: Db, id: int, n: nat, u: Field<int>, now: int)
    requires Valid(db) && id in db.productos && db.productos[id].cantidad >= 0
    ensures var k := db.productos[id].cantidad;
            && Successes(db, UnitConsumes(id, n, u), now) == Min(n, k)
            && id in Run(db, UnitConsumes(id, n, u), now).productos
            && Run(db, UnitConsumes(id, n, u), now).productos[id].cantidad == k - Min(n, k)
    decreases n
  {
    if n > 0 {
      var ops := UnitConsumes(id, n, u);
      assert ops[1..] == UnitConsumes(id, n - 1, u);
      var s := Apply(db, ops[0], now);
      UnitConsumesSucceedUpToStock(s.db, id, n - 1, u, now);
    }
  }
}
