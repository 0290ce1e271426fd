/** The partial-update statement builder shared by the user and movement PUT handlers: every
    supplied column becomes a `col=$k` clause with consecutive placeholder numbers, its value is
    pushed on the parameter list, and the row id is bound at the next index. */
module Sql {
  import opened Js

  datatype SqlValue = SqlNull | SqlInt(i: int) | SqlText(s: string)

  /** One updatable column: its name and, when the request supplied it, the value to bind. */
  datatype Column = Column(name: string, value: Option<SqlValue>)

  datatype Statement = Statement(sql: string, params: seq<SqlValue>)

  /** A request property a PUT handler tests with `typeof v !== 'undefined'`: bound as given,
      `null` included. */
  function IntColumn(name: string, f: Field<int>): Column
  {
    Column(name, match f case Undefined => None case Null => Some(SqlNull) case Given(n) => Some(SqlInt(n)))
  }

  function TextColumn(name: string, f: Field<string>): Column
  {
    Column(name, match f case Undefined => None case Null => Some(SqlNull) case Given(t) => Some(SqlText(t)))
  }

  /** The value a text column holds after a parameter was written into it. */
  function AsText(v: SqlValue): Option<string>
  {
    if v.SqlText? then Some(v.s) else None
  }

  function AsInt(v: SqlValue): Option<int>
  {
    if v.SqlInt? then Some(v.i) else None
  }

  /** A nullable column after the update: overwritten, null included, when the property was
      supplied, unchanged when it was not. */
  function Written<T>(f: Field<T>, current: Option<T>): Option<T>
  {
    match f
    case Undefined => current
    case Null => None
    case Given(v) => Some(v)
  }

  /** `$k` */
  function Placeholder(k: nat): string
  {
    "$" + NatToString(k)
  }

  /** Names of the supplied columns, in request order. */
  function SuppliedNames(cols: seq<Column>): (r: seq<string>)
    ensures |r| <= |cols|
  {
    if cols == [] then []
    else
      var last := cols[|cols| - 1];
      SuppliedNames(cols[..|cols| - 1]) + (if last.value.Some? then [last.name] else [])
  }

  /** Values of the supplied columns, in request order. */
  function SuppliedValues(cols: seq<Column>): (r: seq<SqlValue>)
    ensures |r| == |SuppliedNames(cols)|
  {
    if cols == [] then []
    else
      var last := cols[|cols| - 1];
      SuppliedValues(cols[..|cols| - 1]) + (if last.value.Some? then [last.value.value] else [])
  }

  /** The SET list a statement must carry: the k-th supplied column assigned from `$(k+1)`. */
  function SetList(cols: seq<Column>): (r: seq<string>)
  {
    var names := SuppliedNames(cols);
    seq(|names|, k requires 0 <= k < |names| => names[k] + "=" + Placeholder(k + 1))
  }

  /** The loop of the PUT handlers: `fields.push(`col=$${idx++}`); params.push(v)` for each
      supplied column, in order. */
  method BuildSet(cols: seq<Column>) returns (fields: seq<string>, params: seq<SqlValue>, idx: nat)
    ensures fields == SetList(cols)
    ensures params == SuppliedValues(cols)
    ensures idx == |params| + 1
  {
    fields, params, idx := [], [], 1;
    for i := 0 to |cols|
      invariant fields == SetList(cols[..i])
      invariant params == SuppliedValues(cols[..i])
      invariant idx == |params| + 1
    {
      assert cols[..i + 1][..i] == cols[..i];
      var c := cols[i];
      if c.value.Some? {
        fields := fields + [c.name + "=" + Placeholder(idx)];
        idx := idx + 1;
        params := params + [c.value.value];
      }
    }
    assert cols[..|cols|] == cols;
  }

  /** The statement a PUT handler sends, or None ("Nada que actualizar") when no column was
      supplied. The id is bound last, at the placeholder numbered one past the columns. */
  method BuildUpdate(table: string, key: string, cols: seq<Column>, id: SqlValue)
    returns (r: Option<Statement>)
    ensures r.None? <==> SuppliedNames(cols) == []
    ensures r.Some? ==> r.value.params == SuppliedValues(cols) + [id]
    ensures r.Some? ==>
              r.value.sql == "UPDATE " + table + " SET " + Join(SetList(cols), ", ") + " WHERE "
                             + key + "=" + Placeholder(|r.value.params|) + " RETURNING *"
  {
    var fields, params, idx := BuildSet(cols);
    if |fields| == 0 {
      return None;
    }
    params := params + [id];
    var sql := "UPDATE " + table + " SET " + Join(fields, ", ") + " WHERE " + key + "="
      + Placeholder(idx) + " RETURNING *";
    return Some(Statement(sql, params));
  }

  /** One clause `name=$n` splits into its column and a numeral that reads back as `n`. */
  lemma ClauseBinds(name: string, n: nat)
    ensures StartsWith(name + "=" + Placeholder(n), name + "=$")
    ensures ParseInt((name + "=" + Placeholder(n))[|name| + 2..]) == Some(n)
  {
    var num := NatToString(n);
    var clause := name + "=" + Placeholder(n);
    assert clause == (name + "=$") + num;
    assert clause[..|name| + 2] == name + "=$";
    assert clause[|name| + 2..] == num;
    ParseIntRoundTrip(n);
  }

  /** Consecutive numbering: the k-th clause is the k-th supplied column's name, `=$`, and a
      numeral that reads back as k+1 -- the position of that column's value in the parameter
      list. */
  lemma SetListBinds(cols: seq<Column>, k: nat)
    requires k < |SuppliedNames(cols)|
    ensures StartsWith(SetList(cols)[k], SuppliedNames(cols)[k] + "=$")
    ensures ParseInt(SetList(cols)[k][|SuppliedNames(cols)[k]| + 2..]) == Some(k + 1)
  {
    var name := SuppliedNames(cols)[k];
    assert SetList(cols)[k] == name + "=" + Placeholder(k + 1);
    ClauseBinds(name, k + 1);
  }

  /** Nothing to update exactly when no column was supplied. */
  lemma {:induction false} NoneSupplied(cols: seq<Column>)
    ensures SuppliedNames(cols) == [] <==> forall i :: 0 <= i < |cols| ==> cols[i].value.None?
    decreases |cols|
  {
    if cols != [] {
      var init := cols[..|cols| - 1];
      NoneSupplied(init);
      if forall i :: 0 <= i < |init| ==> init[i].value.None? {
        if cols[|cols| - 1].value.None? {
          forall i | 0 <= i < |cols| ensures cols[i].value.None? {
            if i < |init| { assert cols[i] == init[i]; }
          }
        }
      } else {
        var i :| 0 <= i < |init| && init[i].value.Some?;
        assert cols[i] == init[i];
      }
    }
  }

  /** Supplying a column adds exactly one clause and one parameter; skipping it adds none. */
  lemma {:induction false} SuppliedCount(cols: seq<Column>)
    ensures |SuppliedNames(cols)| == |set i | 0 <= i < |cols| && cols[i].value.Some?|
  {
    if cols != [] {
      var n := |cols| - 1;
      var init := cols[..n];
      SuppliedCount(init);
      var before := set i | 0 <= i < n && init[i].value.Some?;
      var after := set i | 0 <= i < |cols| && cols[i].value.Some?;
      if cols[n].value.Some? {
        assert after == before + {n};
      } else {
        assert after == before;
      }
    }
  }

  /** The row after `SET names[0]=$1, names[1]=$2, ...` bound to `params`, where `assign` says
      what one assignment does to a row. */
  function Assign<R>(row: R, assign: (R, string, SqlValue) -> R, names: seq<string>, params: seq<SqlValue>): R
    requires |names| <= |params|
    decreases |names|
  {
    if names == [] then row else Assign(assign(row, names[0], params[0]), assign, names[1..], params[1..])
  }

  /** The row after each supplied column, in request order, was assigned its value. */
  function AssignColumns<R>(row: R, assign: (R, string, SqlValue) -> R, cols: seq<Column>): R
    decreases |cols|
  {
    if cols == [] then row
    else
      var before := AssignColumns(row, assign, cols[..|cols| - 1]);
      var last := cols[|cols| - 1];
      if last.value.Some? then assign(before, last.name, last.value.value) else before
  }

  lemma {:induction false} AssignAppend<R>(row: R, assign: (R, string, SqlValue) -> R,
                                           n1: seq<string>, p1: seq<SqlValue>, n2: seq<string>, p2: seq<SqlValue>)
    requires |n1| == |p1| && |n2| <= |p2|
    ensures Assign(row, assign, n1 + n2, p1 + p2) == Assign(Assign(row, assign, n1, p1), assign, n2, p2)
    decreases |n1|
  {
    if n1 != [] {
      assert (n1 + n2)[1..] == n1[1..] + n2;
      assert (p1 + p2)[1..] == p1[1..] + p2;
      AssignAppend(assign(row, n1[0], p1[0]), assign, n1[1..], p1[1..], n2, p2);
    } else {
      assert n1 + n2 == n2 && p1 + p2 == p2;
    }
  }

  /** Parameters past the SET list (the id bound last) do not affect the row. */
  lemma {:induction false} AssignIgnoresExtra<R>(row: R, assign: (R, string, SqlValue) -> R,
                                                 names: seq<string>, params: seq<SqlValue>, extra: seq<SqlValue>)
    requires |names| <= |params|
    ensures Assign(row, assign, names, params + extra) == Assign(row, assign, names, params)
    decreases |names|
  {
    if names != [] {
      assert (params + extra)[1..] == params[1..] + extra;
      AssignIgnoresExtra(assign(row, names[0], params[0]), assign, names[1..], params[1..], extra);
    }
  }

  /** Executing the built statement's SET list assigns exactly the supplied columns their
      values, in request order: the k-th name meets the k-th parameter. */
  lemma {:induction false} AssignSupplied<R>(row: R, assign: (R, string, SqlValue) -> R, cols: seq<Column>)
    ensures Assign(row, assign, SuppliedNames(cols), SuppliedValues(cols)) == AssignColumns(row, assign, cols)
    decreases |cols|
  {
    if cols != [] {
      var init := cols[..|cols| - 1];
      var last := cols[|cols| - 1];
      AssignSupplied(row, assign, init);
      var ln := if last.value.Some? then [last.name] else [];
      var lv := if last.value.Some? then [last.value.value] else [];
      AssignAppend(row, assign, SuppliedNames(init), SuppliedValues(init), ln, lv);
    }
  }
}
