/**
  The SQL text that `BaseModel` (base.model.js) builds, and its id guards.
  Each builder returns the statement and its bound parameters instead of
  running it; an id that `parseInt` cannot read either answers null or throws
  before any statement is built, as the source does.
*/
module BaseModel {
  import opened Wrappers
  import opened Text

  /** A bound parameter: an integer the model coerced, or a value passed through as text. */
  datatype Param = Integer(n: int) | Plain(text: string)

  /** A statement and its parameters, `$1` being `params[0]`. */
  datatype Query = Query(sql: string, params: seq<Param>)

  /** What `updateById` does. */
  datatype UpdatePlan<V> =
    | FindInstead(find: Option<Query>)                    // empty patch: `findById` instead
    | UpdateThrows(message: string)                       // non-numeric id
    | Update(sql: string, values: seq<V>, id: int)        // `$1..$n` are `values`, `$(n+1)` is `id`

  const DefaultOrder := "ORDER BY id ASC"
  const DefaultLimit := 100

  /** The tables that have an `updated_at` column. */
  const TablesWithUpdatedAt: set<string> := {"users", "stores", "categories", "products", "carts", "orders"}

  /** `$k` */
  function Placeholder(k: nat): string {
    "$" + NatToString(k)
  }

  /**
    The order clause `findMany` puts in the statement (None is an omitted
    argument): the caller's clause when, upper-cased, it starts with
    `ORDER BY`, and the default otherwise.
  */
  function SafeOrderClause(orderClause: Option<string>): (r: string)
    ensures orderClause.Some? && StartsWith(ToUpperAscii(orderClause.value), "ORDER BY") ==> r == orderClause.value
    ensures orderClause.Some? && !StartsWith(ToUpperAscii(orderClause.value), "ORDER BY") ==> r == DefaultOrder
    ensures orderClause.None? ==> r == DefaultOrder
  {
    var c := orderClause.GetOr(DefaultOrder);
    if StartsWith(ToUpperAscii(c), "ORDER BY") then c else DefaultOrder
  }

  /** `findMany`: `SELECT * FROM t <order> LIMIT $1` with the limit bound as `$1`. */
  function FindMany(table: string, orderClause: Option<string>, limit: Option<int>): (q: Query)
    ensures q.params == [Integer(limit.GetOr(DefaultLimit))]
    ensures q.sql == "SELECT * FROM " + table + " " + SafeOrderClause(orderClause) + " LIMIT $1"
  {
    Query("SELECT * FROM " + table + " " + SafeOrderClause(orderClause) + " LIMIT $1",
          [Integer(limit.GetOr(DefaultLimit))])
  }

  /** `findById`: None (null, no query) for an id parseInt cannot read. */
  function FindById(table: string, id: string): (r: Option<Query>)
    ensures ParseInt(id).None? <==> r.None?
    ensures r.Some? ==> r.value.sql == "SELECT * FROM " + table + " WHERE id=$1"
    ensures r.Some? ==> r.value.params == [Integer(ParseInt(id).value)]
  {
    match ParseInt(id)
    case None => None
    case Some(n) => Some(Query("SELECT * FROM " + table + " WHERE id=$1", [Integer(n)]))
  }

  /** The message `updateById` and `deleteById` throw for an id parseInt cannot read. */
  function BadIdMessage(table: string): string {
    "ID không hợp lệ cho bảng " + table
  }

  /** `deleteById`: throws before any query for an id parseInt cannot read. */
  function DeleteById(table: string, id: string): (r: Result<Query>)
    ensures ParseInt(id).None? <==> r.Failure?
    ensures r.Failure? ==> r.error == BadIdMessage(table)
    ensures r.Success? ==> r.value.sql == "DELETE FROM " + table + " WHERE id=$1"
    ensures r.Success? ==> r.value.params == [Integer(ParseInt(id).value)]
  {
    match ParseInt(id)
    case None => Failure(BadIdMessage(table))
    case Some(n) => Success(Query("DELETE FROM " + table + " WHERE id=$1", [Integer(n)]))
  }

  /** `values.map((_, i) => "$" + (i + 1))`, one placeholder per value, numbered from 1. */
  function PlaceholderList(n: nat): (r: seq<string>)
    ensures |r| == n
    ensures forall i :: 0 <= i < n ==> r[i] == Placeholder(i + 1)
  {
    if n == 0 then [] else PlaceholderList(n - 1) + [Placeholder(n)]
  }

  /** `insert`: `INSERT INTO t(c1, ..., cn) VALUES($1, ..., $n) RETURNING *`. */
  function Insert<V>(table: string, columns: seq<string>, values: seq<V>): (r: (string, seq<V>))
    ensures r.1 == values
    ensures r.0 == "INSERT INTO " + table + "(" + Join(columns, ", ") + ") VALUES("
                   + Join(PlaceholderList(|values|), ", ") + ") RETURNING *"
  {
    ("INSERT INTO " + table + "(" + Join(columns, ", ") + ") VALUES("
     + Join(PlaceholderList(|values|), ", ") + ") RETURNING *", values)
  }

  /**
    `keys.map((k, i) => k + sep + "$" + (i + 1))`: the SET list of `updateById`
    has `=` between key and placeholder, the conditions of `findOne` ` = `.
  */
  function Items(keys: seq<string>, sep: string): (r: seq<string>)
    ensures |r| == |keys|
    ensures forall i :: 0 <= i < |keys| ==> r[i] == keys[i] + sep + Placeholder(i + 1)
  {
    if keys == [] then [] else Items(keys[..|keys| - 1], sep) + [keys[|keys| - 1] + sep + Placeholder(|keys|)]
  }

  /** `Object.keys(o)` of an object given as its pairs in order. */
  function KeysOf<V>(pairs: seq<(string, V)>): (keys: seq<string>)
    ensures |keys| == |pairs|
    ensures forall i :: 0 <= i < |pairs| ==> keys[i] == pairs[i].0
  {
    seq(|pairs|, i requires 0 <= i < |pairs| => pairs[i].0)
  }

  /** The tail `updated_at=NOW()` gets in the SET clause of a table that has the column. */
  function UpdatedAtItem(table: string): string {
    if table in TablesWithUpdatedAt then ", updated_at=NOW()" else ""
  }

  /**
    `updateById(table, id, patch)`, the patch given as its keys in order with
    their values: an empty patch is a `findById`; a non-numeric id throws;
    otherwise `UPDATE t SET k1=$1, ..., kn=$n[, updated_at=NOW()] WHERE id=$(n+1) RETURNING *`.
  */
  function UpdateById<V>(table: string, id: string, patch: seq<(string, V)>): (r: UpdatePlan<V>)
    ensures patch == [] <==> r.FindInstead?
    ensures r.FindInstead? ==> r.find == FindById(table, id)
    ensures patch != [] && ParseInt(id).None? <==> r.UpdateThrows?
    ensures r.UpdateThrows? ==> r.message == BadIdMessage(table)
    ensures r.Update? ==> r.id == ParseInt(id).value && |r.values| == |patch|
    ensures r.Update? ==> forall i :: 0 <= i < |patch| ==> r.values[i] == patch[i].1
    ensures r.Update? ==>
              r.sql == "UPDATE " + table + " SET " + Join(Items(KeysOf(patch), "="), ", ") + UpdatedAtItem(table)
                       + " WHERE id=" + Placeholder(|patch| + 1) + " RETURNING *"
  {
    if patch == [] then FindInstead(FindById(table, id))
    else
      match ParseInt(id)
      case None => UpdateThrows(BadIdMessage(table))
      case Some(n) =>
        var values := seq(|patch|, i requires 0 <= i < |patch| => patch[i].1);
        Update("UPDATE " + table + " SET " + Join(Items(KeysOf(patch), "="), ", ") + UpdatedAtItem(table)
               + " WHERE id=" + Placeholder(|patch| + 1) + " RETURNING *", values, n)
  }

  /** Keys that `findOne` coerces: `id` and every key ending in `_id`. */
  predicate IsIdKey(key: string) {
    key == "id" || EndsWith(key, "_id")
  }

  /** `findOne`'s value coercion: `parseInt` for id keys when it is not NaN, the value unchanged otherwise. */
  function Coerce(key: string, value: string): (p: Param)
    ensures IsIdKey(key) && ParseInt(value).Some? ==> p == Integer(ParseInt(value).value)
    ensures !(IsIdKey(key) && ParseInt(value).Some?) ==> p == Plain(value)
  {
    if IsIdKey(key) then
      match ParseInt(value)
      case Some(n) => Integer(n)
      case None => Plain(value)
    else Plain(value)
  }

  /**
    `findOne(table, conditions)`, the conditions given as their keys in order
    with their values as text: null for no condition, otherwise
    `SELECT * FROM t WHERE k1 = $1 AND ... LIMIT 1`.
  */
  function FindOne(table: string, conditions: seq<(string, string)>): (r: Option<Query>)
    ensures conditions == [] <==> r.None?
    ensures r.Some? ==> |r.value.params| == |conditions|
    ensures r.Some? ==> forall i :: 0 <= i < |conditions| ==> r.value.params[i] == Coerce(conditions[i].0, conditions[i].1)
    ensures r.Some? ==> r.value.sql == "SELECT * FROM " + table + " WHERE " + Join(Items(KeysOf(conditions), " = "), " AND ") + " LIMIT 1"
  {
    if conditions == [] then None
    else
      var keys := KeysOf(conditions);
      var params := seq(|conditions|, i requires 0 <= i < |conditions| => Coerce(conditions[i].0, conditions[i].1));
      Some(Query("SELECT * FROM " + table + " WHERE " + Join(Items(keys, " = "), " AND ") + " LIMIT 1", params))
  }

  // ----- Placeholders and parameters line up -----

  /** Placeholder numbers are distinct: `$i` and `$j` differ for i != j. */
  lemma PlaceholderInjective(i: nat, j: nat)
    requires Placeholder(i) == Placeholder(j)
    ensures i == j
  {
    assert Placeholder(i)[1..] == NatToString(i);
    assert Placeholder(j)[1..] == NatToString(j);
    IntToStringInjective(i, j);
  }

  /**
    In an UPDATE, the i-th SET item names the i-th patch key and the
    placeholder whose parameter is that key's value, and the id's placeholder
    `$(n+1)` is none of the SET placeholders.
  */
  lemma UpdateBindsInOrder<V>(table: string, id: string, patch: seq<(string, V)>, i: nat)
    requires UpdateById(table, id, patch).Update? && i < |patch|
    ensures Items(KeysOf(patch), "=")[i] == patch[i].0 + "=" + Placeholder(i + 1)
            && UpdateById(table, id, patch).values[i] == patch[i].1
            && Placeholder(i + 1) != Placeholder(|patch| + 1)
  {
    if Placeholder(i + 1) == Placeholder(|patch| + 1) {
      PlaceholderInjective(i + 1, |patch| + 1);
    }
  }

  /**
    In a `findOne`, the i-th condition of the WHERE clause names the i-th key
    and the placeholder whose parameter is that key's coerced value.
  */
  lemma FindOneBindsInOrder(table: string, conditions: seq<(string, string)>, i: nat)
    requires FindOne(table, conditions).Some? && i < |conditions|
    ensures Items(KeysOf(conditions), " = ")[i] == conditions[i].0 + " = " + Placeholder(i + 1)
            && FindOne(table, conditions).value.params[i] == Coerce(conditions[i].0, conditions[i].1)
  {
  }
}
