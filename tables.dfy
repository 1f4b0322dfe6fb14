/**
  The shop's PostgreSQL tables as in-memory maps from row id to row, the
  signed-in principal, and the two kinds of lookup the services rely on:
  every matching row in ascending id order, and the first (lowest id) or the
  latest (highest id) matching row.

  Every table draws its ids from one counter `nextId` (ids start at 1, so an
  id is never falsy in JavaScript); the real database keeps one sequence per
  table, which only changes the numbers, not which rows exist.
*/
module Database {
  import opened Wrappers
  import Text

  datatype User = User(fullName: string, email: string, passwordHash: string, role: string, status: string)

  /** A row of `password_reset_tokens`; `expiresAt` is in milliseconds since the epoch. */
  datatype Token = Token(userId: int, tokenHash: string, purpose: string, expiresAt: int, used: bool)

  datatype Store = Store(ownerId: int, name: string, status: string)

  /** A category row; an update that leaves the name out may store it as NULL, here None. */
  datatype Category = Category(name: Option<string>, parentId: Option<int>, imageUrl: Option<string>)

  datatype Product = Product(
    storeId: int, title: string, description: Option<string>, categoryId: Option<int>,
    price: real, discount: Option<real>, rating: Option<real>, imageUrl: Option<string>,
    status: string)

  datatype Cart = Cart(userId: int)

  datatype CartItem = CartItem(cartId: int, productId: int, qty: int)

  /** A row of `orders`; a `total` that `parseFloat` cannot read is None. */
  datatype Order = Order(code: string, buyerId: int, storeId: int, subtotal: real, total: Option<real>, status: string)

  datatype OrderItem = OrderItem(orderId: int, productId: int, unitPrice: real, qty: int)

  /** All tables at one moment. */
  datatype Tables = Tables(
    users: map<int, User>, tokens: map<int, Token>, stores: map<int, Store>,
    categories: map<int, Category>, products: map<int, Product>, carts: map<int, Cart>,
    cartItems: map<int, CartItem>, orders: map<int, Order>, orderItems: map<int, OrderItem>,
    nextId: int)

  /** Every id in use is below the counter, and the counter starts at 1. */
  predicate KeysBelow<T>(m: map<int, T>, next: int) {
    forall id :: id in m ==> 1 <= id < next
  }

  predicate WellFormed(t: Tables) {
    t.nextId >= 1
    && KeysBelow(t.users, t.nextId) && KeysBelow(t.tokens, t.nextId) && KeysBelow(t.stores, t.nextId)
    && KeysBelow(t.categories, t.nextId) && KeysBelow(t.products, t.nextId) && KeysBelow(t.carts, t.nextId)
    && KeysBelow(t.cartItems, t.nextId) && KeysBelow(t.orders, t.nextId) && KeysBelow(t.orderItems, t.nextId)
  }

  /** `req.currentUser`: an id of None is the NaN that `parseInt` gives for a non-numeric subject. */
  datatype Principal = Principal(id: Option<int>, role: string)

  const ADMIN := "ADMIN"
  const SELLER := "SELLER"
  const USER := "USER"

  /** `x === currentUser.id`: NaN equals nothing. */
  predicate IsUser(p: Principal, x: int) {
    p.id == Some(x)
  }

  /** An id as a request gives it: text (route parameters, form fields) or a JSON number. */
  datatype IdValue = IdText(text: string) | IdNumber(n: int)

  /** JavaScript truthiness of an id that may be missing: `undefined`, `""` and `0` are falsy. */
  predicate Truthy(v: Option<IdValue>) {
    match v
    case None => false
    case Some(IdText(s)) => s != ""
    case Some(IdNumber(n)) => n != 0
  }

  /**
    How PostgreSQL reads a bound parameter given for an integer column: a
    number as it is, text when it is decimal digits with an optional sign;
    None is text the server refuses, which makes the query throw.
  */
  function PgInteger(v: IdValue): (r: Option<int>)
    ensures v.IdNumber? ==> r == Some(v.n)
    ensures v.IdText? && v.text != "" && Text.AllDigits(v.text) ==> r == Some(Text.DigitsValue(v.text))
    ensures v.IdText? && |v.text| >= 2 && (v.text[0] == '-' || v.text[0] == '+') && Text.AllDigits(v.text[1..]) ==>
              r == Some(if v.text[0] == '-' then -(Text.DigitsValue(v.text[1..]) as int) else Text.DigitsValue(v.text[1..]) as int)
    ensures v.IdText? && (v.text == "" || (v.text[0] != '-' && v.text[0] != '+' && !Text.AllDigits(v.text))) ==> r.None?
    ensures v.IdText? && |v.text| >= 1 && (v.text[0] == '-' || v.text[0] == '+') && !Text.AllDigits(v.text[1..]) ==> r.None?
    ensures v.IdText? && (v.text == "-" || v.text == "+") ==> r.None?
  {
    match v
    case IdNumber(n) => Some(n)
    case IdText(s) =>
      if s != "" && Text.AllDigits(s) then Some(Text.DigitsValue(s))
      else if |s| >= 2 && (s[0] == '-' || s[0] == '+') && Text.AllDigits(s[1..]) then
        Some(if s[0] == '-' then -(Text.DigitsValue(s[1..]) as int) else Text.DigitsValue(s[1..]) as int)
      else None
  }

  /** PostgreSQL reads back the decimal text of every integer. */
  lemma PgIntegerOfIntToString(n: int)
    ensures PgInteger(IdText(Text.IntToString(n))) == Some(n)
  {
    if n < 0 {
      var m: nat := -n;
      assert Text.IntToString(n) == "-" + Text.NatToString(m);
      assert ("-" + Text.NatToString(m))[1..] == Text.NatToString(m);
      Text.DigitsValueOfNatToString(m);
    } else {
      Text.DigitsValueOfNatToString(n);
    }
  }

  /**
    Text PostgreSQL accepts as an integer reads as the same number under
    `parseInt(text, 10)`; the converse fails for text such as "5abc".
  */
  lemma PgIntegerIsParseInt(s: string)
    requires PgInteger(IdText(s)).Some?
    ensures Text.ParseInt(s) == PgInteger(IdText(s))
  {
    if s != "" && Text.AllDigits(s) {
      Text.ParseIntOfDigits(s);
    } else {
      SignedPgIntegerIsParseInt(s);
    }
  }

  lemma SignedPgIntegerIsParseInt(s: string)
    requires |s| >= 2 && (s[0] == '-' || s[0] == '+') && Text.AllDigits(s[1..])
    ensures Text.ParseInt(s) == PgInteger(IdText(s))
  {
    assert s == [s[0]] + s[1..];
    if s[0] == '-' {
      NegativePgInteger(s[1..]);
    } else {
      PlusPgInteger(s[1..]);
    }
  }

  lemma NegativePgInteger(d: string)
    requires d != [] && Text.AllDigits(d)
    ensures Text.ParseInt("-" + d) == PgInteger(IdText("-" + d))
  {
    assert ("-" + d)[1..] == d;
    Text.ParseIntOfNegDigits(d);
  }

  lemma PlusPgInteger(d: string)
    requires d != [] && Text.AllDigits(d)
    ensures Text.ParseInt("+" + d) == PgInteger(IdText("+" + d))
  {
    assert ("+" + d)[1..] == d;
    Text.ParseIntOfPlusDigits(d);
  }

  /** The ids below `hi` of the rows that satisfy p, in ascending order. */
  function Select<T>(m: map<int, T>, p: T -> bool, hi: int): (ids: seq<int>)
    ensures forall i :: 0 <= i < |ids| ==> ids[i] in m && p(m[ids[i]]) && 1 <= ids[i] < hi
    ensures forall i, j :: 0 <= i < j < |ids| ==> ids[i] < ids[j]
    ensures forall id :: id in m && 1 <= id < hi && p(m[id]) ==> id in ids
    decreases hi
  {
    if hi <= 1 then []
    else
      var rest := Select(m, p, hi - 1);
      if hi - 1 in m && p(m[hi - 1]) then rest + [hi - 1] else rest
  }

  /** `SELECT ... LIMIT 1` / `rows[0]`: the lowest id of a matching row. */
  function First<T>(m: map<int, T>, p: T -> bool, hi: int): (r: Option<int>)
    ensures r.Some? ==> r.value in m && p(m[r.value]) && 1 <= r.value < hi
    ensures r.Some? ==> forall id :: id in m && 1 <= id < hi && p(m[id]) ==> r.value <= id
    ensures r.None? ==> forall id :: id in m && 1 <= id < hi ==> !p(m[id])
  {
    var ids := Select(m, p, hi);
    if ids == [] then None
    else
      SortedBounds(ids);
      Some(ids[0])
  }

  /** In an ascending sequence the first element is the least and the last the greatest. */
  lemma SortedBounds(ids: seq<int>)
    requires ids != []
    requires forall i, j :: 0 <= i < j < |ids| ==> ids[i] < ids[j]
    ensures forall id :: id in ids ==> ids[0] <= id <= ids[|ids| - 1]
  {
    forall id | id in ids
      ensures ids[0] <= id <= ids[|ids| - 1]
    {
      var i :| 0 <= i < |ids| && ids[i] == id;
      assert i == 0 || ids[0] < ids[i];
      assert i == |ids| - 1 || ids[i] < ids[|ids| - 1];
    }
  }

  /** `ORDER BY created_at DESC LIMIT 1`: the most recently inserted matching row, that is the highest id. */
  function Latest<T>(m: map<int, T>, p: T -> bool, hi: int): (r: Option<int>)
    ensures r.Some? ==> r.value in m && p(m[r.value]) && 1 <= r.value < hi
    ensures r.Some? ==> forall id :: id in m && 1 <= id < hi && p(m[id]) ==> id <= r.value
    ensures r.None? ==> forall id :: id in m && 1 <= id < hi ==> !p(m[id])
  {
    var ids := Select(m, p, hi);
    if ids == [] then None
    else
      SortedBounds(ids);
      Some(ids[|ids| - 1])
  }

  /** The row a lookup finds is the matching row with the least id. */
  lemma FirstIsLeast<T>(m: map<int, T>, p: T -> bool, hi: int, id: int)
    requires id in m && 1 <= id < hi && p(m[id])
    requires forall j :: j in m && 1 <= j < hi && p(m[j]) ==> id <= j
    ensures First(m, p, hi) == Some(id)
  {
    var r := First(m, p, hi);
    assert r.Some?;
    assert r.value <= id && id <= r.value;
  }

  /**
    Inserting row x under the fresh id n: a lookup that found nothing now finds
    the new row when x matches, and a lookup is unchanged when x does not match.
  */
  lemma FirstAfterInsert<T>(m: map<int, T>, p: T -> bool, n: int, x: T)
    requires KeysBelow(m, n) && n >= 1
    ensures p(x) && First(m, p, n).None? ==> First(m[n := x], p, n + 1) == Some(n)
    ensures !p(x) ==> First(m[n := x], p, n + 1) == First(m, p, n)
  {
    var m' := m[n := x];
    if p(x) && First(m, p, n).None? {
      FirstIsLeast(m', p, n + 1, n);
    }
    if !p(x) {
      match First(m, p, n)
      case Some(v) =>
        forall j | j in m' && 1 <= j < n + 1 && p(m'[j]) ensures v <= j {
          assert j != n && j in m;
        }
        FirstIsLeast(m', p, n + 1, v);
      case None =>
    }
  }

  /** Replacing a row by one that matches exactly when the old one did leaves a lookup unchanged. */
  lemma FirstAfterUpdate<T>(m: map<int, T>, p: T -> bool, hi: int, k: int, x: T)
    requires k in m && p(m[k]) == p(x)
    ensures First(m[k := x], p, hi) == First(m, p, hi)
  {
    var m' := m[k := x];
    assert forall j :: j in m' ==> j in m && p(m'[j]) == p(m[j]);
    match First(m, p, hi)
    case Some(v) =>
      FirstIsLeast(m', p, hi, v);
    case None =>
  }

  /** Raising the bound past every key changes no lookup. */
  lemma FirstGrowHi<T>(m: map<int, T>, p: T -> bool, hi: int, hi': int)
    requires KeysBelow(m, hi) && hi <= hi'
    ensures First(m, p, hi') == First(m, p, hi)
  {
    match First(m, p, hi)
    case Some(v) =>
      FirstIsLeast(m, p, hi', v);
    case None =>
  }

  /** The row `Latest` finds is the matching row with the greatest id. */
  lemma LatestIsGreatest<T>(m: map<int, T>, p: T -> bool, hi: int, id: int)
    requires id in m && 1 <= id < hi && p(m[id])
    requires forall j :: j in m && 1 <= j < hi && p(m[j]) ==> j <= id
    ensures Latest(m, p, hi) == Some(id)
  {
    var r := Latest(m, p, hi);
    assert r.Some?;
    assert r.value <= id && id <= r.value;
  }

  /** A row inserted under the fresh id n is the latest row when it matches, and changes nothing when it does not. */
  lemma LatestAfterInsert<T>(m: map<int, T>, p: T -> bool, n: int, x: T)
    requires KeysBelow(m, n) && n >= 1
    ensures p(x) ==> Latest(m[n := x], p, n + 1) == Some(n)
    ensures !p(x) ==> Latest(m[n := x], p, n + 1) == Latest(m, p, n)
  {
    var m' := m[n := x];
    if p(x) {
      LatestIsGreatest(m', p, n + 1, n);
    } else {
      match Latest(m, p, n)
      case Some(v) =>
        forall j | j in m' && 1 <= j < n + 1 && p(m'[j]) ensures j <= v {
          assert j != n && j in m;
        }
        LatestIsGreatest(m', p, n + 1, v);
      case None =>
    }
  }

  /** Replacing a row by one that matches exactly when the old one did leaves `Latest` unchanged. */
  lemma LatestAfterUpdate<T>(m: map<int, T>, p: T -> bool, hi: int, k: int, x: T)
    requires k in m && p(m[k]) == p(x)
    ensures Latest(m[k := x], p, hi) == Latest(m, p, hi)
  {
    var m' := m[k := x];
    assert forall j :: j in m' ==> j in m && p(m'[j]) == p(m[j]);
    match Latest(m, p, hi)
    case Some(v) =>
      LatestIsGreatest(m', p, hi, v);
    case None =>
  }

  /** Raising the bound past every key changes no `Latest` lookup. */
  lemma LatestGrowHi<T>(m: map<int, T>, p: T -> bool, hi: int, hi': int)
    requires KeysBelow(m, hi) && hi <= hi'
    ensures Latest(m, p, hi') == Latest(m, p, hi)
  {
    match Latest(m, p, hi)
    case Some(v) =>
      LatestIsGreatest(m, p, hi', v);
    case None =>
  }

  /** An update that keeps whether the row matches, followed by any number of inserts elsewhere, changes no lookup. */
  lemma LookupsAfterUpdate<T>(m: map<int, T>, p: T -> bool, hi: int, hi': int, k: int, x: T)
    requires KeysBelow(m, hi) && hi <= hi' && k in m && p(m[k]) == p(x)
    ensures First(m[k := x], p, hi') == First(m, p, hi)
    ensures Latest(m[k := x], p, hi') == Latest(m, p, hi)
  {
    assert KeysBelow(m[k := x], hi);
    FirstAfterUpdate(m, p, hi, k, x);
    FirstGrowHi(m[k := x], p, hi, hi');
    LatestAfterUpdate(m, p, hi, k, x);
    LatestGrowHi(m[k := x], p, hi, hi');
  }

  /** Two tables that hold the same rows under every id below hi select the same ids. */
  lemma {:induction false} SelectAgrees<T>(m: map<int, T>, m': map<int, T>, p: T -> bool, hi: int)
    requires forall id :: 1 <= id < hi ==> (id in m <==> id in m')
    requires forall id :: 1 <= id < hi && id in m ==> m[id] == m'[id]
    ensures Select(m, p, hi) == Select(m', p, hi)
    decreases hi
  {
    if hi > 1 {
      SelectAgrees(m, m', p, hi - 1);
    }
  }

  /** A row inserted under the fresh id n comes last in the ascending list of the rows it matches. */
  lemma SelectAfterInsert<T>(m: map<int, T>, p: T -> bool, n: int, x: T)
    requires KeysBelow(m, n) && n >= 1
    ensures p(x) ==> Select(m[n := x], p, n + 1) == Select(m, p, n) + [n]
    ensures !p(x) ==> Select(m[n := x], p, n + 1) == Select(m, p, n)
  {
    SelectAgrees(m[n := x], m, p, n);
  }

  /** The n ids from lo on, as a set. */
  function Ids(lo: int, n: nat): (r: set<int>)
    ensures forall id :: id in r <==> lo <= id < lo + n
  {
    if n == 0 then {} else Ids(lo, n - 1) + {lo + n - 1}
  }

  /** `DELETE FROM t WHERE ...`: the rows that do not satisfy p. */
  function DeleteWhere<T>(m: map<int, T>, p: T -> bool): (r: map<int, T>)
    ensures forall id :: id in r <==> id in m && !p(m[id])
    ensures forall id :: id in r ==> r[id] == m[id]
  {
    map id | id in m && !p(m[id]) :: m[id]
  }

  /** The database: one map per table, rows keyed by id. */
  class Db {
    var users: map<int, User>
    var tokens: map<int, Token>
    var stores: map<int, Store>
    var categories: map<int, Category>
    var products: map<int, Product>
    var carts: map<int, Cart>
    var cartItems: map<int, CartItem>
    var orders: map<int, Order>
    var orderItems: map<int, OrderItem>
    var nextId: int

    /** All tables as one value. */
    function Snapshot(): Tables
      reads this
    {
      Tables(users, tokens, stores, categories, products, carts, cartItems, orders, orderItems, nextId)
    }

    ghost predicate Valid()
      reads this
    {
      WellFormed(Snapshot())
    }

    /** An empty database. */
    constructor ()
      ensures Valid()
      ensures Snapshot() == Tables(map[], map[], map[], map[], map[], map[], map[], map[], map[], 1)
    {
      users, tokens, stores, categories, products := map[], map[], map[], map[], map[];
      carts, cartItems, orders, orderItems := map[], map[], map[], map[];
      nextId := 1;
    }

    /** Takes the next id for an `INSERT ... RETURNING *`. */
    method FreshId() returns (id: int)
      modifies this
      requires Valid()
      ensures id == old(nextId) && nextId == id + 1 && id >= 1
      ensures Snapshot() == old(Snapshot()).(nextId := id + 1)
      ensures Valid()
    {
      id := nextId;
      nextId := nextId + 1;
    }

    /** `INSERT INTO users ... RETURNING *` */
    method InsertUser(u: User) returns (id: int)
      modifies this
      requires Valid()
      ensures Valid() && id == old(nextId)
      ensures Snapshot() == old(Snapshot()).(users := old(users)[id := u], nextId := id + 1)
    {
      id := FreshId();
      users := users[id := u];
    }

    /** `UPDATE users SET ... WHERE id = $n` on a row that exists. */
    method SetUser(id: int, u: User)
      modifies this
      requires Valid() && id in users
      ensures Valid()
      ensures Snapshot() == old(Snapshot()).(users := old(users)[id := u])
    {
      users := users[id := u];
    }

    /** `INSERT INTO password_reset_tokens ... RETURNING *` */
    method InsertToken(k: Token) returns (id: int)
      modifies this
      requires Valid()
      ensures Valid() && id == old(nextId)
      ensures Snapshot() == old(Snapshot()).(tokens := old(tokens)[id := k], nextId := id + 1)
    {
      id := FreshId();
      tokens := tokens[id := k];
    }

    /** `UPDATE password_reset_tokens SET ... WHERE id = $n` on a row that exists. */
    method SetToken(id: int, k: Token)
      modifies this
      requires Valid() && id in tokens
      ensures Valid()
      ensures Snapshot() == old(Snapshot()).(tokens := old(tokens)[id := k])
    {
      tokens := tokens[id := k];
    }

    /** `INSERT INTO stores ... RETURNING *` */
    method InsertStore(s: Store) returns (id: int)
      modifies this
      requires Valid()
      ensures Valid() && id == old(nextId)
      ensures Snapshot() == old(Snapshot()).(stores := old(stores)[id := s], nextId := id + 1)
    {
      id := FreshId();
      stores := stores[id := s];
    }
  }
}
