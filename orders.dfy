/**
  `OrderService` (order.service.js): placing an order from the buyer's cart,
  reading one order back, and changing an order's status.

  `createFromCart` keeps only the cart rows of the first row's store, freezes
  each unit price with `ProductModel.calculateFinalPrice`, sums the subtotal,
  and inserts the order and one order item per kept row. The inserts go
  through the pool rather than the transaction's client, so the ROLLBACK after
  a failed insert undoes nothing: `CreatedAsWritten` is that behaviour, and
  `Created` (implemented by `CreateFromCart`) is the all-or-nothing behaviour
  the transaction is there for.

  A failing insert is a parameter: `failAt == Some(k)` makes insert number k
  throw the database error `err` (insert 0 is the order, insert i the i-th
  item); inserts before it succeed. The order code (`genCode`, from the clock)
  is a parameter too.
*/
module OrderService {
  import opened Wrappers
  import opened Text
  import opened Database
  import opened Pricing
  import CartService

  const EmptyCart := "Giỏ hàng trống"
  const CreateFailed := "Không thể tạo đơn hàng: "
  const NotAllowed := "Bạn không có quyền cập nhật đơn hàng này"

  /** The seven statuses `updateStatus` accepts. */
  const ValidStatuses: seq<string> :=
    ["pending", "paid", "payment_failed", "processing", "shipped", "delivered", "cancelled"]

  function BadStatus(status: string): string {
    "Trạng thái \"" + status + "\" không hợp lệ."
  }

  // ----- createFromCart -----

  /** A row of `carts c JOIN cart_items ci ON ci.cart_id = c.id JOIN products p ON p.id = ci.product_id WHERE c.user_id = u`. */
  predicate OwnRow(t: Tables, u: int, ci: CartItem) {
    ci.cartId in t.carts && t.carts[ci.cartId].userId == u && ci.productId in t.products
  }

  function InUserCart(t: Tables, u: int): CartItem -> bool {
    (ci: CartItem) => OwnRow(t, u, ci)
  }

  /** Cart item ids whose product exists. */
  predicate Joined(t: Tables, ids: seq<int>) {
    forall i :: 0 <= i < |ids| ==> ids[i] in t.cartItems && t.cartItems[ids[i]].productId in t.products
  }

  /** The joined rows of the buyer's carts, as cart item ids in ascending order. */
  function CartRows(t: Tables, u: int): (ids: seq<int>)
    ensures Joined(t, ids)
    ensures forall i :: 0 <= i < |ids| ==> OwnRow(t, u, t.cartItems[ids[i]])
  {
    var ids := Select(t.cartItems, InUserCart(t, u), t.nextId);
    assert forall i :: 0 <= i < |ids| ==> InUserCart(t, u)(t.cartItems[ids[i]]);
    ids
  }

  /** `p.store_id` of a joined row. */
  function StoreOfRow(t: Tables, id: int): int
    requires id in t.cartItems && t.cartItems[id].productId in t.products
  {
    t.products[t.cartItems[id].productId].storeId
  }

  /** `rows.filter(x => x.store_id === store_id)`. */
  function ForStore(t: Tables, ids: seq<int>, store: int): (r: seq<int>)
    requires Joined(t, ids)
    ensures Joined(t, r) && |r| <= |ids|
    ensures forall i :: 0 <= i < |r| ==> StoreOfRow(t, r[i]) == store && r[i] in ids
    ensures forall i :: 0 <= i < |ids| && StoreOfRow(t, ids[i]) == store ==> ids[i] in r
  {
    if ids == [] then []
    else
      var init := ids[..|ids| - 1];
      var last := ids[|ids| - 1];
      assert forall i :: 0 <= i < |init| ==> init[i] == ids[i];
      var rest := ForStore(t, init, store);
      if StoreOfRow(t, last) == store then rest + [last] else rest
  }

  /** What one order item is made of: `{product_id, unit_price, qty}`. */
  datatype OrderLine = OrderLine(productId: int, unitPrice: real, qty: int)

  /** `calculateFinalPrice(price, discount_percentage || 0)` and the cart quantity. */
  function LineOfRow(t: Tables, id: int): (l: OrderLine)
    requires id in t.cartItems && t.cartItems[id].productId in t.products
    ensures l.productId == t.cartItems[id].productId && l.qty == t.cartItems[id].qty
    ensures l.unitPrice == ModelFinalPrice(t.products[l.productId].price, t.products[l.productId].discount)
  {
    var ci := t.cartItems[id];
    var p := t.products[ci.productId];
    OrderLine(ci.productId, ModelFinalPrice(p.price, Some(p.discount.GetOr(0.0))), ci.qty)
  }

  function LinesOf(t: Tables, ids: seq<int>): (ls: seq<OrderLine>)
    requires Joined(t, ids)
    ensures |ls| == |ids|
    ensures forall i :: 0 <= i < |ids| ==> ls[i] == LineOfRow(t, ids[i])
  {
    if ids == [] then [] else LinesOf(t, ids[..|ids| - 1]) + [LineOfRow(t, ids[|ids| - 1])]
  }

  /** `unit_price × qty` of one line. */
  function Amount(l: OrderLine): real {
    l.unitPrice * (l.qty as real)
  }

  /** `Σ unit_price × qty`. */
  function Total(ls: seq<OrderLine>): (r: real)
    ensures (forall k :: 0 <= k < |ls| ==> ls[k].unitPrice >= 0.0 && ls[k].qty >= 0) ==> r >= 0.0
  {
    if ls == [] then 0.0
    else
      var init, last := ls[..|ls| - 1], ls[|ls| - 1];
      assert forall k :: 0 <= k < |init| ==> init[k] == ls[k];
      assert last.unitPrice >= 0.0 && last.qty >= 0 ==> Amount(last) >= 0.0;
      Total(init) + Amount(last)
  }

  /** What `createFromCart` computes before it writes: the store, the lines and the subtotal. */
  datatype Plan = Plan(storeId: int, rows: seq<int>, lines: seq<OrderLine>, subtotal: real)

  /** None for an empty cart; otherwise the order of the first row's store. */
  function PlanFor(t: Tables, u: int): (r: Option<Plan>)
    ensures r.None? <==> CartRows(t, u) == []
    ensures r.Some? ==> var rows := CartRows(t, u);
              && r.value.storeId == StoreOfRow(t, rows[0])
              && r.value.rows == ForStore(t, rows, r.value.storeId) && r.value.rows != []
              && r.value.lines == LinesOf(t, r.value.rows)
              && r.value.subtotal == Total(r.value.lines)
  {
    var rows := CartRows(t, u);
    if rows == [] then None
    else
      var store := StoreOfRow(t, rows[0]);
      var kept := ForStore(t, rows, store);
      var lines := LinesOf(t, kept);
      Some(Plan(store, kept, lines, Total(lines)))
  }

  function NewOrder(code: string, u: int, p: Plan): Order {
    Order(code, u, p.storeId, p.subtotal, Some(p.subtotal), "pending")
  }

  /** The order item row of a line of order o. */
  function ItemRow(o: int, l: OrderLine): OrderItem {
    OrderItem(o, l.productId, l.unitPrice, l.qty)
  }

  /** order_items after inserting one row per line of order o under the ids `next`, `next + 1`, .... */
  function PutItems(items: map<int, OrderItem>, next: int, o: int, ls: seq<OrderLine>): (r: map<int, OrderItem>)
    ensures forall id :: id in r <==> id in items || next <= id < next + |ls|
    ensures forall id :: next <= id < next + |ls| ==> r[id] == ItemRow(o, ls[id - next])
    ensures forall id :: id in items && !(next <= id < next + |ls|) ==> r[id] == items[id]
  {
    map id | id in items.Keys + Ids(next, |ls|) :: if next <= id < next + |ls| then ItemRow(o, ls[id - next]) else items[id]
  }

  /** The new rows stay below the advanced counter. */
  lemma PutItemsBelow(items: map<int, OrderItem>, next: int, o: int, ls: seq<OrderLine>)
    requires KeysBelow(items, next) && next >= 1
    ensures KeysBelow(PutItems(items, next, o, ls), next + |ls|)
  {
  }

  /** The tables after the order insert and the first n item inserts. */
  function Placed(t: Tables, u: int, code: string, p: Plan, n: nat): (r: Tables)
    requires WellFormed(t) && n <= |p.lines|
    ensures WellFormed(r)
  {
    var o := t.nextId;
    t.(orders := t.orders[o := NewOrder(code, u, p)],
       orderItems := PutItems(t.orderItems, o + 1, o, p.lines[..n]),
       nextId := o + 1 + n)
  }

  /** The insert that fails, if it is one of the inserts `createFromCart` makes. */
  predicate FailsWithin(failAt: Option<nat>, p: Plan) {
    failAt.Some? && failAt.value <= |p.lines|
  }

  /**
    `createFromCart(u)` as written: a failed insert throws, and the rows the
    earlier inserts wrote stay, because they did not go through the client
    that is rolled back.
  */
  function CreatedAsWritten(t: Tables, u: int, code: string, failAt: Option<nat>, err: string): (r: (Result<int>, Tables))
    requires WellFormed(t)
    ensures WellFormed(r.1)
  {
    match PlanFor(t, u)
    case None => (Failure(EmptyCart), t)
    case Some(p) =>
      if FailsWithin(failAt, p) then
        var k := failAt.value;
        (Failure(CreateFailed + err), if k == 0 then t else Placed(t, u, code, p, k - 1))
      else (Success(t.nextId), Placed(t, u, code, p, |p.lines|))
  }

  /**
    `createFromCart(u)` with the transaction covering the inserts: a failed
    insert throws and leaves every row as it was (the ids already drawn stay
    used, as a sequence does).
  */
  function Created(t: Tables, u: int, code: string, failAt: Option<nat>, err: string): (r: (Result<int>, Tables))
    requires WellFormed(t)
    ensures WellFormed(r.1)
    ensures r.0.Failure? ==> r.1.(nextId := t.nextId) == t && r.1.nextId >= t.nextId
    ensures r.0.Failure? <==> PlanFor(t, u).None? || FailsWithin(failAt, PlanFor(t, u).value)
    ensures PlanFor(t, u).None? ==> r == (Failure(EmptyCart), t)
    ensures PlanFor(t, u).Some? && FailsWithin(failAt, PlanFor(t, u).value) ==> r.0 == Failure(CreateFailed + err)
  {
    match PlanFor(t, u)
    case None => (Failure(EmptyCart), t)
    case Some(p) =>
      if FailsWithin(failAt, p) then (Failure(CreateFailed + err), t.(nextId := t.nextId + failAt.value))
      else (Success(t.nextId), Placed(t, u, code, p, |p.lines|))
  }

  /** A successful `createFromCart` adds the order under the next id and one item per line after it. */
  lemma CreatedSuccess(t: Tables, u: int, code: string, failAt: Option<nat>, err: string)
    requires WellFormed(t) && PlanFor(t, u).Some? && !FailsWithin(failAt, PlanFor(t, u).value)
    ensures var p := PlanFor(t, u).value;
            Created(t, u, code, failAt, err)
            == (Success(t.nextId),
                t.(orders := t.orders[t.nextId := NewOrder(code, u, p)],
                   orderItems := PutItems(t.orderItems, t.nextId + 1, t.nextId, p.lines),
                   nextId := t.nextId + 1 + |p.lines|))
            && Created(t, u, code, failAt, err).1 == Placed(t, u, code, p, |p.lines|)
  {
    PlacedAll(t, u, code, PlanFor(t, u).value);
  }

  /**
    The plan keeps one store: every kept row is of the first row's store, and
    every row of that store is kept, in the order of the cart rows.
  */
  lemma PlanKeepsFirstStore(t: Tables, u: int)
    requires PlanFor(t, u).Some?
    ensures var rows := CartRows(t, u);
            var p := PlanFor(t, u).value;
            && (forall i :: 0 <= i < |p.rows| ==> StoreOfRow(t, p.rows[i]) == StoreOfRow(t, rows[0]))
            && (forall i :: 0 <= i < |rows| && StoreOfRow(t, rows[i]) == p.storeId ==> rows[i] in p.rows)
            && rows[0] in p.rows
  {
  }

  /**
    A placed order is a new `pending` order of the buyer for the first row's
    store, whose total is its subtotal, the sum of `unit_price × qty`; carts,
    cart items and products are not touched.
  */
  lemma CreatedOrder(t: Tables, u: int, code: string, failAt: Option<nat>, err: string)
    requires WellFormed(t)
    requires Created(t, u, code, failAt, err).0.Success?
    ensures var (res, t2) := Created(t, u, code, failAt, err);
            var p := PlanFor(t, u).value;
            && res.value == t.nextId && res.value !in t.orders
            && t2.orders == t.orders[res.value := Order(code, u, StoreOfRow(t, CartRows(t, u)[0]), p.subtotal, Some(p.subtotal), "pending")]
            && p.subtotal == Total(p.lines)
            && t2.carts == t.carts && t2.cartItems == t.cartItems && t2.products == t.products
  {
    CreatedSuccess(t, u, code, failAt, err);
  }

  /** The new item ids are the ones right after the order's; every earlier item stays as it was. */
  lemma CreatedItemIds(t: Tables, u: int, code: string, failAt: Option<nat>, err: string)
    requires WellFormed(t)
    requires Created(t, u, code, failAt, err).0.Success?
    ensures var items := Created(t, u, code, failAt, err).1.orderItems;
            var o := t.nextId;
            && (forall id :: id in items <==> id in t.orderItems || o < id <= o + |PlanFor(t, u).value.rows|)
            && (forall id :: id in t.orderItems ==> items[id] == t.orderItems[id])
  {
    CreatedSuccess(t, u, code, failAt, err);
  }

  /** The order item a joined cart row becomes: its product, its frozen unit price, its quantity. */
  function RowItem(t: Tables, o: int, id: int): OrderItem
    requires id in t.cartItems && t.cartItems[id].productId in t.products
  {
    var ci := t.cartItems[id];
    OrderItem(o, ci.productId, LineOfRow(t, id).unitPrice, ci.qty)
  }

  /**
    Inserting the lines of the kept rows makes one order item per row, under
    the ids after the order's, each pointing at the order and carrying that
    row's product, frozen unit price and quantity.
  */
  lemma LinesAreRows(t: Tables, items: map<int, OrderItem>, o: int, rows: seq<int>)
    requires Joined(t, rows)
    ensures var r := PutItems(items, o + 1, o, LinesOf(t, rows));
            forall i :: 0 <= i < |rows| ==> r[o + 1 + i] == RowItem(t, o, rows[i])
  {
    var ls := LinesOf(t, rows);
    var r := PutItems(items, o + 1, o, ls);
    forall i | 0 <= i < |rows|
      ensures r[o + 1 + i] == RowItem(t, o, rows[i])
    {
      assert (o + 1 + i) - (o + 1) == i;
      assert ls[i] == LineOfRow(t, rows[i]);
    }
  }

  /** A failed insert: the ids it drew stay used, nothing else changes. */
  lemma CreatedFailure(t: Tables, u: int, code: string, failAt: Option<nat>, err: string)
    requires WellFormed(t) && PlanFor(t, u).Some? && FailsWithin(failAt, PlanFor(t, u).value)
    ensures Created(t, u, code, failAt, err) == (Failure(CreateFailed + err), t.(nextId := t.nextId + failAt.value))
  {
  }

  /** With the transaction, a failed `createFromCart` leaves no order and no order item behind. */
  lemma CreatedFailureLeavesNoRows(t: Tables, u: int, code: string, failAt: Option<nat>, err: string)
    requires WellFormed(t)
    requires Created(t, u, code, failAt, err).0.Failure?
    ensures Created(t, u, code, failAt, err).1.orders == t.orders
    ensures Created(t, u, code, failAt, err).1.orderItems == t.orderItems
  {
  }

  /**
    As written, a failure at an item insert leaves the new `pending` order in
    place with fewer items than the cart had rows for it, while the caller is
    told the order could not be created.
  */
  lemma {:induction false} AsWrittenLeavesOrphanOrder(t: Tables, u: int, code: string, k: nat, err: string)
    requires WellFormed(t)
    requires PlanFor(t, u).Some? && 1 <= k <= |PlanFor(t, u).value.lines|
    ensures var (res, t2) := CreatedAsWritten(t, u, code, Some(k), err);
            var o := t.nextId;
            && res == Failure(CreateFailed + err)
            && o !in t.orders && o in t2.orders && t2.orders[o].status == "pending"
            && (forall id :: id in t2.orderItems && id !in t.orderItems ==> o < id < o + k)
            && t2.orders != Created(t, u, code, Some(k), err).1.orders
  {
    var p := PlanFor(t, u).value;
    var t2 := CreatedAsWritten(t, u, code, Some(k), err).1;
    assert t2 == Placed(t, u, code, p, k - 1);
    assert |p.lines[..k - 1]| == k - 1;
    assert t.nextId !in Created(t, u, code, Some(k), err).1.orders;
  }

  /** An item's frozen unit price is the final price the cart view showed for that row. */
  lemma UnitPriceIsCartPrice(t: Tables, id: int)
    requires id in t.cartItems && t.cartItems[id].productId in t.products
    ensures LineOfRow(t, id).unitPrice == CartService.Line(t, id).finalPrice
  {
    var p := t.products[t.cartItems[id].productId];
    CartAgreesWithModel(p.price, p.discount);
  }

  /** The computation in `createFromCart`: lines and subtotal, accumulated while mapping the kept rows. */
  method PriceOrder(t: Tables, rows: seq<int>) returns (lines: seq<OrderLine>, subtotal: real)
    requires Joined(t, rows)
    ensures lines == LinesOf(t, rows) && subtotal == Total(lines)
  {
    lines := [];
    subtotal := 0.0;
    var i := 0;
    while i < |rows|
      invariant 0 <= i <= |rows|
      invariant lines == LinesOf(t, rows[..i])
      invariant subtotal == Total(lines)
    {
      assert rows[..i + 1][..i] == rows[..i];
      var line := LineOfRow(t, rows[i]);
      subtotal := subtotal + Amount(line);
      assert (lines + [line])[..|lines|] == lines;
      lines := lines + [line];
      i := i + 1;
    }
    assert rows[..|rows|] == rows;
  }

  /** Inserting one more line extends the item rows by the row of that line. */
  lemma PutItemsStep(items: map<int, OrderItem>, next: int, o: int, ls: seq<OrderLine>, j: int)
    requires 0 <= j < |ls|
    ensures PutItems(items, next, o, ls[..j + 1]) == PutItems(items, next, o, ls[..j])[next + j := ItemRow(o, ls[j])]
  {
    var a := PutItems(items, next, o, ls[..j + 1]);
    var b := PutItems(items, next, o, ls[..j])[next + j := ItemRow(o, ls[j])];
    assert forall id :: id in a <==> id in b;
    forall id | id in a
      ensures a[id] == b[id]
    {
      if next <= id < next + j {
        assert ls[..j + 1][id - next] == ls[..j][id - next];
      }
    }
  }

  /**
    The item inserts in order from id `start`: insert number `stopAt` throws,
    so the ones before it are done and the rest are not.
  */
  method PutLines(base: map<int, OrderItem>, start: int, o: int, ls: seq<OrderLine>, stopAt: Option<nat>)
    returns (items: map<int, OrderItem>, done: nat)
    ensures done == (if stopAt.Some? && 1 <= stopAt.value <= |ls| then stopAt.value - 1 else |ls|)
    ensures items == PutItems(base, start, o, ls[..done])
  {
    var next := start;
    items, done := base, 0;
    assert ls[..0] == [];
    assert items == PutItems(base, start, o, []);
    while done < |ls|
      invariant 0 <= done <= |ls|
      invariant stopAt.Some? && 1 <= stopAt.value <= |ls| ==> done < stopAt.value
      invariant items == PutItems(base, start, o, ls[..done])
      invariant next == start + done
    {
      if stopAt == Some(done + 1) {
        break;
      }
      PutItemsStep(base, start, o, ls, done);
      items := items[next := ItemRow(o, ls[done])];
      next := next + 1;
      done := done + 1;
    }
  }

  /** The item inserts against the database. */
  method InsertItems(db: Db, o: int, ls: seq<OrderLine>, stopAt: Option<nat>) returns (done: nat)
    modifies db
    requires db.Valid()
    ensures db.Valid()
    ensures done == (if stopAt.Some? && 1 <= stopAt.value <= |ls| then stopAt.value - 1 else |ls|)
    ensures db.Snapshot() == old(db.Snapshot()).(orderItems := PutItems(old(db.orderItems), old(db.nextId), o, ls[..done]),
                                                 nextId := old(db.nextId) + done)
  {
    var items;
    items, done := PutLines(db.orderItems, db.nextId, o, ls, stopAt);
    assert KeysBelow(db.orderItems, db.nextId);
    PutItemsBelow(db.orderItems, db.nextId, o, ls[..done]);
    db.orderItems, db.nextId := items, db.nextId + done;
  }

  /** The order insert: the next id, a `pending` order of the plan. */
  method AddOrder(db: Db, u: int, code: string, p: Plan) returns (o: int)
    modifies db
    requires db.Valid()
    ensures db.Valid()
    ensures o == old(db.nextId)
    ensures db.Snapshot() == old(db.Snapshot()).(orders := old(db.orders)[o := NewOrder(code, u, p)], nextId := o + 1)
  {
    o := db.FreshId();
    db.orders := db.orders[o := NewOrder(code, u, p)];
  }

  /** All inserts done: the order and every item. */
  lemma PlacedAll(t: Tables, u: int, code: string, p: Plan)
    requires WellFormed(t)
    ensures Placed(t, u, code, p, |p.lines|)
            == t.(orders := t.orders[t.nextId := NewOrder(code, u, p)],
                  orderItems := PutItems(t.orderItems, t.nextId + 1, t.nextId, p.lines),
                  nextId := t.nextId + 1 + |p.lines|)
  {
    assert p.lines[..|p.lines|] == p.lines;
  }

  /** Every insert succeeds: the order, then one item per line. */
  method InsertAll(db: Db, u: int, code: string, p: Plan) returns (o: int)
    modifies db
    requires db.Valid()
    ensures db.Valid()
    ensures o == old(db.nextId) && db.Snapshot() == Placed(old(db.Snapshot()), u, code, p, |p.lines|)
  {
    ghost var t := db.Snapshot();
    o := AddOrder(db, u, code, p);
    var done := InsertItems(db, o, p.lines, None);
    assert p.lines[..done] == p.lines;
    assert db.orderItems == PutItems(t.orderItems, t.nextId + 1, t.nextId, p.lines);
    assert db.Snapshot() == t.(orders := db.orders, orderItems := db.orderItems, nextId := db.nextId);
    PlacedAll(t, u, code, p);
  }

  /** Insert number k (k >= 1) throws: the rows written before it are put back, the ids drawn stay used. */
  method InsertFailing(db: Db, u: int, code: string, p: Plan, k: nat)
    modifies db
    requires db.Valid() && 1 <= k <= |p.lines|
    ensures db.Valid()
    ensures db.Snapshot() == old(db.Snapshot()).(nextId := old(db.nextId) + k)
  {
    var savedOrders, savedItems := db.orders, db.orderItems;
    var o := AddOrder(db, u, code, p);
    var done := InsertItems(db, o, p.lines, Some(k));
    db.orders, db.orderItems := savedOrders, savedItems;
  }

  /** The inserts of `createFromCart`, rolled back on failure. */
  method InsertOrder(db: Db, u: int, code: string, p: Plan, failAt: Option<nat>, err: string) returns (r: Result<int>)
    modifies db
    requires db.Valid()
    ensures db.Valid()
    ensures FailsWithin(failAt, p) ==>
              r == Failure(CreateFailed + err) && db.Snapshot() == old(db.Snapshot()).(nextId := old(db.nextId) + failAt.value)
    ensures !FailsWithin(failAt, p) ==>
              r == Success(old(db.nextId)) && db.Snapshot() == Placed(old(db.Snapshot()), u, code, p, |p.lines|)
  {
    if failAt == Some(0) {
      return Failure(CreateFailed + err);
    }
    if FailsWithin(failAt, p) {
      InsertFailing(db, u, code, p, failAt.value);
      return Failure(CreateFailed + err);
    }
    var o := InsertAll(db, u, code, p);
    r := Success(o);
  }

  method CreateFromCart(db: Db, u: int, code: string, failAt: Option<nat>, err: string) returns (r: Result<int>)
    modifies db
    requires db.Valid()
    ensures db.Valid()
    ensures (r, db.Snapshot()) == Created(old(db.Snapshot()), u, code, failAt, err)
  {
    var t := db.Snapshot();
    var rows := CartRows(t, u);
    if |rows| == 0 {
      assert Created(t, u, code, failAt, err) == (Failure(EmptyCart), t);
      return Failure(EmptyCart);
    }
    var store := StoreOfRow(t, rows[0]);
    var kept := ForStore(t, rows, store);
    var lines, subtotal := PriceOrder(t, kept);
    var plan := Plan(store, kept, lines, subtotal);
    assert PlanFor(t, u) == Some(plan);
    r := InsertOrder(db, u, code, plan, failAt, err);
    if FailsWithin(failAt, plan) {
      CreatedFailure(t, u, code, failAt, err);
      assert db.Snapshot() == t.(nextId := t.nextId + failAt.value);
    } else {
      CreatedSuccess(t, u, code, failAt, err);
      assert db.Snapshot() == Placed(t, u, code, plan, |plan.lines|);
    }
  }

  // ----- detail -----

  /** An order with the ids of its items, `ORDER BY oi.id ASC`. */
  datatype Detail = Detail(id: int, order: Order, items: seq<int>)

  /** `WHERE oi.order_id = o` joined with products. */
  function ItemOfOrder(t: Tables, o: int): OrderItem -> bool {
    (oi: OrderItem) => oi.orderId == o && oi.productId in t.products
  }

  /** `detail(order_id)`: null for an id parseInt cannot read or a missing order. */
  function DetailOf(t: Tables, orderId: string): (r: Option<Detail>)
    ensures r.None? <==> ParseInt(orderId).None? || ParseInt(orderId).value !in t.orders
    ensures r.Some? ==> r.value.id == ParseInt(orderId).value && r.value.order == t.orders[r.value.id]
    ensures r.Some? ==> forall i, j :: 0 <= i < j < |r.value.items| ==> r.value.items[i] < r.value.items[j]
    ensures r.Some? ==> forall i :: 0 <= i < |r.value.items| ==>
              r.value.items[i] in t.orderItems && t.orderItems[r.value.items[i]].orderId == r.value.id
  {
    match ParseInt(orderId)
    case None => None
    case Some(n) =>
      if n !in t.orders then None
      else
        var items := Select(t.orderItems, ItemOfOrder(t, n), t.nextId);
        assert forall i :: 0 <= i < |items| ==> ItemOfOrder(t, n)(t.orderItems[items[i]]);
        Some(Detail(n, t.orders[n], items))
  }

  // ----- updateStatus -----

  /** ADMIN, or a SELLER who owns the order's store (`SELECT owner_id FROM stores WHERE id=$1`). */
  predicate MayUpdate(t: Tables, o: Order, user: Principal)
  {
    user.role == ADMIN
    || (user.role == SELLER && o.storeId in t.stores && IsUser(user, t.stores[o.storeId].ownerId))
  }

  /**
    `updateStatus(order_id, status, currentUser)`: null for a missing order;
    a user who may not update it, then a status outside the list, throw with
    nothing written; otherwise only that order's status changes, whatever it
    was before.
  */
  function StatusUpdated(t: Tables, orderId: string, status: string, user: Principal): (r: (Result<Option<Order>>, Tables))
    requires WellFormed(t)
    ensures WellFormed(r.1)
    ensures DetailOf(t, orderId).None? ==> r == (Success(None), t)
    ensures r.0 == Failure(NotAllowed) <==> DetailOf(t, orderId).Some? && !MayUpdate(t, DetailOf(t, orderId).value.order, user)
    ensures r.0 == Failure(BadStatus(status)) <==>
              DetailOf(t, orderId).Some? && MayUpdate(t, DetailOf(t, orderId).value.order, user) && status !in ValidStatuses
    ensures r.0.Failure? ==> r.1 == t
    ensures r.0.Success? && r.0.value.Some? ==>
              var n := ParseInt(orderId).value;
              && n in t.orders && r.0.value.value == t.orders[n].(status := status)
              && r.1 == t.(orders := t.orders[n := t.orders[n].(status := status)])
  {
    assert BadStatus(status) != NotAllowed by {
      assert BadStatus(status)[0] == 'T' && NotAllowed[0] == 'B';
    }
    match DetailOf(t, orderId)
    case None => (Success(None), t)
    case Some(d) =>
      if !MayUpdate(t, d.order, user) then (Failure(NotAllowed), t)
      else if status !in ValidStatuses then (Failure(BadStatus(status)), t)
      else
        var o := d.order.(status := status);
        (Success(Some(o)), t.(orders := t.orders[d.id := o]))
  }

  /** There is no guard on the current status: an admin can move any order to any listed status, back to `pending` included. */
  lemma AdminSetsAnyListedStatus(t: Tables, orderId: string, status: string, user: Principal)
    requires WellFormed(t) && user.role == ADMIN && status in ValidStatuses
    requires DetailOf(t, orderId).Some?
    ensures var n := ParseInt(orderId).value;
            && StatusUpdated(t, orderId, status, user).0 == Success(Some(t.orders[n].(status := status)))
            && StatusUpdated(t, orderId, status, user).1.orders[n].status == status
  {
  }

  /** Only an ADMIN or a SELLER gets past the ownership check: anyone else is refused with nothing written. */
  lemma OthersMayNotUpdate(t: Tables, orderId: string, status: string, user: Principal)
    requires WellFormed(t) && DetailOf(t, orderId).Some?
    requires user.role != ADMIN && user.role != SELLER
    ensures StatusUpdated(t, orderId, status, user) == (Failure(NotAllowed), t)
  {
  }

  /** A SELLER is refused exactly when the order's store is not one they own. */
  lemma SellerNeedsOwnStore(t: Tables, orderId: string, status: string, user: Principal)
    requires WellFormed(t) && DetailOf(t, orderId).Some? && user.role == SELLER
    ensures var o := DetailOf(t, orderId).value.order;
            StatusUpdated(t, orderId, status, user).0 == Failure(NotAllowed) <==>
              !(o.storeId in t.stores && IsUser(user, t.stores[o.storeId].ownerId))
  {
    assert SELLER != ADMIN by { assert SELLER[0] == 'S' && ADMIN[0] == 'A'; }
  }

  method UpdateStatus(db: Db, orderId: string, status: string, user: Principal) returns (r: Result<Option<Order>>)
    modifies db
    requires db.Valid()
    ensures db.Valid()
    ensures (r, db.Snapshot()) == StatusUpdated(old(db.Snapshot()), orderId, status, user)
  {
    var found := DetailOf(db.Snapshot(), orderId);
    if found.None? {
      return Success(None);
    }
    var d := found.value;
    var authorized := false;
    if user.role == ADMIN {
      authorized := true;
    } else if user.role == SELLER {
      if d.order.storeId in db.stores && IsUser(user, db.stores[d.order.storeId].ownerId) {
        authorized := true;
      }
    }
    if !authorized {
      return Failure(NotAllowed);
    }
    if status !in ValidStatuses {
      return Failure(BadStatus(status));
    }
    var updated := d.order.(status := status);
    db.orders := db.orders[d.id := updated];
    r := Success(Some(updated));
  }
}
