/**
  `CartService` (cart.service.js): one cart per user, made on first use;
  adding a product that is already in the cart raises its quantity; an item
  can be set to a quantity, removed, or all items of the cart cleared; and the
  cart view prices every line with the cart's own discount rule and sums a
  subtotal.

  Each operation is a method on the database, specified by a function from the
  tables before to the tables after; the properties are lemmas about those
  functions.
*/
module CartService {
  import opened Wrappers
  import opened Database
  import opened Pricing
  import BaseModel
  import Text

  /** `WHERE user_id = u` on carts. */
  function OfUser(u: int): Cart -> bool {
    (c: Cart) => c.userId == u
  }

  /** `CartModel.findByUserId(u)`: the id of the user's cart, if any. */
  function CartOf(t: Tables, u: int): Option<int> {
    First(t.carts, OfUser(u), t.nextId)
  }

  /** `WHERE cart_id = c AND product_id = p` on cart_items. */
  function ItemFor(cartId: int, productId: int): CartItem -> bool {
    (ci: CartItem) => ci.cartId == cartId && ci.productId == productId
  }

  /** `CartItemModel.findByCartAndProduct(c, p)`: the id of that row, if any. */
  function ItemOf(t: Tables, cartId: int, productId: int): Option<int> {
    First(t.cartItems, ItemFor(cartId, productId), t.nextId)
  }

  /** The quantity of product p in cart c; 0 when there is no row. */
  function QtyOf(t: Tables, cartId: int, productId: int): int {
    QtyIn(t.cartItems, t.nextId, cartId, productId)
  }

  /** No two rows of cart_items share a cart and a product. */
  predicate UniqueItems(items: map<int, CartItem>) {
    forall i, j ::
      i in items && j in items && items[i].cartId == items[j].cartId && items[i].productId == items[j].productId
      ==> i == j
  }

  // ----- ensure -----

  /**
    `ensure(u)`: the tables afterwards and the user's cart id. An existing cart
    is returned and nothing is written; otherwise exactly one cart is inserted.
  */
  function Ensured(t: Tables, u: int): (r: (Tables, int))
    requires WellFormed(t)
    ensures WellFormed(r.0)
    ensures r.1 in r.0.carts && r.0.carts[r.1].userId == u
    ensures CartOf(r.0, u) == Some(r.1)
    ensures CartOf(t, u).Some? ==> r == (t, CartOf(t, u).value)
    ensures CartOf(t, u).None? ==> r.1 == t.nextId && r.0 == t.(carts := t.carts[r.1 := Cart(u)], nextId := r.1 + 1)
  {
    match CartOf(t, u)
    case Some(id) => (t, id)
    case None =>
      FirstAfterInsert(t.carts, OfUser(u), t.nextId, Cart(u));
      (t.(carts := t.carts[t.nextId := Cart(u)], nextId := t.nextId + 1), t.nextId)
  }

  /** A second `ensure` changes nothing and returns the same cart. */
  lemma EnsureIdempotent(t: Tables, u: int)
    requires WellFormed(t)
    ensures Ensured(Ensured(t, u).0, u) == Ensured(t, u)
  {
  }

  method Ensure(db: Db, u: int) returns (cartId: int)
    modifies db
    requires db.Valid()
    ensures db.Valid()
    ensures (db.Snapshot(), cartId) == Ensured(old(db.Snapshot()), u)
  {
    match CartOf(db.Snapshot(), u) {
      case Some(id) =>
        cartId := id;
      case None =>
        cartId := db.FreshId();
        db.carts := db.carts[cartId := Cart(u)];
    }
  }

  // ----- addItem -----

  /** cart_items after an `addItem` into cart c, the id of the row written, and the id counter after it. */
  datatype ItemsAfterAdd = ItemsAfterAdd(items: map<int, CartItem>, id: int, next: int)

  /** The quantity of product p in cart c as `findByCartAndProduct` sees it; 0 when there is no row. */
  function QtyIn(items: map<int, CartItem>, next: int, cartId: int, productId: int): int {
    match First(items, ItemFor(cartId, productId), next)
    case Some(i) => items[i].qty
    case None => 0
  }

  /**
    What the write `addItem` makes to cart_items promises: the row then found
    for (c, p) is the one written, it holds the earlier quantity plus qty, no
    other row changes, and a new row is made exactly when there was none.
  */
  predicate AddedRow(items: map<int, CartItem>, next: int, c: int, p: int, qty: int, r: ItemsAfterAdd) {
    && KeysBelow(r.items, r.next) && r.next >= next
    && First(r.items, ItemFor(c, p), r.next) == Some(r.id)
    && r.id in r.items && r.items[r.id] == CartItem(c, p, QtyIn(items, next, c, p) + qty)
    && (forall j :: j in items && j != r.id ==> j in r.items && r.items[j] == items[j])
    && (First(items, ItemFor(c, p), next).Some? ==>
          r.id == First(items, ItemFor(c, p), next).value && r.items.Keys == items.Keys && r.next == next)
    && (First(items, ItemFor(c, p), next).None? ==>
          r.id == next && r.next == next + 1 && r.items.Keys == items.Keys + {next})
  }

  /**
    The write `addItem` makes to cart_items: the row found for (c, p) gets
    `old qty + qty`, or a row with qty is inserted under the next id.
  */
  function AddToItems(items: map<int, CartItem>, next: int, c: int, p: int, qty: int): (r: ItemsAfterAdd)
    requires KeysBelow(items, next) && next >= 1
    ensures AddedRow(items, next, c, p, qty, r)
  {
    match First(items, ItemFor(c, p), next)
    case Some(i) =>
      MergeIsAdded(items, next, c, p, qty, i);
      ItemsAfterAdd(items[i := items[i].(qty := items[i].qty + qty)], i, next)
    case None =>
      InsertIsAdded(items, next, c, p, qty);
      ItemsAfterAdd(items[next := CartItem(c, p, qty)], next, next + 1)
  }

  lemma MergeIsAdded(items: map<int, CartItem>, next: int, c: int, p: int, qty: int, i: int)
    requires KeysBelow(items, next) && next >= 1 && First(items, ItemFor(c, p), next) == Some(i)
    ensures AddedRow(items, next, c, p, qty, ItemsAfterAdd(items[i := items[i].(qty := items[i].qty + qty)], i, next))
  {
    FirstAfterUpdate(items, ItemFor(c, p), next, i, items[i].(qty := items[i].qty + qty));
  }

  lemma InsertIsAdded(items: map<int, CartItem>, next: int, c: int, p: int, qty: int)
    requires KeysBelow(items, next) && next >= 1 && First(items, ItemFor(c, p), next).None?
    ensures AddedRow(items, next, c, p, qty, ItemsAfterAdd(items[next := CartItem(c, p, qty)], next, next + 1))
  {
    FirstAfterInsert(items, ItemFor(c, p), next, CartItem(c, p, qty));
  }

  /** The write of `addItem` never makes a second row for a (cart, product) pair. */
  lemma AddToItemsKeepsUnique(items: map<int, CartItem>, next: int, c: int, p: int, qty: int)
    requires KeysBelow(items, next) && next >= 1 && UniqueItems(items)
    ensures UniqueItems(AddToItems(items, next, c, p, qty).items)
  {
    var r := AddToItems(items, next, c, p, qty);
    var f := ItemFor(c, p);
    match First(items, f, next)
    case Some(i) =>
      assert forall j :: j in r.items ==> (j in items && f(r.items[j]) == f(items[j])
        && r.items[j].cartId == items[j].cartId && r.items[j].productId == items[j].productId);
    case None =>
  }

  /**
    `addItem(u, {product_id, qty})`: `ensure`, then the write above on the
    user's cart; the tables afterwards and the id of the row written.
  */
  function Added(t: Tables, u: int, productId: int, qty: int): (r: (Tables, int))
    requires WellFormed(t)
    ensures WellFormed(r.0)
  {
    var (t1, c) := Ensured(t, u);
    var a := AddToItems(t1.cartItems, t1.nextId, c, productId, qty);
    (t1.(cartItems := a.items, nextId := a.next), a.id)
  }

  /**
    After `addItem` the cart is the one `ensure` gives, the row found for
    (cart, product) is the one written and holds the earlier quantity plus
    qty, and no other table changes.
  */
  lemma AddItemMerges(t: Tables, u: int, productId: int, qty: int)
    requires WellFormed(t)
    ensures var (t1, c) := Ensured(t, u);
            var (t2, id) := Added(t, u, productId, qty);
            && CartOf(t2, u) == Some(c)
            && ItemOf(t2, c, productId) == Some(id)
            && QtyOf(t2, c, productId) == QtyOf(t1, c, productId) + qty
            && t2.(cartItems := t1.cartItems, nextId := t1.nextId) == t1
  {
    var (t1, c) := Ensured(t, u);
    var (t2, id) := Added(t, u, productId, qty);
    var a := AddToItems(t1.cartItems, t1.nextId, c, productId, qty);
    assert t2.carts == t1.carts && t2.nextId >= t1.nextId;
    FirstGrowHi(t1.carts, OfUser(u), t1.nextId, t2.nextId);
  }

  /** Two adds of one product are one add of the sum. */
  lemma AddTwiceAddsSum(t: Tables, u: int, productId: int, a: int, b: int)
    requires WellFormed(t)
    ensures var c := Ensured(t, u).1;
            var t2 := Added(Added(t, u, productId, a).0, u, productId, b).0;
            QtyOf(t2, c, productId) == QtyOf(Ensured(t, u).0, c, productId) + a + b
  {
    var (t1, c) := Ensured(t, u);
    var ta := Added(t, u, productId, a).0;
    AddItemMerges(t, u, productId, a);
    assert Ensured(ta, u) == (ta, c);
    AddItemMerges(ta, u, productId, b);
  }

  /** `addItem` never makes a second row for a (cart, product) pair. */
  lemma AddItemKeepsUnique(t: Tables, u: int, productId: int, qty: int)
    requires WellFormed(t) && UniqueItems(t.cartItems)
    ensures UniqueItems(Added(t, u, productId, qty).0.cartItems)
  {
    var (t1, c) := Ensured(t, u);
    AddToItemsKeepsUnique(t1.cartItems, t1.nextId, c, productId, qty);
  }

  /** The write of `addItem` on cart c. */
  method AddToCart(db: Db, c: int, productId: int, qty: int) returns (itemId: int)
    modifies db
    requires db.Valid()
    ensures db.Valid()
    ensures var a := AddToItems(old(db.cartItems), old(db.nextId), c, productId, qty);
            itemId == a.id && db.Snapshot() == old(db.Snapshot()).(cartItems := a.items, nextId := a.next)
  {
    match First(db.cartItems, ItemFor(c, productId), db.nextId) {
      case Some(i) =>
        itemId := i;
        db.cartItems := db.cartItems[i := db.cartItems[i].(qty := db.cartItems[i].qty + qty)];
      case None =>
        itemId := db.FreshId();
        db.cartItems := db.cartItems[itemId := CartItem(c, productId, qty)];
    }
  }

  method AddItem(db: Db, u: int, productId: int, qty: int) returns (itemId: int)
    modifies db
    requires db.Valid()
    ensures db.Valid()
    ensures (db.Snapshot(), itemId) == Added(old(db.Snapshot()), u, productId, qty)
  {
    var c := Ensure(db, u);
    itemId := AddToCart(db, c, productId, qty);
  }

  // ----- updateItem, removeItem -----

  /** The message `deleteById` and `updateById` throw for an id parseInt cannot read. */
  const BadId := BaseModel.BadIdMessage("cart_items")

  /** What `updateItem` answers: the delete's `true`, or the updated row (null when there was none). */
  datatype ItemChange = Deleted | Changed(row: Option<CartItem>)

  /**
    `updateItem(id, qty)`: a quantity of 0 or less is `deleteById`; otherwise
    `updateById(id, {qty})` sets the quantity to qty. A non-numeric id throws
    before anything is written.
  */
  function ItemUpdated(t: Tables, id: string, qty: int): (r: (Result<ItemChange>, Tables))
    requires WellFormed(t)
    ensures WellFormed(r.1) && r.1.(cartItems := t.cartItems) == t
    ensures r.0.Failure? <==> Text.ParseInt(id).None?
    ensures r.0.Failure? ==> r.1 == t && r.0.error == BadId
    ensures UniqueItems(t.cartItems) ==> UniqueItems(r.1.cartItems)
    ensures qty <= 0 && r.0.Success? ==> var n := Text.ParseInt(id).value;
              r.0.value == Deleted && r.1.cartItems == t.cartItems - {n}
    ensures qty > 0 && r.0.Success? ==> var n := Text.ParseInt(id).value;
              && (n in t.cartItems ==> r.1.cartItems == t.cartItems[n := t.cartItems[n].(qty := qty)]
                                       && r.0.value == Changed(Some(r.1.cartItems[n])))
              && (n !in t.cartItems ==> r.1 == t && r.0.value == Changed(None))
  {
    match Text.ParseInt(id)
    case None => (Failure(BadId), t)
    case Some(n) =>
      if qty <= 0 then (Success(Deleted), t.(cartItems := t.cartItems - {n}))
      else if n in t.cartItems then
        var row := t.cartItems[n].(qty := qty);
        (Success(Changed(Some(row))), t.(cartItems := t.cartItems[n := row]))
      else (Success(Changed(None)), t)
  }

  method UpdateItem(db: Db, id: string, qty: int) returns (r: Result<ItemChange>)
    modifies db
    requires db.Valid()
    ensures db.Valid()
    ensures (r, db.Snapshot()) == ItemUpdated(old(db.Snapshot()), id, qty)
  {
    ghost var res := ItemUpdated(db.Snapshot(), id, qty);
    match Text.ParseInt(id) {
      case None =>
        r := Failure(BadId);
      case Some(n) =>
        if qty <= 0 {
          db.cartItems := db.cartItems - {n};
          r := Success(Deleted);
        } else if n in db.cartItems {
          var row := db.cartItems[n].(qty := qty);
          db.cartItems := db.cartItems[n := row];
          r := Success(Changed(Some(row)));
        } else {
          r := Success(Changed(None));
        }
        assert db.Snapshot() == res.1;
    }
  }

  /** `removeItem(id)`: `deleteById` on cart_items; only the row with that id goes. */
  function ItemRemoved(t: Tables, id: string): (r: (Result<bool>, Tables))
    requires WellFormed(t)
    ensures WellFormed(r.1) && r.1.(cartItems := t.cartItems) == t
    ensures r.0.Failure? <==> Text.ParseInt(id).None?
    ensures r.0.Failure? ==> r.1 == t && r.0.error == BadId
    ensures r.0.Success? ==> r.0.value && r.1.cartItems == t.cartItems - {Text.ParseInt(id).value}
    ensures UniqueItems(t.cartItems) ==> UniqueItems(r.1.cartItems)
  {
    match Text.ParseInt(id)
    case None => (Failure(BadId), t)
    case Some(n) => (Success(true), t.(cartItems := t.cartItems - {n}))
  }

  method RemoveItem(db: Db, id: string) returns (r: Result<bool>)
    modifies db
    requires db.Valid()
    ensures db.Valid()
    ensures (r, db.Snapshot()) == ItemRemoved(old(db.Snapshot()), id)
  {
    ghost var res := ItemRemoved(db.Snapshot(), id);
    match Text.ParseInt(id) {
      case None =>
        r := Failure(BadId);
      case Some(n) =>
        db.cartItems := db.cartItems - {n};
        r := Success(true);
        assert db.Snapshot() == res.1;
    }
  }

  // ----- clear -----

  /** `WHERE cart_id = c` on cart_items. */
  function InCart(cartId: int): CartItem -> bool {
    (ci: CartItem) => ci.cartId == cartId
  }

  /**
    `clear(u)`: with no cart nothing changes; otherwise every item of the
    user's cart is deleted, the items of other carts and the cart row itself
    are kept.
  */
  function Cleared(t: Tables, u: int): (r: Tables)
    requires WellFormed(t)
    ensures WellFormed(r) && r.(cartItems := t.cartItems) == t
    ensures CartOf(t, u).None? ==> r == t
    ensures CartOf(t, u).Some? ==> forall id :: id in r.cartItems <==> id in t.cartItems && t.cartItems[id].cartId != CartOf(t, u).value
    ensures forall id :: id in r.cartItems ==> r.cartItems[id] == t.cartItems[id]
    ensures UniqueItems(t.cartItems) ==> UniqueItems(r.cartItems)
  {
    match CartOf(t, u)
    case None => t
    case Some(c) => t.(cartItems := DeleteWhere(t.cartItems, InCart(c)))
  }

  /** After `clear` the user's cart holds nothing: every later lookup of a product in it finds no row. */
  lemma ClearEmptiesCart(t: Tables, u: int, productId: int)
    requires WellFormed(t) && CartOf(t, u).Some?
    ensures ItemOf(Cleared(t, u), CartOf(t, u).value, productId).None?
    ensures QtyOf(Cleared(t, u), CartOf(t, u).value, productId) == 0
  {
    var c := CartOf(t, u).value;
    var r := Cleared(t, u);
    assert CartOf(r, u) == CartOf(t, u);
  }

  method Clear(db: Db, u: int) returns (ok: bool)
    modifies db
    requires db.Valid()
    ensures db.Valid()
    ensures ok && db.Snapshot() == Cleared(old(db.Snapshot()), u)
  {
    match CartOf(db.Snapshot(), u) {
      case None =>
      case Some(c) =>
        db.cartItems := DeleteWhere(db.cartItems, InCart(c));
    }
    ok := true;
  }

  // ----- getMyCart -----

  /** One line of the cart view: the cart item joined with its product. */
  datatype CartLine = CartLine(
    id: int, productId: int, qty: int, title: string, price: real, discount: real,
    finalPrice: real, imageUrl: Option<string>)

  datatype CartView = CartView(cartId: int, items: seq<CartLine>, subtotal: real)

  /** The line for cart item `id`: `discount_percentage || 0` and the cart's final-price rule. */
  function Line(t: Tables, id: int): (l: CartLine)
    requires id in t.cartItems && t.cartItems[id].productId in t.products
    ensures l.id == id && l.qty == t.cartItems[id].qty && l.productId == t.cartItems[id].productId
    ensures l.finalPrice == ModelFinalPrice(l.price, t.products[l.productId].discount)
  {
    var ci := t.cartItems[id];
    var p := t.products[ci.productId];
    CartAgreesWithModel(p.price, p.discount);
    CartLine(id, ci.productId, ci.qty, p.title, p.price, p.discount.GetOr(0.0),
             CartFinalPrice(p.price, p.discount), p.imageUrl)
  }

  /** The rows of the join `cart_items ci JOIN products p ON p.id = ci.product_id` among the given item ids. */
  function Lines(t: Tables, ids: seq<int>): (ls: seq<CartLine>)
    requires forall i :: 0 <= i < |ids| ==> ids[i] in t.cartItems
    ensures |ls| <= |ids|
  {
    if ids == [] then []
    else
      var last := ids[|ids| - 1];
      var rest := Lines(t, ids[..|ids| - 1]);
      if t.cartItems[last].productId in t.products then rest + [Line(t, last)] else rest
  }

  /** l is the line of one of the items in ids, and that item's product exists. */
  predicate LineOf(t: Tables, ids: seq<int>, l: CartLine) {
    l.id in ids && l.id in t.cartItems && t.cartItems[l.id].productId in t.products && l == Line(t, l.id)
  }

  predicate HasLine(ls: seq<CartLine>, id: int) {
    exists k :: 0 <= k < |ls| && ls[k].id == id
  }

  /**
    The lines are exactly the joined rows: each line is the line of one of the
    given items whose product exists, and every such item has its line.
  */
  lemma {:induction false} LinesAreJoin(t: Tables, ids: seq<int>)
    requires forall i :: 0 <= i < |ids| ==> ids[i] in t.cartItems
    ensures forall k :: 0 <= k < |Lines(t, ids)| ==> LineOf(t, ids, Lines(t, ids)[k])
    ensures forall i :: 0 <= i < |ids| && t.cartItems[ids[i]].productId in t.products ==> HasLine(Lines(t, ids), ids[i])
  {
    if ids != [] {
      var init := ids[..|ids| - 1];
      var last := ids[|ids| - 1];
      LinesAreJoin(t, init);
      var rest := Lines(t, init);
      var ls := Lines(t, ids);
      assert forall k :: 0 <= k < |rest| ==> ls[k] == rest[k];
      assert forall k :: 0 <= k < |init| ==> init[k] == ids[k];
      forall k | 0 <= k < |ls|
        ensures LineOf(t, ids, ls[k])
      {
        if k < |rest| {
          assert ls[k] == rest[k] && LineOf(t, init, rest[k]);
        } else {
          assert ls[k] == Line(t, last) && ids[|ids| - 1] == last;
        }
      }
      forall i | 0 <= i < |ids| && t.cartItems[ids[i]].productId in t.products
        ensures HasLine(ls, ids[i])
      {
        if i < |ids| - 1 {
          assert ids[i] == init[i] && HasLine(rest, init[i]);
          var k :| 0 <= k < |rest| && rest[k].id == init[i];
          assert ls[k].id == ids[i];
        } else {
          assert ls[|ls| - 1] == Line(t, last);
          assert ls[|ls| - 1].id == ids[i];
        }
      }
    }
  }

  /** `final_price × qty` of one line. */
  function LineTotal(l: CartLine): real {
    l.finalPrice * (l.qty as real)
  }

  /**
    `Σ final_price × qty`: lines with non-negative final prices and
    quantities sum to a subtotal that is not negative.
  */
  function Subtotal(ls: seq<CartLine>): (r: real)
    ensures (forall k :: 0 <= k < |ls| ==> ls[k].finalPrice >= 0.0 && ls[k].qty >= 0) ==> r >= 0.0
  {
    if ls == [] then 0.0
    else
      var init, last := ls[..|ls| - 1], ls[|ls| - 1];
      assert forall k :: 0 <= k < |init| ==> init[k] == ls[k];
      assert last.finalPrice >= 0.0 && last.qty >= 0 ==> LineTotal(last) >= 0.0;
      Subtotal(init) + LineTotal(last)
  }

  /** The ids of the items in cart c, in ascending order. */
  function ItemsOfCart(t: Tables, cartId: int): (ids: seq<int>)
    ensures forall i :: 0 <= i < |ids| ==> ids[i] in t.cartItems
  {
    Select(t.cartItems, InCart(cartId), t.nextId)
  }

  /** A product with a price that is not negative and a discount of at most 100 gives a line price in [0, price]. */
  lemma LinePriceInRange(t: Tables, id: int)
    requires id in t.cartItems && t.cartItems[id].productId in t.products
    requires var p := t.products[t.cartItems[id].productId];
             p.price >= 0.0 && (p.discount.Some? ==> p.discount.value <= 100.0)
    ensures 0.0 <= Line(t, id).finalPrice <= Line(t, id).price
  {
    var p := t.products[t.cartItems[id].productId];
    if p.discount.Some? && p.discount.value > 0.0 {
      ModelFinalPriceInRange(p.price, p.discount.value);
    }
  }

  /**
    The mapping in `getMyCart`: each joined row becomes a line, and the line's
    `final_price × qty` is added to the subtotal as it goes.
  */
  method PriceLines(t: Tables, c: int) returns (items: seq<CartLine>, subtotal: real)
    ensures items == Lines(t, ItemsOfCart(t, c))
    ensures subtotal == Subtotal(items)
  {
    var ids := ItemsOfCart(t, c);
    items := [];
    subtotal := 0.0;
    var i := 0;
    while i < |ids|
      invariant 0 <= i <= |ids|
      invariant items == Lines(t, ids[..i])
      invariant subtotal == Subtotal(items)
    {
      items, subtotal := PriceRow(t, ids, i, items, subtotal);
      i := i + 1;
    }
    assert ids[..|ids|] == ids;
  }

  /** One row of the mapping: a joined row adds its line and its `final_price × qty`. */
  method PriceRow(t: Tables, ids: seq<int>, i: int, items: seq<CartLine>, subtotal: real)
    returns (items': seq<CartLine>, subtotal': real)
    requires forall k :: 0 <= k < |ids| ==> ids[k] in t.cartItems
    requires 0 <= i < |ids| && items == Lines(t, ids[..i]) && subtotal == Subtotal(items)
    ensures items' == Lines(t, ids[..i + 1]) && subtotal' == Subtotal(items')
  {
    LinesStep(t, ids, i);
    items', subtotal' := items, subtotal;
    if t.cartItems[ids[i]].productId in t.products {
      var line := Line(t, ids[i]);
      SubtotalStep(items, line);
      items', subtotal' := items + [line], subtotal + LineTotal(line);
    }
  }

  lemma LinesStep(t: Tables, ids: seq<int>, i: int)
    requires forall k :: 0 <= k < |ids| ==> ids[k] in t.cartItems
    requires 0 <= i < |ids|
    ensures t.cartItems[ids[i]].productId in t.products ==> Lines(t, ids[..i + 1]) == Lines(t, ids[..i]) + [Line(t, ids[i])]
    ensures t.cartItems[ids[i]].productId !in t.products ==> Lines(t, ids[..i + 1]) == Lines(t, ids[..i])
  {
    assert ids[..i + 1][..i] == ids[..i];
  }

  lemma SubtotalStep(ls: seq<CartLine>, l: CartLine)
    ensures Subtotal(ls + [l]) == Subtotal(ls) + LineTotal(l)
  {
    assert (ls + [l])[..|ls|] == ls;
  }

  /** `getMyCart(u)`: ensures the cart, then prices its lines. */
  method GetMyCart(db: Db, u: int) returns (view: CartView)
    modifies db
    requires db.Valid()
    ensures db.Valid()
    ensures (db.Snapshot(), view.cartId) == Ensured(old(db.Snapshot()), u)
    ensures view.items == Lines(db.Snapshot(), ItemsOfCart(db.Snapshot(), view.cartId))
    ensures view.subtotal == Subtotal(view.items)
  {
    var c := Ensure(db, u);
    var items, subtotal := PriceLines(db.Snapshot(), c);
    view := CartView(c, items, subtotal);
  }
}
