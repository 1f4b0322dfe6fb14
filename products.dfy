/**
  `ProductService` (product.service.js): products as the frontend sees them
  (ids as text, the final price added), the lists, and creating, updating
  and deleting a product, each allowed to an admin or to the owner of the
  product's store. Deleting a product first deletes, one by one, every cart
  item that refers to it.

  `listByStore` and `listByCategory` pass a `where` argument that
  `BaseModel.findMany` does not read, so both list every product:
  `ListByStoreAsWritten` and `ListByCategoryAsWritten` are that behaviour, and
  `ListByStore` and `ListByCategory` the filtered lists they are named for.
*/
module ProductService {
  import opened Wrappers
  import opened Text
  import opened Database
  import opened Pricing
  import opened ProductModel

  const StoreNotFound := "Không tìm thấy cửa hàng"
  const NoCreateRight := "Bạn không có quyền thêm sản phẩm vào cửa hàng này"
  const BadDiscount := "Phần trăm giảm giá phải từ 0 đến 100"
  const ProductNotFound := "Không tìm thấy sản phẩm"
  const NoEditRight := "Bạn không có quyền chỉnh sửa sản phẩm này"
  const NoDeleteRight := "Bạn không có quyền xóa sản phẩm này"
  /** PostgreSQL's refusal of a bound text that is not an integer (error 22P02): the error handler answers 500. */
  const IntegerRefused := "invalid input syntax for type integer"

  /** `findMany`'s default limit. */
  const ListLimit := 100

  // ----- formatting -----

  /** A product for the frontend: `id` and `store_id` as text, `category_id` as text or null, and `final_price`. */
  datatype ProductView = ProductView(id: string, storeId: string, categoryId: Option<string>, row: Product, finalPrice: real)

  /**
    `formatProductForFrontend(product)`: the ids turned into text that reads
    back as the same numbers, a category id only when it is truthy, and the
    server's final price.
  */
  function Format(id: int, p: Product): (v: ProductView)
    ensures v.categoryId.Some? <==> p.categoryId.Some? && p.categoryId.value != 0
    ensures v.row == p && v.finalPrice == ModelFinalPrice(p.price, p.discount)
  {
    var categoryId := if p.categoryId.Some? && p.categoryId.value != 0 then Some(IntToString(p.categoryId.value)) else None;
    ProductView(IntToString(id), IntToString(p.storeId), categoryId, p, ModelFinalPrice(p.price, p.discount))
  }

  /** The ids of a formatted product read back, with `parseInt`, as the numbers they came from. */
  lemma FormatReadsBack(id: int, p: Product)
    ensures ParseInt(Format(id, p).id) == Some(id) && ParseInt(Format(id, p).storeId) == Some(p.storeId)
    ensures Format(id, p).categoryId.Some? ==> ParseInt(Format(id, p).categoryId.value) == p.categoryId
  {
    ParseIntOfIntToString(id);
    ParseIntOfIntToString(p.storeId);
    if p.categoryId.Some? {
      ParseIntOfIntToString(p.categoryId.value);
    }
  }

  /** `formatProductsForFrontend(products)`: the formatter over every row, in order. */
  function FormatAll(t: Tables, ids: seq<int>): (r: seq<ProductView>)
    requires forall i :: 0 <= i < |ids| ==> ids[i] in t.products
    ensures |r| == |ids|
    ensures forall i :: 0 <= i < |ids| ==> r[i] == Format(ids[i], t.products[ids[i]])
  {
    seq(|ids|, i requires 0 <= i < |ids| => Format(ids[i], t.products[ids[i]]))
  }

  /** `findById(id)`: null for an id parseInt cannot read or a missing row. */
  function FoundProduct(t: Tables, id: string): (r: Option<int>)
    ensures r.Some? <==> ParseInt(id).Some? && ParseInt(id).value in t.products
    ensures r.Some? ==> r == ParseInt(id)
  {
    match ParseInt(id)
    case None => None
    case Some(n) => if n in t.products then Some(n) else None
  }

  /** `detail(id)`: the formatted row, null passing through. */
  function Detail(t: Tables, id: string): (r: Option<ProductView>)
    ensures r.None? <==> FoundProduct(t, id).None?
    ensures r.Some? ==> ParseInt(r.value.id) == ParseInt(id) && r.value.row == t.products[ParseInt(id).value]
  {
    match FoundProduct(t, id)
    case None => None
    case Some(n) =>
      FormatReadsBack(n, t.products[n]);
      Some(Format(n, t.products[n]))
  }

  // ----- lists -----

  /** `list()`: `findMany({})` formatted. */
  function List(t: Tables): (r: seq<ProductView>)
    ensures |r| <= ListLimit
    ensures forall v :: v in r ==> v.row in t.products.Values
  {
    FormatAll(t, FindMany(t, ListLimit))
  }

  /** `listByStore(storeId)` as written: the `where` argument is dropped, so every product is listed. */
  function ListByStoreAsWritten(t: Tables, storeId: int): (r: seq<ProductView>)
    ensures |r| <= ListLimit
    ensures forall v :: v in r ==> v.row in t.products.Values
  {
    FormatAll(t, FindMany(t, ListLimit))
  }

  /** `listByCategory(categoryId)` as written: every product, as for the store list. */
  function ListByCategoryAsWritten(t: Tables, categoryId: int): (r: seq<ProductView>)
    ensures |r| <= ListLimit
    ensures forall v :: v in r ==> v.row in t.products.Values
  {
    FormatAll(t, FindMany(t, ListLimit))
  }

  /**
    The store list lists products of other stores: in a catalogue of at
    most 100 products, a product of another store is in the list.
  */
  lemma ListByStoreAsWrittenListsOtherStores(t: Tables, storeId: int, id: int)
    requires WellFormed(t) && |Select(t.products, AnyProduct(), t.nextId)| <= ListLimit
    requires id in t.products && t.products[id].storeId != storeId
    ensures Format(id, t.products[id]) in ListByStoreAsWritten(t, storeId)
    ensures exists v :: v in ListByStoreAsWritten(t, storeId) && v.row.storeId != storeId
  {
    var all := Select(t.products, AnyProduct(), t.nextId);
    assert AnyProduct()(t.products[id]);
    assert id in all;
    var i :| 0 <= i < |all| && all[i] == id;
    assert ListByStoreAsWritten(t, storeId)[i] == Format(id, t.products[id]);
  }

  /** `WHERE store_id = s` on products. */
  function InStore(s: int): Product -> bool {
    (p: Product) => p.storeId == s
  }

  /** `WHERE category_id = c` on products. */
  function InCategory(c: int): Product -> bool {
    (p: Product) => p.categoryId == Some(c)
  }

  /** The first `limit` rows, in ascending id order, that satisfy p. */
  function FindWhere(t: Tables, p: Product -> bool, limit: nat): (ids: seq<int>)
    ensures |ids| <= limit
    ensures forall i :: 0 <= i < |ids| ==> ids[i] in t.products && p(t.products[ids[i]])
    ensures forall i, j :: 0 <= i < j < |ids| ==> ids[i] < ids[j]
    ensures |ids| < limit ==> forall id :: id in t.products && 1 <= id < t.nextId && p(t.products[id]) ==> id in ids
  {
    var all := Select(t.products, p, t.nextId);
    if |all| <= limit then all else all[..limit]
  }

  /** `listByStore(storeId)` as it is meant: the products of that store. */
  function ListByStore(t: Tables, storeId: int): (r: seq<ProductView>)
    ensures |r| <= ListLimit
    ensures forall v :: v in r ==> v.row in t.products.Values
  {
    FormatAll(t, FindWhere(t, InStore(storeId), ListLimit))
  }

  /** `listByCategory(categoryId)` as it is meant: the products of that category. */
  function ListByCategory(t: Tables, categoryId: int): (r: seq<ProductView>)
    ensures |r| <= ListLimit
    ensures forall v :: v in r ==> v.row in t.products.Values
  {
    FormatAll(t, FindWhere(t, InCategory(categoryId), ListLimit))
  }

  /**
    The store list as meant holds only products of the store, and, when the
    store has fewer than 100 products, all of them.
  */
  lemma ListByStoreIsTheStore(t: Tables, storeId: int)
    requires WellFormed(t)
    ensures forall v :: v in ListByStore(t, storeId) ==> v.row.storeId == storeId
    ensures |ListByStore(t, storeId)| < ListLimit ==>
              forall id :: id in t.products && t.products[id].storeId == storeId ==>
                Format(id, t.products[id]) in ListByStore(t, storeId)
  {
    ListByStoreOnlyStore(t, storeId);
    if |ListByStore(t, storeId)| < ListLimit {
      forall id | id in t.products && t.products[id].storeId == storeId
        ensures Format(id, t.products[id]) in ListByStore(t, storeId)
      {
        ListByStoreHas(t, storeId, id);
      }
    }
  }

  lemma ListByStoreOnlyStore(t: Tables, storeId: int)
    ensures forall v :: v in ListByStore(t, storeId) ==> v.row.storeId == storeId
  {
    var ids := FindWhere(t, InStore(storeId), ListLimit);
    var r := ListByStore(t, storeId);
    forall v | v in r ensures v.row.storeId == storeId {
      var i :| 0 <= i < |r| && r[i] == v;
      assert InStore(storeId)(t.products[ids[i]]);
    }
  }

  lemma ListByStoreHas(t: Tables, storeId: int, id: int)
    requires WellFormed(t) && |ListByStore(t, storeId)| < ListLimit
    requires id in t.products && t.products[id].storeId == storeId
    ensures Format(id, t.products[id]) in ListByStore(t, storeId)
  {
    var ids := FindWhere(t, InStore(storeId), ListLimit);
    assert InStore(storeId)(t.products[id]);
    var i :| 0 <= i < |ids| && ids[i] == id;
    assert ListByStore(t, storeId)[i] == Format(id, t.products[id]);
  }

  /** The category list as meant holds only products of the category, each shown with its category id. */
  lemma ListByCategoryIsTheCategory(t: Tables, categoryId: int)
    requires categoryId != 0
    ensures forall v :: v in ListByCategory(t, categoryId) ==> v.row.categoryId == Some(categoryId) && v.categoryId.Some?
  {
    var ids := FindWhere(t, InCategory(categoryId), ListLimit);
    var r := ListByCategory(t, categoryId);
    forall v | v in r ensures v.row.categoryId == Some(categoryId) && v.categoryId.Some? {
      var i :| 0 <= i < |r| && r[i] == v;
      assert InCategory(categoryId)(t.products[ids[i]]);
    }
  }

  // ----- create -----

  /** `currentUser.role === ADMIN || store.owner_id === currentUser.id` */
  predicate MayManage(t: Tables, storeId: int, user: Principal)
    requires storeId in t.stores
  {
    user.role == ADMIN || IsUser(user, t.stores[storeId].ownerId)
  }

  /** A discount that is given (not null, not left out) and lies outside [0, 100]. */
  predicate DiscountOutOfRange(d: Option<real>) {
    d.Some? && (d.value < 0.0 || d.value > 100.0)
  }

  /** Every product belongs to a store that exists. */
  predicate StoresExist(t: Tables) {
    forall id :: id in t.products ==> t.products[id].storeId in t.stores
  }

  lemma MessagesDiffer()
    ensures StoreNotFound != NoCreateRight && StoreNotFound != BadDiscount && NoCreateRight != BadDiscount
    ensures ProductNotFound != NoEditRight && ProductNotFound != BadDiscount && NoEditRight != BadDiscount
    ensures ProductNotFound != NoDeleteRight && ProductNotFound != IntegerRefused && NoDeleteRight != IntegerRefused
  {
    assert |StoreNotFound| == 23 && |NoCreateRight| == 49 && |BadDiscount| == 36;
    assert |ProductNotFound| == 23 && |NoEditRight| == 41 && |NoDeleteRight| == 35;
    assert |IntegerRefused| == 37;
  }

  /**
    `create(currentUser, payload)`: a missing store, then a user who is
    neither an admin nor the store's owner, then a discount outside [0, 100]
    throw with nothing written; otherwise one products row is inserted and
    returned formatted.
  */
  function Created(t: Tables, user: Principal, n: NewProduct): (r: (Result<ProductView>, Tables))
    requires WellFormed(t)
    ensures WellFormed(r.1)
    ensures r.0 == Failure(StoreNotFound) <==> n.storeId !in t.stores
    ensures r.0 == Failure(NoCreateRight) <==> n.storeId in t.stores && !MayManage(t, n.storeId, user)
    ensures r.0 == Failure(BadDiscount) <==>
              n.storeId in t.stores && MayManage(t, n.storeId, user) && DiscountOutOfRange(n.discount)
    ensures r.0.Failure? ==> r.1 == t
    ensures r.0.Success? ==>
              && r.0.value == Format(t.nextId, RowOf(n))
              && r.1 == t.(products := t.products[t.nextId := RowOf(n)], nextId := t.nextId + 1)
  {
    MessagesDiffer();
    if n.storeId !in t.stores then (Failure(StoreNotFound), t)
    else if !MayManage(t, n.storeId, user) then (Failure(NoCreateRight), t)
    else if DiscountOutOfRange(n.discount) then (Failure(BadDiscount), t)
    else
      var id := t.nextId;
      (Success(Format(id, RowOf(n))), t.(products := t.products[id := RowOf(n)], nextId := id + 1))
  }

  /** Creating a product never gives it a store that does not exist, nor a discount outside [0, 100]. */
  lemma CreateKeepsStoresExisting(t: Tables, user: Principal, n: NewProduct)
    requires WellFormed(t) && StoresExist(t)
    ensures StoresExist(Created(t, user, n).1)
    ensures Created(t, user, n).0.Success? ==>
              var d := Created(t, user, n).1.products[t.nextId].discount;
              d.None? || 0.0 <= d.value <= 100.0
  {
  }

  method Create(db: Db, user: Principal, n: NewProduct) returns (r: Result<ProductView>)
    modifies db
    requires db.Valid()
    ensures db.Valid()
    ensures (r, db.Snapshot()) == Created(old(db.Snapshot()), user, n)
  {
    if n.storeId !in db.stores {
      return Failure(StoreNotFound);
    }
    if user.role != ADMIN && !IsUser(user, db.stores[n.storeId].ownerId) {
      return Failure(NoCreateRight);
    }
    if n.discount.Some? && (n.discount.value < 0.0 || n.discount.value > 100.0) {
      return Failure(BadDiscount);
    }
    var id := ProductModel.Create(db, n);
    r := Success(Format(id, RowOf(n)));
  }

  // ----- update and remove: who may -----

  /**
    The ownership check of `update` and `remove`: an admin, or a user who owns
    the product's store, which must exist.
  */
  predicate MayChange(t: Tables, p: Product, user: Principal) {
    user.role == ADMIN || (p.storeId in t.stores && IsUser(user, t.stores[p.storeId].ownerId))
  }

  // ----- update -----

  /** An update patch: None is a key the patch does not have. */
  datatype ProductPatch = ProductPatch(
    storeId: Option<int>, title: Option<string>, description: Option<Option<string>>,
    categoryId: Option<Option<int>>, price: Option<real>, discount: Option<Option<real>>,
    rating: Option<Option<real>>, imageUrl: Option<Option<string>>, status: Option<string>)

  /** `Object.keys(patch).length === 0` */
  predicate EmptyPatch(q: ProductPatch) {
    q.storeId.None? && q.title.None? && q.description.None? && q.categoryId.None? && q.price.None?
    && q.discount.None? && q.rating.None? && q.imageUrl.None? && q.status.None?
  }

  /** `UPDATE products SET k=$i ...`: the columns the patch names take its values, the others keep theirs. */
  function Patched(p: Product, q: ProductPatch): (r: Product)
    ensures EmptyPatch(q) ==> r == p
  {
    Product(q.storeId.GetOr(p.storeId), q.title.GetOr(p.title), q.description.GetOr(p.description),
            q.categoryId.GetOr(p.categoryId), q.price.GetOr(p.price), q.discount.GetOr(p.discount),
            q.rating.GetOr(p.rating), q.imageUrl.GetOr(p.imageUrl), q.status.GetOr(p.status))
  }

  /** `patch.discount_percentage` given as a number outside [0, 100]. */
  predicate PatchDiscountOutOfRange(q: ProductPatch) {
    q.discount.Some? && DiscountOutOfRange(q.discount.value)
  }

  /**
    `update(currentUser, id, patch)`: a missing product, then a user who may
    not change it, then a discount outside [0, 100] throw with nothing
    written; an empty patch reads the row back unchanged; otherwise only that
    row changes, to the patched row, which is returned formatted.
  */
  function Updated(t: Tables, user: Principal, id: string, q: ProductPatch): (r: (Result<ProductView>, Tables))
    ensures r.0 == Failure(ProductNotFound) <==> FoundProduct(t, id).None?
    ensures r.0 == Failure(NoEditRight) <==>
              FoundProduct(t, id).Some? && !MayChange(t, t.products[FoundProduct(t, id).value], user)
    ensures r.0 == Failure(BadDiscount) <==>
              FoundProduct(t, id).Some? && MayChange(t, t.products[FoundProduct(t, id).value], user)
              && PatchDiscountOutOfRange(q)
    ensures r.0.Failure? || EmptyPatch(q) ==> r.1 == t
    ensures r.0.Success? ==>
              var n := ParseInt(id).value;
              && n in t.products
              && r.0.value == Format(n, Patched(t.products[n], q))
              && r.1 == t.(products := t.products[n := Patched(t.products[n], q)])
  {
    MessagesDiffer();
    match FoundProduct(t, id)
    case None => (Failure(ProductNotFound), t)
    case Some(n) =>
      var p := t.products[n];
      if !MayChange(t, p, user) then (Failure(NoEditRight), t)
      else if PatchDiscountOutOfRange(q) then (Failure(BadDiscount), t)
      else if EmptyPatch(q) then (Success(Format(n, p)), t)
      else (Success(Format(n, Patched(p, q))), t.(products := t.products[n := Patched(p, q)]))
  }

  /** An update leaves every other product, and every other table, as it was. */
  lemma UpdateTouchesOneRow(t: Tables, user: Principal, id: string, q: ProductPatch, other: int)
    requires other in t.products && Some(other) != ParseInt(id)
    ensures var t' := Updated(t, user, id, q).1;
            t'.(products := t.products) == t && other in t'.products && t'.products[other] == t.products[other]
  {
  }

  method Update(db: Db, user: Principal, id: string, q: ProductPatch) returns (r: Result<ProductView>)
    modifies db
    requires db.Valid()
    ensures db.Valid()
    ensures (r, db.Snapshot()) == Updated(old(db.Snapshot()), user, id, q)
  {
    var found := FoundProduct(db.Snapshot(), id);
    if found.None? {
      return Failure(ProductNotFound);
    }
    var n := found.value;
    var p := db.products[n];
    if user.role != ADMIN {
      if p.storeId !in db.stores || !IsUser(user, db.stores[p.storeId].ownerId) {
        return Failure(NoEditRight);
      }
    }
    if q.discount.Some? && q.discount.value.Some? && (q.discount.value.value < 0.0 || q.discount.value.value > 100.0) {
      return Failure(BadDiscount);
    }
    if EmptyPatch(q) {
      return Success(Format(n, p));
    }
    var updated := Patched(p, q);
    db.products := db.products[n := updated];
    r := Success(Format(n, updated));
  }

  // ----- remove -----

  /** `WHERE product_id = n` on cart_items. */
  function RefersTo(n: int): CartItem -> bool {
    (ci: CartItem) => ci.productId == n
  }

  /** Every cart item refers to a product that exists. */
  predicate CartItemsResolve(t: Tables) {
    forall id :: id in t.cartItems ==> t.cartItems[id].productId in t.products
  }

  /**
    `remove(currentUser, id)`: a missing product, then a user who may not
    delete it, throw with nothing written. The cart items are then selected
    with the route's id text bound as it is, so text that `parseInt` reads
    but PostgreSQL refuses ("5abc", "5.0") makes that query throw with
    nothing written. Otherwise every cart item that refers to the product is
    deleted, then the product.
  */
  function Removed(t: Tables, user: Principal, id: string): (r: (Result<bool>, Tables))
    ensures r.0 == Failure(ProductNotFound) <==> FoundProduct(t, id).None?
    ensures r.0 == Failure(NoDeleteRight) <==>
              FoundProduct(t, id).Some? && !MayChange(t, t.products[FoundProduct(t, id).value], user)
    ensures r.0 == Failure(IntegerRefused) <==>
              FoundProduct(t, id).Some? && MayChange(t, t.products[FoundProduct(t, id).value], user)
              && PgInteger(IdText(id)).None?
    ensures r.0.Failure? ==> r.1 == t
    ensures r.0.Success? ==>
              var n := ParseInt(id).value;
              && PgInteger(IdText(id)) == Some(n)
              && r.0.value
              && r.1 == t.(cartItems := DeleteWhere(t.cartItems, RefersTo(n)), products := t.products - {n})
  {
    MessagesDiffer();
    match FoundProduct(t, id)
    case None => (Failure(ProductNotFound), t)
    case Some(n) =>
      if !MayChange(t, t.products[n], user) then (Failure(NoDeleteRight), t)
      else
        match PgInteger(IdText(id))
        case None => (Failure(IntegerRefused), t)
        case Some(m) =>
          PgIntegerIsParseInt(id);
          (Success(true), t.(cartItems := DeleteWhere(t.cartItems, RefersTo(m)), products := t.products - {n}))
  }

  /** A product id in any other form than decimal digits after an optional sign is refused once the checks pass. */
  lemma RemoveRefusesLooseId(t: Tables, n: nat, rest: string)
    requires n in t.products && rest != [] && !IsDigit(rest[0])
    ensures Removed(t, Principal(Some(0), ADMIN), NatToString(n) + rest) == (Failure(IntegerRefused), t)
  {
    LooseId(n, rest);
  }

  /** parseInt reads a number off the front of such an id, where PostgreSQL refuses the whole of it. */
  lemma LooseId(n: nat, rest: string)
    requires rest != [] && !IsDigit(rest[0])
    ensures ParseInt(NatToString(n) + rest) == Some(n as int)
    ensures PgInteger(IdText(NatToString(n) + rest)).None?
  {
    var id := NatToString(n) + rest;
    ParseIntOfNatToStringThen(n, rest);
    assert id[|NatToString(n)|] == rest[0];
    assert !AllDigits(id);
    assert id[0] == NatToString(n)[0] && IsDigit(id[0]);
  }

  /**
    The cascade: after a delete no cart item refers to the deleted product,
    every other cart item is kept, and cart items that referred to existing
    products still do.
  */
  lemma RemoveCascades(t: Tables, user: Principal, id: string)
    requires Removed(t, user, id).0.Success?
    ensures var n := ParseInt(id).value;
            var t' := Removed(t, user, id).1;
            && n !in t'.products
            && (forall c :: c in t'.cartItems ==> t'.cartItems[c].productId != n)
            && (forall c :: c in t.cartItems && t.cartItems[c].productId != n ==> c in t'.cartItems)
    ensures CartItemsResolve(t) ==> CartItemsResolve(Removed(t, user, id).1)
  {
    var n := ParseInt(id).value;
    Cascade(t, n, Removed(t, user, id).1);
  }

  /** The same, for the tables after the two deletes. */
  lemma Cascade(t: Tables, n: int, t': Tables)
    requires t' == t.(cartItems := DeleteWhere(t.cartItems, RefersTo(n)), products := t.products - {n})
    ensures n !in t'.products
    ensures forall c :: c in t'.cartItems ==> t'.cartItems[c].productId != n
    ensures forall c :: c in t.cartItems && t.cartItems[c].productId != n ==> c in t'.cartItems
    ensures CartItemsResolve(t) ==> CartItemsResolve(t')
  {
    forall c | c in t'.cartItems ensures t'.cartItems[c].productId != n {
      assert !RefersTo(n)(t.cartItems[c]);
    }
    forall c | c in t.cartItems && t.cartItems[c].productId != n ensures c in t'.cartItems {
      assert !RefersTo(n)(t.cartItems[c]);
    }
  }

  method Remove(db: Db, user: Principal, id: string) returns (r: Result<bool>)
    modifies db
    requires db.Valid()
    ensures db.Valid()
    ensures (r, db.Snapshot()) == Removed(old(db.Snapshot()), user, id)
  {
    var found := FoundProduct(db.Snapshot(), id);
    if found.None? {
      return Failure(ProductNotFound);
    }
    var n := found.value;
    if user.role != ADMIN {
      var storeId := db.products[n].storeId;
      if storeId !in db.stores || !IsUser(user, db.stores[storeId].ownerId) {
        return Failure(NoDeleteRight);
      }
    }
    var raw := PgInteger(IdText(id));
    if raw.None? {
      return Failure(IntegerRefused);
    }
    PgIntegerIsParseInt(id);
    var items := Select(db.cartItems, RefersTo(raw.value), db.nextId);
    DeleteCartItems(db, items);
    SelectedAreAll(old(db.cartItems), RefersTo(raw.value), old(db.nextId), items);
    db.products := db.products - {n};
    r := Success(true);
  }

  /** The ids of a sequence, as a set. */
  function IdSet(ids: seq<int>): (r: set<int>)
    ensures forall x :: x in r <==> x in ids
  {
    set x | x in ids
  }

  /** `for (const cartItem of cartItems) await CartItemModel.deleteById(cartItem.id)` */
  method DeleteCartItems(db: Db, ids: seq<int>)
    modifies db
    requires db.Valid()
    ensures db.Valid()
    ensures db.Snapshot() == old(db.Snapshot()).(cartItems := old(db.cartItems) - IdSet(ids))
  {
    var k := 0;
    while k < |ids|
      invariant 0 <= k <= |ids|
      invariant db.Valid()
      invariant db.Snapshot() == old(db.Snapshot()).(cartItems := old(db.cartItems) - IdSet(ids[..k]))
    {
      assert IdSet(ids[..k + 1]) == IdSet(ids[..k]) + {ids[k]} by {
        assert ids[..k + 1] == ids[..k] + [ids[k]];
      }
      db.cartItems := db.cartItems - {ids[k]};
      k := k + 1;
    }
    assert ids[..k] == ids;
  }

  /** Deleting the selected ids of the matching rows deletes exactly the matching rows. */
  lemma SelectedAreAll(m: map<int, CartItem>, p: CartItem -> bool, hi: int, ids: seq<int>)
    requires KeysBelow(m, hi) && ids == Select(m, p, hi)
    ensures m - IdSet(ids) == DeleteWhere(m, p)
  {
    forall id | id in m ensures id in IdSet(ids) <==> p(m[id]) {
      if id in ids {
        var i :| 0 <= i < |ids| && ids[i] == id;
      }
    }
  }
}
