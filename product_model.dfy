/**
  `ProductModel` (product.model.js): the row `create` inserts, with its
  defaults, and `findManyWithFinalPrice`, which lists product rows with the
  server's discounted price added to each.

  `findMany` is modelled with its default order clause, `ORDER BY id ASC`,
  and its limit; the price rule itself is `Pricing.ModelFinalPrice`.
*/
module ProductModel {
  import opened Wrappers
  import opened Database
  import opened Pricing

  const DefaultStatus := "active"

  /**
    The argument of `ProductModel.create`. None is a field left out (or null),
    which the destructuring default turns into null, and for `status` into
    `"active"`.
  */
  datatype NewProduct = NewProduct(
    storeId: int, title: string, description: Option<string>, categoryId: Option<int>,
    price: real, discount: Option<real>, rating: Option<real>, imageUrl: Option<string>,
    status: Option<string>)

  /** The row `create` inserts: the nine columns in the order of the INSERT. */
  function RowOf(n: NewProduct): Product {
    Product(n.storeId, n.title, n.description, n.categoryId, n.price, n.discount, n.rating,
            n.imageUrl, n.status.GetOr(DefaultStatus))
  }

  /** Every column given: the argument that inserts exactly p. */
  function ArgumentOf(p: Product): NewProduct {
    NewProduct(p.storeId, p.title, p.description, p.categoryId, p.price, p.discount, p.rating,
               p.imageUrl, Some(p.status))
  }

  /** Any row can be created: giving every column inserts that row. */
  lemma RowOfArgument(p: Product)
    ensures RowOf(ArgumentOf(p)) == p
  {
  }

  /**
    The defaults: with only the store, the title and the price given, every
    other column is null and the status is `"active"`.
  */
  lemma CreateDefaults(storeId: int, title: string, price: real)
    ensures RowOf(NewProduct(storeId, title, None, None, price, None, None, None, None))
            == Product(storeId, title, None, None, price, None, None, None, "active")
  {
  }

  /** `ProductModel.create(p)`: one new products row under a fresh id, nothing else changed. */
  method Create(db: Db, n: NewProduct) returns (id: int)
    modifies db
    requires db.Valid()
    ensures db.Valid()
    ensures id == old(db.nextId)
    ensures db.Snapshot() == old(db.Snapshot()).(products := old(db.products)[id := RowOf(n)], nextId := id + 1)
  {
    id := db.FreshId();
    db.products := db.products[id := RowOf(n)];
  }

  /** Every product row. */
  function AnyProduct(): Product -> bool {
    (p: Product) => true
  }

  /** `findMany({ tableName: "products", limit })`: the rows in ascending id order, at most `limit` of them. */
  function FindMany(t: Tables, limit: nat): (ids: seq<int>)
    ensures |ids| <= limit
    ensures forall i :: 0 <= i < |ids| ==> ids[i] in t.products
    ensures forall i, j :: 0 <= i < j < |ids| ==> ids[i] < ids[j]
    ensures var all := Select(t.products, AnyProduct(), t.nextId);
            |ids| <= |all| && ids == all[..|ids|] && (|ids| < limit ==> ids == all)
  {
    var all := Select(t.products, AnyProduct(), t.nextId);
    if |all| <= limit then all else all[..limit]
  }

  /** A row of `findManyWithFinalPrice`: the product row with `final_price` added. */
  datatype PricedRow = PricedRow(id: int, row: Product, finalPrice: real)

  /** `products.map(product => ({ ...product, final_price: calculateFinalPrice(price, discount) }))` */
  function WithFinalPrice(t: Tables, ids: seq<int>): (r: seq<PricedRow>)
    requires forall i :: 0 <= i < |ids| ==> ids[i] in t.products
  {
    seq(|ids|, i requires 0 <= i < |ids| => PricedRow(ids[i], t.products[ids[i]], ModelFinalPrice(t.products[ids[i]].price, t.products[ids[i]].discount)))
  }

  function FindManyWithFinalPrice(t: Tables, limit: nat): (r: seq<PricedRow>)
    ensures |r| <= limit
    ensures forall i :: 0 <= i < |r| ==> r[i].id in t.products && r[i].row == t.products[r[i].id]
    ensures forall i, j :: 0 <= i < j < |r| ==> r[i].id < r[j].id
  {
    WithFinalPrice(t, FindMany(t, limit))
  }

  /**
    `findManyWithFinalPrice` lists the same rows as `findMany`, in the same
    order, and changes nothing in them but adding the final price; a listed
    price that is not negative under a discount of at most 100 percent gets a
    final price between 0 and the price.
  */
  lemma FindManyWithFinalPriceKeepsRows(t: Tables, limit: nat)
    ensures |FindManyWithFinalPrice(t, limit)| == |FindMany(t, limit)|
    ensures forall i :: 0 <= i < |FindMany(t, limit)| ==>
              && FindManyWithFinalPrice(t, limit)[i].id == FindMany(t, limit)[i]
              && FindManyWithFinalPrice(t, limit)[i].row == t.products[FindMany(t, limit)[i]]
    ensures forall i :: 0 <= i < |FindMany(t, limit)| ==>
              var p := t.products[FindMany(t, limit)[i]];
              p.price >= 0.0 && (p.discount.None? || p.discount.value <= 100.0) ==>
                0.0 <= FindManyWithFinalPrice(t, limit)[i].finalPrice <= p.price
  {
    var ids := FindMany(t, limit);
    var r := FindManyWithFinalPrice(t, limit);
    forall i | 0 <= i < |ids|
      ensures var p := t.products[ids[i]];
              p.price >= 0.0 && (p.discount.None? || p.discount.value <= 100.0) ==> 0.0 <= r[i].finalPrice <= p.price
    {
      var p := t.products[ids[i]];
      if p.price >= 0.0 && p.discount.Some? && 0.0 < p.discount.value <= 100.0 {
        ModelFinalPriceInRange(p.price, p.discount.value);
      }
    }
  }
}
