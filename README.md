# A verified model of the Ecom_backend order, payment and account core

This project models, in Dafny, the rules at the centre of the Ecom_backend
shop server (Node.js, Express, PostgreSQL) and proves what they promise:

- the VNPAY payment gateway routes: the canonical signing form of the
  parameters (`sortObject`), the signed payment URL, the advisory return
  page and the authoritative payment notification (IPN) with its ladder of
  gateway codes, the order status transition and the cart clearing;
- the order builder `createFromCart`, the order detail id guard and
  `updateStatus`;
- the cart (`ensure`, `getMyCart`, `addItem`, `updateItem`, `removeItem`,
  `clear`);
- the three final-price rules (the product model's, the cart's inline one
  and the admin page's) and where they differ;
- the catalogue: products, categories with `buildCategoryTree`, stores, and
  the admin pages' `buildCategoryHierarchy`, `truncateText`, status helpers
  and product form validation;
- the SQL text `BaseModel` builds and its id guards;
- the e-mail verification and password reset token lifecycle of the auth
  controller, the bearer-token middleware, the role / ownership / self
  middlewares, and the error-to-status table.

Persistence is the class `Database.Db`, one map per table keyed by row id
with one shared id counter; its value `Tables` is what the specification
functions work on. Each operation that writes is a method on the database
whose `ensures` equates its reply and the new tables with a specification
function of the old tables, and the lemmas state the properties of those
functions. Pure rules are functions with contracts.

HMAC-SHA512, sha256, bcrypt, JWT signing and verification, the random code
generator and the clock are parameters (`sign`, `sha256`, `compare`,
`verify`, `code`, `now`, a `Moment`). A database error is a fault
parameter: `failAt` in `createFromCart` and `IpnFault` in the notification
handler. Amounts, the payment amount included, are `real`; the text
JavaScript writes for a fractional number is the parameter `show`.
JavaScript's `NaN`, `null` and `undefined` are explicit values where the
source tells them apart.

## Model

| member | source | states |
|---|---|---|
| Database.PgInteger | Ecom_backend/src/middleware/authorization.js:19-22 | how PostgreSQL reads a parameter bound to an integer column: a number as it is, signed decimal text as its value, other text refused |
| Database.PgIntegerOfIntToString | Ecom_backend/src/middleware/authorization.js:19-22 | the decimal text of every integer is read back as that integer |
| Database.SignedPgIntegerIsParseInt | Ecom_backend/src/middleware/authorization.js:19-22 | for a sign followed by digits, PostgreSQL and `parseInt` read the same integer |
| Database.NegativePgInteger | Ecom_backend/src/middleware/authorization.js:19-22 | `-` followed by digits is read alike by PostgreSQL and `parseInt` |
| Database.PlusPgInteger | Ecom_backend/src/middleware/authorization.js:19-22 | `+` followed by digits is read alike by PostgreSQL and `parseInt` |
| Database.Select | Ecom_backend/src/models/base.model.js:15-40 | the ids of the matching rows, each exactly once, ascending |
| Database.First | Ecom_backend/src/models/user.model.js:6-10 | the lowest id of a matching row, None iff no row matches |
| Database.Latest | Ecom_backend/src/models/password_reset_token.model.js:8-12 | the highest id of a matching row, None iff no row matches |
| Database.SortedBounds | Ecom_backend/src/models/base.model.js:15-40 | in an ascending list the first is the least and the last the greatest |
| Database.FirstIsLeast | Ecom_backend/src/models/user.model.js:6-10 | the lookup finds the matching row with the least id |
| Database.FirstAfterInsert | Ecom_backend/src/models/user.model.js:6-10 | a row under a fresh id is found when it matches and no earlier row does, and changes nothing when it does not match |
| Database.FirstAfterUpdate | Ecom_backend/src/models/user.model.js:6-10 | replacing a row by one that matches alike changes no lookup |
| Database.FirstGrowHi | Ecom_backend/src/models/user.model.js:6-10 | raising the bound past every key changes no lookup |
| Database.LatestIsGreatest | Ecom_backend/src/models/password_reset_token.model.js:8-12 | `findLatestByPurpose` finds the matching row with the greatest id |
| Database.LatestAfterInsert | Ecom_backend/src/models/password_reset_token.model.js:8-12 | a row inserted under a fresh id is the latest when it matches, and changes nothing when it does not |
| Database.LatestAfterUpdate | Ecom_backend/src/models/password_reset_token.model.js:13-17 | `markUsed`-style updates that keep the match leave `Latest` unchanged |
| Database.LatestGrowHi | Ecom_backend/src/models/password_reset_token.model.js:8-12 | raising the bound past every key changes no latest lookup |
| Database.LookupsAfterUpdate | Ecom_backend/src/models/password_reset_token.model.js:13-17 | an update that keeps the match, then inserts elsewhere, change neither lookup |
| Database.SelectAgrees | Ecom_backend/src/models/base.model.js:15-40 | two tables with the same rows below the bound select the same ids |
| Database.SelectAfterInsert | Ecom_backend/src/models/base.model.js:55-62 | a row inserted under a fresh id comes last among the rows it matches |
| Database.Ids | Ecom_backend/src/services/order.service.js:76-83 | the n ids from lo on |
| Database.DeleteWhere | Ecom_backend/src/services/cart.service.js:89-98 | exactly the rows that do not match, unchanged |
| Database.Db.FreshId | Ecom_backend/src/models/base.model.js:55-62 | takes the next id and changes nothing else |
| Database.Db.InsertUser | Ecom_backend/src/models/user.model.js:11-12 | one user row under the next id |
| Database.Db.SetUser | Ecom_backend/src/models/user.model.js:13 | one user row replaced |
| Database.Db.InsertToken | Ecom_backend/src/models/password_reset_token.model.js:6-7 | one token row under the next id |
| Database.Db.SetToken | Ecom_backend/src/models/password_reset_token.model.js:13-17 | one token row replaced |
| Database.Db.InsertStore | Ecom_backend/src/models/store.model.js:9-14 | one store row under the next id |
| Text.NatToString | Ecom_backend/src/services/store.service.js:9 | the decimal digits of n, no leading zero |
| Text.IntToString | Ecom_backend/src/services/store.service.js:9-11 | `toString()` of an integer: digits, with a minus sign for a negative one |
| Text.TrimStart | Ecom_backend/src/middleware/authentication.js:14 | `parseInt` skips the leading white space, and only that |
| Text.LeadingDigits | Ecom_backend/src/models/base.model.js:42 | the longest run of digits at the start |
| Text.DigitsValueOfNatToString | Ecom_backend/src/services/store.service.js:9 | the digits of n have the value n |
| Text.LeadingDigitsOfDigits | Ecom_backend/src/models/base.model.js:42 | a run of digits is read whole |
| Text.ParseIntOfDigits | Ecom_backend/src/models/base.model.js:42 | `parseInt` of digits is their value |
| Text.ParseIntOfNegDigits | Ecom_backend/src/models/base.model.js:42 | `parseInt` of a minus and digits is the negated value |
| Text.TrimStartOfSign | Ecom_backend/src/models/base.model.js:42 | text starting with a minus has no white space to skip |
| Text.ParseIntOfNatToString | Ecom_backend/src/middleware/authentication.js:14 | `parseInt` reads a natural number's digits, with or without a minus sign |
| Text.ParseIntOfIntToString | Ecom_backend/src/middleware/authentication.js:14 | `parseInt(String(n)) == n` for every integer, so the subject a login signs reads back as the id |
| Text.IntToStringInjective | Ecom_backend/src/services/store.service.js:9 | different integers have different decimal texts |
| Text.ParseIntWithoutDigits | Ecom_backend/src/models/base.model.js:42-47 | text without a digit is NaN |
| Text.ParseIntStart | Ecom_backend/src/models/base.model.js:42-47 | `parseInt` yields a number only when the text after the leading white space starts with a digit or a sign |
| Text.ParseIntOfPlusDigits | Ecom_backend/src/models/base.model.js:42 | `parseInt` of a plus sign and digits is their value |
| Text.ParseIntOfNatToStringThen | Ecom_backend/src/models/base.model.js:42 | `parseInt` stops at the first non-digit: the text of n followed by anything not starting with a digit reads as n |
| Text.LeadingHex | Ecom_backend/src/middleware/authorization.js:34 | the longest run of hexadecimal digits at the start |
| Text.LeadingHexOfHex | Ecom_backend/src/middleware/authorization.js:34 | a run of hexadecimal digits is read whole |
| Text.NoRadixWithoutPrefix | Ecom_backend/src/middleware/authorization.js:34 | `parseInt(s)` with no radix agrees with the decimal reading whenever the unsigned text after the white space does not start with `0x` or `0X` |
| Text.MagnitudeOfHex | Ecom_backend/src/middleware/authorization.js:34 | after `0x` or `0X` the hexadecimal digits give their base-16 value |
| Text.NoRadixOfHex | Ecom_backend/src/middleware/authorization.js:34 | `parseInt("0x" + h)` is the base-16 value of the hex digits h |
| Text.NoRadixOfMinus | Ecom_backend/src/middleware/authorization.js:34 | a leading minus negates what the rest reads as |
| Text.NoRadixOfNegativeHex | Ecom_backend/src/middleware/authorization.js:34 | `parseInt("-0x" + h)` is minus the base-16 value of h |
| Text.HexPrefixWithoutDigits | Ecom_backend/src/middleware/authorization.js:34 | `0x` not followed by a hexadecimal digit is NaN |
| Text.HexPrefixOfSixteen | Ecom_backend/src/middleware/authorization.js:34 | `parseInt("0x10")` is 16 |
| Text.DecimalStopsAtX | Ecom_backend/src/middleware/authorization.js:34 | read in base 10, `0x10` is 0: the reading stops at the `x` |
| Text.HexPrefixDiffers | Ecom_backend/src/middleware/authorization.js:34 | the radix-less and the decimal reading of `0x10` differ: 16 against 0 |
| Text.NoRadixOfIntToString | Ecom_backend/src/middleware/authentication.js:14 | `parseInt(String(n)) == n` with no radix too, for every integer |
| Text.NoRadixOfDigits | Ecom_backend/src/middleware/authentication.js:14 | with no radix, text of digits reads as its decimal value |
| Text.Utf16Length | Ecom_backend/public/admin/js/products.js:26-30 | `s.length` counts one unit per character of the Basic Multilingual Plane and two for any other, so it lies between the character count and twice it, and equals the character count iff every character is in that plane |
| Text.BeforeFirst | Ecom_backend/src/routes/vnpay.routes.js:92 | `split(c)[0]`: the longest prefix without c, followed by c or the end |
| Text.BeforeFirstOfJoined | Ecom_backend/src/routes/vnpay.routes.js:37-92 | splitting `a + c + b` at c gives back a when a holds no c |
| Text.ToUpperAscii | Ecom_backend/src/models/base.model.js:24 | same length, each ASCII letter upper-cased |
| Text.Pad2 | Ecom_backend/src/routes/vnpay.routes.js:36-37 | two zero-padded digits whose value is n |
| Text.Pad4 | Ecom_backend/src/routes/vnpay.routes.js:36 | four zero-padded digits |
| CartService.Ensured | Ecom_backend/src/services/cart.service.js:6-11 | the returned cart belongs to the user and is the one `findByUserId` finds afterwards; an existing cart is returned with nothing written, otherwise exactly one cart row is inserted at the next id |
| CartService.EnsureIdempotent | Ecom_backend/src/services/cart.service.js:6-11 | a second `ensure` writes nothing and returns the same cart |
| CartService.Ensure | Ecom_backend/src/services/cart.service.js:6-11 | the method's new tables and result are those of `Ensured` |
| CartService.AddToItems | Ecom_backend/src/services/cart.service.js:60-74 | the (cart, product) row afterwards holds the old quantity plus `qty`; an existing row is updated in place with no new key, otherwise one row is created; every other row is unchanged |
| CartService.AddToItemsKeepsUnique | Ecom_backend/src/services/cart.service.js:60-74 | the write never makes a second row for a (cart, product) pair |
| CartService.Added | Ecom_backend/src/services/cart.service.js:58-75 | `addItem` = `ensure` followed by the merge-or-insert write; the tables stay well formed |
| CartService.AddItemMerges | Ecom_backend/src/services/cart.service.js:58-75 | after `addItem` the user's cart is unchanged, the returned row is the one found for the product, and its quantity grew by `qty` |
| CartService.AddTwiceAddsSum | Ecom_backend/src/services/cart.service.js:58-75 | two adds of one product leave the quantity of one add of the sum |
| CartService.AddItemKeepsUnique | Ecom_backend/src/services/cart.service.js:58-75 | `addItem` preserves "one row per (cart, product)" |
| CartService.AddToCart | Ecom_backend/src/services/cart.service.js:60-74 | the method's write on cart items is that of `AddToItems`, nothing else changes |
| CartService.AddItem | Ecom_backend/src/services/cart.service.js:58-75 | the method's new tables and result are those of `Added` |
| CartService.ItemUpdated | Ecom_backend/src/services/cart.service.js:77-84 | only cart items change; a non-numeric id is refused with nothing written; `qty <= 0` deletes the row, otherwise the row's quantity becomes `qty`; uniqueness of rows is kept |
| CartService.UpdateItem | Ecom_backend/src/services/cart.service.js:77-84 | the method's result and new tables are those of `ItemUpdated` |
| CartService.ItemRemoved | Ecom_backend/src/services/cart.service.js:86-88 | only the row with that id goes; a non-numeric id is refused with nothing written |
| CartService.RemoveItem | Ecom_backend/src/services/cart.service.js:86-88 | the method's result and new tables are those of `ItemRemoved` |
| CartService.Cleared | Ecom_backend/src/services/cart.service.js:89-98 | with no cart nothing changes; otherwise exactly the items of the user's cart are deleted, other rows and the cart itself stay |
| CartService.ClearEmptiesCart | Ecom_backend/src/services/cart.service.js:89-98 | after `clear` no product is found in the user's cart and every quantity reads 0 |
| CartService.Clear | Ecom_backend/src/services/cart.service.js:89-98 | returns true, and the new tables are those of `Cleared` |
| CartService.Line | Ecom_backend/src/services/cart.service.js:33-48 | a line keeps the item's id, product and quantity, and its final price is the discount rule applied to `discount_percentage \|\| 0` |
| CartService.LinesAreJoin | Ecom_backend/src/services/cart.service.js:15-29 | the lines are exactly the joined rows: each is the line of an item of the cart whose product exists, and every such item has its line |
| CartService.Lines | Ecom_backend/src/services/cart.service.js:15-29 | at most one line per selected cart item: the inner join drops items whose product is gone |
| CartService.ItemsOfCart | Ecom_backend/src/services/cart.service.js:24-26 | the ids selected are rows of cart_items |
| CartService.Subtotal | Ecom_backend/src/services/cart.service.js:32-38 | a cart whose lines all have a non-negative final price and quantity has a non-negative subtotal |
| CartService.LinePriceInRange | Ecom_backend/src/services/cart.service.js:34-37 | a price that is not negative and a discount of at most 100 give a final price in [0, price] |
| CartService.PriceLines | Ecom_backend/src/services/cart.service.js:32-49 | the loop's items are the lines of the cart's items and its subtotal is their sum of `final_price × qty` |
| CartService.PriceRow | Ecom_backend/src/services/cart.service.js:33-48 | one step of the mapping adds the row's line and its `final_price × qty` |
| CartService.LinesStep | Ecom_backend/src/services/cart.service.js:25 | a further item adds its line exactly when its product exists (the inner join) |
| CartService.SubtotalStep | Ecom_backend/src/services/cart.service.js:38 | the subtotal of one more line is the old subtotal plus its `final_price × qty` |
| CartService.GetMyCart | Ecom_backend/src/services/cart.service.js:12-57 | `getMyCart` ensures the cart as `Ensured` does, and returns its lines and their subtotal |
| OrderService.CartRows | Ecom_backend/src/services/order.service.js:14-28 | the selected rows are exactly the buyer's cart items whose cart belongs to the buyer and whose product exists (the two joins) |
| OrderService.ForStore | Ecom_backend/src/services/order.service.js:37-39 | the kept rows are exactly the rows of the given store, and nothing is added |
| OrderService.LinesOf | Ecom_backend/src/services/order.service.js:47-58 | one line per kept row, in order, each the row's product, frozen final price and quantity |
| OrderService.PlanFor | Ecom_backend/src/services/order.service.js:30-59 | no plan iff the cart is empty; otherwise the store is the first row's, the rows are that store's, and the subtotal is the sum of `unit_price × qty` over their lines |
| OrderService.PutItems | Ecom_backend/src/services/order.service.js:76-83 | one order item per line under fresh consecutive ids, each pointing at the order; earlier rows unchanged |
| OrderService.PutItemsBelow | Ecom_backend/src/services/order.service.js:76-83 | the new rows stay below the advanced id counter |
| OrderService.Placed | Ecom_backend/src/services/order.service.js:67-83 | the tables after the order insert and the first n item inserts stay well formed |
| OrderService.CreatedAsWritten | Ecom_backend/src/services/order.service.js:62-100 | the code as written: the inserts go through the pool, so the ROLLBACK leaves what they wrote; the tables stay well formed |
| OrderService.Created | Ecom_backend/src/services/order.service.js:12-101 | failure iff the cart is empty or an insert throws; an empty cart throws `Giỏ hàng trống` with nothing written; a failed insert throws `Không thể tạo đơn hàng: …` and changes only the id counter |
| OrderService.CreatedSuccess | Ecom_backend/src/services/order.service.js:61-93 | a successful call returns the new order's id and adds exactly the order and one item per line |
| OrderService.LineOfRow | Ecom_backend/src/services/order.service.js:47-58 | an order line keeps the cart row's product and quantity, and its unit price is `calculateFinalPrice` of the product's price and discount |
| OrderService.Total | Ecom_backend/src/services/order.service.js:46-59 | lines with non-negative unit prices and quantities give a non-negative order total |
| OrderService.PlanKeepsFirstStore | Ecom_backend/src/services/order.service.js:36-39 | every kept row is of the first row's store, every row of that store is kept, and the first row is among them |
| OrderService.CreatedOrder | Ecom_backend/src/services/order.service.js:66-74 | the new order is fresh, of the first row's store, has subtotal = total = the sum of its lines, and is `pending` |
| OrderService.CreatedItemIds | Ecom_backend/src/services/order.service.js:76-83 | the new item ids are exactly the ones after the order's, one per kept row; earlier items stay |
| OrderService.LinesAreRows | Ecom_backend/src/services/order.service.js:47-58 | the i-th new item is the i-th kept row's product, frozen unit price and quantity |
| OrderService.CreatedFailure | Ecom_backend/src/services/order.service.js:94-97 | a failed insert returns the wrapped error and leaves the tables as they were, except the ids drawn |
| OrderService.CreatedFailureLeavesNoRows | Ecom_backend/src/services/order.service.js:94-97 | any failure leaves orders and order items as they were |
| OrderService.AsWrittenLeavesOrphanOrder | Ecom_backend/src/services/order.service.js:62-97 | as written, a failing item insert still throws, yet leaves a `pending` order behind with only part of its items |
| OrderService.UnitPriceIsCartPrice | Ecom_backend/src/services/order.service.js:48-51 | the frozen unit price equals the final price the cart view showed for the same row |
| OrderService.PriceOrder | Ecom_backend/src/services/order.service.js:46-58 | the loop's lines are `LinesOf` the kept rows and its subtotal their total |
| OrderService.PutItemsStep | Ecom_backend/src/services/order.service.js:76-83 | one more insert extends the item rows by the row of that line |
| OrderService.PutLines | Ecom_backend/src/services/order.service.js:76-83 | the insert loop writes the rows of the lines before the failing one (all of them when none fails) |
| OrderService.InsertItems | Ecom_backend/src/services/order.service.js:76-83 | the item loop against the database: the new order items and the id counter are those of `PutLines` |
| OrderService.AddOrder | Ecom_backend/src/services/order.service.js:67-74 | the order insert takes the next id and writes a `pending` order of the plan, nothing else |
| OrderService.PlacedAll | Ecom_backend/src/services/order.service.js:67-83 | with all inserts done the tables hold the order and every item |
| OrderService.InsertAll | Ecom_backend/src/services/order.service.js:67-85 | every insert succeeds: the tables become `Placed` with all lines |
| OrderService.InsertFailing | Ecom_backend/src/services/order.service.js:94-95 | insert number k throws: the rows written are put back, the ids drawn stay used |
| OrderService.InsertOrder | Ecom_backend/src/services/order.service.js:61-100 | the transaction: success writes everything, a failure writes nothing but the id counter |
| OrderService.CreateFromCart | Ecom_backend/src/services/order.service.js:12-101 | the method's result and new tables are those of `Created` |
| OrderService.DetailOf | Ecom_backend/src/services/order.service.js:170-219 | null iff `parseInt` cannot read the id or no order has it; otherwise the order and its items in ascending id order, each belonging to it |
| OrderService.StatusUpdated | Ecom_backend/src/services/order.service.js:221-272 | a missing order gives null with no write; a user neither ADMIN nor the owning SELLER is refused, then a status outside the seven is refused, both with no write; otherwise only that order's status changes |
| OrderService.AdminSetsAnyListedStatus | Ecom_backend/src/services/order.service.js:226-261 | there is no guard on the current status: an ADMIN moves any order to any listed status |
| OrderService.OthersMayNotUpdate | Ecom_backend/src/services/order.service.js:226-243 | a user who is neither ADMIN nor SELLER is refused, with nothing written |
| OrderService.SellerNeedsOwnStore | Ecom_backend/src/services/order.service.js:229-243 | a SELLER is refused exactly when the order's store does not exist or is owned by someone else |
| OrderService.UpdateStatus | Ecom_backend/src/services/order.service.js:221-272 | the method's result and new tables are those of `StatusUpdated` |
| Vnpay.Lookup | Ecom_backend/src/routes/vnpay.routes.js:80 | `q[k]` is undefined iff the object has no key k; otherwise it is a value stored under k, the only one when keys are unique |
| Vnpay.Without | Ecom_backend/src/routes/vnpay.routes.js:83-84 | `delete q[k]` leaves no key k, adds no key, and changes nothing when k is absent |
| Vnpay.LookupWithout | Ecom_backend/src/routes/vnpay.routes.js:83-84 | deleting one key leaves every other key's value as it was |
| Vnpay.Stripped | Ecom_backend/src/routes/vnpay.routes.js:80-84 | after the two deletes neither hash key is left and every other key reads as before |
| Vnpay.Entries | Ecom_backend/src/routes/vnpay.routes.js:279-287 | one entry per sorted key, in order, each the decoded key and the form encoding of its value |
| Vnpay.EncodedVnpKeysMembers | Ecom_backend/src/routes/vnpay.routes.js:272-277 | the collected keys are exactly the encodings of the object's `vnp_` keys |
| Vnpay.EncodedVnpKeysNoRepeats | Ecom_backend/src/routes/vnpay.routes.js:272-277 | an object's collected encoded keys are all different |
| Vnpay.TwoCopies | Ecom_backend/src/routes/vnpay.routes.js:272-278 | a key at two positions of `str` occurs twice in it |
| Vnpay.EntryOfEncoded | Ecom_backend/src/routes/vnpay.routes.js:281-286 | the entry for the encoding of a key is that key with the form encoding of its value (decoding undoes encoding) |
| Vnpay.CanonicalAt | Ecom_backend/src/routes/vnpay.routes.js:268-289 | position i of `sortObject`'s result is the `vnp_` key whose encoding is the i-th sorted one, with its value form-encoded |
| Vnpay.Canonical | Ecom_backend/src/routes/vnpay.routes.js:268-289 | `sortObject` returns one entry per collected `vnp_` key; which keys, in which order and with which values, the next rows state |
| Vnpay.CanonicalKeys | Ecom_backend/src/routes/vnpay.routes.js:272-277 | `sortObject` keeps exactly the object's keys that start with `vnp_` |
| Vnpay.CanonicalAscending | Ecom_backend/src/routes/vnpay.routes.js:278 | the result is strictly ascending by encoded key, so no key appears twice |
| Vnpay.CanonicalValues | Ecom_backend/src/routes/vnpay.routes.js:283-286 | every value emitted is `encodeURIComponent(v)` with `%20` turned into `+` |
| Vnpay.SortObject | Ecom_backend/src/routes/vnpay.routes.js:268-289 | the method (collect, sort the array in place, fill) returns `Canonical(obj)` |
| Vnpay.CollectKeys | Ecom_backend/src/routes/vnpay.routes.js:272-277 | the first loop pushes the encodings of the `vnp_` keys in insertion order |
| Vnpay.FillSorted | Ecom_backend/src/routes/vnpay.routes.js:279-287 | the second loop sets one entry per sorted key, in order |
| Vnpay.EntryOfVnpKey | Ecom_backend/src/routes/vnpay.routes.js:281-283 | a collected key decodes, and its entry is keyed by the decoded name |
| Vnpay.LookupCanonical | Ecom_backend/src/routes/vnpay.routes.js:268-289 | reading a `vnp_` key of the result gives the form encoding of the object's value, or undefined when absent |
| Vnpay.Stringify | Ecom_backend/src/routes/vnpay.routes.js:65 | `qs.stringify` with `encode: false` gives the empty text for no parameters and otherwise starts with the first `k=v` |
| Vnpay.Signature | Ecom_backend/src/routes/vnpay.routes.js:86-90 | the handlers sign the sorted parameters without the hash keys; for parameters that carry neither hash key this is what `createPaymentUrl` signs (lines 64-67) |
| Vnpay.ChecksumOk | Ecom_backend/src/routes/vnpay.routes.js:105 | `secureHash === signed` can hold only when the callback carries `vnp_SecureHash` |
| Vnpay.ReceivedParam | Ecom_backend/src/routes/vnpay.routes.js:130-145 | what the handlers read for a `vnp_` parameter other than the hash is the form encoding of what the callback carried |
| Vnpay.SignedParamsPass | Ecom_backend/src/routes/vnpay.routes.js:63-68 | signing round trip: parameters with the hash of their own sorted form appended pass the handlers' checksum test (lines 133-141, 173) |
| Vnpay.TimeOfDay | Ecom_backend/src/routes/vnpay.routes.js:37 | `HHmmss` is six digits |
| Vnpay.CreateDate | Ecom_backend/src/routes/vnpay.routes.js:36 | `YYYYMMDDHHmmss` is fourteen digits |
| Vnpay.TxnRef | Ecom_backend/src/routes/vnpay.routes.js:37 | the reference is the order id, then `_`, then six digits |
| Vnpay.PaymentKeysPlain | Ecom_backend/src/routes/vnpay.routes.js:44-60 | every key the handler assigns starts with `vnp_` and is neither hash key |
| Vnpay.PaymentParams | Ecom_backend/src/routes/vnpay.routes.js:43-61 | `vnp_Params` holds the twelve fixed keys in the order assigned, then `vnp_BankCode` iff a bank code was given; all are `vnp_` keys and none is a hash key, so sorting keeps every one and the signature covers them |
| Vnpay.PaymentUrl | Ecom_backend/src/routes/vnpay.routes.js:16-75 | 400 with the fixed message iff `orderId` is empty or `amount` is 0, and nothing signed; otherwise, for any real amount, the URL is the sorted parameters (with `vnp_Amount` the JavaScript text of `amount * 100`) followed by the signature of their canonical string |
| Vnpay.CreatePaymentUrl | Ecom_backend/src/routes/vnpay.routes.js:16-75 | the handler's result is `PaymentUrl` |
| Vnpay.IntToStringUnreserved | Ecom_backend/src/routes/vnpay.routes.js:41 | a decimal integer is left as it is by the encoding |
| Vnpay.PaymentBankCode | Ecom_backend/src/routes/vnpay.routes.js:59-61 | the signed `vnp_BankCode` is present iff the request gave a non-empty bank code, and then carries its encoding |
| Vnpay.SortedBankCode | Ecom_backend/src/routes/vnpay.routes.js:59-64 | sorting keeps `vnp_BankCode` exactly when it was set, with its value form-encoded |
| Vnpay.BankCodeParam | Ecom_backend/src/routes/vnpay.routes.js:59-61 | before sorting, `vnp_BankCode` is set iff the bank code is neither null nor empty |
| Vnpay.TxnRefRoundTrip | Ecom_backend/src/routes/vnpay.routes.js:37 | the reference written for order n (`n_HHmmss`) gives back n through the handlers' split and `parseInt` (lines 92, 143, 159) |
| Vnpay.IdHasNoUnderscore | Ecom_backend/src/routes/vnpay.routes.js:37 | a positive order id has no `_`, so the split stops after it |
| Vnpay.TxnOrderIdOf | Ecom_backend/src/routes/vnpay.routes.js:143 | the order id read is the text before the first `_` |
| Vnpay.TxnRefUnreserved | Ecom_backend/src/routes/vnpay.routes.js:37 | the reference survives form encoding unchanged |
| Vnpay.AmountRoundTrip | Ecom_backend/src/routes/vnpay.routes.js:41 | for every amount with at most two decimals, the `String(amount * 100)` sent reads back as `amount` through `parseInt(...) / 100` (lines 147-149) |
| Vnpay.WholeAmountText | Ecom_backend/src/routes/vnpay.routes.js:41 | a hundred times an amount with at most two decimals is written as the integer k it is, and k / 100 is the amount |
| Vnpay.NoticeAmountOfIntText | Ecom_backend/src/routes/vnpay.routes.js:147-149 | `parseInt(String(k), 10) / 100` is k / 100 |
| Vnpay.ReceivedAmountText | Ecom_backend/src/routes/vnpay.routes.js:130-147 | an amount text of unreserved characters reaches the notification handler as it was sent |
| Vnpay.FractionalAmountNotReadBack | Ecom_backend/src/routes/vnpay.routes.js:41 | an amount with a fraction of a hundredth, whose `String(amount * 100)` has a point, reads back through `parseInt(...) / 100` (lines 147-149) as its whole hundredths k / 100, which is not the amount, so the IPN amount check (line 195) fails |
| Vnpay.FractionalAmountCutDown | Ecom_backend/src/routes/vnpay.routes.js:147-149 | such an amount reads back as k / 100, k its whole hundredths |
| Vnpay.PointedNotice | Ecom_backend/src/routes/vnpay.routes.js:147-149 | a `vnp_Amount` of the text of k, a point and digits reads back as k / 100: `parseInt` stops at the point |
| Vnpay.ReceivedPointedText | Ecom_backend/src/routes/vnpay.routes.js:130-147 | such a text reaches the handlers as it was sent |
| Vnpay.ResponseMessage | Ecom_backend/src/routes/vnpay.routes.js:291-309 | a listed code gives its text, every other code (or none) gives `Giao dịch thất bại` |
| Vnpay.VnpayReturn | Ecom_backend/src/routes/vnpay.routes.js:78-120 | the return handler's page is `Return`; it has no database to touch |
| Vnpay.ReturnAsWritten | Ecom_backend/src/routes/vnpay.routes.js:78-120 | as written, a callback without a reference ends in the TypeError of `split` on undefined (line 92); any other gives a page that names an order and redirects to `FRONTEND_PAYMENT_REDIRECT_URL` or `/` |
| Vnpay.Return | Ecom_backend/src/routes/vnpay.routes.js:78-120 | always a redirect to the configured base (line 94); the status is `success` or `failed`, and `success` only with response code `00` and that code's message (lines 105-109) |
| Vnpay.ReturnReport | Ecom_backend/src/routes/vnpay.routes.js:105-114 | status `success` iff the checksum matches and the response code is `00`; a bad checksum gives `Checksum không hợp lệ` |
| Vnpay.ReturnOrderId | Ecom_backend/src/routes/vnpay.routes.js:92 | the page names an order iff the callback has a transaction reference |
| Vnpay.FormEncodeIsCode | Ecom_backend/src/routes/vnpay.routes.js:283-286 | the form encoding is `00` exactly for `00`, so the handlers compare the code the gateway sent |
| Vnpay.FormCodeChars | Ecom_backend/src/routes/vnpay.routes.js:283-286 | only `00` form-encodes to `00` |
| Vnpay.FormCharIsDigit | Ecom_backend/src/routes/vnpay.routes.js:283-286 | an encoding that starts with a digit comes from a string that starts with it |
| Vnpay.ReturnAsWrittenThrows | Ecom_backend/src/routes/vnpay.routes.js:92 | as written, a callback without `vnp_TxnRef` makes the split throw |
| Vnpay.ReturnCorrectionAgrees | Ecom_backend/src/routes/vnpay.routes.js:92 | with a reference, the handler as written and the corrected one give the same page |
| Vnpay.ClearCartsOf | Ecom_backend/src/routes/vnpay.routes.js:242-245 | exactly the items of the buyer's carts are deleted, the rest unchanged |
| Vnpay.VnpayIpn | Ecom_backend/src/routes/vnpay.routes.js:123-265 | the method's reply and new tables are those of `Ipn` |
| Vnpay.SettleNotice | Ecom_backend/src/routes/vnpay.routes.js:175-260 | the `try` block's reply and new tables are those of `Settle` |
| Vnpay.Screen | Ecom_backend/src/routes/vnpay.routes.js:130-173 | the checks before the `try` admit a notice only when its checksum matches |
| Vnpay.Screened | Ecom_backend/src/routes/vnpay.routes.js:143-173 | an admitted notice passed the checksum, has an amount and a reference whose order id `parseInt` reads as the notice's; a rejection is `01` (missing parameters or unreadable order id) or `97` |
| Vnpay.Settle | Ecom_backend/src/routes/vnpay.routes.js:175-260 | the `try` block writes at most the orders and the cart items, and keeps the set of orders |
| Vnpay.Ipn | Ecom_backend/src/routes/vnpay.routes.js:123-265 | the same frame for the whole handler, and any change needs a matching checksum |
| Vnpay.IpnMissingBeforeChecksum | Ecom_backend/src/routes/vnpay.routes.js:152-157 | a missing reference, response code or amount gives `01` before the hash is looked at, with nothing written |
| Vnpay.ScreenedMissing | Ecom_backend/src/routes/vnpay.routes.js:152-157 | on the sorted parameters, any of the three missing is rejected with `01` |
| Vnpay.ScreenMissing | Ecom_backend/src/routes/vnpay.routes.js:143-157 | a callback that lacks one of the three parameters is rejected with `01`, whatever its hash |
| Vnpay.IpnRejectsBadChecksum | Ecom_backend/src/routes/vnpay.routes.js:152-173 | a bad hash is answered `01` (parameters) or `97`, and changes nothing |
| Vnpay.IpnWritesOnlyWhenPayable | Ecom_backend/src/routes/vnpay.routes.js:173-232 | the tables change only for a checked notice of an existing order with a readable total equal to the amount that is still pending or payment_failed |
| Vnpay.IpnSettlesPayable | Ecom_backend/src/routes/vnpay.routes.js:219-256 | such a notice sets `paid` iff response code and transaction status are both `00`, else `payment_failed`, and deletes the buyer's cart items exactly on `paid`; answer `00` |
| Vnpay.IpnReplayIsConfirmed | Ecom_backend/src/routes/vnpay.routes.js:203-209 | a notice replayed after the order became `paid` is answered `00` and changes nothing |
| Vnpay.SettleReplay | Ecom_backend/src/routes/vnpay.routes.js:203-209 | the same on the `try` block |
| Vnpay.SettledPaid | Ecom_backend/src/routes/vnpay.routes.js:176-232 | an order the `try` block wrote as `paid` passed every check before the update: the lookup and update ran, the total was readable and matched the amount |
| Vnpay.PayableNotPaid | Ecom_backend/src/routes/vnpay.routes.js:203 | a `pending` or `payment_failed` order is not `paid` |
| Vnpay.IpnClearFaultIsNotRetried | Ecom_backend/src/routes/vnpay.routes.js:232-259 | when deleting the cart fails the answer is `99` after the status is already `paid`, the cart stays, and a retry is answered `00` without clearing it |
| Vnpay.IpnOfAdmitted | Ecom_backend/src/routes/vnpay.routes.js:173-175 | a notice past the checks is answered by the `try` block |
| Vnpay.SettleClearFault | Ecom_backend/src/routes/vnpay.routes.js:232-259 | the same on the `try` block |
| Vnpay.ScreenedLadder | Ecom_backend/src/routes/vnpay.routes.js:151-173 | the checks before the `try` in code order: missing parameters `01`, an unreadable order id `01`, a bad checksum `97`; only a notice past all three reaches the database |
| Vnpay.SettleLadder | Ecom_backend/src/routes/vnpay.routes.js:176-217 | the `try` block's rejections in code order, none writing: failed lookup `99`, no order `01`, unreadable total `99`, other amount `04`, not payable `00` when paid and `02` otherwise |
| KeySort.BelowIrreflexive | Ecom_backend/src/routes/vnpay.routes.js:278 | the code-unit order `str.sort()` uses puts no string before itself |
| KeySort.BelowTransitive | Ecom_backend/src/routes/vnpay.routes.js:278 | that order is transitive |
| KeySort.BelowTotal | Ecom_backend/src/routes/vnpay.routes.js:278 | two different strings are ordered one way or the other |
| KeySort.NotAboveAntisymmetric | Ecom_backend/src/routes/vnpay.routes.js:278 | two strings each at or before the other are equal |
| KeySort.InsertSorted | Ecom_backend/src/routes/vnpay.routes.js:278 | inserting into a sorted sequence keeps it sorted and adds exactly the one string |
| KeySort.SortStrings | Ecom_backend/src/routes/vnpay.routes.js:278 | the reference sort is sorted and a permutation of its input |
| KeySort.SortedUnique | Ecom_backend/src/routes/vnpay.routes.js:278 | two sorted arrangements of the same strings are equal, so any correct sort gives the reference's result |
| KeySort.SortInPlace | Ecom_backend/src/routes/vnpay.routes.js:278 | `str.sort()` on the array: sorted afterwards and a permutation of what it held |
| KeySort.Sink | Ecom_backend/src/routes/vnpay.routes.js:278 | one insertion step extends the sorted prefix by one element, as a permutation |
| KeySort.SunkInPlace | Ecom_backend/src/routes/vnpay.routes.js:278 | where the sinking stops the prefix is in order |
| KeySort.SinkStep | Ecom_backend/src/routes/vnpay.routes.js:278 | one swap of the sinking loop keeps its invariant |
| Uri.Percent | Ecom_backend/src/routes/vnpay.routes.js:275 | the escape of a byte is `%` and two hex digits whose value is the byte |
| Uri.Encode | Ecom_backend/src/routes/vnpay.routes.js:275 | the encoding is never shorter than the text, and text made only of unreserved characters is left as it is |
| Uri.Decode | Ecom_backend/src/routes/vnpay.routes.js:281 | a decoded text is never longer than its input, and text without `%` decodes to itself |
| Uri.DecodeOneOfEncodeChar | Ecom_backend/src/routes/vnpay.routes.js:281 | decoding the encoding of one character gives it back and consumes exactly that encoding |
| Uri.DecodeEncode | Ecom_backend/src/routes/vnpay.routes.js:275-281 | `decodeURIComponent` undoes `encodeURIComponent` |
| Uri.EncodeInjective | Ecom_backend/src/routes/vnpay.routes.js:275 | distinct keys have distinct encodings |
| Uri.EncodeIsAscii | Ecom_backend/src/routes/vnpay.routes.js:275 | `encodeURIComponent` writes only ASCII characters |
| Uri.FormEncodeIsByChar | Ecom_backend/src/routes/vnpay.routes.js:283-286 | replacing every `%20` by `+` after encoding is the same as writing each space as `+` and every other character as encoded |
| Uri.FormEncodeOfUnreserved | Ecom_backend/src/routes/vnpay.routes.js:283-286 | a value of unreserved characters is emitted unchanged |
| Uri.FormEncode | Ecom_backend/src/routes/vnpay.routes.js:283-286 | the form encoding of any value is ASCII |
| Uri.ReplaceKeepsAscii | Ecom_backend/src/routes/vnpay.routes.js:283-286 | turning `%20` into `+` keeps ASCII text ASCII |
| Pricing.ModelFinalPrice | Ecom_backend/src/models/product.model.js:52-58 | a null, zero or negative discount leaves the price unchanged |
| Pricing.ModelFinalPriceInRange | Ecom_backend/src/models/product.model.js:56-57 | a price that is not negative and a discount in (0, 100] give a result in [0, price] |
| Pricing.ModelFinalPriceAboveHundred | Ecom_backend/src/models/product.model.js:53-57 | there is no upper bound on the discount: above 100 the server's price goes negative |
| Pricing.ModelFinalPriceMonotone | Ecom_backend/src/models/product.model.js:52-58 | a larger discount never gives a higher price |
| Pricing.CartAgreesWithModel | Ecom_backend/src/services/cart.service.js:35-37 | the cart's inline rule (`discount \|\| 0`, then `discount > 0 ? … : price`) agrees with `calculateFinalPrice` for every price and discount |
| Pricing.CartFinalPrice | Ecom_backend/src/services/cart.service.js:35-37 | the cart's inline price equals `calculateFinalPrice` of the same price and discount |
| Pricing.AdminFinalPrice | Ecom_backend/public/admin/js/products.js:201-209 | a falsy price (absent, NaN or 0) gives 0 |
| Pricing.AdminAgreesWithModel | Ecom_backend/public/admin/js/products.js:203-208 | for a non-zero price the admin page and the server agree exactly when the discount is at most 100; above 100 the admin page keeps the price and the server does not |
| Pricing.AdminFinalPriceInRange | Ecom_backend/public/admin/js/products.js:201-209 | for a price that is not negative the admin page shows a number in [0, price], whatever the discount |
| ProductModel.RowOfArgument | Ecom_backend/src/models/product.model.js:6-41 | giving every column inserts exactly that row, so every row can be created |
| ProductModel.CreateDefaults | Ecom_backend/src/models/product.model.js:9-15 | left-out description, category, discount, rating and image become null and the status `active` |
| ProductModel.Create | Ecom_backend/src/models/product.model.js:6-41 | `create` inserts the defaulted row under the next id and changes nothing else |
| ProductModel.FindMany | Ecom_backend/src/models/base.model.js:15-40 | at most `limit` product ids, ascending, a prefix of all of them, and all of them when fewer than `limit` |
| ProductModel.FindManyWithFinalPriceKeepsRows | Ecom_backend/src/models/product.model.js:61-70 | the same rows as `findMany`, same length and order, unchanged but for the final price, which lies in [0, price] for a price that is not negative and a discount of at most 100 |
| ProductModel.FindManyWithFinalPrice | Ecom_backend/src/models/product.model.js:61-70 | at most `limit` rows, each the table's row under its id, with ids ascending |
| ProductService.Format | Ecom_backend/src/services/product.service.js:8-25 | the row is kept, the category id is shown exactly when it is truthy, and the final price is `calculateFinalPrice(price, discount)` |
| ProductService.FormatReadsBack | Ecom_backend/src/services/product.service.js:18-21 | the id, store id and category id strings read back with `parseInt` as the numbers they came from |
| ProductService.FormatAll | Ecom_backend/src/services/product.service.js:27-31 | the formatter over every row, same length and order |
| ProductService.FoundProduct | Ecom_backend/src/models/base.model.js:41-54 | `findById` finds a row exactly for an id `parseInt` reads and the table holds |
| ProductService.Detail | Ecom_backend/src/services/product.service.js:58-62 | null exactly when no row is found; otherwise the formatted row of that id |
| ProductService.ListByStoreAsWrittenListsOtherStores | Ecom_backend/src/models/product.model.js:46-47 | as written the `where` is dropped by `findMany` (base.model.js:15-28), so the store list shows products of other stores |
| ProductService.FindWhere | Ecom_backend/src/models/product.model.js:46-49 | the intended filtered query: at most the limit, ascending, only matching rows, all of them when fewer than the limit |
| ProductService.ListByStoreIsTheStore | Ecom_backend/src/services/product.service.js:44-47 | the store list as meant holds only products of the store, and all of them below 100 |
| ProductService.ListByStoreOnlyStore | Ecom_backend/src/services/product.service.js:44-47 | every product listed is of the store |
| ProductService.ListByStoreHas | Ecom_backend/src/services/product.service.js:44-47 | below 100, every product of the store is listed |
| ProductService.ListByCategoryIsTheCategory | Ecom_backend/src/services/product.service.js:51-54 | the category list as meant holds only products of the category, each shown with its category id |
| ProductService.Created | Ecom_backend/src/services/product.service.js:65-92 | a missing store, then a user neither ADMIN nor owner, then a discount outside [0, 100] throw, each iff its condition, with nothing written; otherwise exactly the new row is inserted |
| ProductService.CreateKeepsStoresExisting | Ecom_backend/src/services/product.service.js:65-92 | creating never gives a product a missing store or a discount outside [0, 100] |
| ProductService.Create | Ecom_backend/src/services/product.service.js:65-92 | the method's result and new tables are those of `Created` |
| ProductService.Patched | Ecom_backend/src/models/base.model.js:69-102 | an empty patch changes nothing; the named columns take the patch's values |
| ProductService.Updated | Ecom_backend/src/services/product.service.js:95-125 | a missing product, then a user who may not change it, then a discount outside [0, 100] throw, each iff its condition, with nothing written; an empty patch writes nothing; otherwise only that row changes |
| ProductService.UpdateTouchesOneRow | Ecom_backend/src/services/product.service.js:123 | every other product, and every other table, stays as it was |
| ProductService.Update | Ecom_backend/src/services/product.service.js:95-125 | the method's result and new tables are those of `Updated` |
| ProductService.Removed | Ecom_backend/src/services/product.service.js:128-167 | a missing product, then a user who may not delete it, throw with nothing written; an id text PostgreSQL cannot read as an integer is refused by the cart-item query with nothing written; otherwise the cart items referring to it are deleted, and then the product |
| ProductService.RemoveCascades | Ecom_backend/src/services/product.service.js:142-166 | afterwards the product is gone, no cart item refers to it, every other cart item stays, and "every cart item has its product" is kept |
| ProductService.Remove | Ecom_backend/src/services/product.service.js:128-167 | the method's result and new tables are those of `Removed` |
| ProductService.IdSet | Ecom_backend/src/services/product.service.js:149-155 | the ids of the selected rows, as a set |
| ProductService.DeleteCartItems | Ecom_backend/src/services/product.service.js:151-155 | the deletion loop removes exactly the selected cart items |
| ProductService.SelectedAreAll | Ecom_backend/src/services/product.service.js:145-155 | deleting the selected ids deletes exactly the rows that refer to the product |
| ProductService.List | Ecom_backend/src/services/product.service.js:37-40 | at most 100 entries, each formatting a product row of the table |
| ProductService.ListByStoreAsWritten | Ecom_backend/src/models/product.model.js:46-47 | as written: at most 100 entries, each formatting a product row of the table, of any store |
| ProductService.ListByCategoryAsWritten | Ecom_backend/src/models/product.model.js:48-49 | as written: at most 100 entries, each formatting a product row of the table, of any category |
| ProductService.ListByStore | Ecom_backend/src/services/product.service.js:44-47 | corrected: at most 100 entries, each formatting a product row of the table |
| ProductService.ListByCategory | Ecom_backend/src/services/product.service.js:51-54 | corrected: at most 100 entries, each formatting a product row of the table |
| ProductService.Cascade | Ecom_backend/src/services/product.service.js:142-166 | after the cascade the product is gone, no cart item refers to it, every other cart item is kept, and cart items still resolve to products |
| ProductService.RemoveRefusesLooseId | Ecom_backend/src/services/product.service.js:145-148 | an id such as `12abc` that `findById` reads as an existing product is refused by PostgreSQL in the cart-item query, and nothing is written |
| ProductService.LooseId | Ecom_backend/src/models/base.model.js:41-52 | `parseInt` reads the leading digits of `12abc` while PostgreSQL refuses the text as an integer |
| CategoryService.Format | Ecom_backend/src/services/category.service.js:4-13 | the parent id is shown exactly when it is truthy; name (null when the column is) and image are kept |
| CategoryService.FormatReadsBack | Ecom_backend/src/services/category.service.js:8-11 | the id and parent id strings read back with `parseInt` as the numbers they came from |
| CategoryService.FormatKeepsIdsApart | Ecom_backend/src/services/category.service.js:8 | different ids give different texts |
| CategoryService.FindMany | Ecom_backend/src/models/base.model.js:15-40 | `findMany({})` on categories: rows of the table in ascending id order |
| CategoryService.List | Ecom_backend/src/services/category.service.js:22-25 | every listed row formatted, same length and order |
| CategoryService.ListIdsUnique | Ecom_backend/src/services/category.service.js:22-25 | the listed categories have pairwise different ids |
| CategoryService.Found | Ecom_backend/src/models/base.model.js:41-54 | a row is found exactly for an id `parseInt` reads and the table holds |
| CategoryService.Detail | Ecom_backend/src/services/category.service.js:34-40 | throws `Không tìm thấy danh mục` exactly when no row is found; otherwise the formatted row of that id |
| CategoryService.RowOf | Ecom_backend/src/services/category.service.js:49-53 | the name is stored as given; `parent_id` and `image_url` default to null when falsy |
| CategoryService.Created | Ecom_backend/src/services/category.service.js:43-55 | fails iff the user is not ADMIN, with nothing written; otherwise exactly the new row is inserted under the next id and returned formatted |
| CategoryService.Create | Ecom_backend/src/services/category.service.js:43-55 | the method's result and new tables are those of `Created` |
| CategoryService.Updated | Ecom_backend/src/services/category.service.js:58-76 | a non-ADMIN is refused, then a missing category throws `Không tìm thấy danh mục`, both with nothing written; a patch without a name binds `name` as NULL, which a NOT NULL column (`nameNotNull`) refuses with the PostgreSQL not-null error and nothing written; otherwise the three columns are replaced, an omitted name by null |
| CategoryService.MessagesDiffer | Ecom_backend/src/services/category.service.js:58-93 | the admin-only refusals, the not-found message and the not-null error are pairwise different where the same operation can give two of them |
| CategoryService.UpdateClearsOmittedFields | Ecom_backend/src/services/category.service.js:70-74 | a patch without parent id or image takes them away from the category; a patch without a name either fails on a NOT NULL column with nothing written or leaves the name null |
| CategoryService.Update | Ecom_backend/src/services/category.service.js:58-76 | the method's result and new tables are those of `Updated` |
| CategoryService.Removed | Ecom_backend/src/services/category.service.js:79-93 | a non-ADMIN is refused, then a missing category throws, both with nothing written; otherwise just that row goes |
| CategoryService.Remove | Ecom_backend/src/services/category.service.js:79-93 | the method's result and new tables are those of `Removed` |
| CategoryService.NonAdminBeforeLookup | Ecom_backend/src/services/category.service.js:59-83 | a non-ADMIN gets the same answer whatever the tables hold and whatever the patch: the check comes before any lookup |
| CategoryService.RootIds | Ecom_backend/src/services/category.service.js:119-121 | exactly the categories without a truthy parent, in input order |
| CategoryService.ChildIds | Ecom_backend/src/services/category.service.js:115-118 | exactly the categories whose parent is p, in input order |
| CategoryService.LastWithId | Ecom_backend/src/services/category.service.js:109-111 | `categoryMap[x]` holds the last category with id x, present iff some category has it |
| CategoryService.BuildCategoryTree | Ecom_backend/src/services/category.service.js:104-125 | the roots are `RootIds`; every known id has a node with the children `ChildIds` |
| CategoryService.MakeNodes | Ecom_backend/src/services/category.service.js:109-111 | the first loop makes one childless node per id |
| CategoryService.FileUnderParents | Ecom_backend/src/services/category.service.js:114-122 | the second loop: roots in input order, each child appended to its parent's node when the parent is in the map |
| CategoryService.FileStep | Ecom_backend/src/services/category.service.js:114-122 | one step of the second loop keeps its invariant |
| CategoryService.RootStep | Ecom_backend/src/services/category.service.js:119-121 | one more category adds its id to the roots exactly when it has no parent |
| CategoryService.ChildStep | Ecom_backend/src/services/category.service.js:115-118 | one more category adds its id to its parent's children only |
| CategoryService.LastStep | Ecom_backend/src/services/category.service.js:110 | a later category with the same id replaces the map entry |
| CategoryService.KnownStep | Ecom_backend/src/services/category.service.js:110 | one more category adds its id to the known ids |
| CategoryService.TreePlacement | Ecom_backend/src/services/category.service.js:114-122 | a category is a root iff it has no parent and a child of p iff its parent is p; one whose parent is absent is placed nowhere |
| CategoryService.RootIdsUnique | Ecom_backend/src/services/category.service.js:119-121 | with unique ids no root is pushed twice |
| CategoryService.ChildIdsUnique | Ecom_backend/src/services/category.service.js:116-118 | with unique ids no child is pushed twice under one parent |
| CategoryService.GetTree | Ecom_backend/src/services/category.service.js:96-100 | `getTree` files the formatted list as `BuildCategoryTree` does |
| CategoryAdmin.BuildCategoryHierarchy | Ecom_backend/public/admin/js/categories.js:92-123 | for categories with pairwise different ids the method returns `Hierarchy`: the pre-order walk from the roots, children one level deeper |
| CategoryAdmin.FlattenTree | Ecom_backend/public/admin/js/categories.js:112-119 | `flattenTree` appends the walk over the given nodes to what `result` held |
| CategoryAdmin.FlattenOne | Ecom_backend/public/admin/js/categories.js:113-118 | one callback pushes the category's entry and then its children's subtrees one level deeper |
| CategoryAdmin.NodeOf | Ecom_backend/public/admin/js/categories.js:97-109 | the map node of a category with a parent chain carries that category and its children, themselves chained one level deeper |
| CategoryAdmin.WalkSnoc | Ecom_backend/public/admin/js/categories.js:113 | walking one more sibling appends its subtree |
| CategoryAdmin.SiblingAppended | Ecom_backend/public/admin/js/categories.js:113-118 | the `forEach` step over the k-th sibling |
| CategoryAdmin.VisitOf | Ecom_backend/public/admin/js/categories.js:114-117 | a listed category below the depth bound: its entry, then its children's walk |
| CategoryAdmin.Chained | Ecom_backend/public/admin/js/categories.js:104-108 | a category with a parent chain is in the list and its depth is less than the number of categories |
| CategoryAdmin.DistinctBelow | Ecom_backend/public/admin/js/categories.js:112-119 | pairwise different indices below n are at most n, which bounds every depth |
| CategoryAdmin.ChainExtends | Ecom_backend/public/admin/js/categories.js:106-107 | a child put in front of its parent's chain gives the child's chain |
| CategoryAdmin.ChildrenHaveChains | Ecom_backend/public/admin/js/categories.js:115-116 | the children of a category at depth n are at depth n + 1 |
| CategoryAdmin.RootsHaveChains | Ecom_backend/public/admin/js/categories.js:104-121 | the roots are at depth 0 |
| CategoryAdmin.ChainsAgree | Ecom_backend/public/admin/js/categories.js:104-108 | with unique ids a category has a single parent chain |
| CategoryAdmin.DepthUnique | Ecom_backend/public/admin/js/categories.js:114 | no category sits at two depths |
| CategoryAdmin.HierarchyLevelsAreDepths | Ecom_backend/public/admin/js/categories.js:114 | every entry is an input category whose level is its depth |
| CategoryAdmin.Hierarchy | Ecom_backend/public/admin/js/categories.js:92-123 | every entry is a category of the list, at a level below the number of categories |
| CategoryAdmin.WalkBounded | Ecom_backend/public/admin/js/categories.js:112-119 | a walk started at some level lists only categories of the list, at that level or deeper and below the number of categories |
| CategoryAdmin.VisitDescends | Ecom_backend/public/admin/js/categories.js:113-118 | an entry of a subtree descends from the subtree's root |
| CategoryAdmin.HierarchyComplete | Ecom_backend/public/admin/js/categories.js:103-121 | every category whose parents lead up to a root is listed at its depth |
| CategoryAdmin.UnknownParentOmitted | Ecom_backend/public/admin/js/categories.js:106 | a category whose parent id names no category is never listed, and neither is anything below it |
| CategoryAdmin.CycleOmitted | Ecom_backend/public/admin/js/categories.js:103-109 | a category on a parent cycle has no chain to a root and is never listed |
| CategoryAdmin.OnCycle | Ecom_backend/public/admin/js/categories.js:106-107 | parent links from a category on a cycle stay on the cycle |
| CategoryAdmin.WalkOnce | Ecom_backend/public/admin/js/categories.js:112-119 | a walk from siblings with different ids lists each category at most once |
| CategoryAdmin.VisitOnce | Ecom_backend/public/admin/js/categories.js:113-118 | a subtree lists each category at most once |
| CategoryAdmin.HierarchyOnce | Ecom_backend/public/admin/js/categories.js:92-123 | each category is listed at most once, so the list is no longer than the input |
| CategoryAdmin.FindById | Ecom_backend/public/admin/js/categories.js:127 | `find`: present iff some category has the id, and then the first such |
| CategoryAdmin.ParentCategoryName | Ecom_backend/public/admin/js/categories.js:125-131 | the root label without a parent, the first match's name (null when that name is null), or the not-found label |
| AdminProducts.TruncateText | Ecom_backend/public/admin/js/products.js:26-30 | the N/A placeholder for a falsy text, a short text as it is, otherwise its first `maxLength` characters and "..." |
| AdminProducts.TruncateKeepsStart | Ecom_backend/public/admin/js/products.js:26-30 | the shown text is never empty, at most three longer than `maxLength`, and begins with as much of the text as fits |
| AdminProducts.TruncateIdempotent | Ecom_backend/public/admin/js/products.js:28-29 | truncating the shown text again at the same length changes nothing |
| AdminProducts.StatusClass | Ecom_backend/public/admin/js/products.js:226-235 | green exactly for "active", grey for everything else |
| AdminProducts.StatusText | Ecom_backend/public/admin/js/products.js:237-246 | fixed texts for the two known statuses, any other status as it is, "N/A" for a missing or empty one |
| AdminProducts.StatusTextTellsApart | Ecom_backend/public/admin/js/products.js:237-246 | readable statuses that show the same text are equal; missing, empty and "N/A" all show "N/A" |
| AdminProducts.StatusClassMatchesText | Ecom_backend/public/admin/js/products.js:226-246 | the green button goes with the active text only |
| AdminProducts.Fraction | Ecom_backend/public/admin/js/products.js:360 | digits after the point read a value in [0, 1) |
| AdminProducts.ParseFloat | Ecom_backend/public/admin/js/products.js:360-362 | `parseFloat` gives a number or NaN, never nothing |
| AdminProducts.ParseUnsigned | Ecom_backend/public/admin/js/products.js:360-362 | a number read without a sign is not negative |
| Text.LeadingDigitsStops | Ecom_backend/public/admin/js/products.js:360 | the digit run of digits followed by a non-digit is those digits |
| AdminProducts.ParseFloatUnsigned | Ecom_backend/public/admin/js/products.js:360 | text starting with a digit or a point has no sign |
| AdminProducts.ParseFloatMinus | Ecom_backend/public/admin/js/products.js:360 | a leading minus negates the number after it |
| AdminProducts.ParseUnsignedOfDigits | Ecom_backend/public/admin/js/products.js:360 | a run of digits is read as its decimal value |
| AdminProducts.ParseFloatOfNatToString | Ecom_backend/public/admin/js/products.js:360 | the decimal form of n reads n, and with a minus sign -n |
| AdminProducts.ParseFloatNegated | Ecom_backend/public/admin/js/products.js:360 | a minus in front of an unsigned number reads its negation |
| AdminProducts.ParseFloatOfDecimal | Ecom_backend/public/admin/js/products.js:360-362 | `n.ds` reads n plus the fraction of ds |
| AdminProducts.DecimalRead | Ecom_backend/public/admin/js/products.js:360 | whole digits, point and fraction digits read as one number |
| AdminProducts.FractionAfterPoint | Ecom_backend/public/admin/js/products.js:360 | the digits after the point are read as the fraction |
| AdminProducts.ParseFloatWithoutNumber | Ecom_backend/public/admin/js/products.js:360 | text that does not start with a digit, a sign or a point reads NaN |
| AdminProducts.Field | Ecom_backend/public/admin/js/products.js:356-369 | `formData.get` gives a value exactly for a field the form has |
| AdminProducts.OrNull | Ecom_backend/public/admin/js/products.js:359-368 | `v \|\| null` is null exactly for a falsy value, and v otherwise |
| AdminProducts.NumberField | Ecom_backend/public/admin/js/products.js:360 | `parseFloat(null)` is NaN |
| AdminProducts.Checks | Ecom_backend/public/admin/js/products.js:373-401 | the four checks of the ladder, in order: a title of at least two UTF-16 code units, a chosen store, a finite price that is not negative, and a missing discount or one in [0, 100] |
| AdminProducts.OneCharacterTitle | Ecom_backend/public/admin/js/products.js:373 | a one-character title passes the length check exactly when the character lies outside the Basic Multilingual Plane, since JavaScript counts it as two units |
| AdminProducts.MessagesDiffer | Ecom_backend/public/admin/js/products.js:374-397 | the four alert texts are pairwise different |
| AdminProducts.FirstFailingCheckWins | Ecom_backend/public/admin/js/products.js:373-401 | the form passes iff every check does, and check i's alert shows iff check i fails and all before it pass |
| AdminProducts.ProductDataOf | Ecom_backend/public/admin/js/products.js:357-370 | each field of `productData` from the form, with `\|\| null`, `parseFloat` and the discount's null when empty |
| AdminProducts.AcceptedFormPricesSafely | Ecom_backend/public/admin/js/products.js:373-401 | an accepted form has a title, a store, a finite price that is not negative and a discount in [0, 100] or none, and the page's final price lies between 0 and the price |
| AdminProducts.WholePriceAccepted | Ecom_backend/public/admin/js/products.js:385 | a price written as a natural number passes the price check |
| AdminProducts.TextPriceRejected | Ecom_backend/public/admin/js/products.js:385 | a price that does not start with a number is rejected |
| AdminProducts.ProductFormPage.constructor | Ecom_backend/public/admin/js/products.js:350-353 | a page with the enabled save button and no alerts |
| AdminProducts.ProductFormPage.Reject | Ecom_backend/public/admin/js/products.js:374-377 | one error alert appended, button enabled with its save label |
| AdminProducts.ProductFormPage.Submit | Ecom_backend/public/admin/js/products.js:344-401 | the first failing check's alert is appended and nothing is sent; when all pass, `productData` goes on with the button disabled and saving |
| BaseModel.SafeOrderClause | Ecom_backend/src/models/base.model.js:18-26 | the caller's clause exactly when it starts, upper-cased, with `ORDER BY`; the default `ORDER BY id ASC` otherwise and when omitted |
| BaseModel.FindMany | Ecom_backend/src/models/base.model.js:15-30 | the only bound parameter is the limit (100 by default), and the clause spliced in is the safe one |
| BaseModel.FindById | Ecom_backend/src/models/base.model.js:41-52 | no query (null) exactly for an id `parseInt` cannot read; otherwise `SELECT * FROM t WHERE id=$1` with the read id as its one parameter |
| BaseModel.DeleteById | Ecom_backend/src/models/base.model.js:103-114 | throws `ID không hợp lệ cho bảng <t>` exactly for an id `parseInt` cannot read, before any query; otherwise `DELETE FROM t WHERE id=$1` with the read id as its one parameter |
| BaseModel.PlaceholderList | Ecom_backend/src/models/base.model.js:57 | one placeholder per value, the i-th being `$(i+1)` |
| BaseModel.Insert | Ecom_backend/src/models/base.model.js:55-62 | the values are bound in order, as many placeholders as values |
| BaseModel.Items | Ecom_backend/src/models/base.model.js:81-130 | the i-th item is the i-th key, the separator and `$(i+1)`: with `=` the SET list of `updateById` (line 81), with ` = ` the conditions of `findOne` (lines 128-130) |
| BaseModel.UpdateById | Ecom_backend/src/models/base.model.js:69-93 | an empty patch is a `findById`; a non-numeric id throws; otherwise `UPDATE t SET k1=$1, …, kn=$n[, updated_at=NOW()] WHERE id=$(n+1) RETURNING *`, the `updated_at` item only for the tables that have the column, the patch values bound in key order and the read id last |
| BaseModel.Coerce | Ecom_backend/src/models/base.model.js:133-147 | `id` and `*_id` values that `parseInt` reads are bound as integers; every other value is passed as it is |
| BaseModel.KeysOf | Ecom_backend/src/models/base.model.js:70 | `Object.keys` of a patch: one key per entry, in entry order |
| BaseModel.FindOne | Ecom_backend/src/models/base.model.js:124-147 | null exactly when there is no condition; otherwise `SELECT * FROM t WHERE k1 = $1 AND … LIMIT 1` with one coerced parameter per condition, in order |
| BaseModel.PlaceholderInjective | Ecom_backend/src/models/base.model.js:57-81 | `$i` and `$j` differ for i != j |
| BaseModel.UpdateBindsInOrder | Ecom_backend/src/models/base.model.js:81-93 | the i-th SET item names the i-th key and the placeholder bound to its value, and the id's placeholder is none of them |
| BaseModel.FindOneBindsInOrder | Ecom_backend/src/models/base.model.js:124-147 | the i-th condition names the i-th key against `$(i+1)`, and that parameter is the i-th value, coerced |
| AuthController.MessagesDiffer | Ecom_backend/src/controllers/auth.controller.js:63-68 | the three code refusals differ from each other, and so do the two login refusals |
| AuthController.TokenProblem | Ecom_backend/src/controllers/auth.controller.js:63-68 | a token passes iff unused, not expired and the hash is the code's; otherwise used, then expired, then wrong code, each iff its case |
| AuthController.CodeCheck | Ecom_backend/src/models/password_reset_token.model.js:8-12 | the missing-code message without a latest token of the purpose; otherwise it passes iff the latest token has no problem, and refuses with that problem |
| AuthController.DefaultRole | Ecom_backend/src/controllers/auth.controller.js:32 | `role \|\| "USER"`: the given role unless it is missing or empty |
| AuthController.Registered | Ecom_backend/src/controllers/auth.controller.js:20-47 | 400 for a refused body and 409 for a known e-mail, both writing nothing; otherwise a pending user, a verify token for the code under the next ids, and the code mailed |
| AuthController.RegisterCreatesPendingUser | Ecom_backend/src/controllers/auth.controller.js:28-34 | after registering, the e-mail finds the new pending user with the asked or default role |
| AuthController.RegisterIssuesCode | Ecom_backend/src/controllers/auth.controller.js:35-43 | the new verify token is the user's latest and holds the hash of the mailed code |
| AuthController.InsertedUserFound | Ecom_backend/src/models/user.model.js:6-10 | a user inserted under a fresh id is found by an e-mail no earlier user has |
| AuthController.InsertedTokenLatest | Ecom_backend/src/models/password_reset_token.model.js:8-12 | a token inserted under the newest id is the latest of its user and purpose |
| AuthController.RegisterTwiceConflicts | Ecom_backend/src/controllers/auth.controller.js:25-26 | registering the same e-mail again answers 409 and writes nothing |
| AuthController.Register | Ecom_backend/src/controllers/auth.controller.js:20-47 | the method's reply, mail and new tables are those of `Registered` |
| AuthController.Activated | Ecom_backend/src/controllers/auth.controller.js:71-83 | the token marked used and the user made active, no other user or token touched |
| AuthController.Verified | Ecom_backend/src/controllers/auth.controller.js:49-86 | any answer other than success writes nothing |
| AuthController.VerifyEmailLadder | Ecom_backend/src/controllers/auth.controller.js:50-68 | 400 for a refused body, 404 for an unknown e-mail, then the code check's refusal, else success |
| AuthController.VerifyEmailActivates | Ecom_backend/src/controllers/auth.controller.js:71-83 | success marks the token used, activates the user, and gives a SELLER, and only a SELLER, a new active store named after them |
| AuthController.VerifyEmailOnce | Ecom_backend/src/controllers/auth.controller.js:63-71 | the same code sent again is refused as used and writes nothing |
| AuthController.VerifyEmail | Ecom_backend/src/controllers/auth.controller.js:49-86 | the method's reply and new tables are those of `Verified` |
| AuthController.LoggedIn | Ecom_backend/src/controllers/auth.controller.js:88-114 | 401 iff the e-mail is unknown or the password wrong, a token iff the account is also active, 403 otherwise; the token signs the user's id and role |
| AuthController.LoginDoesNotTellWhy | Ecom_backend/src/controllers/auth.controller.js:94-99 | an unknown e-mail and a wrong password get the same reply |
| AuthController.Login | Ecom_backend/src/controllers/auth.controller.js:88-114 | the method's reply is `LoggedIn` of the tables |
| AuthController.VerifyEmailEnablesLogin | Ecom_backend/src/controllers/auth.controller.js:71-113 | after a verification the right password signs the user in |
| AuthController.RegisterVerifyLogin | Ecom_backend/src/controllers/auth.controller.js:20-114 | register, verify with the mailed code within ten minutes, then log in with the password: signed in with the new id and the role |
| AuthController.ResetCodeChecked | Ecom_backend/src/controllers/auth.controller.js:120-145 | 404 for an unknown e-mail, then the reset-code check's refusal, else the valid-code message; nothing written |
| AuthController.VerifyResetCode | Ecom_backend/src/controllers/auth.controller.js:120-145 | the method's reply is `ResetCodeChecked` of the tables |
| AuthController.Forgot | Ecom_backend/src/controllers/auth.controller.js:147-165 | the same 200 whether or not the e-mail exists; only for a known e-mail a reset token under the next id and a mail with the code |
| AuthController.ForgotIssuesLatestToken | Ecom_backend/src/controllers/auth.controller.js:153-162 | the new reset token is the user's latest, so the mailed code is the one the reset checks |
| AuthController.ForgotPassword | Ecom_backend/src/controllers/auth.controller.js:147-165 | the method's reply, mail and new tables are those of `Forgot` |
| AuthController.Reset | Ecom_backend/src/controllers/auth.controller.js:167-191 | 400 for an unknown e-mail, then the reset-code check's refusal, writing nothing; success marks the token used and sets the new hash |
| AuthController.ResetCodeCheckAgrees | Ecom_backend/src/controllers/auth.controller.js:132-185 | `verifyResetCode` accepts a code exactly when `resetPassword` would |
| AuthController.ResetOnce | Ecom_backend/src/controllers/auth.controller.js:180-189 | a reset code works once, and afterwards login succeeds only with the new password |
| AuthController.ResetPassword | Ecom_backend/src/controllers/auth.controller.js:167-191 | the method's reply and new tables are those of `Reset` |
| AuthController.ClaimsOf | Ecom_backend/src/controllers/auth.controller.js:13-17 | the token's subject is text that `parseInt` reads back as the user id, with or without a radix, and its role is the user's |
| AuthController.UserByEmail | Ecom_backend/src/models/user.model.js:6-10 | a found id is a user with that e-mail; nothing found means no user has it |
| AuthController.LatestToken | Ecom_backend/src/models/password_reset_token.model.js:8-12 | a found id is a token of that user and purpose, and no token of that user and purpose has a greater id |
| Authentication.BearerToken | Ecom_backend/src/middleware/authentication.js:5-8 | a token exactly for a header starting with `Bearer `, and then the header is that prefix followed by the token |
| Authentication.BearerTokenOfHeader | Ecom_backend/src/middleware/authentication.js:5-8 | `Bearer <token>` yields exactly that token |
| Authentication.Authenticated | Ecom_backend/src/middleware/authentication.js:3-22 | no token: 401 when required, else through with the user unchanged; a verified token sets the subject and role; a refused one is 401 when required, else through unchanged |
| Authentication.AuthenticationOutcomes | Ecom_backend/src/middleware/authentication.js:9-20 | an optional check never refuses; a required one passes exactly a non-empty verified bearer token and refuses with 401 |
| Authentication.EmptyBearerIsNoToken | Ecom_backend/src/middleware/authentication.js:9-11 | a header that is `Bearer ` alone counts as no token |
| Authentication.LoginTokenAuthenticates | Ecom_backend/src/controllers/auth.controller.js:13-17 | the token a login returns, sent back as a bearer header, sets `currentUser` to the user's id and role |
| Authentication.Request.constructor | Ecom_backend/src/middleware/authentication.js:3-4 | a request with its header and no `currentUser` |
| Authentication.Authenticate | Ecom_backend/src/middleware/authentication.js:3-22 | the decision and the new `currentUser` are those of `Authenticated` |
| Authentication.PrincipalOf | Ecom_backend/src/middleware/authentication.js:14 | the role is the payload's; there is an id only when there is a subject, read by `parseInt` with no radix; a subject of digits gives its decimal value |
| Authentication.DigitSubject | Ecom_backend/src/middleware/authentication.js:14 | `parseInt` with no radix of a subject made of digits is its decimal value |
| Authorization.MessagesDiffer | Ecom_backend/src/middleware/authorization.js:7-23 | the refusal messages are distinct |
| Authorization.ByRoles | Ecom_backend/src/middleware/authorization.js:4-12 | 401 iff no user; through iff the list is empty or holds the role; 403 otherwise |
| Authorization.ByRolesWidening | Ecom_backend/src/middleware/authorization.js:8-10 | more roles never turn away someone let through; an ADMIN not on the list is refused |
| Authorization.StoreOwnership | Ecom_backend/src/middleware/authorization.js:14-26 | 400 iff no store id; through iff ADMIN or owner of that store; the query throws iff a non-admin's store id or subject is not an integer; otherwise 403 |
| Authorization.AdminNeedsNoLookup | Ecom_backend/src/middleware/authorization.js:18 | an ADMIN's decision does not depend on the stores |
| Authorization.OwnerOfRouteStore | Ecom_backend/src/middleware/authorization.js:16-24 | for a store named in the route, its owner passes and any other non-admin gets 403 |
| Authorization.AnonymousNeverOwns | Ecom_backend/src/middleware/authorization.js:19-22 | without `currentUser` a non-admin never passes |
| Authorization.SelfOrAdmin | Ecom_backend/src/middleware/authorization.js:28-37 | 401 iff no user; through iff ADMIN or the id equals `parseInt` of the target read with no radix, so a `0x` target is hexadecimal; 403 otherwise |
| Authorization.SelfMatchesOwnId | Ecom_backend/src/middleware/authorization.js:30-35 | a user may act on their own id and on nobody else's |
| Authorization.HexTargetIsSelf | Ecom_backend/src/middleware/authorization.js:34 | a non-ADMIN user with id 16 is let through for the target `0x10`, which `parseInt` reads as sixteen |
| StoreService.MessagesDiffer | Ecom_backend/src/services/store.service.js:63-83 | the not-found message differs from both permission messages |
| StoreService.Format | Ecom_backend/src/services/store.service.js:4-13 | name and status kept as they are |
| StoreService.FormatReadsBack | Ecom_backend/src/services/store.service.js:9-11 | the id and owner id texts read back with `parseInt` as the numbers they came from |
| StoreService.FormatInjective | Ecom_backend/src/services/store.service.js:4-13 | two stores that format alike are the same row under the same id |
| StoreService.FormatAll | Ecom_backend/src/services/store.service.js:15-19 | the formatter over every row, in order |
| StoreService.FindMany | Ecom_backend/src/models/base.model.js:15-30 | at most 100 stores, in ascending id order, and every store when there are fewer |
| StoreService.ListOrderedAndComplete | Ecom_backend/src/services/store.service.js:24-27 | the list is in ascending id order and, with fewer than 100 stores, complete |
| StoreService.Reversed | Ecom_backend/src/models/store.model.js:20 | back to front, same elements |
| StoreService.ReversedSnoc | Ecom_backend/src/models/store.model.js:20 | reversing after one more element puts it first |
| StoreService.OwnedIds | Ecom_backend/src/models/store.model.js:18-24 | exactly the user's stores, newest first |
| StoreService.ListByOwner | Ecom_backend/src/services/store.service.js:31-34 | the user's stores newest first, formatted; a NaN owner id is refused |
| StoreService.FoundStore | Ecom_backend/src/models/base.model.js:41-54 | a store is found iff `parseInt` reads the id and a row has it |
| StoreService.Detail | Ecom_backend/src/services/store.service.js:38-41 | null iff no store is found; otherwise the formatted row of that id |
| StoreService.OwnerChoice | Ecom_backend/src/services/store.service.js:45-48 | an ADMIN's truthy `owner_id` is taken, anyone else's own id |
| StoreService.StatusOrDefault | Ecom_backend/src/services/store.service.js:54 | the given status unless missing or empty, then "active" |
| StoreService.Created | Ecom_backend/src/services/store.service.js:44-57 | one new row under the next id with the chosen owner, the name and the status or "active", returned formatted; an owner PostgreSQL refuses writes nothing |
| StoreService.CreateOwner | Ecom_backend/src/services/store.service.js:45-48 | a non-admin always owns the new store; an admin's numeric or decimal owner is taken; otherwise the admin owns it |
| StoreService.CreatedIsFound | Ecom_backend/src/services/store.service.js:38-57 | a created store is what `detail` finds under the id it is shown with |
| StoreService.CreatedIsNewest | Ecom_backend/src/services/store.service.js:31-57 | a created store heads its owner's list, ahead of what was there |
| StoreService.ListByOwnerAfterInsert | Ecom_backend/src/models/store.model.js:18-24 | a store inserted under the next id heads its owner's list |
| StoreService.FormatAllCons | Ecom_backend/src/services/store.service.js:18 | formatting a list with one more head formats that head first |
| StoreService.FormatAllAfterInsert | Ecom_backend/src/services/store.service.js:15-19 | an insert does not change how earlier rows format |
| StoreService.OwnedIdsAfterInsert | Ecom_backend/src/models/store.model.js:18-24 | a store under a fresh id goes to the head of its owner's ids |
| StoreService.Create | Ecom_backend/src/services/store.service.js:44-57 | the method's result and new tables are those of `Created` |
| StoreService.Patched | Ecom_backend/src/models/base.model.js:69-93 | the columns the patch names take its values and the others keep theirs |
| StoreService.Updated | Ecom_backend/src/services/store.service.js:60-73 | not found iff no store is found; no right iff found and neither ADMIN nor owner; both write nothing; otherwise the patched row is written and returned |
| StoreService.UpdateKeepsOwner | Ecom_backend/src/services/store.service.js:60-73 | a patch without `owner_id` keeps the owner, every other store and every other table |
| StoreService.Update | Ecom_backend/src/services/store.service.js:60-73 | the method's result and new tables are those of `Updated` |
| StoreService.Removed | Ecom_backend/src/services/store.service.js:76-87 | not found, then no right, both writing nothing; otherwise only that store goes |
| StoreService.RemoveIsFinal | Ecom_backend/src/services/store.service.js:76-87 | after a removal `detail` finds nothing, a second removal is not found, and no owner's list shows the store |
| StoreService.Remove | Ecom_backend/src/services/store.service.js:76-87 | the method's result and new tables are those of `Removed` |
| StoreService.List | Ecom_backend/src/services/store.service.js:24-27 | one formatted entry per store `findMany` returns, at most 100 |
| ErrorHandler.CodeValue | Ecom_backend/src/middleware/errorHandler.js:84 | how `err.code` compares with numbers: a number as it is, decimal digits as their value, anything else never in range |
| ErrorHandler.RuleReply | Ecom_backend/src/middleware/errorHandler.js:12-89 | rule i's status, error and message; only the validation rule carries details |
| ErrorHandler.DefaultReply | Ecom_backend/src/middleware/errorHandler.js:92-98 | `err.status \|\| 500`; the error's message and stack in development, the fixed message and no stack otherwise |
| ErrorHandler.FirstMatch | Ecom_backend/src/middleware/errorHandler.js:12-89 | the first rule from the given one on that applies: no earlier one does, and None iff none applies |
| ErrorHandler.HandleIsFirstMatch | Ecom_backend/src/middleware/errorHandler.js:1-99 | the reply is that of the first applicable rule in the table's order, or the default reply |
| ErrorHandler.FixedMessages | Ecom_backend/src/middleware/errorHandler.js:15-96 | the fixed texts hold every rule message and the fallback |
| ErrorHandler.ProductionHidesInternals | Ecom_backend/src/middleware/errorHandler.js:92-98 | outside development no stack and no text of the error is shown, and the status is a table status or the error's own |
| ErrorHandler.DevelopmentShowsUnknownErrors | Ecom_backend/src/middleware/errorHandler.js:96-97 | an error no rule knows shows its message and stack only in development |
| ErrorHandler.ServiceErrorIsInternal | Ecom_backend/src/middleware/errorHandler.js:69-98 | a plain `new Error(m)` from a service answers 500, with m shown only in development |
| ErrorHandler.ValidationComesFirst | Ecom_backend/src/middleware/errorHandler.js:12-18 | a validation error is answered as one, with its details, whatever else it matches |
| ErrorHandler.MailErrorCode | Ecom_backend/src/middleware/errorHandler.js:84-89 | a code from "400" to "499" is a mail failure with a response and falls to the default without one |
| ErrorHandler.NotFound | Ecom_backend/src/middleware/errorHandler.js:102-108 | 404 with the request's path and the missing-route message |
| ErrorHandler.NotFoundIsDistinct | Ecom_backend/src/middleware/errorHandler.js:94-108 | no reply of `errorHandler` equals the missing-route reply |
| ErrorHandler.Handle | Ecom_backend/src/middleware/errorHandler.js:1-99 | the reply never carries a path; it carries details only for a validation error, and then exactly `err.errors`; it carries a stack only in development, and then exactly `err.stack` |

## Left out

- Cryptography, randomness and time (HMAC-SHA512, sha256, bcrypt, JWT, `genCode`, the time-based order code, `moment`): parameters, never computed.
- The database server, the connection pool and transactions: tables are in-memory maps. Only the effect of `BEGIN`/`ROLLBACK` on the statements that run through the transaction client is modelled.
- Concurrency: there is a single sequential caller. The IPN read-then-write race and two concurrent first adds in `ensure` are not modelled.
- Floating point: amounts are exact reals. `Intl.NumberFormat`, `toFixed` and the exact float comparison of the IPN amount are not modelled.
- SQL ordering the database decides (`ORDER BY p.title`, `created_at`): modelled as id order, with `created_at` order taken as insertion order and ties in id order.
- `findByEmail` has no `ORDER BY`. The model returns the lowest id, which makes the same choice when e-mails are unique.
- JavaScript objects are key/value lists. `qs` parsing of the query string, prototype keys and non-ASCII key sorting (the sort compares UTF-16 units, the model compares characters) are not modelled.
- AdminProducts.ParseFloat: reads decimal text only, with no exponent and no `Infinity`.
- TruncateText: counts characters where `text.length` and `substr` count UTF-16 code units; a text with characters outside the Basic Multilingual Plane is cut at a different place, and `substr` may split a surrogate pair there.
- SafeOrderClause: upper-cases ASCII letters only, where JavaScript's `toUpperCase` is Unicode-wide, so a clause such as `order bẙ` (whose last letter upper-cases to `Y` and a combining ring) passes the source's test but gets the default here.
- Vnpay.PaymentUrl: `amount * 100` is exact real arithmetic, not a double product; for a fractional result the JavaScript number text is the parameter `show`, about which only the lemmas on fractional amounts assume anything (digits, a point, digits).
- Text.ParseInt: models `parseInt(s, 10)` for decimal text, and the calls without a radix (authorization.js:34, authentication.js:14) are Text.ParseIntNoRadix, which also reads a `0x` prefix as hexadecimal; lengths are counted in characters rather than UTF-16 units.
- CategoryService.Updated: the table definitions are not part of this model, so whether `categories.name` is NOT NULL is the parameter `nameNotNull` rather than a fact of the model.
- Database.PgInteger: PostgreSQL's integer input is modelled without surrounding white space, underscores, other bases or the 32/64-bit range.
- A non-numeric `discount_percentage` reaching the server-side price rules is not modelled. Discounts there are numbers or null.
- A NaN `buyer_id` in the IPN cart clear and a NULL store owner are not modelled. Foreign keys are not enforced on remove, except for the cart-item cascade the product service performs itself.
- The store patch values are integers and text as the columns need. The `updated_at` column is not modelled.
- `err.code` texts other than digit runs compare as NaN. That is exact for the codes the handler sees.
- Express behaviour when a middleware's promise is rejected: the ownership query failing is the outcome `QueryFails`, and what Express then sends is not modelled.
- The JWT payload's `role` is always present.
- `logout` only replies. E-mail sending failures are not modelled. The route validators are the boolean `valid`.
- The product image upload, the rest of the admin pages (rendering, fetch, `formatPrice`, `formatPercentage`, `getCategoryName`, `getStoreName`) and console logging are not part of this model.
- Category parent ids are None or non-empty text, as the server formats them. The admin page's `!cat.parent_id` would also take an empty-text parent id for a root, and that case is not modelled.
- CategoryAdmin.BuildCategoryHierarchy: proved for category lists with pairwise different ids, as the server sends them. The nodes' nested `children` field is not kept in the entries.
- `listMyOrders` and `listByStore` of the order service, the store controller and routes, and the admin list JOIN route are not part of this model.

## Findings

| source | as written | input that shows it | evidently intended | confidence | as-written member | corrected member |
|---|---|---|---|---|---|---|
| Ecom_backend/src/services/order.service.js:62-97 | the order and its items are inserted through `databasePool`, outside the transaction opened on `client`, so `ROLLBACK` undoes nothing | a cart with two rows whose second item insert fails: the call throws, yet the `pending` order and its first item stay | a failed creation leaves no order and no item behind | not executed | OrderService.CreatedAsWritten, OrderService.AsWrittenLeavesOrphanOrder | OrderService.Created, OrderService.CreateFromCart |
| Ecom_backend/src/routes/vnpay.routes.js:92 | `vnp_Params["vnp_TxnRef"].split("_")` runs on `undefined` when the callback has no `vnp_TxnRef`, and throws | a return callback without `vnp_TxnRef` | the order id is absent and the return page is still rendered | not executed | Vnpay.ReturnAsWritten, Vnpay.ReturnAsWrittenThrows | Vnpay.Return, Vnpay.ReturnCorrectionAgrees |
| Ecom_backend/src/models/product.model.js:46-47 | the store filter is passed as `where`, which `BaseModel.findMany` (base.model.js:15-28) ignores | a catalogue with products of stores 1 and 2, listed by store 1: the list includes store 2's products | only the store's products are listed | not executed | ProductService.ListByStoreAsWritten, ProductService.ListByStoreAsWrittenListsOtherStores | ProductService.ListByStore, ProductService.ListByStoreIsTheStore |
