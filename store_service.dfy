/**
  `StoreService` (store.service.js): stores as the frontend sees them (ids
  as text), the lists, and creating, updating and deleting a store. Update
  and delete are allowed to an admin or to the store's owner; a new store
  belongs to the signed-in user, or to the owner an admin names.

  `user` is `req.currentUser || {}`: the empty object is `Principal(None, "")`,
  which is not an admin and whose id matches nothing.
*/
module StoreService {
  import opened Wrappers
  import opened Text
  import opened Database
  import ProductService

  const NotFound := "Không tìm thấy cửa hàng"
  const NoEditRight := "Bạn không có quyền chỉnh sửa cửa hàng này"
  const NoDeleteRight := "Bạn không có quyền xóa cửa hàng này"
  const DefaultStatus := "active"

  /** `findMany`'s default limit. */
  const ListLimit := 100

  lemma MessagesDiffer()
    ensures NotFound != NoEditRight && NotFound != NoDeleteRight
  {
    assert |NotFound| == 23 && |NoEditRight| == 41 && |NoDeleteRight| == 35;
  }

  // ----- formatting -----

  /** A store for the frontend: `id` and `owner_id` as text, the other columns as they are. */
  datatype StoreView = StoreView(id: string, ownerId: string, name: string, status: string)

  /** `formatStoreForFrontend(store)` on a row. */
  function Format(id: int, s: Store): (v: StoreView)
    ensures v.name == s.name && v.status == s.status
  {
    StoreView(IntToString(id), IntToString(s.ownerId), s.name, s.status)
  }

  /** The ids of a formatted store read back, with `parseInt`, as the numbers they came from. */
  lemma FormatReadsBack(id: int, s: Store)
    ensures ParseInt(Format(id, s).id) == Some(id) && ParseInt(Format(id, s).ownerId) == Some(s.ownerId)
  {
    ParseIntOfIntToString(id);
    ParseIntOfIntToString(s.ownerId);
  }

  /** Two stores that format alike are the same row under the same id. */
  lemma FormatInjective(id: int, s: Store, id': int, s': Store)
    requires Format(id, s) == Format(id', s')
    ensures id == id' && s == s'
  {
    FormatReadsBack(id, s);
    FormatReadsBack(id', s');
  }

  /** `formatStoresForFrontend(stores)`: the formatter over every row, in order. */
  function FormatAll(t: Tables, ids: seq<int>): (r: seq<StoreView>)
    requires forall i :: 0 <= i < |ids| ==> ids[i] in t.stores
    ensures |r| == |ids|
    ensures forall i :: 0 <= i < |ids| ==> r[i] == Format(ids[i], t.stores[ids[i]])
  {
    seq(|ids|, i requires 0 <= i < |ids| => Format(ids[i], t.stores[ids[i]]))
  }

  // ----- lists and detail -----

  /** Every store. */
  function AnyStore(): Store -> bool {
    (s: Store) => true
  }

  /** `findMany({})` on stores, that is `ORDER BY id ASC LIMIT 100`: the first 100 ids, every id when there are fewer. */
  function FindMany(t: Tables): (ids: seq<int>)
    ensures |ids| <= ListLimit
    ensures forall i :: 0 <= i < |ids| ==> ids[i] in t.stores
    ensures forall i, j :: 0 <= i < j < |ids| ==> ids[i] < ids[j]
    ensures |ids| < ListLimit ==> forall id :: id in t.stores && 1 <= id < t.nextId ==> id in ids
  {
    var all := Select(t.stores, AnyStore(), t.nextId);
    if |all| <= ListLimit then all else all[..ListLimit]
  }

  /** `list()`: the rows `findMany({})` returns, formatted. */
  function List(t: Tables): (r: seq<StoreView>)
    ensures |r| == |FindMany(t)| <= ListLimit
  {
    FormatAll(t, FindMany(t))
  }

  /**
    The list shows stores in ascending id order (the i-th entry's id reads
    back as the i-th id `findMany` returns), and, when there are fewer than
    100 stores, every one of them.
  */
  lemma ListOrderedAndComplete(t: Tables)
    ensures var r := List(t);
            && |r| <= ListLimit
            && (forall i :: 0 <= i < |r| ==> ParseInt(r[i].id) == Some(FindMany(t)[i]))
            && (|r| < ListLimit ==>
                  forall id :: id in t.stores && 1 <= id < t.nextId ==> Format(id, t.stores[id]) in r)
  {
    var ids := FindMany(t);
    var r := List(t);
    forall i | 0 <= i < |r| ensures ParseInt(r[i].id) == Some(ids[i]) {
      FormatReadsBack(ids[i], t.stores[ids[i]]);
    }
    if |r| < ListLimit {
      forall id | id in t.stores && 1 <= id < t.nextId ensures Format(id, t.stores[id]) in r {
        var i :| 0 <= i < |ids| && ids[i] == id;
        assert r[i] == Format(id, t.stores[id]);
      }
    }
  }

  /** `WHERE owner_id = o` on stores. */
  function OwnedBy(o: int): Store -> bool {
    (s: Store) => s.ownerId == o
  }

  /** A sequence back to front. */
  function Reversed(s: seq<int>): (r: seq<int>)
    ensures |r| == |s|
    ensures forall i :: 0 <= i < |s| ==> r[i] == s[|s| - 1 - i]
    ensures forall x :: x in r <==> x in s
  {
    if s == [] then [] else Reversed(s[1..]) + [s[0]]
  }

  lemma ReversedSnoc(s: seq<int>, x: int)
    ensures Reversed(s + [x]) == [x] + Reversed(s)
  {
    assert Reversed(s + [x])[0] == x;
    assert forall i :: 1 <= i <= |s| ==> Reversed(s + [x])[i] == Reversed(s)[i - 1];
  }

  /** The ids below hi of a user's stores, newest (highest id) first. */
  function OwnedIds(stores: map<int, Store>, hi: int, o: int): (ids: seq<int>)
    ensures forall i :: 0 <= i < |ids| ==> ids[i] in stores && stores[ids[i]].ownerId == o
    ensures forall i, j :: 0 <= i < j < |ids| ==> ids[i] > ids[j]
    ensures forall id :: id in stores && 1 <= id < hi && stores[id].ownerId == o ==> id in ids
  {
    Reversed(Select(stores, OwnedBy(o), hi))
  }

  /**
    `listByOwner(currentUser.id)`: `WHERE owner_id = $1 ORDER BY created_at
    DESC`, without a limit, so all of the user's stores, the newest first.
    A NaN id is text PostgreSQL refuses for an integer, and the query throws (None).
  */
  function ListByOwner(t: Tables, ownerId: Option<int>): (r: Option<seq<StoreView>>)
    ensures r.None? <==> ownerId.None?
    ensures r.Some? ==> r.value == FormatAll(t, OwnedIds(t.stores, t.nextId, ownerId.value))
  {
    match ownerId
    case None => None
    case Some(o) => Some(FormatAll(t, OwnedIds(t.stores, t.nextId, o)))
  }

  /** `findById(id)`: null for an id parseInt cannot read or a missing row. */
  function FoundStore(t: Tables, id: string): (r: Option<int>)
    ensures r.Some? <==> ParseInt(id).Some? && ParseInt(id).value in t.stores
    ensures r.Some? ==> r == ParseInt(id)
  {
    match ParseInt(id)
    case None => None
    case Some(n) => if n in t.stores then Some(n) else None
  }

  /** `detail(id)`: the formatted row, null passing through. */
  function Detail(t: Tables, id: string): (r: Option<StoreView>)
    ensures r.None? <==> FoundStore(t, id).None?
    ensures r.Some? ==> ParseInt(r.value.id) == ParseInt(id) && r.value == Format(ParseInt(id).value, t.stores[ParseInt(id).value])
  {
    match FoundStore(t, id)
    case None => None
    case Some(n) =>
      FormatReadsBack(n, t.stores[n]);
      Some(Format(n, t.stores[n]))
  }

  // ----- create -----

  /** The id of `currentUser`, as a bound parameter; NaN (None) is refused by PostgreSQL. */
  function UserIdValue(user: Principal): Option<IdValue> {
    match user.id
    case None => None
    case Some(n) => Some(IdNumber(n))
  }

  /**
    `currentUser.role === ADMIN && payload.owner_id ? payload.owner_id : currentUser.id`:
    the owner an admin names, when it is truthy, and the user otherwise.
  */
  function OwnerChoice(user: Principal, payloadOwner: Option<IdValue>): (o: Option<IdValue>)
    ensures user.role == ADMIN && Truthy(payloadOwner) ==> o == payloadOwner
    ensures !(user.role == ADMIN && Truthy(payloadOwner)) ==> o == UserIdValue(user)
  {
    if user.role == ADMIN && Truthy(payloadOwner) then payloadOwner else UserIdValue(user)
  }

  /** `payload.status || "active"` */
  function StatusOrDefault(status: Option<string>): (r: string)
    ensures status.Some? && status.value != "" ==> r == status.value
    ensures status.None? || status.value == "" ==> r == DefaultStatus
  {
    if status.Some? && status.value != "" then status.value else DefaultStatus
  }

  /** The `owner_id` the INSERT stores, or None when PostgreSQL refuses the value. */
  function OwnerColumn(user: Principal, payloadOwner: Option<IdValue>): Option<int> {
    match OwnerChoice(user, payloadOwner)
    case None => None
    case Some(v) => PgInteger(v)
  }

  /**
    `create(currentUser, payload)`: one stores row with the chosen owner, the
    payload's name and the status or "active", returned formatted. None is
    the INSERT throwing because the owner is not an integer, with nothing
    written.
  */
  function Created(t: Tables, user: Principal, payloadOwner: Option<IdValue>, name: string,
                   status: Option<string>): (r: (Option<StoreView>, Tables))
    requires WellFormed(t)
    ensures WellFormed(r.1)
    ensures r.0.None? <==> OwnerColumn(user, payloadOwner).None?
    ensures r.0.None? ==> r.1 == t
    ensures r.0.Some? ==>
              var s := Store(OwnerColumn(user, payloadOwner).value, name, StatusOrDefault(status));
              && r.0.value == Format(t.nextId, s)
              && r.1 == t.(stores := t.stores[t.nextId := s], nextId := t.nextId + 1)
  {
    match OwnerColumn(user, payloadOwner)
    case None => (None, t)
    case Some(o) =>
      var s := Store(o, name, StatusOrDefault(status));
      (Some(Format(t.nextId, s)), t.(stores := t.stores[t.nextId := s], nextId := t.nextId + 1))
  }

  /**
    Who owns a new store: a non-admin always owns what they create, whatever
    owner the payload names; an admin who names an owner, as a number or as
    its decimal text, gives the store to that owner, and one who names none
    owns it.
  */
  lemma CreateOwner(user: Principal, payloadOwner: Option<IdValue>, k: int)
    ensures user.role != ADMIN ==> OwnerColumn(user, payloadOwner) == user.id
    ensures user.role == ADMIN && k != 0 && payloadOwner == Some(IdNumber(k)) ==> OwnerColumn(user, payloadOwner) == Some(k)
    ensures user.role == ADMIN && payloadOwner == Some(IdText(IntToString(k))) ==> OwnerColumn(user, payloadOwner) == Some(k)
    ensures user.role == ADMIN && !Truthy(payloadOwner) ==> OwnerColumn(user, payloadOwner) == user.id
  {
    PgIntegerOfIntToString(k);
  }

  /** A created store is the one `detail` finds under the id it is shown with. */
  lemma CreatedIsFound(t: Tables, user: Principal, payloadOwner: Option<IdValue>, name: string,
                       status: Option<string>)
    requires WellFormed(t)
    requires Created(t, user, payloadOwner, name, status).0.Some?
    ensures var (v, t') := Created(t, user, payloadOwner, name, status);
            Detail(t', v.value.id) == v
  {
    var (v, t') := Created(t, user, payloadOwner, name, status);
    FormatReadsBack(t.nextId, t'.stores[t.nextId]);
  }

  /**
    A created store comes first in its owner's list, and the stores they had
    before follow as they were.
  */
  lemma CreatedIsNewest(t: Tables, user: Principal, payloadOwner: Option<IdValue>, name: string,
                        status: Option<string>)
    requires WellFormed(t) && OwnerColumn(user, payloadOwner).Some?
    ensures var o := OwnerColumn(user, payloadOwner).value;
            var r := Created(t, user, payloadOwner, name, status);
            ListByOwner(r.1, Some(o)) == Some([r.0.value] + ListByOwner(t, Some(o)).value)
  {
    var o := OwnerColumn(user, payloadOwner).value;
    var s := Store(o, name, StatusOrDefault(status));
    var n := t.nextId;
    var t' := t.(stores := t.stores[n := s], nextId := n + 1);
    assert Created(t, user, payloadOwner, name, status) == (Some(Format(n, s)), t');
    ListByOwnerAfterInsert(t, s);
  }

  /** A store inserted under the next id heads its owner's list, ahead of the stores listed before. */
  lemma ListByOwnerAfterInsert(t: Tables, s: Store)
    requires WellFormed(t)
    ensures ListByOwner(t.(stores := t.stores[t.nextId := s], nextId := t.nextId + 1), Some(s.ownerId))
              == Some([Format(t.nextId, s)] + ListByOwner(t, Some(s.ownerId)).value)
  {
    var n := t.nextId;
    var t' := t.(stores := t.stores[n := s], nextId := n + 1);
    OwnedIdsAfterInsert(t.stores, n, s);
    var ids := OwnedIds(t.stores, n, s.ownerId);
    FormatAllAfterInsert(t, ids, s);
    FormatAllCons(t', n, ids);
  }

  lemma FormatAllCons(t: Tables, x: int, ids: seq<int>)
    requires x in t.stores && forall i :: 0 <= i < |ids| ==> ids[i] in t.stores
    ensures FormatAll(t, [x] + ids) == [Format(x, t.stores[x])] + FormatAll(t, ids)
  {
    assert forall i :: 1 <= i <= |ids| ==> ([x] + ids)[i] == ids[i - 1];
  }

  /** Inserting a row under the next id does not change how the rows already there format. */
  lemma FormatAllAfterInsert(t: Tables, ids: seq<int>, s: Store)
    requires WellFormed(t)
    requires forall i :: 0 <= i < |ids| ==> ids[i] in t.stores
    ensures FormatAll(t.(stores := t.stores[t.nextId := s], nextId := t.nextId + 1), ids) == FormatAll(t, ids)
  {
  }

  /** Inserting a store under a fresh id n puts it at the head of its owner's list. */
  lemma OwnedIdsAfterInsert(stores: map<int, Store>, n: int, s: Store)
    requires KeysBelow(stores, n) && n >= 1
    ensures OwnedIds(stores[n := s], n + 1, s.ownerId) == [n] + OwnedIds(stores, n, s.ownerId)
  {
    var p := OwnedBy(s.ownerId);
    var asc := Select(stores, p, n);
    SelectAfterInsert(stores, p, n, s);
    assert p(s);
    assert Select(stores[n := s], p, n + 1) == asc + [n];
    ReversedSnoc(asc, n);
  }

  method Create(db: Db, user: Principal, payloadOwner: Option<IdValue>, name: string, status: Option<string>)
    returns (r: Option<StoreView>)
    modifies db
    requires db.Valid()
    ensures db.Valid()
    ensures (r, db.Snapshot()) == Created(old(db.Snapshot()), user, payloadOwner, name, status)
  {
    var ownerId := if user.role == ADMIN && Truthy(payloadOwner) then payloadOwner else UserIdValue(user);
    if ownerId.None? || PgInteger(ownerId.value).None? {
      return None;
    }
    var s := Store(PgInteger(ownerId.value).value, name, if status.Some? && status.value != "" then status.value else "active");
    var id := db.InsertStore(s);
    r := Some(Format(id, s));
  }

  // ----- update -----

  /** An update patch: None is a key the patch does not have. */
  datatype StorePatch = StorePatch(ownerId: Option<int>, name: Option<string>, status: Option<string>)

  /** `Object.keys(patch).length === 0` */
  predicate EmptyPatch(q: StorePatch) {
    q.ownerId.None? && q.name.None? && q.status.None?
  }

  /** `UPDATE stores SET k=$i ...`: the columns the patch names take its values, the others keep theirs. */
  function Patched(s: Store, q: StorePatch): (r: Store)
    ensures EmptyPatch(q) ==> r == s
    ensures r.ownerId == (if q.ownerId.Some? then q.ownerId.value else s.ownerId)
    ensures r.name == (if q.name.Some? then q.name.value else s.name)
    ensures r.status == (if q.status.Some? then q.status.value else s.status)
  {
    Store(q.ownerId.GetOr(s.ownerId), q.name.GetOr(s.name), q.status.GetOr(s.status))
  }

  /**
    `update(currentUser, id, patch)`: a missing store, then a user who is
    neither an admin nor its owner, throw with nothing written; an empty
    patch reads the row back unchanged; otherwise only that row changes, to
    the patched row, which is returned formatted.
  */
  function Updated(t: Tables, user: Principal, id: string, q: StorePatch): (r: (Result<StoreView>, Tables))
    ensures r.0 == Failure(NotFound) <==> FoundStore(t, id).None?
    ensures r.0 == Failure(NoEditRight) <==>
              FoundStore(t, id).Some? && !ProductService.MayManage(t, FoundStore(t, id).value, user)
    ensures r.0.Failure? ==> r.0 == Failure(NotFound) || r.0 == Failure(NoEditRight)
    ensures r.0.Failure? || EmptyPatch(q) ==> r.1 == t
    ensures r.0.Success? ==>
              var n := ParseInt(id).value;
              && n in t.stores
              && r.0.value == Format(n, Patched(t.stores[n], q))
              && r.1 == t.(stores := t.stores[n := Patched(t.stores[n], q)])
  {
    MessagesDiffer();
    match FoundStore(t, id)
    case None => (Failure(NotFound), t)
    case Some(n) =>
      var s := t.stores[n];
      if !ProductService.MayManage(t, n, user) then (Failure(NoEditRight), t)
      else if EmptyPatch(q) then (Success(Format(n, s)), t)
      else (Success(Format(n, Patched(s, q))), t.(stores := t.stores[n := Patched(s, q)]))
  }

  /**
    An update changes nothing but the one store, and a store keeps its owner
    unless the patch names one: a seller who edits their store's name still
    owns it.
  */
  lemma UpdateKeepsOwner(t: Tables, user: Principal, id: string, q: StorePatch, other: int)
    requires q.ownerId.None?
    requires Updated(t, user, id, q).0.Success?
    ensures var t' := Updated(t, user, id, q).1;
            var n := ParseInt(id).value;
            && t'.(stores := t.stores) == t
            && t'.stores.Keys == t.stores.Keys
            && t'.stores[n].ownerId == t.stores[n].ownerId
            && (other in t.stores && other != n ==> t'.stores[other] == t.stores[other])
  {
  }

  method Update(db: Db, user: Principal, id: string, q: StorePatch) returns (r: Result<StoreView>)
    modifies db
    requires db.Valid()
    ensures db.Valid()
    ensures (r, db.Snapshot()) == Updated(old(db.Snapshot()), user, id, q)
  {
    var found := FoundStore(db.Snapshot(), id);
    if found.None? {
      return Failure(NotFound);
    }
    var n := found.value;
    var s := db.stores[n];
    if user.role != ADMIN && !IsUser(user, s.ownerId) {
      return Failure(NoEditRight);
    }
    if q.ownerId.None? && q.name.None? && q.status.None? {
      return Success(Format(n, s));
    }
    var updated := Store(q.ownerId.GetOr(s.ownerId), q.name.GetOr(s.name), q.status.GetOr(s.status));
    db.stores := db.stores[n := updated];
    r := Success(Format(n, updated));
  }

  // ----- remove -----

  /**
    `remove(currentUser, id)`: a missing store, then a user who is neither an
    admin nor its owner, throw with nothing written; otherwise the row is
    deleted and the answer is `true`.
  */
  function Removed(t: Tables, user: Principal, id: string): (r: (Result<bool>, Tables))
    ensures r.0 == Failure(NotFound) <==> FoundStore(t, id).None?
    ensures r.0 == Failure(NoDeleteRight) <==>
              FoundStore(t, id).Some? && !ProductService.MayManage(t, FoundStore(t, id).value, user)
    ensures r.0.Failure? ==> r.1 == t && (r.0 == Failure(NotFound) || r.0 == Failure(NoDeleteRight))
    ensures r.0.Success? ==> r.0.value && r.1 == t.(stores := t.stores - {ParseInt(id).value})
  {
    MessagesDiffer();
    match FoundStore(t, id)
    case None => (Failure(NotFound), t)
    case Some(n) =>
      if !ProductService.MayManage(t, n, user) then (Failure(NoDeleteRight), t)
      else (Success(true), t.(stores := t.stores - {n}))
  }

  /**
    After a delete the store is gone: `detail` finds nothing, a second delete
    throws "not found", and no owner's list shows it.
  */
  lemma RemoveIsFinal(t: Tables, user: Principal, id: string, o: int)
    requires Removed(t, user, id).0.Success?
    ensures var t' := Removed(t, user, id).1;
            && Detail(t', id).None?
            && Removed(t', user, id) == (Failure(NotFound), t')
            && forall v :: v in FormatAll(t', OwnedIds(t'.stores, t'.nextId, o)) ==> ParseInt(v.id) != ParseInt(id)
  {
    var t' := Removed(t, user, id).1;
    var ids := OwnedIds(t'.stores, t'.nextId, o);
    forall v | v in FormatAll(t', ids) ensures ParseInt(v.id) != ParseInt(id) {
      var i :| 0 <= i < |ids| && FormatAll(t', ids)[i] == v;
      FormatReadsBack(ids[i], t'.stores[ids[i]]);
    }
  }

  method Remove(db: Db, user: Principal, id: string) returns (r: Result<bool>)
    modifies db
    requires db.Valid()
    ensures db.Valid()
    ensures (r, db.Snapshot()) == Removed(old(db.Snapshot()), user, id)
  {
    var found := FoundStore(db.Snapshot(), id);
    if found.None? {
      return Failure(NotFound);
    }
    var n := found.value;
    if user.role != ADMIN && !IsUser(user, db.stores[n].ownerId) {
      return Failure(NoDeleteRight);
    }
    db.stores := db.stores - {n};
    r := Success(true);
  }
}
