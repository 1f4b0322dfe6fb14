/**
  The authorisation middlewares (authorization.js), run after
  authentication: by role, by ownership of a store, and "the user themself
  or an admin". Each picks `next()`, 401, 403 or 400; the ownership check
  also asks the database whether the (store, owner) pair exists.

  `user` is `req.currentUser`, None when authentication set nothing.
*/
module Authorization {
  import opened Wrappers
  import opened Database
  import opened Text
  import opened Authentication

  const NotAllowed := "Không được phép"
  const StoreIdMissing := "Thiếu mã cửa hàng"
  const NotYourStore := "Bạn không sở hữu cửa hàng này"

  lemma MessagesDiffer()
    ensures NoAccess != NotAllowed && StoreIdMissing != NotYourStore
  {
    assert |NoAccess| == 23 && |NotAllowed| == 15;
    assert |StoreIdMissing| == 17 && |NotYourStore| == 29;
  }

  // ----- authorizeByRoles -----

  /** `authorizeByRoles(allowed)`: an empty list admits every signed-in user. */
  function ByRoles(user: Option<Principal>, allowed: seq<string>): (d: Decision)
    ensures d == Deny(401, NoAccess) <==> user.None?
    ensures d == Next <==> user.Some? && (allowed == [] || user.value.role in allowed)
    ensures d != Next && user.Some? ==> d == Deny(403, NotAllowed)
  {
    MessagesDiffer();
    if user.None? then Deny(401, NoAccess)
    else if allowed == [] then Next
    else if user.value.role in allowed then Next
    else Deny(403, NotAllowed)
  }

  /**
    Adding roles to a non-empty list never turns a user away who was let
    through; an ADMIN has no bypass, and is refused by a list without ADMIN.
  */
  lemma ByRolesWidening(user: Option<Principal>, allowed: seq<string>, more: seq<string>)
    requires allowed != []
    ensures ByRoles(user, allowed) == Next ==> ByRoles(user, allowed + more) == Next
    ensures user.Some? && user.value.role == ADMIN && ADMIN !in allowed ==>
              ByRoles(user, allowed) == Deny(403, NotAllowed)
  {
    if ByRoles(user, allowed) == Next {
      assert user.value.role in allowed + more;
    }
  }

  // ----- authorizeStoreOwnership -----

  /** `req.params[paramName] || req.body.store_id` */
  function StoreIdOf(param: Option<string>, bodyStoreId: Option<IdValue>): Option<IdValue> {
    if param.Some? && param.value != "" then Some(IdText(param.value)) else bodyStoreId
  }

  /** The outcome of a middleware that may also throw: the ownership query can fail. */
  datatype Gate = Decided(decision: Decision) | QueryFails

  /** `SELECT 1 FROM stores WHERE id=$1 AND owner_id=$2` found a row. */
  predicate OwnsStore(t: Tables, storeId: int, userId: int) {
    storeId in t.stores && t.stores[storeId].ownerId == userId
  }

  /**
    The query of a non-admin fails when PostgreSQL refuses the store id or
    the subject is NaN; a missing `currentUser` binds NULL, which matches no
    row.
  */
  predicate QueryRefused(storeId: IdValue, user: Option<Principal>) {
    PgInteger(storeId).None? || (user.Some? && user.value.id.None?)
  }

  predicate IsAdmin(user: Option<Principal>) {
    user.Some? && user.value.role == ADMIN
  }

  /**
    `authorizeStoreOwnership(paramName)`: no store id is 400; an ADMIN passes
    without a lookup; anyone else passes exactly when a store with that id
    and them as owner exists, and gets 403 otherwise.
  */
  function StoreOwnership(t: Tables, param: Option<string>, bodyStoreId: Option<IdValue>,
                          user: Option<Principal>): (g: Gate)
    ensures !Truthy(StoreIdOf(param, bodyStoreId)) <==> g == Decided(Deny(400, StoreIdMissing))
    ensures g == Decided(Next) <==>
              Truthy(StoreIdOf(param, bodyStoreId))
              && (IsAdmin(user)
                  || (!QueryRefused(StoreIdOf(param, bodyStoreId).value, user) && user.Some?
                      && OwnsStore(t, PgInteger(StoreIdOf(param, bodyStoreId).value).value, user.value.id.value)))
    ensures g == QueryFails <==>
              Truthy(StoreIdOf(param, bodyStoreId)) && !IsAdmin(user) && QueryRefused(StoreIdOf(param, bodyStoreId).value, user)
    ensures g.Decided? && g.decision.Deny? ==> g.decision == Deny(400, StoreIdMissing) || g.decision == Deny(403, NotYourStore)
  {
    MessagesDiffer();
    var storeId := StoreIdOf(param, bodyStoreId);
    if !Truthy(storeId) then Decided(Deny(400, StoreIdMissing))
    else if IsAdmin(user) then Decided(Next)
    else if QueryRefused(storeId.value, user) then QueryFails
    else if user.Some? && OwnsStore(t, PgInteger(storeId.value).value, user.value.id.value) then Decided(Next)
    else Decided(Deny(403, NotYourStore))
  }

  /** An ADMIN's decision does not depend on the stores at all. */
  lemma AdminNeedsNoLookup(t: Tables, t': Tables, param: Option<string>, bodyStoreId: Option<IdValue>,
                           user: Option<Principal>)
    requires IsAdmin(user)
    ensures StoreOwnership(t, param, bodyStoreId, user) == StoreOwnership(t', param, bodyStoreId, user)
  {
  }

  /**
    For a store named by its id in the route, its owner passes and every
    other signed-in non-admin with a numeric id is refused with 403.
  */
  lemma OwnerOfRouteStore(t: Tables, storeId: int, user: Principal)
    requires storeId in t.stores && user.id.Some? && user.role != ADMIN
    ensures StoreOwnership(t, Some(IntToString(storeId)), None, Some(user))
              == if user.id.value == t.stores[storeId].ownerId then Decided(Next) else Decided(Deny(403, NotYourStore))
  {
    PgIntegerOfIntToString(storeId);
  }

  /** Without a `currentUser`, a non-admin request never passes the ownership check. */
  lemma AnonymousNeverOwns(t: Tables, param: Option<string>, bodyStoreId: Option<IdValue>)
    ensures StoreOwnership(t, param, bodyStoreId, None) != Decided(Next)
  {
  }

  // ----- authorizeSelfOrAdmin -----

  /**
    `authorizeSelfOrAdmin(getUserId)`: no `currentUser` is 401; an ADMIN
    passes; anyone else passes exactly when their id equals
    `parseInt(target)`, read with no radix (`0x` is hexadecimal), so a NaN on
    either side never matches.
  */
  function SelfOrAdmin(user: Option<Principal>, target: string): (d: Decision)
    ensures d == Deny(401, NoAccess) <==> user.None?
    ensures d == Next <==>
              user.Some? && (user.value.role == ADMIN || (user.value.id.Some? && ParseIntNoRadix(target) == user.value.id))
    ensures d != Next && user.Some? ==> d == Deny(403, NotAllowed)
  {
    MessagesDiffer();
    if user.None? then Deny(401, NoAccess)
    else if user.value.role == ADMIN then Next
    else if user.value.id.Some? && user.value.id == ParseIntNoRadix(target) then Next
    else Deny(403, NotAllowed)
  }

  /** A user may always act on their own id written in decimal, and on nobody else's. */
  lemma SelfMatchesOwnId(id: int, other: int, role: string)
    requires role != ADMIN && other != id
    ensures SelfOrAdmin(Some(Principal(Some(id), role)), IntToString(id)) == Next
    ensures SelfOrAdmin(Some(Principal(Some(id), role)), IntToString(other)) == Deny(403, NotAllowed)
  {
    NoRadixOfIntToString(id);
    NoRadixOfIntToString(other);
  }

  /** The target `0x10` names user 16: the radix-less `parseInt` reads it in hexadecimal. */
  lemma HexTargetIsSelf(role: string)
    requires role != ADMIN
    ensures SelfOrAdmin(Some(Principal(Some(16), role)), "0x10") == Next
  {
    HexPrefixDiffers();
  }
}
