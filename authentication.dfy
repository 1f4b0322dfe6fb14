/**
  The `authentication(required)` middleware (authentication.js): the access
  token is the text of the `Authorization` header after `Bearer `; a token the
  verifier accepts sets `req.currentUser` to the subject read with `parseInt`
  and the role. Without a token, or with one the verifier refuses, a required
  check answers 401 and an optional one lets the request through untouched.

  `jwt.verify` with the server's secret is the parameter `verify`: the claims
  of a token it accepts (signature and expiry are its business), or None.
*/
module Authentication {
  import opened Wrappers
  import opened Database
  import opened Text
  import AuthController

  const BearerPrefix := "Bearer "
  const NoAccess := "Không có quyền truy cập"
  const BadToken := "Token không hợp lệ"

  /** What a middleware does with a request: hand it on (`next()`), or answer with a status and message. */
  datatype Decision = Next | Deny(status: nat, message: string)

  /** `headerValue.startsWith("Bearer ") ? headerValue.slice(7) : null`, the header defaulting to "". */
  function BearerToken(header: Option<string>): (token: Option<string>)
    ensures token.Some? <==> header.Some? && StartsWith(header.value, BearerPrefix)
    ensures token.Some? ==> header.value == BearerPrefix + token.value
  {
    var h := header.GetOr("");
    if StartsWith(h, BearerPrefix) then
      assert h == h[..7] + h[7..];
      Some(h[7..])
    else None
  }

  /** The header `Bearer <token>` yields exactly that token. */
  lemma BearerTokenOfHeader(token: string)
    ensures BearerToken(Some(BearerPrefix + token)) == Some(token)
  {
    assert (BearerPrefix + token)[..7] == BearerPrefix;
  }

  /** `!token`: no token, or the empty one of a header that is exactly `Bearer `. */
  predicate NoToken(token: Option<string>) {
    token.None? || token.value == ""
  }

  /**
    `{ id: parseInt(payload.sub), role: payload.role }`, with no radix: a
    missing or non-numeric subject is NaN, and a `0x` subject is read in
    hexadecimal.
  */
  function PrincipalOf(c: AuthController.Claims): (u: Principal)
    ensures u.role == c.role
    ensures u.id.Some? ==> c.sub.Some?
    ensures c.sub.Some? && c.sub.value != [] && AllDigits(c.sub.value) ==> u.id == Some(DigitsValue(c.sub.value) as int)
  {
    DigitSubject(c.sub);
    Principal(if c.sub.None? then None else ParseIntNoRadix(c.sub.value), c.role)
  }

  /** A subject made of decimal digits reads as their value. */
  lemma DigitSubject(sub: Option<string>)
    ensures sub.Some? && sub.value != [] && AllDigits(sub.value) ==> ParseIntNoRadix(sub.value) == Some(DigitsValue(sub.value) as int)
  {
    if sub.Some? && sub.value != [] && AllDigits(sub.value) {
      NoRadixOfDigits(sub.value);
    }
  }

  /**
    The decision and the `currentUser` after the middleware, `before` being
    what the request held already: it changes only when a token is verified.
  */
  function Authenticated(header: Option<string>, required: bool, verify: string -> Option<AuthController.Claims>,
                         before: Option<Principal>): (r: (Decision, Option<Principal>))
    ensures NoToken(BearerToken(header)) ==> r == (if required then Deny(401, NoAccess) else Next, before)
    ensures !NoToken(BearerToken(header)) && verify(BearerToken(header).value).Some? ==>
              r == (Next, Some(PrincipalOf(verify(BearerToken(header).value).value)))
    ensures !NoToken(BearerToken(header)) && verify(BearerToken(header).value).None? ==>
              r == (if required then Deny(401, BadToken) else Next, before)
  {
    var token := BearerToken(header);
    if NoToken(token) && required then (Deny(401, NoAccess), before)
    else if NoToken(token) then (Next, before)
    else
      match verify(token.value)
      case Some(c) => (Next, Some(PrincipalOf(c)))
      case None => if required then (Deny(401, BadToken), before) else (Next, before)
  }

  /** An optional check never refuses a request, and a required one passes exactly the verified tokens. */
  lemma AuthenticationOutcomes(header: Option<string>, verify: string -> Option<AuthController.Claims>,
                               before: Option<Principal>)
    ensures Authenticated(header, false, verify, before).0 == Next
    ensures Authenticated(header, true, verify, before).0 == Next
            <==> header.Some? && StartsWith(header.value, BearerPrefix) && |header.value| > 7
                 && verify(header.value[7..]).Some?
    ensures Authenticated(header, true, verify, before).0 != Next ==>
              Authenticated(header, true, verify, before).0.status == 401
  {
    var token := BearerToken(header);
    if token.Some? {
      assert |header.value| == 7 + |token.value|;
      assert header.value[7..] == token.value;
    }
  }

  /** A header whose token is empty (`Bearer ` alone) counts as no token at all. */
  lemma EmptyBearerIsNoToken(verify: string -> Option<AuthController.Claims>, before: Option<Principal>)
    ensures Authenticated(Some(BearerPrefix), true, verify, before) == (Deny(401, NoAccess), before)
  {
    BearerTokenOfHeader("");
    assert BearerPrefix + "" == BearerPrefix;
  }

  /**
    The token a login returns, sent back as `Bearer <token>` to a verifier
    that accepts what the signer signed, sets `currentUser` to the user's id
    and role.
  */
  lemma LoginTokenAuthenticates(t: Tables, email: string, password: string,
                                compare: (string, string) -> bool, sign: AuthController.Claims -> string,
                                verify: string -> Option<AuthController.Claims>, required: bool, before: Option<Principal>)
    requires AuthController.LoggedIn(t, true, email, password, compare, sign).SignedIn?
    requires forall c :: verify(sign(c)) == Some(c) && sign(c) != ""
    ensures var u := AuthController.UserByEmail(t, email).value;
            var token := AuthController.LoggedIn(t, true, email, password, compare, sign).accessToken;
            Authenticated(Some(BearerPrefix + token), required, verify, before)
              == (Next, Some(Principal(Some(u), t.users[u].role)))
  {
    var u := AuthController.UserByEmail(t, email).value;
    var c := AuthController.ClaimsOf(u, t.users[u]);
    BearerTokenOfHeader(sign(c));
    assert verify(sign(c)) == Some(c) && sign(c) != "";
  }

  /** `req`: the header the client sent and the `currentUser` the middleware may set. */
  class Request {
    const authorization: Option<string>
    var currentUser: Option<Principal>

    constructor (authorization: Option<string>)
      ensures this.authorization == authorization && currentUser == None
    {
      this.authorization := authorization;
      currentUser := None;
    }
  }

  /** The middleware run on a request. */
  method Authenticate(req: Request, required: bool, verify: string -> Option<AuthController.Claims>)
    returns (d: Decision)
    modifies req
    ensures (d, req.currentUser) == Authenticated(req.authorization, required, verify, old(req.currentUser))
  {
    var headerValue := req.authorization.GetOr("");
    var token: Option<string> := None;
    if StartsWith(headerValue, BearerPrefix) {
      token := Some(headerValue[7..]);
    }
    if NoToken(token) && required {
      return Deny(401, NoAccess);
    }
    if NoToken(token) {
      return Next;
    }
    var payload := verify(token.value);
    if payload.Some? {
      req.currentUser := Some(PrincipalOf(payload.value));
      return Next;
    }
    if required {
      return Deny(401, BadToken);
    }
    d := Next;
  }
}
