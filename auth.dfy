/**
  `AuthController` (auth.controller.js): registration with an e-mailed
  six-digit code, e-mail verification, login, and password reset by code.

  A code is never stored: a row of `password_reset_tokens` holds its sha256,
  its purpose (`verify_email` or `reset_password`), an expiry ten minutes
  after it was made, and a `used` flag. The handlers that take a code look up
  the user by e-mail and that user's latest token of the purpose, and refuse
  in a fixed order: no token, a used token, an expired token, a wrong code.

  bcrypt, sha256, the JWT signer, the code generator and the clock are
  parameters: `passwordHash` is what `hashPassword` returned for this call,
  `code` what `genCode(6)` returned, `now` the time in milliseconds,
  `sha256`, `compare` and `sign` the functions themselves. `valid` is whether
  the route's validators accepted the body. Each handler is a function from
  the tables before to its reply and the tables after, and a method on the
  database proved equal to it.
*/
module AuthController {
  import opened Wrappers
  import opened Database
  import opened Text

  const Pending := "pending"
  const Active := "active"
  const VerifyPurpose := "verify_email"
  const ResetPurpose := "reset_password"

  /** `10 * 60 * 1000`: a code is good for ten minutes. */
  const CodeLifetime := 600000

  const EmailExists := "Email đã tồn tại"
  const RegisterOk := "Đăng ký thành công, vui lòng kiểm tra email để xác minh."
  const VerifySubject := "Xác minh tài khoản"
  const UserMissing := "Không tìm thấy người dùng"
  const NoVerifyCode := "Không có mã xác minh"
  const CodeUsed := "Mã đã được sử dụng"
  const CodeExpired := "Mã đã hết hạn"
  const CodeWrong := "Mã không đúng"
  const VerifyOk := "Xác minh email thành công"
  const StoreNamePrefix := "Cửa hàng của "
  const BadCredentials := "Sai thông tin đăng nhập"
  const NotActivated := "Tài khoản chưa kích hoạt"
  const EmailMissing := "Email không tồn tại"
  const NoValidCode := "Không có mã xác thực hợp lệ"
  const CodeOk := "Mã xác thực hợp lệ"
  const ResetSubject := "Đặt lại mật khẩu"
  const ResetSent := "Nếu email tồn tại, mã đặt lại đã được gửi"
  const ResetBadInfo := "Thông tin không hợp lệ"
  const NoResetCode := "Không có mã hợp lệ"
  const ResetOk := "Đổi mật khẩu thành công"

  /** The `user` object of a login reply; `id` is `user.id.toString()`. */
  datatype UserView = UserView(id: string, email: string, fullName: string, role: string)

  /** What a handler answers. */
  datatype Reply =
    | Invalid                                      // 400 `{ errors }`: the validators refused the body
    | Message(status: nat, message: string)        // `{ message }` with that status (200 for `res.json`)
    | SignedIn(accessToken: string, user: UserView) // 200 `{ access_token, user }`

  /** The e-mail `sendCodeEmail(to, subject, code)` sends. */
  datatype Mail = Mail(to: string, subject: string, code: string)

  /** A handler that may send mail: its reply, the tables after it, and the mail sent. */
  datatype Outcome = Outcome(reply: Reply, tables: Tables, mail: Option<Mail>)

  /** The claims of an access token: the subject (the user id as text) and the role. */
  datatype Claims = Claims(sub: Option<string>, role: string)

  /** `signAccess(u)`: the claims a login signs. */
  function ClaimsOf(id: int, u: User): (c: Claims)
    ensures c.sub.Some? && ParseInt(c.sub.value) == Some(id) && c.role == u.role
    ensures ParseIntNoRadix(c.sub.value) == Some(id)
  {
    ParseIntOfIntToString(id);
    NoRadixOfIntToString(id);
    Claims(Some(IntToString(id)), u.role)
  }

  // ----- lookups -----

  function HasEmail(email: string): User -> bool {
    (u: User) => u.email == email
  }

  /** `UserModel.findByEmail(email)`: the id of a user with that e-mail. */
  function UserByEmail(t: Tables, email: string): (r: Option<int>)
    ensures r.Some? ==> r.value in t.users && t.users[r.value].email == email
    ensures r.None? ==> forall id :: id in t.users && 1 <= id < t.nextId ==> t.users[id].email != email
  {
    First(t.users, HasEmail(email), t.nextId)
  }

  function OfPurpose(userId: int, purpose: string): Token -> bool {
    (k: Token) => k.userId == userId && k.purpose == purpose
  }

  /** `findLatestByPurpose(userId, purpose)`: the id of the most recent such token. */
  function LatestToken(t: Tables, userId: int, purpose: string): (r: Option<int>)
    ensures r.Some? ==> r.value in t.tokens && t.tokens[r.value].userId == userId && t.tokens[r.value].purpose == purpose
    ensures r.Some? ==>
              forall id :: id in t.tokens && 1 <= id < t.nextId && t.tokens[id].userId == userId && t.tokens[id].purpose == purpose
                ==> id <= r.value
  {
    Latest(t.tokens, OfPurpose(userId, purpose), t.nextId)
  }

  /** The token row a code makes: its hash, the purpose, ten minutes to live, not used. */
  function CodeToken(userId: int, code: string, purpose: string, now: int, sha256: string -> string): Token {
    Token(userId, sha256(code), purpose, now + CodeLifetime, false)
  }

  // ----- the code check shared by verifyEmail, verifyResetCode and resetPassword -----

  lemma MessagesDiffer()
    ensures CodeUsed != CodeExpired && CodeUsed != CodeWrong && CodeExpired != CodeWrong
    ensures BadCredentials != NotActivated
  {
    assert |CodeUsed| == 18 && |CodeExpired| == 13 && |CodeWrong| == 13;
    assert CodeExpired[3] != CodeWrong[3];
    assert |BadCredentials| == 23 && |NotActivated| == 24;
  }

  /**
    The refusal a token earns, or None when the code is accepted: used, then
    expired (`expires_at < now`), then a hash that is not the code's.
  */
  function TokenProblem(k: Token, code: string, now: int, sha256: string -> string): (r: Option<string>)
    ensures r.None? <==> !k.used && now <= k.expiresAt && sha256(code) == k.tokenHash
    ensures r == Some(CodeUsed) <==> k.used
    ensures r == Some(CodeExpired) <==> !k.used && k.expiresAt < now
    ensures r == Some(CodeWrong) <==> !k.used && now <= k.expiresAt && sha256(code) != k.tokenHash
  {
    MessagesDiffer();
    if k.used then Some(CodeUsed)
    else if k.expiresAt < now then Some(CodeExpired)
    else if sha256(code) != k.tokenHash then Some(CodeWrong)
    else None
  }

  /** The result of checking a code: the token it matched, or the 400 message. */
  datatype Check = Passed(tokenId: int) | Refused(message: string)

  /** The lookup of the user's latest token of the purpose and its check; `missing` is the handler's "no code" message. */
  function CodeCheck(t: Tables, userId: int, purpose: string, code: string, now: int,
                     sha256: string -> string, missing: string): (r: Check)
    ensures LatestToken(t, userId, purpose).None? ==> r == Refused(missing)
    ensures r.Passed? ==> LatestToken(t, userId, purpose) == Some(r.tokenId) && r.tokenId in t.tokens
    ensures LatestToken(t, userId, purpose).Some? ==>
              var k := LatestToken(t, userId, purpose).value;
              k in t.tokens
              && (r.Passed? <==> TokenProblem(t.tokens[k], code, now, sha256).None?)
              && (r.Refused? ==> Some(r.message) == TokenProblem(t.tokens[k], code, now, sha256))
  {
    match LatestToken(t, userId, purpose)
    case None => Refused(missing)
    case Some(k) =>
      match TokenProblem(t.tokens[k], code, now, sha256)
      case Some(m) => Refused(m)
      case None => Passed(k)
  }

  // ----- register -----

  /** `role || "USER"` */
  function DefaultRole(role: Option<string>): (r: string)
    ensures role.Some? && role.value != "" ==> r == role.value
    ensures role.None? || role.value == "" ==> r == USER
  {
    match role
    case None => USER
    case Some(s) => if s == "" then USER else s
  }

  /**
    `register`: a refused body, then an e-mail that is taken, answer with
    nothing written and nothing sent; otherwise a pending user, then a
    `verify_email` token for the code, are inserted and the code is mailed.
  */
  function Registered(t: Tables, valid: bool, fullName: string, email: string, role: Option<string>,
                      passwordHash: string, code: string, now: int, sha256: string -> string): (o: Outcome)
    requires WellFormed(t)
    ensures WellFormed(o.tables)
    ensures !valid ==> o == Outcome(Invalid, t, None)
    ensures valid && UserByEmail(t, email).Some? ==> o == Outcome(Message(409, EmailExists), t, None)
    ensures valid && UserByEmail(t, email).None? ==>
              var u := t.nextId;
              && o.reply == Message(200, RegisterOk)
              && o.mail == Some(Mail(email, VerifySubject, code))
              && o.tables == t.(users := t.users[u := User(fullName, email, passwordHash, DefaultRole(role), Pending)],
                                tokens := t.tokens[u + 1 := CodeToken(u, code, VerifyPurpose, now, sha256)],
                                nextId := u + 2)
  {
    if !valid then Outcome(Invalid, t, None)
    else if UserByEmail(t, email).Some? then Outcome(Message(409, EmailExists), t, None)
    else
      var u := t.nextId;
      var t' := t.(users := t.users[u := User(fullName, email, passwordHash, DefaultRole(role), Pending)],
                   tokens := t.tokens[u + 1 := CodeToken(u, code, VerifyPurpose, now, sha256)],
                   nextId := u + 2);
      Outcome(Message(200, RegisterOk), t', Some(Mail(email, VerifySubject, code)))
  }

  /** After a registration the e-mail finds the new user: pending, with the role asked for or USER. */
  lemma RegisterCreatesPendingUser(t: Tables, fullName: string, email: string, role: Option<string>,
                                   passwordHash: string, code: string, now: int, sha256: string -> string)
    requires WellFormed(t) && UserByEmail(t, email).None?
    ensures var o := Registered(t, true, fullName, email, role, passwordHash, code, now, sha256);
            && UserByEmail(o.tables, email) == Some(t.nextId)
            && o.tables.users[t.nextId] == User(fullName, email, passwordHash, DefaultRole(role), Pending)
  {
    var u := t.nextId;
    InsertedUserFound(t.users, u, u + 2, email, User(fullName, email, passwordHash, DefaultRole(role), Pending));
  }

  /**
    After a registration the new user's latest `verify_email` token is the
    new one: unused, storing the sha256 of the code mailed, and expiring ten
    minutes on.
  */
  lemma RegisterIssuesCode(t: Tables, fullName: string, email: string, role: Option<string>,
                           passwordHash: string, code: string, now: int, sha256: string -> string)
    requires WellFormed(t) && UserByEmail(t, email).None?
    ensures var o := Registered(t, true, fullName, email, role, passwordHash, code, now, sha256);
            && LatestToken(o.tables, t.nextId, VerifyPurpose) == Some(t.nextId + 1)
            && o.tables.tokens[t.nextId + 1] == CodeToken(t.nextId, o.mail.value.code, VerifyPurpose, now, sha256)
  {
    var u := t.nextId;
    InsertedTokenLatest(t.tokens, u, u + 1, u + 2, CodeToken(u, code, VerifyPurpose, now, sha256));
  }

  lemma InsertedUserFound(users: map<int, User>, n: int, hi: int, email: string, nu: User)
    requires KeysBelow(users, n) && n >= 1 && hi == n + 2
    requires First(users, HasEmail(email), n).None? && nu.email == email
    ensures First(users[n := nu], HasEmail(email), hi) == Some(n)
  {
    FirstAfterInsert(users, HasEmail(email), n, nu);
    FirstGrowHi(users[n := nu], HasEmail(email), n + 1, hi);
  }

  lemma InsertedTokenLatest(tokens: map<int, Token>, lo: int, n: int, hi: int, nk: Token)
    requires KeysBelow(tokens, lo) && lo <= n && n >= 1 && hi == n + 1
    ensures Latest(tokens[n := nk], OfPurpose(nk.userId, nk.purpose), hi) == Some(n)
  {
    assert KeysBelow(tokens, n);
    LatestAfterInsert(tokens, OfPurpose(nk.userId, nk.purpose), n, nk);
  }

  /** Registering an e-mail a second time is refused with 409 and writes nothing. */
  lemma RegisterTwiceConflicts(t: Tables, fullName: string, email: string, role: Option<string>,
                               passwordHash: string, code: string, now: int, sha256: string -> string,
                               fullName': string, role': Option<string>, passwordHash': string, code': string, now': int)
    requires WellFormed(t)
    ensures var t' := Registered(t, true, fullName, email, role, passwordHash, code, now, sha256).tables;
            Registered(t', true, fullName', email, role', passwordHash', code', now', sha256)
              == Outcome(Message(409, EmailExists), t', None)
  {
    if UserByEmail(t, email).None? {
      RegisterCreatesPendingUser(t, fullName, email, role, passwordHash, code, now, sha256);
    }
  }

  method Register(db: Db, valid: bool, fullName: string, email: string, role: Option<string>,
                  passwordHash: string, code: string, now: int, sha256: string -> string)
    returns (reply: Reply, mail: Option<Mail>)
    modifies db
    requires db.Valid()
    ensures db.Valid()
    ensures Outcome(reply, db.Snapshot(), mail)
              == Registered(old(db.Snapshot()), valid, fullName, email, role, passwordHash, code, now, sha256)
  {
    if !valid {
      return Invalid, None;
    }
    var exist := UserByEmail(db.Snapshot(), email);
    if exist.Some? {
      return Message(409, EmailExists), None;
    }
    var u := db.InsertUser(User(fullName, email, passwordHash, DefaultRole(role), Pending));
    var k := db.InsertToken(CodeToken(u, code, VerifyPurpose, now, sha256));
    reply, mail := Message(200, RegisterOk), Some(Mail(email, VerifySubject, code));
  }

  // ----- verifyEmail -----

  /** `Cửa hàng của ${user.full_name}` */
  function DefaultStoreName(fullName: string): string {
    StoreNamePrefix + fullName
  }

  /**
    The writes of a verification that passed: the token is marked used, the
    user made active, and a SELLER given a store named after them.
  */
  function Activated(t: Tables, u: int, k: int): (r: Tables)
    requires WellFormed(t) && u in t.users && k in t.tokens
    ensures WellFormed(r)
    ensures r.users == t.users[u := t.users[u].(status := Active)]
    ensures r.tokens == t.tokens[k := t.tokens[k].(used := true)]
    ensures r.nextId >= t.nextId
  {
    var t1 := t.(tokens := t.tokens[k := t.tokens[k].(used := true)],
                 users := t.users[u := t.users[u].(status := Active)]);
    if t.users[u].role == SELLER
    then t1.(stores := t1.stores[t.nextId := Store(u, DefaultStoreName(t.users[u].fullName), Active)], nextId := t.nextId + 1)
    else t1
  }

  /**
    `verifyEmail`: a refused body (400), an unknown e-mail (404), then the
    code check (400), each answer with nothing written; a code that passes
    activates the account.
  */
  function Verified(t: Tables, valid: bool, email: string, code: string, now: int,
                    sha256: string -> string): (r: (Reply, Tables))
    requires WellFormed(t)
    ensures WellFormed(r.1)
    ensures r.0 != Message(200, VerifyOk) ==> r.1 == t
  {
    if !valid then (Invalid, t)
    else
      match UserByEmail(t, email)
      case None => (Message(404, UserMissing), t)
      case Some(u) =>
        match CodeCheck(t, u, VerifyPurpose, code, now, sha256, NoVerifyCode)
        case Refused(m) => (Message(400, m), t)
        case Passed(k) => (Message(200, VerifyOk), Activated(t, u, k))
  }

  /** The answers of `verifyEmail` in the order its checks run. */
  lemma VerifyEmailLadder(t: Tables, valid: bool, email: string, code: string, now: int, sha256: string -> string)
    requires WellFormed(t)
    ensures var r := Verified(t, valid, email, code, now, sha256).0;
            && (!valid ==> r == Invalid)
            && (valid && UserByEmail(t, email).None? ==> r == Message(404, UserMissing))
            && (valid && UserByEmail(t, email).Some? ==>
                  var u := UserByEmail(t, email).value;
                  match CodeCheck(t, u, VerifyPurpose, code, now, sha256, NoVerifyCode)
                  case Refused(m) => r == Message(400, m)
                  case Passed(_) => r == Message(200, VerifyOk))
  {
  }

  /**
    A verification that succeeds marks the latest token used and the user
    active, changes nothing else about the user, and gives a SELLER exactly
    one new store, active and owned by them; other roles get none.
  */
  lemma VerifyEmailActivates(t: Tables, email: string, code: string, now: int, sha256: string -> string)
    requires WellFormed(t)
    requires Verified(t, true, email, code, now, sha256).0 == Message(200, VerifyOk)
    ensures var t' := Verified(t, true, email, code, now, sha256).1;
            var u := UserByEmail(t, email).value;
            var k := LatestToken(t, u, VerifyPurpose).value;
            && t'.users == t.users[u := t.users[u].(status := Active)]
            && t'.tokens == t.tokens[k := t.tokens[k].(used := true)]
            && (t.users[u].role == SELLER ==>
                  t'.stores == t.stores[t.nextId := Store(u, DefaultStoreName(t.users[u].fullName), Active)]
                  && t.nextId !in t.stores && t'.nextId == t.nextId + 1)
            && (t.users[u].role != SELLER ==> t'.stores == t.stores && t'.nextId == t.nextId)
  {
  }

  /** A verification code works once: after it succeeds, the same request is refused as used. */
  lemma VerifyEmailOnce(t: Tables, email: string, code: string, now: int, now': int, sha256: string -> string)
    requires WellFormed(t)
    requires Verified(t, true, email, code, now, sha256).0 == Message(200, VerifyOk)
    ensures var t' := Verified(t, true, email, code, now, sha256).1;
            Verified(t', true, email, code, now', sha256) == (Message(400, CodeUsed), t')
  {
    var u := UserByEmail(t, email).value;
    var k := LatestToken(t, u, VerifyPurpose).value;
    var t' := Activated(t, u, k);
    assert Verified(t, true, email, code, now, sha256).1 == t';
    LookupsAfterUpdate(t.users, HasEmail(email), t.nextId, t'.nextId, u, t.users[u].(status := Active));
    LookupsAfterUpdate(t.tokens, OfPurpose(u, VerifyPurpose), t.nextId, t'.nextId, k, t.tokens[k].(used := true));
    assert UserByEmail(t', email) == Some(u);
    assert CodeCheck(t', u, VerifyPurpose, code, now', sha256, NoVerifyCode) == Refused(CodeUsed);
  }

  method VerifyEmail(db: Db, valid: bool, email: string, code: string, now: int, sha256: string -> string)
    returns (reply: Reply)
    modifies db
    requires db.Valid()
    ensures db.Valid()
    ensures (reply, db.Snapshot()) == Verified(old(db.Snapshot()), valid, email, code, now, sha256)
  {
    if !valid {
      return Invalid;
    }
    var user := UserByEmail(db.Snapshot(), email);
    if user.None? {
      return Message(404, UserMissing);
    }
    var u := user.value;
    var check := CodeCheck(db.Snapshot(), u, VerifyPurpose, code, now, sha256, NoVerifyCode);
    if check.Refused? {
      return Message(400, check.message);
    }
    var k := check.tokenId;
    ghost var before := db.Snapshot();
    var row := db.users[u];
    db.SetToken(k, db.tokens[k].(used := true));
    db.SetUser(u, row.(status := Active));
    if row.role == SELLER {
      var s := db.InsertStore(Store(u, DefaultStoreName(row.fullName), Active));
    }
    assert db.Snapshot() == Activated(before, u, k);
    reply := Message(200, VerifyOk);
  }

  // ----- login -----

  /** `user.id.toString()` and the columns a login reply shows. */
  function ViewOf(id: int, u: User): UserView {
    UserView(IntToString(id), u.email, u.fullName, u.role)
  }

  /**
    `login`: an unknown e-mail and a wrong password get the same 401, an
    account that is not active 403, and only an active account a token.
  */
  function LoggedIn(t: Tables, valid: bool, email: string, password: string,
                    compare: (string, string) -> bool, sign: Claims -> string): (r: Reply)
    ensures !valid ==> r == Invalid
    ensures valid ==>
              (r == Message(401, BadCredentials) <==>
                 UserByEmail(t, email).None? || !compare(password, t.users[UserByEmail(t, email).value].passwordHash))
    ensures r.SignedIn? <==>
              valid && UserByEmail(t, email).Some?
              && var u := UserByEmail(t, email).value;
                 compare(password, t.users[u].passwordHash) && t.users[u].status == Active
    ensures r.SignedIn? ==>
              var u := UserByEmail(t, email).value;
              r == SignedIn(sign(ClaimsOf(u, t.users[u])), ViewOf(u, t.users[u]))
    ensures valid && !r.SignedIn? && r != Message(401, BadCredentials) ==> r == Message(403, NotActivated)
  {
    MessagesDiffer();
    if !valid then Invalid
    else
      match UserByEmail(t, email)
      case None => Message(401, BadCredentials)
      case Some(u) =>
        if !compare(password, t.users[u].passwordHash) then Message(401, BadCredentials)
        else if t.users[u].status != Active then Message(403, NotActivated)
        else SignedIn(sign(ClaimsOf(u, t.users[u])), ViewOf(u, t.users[u]))
  }

  /** The reply to a failed login does not tell an unknown e-mail from a wrong password. */
  lemma LoginDoesNotTellWhy(t: Tables, email: string, password: string, email': string, password': string,
                            compare: (string, string) -> bool, sign: Claims -> string)
    requires UserByEmail(t, email).None?
    requires UserByEmail(t, email').Some? && !compare(password', t.users[UserByEmail(t, email').value].passwordHash)
    ensures LoggedIn(t, true, email, password, compare, sign) == LoggedIn(t, true, email', password', compare, sign)
  {
  }

  method Login(db: Db, valid: bool, email: string, password: string,
               compare: (string, string) -> bool, sign: Claims -> string) returns (reply: Reply)
    ensures reply == LoggedIn(db.Snapshot(), valid, email, password, compare, sign)
  {
    if !valid {
      return Invalid;
    }
    var user := UserByEmail(db.Snapshot(), email);
    if user.None? {
      return Message(401, BadCredentials);
    }
    var u := user.value;
    var row := db.users[u];
    var ok := compare(password, row.passwordHash);
    if !ok {
      return Message(401, BadCredentials);
    }
    if row.status != Active {
      return Message(403, NotActivated);
    }
    reply := SignedIn(sign(ClaimsOf(u, row)), ViewOf(u, row));
  }

  /** Once an e-mail is verified, the account's password signs the user in with their id and role. */
  lemma VerifyEmailEnablesLogin(t: Tables, email: string, code: string, now: int, sha256: string -> string,
                                password: string, compare: (string, string) -> bool, sign: Claims -> string)
    requires WellFormed(t)
    requires Verified(t, true, email, code, now, sha256).0 == Message(200, VerifyOk)
    requires compare(password, t.users[UserByEmail(t, email).value].passwordHash)
    ensures var u := UserByEmail(t, email).value;
            LoggedIn(Verified(t, true, email, code, now, sha256).1, true, email, password, compare, sign)
              == SignedIn(sign(ClaimsOf(u, t.users[u])), ViewOf(u, t.users[u]))
  {
    var u := UserByEmail(t, email).value;
    var k := LatestToken(t, u, VerifyPurpose).value;
    var t' := Activated(t, u, k);
    assert Verified(t, true, email, code, now, sha256).1 == t';
    LookupsAfterUpdate(t.users, HasEmail(email), t.nextId, t'.nextId, u, t.users[u].(status := Active));
    assert UserByEmail(t', email) == Some(u);
  }

  /**
    Registering and then verifying with the mailed code within ten minutes
    activates the account, and the password's hash then signs the user in
    with their id and role.
  */
  lemma RegisterVerifyLogin(t: Tables, fullName: string, email: string, role: Option<string>,
                            password: string, passwordHash: string, code: string, now: int, now': int,
                            sha256: string -> string, compare: (string, string) -> bool, sign: Claims -> string)
    requires WellFormed(t) && UserByEmail(t, email).None?
    requires now <= now' <= now + CodeLifetime && compare(password, passwordHash)
    ensures var t1 := Registered(t, true, fullName, email, role, passwordHash, code, now, sha256).tables;
            var r2 := Verified(t1, true, email, code, now', sha256);
            && r2.0 == Message(200, VerifyOk)
            && LoggedIn(r2.1, true, email, password, compare, sign)
                 == SignedIn(sign(Claims(Some(IntToString(t.nextId)), DefaultRole(role))),
                             UserView(IntToString(t.nextId), email, fullName, DefaultRole(role)))
  {
    var u := t.nextId;
    var t1 := Registered(t, true, fullName, email, role, passwordHash, code, now, sha256).tables;
    RegisterCreatesPendingUser(t, fullName, email, role, passwordHash, code, now, sha256);
    RegisterIssuesCode(t, fullName, email, role, passwordHash, code, now, sha256);
    assert CodeCheck(t1, u, VerifyPurpose, code, now', sha256, NoVerifyCode) == Passed(u + 1);
    VerifyEmailEnablesLogin(t1, email, code, now', sha256, password, compare, sign);
  }

  // ----- verifyResetCode -----

  /** `verifyResetCode`: the reset-code check on its own, writing nothing (this handler has no validators). */
  function ResetCodeChecked(t: Tables, email: string, code: string, now: int, sha256: string -> string): (r: Reply)
    ensures UserByEmail(t, email).None? ==> r == Message(404, EmailMissing)
    ensures UserByEmail(t, email).Some? ==>
              match CodeCheck(t, UserByEmail(t, email).value, ResetPurpose, code, now, sha256, NoValidCode)
              case Refused(m) => r == Message(400, m)
              case Passed(_) => r == Message(200, CodeOk)
  {
    match UserByEmail(t, email)
    case None => Message(404, EmailMissing)
    case Some(u) =>
      match CodeCheck(t, u, ResetPurpose, code, now, sha256, NoValidCode)
      case Refused(m) => Message(400, m)
      case Passed(_) => Message(200, CodeOk)
  }

  method VerifyResetCode(db: Db, email: string, code: string, now: int, sha256: string -> string)
    returns (reply: Reply)
    ensures reply == ResetCodeChecked(db.Snapshot(), email, code, now, sha256)
  {
    var user := UserByEmail(db.Snapshot(), email);
    if user.None? {
      return Message(404, EmailMissing);
    }
    var check := CodeCheck(db.Snapshot(), user.value, ResetPurpose, code, now, sha256, NoValidCode);
    if check.Refused? {
      return Message(400, check.message);
    }
    reply := Message(200, CodeOk);
  }

  // ----- forgotPassword -----

  /**
    `forgotPassword`: a body the validators accept always gets the same
    answer; a reset token is inserted and the code mailed only when the
    e-mail belongs to a user.
  */
  function Forgot(t: Tables, valid: bool, email: string, code: string, now: int, sha256: string -> string): (o: Outcome)
    requires WellFormed(t)
    ensures WellFormed(o.tables)
    ensures !valid ==> o == Outcome(Invalid, t, None)
    ensures valid ==> o.reply == Message(200, ResetSent)
    ensures o.mail.Some? <==> valid && UserByEmail(t, email).Some?
    ensures o.mail.None? ==> o.tables == t
    ensures o.mail.Some? ==>
              && o.mail.value == Mail(email, ResetSubject, code)
              && o.tables == t.(tokens := t.tokens[t.nextId := CodeToken(UserByEmail(t, email).value, code, ResetPurpose, now, sha256)],
                                nextId := t.nextId + 1)
  {
    if !valid then Outcome(Invalid, t, None)
    else
      match UserByEmail(t, email)
      case None => Outcome(Message(200, ResetSent), t, None)
      case Some(u) =>
        Outcome(Message(200, ResetSent),
                t.(tokens := t.tokens[t.nextId := CodeToken(u, code, ResetPurpose, now, sha256)], nextId := t.nextId + 1),
                Some(Mail(email, ResetSubject, code)))
  }

  /** The new reset token is the user's latest, so the code just mailed is the one resetPassword checks. */
  lemma ForgotIssuesLatestToken(t: Tables, email: string, code: string, now: int, sha256: string -> string)
    requires WellFormed(t) && UserByEmail(t, email).Some?
    ensures var t' := Forgot(t, true, email, code, now, sha256).tables;
            var u := UserByEmail(t, email).value;
            && UserByEmail(t', email) == Some(u)
            && LatestToken(t', u, ResetPurpose) == Some(t.nextId)
            && t'.tokens[t.nextId] == CodeToken(u, code, ResetPurpose, now, sha256)
  {
    var u := UserByEmail(t, email).value;
    FirstGrowHi(t.users, HasEmail(email), t.nextId, t.nextId + 1);
    LatestAfterInsert(t.tokens, OfPurpose(u, ResetPurpose), t.nextId, CodeToken(u, code, ResetPurpose, now, sha256));
  }

  method ForgotPassword(db: Db, valid: bool, email: string, code: string, now: int, sha256: string -> string)
    returns (reply: Reply, mail: Option<Mail>)
    modifies db
    requires db.Valid()
    ensures db.Valid()
    ensures Outcome(reply, db.Snapshot(), mail) == Forgot(old(db.Snapshot()), valid, email, code, now, sha256)
  {
    if !valid {
      return Invalid, None;
    }
    var user := UserByEmail(db.Snapshot(), email);
    mail := None;
    if user.Some? {
      var k := db.InsertToken(CodeToken(user.value, code, ResetPurpose, now, sha256));
      mail := Some(Mail(email, ResetSubject, code));
    }
    reply := Message(200, ResetSent);
  }

  // ----- resetPassword -----

  /**
    `resetPassword`: a refused body, an unknown e-mail (400), then the code
    check (400), each answer with nothing written; a code that passes is
    marked used and the password hash replaced.
  */
  function Reset(t: Tables, valid: bool, email: string, code: string, newHash: string, now: int,
                 sha256: string -> string): (r: (Reply, Tables))
    requires WellFormed(t)
    ensures WellFormed(r.1)
    ensures r.0 != Message(200, ResetOk) ==> r.1 == t
    ensures !valid ==> r.0 == Invalid
    ensures valid && UserByEmail(t, email).None? ==> r.0 == Message(400, ResetBadInfo)
    ensures valid && UserByEmail(t, email).Some? ==>
              var u := UserByEmail(t, email).value;
              match CodeCheck(t, u, ResetPurpose, code, now, sha256, NoResetCode)
              case Refused(m) => r.0 == Message(400, m)
              case Passed(k) =>
                && r.0 == Message(200, ResetOk)
                && r.1 == t.(tokens := t.tokens[k := t.tokens[k].(used := true)],
                             users := t.users[u := t.users[u].(passwordHash := newHash)])
  {
    if !valid then (Invalid, t)
    else
      match UserByEmail(t, email)
      case None => (Message(400, ResetBadInfo), t)
      case Some(u) =>
        match CodeCheck(t, u, ResetPurpose, code, now, sha256, NoResetCode)
        case Refused(m) => (Message(400, m), t)
        case Passed(k) =>
          (Message(200, ResetOk), t.(tokens := t.tokens[k := t.tokens[k].(used := true)],
                                     users := t.users[u := t.users[u].(passwordHash := newHash)]))
  }

  /** `verifyResetCode` accepts a code exactly when `resetPassword` would accept it. */
  lemma ResetCodeCheckAgrees(t: Tables, email: string, code: string, newHash: string, now: int, sha256: string -> string)
    requires WellFormed(t)
    ensures ResetCodeChecked(t, email, code, now, sha256) == Message(200, CodeOk)
            <==> Reset(t, true, email, code, newHash, now, sha256).0 == Message(200, ResetOk)
  {
  }

  /**
    A reset code works once: after it succeeds the same request is refused as
    used, and a login afterwards is decided by the new hash.
  */
  lemma ResetOnce(t: Tables, email: string, code: string, newHash: string, now: int, now': int,
                  newHash': string, sha256: string -> string,
                  password: string, compare: (string, string) -> bool, sign: Claims -> string)
    requires WellFormed(t)
    requires Reset(t, true, email, code, newHash, now, sha256).0 == Message(200, ResetOk)
    ensures var t' := Reset(t, true, email, code, newHash, now, sha256).1;
            && Reset(t', true, email, code, newHash', now', sha256) == (Message(400, CodeUsed), t')
            && (LoggedIn(t', true, email, password, compare, sign) == Message(401, BadCredentials)
                <==> !compare(password, newHash))
  {
    var u := UserByEmail(t, email).value;
    var k := LatestToken(t, u, ResetPurpose).value;
    FirstAfterUpdate(t.users, HasEmail(email), t.nextId, u, t.users[u].(passwordHash := newHash));
    LatestAfterUpdate(t.tokens, OfPurpose(u, ResetPurpose), t.nextId, k, t.tokens[k].(used := true));
  }

  method ResetPassword(db: Db, valid: bool, email: string, code: string, newHash: string, now: int,
                       sha256: string -> string) returns (reply: Reply)
    modifies db
    requires db.Valid()
    ensures db.Valid()
    ensures (reply, db.Snapshot()) == Reset(old(db.Snapshot()), valid, email, code, newHash, now, sha256)
  {
    if !valid {
      return Invalid;
    }
    var user := UserByEmail(db.Snapshot(), email);
    if user.None? {
      return Message(400, ResetBadInfo);
    }
    var u := user.value;
    var check := CodeCheck(db.Snapshot(), u, ResetPurpose, code, now, sha256, NoResetCode);
    if check.Refused? {
      return Message(400, check.message);
    }
    var k := check.tokenId;
    db.SetToken(k, db.tokens[k].(used := true));
    db.SetUser(u, db.users[u].(passwordHash := newHash));
    reply := Message(200, ResetOk);
  }
}
