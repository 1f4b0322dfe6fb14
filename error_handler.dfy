/**
  The last two handlers of the server (errorHandler.js): `errorHandler`
  turns whatever a route threw into a status and a JSON body by trying a
  fixed list of rules in order, where the first that matches decides;
  `notFoundHandler` answers every request no route took.

  Logging to the console is left out. `NODE_ENV === "development"` is the
  parameter `development`.
*/
module ErrorHandler {
  import opened Wrappers
  import opened Text

  /** `err.code`: absent, text (Node's and PostgreSQL's codes) or a number (an HTTP status from a mail client). */
  datatype Code = NoCode | CodeText(text: string) | CodeNumber(n: int)

  /**
    The fields of the thrown value the handler reads. `errors` stands for the
    validator's list of problems, `hasResponse` for the truthiness of
    `err.response`.
  */
  datatype Err = Err(
    kind: Option<string>, code: Code, name: Option<string>, message: Option<string>,
    status: Option<int>, hasResponse: bool, errors: Option<seq<string>>, stack: Option<string>)

  /** A response: its status and the JSON body's keys, None being a key the body does not have. */
  datatype Reply = Reply(
    status: int, error: string, message: Option<string>, details: Option<seq<string>>,
    stack: Option<string>, path: Option<string>)

  /** One rule of the table: status, `error` and `message` of its reply. */
  datatype Rule = Rule(status: int, error: string, message: string)

  const InternalMessage := "Đã xảy ra lỗi hệ thống"
  const RouteMissing := "Đường dẫn không tồn tại"

  /** The rules in the order `errorHandler` tries them. */
  const Rules: seq<Rule> := [
    Rule(400, "Validation Error", "Dữ liệu đầu vào không hợp lệ"),
    Rule(503, "Service Unavailable", "Không thể kết nối với cơ sở dữ liệu"),
    Rule(409, "Conflict", "Dữ liệu đã tồn tại"),
    Rule(400, "Bad Request", "Tham chiếu dữ liệu không hợp lệ"),
    Rule(400, "Bad Request", "Thiếu thông tin bắt buộc"),
    Rule(401, "Unauthorized", "Token không hợp lệ"),
    Rule(401, "Unauthorized", "Token đã hết hạn"),
    Rule(403, "Forbidden", "Không có quyền truy cập"),
    Rule(404, "Not Found", "Cửa hàng không tồn tại"),
    Rule(500, "Email Service Error", "Không thể gửi email, vui lòng thử lại sau")
  ]

  /**
    `err.code` as `>=` and `<` read it against a number: a number as it is,
    the empty text as 0, decimal digits as their value; None is NaN, which
    compares false with everything.
  */
  function CodeValue(c: Code): (r: Option<int>)
    ensures c.CodeNumber? ==> r == Some(c.n)
    ensures c.CodeText? && AllDigits(c.text) ==> r == Some(DigitsValue(c.text))
    ensures c.NoCode? || (c.CodeText? && !AllDigits(c.text)) ==> r.None?
  {
    match c
    case NoCode => None
    case CodeNumber(n) => Some(n)
    case CodeText(s) => if AllDigits(s) then Some(DigitsValue(s)) else None
  }

  predicate HasCode(err: Err, code: string) {
    err.code == CodeText(code)
  }

  /** Whether rule i of the table applies to err. */
  predicate Matches(err: Err, i: nat)
    requires i < |Rules|
  {
    match i
    case 0 => err.kind == Some("validation")
    case 1 => HasCode(err, "ECONNREFUSED") || HasCode(err, "ENOTFOUND")
    case 2 => HasCode(err, "23505")
    case 3 => HasCode(err, "23503")
    case 4 => HasCode(err, "23502")
    case 5 => err.name == Some("JsonWebTokenError")
    case 6 => err.name == Some("TokenExpiredError")
    case 7 => err.message == Some("FORBIDDEN")
    case 8 => err.message == Some("STORE_NOT_FOUND")
    case _ => CodeValue(err.code).Some? && 400 <= CodeValue(err.code).value < 500 && err.hasResponse
  }

  /** The reply of rule i: only the validation rule carries `details`. */
  function RuleReply(err: Err, i: nat): (r: Reply)
    requires i < |Rules|
    ensures r.status == Rules[i].status && r.error == Rules[i].error && r.message == Some(Rules[i].message)
    ensures r.stack.None? && r.path.None? && (r.details.Some? ==> i == 0)
  {
    Reply(Rules[i].status, Rules[i].error, Some(Rules[i].message), if i == 0 then err.errors else None, None, None)
  }

  /**
    The reply when no rule applies: `err.status || 500`; the thrown message
    and the stack in development, a fixed message and no stack otherwise.
  */
  function DefaultReply(err: Err, development: bool): (r: Reply)
    ensures r.status == (if err.status.Some? && err.status.value != 0 then err.status.value else 500)
    ensures r.error == "Internal Server Error" && r.details.None? && r.path.None?
    ensures development ==> r.message == err.message && r.stack == err.stack
    ensures !development ==> r.message == Some(InternalMessage) && r.stack.None?
  {
    var status := if err.status.Some? && err.status.value != 0 then err.status.value else 500;
    if development then Reply(status, "Internal Server Error", err.message, None, err.stack, None)
    else Reply(status, "Internal Server Error", Some(InternalMessage), None, None, None)
  }

  /** `errorHandler(err, req, res, next)`: the ordered chain of tests. */
  function Handle(err: Err, development: bool): (r: Reply)
    ensures r.path.None?
    ensures r.details.Some? ==> err.kind == Some("validation") && r.details == err.errors
    ensures r.stack.Some? ==> development && r.stack == err.stack
  {
    if err.kind == Some("validation") then
      Reply(400, "Validation Error", Some("Dữ liệu đầu vào không hợp lệ"), err.errors, None, None)
    else if HasCode(err, "ECONNREFUSED") || HasCode(err, "ENOTFOUND") then
      Reply(503, "Service Unavailable", Some("Không thể kết nối với cơ sở dữ liệu"), None, None, None)
    else if HasCode(err, "23505") then
      Reply(409, "Conflict", Some("Dữ liệu đã tồn tại"), None, None, None)
    else if HasCode(err, "23503") then
      Reply(400, "Bad Request", Some("Tham chiếu dữ liệu không hợp lệ"), None, None, None)
    else if HasCode(err, "23502") then
      Reply(400, "Bad Request", Some("Thiếu thông tin bắt buộc"), None, None, None)
    else if err.name == Some("JsonWebTokenError") then
      Reply(401, "Unauthorized", Some("Token không hợp lệ"), None, None, None)
    else if err.name == Some("TokenExpiredError") then
      Reply(401, "Unauthorized", Some("Token đã hết hạn"), None, None, None)
    else if err.message == Some("FORBIDDEN") then
      Reply(403, "Forbidden", Some("Không có quyền truy cập"), None, None, None)
    else if err.message == Some("STORE_NOT_FOUND") then
      Reply(404, "Not Found", Some("Cửa hàng không tồn tại"), None, None, None)
    else if CodeValue(err.code).Some? && CodeValue(err.code).value >= 400 && CodeValue(err.code).value < 500
            && err.hasResponse then
      Reply(500, "Email Service Error", Some("Không thể gửi email, vui lòng thử lại sau"), None, None, None)
    else
      var status := if err.status.Some? && err.status.value != 0 then err.status.value else 500;
      Reply(status, "Internal Server Error", if development then err.message else Some(InternalMessage), None,
            if development then err.stack else None, None)
  }

  /** The first rule, from rule `from` on, that applies to err. */
  function FirstMatch(err: Err, from: nat): (r: Option<nat>)
    requires from <= |Rules|
    ensures r.Some? ==> from <= r.value < |Rules| && Matches(err, r.value)
    ensures r.Some? ==> forall j :: from <= j < r.value ==> !Matches(err, j)
    ensures r.None? ==> forall j :: from <= j < |Rules| ==> !Matches(err, j)
    decreases |Rules| - from
  {
    if from == |Rules| then None
    else if Matches(err, from) then Some(from)
    else FirstMatch(err, from + 1)
  }

  /**
    `errorHandler` is the rule table read top to bottom: the reply is that of
    the first rule that applies, and the default reply when none does.
  */
  lemma HandleIsFirstMatch(err: Err, development: bool)
    ensures Handle(err, development) ==
              match FirstMatch(err, 0)
              case Some(i) => RuleReply(err, i)
              case None => DefaultReply(err, development)
  {
    match FirstMatch(err, 0)
    case Some(i) =>
      assert forall j :: 0 <= j < i ==> !Matches(err, j);
      assert Matches(err, i);
    case None =>
      assert forall j :: 0 <= j < |Rules| ==> !Matches(err, j);
  }

  /** The constant messages `errorHandler` may answer with. */
  function FixedMessages(): (ms: set<string>)
    ensures InternalMessage in ms
    ensures forall i :: 0 <= i < |Rules| ==> Rules[i].message in ms
  {
    (set i | 0 <= i < |Rules| :: Rules[i].message) + {InternalMessage}
  }

  /**
    Outside development no reply carries a stack or any text of the thrown
    error: the message is one of the fixed ones, and the status is one of the
    table's or the error's own.
  */
  lemma ProductionHidesInternals(err: Err)
    ensures var r := Handle(err, false);
            && r.stack.None? && r.path.None?
            && r.message.Some? && r.message.value in FixedMessages()
            && (r.status in {400, 401, 403, 404, 409, 500, 503} || Some(r.status) == err.status)
  {
    HandleIsFirstMatch(err, false);
  }

  /** In development, an error no rule knows shows its own message and stack. */
  lemma DevelopmentShowsUnknownErrors(err: Err)
    requires FirstMatch(err, 0).None?
    ensures Handle(err, true).message == err.message && Handle(err, true).stack == err.stack
    ensures Handle(err, false).message == Some(InternalMessage)
  {
    HandleIsFirstMatch(err, true);
    HandleIsFirstMatch(err, false);
  }

  /**
    A plain `new Error(m)` of a service (a missing store, a permission
    refused) is not one the table knows: it answers 500, with m shown only
    in development.
  */
  lemma ServiceErrorIsInternal(m: string, stack: Option<string>, development: bool)
    requires m != "FORBIDDEN" && m != "STORE_NOT_FOUND"
    ensures var r := Handle(Err(None, NoCode, Some("Error"), Some(m), None, false, None, stack), development);
            && r.status == 500 && r.error == "Internal Server Error"
            && r.message == (if development then Some(m) else Some(InternalMessage))
  {
  }

  /** A validation error is answered as one, with its details, whatever other rule would also apply. */
  lemma ValidationComesFirst(err: Err, development: bool)
    requires err.kind == Some("validation")
    ensures Handle(err, development) == RuleReply(err, 0)
    ensures Handle(err, development).details == err.errors
  {
  }

  /**
    A mail client's error whose code is an HTTP status from 400 to 499 in
    decimal text is a mail failure (500) when it has a response, and falls
    through to the default reply when it has none.
  */
  lemma MailErrorCode(n: nat, development: bool)
    requires 400 <= n < 500
    ensures var err := Err(None, CodeText(NatToString(n)), None, None, None, true, None, None);
            Handle(err, development) == RuleReply(err, 9)
    ensures var err := Err(None, CodeText(NatToString(n)), None, None, None, false, None, None);
            Handle(err, development) == DefaultReply(err, development)
  {
    DigitsValueOfNatToString(n);
    assert |NatToString(n / 100)| == 1;
    assert |NatToString(n / 10)| == 2;
    assert |NatToString(n)| == 3;
  }

  /** `notFoundHandler(req, res)`: 404 with the path of the request. */
  function NotFound(path: string): (r: Reply)
    ensures r.status == 404 && r.path == Some(path) && r.message == Some(RouteMissing)
  {
    Reply(404, "Not Found", Some(RouteMissing), None, None, Some(path))
  }

  /** No reply of `errorHandler` can be taken for that of a missing route: only the latter has a path. */
  lemma NotFoundIsDistinct(err: Err, development: bool, path: string)
    ensures Handle(err, development) != NotFound(path)
  {
  }
}
