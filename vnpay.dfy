/**
  The VNPay payment gateway handlers of vnpay.routes.js.

  A JavaScript object of string values (`req.query`, `vnp_Params`) is a
  sequence of key/value pairs in insertion order; reading a property takes
  the last pair with that key, as repeated assignment does. HMAC-SHA512 is the
  parameter `sign(secret, data)`; the clock is a `Moment`; the environment
  variables are a `Config`.
*/
module Vnpay {
  import opened Wrappers
  import opened Text
  import opened Uri
  import opened KeySort
  import opened Pricing
  import opened Database

  /** A JavaScript object of string values, pairs in insertion order. */
  type Params = seq<(string, string)>

  /** A JavaScript object: no key twice. */
  predicate UniqueKeys(q: Params) {
    forall i, j :: 0 <= i < j < |q| ==> q[i].0 != q[j].0
  }

  /** `k in q` */
  predicate HasKey(q: Params, k: string) {
    exists i :: 0 <= i < |q| && q[i].0 == k
  }

  /** Some pair of q is (k, v). */
  predicate HasPair(q: Params, k: string, v: string) {
    exists i :: 0 <= i < |q| && q[i] == (k, v)
  }

  /** `q[k]`, None for `undefined`. */
  function Lookup(q: Params, k: string): (r: Option<string>)
    ensures r.None? <==> !HasKey(q, k)
    ensures r.Some? ==> HasPair(q, k, r.value)
    ensures UniqueKeys(q) ==> forall i :: 0 <= i < |q| && q[i].0 == k ==> r == Some(q[i].1)
  {
    if q == [] then None
    else if q[|q| - 1].0 == k then Some(q[|q| - 1].1)
    else
      var r := Lookup(q[..|q| - 1], k);
      assert forall i :: 0 <= i < |q| - 1 ==> q[..|q| - 1][i] == q[i];
      r
  }

  /** `delete q[k]` */
  function Without(q: Params, k: string): (r: Params)
    ensures forall i :: 0 <= i < |r| ==> r[i].0 != k
    ensures forall j :: HasKey(r, j) ==> HasKey(q, j)
    ensures !HasKey(q, k) ==> r == q
    decreases |q|
  {
    if q == [] then []
    else
      var init := q[..|q| - 1];
      var w := Without(init, k);
      var last := q[|q| - 1];
      assert forall j :: HasKey(init, j) ==> HasKey(q, j) by {
        forall j ensures HasKey(init, j) ==> HasKey(q, j) { HasKeyOfInit(q, j); }
      }
      if !HasKey(q, k) then
        assert q == init + [last];
        w + [last]
      else if last.0 == k then w
      else
        assert forall j :: HasKey(w + [last], j) ==> HasKey(w, j) || j == last.0 by {
          forall j | HasKey(w + [last], j) ensures HasKey(w, j) || j == last.0 {
            var i :| 0 <= i < |w| + 1 && (w + [last])[i].0 == j;
            if i < |w| { assert w[i].0 == j; }
          }
        }
        w + [last]
  }

  lemma HasKeyOfInit(q: Params, k: string)
    requires q != []
    ensures HasKey(q[..|q| - 1], k) ==> HasKey(q, k)
  {
    if HasKey(q[..|q| - 1], k) {
      var i :| 0 <= i < |q| - 1 && q[..|q| - 1][i].0 == k;
      assert q[i] == q[..|q| - 1][i];
    }
  }

  /** The keys sortObject keeps. */
  predicate IsVnpKey(k: string) {
    StartsWith(k, "vnp_")
  }

  /** The array `str` sortObject fills: the encoded keys that start with `vnp_`, in insertion order. */
  function EncodedVnpKeys(q: Params): seq<string> {
    if q == [] then []
    else
      var k := q[|q| - 1].0;
      EncodedVnpKeys(q[..|q| - 1]) + (if IsVnpKey(k) then [Encode(k)] else [])
  }

  /** The value `sorted[decodedKey]` gets for the key written e. */
  function Entry(q: Params, e: string): (string, string) {
    var k := Decode(e).GetOr(e);
    (k, FormEncode(Lookup(q, k).GetOr("undefined")))
  }

  function Entries(q: Params, es: seq<string>): (r: Params)
    ensures |r| == |es|
    ensures forall i :: 0 <= i < |es| ==> r[i] == Entry(q, es[i])
  {
    seq(|es|, i requires 0 <= i < |es| => Entry(q, es[i]))
  }

  /** What sortObject returns. */
  function Canonical(q: Params): (r: Params)
    ensures |r| == |EncodedVnpKeys(q)|
  {
    var keys := SortStrings(EncodedVnpKeys(q));
    assert |keys| == |multiset(keys)| == |multiset(EncodedVnpKeys(q))| == |EncodedVnpKeys(q)|;
    Entries(q, keys)
  }

  /** `e` is the encoding of some `vnp_` key of q. */
  predicate EncodesVnpKeyOf(q: Params, e: string) {
    exists i :: 0 <= i < |q| && IsVnpKey(q[i].0) && Encode(q[i].0) == e
  }

  lemma {:induction false} EncodedVnpKeysMembers(q: Params)
    ensures forall e :: e in EncodedVnpKeys(q) <==> EncodesVnpKeyOf(q, e)
  {
    if q != [] {
      var init := q[..|q| - 1];
      EncodedVnpKeysMembers(init);
      assert forall i :: 0 <= i < |init| ==> init[i] == q[i];
      forall e | EncodesVnpKeyOf(q, e) ensures e in EncodedVnpKeys(q) {
        var i :| 0 <= i < |q| && IsVnpKey(q[i].0) && Encode(q[i].0) == e;
        if i < |init| {
          assert EncodesVnpKeyOf(init, e);
        }
      }
      forall e | e in EncodedVnpKeys(q) ensures EncodesVnpKeyOf(q, e) {
        if e in EncodedVnpKeys(init) {
          var i :| 0 <= i < |init| && IsVnpKey(init[i].0) && Encode(init[i].0) == e;
          assert q[i] == init[i];
        } else {
          assert IsVnpKey(q[|q| - 1].0) && e == Encode(q[|q| - 1].0);
        }
      }
    }
  }

  /** No string occurs twice. */
  ghost predicate NoRepeats(s: seq<string>) {
    forall e :: multiset(s)[e] <= 1
  }

  /** The encoded keys of an object are all different. */
  lemma {:induction false} EncodedVnpKeysNoRepeats(q: Params)
    requires UniqueKeys(q)
    ensures NoRepeats(EncodedVnpKeys(q))
  {
    if q != [] {
      var init := q[..|q| - 1];
      var k := q[|q| - 1].0;
      assert forall i :: 0 <= i < |init| ==> init[i] == q[i];
      assert UniqueKeys(init);
      EncodedVnpKeysNoRepeats(init);
      if IsVnpKey(k) && Encode(k) in EncodedVnpKeys(init) {
        EncodedVnpKeysMembers(init);
        var i :| 0 <= i < |init| && IsVnpKey(init[i].0) && Encode(init[i].0) == Encode(k);
        EncodeInjective(init[i].0, k);
        assert false;
      }
    }
  }

  /** A string at two positions occurs twice. */
  lemma TwoCopies(s: seq<string>, i: nat, j: nat)
    requires i < j < |s| && s[i] == s[j]
    ensures multiset(s)[s[i]] >= 2
  {
    assert s == s[..j] + s[j..];
    assert s[i] in multiset(s[..j]);
    assert s[j] in multiset(s[j..]);
  }

  /** sortObject's entry for the encoding of a key of the object. */
  lemma EntryOfEncoded(q: Params, k: string)
    requires HasKey(q, k)
    ensures Entry(q, Encode(k)) == (k, FormEncode(Lookup(q, k).value))
  {
    DecodeEncode(k);
  }

  /** Position i of sortObject's result holds the i-th sorted encoded key. */
  lemma CanonicalAt(q: Params, i: nat)
    requires i < |Canonical(q)|
    ensures IsVnpKey(Canonical(q)[i].0) && HasKey(q, Canonical(q)[i].0)
    ensures Encode(Canonical(q)[i].0) == SortStrings(EncodedVnpKeys(q))[i]
    ensures Canonical(q)[i].1 == FormEncode(Lookup(q, Canonical(q)[i].0).value)
  {
    var es := EncodedVnpKeys(q);
    var s := SortStrings(es);
    assert Canonical(q)[i] == Entry(q, s[i]);
    EncodedVnpKeysMembers(q);
    assert s[i] in multiset(es);
    assert s[i] in es;
    assert EncodesVnpKeyOf(q, s[i]);
    var m :| 0 <= m < |q| && IsVnpKey(q[m].0) && Encode(q[m].0) == s[i];
    EntryOfEncoded(q, q[m].0);
    assert Canonical(q)[i] == (q[m].0, FormEncode(Lookup(q, q[m].0).value));
    assert HasKey(q, Canonical(q)[i].0);
  }

  /** sortObject keeps exactly the object's own keys that start with `vnp_`. */
  lemma CanonicalKeys(q: Params)
    ensures forall k :: HasKey(Canonical(q), k) <==> HasKey(q, k) && IsVnpKey(k)
  {
    var c := Canonical(q);
    var s := SortStrings(EncodedVnpKeys(q));
    forall k | HasKey(c, k) ensures HasKey(q, k) && IsVnpKey(k) {
      var i :| 0 <= i < |c| && c[i].0 == k;
      CanonicalAt(q, i);
    }
    forall k | HasKey(q, k) && IsVnpKey(k) ensures HasKey(c, k) {
      var m :| 0 <= m < |q| && q[m].0 == k;
      EncodedVnpKeysMembers(q);
      assert EncodesVnpKeyOf(q, Encode(k));
      assert Encode(k) in multiset(s);
      var i :| 0 <= i < |s| && s[i] == Encode(k);
      CanonicalAt(q, i);
      EncodeInjective(c[i].0, k);
    }
  }

  /** sortObject orders the keys strictly by their encoded form, so no key appears twice. */
  lemma CanonicalAscending(q: Params)
    requires UniqueKeys(q)
    ensures forall i, j :: 0 <= i < j < |Canonical(q)| ==> Below(Encode(Canonical(q)[i].0), Encode(Canonical(q)[j].0))
    ensures UniqueKeys(Canonical(q))
  {
    var c := Canonical(q);
    var s := SortStrings(EncodedVnpKeys(q));
    EncodedVnpKeysNoRepeats(q);
    forall i, j | 0 <= i < j < |c| ensures Below(Encode(c[i].0), Encode(c[j].0)) {
      CanonicalAt(q, i);
      CanonicalAt(q, j);
      if s[i] == s[j] {
        TwoCopies(s, i, j);
      }
    }
    forall i, j | 0 <= i < j < |c| ensures c[i].0 != c[j].0 {
      BelowIrreflexive(Encode(c[i].0));
    }
  }

  /** sortObject gives each kept key the form encoding of its value. */
  lemma CanonicalValues(q: Params)
    ensures forall i :: 0 <= i < |Canonical(q)| ==>
              Lookup(q, Canonical(q)[i].0).Some? && Canonical(q)[i].1 == FormEncode(Lookup(q, Canonical(q)[i].0).value)
  {
    forall i | 0 <= i < |Canonical(q)|
      ensures Lookup(q, Canonical(q)[i].0).Some? && Canonical(q)[i].1 == FormEncode(Lookup(q, Canonical(q)[i].0).value)
    {
      CanonicalAt(q, i);
    }
  }

  /** `sortObject(obj)` */
  method SortObject(obj: Params) returns (sorted: Params)
    ensures sorted == Canonical(obj)
  {
    var keys := CollectKeys(obj);
    var str := new string[|keys|](i requires 0 <= i < |keys| => keys[i]);
    assert str[..] == keys;
    SortInPlace(str);
    SortedUnique(str[..], SortStrings(keys));
    EncodedVnpKeysMembers(obj);
    sorted := FillSorted(obj, str);
  }

  /** The first loop of sortObject: push the encoding of every `vnp_` key. */
  method CollectKeys(obj: Params) returns (keys: seq<string>)
    ensures keys == EncodedVnpKeys(obj)
  {
    keys := [];
    var n := 0;
    while n < |obj|
      invariant 0 <= n <= |obj|
      invariant keys == EncodedVnpKeys(obj[..n])
    {
      assert obj[..n + 1][..n] == obj[..n];
      if IsVnpKey(obj[n].0) {
        keys := keys + [Encode(obj[n].0)];
      }
      n := n + 1;
    }
    assert obj[..|obj|] == obj;
  }

  /** The second loop of sortObject: `sorted[decodedKey] = ...` for each sorted key in turn. */
  method FillSorted(obj: Params, str: array<string>) returns (sorted: Params)
    requires forall e :: e in multiset(str[..]) ==> EncodesVnpKeyOf(obj, e)
    ensures sorted == Entries(obj, str[..])
  {
    sorted := [];
    var k := 0;
    while k < str.Length
      invariant 0 <= k <= str.Length
      invariant sorted == Entries(obj, str[..k])
    {
      assert str[..][k] == str[k];
      EntryOfVnpKey(obj, str[k]);
      var decodedKey := Decode(str[k]).value;
      sorted := sorted + [(decodedKey, FormEncode(Lookup(obj, decodedKey).GetOr("undefined")))];
      assert Entries(obj, str[..k + 1]) == Entries(obj, str[..k]) + [Entry(obj, str[k])];
      k := k + 1;
    }
    assert str[..str.Length] == str[..];
  }

  /** A collected key decodes, and its entry is keyed by the decoded name. */
  lemma EntryOfVnpKey(q: Params, e: string)
    requires EncodesVnpKeyOf(q, e)
    ensures Decode(e).Some? && Entry(q, e) == (Decode(e).value, FormEncode(Lookup(q, Decode(e).value).GetOr("undefined")))
  {
    var m :| 0 <= m < |q| && IsVnpKey(q[m].0) && Encode(q[m].0) == e;
    DecodeEncode(q[m].0);
  }

  // ----- Reading the sorted parameters -----

  /** Reading a `vnp_` key of sortObject's result gives the form encoding of the object's value. */
  lemma LookupCanonical(q: Params, k: string)
    requires IsVnpKey(k)
    ensures Lookup(Canonical(q), k) == (if HasKey(q, k) then Some(FormEncode(Lookup(q, k).value)) else None)
  {
    CanonicalKeys(q);
    var r := Lookup(Canonical(q), k);
    if r.Some? {
      var i :| 0 <= i < |Canonical(q)| && Canonical(q)[i] == (k, r.value);
      CanonicalValues(q);
    }
  }

  /** Deleting one key leaves every other key's value as it was. */
  lemma {:induction false} LookupWithout(q: Params, h: string, k: string)
    requires k != h
    ensures Lookup(Without(q, h), k) == Lookup(q, k)
    decreases |q|
  {
    if q != [] && HasKey(q, h) {
      var init := q[..|q| - 1];
      LookupWithout(init, h, k);
      var w := Without(init, h);
      if q[|q| - 1].0 != h {
        assert (w + [q[|q| - 1]])[..|w|] == w;
      }
    }
  }

  const HashKey := "vnp_SecureHash"
  const HashTypeKey := "vnp_SecureHashType"

  /** The parameters the signature covers: `delete` of the hash and its type. */
  function Stripped(q: Params): (r: Params)
    ensures !HasKey(r, HashKey) && !HasKey(r, HashTypeKey)
    ensures forall k :: k != HashKey && k != HashTypeKey ==> Lookup(r, k) == Lookup(q, k)
  {
    var r := Without(Without(q, HashKey), HashTypeKey);
    forall k | k != HashKey && k != HashTypeKey ensures Lookup(r, k) == Lookup(q, k) {
      LookupWithout(Without(q, HashKey), HashTypeKey, k);
      LookupWithout(q, HashKey, k);
    }
    r
  }

  /**
    What a handler reads for a `vnp_` key of a callback other than the hash
    keys: the form encoding of the value the callback carries.
  */
  lemma ReceivedParam(q: Params, k: string)
    requires IsVnpKey(k) && |k| != |HashKey| && |k| != |HashTypeKey|
    ensures Lookup(Canonical(Stripped(q)), k) == (if HasKey(q, k) then Some(FormEncode(Lookup(q, k).value)) else None)
  {
    assert Lookup(Stripped(q), k) == Lookup(q, k);
    LookupCanonical(Stripped(q), k);
  }

  /** `qs.stringify(p, { encode: false })`: `k=v` for each pair in order, joined by `&`. */
  function Stringify(p: Params): (r: string)
    ensures p == [] ==> r == ""
    ensures p != [] ==> var first := p[0].0 + "=" + p[0].1; |first| <= |r| && r[..|first|] == first
  {
    Join(seq(|p|, i requires 0 <= i < |p| => p[i].0 + "=" + p[i].1), "&")
  }

  /** HMAC-SHA512 of the data under the secret, in hex: a parameter of the model. */
  type Signer = (string, string) -> string

  /** The signature of the parameters a request carries: of the sorted parameters without the hash. */
  function Signature(q: Params, secret: string, sign: Signer): (r: string)
    ensures !HasKey(q, HashKey) && !HasKey(q, HashTypeKey) ==> r == sign(secret, Stringify(Canonical(q)))
  {
    sign(secret, Stringify(Canonical(Stripped(q))))
  }

  /** `secureHash === signed` */
  predicate ChecksumOk(q: Params, secret: string, sign: Signer)
    ensures ChecksumOk(q, secret, sign) ==> HasKey(q, HashKey)
  {
    Lookup(q, HashKey) == Some(Signature(q, secret, sign))
  }

  /**
    Signing round trip: parameters with the hash of their own sorted form
    appended pass the check that the return and IPN handlers make.
  */
  lemma SignedParamsPass(q: Params, secret: string, sign: Signer)
    requires !HasKey(q, HashKey) && !HasKey(q, HashTypeKey)
    ensures ChecksumOk(q + [(HashKey, sign(secret, Stringify(Canonical(q))))], secret, sign)
  {
    var h := sign(secret, Stringify(Canonical(q)));
    var u := q + [(HashKey, h)];
    assert u[..|q|] == q;
    HasKeyOfInit(u, HashTypeKey);
    assert !HasKey(u[..|u| - 1], HashTypeKey);
    assert Without(u, HashKey) == Without(q, HashKey);
    assert Stripped(u) == q;
  }

  // ----- createPaymentUrl -----

  /** The environment variables the handlers read. */
  datatype Config = Config(
    tmnCode: string, hashSecret: string, vnpUrl: string, returnUrl: string,
    frontendRedirect: Option<string>)

  /** The moment `new Date()` gives, in local time. */
  datatype Moment = Moment(year: nat, month: nat, day: nat, hour: nat, minute: nat, second: nat)

  predicate ValidMoment(m: Moment) {
    m.year < 10000 && 1 <= m.month <= 12 && 1 <= m.day <= 31
    && m.hour < 24 && m.minute < 60 && m.second < 60
  }

  /** moment's `HHmmss` */
  function TimeOfDay(m: Moment): (s: string)
    requires ValidMoment(m)
    ensures |s| == 6 && AllDigits(s)
  {
    Pad2(m.hour) + Pad2(m.minute) + Pad2(m.second)
  }

  /** moment's `YYYYMMDDHHmmss` */
  function CreateDate(m: Moment): (s: string)
    requires ValidMoment(m)
    ensures |s| == 14 && AllDigits(s)
  {
    Pad4(m.year) + Pad2(m.month) + Pad2(m.day) + TimeOfDay(m)
  }

  /** `${orderId}_${HHmmss}`: the transaction reference, new for each URL. */
  function TxnRef(orderId: string, m: Moment): (r: string)
    requires ValidMoment(m)
    ensures |r| == |orderId| + 7 && r[..|orderId|] == orderId && r[|orderId|] == '_'
    ensures AllDigits(r[|orderId| + 1..])
  {
    orderId + "_" + TimeOfDay(m)
  }

  /**
    The request body: `orderId` as text, "" standing for a falsy value;
    `amount` in dong, any number the validator lets through, 0 standing for
    a falsy value; `language` None when undefined (it defaults to "vn");
    `bankCode` None when undefined or null.
  */
  datatype PaymentRequest = PaymentRequest(orderId: string, amount: real, language: Option<string>, bankCode: Option<string>)

  /**
    JavaScript's text of a number that has a fractional part (the shortest
    decimal that reads back as the same double): a parameter of the model.
  */
  type NumberShow = real -> string

  /** `String(x)`: the decimal text of a whole number, `show(x)` for any other. */
  function NumberText(x: real, show: NumberShow): string {
    if x == x.Floor as real then IntToString(x.Floor) else show(x)
  }

  /** At most two decimals: a hundred times the amount is whole. */
  predicate WholeHundredths(amount: real) {
    amount * 100.0 == (amount * 100.0).Floor as real
  }

  const MissingOrderMessage := "Thiếu thông tin đơn hàng hoặc số tiền"

  /** `bankCode !== null && bankCode !== ""` after the default "" for undefined. */
  predicate BankCodeGiven(bankCode: Option<string>) {
    bankCode.Some? && bankCode.value != ""
  }

  /** The keys of `vnp_Params` in the order the handler assigns them, the bank code last. */
  const PaymentKeys: seq<string> :=
    ["vnp_Version", "vnp_Command", "vnp_TmnCode", "vnp_Locale", "vnp_CurrCode", "vnp_TxnRef", "vnp_OrderInfo",
     "vnp_OrderType", "vnp_Amount", "vnp_ReturnUrl", "vnp_IpAddr", "vnp_CreateDate", "vnp_BankCode"]

  /** Every payment key starts with `vnp_` and none is one of the two hash keys. */
  lemma PaymentKeysPlain()
    ensures forall i :: 0 <= i < |PaymentKeys| ==>
              IsVnpKey(PaymentKeys[i]) && PaymentKeys[i] != HashKey && PaymentKeys[i] != HashTypeKey
  {
    forall i | 0 <= i < |PaymentKeys|
      ensures IsVnpKey(PaymentKeys[i]) && PaymentKeys[i] != HashKey && PaymentKeys[i] != HashTypeKey
    {
      var k := PaymentKeys[i];
      assert k[..4] == "vnp_" && k[4] != 'S';
    }
  }

  /**
    `vnp_Params` before sorting, in the order the handler assigns them: the
    twelve fixed keys, then the bank code when one is given; no key is a
    hash key, so the signature covers every one of them.
  */
  function PaymentParams(cfg: Config, req: PaymentRequest, m: Moment, ipAddr: string, show: NumberShow): (r: Params)
    requires ValidMoment(m)
    ensures |r| == if BankCodeGiven(req.bankCode) then 13 else 12
    ensures forall i :: 0 <= i < |r| ==> r[i].0 == PaymentKeys[i]
    ensures forall i :: 0 <= i < |r| ==> IsVnpKey(r[i].0)
    ensures !HasKey(r, HashKey) && !HasKey(r, HashTypeKey)
  {
    PaymentKeysPlain();
    [("vnp_Version", "2.1.0"), ("vnp_Command", "pay"), ("vnp_TmnCode", cfg.tmnCode),
     ("vnp_Locale", req.language.GetOr("vn")), ("vnp_CurrCode", "VND"),
     ("vnp_TxnRef", TxnRef(req.orderId, m)), ("vnp_OrderInfo", "Thanh toan don hang " + req.orderId),
     ("vnp_OrderType", "other"), ("vnp_Amount", NumberText(req.amount * 100.0, show)),
     ("vnp_ReturnUrl", cfg.returnUrl), ("vnp_IpAddr", ipAddr), ("vnp_CreateDate", CreateDate(m))]
    + (if BankCodeGiven(req.bankCode) then [("vnp_BankCode", req.bankCode.value)] else [])
  }

  /**
    createPaymentUrl: the 400 message when the order id or the amount is
    missing, otherwise the payment URL, whose query is the sorted parameters
    followed by their signature.
  */
  function PaymentUrl(cfg: Config, req: PaymentRequest, m: Moment, ipAddr: string, show: NumberShow, sign: Signer)
    : (r: Result<string>)
    requires ValidMoment(m)
    ensures r.Failure? <==> req.orderId == "" || req.amount == 0.0
    ensures r.Failure? ==> r.error == MissingOrderMessage
    ensures r.Success? ==>
              var sorted := Canonical(PaymentParams(cfg, req, m, ipAddr, show));
              r.value == cfg.vnpUrl + "?" + Stringify(sorted + [(HashKey, sign(cfg.hashSecret, Stringify(sorted)))])
  {
    if req.orderId == "" || req.amount == 0.0 then Failure(MissingOrderMessage)
    else
      var sorted := Canonical(PaymentParams(cfg, req, m, ipAddr, show));
      var signed := sign(cfg.hashSecret, Stringify(sorted));
      Success(cfg.vnpUrl + "?" + Stringify(sorted + [(HashKey, signed)]))
  }

  /** The createPaymentUrl handler. */
  method CreatePaymentUrl(cfg: Config, req: PaymentRequest, m: Moment, ipAddr: string, show: NumberShow, sign: Signer)
    returns (r: Result<string>)
    requires ValidMoment(m)
    ensures r == PaymentUrl(cfg, req, m, ipAddr, show, sign)
  {
    if req.orderId == "" || req.amount == 0.0 {
      return Failure(MissingOrderMessage);
    }
    var vnpParams := PaymentParams(cfg, req, m, ipAddr, show);
    vnpParams := SortObject(vnpParams);
    var signData := Stringify(vnpParams);
    var signed := sign(cfg.hashSecret, signData);
    vnpParams := vnpParams + [(HashKey, signed)];
    r := Success(cfg.vnpUrl + "?" + Stringify(vnpParams));
  }

  /** Every character of a decimal integer is left as it is by the encoding. */
  lemma IntToStringUnreserved(n: int)
    ensures forall i :: 0 <= i < |IntToString(n)| ==> Unreserved(IntToString(n)[i])
  {
    var s := IntToString(n);
    forall i | 0 <= i < |s| ensures Unreserved(s[i]) {
      if n < 0 && i > 0 { assert s[1..][i - 1] == s[i]; }
    }
  }

  /** The signed `vnp_BankCode` is there exactly when the request gave a non-empty bank code. */
  lemma PaymentBankCode(cfg: Config, req: PaymentRequest, m: Moment, ipAddr: string, show: NumberShow)
    requires ValidMoment(m)
    ensures HasKey(Canonical(PaymentParams(cfg, req, m, ipAddr, show)), "vnp_BankCode") <==> BankCodeGiven(req.bankCode)
    ensures BankCodeGiven(req.bankCode) ==>
              Lookup(Canonical(PaymentParams(cfg, req, m, ipAddr, show)), "vnp_BankCode") == Some(FormEncode(req.bankCode.value))
  {
    BankCodeParam(cfg, req, m, ipAddr, show);
    SortedBankCode(PaymentParams(cfg, req, m, ipAddr, show), req.bankCode);
  }

  lemma SortedBankCode(p: Params, bankCode: Option<string>)
    requires Lookup(p, "vnp_BankCode") == (if BankCodeGiven(bankCode) then Some(bankCode.value) else None)
    ensures HasKey(Canonical(p), "vnp_BankCode") <==> BankCodeGiven(bankCode)
    ensures BankCodeGiven(bankCode) ==> Lookup(Canonical(p), "vnp_BankCode") == Some(FormEncode(bankCode.value))
  {
    var k := "vnp_BankCode";
    assert IsVnpKey(k) by { assert k[..4] == "vnp_"; }
    LookupCanonical(p, k);
    assert HasKey(p, k) <==> BankCodeGiven(bankCode);
    var c := Canonical(p);
    assert HasKey(c, k) <==> Lookup(c, k).Some?;
  }

  lemma BankCodeParam(cfg: Config, req: PaymentRequest, m: Moment, ipAddr: string, show: NumberShow)
    requires ValidMoment(m)
    ensures Lookup(PaymentParams(cfg, req, m, ipAddr, show), "vnp_BankCode")
            == (if BankCodeGiven(req.bankCode) then Some(req.bankCode.value) else None)
  {
    var p := PaymentParams(cfg, req, m, ipAddr, show);
    assert forall i :: 0 <= i < 12 ==> p[i].0 != "vnp_BankCode";
  }

  // ----- What VNPay sends back -----

  /** `vnp_Params["vnp_TxnRef"]?.split("_")[0]` */
  function TxnOrderId(sorted: Params): Option<string> {
    match Lookup(sorted, "vnp_TxnRef")
    case None => None
    case Some(t) => Some(BeforeFirst(t, '_'))
  }

  /** `vnp_Params["vnp_Amount"] ? parseInt(vnp_Params["vnp_Amount"], 10) / 100 : undefined` */
  function NoticeAmount(v: Option<string>): Num {
    if v.None? || v.value == "" then Absent
    else
      match ParseInt(v.value)
      case None => NotANumber
      case Some(n) => Finite(n as real / 100.0)
  }

  /**
    The order id round trip: a callback that carries the transaction
    reference createPaymentUrl wrote for order n (`${n}_HHmmss`) gives back n.
  */
  lemma TxnRefRoundTrip(n: int, m: Moment, q: Params)
    requires n >= 1 && ValidMoment(m)
    requires Lookup(q, "vnp_TxnRef") == Some(TxnRef(IntToString(n), m))
    ensures TxnOrderId(Canonical(Stripped(q))) == Some(IntToString(n))
    ensures ParseInt(IntToString(n)) == Some(n)
  {
    var id := IntToString(n);
    TxnRefUnreserved(n, m);
    ReceivedParam(q, "vnp_TxnRef");
    var v := Lookup(Canonical(Stripped(q)), "vnp_TxnRef");
    assert v == Some(TxnRef(id, m));
    IdHasNoUnderscore(n);
    BeforeFirstOfJoined(id, '_', TimeOfDay(m));
    TxnOrderIdOf(Canonical(Stripped(q)), TxnRef(id, m));
    ParseIntOfIntToString(n);
  }

  lemma IdHasNoUnderscore(n: int)
    requires n >= 1
    ensures forall i :: 0 <= i < |IntToString(n)| ==> IntToString(n)[i] != '_'
  {
  }

  lemma TxnOrderIdOf(sorted: Params, t: string)
    requires Lookup(sorted, "vnp_TxnRef") == Some(t)
    ensures TxnOrderId(sorted) == Some(BeforeFirst(t, '_'))
  {
  }

  /** The transaction reference is made of unreserved characters, so form encoding keeps it. */
  lemma TxnRefUnreserved(n: int, m: Moment)
    requires n >= 1 && ValidMoment(m)
    ensures FormEncode(TxnRef(IntToString(n), m)) == TxnRef(IntToString(n), m)
  {
    var id := IntToString(n);
    var t := TxnRef(id, m);
    IntToStringUnreserved(n);
    assert t == id + ['_'] + TimeOfDay(m);
    forall i | 0 <= i < |t| ensures Unreserved(t[i]) {
      if i < |id| { assert t[i] == id[i]; }
      else if i > |id| { assert t[i] == TimeOfDay(m)[i - |id| - 1]; }
    }
    FormEncodeOfUnreserved(t);
  }

  /**
    The amount round trip: a callback that carries the `vnp_Amount` text
    createPaymentUrl wrote (`String(amount * 100)`) reads back the amount,
    for every amount with at most two decimals.
  */
  lemma {:induction false} AmountRoundTrip(amount: real, show: NumberShow, q: Params)
    requires WholeHundredths(amount)
    requires Lookup(q, "vnp_Amount") == Some(NumberText(amount * 100.0, show))
    ensures NoticeAmount(Lookup(Canonical(Stripped(q)), "vnp_Amount")) == Finite(amount)
  {
    var k := (amount * 100.0).Floor;
    WholeAmountText(amount, show, k);
    IntToStringUnreserved(k);
    ReceivedAmountText(q, IntToString(k));
    NoticeAmountOfIntText(k, amount);
  }

  /** A hundred times an amount with at most two decimals is written as the integer k it is. */
  lemma WholeAmountText(amount: real, show: NumberShow, k: int)
    requires WholeHundredths(amount) && k == (amount * 100.0).Floor
    ensures NumberText(amount * 100.0, show) == IntToString(k)
    ensures k as real / 100.0 == amount
  {
  }

  /** `parseInt(String(k), 10) / 100` */
  lemma NoticeAmountOfIntText(k: int, amount: real)
    requires k as real / 100.0 == amount
    ensures NoticeAmount(Some(IntToString(k))) == Finite(amount)
  {
    ParseIntOfIntToString(k);
  }

  /** An amount text made of unreserved characters reaches the handlers as it was sent. */
  lemma ReceivedAmountText(q: Params, s: string)
    requires Lookup(q, "vnp_Amount") == Some(s)
    requires forall i :: 0 <= i < |s| ==> Unreserved(s[i])
    ensures Lookup(Canonical(Stripped(q)), "vnp_Amount") == Some(s)
  {
    FormEncodeOfUnreserved(s);
    ReceivedParam(q, "vnp_Amount");
  }

  /**
    An amount with a fraction of a hundredth: `String(amount * 100)` has a
    point, which parseInt stops at, so the callback reads back the amount
    cut down to whole hundredths, which is not the amount; the IPN then
    answers "04" for the order of that amount.
  */
  lemma {:induction false} FractionalAmountNotReadBack(amount: real, k: nat, show: NumberShow, frac: string, q: Params)
    requires amount > 0.0 && !WholeHundredths(amount) && k == (amount * 100.0).Floor
    requires AllDigits(frac)
    requires show(amount * 100.0) == NatToString(k) + "." + frac
    requires Lookup(q, "vnp_Amount") == Some(NumberText(amount * 100.0, show))
    ensures NoticeAmount(Lookup(Canonical(Stripped(q)), "vnp_Amount")) == Finite(k as real / 100.0)
    ensures NoticeAmount(Lookup(Canonical(Stripped(q)), "vnp_Amount")) != Finite(amount)
  {
    FractionalAmountCutDown(amount, k, show, frac, q);
    HundredthsDiffer(amount, k);
  }

  /** The callback of such an amount reads back its whole hundredths k. */
  lemma {:induction false} FractionalAmountCutDown(amount: real, k: nat, show: NumberShow, frac: string, q: Params)
    requires amount > 0.0 && !WholeHundredths(amount) && k == (amount * 100.0).Floor
    requires AllDigits(frac)
    requires show(amount * 100.0) == NatToString(k) + "." + frac
    requires Lookup(q, "vnp_Amount") == Some(NumberText(amount * 100.0, show))
    ensures NoticeAmount(Lookup(Canonical(Stripped(q)), "vnp_Amount")) == Finite(k as real / 100.0)
  {
    FractionText(amount * 100.0, show, NatToString(k) + "." + frac);
    PointedNotice(q, k, frac);
  }

  /** A number with a fractional part is written as `show` writes it. */
  lemma FractionText(x: real, show: NumberShow, s: string)
    requires x != x.Floor as real && show(x) == s
    ensures NumberText(x, show) == s
  {
  }

  /** A callback carrying the text of k, a point and digits reads back k hundredths. */
  lemma {:induction false} PointedNotice(q: Params, k: nat, frac: string)
    requires AllDigits(frac)
    requires Lookup(q, "vnp_Amount") == Some(NatToString(k) + "." + frac)
    ensures NoticeAmount(Lookup(Canonical(Stripped(q)), "vnp_Amount")) == Finite(k as real / 100.0)
  {
    ReceivedPointedText(q, NatToString(k), frac);
    NoticeAmountOfPointedText(k, frac);
  }

  /** A pointed amount text made of digits reaches the handlers as it was sent. */
  lemma ReceivedPointedText(q: Params, w: string, frac: string)
    requires AllDigits(w) && AllDigits(frac)
    requires Lookup(q, "vnp_Amount") == Some(w + "." + frac)
    ensures Lookup(Canonical(Stripped(q)), "vnp_Amount") == Some(w + "." + frac)
  {
    PointedTextUnreserved(w, frac);
    ReceivedAmountText(q, w + "." + frac);
  }

  /** `parseInt(w + "." + frac, 10) / 100` for the text w of a natural number k. */
  lemma NoticeAmountOfPointedText(k: nat, frac: string)
    ensures NoticeAmount(Some(NatToString(k) + "." + frac)) == Finite(k as real / 100.0)
  {
    assert NatToString(k) + "." + frac == NatToString(k) + ("." + frac);
    ParseIntOfNatToStringThen(k, "." + frac);
  }

  lemma PointedTextUnreserved(w: string, frac: string)
    requires AllDigits(w) && AllDigits(frac)
    ensures forall i :: 0 <= i < |w + "." + frac| ==> Unreserved((w + "." + frac)[i])
  {
    var s := w + "." + frac;
    forall i | 0 <= i < |s| ensures Unreserved(s[i]) {
      if i < |w| { assert s[i] == w[i]; }
      else if i > |w| { assert s[i] == frac[i - |w| - 1]; }
    }
  }

  lemma HundredthsDiffer(amount: real, k: int)
    requires !WholeHundredths(amount) && k == (amount * 100.0).Floor
    ensures k as real / 100.0 != amount
  {
  }

  // ----- getVnpResponseMessage -----

  const ResponseMessages: map<string, string> := map[
    "00" := "Giao dịch thành công",
    "07" := "Trừ tiền thành công. Giao dịch bị nghi ngờ (liên hệ VNPAY).",
    "09" := "Thẻ/Tài khoản chưa đăng ký Internet Banking.",
    "10" := "Thẻ/Tài khoản xác thực không thành công.",
    "11" := "Giao dịch chờ xác nhận OTP.",
    "12" := "Thẻ/Tài khoản hết hạn.",
    "13" := "Nhập sai OTP quá số lần quy định.",
    "24" := "Hủy giao dịch.",
    "51" := "Tài khoản không đủ số dư.",
    "65" := "Tài khoản bị khóa.",
    "75" := "Ngân hàng bảo trì.",
    "79" := "Khách hàng nhập sai mật khẩu thanh toán quá số lần quy định.",
    "99" := "Lỗi không xác định."]

  const DefaultResponseMessage := "Giao dịch thất bại"

  /**
    `messages[responseCode] || "Giao dịch thất bại"`: since no message in the
    table is empty, a listed code gets its message and any other code (or
    none) the default.
  */
  function ResponseMessage(code: Option<string>): (r: string)
    ensures code.Some? && code.value in ResponseMessages ==> r == ResponseMessages[code.value]
    ensures !(code.Some? && code.value in ResponseMessages) ==> r == DefaultResponseMessage
  {
    var m := if code.Some? && code.value in ResponseMessages then ResponseMessages[code.value] else "";
    if m != "" then m else DefaultResponseMessage
  }

  // ----- vnpayReturn -----

  /** `process.env.FRONTEND_PAYMENT_REDIRECT_URL || "/"` */
  function RedirectBase(cfg: Config): string {
    if cfg.frontendRedirect.Some? && cfg.frontendRedirect.value != "" then cfg.frontendRedirect.value else "/"
  }

  /** Where the return handler sends the browser: the base URL and the fields of its query. */
  datatype ReturnPage = ReturnPage(
    redirect: string, orderId: Option<string>, txnRef: Option<string>, responseCode: Option<string>,
    transactionStatus: Option<string>, status: string, message: string)

  const ChecksumMessage := "Checksum không hợp lệ"

  /** The message V8 gives the TypeError of calling `split` on undefined. */
  const SplitOfUndefined := "Cannot read properties of undefined (reading 'split')"

  /** The page for the given order id; the status and message are set by the checksum. */
  function PageFor(cfg: Config, q: Params, sign: Signer, orderId: Option<string>): ReturnPage {
    var sorted := Canonical(Stripped(q));
    var rc := Lookup(sorted, "vnp_ResponseCode");
    var ok := ChecksumOk(q, cfg.hashSecret, sign);
    ReturnPage(RedirectBase(cfg), orderId, Lookup(sorted, "vnp_TxnRef"), rc, Lookup(sorted, "vnp_TransactionStatus"),
               if ok && rc == Some("00") then "success" else "failed",
               if ok then ResponseMessage(rc) else ChecksumMessage)
  }

  /**
    vnpayReturn as written: `vnp_Params["vnp_TxnRef"].split("_")[0]` throws
    when the callback has no transaction reference.
  */
  function ReturnAsWritten(cfg: Config, q: Params, sign: Signer): (r: Result<ReturnPage>)
    ensures r.Failure? ==> r.error == SplitOfUndefined
    ensures r.Success? ==> r.value.orderId.Some? && r.value.redirect == RedirectBase(cfg)
  {
    match Lookup(Canonical(Stripped(q)), "vnp_TxnRef")
    case None => Failure(SplitOfUndefined)
    case Some(t) => Success(PageFor(cfg, q, sign, Some(BeforeFirst(t, '_'))))
  }

  /** vnpayReturn with the optional chaining the IPN handler uses: always a redirect. */
  function Return(cfg: Config, q: Params, sign: Signer): (p: ReturnPage)
    ensures p.redirect == RedirectBase(cfg)
    ensures p.status == "success" || p.status == "failed"
    ensures p.status == "success" ==> p.responseCode == Some("00") && p.message == ResponseMessage(p.responseCode)
  {
    PageFor(cfg, q, sign, TxnOrderId(Canonical(Stripped(q))))
  }

  /** The return handler (with the optional chaining); it reads no table and writes none. */
  method VnpayReturn(cfg: Config, q: Params, sign: Signer) returns (page: ReturnPage)
    ensures page == Return(cfg, q, sign)
  {
    var secureHash := Lookup(q, HashKey);
    var vnpParams := Stripped(q);
    vnpParams := SortObject(vnpParams);
    var signed := sign(cfg.hashSecret, Stringify(vnpParams));
    var txnRef := Lookup(vnpParams, "vnp_TxnRef");
    var orderId := if txnRef.Some? then Some(BeforeFirst(txnRef.value, '_')) else None;
    var responseCode := Lookup(vnpParams, "vnp_ResponseCode");
    var status, message;
    if secureHash == Some(signed) {
      status := if responseCode == Some("00") then "success" else "failed";
      message := ResponseMessage(responseCode);
    } else {
      status := "failed";
      message := ChecksumMessage;
    }
    page := ReturnPage(RedirectBase(cfg), orderId, txnRef, responseCode,
                       Lookup(vnpParams, "vnp_TransactionStatus"), status, message);
  }

  /**
    The return page reports success exactly for a correctly signed callback
    whose response code is "00"; a wrongly signed one always gets the
    checksum message.
  */
  lemma ReturnReport(cfg: Config, q: Params, sign: Signer)
    ensures Return(cfg, q, sign).status == "success" <==>
              ChecksumOk(q, cfg.hashSecret, sign) && Lookup(q, "vnp_ResponseCode") == Some("00")
    ensures !ChecksumOk(q, cfg.hashSecret, sign) ==> Return(cfg, q, sign).message == ChecksumMessage
  {
    ReceivedParam(q, "vnp_ResponseCode");
    var rc := Lookup(q, "vnp_ResponseCode");
    if rc.Some? {
      FormEncodeIsCode(rc.value);
    }
  }

  /** The return page names an order exactly when the callback has a transaction reference. */
  lemma ReturnOrderId(cfg: Config, q: Params, sign: Signer)
    ensures Return(cfg, q, sign).orderId.None? <==> !HasKey(q, "vnp_TxnRef")
  {
    ReceivedParam(q, "vnp_TxnRef");
  }

  /** The form encoding gives the two digits "00" only for "00" itself. */
  lemma FormEncodeIsCode(s: string)
    ensures FormEncode(s) == "00" <==> s == "00"
  {
    FormEncodeIsByChar(s);
    if s == "00" {
      FormEncodeOfUnreserved(s);
    } else if FormEncodeByChar(s) == "00" {
      FormCodeChars(s);
    }
  }

  /** A string whose form encoding is "00" is "00". */
  lemma FormCodeChars(s: string)
    requires FormEncodeByChar(s) == "00"
    ensures s == "00"
  {
    assert s != [];
    FormCharIsDigit(s, '0');
    var d := s[1..];
    assert FormEncodeByChar(d) == FormEncodeByChar(s)[1..] == "0";
    assert d != [];
    FormCharIsDigit(d, '0');
    assert FormEncodeByChar(d[1..]) == FormEncodeByChar(d)[1..] == [];
    assert s == [s[0]] + [d[0]] + d[1..];
  }

  /** The form encoding starts with a digit z only when the string starts with z, encoded as itself. */
  lemma FormCharIsDigit(s: string, z: char)
    requires s != [] && '0' <= z <= '9'
    requires FormEncodeByChar(s) != [] && FormEncodeByChar(s)[0] == z
    ensures s[0] == z && FormEncodeByChar(s) == [z] + FormEncodeByChar(s[1..])
  {
  }

  /** As written, the return handler throws for a callback without a transaction reference. */
  lemma ReturnAsWrittenThrows(cfg: Config, q: Params, sign: Signer)
    requires !HasKey(q, "vnp_TxnRef")
    ensures ReturnAsWritten(cfg, q, sign) == Failure(SplitOfUndefined)
  {
    ReceivedParam(q, "vnp_TxnRef");
  }

  /** With a transaction reference, the handler as written and the corrected one give the same page. */
  lemma ReturnCorrectionAgrees(cfg: Config, q: Params, sign: Signer)
    requires HasKey(q, "vnp_TxnRef")
    ensures ReturnAsWritten(cfg, q, sign) == Success(Return(cfg, q, sign))
  {
    var sorted := Canonical(Stripped(q));
    ReceivedParam(q, "vnp_TxnRef");
    var t := Lookup(sorted, "vnp_TxnRef").value;
    assert TxnOrderId(sorted) == Some(BeforeFirst(t, '_'));
  }

  // ----- vnpayIpn -----

  /** The JSON answer to VNPay. */
  datatype IpnReply = IpnReply(rspCode: string, message: string)

  const MissingParameters := IpnReply("01", "Missing parameters")
  const InvalidOrderId := IpnReply("01", "Invalid Order ID")
  const InvalidChecksum := IpnReply("97", "Invalid Checksum")
  const OrderNotFound := IpnReply("01", "Order not found")
  const InvalidTotal := IpnReply("99", "DB Error: Invalid order total")
  const InvalidAmount := IpnReply("04", "Invalid amount")
  const ConfirmSuccess := IpnReply("00", "Confirm Success")
  const AlreadyConfirmed := IpnReply("02", "Order already confirmed")
  const UnknownError := IpnReply("99", "Unknown error")

  /** Which database call inside the `try` throws, if any; the `catch` answers "99". */
  datatype IpnFault = NoFault | FindFails | UpdateFails | ClearFails

  /** A notification that passed the parameter and checksum checks. */
  datatype Notice = Notice(orderId: int, responseCode: string, transactionStatus: Option<string>, amount: Num)

  /** The checks before the database: an answer, or a notice to settle. */
  datatype Screening = Rejected(reply: IpnReply) | Admitted(notice: Notice)

  /** `!v` for a string value that may be undefined. */
  predicate Falsy(v: Option<string>) {
    v.None? || v.value == ""
  }

  /**
    The IPN handler up to the `try`: missing parameters first, then an order
    id parseInt cannot read, then the checksum.
  */
  function Screen(q: Params, secret: string, sign: Signer): (s: Screening)
    ensures s.Admitted? ==> ChecksumOk(q, secret, sign)
  {
    Screened(Canonical(Stripped(q)), ChecksumOk(q, secret, sign))
  }

  /** The checks on the sorted parameters, `checksumOk` standing for `secureHash === signed`. */
  function Screened(sorted: Params, checksumOk: bool): (s: Screening)
    ensures s.Admitted? ==> && checksumOk && s.notice.amount != Absent
                             && TxnOrderId(sorted).Some? && ParseInt(TxnOrderId(sorted).value) == Some(s.notice.orderId)
    ensures s.Rejected? ==> s.reply == MissingParameters || s.reply == InvalidOrderId || s.reply == InvalidChecksum
  {
    var orderIdStr := TxnOrderId(sorted);
    var rc := Lookup(sorted, "vnp_ResponseCode");
    var amount := NoticeAmount(Lookup(sorted, "vnp_Amount"));
    if Falsy(orderIdStr) || Falsy(rc) || amount == Absent then Rejected(MissingParameters)
    else
      match ParseInt(orderIdStr.value)
      case None => Rejected(InvalidOrderId)
      case Some(id) =>
        if checksumOk then
          Admitted(Notice(id, rc.value, Lookup(sorted, "vnp_TransactionStatus"), amount))
        else Rejected(InvalidChecksum)
  }

  /** The statuses a notification may still change. */
  predicate Payable(o: Order) {
    o.status == "pending" || o.status == "payment_failed"
  }

  /** "paid" only when both the response code and the transaction status are "00". */
  function NewStatus(n: Notice): string {
    if n.responseCode == "00" && n.transactionStatus == Some("00") then "paid" else "payment_failed"
  }

  /** `DELETE FROM cart_items WHERE cart_id IN (SELECT id FROM carts WHERE user_id = $1)` */
  function ClearCartsOf(items: map<int, CartItem>, carts: map<int, Cart>, buyer: int): (r: map<int, CartItem>)
    ensures forall id :: id in r <==> id in items && !(items[id].cartId in carts && carts[items[id].cartId].userId == buyer)
    ensures forall id :: id in r ==> r[id] == items[id]
  {
    map id | id in items && !(items[id].cartId in carts && carts[items[id].cartId].userId == buyer) :: items[id]
  }

  /** The `try` block of the IPN handler for an admitted notice. */
  function Settle(t: Tables, n: Notice, fault: IpnFault): (r: (IpnReply, Tables))
    ensures r.1 == t.(orders := r.1.orders, cartItems := r.1.cartItems)
    ensures r.1.orders.Keys == t.orders.Keys
  {
    if fault == FindFails then (UnknownError, t)
    else if n.orderId !in t.orders then (OrderNotFound, t)
    else
      var o := t.orders[n.orderId];
      if o.total.None? then (InvalidTotal, t)
      else if Finite(o.total.value) != n.amount then (InvalidAmount, t)
      else if !Payable(o) then (if o.status == "paid" then ConfirmSuccess else AlreadyConfirmed, t)
      else if fault == UpdateFails then (UnknownError, t)
      else
        var status := NewStatus(n);
        var t1 := t.(orders := t.orders[n.orderId := o.(status := status)]);
        if status != "paid" then (ConfirmSuccess, t1)
        else if fault == ClearFails then (UnknownError, t1)
        else (ConfirmSuccess, t1.(cartItems := ClearCartsOf(t1.cartItems, t1.carts, o.buyerId)))
  }

  /** vnpayIpn: the answer and the tables afterwards. */
  function Ipn(t: Tables, q: Params, secret: string, sign: Signer, fault: IpnFault): (r: (IpnReply, Tables))
    ensures r.1 == t.(orders := r.1.orders, cartItems := r.1.cartItems)
    ensures r.1.orders.Keys == t.orders.Keys
    ensures r.1 != t ==> ChecksumOk(q, secret, sign)
  {
    match Screen(q, secret, sign)
    case Rejected(r) => (r, t)
    case Admitted(n) => Settle(t, n, fault)
  }

  /** The IPN handler. */
  method VnpayIpn(db: Db, q: Params, secret: string, sign: Signer, fault: IpnFault) returns (reply: IpnReply)
    modifies db
    requires db.Valid()
    ensures db.Valid()
    ensures (reply, db.Snapshot()) == Ipn(old(db.Snapshot()), q, secret, sign, fault)
  {
    var secureHash := Lookup(q, HashKey);
    var vnpParams := Stripped(q);
    vnpParams := SortObject(vnpParams);
    var signed := sign(secret, Stringify(vnpParams));
    var txnRef := Lookup(vnpParams, "vnp_TxnRef");
    var orderIdStr := if txnRef.Some? then Some(BeforeFirst(txnRef.value, '_')) else None;
    var vnpResponseCode := Lookup(vnpParams, "vnp_ResponseCode");
    var vnpTransactionStatus := Lookup(vnpParams, "vnp_TransactionStatus");
    var vnpAmount := NoticeAmount(Lookup(vnpParams, "vnp_Amount"));
    if Falsy(orderIdStr) || Falsy(vnpResponseCode) || vnpAmount == Absent {
      return MissingParameters;
    }
    var orderId := ParseInt(orderIdStr.value);
    if orderId.None? {
      return InvalidOrderId;
    }
    if secureHash == Some(signed) {
      reply := SettleNotice(db, Notice(orderId.value, vnpResponseCode.value, vnpTransactionStatus, vnpAmount), fault);
    } else {
      reply := InvalidChecksum;
    }
  }

  /** The `try` block: look the order up, check amount and status, write the status, clear the carts. */
  method SettleNotice(db: Db, n: Notice, fault: IpnFault) returns (reply: IpnReply)
    modifies db
    requires db.Valid()
    ensures db.Valid()
    ensures (reply, db.Snapshot()) == Settle(old(db.Snapshot()), n, fault)
  {
    if fault == FindFails {
      return UnknownError;
    }
    if n.orderId !in db.orders {
      return OrderNotFound;
    }
    var order := db.orders[n.orderId];
    if order.total.None? {
      return InvalidTotal;
    }
    if Finite(order.total.value) != n.amount {
      return InvalidAmount;
    }
    if order.status != "pending" && order.status != "payment_failed" {
      if order.status == "paid" {
        return ConfirmSuccess;
      } else {
        return AlreadyConfirmed;
      }
    }
    var newStatus := if n.responseCode == "00" && n.transactionStatus == Some("00") then "paid" else "payment_failed";
    if fault == UpdateFails {
      return UnknownError;
    }
    db.orders := db.orders[n.orderId := order.(status := newStatus)];
    if newStatus == "paid" {
      if fault == ClearFails {
        return UnknownError;
      }
      db.cartItems := ClearCartsOf(db.cartItems, db.carts, order.buyerId);
    }
    reply := ConfirmSuccess;
  }

  // ----- What the IPN handler guarantees -----

  /**
    A notification without a transaction reference, a response code or an
    amount is answered "01" before its signature is looked at: whatever its
    hash, nothing is read or written.
  */
  lemma IpnMissingBeforeChecksum(t: Tables, q: Params, secret: string, sign: Signer, fault: IpnFault)
    requires !HasKey(q, "vnp_TxnRef") || !HasKey(q, "vnp_ResponseCode") || !HasKey(q, "vnp_Amount")
    ensures Ipn(t, q, secret, sign, fault) == (MissingParameters, t)
  {
    ScreenMissing(q, secret, sign);
  }

  /** The screening step of the same: such a notification is rejected with "01". */
  lemma ScreenMissing(q: Params, secret: string, sign: Signer)
    requires !HasKey(q, "vnp_TxnRef") || !HasKey(q, "vnp_ResponseCode") || !HasKey(q, "vnp_Amount")
    ensures Screen(q, secret, sign) == Rejected(MissingParameters)
  {
    var sorted := Canonical(Stripped(q));
    if !HasKey(q, "vnp_TxnRef") {
      ReceivedParam(q, "vnp_TxnRef");
    } else if !HasKey(q, "vnp_ResponseCode") {
      ReceivedParam(q, "vnp_ResponseCode");
    } else {
      ReceivedParam(q, "vnp_Amount");
    }
    ScreenedMissing(sorted, ChecksumOk(q, secret, sign));
  }

  /** Sorted parameters without a transaction reference, a response code or an amount are rejected with "01". */
  lemma ScreenedMissing(sorted: Params, checksumOk: bool)
    requires Lookup(sorted, "vnp_TxnRef").None? || Lookup(sorted, "vnp_ResponseCode").None?
             || Lookup(sorted, "vnp_Amount").None?
    ensures Screened(sorted, checksumOk) == Rejected(MissingParameters)
  {
  }

  /**
    The checks before the `try`, in code order: missing parameters ("01"),
    an order id `parseInt` cannot read ("01"), the checksum ("97"); only a
    notice past all three reaches the database.
  */
  lemma ScreenedLadder(sorted: Params, checksumOk: bool)
    ensures var present := !Falsy(TxnOrderId(sorted)) && !Falsy(Lookup(sorted, "vnp_ResponseCode"))
                           && NoticeAmount(Lookup(sorted, "vnp_Amount")) != Absent;
            && (Screened(sorted, checksumOk) == Rejected(MissingParameters) <==> !present)
            && (Screened(sorted, checksumOk) == Rejected(InvalidOrderId) <==>
                  present && ParseInt(TxnOrderId(sorted).value).None?)
            && (Screened(sorted, checksumOk) == Rejected(InvalidChecksum) <==>
                  present && ParseInt(TxnOrderId(sorted).value).Some? && !checksumOk)
            && (Screened(sorted, checksumOk).Admitted? <==>
                  present && ParseInt(TxnOrderId(sorted).value).Some? && checksumOk)
  {
  }

  /**
    The rejections of the `try` block, in code order, none of which writes:
    a failed lookup ("99"), no such order ("01"), an unreadable total ("99"),
    a different amount ("04"), an order no longer payable ("00" when paid,
    "02" otherwise).
  */
  lemma SettleLadder(t: Tables, n: Notice, fault: IpnFault)
    ensures fault == FindFails ==> Settle(t, n, fault) == (UnknownError, t)
    ensures fault != FindFails && n.orderId !in t.orders ==> Settle(t, n, fault) == (OrderNotFound, t)
    ensures fault != FindFails && n.orderId in t.orders && t.orders[n.orderId].total.None? ==>
              Settle(t, n, fault) == (InvalidTotal, t)
    ensures fault != FindFails && n.orderId in t.orders && t.orders[n.orderId].total.Some?
            && n.amount != Finite(t.orders[n.orderId].total.value) ==>
              Settle(t, n, fault) == (InvalidAmount, t)
    ensures fault != FindFails && n.orderId in t.orders && t.orders[n.orderId].total.Some?
            && n.amount == Finite(t.orders[n.orderId].total.value) && !Payable(t.orders[n.orderId]) ==>
              Settle(t, n, fault) == (if t.orders[n.orderId].status == "paid" then ConfirmSuccess else AlreadyConfirmed, t)
    ensures fault == UpdateFails ==> Settle(t, n, fault).1 == t
  {
  }

  /** A notification whose hash does not match is answered "97" (when it got past the parameter checks) or "01", and changes nothing. */
  lemma IpnRejectsBadChecksum(t: Tables, q: Params, secret: string, sign: Signer, fault: IpnFault)
    requires !ChecksumOk(q, secret, sign)
    ensures Ipn(t, q, secret, sign, fault).1 == t
    ensures Ipn(t, q, secret, sign, fault).0 in {MissingParameters, InvalidOrderId, InvalidChecksum}
  {
  }

  /**
    The tables change only for a correctly signed notification of an
    existing order whose total equals the amount paid and whose status is
    still pending or payment_failed, when the status write succeeds.
  */
  lemma IpnWritesOnlyWhenPayable(t: Tables, q: Params, secret: string, sign: Signer, fault: IpnFault)
    requires Ipn(t, q, secret, sign, fault).1 != t
    ensures ChecksumOk(q, secret, sign) && Screen(q, secret, sign).Admitted?
    ensures var n := Screen(q, secret, sign).notice;
            n.orderId in t.orders && t.orders[n.orderId].total.Some?
            && n.amount == Finite(t.orders[n.orderId].total.value)
            && Payable(t.orders[n.orderId])
    ensures fault == NoFault || fault == ClearFails
  {
  }

  /**
    Settling a payable order: the answer is "00"; the order's status
    becomes "paid" exactly when the response code and the transaction status
    are both "00" and "payment_failed" otherwise; no other order changes;
    the buyer's cart items are deleted exactly on "paid"; nothing else changes.
  */
  lemma IpnSettlesPayable(t: Tables, n: Notice)
    requires n.orderId in t.orders && t.orders[n.orderId].total.Some?
    requires n.amount == Finite(t.orders[n.orderId].total.value) && Payable(t.orders[n.orderId])
    ensures var (reply, t') := Settle(t, n, NoFault);
            var o := t.orders[n.orderId];
            reply == ConfirmSuccess
            && t'.orders == t.orders[n.orderId := o.(status := if n.responseCode == "00" && n.transactionStatus == Some("00") then "paid" else "payment_failed")]
            && t'.cartItems == (if NewStatus(n) == "paid" then ClearCartsOf(t.cartItems, t.carts, o.buyerId) else t.cartItems)
            && t' == t.(orders := t'.orders, cartItems := t'.cartItems)
  {
  }

  /**
    A repeated notification after it set a payable order to "paid" is
    answered "00" and changes nothing (unless the lookup itself fails).
  */
  lemma IpnReplayIsConfirmed(t: Tables, q: Params, secret: string, sign: Signer, f1: IpnFault, f2: IpnFault)
    requires f2 != FindFails
    requires Screen(q, secret, sign).Admitted?
    requires var n := Screen(q, secret, sign).notice;
             var t' := Ipn(t, q, secret, sign, f1).1;
             n.orderId in t.orders && Payable(t.orders[n.orderId])
             && n.orderId in t'.orders && t'.orders[n.orderId].status == "paid"
    ensures var t' := Ipn(t, q, secret, sign, f1).1;
            Ipn(t', q, secret, sign, f2) == (ConfirmSuccess, t')
  {
    SettleReplay(t, Screen(q, secret, sign).notice, f1, f2);
  }

  lemma SettleReplay(t: Tables, n: Notice, f1: IpnFault, f2: IpnFault)
    requires f2 != FindFails
    requires n.orderId in t.orders && Payable(t.orders[n.orderId])
    requires n.orderId in Settle(t, n, f1).1.orders && Settle(t, n, f1).1.orders[n.orderId].status == "paid"
    ensures Settle(Settle(t, n, f1).1, n, f2) == (ConfirmSuccess, Settle(t, n, f1).1)
  {
    SettledPaid(t, n, f1);
  }

  /** An order written as "paid" by `Settle` passed every check: the order is there, the amount matched, the update ran. */
  lemma SettledPaid(t: Tables, n: Notice, f1: IpnFault)
    requires n.orderId in t.orders && Payable(t.orders[n.orderId])
    requires n.orderId in Settle(t, n, f1).1.orders && Settle(t, n, f1).1.orders[n.orderId].status == "paid"
    ensures var o := t.orders[n.orderId];
            && f1 != FindFails && f1 != UpdateFails && o.total.Some? && Finite(o.total.value) == n.amount
            && Settle(t, n, f1).1.orders[n.orderId] == o.(status := "paid")
  {
    PayableNotPaid(t.orders[n.orderId]);
  }

  lemma PayableNotPaid(o: Order)
    requires Payable(o)
    ensures o.status != "paid"
  {
    assert "pending"[1] != "paid"[1] && "payment_failed"[2] != "paid"[2];
  }

  /**
    A failure of the cart deletion is answered "99" after the status was
    written as "paid"; VNPay's retry of the same notification is then answered
    "00" and the buyer's cart items are never deleted.
  */
  lemma IpnClearFaultIsNotRetried(t: Tables, q: Params, secret: string, sign: Signer)
    requires Screen(q, secret, sign).Admitted?
    requires var n := Screen(q, secret, sign).notice;
             n.orderId in t.orders && t.orders[n.orderId].total.Some?
             && n.amount == Finite(t.orders[n.orderId].total.value) && Payable(t.orders[n.orderId])
             && NewStatus(n) == "paid"
    ensures var (reply, t') := Ipn(t, q, secret, sign, ClearFails);
            var n := Screen(q, secret, sign).notice;
            reply == UnknownError && n.orderId in t'.orders && t'.orders[n.orderId].status == "paid"
            && t'.cartItems == t.cartItems
            && Ipn(t', q, secret, sign, NoFault) == (ConfirmSuccess, t')
  {
    var n := Screen(q, secret, sign).notice;
    IpnOfAdmitted(t, q, secret, sign, ClearFails);
    var t1 := Ipn(t, q, secret, sign, ClearFails).1;
    SettleClearFault(t, n);
    IpnOfAdmitted(t1, q, secret, sign, NoFault);
  }

  /** An admitted notification is answered by the `try` block. */
  lemma IpnOfAdmitted(t: Tables, q: Params, secret: string, sign: Signer, fault: IpnFault)
    requires Screen(q, secret, sign).Admitted?
    ensures Ipn(t, q, secret, sign, fault) == Settle(t, Screen(q, secret, sign).notice, fault)
  {
  }

  lemma SettleClearFault(t: Tables, n: Notice)
    requires n.orderId in t.orders && t.orders[n.orderId].total.Some?
    requires n.amount == Finite(t.orders[n.orderId].total.value) && Payable(t.orders[n.orderId])
    requires NewStatus(n) == "paid"
    ensures var (reply, t') := Settle(t, n, ClearFails);
            reply == UnknownError && n.orderId in t'.orders && t'.orders[n.orderId].status == "paid"
            && t'.cartItems == t.cartItems
            && Settle(t', n, NoFault) == (ConfirmSuccess, t')
  {
    SettleReplay(t, n, ClearFails, NoFault);
  }
}
