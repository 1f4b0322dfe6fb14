/**
  `AdminProducts` (public/admin/js/products.js): the helpers of the admin
  product table — `truncateText` for the description column and the two
  status helpers — and the submit handler of the product form up to the end
  of its validation ladder. The admin page's `calculateFinalPrice` is
  `Pricing.AdminFinalPrice`.

  The form is a map from field name to the text the browser sends; a field
  that is not in the map is what `FormData.get` returns as `null`.
  `parseFloat` is modelled for decimal text (white space, a sign, digits, a
  point and more digits); it reads no exponent and no `Infinity`.
*/
module AdminProducts {
  import opened Wrappers
  import opened Text
  import opened Pricing

  // ----- truncateText -----

  const NaLabel := "<em style=\"color: #6c757d;\">N/A</em>"
  const Ellipsis := "..."

  /** `null`, `undefined` or the empty string: the text values JavaScript treats as false. */
  predicate Falsy(text: Option<string>) {
    text.None? || text.value == ""
  }

  /**
    `truncateText(text, maxLength)`: the placeholder for a missing text, the
    text itself when it is short enough, and otherwise its first `maxLength`
    characters followed by "...".
  */
  function TruncateText(text: Option<string>, maxLength: nat): (r: string)
    ensures Falsy(text) ==> r == NaLabel
    ensures !Falsy(text) && |text.value| <= maxLength ==> r == text.value
    ensures !Falsy(text) && |text.value| > maxLength ==>
              |r| == maxLength + 3 && r[..maxLength] == text.value[..maxLength] && r[maxLength..] == Ellipsis
  {
    if Falsy(text) then NaLabel
    else if |text.value| <= maxLength then text.value
    else text.value[..maxLength] + Ellipsis
  }

  /**
    What the description column shows of a text is never longer than
    `maxLength` plus the three dots, it is never empty, and it begins with
    the beginning of the text, as much of it as fits.
  */
  lemma TruncateKeepsStart(text: string, maxLength: nat)
    requires text != []
    ensures var r := TruncateText(Some(text), maxLength);
            && r != []
            && |r| <= maxLength + 3
            && (var n := if |text| <= maxLength then |text| else maxLength;
                n <= |r| && r[..n] == text[..n])
  {
    var r := TruncateText(Some(text), maxLength);
    if |text| > maxLength {
      assert r[..maxLength] == text[..maxLength];
    } else {
      assert r[..|text|] == text;
    }
  }

  /** Truncating what was shown once more at the same length shows the same thing. */
  lemma TruncateIdempotent(text: Option<string>, maxLength: nat)
    requires !Falsy(text)
    ensures TruncateText(Some(TruncateText(text, maxLength)), maxLength) == TruncateText(text, maxLength)
  {
    var r := TruncateText(text, maxLength);
    if |text.value| > maxLength {
      assert |r| > maxLength;
      assert r[..maxLength] + Ellipsis == r;
    }
  }

  // ----- the status helpers -----

  const ActiveText := "Hoạt động"
  const InactiveText := "Không hoạt động"
  const NaText := "N/A"

  /** `getProductStatusClass(status)`: green for an active product, grey for anything else. */
  function StatusClass(status: Option<string>): (c: string)
    ensures c == "btn-success" <==> status == Some("active")
    ensures c != "btn-success" ==> c == "btn-secondary"
  {
    match status
    case Some("active") => "btn-success"
    case Some("inactive") => "btn-secondary"
    case _ => "btn-secondary"
  }

  /**
    `getProductStatusText(status)`: fixed Vietnamese text for the two known
    statuses; any other status is shown as it is, and a missing or empty one
    as "N/A".
  */
  function StatusText(status: Option<string>): (t: string)
    ensures status == Some("active") ==> t == ActiveText
    ensures status == Some("inactive") ==> t == InactiveText
    ensures status != Some("active") && status != Some("inactive") && !Falsy(status) ==> t == status.value
    ensures Falsy(status) ==> t == NaText
  {
    match status
    case None => NaText
    case Some(s) =>
      if s == "active" then ActiveText
      else if s == "inactive" then InactiveText
      else if s == "" then NaText
      else s
  }

  /** A status whose own text is not one of the three texts the helper puts in its place. */
  predicate Readable(status: Option<string>) {
    !Falsy(status) && status.value != ActiveText && status.value != InactiveText && status.value != NaText
  }

  /**
    The status column tells readable statuses apart: two of them that show
    the same text are the same status. A missing and an empty status, and a
    status that is literally "N/A", all show "N/A".
  */
  lemma StatusTextTellsApart(a: Option<string>, b: Option<string>)
    requires Readable(a) && Readable(b) && StatusText(a) == StatusText(b)
    ensures a == b
    ensures StatusText(None) == StatusText(Some("")) == StatusText(Some(NaText))
  {
    assert |ActiveText| == 9 && |InactiveText| == 15 && |"active"| == 6 && |"inactive"| == 8;
  }

  /** Only an active product gets the green button, and it shows the active text. */
  lemma StatusClassMatchesText(status: Option<string>)
    ensures StatusClass(status) == "btn-success" ==> StatusText(status) == ActiveText
    ensures Readable(status) ==> StatusClass(status) == "btn-secondary" || status == Some("active")
  {
  }

  // ----- parseFloat -----

  /**
    A run of digits read after the decimal point: `0.d1d2...dk` is
    `(d1 + 0.d2...dk) / 10`.
  */
  function Fraction(ds: string): (r: real)
    requires AllDigits(ds)
    ensures 0.0 <= r < 1.0
  {
    if ds == [] then 0.0 else ((DigitValue(ds[0]) as real) + Fraction(ds[1..])) / 10.0
  }

  function NegateNum(v: Num): Num {
    match v
    case Finite(x) => Finite(-x)
    case _ => v
  }

  /**
    `parseFloat(s)` for decimal text: skip leading white space, read an
    optional sign, then digits, a point and digits. Without a digit on
    either side of the point the result is NaN.
  */
  function ParseFloat(s: string): (r: Num)
    ensures !r.Absent?
  {
    var t := TrimStart(s);
    if t != [] && t[0] == '-' then NegateNum(ParseUnsigned(t[1..]))
    else if t != [] && t[0] == '+' then ParseUnsigned(t[1..])
    else ParseUnsigned(t)
  }

  /** The number at the start of u, read without a sign. */
  function ParseUnsigned(u: string): (r: Num)
    ensures !r.Absent?
    ensures r.Finite? ==> r.value >= 0.0
  {
    var whole := LeadingDigits(u);
    var rest := u[|whole|..];
    var frac := if rest != [] && rest[0] == '.' then LeadingDigits(rest[1..]) else [];
    if whole == [] && frac == [] then NotANumber
    else Finite(DigitsValue(whole) as real + Fraction(frac))
  }

  /** Text that starts with a digit or a point has no sign to read. */
  lemma ParseFloatUnsigned(s: string)
    requires s != [] && (IsDigit(s[0]) || s[0] == '.')
    ensures ParseFloat(s) == ParseUnsigned(s)
  {
    assert !IsJsSpace(s[0]);
    assert TrimStart(s) == s;
  }

  /** Text that starts with a minus sign is the negated number after it. */
  lemma ParseFloatMinus(s: string)
    requires s != [] && s[0] == '-'
    ensures ParseFloat(s) == NegateNum(ParseUnsigned(s[1..]))
  {
    assert !IsJsSpace(s[0]);
  }

  /** A run of digits is read whole. */
  lemma ParseUnsignedOfDigits(s: string)
    requires s != [] && AllDigits(s)
    ensures ParseUnsigned(s) == Finite(DigitsValue(s) as real)
  {
    LeadingDigitsOfDigits(s);
    assert s[|s|..] == [];
  }

  /** parseFloat reads natural numbers written in decimal, with or without a minus sign. */
  lemma ParseFloatOfNatToString(n: nat)
    ensures ParseFloat(NatToString(n)) == Finite(n as real)
    ensures ParseFloat("-" + NatToString(n)) == Finite(-(n as real))
  {
    var s := NatToString(n);
    ParseFloatUnsigned(s);
    ParseUnsignedOfDigits(s);
    DigitsValueOfNatToString(n);
    ParseFloatNegated(s, n as real);
  }

  /** A minus sign in front of a number read without sign negates it. */
  lemma ParseFloatNegated(s: string, v: real)
    requires ParseUnsigned(s) == Finite(v)
    ensures ParseFloat("-" + s) == Finite(-v)
  {
    var m := "-" + s;
    assert m[0] == '-' && m[1..] == s;
    ParseFloatMinus(m);
  }

  /** parseFloat reads a decimal fraction: whole digits, a point, then fraction digits. */
  lemma ParseFloatOfDecimal(n: nat, ds: string)
    requires AllDigits(ds)
    ensures ParseFloat(NatToString(n) + "." + ds) == Finite(n as real + Fraction(ds))
  {
    var w := NatToString(n);
    var s := w + ("." + ds);
    assert NatToString(n) + "." + ds == s;
    LeadingDigitsStops(w, "." + ds);
    DigitsValueOfNatToString(n);
    DecimalRead(s, w, ds, n);
  }

  /** The whole digits, the point and the fraction digits are read as one number. */
  lemma DecimalRead(s: string, w: string, ds: string, n: nat)
    requires AllDigits(w) && AllDigits(ds) && w != [] && DigitsValue(w) == n
    requires s == w + ("." + ds) && LeadingDigits(s) == w
    ensures ParseFloat(s) == Finite(n as real + Fraction(ds))
  {
    assert s[0] == w[0];
    ParseFloatUnsigned(s);
    FractionAfterPoint(s, w, ds);
  }

  /** The point and digits after the whole part are read as the fraction. */
  lemma FractionAfterPoint(s: string, w: string, ds: string)
    requires AllDigits(w) && AllDigits(ds) && w != []
    requires s == w + ("." + ds) && LeadingDigits(s) == w
    ensures ParseUnsigned(s) == Finite(DigitsValue(w) as real + Fraction(ds))
  {
    assert s[|w|..] == "." + ds;
    assert ("." + ds)[1..] == ds;
    LeadingDigitsOfDigits(ds);
  }

  /** Text that starts, after white space, with neither a digit, a sign nor a point is NaN. */
  lemma ParseFloatWithoutNumber(s: string)
    requires var t := TrimStart(s); t == [] || (!IsDigit(t[0]) && t[0] != '-' && t[0] != '+' && t[0] != '.')
    ensures ParseFloat(s) == NotANumber
  {
  }

  // ----- the product form -----

  /**
    The `productData` object the submit handler builds. `discount` is None
    when the field is empty or missing (the handler's `null`), and otherwise
    what parseFloat makes of it.
  */
  datatype ProductData = ProductData(
    title: Option<string>, description: Option<string>, price: Num, discount: Option<Num>,
    categoryId: Option<string>, storeId: Option<string>, imageUrl: Option<string>, status: Option<string>)

  /** `formData.get(name)`. */
  function Field(form: map<string, string>, name: string): (v: Option<string>)
    ensures v.Some? <==> name in form
  {
    if name in form then Some(form[name]) else None
  }

  /** `v || null`: the empty text becomes null. */
  function OrNull(v: Option<string>): (r: Option<string>)
    ensures r.None? <==> Falsy(v)
    ensures r.Some? ==> r == v
  {
    if Falsy(v) then None else v
  }

  /** `parseFloat(formData.get(name))`; parseFloat of `null` reads the text "null", which is NaN. */
  function NumberField(v: Option<string>): (r: Num)
    ensures v.None? ==> r == NotANumber
  {
    match v
    case None => NotANumber
    case Some(t) => ParseFloat(t)
  }

  const TitleMessage := "Tên sản phẩm phải có ít nhất 2 ký tự."
  const StoreMessage := "Vui lòng chọn cửa hàng."
  const PriceMessage := "Giá gốc không hợp lệ."
  const DiscountMessage := "Phần trăm giảm giá phải từ 0 đến 100."

  /** `productData.title && productData.title.length >= 2`, the length counted in UTF-16 code units. */
  predicate TitleOk(d: ProductData) {
    d.title.Some? && Utf16Length(d.title.value) >= 2
  }

  predicate StoreChosen(d: ProductData) {
    !Falsy(d.storeId)
  }

  predicate PriceOk(d: ProductData) {
    d.price.Finite? && d.price.value >= 0.0
  }

  predicate DiscountOk(d: ProductData) {
    d.discount.None? || (d.discount.value.Finite? && 0.0 <= d.discount.value.value <= 100.0)
  }

  /** The four checks, in the order the handler makes them. */
  function Checks(d: ProductData): (c: seq<bool>)
    ensures |c| == 4
  {
    [TitleOk(d), StoreChosen(d), PriceOk(d), DiscountOk(d)]
  }

  const Messages: seq<string> := [TitleMessage, StoreMessage, PriceMessage, DiscountMessage]

  /** The alert the validation ladder shows, None when every check passes. */
  function FirstFailure(d: ProductData): Option<string> {
    if !TitleOk(d) then Some(TitleMessage)
    else if !StoreChosen(d) then Some(StoreMessage)
    else if !PriceOk(d) then Some(PriceMessage)
    else if !DiscountOk(d) then Some(DiscountMessage)
    else None
  }

  lemma MessagesDiffer()
    ensures forall i, j :: 0 <= i < j < |Messages| ==> Messages[i] != Messages[j]
  {
    assert |TitleMessage| == 37 && |StoreMessage| == 23 && |PriceMessage| == 21 && |DiscountMessage| == 37;
    assert TitleMessage[0] != DiscountMessage[0];
  }

  /**
    The form is rejected exactly when a check fails, and the alert is the
    message of the first check that fails: check i's message is shown if and
    only if check i fails and every check before it passes.
  */
  lemma FirstFailingCheckWins(d: ProductData)
    ensures FirstFailure(d).None? <==> forall i :: 0 <= i < 4 ==> Checks(d)[i]
    ensures forall i :: 0 <= i < 4 ==>
              (FirstFailure(d) == Some(Messages[i]) <==> !Checks(d)[i] && forall j :: 0 <= j < i ==> Checks(d)[j])
  {
    MessagesDiffer();
    var c := Checks(d);
    assert c[0] == TitleOk(d) && c[1] == StoreChosen(d) && c[2] == PriceOk(d) && c[3] == DiscountOk(d);
    forall i | 0 <= i < 4
      ensures FirstFailure(d) == Some(Messages[i]) <==> !c[i] && forall j :: 0 <= j < i ==> c[j]
    {
      if !c[i] && forall j :: 0 <= j < i ==> c[j] {
        if i == 0 {
        } else if i == 1 {
          assert c[0];
        } else if i == 2 {
          assert c[0] && c[1];
        } else {
          assert c[0] && c[1] && c[2];
        }
      }
    }
  }

  /** `productData` as the handler builds it from the form, before any image is uploaded. */
  function ProductDataOf(form: map<string, string>): (d: ProductData)
    ensures d.title == Field(form, "title") && d.storeId == Field(form, "store_id") && d.status == Field(form, "status")
    ensures d.description == OrNull(Field(form, "description"))
    ensures d.categoryId == OrNull(Field(form, "category_id")) && d.imageUrl == OrNull(Field(form, "image_url"))
    ensures d.price == NumberField(Field(form, "price"))
    ensures d.discount.None? <==> Falsy(Field(form, "discount_percentage"))
    ensures d.discount.Some? ==> d.discount.value == ParseFloat(form["discount_percentage"])
  {
    var dp := Field(form, "discount_percentage");
    ProductData(
      Field(form, "title"),
      OrNull(Field(form, "description")),
      NumberField(Field(form, "price")),
      if Falsy(dp) then None else Some(ParseFloat(dp.value)),
      OrNull(Field(form, "category_id")),
      Field(form, "store_id"),
      OrNull(Field(form, "image_url")),
      Field(form, "status"))
  }

  /**
    A form that passes the ladder carries a finite price that is not
    negative and a discount that is left out or lies in [0, 100]; the final
    price the admin page computes from them lies between 0 and the price.
  */
  lemma AcceptedFormPricesSafely(form: map<string, string>)
    requires FirstFailure(ProductDataOf(form)).None?
    ensures var d := ProductDataOf(form);
            && d.title.Some? && Utf16Length(d.title.value) >= 2
            && d.storeId.Some? && d.storeId.value != ""
            && d.price.Finite? && d.price.value >= 0.0
            && (d.discount.None? || (d.discount.value.Finite? && 0.0 <= d.discount.value.value <= 100.0))
            && var shown := AdminFinalPrice(d.price, d.discount.GetOr(Absent));
               shown.Finite? && 0.0 <= shown.value <= d.price.value
  {
    var d := ProductDataOf(form);
    AdminFinalPriceInRange(d.price.value, d.discount.GetOr(Absent));
  }

  /** A price field holding the decimal form of a natural number passes the price check. */
  lemma WholePriceAccepted(d: ProductData, n: nat)
    requires d.price == ParseFloat(NatToString(n))
    ensures PriceOk(d)
  {
    ParseFloatOfNatToString(n);
  }

  /**
    The title check counts UTF-16 code units: a title of one character
    passes exactly when that character lies outside the Basic Multilingual
    Plane (an emoji, say), which JavaScript stores as two units.
  */
  lemma OneCharacterTitle(d: ProductData, c: char)
    requires d.title == Some([c])
    ensures TitleOk(d) <==> !InBmp(c)
  {
    assert [c][1..] == [];
  }

  /** A price field that does not start with a number is rejected by the price check. */
  lemma TextPriceRejected(form: map<string, string>)
    requires "price" in form
    requires var t := TrimStart(form["price"]); t == [] || (!IsDigit(t[0]) && t[0] != '-' && t[0] != '+' && t[0] != '.')
    ensures !PriceOk(ProductDataOf(form))
  {
    ParseFloatWithoutNumber(form["price"]);
  }

  datatype Alert = Alert(message: string, kind: string)

  const SavingHtml := "<i class=\"fas fa-spinner fa-spin\"></i> Đang lưu..."
  const SaveHtml := "<i class=\"fas fa-save\"></i> Lưu"

  /** The parts of the admin page the submit handler changes: its submit button and the alerts shown. */
  class ProductFormPage {
    var buttonDisabled: bool
    var buttonHtml: string
    var alerts: seq<Alert>

    constructor ()
      ensures !buttonDisabled && buttonHtml == SaveHtml && alerts == []
    {
      buttonDisabled := false;
      buttonHtml := SaveHtml;
      alerts := [];
    }

    /** `showAlert(message, "error")`, then the button is enabled again with its label back. */
    method Reject(message: string)
      modifies this
      ensures alerts == old(alerts) + [Alert(message, "error")]
      ensures !buttonDisabled && buttonHtml == SaveHtml
    {
      alerts := alerts + [Alert(message, "error")];
      buttonDisabled := false;
      buttonHtml := SaveHtml;
    }

    /**
      The submit handler up to the end of its validation: the button is
      disabled and shows the saving label, `productData` is built, and the
      four checks run in order. The first failing one shows its alert,
      enables the button and ends the handler with nothing sent (None); when
      all pass, the data goes on to the upload and the API call.
    */
    method Submit(form: map<string, string>) returns (toSend: Option<ProductData>)
      modifies this
      ensures var d := ProductDataOf(form);
              match FirstFailure(d)
              case Some(m) =>
                toSend.None? && alerts == old(alerts) + [Alert(m, "error")] && !buttonDisabled && buttonHtml == SaveHtml
              case None =>
                toSend == Some(d) && alerts == old(alerts) && buttonDisabled && buttonHtml == SavingHtml
    {
      buttonDisabled := true;
      buttonHtml := SavingHtml;
      var productData := ProductDataOf(form);
      if !TitleOk(productData) {
        Reject(TitleMessage);
        return None;
      }
      if !StoreChosen(productData) {
        Reject(StoreMessage);
        return None;
      }
      if !PriceOk(productData) {
        Reject(PriceMessage);
        return None;
      }
      if !DiscountOk(productData) {
        Reject(DiscountMessage);
        return None;
      }
      return Some(productData);
    }
  }
}
