/**
  String helpers with JavaScript's meaning: the decimal form of an integer
  (`Number.prototype.toString`), `parseInt(s, 10)`, `s.split(c)[0]`,
  `startsWith`/`endsWith`, `Array.prototype.join`, and ASCII upper-casing.
*/
module Text {
  import opened Wrappers

  predicate IsDigit(c: char) { '0' <= c <= '9' }

  predicate AllDigits(s: string) { forall i :: 0 <= i < |s| ==> IsDigit(s[i]) }

  function DigitValue(c: char): nat
    requires IsDigit(c)
  {
    (c as int) - ('0' as int)
  }

  function DigitChar(d: nat): (c: char)
    requires d < 10
    ensures IsDigit(c) && DigitValue(c) == d
  {
    (('0' as int) + d) as char
  }

  /** Decimal digits of n, most significant first, no leading zeros. */
  function NatToString(n: nat): (s: string)
    ensures |s| >= 1 && AllDigits(s)
    ensures s[0] == '0' ==> n == 0
  {
    if n < 10 then [DigitChar(n)] else NatToString(n / 10) + [DigitChar(n % 10)]
  }

  /** `String(n)` for an integer n. */
  function IntToString(n: int): (s: string)
    ensures |s| >= 1
    ensures n >= 0 ==> AllDigits(s)
    ensures n < 0 ==> s[0] == '-' && AllDigits(s[1..])
  {
    if n < 0 then "-" + NatToString(-n) else NatToString(n)
  }

  /** A character JavaScript stores as one UTF-16 code unit (the Basic Multilingual Plane). */
  predicate InBmp(c: char) {
    c as int < 0x1_0000
  }

  /**
    `s.length`: the UTF-16 code units of s, one per character of the Basic
    Multilingual Plane and two (a surrogate pair) for any other.
  */
  function Utf16Length(s: string): (n: nat)
    ensures |s| <= n <= 2 * |s|
    ensures n == |s| <==> forall i :: 0 <= i < |s| ==> InBmp(s[i])
  {
    if s == [] then 0
    else
      var rest := Utf16Length(s[1..]);
      assert forall i :: 1 <= i < |s| ==> s[1..][i - 1] == s[i];
      (if InBmp(s[0]) then 1 else 2) + rest
  }

  /** The characters ECMA-262 calls StrWhiteSpaceChar; parseInt skips them first. */
  predicate IsJsSpace(c: char) {
    c == '\t' || c == '\n' || c == '\U{B}' || c == '\U{C}' || c == '\r' || c == ' '
    || c == '\U{A0}' || c == '\U{1680}' || ('\U{2000}' <= c <= '\U{200A}')
    || c == '\U{2028}' || c == '\U{2029}' || c == '\U{202F}' || c == '\U{205F}'
    || c == '\U{3000}' || c == '\U{FEFF}'
  }

  function TrimStart(s: string): (r: string)
    ensures |r| <= |s| && r == s[|s| - |r|..]
    ensures r != [] ==> !IsJsSpace(r[0])
    ensures s != [] && !IsJsSpace(s[0]) ==> r == s
  {
    if s != [] && IsJsSpace(s[0]) then TrimStart(s[1..]) else s
  }

  /** The longest prefix of s made of decimal digits. */
  function LeadingDigits(s: string): (r: string)
    ensures |r| <= |s| && r == s[..|r|] && AllDigits(r)
    ensures |r| < |s| ==> !IsDigit(s[|r|])
  {
    if s != [] && IsDigit(s[0]) then [s[0]] + LeadingDigits(s[1..]) else []
  }

  /** The value of a string of decimal digits (the empty string is 0). */
  function DigitsValue(s: string): nat
    requires AllDigits(s)
  {
    if s == [] then 0 else DigitsValue(s[..|s| - 1]) * 10 + DigitValue(s[|s| - 1])
  }

  /**
    `parseInt(s, 10)`: skip leading white space, read an optional sign and the
    longest run of digits after it; None stands for NaN (no digit at all).
  */
  function ParseInt(s: string): Option<int> {
    ParseSigned(TrimStart(s))
  }

  /** parseInt yields a number only when the text after the white space starts with a digit or a sign. */
  lemma ParseIntStart(s: string)
    requires ParseInt(s).Some?
    ensures TrimStart(s) != [] && (IsDigit(TrimStart(s)[0]) || TrimStart(s)[0] in "+-")
  {
  }

  /** parseInt after the white space: an optional sign, then digits. */
  function ParseSigned(t: string): Option<int> {
    if t != [] && t[0] == '-' then Negate(ParseDigits(t[1..]))
    else if t != [] && t[0] == '+' then ParseDigits(t[1..])
    else ParseDigits(t)
  }

  /** The value of the leading digits of u, None when u does not start with one. */
  function ParseDigits(u: string): Option<int> {
    var ds := LeadingDigits(u);
    if ds == [] then None else Some(DigitsValue(ds) as int)
  }

  function Negate(v: Option<int>): Option<int> {
    match v
    case None => None
    case Some(x) => Some(-x)
  }

  lemma {:induction false} DigitsValueOfNatToString(n: nat)
    ensures DigitsValue(NatToString(n)) == n
  {
    if n >= 10 {
      var s := NatToString(n / 10);
      DigitsValueOfNatToString(n / 10);
      var t := s + [DigitChar(n % 10)];
      assert t[..|t| - 1] == s;
    }
  }

  lemma {:induction false} LeadingDigitsOfDigits(s: string)
    requires AllDigits(s)
    ensures LeadingDigits(s) == s
  {
    if s != [] {
      LeadingDigitsOfDigits(s[1..]);
    }
  }

  /** parseInt of a plain run of digits is its value. */
  lemma ParseIntOfDigits(s: string)
    requires s != [] && AllDigits(s)
    ensures ParseInt(s) == Some(DigitsValue(s) as int)
  {
    assert TrimStart(s) == s;
    LeadingDigitsOfDigits(s);
  }

  /** parseInt of a minus sign followed by digits is the negated value. */
  lemma ParseIntOfNegDigits(d: string)
    requires d != [] && AllDigits(d)
    ensures ParseInt("-" + d) == Some(-(DigitsValue(d) as int))
  {
    var s := "-" + d;
    assert s[1..] == d;
    TrimStartOfSign(s);
    LeadingDigitsOfDigits(d);
    calc {
      ParseInt(s);
      ParseSigned(s);
      Negate(ParseDigits(d));
      Negate(Some(DigitsValue(d) as int));
    }
  }

  /** parseInt of a plus sign followed by digits is their value. */
  lemma ParseIntOfPlusDigits(d: string)
    requires d != [] && AllDigits(d)
    ensures ParseInt("+" + d) == Some(DigitsValue(d) as int)
  {
    var s := "+" + d;
    assert s[1..] == d;
    assert !IsJsSpace(s[0]) && TrimStart(s) == s;
    LeadingDigitsOfDigits(d);
  }

  lemma TrimStartOfSign(s: string)
    requires s != [] && s[0] == '-'
    ensures TrimStart(s) == s
  {
    assert !IsJsSpace(s[0]);
  }

  /** parseInt reads the decimal form of a natural number, with or without a minus sign. */
  lemma ParseIntOfNatToString(m: nat)
    ensures ParseInt(NatToString(m)) == Some(m as int)
    ensures ParseInt("-" + NatToString(m)) == Some(-(m as int))
  {
    ParseIntOfDigits(NatToString(m));
    ParseIntOfNegDigits(NatToString(m));
    DigitsValueOfNatToString(m);
  }

  /** parseInt reads back every integer's decimal form: `parseInt(String(n)) == n`. */
  lemma ParseIntOfIntToString(n: int)
    ensures ParseInt(IntToString(n)) == Some(n)
  {
    if n < 0 {
      var m: nat := -n;
      assert IntToString(n) == "-" + NatToString(m);
      ParseIntOfNatToString(m);
      assert -(m as int) == n;
    } else {
      var m: nat := n;
      assert IntToString(n) == NatToString(m);
      ParseIntOfNatToString(m);
    }
  }

  /** Distinct integers have distinct decimal forms. */
  lemma IntToStringInjective(a: int, b: int)
    requires IntToString(a) == IntToString(b)
    ensures a == b
  {
    ParseIntOfIntToString(a);
    ParseIntOfIntToString(b);
  }

  /** The leading digit run of digits followed by a non-digit is those digits. */
  lemma {:induction false} LeadingDigitsStops(ds: string, rest: string)
    requires AllDigits(ds)
    requires rest == [] || !IsDigit(rest[0])
    ensures LeadingDigits(ds + rest) == ds
    decreases |ds|
  {
    if ds != [] {
      assert (ds + rest)[1..] == ds[1..] + rest;
      LeadingDigitsStops(ds[1..], rest);
    } else {
      assert ds + rest == rest;
    }
  }

  /**
    parseInt stops at the first character that is not a digit: a natural
    number's decimal text followed by such a character reads as that number.
  */
  lemma ParseIntOfNatToStringThen(n: nat, rest: string)
    requires rest == [] || !IsDigit(rest[0])
    ensures ParseInt(NatToString(n) + rest) == Some(n as int)
  {
    var d := NatToString(n);
    var s := d + rest;
    assert s[0] == d[0] && IsDigit(s[0]) && !IsJsSpace(s[0]);
    assert TrimStart(s) == s;
    LeadingDigitsStops(d, rest);
    DigitsValueOfNatToString(n);
  }

  /** A string without any digit is NaN for parseInt. */
  lemma ParseIntWithoutDigits(s: string)
    requires forall i :: 0 <= i < |s| ==> !IsDigit(s[i])
    ensures ParseInt(s) == None
  {
    var t := TrimStart(s);
    assert forall i :: 0 <= i < |t| ==> t[i] == s[|s| - |t| + i];
    if t != [] && (t[0] == '-' || t[0] == '+') {
      assert forall i :: 0 <= i < |t[1..]| ==> !IsDigit(t[1..][i]);
    }
  }

  // ----- parseInt without a radix -----

  predicate IsHex(c: char) {
    ('0' <= c <= '9') || ('A' <= c <= 'F') || ('a' <= c <= 'f')
  }

  predicate AllHex(s: string) { forall i :: 0 <= i < |s| ==> IsHex(s[i]) }

  function HexValue(c: char): (d: nat)
    requires IsHex(c)
    ensures d < 16
  {
    if '0' <= c <= '9' then (c as int) - ('0' as int)
    else if 'A' <= c <= 'F' then (c as int) - ('A' as int) + 10
    else (c as int) - ('a' as int) + 10
  }

  /** The longest prefix of s made of hexadecimal digits. */
  function LeadingHex(s: string): (r: string)
    ensures |r| <= |s| && r == s[..|r|] && AllHex(r)
    ensures |r| < |s| ==> !IsHex(s[|r|])
  {
    if s != [] && IsHex(s[0]) then [s[0]] + LeadingHex(s[1..]) else []
  }

  /** The value of a string of hexadecimal digits, most significant first. */
  function HexDigitsValue(s: string): nat
    requires AllHex(s)
  {
    if s == [] then 0 else HexDigitsValue(s[..|s| - 1]) * 16 + HexValue(s[|s| - 1])
  }

  /** t without its sign, if it has one. */
  function Unsigned(t: string): string {
    if t != [] && (t[0] == '-' || t[0] == '+') then t[1..] else t
  }

  /** `0x` or `0X` at the start. */
  predicate HexPrefixed(u: string) {
    |u| >= 2 && u[0] == '0' && (u[1] == 'x' || u[1] == 'X')
  }

  /**
    `parseInt(s)` with no radix: as `parseInt(s, 10)`, except that `0x` or
    `0X` after the white space and the optional sign switches to hexadecimal,
    and then at least one hexadecimal digit must follow.
  */
  function ParseIntNoRadix(s: string): Option<int> {
    var t := TrimStart(s);
    if t != [] && t[0] == '-' then Negate(ParseMagnitude(t[1..]))
    else if t != [] && t[0] == '+' then ParseMagnitude(t[1..])
    else ParseMagnitude(t)
  }

  /** After the sign: hexadecimal behind `0x`, decimal otherwise. */
  function ParseMagnitude(u: string): Option<int> {
    if HexPrefixed(u) then
      var hs := LeadingHex(u[2..]);
      if hs == [] then None else Some(HexDigitsValue(hs) as int)
    else ParseDigits(u)
  }

  /** Without a `0x` prefix the default radix is ten: both readings agree. */
  lemma NoRadixWithoutPrefix(s: string)
    requires !HexPrefixed(Unsigned(TrimStart(s)))
    ensures ParseIntNoRadix(s) == ParseInt(s)
  {
  }

  lemma {:induction false} LeadingHexOfHex(h: string)
    requires AllHex(h)
    ensures LeadingHex(h) == h
  {
    if h != [] {
      LeadingHexOfHex(h[1..]);
    }
  }

  /** Behind `0x` or `0X`, the hexadecimal digits h are read as their value. */
  lemma MagnitudeOfHex(x: char, h: string)
    requires (x == 'x' || x == 'X') && h != [] && AllHex(h)
    ensures ParseMagnitude(['0', x] + h) == Some(HexDigitsValue(h) as int)
  {
    var u := ['0', x] + h;
    assert u[2..] == h;
    LeadingHexOfHex(h);
  }

  /** `parseInt("0x" + h)` reads h in hexadecimal, and so with `0X`. */
  lemma NoRadixOfHex(x: char, h: string)
    requires (x == 'x' || x == 'X') && h != [] && AllHex(h)
    ensures ParseIntNoRadix(['0', x] + h) == Some(HexDigitsValue(h) as int)
  {
    var u := ['0', x] + h;
    MagnitudeOfHex(x, h);
    assert u[0] == '0' && !IsJsSpace(u[0]);
    assert TrimStart(u) == u;
  }

  /** After a leading minus (which is not white space) the magnitude is negated. */
  lemma NoRadixOfMinus(t: string)
    requires t != [] && t[0] == '-'
    ensures ParseIntNoRadix(t) == Negate(ParseMagnitude(t[1..]))
  {
    assert !IsJsSpace(t[0]);
  }

  /** `parseInt("-0x" + h)` is the negated hexadecimal value of h. */
  lemma NoRadixOfNegativeHex(x: char, h: string)
    requires (x == 'x' || x == 'X') && h != [] && AllHex(h)
    ensures ParseIntNoRadix("-" + (['0', x] + h)) == Some(-(HexDigitsValue(h) as int))
  {
    var u := ['0', x] + h;
    var neg := "-" + u;
    NoRadixOfMinus(neg);
    assert neg[1..] == u;
    MagnitudeOfHex(x, h);
  }

  /** `parseInt("0x10")` is 16. */
  lemma HexPrefixOfSixteen()
    ensures ParseIntNoRadix("0x10") == Some(16)
  {
    var h := ['1', '0'];
    assert HexDigitsValue(h) == 16 by { assert h[..1] == ['1']; }
    NoRadixOfHex('x', h);
    assert "0x10" == ['0', 'x'] + h;
  }

  /** `parseInt("0x10", 10)` is 0: the decimal reading stops at the `x`. */
  lemma DecimalStopsAtX()
    ensures ParseInt("0x10") == Some(0)
  {
    var s := "0x10";
    assert TrimStart(s) == s by { assert !IsJsSpace(s[0]); }
    LeadingDigitsStops("0", s[1..]);
    assert s == "0" + s[1..];
  }

  /** With a `0x` prefix the two readings differ. */
  lemma HexPrefixDiffers()
    ensures ParseIntNoRadix("0x10") == Some(16) && ParseInt("0x10") == Some(0)
  {
    HexPrefixOfSixteen();
    DecimalStopsAtX();
  }

  /** `0x` or `0X` with no hexadecimal digit after it is NaN. */
  lemma HexPrefixWithoutDigits(x: char, rest: string)
    requires x == 'x' || x == 'X'
    requires rest == [] || !IsHex(rest[0])
    ensures ParseIntNoRadix(['0', x] + rest) == None
  {
    var u := ['0', x] + rest;
    assert u[2..] == rest;
    assert HexPrefixed(u) && LeadingHex(u[2..]) == [];
    assert ParseMagnitude(u) == None;
    assert u[0] == '0' && !IsJsSpace(u[0]);
    assert TrimStart(u) == u;
  }

  /** parseInt without a radix reads back every integer's decimal form. */
  lemma NoRadixOfIntToString(n: int)
    ensures ParseIntNoRadix(IntToString(n)) == Some(n)
  {
    var s := IntToString(n);
    assert TrimStart(s) == s by { assert !IsJsSpace(s[0]); }
    if n < 0 {
      assert s == "-" + NatToString(-n);
      assert Unsigned(s) == NatToString(-n);
    }
    NoRadixWithoutPrefix(s);
    ParseIntOfIntToString(n);
  }

  /** A run of decimal digits has no `0x` prefix, so it reads as its value. */
  lemma NoRadixOfDigits(s: string)
    requires s != [] && AllDigits(s)
    ensures ParseIntNoRadix(s) == Some(DigitsValue(s) as int)
  {
    assert TrimStart(s) == s by { assert !IsJsSpace(s[0]); }
    assert !IsDigit('x') && !IsDigit('X');
    NoRadixWithoutPrefix(s);
    ParseIntOfDigits(s);
  }

  /** `s.split(c)[0]`: the text before the first c, or all of s when there is none. */
  function BeforeFirst(s: string, c: char): (r: string)
    ensures |r| <= |s| && r == s[..|r|]
    ensures forall i :: 0 <= i < |r| ==> r[i] != c
    ensures |r| < |s| ==> s[|r|] == c
  {
    if s == [] || s[0] == c then [] else [s[0]] + BeforeFirst(s[1..], c)
  }

  /** Splitting `a + c + b` at its first c gives back a when a holds no c. */
  lemma {:induction false} BeforeFirstOfJoined(a: string, c: char, b: string)
    requires forall i :: 0 <= i < |a| ==> a[i] != c
    ensures BeforeFirst(a + [c] + b, c) == a
  {
    if a != [] {
      assert (a + [c] + b)[1..] == a[1..] + [c] + b;
      BeforeFirstOfJoined(a[1..], c, b);
    }
  }

  predicate StartsWith(s: string, prefix: string) {
    |prefix| <= |s| && s[..|prefix|] == prefix
  }

  predicate EndsWith(s: string, suffix: string) {
    |suffix| <= |s| && s[|s| - |suffix|..] == suffix
  }

  /** `parts.join(sep)`. */
  function Join(parts: seq<string>, sep: string): string {
    if |parts| == 0 then ""
    else if |parts| == 1 then parts[0]
    else parts[0] + sep + Join(parts[1..], sep)
  }

  function UpperAscii(c: char): char {
    if 'a' <= c <= 'z' then (c as int - 32) as char else c
  }

  /** `toUpperCase()` on the ASCII letters; every other character is kept. */
  function ToUpperAscii(s: string): (r: string)
    ensures |r| == |s|
    ensures forall i :: 0 <= i < |s| ==> r[i] == UpperAscii(s[i])
  {
    if s == [] then [] else [UpperAscii(s[0])] + ToUpperAscii(s[1..])
  }

  /** A number below 100 as two digits, zero-padded (moment's `HH`, `mm`, `ss`). */
  function Pad2(n: nat): (s: string)
    requires n < 100
    ensures |s| == 2 && AllDigits(s)
    ensures DigitValue(s[0]) * 10 + DigitValue(s[1]) == n
  {
    [DigitChar(n / 10), DigitChar(n % 10)]
  }

  /** A number below 10000 as four digits, zero-padded (moment's `YYYY`). */
  function Pad4(n: nat): (s: string)
    requires n < 10000
    ensures |s| == 4 && AllDigits(s)
  {
    Pad2(n / 100) + Pad2(n % 100)
  }
}
