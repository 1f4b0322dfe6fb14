/**
  `encodeURIComponent` and `decodeURIComponent` as ECMA-262 (section 19.2.6)
  defines them: unreserved characters are kept, every other character is
  written as the `%XX` escapes of its UTF-8 bytes, hex digits upper-case.
  Decoding reads any `%XX`, rejects malformed escapes and invalid UTF-8
  (None stands for the URIError it throws).
*/
module Uri {
  import opened Wrappers
  import opened Text

  type byte = x: int | 0 <= x < 256

  /** The characters encodeURIComponent leaves as they are. */
  predicate Unreserved(c: char) {
    ('A' <= c <= 'Z') || ('a' <= c <= 'z') || ('0' <= c <= '9')
    || c == '-' || c == '_' || c == '.' || c == '!' || c == '~'
    || c == '*' || c == '\'' || c == '(' || c == ')'
  }

  function HexDigit(d: nat): (c: char)
    requires d < 16
    ensures IsHex(c) && HexValue(c) == d
  {
    if d < 10 then (('0' as int) + d) as char else (('A' as int) + d - 10) as char
  }

  /** The escape `%XX` of one byte. */
  function Percent(b: byte): (s: string)
    ensures |s| == 3 && s[0] == '%' && IsHex(s[1]) && IsHex(s[2])
    ensures HexValue(s[1]) * 16 + HexValue(s[2]) == b
  {
    ['%', HexDigit(b / 16), HexDigit(b % 16)]
  }

  function PercentAll(bs: seq<byte>): (s: string)
    ensures |s| == 3 * |bs|
  {
    if bs == [] then [] else Percent(bs[0]) + PercentAll(bs[1..])
  }

  /** The UTF-8 encoding of one Unicode scalar value. */
  function Utf8(c: char): (bs: seq<byte>)
    ensures 1 <= |bs| <= 4
  {
    var cp := c as int;
    var q1 := cp / 64;
    var q2 := q1 / 64;
    var q3 := q2 / 64;
    if cp < 0x80 then [cp]
    else if cp < 0x800 then [0xC0 + q1, 0x80 + cp % 64]
    else if cp < 0x10000 then [0xE0 + q2, 0x80 + q1 % 64, 0x80 + cp % 64]
    else [0xF0 + q3, 0x80 + q2 % 64, 0x80 + q1 % 64, 0x80 + cp % 64]
  }

  function EncodeChar(c: char): string {
    if Unreserved(c) then [c] else PercentAll(Utf8(c))
  }

  /** `encodeURIComponent(s)`. */
  function Encode(s: string): (r: string)
    ensures |r| >= |s|
    ensures (forall i :: 0 <= i < |s| ==> Unreserved(s[i])) ==> r == s
  {
    if s == [] then []
    else
      assert forall i :: 0 <= i < |s| - 1 ==> s[1..][i] == s[i + 1];
      assert s == [s[0]] + s[1..];
      EncodeChar(s[0]) + Encode(s[1..])
  }

  /** The byte written by the escape at the start of s, if there is one. */
  function ReadByte(s: string): (r: Option<byte>)
    ensures r.Some? ==> |s| >= 3
  {
    if |s| >= 3 && s[0] == '%' && IsHex(s[1]) && IsHex(s[2])
    then Some(HexValue(s[1]) * 16 + HexValue(s[2]))
    else None
  }

  /**
    Reads `count` continuation bytes (10xxxxxx) as escapes from the start of s,
    shifting their low six bits into acc.
  */
  function Continuation(s: string, acc: nat, count: nat): (r: Option<nat>)
    ensures r.Some? ==> |s| >= 3 * count
    decreases count
  {
    if count == 0 then Some(acc)
    else
      match ReadByte(s)
      case None => None
      case Some(b) =>
        if 0x80 <= b < 0xC0 then Continuation(s[3..], acc * 64 + (b - 0x80), count - 1)
        else None
  }

  /**
    The character of the `n`-byte sequence whose lead byte carries `lead`, or
    None when the bytes are not the shortest UTF-8 form of a scalar value.
  */
  function Multi(s: string, lead: nat, n: nat, least: nat): (r: Option<(char, nat)>)
    requires |s| >= 3 && 2 <= n <= 4
    ensures r.Some? ==> r.value.1 == 3 * n <= |s|
  {
    match Continuation(s[3..], lead, n - 1)
    case None => None
    case Some(cp) =>
      if least <= cp && cp < 0x110000 && !(0xD800 <= cp < 0xE000) then Some((cp as char, 3 * n))
      else None
  }

  /** The first character of a non-empty encoded string and how many characters it took. */
  function DecodeOne(s: string): (r: Option<(char, nat)>)
    requires s != []
    ensures r.Some? ==> 1 <= r.value.1 <= |s|
  {
    if s[0] != '%' then Some((s[0], 1))
    else
      match ReadByte(s)
      case None => None
      case Some(b) =>
        if b < 0x80 then Some((b as char, 3))
        else if 0xC0 <= b < 0xE0 then Multi(s, b - 0xC0, 2, 0x80)
        else if 0xE0 <= b < 0xF0 then Multi(s, b - 0xE0, 3, 0x800)
        else if 0xF0 <= b < 0xF8 then Multi(s, b - 0xF0, 4, 0x10000)
        else None
  }

  /** `decodeURIComponent(s)`; None where it throws URIError. */
  function Decode(s: string): (r: Option<string>)
    ensures r.Some? ==> |r.value| <= |s|
    ensures '%' !in s ==> r == Some(s)
    decreases |s|
  {
    if s == [] then Some([])
    else
      match DecodeOne(s)
      case None => None
      case Some((c, k)) =>
        assert '%' !in s ==> k == 1 && c == s[0] && s == [s[0]] + s[1..] && '%' !in s[1..];
        match Decode(s[k..])
        case None => None
        case Some(t) => Some([c] + t)
  }

  /** `.replace(/%20/g, "+")`: every escaped space becomes a plus sign. */
  function ReplacePct20(s: string): string {
    if |s| >= 3 && s[..3] == "%20" then "+" + ReplacePct20(s[3..])
    else if s == [] then []
    else [s[0]] + ReplacePct20(s[1..])
  }

  /** Turning `%20` into `+` leaves ASCII text ASCII. */
  lemma {:induction false} ReplaceKeepsAscii(s: string)
    requires IsAscii(s)
    ensures IsAscii(ReplacePct20(s))
    decreases |s|
  {
    if |s| >= 3 && s[..3] == "%20" {
      ReplaceKeepsAscii(s[3..]);
    } else if s != [] {
      ReplaceKeepsAscii(s[1..]);
    }
  }

  /** The value encoding of the payment parameters: encodeURIComponent, then `%20` to `+`. */
  function FormEncode(s: string): (r: string)
    ensures IsAscii(r)
  {
    EncodeIsAscii(s);
    ReplaceKeepsAscii(Encode(s));
    ReplacePct20(Encode(s))
  }

  /** One character in the form encoding: a space is `+`, anything else as encodeURIComponent writes it. */
  function FormChar(c: char): string {
    if c == ' ' then "+" else EncodeChar(c)
  }

  function FormEncodeByChar(s: string): string {
    if s == [] then [] else FormChar(s[0]) + FormEncodeByChar(s[1..])
  }

  predicate IsAscii(s: string) {
    forall i :: 0 <= i < |s| ==> (s[i] as int) < 128
  }

  // ----- Decoding what was encoded -----

  lemma ReadByteOfPercent(b: byte, rest: string)
    ensures ReadByte(Percent(b) + rest) == Some(b)
    ensures (Percent(b) + rest)[3..] == rest
  {
    var s := Percent(b) + rest;
    assert s[..3] == Percent(b);
  }

  lemma {:induction false} ContinuationOfPercent(bs: seq<byte>, rest: string, acc: nat)
    requires forall i :: 0 <= i < |bs| ==> 0x80 <= bs[i] < 0xC0
    ensures Continuation(PercentAll(bs) + rest, acc, |bs|) == Some(ContinuationValue(bs, acc))
  {
    if bs != [] {
      ReadByteOfPercent(bs[0], PercentAll(bs[1..]) + rest);
      assert PercentAll(bs) + rest == Percent(bs[0]) + (PercentAll(bs[1..]) + rest);
      ContinuationOfPercent(bs[1..], rest, acc * 64 + (bs[0] - 0x80));
    }
  }

  /** The accumulated value of a run of continuation bytes. */
  function ContinuationValue(bs: seq<byte>, acc: nat): nat
    requires forall i :: 0 <= i < |bs| ==> 0x80 <= bs[i] < 0xC0
  {
    if bs == [] then acc else ContinuationValue(bs[1..], acc * 64 + (bs[0] - 0x80))
  }

  /** The lead byte and the continuation bytes of a multi-byte encoding decode back to c. */
  lemma DecodeOneOfMulti(c: char, rest: string, lead: nat, n: nat, least: nat)
    requires var bs := Utf8(c); |bs| == n && 2 <= n <= 4 && lead < 64
    requires forall i :: 1 <= i < n ==> 0x80 <= Utf8(c)[i] < 0xC0
    requires least <= c as int && ContinuationValue(Utf8(c)[1..], lead) == c as int
    ensures Multi(PercentAll(Utf8(c)) + rest, lead, n, least) == Some((c, 3 * n))
  {
    var bs := Utf8(c);
    assert PercentAll(bs) + rest == Percent(bs[0]) + (PercentAll(bs[1..]) + rest);
    ReadByteOfPercent(bs[0], PercentAll(bs[1..]) + rest);
    ContinuationOfPercent(bs[1..], rest, lead);
  }

  lemma DecodeOneOfTwoBytes(c: char, rest: string)
    requires 0x80 <= c as int < 0x800
    ensures DecodeOne(PercentAll(Utf8(c)) + rest) == Some((c, 6))
  {
    var cp := c as int;
    var q1 := cp / 64;
    var bs := Utf8(c);
    assert PercentAll(bs) + rest == Percent(bs[0]) + (PercentAll(bs[1..]) + rest);
    ReadByteOfPercent(bs[0], PercentAll(bs[1..]) + rest);
    assert bs[1..] == [0x80 + cp % 64];
    assert ContinuationValue(bs[1..], q1) == cp;
    DecodeOneOfMulti(c, rest, q1, 2, 0x80);
  }

  lemma DecodeOneOfThreeBytes(c: char, rest: string)
    requires 0x800 <= c as int < 0x10000
    ensures DecodeOne(PercentAll(Utf8(c)) + rest) == Some((c, 9))
  {
    var cp := c as int;
    var q1 := cp / 64;
    var q2 := q1 / 64;
    var bs := Utf8(c);
    assert PercentAll(bs) + rest == Percent(bs[0]) + (PercentAll(bs[1..]) + rest);
    ReadByteOfPercent(bs[0], PercentAll(bs[1..]) + rest);
    var t := bs[1..];
    assert t == [0x80 + q1 % 64, 0x80 + cp % 64] && t[1..] == [0x80 + cp % 64];
    assert q2 * 64 + q1 % 64 == q1 && q1 * 64 + cp % 64 == cp;
    assert ContinuationValue(t[1..], q1) == cp;
    assert ContinuationValue(t, q2) == cp;
    DecodeOneOfMulti(c, rest, q2, 3, 0x800);
  }

  lemma DecodeOneOfFourBytes(c: char, rest: string)
    requires 0x10000 <= c as int
    ensures DecodeOne(PercentAll(Utf8(c)) + rest) == Some((c, 12))
  {
    var cp := c as int;
    var bs := Utf8(c);
    assert PercentAll(bs) + rest == Percent(bs[0]) + (PercentAll(bs[1..]) + rest);
    ReadByteOfPercent(bs[0], PercentAll(bs[1..]) + rest);
    assert bs[1..] == [0x80 + cp / 64 / 64 % 64, 0x80 + cp / 64 % 64, 0x80 + cp % 64];
    ThreeContinuations(cp);
    DecodeOneOfMulti(c, rest, cp / 64 / 64 / 64, 4, 0x10000);
  }

  /** The last three six-bit groups of a code point, read back as continuation bytes. */
  lemma ThreeContinuations(cp: nat)
    requires cp < 0x110000
    ensures cp / 64 / 64 / 64 < 64
    ensures ContinuationValue([0x80 + cp / 64 / 64 % 64, 0x80 + cp / 64 % 64, 0x80 + cp % 64], cp / 64 / 64 / 64) == cp
  {
    var q1 := cp / 64;
    var q2 := q1 / 64;
    var q3 := q2 / 64;
    var t: seq<byte> := [0x80 + q2 % 64, 0x80 + q1 % 64, 0x80 + cp % 64];
    assert t[1..] == [0x80 + q1 % 64, 0x80 + cp % 64] && t[1..][1..] == [0x80 + cp % 64];
    assert q3 * 64 + q2 % 64 == q2 && q2 * 64 + q1 % 64 == q1 && q1 * 64 + cp % 64 == cp;
    assert ContinuationValue(t[1..][1..], q1) == cp;
    assert ContinuationValue(t[1..], q2) == cp;
  }

  lemma DecodeOneOfEncodeChar(c: char, rest: string)
    ensures DecodeOne(EncodeChar(c) + rest) == Some((c, |EncodeChar(c)|))
  {
    var cp := c as int;
    if Unreserved(c) {
      assert (EncodeChar(c) + rest)[0] == c;
    } else if cp < 0x80 {
      var bs := Utf8(c);
      assert bs == [cp];
      assert PercentAll(bs) + rest == Percent(cp) + rest;
      ReadByteOfPercent(cp, rest);
    } else if cp < 0x800 {
      DecodeOneOfTwoBytes(c, rest);
    } else if cp < 0x10000 {
      DecodeOneOfThreeBytes(c, rest);
    } else {
      DecodeOneOfFourBytes(c, rest);
    }
  }

  /** decodeURIComponent undoes encodeURIComponent. */
  lemma {:induction false} DecodeEncode(s: string)
    ensures Decode(Encode(s)) == Some(s)
  {
    if s != [] {
      var e := EncodeChar(s[0]);
      DecodeOneOfEncodeChar(s[0], Encode(s[1..]));
      assert (e + Encode(s[1..]))[|e|..] == Encode(s[1..]);
      DecodeEncode(s[1..]);
      assert [s[0]] + s[1..] == s;
    }
  }

  /** Distinct strings have distinct encodings. */
  lemma EncodeInjective(a: string, b: string)
    requires Encode(a) == Encode(b)
    ensures a == b
  {
    DecodeEncode(a);
    DecodeEncode(b);
  }

  // ----- The shape of the encoding -----

  lemma {:induction false} PercentAllIsAscii(bs: seq<byte>)
    ensures IsAscii(PercentAll(bs))
  {
    if bs != [] {
      PercentAllIsAscii(bs[1..]);
      var p := Percent(bs[0]);
      assert forall i :: 0 <= i < 3 ==> (p[i] as int) < 128;
    }
  }

  /** encodeURIComponent writes only ASCII characters. */
  lemma {:induction false} EncodeIsAscii(s: string)
    ensures IsAscii(Encode(s))
  {
    if s != [] {
      EncodeIsAscii(s[1..]);
      if !Unreserved(s[0]) {
        PercentAllIsAscii(Utf8(s[0]));
      }
    }
  }

  lemma ReplaceOfPercent(b: byte, rest: string)
    requires b != 0x20
    ensures ReplacePct20(Percent(b) + rest) == Percent(b) + ReplacePct20(rest)
  {
    var p := Percent(b);
    var s := p + rest;
    assert s[..3] == p;
    assert p != "%20";
    var s1 := [p[1], p[2]] + rest;
    var s2 := [p[2]] + rest;
    assert s[1..] == s1 && s1[1..] == s2 && s2[1..] == rest;
    assert |s2| < 3 || s2[..3][0] != '%';
    assert |s1| < 3 || s1[..3][0] != '%';
    assert ReplacePct20(s2) == [p[2]] + ReplacePct20(rest);
    assert ReplacePct20(s1) == [p[1]] + ReplacePct20(s2);
    assert ReplacePct20(s) == [p[0]] + ReplacePct20(s1);
  }

  lemma {:induction false} ReplaceOfPercentAll(bs: seq<byte>, rest: string)
    requires forall i :: 0 <= i < |bs| ==> bs[i] != 0x20
    ensures ReplacePct20(PercentAll(bs) + rest) == PercentAll(bs) + ReplacePct20(rest)
  {
    if bs != [] {
      assert PercentAll(bs) + rest == Percent(bs[0]) + (PercentAll(bs[1..]) + rest);
      ReplaceOfPercent(bs[0], PercentAll(bs[1..]) + rest);
      ReplaceOfPercentAll(bs[1..], rest);
      assert Percent(bs[0]) + (PercentAll(bs[1..]) + ReplacePct20(rest))
          == PercentAll(bs) + ReplacePct20(rest);
    } else {
      assert PercentAll(bs) + rest == rest;
    }
  }

  lemma ReplaceOfEncodeChar(c: char, rest: string)
    ensures ReplacePct20(EncodeChar(c) + rest) == FormChar(c) + ReplacePct20(rest)
  {
    if Unreserved(c) {
      var s := [c] + rest;
      assert s[1..] == rest;
    } else if c == ' ' {
      var s := "%20" + rest;
      assert Utf8(c) == [0x20];
      assert PercentAll([0x20]) == "%20";
      assert s[..3] == "%20" && s[3..] == rest;
    } else {
      var bs := Utf8(c);
      assert forall i :: 0 <= i < |bs| ==> bs[i] != 0x20;
      ReplaceOfPercentAll(bs, rest);
    }
  }

  /**
    The value encoding agrees with its character-by-character description:
    a space becomes `+` and every other character is written as
    encodeURIComponent writes it.
  */
  lemma {:induction false} FormEncodeIsByChar(s: string)
    ensures FormEncode(s) == FormEncodeByChar(s)
  {
    if s != [] {
      ReplaceOfEncodeChar(s[0], Encode(s[1..]));
      FormEncodeIsByChar(s[1..]);
    }
  }

  /** A string of unreserved characters is its own form encoding. */
  lemma FormEncodeOfUnreserved(s: string)
    requires forall i :: 0 <= i < |s| ==> Unreserved(s[i])
    ensures FormEncode(s) == s
  {
    FormEncodeIsByChar(s);
    FormEncodeByCharOfUnreserved(s);
  }

  lemma {:induction false} FormEncodeByCharOfUnreserved(s: string)
    requires forall i :: 0 <= i < |s| ==> Unreserved(s[i])
    ensures FormEncodeByChar(s) == s
  {
    if s != [] {
      FormEncodeByCharOfUnreserved(s[1..]);
      assert s == [s[0]] + s[1..];
    }
  }
}
