/** The string-to-number conversions the client relies on: `parseInt`
    (section 19.2.5 of ECMA-262), the `isNaN(Number(s))` test (the
    StringNumericLiteral grammar of section 7.1.4.1.1) and the decimal
    rendering of an integer (Number::toString, section 6.1.6.1.20, for
    integral values). Numbers are exact integers here: the rounding of
    large values to doubles is not modelled. */
module JsNumber {

  /** The radix argument as the client passes it: `parseInt(s, 10)` or
      `parseInt(s)`. */
  datatype Radix = Ten | Unspecified

  /** The result of `parseInt`: NaN, or an integral number. A negative zero
      is the same value as zero here. */
  datatype IntOrNaN = NaN | Num(n: int)

  /** WhiteSpace and LineTerminator code points (sections 12.2 and 12.3). */
  predicate IsWhitespace(c: char)
  {
    || c == '\t' || c == '\n' || c == '\U{000B}' || c == '\U{000C}' || c == '\r'
    || c == ' ' || c == '\U{00A0}' || c == '\U{1680}' || ('\U{2000}' <= c <= '\U{200A}')
    || c == '\U{2028}' || c == '\U{2029}' || c == '\U{202F}' || c == '\U{205F}'
    || c == '\U{3000}' || c == '\U{FEFF}'
  }

  /** `s` without its leading white space. */
  function TrimStart(s: string): (r: string)
    ensures |r| <= |s| && r == s[|s| - |r|..]
    ensures |r| > 0 ==> !IsWhitespace(r[0])
  {
    if |s| > 0 && IsWhitespace(s[0]) then TrimStart(s[1..]) else s
  }

  /** `s` without its trailing white space. */
  function TrimEnd(s: string): (r: string)
    ensures |r| <= |s| && r == s[..|r|]
    ensures |r| > 0 ==> !IsWhitespace(r[|r| - 1])
  {
    if |s| > 0 && IsWhitespace(s[|s| - 1]) then TrimEnd(s[..|s| - 1]) else s
  }

  /** The value of a digit in any radix up to 36; 36 for a non-digit. */
  function DigitValue(c: char): (r: nat)
    ensures r <= 36
    ensures r < 10 <==> '0' <= c <= '9'
  {
    if '0' <= c <= '9' then c as int - '0' as int
    else if 'a' <= c <= 'z' then c as int - 'a' as int + 10
    else if 'A' <= c <= 'Z' then c as int - 'A' as int + 10
    else 36
  }

  predicate AllDigits(s: string, radix: nat)
  {
    forall i :: 0 <= i < |s| ==> DigitValue(s[i]) < radix
  }

  /** The longest prefix of `s` made of digits of `radix`. */
  function DigitPrefix(s: string, radix: nat): (r: string)
    ensures |r| <= |s| && r == s[..|r|]
    ensures AllDigits(r, radix)
    ensures |r| < |s| ==> DigitValue(s[|r|]) >= radix
  {
    if |s| == 0 || DigitValue(s[0]) >= radix then []
    else
      var rest := DigitPrefix(s[1..], radix);
      assert [s[0]] + rest == s[..|rest| + 1];
      [s[0]] + rest
  }

  /** The number a digit string denotes in `radix`, most significant first. */
  function DigitsValue(ds: string, radix: nat): nat
  {
    if |ds| == 0 then 0 else DigitsValue(ds[..|ds| - 1], radix) * radix + DigitValue(ds[|ds| - 1])
  }

  /** `parseInt(s)` or `parseInt(s, 10)`: skip leading white space, then
      read a signed integer. */
  function ParseInt(s: string, radix: Radix): (r: IntOrNaN)
    ensures TrimStart(s) == "" ==> r == NaN
    ensures radix == Ten && |TrimStart(s)| > 0 && '0' <= TrimStart(s)[0] <= '9' ==> r.Num?
    ensures r.Num? && r.n < 0 ==> TrimStart(s)[0] == '-'
  {
    ParseSigned(TrimStart(s), radix)
  }

  /** An optional sign, then the digits. */
  function ParseSigned(t: string, radix: Radix): IntOrNaN
  {
    if |t| > 0 && t[0] == '-' then Negate(ParseUnsigned(t[1..], radix))
    else if |t| > 0 && t[0] == '+' then ParseUnsigned(t[1..], radix)
    else ParseUnsigned(t, radix)
  }

  function Negate(r: IntOrNaN): IntOrNaN
  {
    match r
    case NaN => NaN
    case Num(n) => Num(-n)
  }

  /** With an unspecified radix a `0x`/`0X` prefix selects radix 16;
      otherwise the radix is 10. */
  function ParseUnsigned(u: string, radix: Radix): (r: IntOrNaN)
    ensures r.Num? ==> r.n >= 0
    ensures radix == Ten && |u| > 0 && '0' <= u[0] <= '9' ==> r.Num?
  {
    if radix == Unspecified && |u| >= 2 && u[0] == '0' && (u[1] == 'x' || u[1] == 'X') then ReadDigits(u[2..], 16)
    else ReadDigits(u, 10)
  }

  /** The longest run of digits at the start of `body`; NaN when there is
      none. Whatever follows the run is ignored. */
  function ReadDigits(body: string, base: nat): (r: IntOrNaN)
    ensures r.Num? ==> r.n >= 0
  {
    var ds := DigitPrefix(body, base);
    if |ds| == 0 then NaN else Num(DigitsValue(ds, base))
  }

  function DigitChar(d: nat): (c: char)
    requires d < 10
    ensures '0' <= c <= '9' && DigitValue(c) == d
  {
    (d + '0' as int) as char
  }

  /** The decimal numeral of `n`, without leading zeros. */
  function NatToDecimal(n: nat): (r: string)
    ensures |r| > 0 && AllDigits(r, 10)
    ensures r[0] == '0' ==> n == 0 && r == "0"
  {
    if n < 10 then [DigitChar(n)] else NatToDecimal(n / 10) + [DigitChar(n % 10)]
  }

  /** `String(n)` for an integral number `n`. */
  function IntToDecimal(n: int): (r: string)
    ensures |r| > 0
    ensures n < 0 <==> r[0] == '-'
  {
    if n < 0 then "-" + NatToDecimal(-n) else NatToDecimal(n)
  }

  lemma {:induction false} NatToDecimalValue(n: nat)
    ensures DigitsValue(NatToDecimal(n), 10) == n
  {
    if n >= 10 {
      var a := NatToDecimal(n / 10);
      var r := a + [DigitChar(n % 10)];
      assert r[..|r| - 1] == a;
      NatToDecimalValue(n / 10);
    }
  }

  lemma DigitPrefixOfDigits(s: string, radix: nat)
    requires AllDigits(s, radix)
    ensures DigitPrefix(s, radix) == s
  {
  }

  /** Rendering an integer in decimal and reading it back with `parseInt`,
      with either radix, gives the integer back. */
  lemma ParseIntOfDecimal(n: int, radix: Radix)
    ensures ParseInt(IntToDecimal(n), radix) == Num(n)
  {
    var s := IntToDecimal(n);
    var m: nat := if n < 0 then -n else n;
    var d := NatToDecimal(m);
    assert !IsWhitespace(s[0]);
    assert TrimStart(s) == s;
    if n < 0 {
      assert s[1..] == d;
    }
    DigitPrefixOfDigits(d, 10);
    NatToDecimalValue(m);
  }

  lemma TrimStartKeeps(s: string)
    requires |s| > 0 && !IsWhitespace(s[0])
    ensures TrimStart(s) == s
  {
  }

  lemma TrimEndKeeps(s: string)
    requires |s| > 0 && !IsWhitespace(s[|s| - 1])
    ensures TrimEnd(s) == s
  {
  }

  lemma {:induction false} TrimStartSkips(w: string, s: string)
    requires forall i :: 0 <= i < |w| ==> IsWhitespace(w[i])
    ensures TrimStart(w + s) == TrimStart(s)
    decreases |w|
  {
    if |w| > 0 {
      assert (w + s)[0] == w[0];
      assert TrimStart(w + s) == TrimStart((w + s)[1..]);
      assert (w + s)[1..] == w[1..] + s;
      TrimStartSkips(w[1..], s);
    } else {
      assert w + s == s;
    }
  }

  /** Leading white space does not change what `parseInt` reads. */
  lemma ParseIntSkipsWhitespace(w: string, s: string, radix: Radix)
    requires forall i :: 0 <= i < |w| ==> IsWhitespace(w[i])
    ensures ParseInt(w + s, radix) == ParseInt(s, radix)
  {
    TrimStartSkips(w, s);
  }

  lemma DigitPrefixStops(ds: string, rest: string, radix: nat)
    requires AllDigits(ds, radix)
    requires |rest| == 0 || DigitValue(rest[0]) >= radix
    ensures DigitPrefix(ds + rest, radix) == ds
  {
    var s := ds + rest;
    var r := DigitPrefix(s, radix);
    assert forall i :: 0 <= i < |ds| ==> s[i] == ds[i];
    assert |s| > |ds| ==> s[|ds|] == rest[0];
    assert s[..|ds|] == ds;
  }

  /** `parseInt` reads the leading run of decimal digits and ignores
      whatever follows it. */
  lemma ParseIntReadsLeadingDigits(ds: string, rest: string, radix: Radix)
    requires |ds| > 0 && AllDigits(ds, 10)
    requires |rest| == 0 || DigitValue(rest[0]) >= 10
    requires radix == Ten || ds[0] != '0'
    ensures ParseInt(ds + rest, radix) == Num(DigitsValue(ds, 10))
  {
    var s := ds + rest;
    assert s[0] == ds[0];
    TrimStartKeeps(s);
    assert ParseInt(s, radix) == ParseUnsigned(s, radix);
    UnsignedReadsLeadingDigits(ds, rest, radix);
  }

  lemma UnsignedReadsLeadingDigits(ds: string, rest: string, radix: Radix)
    requires |ds| > 0 && AllDigits(ds, 10)
    requires |rest| == 0 || DigitValue(rest[0]) >= 10
    requires radix == Ten || ds[0] != '0'
    ensures ParseUnsigned(ds + rest, radix) == Num(DigitsValue(ds, 10))
  {
    assert (ds + rest)[0] == ds[0];
    DigitPrefixStops(ds, rest, 10);
  }

  /** A string whose first character is neither white space, a sign nor
      a digit is NaN, whatever follows. */
  lemma ParseIntWithoutDigits(s: string, radix: Radix)
    requires |s| == 0 || (!IsWhitespace(s[0]) && s[0] != '-' && s[0] != '+' && DigitValue(s[0]) >= 10)
    ensures ParseInt(s, radix) == NaN
  {
    if |s| > 0 {
      TrimStartKeeps(s);
    }
  }

  lemma DigitsValueTwelve()
    ensures DigitsValue("12", 10) == 12
  {
    assert "12"[..1] == "1" && "1"[..0] == "";
  }

  /** The characters after the digits are ignored: `parseInt("12abc")` is 12. */
  lemma ParseIntOfTwelveAbc()
    ensures ParseInt("12abc", Ten) == Num(12)
  {
    assert "12" + "abc" == "12abc";
    ParseIntReadsLeadingDigits("12", "abc", Ten);
    DigitsValueTwelve();
  }

  lemma DigitsValueOneA()
    ensures DigitsValue("1A", 16) == 26
  {
    assert "1A"[..1] == "1" && "1"[..0] == "";
  }

  /** An unspecified radix reads a `0x` prefix as hexadecimal. */
  lemma ParseIntHexPrefix()
    ensures ParseInt("0x1A", Unspecified) == Num(26)
  {
    TrimStartKeeps("0x1A");
    assert ParseInt("0x1A", Unspecified) == ParseUnsigned("0x1A", Unspecified);
    assert "0x1A"[2..] == "1A" == "1A" + "";
    DigitPrefixStops("1A", "", 16);
    DigitsValueOneA();
  }

  /** Radix 10 reads the `0` of a `0x` prefix and stops at the `x`. */
  lemma ParseIntDecimalIgnoresHexPrefix()
    ensures ParseInt("0x1A", Ten) == Num(0)
  {
    assert "0" + "x1A" == "0x1A";
    ParseIntReadsLeadingDigits("0", "x1A", Ten);
    assert "0"[..0] == "";
  }

  // ----- isNaN(Number(s)) -----

  /** The end of the run of decimal digits that starts at `i`. */
  function DigitsEnd(s: string, i: nat): (r: nat)
    requires i <= |s|
    ensures i <= r <= |s|
    ensures forall k :: i <= k < r ==> '0' <= s[k] <= '9'
    ensures r < |s| ==> !('0' <= s[r] <= '9')
    decreases |s| - i
  {
    if i < |s| && '0' <= s[i] <= '9' then DigitsEnd(s, i + 1) else i
  }

  /** An optional ExponentPart starting at `i` and running to the end of `s`. */
  predicate ExponentToEnd(s: string, i: nat)
    requires i <= |s|
  {
    || i == |s|
    || (&& (s[i] == 'e' || s[i] == 'E')
        && var j := if i + 1 < |s| && (s[i + 1] == '+' || s[i + 1] == '-') then i + 2 else i + 1;
           j < |s| && DigitsEnd(s, j) == |s|)
  }

  /** StrUnsignedDecimalLiteral: `Infinity`, or digits with an optional
      fraction and exponent, with at least one digit before the exponent. */
  predicate IsUnsignedDecimal(s: string)
  {
    || s == "Infinity"
    || var a := DigitsEnd(s, 0);
       if a < |s| && s[a] == '.' then
         var b := DigitsEnd(s, a + 1);
         (a > 0 || b > a + 1) && ExponentToEnd(s, b)
       else a > 0 && ExponentToEnd(s, a)
  }

  /** NonDecimalIntegerLiteral: `0b`, `0o` or `0x` and at least one digit. */
  predicate IsNonDecimal(s: string)
  {
    && |s| >= 3 && s[0] == '0'
    && var radix := if s[1] == 'b' || s[1] == 'B' then 2
                    else if s[1] == 'o' || s[1] == 'O' then 8
                    else if s[1] == 'x' || s[1] == 'X' then 16
                    else 0;
       radix > 0 && AllDigits(s[2..], radix)
  }

  /** StrNumericLiteral, for a string with no surrounding white space. */
  predicate IsNumericLiteral(s: string)
  {
    || IsNonDecimal(s)
    || (|s| > 0 && (s[0] == '+' || s[0] == '-') && IsUnsignedDecimal(s[1..]))
    || IsUnsignedDecimal(s)
  }

  /** `isNaN(Number(s))`: the trimmed string is neither empty (which
      converts to 0) nor a numeric literal. */
  predicate NumberIsNaN(s: string)
    ensures var t := TrimEnd(TrimStart(s));
      t != "" && !('0' <= t[0] <= '9' || t[0] == '+' || t[0] == '-' || t[0] == '.' || t[0] == 'I') ==> NumberIsNaN(s)
    ensures TrimEnd(TrimStart(s)) == "" ==> !NumberIsNaN(s)
  {
    var t := TrimEnd(TrimStart(s));
    t != "" && !IsNumericLiteral(t)
  }

  lemma DigitsRunToEnd(s: string)
    requires AllDigits(s, 10)
    ensures DigitsEnd(s, 0) == |s|
  {
  }

  /** The decimal numeral of any integer converts to a number. */
  lemma DecimalIsNumber(n: int)
    ensures !NumberIsNaN(IntToDecimal(n))
  {
    var s := IntToDecimal(n);
    var m: nat := if n < 0 then -n else n;
    var d := NatToDecimal(m);
    TrimStartKeeps(s);
    assert '0' <= s[|s| - 1] <= '9';
    TrimEndKeeps(s);
    DigitsRunToEnd(d);
    assert IsUnsignedDecimal(d);
    if n < 0 {
      assert s[1..] == d;
    }
  }

  lemma DigitsEndOfTwelveAbc()
    ensures DigitsEnd("12abc", 0) == 2
  {
    assert DigitsEnd("12abc", 2) == 2;
    assert DigitsEnd("12abc", 1) == 2;
  }

  lemma TwelveAbcIsNotLiteral()
    ensures !IsNumericLiteral("12abc")
  {
    DigitsEndOfTwelveAbc();
    assert !ExponentToEnd("12abc", 2);
    assert !IsUnsignedDecimal("12abc");
    assert !IsNonDecimal("12abc");
  }

  /** `Number` rejects a numeral followed by other characters, where
      `parseInt` reads the numeral. */
  lemma NumberRejectsTrailingCharacters()
    ensures NumberIsNaN("12abc") && ParseInt("12abc", Ten) == Num(12)
  {
    ParseIntOfTwelveAbc();
    TrimStartKeeps("12abc");
    TrimEndKeeps("12abc");
    TwelveAbcIsNotLiteral();
  }

  lemma TwelveIsLiteral()
    ensures IsNumericLiteral("12")
  {
    DigitsRunToEnd("12");
    assert ExponentToEnd("12", 2);
    assert IsUnsignedDecimal("12");
  }

  lemma SpacedTwelveTrimStart()
    ensures TrimStart(" 12 ") == "12 "
  {
    assert " 12 "[1..] == "12 ";
    assert !IsWhitespace('1');
  }

  lemma SpacedTwelveTrimEnd()
    ensures TrimEnd("12 ") == "12"
  {
  }

  /** Surrounding white space is ignored. */
  lemma NumberTrimsWhitespace()
    ensures !NumberIsNaN(" 12 ")
  {
    SpacedTwelveTrimStart();
    SpacedTwelveTrimEnd();
    TwelveIsLiteral();
  }

  /** The empty string converts to 0, not NaN. */
  lemma EmptyIsNumber()
    ensures !NumberIsNaN("")
  {
  }

  lemma ExponentFormIsLiteral()
    ensures IsNumericLiteral("1.5e3")
  {
    var e := "1.5e3";
    assert DigitsEnd(e, 1) == 1;
    assert DigitsEnd(e, 0) == 1;
    assert DigitsEnd(e, 3) == 3;
    assert DigitsEnd(e, 2) == 3;
    assert DigitsEnd(e, 5) == 5;
    assert DigitsEnd(e, 4) == 5;
    assert ExponentToEnd(e, 3);
    assert IsUnsignedDecimal(e);
  }

  /** A hexadecimal literal is a number. */
  lemma HexIsNumber()
    ensures !NumberIsNaN("0x1A")
  {
    TrimStartKeeps("0x1A");
    TrimEndKeeps("0x1A");
    assert "0x1A"[2..] == "1A";
    assert IsNonDecimal("0x1A");
  }

  /** A decimal literal with fraction and exponent is a number. */
  lemma ExponentIsNumber()
    ensures !NumberIsNaN("1.5e3")
  {
    TrimStartKeeps("1.5e3");
    TrimEndKeeps("1.5e3");
    ExponentFormIsLiteral();
  }

  /** Letters are not a number. */
  lemma LettersAreNaN()
    ensures NumberIsNaN("abc")
  {
    TrimStartKeeps("abc");
    TrimEndKeeps("abc");
    assert DigitsEnd("abc", 0) == 0;
    assert !IsUnsignedDecimal("abc");
  }
}
