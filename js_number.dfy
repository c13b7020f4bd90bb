/** The JavaScript number built-ins the CSV normaliser relies on:
    `parseInt(string, radix)` (with and without a radix) and `parseFloat`,
    following the algorithms of the ECMAScript specification, plus the
    decimal form of an integer (`String(n)`). A JavaScript number is a
    real value or NaN; rounding to binary64 is not modelled. */
module JsNumber {
  import opened JsString

  datatype Num = NaN | Val(v: real)

  predicate IsDecimalDigit(c: char)
  {
    '0' <= c <= '9'
  }

  /** The value of `c` as a digit of a radix up to 36 (`0`-`9`, then the
      letters of either case); 36 for a character that is no digit. */
  function DigitValue(c: char): (d: nat)
    ensures d <= 36
    ensures d < 10 <==> IsDecimalDigit(c)
  {
    if '0' <= c <= '9' then c as int - '0' as int
    else if 'a' <= c <= 'z' then c as int - 'a' as int + 10
    else if 'A' <= c <= 'Z' then c as int - 'A' as int + 10
    else 36
  }

  /** Length of the longest prefix of `s` made of digits of `radix`. */
  function DigitRun(s: string, radix: nat): (n: nat)
    ensures n <= |s|
    ensures forall i :: 0 <= i < n ==> DigitValue(s[i]) < radix
    ensures n == |s| || DigitValue(s[n]) >= radix
  {
    if s == [] || DigitValue(s[0]) >= radix then 0
    else 1 + DigitRun(s[1..], radix)
  }

  /** The value of a digit string in the given radix, most significant first. */
  function DigitsValue(ds: string, radix: nat): nat
  {
    if ds == [] then 0
    else DigitsValue(ds[..|ds| - 1], radix) * radix + DigitValue(ds[|ds| - 1])
  }

  /** The text after an optional leading `+` or `-`. */
  function AfterSign(t: string): string
  {
    if t != [] && (t[0] == '-' || t[0] == '+') then t[1..] else t
  }

  predicate IsNegative(t: string)
  {
    t != [] && t[0] == '-'
  }

  function Signed(negative: bool, m: nat): int
  {
    var k: int := m;
    if negative then -k else k
  }

  /** The text starts with `0x` or `0X`. */
  predicate HasHexPrefix(u: string)
  {
    |u| >= 2 && u[0] == '0' && (u[1] == 'x' || u[1] == 'X')
  }

  /** `parseInt(s, radix)`. A radix of 0 stands for an absent radix: base
      10, except that a `0x` or `0X` prefix selects base 16. A radix outside
      2..36 gives NaN; so does text with no digit where the number should
      start. The result is always a whole number. */
  function ParseInt(s: string, radix: int): (r: Num)
    ensures r.Val? ==> r.v == r.v.Floor as real
    ensures radix == 10 ==>
              (r.NaN? <==> var u := AfterSign(TrimStart(s)); u == [] || !IsDecimalDigit(u[0]))
  {
    var t := TrimStart(s);
    if radix != 0 && (radix < 2 || radix > 36) then NaN
    else
      var u := AfterSign(t);
      var hex := (radix == 0 || radix == 16) && HasHexPrefix(u);
      if hex then ParseDigits(u[2..], 16, IsNegative(t))
      else ParseDigits(u, if radix == 0 then 10 else radix, IsNegative(t))
  }

  /** The steps of `parseInt` after the sign and the radix are settled:
      the longest run of digits, or NaN when it is empty. */
  function ParseDigits(w: string, base: nat, negative: bool): (r: Num)
    ensures r.Val? ==> r.v == r.v.Floor as real
    ensures r.NaN? <==> (w == [] || DigitValue(w[0]) >= base)
  {
    var n := DigitRun(w, base);
    if n == 0 then NaN
    else Val(Signed(negative, DigitsValue(w[..n], base)) as real)
  }

  function Pow10(e: nat): (p: nat)
    ensures p >= 1
  {
    if e == 0 then 1 else 10 * Pow10(e - 1)
  }

  /** 10 raised to an integer power. */
  function Scale(e: int): real
  {
    if e >= 0 then Pow10(e) as real else 1.0 / Pow10(-e) as real
  }

  /** The exponent of an exponent part (`e`/`E`, optional sign, digits) at
      the start of `rest`; 0 when there is none. */
  function Exponent(rest: string): int
  {
    if rest != [] && (rest[0] == 'e' || rest[0] == 'E') then
      var x := AfterSign(rest[1..]);
      var k := DigitRun(x, 10);
      if k == 0 then 0 else Signed(IsNegative(rest[1..]), DigitsValue(x[..k], 10))
    else 0
  }

  /** The text can start a decimal literal: a digit, or a point and a digit. */
  predicate StartsDecimal(u: string)
  {
    (u != [] && IsDecimalDigit(u[0])) || (|u| >= 2 && u[0] == '.' && IsDecimalDigit(u[1]))
  }

  /** `parseFloat(s)`: the longest prefix of the text (after white space)
      that is a decimal literal — sign, integer digits, a fraction, an
      exponent — or NaN when there is none. */
  function ParseFloat(s: string): (r: Num)
    ensures r.NaN? <==> !StartsDecimal(AfterSign(TrimStart(s)))
  {
    var t := TrimStart(s);
    ParseDecimal(AfterSign(t), IsNegative(t))
  }

  /** The steps of `parseFloat` after the sign: integer digits, an optional
      point with fraction digits (at least one digit in all), an optional
      exponent. */
  function ParseDecimal(u: string, negative: bool): (r: Num)
    ensures r.NaN? <==> !StartsDecimal(u)
  {
    var i := DigitRun(u, 10);
    var afterInt := u[i..];
    var hasPoint := afterInt != [] && afterInt[0] == '.';
    var fracText := if hasPoint then afterInt[1..] else [];
    var f := DigitRun(fracText, 10);
    if i == 0 && f == 0 then NaN
    else
      var mantissa := DigitsValue(u[..i], 10) as real
                      + DigitsValue(fracText[..f], 10) as real / Pow10(f) as real;
      var rest := if hasPoint then fracText[f..] else afterInt;
      var m := mantissa * Scale(Exponent(rest));
      Val(if negative then -m else m)
  }

  function DigitChar(d: nat): (c: char)
    requires d < 10
    ensures IsDecimalDigit(c) && DigitValue(c) == d
  {
    ('0' as int + d) as char
  }

  /** The decimal digits of a natural number, without leading zeros. */
  function NatToString(n: nat): (r: string)
    ensures |r| >= 1
    ensures forall i :: 0 <= i < |r| ==> IsDecimalDigit(r[i])
  {
    if n < 10 then [DigitChar(n)] else NatToString(n / 10) + [DigitChar(n % 10)]
  }

  /** `String(n)` for an integer `n`. */
  function IntToString(n: int): string
  {
    if n < 0 then "-" + NatToString(-n) else NatToString(n)
  }

  /** Reading back the digits of a natural number gives the number. */
  lemma {:induction false} DigitsValueOfNatToString(n: nat)
    ensures DigitsValue(NatToString(n), 10) == n
  {
    var s := NatToString(n);
    if n >= 10 {
      DigitsValueOfNatToString(n / 10);
      assert s[..|s| - 1] == NatToString(n / 10);
    }
  }

  /** The digit run stops exactly where the digits stop. */
  lemma {:induction false} DigitRunOfDigits(ds: string, rest: string, radix: nat)
    requires forall i :: 0 <= i < |ds| ==> DigitValue(ds[i]) < radix
    requires rest == [] || DigitValue(rest[0]) >= radix
    ensures DigitRun(ds + rest, radix) == |ds|
  {
    if ds == [] {
      assert ds + rest == rest;
    } else {
      assert (ds + rest)[1..] == ds[1..] + rest;
      DigitRunOfDigits(ds[1..], rest, radix);
    }
  }

  /** A run of digits followed by a non-digit is read as exactly that run. */
  lemma ParseDigitsOfDigits(ds: string, rest: string, base: nat, negative: bool)
    requires ds != [] && forall i :: 0 <= i < |ds| ==> DigitValue(ds[i]) < base
    requires rest == [] || DigitValue(rest[0]) >= base
    ensures ParseDigits(ds + rest, base, negative) == Val(Signed(negative, DigitsValue(ds, base)) as real)
  {
    DigitRunOfDigits(ds, rest, base);
    assert (ds + rest)[..|ds|] == ds;
  }

  /** The decimal form of `n`, followed by `rest`, splits into its sign and
      its digits: no leading white space, a `-` exactly when `n` is negative. */
  lemma IntToStringShape(n: int, rest: string)
    ensures var s := IntToString(n) + rest;
            TrimStart(s) == s && IsNegative(s) == (n < 0)
            && AfterSign(s) == NatToString(if n < 0 then -n else n) + rest
  {
    var s := IntToString(n) + rest;
    var ds := NatToString(if n < 0 then -n else n);
    if n < 0 {
      assert s == ['-'] + (ds + rest);
    } else {
      assert s == ds + rest;
      assert IsDecimalDigit(s[0]);
    }
    assert !IsWhiteSpace(s[0]);
  }

  /** `parseInt(String(n) + rest, 10)` is `n` when `rest` does not go on
      with a digit: base-10 parsing reads back the integer a text starts
      with. */
  lemma {:induction false} ParseIntDecimalPrefix(n: int, rest: string)
    requires rest == [] || !IsDecimalDigit(rest[0])
    ensures ParseInt(IntToString(n) + rest, 10) == Val(n as real)
  {
    var m: nat := if n < 0 then -n else n;
    IntToStringShape(n, rest);
    ParseDigitsOfDigits(NatToString(m), rest, 10, n < 0);
    DigitsValueOfNatToString(m);
  }

  /** Without a radix the same holds, except that `0` followed by `x` or
      `X` is read as the start of a hexadecimal number. */
  lemma {:induction false} ParseIntNoRadixPrefix(n: int, rest: string)
    requires rest == [] || !IsDecimalDigit(rest[0])
    requires n == 0 ==> rest == [] || (rest[0] != 'x' && rest[0] != 'X')
    ensures ParseInt(IntToString(n) + rest, 0) == Val(n as real)
  {
    var m: nat := if n < 0 then -n else n;
    var ds := NatToString(m);
    IntToStringShape(n, rest);
    ParseDigitsOfDigits(ds, rest, 10, n < 0);
    DigitsValueOfNatToString(m);
    NoHexPrefix(m, rest);
    var s := IntToString(n) + rest;
    assert ParseInt(s, 0) == ParseDigits(ds + rest, 10, n < 0);
  }

  /** Leading zeros do not change the value of a digit string, so `007`
      is read as 7. */
  lemma {:induction false} DigitsValueLeadingZeros(zeros: string, ds: string, radix: nat)
    requires forall i :: 0 <= i < |zeros| ==> zeros[i] == '0'
    ensures DigitsValue(zeros + ds, radix) == DigitsValue(ds, radix)
  {
    if ds == [] {
      if zeros != [] {
        var z := zeros[..|zeros| - 1];
        assert zeros + ds == zeros && zeros[..|zeros| - 1] + [] == z;
        DigitsValueLeadingZeros(z, [], radix);
      }
    } else {
      var d := ds[..|ds| - 1];
      assert (zeros + ds)[..|zeros + ds| - 1] == zeros + d;
      DigitsValueLeadingZeros(zeros, d, radix);
    }
  }

  /** A text of the form white space, optional sign, digits, rest. */
  predicate SignedDigits(ws: string, sign: string, ds: string)
  {
    AllWhiteSpace(ws) && (sign == "" || sign == "-" || sign == "+")
    && ds != [] && forall i :: 0 <= i < |ds| ==> IsDecimalDigit(ds[i])
  }

  lemma Regroup(ws: string, sign: string, ds: string, rest: string)
    ensures ws + sign + ds + rest == ws + (sign + ds + rest)
  {
  }

  /** Leading white space and a sign are split off as `parseInt` and
      `parseFloat` do: what remains after them is the digits and the rest,
      negative exactly when the sign is `-`. */
  lemma SignedDigitsShape(ws: string, sign: string, ds: string, rest: string)
    requires SignedDigits(ws, sign, ds)
    ensures var t := TrimStart(ws + sign + ds + rest);
            AfterSign(t) == ds + rest && IsNegative(t) == (sign == "-")
  {
    var t := sign + ds + rest;
    Regroup(ws, sign, ds, rest);
    if sign == "" {
      assert t == ds + rest;
      assert IsDecimalDigit(t[0]);
    } else {
      assert t == [sign[0]] + (ds + rest);
    }
    TrimStartOfPadded(ws, t);
  }

  /** Reading white space, a sign and a run of decimal digits, followed by
      a non-digit: base-10 `parseInt` gives the signed value of the digits,
      leading zeros and a `+` included; so does the radix-less `parseInt`
      unless the digits are the single `0` followed by `x` or `X`; so does
      `parseFloat` when nothing can continue the literal. */
  lemma {:induction false} ParseSignedDigits(ws: string, sign: string, ds: string, rest: string)
    requires SignedDigits(ws, sign, ds)
    requires rest == [] || !IsDecimalDigit(rest[0])
    ensures var s := ws + sign + ds + rest;
            var n := Signed(sign == "-", DigitsValue(ds, 10)) as real;
            ParseInt(s, 10) == Val(n)
            && (!(ds == "0" && rest != [] && (rest[0] == 'x' || rest[0] == 'X')) ==> ParseInt(s, 0) == Val(n))
            && ((rest == [] || !(rest[0] == '.' || rest[0] == 'e' || rest[0] == 'E')) ==> ParseFloat(s) == Val(n))
  {
    var s := ws + sign + ds + rest;
    var t := TrimStart(s);
    SignedDigitsShape(ws, sign, ds, rest);
    ParseDigitsOfDigits(ds, rest, 10, sign == "-");
    if !(ds == "0" && rest != [] && (rest[0] == 'x' || rest[0] == 'X')) {
      var u := ds + rest;
      if |ds| >= 2 {
        assert u[1] == ds[1];
      } else if rest != [] {
        assert u[1] == rest[0];
      }
      assert !HasHexPrefix(u);
    }
    if rest == [] || !(rest[0] == '.' || rest[0] == 'e' || rest[0] == 'E') {
      ParseDecimalOfDigits(ds, rest, sign == "-");
    }
  }

  /** `parseInt("0x" + h)` without a radix reads `h` in base 16. */
  lemma {:induction false} ParseIntHexPrefix(hs: string, rest: string)
    requires hs != [] && forall i :: 0 <= i < |hs| ==> DigitValue(hs[i]) < 16
    requires rest == [] || DigitValue(rest[0]) >= 16
    ensures ParseInt("0x" + hs + rest, 0) == Val(DigitsValue(hs, 16) as real)
  {
    var s := "0x" + hs + rest;
    assert !IsWhiteSpace(s[0]);
    assert TrimStart(s) == s && AfterSign(s) == s && HasHexPrefix(s);
    assert s[2..] == hs + rest;
    ParseDigitsOfDigits(hs, rest, 16, false);
  }

  /** `parseFloat(String(n) + rest)` is `n` when `rest` does not continue
      the literal (no digit, point or exponent sign follows). */
  lemma {:induction false} ParseFloatIntegerPrefix(n: int, rest: string)
    requires rest == [] || !(IsDecimalDigit(rest[0]) || rest[0] == '.' || rest[0] == 'e' || rest[0] == 'E')
    ensures ParseFloat(IntToString(n) + rest) == Val(n as real)
  {
    var m: nat := if n < 0 then -n else n;
    var ds := NatToString(m);
    IntToStringShape(n, rest);
    ParseDecimalOfDigits(ds, rest, n < 0);
    DigitsValueOfNatToString(m);
  }

  /** A digit run with nothing after it that could continue the literal
      is read as that integer. */
  lemma {:induction false} ParseDecimalOfDigits(ds: string, rest: string, negative: bool)
    requires ds != [] && forall i :: 0 <= i < |ds| ==> IsDecimalDigit(ds[i])
    requires rest == [] || !(IsDecimalDigit(rest[0]) || rest[0] == '.' || rest[0] == 'e' || rest[0] == 'E')
    ensures ParseDecimal(ds + rest, negative) == Val(Signed(negative, DigitsValue(ds, 10)) as real)
  {
    DigitRunOfDigits(ds, rest, 10);
    assert (ds + rest)[..|ds|] == ds;
    assert (ds + rest)[|ds|..] == rest;
    assert Exponent(rest) == 0;
    assert DigitsValue([], 10) == 0;
  }

  /** Only the number 0 is written with a leading `0`, so only it can be
      taken for a `0x` prefix. */
  lemma NoHexPrefix(m: nat, rest: string)
    requires rest == [] || !IsDecimalDigit(rest[0])
    requires m == 0 ==> rest == [] || (rest[0] != 'x' && rest[0] != 'X')
    ensures !HasHexPrefix(NatToString(m) + rest)
  {
    var ds := NatToString(m);
    var u := ds + rest;
    if m < 10 {
      assert u[0] == DigitChar(m);
      assert DigitValue(u[0]) == m;
      if m == 0 && rest != [] {
        assert u[1] == rest[0];
      }
    } else {
      assert u[1] == ds[1] && IsDecimalDigit(u[1]);
    }
  }

  /** The decimal form of an integer has no white space at either end and
      no double quote. */
  lemma IntToStringPlain(n: int)
    ensures IsTrimmed(IntToString(n)) && '"' !in IntToString(n)
  {
    var s := IntToString(n);
    var ds := NatToString(if n < 0 then -n else n);
    if n < 0 {
      assert s == ['-'] + ds;
    }
    assert IsDecimalDigit(ds[|ds| - 1]) && s[|s| - 1] == ds[|ds| - 1];
    assert s[0] == '-' || IsDecimalDigit(s[0]);
    forall i | 0 <= i < |s|
      ensures s[i] != '"'
    {
      if n < 0 && i > 0 {
        assert s[i] == ds[i - 1];
        assert IsDecimalDigit(ds[i - 1]);
      } else if n >= 0 {
        assert IsDecimalDigit(ds[i]);
      }
    }
  }

  /** The decimal form of an integer is a sign and digits. */
  lemma IntToStringChars(n: int)
    ensures var s := IntToString(n);
            forall i :: 0 <= i < |s| ==> s[i] == '-' || IsDecimalDigit(s[i])
  {
    var s := IntToString(n);
    var ds := NatToString(if n < 0 then -n else n);
    if n < 0 {
      assert s == ['-'] + ds;
      forall i | 0 < i < |s|
        ensures IsDecimalDigit(s[i])
      {
        assert s[i] == ds[i - 1];
      }
    }
  }
}
