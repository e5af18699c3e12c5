/**
 * `String(n)` for integers and the global `parseInt` with no radix argument,
 * the two conversions between house numbers and text.
 */
module JsNumber {
  import opened Wrappers
  import opened JsString

  predicate IsDecimalDigit(c: char) {
    '0' <= c <= '9'
  }

  function DigitChar(d: nat): (c: char)
    requires d < 10
    ensures IsDecimalDigit(c)
  {
    ('0' as int + d) as char
  }

  /** The value of a digit in the given radix (10 or 16), if the character is one. */
  function DigitValue(c: char, radix: nat): (v: Option<nat>)
    requires radix == 10 || radix == 16
    ensures v.Some? ==> v.value < radix
    ensures radix == 10 ==> (v.Some? <==> IsDecimalDigit(c))
  {
    if '0' <= c <= '9' then Some(c as int - '0' as int)
    else if radix == 16 && 'a' <= c <= 'f' then Some(c as int - 'a' as int + 10)
    else if radix == 16 && 'A' <= c <= 'F' then Some(c as int - 'A' as int + 10)
    else None
  }

  /** Decimal digits of a natural number, most significant first, without leading zeros. */
  function Digits(n: nat): (r: string)
    ensures |r| >= 1
    ensures forall i :: 0 <= i < |r| ==> IsDecimalDigit(r[i])
    ensures r[0] == '0' ==> n == 0
  {
    if n < 10 then [DigitChar(n)] else Digits(n / 10) + [DigitChar(n % 10)]
  }

  /** `String(n)` for an integer of modest size. */
  function IntToString(n: int): (r: string)
    ensures |r| >= 1
    ensures forall i :: 0 <= i < |r| ==> IsDecimalDigit(r[i]) || (i == 0 && r[i] == '-')
  {
    if n < 0 then "-" + Digits(-n) else Digits(n)
  }

  /** Number of leading characters of `s` that are digits in the radix. */
  function DigitRun(s: string, radix: nat): (n: nat)
    requires radix == 10 || radix == 16
    ensures n <= |s|
    ensures forall i :: 0 <= i < n ==> DigitValue(s[i], radix).Some?
    ensures n < |s| ==> DigitValue(s[n], radix).None?
  {
    if s != [] && DigitValue(s[0], radix).Some? then 1 + DigitRun(s[1..], radix) else 0
  }

  /** Value of a digit string, most significant digit first. */
  function DigitsValue(ds: string, radix: nat): nat
    requires radix == 10 || radix == 16
    requires forall i :: 0 <= i < |ds| ==> DigitValue(ds[i], radix).Some?
  {
    if ds == [] then 0
    else DigitsValue(ds[..|ds| - 1], radix) * radix + DigitValue(ds[|ds| - 1], radix).value
  }

  /**
   * `parseInt(s)`: leading white space is skipped one character at a time,
   * then `ParseSigned` reads the rest; with no digit the result is `NaN`
   * (here `None`).
   */
  function ParseInt(s: string): Option<int>
    decreases |s|
  {
    if s != [] && IsJsSpace(s[0]) then ParseInt(s[1..]) else ParseSigned(s)
  }

  /** An optional sign, then the magnitude read by `ParseMagnitude`; a `-` negates it. */
  function ParseSigned(t: string): (r: Option<int>)
    ensures r.Some? <==> ParseMagnitude(Unsigned(t)).Some?
    ensures r.Some? && t != [] && t[0] == '-' ==> r.value <= 0
    ensures r.Some? && !(t != [] && t[0] == '-') ==> r.value >= 0
  {
    match ParseMagnitude(Unsigned(t))
    case None => None
    case Some(m) =>
      var k: int := m;
      Some(if |t| > 0 && t[0] == '-' then -k else k)
  }

  /** `parseInt` reads what is left once `trimStart` has dropped the leading white space. */
  lemma {:induction false} ParseIntSkipsSpace(s: string)
    ensures ParseInt(s) == ParseSigned(TrimStart(s))
    decreases |s|
  {
    if s != [] && IsJsSpace(s[0]) {
      ParseIntSkipsSpace(s[1..]);
    }
  }

  /** The text after an optional leading sign. */
  function Unsigned(t: string): (u: string)
    ensures u == t || (t != [] && (t[0] == '-' || t[0] == '+') && u == t[1..])
  {
    if |t| > 0 && (t[0] == '-' || t[0] == '+') then t[1..] else t
  }

  /** A `0x`/`0X` prefix selects radix 16; the longest run of digits that follows is the magnitude. */
  function ParseMagnitude(u: string): (r: Option<nat>)
  {
    var hex := |u| >= 2 && u[0] == '0' && (u[1] == 'x' || u[1] == 'X');
    var radix := if hex then 16 else 10;
    var body := if hex then u[2..] else u;
    var n := DigitRun(body, radix);
    if n == 0 then None else Some(DigitsValue(body[..n], radix))
  }

  lemma {:induction false} DigitsValueOfDigits(n: nat)
    ensures DigitsValue(Digits(n), 10) == n
    decreases n
  {
    var ds := Digits(n);
    if n >= 10 {
      DigitsValueOfDigits(n / 10);
      assert ds[..|ds| - 1] == Digits(n / 10);
    }
  }

  /** A digit string followed by something that is not a digit parses back to the digit string. */
  lemma DigitRunOfDigits(ds: string, rest: string)
    requires forall i :: 0 <= i < |ds| ==> IsDecimalDigit(ds[i])
    requires rest == [] || !IsDecimalDigit(rest[0])
    ensures DigitRun(ds + rest, 10) == |ds|
    decreases |ds|
  {
    if ds != [] {
      assert (ds + rest)[1..] == ds[1..] + rest;
      DigitRunOfDigits(ds[1..], rest);
    }
  }

  /** Text that may follow a number without changing what `parseInt` reads: not a digit, and not the `x` of a hexadecimal prefix after a lone `0`. */
  predicate Terminates(rest: string) {
    rest == [] || (!IsDecimalDigit(rest[0]) && rest[0] != 'x' && rest[0] != 'X')
  }

  lemma {:induction false} ParseMagnitudeOfDigits(m: nat, rest: string)
    requires Terminates(rest)
    ensures ParseMagnitude(Digits(m) + rest) == Some(m)
  {
    var ds := Digits(m);
    var u := ds + rest;
    assert !(|u| >= 2 && u[0] == '0' && (u[1] == 'x' || u[1] == 'X')) by {
      if |u| >= 2 && u[0] == '0' {
        assert ds[0] == '0';
        assert m == 0;
        assert ds == "0";
        assert u[1] == rest[0];
      }
    }
    DigitRunOfDigits(ds, rest);
    assert u[..|ds|] == ds;
    DigitsValueOfDigits(m);
  }

  /**
   * `parseInt` reads back what `String` wrote, even when text that does not
   * start with a digit follows (so `parseInt("12A")` is 12); `parseInt("0x1A")`
   * is 26, which is why `Terminates` excludes a following `x`.
   */
  lemma {:induction false} ParseIntOfIntToString(n: int, rest: string)
    requires Terminates(rest)
    ensures ParseInt(IntToString(n) + rest) == Some(n)
  {
    var s := IntToString(n) + rest;
    var m: nat := if n < 0 then -n else n;
    var ds := Digits(m);
    assert !IsJsSpace(s[0]) by { assert IsDecimalDigit(s[0]) || s[0] == '-'; }
    if n < 0 {
      assert s == "-" + (ds + rest);
      assert Unsigned(s) == ds + rest;
    } else {
      assert s == ds + rest;
      assert Unsigned(s) == ds + rest;
    }
    ParseMagnitudeOfDigits(m, rest);
  }

  /** A house number without any digit after the white space and the optional sign is not a number, so nothing is searched around it. */
  lemma {:induction false} ParseIntNoDigits(s: string)
    requires Unsigned(TrimStart(s)) == [] || !IsDecimalDigit(Unsigned(TrimStart(s))[0])
    ensures ParseInt(s) == None
  {
    ParseIntSkipsSpace(s);
  }
}
