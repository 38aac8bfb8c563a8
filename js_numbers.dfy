/**
 * Numbers and their text: `String(x)` for numbers, `parseInt` and
 * `parseFloat` as the ECMAScript specification describes them (longest
 * valid prefix after leading whitespace), read exactly into `int`/`real`.
 */
module JsNumbers {
  import opened JsValues
  import JsText

  predicate IsDigit(c: char)
  {
    '0' <= c <= '9'
  }

  predicate AllDigits(s: string)
  {
    forall i :: 0 <= i < |s| ==> IsDigit(s[i])
  }

  function DigitChar(d: nat): (c: char)
    requires d < 10
    ensures IsDigit(c) && c as int - '0' as int == d
  {
    (d + '0' as int) as char
  }

  /** The decimal digits of `n`, most significant first, without leading zeros. */
  function NatToDecimal(n: nat): (r: string)
    ensures r != [] && AllDigits(r)
    ensures |r| > 1 ==> r[0] != '0'
  {
    if n < 10 then [DigitChar(n)] else NatToDecimal(n / 10) + [DigitChar(n % 10)]
  }

  /** The number a string of decimal digits denotes. */
  function DigitsValue(ds: string): nat
    requires AllDigits(ds)
  {
    if ds == [] then 0 else DigitsValue(ds[..|ds| - 1]) * 10 + (ds[|ds| - 1] as int - '0' as int)
  }

  /** Reading back the decimal text of `n` gives `n`. */
  lemma {:induction false} DecimalRoundTrip(n: nat)
    ensures DigitsValue(NatToDecimal(n)) == n
  {
    if n >= 10 {
      DecimalRoundTrip(n / 10);
      var r := NatToDecimal(n);
      assert r[..|r| - 1] == NatToDecimal(n / 10);
    }
  }

  /** `String(n)` for an integer whose magnitude is below 1e21. */
  function IntToDecimal(n: int): string
  {
    if n < 0 then "-" + NatToDecimal(-n) else NatToDecimal(n)
  }

  predicate IsIntegral(x: real)
  {
    x.Floor as real == x
  }

  /** Integers below this magnitude print in plain decimal; larger ones use exponent notation. */
  const PlainLimit: real := 1_000_000_000_000_000_000_000.0

  /** `String(x)` for a number. */
  function NumberToString(host: Host, x: real): string
  {
    if IsIntegral(x) && -PlainLimit < x < PlainLimit then IntToDecimal(x.Floor) else host.numberText(x)
  }

  /** The length of the longest prefix of `s` made of decimal digits. */
  function DigitRun(s: string): (k: nat)
    ensures k <= |s|
  {
    if s != [] && IsDigit(s[0]) then 1 + DigitRun(s[1..]) else 0
  }

  /** The run is made of digits and is followed by a non-digit or by the end. */
  lemma DigitRunFacts(s: string)
    ensures var k := DigitRun(s); AllDigits(s[..k]) && (k < |s| ==> !IsDigit(s[k]))
  {
    if s != [] && IsDigit(s[0]) {
      DigitRunFacts(s[1..]);
      var k := DigitRun(s);
      assert s[..k] == [s[0]] + s[1..][..k - 1];
    }
  }

  predicate IsHexDigit(c: char)
  {
    IsDigit(c) || 'a' <= c <= 'f' || 'A' <= c <= 'F'
  }

  function HexDigitValue(c: char): (v: nat)
    requires IsHexDigit(c)
    ensures v < 16
  {
    if IsDigit(c) then c as int - '0' as int
    else if 'a' <= c <= 'f' then c as int - 'a' as int + 10
    else c as int - 'A' as int + 10
  }

  /** The length of the longest prefix of `s` made of hexadecimal digits. */
  function HexRun(s: string): (k: nat)
    ensures k <= |s|
  {
    if s != [] && IsHexDigit(s[0]) then 1 + HexRun(s[1..]) else 0
  }

  /** The run is made of hexadecimal digits. */
  lemma HexRunFacts(s: string)
    ensures forall i :: 0 <= i < HexRun(s) ==> IsHexDigit(s[i])
  {
    if s != [] && IsHexDigit(s[0]) {
      HexRunFacts(s[1..]);
    }
  }

  function HexValue(ds: string): nat
    requires forall i :: 0 <= i < |ds| ==> IsHexDigit(ds[i])
  {
    if ds == [] then 0 else HexValue(ds[..|ds| - 1]) * 16 + HexDigitValue(ds[|ds| - 1])
  }

  /** Splits an optional leading sign off `t`: whether it was `-`, and the rest. */
  function SplitSign(t: string): (r: (bool, string))
    ensures r.0 <==> |t| > 0 && t[0] == '-'
    ensures r.1 == if |t| > 0 && (t[0] == '-' || t[0] == '+') then t[1..] else t
  {
    if |t| > 0 && (t[0] == '-' || t[0] == '+') then (t[0] == '-', t[1..]) else (false, t)
  }

  /** The unsigned part of `parseInt`: a `0x`/`0X` prefix selects base 16, otherwise base 10. */
  function IntegerPrefix(u: string): Option<nat>
  {
    if |u| >= 2 && u[0] == '0' && (u[1] == 'x' || u[1] == 'X') then
      var k := HexRun(u[2..]);
      HexRunFacts(u[2..]);
      if k == 0 then None else Some(HexValue(u[2..][..k]))
    else
      var k := DigitRun(u);
      DigitRunFacts(u);
      if k == 0 then None else Some(DigitsValue(u[..k]))
  }

  /**
   * `parseInt(s)` with no radix: leading whitespace is skipped, an optional
   * sign read, a `0x`/`0X` prefix selects base 16, and the longest run of
   * digits is read; no digit at all gives NaN (None).
   */
  function ParseInt(s: string): Option<int>
  {
    var (neg, u) := SplitSign(JsText.TrimStart(s));
    match IntegerPrefix(u)
    case None => None
    case Some(m) => Some(if neg then -(m as int) else m as int)
  }

  /** `parseInt` reads the decimal text of an integer back exactly. */
  lemma ParseIntOfDecimal(n: int)
    ensures ParseInt(IntToDecimal(n)) == Some(n)
  {
    var m: nat := if n < 0 then -n else n;
    var d := NatToDecimal(m);
    IntegerPrefixOfDecimal(m);
    var s := IntToDecimal(n);
    NoLeadingWhitespace(s);
    if n < 0 {
      assert s[1..] == d;
      assert SplitSign(s) == (true, d);
    } else {
      assert SplitSign(s) == (false, d);
    }
  }

  lemma IntegerPrefixOfDecimal(m: nat)
    ensures IntegerPrefix(NatToDecimal(m)) == Some(m)
  {
    var d := NatToDecimal(m);
    DecimalRoundTrip(m);
    DigitRunOfDigits(d);
    assert d[..|d|] == d;
    assert !(|d| >= 2 && d[0] == '0');
  }

  /** A string starting with a digit or a sign is unchanged by `trimStart`. */
  lemma NoLeadingWhitespace(s: string)
    requires s != [] && (IsDigit(s[0]) || s[0] == '-' || s[0] == '+' || s[0] == '.')
    ensures JsText.TrimStart(s) == s
  {
    assert !JsText.IsWhitespace(s[0]);
  }

  lemma DigitRunOfDigits(d: string)
    requires AllDigits(d)
    ensures DigitRun(d) == |d|
  {
    if d != [] {
      DigitRunOfDigits(d[1..]);
    }
  }

  function Pow10(k: nat): (p: nat)
    ensures p >= 1
  {
    if k == 0 then 1 else 10 * Pow10(k - 1)
  }

  /** The value of the digits after a decimal point. */
  function FractionValue(ds: string): real
    requires AllDigits(ds)
  {
    DigitsValue(ds) as real / Pow10(|ds|) as real
  }

  /**
   * `m` scaled by an exponent part `e[+-]digits` at the start of `rest`;
   * `m` itself when `rest` does not start with a complete exponent part,
   * which `parseFloat` then ignores.
   */
  function ApplyExponent(m: real, rest: string): real
  {
    if |rest| >= 2 && (rest[0] == 'e' || rest[0] == 'E') then
      var v := rest[1..];
      var eneg := v[0] == '-';
      var w := if v[0] == '-' || v[0] == '+' then v[1..] else v;
      var k := DigitRun(w);
      DigitRunFacts(w);
      if k == 0 then m
      else
        var p := Pow10(DigitsValue(w[..k])) as real;
        if eneg then m / p else m * p
    else m
  }

  /**
   * The unsigned part of `parseFloat`: the longest prefix of the form
   * digits [. [digits]] [exponent] or . digits [exponent]; None when it has
   * no digit.
   */
  function DecimalPrefix(u: string): Option<real>
  {
    var ip := DigitRun(u);
    DigitRunFacts(u);
    if ip < |u| && u[ip] == '.' then PointPrefix(u[..ip], u[ip + 1..])
    else if ip == 0 then None
    else Some(ApplyExponent(DigitsValue(u[..ip]) as real, u[ip..]))
  }

  /** The rest of `DecimalPrefix` once the integer digits `ds` and a point are read; `t` follows the point. */
  function PointPrefix(ds: string, t: string): Option<real>
    requires AllDigits(ds)
  {
    var fp := DigitRun(t);
    DigitRunFacts(t);
    if ds == [] && fp == 0 then None
    else Some(ApplyExponent(DigitsValue(ds) as real + FractionValue(t[..fp]), t[fp..]))
  }

  /**
   * `parseFloat(s)`: leading whitespace skipped, an optional sign, then the
   * longest decimal prefix; None (NaN) when no digit is found.
   */
  function ParseFloat(s: string): Option<real>
  {
    var (neg, u) := SplitSign(JsText.TrimStart(s));
    match DecimalPrefix(u)
    case None => None
    case Some(m) => Some(if neg then -m else m)
  }

  /**
   * `parseFloat` of `ip.fp` (digits, a point, digits, nothing after) is the
   * exact decimal value.
   */
  lemma ParseFloatOfDecimal(ip: string, fp: string)
    requires ip != [] && AllDigits(ip) && AllDigits(fp)
    ensures ParseFloat(ip + "." + fp) == Some(DigitsValue(ip) as real + FractionValue(fp))
  {
    var u := ip + "." + fp;
    DecimalPrefixOfDecimal(ip, fp);
    NoLeadingWhitespace(u);
    assert SplitSign(u) == (false, u);
  }

  lemma DecimalPrefixOfDecimal(ip: string, fp: string)
    requires ip != [] && AllDigits(ip) && AllDigits(fp)
    ensures DecimalPrefix(ip + "." + fp) == Some(DigitsValue(ip) as real + FractionValue(fp))
  {
    var u := ip + "." + fp;
    assert u == ip + ("." + fp);
    DigitRunPrefix(ip, "." + fp);
    assert u[..|ip|] == ip && u[|ip|] == '.' && u[|ip| + 1..] == fp;
    assert DecimalPrefix(u) == PointPrefix(ip, fp);
    PointPrefixOfDigits(ip, fp);
  }

  /** Digits after the point that end the string contribute their exact fraction. */
  lemma PointPrefixOfDigits(ds: string, t: string)
    requires ds != [] && AllDigits(ds) && AllDigits(t)
    ensures PointPrefix(ds, t) == Some(DigitsValue(ds) as real + FractionValue(t))
  {
    DigitRunOfDigits(t);
    assert t[..|t|] == t && t[|t|..] == [];
  }

  /** `parseFloat` of a run of digits with nothing after is its integer value. */
  lemma ParseFloatOfDigits(ip: string)
    requires ip != [] && AllDigits(ip)
    ensures ParseFloat(ip) == Some(DigitsValue(ip) as real)
  {
    DigitRunOfDigits(ip);
    assert ip[..|ip|] == ip;
    assert ip[|ip|..] == [];
    assert DecimalPrefix(ip) == Some(DigitsValue(ip) as real);
    NoLeadingWhitespace(ip);
    assert SplitSign(ip) == (false, ip);
  }

  lemma DigitRunPrefix(d: string, rest: string)
    requires AllDigits(d)
    requires rest == [] || !IsDigit(rest[0])
    ensures DigitRun(d + rest) == |d|
  {
    if d == [] {
      assert d + rest == rest;
    } else {
      var s := d + rest;
      assert s[0] == d[0] && IsDigit(s[0]);
      assert s[1..] == d[1..] + rest;
      DigitRunPrefix(d[1..], rest);
    }
  }
}
