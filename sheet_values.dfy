/**
 * Cell values of SheetUtils.js: the cell types, the normaliser of each type
 * (`normalizeString`, `normalizeFloat`, `normalizeInteger`,
 * `normalizeBoolean`, `normalizeDate`), `getNormalizer`, and `areEqual`,
 * which compares two cell values after normalising both to one type.
 */
module SheetValues {
  import opened JsValues
  import JsText
  import opened JsNumbers
  import opened JsCoerce
  import StringUtils

  // ---------------------------------------------------------------------
  // Cell types

  /** The `CellValueType` names, as a datatype. */
  datatype CellType = StringType | FloatType | IntegerType | BooleanType | DateType

  function TypeName(t: CellType): string
  {
    match t
    case StringType => "string"
    case FloatType => "float"
    case IntegerType => "integer"
    case BooleanType => "boolean"
    case DateType => "date"
  }

  /** `cellValueTypes`, in its order. */
  const CellValueTypes: seq<CellType> := [StringType, FloatType, IntegerType, BooleanType, DateType]

  /** The names of the types in `ts`, in order. */
  function TypeNames(ts: seq<CellType>): (r: seq<string>)
    ensures |r| == |ts| && forall i :: 0 <= i < |ts| ==> r[i] == TypeName(ts[i])
  {
    if ts == [] then [] else [TypeName(ts[0])] + TypeNames(ts[1..])
  }

  /** `parts.join(sep)`. */
  function Join(parts: seq<string>, sep: string): string
  {
    if parts == [] then ""
    else if |parts| == 1 then parts[0]
    else parts[0] + sep + Join(parts[1..], sep)
  }

  /** The message of the error raised for a type outside `cellValueTypes`. */
  const InvalidTypeMessage: string :=
    "El parámetro 'type' debe ser uno de: "
    + Join(TypeNames(CellValueTypes), ", ")

  /** `cellValueTypes.includes(v)`, answered with the type `v` names. */
  function ParseCellType(v: Value): (r: Option<CellType>)
    ensures r.Some? ==> v == Str(TypeName(r.value)) && r.value in CellValueTypes
  {
    if v == Str("string") then Some(StringType)
    else if v == Str("float") then Some(FloatType)
    else if v == Str("integer") then Some(IntegerType)
    else if v == Str("boolean") then Some(BooleanType)
    else if v == Str("date") then Some(DateType)
    else None
  }

  /** Every cell type is recognised by its own name; with the ensures of `ParseCellType` this is a bijection. */
  lemma {:induction false} ParseCellTypeOfName(t: CellType)
    ensures ParseCellType(Str(TypeName(t))) == Some(t)
  {
  }

  /**
   * `getNormalizer(type)`: the normaliser of a listed type (denoted here by
   * the type itself, applied by `Normalize`), or the invalid-type error.
   */
  function GetNormalizer(v: Value): (r: Result<CellType>)
    ensures r.Ok? <==> exists t :: v == Str(TypeName(t))
    ensures r.Ok? ==> v == Str(TypeName(r.value))
    ensures r.Throw? ==> r.error == Error(InvalidTypeMessage)
  {
    match ParseCellType(v)
    case Some(t) => Ok(t)
    case None =>
      assert forall t :: ParseCellType(Str(TypeName(t))) == Some(t);
      Throw(Error(InvalidTypeMessage))
  }

  // ---------------------------------------------------------------------
  // normalizeString

  /** `normalizeString(v)`: empty for null and undefined, otherwise `String(v).trim()`. */
  function NormalizeString(host: Host, v: Value): string
  {
    if v.Null? || v.Undefined? then "" else JsText.Trim(ToJsString(host, v))
  }

  /** The result has no surrounding whitespace. */
  lemma {:induction false} NormalizeStringTrimmed(host: Host, v: Value)
    ensures JsText.Trimmed(NormalizeString(host, v))
  {
    if !(v.Null? || v.Undefined?) {
      JsText.TrimIdempotent(ToJsString(host, v));
    }
  }

  /** Normalising a normalised text again changes nothing. */
  lemma {:induction false} NormalizeStringIdempotent(host: Host, v: Value)
    ensures NormalizeString(host, Str(NormalizeString(host, v))) == NormalizeString(host, v)
  {
    if !(v.Null? || v.Undefined?) {
      JsText.TrimIdempotent(ToJsString(host, v));
    }
  }

  // ---------------------------------------------------------------------
  // normalizeInteger

  /** `normalizeInteger(v)`: `parseInt(v)`, with NaN as None (`null`). */
  function NormalizeInteger(host: Host, v: Value): Option<int>
  {
    ParseInt(ToJsString(host, v))
  }

  /** An integer below 1e21 in magnitude normalises to itself. */
  lemma {:induction false} NormalizeIntegerOfNumber(host: Host, n: int)
    requires -PlainLimit < n as real < PlainLimit
    ensures NormalizeInteger(host, Num(n as real)) == Some(n)
  {
    assert IsIntegral(n as real);
    ParseIntOfDecimal(n);
  }

  /** The decimal text of an integer normalises to that integer. */
  lemma {:induction false} NormalizeIntegerOfDecimal(host: Host, n: int)
    ensures NormalizeInteger(host, Str(IntToDecimal(n))) == Some(n)
  {
    ParseIntOfDecimal(n);
  }

  /** `parseInt` stops at the decimal point: the text `ip.fp` normalises to `ip`. */
  lemma {:induction false} NormalizeIntegerTruncates(host: Host, ip: string, fp: string)
    requires ip != [] && AllDigits(ip) && AllDigits(fp)
    ensures NormalizeInteger(host, Str(ip + "." + fp)) == Some(DigitsValue(ip))
  {
    var u := ip + "." + fp;
    NoLeadingWhitespace(u);
    assert SplitSign(u) == (false, u);
    assert u == ip + ("." + fp);
    DigitRunPrefix(ip, "." + fp);
    assert u[..|ip|] == ip;
  }

  /**
   * A value whose text starts with something other than whitespace, a sign
   * or a digit is not an integer (NaN, normalised to null).
   */
  lemma {:induction false} NormalizeIntegerRejects(host: Host, v: Value)
    requires var s := ToJsString(host, v); s != [] && !IsDigit(s[0]) && !JsText.IsWhitespace(s[0]) && s[0] != '-' && s[0] != '+'
    ensures NormalizeInteger(host, v) == None
  {
    NoDigitPrefix(ToJsString(host, v));
  }

  /** null is not an integer: its text is "null". */
  lemma {:induction false} NormalizeIntegerOfNull(host: Host)
    ensures NormalizeInteger(host, Null) == None
  {
    NullText(host);
    NoDigitPrefix("null");
  }

  /** `String(null)`. */
  lemma {:induction false} NullText(host: Host)
    ensures ToJsString(host, Null) == "null"
  {
  }

  lemma {:induction false} NoDigitPrefix(s: string)
    requires s != [] && !IsDigit(s[0]) && !JsText.IsWhitespace(s[0]) && s[0] != '-' && s[0] != '+'
    ensures ParseInt(s) == None
  {
    assert JsText.TrimStart(s) == s;
    assert SplitSign(s) == (false, s);
  }

  // ---------------------------------------------------------------------
  // normalizeFloat

  /**
   * The decimal-separator rewrite of `normalizeFloat` on trimmed text: with
   * both `,` and `.`, the first of them to appear is a thousands separator
   * (all `,` removed when `,` comes first; all `.` removed and the first `,`
   * made a point otherwise); with only `,`, the first `,` is the decimal
   * point; otherwise the text is unchanged.
   */
  function RewriteSeparators(t: string): (r: string)
    ensures ',' !in t ==> r == t
    ensures ',' in t && '.' in t && JsText.IndexOf(t, ',') < JsText.IndexOf(t, '.') ==> ',' !in r
    ensures ',' in t && '.' in t && JsText.IndexOf(t, '.') < JsText.IndexOf(t, ',') ==> |r| < |t|
  {
    if ',' in t && '.' in t then
      if JsText.IndexOf(t, ',') < JsText.IndexOf(t, '.') then JsText.RemoveAll(t, ',')
      else
        JsText.ReplaceFirst(JsText.RemoveAll(t, '.'), ',', '.')
    else if ',' in t then JsText.ReplaceFirst(t, ',', '.')
    else t
  }

  /**
   * `normalizeFloat(v)`: a number is returned as it is; a string is trimmed,
   * its separators rewritten and read by `parseFloat` (NaN gives None);
   * everything else gives None (`null`).
   */
  function NormalizeFloat(v: Value): (r: Option<real>)
    ensures v.Num? ==> r == Some(v.n)
    ensures !v.Num? && !v.Str? ==> r == None
  {
    match v
    case Num(n) => Some(n)
    case Str(s) => ParseFloat(RewriteSeparators(JsText.Trim(s)))
    case _ => None
  }

  /** The first `c` of `x + [c] + y`, when `x` has none, is at `|x|`. */
  lemma {:induction false} IndexOfAfter(x: string, c: char, y: string)
    requires c !in x
    ensures JsText.IndexOf(x + [c] + y, c) == |x|
  {
    var s := x + [c] + y;
    assert s[|x|] == c;
  }

  /** Removing the only `c` of `x + [c] + y`. */
  lemma {:induction false} RemoveOnly(x: string, c: char, y: string)
    requires c !in x && c !in y
    ensures JsText.RemoveAll(x + [c] + y, c) == x + y
  {
    var t := [c] + y;
    assert t[0] == c && t[1..] == y;
    assert JsText.RemoveAll(t, c) == y;
    assert x + [c] + y == x + t;
    JsText.RemoveAllConcat(x, t, c);
  }

  lemma {:induction false} DigitsHaveNoSeparators(d: string)
    requires AllDigits(d)
    ensures ',' !in d && '.' !in d
  {
  }

  lemma {:induction false} DigitsConcat(a: string, b: string)
    requires AllDigits(a) && AllDigits(b)
    ensures AllDigits(a + b)
  {
  }

  /** `normalizeFloat` of a text is `parseFloat` of the rewritten, trimmed text. */
  lemma {:induction false} NormalizeFloatOfText(s: string, u: string)
    requires RewriteSeparators(JsText.Trim(s)) == u
    ensures NormalizeFloat(Str(s)) == ParseFloat(u)
  {
  }

  /** A text rewritten to plain decimal notation normalises to the exact decimal value. */
  lemma {:induction false} NormalizeFloatOfDecimal(s: string, ip: string, fp: string)
    requires ip != [] && AllDigits(ip) && AllDigits(fp)
    requires RewriteSeparators(JsText.Trim(s)) == ip + "." + fp
    ensures NormalizeFloat(Str(s)) == Some(DigitsValue(ip) as real + FractionValue(fp))
  {
    NormalizeFloatOfText(s, ip + "." + fp);
    ParseFloatOfDecimal(ip, fp);
  }

  /** With a `,` before the first `.`, every `,` is removed. */
  lemma {:induction false} RewriteThousandsComma(x: string, y: string)
    requires ',' !in x && '.' !in x && ',' !in y && '.' in y
    ensures RewriteSeparators(x + [','] + y) == x + y
  {
    var t := x + [','] + y;
    IndexOfAfter(x, ',', y);
    var k := JsText.IndexOf(t, '.');
    assert '.' in t by {
      var m :| 0 <= m < |y| && y[m] == '.';
      assert t[|x| + 1 + m] == '.';
    }
    assert k > |x| by {
      assert t[..|x|] == x;
      assert t[|x|] != '.';
    }
    RemoveOnly(x, ',', y);
  }

  /** With a `.` before the first `,`, every `.` is removed and then the first `,` becomes the point. */
  lemma {:induction false} RewriteThousandsPoint(x: string, y: string)
    requires ',' !in x && '.' !in x && '.' !in y && ',' in y
    ensures RewriteSeparators(x + ['.'] + y) == JsText.ReplaceFirst(x + y, ',', '.')
  {
    var t := x + ['.'] + y;
    IndexOfAfter(x, '.', y);
    var k := JsText.IndexOf(t, ',');
    assert ',' in t by {
      var m :| 0 <= m < |y| && y[m] == ',';
      assert t[|x| + 1 + m] == ',';
    }
    assert k > |x| by {
      assert t[..|x|] == x;
      assert t[|x|] != ',';
    }
    RemoveOnly(x, '.', y);
  }

  /** Digits, a separator, digits, a separator and digits: a text with no surrounding whitespace. */
  lemma {:induction false} GroupedTrimmed(a: string, p: string, b: string, q: string, c: string)
    requires a != [] && AllDigits(a) && AllDigits(b) && AllDigits(c)
    requires p == "," || p == "."
    requires q == "," || q == "."
    ensures JsText.Trim(a + p + b + q + c) == a + p + b + q + c
  {
    var t := a + p + b + q + c;
    assert t[..|a|] == a;
    assert t[|t| - |c|..] == c;
    TrimBetweenDigits(t, a, c);
  }

  /** How the English format "a,b.c" splits around its comma. */
  lemma {:induction false} EnglishShape(a: string, b: string, c: string)
    ensures a + "," + b + "." + c == a + [','] + (b + "." + c)
    ensures a + (b + "." + c) == a + b + "." + c
  {
  }

  lemma {:induction false} EnglishRest(a: string, b: string, c: string)
    requires a != [] && AllDigits(a) && AllDigits(b) && AllDigits(c)
    ensures RewriteSeparators(a + [','] + (b + "." + c)) == a + (b + "." + c)
  {
    DigitsHaveNoSeparators(a);
    DigitsHaveNoSeparators(b);
    DigitsHaveNoSeparators(c);
    var y := b + "." + c;
    assert ',' !in y && '.' in y by {
      assert y[|b|] == '.';
    }
    RewriteThousandsComma(a, y);
  }

  /** "a,b.c" is rewritten to "ab.c". */
  lemma {:induction false} RewriteEnglish(a: string, b: string, c: string)
    requires a != [] && AllDigits(a) && AllDigits(b) && AllDigits(c)
    ensures RewriteSeparators(JsText.Trim(a + "," + b + "." + c)) == a + b + "." + c
  {
    GroupedTrimmed(a, ",", b, ".", c);
    EnglishShape(a, b, c);
    EnglishRest(a, b, c);
  }

  /** How the Spanish format "a.b,c" splits around its point and, once the point is gone, around its comma. */
  lemma {:induction false} SpanishShape(a: string, b: string, c: string)
    ensures a + "." + b + "," + c == a + ['.'] + (b + "," + c)
    ensures a + (b + "," + c) == (a + b) + [','] + c
    ensures (a + b) + ['.'] + c == a + b + "." + c
  {
  }

  lemma {:induction false} SpanishRest(a: string, b: string, c: string)
    requires a != [] && AllDigits(a) && AllDigits(b) && AllDigits(c)
    ensures RewriteSeparators(a + ['.'] + (b + "," + c)) == JsText.ReplaceFirst(a + (b + "," + c), ',', '.')
  {
    DigitsHaveNoSeparators(a);
    DigitsHaveNoSeparators(b);
    DigitsHaveNoSeparators(c);
    var y := b + "," + c;
    assert '.' !in y && ',' in y by {
      assert y[|b|] == ',';
    }
    RewriteThousandsPoint(a, y);
  }

  /** In `x + [','] + y` with no `,` in `x`, the first `,` is the one after `x`. */
  lemma {:induction false} ReplaceFirstAfter(x: string, y: string)
    requires ',' !in x
    ensures JsText.ReplaceFirst(x + [','] + y, ',', '.') == x + ['.'] + y
  {
    var s := x + [','] + y;
    IndexOfAfter(x, ',', y);
    assert s[..|x|] == x && s[|x| + 1..] == y;
  }

  /** "a.b,c" is rewritten to "ab.c". */
  lemma {:induction false} RewriteSpanish(a: string, b: string, c: string)
    requires a != [] && AllDigits(a) && AllDigits(b) && AllDigits(c)
    ensures RewriteSeparators(JsText.Trim(a + "." + b + "," + c)) == a + b + "." + c
  {
    GroupedTrimmed(a, ".", b, ",", c);
    SpanishShape(a, b, c);
    SpanishRest(a, b, c);
    DigitsConcat(a, b);
    DigitsHaveNoSeparators(a + b);
    ReplaceFirstAfter(a + b, c);
  }

  lemma {:induction false} RewriteDecimalComma(a: string, c: string)
    requires a != [] && AllDigits(a) && AllDigits(c)
    ensures RewriteSeparators(JsText.Trim(a + "," + c)) == a + "." + c
  {
    var t := a + "," + c;
    DigitsHaveNoSeparators(a);
    DigitsHaveNoSeparators(c);
    TrimBetweenDigits(t, a, c);
    ReplaceFirstAfter(a, c);
    assert '.' !in t && t[|a|] == ',';
  }

  lemma {:induction false} RewriteDecimalPoint(a: string, c: string)
    requires a != [] && AllDigits(a) && AllDigits(c)
    ensures RewriteSeparators(JsText.Trim(a + "." + c)) == a + "." + c
  {
    var t := a + "." + c;
    assert ',' !in t by {
      DigitsHaveNoSeparators(a);
      DigitsHaveNoSeparators(c);
    }
    assert JsText.Trim(t) == t by {
      TrimBetweenDigits(t, a, c);
    }
  }

  /** Digits, a `,` thousands separator, digits, a `.` and digits (the English format "1,234.56"): the separator is dropped. */
  lemma {:induction false} NormalizeFloatEnglish(a: string, b: string, c: string)
    requires a != [] && AllDigits(a) && AllDigits(b) && AllDigits(c)
    ensures NormalizeFloat(Str(a + "," + b + "." + c)) == NormalizeFloat(Str(a + b + "." + c))
  {
    DigitsConcat(a, b);
    RewriteEnglish(a, b, c);
    NormalizeFloatOfText(a + "," + b + "." + c, a + b + "." + c);
    RewriteDecimalPoint(a + b, c);
    NormalizeFloatOfText(a + b + "." + c, a + b + "." + c);
  }

  /** Digits, a `.` thousands separator, digits, a `,` and digits (the Spanish format "1.234,56"): the separator is dropped and the comma read as the point. */
  lemma {:induction false} NormalizeFloatSpanish(a: string, b: string, c: string)
    requires a != [] && AllDigits(a) && AllDigits(b) && AllDigits(c)
    ensures NormalizeFloat(Str(a + "." + b + "," + c)) == NormalizeFloat(Str(a + b + "." + c))
  {
    DigitsConcat(a, b);
    RewriteSpanish(a, b, c);
    NormalizeFloatOfText(a + "." + b + "," + c, a + b + "." + c);
    RewriteDecimalPoint(a + b, c);
    NormalizeFloatOfText(a + b + "." + c, a + b + "." + c);
  }

  /** Digits, a `,` and digits: the comma is the decimal point ("3,14"). */
  lemma {:induction false} NormalizeFloatDecimalComma(a: string, c: string)
    requires a != [] && AllDigits(a) && AllDigits(c)
    ensures NormalizeFloat(Str(a + "," + c)) == Some(DigitsValue(a) as real + FractionValue(c))
  {
    RewriteDecimalComma(a, c);
    NormalizeFloatOfDecimal(a + "," + c, a, c);
  }

  /** Digits, a `.` and digits: the English decimal, read as it is ("3.14"). */
  lemma {:induction false} NormalizeFloatDecimalPoint(a: string, c: string)
    requires a != [] && AllDigits(a) && AllDigits(c)
    ensures NormalizeFloat(Str(a + "." + c)) == Some(DigitsValue(a) as real + FractionValue(c))
  {
    RewriteDecimalPoint(a, c);
    NormalizeFloatOfDecimal(a + "." + c, a, c);
  }

  /** A text that starts with the digits `a` and ends with the digits `c` (or with `a` when `c` is empty) is its own trim. */
  lemma {:induction false} TrimBetweenDigits(t: string, a: string, c: string)
    requires a != [] && AllDigits(a) && AllDigits(c)
    requires |a| <= |t| && t[..|a|] == a
    requires |c| <= |t| && t[|t| - |c|..] == c
    requires c == [] ==> !JsText.IsWhitespace(t[|t| - 1])
    ensures JsText.Trim(t) == t
  {
    assert t[0] == a[0];
    if c != [] {
      assert t[|t| - 1] == c[|c| - 1];
    }
    JsText.TrimOfTrimmed(t);
  }

  /** The English format of the source's own comment: "1,234.56" is 1234.56. */
  lemma {:induction false} NormalizeFloatEnglishExample()
    ensures NormalizeFloat(Str("1" + "," + "234" + "." + "56")) == Some(1234.56)
  {
    NormalizeFloatEnglish("1", "234", "56");
    PlainExample();
  }

  /** The Spanish format of the source's own comment: "1.234,56" is 1234.56. */
  lemma {:induction false} NormalizeFloatSpanishExample()
    ensures NormalizeFloat(Str("1" + "." + "234" + "," + "56")) == Some(1234.56)
  {
    NormalizeFloatSpanish("1", "234", "56");
    PlainExample();
  }

  /** "1234.56" is 1234.56. */
  lemma {:induction false} PlainExample()
    ensures NormalizeFloat(Str("1" + "234" + "." + "56")) == Some(1234.56)
  {
    assert "1" + "234" + "." + "56" == "1234" + "." + "56";
    NormalizeFloatDecimalPoint("1234", "56");
    ThousandsExample();
  }

  /** A lone comma is the decimal point: "3,14" is 3.14. */
  lemma {:induction false} NormalizeFloatCommaExample()
    ensures NormalizeFloat(Str("3" + "," + "14")) == Some(3.14)
  {
    NormalizeFloatDecimalComma("3", "14");
    PiExample();
  }

  lemma {:induction false} PiExample()
    ensures DigitsValue("3") as real + FractionValue("14") == 3.14
  {
    assert "3"[..0] == [];
    assert "14"[..1] == "1";
    assert Pow10(2) == 100;
  }

  lemma {:induction false} ThousandsExample()
    ensures DigitsValue("1234") as real + FractionValue("56") == 1234.56
  {
    assert "1234"[..3] == "123" && "123"[..2] == "12" && "12"[..1] == "1";
    assert "56"[..1] == "5";
    assert Pow10(2) == 100;
  }

  // ---------------------------------------------------------------------
  // normalizeBoolean

  /** The texts `normalizeBoolean` reads as true, after trimming and lower-casing. */
  const TrueWords: seq<string> := ["true", "1", "sí", "si", "yes", "y"]

  /** The texts `normalizeBoolean` reads as false, after trimming and lower-casing. */
  const FalseWords: seq<string> := ["false", "0", "no", "n"]

  /** The truth value a trimmed, lower-cased text names, if it is in either list. */
  function WordValue(w: string): (r: Option<bool>)
    ensures r == Some(true) <==> w in TrueWords
    ensures r == Some(false) <==> w in FalseWords
  {
    BooleanWordsDisjoint();
    if w in TrueWords then Some(true)
    else if w in FalseWords then Some(false)
    else None
  }

  /**
   * `normalizeBoolean(v)`: a boolean as it is; a string by the two word
   * lists (trimmed, lower-cased); the numbers 1 and 0; None (`null`)
   * otherwise.
   */
  function NormalizeBoolean(v: Value): (r: Option<bool>)
    ensures v.Bool? ==> r == Some(v.b)
    ensures v.Num? ==> (r == Some(true) <==> v.n == 1.0) && (r == Some(false) <==> v.n == 0.0)
    ensures !v.Bool? && !v.Num? && !v.Str? ==> r == None
  {
    match v
    case Bool(b) => Some(b)
    case Str(s) => WordValue(JsText.ToLower(JsText.Trim(s)))
    case Num(n) => if n == 1.0 then Some(true) else if n == 0.0 then Some(false) else None
    case _ => None
  }

  /** The two word lists do not overlap, so the order of the two tests does not matter. */
  lemma {:induction false} BooleanWordsDisjoint()
    ensures forall w :: w in TrueWords ==> w !in FalseWords
  {
  }

  /** A text is looked up in the word lists once trimmed and lower-cased. */
  lemma {:induction false} NormalizeBooleanOfString(s: string)
    ensures NormalizeBoolean(Str(s)) == WordValue(JsText.ToLower(JsText.Trim(s)))
  {
  }

  /** A text already trimmed and lower-cased is looked up in the word lists as it is. */
  lemma {:induction false} NormalizeBooleanOfCanonical(w: string)
    requires JsText.Trimmed(w) && JsText.NoCapitals(w)
    ensures NormalizeBoolean(Str(w)) == WordValue(w)
  {
    JsText.TrimOfTrimmed(w);
    JsText.ToLowerOfLower(w);
    NormalizeBooleanOfString(w);
  }

  /** The words of both lists are written trimmed and in lower case. */
  lemma {:induction false} WordsCanonical(w: string)
    requires w in TrueWords || w in FalseWords
    ensures JsText.Trimmed(w) && JsText.NoCapitals(w)
  {
  }

  /** Every word of either list, as written, is read as its own truth value. */
  lemma {:induction false} NormalizeBooleanWords(w: string)
    requires w in TrueWords || w in FalseWords
    ensures NormalizeBoolean(Str(w)) == Some(w in TrueWords)
  {
    BooleanWordsDisjoint();
    WordsCanonical(w);
    NormalizeBooleanOfCanonical(w);
  }

  /**
   * Upper case and surrounding whitespace make no difference to how a text
   * is read.
   */
  lemma {:induction false} NormalizeBooleanCanonical(s: string)
    ensures NormalizeBoolean(Str(s)) == NormalizeBoolean(Str(JsText.ToLower(JsText.Trim(s))))
  {
    JsText.TrimIdempotent(s);
    JsText.ToLowerKeepsShape(JsText.Trim(s));
    NormalizeBooleanOfString(s);
    NormalizeBooleanOfCanonical(JsText.ToLower(JsText.Trim(s)));
  }

  /** `String(b)` of a boolean. */
  lemma {:induction false} BooleanText(host: Host, b: bool)
    ensures ToJsString(host, Bool(b)) == if b then "true" else "false"
  {
  }

  /** `String(b)` of a boolean is read back as the same boolean. */
  lemma {:induction false} NormalizeBooleanOfText(host: Host, b: bool)
    ensures NormalizeBoolean(Str(ToJsString(host, Bool(b)))) == Some(b)
  {
    BooleanText(host, b);
    if b {
      NormalizeBooleanWords("true");
    } else {
      NormalizeBooleanWords("false");
    }
  }

  /** A text is not a boolean exactly when, trimmed and lower-cased, it is in neither list. */
  lemma {:induction false} NormalizeBooleanRejects(s: string)
    ensures var w := JsText.ToLower(JsText.Trim(s));
      NormalizeBoolean(Str(s)) == None <==> w !in TrueWords && w !in FalseWords
  {
    NormalizeBooleanOfString(s);
  }

  // ---------------------------------------------------------------------
  // normalizeDate

  /**
   * The day number (0 is 1970-01-01) of a date of the proleptic Gregorian
   * calendar, `month` in 1..12: what `new Date(year, month - 1, day)` denotes
   * locally.
   */
  function DaysFromCivil(year: int, month: int, day: int): int
    requires 1 <= month <= 12
  {
    var y := if month <= 2 then year - 1 else year;
    var era := y / 400;
    var yoe := y - era * 400;
    var mp := if month > 2 then month - 3 else month + 9;
    var doy := (153 * mp + 2) / 5 + day - 1;
    var doe := yoe * 365 + yoe / 4 - yoe / 100 + doy;
    era * 146097 + doe - 719468
  }

  /** The day count is anchored at the Unix epoch and advances one per day of a month. */
  lemma {:induction false} DaysFromCivilFacts(year: int, month: int, day: int)
    requires 1 <= month <= 12
    ensures DaysFromCivil(1970, 1, 1) == 0
    ensures DaysFromCivil(year, month, day + 1) == DaysFromCivil(year, month, day) + 1
  {
  }

  /** The day of 1899-12-30, the origin of spreadsheet serial dates. */
  const SerialOrigin: int := DaysFromCivil(1899, 12, 30)

  /** `date.setHours(0, 0, 0, 0)`. */
  function Midnight(d: DateTime): DateTime
  {
    DateTime(d.day, 0)
  }

  /**
   * `normalizeDate(v)`: a copy of a Date; a string through `new Date` when it
   * is an ISO date-time string, else through `parseDDMMYYYY` when
   * `isDDMMYYYY` accepts it; a number as a serial date counted in whole days
   * from 1899-12-30; the result set to local midnight, or None (`null`).
   */
  function NormalizeDate(host: Host, v: Value): (r: Option<DateTime>)
    ensures r.Some? ==> r.value.ms == 0
    ensures v.Date? ==> r == Some(DateTime(v.d.day, 0))
    ensures v.Num? ==> r == Some(DateTime(SerialOrigin + v.n.Floor, 0))
    ensures !v.Date? && !v.Num? && !v.Str? ==> r == None
  {
    match v
    case Date(d) => Some(Midnight(d))
    case Str(s) =>
      if StringUtils.IsISODateString(v) then
        match host.isoToLocal(s)
        case None => None
        case Some(d) => Some(Midnight(d))
      else if host.isDDMMYYYY(s) then
        match host.parseDDMMYYYY(s)
        case None => None
        case Some(d) => Some(Midnight(d))
      else None
    case Num(n) => Some(Midnight(DateTime(SerialOrigin + n.Floor, 0)))
    case _ => None
  }

  /** Serial date 1 is 1899-12-31; each whole unit is one day and the fraction (the time) is dropped. */
  lemma {:induction false} NormalizeDateSerial(host: Host, n: int, f: real)
    requires 0.0 <= f < 1.0
    ensures NormalizeDate(host, Num(1.0)) == Some(DateTime(DaysFromCivil(1899, 12, 31), 0))
    ensures NormalizeDate(host, Num(n as real + f)) == NormalizeDate(host, Num(n as real))
    ensures NormalizeDate(host, Num(n as real + 1.0)).value.day == NormalizeDate(host, Num(n as real)).value.day + 1
  {
    DaysFromCivilFacts(1899, 12, 30);
    assert (n as real + f).Floor == n;
  }

  /** An ISO text without milliseconds, such as "2020-05-10T00:00:00Z", is not an ISO date-time string for `isISODateString`. */
  lemma {:induction false} ShortIsoIsNotIsoDateString()
    ensures !StringUtils.IsISODateString(Str("2020-05-10T00:00:00Z"))
  {
  }

  /** A normalised date is a fixed point: normalising it again gives the same day at midnight. */
  lemma {:induction false} NormalizeDateIdempotent(host: Host, v: Value)
    requires NormalizeDate(host, v).Some?
    ensures NormalizeDate(host, Date(NormalizeDate(host, v).value)) == NormalizeDate(host, v)
  {
  }

  // ---------------------------------------------------------------------
  // Normalising to a type

  /**
   * The normaliser of a resolved type applied to `v`, as the JavaScript
   * value it returns; with no type (`normalizers[null]` is undefined) the
   * value itself (`v => v`).
   */
  function Normalize(host: Host, t: Option<CellType>, v: Value): (r: Value)
    ensures t.None? ==> r == v
    ensures t == Some(StringType) ==> r.Str?
    ensures t == Some(FloatType) || t == Some(IntegerType) ==> r.Num? || r.Null?
    ensures t == Some(BooleanType) ==> r.Bool? || r.Null?
    ensures t == Some(DateType) ==> (r.Date? && r.d.ms == 0) || r.Null?
  {
    match t
    case None => v
    case Some(StringType) => Str(NormalizeString(host, v))
    case Some(FloatType) => FloatValue(NormalizeFloat(v))
    case Some(IntegerType) => IntegerValue(NormalizeInteger(host, v))
    case Some(BooleanType) => BooleanValue(NormalizeBoolean(v))
    case Some(DateType) => DateValue(NormalizeDate(host, v))
  }

  /** A normaliser's result as the JavaScript value it returns: a number, or null. */
  function FloatValue(x: Option<real>): Value
  {
    match x case Some(n) => Num(n) case None => Null
  }

  function IntegerValue(x: Option<int>): Value
  {
    match x case Some(m) => Num(m as real) case None => Null
  }

  function BooleanValue(x: Option<bool>): Value
  {
    match x case Some(b) => Bool(b) case None => Null
  }

  function DateValue(x: Option<DateTime>): Value
  {
    match x case Some(d) => Date(d) case None => Null
  }

  /** Distinct normaliser results are distinct JavaScript values. */
  lemma {:induction false} ResultValuesInjective(x: Option<real>, y: Option<real>, i: Option<int>, j: Option<int>, p: Option<bool>, q: Option<bool>)
    ensures FloatValue(x) == FloatValue(y) <==> x == y
    ensures IntegerValue(i) == IntegerValue(j) <==> i == j
    ensures BooleanValue(p) == BooleanValue(q) <==> p == q
  {
  }

  /**
   * Every normaliser but the integer one is idempotent: normalising a
   * normalised value changes nothing.
   */
  lemma {:induction false} NormalizeIdempotent(host: Host, t: CellType, v: Value)
    requires t != IntegerType
    ensures Normalize(host, Some(t), Normalize(host, Some(t), v)) == Normalize(host, Some(t), v)
  {
    match t
    case StringType => NormalizeStringIdempotent(host, v);
    case FloatType =>
      if NormalizeFloat(v).None? {
        assert NormalizeFloat(Null) == None;
      }
    case BooleanType =>
    case DateType =>
  }

  /**
   * The integer normaliser is idempotent on integers below 1e21 in
   * magnitude; beyond that `String(n)` uses exponent notation and
   * `parseInt` reads only its leading digits.
   */
  lemma {:induction false} NormalizeIntegerIdempotent(host: Host, v: Value)
    requires NormalizeInteger(host, v).Some? ==> -PlainLimit < NormalizeInteger(host, v).value as real < PlainLimit
    ensures Normalize(host, Some(IntegerType), Normalize(host, Some(IntegerType), v)) == Normalize(host, Some(IntegerType), v)
  {
    var r := NormalizeInteger(host, v);
    NormalizeAsInteger(host, v);
    NormalizeAsInteger(host, IntegerValue(r));
    match r
    case Some(m) => NormalizeIntegerOfNumber(host, m);
    case None => NormalizeIntegerOfNull(host);
  }

  lemma {:induction false} NormalizeAsInteger(host: Host, v: Value)
    ensures Normalize(host, Some(IntegerType), v) == IntegerValue(NormalizeInteger(host, v))
  {
  }

  // ---------------------------------------------------------------------
  // areEqual

  /** The values `areEqual` accepts: string, number, boolean, Date, null or undefined. */
  predicate Comparable(v: Value)
  {
    v.Null? || v.Undefined? || v.Str? || v.Num? || v.Bool? || v.Date?
  }

  const NotComparableMessage: string :=
    "Los valores de los parámetros 'a' y 'b' deben ser comparables: string, number, boolean, Date, null o undefined."

  /** `detectType(v)`: the type of a comparable value; None (`null`) for null and undefined. */
  function Detect(v: Value): (r: Option<CellType>)
    ensures r.None? <==> !v.Date? && !v.Bool? && !v.Num? && !v.Str?
  {
    match v
    case Date(_) => Some(DateType)
    case Bool(_) => Some(BooleanType)
    case Num(_) => Some(FloatType)
    case Str(_) => Some(StringType)
    case _ => None
  }

  /**
   * The comparison of two values under a resolved type: dates by their time
   * (both null counts as equal), numbers and booleans by strict equality of
   * the normalised values, and otherwise the trimmed texts of the
   * normalised values.
   */
  function CompareAs(host: Host, t: Option<CellType>, a: Value, b: Value): bool
  {
    match t
    case Some(DateType) => SameTime(Normalize(host, t, a), Normalize(host, t, b))
    case Some(FloatType) => Normalize(host, t, a) == Normalize(host, t, b)
    case Some(IntegerType) => Normalize(host, t, a) == Normalize(host, t, b)
    case Some(BooleanType) => Normalize(host, t, a) == Normalize(host, t, b)
    case _ => SameText(host, Normalize(host, t, a), Normalize(host, t, b))
  }

  /** The date comparison: both null counts as equal, one null as different, otherwise `getTime()` equality. */
  function SameTime(na: Value, nb: Value): bool
  {
    if na.Null? && nb.Null? then true
    else if na.Null? || nb.Null? then false
    else na.Date? && nb.Date? && na.d == nb.d
  }

  /** `String(x).trim() === String(y).trim()`. */
  function SameText(host: Host, x: Value, y: Value): bool
  {
    JsText.Trim(ToJsString(host, x)) == JsText.Trim(ToJsString(host, y))
  }

  /** Under the string type two values are equal exactly when their normalised texts are. */
  lemma {:induction false} CompareAsString(host: Host, a: Value, b: Value)
    ensures CompareAs(host, Some(StringType), a, b) <==> NormalizeString(host, a) == NormalizeString(host, b)
  {
    var x := NormalizeString(host, a);
    var y := NormalizeString(host, b);
    NormalizeStringTrimmed(host, a);
    NormalizeStringTrimmed(host, b);
    JsText.TrimOfTrimmed(x);
    JsText.TrimOfTrimmed(y);
    assert Normalize(host, Some(StringType), a) == Str(x);
    assert Normalize(host, Some(StringType), b) == Str(y);
  }

  /** Under the float type two values are equal exactly when `normalizeFloat` reads the same number from both, or nothing from either. */
  lemma {:induction false} CompareAsFloat(host: Host, a: Value, b: Value)
    ensures CompareAs(host, Some(FloatType), a, b) <==> NormalizeFloat(a) == NormalizeFloat(b)
  {
    ResultValuesInjective(NormalizeFloat(a), NormalizeFloat(b), None, None, None, None);
  }

  /** Under the integer type two values are equal exactly when `normalizeInteger` reads the same integer from both, or nothing from either. */
  lemma {:induction false} CompareAsInteger(host: Host, a: Value, b: Value)
    ensures CompareAs(host, Some(IntegerType), a, b) <==> NormalizeInteger(host, a) == NormalizeInteger(host, b)
  {
    ResultValuesInjective(None, None, NormalizeInteger(host, a), NormalizeInteger(host, b), None, None);
  }

  /** Under the boolean type two values are equal exactly when `normalizeBoolean` reads the same truth value from both, or nothing from either. */
  lemma {:induction false} CompareAsBoolean(host: Host, a: Value, b: Value)
    ensures CompareAs(host, Some(BooleanType), a, b) <==> NormalizeBoolean(a) == NormalizeBoolean(b)
  {
    ResultValuesInjective(None, None, None, None, NormalizeBoolean(a), NormalizeBoolean(b));
  }

  /** Under the date type two values are equal exactly when they normalise to the same local midnight, or both to nothing. */
  lemma {:induction false} CompareAsDate(host: Host, a: Value, b: Value)
    ensures CompareAs(host, Some(DateType), a, b) <==> NormalizeDate(host, a) == NormalizeDate(host, b)
  {
  }

  /** With no resolved type the values themselves are compared as trimmed texts. */
  lemma {:induction false} CompareAsUntyped(host: Host, a: Value, b: Value)
    ensures CompareAs(host, None, a, b) <==> JsText.Trim(ToJsString(host, a)) == JsText.Trim(ToJsString(host, b))
  {
  }

  /** Under any resolved type, a value equals itself. */
  lemma {:induction false} CompareAsReflexive(host: Host, t: Option<CellType>, a: Value)
    ensures CompareAs(host, t, a, a)
  {
    CompareAsCases(host, t, a, a);
  }

  /** Under any resolved type the comparison is symmetric. */
  lemma {:induction false} CompareAsSymmetric(host: Host, t: Option<CellType>, a: Value, b: Value)
    ensures CompareAs(host, t, a, b) == CompareAs(host, t, b, a)
  {
    CompareAsCases(host, t, a, b);
    CompareAsCases(host, t, b, a);
  }

  /** Every resolved type compares by equality of what its normaliser makes of the two values. */
  lemma {:induction false} CompareAsCases(host: Host, t: Option<CellType>, a: Value, b: Value)
    ensures CompareAs(host, t, a, b) <==> match t
      case None => JsText.Trim(ToJsString(host, a)) == JsText.Trim(ToJsString(host, b))
      case Some(StringType) => NormalizeString(host, a) == NormalizeString(host, b)
      case Some(FloatType) => NormalizeFloat(a) == NormalizeFloat(b)
      case Some(IntegerType) => NormalizeInteger(host, a) == NormalizeInteger(host, b)
      case Some(BooleanType) => NormalizeBoolean(a) == NormalizeBoolean(b)
      case Some(DateType) => NormalizeDate(host, a) == NormalizeDate(host, b)
  {
    match t
    case None => CompareAsUntyped(host, a, b);
    case Some(StringType) => CompareAsString(host, a, b);
    case Some(FloatType) => CompareAsFloat(host, a, b);
    case Some(IntegerType) => CompareAsInteger(host, a, b);
    case Some(BooleanType) => CompareAsBoolean(host, a, b);
    case Some(DateType) => CompareAsDate(host, a, b);
  }

  /**
   * The type `areEqual` resolves, as written:
   * `type || typeA !== 'string' ? typeA : null || typeB || 'string'`,
   * which parses as `(type || (typeA !== 'string')) ? typeA : (typeB || 'string')`.
   * A given type is therefore never used: it only selects the type of `a`.
   */
  function ResolveAsWritten(given: Option<CellType>, ta: Option<CellType>, tb: Option<CellType>): (r: Option<CellType>)
    ensures given.Some? ==> r == ta
    ensures given.None? && ta != Some(StringType) ==> r == ta
    ensures given.None? && ta == Some(StringType) ==> r == if tb.Some? then tb else Some(StringType)
  {
    if given.Some? || ta != Some(StringType) then ta
    else if tb.Some? then tb
    else Some(StringType)
  }

  /** The type `areEqual` evidently means to resolve: the given one, else the detected one. */
  function ResolveCorrected(given: Option<CellType>, ta: Option<CellType>, tb: Option<CellType>): (r: Option<CellType>)
    ensures given.Some? ==> r == given
    ensures given.None? ==> r == ResolveAsWritten(given, ta, tb)
  {
    if given.Some? then given
    else if ta != Some(StringType) then ta
    else if tb.Some? then tb
    else Some(StringType)
  }

  /**
   * `areEqual(a, b, type)`, as written. Errors: a `type` that is neither
   * undefined nor in `cellValueTypes`, then a value that is not comparable.
   */
  function AreEqual(host: Host, a: Value, b: Value, typ: Value): (r: Result<bool>)
    ensures r.Throw? <==> (!typ.Undefined? && ParseCellType(typ).None?) || !Comparable(a) || !Comparable(b)
    ensures !typ.Undefined? && ParseCellType(typ).None? ==> r == Throw(Error(InvalidTypeMessage))
    ensures (typ.Undefined? || ParseCellType(typ).Some?) && (!Comparable(a) || !Comparable(b)) ==> r == Throw(Error(NotComparableMessage))
  {
    if !typ.Undefined? && ParseCellType(typ).None? then Throw(Error(InvalidTypeMessage))
    else if !Comparable(a) || !Comparable(b) then Throw(Error(NotComparableMessage))
    else Ok(CompareAs(host, ResolveAsWritten(ParseCellType(typ), Detect(a), Detect(b)), a, b))
  }

  /** `areEqual` with the type resolved as evidently intended; the errors are the same. */
  function AreEqualCorrected(host: Host, a: Value, b: Value, typ: Value): (r: Result<bool>)
    ensures r.Throw? <==> AreEqual(host, a, b, typ).Throw?
    ensures r.Throw? ==> r == AreEqual(host, a, b, typ)
  {
    if !typ.Undefined? && ParseCellType(typ).None? then Throw(Error(InvalidTypeMessage))
    else if !Comparable(a) || !Comparable(b) then Throw(Error(NotComparableMessage))
    else Ok(CompareAs(host, ResolveCorrected(ParseCellType(typ), Detect(a), Detect(b)), a, b))
  }

  /** As written, a given type only makes `a`'s own detected type the comparison type. */
  lemma {:induction false} AreEqualGivenTypeIgnored(host: Host, a: Value, b: Value, t: CellType)
    requires Comparable(a) && Comparable(b)
    ensures AreEqual(host, a, b, Str(TypeName(t))) == Ok(CompareAs(host, Detect(a), a, b))
  {
    ParseCellTypeOfName(t);
  }

  /** Corrected, a given type is the comparison type. */
  lemma {:induction false} AreEqualCorrectedUsesGivenType(host: Host, a: Value, b: Value, t: CellType)
    requires Comparable(a) && Comparable(b)
    ensures AreEqualCorrected(host, a, b, Str(TypeName(t))) == Ok(CompareAs(host, Some(t), a, b))
  {
    ParseCellTypeOfName(t);
  }

  /** Without a type the two agree everywhere. */
  lemma {:induction false} AreEqualCorrectedAgrees(host: Host, a: Value, b: Value)
    ensures AreEqualCorrected(host, a, b, Undefined) == AreEqual(host, a, b, Undefined)
  {
  }

  /** `normalizeString` of a text is its trim. */
  lemma {:induction false} NormalizeStringOfText(host: Host, s: string)
    ensures NormalizeString(host, Str(s)) == JsText.Trim(s)
  {
  }

  /**
   * The input class that shows the difference: as written, a true-word
   * other than "true" itself ("yes", "sí", "1", ...) is not equal to the
   * boolean true even under the boolean type, because both are compared as
   * strings.
   */
  lemma {:induction false} AreEqualBooleanText(host: Host, w: string)
    requires w in TrueWords && w != "true"
    ensures AreEqual(host, Str(w), Bool(true), Str("boolean")) == Ok(false)
  {
    AreEqualGivenTypeIgnored(host, Str(w), Bool(true), BooleanType);
    CompareAsString(host, Str(w), Bool(true));
    WordsCanonical(w);
    NormalizeStringOfText(host, w);
    JsText.TrimOfTrimmed(w);
    BooleanText(host, true);
    TrueTrimmed();
  }

  lemma {:induction false} TrueTrimmed()
    ensures JsText.Trim("true") == "true"
  {
    JsText.TrimOfTrimmed("true");
  }

  /** Corrected, every true-word is the boolean true under the boolean type. */
  lemma {:induction false} AreEqualCorrectedBooleanText(host: Host, w: string)
    requires w in TrueWords
    ensures AreEqualCorrected(host, Str(w), Bool(true), Str("boolean")) == Ok(true)
  {
    NormalizeBooleanWords(w);
    AreEqualCorrectedOfBooleans(host, Str(w), Bool(true));
  }

  /** Corrected, under the boolean type, values `normalizeBoolean` reads alike are equal. */
  lemma AreEqualCorrectedOfBooleans(host: Host, a: Value, b: Value)
    requires Comparable(a) && Comparable(b) && NormalizeBoolean(a) == NormalizeBoolean(b)
    ensures AreEqualCorrected(host, a, b, Str("boolean")) == Ok(true)
  {
    AreEqualCorrectedUsesGivenType(host, a, b, BooleanType);
    CompareAsBoolean(host, a, b);
  }

  /** A value equals itself, under any valid type, in both versions. */
  lemma {:induction false} AreEqualReflexive(host: Host, a: Value, typ: Value)
    requires Comparable(a) && (typ.Undefined? || ParseCellType(typ).Some?)
    ensures AreEqual(host, a, a, typ) == Ok(true)
    ensures AreEqualCorrected(host, a, a, typ) == Ok(true)
  {
    CompareAsReflexive(host, ResolveAsWritten(ParseCellType(typ), Detect(a), Detect(a)), a);
    CompareAsReflexive(host, ResolveCorrected(ParseCellType(typ), Detect(a), Detect(a)), a);
  }

  /** Values of the same detected kind compare the same in either order. */
  lemma {:induction false} AreEqualSymmetricSameKind(host: Host, a: Value, b: Value, typ: Value)
    requires Detect(a) == Detect(b)
    ensures AreEqual(host, a, b, typ) == AreEqual(host, b, a, typ)
  {
    CompareAsSymmetric(host, ResolveAsWritten(ParseCellType(typ), Detect(a), Detect(b)), a, b);
  }

  /** Across kinds the resolution depends on the order: the empty text equals null, compared as strings... */
  lemma {:induction false} AreEqualTextNull(host: Host)
    ensures AreEqual(host, Str(""), Null, Undefined) == Ok(true)
  {
    CompareAsString(host, Str(""), Null);
  }

  /** ...but null against the empty text compares the texts "null" and "". */
  lemma {:induction false} AreEqualNullText(host: Host)
    ensures AreEqual(host, Null, Str(""), Undefined) == Ok(false)
  {
    CompareAsUntyped(host, Null, Str(""));
    NullText(host);
    WordTrimmed("null");
  }

  /** null against the text "null" compares "null" with "null", so they are equal. */
  lemma {:induction false} AreEqualNullNullText(host: Host)
    ensures AreEqual(host, Null, Str("null"), Undefined) == Ok(true)
  {
    CompareAsUntyped(host, Null, Str("null"));
    NullText(host);
    WordTrimmed("null");
  }

  /** null and undefined are not equal: their texts differ. */
  lemma {:induction false} AreEqualNullUndefined(host: Host)
    ensures AreEqual(host, Null, Undefined, Undefined) == Ok(false)
  {
    CompareAsUntyped(host, Null, Undefined);
    NullText(host);
    WordTrimmed("null");
    WordTrimmed("undefined");
  }

  /** null is not the number 0. */
  lemma {:induction false} AreEqualNullZero(host: Host)
    ensures AreEqual(host, Null, Num(0.0), Undefined) == Ok(false)
  {
    CompareAsUntyped(host, Null, Num(0.0));
    NullText(host);
    ZeroText(host);
    WordTrimmed("null");
    WordTrimmed("0");
  }

  /** A text of small letters and digits is its own trim. */
  lemma {:induction false} WordTrimmed(w: string)
    requires w != [] && forall i :: 0 <= i < |w| ==> 'a' <= w[i] <= 'z' || '0' <= w[i] <= '9'
    ensures JsText.Trim(w) == w
  {
    JsText.TrimOfTrimmed(w);
  }

  /** `String(0)`. */
  lemma {:induction false} ZeroText(host: Host)
    ensures ToJsString(host, Num(0.0)) == "0"
  {
    assert IsIntegral(0.0);
  }

  /** Two dates are equal exactly when they fall on the same local day, whatever the time, for any valid type. */
  lemma {:induction false} AreEqualDates(host: Host, x: DateTime, y: DateTime, typ: Value)
    requires typ.Undefined? || ParseCellType(typ).Some?
    ensures AreEqual(host, Date(x), Date(y), typ) == Ok(x.day == y.day)
  {
    CompareAsDate(host, Date(x), Date(y));
  }

  /** Two numbers are equal exactly when they are the same number, for any valid type. */
  lemma {:induction false} AreEqualNumbers(host: Host, x: real, y: real, typ: Value)
    requires typ.Undefined? || ParseCellType(typ).Some?
    ensures AreEqual(host, Num(x), Num(y), typ) == Ok(x == y)
  {
    CompareAsFloat(host, Num(x), Num(y));
  }

  /** Two strings are equal exactly when they agree after trimming, for any valid type. */
  lemma {:induction false} AreEqualStrings(host: Host, s: string, t: string, typ: Value)
    requires typ.Undefined? || ParseCellType(typ).Some?
    ensures AreEqual(host, Str(s), Str(t), typ) == Ok(JsText.Trim(s) == JsText.Trim(t))
  {
    CompareAsString(host, Str(s), Str(t));
    NormalizeStringOfText(host, s);
    NormalizeStringOfText(host, t);
  }

  /** A text against a number is compared as the number `normalizeFloat` reads from the text. */
  lemma {:induction false} AreEqualTextAndNumber(host: Host, s: string, x: real)
    ensures AreEqual(host, Str(s), Num(x), Undefined) == Ok(NormalizeFloat(Str(s)) == Some(x))
  {
    CompareAsFloat(host, Str(s), Num(x));
  }
}
