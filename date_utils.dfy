/**
 * `getTimestamp(format, lng)` of DateUtils.js: the placeholders of a
 * format (`YYYY`, `MM`, `hh`, `AMPM`, ...) are replaced by the fields of the
 * current local date and time, month names coming from the language `lng`.
 * The clock is a parameter: `now` is what `new Date()` reads.
 */
module DateUtils {
  import opened JsValues
  import JsText
  import opened JsNumbers

  const FormatMessage: string := "El parámetro 'format' es inválido."
  const LngMessage: string := "El parámetro 'lng' es inválido."
  const DefaultFormat: string := "YYYYMMDD HHmmss"

  type MonthIndex = m: int | 0 <= m < 12
  type DayOfMonth = d: int | 1 <= d <= 31 witness 1
  type Hour = h: int | 0 <= h < 24
  type Sixty = m: int | 0 <= m < 60

  /**
   * The local fields of `new Date()`: `getFullYear()`, `getMonth()` (0 for
   * January), `getDate()`, `getHours()`, `getMinutes()`, `getSeconds()`.
   */
  datatype Clock = Clock(year: int, month: MonthIndex, day: DayOfMonth, hour: Hour, minute: Sixty, second: Sixty)

  // ---------------------------------------------------------------------
  // Month names

  /** The month names of one language, January first. */
  datatype MonthNames = MonthNames(names: seq<string>, shortNames: seq<string>)

  predicate TwelveMonths(m: MonthNames)
  {
    |m.names| == 12 && |m.shortNames| == 12
  }

  const EnglishMonths: MonthNames := MonthNames(
    ["January", "February", "March", "April", "May", "June",
     "July", "August", "September", "October", "November", "December"],
    ["Jan", "Feb", "Mar", "Apr", "May", "Jun", "Jul", "Aug", "Sep", "Oct", "Nov", "Dec"])

  const SpanishMonths: MonthNames := MonthNames(
    ["Enero", "Febrero", "Marzo", "Abril", "Mayo", "Junio",
     "Julio", "Agosto", "Septiembre", "Octubre", "Noviembre", "Diciembre"],
    ["Ene", "Feb", "Mar", "Abr", "May", "Jun", "Jul", "Ago", "Sep", "Oct", "Nov", "Dic"])

  /** Uruguayan Spanish, which writes September as "Setiembre". */
  const UruguayanMonths: MonthNames := MonthNames(
    ["Enero", "Febrero", "Marzo", "Abril", "Mayo", "Junio",
     "Julio", "Agosto", "Setiembre", "Octubre", "Noviembre", "Diciembre"],
    ["Ene", "Feb", "Mar", "Abr", "May", "Jun", "Jul", "Ago", "Set", "Oct", "Nov", "Dic"])

  /** `monthsMap.get(key)`, for the keys the map holds. */
  function MonthsMap(key: string): Option<MonthNames>
  {
    if key == "en-us" then Some(EnglishMonths)
    else if key == "es" then Some(SpanishMonths)
    else if key == "es-uy" then Some(UruguayanMonths)
    else None
  }

  /**
   * The month names for `lng`: those of `lng.toLowerCase()` when the map
   * has it, and the default language `es-uy` otherwise (also for a missing
   * or empty `lng`).
   */
  function MonthsFor(lng: Value): (r: MonthNames)
    ensures TwelveMonths(r)
  {
    if lng.Str? && JsText.ToLower(lng.s) != "" && MonthsMap(JsText.ToLower(lng.s)).Some? then MonthsMap(JsText.ToLower(lng.s)).value
    else UruguayanMonths
  }

  /** A language is found whatever its capitals; anything else falls back to Uruguayan Spanish. */
  lemma MonthsForLanguages()
    ensures MonthsFor(Str("en-US")) == EnglishMonths
    ensures MonthsFor(Str("ES")) == SpanishMonths
    ensures MonthsFor(Str("es-UY")) == UruguayanMonths
    ensures MonthsFor(Str("fr")) == UruguayanMonths
    ensures MonthsFor(Undefined) == UruguayanMonths
  {
    assert JsText.ToLower("en-US") == "en-us";
    assert JsText.ToLower("ES") == "es";
    assert JsText.ToLower("es-UY") == "es-uy";
    assert JsText.ToLower("fr") == "fr";
  }

  /** The month names for a language are those of its lower-cased key, if the map has it, and Uruguayan otherwise. */
  lemma MonthsForKey(s: string)
    ensures MonthsMap(JsText.ToLower(s)).Some? ==> MonthsFor(Str(s)) == MonthsMap(JsText.ToLower(s)).value
    ensures MonthsMap(JsText.ToLower(s)).None? ==> MonthsFor(Str(s)) == UruguayanMonths
  {
  }

  // ---------------------------------------------------------------------
  // The placeholders and the scan

  /** The placeholders of the pattern, one constructor per alternative. */
  datatype Token =
    | Year4 | Year2 | MonthName | MonthShort | Month2 | Month1 | Day2 | Day1
    | Hour2 | Hour1 | Hour12Of2 | Hour12Of1 | Minute2 | Minute1 | Second2 | Second1
    | UpperMeridiem | LowerMeridiem

  /** The text of each alternative. */
  function Pattern(t: Token): (p: string)
    ensures |p| >= 1
  {
    match t
    case Year4 => "YYYY"
    case Year2 => "YY"
    case MonthName => "MMMM"
    case MonthShort => "MMM"
    case Month2 => "MM"
    case Month1 => "M"
    case Day2 => "DD"
    case Day1 => "D"
    case Hour2 => "HH"
    case Hour1 => "H"
    case Hour12Of2 => "hh"
    case Hour12Of1 => "h"
    case Minute2 => "mm"
    case Minute1 => "m"
    case Second2 => "ss"
    case Second1 => "s"
    case UpperMeridiem => "AMPM"
    case LowerMeridiem => "ampm"
  }

  /** `YYYY|YY|MMMM|MMM|MM|M|DD|D|HH|H|hh|h|mm|m|ss|s|AMPM|ampm`, in this order. */
  const Alternation: seq<Token> := [
    Year4, Year2, MonthName, MonthShort, Month2, Month1, Day2, Day1,
    Hour2, Hour1, Hour12Of2, Hour12Of1, Minute2, Minute1, Second2, Second1,
    UpperMeridiem, LowerMeridiem]

  /** The first of `alts` whose text starts `s`. */
  function FirstMatch(s: string, alts: seq<Token>): (r: Option<Token>)
    ensures r.Some? ==> r.value in alts && JsText.StartsWith(s, Pattern(r.value))
    ensures r.None? ==> forall i :: 0 <= i < |alts| ==> !JsText.StartsWith(s, Pattern(alts[i]))
  {
    if alts == [] then None
    else if JsText.StartsWith(s, Pattern(alts[0])) then Some(alts[0])
    else FirstMatch(s, alts[1..])
  }

  /** The alternation cut where the first character changes. */
  const Groups: seq<seq<Token>> := [
    [Year4, Year2], [MonthName, MonthShort, Month2, Month1], [Day2, Day1], [Hour2, Hour1],
    [Hour12Of2, Hour12Of1], [Minute2, Minute1], [Second2, Second1], [UpperMeridiem], [LowerMeridiem]]

  /** The first character shared by the alternatives of each group. */
  const GroupStarts: string := "YMDHhmsAa"

  function Flatten(gs: seq<seq<Token>>): seq<Token>
  {
    if gs == [] then [] else gs[0] + Flatten(gs[1..])
  }

  /** Every alternative of group `i` begins with `cs[i]`. */
  predicate GroupedBy(gs: seq<seq<Token>>, cs: string)
  {
    |gs| == |cs| && forall i, t :: 0 <= i < |gs| && t in gs[i] ==> Pattern(t)[0] == cs[i]
  }

  lemma AlternationGroups()
    ensures Alternation == Flatten(Groups)
  {
  }

  lemma GroupsGrouped()
    ensures GroupedBy(Groups, GroupStarts)
  {
  }

  /** The first match in `xs + ys` is the first in `xs`, or else the first in `ys`. */
  lemma {:induction false} FirstMatchAppend(s: string, xs: seq<Token>, ys: seq<Token>)
    ensures FirstMatch(s, xs + ys) == if FirstMatch(s, xs).Some? then FirstMatch(s, xs) else FirstMatch(s, ys)
  {
    if xs == [] {
      assert xs + ys == ys;
    } else {
      assert (xs + ys)[0] == xs[0];
      assert (xs + ys)[1..] == xs[1..] + ys;
      FirstMatchAppend(s, xs[1..], ys);
    }
  }

  /** No alternative of a group whose first character is not `s[0]` matches. */
  lemma GroupMisses(s: string, g: seq<Token>, c: char)
    requires s != [] && c != s[0]
    requires forall t :: t in g ==> Pattern(t)[0] == c
    ensures FirstMatch(s, g) == None
  {
  }

  /** When no group begins with `s[0]`, nothing matches. */
  lemma {:induction false} AllGroupsMiss(s: string, gs: seq<seq<Token>>, cs: string)
    requires s != [] && GroupedBy(gs, cs)
    requires forall i :: 0 <= i < |cs| ==> cs[i] != s[0]
    ensures FirstMatch(s, Flatten(gs)) == None
  {
    if gs != [] {
      GroupMisses(s, gs[0], cs[0]);
      assert GroupedBy(gs[1..], cs[1..]) by {
        forall i, t | 0 <= i < |gs[1..]| && t in gs[1..][i] ensures Pattern(t)[0] == cs[1..][i] {
          assert gs[1..][i] == gs[i + 1];
        }
      }
      AllGroupsMiss(s, gs[1..], cs[1..]);
      FirstMatchAppend(s, gs[0], Flatten(gs[1..]));
    }
  }

  /** When only group `j` begins with `s[0]`, the match is the first of that group. */
  lemma {:induction false} OnlyGroupMatches(s: string, gs: seq<seq<Token>>, cs: string, j: nat)
    requires s != [] && GroupedBy(gs, cs) && j < |gs|
    requires forall i :: 0 <= i < |cs| && i != j ==> cs[i] != s[0]
    ensures FirstMatch(s, Flatten(gs)) == FirstMatch(s, gs[j])
  {
    assert GroupedBy(gs[1..], cs[1..]) by {
      forall i, t | 0 <= i < |gs[1..]| && t in gs[1..][i] ensures Pattern(t)[0] == cs[1..][i] {
        assert gs[1..][i] == gs[i + 1];
      }
    }
    FirstMatchAppend(s, gs[0], Flatten(gs[1..]));
    if j == 0 {
      AllGroupsMiss(s, gs[1..], cs[1..]);
    } else {
      GroupMisses(s, gs[0], cs[0]);
      OnlyGroupMatches(s, gs[1..], cs[1..], j - 1);
    }
  }

  /** Where the first character begins group `j`, the alternation finds what that group finds. */
  lemma AlternationByGroup(s: string, j: nat)
    requires s != [] && j < |GroupStarts| && GroupStarts[j] == s[0]
    ensures FirstMatch(s, Alternation) == FirstMatch(s, Groups[j])
  {
    AlternationGroups();
    GroupsGrouped();
    OnlyGroupMatches(s, Groups, GroupStarts, j);
  }

  /** The group a character begins, or 9 when it begins none. */
  function GroupOf(c: char): (j: nat)
    ensures j <= |GroupStarts|
    ensures j < |GroupStarts| ==> GroupStarts[j] == c
    ensures j == |GroupStarts| ==> forall i :: 0 <= i < |GroupStarts| ==> GroupStarts[i] != c
  {
    if c == 'Y' then 0 else if c == 'M' then 1 else if c == 'D' then 2 else if c == 'H' then 3
    else if c == 'h' then 4 else if c == 'm' then 5 else if c == 's' then 6 else if c == 'A' then 7
    else if c == 'a' then 8 else 9
  }

  /**
   * What the regular expression matches at the start of `s`, decided by
   * the first character: the first alternative of the group that begins
   * with it, tried longest first as the alternation lists them.
   */
  function MatchAt(s: string): (r: Option<Token>)
    ensures r.Some? ==> JsText.StartsWith(s, Pattern(r.value))
  {
    if s == [] || GroupOf(s[0]) == |Groups| then None
    else FirstMatch(s, Groups[GroupOf(s[0])])
  }

  /**
   * The dispatch on the first character finds exactly what the alternation
   * tried in order finds: the first alternative that matches.
   */
  lemma MatchAtIsAlternation(s: string)
    ensures MatchAt(s) == FirstMatch(s, Alternation)
  {
    if s != [] {
      var j := GroupOf(s[0]);
      if j < |Groups| {
        AlternationByGroup(s, j);
      } else {
        AlternationGroups();
        GroupsGrouped();
        AllGroupsMiss(s, Groups, GroupStarts);
      }
    }
  }

  /** Where nothing matches, no alternative of the alternation starts `s`. */
  lemma MatchAtNone(s: string, t: Token)
    requires MatchAt(s).None?
    ensures !JsText.StartsWith(s, Pattern(t))
  {
    MatchAtIsAlternation(s);
    assert t in Alternation;
  }

  /** A piece of a scanned format: a placeholder, or a character copied as it is. */
  datatype Piece = Tok(t: Token) | Lit(c: char)

  /** The global scan of `replace`: at each position the first matching alternative, else one literal character. */
  function Tokenize(s: string): seq<Piece>
    decreases |s|
  {
    if s == [] then []
    else match MatchAt(s)
      case Some(t) => [Tok(t)] + Tokenize(s[|Pattern(t)|..])
      case None => [Lit(s[0])] + Tokenize(s[1..])
  }

  /** The text a sequence of pieces was scanned from. */
  function Untokenize(ps: seq<Piece>): string
  {
    if ps == [] then []
    else (match ps[0] case Tok(t) => Pattern(t) case Lit(c) => [c]) + Untokenize(ps[1..])
  }

  /** The scan splits the format without losing or adding a character. */
  lemma {:induction false} TokenizeRoundTrip(s: string)
    ensures Untokenize(Tokenize(s)) == s
    decreases |s|
  {
    if s != [] {
      match MatchAt(s)
      case Some(t) =>
        TokenizeRoundTrip(s[|Pattern(t)|..]);
        assert s == Pattern(t) + s[|Pattern(t)|..];
      case None =>
        TokenizeRoundTrip(s[1..]);
        assert s == [s[0]] + s[1..];
    }
  }

  /** A character copied as it is never starts a placeholder: no `M`, `D`, `H`, `h`, `m` or `s` is ever copied. */
  lemma {:induction false} TokenizeLiterals(s: string)
    ensures forall i :: 0 <= i < |Tokenize(s)| && Tokenize(s)[i].Lit? ==> Tokenize(s)[i].c !in "MDHhms"
    decreases |s|
  {
    if s != [] {
      match MatchAt(s)
      case Some(t) =>
        TokenizeLiterals(s[|Pattern(t)|..]);
      case None =>
        TokenizeLiterals(s[1..]);
        MatchAtNone(s, Month1);
        MatchAtNone(s, Day1);
        MatchAtNone(s, Hour1);
        MatchAtNone(s, Hour12Of1);
        MatchAtNone(s, Minute1);
        MatchAtNone(s, Second1);
    }
  }

  // ---------------------------------------------------------------------
  // The components

  /** `String(n).padStart(2, '0')`. */
  function PadTwo(s: string): string
  {
    if |s| >= 2 then s else seq(2 - |s|, _ => '0') + s
  }

  /** `hour24 % 12 || 12`. */
  function Hour12(hour: Hour): int
  {
    if hour % 12 == 0 then 12 else hour % 12
  }

  /** `String(year).slice(-2)`. */
  function LastTwo(s: string): string
  {
    if |s| >= 2 then s[|s| - 2..] else s
  }

  /** `components[match]`: the text that replaces a placeholder. */
  function Component(t: Token, now: Clock, months: MonthNames): string
    requires TwelveMonths(months)
  {
    match t
    case Year4 => IntToDecimal(now.year)
    case Year2 => LastTwo(IntToDecimal(now.year))
    case MonthName => months.names[now.month]
    case MonthShort => months.shortNames[now.month]
    case Month2 => PadTwo(NatToDecimal(now.month + 1))
    case Month1 => NatToDecimal(now.month + 1)
    case Day2 => PadTwo(NatToDecimal(now.day))
    case Day1 => NatToDecimal(now.day)
    case Hour2 => PadTwo(NatToDecimal(now.hour))
    case Hour1 => NatToDecimal(now.hour)
    case Hour12Of2 => PadTwo(NatToDecimal(Hour12(now.hour)))
    case Hour12Of1 => NatToDecimal(Hour12(now.hour))
    case Minute2 => PadTwo(NatToDecimal(now.minute))
    case Minute1 => NatToDecimal(now.minute)
    case Second2 => PadTwo(NatToDecimal(now.second))
    case Second1 => NatToDecimal(now.second)
    case UpperMeridiem => if now.hour < 12 then "AM" else "PM"
    case LowerMeridiem => if now.hour < 12 then "am" else "pm"
  }

  /** The scanned format with every placeholder replaced; replaced text is not scanned again. */
  function Render(ps: seq<Piece>, now: Clock, months: MonthNames): string
    requires TwelveMonths(months)
  {
    if ps == [] then []
    else (match ps[0] case Tok(t) => Component(t, now, months) case Lit(c) => [c]) + Render(ps[1..], now, months)
  }

  /**
   * `getTimestamp(format, lng)` at the moment `now`. Errors: a truthy
   * `format` that is not a string or is blank, then the same for `lng`; a
   * falsy `lng` other than null, undefined or `''` (`false`, `0`) has no
   * `toLowerCase`, a TypeError.
   */
  function GetTimestamp(format: Value, lng: Value, now: Clock): (r: Result<string>)
    ensures r.Throw? <==> BadArgument(format) || BadArgument(lng) || !(lng.Str? || lng.Null? || lng.Undefined?)
  {
    if BadArgument(format) then Throw(Error(FormatMessage))
    else if BadArgument(lng) then Throw(Error(LngMessage))
    else if !(lng.Str? || lng.Null? || lng.Undefined?) then Throw(TypeError)
    else
      var f := if Truthy(format) then format.s else DefaultFormat;
      Ok(Render(Tokenize(f), now, MonthsFor(lng)))
  }

  /** `v && (typeof v !== "string" || !v.trim())`. */
  predicate BadArgument(v: Value)
  {
    Truthy(v) && (!v.Str? || JsText.Trim(v.s) == "")
  }

  // ---------------------------------------------------------------------
  // Properties

  /** The argument errors, in order; the TypeError of a falsy non-string `lng`. */
  lemma GetTimestampErrors(format: Value, lng: Value, now: Clock)
    ensures BadArgument(format) ==> GetTimestamp(format, lng, now) == Throw(Error(FormatMessage))
    ensures !BadArgument(format) && BadArgument(lng) ==> GetTimestamp(format, lng, now) == Throw(Error(LngMessage))
    ensures !BadArgument(format) && (lng == Bool(false) || lng == Num(0.0)) ==> GetTimestamp(format, lng, now) == Throw(TypeError)
  {
  }

  /** The falsy formats `''`, null, undefined, `false` and `0` all mean the default format. */
  lemma GetTimestampDefaultFormat(format: Value, lng: Value, now: Clock)
    requires !Truthy(format)
    ensures GetTimestamp(format, lng, now) == GetTimestamp(Str(DefaultFormat), lng, now)
  {
    assert JsText.Trim(DefaultFormat) != "" by {
      assert JsText.TrimStart(DefaultFormat) == DefaultFormat;
    }
  }

  /** Padding a number below 100 gives exactly two digits that read back as it. */
  lemma PadTwoDigits(n: nat)
    requires n < 100
    ensures |PadTwo(NatToDecimal(n))| == 2 && AllDigits(PadTwo(NatToDecimal(n)))
    ensures DigitsValue(PadTwo(NatToDecimal(n))) == n
  {
    DecimalRoundTrip(n);
    if n < 10 {
      assert PadTwo(NatToDecimal(n)) == ['0', DigitChar(n)];
      assert ['0', DigitChar(n)][..1] == ['0'];
    } else {
      assert NatToDecimal(n) == NatToDecimal(n / 10) + [DigitChar(n % 10)];
      assert NatToDecimal(n / 10) == [DigitChar(n / 10)];
    }
  }

  /** The placeholders written with two digits. */
  predicate IsTwoDigit(t: Token)
  {
    t == Month2 || t == Day2 || t == Hour2 || t == Hour12Of2 || t == Minute2 || t == Second2
  }

  /** The field a numeric placeholder shows: the month counted from 1, the day, the hour (24 or 12), the minute or the second. */
  function Field(t: Token, now: Clock): nat
  {
    match t
    case Month2 => now.month + 1
    case Month1 => now.month + 1
    case Day2 => now.day
    case Day1 => now.day
    case Hour2 => now.hour
    case Hour1 => now.hour
    case Hour12Of2 => Hour12(now.hour)
    case Hour12Of1 => Hour12(now.hour)
    case Minute2 => now.minute
    case Minute1 => now.minute
    case Second2 => now.second
    case Second1 => now.second
    case _ => 0
  }

  /** `MM`, `DD`, `HH`, `hh`, `mm` and `ss` are always exactly two digits, reading back as their field. */
  lemma TwoDigitFields(t: Token, now: Clock, months: MonthNames)
    requires TwelveMonths(months) && IsTwoDigit(t)
    ensures |Component(t, now, months)| == 2 && AllDigits(Component(t, now, months))
    ensures DigitsValue(Component(t, now, months)) == Field(t, now)
  {
    Hour12Range(now.hour);
    PadTwoDigits(Field(t, now));
  }

  /** The 12-hour clock runs from 1 to 12 and agrees with the 24-hour one modulo 12; AM is exactly before noon. */
  lemma Hour12Range(hour: Hour)
    ensures 1 <= Hour12(hour) <= 12 && Hour12(hour) % 12 == hour % 12
    ensures (hour == 0 || hour == 12) <==> Hour12(hour) == 12
  {
  }

  lemma MeridiemFacts(now: Clock, months: MonthNames)
    requires TwelveMonths(months)
    ensures Component(UpperMeridiem, now, months) == "AM" <==> now.hour < 12
    ensures Component(LowerMeridiem, now, months) == "am" <==> now.hour < 12
  {
  }

  /** `YY` is the last two characters of `YYYY` (all of it for a year of one digit). */
  lemma YearFields(now: Clock, months: MonthNames)
    requires TwelveMonths(months)
    ensures var full := Component(Year4, now, months);
      var short := Component(Year2, now, months);
      && |short| == (if |full| >= 2 then 2 else |full|)
      && full == full[..|full| - |short|] + short
  {
  }

  /** A format without placeholder characters comes back unchanged. */
  lemma {:induction false} RenderPlainText(s: string, now: Clock, months: MonthNames)
    requires TwelveMonths(months)
    requires forall i :: 0 <= i < |s| ==> s[i] !in "YMDHhmsAa"
    ensures Render(Tokenize(s), now, months) == s
    decreases |s|
  {
    if s != [] {
      NoPatternAt(s);
      RenderPlainText(s[1..], now, months);
      assert s == [s[0]] + s[1..];
    }
  }

  lemma NoPatternAt(s: string)
    requires s != [] && s[0] !in "YMDHhmsAa"
    ensures MatchAt(s).None?
  {
  }

  /** `getTimestamp("DD/MM/YYYY")` on 5 March 2023. */
  lemma GetTimestampExample(format: string, now: Clock)
    requires format == "DD/MM/YYYY" && now.year == 2023 && now.month == 2 && now.day == 5
    ensures GetTimestamp(Str(format), Undefined, now) == Ok("05/03/2023")
  {
    TrimExample();
    TokenizeExample(format);
    RenderExample(now);
  }

  lemma TrimExample()
    ensures JsText.Trim("DD/MM/YYYY") != ""
  {
    assert JsText.TrimStart("DD/MM/YYYY") == "DD/MM/YYYY";
  }

  lemma ComponentsExample(now: Clock)
    requires now.year == 2023 && now.month == 2 && now.day == 5
    ensures Component(Day2, now, UruguayanMonths) == "05"
    ensures Component(Month2, now, UruguayanMonths) == "03"
    ensures Component(Year4, now, UruguayanMonths) == "2023"
  {
    assert NatToDecimal(2023) == "2023";
  }

  lemma RenderExample(now: Clock)
    requires now.year == 2023 && now.month == 2 && now.day == 5
    ensures Render([Tok(Day2), Lit('/'), Tok(Month2), Lit('/'), Tok(Year4)], now, UruguayanMonths) == "05/03/2023"
  {
    var m := UruguayanMonths;
    ComponentsExample(now);
    var ps := [Tok(Day2), Lit('/'), Tok(Month2), Lit('/'), Tok(Year4)];
    assert Render(ps[4..], now, m) == "2023";
    assert Render(ps[3..], now, m) == "/2023";
    assert Render(ps[2..], now, m) == "03/2023";
    assert Render(ps[1..], now, m) == "/03/2023";
  }

  /** One step of the scan at a placeholder. */
  lemma TokenizeAt(s: string, t: Token)
    requires MatchAt(s) == Some(t)
    ensures Tokenize(s) == [Tok(t)] + Tokenize(s[|Pattern(t)|..])
  {
  }

  /** One step of the scan at a character copied as it is. */
  lemma TokenizeCopies(s: string)
    requires s != [] && s[0] !in "YMDHhmsAa"
    ensures Tokenize(s) == [Lit(s[0])] + Tokenize(s[1..])
  {
    NoPatternAt(s);
  }

  /** `MM` followed by another character is the two-digit month, not a longer alternative. */
  lemma MatchTwoLetterMonth(s: string)
    requires |s| >= 3 && s[0] == 'M' && s[1] == 'M' && s[2] != 'M'
    ensures MatchAt(s) == Some(Month2)
  {
    assert !JsText.StartsWith(s, "MMMM") by {
      if |s| >= 4 { assert s[..4][2] != "MMMM"[2]; }
    }
    assert !JsText.StartsWith(s, "MMM") by {
      assert s[..3][2] != "MMM"[2];
    }
    assert JsText.StartsWith(s, "MM");
    var g := Groups[1];
    assert g == [MonthName, MonthShort, Month2, Month1];
    assert g[1..][1..] == [Month2, Month1];
    assert FirstMatch(s, g[1..][1..]) == Some(Month2);
    assert FirstMatch(s, g[1..]) == Some(Month2);
    assert FirstMatch(s, g) == Some(Month2);
  }

  /** `DD` is the first alternative of its group. */
  lemma MatchDay2(s: string)
    requires |s| >= 2 && s[0] == 'D' && s[1] == 'D'
    ensures MatchAt(s) == Some(Day2)
  {
    assert JsText.StartsWith(s, "DD") by {
      assert s[..2] == "DD";
    }
    assert Groups[2] == [Day2, Day1];
  }

  /** `YYYY` is the first alternative of its group. */
  lemma MatchYear4(s: string)
    requires |s| >= 4 && s[..4] == "YYYY"
    ensures MatchAt(s) == Some(Year4)
  {
    assert s[0] == 'Y';
    assert Groups[0] == [Year4, Year2];
  }

  lemma TokenizeExample(f: string)
    requires f == "DD/MM/YYYY"
    ensures Tokenize(f) == [Tok(Day2), Lit('/'), Tok(Month2), Lit('/'), Tok(Year4)]
  {
    MatchYear4(f[6..]);
    TokenizeAt(f[6..], Year4);
    assert f[6..][4..] == [];
    TokenizeCopies(f[5..]);
    assert f[5..][1..] == f[6..];
    MatchTwoLetterMonth(f[3..]);
    TokenizeAt(f[3..], Month2);
    assert f[3..][2..] == f[5..];
    TokenizeCopies(f[2..]);
    assert f[2..][1..] == f[3..];
    MatchDay2(f);
    TokenizeAt(f, Day2);
  }

  /** A month name is not scanned again: `MMMM` in March, in Spanish, is "Marzo", its `M` kept. */
  lemma GetTimestampNoRescan(now: Clock)
    requires now.month == 2
    ensures Render(Tokenize("MMMM"), now, SpanishMonths) == "Marzo"
  {
    assert MatchAt("MMMM") == Some(MonthName);
    assert "MMMM"[4..] == [];
    assert Tokenize("MMMM") == [Tok(MonthName)];
  }
}
