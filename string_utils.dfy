/**
 * Slugs and the ISO date-time predicate of StringUtils.js: `toSlug`, the
 * memoising `toSlugMemoized` over the module-level `slugCache` object, and
 * `isISODateString`.
 */
module StringUtils {
  import opened JsValues
  import JsText
  import JsNumbers

  predicate IsAsciiAlnum(c: char)
  {
    'a' <= c <= 'z' || 'A' <= c <= 'Z' || '0' <= c <= '9'
  }

  /** The characters the class `[a-zA-Z0-9_]` accepts. */
  predicate IsWordChar(c: char)
  {
    IsAsciiAlnum(c) || c == '_'
  }

  /** A character a slug may contain: `[a-z0-9_]`. */
  predicate IsSlugChar(c: char)
  {
    'a' <= c <= 'z' || '0' <= c <= '9' || c == '_'
  }

  /** What `toSlug` promises of its result: `[a-z0-9_]` only, no `_` at either end, no `__`. */
  predicate IsSlug(s: string)
  {
    && (forall i :: 0 <= i < |s| ==> IsSlugChar(s[i]))
    && (s == [] || (s[0] != '_' && s[|s| - 1] != '_'))
    && (forall i :: 0 <= i < |s| - 1 ==> !(s[i] == '_' && s[i + 1] == '_'))
  }

  /**
   * `normalize("NFD")` followed by the removal of every `\p{Diacritic}`
   * code point, on ASCII text: decomposition changes nothing, and the only
   * ASCII code points with the Diacritic property are `^` and the backquote,
   * which are dropped.
   */
  function StripMarks(s: string): (r: string)
    ensures forall c :: c in r <==> c in s && c != '^' && c != '`'
  {
    if s == [] then []
    else (if s[0] == '^' || s[0] == '`' then [] else [s[0]]) + StripMarks(s[1..])
  }

  /**
   * The replacement table: a character with an entry becomes its name
   * between underscores. The table lists the double quote twice; the later
   * entry, `_dquote_`, is the one that stays.
   */
  function Replacement(c: char): (r: string)
    ensures IsWordChar(c) ==> r == [c]
  {
    // No entry of the table is a word character.
    if IsWordChar(c) then [c]
    else match c
    case '<' => "_lt_"
    case '>' => "_gt_"
    case '+' => "_plus_"
    case '%' => "_percent_"
    case '&' => "_and_"
    case '/' => "_slash_"
    case '\\' => "_backslash_"
    case '=' => "_eq_"
    case '!' => "_excl_"
    case '?' => "_q_"
    case ':' => "_colon_"
    case ';' => "_semicolon_"
    case '"' => "_dquote_"
    case '\'' => "_apos_"
    case ',' => "_comma_"
    case '.' => "_dot_"
    case '(' => "_lpar_"
    case ')' => "_rpar_"
    case '[' => "_lbracket_"
    case ']' => "_rbracket_"
    case '{' => "_lbrace_"
    case '}' => "_rbrace_"
    case '|' => "_pipe_"
    case '#' => "_hash_"
    case '@' => "_at_"
    case '^' => "_caret_"
    case '~' => "_tilde_"
    case '*' => "_star_"
    case '$' => "_dollar_"
    case '`' => "_backtick_"
    case _ => [c]
  }

  /** `split("").map(char => replacements[char] ?? char).join("")`. */
  function ReplaceSpecials(s: string): string
  {
    if s == [] then [] else Replacement(s[0]) + ReplaceSpecials(s[1..])
  }

  /** Drops the leading characters outside `[a-zA-Z0-9_]`. */
  function DropNonWord(s: string): (r: string)
    ensures |r| <= |s| && r == s[|s| - |r|..]
    ensures r == [] || IsWordChar(r[0])
  {
    if s != [] && !IsWordChar(s[0]) then DropNonWord(s[1..]) else s
  }

  /** `replace(/[^a-zA-Z0-9_]+/g, "_")`: every maximal run of other characters becomes one `_`. */
  function CollapseNonWord(s: string): (r: string)
    ensures forall i :: 0 <= i < |r| ==> IsWordChar(r[i])
    decreases |s|
  {
    if s == [] then []
    else if IsWordChar(s[0]) then [s[0]] + CollapseNonWord(s[1..])
    else "_" + CollapseNonWord(DropNonWord(s[1..]))
  }

  function DropLeadingUnderscores(s: string): (r: string)
    ensures |r| <= |s| && r == s[|s| - |r|..]
    ensures r == [] || r[0] != '_'
    ensures forall i :: 0 <= i < |s| - |r| ==> s[i] == '_'
  {
    if s != [] && s[0] == '_' then DropLeadingUnderscores(s[1..]) else s
  }

  function DropTrailingUnderscores(s: string): (r: string)
    ensures |r| <= |s| && r == s[..|r|]
    ensures r == [] || r[|r| - 1] != '_'
  {
    if s != [] && s[|s| - 1] == '_' then DropTrailingUnderscores(s[..|s| - 1]) else s
  }

  /** `replace(/^_+|_+$/g, "")`. */
  function TrimUnderscores(s: string): string
  {
    DropTrailingUnderscores(DropLeadingUnderscores(s))
  }

  /** `replace(/_+/g, "_")`: every run of underscores becomes one. */
  function CollapseUnderscores(s: string): (r: string)
    ensures forall i :: 0 <= i < |r| - 1 ==> !(r[i] == '_' && r[i + 1] == '_')
    ensures r == [] <==> s == []
    ensures r != [] ==> r[0] == s[0] && (r[|r| - 1] == '_' <==> s[|s| - 1] == '_')
    decreases |s|
  {
    if s == [] then []
    else if s[0] == '_' then
      var u := DropLeadingUnderscores(s[1..]);
      var c := CollapseUnderscores(u);
      assert u == [] ==> s[|s| - 1] == '_' by {
        if u == [] && |s| > 1 {
          assert s[1..][|s| - 2] == '_';
        }
      }
      assert u != [] ==> u[|u| - 1] == s[|s| - 1];
      "_" + c
    else
      var c := CollapseUnderscores(s[1..]);
      assert s[1..] != [] ==> s[1..][|s[1..]| - 1] == s[|s| - 1];
      [s[0]] + c
  }

  /**
   * `toSlug(text)`: "" for anything that is not a string; otherwise the
   * marks step, the replacement table, the three regular-expression
   * rewrites and `toLowerCase`, in that order.
   */
  function ToSlug(text: Value): string
  {
    if !text.Str? then ""
    else
      JsText.ToLower(CollapseUnderscores(TrimUnderscores(CollapseNonWord(ReplaceSpecials(StripMarks(text.s))))))
  }

  // ---------------------------------------------------------------------
  // The shape of a slug

  lemma DropNonWordWord(s: string)
    requires forall i :: 0 <= i < |s| ==> IsWordChar(s[i])
    ensures DropNonWord(s) == s
  {
  }

  lemma TrimUnderscoresShape(s: string)
    requires forall i :: 0 <= i < |s| ==> IsWordChar(s[i])
    ensures var t := TrimUnderscores(s);
      (forall i :: 0 <= i < |t| ==> IsWordChar(t[i])) && (t == [] || (t[0] != '_' && t[|t| - 1] != '_'))
  {
    var u := DropLeadingUnderscores(s);
    var t := DropTrailingUnderscores(u);
    if t != [] {
      assert t[0] == u[0];
    }
  }

  /** Collapsing underscores introduces no character outside `[a-zA-Z0-9_]`. */
  lemma {:induction false} CollapseUnderscoresWord(s: string)
    requires forall i :: 0 <= i < |s| ==> IsWordChar(s[i])
    ensures forall i :: 0 <= i < |CollapseUnderscores(s)| ==> IsWordChar(CollapseUnderscores(s)[i])
    decreases |s|
  {
    if s != [] {
      if s[0] == '_' {
        var u := DropLeadingUnderscores(s[1..]);
        assert forall i :: 0 <= i < |u| ==> u[i] == s[|s| - |u| + i];
        CollapseUnderscoresWord(u);
        assert CollapseUnderscores(s) == "_" + CollapseUnderscores(u);
      } else {
        CollapseUnderscoresWord(s[1..]);
        assert CollapseUnderscores(s) == [s[0]] + CollapseUnderscores(s[1..]);
      }
    }
  }

  /** `toLowerCase` on word characters gives slug characters and keeps every `_` where it was. */
  lemma LowerWordChars(s: string)
    requires forall i :: 0 <= i < |s| ==> IsWordChar(s[i])
    ensures var r := JsText.ToLower(s);
      |r| == |s| && (forall i :: 0 <= i < |r| ==> IsSlugChar(r[i]) && (r[i] == '_' <==> s[i] == '_'))
  {
  }

  /** Every result of `toSlug` is a slug. */
  lemma ToSlugIsSlug(text: Value)
    ensures IsSlug(ToSlug(text))
  {
    if text.Str? {
      CleanupShape(CollapseNonWord(ReplaceSpecials(StripMarks(text.s))));
    }
  }

  /** The last three steps of `toSlug` turn any string of word characters into a slug. */
  lemma CleanupShape(c: string)
    requires forall i :: 0 <= i < |c| ==> IsWordChar(c[i])
    ensures IsSlug(JsText.ToLower(CollapseUnderscores(TrimUnderscores(c))))
  {
    var t := TrimUnderscores(c);
    TrimUnderscoresShape(c);
    var u := CollapseUnderscores(t);
    CollapseUnderscoresWord(t);
    assert forall i :: 0 <= i < |u| ==> IsWordChar(u[i]);
    LowerShape(u);
  }

  /** Lower-casing a string of word characters without edge or doubled underscores gives a slug. */
  lemma LowerShape(u: string)
    requires forall i :: 0 <= i < |u| ==> IsWordChar(u[i])
    requires u == [] || (u[0] != '_' && u[|u| - 1] != '_')
    requires forall i :: 0 <= i < |u| - 1 ==> !(u[i] == '_' && u[i + 1] == '_')
    ensures IsSlug(JsText.ToLower(u))
  {
    var r := JsText.ToLower(u);
    LowerWordChars(u);
    assert forall i :: 0 <= i < |r| ==> (r[i] == '_' <==> u[i] == '_');
  }

  // ---------------------------------------------------------------------
  // A slug is its own slug

  lemma StripMarksOfSlug(s: string)
    requires forall i :: 0 <= i < |s| ==> IsSlugChar(s[i])
    ensures StripMarks(s) == s
  {
  }

  lemma ReplaceSpecialsOfSlug(s: string)
    requires forall i :: 0 <= i < |s| ==> IsSlugChar(s[i])
    ensures ReplaceSpecials(s) == s
  {
    if s != [] {
      assert Replacement(s[0]) == [s[0]];
      ReplaceSpecialsOfSlug(s[1..]);
    }
  }

  lemma CollapseNonWordOfWord(s: string)
    requires forall i :: 0 <= i < |s| ==> IsWordChar(s[i])
    ensures CollapseNonWord(s) == s
  {
  }

  lemma TrimUnderscoresOfSlug(s: string)
    requires s == [] || (s[0] != '_' && s[|s| - 1] != '_')
    ensures TrimUnderscores(s) == s
  {
    assert DropLeadingUnderscores(s) == s;
    assert DropTrailingUnderscores(s) == s;
  }

  lemma {:induction false} CollapseUnderscoresOfSlug(s: string)
    requires forall i :: 0 <= i < |s| - 1 ==> !(s[i] == '_' && s[i + 1] == '_')
    ensures CollapseUnderscores(s) == s
    decreases |s|
  {
    if s != [] {
      CollapseUnderscoresOfSlug(s[1..]);
      if s[0] == '_' {
        assert DropLeadingUnderscores(s[1..]) == s[1..];
      }
    }
  }

  lemma ToLowerOfSlug(s: string)
    requires forall i :: 0 <= i < |s| ==> IsSlugChar(s[i])
    ensures JsText.ToLower(s) == s
  {
  }

  /** A slug is left unchanged by `toSlug`. */
  lemma ToSlugOfSlug(s: string)
    requires IsSlug(s)
    ensures ToSlug(Str(s)) == s
  {
    StripMarksOfSlug(s);
    ReplaceSpecialsOfSlug(s);
    CollapseNonWordOfWord(s);
    TrimUnderscoresOfSlug(s);
    CollapseUnderscoresOfSlug(s);
    ToLowerOfSlug(s);
  }

  /** `toSlug` is idempotent. */
  lemma ToSlugIdempotent(text: Value)
    ensures ToSlug(Str(ToSlug(text))) == ToSlug(text)
  {
    ToSlugIsSlug(text);
    ToSlugOfSlug(ToSlug(text));
  }

  /** Anything that is not a string has the empty slug. */
  lemma ToSlugOfNonString(text: Value)
    requires !text.Str?
    ensures ToSlug(text) == ""
  {
  }

  // ---------------------------------------------------------------------
  // toSlugMemoized and slugCache

  /**
   * The members every plain object such as `slugCache` inherits from
   * `Object.prototype`; reading one of these names from the cache finds the
   * inherited function (or, for `__proto__`, the prototype object).
   */
  const ObjectPrototypeMembers: set<string> := {
    "constructor", "__proto__", "toString", "toLocaleString", "valueOf",
    "hasOwnProperty", "isPrototypeOf", "propertyIsEnumerable",
    "__defineGetter__", "__defineSetter__", "__lookupGetter__", "__lookupSetter__"}

  /** What reading `slugCache[key]` finds. */
  datatype CacheRead = Own(slug: string) | Inherited(name: string) | Missing

  /** What `toSlugMemoized` returns: a string, or a member inherited from `Object.prototype`. */
  datatype Memoized = Text(s: string) | InheritedMember(name: string)

  /** `slugCache[key]`, where `entries` are the cache's own properties. */
  function ReadCache(entries: map<string, string>, key: string): (r: CacheRead)
    ensures r.Missing? <==> key !in entries && key !in ObjectPrototypeMembers
  {
    if key in entries then Own(entries[key])
    else if key in ObjectPrototypeMembers then Inherited(key)
    else Missing
  }

  /** The cache only ever holds true slugs, under names that are not inherited members. */
  predicate ValidCache(entries: map<string, string>)
  {
    forall k :: k in entries ==> k !in ObjectPrototypeMembers && entries[k] == ToSlug(Str(k))
  }

  /**
   * The cache after `toSlugMemoized(text)`: the slug is stored when the
   * read finds nothing or the empty string (`!slugCache[text]`).
   */
  function MemoizedEntries(entries: map<string, string>, text: Value): map<string, string>
  {
    if !text.Str? then entries
    else
      var found := ReadCache(entries, text.s);
      if found.Missing? || found == Own("") then entries[text.s := ToSlug(text)] else entries
  }

  /** The result of `toSlugMemoized(text)`: what the cache holds for `text` after the call. */
  function MemoizedResult(entries: map<string, string>, text: Value): Memoized
  {
    if !text.Str? then Text("")
    else
      var found := ReadCache(MemoizedEntries(entries, text), text.s);
      if found.Inherited? then InheritedMember(found.name)
      else if found.Own? then Text(found.slug)
      else Text("")
  }

  /**
   * For text that is not the name of an inherited member, the cache after
   * `toSlugMemoized` holds `toSlug(text)` for `text`, no other entry changes
   * and the cache stays valid.
   */
  lemma MemoizedStoresSlug(entries: map<string, string>, text: Value)
    requires ValidCache(entries)
    requires text.Str? ==> text.s !in ObjectPrototypeMembers
    ensures text.Str? ==> MemoizedEntries(entries, text) == entries[text.s := ToSlug(text)]
    ensures !text.Str? ==> MemoizedEntries(entries, text) == entries
  {
    if text.Str? {
      var key := text.s;
      assert text == Str(key);
      if key !in entries {
        MemoizedEntriesOfNewKey(entries, key);
      } else if entries[key] == "" {
        MemoizedEntriesOfEmptySlug(entries, key);
      } else {
        MemoizedEntriesOfStoredSlug(entries, key);
        MapUpdateSame(entries, key);
      }
    }
  }

  /** The cache stays valid through `toSlugMemoized` of text that is not the name of an inherited member. */
  lemma MemoizedKeepsCacheValid(entries: map<string, string>, text: Value)
    requires ValidCache(entries)
    requires text.Str? ==> text.s !in ObjectPrototypeMembers
    ensures ValidCache(MemoizedEntries(entries, text))
  {
    MemoizedStoresSlug(entries, text);
    if text.Str? {
      ValidCacheUpdate(entries, text.s, ToSlug(text));
    }
  }

  /** A string the cache has never seen, and that is not an inherited name, gets its slug stored. */
  lemma MemoizedEntriesOfNewKey(entries: map<string, string>, key: string)
    requires key !in entries && key !in ObjectPrototypeMembers
    ensures MemoizedEntries(entries, Str(key)) == entries[key := ToSlug(Str(key))]
  {
    assert ReadCache(entries, key).Missing?;
  }

  /** An entry holding the empty string counts as missing (`!slugCache[text]`), so the slug is stored again. */
  lemma MemoizedEntriesOfEmptySlug(entries: map<string, string>, key: string)
    requires key in entries && entries[key] == ""
    ensures MemoizedEntries(entries, Str(key)) == entries[key := ToSlug(Str(key))]
  {
    assert ReadCache(entries, key) == Own("");
  }

  /** An entry holding a non-empty string is returned as it is and the cache is not changed. */
  lemma MemoizedEntriesOfStoredSlug(entries: map<string, string>, key: string)
    requires key in entries && entries[key] != ""
    ensures MemoizedEntries(entries, Str(key)) == entries
  {
    assert ReadCache(entries, key) == Own(entries[key]);
  }

  lemma MapUpdateSame(m: map<string, string>, key: string)
    requires key in m
    ensures m[key := m[key]] == m
  {
  }

  /** Storing a key's own slug under a name that is not inherited keeps the cache valid. */
  lemma ValidCacheUpdate(entries: map<string, string>, key: string, slug: string)
    requires ValidCache(entries)
    requires key !in ObjectPrototypeMembers && slug == ToSlug(Str(key))
    ensures ValidCache(entries[key := slug])
  {
  }

  /** For text that is not the name of an inherited member, `toSlugMemoized` returns `toSlug(text)`. */
  lemma MemoizedIsToSlug(entries: map<string, string>, text: Value)
    requires ValidCache(entries)
    requires text.Str? ==> text.s !in ObjectPrototypeMembers
    ensures MemoizedResult(entries, text) == Text(ToSlug(text))
  {
    MemoizedStoresSlug(entries, text);
  }

  /**
   * As written, `toSlugMemoized` called with the name of a member of
   * `Object.prototype` returns that inherited member and stores nothing.
   */
  lemma MemoizedInheritedName(entries: map<string, string>, name: string)
    requires ValidCache(entries)
    requires name in ObjectPrototypeMembers
    ensures MemoizedResult(entries, Str(name)) == InheritedMember(name)
    ensures MemoizedEntries(entries, Str(name)) == entries
  {
  }

  /** `toSlugMemoized("constructor")` is not `toSlug("constructor")`. */
  lemma MemoizedConstructorDiffers(entries: map<string, string>)
    requires ValidCache(entries)
    ensures MemoizedResult(entries, Str("constructor")) != Text(ToSlug(Str("constructor")))
  {
    MemoizedInheritedName(entries, "constructor");
  }

  /** `slugCache` and `toSlugMemoized` as written: a plain object read with `slugCache[text]`. */
  class SlugCache {
    var entries: map<string, string>

    predicate Valid()
      reads this
    {
      ValidCache(entries)
    }

    constructor()
      ensures entries == map[] && Valid()
    {
      entries := map[];
    }

    method ToSlugMemoized(text: Value) returns (r: Memoized)
      requires Valid()
      modifies this
      ensures r == MemoizedResult(old(entries), text)
      ensures entries == MemoizedEntries(old(entries), text)
      ensures Valid()
    {
      if !text.Str? {
        return Text("");
      }
      var found := ReadCache(entries, text.s);
      if found.Missing? || found == Own("") {
        entries := entries[text.s := ToSlug(text)];
      }
      found := ReadCache(entries, text.s);
      if found.Inherited? {
        r := InheritedMember(found.name);
      } else if found.Own? {
        r := Text(found.slug);
      } else {
        r := Text("");
      }
    }
  }

  /** Every entry of `m` holds the slug of its key. */
  predicate HoldsSlugs(m: map<string, string>)
  {
    forall k :: k in m ==> m[k] == ToSlug(Str(k))
  }

  lemma HoldsSlugsUpdate(m: map<string, string>, key: string, slug: string)
    requires HoldsSlugs(m) && slug == ToSlug(Str(key))
    ensures HoldsSlugs(m[key := slug])
  {
  }

  /**
   * The cache with the evident intent: only the cache's own entries are
   * consulted (a `Map`, or `Object.hasOwn`), so every string gets its slug.
   */
  class OwnSlugCache {
    var entries: map<string, string>

    predicate Valid()
      reads this
    {
      HoldsSlugs(entries)
    }

    constructor()
      ensures entries == map[] && Valid()
    {
      entries := map[];
    }

    method ToSlugMemoized(text: Value) returns (r: string)
      requires Valid()
      modifies this
      ensures r == ToSlug(text)
      ensures text.Str? && text.s !in old(entries) ==> entries == old(entries)[text.s := r]
      ensures !text.Str? || text.s in old(entries) ==> entries == old(entries)
      ensures text.Str? ==> text.s in entries && entries[text.s] == r
      ensures Valid()
    {
      if !text.Str? {
        return "";
      }
      var key := text.s;
      assert text == Str(key);
      if key in entries {
        r := entries[key];
      } else {
        r := ToSlug(Str(key));
        HoldsSlugsUpdate(entries, key, r);
        entries := entries[key := r];
      }
    }
  }

  // ---------------------------------------------------------------------
  // isISODateString

  /** One position of a regular expression without quantifiers beyond fixed counts. */
  datatype CharClass = Digit | Exactly(c: char) | AnyButLineTerminator

  predicate InClass(c: char, k: CharClass)
  {
    match k
    case Digit => JsNumbers.IsDigit(c)
    case Exactly(d) => c == d
    case AnyButLineTerminator => c != '\n' && c != '\r' && c != '\U{2028}' && c != '\U{2029}'
  }

  /** `/^\d{4}-\d{2}-\d{2}T\d{2}:\d{2}:\d{2}.\d{3}Z$/`, one class per position. */
  const IsoPattern: seq<CharClass> := [
    Digit, Digit, Digit, Digit, Exactly('-'), Digit, Digit, Exactly('-'), Digit, Digit,
    Exactly('T'), Digit, Digit, Exactly(':'), Digit, Digit, Exactly(':'), Digit, Digit,
    AnyButLineTerminator, Digit, Digit, Digit, Exactly('Z')]

  /** The whole of `s` matches the fixed-length pattern `p` (anchored at both ends). */
  predicate MatchesWhole(s: string, p: seq<CharClass>)
  {
    |s| == |p| && forall i :: 0 <= i < |s| ==> InClass(s[i], p[i])
  }

  /** `isISODateString(v)`. */
  predicate IsISODateString(v: Value)
  {
    v.Str? && MatchesWhole(v.s, IsoPattern)
  }

  predicate AllDigitsAt(s: string, lo: nat, hi: nat)
    requires lo <= hi <= |s|
  {
    forall i :: lo <= i < hi ==> JsNumbers.IsDigit(s[i])
  }

  /**
   * `isISODateString` accepts exactly the strings of 24 characters shaped
   * `dddd-dd-ddTdd:dd:dd?dddZ`, where `?` is any character other than a
   * line terminator, and nothing that is not a string.
   */
  lemma IsISODateStringShape(v: Value)
    ensures IsISODateString(v) <==>
      v.Str? && |v.s| == 24
      && AllDigitsAt(v.s, 0, 4) && v.s[4] == '-' && AllDigitsAt(v.s, 5, 7) && v.s[7] == '-'
      && AllDigitsAt(v.s, 8, 10) && v.s[10] == 'T' && AllDigitsAt(v.s, 11, 13) && v.s[13] == ':'
      && AllDigitsAt(v.s, 14, 16) && v.s[16] == ':' && AllDigitsAt(v.s, 17, 19)
      && InClass(v.s[19], AnyButLineTerminator) && AllDigitsAt(v.s, 20, 23) && v.s[23] == 'Z'
  {
    if v.Str? && |v.s| == 24 {
      var s := v.s;
      if MatchesWhole(s, IsoPattern) {
        assert forall i :: 0 <= i < 24 ==> InClass(s[i], IsoPattern[i]);
      }
    }
  }
}
