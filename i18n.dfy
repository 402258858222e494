/** The frontend's translations: `{word}` interpolation, the lookup chain of
    `t`, the initial locale and `setLocale`. The two translation tables are
    parameters. */
module I18n {
  import opened Wrappers
  import Text
  import UrlParams
  import LocalStorage

  const LocaleKey: string := "locale"

  datatype Locale = En | Zh

  /** The locale's code, as stored and as used in `?lang=`. */
  function Code(locale: Locale): string {
    match locale
    case En => "en"
    case Zh => "zh"
  }

  /** `value === 'en' || value === 'zh'` */
  function ParseLocale(value: string): (r: Option<Locale>)
    ensures r.Some? ==> Code(r.value) == value
  {
    if value == "en" then Some(En) else if value == "zh" then Some(Zh) else None
  }

  /** Codes and locales correspond one to one. */
  lemma CodeRoundTrip(locale: Locale)
    ensures ParseLocale(Code(locale)) == Some(locale)
  {
  }

  /** `document.documentElement.lang` */
  function LocaleTag(locale: Locale): (tag: string)
    ensures tag == "zh-CN" <==> locale == Zh
    ensures locale == En ==> tag == "en"
  {
    if locale == Zh then "zh-CN" else "en"
  }

  /** The `og:locale` meta value. */
  function OpenGraphLocale(locale: Locale): (tag: string)
    ensures tag == "zh_CN" <==> locale == Zh
    ensures locale == En ==> tag == "en_US"
  {
    if locale == Zh then "zh_CN" else "en_US"
  }

  // ----- interpolate -----

  /** `\w`: ASCII letters, digits and `_`. */
  predicate IsWordChar(c: char) {
    'a' <= c <= 'z' || 'A' <= c <= 'Z' || '0' <= c <= '9' || c == '_'
  }

  /** Length of the run of word characters that starts `s`. */
  function WordRun(s: string): (n: nat)
    ensures n <= |s|
    ensures forall i :: 0 <= i < n ==> IsWordChar(s[i])
    ensures n < |s| ==> !IsWordChar(s[n])
    decreases |s|
  {
    if s != [] && IsWordChar(s[0]) then 1 + WordRun(s[1..]) else 0
  }

  /** A run of word characters followed by anything else is measured exactly. */
  lemma {:induction false} WordRunOf(key: string, rest: string)
    requires forall i :: 0 <= i < |key| ==> IsWordChar(key[i])
    requires rest != [] && !IsWordChar(rest[0])
    ensures WordRun(key + rest) == |key|
    decreases |key|
  {
    if key != [] {
      assert (key + rest)[1..] == key[1..] + rest;
      WordRunOf(key[1..], rest);
    }
  }

  /** The length of the key when `s` starts with a `{word}` placeholder. */
  function Placeholder(s: string): (r: Option<nat>)
    ensures r.Some? ==> 0 < r.value && r.value + 2 <= |s| && s[0] == '{' && s[r.value + 1] == '}'
    ensures r.Some? ==> forall i :: 1 <= i <= r.value ==> IsWordChar(s[i])
  {
    if s == [] || s[0] != '{' then None
    else
      var n := WordRun(s[1..]);
      if 0 < n && n + 1 < |s| && s[n + 1] == '}' then Some(n) else None
  }

  /** The text that replaces `{key}`: the variable's value, or the placeholder
      itself when the variable is absent. */
  function VarText(vars: map<string, string>, key: string): string {
    if key in vars then vars[key] else "{" + key + "}"
  }

  /** `template.replace(/\{(\w+)\}/g, ...)`: a left-to-right scan; replaced
      text is never scanned again. */
  function Substitute(s: string, vars: map<string, string>): string
    decreases |s|
  {
    if s == [] then []
    else match Placeholder(s)
      case Some(n) => VarText(vars, s[1..n + 1]) + Substitute(s[n + 2..], vars)
      case None => [s[0]] + Substitute(s[1..], vars)
  }

  /** `interpolate(template, vars)`; `None` is a missing `vars` argument. */
  function Interpolate(template: string, vars: Option<map<string, string>>): (r: string)
    ensures vars.None? ==> r == template
  {
    if vars.None? then template else Substitute(template, vars.value)
  }

  /** Without variables, or with an empty set of them, the template comes back
      unchanged: every placeholder is left verbatim. */
  lemma {:induction false} InterpolateNoVars(template: string, vars: Option<map<string, string>>)
    requires vars.None? || vars.value == map[]
    ensures Interpolate(template, vars) == template
  {
    if vars.Some? {
      SubstituteNoVars(template);
    }
  }

  lemma {:induction false} SubstituteNoVars(s: string)
    ensures Substitute(s, map[]) == s
    decreases |s|
  {
    if s != [] {
      match Placeholder(s)
      case Some(n) =>
        SubstituteNoVars(s[n + 2..]);
        PlaceholderVerbatim(s, n);
      case None =>
        SubstituteNoVars(s[1..]);
        assert s == [s[0]] + s[1..];
    }
  }

  /** An absent variable's placeholder is written back as it was. */
  lemma PlaceholderVerbatim(s: string, n: nat)
    requires n + 2 <= |s| && s[0] == '{' && s[n + 1] == '}'
    ensures VarText(map[], s[1..n + 1]) + s[n + 2..] == s
  {
    assert s[..n + 2] == [s[0]] + s[1..n + 1] + [s[n + 1]];
    assert s == s[..n + 2] + s[n + 2..];
  }

  /** Text without `{` is never changed. */
  lemma {:induction false} SubstitutePlain(s: string, vars: map<string, string>)
    requires forall i :: 0 <= i < |s| ==> s[i] != '{'
    ensures Substitute(s, vars) == s
    decreases |s|
  {
    if s != [] {
      SubstitutePlain(s[1..], vars);
      assert s == [s[0]] + s[1..];
    }
  }

  /** A placeholder is replaced by its variable's value, or kept verbatim when
      the variable is absent, and the scan resumes after the placeholder: the
      value itself is not scanned, even when it contains a placeholder. */
  lemma {:induction false} PlaceholderReplaced(key: string, rest: string, vars: map<string, string>)
    requires key != [] && forall i :: 0 <= i < |key| ==> IsWordChar(key[i])
    ensures Substitute("{" + key + "}" + rest, vars) == VarText(vars, key) + Substitute(rest, vars)
    ensures key in vars ==> Substitute("{" + key + "}" + rest, vars) == vars[key] + Substitute(rest, vars)
  {
    var s := "{" + key + "}" + rest;
    assert s[1..] == key + ("}" + rest);
    WordRunOf(key, "}" + rest);
    assert Placeholder(s) == Some(|key|);
    assert s[1..|key| + 1] == key;
    assert s[|key| + 2..] == rest;
  }

  // ----- t -----

  datatype Tables = Tables(en: map<string, string>, zh: map<string, string>)

  function Table(tables: Tables, locale: Locale): map<string, string> {
    match locale
    case En => tables.en
    case Zh => tables.zh
  }

  /** The template `t` uses: the active table's entry, else the English one,
      else the key itself. */
  function Template(tables: Tables, locale: Locale, key: string): (r: string)
    ensures key in Table(tables, locale) ==> r == Table(tables, locale)[key]
    ensures key !in Table(tables, locale) && key in tables.en ==> r == tables.en[key]
    ensures key !in Table(tables, locale) && key !in tables.en ==> r == key
  {
    var active := Table(tables, locale);
    if key in active then active[key] else if key in tables.en then tables.en[key] else key
  }

  /** `t(key, vars)` */
  function T(tables: Tables, locale: Locale, key: string, vars: Option<map<string, string>>): (r: string)
    ensures vars.None? && key !in Table(tables, locale) && key !in tables.en ==> r == key
    ensures vars.None? && key !in Table(tables, locale) && key in tables.en ==> r == tables.en[key]
  {
    Interpolate(Template(tables, locale, key), vars)
  }

  /** A key that neither table has is shown as itself when it holds no `{`,
      whatever the variables. */
  lemma MissingKeyShown(tables: Tables, locale: Locale, key: string, vars: Option<map<string, string>>)
    requires key !in Table(tables, locale) && key !in tables.en
    requires forall i :: 0 <= i < |key| ==> key[i] != '{'
    ensures T(tables, locale, key, vars) == key
  {
    if vars.Some? {
      SubstitutePlain(key, vars.value);
    }
  }

  /** A Chinese entry wins; an English-only entry is the fallback for both
      locales. */
  lemma FallbackToEnglish(tables: Tables, key: string)
    requires key !in tables.zh && key in tables.en
    ensures Template(tables, Zh, key) == Template(tables, En, key) == tables.en[key]
  {
  }

  // ----- getDefaultLocale and setLocale -----

  /** `getDefaultLocale`: a valid `lang` query parameter, else a valid stored
      locale, else Chinese for a browser language starting with `zh`, else
      English. */
  function DefaultLocale(query: UrlParams.Params, stored: Option<string>, navLanguage: string): (r: Locale)
    ensures var lang := UrlParams.Get(query, "lang");
      lang.Some? && ParseLocale(lang.value).Some? ==> r == ParseLocale(lang.value).value
  {
    var lang := UrlParams.Get(query, "lang");
    if lang.Some? && ParseLocale(lang.value).Some? then ParseLocale(lang.value).value
    else if stored.Some? && ParseLocale(stored.value).Some? then ParseLocale(stored.value).value
    else if Text.StartsWith(Text.Lower(navLanguage), "zh") then Zh
    else En
  }

  /** Chinese is chosen only when one of the three sources says so. */
  lemma DefaultLocaleZh(query: UrlParams.Params, stored: Option<string>, navLanguage: string)
    ensures DefaultLocale(query, stored, navLanguage) == Zh <==>
      var lang := UrlParams.Get(query, "lang");
      if lang.Some? && ParseLocale(lang.value).Some? then lang.value == "zh"
      else if stored.Some? && ParseLocale(stored.value).Some? then stored.value == "zh"
      else Text.StartsWith(Text.Lower(navLanguage), "zh")
  {
  }

  /** The provider's locale state. */
  class LocaleState {
    var locale: Locale

    /** The initial locale. */
    constructor (query: UrlParams.Params, storage: LocalStorage.Storage, navLanguage: string)
      ensures locale == DefaultLocale(query, storage.GetItem(LocaleKey), navLanguage)
    {
      locale := DefaultLocale(query, storage.GetItem(LocaleKey), navLanguage);
    }

    /** `setLocale(next)`: becomes active and is remembered under `locale`. */
    method SetLocale(storage: LocalStorage.Storage, next: Locale)
      modifies this, storage
      ensures locale == next
      ensures storage.items == old(storage.items)[LocaleKey := Code(next)]
    {
      locale := next;
      storage.SetItem(LocaleKey, Code(next));
    }
  }

  /** A remembered locale is the one chosen at the next start, unless the
      address carries a valid `lang`. */
  lemma LocaleRemembered(query: UrlParams.Params, items: map<string, string>, navLanguage: string, next: Locale)
    requires var lang := UrlParams.Get(query, "lang"); lang.None? || ParseLocale(lang.value).None?
    ensures var stored := items[LocaleKey := Code(next)];
      DefaultLocale(query, Some(stored[LocaleKey]), navLanguage) == next
  {
  }
}
