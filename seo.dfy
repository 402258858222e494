/** `SeoManager`: the `lang` parameter rules, the canonical and alternate
    links, robots, and the two effects that keep the address and the locale
    in step. Document writes are left to the caller: the model computes what
    is written. */
module Seo {
  import opened Wrappers
  import Text
  import UrlParams
  import I18n

  const EnglishQuery: string := "?lang=en"
  const ChineseQuery: string := "?lang=zh"

  /** `normalizeLangParam`: only `en` and `zh` are kept. */
  function NormalizeLangParam(value: Option<string>): (r: Option<I18n.Locale>)
    ensures r.Some? <==> value == Some("en") || value == Some("zh")
    ensures r.Some? ==> I18n.Code(r.value) == value.value
  {
    if value.None? then None else I18n.ParseLocale(value.value)
  }

  /** What the head receives. */
  datatype Links = Links(canonical: string, enHref: string, zhHref: string, defaultHref: string,
                         imageUrl: string, robots: string, ogLocale: string, inLanguage: string)

  /** The canonical query for a locale: `canonicalParams.set('lang', locale)`
      on empty parameters, serialised. */
  function CanonicalQuery(locale: I18n.Locale): string {
    "?" + UrlParams.Serialize(UrlParams.SetParam([], "lang", I18n.Code(locale)))
  }

  /** The canonical query names the locale's alternate. */
  lemma CanonicalQueryIs(locale: I18n.Locale)
    ensures CanonicalQuery(locale) == (if locale == I18n.Zh then ChineseQuery else EnglishQuery)
  {
  }

  /** The links for a page: URLs are absolute when an origin is known and
      relative otherwise; an empty path is the root. */
  function SeoLinks(origin: string, pathname: string, locale: I18n.Locale): (l: Links)
    ensures var basePath := if pathname == "" then "/" else pathname;
      && l.enHref == origin + basePath + EnglishQuery
      && l.zhHref == origin + basePath + ChineseQuery
      && l.imageUrl == origin + "/og-image.png"
    ensures l.defaultHref == l.enHref
    ensures l.canonical == (if locale == I18n.Zh then l.zhHref else l.enHref)
    ensures l.robots == "noindex,nofollow" <==> Text.StartsWith(if pathname == "" then "/" else pathname, "/admin")
    ensures l.robots != "noindex,nofollow" ==> l.robots == "index,follow"
    ensures l.ogLocale == I18n.OpenGraphLocale(locale) && l.inLanguage == I18n.LocaleTag(locale)
  {
    var basePath := if pathname == "" then "/" else pathname;
    var prefix := if origin != "" then origin + basePath else basePath;
    CanonicalQueryIs(locale);
    var isAdmin := Text.StartsWith(basePath, "/admin");
    Links(prefix + CanonicalQuery(locale), prefix + EnglishQuery, prefix + ChineseQuery, prefix + EnglishQuery,
          (if origin != "" then origin else "") + "/og-image.png",
          if isAdmin then "noindex,nofollow" else "index,follow",
          I18n.OpenGraphLocale(locale), I18n.LocaleTag(locale))
  }

  /** Only the root-relative admin pages are hidden from indexing. */
  lemma AdminHidden(origin: string, rest: string, locale: I18n.Locale)
    ensures SeoLinks(origin, "/admin" + rest, locale).robots == "noindex,nofollow"
    ensures SeoLinks(origin, "", locale).robots == "index,follow"
  {
    assert ("/admin" + rest)[..6] == "/admin";
  }

  // ----- the two effects -----

  /** The router location; the query is already parsed. */
  datatype Location = Location(pathname: string, query: UrlParams.Params, hash: string)

  /** The target of a `navigate(..., {replace: true})`. */
  datatype Navigation = Navigation(pathname: string, search: string, hash: string)

  /** First effect: the locale to switch to, when the address names a valid
      one that differs from the current locale. */
  function LangToAdopt(query: UrlParams.Params, locale: I18n.Locale): (r: Option<I18n.Locale>)
    ensures r.Some? <==> NormalizeLangParam(UrlParams.Get(query, "lang")).Some? && NormalizeLangParam(UrlParams.Get(query, "lang")).value != locale
    ensures r.Some? ==> UrlParams.Get(query, "lang") == Some(I18n.Code(r.value))
  {
    var langParam := NormalizeLangParam(UrlParams.Get(query, "lang"));
    if langParam.Some? && langParam.value != locale then langParam else None
  }

  /** Second effect: when `lang` does not name the current locale, replace the
      address with one whose `lang` does, keeping path, hash and the other
      parameters. */
  method SyncAddress(location: Location, locale: I18n.Locale) returns (nav: Option<Navigation>)
    ensures nav.None? <==> UrlParams.Get(location.query, "lang") == Some(I18n.Code(locale))
    ensures nav.Some? ==> var pairs := UrlParams.SetParam(location.query, "lang", I18n.Code(locale));
      nav.value == Navigation(location.pathname, "?" + UrlParams.Serialize(pairs), location.hash)
  {
    var params := new UrlParams.SearchParams(location.query);
    if params.GetValue("lang") != Some(I18n.Code(locale)) {
      params.Set("lang", I18n.Code(locale));
      var search := UrlParams.Serialize(params.pairs);
      assert search != "" by {
        SerializeNonEmpty(params.pairs);
      }
      nav := Some(Navigation(location.pathname, if search != "" then "?" + search else "", location.hash));
    } else {
      nav := None;
    }
  }

  lemma SerializeNonEmpty(ps: UrlParams.Params)
    requires ps != []
    ensures UrlParams.Serialize(ps) != ""
  {
    assert |ps[0].0 + "=" + ps[0].1| > 0;
  }

  /** After the replacement the address names the locale, so the second
      effect stops, and the other parameters are as before. */
  lemma SyncSettles(location: Location, locale: I18n.Locale)
    ensures var pairs := UrlParams.SetParam(location.query, "lang", I18n.Code(locale));
      && UrlParams.Get(pairs, "lang") == Some(I18n.Code(locale))
      && UrlParams.Without(pairs, "lang") == UrlParams.Without(location.query, "lang")
      && LangToAdopt(pairs, locale).None?
  {
    UrlParams.SetParamProperties(location.query, "lang", I18n.Code(locale));
  }

  /** When the address names the other valid locale, the two effects of one
      render pull in opposite directions: the first adopts the address's
      locale while the second rewrites the address to the current one. */
  lemma EffectsDisagree(location: Location, locale: I18n.Locale)
    requires NormalizeLangParam(UrlParams.Get(location.query, "lang")).Some?
    requires NormalizeLangParam(UrlParams.Get(location.query, "lang")).value != locale
    ensures LangToAdopt(location.query, locale).Some? && LangToAdopt(location.query, locale).value != locale
    ensures UrlParams.Get(location.query, "lang") != Some(I18n.Code(locale))
  {
  }
}
