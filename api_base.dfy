/** The frontend's choice of backend: normalising a base URL, joining it with
    an endpoint, and the official / custom mode kept in `localStorage`. */
module ApiBase {
  import opened Wrappers
  import Text
  import LocalStorage

  const ModeKey: string := "orm_api_mode"
  const CustomBaseKey: string := "orm_api_custom_base"
  const LastBaseKey: string := "orm_api_last_base"
  const TokenKey: string := "admin_token"
  const FallbackBase: string := "/api"

  // ----- normalizeApiBase -----

  predicate AllSlashes(s: string) {
    forall i :: 0 <= i < |s| ==> s[i] == '/'
  }

  /** `value.replace(/\/+$/, '')` */
  function StripTrailingSlash(value: string): (r: string)
    ensures Text.StartsWith(value, r)
    ensures r == [] || r[|r| - 1] != '/'
    ensures AllSlashes(value[|r|..])
    decreases |value|
  {
    if value != [] && value[|value| - 1] == '/' then
      var front := value[..|value| - 1];
      var r := StripTrailingSlash(front);
      assert value[..|r|] == front[..|r|];
      assert value[|r|..] == front[|r|..] + ['/'];
      r
    else value
  }

  /** Only trailing slashes are removed: the text is empty afterwards exactly
      when it was all slashes, and text ending in anything else is kept. */
  lemma {:induction false} StripTrailingSlashExactly(value: string)
    ensures StripTrailingSlash(value) == [] <==> AllSlashes(value)
    ensures value == [] || value[|value| - 1] != '/' ==> StripTrailingSlash(value) == value
  {
    var r := StripTrailingSlash(value);
    if r == [] {
      assert value[|r|..] == value;
    }
  }

  /** Slashes at the end of the second part do not reach into the first. */
  lemma {:induction false} StripTrailingSlashAppend(pre: string, value: string)
    requires StripTrailingSlash(value) != []
    ensures StripTrailingSlash(pre + value) == pre + StripTrailingSlash(value)
    decreases |value|
  {
    if value != [] && value[|value| - 1] == '/' {
      assert (pre + value)[..|pre + value| - 1] == pre + value[..|value| - 1];
      StripTrailingSlashAppend(pre, value[..|value| - 1]);
    } else {
      assert value != [];
    }
  }

  /** `value.endsWith('/api') ? value : value + '/api'` */
  function WithApiSuffix(value: string): (r: string)
    ensures Text.EndsWith(r, "/api")
    ensures Text.EndsWith(value, "/api") ==> r == value
    ensures !Text.EndsWith(value, "/api") ==> r == value + "/api"
  {
    if Text.EndsWith(value, "/api") then value else value + "/api"
  }

  /** `p` starts `s`, ignoring the case of ASCII letters in `s`. */
  predicate StartsWithIgnoringCase(s: string, p: string) {
    |p| <= |s| && forall i :: 0 <= i < |p| ==> Text.LowerChar(s[i]) == p[i]
  }

  /** `/^https?:\/\//i` */
  predicate HasScheme(value: string) {
    StartsWithIgnoringCase(value, "http://") || StartsWithIgnoringCase(value, "https://")
  }

  /** A value with a scheme starts with `h` or `H`. */
  lemma SchemeFirst(value: string)
    requires HasScheme(value)
    ensures value != [] && (value[0] == 'h' || value[0] == 'H')
  {
    assert Text.LowerChar(value[0]) == 'h';
  }

  /** Values the protocol step keeps as they are. */
  predicate KeepsForm(value: string) {
    Text.StartsWith(value, "/") || HasScheme(value)
  }

  predicate IsLocal(value: string) {
    Text.StartsWith(value, "localhost") || Text.StartsWith(value, "127.0.0.1")
  }

  /** The scheme given to a value without one. */
  function InferredScheme(value: string): (scheme: string)
    ensures IsLocal(value) ==> scheme == "http://"
    ensures !IsLocal(value) ==> scheme == "https://"
  {
    if IsLocal(value) then "http://" else "https://"
  }

  /** `normalizeProtocol` */
  function NormalizeProtocol(value: string): (r: string)
    ensures KeepsForm(value) ==> r == value
    ensures !KeepsForm(value) ==> r == InferredScheme(value) + value
  {
    if KeepsForm(value) then value else InferredScheme(value) + value
  }

  /** The protocol step never makes a value start with a slash. */
  lemma ProtocolFirst(value: string)
    requires value != [] && value[0] != '/'
    ensures NormalizeProtocol(value)[0] != '/'
  {
    if HasScheme(value) {
      SchemeFirst(value);
    }
  }

  /** The steps of `normalizeApiBase` after trimming. */
  function NormalizeTrimmed(value: string): (r: Option<string>)
    ensures r.Some? ==> Text.EndsWith(r.value, "/api") && r.value[|r.value| - 1] != '/'
  {
    var stripped := StripTrailingSlash(NormalizeProtocol(value));
    if stripped == "" then None else Some(WithApiSuffix(stripped))
  }

  /** `normalizeApiBase`; `None` is `null`. */
  function NormalizeApiBase(input: string): (r: Option<string>)
    ensures r.Some? ==> Text.EndsWith(r.value, "/api") && r.value[|r.value| - 1] != '/'
  {
    if input == "" then None
    else
      var value := Text.Trim(input);
      if value == "" then None else NormalizeTrimmed(value)
  }

  /** Unfolds `normalizeApiBase` to its trimmed steps. */
  lemma NormalizeApiBaseTrimmed(input: string)
    ensures Text.Trim(input) == [] ==> NormalizeApiBase(input).None?
    ensures Text.Trim(input) != [] ==> NormalizeApiBase(input) == NormalizeTrimmed(Text.Trim(input))
  {
  }

  /** `null` exactly for blank input and for input that is only slashes. */
  lemma {:induction false} NormalizeApiBaseNull(input: string)
    ensures NormalizeApiBase(input).None? <==> Text.Trim(input) == [] || AllSlashes(Text.Trim(input))
  {
    NormalizeApiBaseTrimmed(input);
    var value := Text.Trim(input);
    if value != [] {
      var p := NormalizeProtocol(value);
      StripTrailingSlashExactly(p);
      if value[0] != '/' {
        ProtocolFirst(value);
        assert !AllSlashes(p);
        assert !AllSlashes(value);
      }
    }
  }

  /** The scheme is inferred only for values without one: `http://` for the
      local host, `https://` otherwise, and the rest of the value follows it. */
  lemma {:induction false} NormalizeTrimmedScheme(value: string)
    requires value != [] && !KeepsForm(value)
    ensures NormalizeTrimmed(value) == Some(WithApiSuffix(InferredScheme(value) + StripTrailingSlash(value)))
  {
    var scheme := InferredScheme(value);
    StripTrailingSlashExactly(value);
    assert !AllSlashes(value) by {
      assert value[0] != '/';
    }
    StripTrailingSlashAppend(scheme, value);
  }

  lemma {:induction false} NormalizeApiBaseScheme(input: string)
    requires Text.Trim(input) != [] && !KeepsForm(Text.Trim(input))
    ensures var value := Text.Trim(input);
      && NormalizeApiBase(input).Some?
      && NormalizeApiBase(input).value == WithApiSuffix(InferredScheme(value) + StripTrailingSlash(value))
      && Text.StartsWith(NormalizeApiBase(input).value, InferredScheme(value) + StripTrailingSlash(value))
  {
    NormalizeApiBaseTrimmed(input);
    NormalizeTrimmedScheme(Text.Trim(input));
  }

  /** A value ending in `/api` that keeps its form passes the steps unchanged. */
  lemma {:induction false} NormalizeTrimmedKeeps(v: string)
    requires Text.EndsWith(v, "/api") && KeepsForm(v)
    ensures NormalizeTrimmed(v) == Some(v)
  {
    assert v[|v| - 1] == 'i' by {
      assert v[|v| - 4..] == "/api";
    }
    StripTrailingSlashExactly(v);
  }

  /** A value ending in `/api` that keeps its form normalises to itself. */
  lemma {:induction false} NormalizeApiBaseKeeps(v: string)
    requires Text.EndsWith(v, "/api") && KeepsForm(v)
    ensures NormalizeApiBase(v) == Some(v)
  {
    assert v[|v| - 1] == 'i' by {
      assert v[|v| - 4..] == "/api";
    }
    assert !Text.IsSpace(v[0]) by {
      if HasScheme(v) {
        SchemeFirst(v);
      }
    }
    Text.TrimNoSpaceEnds(v);
    NormalizeApiBaseTrimmed(v);
    NormalizeTrimmedKeeps(v);
  }

  /** A result that still starts with `/` or a scheme normalises to itself. */
  lemma {:induction false} NormalizeApiBaseStable(input: string)
    requires NormalizeApiBase(input).Some? && KeepsForm(NormalizeApiBase(input).value)
    ensures NormalizeApiBase(NormalizeApiBase(input).value) == NormalizeApiBase(input)
  {
    NormalizeApiBaseKeeps(NormalizeApiBase(input).value);
  }

  /** A prefix without capital letters is also a prefix ignoring case. */
  lemma LowerPrefix(v: string, p: string)
    requires Text.StartsWith(v, p)
    requires forall i :: 0 <= i < |p| ==> !('A' <= p[i] <= 'Z')
    ensures StartsWithIgnoringCase(v, p)
  {
    forall i | 0 <= i < |p| ensures Text.LowerChar(v[i]) == p[i] {
      assert v[i] == p[i];
    }
  }

  /** After trimming: the inferred scheme starts the result. */
  lemma {:induction false} TrimmedSchemeStable(value: string)
    requires value != [] && !KeepsForm(value)
    ensures NormalizeTrimmed(value).Some? && HasScheme(NormalizeTrimmed(value).value)
  {
    NormalizeTrimmedScheme(value);
    var scheme := InferredScheme(value);
    var v := WithApiSuffix(scheme + StripTrailingSlash(value));
    PrefixKept(scheme, StripTrailingSlash(value));
    SchemePrefix(v, scheme);
  }

  /** A value starting with an inferred scheme has a scheme. */
  lemma SchemePrefix(v: string, scheme: string)
    requires scheme == "http://" || scheme == "https://"
    requires Text.StartsWith(v, scheme)
    ensures HasScheme(v)
  {
    LowerPrefix(v, scheme);
  }

  /** The suffix step keeps what the value starts with. */
  lemma PrefixKept(scheme: string, rest: string)
    ensures Text.StartsWith(WithApiSuffix(scheme + rest), scheme)
  {
    var v := WithApiSuffix(scheme + rest);
    assert v[..|scheme|] == (scheme + rest)[..|scheme|];
  }

  /** A value without a scheme gets one that the result keeps, so it is stable. */
  lemma {:induction false} InferredSchemeStable(input: string)
    requires Text.Trim(input) != [] && !KeepsForm(Text.Trim(input))
    ensures NormalizeApiBase(input).Some? && HasScheme(NormalizeApiBase(input).value)
  {
    NormalizeApiBaseTrimmed(input);
    TrimmedSchemeStable(Text.Trim(input));
  }

  /** `http://` keeps its scheme and loses its trailing slashes. */
  lemma BareSchemeTrimmed()
    ensures NormalizeTrimmed("http://") == Some("http:/api")
  {
    var value := "http://";
    LowerPrefix(value, "http://");
    assert NormalizeProtocol(value) == value;
    assert value[..|value| - 1] == "http:/";
    assert "http:/"[..5] == "http:";
    assert StripTrailingSlash("http:") == "http:";
    assert StripTrailingSlash(value) == "http:";
    assert !Text.EndsWith("http:", "/api");
    assert "http:" + "/api" == "http:/api";
  }

  /** A remote value without a scheme that already ends in `/api` only gains
      `https://` in front. */
  lemma {:induction false} NormalizeTrimmedRemote(value: string)
    requires !KeepsForm(value) && !IsLocal(value) && Text.EndsWith(value, "/api")
    ensures NormalizeTrimmed(value) == Some("https://" + value)
  {
    assert value != [] && value[|value| - 1] == 'i';
    NormalizeTrimmedScheme(value);
    StripTrailingSlashExactly(value);
    var full := "https://" + value;
    assert Text.EndsWith(full, "/api") by {
      assert full[|full| - 4..] == value[|value| - 4..];
    }
  }

  /** `http:/api` starts with neither a slash, nor a scheme, nor a local host. */
  lemma SlashApiNoScheme()
    ensures !KeepsForm("http:/api") && !IsLocal("http:/api")
  {
    var value := "http:/api";
    assert !StartsWithIgnoringCase(value, "http://") by {
      assert Text.LowerChar(value[6]) != "http://"[6];
    }
    assert !StartsWithIgnoringCase(value, "https://") by {
      assert Text.LowerChar(value[4]) != "https://"[4];
    }
    assert value[0] != '/';
    assert value[1] == 't';
  }

  /** `http:/api` has no scheme, so `https://` is put before it. */
  lemma SlashSchemeTrimmed()
    ensures NormalizeTrimmed("http:/api") == Some("https://" + "http:/api")
  {
    var value := "http:/api";
    SlashApiNoScheme();
    assert Text.EndsWith(value, "/api") by {
      assert value[5..] == "/api";
    }
    NormalizeTrimmedRemote(value);
  }

  /** A bare scheme loses a slash: `http://` becomes `http:/api`, which no
      longer starts with a scheme and normalises again to `https://http:/api`. */
  lemma BareSchemeUnstable()
    ensures NormalizeApiBase("http://") == Some("http:/api")
    ensures NormalizeApiBase("http:/api") == Some("https://" + "http:/api")
  {
    Text.TrimNoSpaceEnds("http://");
    NormalizeApiBaseTrimmed("http://");
    BareSchemeTrimmed();
    Text.TrimNoSpaceEnds("http:/api");
    NormalizeApiBaseTrimmed("http:/api");
    SlashSchemeTrimmed();
  }

  // ----- buildApiUrl -----

  /** `buildApiUrl`: one trailing slash dropped from the base, a leading slash
      added to the endpoint. */
  function BuildApiUrl(base: string, endpoint: string): (url: string)
    ensures Text.EndsWith(url, endpoint)
  {
    var b := if Text.EndsWith(base, "/") then base[..|base| - 1] else base;
    var e := if Text.StartsWith(endpoint, "/") then endpoint else "/" + endpoint;
    assert Text.EndsWith(b + e, e) by {
      assert (b + e)[|b + e| - |e|..] == e;
    }
    assert Text.EndsWith(e, endpoint) by {
      assert e[|e| - |endpoint|..] == endpoint;
    }
    assert (b + e)[|b + e| - |endpoint|..] == e[|e| - |endpoint|..];
    b + e
  }

  /** One slash between base and endpoint is optional on either side. */
  lemma BuildApiUrlSlashes(base: string, endpoint: string)
    requires !Text.EndsWith(base, "/") && !Text.StartsWith(endpoint, "/")
    ensures BuildApiUrl(base + "/", endpoint) == BuildApiUrl(base, endpoint)
    ensures BuildApiUrl(base, "/" + endpoint) == BuildApiUrl(base, endpoint)
    ensures BuildApiUrl(base, endpoint) == base + "/" + endpoint
  {
    assert Text.EndsWith(base + "/", "/") by {
      assert (base + "/")[|base|..] == "/";
    }
    assert (base + "/")[..|base|] == base;
    assert Text.StartsWith("/" + endpoint, "/") by {
      assert ("/" + endpoint)[..1] == "/";
    }
  }

  // ----- getApiConfig -----

  datatype ApiMode = Official | Custom

  function ModeText(mode: ApiMode): string {
    match mode
    case Official => "official"
    case Custom => "custom"
  }

  /** The official base's raw text: the first set of the two build-time
      variables, else `/api`. */
  function OfficialBaseRaw(officialUrl: Option<string>, apiUrl: Option<string>): (raw: string)
    ensures officialUrl.Some? && officialUrl.value != "" ==> raw == officialUrl.value
    ensures (officialUrl.None? || officialUrl.value == "") && apiUrl.Some? && apiUrl.value != "" ==> raw == apiUrl.value
    ensures (officialUrl.None? || officialUrl.value == "") && (apiUrl.None? || apiUrl.value == "") ==> raw == "/api"
  {
    if officialUrl.Some? && officialUrl.value != "" then officialUrl.value
    else if apiUrl.Some? && apiUrl.value != "" then apiUrl.value
    else "/api"
  }

  datatype ApiConfig = ApiConfig(mode: ApiMode, base: string, officialBase: string, customBase: string)

  /** `getApiConfig` over the stored items. */
  function GetApiConfig(items: map<string, string>, officialRaw: string): (c: ApiConfig)
    ensures c.mode == Custom <==> ModeKey in items && items[ModeKey] == "custom" && CustomBaseKey in items && items[CustomBaseKey] != ""
    ensures c.mode == Custom ==> c.base == items[CustomBaseKey]
    ensures c.mode == Official ==> c.base == c.officialBase
    ensures c.officialBase == NormalizeApiBase(officialRaw).GetOr(FallbackBase)
    ensures c.customBase == (if CustomBaseKey in items then items[CustomBaseKey] else "")
  {
    var officialBase := match NormalizeApiBase(officialRaw) case Some(b) => b case None => FallbackBase;
    var storedMode := if ModeKey in items then Some(items[ModeKey]) else None;
    var customBase := if CustomBaseKey in items then Some(items[CustomBaseKey]) else None;
    var mode := if storedMode == Some("custom") && customBase.Some? && customBase.value != "" then Custom else Official;
    var base := if mode == Custom then customBase.value else officialBase;
    ApiConfig(mode, base, officialBase, if customBase.Some? && customBase.value != "" then customBase.value else "")
  }

  /** The official base always ends in `/api`. */
  lemma OfficialBaseShape(items: map<string, string>, officialRaw: string)
    ensures Text.EndsWith(GetApiConfig(items, officialRaw).officialBase, "/api")
  {
    assert Text.EndsWith(FallbackBase, "/api") by {
      assert FallbackBase[0..] == "/api";
    }
  }

  // ----- persistBase, setApiMode, setCustomApiBase -----

  /** The items after `persistBase(base)`: the admin token is dropped when a
      different, non-empty base was recorded before, and the base is recorded. */
  function Persisted(items: map<string, string>, base: string): (r: map<string, string>)
    ensures LastBaseKey in r && r[LastBaseKey] == base
    ensures TokenKey !in r <==> TokenKey !in items || (LastBaseKey in items && items[LastBaseKey] != "" && items[LastBaseKey] != base)
    ensures forall k :: k != LastBaseKey && k != TokenKey ==> (k in r <==> k in items) && (k in r ==> r[k] == items[k])
    ensures TokenKey in r ==> r[TokenKey] == items[TokenKey]
  {
    var kept := if LastBaseKey in items && items[LastBaseKey] != "" && items[LastBaseKey] != base then items - {TokenKey} else items;
    kept[LastBaseKey := base]
  }

  /** Recording the same base again changes nothing more. */
  lemma PersistedIdempotent(items: map<string, string>, base: string)
    ensures Persisted(Persisted(items, base), base) == Persisted(items, base)
  {
  }

  /** The items after `setApiMode(mode)`: the mode is stored, then the base
      it makes active is recorded as `persistBase` records it. */
  function ModeStored(items: map<string, string>, mode: ApiMode, officialRaw: string): (r: map<string, string>)
    ensures ModeKey in r && r[ModeKey] == ModeText(mode)
    ensures LastBaseKey in r && r[LastBaseKey] == GetApiConfig(r, officialRaw).base
    ensures TokenKey !in r <==>
      TokenKey !in items
      || (LastBaseKey in items && items[LastBaseKey] != "" && items[LastBaseKey] != GetApiConfig(r, officialRaw).base)
    ensures TokenKey in r ==> r[TokenKey] == items[TokenKey]
    ensures forall k :: k != ModeKey && k != LastBaseKey && k != TokenKey ==>
      (k in r <==> k in items) && (k in r ==> r[k] == items[k])
  {
    var written := items[ModeKey := ModeText(mode)];
    Persisted(written, GetApiConfig(written, officialRaw).base)
  }

  /** The items after `setCustomApiBase` accepted the normalised base `base`:
      the base is stored, then the active base is recorded as `persistBase`
      records it. */
  function CustomStored(items: map<string, string>, base: string, officialRaw: string): (r: map<string, string>)
    ensures CustomBaseKey in r && r[CustomBaseKey] == base
    ensures LastBaseKey in r && r[LastBaseKey] == GetApiConfig(r, officialRaw).base
    ensures TokenKey !in r <==>
      TokenKey !in items
      || (LastBaseKey in items && items[LastBaseKey] != "" && items[LastBaseKey] != GetApiConfig(r, officialRaw).base)
    ensures TokenKey in r ==> r[TokenKey] == items[TokenKey]
    ensures forall k :: k != CustomBaseKey && k != LastBaseKey && k != TokenKey ==>
      (k in r <==> k in items) && (k in r ==> r[k] == items[k])
  {
    var written := items[CustomBaseKey := base];
    Persisted(written, GetApiConfig(written, officialRaw).base)
  }

  /** `persistBase` */
  method PersistBase(storage: LocalStorage.Storage, base: string)
    modifies storage
    ensures storage.items == Persisted(old(storage.items), base)
  {
    var lastBase := storage.GetItem(LastBaseKey);
    if lastBase.Some? && lastBase.value != "" && lastBase.value != base {
      storage.RemoveItem(TokenKey);
    }
    storage.SetItem(LastBaseKey, base);
  }

  /** `setApiMode` */
  method SetApiMode(storage: LocalStorage.Storage, mode: ApiMode, officialRaw: string)
    modifies storage
    ensures storage.items == ModeStored(old(storage.items), mode, officialRaw)
  {
    storage.SetItem(ModeKey, ModeText(mode));
    var config := GetApiConfig(storage.items, officialRaw);
    PersistBase(storage, config.base);
  }

  /** `setCustomApiBase`: input that fails normalisation writes nothing. */
  method SetCustomApiBase(storage: LocalStorage.Storage, input: string, officialRaw: string) returns (r: Option<string>)
    modifies storage
    ensures r == NormalizeApiBase(input)
    ensures r.None? ==> storage.items == old(storage.items)
    ensures r.Some? ==> storage.items == CustomStored(old(storage.items), r.value, officialRaw)
  {
    var normalized := NormalizeApiBase(input);
    if normalized.None? {
      return None;
    }
    storage.SetItem(CustomBaseKey, normalized.value);
    var config := GetApiConfig(storage.items, officialRaw);
    PersistBase(storage, config.base);
    r := normalized;
  }

  /** Storing a custom base and then choosing custom mode makes that base the
      active one; choosing official mode makes the official base active. */
  lemma ModeAfterSet(items: map<string, string>, base: string, officialRaw: string)
    requires base != ""
    ensures var c := GetApiConfig(ModeStored(CustomStored(items, base, officialRaw), Custom, officialRaw), officialRaw);
      c.mode == Custom && c.base == base
    ensures var c := GetApiConfig(ModeStored(items, Official, officialRaw), officialRaw);
      c.mode == Official && c.base == c.officialBase
  {
    CustomAfterSet(items, base, officialRaw);
    OfficialAfterSet(items, officialRaw);
  }

  /** Storing a non-empty custom base, then choosing custom mode, makes that
      base active. */
  lemma CustomAfterSet(items: map<string, string>, base: string, officialRaw: string)
    requires base != ""
    ensures var c := GetApiConfig(ModeStored(CustomStored(items, base, officialRaw), Custom, officialRaw), officialRaw);
      c.mode == Custom && c.base == base
  {
  }

  /** Choosing official mode makes the official base active. */
  lemma OfficialAfterSet(items: map<string, string>, officialRaw: string)
    ensures var c := GetApiConfig(ModeStored(items, Official, officialRaw), officialRaw);
      c.mode == Official && c.base == c.officialBase
  {
  }
}
