/** `BackendSelector`: choosing between the official backend and a custom
    one that must answer a health probe first. The probe's outcome is an
    input; each handler's effect is its final state. */
module BackendSelector {
  import opened Wrappers
  import Text
  import ApiBase
  import LocalStorage

  const InvalidBaseMessage: string := "Enter a valid base URL, for example http://localhost:8000"
  const HealthTimeoutMessage: string := "Health check timed out. Please verify the backend address."
  const UnreachableMessage: string := "Unable to reach the backend. Please verify the address."
  const HealthTimeoutMs: nat := 8000

  /** `formatBase`: a same-origin path is labelled as such. */
  function FormatBase(value: string): (r: string)
    ensures Text.StartsWith(value, "/") ==> r == "Same origin (" + value + ")"
    ensures !Text.StartsWith(value, "/") ==> r == value
  {
    if Text.StartsWith(value, "/") then "Same origin (" + value + ")" else value
  }

  /** The label always shows the base itself. */
  lemma FormatBaseShowsValue(value: string)
    ensures Text.Contains(FormatBase(value), value)
  {
    if Text.StartsWith(value, "/") {
      var r := FormatBase(value);
      assert r[13..13 + |value|] == value;
      Text.ContainsAt(r, value, 13);
    } else {
      assert FormatBase(value)[0..|value|] == value;
      Text.ContainsAt(FormatBase(value), value, 0);
    }
  }

  /** What the probe of `<base>/health` produced. */
  datatype Probe = Answered(ok: bool, status: int) | Aborted | Unreachable

  datatype Health = Healthy | Unhealthy(message: string)

  /** The probed address. */
  function HealthUrl(base: string): string {
    ApiBase.BuildApiUrl(base, "/health")
  }

  /** `checkBackendHealth`: a 2xx answer is healthy; any other answer names
      its status; an abort after the timeout and any other failure have their
      own messages. */
  function CheckBackendHealth(probe: Probe): (h: Health)
    ensures h.Healthy? <==> probe.Answered? && probe.ok
    ensures probe.Answered? && !probe.ok ==> h.message == "Health check failed (HTTP " + Text.IntToString(probe.status) + ")."
    ensures probe.Aborted? ==> h.message == HealthTimeoutMessage
    ensures probe.Unreachable? ==> h.message == UnreachableMessage
  {
    match probe
    case Answered(ok, status) =>
      if ok then Healthy else Unhealthy("Health check failed (HTTP " + Text.IntToString(status) + ").")
    case Aborted => Unhealthy(HealthTimeoutMessage)
    case Unreachable => Unhealthy(UnreachableMessage)
  }

  /** All of the selector's state at once. */
  datatype SelectorView = SelectorView(mode: ApiBase.ApiMode, selectedMode: ApiBase.ApiMode, customInput: string,
                                       activeBase: string, officialBase: string, error: string, isChecking: bool)

  /** `refresh`: both tabs, the input and the shown bases come from the stored
      configuration. */
  function Refreshed(v: SelectorView, items: map<string, string>, officialRaw: string): SelectorView {
    Shown(v, ApiBase.GetApiConfig(items, officialRaw))
  }

  function Shown(v: SelectorView, c: ApiBase.ApiConfig): SelectorView {
    v.(mode := c.mode, selectedMode := c.mode, customInput := c.customBase, activeBase := c.base, officialBase := c.officialBase)
  }

  /** A probed custom base is the one stored when it still starts with `/` or
      a scheme; `http://` is probed as `http:/api` but stored as
      `https://http:/api`. */
  lemma StoredBaseIsProbed(input: string)
    requires ApiBase.NormalizeApiBase(input).Some? && ApiBase.KeepsForm(ApiBase.NormalizeApiBase(input).value)
    ensures ApiBase.NormalizeApiBase(ApiBase.NormalizeApiBase(input).value) == ApiBase.NormalizeApiBase(input)
    ensures ApiBase.NormalizeApiBase("http://") == Some("http:/api")
    ensures ApiBase.NormalizeApiBase("http:/api") == Some("https://" + "http:/api")
  {
    ApiBase.NormalizeApiBaseStable(input);
    ApiBase.BareSchemeUnstable();
  }

  class Selector {
    const officialRaw: string
    var mode: ApiBase.ApiMode
    var selectedMode: ApiBase.ApiMode
    var customInput: string
    var activeBase: string
    var officialBase: string
    var error: string
    var isChecking: bool

    function View(): SelectorView
      reads this
    {
      SelectorView(mode, selectedMode, customInput, activeBase, officialBase, error, isChecking)
    }

    /** The first render, before the mount effect refreshes. */
    constructor (officialRaw: string)
      ensures this.officialRaw == officialRaw
      ensures View() == SelectorView(ApiBase.Official, ApiBase.Official, "", "", "", "", false)
    {
      this.officialRaw := officialRaw;
      mode := ApiBase.Official;
      selectedMode := ApiBase.Official;
      customInput := "";
      activeBase := "";
      officialBase := "";
      error := "";
      isChecking := false;
    }

    /** `refresh` */
    method Refresh(storage: LocalStorage.Storage)
      modifies this
      ensures View() == Refreshed(old(View()), storage.items, officialRaw)
    {
      var config := ApiBase.GetApiConfig(storage.items, officialRaw);
      Show(config);
    }

    /** The setters `refresh` calls with a configuration. */
    method Show(config: ApiBase.ApiConfig)
      modifies this
      ensures View() == Shown(old(View()), config)
    {
      mode := config.mode;
      selectedMode := config.mode;
      customInput := config.customBase;
      activeBase := config.base;
      officialBase := config.officialBase;
    }

    /** The custom input's `onChange`: typing replaces the input and clears
        any error on screen. */
    method SetCustomInput(value: string)
      modifies this
      ensures View() == old(View()).(customInput := value, error := "")
    {
      customInput := value;
      error := "";
    }

    /** `applyOfficial`: official mode is stored and shown, and the error is
        cleared. */
    method ApplyOfficial(storage: LocalStorage.Storage)
      modifies this, storage
      ensures storage.items == ApiBase.ModeStored(old(storage.items), ApiBase.Official, officialRaw)
      ensures View() == Refreshed(old(View()), storage.items, officialRaw).(error := "")
      ensures mode == ApiBase.Official && selectedMode == ApiBase.Official && activeBase == officialBase
    {
      ghost var v := View();
      ApiBase.SetApiMode(storage, ApiBase.Official, officialRaw);
      assert View() == v;
      ApiBase.OfficialAfterSet(old(storage.items), officialRaw);
      Refresh(storage);
      error := "";
    }

    /** `applyCustom(base)`: a base that fails normalisation only shows the
        error; otherwise it is stored, custom mode is chosen and shown with
        that base active. */
    method ApplyCustom(storage: LocalStorage.Storage, base: string) returns (ok: bool)
      modifies this, storage
      ensures ok <==> ApiBase.NormalizeApiBase(base).Some?
      ensures !ok ==> storage.items == old(storage.items) && View() == old(View()).(error := InvalidBaseMessage)
      ensures ok ==> var n := ApiBase.NormalizeApiBase(base).value;
        && storage.items == ApiBase.ModeStored(ApiBase.CustomStored(old(storage.items), n, officialRaw), ApiBase.Custom, officialRaw)
        && View() == Refreshed(old(View()), storage.items, officialRaw).(error := "")
        && mode == ApiBase.Custom && selectedMode == ApiBase.Custom && activeBase == n
    {
      var normalized := ApiBase.SetCustomApiBase(storage, base, officialRaw);
      if normalized.None? {
        error := InvalidBaseMessage;
        return false;
      }
      ghost var afterCustom := storage.items;
      ApiBase.SetApiMode(storage, ApiBase.Custom, officialRaw);
      ApiBase.CustomAfterSet(old(storage.items), normalized.value, officialRaw);
      customInput := normalized.value;
      Refresh(storage);
      error := "";
      ok := true;
    }

    /** `confirmCustom`: input that fails normalisation shows the error and is
        not probed; otherwise `<base>/health` is probed and the outcome
        handled by `ProbeOutcome`. Returns the probed address. */
    method ConfirmCustom(storage: LocalStorage.Storage, probe: Probe) returns (probed: Option<string>)
      modifies this, storage
      ensures var n := ApiBase.NormalizeApiBase(old(customInput));
        probed == if n.Some? then Some(HealthUrl(n.value)) else None
      ensures probed.None? ==> storage.items == old(storage.items) && View() == old(View()).(error := InvalidBaseMessage)
      ensures probed.Some? ==> Outcome(old(View()), old(storage.items), ApiBase.NormalizeApiBase(old(customInput)).value, probe, View(), storage.items)
    {
      var normalized := ApiBase.NormalizeApiBase(customInput);
      if normalized.None? {
        error := InvalidBaseMessage;
        return None;
      }
      ghost var v := View();
      isChecking := true;
      error := "";
      probed := Some(HealthUrl(normalized.value));
      ghost var checking := View();
      ProbeOutcome(storage, normalized.value, probe);
      OutcomeIgnoresFlags(v, checking, old(storage.items), normalized.value, probe, View(), storage.items);
    }

    /** The outcome overwrites the error and the checking flag, so those set
        before the probe leave it unchanged. */
    lemma OutcomeIgnoresFlags(v: SelectorView, checking: SelectorView, items: map<string, string>, normalized: string,
                              probe: Probe, v': SelectorView, items': map<string, string>)
      requires checking == v.(isChecking := true, error := "")
      requires Outcome(checking, items, normalized, probe, v', items')
      ensures Outcome(v, items, normalized, probe, v', items')
    {
    }

    /** The state after a probe of `normalized`: a failed probe shows its
        message and stores nothing; a healthy one hands the base to
        `applyCustom`, which normalises it once more. */
    ghost predicate Outcome(v: SelectorView, items: map<string, string>, normalized: string, probe: Probe,
                            v': SelectorView, items': map<string, string>)
    {
      var h := CheckBackendHealth(probe);
      var stored := ApiBase.NormalizeApiBase(normalized);
      && (h.Unhealthy? ==> items' == items && v' == v.(error := h.message, isChecking := false))
      && (h.Healthy? && stored.None? ==> items' == items && v' == v.(error := InvalidBaseMessage, isChecking := false))
      && (h.Healthy? && stored.Some? ==>
            && items' == ApiBase.ModeStored(ApiBase.CustomStored(items, stored.value, officialRaw), ApiBase.Custom, officialRaw)
            && v' == Refreshed(v, items', officialRaw).(error := "", isChecking := false)
            && v'.mode == ApiBase.Custom && v'.activeBase == stored.value)
    }

    /** The part of `confirmCustom` after the probe has settled. */
    method ProbeOutcome(storage: LocalStorage.Storage, normalized: string, probe: Probe)
      modifies this, storage
      ensures Outcome(old(View()), old(storage.items), normalized, probe, View(), storage.items)
    {
      var result := CheckBackendHealth(probe);
      isChecking := false;
      if result.Unhealthy? {
        error := result.message;
        return;
      }
      var ok := ApplyCustom(storage, normalized);
    }

    /** `handleModeChange`: the official tab applies official mode at once;
        the custom tab only changes the visible tab and clears the error. */
    method HandleModeChange(storage: LocalStorage.Storage, next: ApiBase.ApiMode)
      modifies this, storage
      ensures next == ApiBase.Custom ==>
        storage.items == old(storage.items) && View() == old(View()).(selectedMode := ApiBase.Custom, error := "")
      ensures next == ApiBase.Official ==>
        && storage.items == ApiBase.ModeStored(old(storage.items), ApiBase.Official, officialRaw)
        && View() == Refreshed(old(View()), storage.items, officialRaw).(error := "")
    {
      selectedMode := next;
      if next == ApiBase.Official {
        ApplyOfficial(storage);
        return;
      }
      error := "";
    }
  }
}
