/** `Admin`: the admin page. Which token store, which stored items and which
    API results the page sees are inputs; each handler's effect is its final
    state, the request it sends and whether it loads the data again. */
module AdminPage {
  import opened Wrappers
  import ApiBase
  import ApiClient
  import AdminToken
  import Grouping
  import LocalStorage

  /** A listed subscriber, as the page shows it. */
  datatype SubscriberItem = SubscriberItem(
    id: int, paperId: int, email: string,
    notifyOnReview: bool, notifyOnReviewModified: bool, notifyOnDecision: bool,
    notifiedReview: bool, notifiedDecision: bool,
    paperTitle: Option<string>, paperVenue: Option<string>)

  /** The fields of a `/admin/config` answer; each may be absent from the
      JSON, and an answer that carries a password is not trusted with it. */
  datatype ConfigData = ConfigData(
    checkInterval: Option<int>, reviewModCheckInterval: Option<int>, reviewModRequestGapSeconds: Option<real>,
    smtpHost: Option<string>, smtpPort: Option<int>, smtpUser: Option<string>, smtpPassword: Option<string>,
    fromEmail: Option<string>, fromName: Option<string>)

  /** The `ConfigUpdate` the form edits and saves; an absent field is not
      sent. */
  datatype ConfigForm = ConfigForm(
    checkInterval: Option<int>, reviewModCheckInterval: Option<int>, reviewModRequestGapSeconds: Option<real>,
    smtpHost: Option<string>, smtpPort: Option<int>, smtpUser: Option<string>, smtpPassword: Option<string>,
    fromEmail: Option<string>, fromName: Option<string>)

  const EmptyForm: ConfigForm := ConfigForm(None, None, None, None, None, None, None, None, None)

  /** The form `loadData` builds from an answer: the eight listed fields are
      copied and the password never is, so a password is saved only when the
      admin types one after the last load. */
  function CopiedForm(d: ConfigData): (f: ConfigForm)
    ensures f.smtpPassword.None?
    ensures f.checkInterval == d.checkInterval && f.reviewModCheckInterval == d.reviewModCheckInterval
    ensures f.reviewModRequestGapSeconds == d.reviewModRequestGapSeconds
    ensures f.smtpHost == d.smtpHost && f.smtpPort == d.smtpPort && f.smtpUser == d.smtpUser
    ensures f.fromEmail == d.fromEmail && f.fromName == d.fromName
  {
    ConfigForm(d.checkInterval, d.reviewModCheckInterval, d.reviewModRequestGapSeconds,
               d.smtpHost, d.smtpPort, d.smtpUser, None, d.fromEmail, d.fromName)
  }

  /** `sub.paper_venue || t('common.unknownVenue')` */
  function VenueLabel(s: SubscriberItem, unknownVenue: string): (r: string)
    ensures s.paperVenue.Some? && s.paperVenue.value != "" ==> r == s.paperVenue.value
    ensures s.paperVenue.None? || s.paperVenue.value == "" ==> r == unknownVenue
  {
    if s.paperVenue.Some? && s.paperVenue.value != "" then s.paperVenue.value else unknownVenue
  }

  /** `Object.entries(groupedSubscribers)`: one entry per venue label, listed
      once each; each subscriber sits in exactly the entry of its own label,
      and no subscriber is lost or repeated. */
  function GroupedSubscribers(subscribers: seq<SubscriberItem>, unknownVenue: string): (r: seq<(string, seq<SubscriberItem>)>)
    ensures forall i, j :: 0 <= i < j < |r| ==> r[i].0 != r[j].0
    ensures forall s, i :: s in subscribers && 0 <= i < |r| ==> (s in r[i].1 <==> r[i].0 == VenueLabel(s, unknownVenue))
    ensures forall s :: s in subscribers ==> exists i :: 0 <= i < |r| && r[i].0 == VenueLabel(s, unknownVenue)
    ensures var key := (s: SubscriberItem) => VenueLabel(s, unknownVenue);
      Grouping.SumSizes(subscribers, key, Grouping.Keys(subscribers, key)) == |subscribers|
  {
    var key := (s: SubscriberItem) => VenueLabel(s, unknownVenue);
    Grouping.EntriesPartition(subscribers, key);
    Grouping.Entries(subscribers, key)
  }

  /** `handleDeleteSubscriber`: nothing is sent unless the admin confirms;
      the data is loaded again only after a delete without error. */
  function HandleDeleteSubscriber(id: int, confirmed: bool, result: ApiClient.ApiResponse<()>): (e: ApiClient.Followup)
    ensures e.request.Some? <==> confirmed
    ensures e.request.Some? ==> e.request.value == ApiClient.DeleteSubscriber(id)
    ensures e.reload <==> confirmed && !ApiClient.ErrorShown(result)
  {
    if !confirmed then ApiClient.Followup(None, false)
    else ApiClient.Followup(Some(ApiClient.DeleteSubscriber(id)), !ApiClient.ErrorShown(result))
  }

  /** `handleResetNotifications`: sent without confirmation; the data is
      loaded again only after a reset without error. */
  function HandleResetNotifications(id: int, result: ApiClient.ApiResponse<()>): (e: ApiClient.Followup)
    ensures e.request == Some(ApiClient.ResetSubscriberNotifications(id))
    ensures e.reload <==> !ApiClient.ErrorShown(result)
  {
    ApiClient.Followup(Some(ApiClient.ResetSubscriberNotifications(id)), !ApiClient.ErrorShown(result))
  }

  /** Deleting asks first and resetting does not: the same refusal sends a
      delete nowhere but still sends the reset. */
  lemma DeleteAsksResetDoesNot(id: int, result: ApiClient.ApiResponse<()>)
    ensures HandleDeleteSubscriber(id, false, result).request.None?
    ensures HandleResetNotifications(id, result).request.Some?
    ensures HandleDeleteSubscriber(id, true, result).reload == HandleResetNotifications(id, result).reload
  {
  }

  /** All of the page's state at once. */
  datatype AdminView = AdminView(isLoggedIn: bool, subscribers: seq<SubscriberItem>, configForm: ConfigForm, loading: bool,
                                 testEmail: string, sendingTestEmail: bool, apiInfo: Option<ApiBase.ApiConfig>)

  class AdminPageState {
    var isLoggedIn: bool
    var subscribers: seq<SubscriberItem>
    var configForm: ConfigForm
    var loading: bool
    var testEmail: string
    var sendingTestEmail: bool
    var apiInfo: Option<ApiBase.ApiConfig>

    function View(): AdminView
      reads this
    {
      AdminView(isLoggedIn, subscribers, configForm, loading, testEmail, sendingTestEmail, apiInfo)
    }

    /** The first render: logged out, nothing loaded. */
    constructor ()
      ensures View() == AdminView(false, [], EmptyForm, false, "", false, None)
    {
      isLoggedIn := false;
      subscribers := [];
      configForm := EmptyForm;
      loading := false;
      testEmail := "";
      sendingTestEmail := false;
      apiInfo := None;
    }

    /** The mount effect: a non-empty in-memory token logs the page in and
        loads the data; the backend in use is recorded either way. */
    method Mount(tokens: AdminToken.TokenStore, storage: LocalStorage.Storage, officialRaw: string) returns (loads: bool)
      modifies this
      ensures loads <==> ApiClient.Truthy(tokens.GetAdminToken())
      ensures View() == old(View()).(isLoggedIn := loads || old(isLoggedIn),
                                     apiInfo := Some(ApiBase.GetApiConfig(storage.items, officialRaw)))
    {
      var token := tokens.GetAdminToken();
      loads := false;
      if ApiClient.Truthy(token) {
        isLoggedIn := true;
        loads := true;
      }
      apiInfo := Some(ApiBase.GetApiConfig(storage.items, officialRaw));
    }

    /** The login form's `onLogin`: logged in, and the data is loaded. */
    method HandleLogin() returns (loads: bool)
      modifies this
      ensures loads
      ensures View() == old(View()).(isLoggedIn := true)
    {
      isLoggedIn := true;
      loads := true;
    }

    /** `loadData`: each answer that has data replaces its part of the page;
        an answer without data leaves that part as it was. */
    method LoadData(subsResult: ApiClient.ApiResponse<seq<SubscriberItem>>, configResult: ApiClient.ApiResponse<ConfigData>)
      returns (requests: seq<ApiClient.ApiCall>)
      modifies this
      ensures requests == [ApiClient.GetSubscribers, ApiClient.GetConfig]
      ensures View() == old(View()).(
        subscribers := if subsResult.Data? then subsResult.data else old(subscribers),
        configForm := if configResult.Data? then CopiedForm(configResult.data) else old(configForm))
    {
      requests := [ApiClient.GetSubscribers, ApiClient.GetConfig];
      if subsResult.Data? {
        subscribers := subsResult.data;
      }
      if configResult.Data? {
        configForm := CopiedForm(configResult.data);
      }
    }

    /** `handleLogout`: the in-memory token is cleared and the page logs out. */
    method HandleLogout(tokens: AdminToken.TokenStore)
      modifies this, tokens
      ensures tokens.GetAdminToken() == None
      ensures View() == old(View()).(isLoggedIn := false)
    {
      tokens.ClearAdminToken();
      isLoggedIn := false;
    }

    /** The password field's `onChange`: the only way a password enters the
        form. */
    method TypePassword(value: string)
      modifies this
      ensures View() == old(View()).(configForm := old(configForm).(smtpPassword := Some(value)))
    {
      configForm := configForm.(smtpPassword := Some(value));
    }

    /** The test address field's `onChange`. */
    method TypeTestEmail(value: string)
      modifies this
      ensures View() == old(View()).(testEmail := value)
    {
      testEmail := value;
    }

    /** `handleSaveConfig`: the form is sent as it stands, the data loaded
        again only after a save without error, and loading ends either way. */
    method HandleSaveConfig(result: ApiClient.ApiResponse<()>) returns (request: ApiClient.ApiCall, body: ConfigForm, reload: bool)
      modifies this
      ensures request == ApiClient.UpdateConfig && body == old(configForm)
      ensures reload <==> !ApiClient.ErrorShown(result)
      ensures View() == old(View()).(loading := false)
    {
      loading := true;
      request, body := ApiClient.UpdateConfig, configForm;
      reload := !ApiClient.ErrorShown(result);
      loading := false;
    }

    /** `handleSendTestEmail`: an empty address sends nothing and changes
        nothing; otherwise the address is sent and sending ends either way. */
    method HandleSendTestEmail(result: ApiClient.ApiResponse<()>) returns (request: Option<(ApiClient.ApiCall, string)>)
      modifies this
      ensures request.None? <==> old(testEmail) == ""
      ensures request.None? ==> View() == old(View())
      ensures request.Some? ==>
        request.value == (ApiClient.SendTestEmail, old(testEmail)) && View() == old(View()).(sendingTestEmail := false)
    {
      if testEmail == "" {
        return None;
      }
      sendingTestEmail := true;
      request := Some((ApiClient.SendTestEmail, testEmail));
      sendingTestEmail := false;
    }
  }
}
