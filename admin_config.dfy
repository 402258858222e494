/** The administrator's configuration endpoints: the stored settings, read
    with defaults and written by upserts committed together. */
module AdminConfig {
  import opened Wrappers
  import Text
  import Crypto
  import AppSettings
  import Http
  import Tables

  // ----- get_config -----

  /** `get_config_value`: a missing or null row gives the default, and so
      does a blank value when blanks are not allowed. */
  function GetConfigValue(config: Tables.ConfigTable, key: Tables.ConfigKey, default: string, allowEmpty: bool): (r: string)
    ensures key !in config || config[key].None? ==> r == default
    ensures key in config && config[key].Some? && (allowEmpty || Text.Trim(config[key].value) != "") ==> r == config[key].value
    ensures key in config && config[key].Some? && !allowEmpty && Text.Trim(config[key].value) == "" ==> r == default
  {
    if key !in config || config[key].None? then default
    else if !allowEmpty && Text.Trim(config[key].value) == "" then default
    else config[key].value
  }

  /** `ConfigResponse`. */
  datatype ConfigView = ConfigView(
    checkInterval: int,
    smtpHost: string,
    smtpPort: int,
    smtpUser: string,
    fromEmail: string,
    fromName: string)

  /** `get_config`. An `int()` that fails and an undeclared setting both raise,
      which the server answers with 500. */
  function GetConfig(config: Tables.ConfigTable, settings: AppSettings.Settings): (r: Result<ConfigView, Http.HttpError>)
    ensures r.Failure? ==> r.error == Http.InternalError
    ensures settings.reviewModCheckInterval.None? || settings.fromName.None? ==> r.Failure?
    ensures r.Success? ==>
      && Text.ParseInt(GetConfigValue(config, Tables.CheckInterval, Text.IntToString(settings.checkInterval), true)) == Some(r.value.checkInterval)
      && Text.ParseInt(GetConfigValue(config, Tables.SmtpPort, Text.IntToString(settings.smtpPort), true)) == Some(r.value.smtpPort)
      && r.value.smtpHost == GetConfigValue(config, Tables.SmtpHost, settings.smtpHost, true)
      && r.value.smtpUser == GetConfigValue(config, Tables.SmtpUser, settings.smtpUser, true)
      && r.value.fromEmail == GetConfigValue(config, Tables.FromEmail, settings.fromEmail, true)
      && r.value.fromName == GetConfigValue(config, Tables.FromName, settings.fromName.value, false)
  {
    var checkInterval := Text.ParseInt(GetConfigValue(config, Tables.CheckInterval, Text.IntToString(settings.checkInterval), true));
    if checkInterval.None? || settings.reviewModCheckInterval.None? then Failure(Http.InternalError)
    else
      var gap := Text.ParseInt(GetConfigValue(config, Tables.ReviewModCheckInterval,
                                              Text.IntToString(settings.reviewModCheckInterval.value), true));
      var port := Text.ParseInt(GetConfigValue(config, Tables.SmtpPort, Text.IntToString(settings.smtpPort), true));
      if gap.None? || port.None? || settings.fromName.None? then Failure(Http.InternalError)
      else
        Success(ConfigView(
          checkInterval.value,
          GetConfigValue(config, Tables.SmtpHost, settings.smtpHost, true),
          port.value,
          GetConfigValue(config, Tables.SmtpUser, settings.smtpUser, true),
          GetConfigValue(config, Tables.FromEmail, settings.fromEmail, true),
          GetConfigValue(config, Tables.FromName, settings.fromName.value, false)))
  }

  /** With the declared settings `get_config` always raises. */
  lemma GetConfigAsWritten(config: Tables.ConfigTable)
    ensures GetConfig(config, AppSettings.Defaults) == Failure(Http.InternalError)
  {
  }

  // ----- update_config -----

  /** `ConfigUpdate`. `reviewModCheckInterval` is `None` when the schema does
      not declare the field, as in the repository, and reading it raises. */
  datatype ConfigUpdate = ConfigUpdate(
    checkInterval: Option<int>,
    reviewModCheckInterval: Option<Option<int>>,
    smtpHost: Option<string>,
    smtpPort: Option<int>,
    smtpUser: Option<string>,
    smtpPassword: Option<string>,
    fromEmail: Option<string>,
    fromName: Option<string>)

  function NumberText(n: Option<int>): Option<string> {
    if n.Some? then Some(Text.IntToString(n.value)) else None
  }

  /** `key` holds what it held before, or nothing as before. */
  predicate Same(before: Tables.ConfigTable, after: Tables.ConfigTable, key: Tables.ConfigKey) {
    (key in after <==> key in before) && (key in before ==> after[key] == before[key])
  }

  /** `key` holds `value` when one was given, and what it held before otherwise. */
  predicate Written(before: Tables.ConfigTable, after: Tables.ConfigTable, key: Tables.ConfigKey, value: Option<string>) {
    if value.Some? then key in after && after[key] == value else Same(before, after, key)
  }

  /** `set_config_value` when a value was given; nothing otherwise. */
  function Put(config: Tables.ConfigTable, key: Tables.ConfigKey, value: Option<string>): (r: Tables.ConfigTable)
    ensures Written(config, r, key, value)
    ensures forall k :: k != key ==> Same(config, r, k)
  {
    if value.Some? then config[key := value] else config
  }

  /** The rows after the upserts of `update_config`, in its field order, the
      password encrypted. */
  function Upserted(config: Tables.ConfigTable, u: ConfigUpdate, gap: Option<int>, seal: string -> string)
    : Tables.ConfigTable
  {
    var c1 := Put(config, Tables.CheckInterval, NumberText(u.checkInterval));
    var c2 := Put(c1, Tables.ReviewModCheckInterval, NumberText(gap));
    var c3 := Put(c2, Tables.SmtpHost, u.smtpHost);
    var c4 := Put(c3, Tables.SmtpPort, NumberText(u.smtpPort));
    var c5 := Put(c4, Tables.SmtpUser, u.smtpUser);
    var c6 := Put(c5, Tables.SmtpPassword, Crypto.EncryptValue(u.smtpPassword, seal));
    var c7 := Put(c6, Tables.FromEmail, u.fromEmail);
    Put(c7, Tables.FromName, u.fromName)
  }

  /** The value the request gives each key: numbers as text, the password
      encrypted, `None` for a field left out. */
  function Given(u: ConfigUpdate, gap: Option<int>, seal: string -> string, k: Tables.ConfigKey): Option<string> {
    match k
    case CheckInterval => NumberText(u.checkInterval)
    case ReviewModCheckInterval => NumberText(gap)
    case SmtpHost => u.smtpHost
    case SmtpPort => NumberText(u.smtpPort)
    case SmtpUser => u.smtpUser
    case SmtpPassword => Crypto.EncryptValue(u.smtpPassword, seal)
    case FromEmail => u.fromEmail
    case FromName => u.fromName
  }

  /** The place of each key among the writes of `update_config`. */
  function Position(k: Tables.ConfigKey): (i: nat)
    ensures i < 8
  {
    match k
    case CheckInterval => 0
    case ReviewModCheckInterval => 1
    case SmtpHost => 2
    case SmtpPort => 3
    case SmtpUser => 4
    case SmtpPassword => 5
    case FromEmail => 6
    case FromName => 7
  }

  /** What the first `i` writes give `k`. */
  function GivenBefore(u: ConfigUpdate, gap: Option<int>, seal: string -> string, i: nat, k: Tables.ConfigKey): Option<string> {
    if Position(k) < i then Given(u, gap, seal, k) else None
  }

  /** One more write in the handler's order. */
  lemma PutStep(config: Tables.ConfigTable, c: Tables.ConfigTable, u: ConfigUpdate, gap: Option<int>,
                seal: string -> string, key: Tables.ConfigKey, done: nat, next: nat)
    requires done == Position(key) && next == done + 1
    requires forall k :: Written(config, c, k, GivenBefore(u, gap, seal, done, k))
    ensures forall k :: Written(config, Put(c, key, Given(u, gap, seal, key)), k, GivenBefore(u, gap, seal, next, k))
  {
    var r := Put(c, key, Given(u, gap, seal, key));
    forall k
      ensures Written(config, r, k, GivenBefore(u, gap, seal, next, k))
    {
      assert Written(config, c, k, GivenBefore(u, gap, seal, done, k));
      if k != key {
        assert Position(k) != Position(key);
      }
    }
  }

  /** Each key holds the value the request gave it, or what it held before
      when the field was left out. */
  lemma {:induction false} UpsertedWrites(config: Tables.ConfigTable, u: ConfigUpdate, gap: Option<int>, seal: string -> string)
    ensures forall k :: Written(config, Upserted(config, u, gap, seal), k, Given(u, gap, seal, k))
  {
    var c1 := Put(config, Tables.CheckInterval, NumberText(u.checkInterval));
    var c2 := Put(c1, Tables.ReviewModCheckInterval, NumberText(gap));
    var c3 := Put(c2, Tables.SmtpHost, u.smtpHost);
    var c4 := Put(c3, Tables.SmtpPort, NumberText(u.smtpPort));
    var c5 := Put(c4, Tables.SmtpUser, u.smtpUser);
    var c6 := Put(c5, Tables.SmtpPassword, Crypto.EncryptValue(u.smtpPassword, seal));
    var c7 := Put(c6, Tables.FromEmail, u.fromEmail);
    var c8 := Put(c7, Tables.FromName, u.fromName);
    assert forall k :: Written(config, config, k, GivenBefore(u, gap, seal, 0, k));
    PutStep(config, config, u, gap, seal, Tables.CheckInterval, 0, 1);
    PutStep(config, c1, u, gap, seal, Tables.ReviewModCheckInterval, 1, 2);
    PutStep(config, c2, u, gap, seal, Tables.SmtpHost, 2, 3);
    PutStep(config, c3, u, gap, seal, Tables.SmtpPort, 3, 4);
    PutStep(config, c4, u, gap, seal, Tables.SmtpUser, 4, 5);
    PutStep(config, c5, u, gap, seal, Tables.SmtpPassword, 5, 6);
    PutStep(config, c6, u, gap, seal, Tables.FromEmail, 6, 7);
    PutStep(config, c7, u, gap, seal, Tables.FromName, 7, 8);
    assert forall k :: GivenBefore(u, gap, seal, 8, k) == Given(u, gap, seal, k);
  }

  /** `update_config`: the upserts are committed together, so reading the
      undeclared field raises before anything is stored. */
  function UpdateConfigRows(config: Tables.ConfigTable, u: ConfigUpdate, seal: string -> string)
    : (r: Result<Tables.ConfigTable, Http.HttpError>)
    ensures u.reviewModCheckInterval.None? <==> r.Failure?
    ensures r.Failure? ==> r.error == Http.InternalError
    ensures r.Success? ==> r.value == Upserted(config, u, u.reviewModCheckInterval.value, seal)
  {
    if u.reviewModCheckInterval.None? then Failure(Http.InternalError)
    else Success(Upserted(config, u, u.reviewModCheckInterval.value, seal))
  }

  /** The stored password is the encrypted form of the one given, which the
      scheduler's decryption turns back into it. */
  lemma StoredPasswordDecrypts(config: Tables.ConfigTable, u: ConfigUpdate, gap: Option<int>,
                               seal: string -> string, open: string -> Option<string>)
    requires forall plain :: open(seal(plain)) == Some(plain)
    requires u.smtpPassword.Some? && !Crypto.IsEncrypted(u.smtpPassword.value)
    ensures Tables.SmtpPassword in Upserted(config, u, gap, seal)
    ensures Crypto.DecryptValue(Upserted(config, u, gap, seal)[Tables.SmtpPassword], open) == Success(u.smtpPassword)
  {
    UpsertedWrites(config, u, gap, seal);
    assert Written(config, Upserted(config, u, gap, seal), Tables.SmtpPassword, Given(u, gap, seal, Tables.SmtpPassword));
    Crypto.DecryptEncrypt(u.smtpPassword, seal, open);
  }

  /** A value written to `k` is what `get_config_value` then reads back,
      unless it is blank and blanks are not allowed. */
  lemma ReadBack(config: Tables.ConfigTable, stored: Tables.ConfigTable, k: Tables.ConfigKey, v: Option<string>,
                 default: string, allowEmpty: bool)
    requires Written(config, stored, k, v)
    ensures v.Some? && (allowEmpty || Text.Trim(v.value) != "") ==> GetConfigValue(stored, k, default, allowEmpty) == v.value
    ensures v.Some? && !allowEmpty && Text.Trim(v.value) == "" ==> GetConfigValue(stored, k, default, allowEmpty) == default
  {
  }

  /** A non-negative number written to `k` as text parses back from what
      `get_config_value` reads. */
  lemma {:induction false} ReadBackNumber(config: Tables.ConfigTable, stored: Tables.ConfigTable, k: Tables.ConfigKey,
                                          n: Option<int>, default: string)
    requires Written(config, stored, k, NumberText(n))
    ensures n.Some? && n.value >= 0 ==> Text.ParseInt(GetConfigValue(stored, k, default, true)) == n
  {
    ReadBack(config, stored, k, NumberText(n), default, true);
    if n.Some? && n.value >= 0 {
      Text.NatToStringRoundTrip(n.value);
    }
  }

  /** Values written as `update_config` writes them are what `get_config`
      then shows. */
  lemma {:induction false} UpdateThenGet(config: Tables.ConfigTable, stored: Tables.ConfigTable, u: ConfigUpdate,
                                          settings: AppSettings.Settings)
    requires Written(config, stored, Tables.SmtpHost, u.smtpHost)
    requires Written(config, stored, Tables.SmtpUser, u.smtpUser)
    requires Written(config, stored, Tables.FromEmail, u.fromEmail)
    requires Written(config, stored, Tables.FromName, u.fromName)
    requires Written(config, stored, Tables.CheckInterval, NumberText(u.checkInterval))
    requires Written(config, stored, Tables.SmtpPort, NumberText(u.smtpPort))
    requires GetConfig(stored, settings).Success?
    ensures var view := GetConfig(stored, settings).value;
      && (u.smtpHost.Some? ==> view.smtpHost == u.smtpHost.value)
      && (u.smtpUser.Some? ==> view.smtpUser == u.smtpUser.value)
      && (u.fromEmail.Some? ==> view.fromEmail == u.fromEmail.value)
      && (u.fromName.Some? && Text.Trim(u.fromName.value) != "" ==> view.fromName == u.fromName.value)
      && (u.fromName.Some? && Text.Trim(u.fromName.value) == "" ==> view.fromName == settings.fromName.value)
      && (u.checkInterval.Some? && u.checkInterval.value >= 0 ==> view.checkInterval == u.checkInterval.value)
      && (u.smtpPort.Some? && u.smtpPort.value >= 0 ==> view.smtpPort == u.smtpPort.value)
  {
    ReadBack(config, stored, Tables.SmtpHost, u.smtpHost, settings.smtpHost, true);
    ReadBack(config, stored, Tables.SmtpUser, u.smtpUser, settings.smtpUser, true);
    ReadBack(config, stored, Tables.FromEmail, u.fromEmail, settings.fromEmail, true);
    ReadBack(config, stored, Tables.FromName, u.fromName, settings.fromName.value, false);
    ReadBackNumber(config, stored, Tables.CheckInterval, u.checkInterval, Text.IntToString(settings.checkInterval));
    ReadBackNumber(config, stored, Tables.SmtpPort, u.smtpPort, Text.IntToString(settings.smtpPort));
  }

  const ConfigUpdated: string := "Configuration updated successfully"

  /** `update_config` against the database. */
  method UpdateConfig(db: Tables.Database, u: ConfigUpdate, seal: string -> string) returns (r: Result<string, Http.HttpError>)
    modifies db
    ensures db.Snapshot() == old(db.Snapshot())
    ensures UpdateConfigRows(old(db.config), u, seal).Failure? ==> r == Failure(Http.InternalError) && db.config == old(db.config)
    ensures UpdateConfigRows(old(db.config), u, seal).Success? ==>
      r == Success(ConfigUpdated) && db.config == UpdateConfigRows(old(db.config), u, seal).value
  {
    var staged := db.config;
    staged := Put(staged, Tables.CheckInterval, NumberText(u.checkInterval));
    if u.reviewModCheckInterval.None? {
      return Failure(Http.InternalError);
    }
    staged := Put(staged, Tables.ReviewModCheckInterval, NumberText(u.reviewModCheckInterval.value));
    staged := Put(staged, Tables.SmtpHost, u.smtpHost);
    staged := Put(staged, Tables.SmtpPort, NumberText(u.smtpPort));
    staged := Put(staged, Tables.SmtpUser, u.smtpUser);
    staged := Put(staged, Tables.SmtpPassword, Crypto.EncryptValue(u.smtpPassword, seal));
    staged := Put(staged, Tables.FromEmail, u.fromEmail);
    staged := Put(staged, Tables.FromName, u.fromName);
    db.config := staged;
    r := Success(ConfigUpdated);
  }
}
