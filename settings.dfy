/** The application settings read from the environment, with their defaults. */
module AppSettings {
  import opened Wrappers

  /** `Settings`. The four optional fields are read by the admin handlers and
      the scheduler but are not declared by the settings class; `None` stands
      for the attribute being absent, which makes Python raise
      `AttributeError` where it is read. */
  datatype Settings = Settings(
    adminPassword: string,
    databaseUrl: string,
    smtpHost: string,
    smtpPort: int,
    smtpUser: string,
    smtpPassword: string,
    fromEmail: string,
    checkInterval: int,
    accessTokenExpireMinutes: int,
    fromName: Option<string>,
    reviewModCheckInterval: Option<int>,
    adminLoginMaxAttempts: Option<int>,
    adminLoginWindowSeconds: Option<int>)

  /** The declared defaults. */
  const Defaults: Settings := Settings(
    "admin", "sqlite:///./openreview_monitor.db", "smtp.gmail.com", 587, "", "", "",
    30, 60 * 24, None, None, None, None)

  /** The text of the `AttributeError` raised when reading an undeclared setting. */
  function MissingSetting(name: string): string {
    "'Settings' object has no attribute '" + name + "'"
  }
}
