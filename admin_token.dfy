/** The admin page's in-memory token: one module-level variable, initially
    `null`, that `setAdminToken` overwrites and `clearAdminToken` resets. */
module AdminToken {
  import opened Wrappers

  class TokenStore {
    var token: Option<string>

    /** The module is loaded with no token. */
    constructor ()
      ensures token == None
    {
      token := None;
    }

    /** `getAdminToken` */
    function GetAdminToken(): (r: Option<string>)
      reads this
      ensures r == token
    {
      token
    }

    /** `setAdminToken(token)`: the next read returns exactly `t`, so
        `setAdminToken(null)` leaves the same state as `clearAdminToken`. */
    method SetAdminToken(t: Option<string>)
      modifies this
      ensures GetAdminToken() == t
    {
      token := t;
    }

    /** `clearAdminToken`: the next read returns `null`. */
    method ClearAdminToken()
      modifies this
      ensures GetAdminToken() == None
    {
      token := None;
    }
  }
}
