/** The command-line launcher: the SQLite URL built from a file path, the
    port parsing, and the precedence between command-line options, the
    environment and the defaults. */
module Server {
  import opened Wrappers
  import Text

  const DefaultHost: string := "0.0.0.0"
  const DefaultPort: int := 8000
  const DefaultDbPath: string := "./openreview_monitor.db"

  // ----- pathlib, on a POSIX system -----

  /** A component `PurePosixPath` keeps: not empty and not `.`. */
  function Kept(part: string): (r: seq<string>)
    ensures r == [] <==> part == "" || part == "."
  {
    if part == "" || part == "." then [] else [part]
  }

  predicate NoSlash(s: string) {
    forall i :: 0 <= i < |s| ==> s[i] != '/'
  }

  /** The components of `s` split at `/`, with `current` the component read so far. */
  function Parts(s: string, current: string): (r: seq<string>)
    requires NoSlash(current)
    ensures forall i :: 0 <= i < |r| ==> r[i] != "" && r[i] != "." && NoSlash(r[i])
    decreases |s|
  {
    if s == [] then Kept(current)
    else if s[0] == '/' then Kept(current) + Parts(s[1..], "")
    else Parts(s[1..], current + [s[0]])
  }

  /** The components of a path. */
  function Components(path: string): seq<string> {
    Parts(path, "")
  }

  predicate IsAbsolute(path: string) {
    path != [] && path[0] == '/'
  }

  /** `Path(path).as_posix()`: the kept components joined by `/`, after the
      root (`//` is kept when a path starts with exactly two slashes), or `.`
      for an empty relative path. */
  function AsPosix(path: string): string {
    var body := Text.Join(Components(path), "/");
    if IsAbsolute(path) then
      (if Text.StartsWith(path, "//") && !Text.StartsWith(path, "///") then "//" else "/") + body
    else if Components(path) == [] then "."
    else body
  }

  /** `s.lstrip('/')` */
  function LStripSlash(s: string): (r: string)
    ensures r == [] || r[0] != '/'
    ensures Text.EndsWith(s, r)
    decreases |s|
  {
    if s != [] && s[0] == '/' then LStripSlash(s[1..]) else s
  }

  /** Splitting text without a slash only extends the current component. */
  lemma {:induction false} PartsOfNoSlash(x: string, t: string, current: string)
    requires NoSlash(x) && NoSlash(current)
    ensures NoSlash(current + x)
    ensures Parts(x + t, current) == Parts(t, current + x)
    decreases |x|
  {
    assert NoSlash(current + x) by {
      forall i | 0 <= i < |current + x| ensures (current + x)[i] != '/' {
        if i >= |current| {
          assert (current + x)[i] == x[i - |current|];
        }
      }
    }
    if x == [] {
      assert x + t == t && current + x == current;
    } else {
      assert x + t != [] && (x + t)[0] == x[0];
      assert (x + t)[1..] == x[1..] + t;
      assert NoSlash(x[1..]) by {
        forall i | 0 <= i < |x[1..]| ensures x[1..][i] != '/' {
          assert x[1..][i] == x[i + 1];
        }
      }
      assert NoSlash(current + [x[0]]) by {
        forall i | 0 <= i < |current + [x[0]]| ensures (current + [x[0]])[i] != '/' {
          if i < |current| {
            assert (current + [x[0]])[i] == current[i];
          }
        }
      }
      PartsOfNoSlash(x[1..], t, current + [x[0]]);
      assert current + [x[0]] + x[1..] == current + x;
    }
  }

  /** Joining clean components and splitting again gives them back. */
  lemma {:induction false} ComponentsOfJoin(ps: seq<string>)
    requires forall i :: 0 <= i < |ps| ==> ps[i] != "" && ps[i] != "." && NoSlash(ps[i])
    ensures Components(Text.Join(ps, "/")) == ps
    decreases |ps|
  {
    if |ps| == 1 {
      PartsOfNoSlash(ps[0], "", "");
      assert ps[0] + "" == ps[0];
      assert "" + ps[0] == ps[0];
    } else if |ps| > 1 {
      var rest := Text.Join(ps[1..], "/");
      ComponentsOfJoin(ps[1..]);
      assert Text.Join(ps, "/") == ps[0] + ("/" + rest);
      PartsOfNoSlash(ps[0], "/" + rest, "");
      assert "" + ps[0] == ps[0];
      assert ("/" + rest)[1..] == rest;
    }
  }

  /** A join of clean components starts with the first one's first character. */
  lemma JoinHead(ps: seq<string>)
    requires ps != [] && ps[0] != ""
    ensures Text.Join(ps, "/") != [] && Text.Join(ps, "/")[0] == ps[0][0]
  {
    assert Text.Join(ps, "/") == ps[0] + (if |ps| == 1 then "" else "/" + Text.Join(ps[1..], "/"));
  }

  /** Leading slashes do not change the components. */
  lemma SlashComponents(body: string)
    ensures Components("/" + body) == Components(body)
    ensures Components("//" + body) == Components(body)
  {
    assert ("/" + body)[1..] == body;
    assert ("//" + body)[1..] == "/" + body;
  }

  /** The POSIX form of a path names the same components, and it is absolute
      exactly when the path is. */
  lemma {:induction false} AsPosixSameFile(path: string)
    ensures Components(AsPosix(path)) == Components(path)
    ensures IsAbsolute(AsPosix(path)) <==> IsAbsolute(path)
  {
    var ps := Components(path);
    var body := Text.Join(ps, "/");
    ComponentsOfJoin(ps);
    SlashComponents(body);
    if !IsAbsolute(path) && ps == [] {
      assert Parts(".", "") == Parts([], ".");
    } else if !IsAbsolute(path) {
      JoinHead(ps);
    }
  }

  /** Stripping the root off the POSIX form of an absolute path leaves the
      joined components, which start with no slash. */
  lemma {:induction false} AbsoluteStripped(path: string)
    requires IsAbsolute(path)
    ensures LStripSlash(AsPosix(path)) == Text.Join(Components(path), "/")
    ensures Text.Join(Components(path), "/") == [] || Text.Join(Components(path), "/")[0] != '/'
  {
    var ps := Components(path);
    var body := Text.Join(ps, "/");
    if ps != [] {
      JoinHead(ps);
    }
    assert LStripSlash(body) == body;
    assert ("/" + body)[1..] == body;
    assert LStripSlash("/" + body) == body;
    assert ("//" + body)[1..] == "/" + body;
    assert LStripSlash("//" + body) == body;
  }

  // ----- _sqlite_url_from_path -----

  const SqlitePrefix: string := "sqlite:///"

  /** `_sqlite_url_from_path`; absolute paths get `sqlite:////`. */
  function SqliteUrlFromPath(path: string): (url: string)
    ensures path == ":memory:" ==> url == "sqlite:///:memory:"
    ensures path != ":memory:" && Text.Contains(path, "://") ==> url == path
  {
    if path == ":memory:" then "sqlite:///:memory:"
    else if Text.Contains(path, "://") then path
    else if IsAbsolute(path) then SqlitePrefix + "/" + LStripSlash(AsPosix(path))
    else SqlitePrefix + AsPosix(path)
  }

  /** For a file path the URL is `sqlite:///` followed by a path naming the
      same file: absolute paths get exactly one slash after the prefix,
      relative paths none. */
  lemma {:induction false} SqliteUrlOfFile(path: string)
    requires path != ":memory:" && !Text.Contains(path, "://")
    ensures var url := SqliteUrlFromPath(path);
      && Text.StartsWith(url, SqlitePrefix)
      && Components(url[|SqlitePrefix|..]) == Components(path)
      && (IsAbsolute(url[|SqlitePrefix|..]) <==> IsAbsolute(path))
      && (IsAbsolute(path) ==> |url| == |SqlitePrefix| + 1 || url[|SqlitePrefix| + 1] != '/')
  {
    var url := SqliteUrlFromPath(path);
    var n := |SqlitePrefix|;
    AsPosixSameFile(path);
    if IsAbsolute(path) {
      AbsoluteStripped(path);
      var body := Text.Join(Components(path), "/");
      ComponentsOfJoin(Components(path));
      SlashComponents(body);
      assert url == SqlitePrefix + ("/" + body);
      assert url[n..] == "/" + body;
    } else {
      assert url[n..] == AsPosix(path);
    }
  }

  // ----- _parse_port -----

  /** `_parse_port`: nothing for a missing or empty value, else `int(value)`;
      `Failure` is the `SystemExit` message. */
  function ParsePort(value: Option<string>): (r: Result<Option<int>, string>)
    ensures value.None? || value == Some("") ==> r == Success(None)
    ensures value.Some? && value.value != "" ==>
      (r.Success? <==> Text.ParseInt(value.value).Some?)
    ensures r.Success? && value.Some? && value.value != "" ==> r.value == Text.ParseInt(value.value)
    ensures r.Failure? ==> value.Some? && r.error == "Invalid port: " + value.value
  {
    if value.None? || value.value == "" then Success(None)
    else
      match Text.ParseInt(value.value)
      case Some(n) => Success(Some(n))
      case None => Failure("Invalid port: " + value.value)
  }

  /** A port written in decimal is read back. */
  lemma PortRoundTrip(n: nat)
    ensures ParsePort(Some(Text.NatToString(n))) == Success(Some(n))
  {
    Text.NatToStringRoundTrip(n);
  }

  // ----- main -----

  /** The parsed command line. */
  datatype Args = Args(host: Option<string>, port: Option<int>, dbPath: Option<string>,
                       databaseUrl: Option<string>, reload: bool)

  /** What the server is started with. */
  datatype Launch = Launch(host: string, port: int, databaseUrl: string, reload: bool)

  /** Python truthiness of an optional string. */
  predicate Truthy(s: Option<string>) {
    s.Some? && s.value != ""
  }

  /** `os.getenv(name)` */
  function Getenv(env: map<string, string>, name: string): (r: Option<string>)
    ensures r.Some? <==> name in env
  {
    if name in env then Some(env[name]) else None
  }

  /** `a or b or default` on optional strings. */
  function FirstText(a: Option<string>, b: Option<string>, default: string): (r: string)
    ensures Truthy(a) ==> r == a.value
    ensures !Truthy(a) && Truthy(b) ==> r == b.value
    ensures !Truthy(a) && !Truthy(b) ==> r == default
  {
    if Truthy(a) then a.value else if Truthy(b) then b.value else default
  }

  /** `a or b or default` on optional ports: 0 is falsy. */
  function FirstPort(a: Option<int>, b: Option<int>, default: int): (r: int)
    ensures a.Some? && a.value != 0 ==> r == a.value
    ensures (a.None? || a.value == 0) && b.Some? && b.value != 0 ==> r == b.value
    ensures (a.None? || a.value == 0) && (b.None? || b.value == 0) ==> r == default
  {
    if a.Some? && a.value != 0 then a.value else if b.Some? && b.value != 0 then b.value else default
  }

  /** The database URL chosen by `main`. */
  function DatabaseUrl(args: Args, env: map<string, string>): (url: string)
    ensures Truthy(args.databaseUrl) ==> url == args.databaseUrl.value
    ensures !Truthy(args.databaseUrl) && Truthy(args.dbPath) ==> url == SqliteUrlFromPath(args.dbPath.value)
  {
    if Truthy(args.databaseUrl) then args.databaseUrl.value
    else if Truthy(args.dbPath) then SqliteUrlFromPath(args.dbPath.value)
    else if Truthy(Getenv(env, "DATABASE_URL")) then env["DATABASE_URL"]
    else if Truthy(Getenv(env, "DB_PATH")) then SqliteUrlFromPath(env["DB_PATH"])
    else SqliteUrlFromPath(DefaultDbPath)
  }

  /** The environment decides the URL only when neither option is given:
      then `DATABASE_URL` wins over `DB_PATH`, and without either the
      default file is used. */
  lemma {:induction false} DatabaseUrlPrecedence(args: Args, env: map<string, string>, other: map<string, string>)
    ensures Truthy(args.databaseUrl) || Truthy(args.dbPath) ==> DatabaseUrl(args, env) == DatabaseUrl(args, other)
    ensures !Truthy(args.databaseUrl) && !Truthy(args.dbPath) ==>
      && ("DATABASE_URL" in env && env["DATABASE_URL"] != "" ==> DatabaseUrl(args, env) == env["DATABASE_URL"])
      && (("DATABASE_URL" !in env || env["DATABASE_URL"] == "") && "DB_PATH" in env && env["DB_PATH"] != "" ==>
            DatabaseUrl(args, env) == SqliteUrlFromPath(env["DB_PATH"]))
      && (("DATABASE_URL" !in env || env["DATABASE_URL"] == "") && ("DB_PATH" !in env || env["DB_PATH"] == "") ==>
            DatabaseUrl(args, env) == SqliteUrlFromPath(DefaultDbPath))
  {
  }

  /** `main` up to `uvicorn.run`: `APP_PORT` is parsed even when `--port`
      is given, so an invalid one always exits. */
  function Startup(args: Args, env: map<string, string>): (r: Result<Launch, string>)
    ensures r.Failure? <==> ParsePort(Getenv(env, "APP_PORT")).Failure?
    ensures r.Failure? ==> r.error == ParsePort(Getenv(env, "APP_PORT")).error
    ensures r.Success? ==>
      && r.value.host == FirstText(args.host, Getenv(env, "APP_HOST"), DefaultHost)
      && r.value.port == FirstPort(args.port, ParsePort(Getenv(env, "APP_PORT")).value, DefaultPort)
      && r.value.databaseUrl == DatabaseUrl(args, env)
      && r.value.reload == args.reload
  {
    var host := FirstText(args.host, Getenv(env, "APP_HOST"), DefaultHost);
    match ParsePort(Getenv(env, "APP_PORT"))
    case Failure(e) => Failure(e)
    case Success(envPort) => Success(Launch(host, FirstPort(args.port, envPort, DefaultPort), DatabaseUrl(args, env), args.reload))
  }

  /** With nothing given the server binds 0.0.0.0:8000, and a port of 0
      anywhere falls through to the next source. */
  lemma StartupDefaults(args: Args, env: map<string, string>)
    requires !Truthy(args.host) && args.port.None? && "APP_HOST" !in env && "APP_PORT" !in env
    ensures Startup(args, env).Success?
    ensures Startup(args, env).value.host == "0.0.0.0" && Startup(args, env).value.port == 8000
    ensures Startup(args.(port := Some(0)), env) == Startup(args, env)
  {
  }

  /** The process environment. */
  class Environ {
    var vars: map<string, string>

    constructor (vars: map<string, string>)
      ensures this.vars == vars
    {
      this.vars := vars;
    }
  }

  /** `main`: picks the settings and exports the database URL as
      `DATABASE_URL` before starting the server. */
  method RunServer(environ: Environ, args: Args) returns (r: Result<Launch, string>)
    modifies environ
    ensures r == Startup(args, old(environ.vars))
    ensures r.Success? ==> environ.vars == old(environ.vars)["DATABASE_URL" := r.value.databaseUrl]
    ensures r.Failure? ==> environ.vars == old(environ.vars)
  {
    var appHost := Getenv(environ.vars, "APP_HOST");
    var host := if Truthy(args.host) then args.host.value else if Truthy(appHost) then appHost.value else DefaultHost;
    var envPort := ParsePort(Getenv(environ.vars, "APP_PORT"));
    if envPort.Failure? {
      return Failure(envPort.error);
    }
    var port := if args.port.Some? && args.port.value != 0 then args.port.value
                else if envPort.value.Some? && envPort.value.value != 0 then envPort.value.value
                else DefaultPort;
    var databaseUrl: string;
    if Truthy(args.databaseUrl) {
      databaseUrl := args.databaseUrl.value;
    } else if Truthy(args.dbPath) {
      databaseUrl := SqliteUrlFromPath(args.dbPath.value);
    } else if Truthy(Getenv(environ.vars, "DATABASE_URL")) {
      databaseUrl := environ.vars["DATABASE_URL"];
    } else if Truthy(Getenv(environ.vars, "DB_PATH")) {
      databaseUrl := SqliteUrlFromPath(environ.vars["DB_PATH"]);
    } else {
      databaseUrl := SqliteUrlFromPath(DefaultDbPath);
    }
    environ.vars := environ.vars["DATABASE_URL" := databaseUrl];
    r := Success(Launch(host, port, databaseUrl, args.reload));
  }
}
