/**
 * `build_cfg`: merge the parsed command-line options with the environment
 * (`load_config_from_env`) into a `ScrapeConfig`, or stop with a message.
 */
module Config {
  import opened Wrappers
  import opened Strings

  const DefaultBaseUrl: string := "https://www.ybsnow.com/"
  const LoginPath: string := "index.php"
  const DefaultLoginUrl: string := DefaultBaseUrl + LoginPath

  /** The parsed command line; an option not given is `None`, as argparse leaves it. */
  datatype Args = Args(
    baseUrl: Option<string>,
    loginUrl: Option<string>,
    ordersUrl: Option<string>,
    email: Option<string>,
    password: Option<string>,
    outCsv: string,
    outXlsx: string,
    dbFile: string,
    timeout: int)

  /** The process environment after `.env` is loaded. */
  type Environment = map<string, string>

  /** The dictionary `load_config_from_env` returns. */
  datatype EnvConfig = EnvConfig(email: string, password: string, baseUrl: string, ordersUrl: string)

  datatype ScrapeConfig = ScrapeConfig(
    baseUrl: string,
    loginUrl: string,
    ordersUrl: string,
    email: string,
    password: string,
    outCsv: string,
    outXlsx: string,
    outDb: string,
    timeout: int)

  /** The two ways `build_cfg` exits with `SystemExit`. */
  datatype ConfigError =
    | OrdersUrlRequired    // "Orders URL is required (use --orders-url or YBSNOW_ORDERS_URL in .env)"
    | CredentialsRequired  // "Email and Password are required (use --email/--password or .env)"

  /** `os.getenv(key, default)`: an empty value that is set is returned as it is. */
  function GetEnv(env: Environment, key: string, default: string): string
  {
    if key in env then env[key] else default
  }

  /**
   * `load_config_from_env`: each setting is the environment's value when the
   * variable is set (even to ""), and its default otherwise.
   */
  function LoadConfigFromEnv(env: Environment): (r: EnvConfig)
    ensures "YBSNOW_EMAIL" !in env ==> r.email == ""
    ensures "YBSNOW_PASSWORD" !in env ==> r.password == ""
    ensures "YBSNOW_BASE_URL" !in env ==> r.baseUrl == DefaultBaseUrl
    ensures "YBSNOW_ORDERS_URL" !in env ==> r.ordersUrl == ""
  {
    EnvConfig(
      GetEnv(env, "YBSNOW_EMAIL", ""),
      GetEnv(env, "YBSNOW_PASSWORD", ""),
      GetEnv(env, "YBSNOW_BASE_URL", DefaultBaseUrl),
      GetEnv(env, "YBSNOW_ORDERS_URL", ""))
  }

  /** Python's `a or b` for a command-line option `a`: `None` and "" are both false. */
  function OrElse(a: Option<string>, b: string): string
  {
    if a.Some? && a.value != "" then a.value else b
  }

  /** `base_url.rstrip("/") + "/" + LOGIN_PATH`. */
  function DerivedLoginUrl(baseUrl: string): (r: string)
    ensures |r| > |LoginPath| && r[|r| - |LoginPath| - 1..] == "/" + LoginPath
  {
    RStripChar(baseUrl, '/') + "/" + LoginPath
  }

  /**
   * `build_cfg`: resolve every setting, then stop when the orders URL, the
   * email or the password is still empty. A configuration it returns has
   * all three, and a login URL.
   */
  function BuildCfg(args: Args, env: Environment): (r: Result<ScrapeConfig, ConfigError>)
    ensures r.Success? ==> r.value.ordersUrl != "" && r.value.email != "" && r.value.password != ""
    ensures r.Success? ==> r.value.loginUrl != ""
  {
    var e := LoadConfigFromEnv(env);
    var baseUrl := OrElse(args.baseUrl, e.baseUrl);
    var loginUrl := OrElse(args.loginUrl, DerivedLoginUrl(baseUrl));
    var ordersUrl := OrElse(args.ordersUrl, e.ordersUrl);
    var email := OrElse(args.email, e.email);
    var password := OrElse(args.password, e.password);
    if ordersUrl == "" then Failure(OrdersUrlRequired)
    else if email == "" || password == "" then Failure(CredentialsRequired)
    else Success(ScrapeConfig(baseUrl, loginUrl, ordersUrl, email, password,
                              args.outCsv, args.outXlsx, args.dbFile, args.timeout))
  }
}

/** What `build_cfg` promises. */
module ConfigProperties {
  import opened Wrappers
  import opened Strings
  import opened Config

  /** The value a setting resolves to: the command line when it is non-empty, otherwise the environment. */
  predicate Prefers(resolved: string, cli: Option<string>, env: Environment, key: string, default: string)
  {
    if cli.Some? && cli.value != "" then resolved == cli.value
    else resolved == (if key in env then env[key] else default)
  }

  /**
   * Precedence: each of base URL, orders URL, email and password is the
   * command-line value when that is non-empty and the environment's
   * otherwise; the base URL defaults to https://www.ybsnow.com/. The output
   * paths and the timeout are copied through unchanged.
   */
  lemma ResolvedFromCliThenEnv(args: Args, env: Environment, cfg: ScrapeConfig)
    requires BuildCfg(args, env) == Success(cfg)
    ensures Prefers(cfg.baseUrl, args.baseUrl, env, "YBSNOW_BASE_URL", DefaultBaseUrl)
    ensures Prefers(cfg.ordersUrl, args.ordersUrl, env, "YBSNOW_ORDERS_URL", "")
    ensures Prefers(cfg.email, args.email, env, "YBSNOW_EMAIL", "")
    ensures Prefers(cfg.password, args.password, env, "YBSNOW_PASSWORD", "")
    ensures cfg.outCsv == args.outCsv && cfg.outXlsx == args.outXlsx && cfg.outDb == args.dbFile
    ensures cfg.timeout == args.timeout
  {
  }

  /**
   * Without a login URL on the command line, the login URL is derived from the
   * resolved base URL.
   */
  lemma LoginUrlDerived(args: Args, env: Environment, cfg: ScrapeConfig)
    requires BuildCfg(args, env) == Success(cfg)
    requires args.loginUrl.None? || args.loginUrl == Some("")
    ensures cfg.loginUrl == DerivedLoginUrl(cfg.baseUrl)
  {
  }

  /**
   * A derived login URL is the base URL with its trailing slashes removed,
   * then "/index.php": exactly one slash precedes "index.php".
   */
  lemma DerivedLoginUrlShape(baseUrl: string)
    ensures exists p ::
      && DerivedLoginUrl(baseUrl) == p + "/index.php"
      && (p == [] || p[|p| - 1] != '/')
      && baseUrl == p + seq(|baseUrl| - |p|, _ => '/')
  {
    var p := RStripChar(baseUrl, '/');
    assert DerivedLoginUrl(baseUrl) == p + "/index.php";
    var slashes := seq(|baseUrl| - |p|, _ => '/');
    forall i | 0 <= i < |baseUrl| ensures baseUrl[i] == (p + slashes)[i] {
      if i >= |p| {
        assert slashes[i - |p|] == '/';
      }
    }
    assert baseUrl == p + slashes;
  }

  /** A login URL given on the command line is used as it is. */
  lemma LoginUrlGiven(args: Args, env: Environment, cfg: ScrapeConfig)
    requires BuildCfg(args, env) == Success(cfg)
    requires args.loginUrl.Some? && args.loginUrl.value != ""
    ensures cfg.loginUrl == args.loginUrl.value
  {
  }

  /** With the default base URL, the derived login URL is the script's default login URL. */
  lemma DefaultBaseGivesDefaultLogin()
    ensures DerivedLoginUrl(DefaultBaseUrl) == DefaultLoginUrl
  {
    var stem := "https://www.ybsnow.com";
    var n := |DefaultBaseUrl|;
    assert DefaultBaseUrl == stem + "/";
    assert DefaultBaseUrl[n - 2] == 'm';
    assert SkipCharBack(DefaultBaseUrl, '/', n) == SkipCharBack(DefaultBaseUrl, '/', n - 1) == n - 1;
    assert RStripChar(DefaultBaseUrl, '/') == stem;
  }

  /**
   * The checks, in order: no orders URL stops resolution; only with an orders
   * URL does a missing email or password stop it; otherwise it succeeds.
   */
  lemma FailureOrder(args: Args, env: Environment)
    ensures var orders := OrElse(args.ordersUrl, GetEnv(env, "YBSNOW_ORDERS_URL", ""));
            var email := OrElse(args.email, GetEnv(env, "YBSNOW_EMAIL", ""));
            var password := OrElse(args.password, GetEnv(env, "YBSNOW_PASSWORD", ""));
      && (BuildCfg(args, env) == Failure(OrdersUrlRequired) <==> orders == "")
      && (BuildCfg(args, env) == Failure(CredentialsRequired) <==> orders != "" && (email == "" || password == ""))
      && (BuildCfg(args, env).Success? <==> orders != "" && email != "" && password != "")
  {
  }
}
