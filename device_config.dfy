/**
 * Connection settings of the access-control terminal, derived from the process environment
 * (src/device/deviceConfig.js). The environment is a map from variable names to their text;
 * a variable that is not set is absent from the map.
 */
module DeviceConfig {
  import opened Wrappers
  import opened JsBuiltins

  type Env = map<string, string>

  /** `process.env[key]`: `undefined` (None) when the variable is not set. */
  function EnvValue(env: Env, key: string): (r: Option<string>)
    ensures r.Some? <==> key in env
    ensures r.Some? ==> r.value == env[key]
  {
    if key in env then Some(env[key]) else None
  }

  /** `process.env[key] || fallback`: an unset or empty variable gives the fallback. */
  function EnvOr(env: Env, key: string, fallback: string): (r: string)
    ensures Truthy(EnvValue(env, key)) ==> r == env[key]
    ensures !Truthy(EnvValue(env, key)) ==> r == fallback
  {
    if key in env && env[key] != "" then env[key] else fallback
  }

  /** Template-literal rendering of a possibly undefined string. */
  function TemplateText(v: Option<string>): (r: string)
    ensures v.Some? ==> r == v.value
    ensures v.None? ==> r == "undefined"
  {
    match v
    case None => "undefined"
    case Some(s) => s
  }

  /** HTTP Basic credentials, passed through as read (either may be undefined). */
  datatype Auth = Auth(username: Option<string>, password: Option<string>)

  datatype Config = Config(
    host: Option<string>,
    port: NumberValue,
    baseURL: string,
    auth: Auth,
    doorNo: NumberValue,
    timeoutMs: NumberValue)

  /**
   * `parseInt(process.env[key] || fallback, 10)`. The fallback texts are the renderings of
   * `fallback` ("80", "1", "8000"), so the unset case is written as the number they read as;
   * ReadNumberOfFallback proves the two agree.
   */
  function ReadNumber(env: Env, key: string, fallback: nat): (r: NumberValue)
    ensures Truthy(EnvValue(env, key)) ==> r == ParseInt(env[key])
    ensures !Truthy(EnvValue(env, key)) ==> r == Num(fallback)
  {
    if Truthy(EnvValue(env, key)) then ParseInt(env[key]) else Num(fallback)
  }

  /** ReadNumber is `parseInt` of the variable or of the fallback's decimal text. */
  lemma ReadNumberOfFallback(env: Env, key: string, fallback: nat)
    ensures ReadNumber(env, key, fallback) == ParseInt(EnvOr(env, key, NatToString(fallback)))
  {
    if !Truthy(EnvValue(env, key)) {
      ParseIntOfNatToString(fallback, []);
      assert NatToString(fallback) + [] == NatToString(fallback);
    }
  }

  /**
   * `getConfig()`: host and credentials as read, the three numbers through `parseInt` of the
   * variable or its default (port 80, door 1, timeout 8000 ms), and the ISAPI base URL built from
   * host and port. It is defined for every environment: missing settings only produce a warning.
   */
  function GetConfig(env: Env): (c: Config)
    ensures c.host == EnvValue(env, "HIKVISION_HOST")
    ensures c.auth == Auth(EnvValue(env, "HIKVISION_USER"), EnvValue(env, "HIKVISION_PASS"))
    ensures c.baseURL == "http://" + TemplateText(c.host) + ":" + NumberToString(c.port) + "/ISAPI"
  {
    var host := EnvValue(env, "HIKVISION_HOST");
    var port := ReadNumber(env, "HIKVISION_PORT", 80);
    Config(
      host,
      port,
      "http://" + TemplateText(host) + ":" + NumberToString(port) + "/ISAPI",
      Auth(EnvValue(env, "HIKVISION_USER"), EnvValue(env, "HIKVISION_PASS")),
      ReadNumber(env, "HIKVISION_DOOR_NO", 1),
      ReadNumber(env, "HIKVISION_TIMEOUT_MS", 8000))
  }

  /** The condition under which `getConfig` warns: host, user or password unset or empty. */
  predicate MissingCredentials(env: Env) {
    !Truthy(EnvValue(env, "HIKVISION_HOST"))
    || !Truthy(EnvValue(env, "HIKVISION_USER"))
    || !Truthy(EnvValue(env, "HIKVISION_PASS"))
  }

  /** A numeric setting that is unset or empty takes its default. */
  lemma NumbersDefault(env: Env)
    ensures !Truthy(EnvValue(env, "HIKVISION_PORT")) ==> GetConfig(env).port == Num(80)
    ensures !Truthy(EnvValue(env, "HIKVISION_DOOR_NO")) ==> GetConfig(env).doorNo == Num(1)
    ensures !Truthy(EnvValue(env, "HIKVISION_TIMEOUT_MS")) ==> GetConfig(env).timeoutMs == Num(8000)
  {
  }

  /** A numeric setting written in decimal is read as that number. */
  lemma NumbersConfigured(env: Env, port: nat, door: nat, timeoutMs: nat)
    ensures EnvValue(env, "HIKVISION_PORT") == Some(NatToString(port)) ==> GetConfig(env).port == Num(port)
    ensures EnvValue(env, "HIKVISION_DOOR_NO") == Some(NatToString(door)) ==> GetConfig(env).doorNo == Num(door)
    ensures EnvValue(env, "HIKVISION_TIMEOUT_MS") == Some(NatToString(timeoutMs)) ==> GetConfig(env).timeoutMs == Num(timeoutMs)
  {
    ParseIntOfNatToString(port, []);
    ParseIntOfNatToString(door, []);
    ParseIntOfNatToString(timeoutMs, []);
    assert NatToString(port) + [] == NatToString(port);
    assert NatToString(door) + [] == NatToString(door);
    assert NatToString(timeoutMs) + [] == NatToString(timeoutMs);
  }

  /** With a host set and no port, the base URL is `http://<host>:80/ISAPI`. */
  lemma BaseUrlWithDefaultPort(env: Env, host: string)
    requires EnvValue(env, "HIKVISION_HOST") == Some(host)
    requires !Truthy(EnvValue(env, "HIKVISION_PORT"))
    ensures GetConfig(env).baseURL == "http://" + host + ":80/ISAPI"
  {
    assert GetConfig(env).baseURL == "http://" + host + ":" + NumberToString(Num(80)) + "/ISAPI";
    DefaultPortText();
    assert "http://" + host + ":" + "80" + "/ISAPI" == "http://" + host + ":80/ISAPI";
  }

  lemma DefaultPortText()
    ensures NumberToString(Num(80)) == "80"
  {
    assert NatToString(8) == "8";
  }

  /**
   * An unset host draws the warning, and the configuration is still returned: its base URL then
   * names the host `undefined`.
   */
  lemma UnsetHostAddressesUndefined(env: Env)
    requires "HIKVISION_HOST" !in env
    ensures MissingCredentials(env)
    ensures GetConfig(env).baseURL == "http://undefined:" + NumberToString(GetConfig(env).port) + "/ISAPI"
  {
  }
}
