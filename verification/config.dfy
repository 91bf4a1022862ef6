/**
 * The API configuration: one host and version per build mode, the mode
 * read from the build environment, and the base URL the request client
 * prefixes to every path.
 */
module Config {
  import opened Wrappers
  import opened Text

  /** The address of one back end. */
  datatype ApiEnv = ApiEnv(host: string, version: string)

  const Development := ApiEnv("http://localhost:8080", "v1")
  const TestEnv := ApiEnv("http://test-api.example.com", "v1")
  const Production := ApiEnv("https://api.example.com", "v1")

  /** The mode used when the build does not set one. */
  const DefaultMode := "development"

  /** `API_CONFIG[mode]`: the three configured modes, and no configuration
      for any other name. */
  function Lookup(mode: string): (cfg: Option<ApiEnv>)
    ensures cfg.Some? <==> mode in {"development", "test", "production"}
    ensures mode == "development" ==> cfg == Some(Development)
    ensures mode == "test" ==> cfg == Some(TestEnv)
    ensures mode == "production" ==> cfg == Some(Production)
  {
    match mode
    case "development" => Some(Development)
    case "test" => Some(TestEnv)
    case "production" => Some(Production)
    case _ => None
  }

  /** `import.meta.env.MODE || 'development'`: an unset or empty mode falls
      back to development. */
  function Mode(envMode: Option<string>): (mode: string)
    ensures envMode.Some? && envMode.value != "" ==> mode == envMode.value
    ensures envMode.None? || envMode.value == "" ==> mode == DefaultMode
  {
    if envMode.Some? && envMode.value != "" then envMode.value else DefaultMode
  }

  /** `currentConfig`. */
  function CurrentConfig(envMode: Option<string>): (cfg: Option<ApiEnv>)
    ensures envMode.None? ==> cfg == Some(Development)
    ensures cfg.Some? <==> Mode(envMode) in {"development", "test", "production"}
  {
    Lookup(Mode(envMode))
  }

  /** `getBaseUrl` on a configuration: the host followed by `/api/` and the
      version, or the relative `/api/` and version when the host is empty. */
  function BaseUrl(cfg: ApiEnv): (url: string)
    ensures EndsWith(url, "/api/" + cfg.version)
    ensures cfg.host != "" ==> StartsWith(url, cfg.host) && |url| == |cfg.host| + 5 + |cfg.version|
    ensures cfg.host == "" ==> StartsWith(url, "/api/") && |url| == 5 + |cfg.version|
  {
    var tail := "/api/" + cfg.version;
    var url := if cfg.host != "" then cfg.host + tail else tail;
    assert url[|url| - |tail|..] == tail;
    url
  }

  /** Every configured mode has a host and version `v1`, so the relative
      branch is never taken; the development build talks to the local
      server. */
  lemma ConfiguredBaseUrls(mode: string)
    requires Lookup(mode).Some?
    ensures Lookup(mode).value.host != "" && Lookup(mode).value.version == "v1"
    ensures EndsWith(BaseUrl(Lookup(mode).value), "/api/v1")
    ensures BaseUrl(Development) == "http://localhost:8080/api/v1"
    ensures CurrentConfig(None) == Some(Development)
  {
  }

  /** The base URL determines its configuration: the host and the version
      can be read back from it. */
  lemma BaseUrlRoundTrip(cfg: ApiEnv)
    requires cfg.host != ""
    ensures var url := BaseUrl(cfg);
      url[..|cfg.host|] == cfg.host && url[|cfg.host| + 5..] == cfg.version
  {
    var url := BaseUrl(cfg);
    assert url == cfg.host + ("/api/" + cfg.version);
  }
}
