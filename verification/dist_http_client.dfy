/**
 * The compiled `HttpClient` of dist/index.es.js: the security flag is called
 * `useHttps` and `normalizeUrl` splits on the scheme that flag selects.
 */
module DistHttpClient {
  import opened Wrappers
  import opened JsSplit
  import opened SlashRuns
  import opened UrlNormalize
  import opened JsObject
  import opened ClientInput

  /** The first constructor argument; `None` is an omitted property. */
  datatype Settings = Settings(useHttps: Option<bool>, baseUrl: string, endpoint: Option<string>)

  /** A constructed client: its flag and the options given to `axios.create`. */
  datatype HttpClient = HttpClient(useHttps: bool, axiosOptions: Object)

  /** `normalizeUrl`, splitting on "https://" or "http://" as `useHttps` says. */
  function NormalizeUrl(useHttps: bool, url: string): (r: Option<string>)
    ensures r.Some? <==> Contains(url, Scheme(useHttps))
    ensures r.Some? ==> IsNormalized(r.value, useHttps)
  {
    Normalize(url, Scheme(useHttps), useHttps)
  }

  /** For a fixed flag, normalizing twice is the same as normalizing once. */
  lemma NormalizeUrlIdempotent(useHttps: bool, url: string)
    requires NormalizeUrl(useHttps, url).Some?
    ensures NormalizeUrl(useHttps, NormalizeUrl(useHttps, url).value) == NormalizeUrl(useHttps, url)
  {
    NormalizeIdempotent(url, useHttps);
  }

  /**
   * The kept remainder is exactly the text between the first separator and
   * the next one (or the end); the output is the scheme followed by that
   * text with runs of '/' collapsed.
   */
  lemma NormalizeUrlKeepsSegment(useHttps: bool, url: string, i: int, m: string)
    requires FirstAt(url, Scheme(useHttps), i)
    requires KeptUpToNext(url[i + |Scheme(useHttps)|..], Scheme(useHttps), m)
    ensures NormalizeUrl(useHttps, url) == Some(Scheme(useHttps) + Collapse(m))
  {
    SplitSecondComplete(url, Scheme(useHttps), i, m);
    ReplaceSlashRunsIsCollapse(m);
  }

  /**
   * Only the part after the scheme is free of "//": a remainder that begins
   * with '/' leaves three slashes after the scheme.
   */
  lemma TripleSlashAfterScheme()
    ensures NormalizeUrl(false, "http:///a") == Some("http:///a")
  {
    assert "http:///a" == HttpScheme + "/a";
    SplitSecondAfterPrefix(HttpScheme, "/a");
    ReplaceSlashRunsFixpoint("/a");
  }

  lemma CollapseExample()
    ensures ReplaceSlashRuns("h/v1//u") == "h/v1/u"
  {
    assert "u"[1..] == [];
    assert LeadingSlashes("u") == 0;
    assert ReplaceSlashRuns("u") == "u";
    assert "//u"[1..] == "/u" && "/u"[1..] == "u";
    assert LeadingSlashes("//u") == 2;
    assert "//u"[2..] == "u";
    assert ReplaceSlashRuns("//u") == "/u";
    assert "1//u"[1..] == "//u";
    assert ReplaceSlashRuns("1//u") == "1/u";
    assert "v1//u"[1..] == "1//u";
    assert ReplaceSlashRuns("v1//u") == "v1/u";
    assert "/v1//u"[1..] == "v1//u";
    assert ReplaceSlashRuns("/v1//u") == "/v1/u";
    assert "h/v1//u"[1..] == "/v1//u";
  }

  lemma SplitExample()
    ensures SplitSecond("http://h/v1//u", HttpScheme) == Some("h/v1//u")
  {
    var c := "h/v1//u";
    assert c[0..7][1] == '/';
    assert !OccursAt(c, HttpScheme, 0);
    SplitSecondAfterPrefix(HttpScheme, c);
    assert HttpScheme + c == "http://h/v1//u";
  }

  /**
   * The URL joined from base URL "http://h" and endpoint "v1//u", with the
   * flag off: the doubled slash in the endpoint is collapsed.
   */
  lemma InsecureExample()
    ensures NormalizeUrl(false, "http://h/v1//u") == Some("http://h/v1/u")
  {
    SplitExample();
    CollapseExample();
    assert HttpScheme + "h/v1/u" == "http://h/v1/u";
  }

  /**
   * The constructor: `useHttps` defaults to false, the URL is the joined
   * base URL and endpoint, and the options are `{baseURL: …}` overlaid by
   * `config`. It throws exactly when the joined URL lacks the separator.
   */
  function New(settings: Settings, config: Object): (r: Result<HttpClient, ConstructError>)
    ensures r.Success? <==>
      Contains(JoinedUrl(settings.baseUrl, settings.endpoint), Scheme(settings.useHttps == Some(true)))
    ensures r.Success? ==> r.value.useHttps == (settings.useHttps == Some(true))
    ensures r.Success? ==> r.value.axiosOptions.Keys == config.Keys + {"baseURL"}
    ensures r.Success? ==> forall k | k in config :: r.value.axiosOptions[k] == config[k]
    ensures r.Success? && "baseURL" !in config ==>
      r.value.axiosOptions["baseURL"].Text? &&
      IsNormalized(r.value.axiosOptions["baseURL"].text, r.value.useHttps)
  {
    var useHttps := settings.useHttps.GetOr(false);
    match NormalizeUrl(useHttps, JoinedUrl(settings.baseUrl, settings.endpoint))
    case None => Failure(ReplaceOnUndefined)
    case Some(u) =>
      OverlayOneKey("baseURL", Text(u), config);
      Success(HttpClient(useHttps, Assign(map["baseURL" := Text(u)], [config])))
  }

  /** An omitted `useHttps` behaves exactly like `false`. */
  lemma UseHttpsDefaultsToFalse(settings: Settings, config: Object)
    ensures New(settings.(useHttps := None), config) == New(settings.(useHttps := Some(false)), config)
  {
  }

  /** An omitted endpoint behaves exactly like the literal text "undefined". */
  lemma OmittedEndpointIsUndefinedText(settings: Settings, config: Object)
    ensures New(settings.(endpoint := None), config) == New(settings.(endpoint := Some("undefined")), config)
  {
  }

  /**
   * The base URL the client receives is the normalized join, unless
   * `config` carries its own `baseURL`, which then wins.
   */
  lemma NewBaseUrl(settings: Settings, config: Object)
    requires New(settings, config).Success?
    ensures var opts := New(settings, config).value.axiosOptions;
            var flag := settings.useHttps == Some(true);
            opts["baseURL"] ==
              if "baseURL" in config then config["baseURL"]
              else Text(NormalizeUrl(flag, JoinedUrl(settings.baseUrl, settings.endpoint)).value)
  {
  }

  /** Any "http://" base URL is accepted when the flag is off or omitted. */
  lemma HttpBaseUrlAccepted(host: string, endpoint: Option<string>, config: Object)
    ensures New(Settings(None, HttpScheme + host, endpoint), config).Success?
    ensures New(Settings(Some(false), HttpScheme + host, endpoint), config).Success?
  {
    var u := JoinedUrl(HttpScheme + host, endpoint);
    assert u[0..|HttpScheme|] == HttpScheme;
    assert OccursAt(u, HttpScheme, 0);
  }
}
