/**
 * The TypeScript `HttpClient` of src/http/http.ts: the security flag is
 * called `isBaseEndpointSecure`, and `normalizeUrl` always splits on
 * "https://" while the scheme it puts back still follows the flag.
 */
module SrcHttpClient {
  import opened Wrappers
  import opened JsSplit
  import opened SlashRuns
  import opened UrlNormalize
  import opened JsObject
  import opened ClientInput

  /** The first constructor argument; `None` is an omitted property. */
  datatype Settings = Settings(isBaseEndpointSecure: Option<bool>, baseUrl: string, endpoint: Option<string>)

  /** A constructed client: its flag and the options given to `axios.create`. */
  datatype HttpClient = HttpClient(isBaseEndpointSecure: bool, axiosOptions: Object)

  /**
   * `normalizeUrl`: whatever the flag, the input must contain "https://";
   * the flag only chooses the scheme of the output.
   */
  function NormalizeUrl(isBaseEndpointSecure: bool, url: string): (r: Option<string>)
    ensures r.Some? <==> Contains(url, HttpsScheme)
    ensures r.Some? ==> IsNormalized(r.value, isBaseEndpointSecure)
  {
    Normalize(url, HttpsScheme, isBaseEndpointSecure)
  }

  /**
   * The flag does not affect what is kept: turning it off only swaps
   * "https://" for "http://" in front of the same remainder.
   */
  lemma FlagOnlyChoosesScheme(url: string)
    ensures NormalizeUrl(true, url).Some? <==> NormalizeUrl(false, url).Some?
    ensures NormalizeUrl(true, url).Some? ==>
      HasPrefix(NormalizeUrl(true, url).value, HttpsScheme) &&
      NormalizeUrl(false, url).value == HttpScheme + NormalizeUrl(true, url).value[|HttpsScheme|..]
  {
  }

  /**
   * The kept text is the segment between the first "https://" and the next
   * one (or the end), whatever the flag; the output is the flag's scheme
   * followed by that segment with runs of '/' collapsed.
   */
  lemma NormalizeUrlKeepsSegment(isBaseEndpointSecure: bool, url: string, i: int, m: string)
    requires FirstAt(url, HttpsScheme, i)
    requires KeptUpToNext(url[i + |HttpsScheme|..], HttpsScheme, m)
    ensures NormalizeUrl(isBaseEndpointSecure, url) == Some(Scheme(isBaseEndpointSecure) + Collapse(m))
  {
    SplitSecondComplete(url, HttpsScheme, i, m);
    ReplaceSlashRunsIsCollapse(m);
  }

  /** "http://" + x contains "https://" exactly when x does. */
  lemma HttpPrefixContainsHttps(x: string)
    ensures Contains(HttpScheme + x, HttpsScheme) <==> Contains(x, HttpsScheme)
  {
    var u := HttpScheme + x;
    var n := |HttpsScheme|;
    forall k | 0 <= k < |HttpScheme|
      ensures !OccursAt(u, HttpsScheme, k)
    {
      if k + n <= |u| {
        if k == 0 {
          assert u[k..k + n][4] == u[4] == ':';
        } else {
          assert u[k..k + n][0] == u[k] != 'h';
        }
      }
    }
    if Contains(u, HttpsScheme) {
      var i :| 0 <= i <= |u| - n && OccursAt(u, HttpsScheme, i);
      OccursAtShift(HttpScheme, x, HttpsScheme, i - |HttpScheme|);
      assert OccursAt(x, HttpsScheme, i - |HttpScheme|);
    }
    if Contains(x, HttpsScheme) {
      var k :| 0 <= k <= |x| - n && OccursAt(x, HttpsScheme, k);
      OccursAtShift(HttpScheme, x, HttpsScheme, k);
      assert OccursAt(u, HttpsScheme, |HttpScheme| + k);
    }
  }

  /**
   * An "http://" URL is rejected, whatever the flag, unless "https://"
   * appears later in it.
   */
  lemma HttpUrlRejected(secure: bool, x: string)
    ensures NormalizeUrl(secure, HttpScheme + x).None? <==> !Contains(x, HttpsScheme)
  {
    HttpPrefixContainsHttps(x);
  }

  /** With the flag on, normalizing twice is the same as normalizing once. */
  lemma SecureNormalizeIdempotent(url: string)
    requires NormalizeUrl(true, url).Some?
    ensures NormalizeUrl(true, NormalizeUrl(true, url).value) == NormalizeUrl(true, url)
  {
    NormalizeIdempotent(url, true);
  }

  /**
   * With the flag off, the output no longer contains "https://", so a
   * second call on it throws, with either flag.
   */
  lemma InsecureSecondCallFails(url: string)
    requires NormalizeUrl(false, url).Some?
    ensures !Contains(NormalizeUrl(false, url).value, HttpsScheme)
    ensures NormalizeUrl(false, NormalizeUrl(false, url).value).None?
    ensures NormalizeUrl(true, NormalizeUrl(false, url).value).None?
  {
    var u := NormalizeUrl(false, url).value;
    var c := u[|HttpScheme|..];
    assert u == HttpScheme + c;
    SchemeAbsentWithoutDoubleSlash(c, true);
    HttpPrefixContainsHttps(c);
  }

  /**
   * The constructor: `isBaseEndpointSecure` defaults to false, the URL is
   * the joined base URL and endpoint, and the options are `{baseURL: …}`
   * followed by the spread of `config`. It throws exactly when the joined
   * URL lacks "https://".
   */
  function New(settings: Settings, config: Object): (r: Result<HttpClient, ConstructError>)
    ensures r.Success? <==> Contains(JoinedUrl(settings.baseUrl, settings.endpoint), HttpsScheme)
    ensures r.Success? ==> r.value.isBaseEndpointSecure == (settings.isBaseEndpointSecure == Some(true))
    ensures r.Success? ==> r.value.axiosOptions.Keys == config.Keys + {"baseURL"}
    ensures r.Success? ==> forall k | k in config :: r.value.axiosOptions[k] == config[k]
    ensures r.Success? && "baseURL" !in config ==>
      r.value.axiosOptions["baseURL"].Text? &&
      IsNormalized(r.value.axiosOptions["baseURL"].text, r.value.isBaseEndpointSecure)
  {
    var secure := settings.isBaseEndpointSecure.GetOr(false);
    match NormalizeUrl(secure, JoinedUrl(settings.baseUrl, settings.endpoint))
    case None => Failure(ReplaceOnUndefined)
    case Some(u) =>
      OverlayOneKey("baseURL", Text(u), config);
      Success(HttpClient(secure, Assign(map["baseURL" := Text(u)], [config])))
  }

  /**
   * The base URL the client receives is the normalized join, unless
   * `config` carries its own `baseURL`, which the spread then puts over it.
   */
  lemma NewBaseUrl(settings: Settings, config: Object)
    requires New(settings, config).Success?
    ensures var opts := New(settings, config).value.axiosOptions;
            var flag := settings.isBaseEndpointSecure == Some(true);
            opts["baseURL"] ==
              if "baseURL" in config then config["baseURL"]
              else Text(NormalizeUrl(flag, JoinedUrl(settings.baseUrl, settings.endpoint)).value)
  {
  }

  /** An omitted `isBaseEndpointSecure` behaves exactly like `false`. */
  lemma SecureFlagDefaultsToFalse(settings: Settings, config: Object)
    ensures New(settings.(isBaseEndpointSecure := None), config)
         == New(settings.(isBaseEndpointSecure := Some(false)), config)
  {
  }

  /** An omitted endpoint behaves exactly like the literal text "undefined". */
  lemma OmittedEndpointIsUndefinedText(settings: Settings, config: Object)
    ensures New(settings.(endpoint := None), config) == New(settings.(endpoint := Some("undefined")), config)
  {
  }

  /**
   * Every "http://" base URL whose joined tail (host, '/', endpoint text)
   * does not contain "https://" makes the constructor throw, whatever the
   * flag. Host and endpoint can each lack "https://" while their join has it.
   */
  lemma HttpBaseUrlRejected(flag: Option<bool>, host: string, endpoint: Option<string>, config: Object)
    requires !Contains(host + "/" + TemplateText(endpoint), HttpsScheme)
    ensures New(Settings(flag, HttpScheme + host, endpoint), config) == Failure(ReplaceOnUndefined)
  {
    var x := host + "/" + TemplateText(endpoint);
    var u := JoinedUrl(HttpScheme + host, endpoint);
    assert u == HttpScheme + x;
    HttpPrefixContainsHttps(x);
    assert !Contains(u, HttpsScheme);
    assert !New(Settings(flag, HttpScheme + host, endpoint), config).Success?;
  }

  /** A concrete instance: base URL "http://a", endpoint "b", flag omitted. */
  lemma HttpBaseUrlExample(config: Object)
    ensures New(Settings(None, "http://a", Some("b")), config) == Failure(ReplaceOnUndefined)
  {
    assert "http://a" == HttpScheme + "a";
    HttpBaseUrlRejected(None, "a", Some("b"), config);
  }
}
