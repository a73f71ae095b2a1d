/** Construction of a `SharepointClientAccess` (sig_sharepoint_app/sharepoint_api.py,
    lines 22-62) and the `from_url` factory (lines 100-133).

    The two confirming requests of `get_sharepoint_ctx` are remote calls;
    their outcomes are inputs. The first one is load-bearing: any failure
    escapes the constructor. The second one is best-effort: a
    `SharepointError` is logged and swallowed, anything else escapes.
 */
module ClientAccess {
  import opened Results
  import opened Credentials

  /** The outcomes of the two confirming requests (web, then site). */
  datatype LivenessChecks = LivenessChecks(web: Outcome, site: Outcome)

  /** A constructed client: the site, the server, the derived URL and the
      credentials it authenticated with. All of it is fixed at construction;
      the properties `site`, `server_url` and `complete_url` return these
      fields as they are. */
  datatype Client = Client(site: string, serverUrl: string, completeUrl: string, credentials: Credentials)

  /** The site URL every request of a client is scoped to. */
  function CompleteUrl(serverUrl: string, site: string): (url: string)
    ensures |url| == |serverUrl| + 7 + |site|
    ensures url[..|serverUrl|] == serverUrl && url[|serverUrl| + 7..] == site
  {
    serverUrl + "/sites/" + site
  }

  /** Given the server, the complete URL determines the site: it is exactly
      what follows `serverUrl + "/sites/"`. */
  lemma CompleteUrlDeterminesSite(serverUrl: string, site: string)
    ensures |CompleteUrl(serverUrl, site)| == |serverUrl| + 7 + |site|
    ensures CompleteUrl(serverUrl, site)[..|serverUrl|] == serverUrl
    ensures CompleteUrl(serverUrl, site)[|serverUrl|..|serverUrl| + 7] == "/sites/"
    ensures CompleteUrl(serverUrl, site)[|serverUrl| + 7..] == site
  {
  }

  /** `get_sharepoint_ctx`: the web request must succeed; a failing site
      request is tolerated only when it raised a `SharepointError`. */
  function ConfirmSession(checks: LivenessChecks): (r: Result<()>)
    ensures r.Ok? <==> checks.web == Done && checks.site != Fails(ForeignError)
    ensures checks.web.Fails? ==> r == Err(Propagated(checks.web.raised))
    ensures checks.web == Done && checks.site == Fails(ForeignError) ==> r == Err(Propagated(ForeignError))
  {
    match checks.web
    case Fails(raised) => Err(Propagated(raised))
    case Done =>
      match checks.site
      case Fails(ForeignError) => Err(Propagated(ForeignError))
      case _ => Ok(())
  }

  /** `SharepointClientAccess(site, server_url, root_cred_path, client_id, client_secret)`. */
  function Connect(site: string, serverUrl: string, credPath: string, secrets: SecretsFile,
                   clientId: string, clientSecret: string, checks: LivenessChecks): (r: Result<Client>)
    ensures r.Ok? <==> Resolve(site, credPath, secrets, clientId, clientSecret).Ok?
                       && ConfirmSession(checks).Ok?
    ensures r.Ok? ==> r.value.site == site && r.value.serverUrl == serverUrl
    ensures r.Ok? ==> r.value.completeUrl == serverUrl + "/sites/" + site
    ensures r.Ok? ==> r.value.credentials == Resolve(site, credPath, secrets, clientId, clientSecret).value
    ensures Resolve(site, credPath, secrets, clientId, clientSecret).Err? ==>
              r == Err(Resolve(site, credPath, secrets, clientId, clientSecret).error)
    ensures Resolve(site, credPath, secrets, clientId, clientSecret).Ok? && checks.web.Fails? ==>
              r == Err(Propagated(checks.web.raised))
    ensures Resolve(site, credPath, secrets, clientId, clientSecret).Ok? && ConfirmSession(checks).Err? ==>
              r == Err(ConfirmSession(checks).error)
  {
    match Resolve(site, credPath, secrets, clientId, clientSecret)
    case Err(e) => Err(e)
    case Ok(credentials) =>
      match ConfirmSession(checks)
      case Err(e) => Err(e)
      case Ok(_) => Ok(Client(site, serverUrl, CompleteUrl(serverUrl, site), credentials))
  }

  /** A `SharepointError` from the second confirming request makes no
      difference to the constructed client. */
  lemma SecondaryFailureSwallowed(site: string, serverUrl: string, credPath: string, secrets: SecretsFile,
                                  clientId: string, clientSecret: string, web: Outcome)
    ensures Connect(site, serverUrl, credPath, secrets, clientId, clientSecret,
                    LivenessChecks(web, Fails(SharepointError)))
         == Connect(site, serverUrl, credPath, secrets, clientId, clientSecret,
                    LivenessChecks(web, Done))
  {
  }

  /** The process-wide defaults `from_url` falls back to. */
  datatype Settings = Settings(site: string, serverUrl: string, clientId: string, clientSecret: string)

  /** The two named groups of a successful match of the URL pattern. */
  datatype UrlParts = UrlParts(siteName: string, serverUrl: string)

  /** `SharepointAPI.from_url`. `parsed` is the outcome of matching the URL
      against the pattern; `parsedChecks` and `defaultChecks` are the
      confirming requests of the constructor called on the parsed and on the
      default site. The constructor call on the parsed site is inside the
      `try`, so a `SharepointError` it raises also leads to the default. */
  function FromUrl(parsed: Option<UrlParts>, settings: Settings,
                   parsedChecks: LivenessChecks, defaultChecks: LivenessChecks): (r: Result<Client>)
    ensures parsed.None? ==>
              r == Connect(settings.site, settings.serverUrl, "", SecretsFile(None),
                           settings.clientId, settings.clientSecret, defaultChecks)
    ensures r.Ok? ==> r.value.credentials == Credentials(settings.clientId, settings.clientSecret)
    ensures r.Ok? ==> (r.value.site, r.value.serverUrl) == (settings.site, settings.serverUrl)
                      || (parsed.Some? && (r.value.site, r.value.serverUrl) == (parsed.value.siteName, parsed.value.serverUrl))
    ensures parsed.Some? ==>
              var attempt := Connect(parsed.value.siteName, parsed.value.serverUrl, "", SecretsFile(None),
                                     settings.clientId, settings.clientSecret, parsedChecks);
              && (attempt == Err(Propagated(SharepointError)) ==>
                    r == Connect(settings.site, settings.serverUrl, "", SecretsFile(None),
                                 settings.clientId, settings.clientSecret, defaultChecks))
              && (attempt != Err(Propagated(SharepointError)) ==> r == attempt)
    ensures parsed.Some? && settings.clientId != "" && settings.clientSecret != "" && parsedChecks.web == Done
            && parsedChecks.site != Fails(ForeignError) ==>
              r.Ok? && r.value.site == parsed.value.siteName && r.value.serverUrl == parsed.value.serverUrl
  {
    var fallback := Connect(settings.site, settings.serverUrl, "", SecretsFile(None),
                            settings.clientId, settings.clientSecret, defaultChecks);
    match parsed
    case None => fallback
    case Some(parts) =>
      var attempt := Connect(parts.siteName, parts.serverUrl, "", SecretsFile(None),
                             settings.clientId, settings.clientSecret, parsedChecks);
      if attempt == Err(Propagated(SharepointError)) then fallback else attempt
  }

  /** A parsed URL whose first confirming request raises a `SharepointError`
      yields a client for the default site, not an error. */
  lemma ParsedSiteFailureFallsBack(parts: UrlParts, settings: Settings, parsedSite: Outcome,
                                   defaultChecks: LivenessChecks)
    requires settings.clientId != "" && settings.clientSecret != ""
    requires defaultChecks.web == Done && defaultChecks.site != Fails(ForeignError)
    ensures var r := FromUrl(Some(parts), settings, LivenessChecks(Fails(SharepointError), parsedSite), defaultChecks);
            r.Ok? && r.value.site == settings.site && r.value.serverUrl == settings.serverUrl
  {
  }
}
