/** Credential selection at construction of a `SharepointClientAccess`
    (sig_sharepoint_app/sharepoint_api.py, lines 27-37).

    The secrets file is modelled by its parsed JSON content: an optional
    `"sites"` object mapping each site name to its fields. Opening and
    parsing the file is not modelled.
 */
module Credentials {
  import opened Results

  /** The parsed secrets file, `{"sites": {<site>: {"username": .., "password": ..}}}`;
      `sites` is `None` when the top-level key is absent. */
  datatype SecretsFile = SecretsFile(sites: Option<map<string, map<string, string>>>)

  /** The client identity handed to the SDK. */
  datatype Credentials = Credentials(clientId: string, clientSecret: string)

  /** The value of `data["sites"][site][field]`, or the `KeyError` Python
      raises at the first missing key. */
  function Lookup(secrets: SecretsFile, site: string, field: string): (r: Result<string>)
    ensures r.Ok? <==> secrets.sites.Some? && site in secrets.sites.value
                       && field in secrets.sites.value[site]
    ensures r.Ok? ==> r.value == secrets.sites.value[site][field]
    ensures secrets.sites.None? ==> r == Err(KeyError("sites"))
    ensures secrets.sites.Some? && site !in secrets.sites.value ==> r == Err(KeyError(site))
    ensures secrets.sites.Some? && site in secrets.sites.value && field !in secrets.sites.value[site] ==>
              r == Err(KeyError(field))
  {
    match secrets.sites
    case None => Err(KeyError("sites"))
    case Some(sites) =>
      if site !in sites then Err(KeyError(site))
      else if field !in sites[site] then Err(KeyError(field))
      else Ok(sites[site][field])
  }

  /** Chooses the credentials: a non-empty `credPath` means the secrets file
      (whose parsed content is `secrets`) wins over the explicit values;
      otherwise both explicit values must be non-empty. */
  function Resolve(site: string, credPath: string, secrets: SecretsFile,
                   clientId: string, clientSecret: string): (r: Result<Credentials>)
    ensures credPath != "" ==>
              (r.Ok? <==> Lookup(secrets, site, "username").Ok? && Lookup(secrets, site, "password").Ok?)
    ensures credPath != "" && r.Ok? ==>
              r.value == Credentials(secrets.sites.value[site]["username"],
                                     secrets.sites.value[site]["password"])
    ensures credPath != "" && r.Err? ==> r.error.KeyError?
    ensures credPath != "" && Lookup(secrets, site, "username").Err? ==>
              r == Err(Lookup(secrets, site, "username").error)
    ensures credPath != "" && Lookup(secrets, site, "username").Ok? && Lookup(secrets, site, "password").Err? ==>
              r == Err(Lookup(secrets, site, "password").error)
    ensures credPath == "" ==> (r.Ok? <==> clientId != "" && clientSecret != "")
    ensures credPath == "" && r.Ok? ==> r.value == Credentials(clientId, clientSecret)
    ensures credPath == "" && r.Err? ==> r.error == MissingCredentials
  {
    if credPath != "" then
      match Lookup(secrets, site, "username")
      case Err(e) => Err(e)
      case Ok(user) =>
        match Lookup(secrets, site, "password")
        case Err(e) => Err(e)
        case Ok(password) => Ok(Credentials(user, password))
    else if clientId == "" || clientSecret == "" then Err(MissingCredentials)
    else Ok(Credentials(clientId, clientSecret))
  }

  /** With a secrets file the explicit id and secret have no influence at all,
      not even when they are empty. */
  lemma FileOverridesExplicitValues(site: string, credPath: string, secrets: SecretsFile,
                                    id1: string, secret1: string, id2: string, secret2: string)
    requires credPath != ""
    ensures Resolve(site, credPath, secrets, id1, secret1) == Resolve(site, credPath, secrets, id2, secret2)
  {
  }

  /** Values read from the secrets file are not checked for emptiness, unlike
      explicit ones: an entry with empty username and password is accepted. */
  lemma FileValuesNotChecked(site: string, credPath: string)
    requires credPath != ""
    ensures var secrets := SecretsFile(Some(map[site := map["username" := "", "password" := ""]]));
            Resolve(site, credPath, secrets, "", "") == Ok(Credentials("", ""))
  {
  }

  /** A secrets file without an entry for the site is an error, whatever
      explicit values are supplied. */
  lemma MissingSiteEntryIsKeyError(site: string, credPath: string, sites: map<string, map<string, string>>,
                                   clientId: string, clientSecret: string)
    requires credPath != "" && site !in sites
    ensures Resolve(site, credPath, SecretsFile(Some(sites)), clientId, clientSecret) == Err(KeyError(site))
  {
  }
}
