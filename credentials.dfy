/** Resolving a connection from credentials (CredentialsExtensions). */
module Credentials {
  import opened Wrappers
  import opened Text
  import opened Configuration
  import opened Storage

  /**
   * GetConnection(creds, catalog): the repository named in the credentials, opened with
   * the credentials' login, on the given catalog or else the repository's own.
   */
  function GetConnection(config: ServiceConfiguration, creds: UserCredentials, catalog: NString): (r: Result<Target>)
    ensures r.Err? <==> forall i :: 0 <= i < |config.repositories| ==> config.repositories[i].name != creds.repository
    ensures r.Err? ==> r.error == ArgumentException
    ensures r.Ok? ==>
              exists k :: && 0 <= k < |config.repositories|
                          && config.repositories[k].name == creds.repository
                          && (forall j :: 0 <= j < k ==> config.repositories[j].name != creds.repository)
                          && r.value.server == config.repositories[k].server
                          && r.value.catalog == (if catalog.Some? then catalog else config.repositories[k].catalog)
    ensures r.Ok? ==> r.value.login == Login(creds.loginName, creds.password)
  {
    match RepositoryByName(config.repositories, creds.repository)
    case None => Err(ArgumentException)
    case Some(repo) => Ok(Target(ToLogin(creds), repo.server, if catalog.Some? then catalog else repo.catalog))
  }

  /** GetConnection(serverLoginCatalog): a null section is an ArgumentNullException. */
  function GetSectionConnection(section: Option<ServerLoginCatalog>): (r: Result<Target>)
    ensures section.None? <==> r == Err(ArgumentNullException)
    ensures section.Some? ==> r == Ok(Target(section.value.login, section.value.server, section.value.catalog))
  {
    match section
    case None => Err(ArgumentNullException)
    case Some(s) => Ok(Target(s.login, s.server, s.catalog))
  }
}
