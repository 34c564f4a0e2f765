/** The service's static configuration and the credential conversion (Configuration.cs). */
module Configuration {
  import opened Wrappers
  import opened Text

  /** A storage login: user name and password. */
  datatype Login = Login(user: NString, password: NString)

  /** The credentials a client sends with every request. */
  datatype UserCredentials = UserCredentials(
    loginName: NString,
    password: NString,
    repository: NString,
    projectId: int)

  /** A configured repository: its name, server address and default catalog. */
  datatype Repository = Repository(name: NString, server: NString, catalog: NString)

  /** A server, login and catalog triple, as used for the public taxa and the scientific terms. */
  datatype ServerLoginCatalog = ServerLoginCatalog(login: Login, server: NString, catalog: NString)

  /** The loaded configuration; the two distinguished sections may be absent (null). */
  datatype ServiceConfiguration = ServiceConfiguration(
    repositories: seq<Repository>,
    publicTaxa: Option<ServerLoginCatalog>,
    scientificTerms: Option<ServerLoginCatalog>)

  /** The implicit conversion from credentials to a storage login. */
  function ToLogin(creds: UserCredentials): (l: Login)
    ensures l.user == creds.loginName && l.password == creds.password
  {
    Login(creds.loginName, creds.password)
  }

  /** Repositories.FirstOrDefault(r => r.name == name) */
  function RepositoryByName(repos: seq<Repository>, name: NString): (r: Option<Repository>)
    ensures r.None? <==> forall i :: 0 <= i < |repos| ==> repos[i].name != name
    ensures r.Some? ==> r.value.name == name
    ensures r.Some? ==> exists k :: 0 <= k < |repos| && repos[k] == r.value
                                 && forall j :: 0 <= j < k ==> repos[j].name != name
  {
    if |repos| == 0 then None
    else if repos[0].name == name then Some(repos[0])
    else
      var rest := RepositoryByName(repos[1..], name);
      assert rest.Some? ==> exists k :: 0 < k < |repos| && repos[k] == rest.value
                                     && forall j :: 0 <= j < k ==> repos[j].name != name by {
        if rest.Some? {
          var k' :| 0 <= k' < |repos[1..]| && repos[1..][k'] == rest.value
                    && forall j :: 0 <= j < k' ==> repos[1..][j].name != name;
          assert forall j :: 0 < j < k' + 1 ==> repos[j].name != name by {
            forall j | 0 < j < k' + 1 ensures repos[j].name != name { assert repos[j] == repos[1..][j - 1]; }
          }
        }
      }
      rest
  }
}
