/**
 * The small read operations of the service (DiversityService.cs): the projects of a user,
 * the identification qualifiers, and the list of configured repositories. Each fills in a
 * default text where the catalog has none.
 */
module Lookups {
  import opened Wrappers
  import opened Text
  import opened Configuration
  import opened Model
  import opened Storage
  import opened Credentials

  /** The text shown for a project without a description. */
  const NoDescription := "No Description"

  /** The text shown for a blank identification qualifier. */
  const NoQualifier := "no qualifier"

  // ---------------------------------------------------------------- GetProjectsForUser

  /** A project as it is handed out: a null description becomes NoDescription; nothing else changes. */
  function WithDescription(p: Project): (r: Project)
    ensures r.displayText.Some?
    ensures p.displayText.Some? ==> r == p
    ensures p.displayText.None? ==> r == p.(displayText := Some(NoDescription))
  {
    if p.displayText.Some? then p else p.(displayText := Some(NoDescription))
  }

  /** Fills in the description of every project, in order. */
  function WithDescriptions(ps: seq<Project>): (r: seq<Project>)
    ensures |r| == |ps|
    ensures forall i :: 0 <= i < |r| ==> r[i] == WithDescription(ps[i])
  {
    seq(|ps|, i requires 0 <= i < |ps| => WithDescription(ps[i]))
  }

  /**
   * GetProjectsForUser: no projects without a repository name; an unknown repository
   * escapes as the connection's exception; a failing query yields no projects.
   */
  function GetProjectsForUser(config: ServiceConfiguration, b: Backend, login: UserCredentials): (r: Result<seq<Project>>)
    ensures IsNullOrWhiteSpace(login.repository) ==> r == Ok([])
    ensures r.Err? <==> !IsNullOrWhiteSpace(login.repository) && GetConnection(config, login, None).Err?
    ensures r.Err? ==> r.error == ArgumentException
    ensures r.Ok? ==> forall p :: p in r.value ==> p.displayText.Some?
  {
    if IsNullOrWhiteSpace(login.repository) then Ok([])
    else
      match GetConnection(config, login, None)
      case Err(e) => Err(e)
      case Ok(t) =>
        match b.projects(t)
        case Err(_) => Ok([])
        case Ok(rows) => Ok(WithDescriptions(rows))
  }

  /**
   * When the catalog answers, the user gets one project per row, in order: each row with
   * its description defaulted and its other columns as read.
   */
  lemma ProjectsAsRead(config: ServiceConfiguration, b: Backend, login: UserCredentials, t: Target)
    requires !IsNullOrWhiteSpace(login.repository)
    requires GetConnection(config, login, None) == Ok(t)
    requires b.projects(t).Ok?
    ensures var rows := b.projects(t).value;
            var r := GetProjectsForUser(config, b, login);
            && r.Ok? && |r.value| == |rows|
            && forall i :: 0 <= i < |rows| ==>
                 && r.value[i].details == rows[i].details
                 && (rows[i].displayText.Some? ==> r.value[i].displayText == rows[i].displayText)
                 && (rows[i].displayText.None? ==> r.value[i].displayText == Some(NoDescription))
  {
  }

  // ---------------------------------------------------------------- GetQualifications

  /** A qualifier as it is handed out: a null or blank text becomes NoQualifier; nothing else changes. */
  function WithQualifierText(q: Qualification): (r: Qualification)
    ensures !IsNullOrWhiteSpace(r.displayText)
    ensures !IsNullOrWhiteSpace(q.displayText) ==> r == q
    ensures IsNullOrWhiteSpace(q.displayText) ==> r == q.(displayText := Some(NoQualifier))
  {
    if IsNullOrWhiteSpace(q.displayText) then
      assert NoQualifier[0] == 'n';
      q.(displayText := Some(NoQualifier))
    else q
  }

  /** Fills in the text of every qualifier, in order. */
  function WithQualifierTexts(qs: seq<Qualification>): (r: seq<Qualification>)
    ensures |r| == |qs|
    ensures forall i :: 0 <= i < |r| ==> r[i] == WithQualifierText(qs[i])
  {
    seq(|qs|, i requires 0 <= i < |qs| => WithQualifierText(qs[i]))
  }

  /** GetQualifications: every qualifier with its text defaulted; both the connection's and the query's failures escape. */
  function GetQualifications(config: ServiceConfiguration, b: Backend, login: UserCredentials): (r: Result<seq<Qualification>>)
    ensures r.Err? <==> GetConnection(config, login, None).Err? || b.qualifications(GetConnection(config, login, None).value).Err?
    ensures r.Ok? ==> forall q :: q in r.value ==> !IsNullOrWhiteSpace(q.displayText)
  {
    match GetConnection(config, login, None)
    case Err(e) => Err(e)
    case Ok(t) =>
      match b.qualifications(t)
      case Err(e) => Err(e)
      case Ok(rows) => Ok(WithQualifierTexts(rows))
  }

  /** Filling in the qualifier texts again changes nothing. */
  lemma QualifierTextsIdempotent(qs: seq<Qualification>)
    ensures WithQualifierTexts(WithQualifierTexts(qs)) == WithQualifierTexts(qs)
  {
  }

  // ---------------------------------------------------------------- GetRepositories

  /** A repository as a client sees it: its default catalog and its name. */
  datatype RepositoryEntry = RepositoryEntry(database: NString, displayText: NString)

  /** GetRepositories: one entry per configured repository, in configuration order. */
  function GetRepositories(config: ServiceConfiguration): (r: seq<RepositoryEntry>)
    ensures |r| == |config.repositories|
    ensures forall i :: 0 <= i < |r| ==>
              r[i].database == config.repositories[i].catalog && r[i].displayText == config.repositories[i].name
  {
    seq(|config.repositories|, i requires 0 <= i < |config.repositories| =>
      RepositoryEntry(config.repositories[i].catalog, config.repositories[i].name))
  }

  /**
   * Every listed repository can be chosen: credentials naming it open a connection, on the
   * server of the first repository with that name.
   */
  lemma ListedRepositoriesConnect(config: ServiceConfiguration, login: UserCredentials, i: nat)
    requires i < |config.repositories|
    requires login.repository == GetRepositories(config)[i].displayText
    ensures GetConnection(config, login, None).Ok?
    ensures RepositoryByName(config.repositories, login.repository).Some?
    ensures GetConnection(config, login, None).value.server == RepositoryByName(config.repositories, login.repository).value.server
  {
    assert config.repositories[i].name == login.repository;
  }
}
