/**
 * The relational storage the service talks to, as an oracle: every query or statement
 * a connection can issue is a function of the connection's target and the arguments,
 * and may fail with an exception.
 */
module Storage {
  import opened Wrappers
  import opened Text
  import opened Configuration
  import opened Model
  import opened Sequences

  /** What a connection is opened on: a login, a server and a catalog. */
  datatype Target = Target(login: Login, server: NString, catalog: NString)

  /** The image tables a multimedia object can be attached to. */
  datatype ImageTable = CollectionEventSeriesImage | CollectionEventImage | CollectionSpecimenImage

  /** The tables whose geography column is set after an insert. */
  datatype GeographyTable = CollectionEventSeriesTable | CollectionEventLocalisationTable | IdentificationUnitGeoAnalysisTable

  /**
   * A row handed to the insert operation. Rows built by conversions that are not part of
   * this model (identification, geo-analysis, project and agent rows) carry the inputs of
   * their conversion.
   */
  datatype Row =
    | SeriesRow(series: EventSeries)
    | EventRow(event: Event)
    | LocalisationRow(localisation: EventLocalisation)
    | PropertyRow(property: EventProperty)
    | SpecimenRow(specimen: Specimen)
    | SpecimenProjectRow(specimen: Specimen, projectId: int)
    | SpecimenAgentRow(specimen: Specimen, creds: UserCredentials)
    | UnitRow(unit: IdentificationUnit)
    | IdentificationRow(unit: IdentificationUnit, creds: UserCredentials)
    | GeoAnalysisRow(unit: IdentificationUnit, creds: UserCredentials)
    | UnitAnalysisRow(analysis: IdentificationUnitAnalysis)
    | ImageRow(table: ImageTable, mmo: MultimediaObject)

  /** A statement issued on a connection. */
  datatype Statement =
    | SelectDatabaseNames
    | SelectHasDbAccess(dbName: string)
    | SelectFunctionExists(dbName: string, functionName: string)
    | CallModuleFunction(dbName: string)
    | SelectTaxonListsForUser(catalog: string, loginName: NString)
    | InsertRow(row: Row)
    | UpdateGeography(table: GeographyTable, wkt: string, srid: int, keys: seq<int>)

  /** The spatial reference system of every geography column: WGS 84. */
  const Wgs84Srid := 4326

  /**
   * What a lazily enumerated query delivered: the rows read before it ended, and the
   * exception that ended it early, if any.
   */
  datatype Streamed<T> = Streamed(rows: seq<T>, failure: Option<Exception>)

  /** The answers the storage gives. */
  datatype Backend = Backend(
    databaseNames: Target -> Result<seq<string>>,
    hasDbAccess: (Target, string) -> Result<Option<int>>,
    functionCount: (Target, string, string) -> Result<int>,
    moduleType: (Target, string) -> Result<NString>,
    taxonListsInCatalog: (Target, string, NString) -> Result<seq<TaxonList>>,
    taxonListsForLogin: (Target, NString) -> Streamed<TaxonList>,
    analysisTaxonomicGroups: (Target, int) -> Result<seq<AnalysisTaxonomicGroup>>,
    analyses: (Target, int) -> Result<seq<Analysis>>,
    projects: Target -> Result<seq<Project>>,
    qualifications: Target -> Result<seq<Qualification>>,
    insert: (Target, Row) -> Result<int>,
    execute: (Target, Statement) -> Result<int>)

  /** The outcome of running a data-changing statement: an insert yields the generated key. */
  function Perform(b: Backend, t: Target, s: Statement): Result<int> {
    if s.InsertRow? then b.insert(t, s.row) else b.execute(t, s)
  }

  /** The first failure among statements run in order, if any. */
  function FirstFailure(b: Backend, t: Target, ss: seq<Statement>): Option<Exception> {
    if |ss| == 0 then None
    else match Perform(b, t, ss[0])
      case Err(e) => Some(e)
      case Ok(_) => FirstFailure(b, t, ss[1..])
  }

  /** There is no failure exactly when every statement succeeds. */
  lemma {:induction false} FirstFailureNoneIff(b: Backend, t: Target, ss: seq<Statement>)
    ensures FirstFailure(b, t, ss).None? <==> forall i :: 0 <= i < |ss| ==> Perform(b, t, ss[i]).Ok?
  {
    if |ss| > 0 {
      FirstFailureNoneIff(b, t, ss[1..]);
      assert forall i :: 1 <= i < |ss| ==> ss[i] == ss[1..][i - 1];
    }
  }

  lemma {:induction false} FirstFailureAppend(b: Backend, t: Target, xs: seq<Statement>, ys: seq<Statement>)
    ensures FirstFailure(b, t, xs + ys) ==
      if FirstFailure(b, t, xs).Some? then FirstFailure(b, t, xs) else FirstFailure(b, t, ys)
  {
    if |xs| > 0 {
      assert (xs + ys)[0] == xs[0] && (xs + ys)[1..] == xs[1..] + ys;
      FirstFailureAppend(b, t, xs[1..], ys);
    } else {
      assert xs + ys == ys;
    }
  }

  /** The statements sent when running `ss` in order up to and including the first failure. */
  function Attempted(b: Backend, t: Target, ss: seq<Statement>): (r: seq<Statement>)
    ensures FirstFailure(b, t, ss).None? ==> r == ss
  {
    if |ss| == 0 then []
    else if Perform(b, t, ss[0]).Err? then [ss[0]]
    else [ss[0]] + Attempted(b, t, ss[1..])
  }

  /**
   * What is sent is a prefix of the statements, and when something failed, the last
   * statement sent is the one that failed.
   */
  lemma {:induction false} AttemptedPrefix(b: Backend, t: Target, ss: seq<Statement>)
    ensures var r := Attempted(b, t, ss);
            && |r| <= |ss| && r == ss[..|r|]
            && (FirstFailure(b, t, ss).Some? ==> 0 < |r| && Perform(b, t, r[|r| - 1]).Err?)
  {
    if |ss| > 0 && Perform(b, t, ss[0]).Ok? {
      AttemptedPrefix(b, t, ss[1..]);
      var rest := Attempted(b, t, ss[1..]);
      assert [ss[0]] + ss[1..][..|rest|] == ss[..|rest| + 1];
    }
  }

  /**
   * Running `xs`, which all succeed, then a failing `s`: the failure of `s` is the first
   * one, and nothing after `s` is sent.
   */
  lemma {:induction false} FailAfter(b: Backend, t: Target, xs: seq<Statement>, s: Statement, ys: seq<Statement>)
    requires FirstFailure(b, t, xs).None? && Perform(b, t, s).Err?
    ensures FirstFailure(b, t, xs + [s] + ys) == Some(Perform(b, t, s).error)
    ensures Attempted(b, t, xs + [s] + ys) == xs + [s]
  {
    if |xs| == 0 {
      assert xs + [s] + ys == [s] + ys;
    } else {
      assert (xs + [s] + ys)[0] == xs[0];
      assert (xs + [s] + ys)[1..] == xs[1..] + [s] + ys;
      assert Perform(b, t, xs[0]).Ok?;
      FailAfter(b, t, xs[1..], s, ys);
    }
  }

  /** Running `xs` then `ys` sends what `xs` sends and, only if all of `xs` succeed, what `ys` sends. */
  lemma {:induction false} AttemptedAppend(b: Backend, t: Target, xs: seq<Statement>, ys: seq<Statement>)
    ensures Attempted(b, t, xs + ys) == if FirstFailure(b, t, xs).Some? then Attempted(b, t, xs) else xs + Attempted(b, t, ys)
  {
    if |xs| == 0 {
      assert xs + ys == ys;
    } else {
      assert (xs + ys)[0] == xs[0] && (xs + ys)[1..] == xs[1..] + ys;
      AttemptedAppend(b, t, xs[1..], ys);
      if Perform(b, t, xs[0]).Ok? && FirstFailure(b, t, xs[1..]).None? {
        assert [xs[0]] + xs[1..] == xs;
        AppendAssociative([xs[0]], xs[1..], Attempted(b, t, ys));
      }
    }
  }

  /**
   * An open connection; `issued` lists every statement sent on it, in order, and
   * `committed` the data-changing statements whose effects a completed transaction made
   * durable.
   */
  class Connection {
    const target: Target
    const backend: Backend
    var issued: seq<Statement>
    var committed: seq<Statement>

    constructor (target: Target, backend: Backend)
      ensures this.target == target && this.backend == backend && issued == [] && committed == []
    {
      this.target := target;
      this.backend := backend;
      issued := [];
      committed := [];
    }

    /** SELECT name FROM sys.databases */
    method DatabaseNames() returns (r: Result<seq<string>>)
      modifies this
      ensures r == backend.databaseNames(target)
      ensures issued == old(issued) + [SelectDatabaseNames]
      ensures committed == old(committed)
    {
      r := backend.databaseNames(target);
      issued := issued + [SelectDatabaseNames];
    }

    /** SELECT HAS_DBACCESS(dbName) */
    method HasDbAccess(dbName: string) returns (r: Result<Option<int>>)
      modifies this
      ensures r == backend.hasDbAccess(target, dbName)
      ensures issued == old(issued) + [SelectHasDbAccess(dbName)]
      ensures committed == old(committed)
    {
      r := backend.hasDbAccess(target, dbName);
      issued := issued + [SelectHasDbAccess(dbName)];
    }

    /** The count of scalar or table functions named `functionName` in catalog `dbName`. */
    method FunctionCount(dbName: string, functionName: string) returns (r: Result<int>)
      modifies this
      ensures r == backend.functionCount(target, dbName, functionName)
      ensures issued == old(issued) + [SelectFunctionExists(dbName, functionName)]
      ensures committed == old(committed)
    {
      r := backend.functionCount(target, dbName, functionName);
      issued := issued + [SelectFunctionExists(dbName, functionName)];
    }

    /** SELECT [dbName].[dbo].[DiversityWorkbenchModule]() */
    method ModuleType(dbName: string) returns (r: Result<NString>)
      modifies this
      ensures r == backend.moduleType(target, dbName)
      ensures issued == old(issued) + [CallModuleFunction(dbName)]
      ensures committed == old(committed)
    {
      r := backend.moduleType(target, dbName);
      issued := issued + [CallModuleFunction(dbName)];
    }

    /** SELECT * FROM [catalog].[dbo].[DiversityMobile_TaxonListsForUser](loginName) */
    method TaxonListsForUser(catalog: string, loginName: NString) returns (r: Result<seq<TaxonList>>)
      modifies this
      ensures r == backend.taxonListsInCatalog(target, catalog, loginName)
      ensures issued == old(issued) + [SelectTaxonListsForUser(catalog, loginName)]
      ensures committed == old(committed)
    {
      r := backend.taxonListsInCatalog(target, catalog, loginName);
      issued := issued + [SelectTaxonListsForUser(catalog, loginName)];
    }

    /** Runs an insert or update statement. */
    method Run(s: Statement) returns (r: Result<int>)
      modifies this
      ensures r == Perform(backend, target, s)
      ensures issued == old(issued) + [s]
      ensures committed == old(committed)
    {
      r := Perform(backend, target, s);
      issued := issued + [s];
    }
  
    /** Completes the transaction begun when `issued` had `start` statements: they become durable. */
    method Commit(start: nat)
      requires start <= |issued|
      modifies this
      ensures committed == old(committed) + old(issued)[start..]
      ensures issued == old(issued)
    {
      committed := committed + issued[start..];
    }
  }
}
