/**
 * Taxon lists: enumerating the lists a login may use on a server, the private/public
 * merge, and the legacy id lookup (DiversityService.Queries.cs, DiversityService.cs).
 */
module TaxonLists {
  import opened Wrappers
  import opened Text
  import opened Sequences
  import opened Configuration
  import opened Model
  import opened Storage
  import opened ResultCache
  import opened Credentials
  import opened ModuleDiscovery

  /** The module type of taxon-name catalogs. */
  const ModuleTaxonNames := "DiversityTaxonNames"

  /** The function a taxon-name catalog must have to list a user's taxon lists. */
  const FunctionTaxonListsForUser := "DiversityMobile_TaxonListsForUser"

  /** A row the database returned that may be passed on to clients. */
  predicate IsValidTaxonList(l: TaxonList) {
    !IsNullOrWhiteSpace(l.displayText) && !IsNullOrWhiteSpace(l.taxonomicGroup) && l.id != 0
  }

  /** Tags each row with its catalog and drops the invalid ones, keeping the order. */
  function TagAndValidate(rows: seq<TaxonList>, catalog: string): (r: seq<TaxonList>)
    ensures forall i :: 0 <= i < |r| ==> r[i].catalog == Some(catalog) && IsValidTaxonList(r[i])
    ensures forall i :: 0 <= i < |r| ==> exists j :: 0 <= j < |rows| && r[i] == rows[j].(catalog := Some(catalog))
    ensures forall j :: 0 <= j < |rows| && IsValidTaxonList(rows[j]) ==> rows[j].(catalog := Some(catalog)) in r
  {
    if |rows| == 0 then []
    else
      var init := TagAndValidate(rows[..|rows| - 1], catalog);
      var last := rows[|rows| - 1].(catalog := Some(catalog));
      assert forall j :: 0 <= j < |rows| - 1 ==> rows[..|rows| - 1][j] == rows[j];
      init + (if IsValidTaxonList(last) then [last] else [])
  }

  /** A single row is kept, tagged, exactly when it is valid. */
  lemma TagAndValidateOne(row: TaxonList, catalog: string)
    ensures TagAndValidate([row], catalog) == if IsValidTaxonList(row) then [row.(catalog := Some(catalog))] else []
  {
    assert [row][..0] == [];
  }

  /**
   * Tagging and validating keeps order and multiplicity: the rows of `a` then those of
   * `c` give the kept rows of `a` followed by those of `c`.
   */
  lemma {:induction false} TagAndValidateAppend(a: seq<TaxonList>, c: seq<TaxonList>, catalog: string)
    ensures TagAndValidate(a + c, catalog) == TagAndValidate(a, catalog) + TagAndValidate(c, catalog)
    decreases |c|
  {
    if |c| == 0 {
      assert a + c == a;
    } else {
      var c' := c[..|c| - 1];
      assert (a + c)[..|a + c| - 1] == a + c';
      assert (a + c)[|a + c| - 1] == c[|c| - 1];
      TagAndValidateAppend(a, c', catalog);
      var last := c[|c| - 1].(catalog := Some(catalog));
      AppendAssociative(TagAndValidate(a, catalog), TagAndValidate(c', catalog), if IsValidTaxonList(last) then [last] else []);
    }
  }

  /** The catalogs discovery classified as taxon-name modules; none if the type is absent. */
  function TaxonNameCatalogs(m: Modules): (r: seq<string>)
    ensures ModuleTaxonNames !in m ==> r == []
    ensures ModuleTaxonNames in m ==> r == m[ModuleTaxonNames]
  {
    if ModuleTaxonNames in m then m[ModuleTaxonNames] else []
  }

  /**
   * The lists of one catalog: none if it lacks the listing function; a failing probe
   * or query propagates.
   */
  function CatalogLists(b: Backend, t: Target, catalog: string, loginName: NString): (r: Result<seq<TaxonList>>)
    ensures r.Ok? ==> forall i :: 0 <= i < |r.value| ==> IsValidTaxonList(r.value[i]) && r.value[i].catalog == Some(catalog)
    ensures FunctionProbe(b, t, catalog, FunctionTaxonListsForUser) == Ok(false) ==> r == Ok([])
    ensures r.Err? <==> FunctionProbe(b, t, catalog, FunctionTaxonListsForUser).Err?
                        || (FunctionProbe(b, t, catalog, FunctionTaxonListsForUser) == Ok(true) && b.taxonListsInCatalog(t, catalog, loginName).Err?)
  {
    match FunctionProbe(b, t, catalog, FunctionTaxonListsForUser)
    case Err(e) => Err(e)
    case Ok(false) => Ok([])
    case Ok(true) =>
      match b.taxonListsInCatalog(t, catalog, loginName)
      case Err(e) => Err(e)
      case Ok(rows) => Ok(TagAndValidate(rows, catalog))
  }

  /** The lists of all `catalogs`, concatenated in catalog order; the first failure propagates. */
  function ListsFromCatalogs(b: Backend, t: Target, catalogs: seq<string>, loginName: NString): Result<seq<TaxonList>> {
    if |catalogs| == 0 then Ok([])
    else match ListsFromCatalogs(b, t, catalogs[..|catalogs| - 1], loginName)
      case Err(e) => Err(e)
      case Ok(acc) =>
        match CatalogLists(b, t, catalogs[|catalogs| - 1], loginName)
        case Err(e) => Err(e)
        case Ok(ls) => Ok(acc + ls)
  }

  /** A list passed on to clients: valid, and tagged with one of `catalogs`. */
  predicate ValidFrom(l: TaxonList, catalogs: seq<string>) {
    IsValidTaxonList(l) && l.catalog.Some? && l.catalog.value in catalogs
  }

  /** Every enumerated list is valid and tagged with one of the catalogs it came from. */
  lemma {:induction false} EnumeratedListsValid(b: Backend, t: Target, catalogs: seq<string>, loginName: NString)
    ensures ListsFromCatalogs(b, t, catalogs, loginName).Ok? ==>
              forall l :: l in ListsFromCatalogs(b, t, catalogs, loginName).value ==> ValidFrom(l, catalogs)
  {
    if |catalogs| > 0 {
      var init := catalogs[..|catalogs| - 1];
      EnumeratedListsValid(b, t, init, loginName);
      assert forall c :: c in init ==> c in catalogs;
      var last := catalogs[|catalogs| - 1];
      assert last in catalogs;
      var prefix := ListsFromCatalogs(b, t, init, loginName);
      var lastLists := CatalogLists(b, t, last, loginName);
      if prefix.Ok? && lastLists.Ok? {
        var acc, ls := prefix.value, lastLists.value;
        assert ListsFromCatalogs(b, t, catalogs, loginName) == Ok(acc + ls);
        forall l | l in acc + ls ensures ValidFrom(l, catalogs) {
          if l in acc {
            assert ValidFrom(l, init);
          } else {
            var i :| 0 <= i < |ls| && ls[i] == l;
          }
        }
      }
    }
  }

  /** Enumerating two runs of catalogs one after the other concatenates their lists. */
  lemma {:induction false} EnumerationConcatenates(b: Backend, t: Target, xs: seq<string>, ys: seq<string>, loginName: NString)
    ensures ListsFromCatalogs(b, t, xs + ys, loginName) ==
      match ListsFromCatalogs(b, t, xs, loginName)
      case Err(e) => Err(e)
      case Ok(a) =>
        match ListsFromCatalogs(b, t, ys, loginName)
        case Err(e) => Err(e)
        case Ok(c) => Ok(a + c)
    decreases |ys|
  {
    if |ys| == 0 {
      assert xs + ys == xs;
      match ListsFromCatalogs(b, t, xs, loginName)
      case Err(e) =>
      case Ok(a) => assert a + [] == a;
    } else {
      var ys' := ys[..|ys| - 1];
      assert (xs + ys)[..|xs + ys| - 1] == xs + ys';
      assert (xs + ys)[|xs + ys| - 1] == ys[|ys| - 1];
      EnumerationConcatenates(b, t, xs, ys', loginName);
      match ListsFromCatalogs(b, t, xs, loginName)
      case Err(e) =>
      case Ok(a) =>
        match ListsFromCatalogs(b, t, ys', loginName)
        case Err(e) =>
        case Ok(c) =>
          match CatalogLists(b, t, ys[|ys| - 1], loginName)
          case Err(e) =>
          case Ok(ls) => AppendAssociative(a, c, ls);
    }
  }

  /** The statements listing one catalog sends: the function probe, then the listing query only if the function exists. */
  function CatalogTrace(b: Backend, t: Target, catalog: string, loginName: NString): seq<Statement> {
    [SelectFunctionExists(catalog, FunctionTaxonListsForUser)]
    + if FunctionProbe(b, t, catalog, FunctionTaxonListsForUser) == Ok(true) then [SelectTaxonListsForUser(catalog, loginName)] else []
  }

  /** The statements enumerating `catalogs` sends, catalog after catalog, up to the first catalog that fails. */
  function ListsTrace(b: Backend, t: Target, catalogs: seq<string>, loginName: NString): seq<Statement> {
    if |catalogs| == 0 then []
    else
      var init := catalogs[..|catalogs| - 1];
      if ListsFromCatalogs(b, t, init, loginName).Err? then ListsTrace(b, t, init, loginName)
      else ListsTrace(b, t, init, loginName) + CatalogTrace(b, t, catalogs[|catalogs| - 1], loginName)
  }

  /**
   * A listing query is sent only to a catalog of the enumeration that has the listing
   * function, and only for the caller's login: a catalog without it is skipped unqueried.
   */
  lemma {:induction false} ListingOnlyWithFunction(b: Backend, t: Target, catalogs: seq<string>, loginName: NString)
    ensures forall s :: s in ListsTrace(b, t, catalogs, loginName) && s.SelectTaxonListsForUser? ==>
              && s.catalog in catalogs && s.loginName == loginName
              && FunctionProbe(b, t, s.catalog, FunctionTaxonListsForUser) == Ok(true)
  {
    if |catalogs| > 0 {
      var init := catalogs[..|catalogs| - 1];
      var last := catalogs[|catalogs| - 1];
      ListingOnlyWithFunction(b, t, init, loginName);
      assert forall c :: c in init ==> c in catalogs;
      assert last in catalogs;
    }
  }

  /** Once a run of catalogs fails, the catalogs after it send nothing. */
  lemma {:induction false} ListsTraceStops(b: Backend, t: Target, xs: seq<string>, ys: seq<string>, loginName: NString)
    requires ListsFromCatalogs(b, t, xs, loginName).Err?
    ensures ListsTrace(b, t, xs + ys, loginName) == ListsTrace(b, t, xs, loginName)
    decreases |ys|
  {
    if |ys| == 0 {
      assert xs + ys == xs;
    } else {
      var ys' := ys[..|ys| - 1];
      assert (xs + ys)[..|xs + ys| - 1] == xs + ys';
      ListsTraceStops(b, t, xs, ys', loginName);
      EnumerationConcatenates(b, t, xs, ys', loginName);
    }
  }

  /** The loop body of enumerateTaxonListsFromServer for one catalog: the probe, then the listing query. */
  method ReadCatalogLists(db: Connection, catalog: string, loginName: NString) returns (r: Result<seq<TaxonList>>)
    modifies db
    ensures r == CatalogLists(db.backend, db.target, catalog, loginName)
    ensures db.issued == old(db.issued) + CatalogTrace(db.backend, db.target, catalog, loginName)
    ensures db.committed == old(db.committed)
  {
    var hasDmFunction := FunctionExists(db, catalog, FunctionTaxonListsForUser);
    if hasDmFunction.Err? {
      return Err(hasDmFunction.error);
    }
    if !hasDmFunction.value {
      return Ok([]);
    }
    var rows := db.TaxonListsForUser(catalog, loginName);
    if rows.Err? {
      return Err(rows.error);
    }
    r := Ok(TagAndValidate(rows.value, catalog));
  }

  /** The foreach of enumerateTaxonListsFromServer: the lists of every catalog, in order, up to the first failure. */
  method ReadAllCatalogLists(db: Connection, dtnInstances: seq<string>, loginName: NString) returns (r: Result<seq<TaxonList>>)
    modifies db
    ensures r == ListsFromCatalogs(db.backend, db.target, dtnInstances, loginName)
    ensures db.issued == old(db.issued) + ListsTrace(db.backend, db.target, dtnInstances, loginName)
    ensures db.committed == old(db.committed)
  {
    ghost var b, t := db.backend, db.target;
    var result: seq<TaxonList> := [];
    var i := 0;
    while i < |dtnInstances|
      invariant 0 <= i <= |dtnInstances|
      invariant ListsFromCatalogs(b, t, dtnInstances[..i], loginName) == Ok(result)
      invariant db.issued == old(db.issued) + ListsTrace(b, t, dtnInstances[..i], loginName)
      invariant db.committed == old(db.committed)
    {
      var dtn := dtnInstances[i];
      assert dtnInstances[..i + 1][..i] == dtnInstances[..i];
      assert dtnInstances[..i + 1][i] == dtn;
      var lists := ReadCatalogLists(db, dtn, loginName);
      AppendAssociative(old(db.issued), ListsTrace(b, t, dtnInstances[..i], loginName), CatalogTrace(b, t, dtn, loginName));
      if lists.Err? {
        assert dtnInstances[..i + 1] + dtnInstances[i + 1..] == dtnInstances;
        EnumerationConcatenates(b, t, dtnInstances[..i + 1], dtnInstances[i + 1..], loginName);
        ListsTraceStops(b, t, dtnInstances[..i + 1], dtnInstances[i + 1..], loginName);
        return Err(lists.error);
      }
      result := result + lists.value;
      i := i + 1;
    }
    assert dtnInstances[..i] == dtnInstances;
    r := Ok(result);
  }

  /**
   * enumerateTaxonListsFromServer: discovers the modules (through the cache), then lists
   * and validates the taxon lists of every taxon-name catalog in order.
   */
  method EnumerateTaxonListsFromServer(cache: Cache<Modules>, db: Connection, repository: string, loginName: NString, now: Instant)
    returns (r: Result<seq<TaxonList>>)
    requires !IsBlank(repository)
    modifies cache, db
    ensures match ModulesOutcome(old(cache.Lookup(ModulesCacheKey(repository, loginName), now)), db.backend, db.target)
            case Err(e) => r == Err(e)
            case Ok(m) => r == ListsFromCatalogs(db.backend, db.target, TaxonNameCatalogs(m), loginName)
    ensures var key := ModulesCacheKey(repository, loginName);
            var cached := old(cache.Lookup(key, now));
            var outcome := ModulesOutcome(cached, db.backend, db.target);
            && cache.entries == (if cached.None? && outcome.Ok? then old(cache.entries)[key := Entry(outcome.value, CacheExpiration(now))]
                                 else old(cache.entries))
            && db.issued == old(db.issued) + DiscoveryTrace(cached, db.backend, db.target)
                            + (if outcome.Ok? then ListsTrace(db.backend, db.target, TaxonNameCatalogs(outcome.value), loginName) else [])
    ensures db.committed == old(db.committed)
  {
    ghost var cached := cache.Lookup(ModulesCacheKey(repository, loginName), now);
    var modulesByType := GetDiversityModules(cache, db, repository, loginName, now);
    DiscoveryTraceCases(cached, db.backend, db.target, old(db.issued), db.issued);
    if modulesByType.Err? {
      assert db.issued + [] == db.issued;
      return Err(modulesByType.error);
    }
    var dtnInstances := TaxonNameCatalogs(modulesByType.value);
    r := ReadAllCatalogLists(db, dtnInstances, loginName);
  }

  // ---------------------------------------------------------------- GetTaxonListsForUser

  /** Tags every list as public or private, in order. */
  function MarkPublic(rows: seq<TaxonList>, isPublic: bool): (r: seq<TaxonList>)
    ensures |r| == |rows|
    ensures forall i :: 0 <= i < |r| ==> r[i] == rows[i].(isPublicList := isPublic)
  {
    seq(|rows|, i requires 0 <= i < |rows| => rows[i].(isPublicList := isPublic))
  }

  /**
   * One try block of GetTaxonListsForUser: `AddRange` copies the rows of the query as they
   * are read, so every row delivered before a failure stays, tagged public or private,
   * and the block's `catch` swallows the failure.
   */
  function ListsRead(b: Backend, t: Target, user: NString, isPublic: bool): (r: seq<TaxonList>)
    ensures var read := b.taxonListsForLogin(t, user).rows;
            && |r| == |read|
            && forall i :: 0 <= i < |r| ==> r[i] == read[i].(isPublicList := isPublic)
  {
    MarkPublic(b.taxonListsForLogin(t, user).rows, isPublic)
  }

  /** The caller's own lists; none if the connection fails, and those read before a failure if the query fails. */
  function PrivateLists(config: ServiceConfiguration, b: Backend, login: UserCredentials): (r: seq<TaxonList>)
    ensures forall i :: 0 <= i < |r| ==> !r[i].isPublicList
  {
    match GetConnection(config, login, None)
    case Err(_) => []
    case Ok(t) => ListsRead(b, t, login.loginName, false)
  }

  /**
   * The public lists, read with the public-taxa login: none if that section is missing (the
   * null dereference is caught), and those read before a failure if the query fails.
   */
  function PublicLists(config: ServiceConfiguration, b: Backend): (r: seq<TaxonList>)
    ensures forall i :: 0 <= i < |r| ==> r[i].isPublicList
  {
    match config.publicTaxa
    case None => []
    case Some(p) => ListsRead(b, Target(p.login, p.server, p.catalog), p.login.user, true)
  }

  /** Private lists followed by public ones: a list is public exactly when it comes after the private part. */
  lemma {:induction false} PublicAfterPrivate(privateLists: seq<TaxonList>, publicLists: seq<TaxonList>)
    requires forall i :: 0 <= i < |privateLists| ==> !privateLists[i].isPublicList
    requires forall i :: 0 <= i < |publicLists| ==> publicLists[i].isPublicList
    ensures var r := privateLists + publicLists;
            forall i :: 0 <= i < |r| ==> (r[i].isPublicList <==> i >= |privateLists|)
  {
    var r := privateLists + publicLists;
    forall i | 0 <= i < |r| ensures r[i].isPublicList <==> i >= |privateLists| {
      if i < |privateLists| {
        assert r[i] == privateLists[i];
      } else {
        assert r[i] == publicLists[i - |privateLists|];
      }
    }
  }

  /** A list handed out is public exactly when it comes after the caller's private lists. */
  lemma {:induction false} TaxonListsPublicIff(config: ServiceConfiguration, b: Backend, login: UserCredentials)
    ensures var privateLists := PrivateLists(config, b, login);
            var r := privateLists + PublicLists(config, b);
            forall i :: 0 <= i < |r| ==> (r[i].isPublicList <==> i >= |privateLists|)
  {
    PublicAfterPrivate(PrivateLists(config, b, login), PublicLists(config, b));
  }

  /** The first try block of GetTaxonListsForUser: the caller's lists over the caller's connection. */
  method ReadPrivateLists(config: ServiceConfiguration, b: Backend, login: UserCredentials) returns (lists: seq<TaxonList>)
    ensures lists == PrivateLists(config, b, login)
  {
    lists := [];
    var connection := GetConnection(config, login, None);
    if connection.Ok? {
      lists := ListsRead(b, connection.value, login.loginName, false);
    }
  }

  /** The second try block of GetTaxonListsForUser: the public lists over the public-taxa connection. */
  method ReadPublicLists(config: ServiceConfiguration, b: Backend) returns (lists: seq<TaxonList>)
    ensures lists == PublicLists(config, b)
  {
    lists := [];
    var publicTaxa := config.publicTaxa;
    if publicTaxa.Some? {
      var p := publicTaxa.value;
      lists := ListsRead(b, Target(p.login, p.server, p.catalog), p.login.user, true);
    }
  }

  /**
   * GetTaxonListsForUser: the private lists, then the public ones; a failure in either
   * source loses only that source's lists.
   */
  method GetTaxonListsForUser(config: ServiceConfiguration, b: Backend, login: UserCredentials)
    returns (result: seq<TaxonList>)
    ensures result == PrivateLists(config, b, login) + PublicLists(config, b)
  {
    result := [];
    var privateLists := ReadPrivateLists(config, b, login);
    assert result + privateLists == privateLists;
    result := result + privateLists;
    var publicLists := ReadPublicLists(config, b);
    result := result + publicLists;
  }

  // ---------------------------------------------------------------- FindTaxonListIdIfNecessary

  /** The id of the first list whose table is `table`, if any. */
  function FirstIdWithTable(lists: seq<TaxonList>, table: NString): (r: Option<int>)
    ensures r.None? <==> forall i :: 0 <= i < |lists| ==> lists[i].table != table
    ensures r.Some? ==> exists k :: && 0 <= k < |lists|
                                    && lists[k].table == table
                                    && r.value == lists[k].id
                                    && forall j :: 0 <= j < k ==> lists[j].table != table
  {
    if |lists| == 0 then None
    else if lists[0].table == table then Some(lists[0].id)
    else
      var rest := FirstIdWithTable(lists[1..], table);
      assert rest.Some? ==> exists k :: && 0 < k < |lists|
                                        && lists[k].table == table
                                        && rest.value == lists[k].id
                                        && forall j :: 0 <= j < k ==> lists[j].table != table by {
        if rest.Some? {
          var k' :| && 0 <= k' < |lists[1..]|
                    && lists[1..][k'].table == table
                    && rest.value == lists[1..][k'].id
                    && forall j :: 0 <= j < k' ==> lists[1..][j].table != table;
          forall j | 0 < j < k' + 1 ensures lists[j].table != table { assert lists[j] == lists[1..][j - 1]; }
        }
      }
      rest
  }

  /**
   * FindTaxonListIdIfNecessary: a list sent without an id (an older client) gets the id of
   * the first of the user's lists with the same table; `list'` is the list afterwards.
   */
  method FindTaxonListIdIfNecessary(config: ServiceConfiguration, b: Backend, list: TaxonList, login: UserCredentials)
    returns (found: bool, list': TaxonList)
    ensures list.id != 0 ==> found && list' == list
    ensures list.id == 0 ==>
              var lists := PrivateLists(config, b, login) + PublicLists(config, b);
              && (found <==> exists i :: 0 <= i < |lists| && lists[i].table == list.table)
              && (found ==> list' == list.(id := FirstIdWithTable(lists, list.table).value))
              && (!found ==> list' == list)
  {
    list' := list;
    if list.id == 0 {
      var lists := GetTaxonListsForUser(config, b, login);
      var bestGuess := FirstIdWithTable(lists, list.table);
      if bestGuess.None? {
        return false, list';
      }
      list' := list.(id := bestGuess.value);
    }
    found := true;
  }
}
