/**
 * Module discovery (DiversityService.Queries.cs): which catalogs on a server are
 * DiversityWorkbench modules, grouped by module type, memoised per server and user.
 */
module ModuleDiscovery {
  import opened Wrappers
  import opened Text
  import opened Sequences
  import opened Storage
  import opened ResultCache

  /** The marker function whose presence and result classify a catalog. */
  const FunctionDiversityModule := "DiversityWorkbenchModule"

  /** The tag that ends the module cache key. */
  const CacheModulesTag := "MODULES"

  /** TimeSpan.FromMinutes(5), in ticks. */
  const CacheTtl: int := 3_000_000_000

  /** Module type kind -> the catalogs of that type, in the order the server listed them. */
  type Modules = map<string, seq<string>>

  /** getCacheExpiration: an entry written now lives for the fixed time to live. */
  function CacheExpiration(now: Instant): (r: Instant)
    ensures now < r && r - now == 5 * 60 * 10_000_000
  {
    now + CacheTtl
  }

  // ---------------------------------------------------------------- cache key

  /** The key as the source formats it: "{serverId}_{userId}_MODULES". */
  function CacheKeyAsWritten(serverId: string, userId: NString): string {
    serverId + "_" + Render(userId) + "_" + CacheModulesTag
  }

  /** Two different (server, user) pairs share one key, and so one cache entry. */
  lemma CacheKeyAsWrittenCollides()
    ensures CacheKeyAsWritten("a_b", Some("c")) == CacheKeyAsWritten("a", Some("b_c"))
    ensures ("a_b", Render(Some("c"))) != ("a", Render(Some("b_c")))
  {
    assert CacheKeyAsWritten("a_b", Some("c")) == "a_b_c_MODULES";
    assert CacheKeyAsWritten("a", Some("b_c")) == "a_b_c_MODULES";
  }

  function EscapeChar(c: char): (r: string)
    ensures |r| >= 1 && r[0] != '_'
  {
    if c == '\\' then "\\\\" else if c == '_' then "\\_" else [c]
  }

  /** Escapes '\\' and '_' with a backslash, so that an unescaped '_' can separate fields. */
  function Escape(s: string): (r: string)
    ensures |s| > 0 ==> |r| > 0 && r[0] != '_'
  {
    if |s| == 0 then "" else EscapeChar(s[0]) + Escape(s[1..])
  }

  /** The first character of an escaped field and its separator is '_' only when the field is empty. */
  lemma EscapedHead(a: string, x: string)
    ensures ((Escape(a) + "_" + x)[0] == '_') <==> |a| == 0
  {
    if |a| > 0 {
      assert (Escape(a) + "_" + x)[0] == Escape(a)[0];
    }
  }

  /** An escaped character is told apart from what follows it. */
  lemma EscapeCharDetermined(c1: char, r1: string, c2: char, r2: string)
    requires EscapeChar(c1) + r1 == EscapeChar(c2) + r2
    ensures c1 == c2 && r1 == r2
  {
    var l := EscapeChar(c1) + r1;
    var e1, e2 := EscapeChar(c1), EscapeChar(c2);
    assert l[0] == e1[0] == e2[0];
    if e1[0] == '\\' {
      assert |e1| == 2 && |e2| == 2;
      assert e1 == l[..2] == e2;
    } else {
      assert |e1| == 1 && |e2| == 1;
      assert e1 == l[..1] == e2;
    }
    assert r1 == l[|e1|..] == r2;
  }

  /** A field, its continuation and a separator, regrouped. */
  lemma Regroup(e: string, r: string, x: string)
    ensures e + r + "_" + x == e + (r + "_" + x)
  {
  }

  /** An escaped field followed by '_' can be told apart from what follows it. */
  lemma {:induction false} EscapedFieldDetermined(a: string, x: string, b: string, y: string)
    requires Escape(a) + "_" + x == Escape(b) + "_" + y
    ensures a == b && x == y
    decreases |a| + |b|
  {
    EscapedHead(a, x);
    EscapedHead(b, y);
    if |a| == 0 {
      assert |b| == 0;
      assert x == (Escape(a) + "_" + x)[1..] == y;
    } else {
      assert |b| > 0;
      Regroup(EscapeChar(a[0]), Escape(a[1..]), x);
      Regroup(EscapeChar(b[0]), Escape(b[1..]), y);
      EscapeCharDetermined(a[0], Escape(a[1..]) + "_" + x, b[0], Escape(b[1..]) + "_" + y);
      EscapedFieldDetermined(a[1..], x, b[1..], y);
      assert a == [a[0]] + a[1..] && b == [b[0]] + b[1..];
    }
  }

  /** The module cache key, one per (serverId, userId): both fields escaped, then joined by '_'. */
  function ModulesCacheKey(serverId: string, userId: NString): string {
    Escape(serverId) + "_" + Escape(Render(userId)) + "_" + CacheModulesTag
  }

  lemma KeyShape(a: string, b: string, c: string)
    ensures a + "_" + b + "_" + c == a + "_" + (b + "_" + c)
  {
  }

  /** Different (server, user) pairs never share a cache entry. */
  lemma ModulesCacheKeyInjective(s1: string, u1: NString, s2: string, u2: NString)
    requires ModulesCacheKey(s1, u1) == ModulesCacheKey(s2, u2)
    ensures s1 == s2 && Render(u1) == Render(u2)
  {
    var e1, e2 := Escape(Render(u1)), Escape(Render(u2));
    var x1 := e1 + "_" + CacheModulesTag;
    var x2 := e2 + "_" + CacheModulesTag;
    KeyShape(Escape(s1), e1, CacheModulesTag);
    KeyShape(Escape(s2), e2, CacheModulesTag);
    EscapedFieldDetermined(s1, x1, s2, x2);
    EscapedFieldDetermined(Render(u1), CacheModulesTag, Render(u2), CacheModulesTag);
  }

  // ---------------------------------------------------------------- probes

  /** hasAccessToDB: HAS_DBACCESS(dbName) returned 1. */
  function AccessProbe(b: Backend, t: Target, dbName: string): Result<bool> {
    match b.hasDbAccess(t, dbName)
    case Err(e) => Err(e)
    case Ok(v) => Ok(v == Some(1))
  }

  /** functionExists: the catalog holds a function of that name. */
  function FunctionProbe(b: Backend, t: Target, dbName: string, functionName: string): Result<bool> {
    match b.functionCount(t, dbName, functionName)
    case Err(e) => Err(e)
    case Ok(n) => Ok(n != 0)
  }

  method HasAccessToDb(db: Connection, dbName: string) returns (r: Result<bool>)
    modifies db
    ensures r == AccessProbe(db.backend, db.target, dbName)
    ensures r == Ok(true) <==> db.backend.hasDbAccess(db.target, dbName) == Ok(Some(1))
    ensures db.issued == old(db.issued) + [SelectHasDbAccess(dbName)]
    ensures db.committed == old(db.committed)
  {
    var scalar := db.HasDbAccess(dbName);
    match scalar
    case Err(e) => r := Err(e);
    case Ok(v) => r := Ok(v == Some(1));
  }

  method FunctionExists(db: Connection, dbName: string, functionName: string) returns (r: Result<bool>)
    modifies db
    ensures r == FunctionProbe(db.backend, db.target, dbName, functionName)
    ensures r == Ok(true) <==> (db.backend.functionCount(db.target, dbName, functionName).Ok?
                                && db.backend.functionCount(db.target, dbName, functionName).value != 0)
    ensures db.issued == old(db.issued) + [SelectFunctionExists(dbName, functionName)]
    ensures db.committed == old(db.committed)
  {
    var count := db.FunctionCount(dbName, functionName);
    match count
    case Err(e) => r := Err(e);
    case Ok(n) => r := Ok(n != 0);
  }

  /**
   * The module type of one catalog, or None when it is skipped: inaccessible, without the
   * marker function, with a blank type, or any probe throwing.
   */
  function Classify(b: Backend, t: Target, dbName: string): (r: Option<string>)
    ensures r.Some? <==> && AccessProbe(b, t, dbName) == Ok(true)
                         && FunctionProbe(b, t, dbName, FunctionDiversityModule) == Ok(true)
                         && b.moduleType(t, dbName).Ok?
                         && !IsNullOrWhiteSpace(b.moduleType(t, dbName).value)
    ensures r.Some? ==> b.moduleType(t, dbName) == Ok(Some(r.value)) && !IsBlank(r.value)
  {
    if AccessProbe(b, t, dbName) != Ok(true) then None
    else if FunctionProbe(b, t, dbName, FunctionDiversityModule) != Ok(true) then None
    else match b.moduleType(t, dbName)
      case Ok(Some(kind)) => if IsBlank(kind) then None else Some(kind)
      case _ => None
  }

  /** The statements probing one catalog issues: each probe runs only if the previous one said yes. */
  function ProbeTrace(b: Backend, t: Target, dbName: string): seq<Statement> {
    [SelectHasDbAccess(dbName)]
    + if AccessProbe(b, t, dbName) != Ok(true) then []
      else [SelectFunctionExists(dbName, FunctionDiversityModule)]
           + if FunctionProbe(b, t, dbName, FunctionDiversityModule) != Ok(true) then []
             else [CallModuleFunction(dbName)]
  }

  /** The statements a scan of `names` issues, catalog after catalog. */
  function ScanTrace(b: Backend, t: Target, names: seq<string>): seq<Statement> {
    if |names| == 0 then []
    else ScanTrace(b, t, names[..|names| - 1]) + ProbeTrace(b, t, names[|names| - 1])
  }

  /** Every listed catalog is probed, whatever became of the others. */
  lemma {:induction false} EveryDatabaseProbed(b: Backend, t: Target, names: seq<string>)
    ensures forall i :: 0 <= i < |names| ==> SelectHasDbAccess(names[i]) in ScanTrace(b, t, names)
  {
    if |names| > 0 {
      var init := names[..|names| - 1];
      EveryDatabaseProbed(b, t, init);
      forall i | 0 <= i < |names| ensures SelectHasDbAccess(names[i]) in ScanTrace(b, t, names) {
        if i < |names| - 1 {
          assert names[i] == init[i];
        } else {
          assert ProbeTrace(b, t, names[i])[0] == SelectHasDbAccess(names[i]);
        }
      }
    }
  }

  // ---------------------------------------------------------------- grouping

  /** Appends `name` to the list for `kind`, creating the list on first use. */
  function AddModule(m: Modules, kind: string, name: string): Modules {
    m[kind := (if kind in m then m[kind] else []) + [name]]
  }

  /** The grouping the scan of `names` builds. */
  function Group(b: Backend, t: Target, names: seq<string>): Modules {
    if |names| == 0 then map[]
    else
      var m := Group(b, t, names[..|names| - 1]);
      match Classify(b, t, names[|names| - 1])
      case None => m
      case Some(kind) => AddModule(m, kind, names[|names| - 1])
  }

  /** Reference definition: the catalogs of `names` classified as `kind`, in input order. */
  function Selected(b: Backend, t: Target, names: seq<string>, kind: string): (r: seq<string>)
    ensures forall i :: 0 <= i < |r| ==> r[i] in names && Classify(b, t, r[i]) == Some(kind)
    ensures forall i :: 0 <= i < |names| && Classify(b, t, names[i]) == Some(kind) ==> names[i] in r
  {
    if |names| == 0 then []
    else
      var init := names[..|names| - 1];
      var last := names[|names| - 1];
      assert forall i :: 0 <= i < |init| ==> init[i] == names[i];
      Selected(b, t, init, kind) + (if Classify(b, t, last) == Some(kind) then [last] else [])
  }

  /**
   * The scan's grouping is exactly the selection: a kind is present iff some catalog has
   * that type, and its list holds those catalogs in the order they were listed.
   */
  lemma {:induction false} GroupIsSelection(b: Backend, t: Target, names: seq<string>)
    ensures forall kind :: kind in Group(b, t, names) <==> Selected(b, t, names, kind) != []
    ensures forall kind :: kind in Group(b, t, names) ==> Group(b, t, names)[kind] == Selected(b, t, names, kind)
  {
    if |names| > 0 {
      var init := names[..|names| - 1];
      GroupIsSelection(b, t, init);
    }
  }

  /** A catalog is grouped under `kind` iff it is accessible, a module, and of type `kind`. */
  lemma GroupedIff(b: Backend, t: Target, names: seq<string>, i: int, kind: string)
    requires 0 <= i < |names|
    ensures (kind in Group(b, t, names) && names[i] in Group(b, t, names)[kind])
        <==> Classify(b, t, names[i]) == Some(kind)
  {
    GroupIsSelection(b, t, names);
    var g := Group(b, t, names);
    if kind in g && names[i] in g[kind] {
      var k :| 0 <= k < |g[kind]| && g[kind][k] == names[i];
      assert Classify(b, t, g[kind][k]) == Some(kind);
    }
  }

  // ---------------------------------------------------------------- getDiversityModules

  /** What getDiversityModules returns, given what the cache held for its key. */
  function ModulesOutcome(cached: Option<Modules>, b: Backend, t: Target): Result<Modules> {
    if cached.Some? then Ok(cached.value)
    else match b.databaseNames(t)
      case Err(e) => Err(e)
      case Ok(names) => Ok(Group(b, t, names))
  }

  /**
   * The statements getDiversityModules sends, given what the cache held: none on a hit;
   * otherwise the listing and, if it answered, the probes of every catalog listed.
   */
  function DiscoveryTrace(cached: Option<Modules>, b: Backend, t: Target): seq<Statement> {
    if cached.Some? then []
    else
      [SelectDatabaseNames] + match b.databaseNames(t)
                              case Err(_) => []
                              case Ok(names) => ScanTrace(b, t, names)
  }

  /** GetDiversityModules' three cases of what it sends, as one trace. */
  lemma DiscoveryTraceCases(cached: Option<Modules>, b: Backend, t: Target, before: seq<Statement>, after: seq<Statement>)
    requires cached.Some? ==> after == before
    requires cached.None? && b.databaseNames(t).Err? ==> after == before + [SelectDatabaseNames]
    requires cached.None? && b.databaseNames(t).Ok? ==>
               after == before + [SelectDatabaseNames] + ScanTrace(b, t, b.databaseNames(t).value)
    ensures after == before + DiscoveryTrace(cached, b, t)
  {
    if cached.None? {
      if b.databaseNames(t).Err? {
        assert [SelectDatabaseNames] + [] == [SelectDatabaseNames];
      } else {
        AppendAssociative(before, [SelectDatabaseNames], ScanTrace(b, t, b.databaseNames(t).value));
      }
    } else {
      assert before + [] == before;
    }
  }

  /**
   * The body of the scan for one catalog: probes it and, when it is a module with a type,
   * appends it to that type's list.
   */
  method ProbeCatalog(db: Connection, modules: Modules, dbName: string) returns (modules': Modules)
    modifies db
    ensures modules' == match Classify(db.backend, db.target, dbName)
                        case None => modules
                        case Some(kind) => AddModule(modules, kind, dbName)
    ensures db.issued == old(db.issued) + ProbeTrace(db.backend, db.target, dbName)
    ensures db.committed == old(db.committed)
  {
    modules' := modules;
    // A probe that throws skips this catalog only, as a negative answer does.
    var hasAccess := HasAccessToDb(db, dbName);
    if hasAccess == Ok(true) {
      var isModule := FunctionExists(db, dbName, FunctionDiversityModule);
      if isModule == Ok(true) {
        var moduleType := db.ModuleType(dbName);
        if moduleType.Ok? && !IsNullOrWhiteSpace(moduleType.value) {
          var kind := moduleType.value.value;
          var moduleList := if kind in modules then modules[kind] else [];
          modules' := modules[kind := moduleList + [dbName]];
        }
      }
    }
  }

  /**
   * getDiversityModules: a live cache entry is returned without touching the server;
   * otherwise the catalogs are listed (a failure propagates and nothing is cached),
   * each is probed and grouped, and the grouping is cached until now + TTL.
   */
  method GetDiversityModules(cache: Cache<Modules>, db: Connection, serverId: string, userId: NString, now: Instant)
    returns (r: Result<Modules>)
    requires !IsBlank(serverId)
    modifies cache, db
    ensures db.committed == old(db.committed)
    ensures r == ModulesOutcome(old(cache.Lookup(ModulesCacheKey(serverId, userId), now)), db.backend, db.target)
    ensures old(cache.Lookup(ModulesCacheKey(serverId, userId), now)).Some? ==>
              cache.entries == old(cache.entries) && db.issued == old(db.issued)
    ensures old(cache.Lookup(ModulesCacheKey(serverId, userId), now)).None? && r.Err? ==>
              cache.entries == old(cache.entries) && db.issued == old(db.issued) + [SelectDatabaseNames]
    ensures old(cache.Lookup(ModulesCacheKey(serverId, userId), now)).None? && r.Ok? ==>
              && cache.entries == old(cache.entries)[ModulesCacheKey(serverId, userId) := Entry(r.value, CacheExpiration(now))]
              && db.issued == old(db.issued) + [SelectDatabaseNames]
                              + ScanTrace(db.backend, db.target, db.backend.databaseNames(db.target).value)
  {
    var cacheKey := ModulesCacheKey(serverId, userId);
    var cached := cache.Get(cacheKey, now);
    if cached.Some? {
      return Ok(cached.value);
    }

    var listing := db.DatabaseNames();
    if listing.Err? {
      return Err(listing.error);  // stop further processing
    }
    var databases := listing.value;

    var modules: Modules := map[];
    var i := 0;
    while i < |databases|
      invariant 0 <= i <= |databases|
      invariant modules == Group(db.backend, db.target, databases[..i])
      invariant db.issued == old(db.issued) + [SelectDatabaseNames] + ScanTrace(db.backend, db.target, databases[..i])
      invariant cache.entries == old(cache.entries)
      invariant db.committed == old(db.committed)
    {
      var dbName := databases[i];
      assert databases[..i + 1][..i] == databases[..i];
      modules := ProbeCatalog(db, modules, dbName);
      AppendAssociative(old(db.issued) + [SelectDatabaseNames], ScanTrace(db.backend, db.target, databases[..i]),
                        ProbeTrace(db.backend, db.target, dbName));
      i := i + 1;
    }
    assert databases[..i] == databases;

    cache.Add(cacheKey, modules, CacheExpiration(now));
    r := Ok(modules);
  }
}
