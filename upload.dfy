/**
 * Uploading collection data (DiversityService.Upload.cs). Each Insert* operation runs in
 * one transaction: it inserts the parent row, obtains its generated key, stamps that key
 * into the dependent rows, inserts them, and sets the geography column only when there is
 * a literal to write. The transaction commits only when every statement succeeded; the
 * first failure propagates and leaves nothing committed.
 */
module Upload {
  import opened Wrappers
  import opened Text
  import opened Sequences
  import opened Configuration
  import opened Model
  import opened Storage
  import opened Geometry

  // ---------------------------------------------------------------- transactions

  /** The key the insert of `row` generated; 0 when it failed (the operation then returns no key). */
  function GeneratedKey(b: Backend, t: Target, row: Row): int {
    if b.insert(t, row).Ok? then b.insert(t, row).value else 0
  }

  /** What an upload transaction over `plan` returns: `key`, or the first failure. */
  function TransactionResult(b: Backend, t: Target, plan: seq<Statement>, key: int): (r: Result<int>)
    ensures r.Ok? <==> forall i :: 0 <= i < |plan| ==> Perform(b, t, plan[i]).Ok?
    ensures r.Ok? ==> r.value == key
  {
    FirstFailureNoneIff(b, t, plan);
    match FirstFailure(b, t, plan)
    case Some(e) => Err(e)
    case None => Ok(key)
  }

  /** One more statement after `done`, which all succeeded: it fails first, or all still succeed. */
  lemma Step(b: Backend, t: Target, done: seq<Statement>, s: Statement, rest: seq<Statement>)
    requires FirstFailure(b, t, done).None?
    ensures Perform(b, t, s).Err? ==>
              && FirstFailure(b, t, done + [s] + rest) == Some(Perform(b, t, s).error)
              && Attempted(b, t, done + [s] + rest) == done + [s]
    ensures Perform(b, t, s).Ok? ==> FirstFailure(b, t, done + [s]).None?
  {
    if Perform(b, t, s).Err? {
      FailAfter(b, t, done, s, rest);
    } else {
      FirstFailureAppend(b, t, done, [s]);
    }
  }

  /**
   * Running `xs` and `ys` after `done`, which all succeeded: the first failure of `xs`, else
   * that of `ys`; what is sent is `done`, then `xs` up to its failure, else all of `xs` and `ys`.
   */
  lemma RunAfter(b: Backend, t: Target, done: seq<Statement>, xs: seq<Statement>, ys: seq<Statement>)
    requires FirstFailure(b, t, done).None?
    ensures FirstFailure(b, t, done + xs + ys) == if FirstFailure(b, t, xs).Some? then FirstFailure(b, t, xs) else FirstFailure(b, t, ys)
    ensures Attempted(b, t, done + xs + ys) == done + if FirstFailure(b, t, xs).Some? then Attempted(b, t, xs) else xs + Attempted(b, t, ys)
  {
    assert done + xs + ys == done + (xs + ys);
    FirstFailureAppend(b, t, done, xs + ys);
    AttemptedAppend(b, t, done, xs + ys);
    FirstFailureAppend(b, t, xs, ys);
    AttemptedAppend(b, t, xs, ys);
  }

  /** A transaction whose first insert fails goes no further; the failure is its outcome. */
  lemma HeadFails(b: Backend, t: Target, head: Statement, follow: seq<Statement>)
    requires Perform(b, t, head).Err?
    ensures FirstFailure(b, t, [head] + follow) == Some(Perform(b, t, head).error)
    ensures Attempted(b, t, [head] + follow) == [head]
  {
    assert ([head] + follow)[0] == head;
  }

  /** After a first insert that succeeds, a transaction fails as, and sends what, the rest does. */
  lemma HeadThen(b: Backend, t: Target, head: Statement, follow: seq<Statement>)
    requires Perform(b, t, head).Ok?
    ensures FirstFailure(b, t, [head] + follow) == FirstFailure(b, t, follow)
    ensures Attempted(b, t, [head] + follow) == [head] + Attempted(b, t, follow)
  {
    assert ([head] + follow)[0] == head && ([head] + follow)[1..] == follow;
  }

  /** A geometry literal starts with a letter, so it is blank exactly when it is empty. */
  lemma LiteralBlankIffEmpty(s: string)
    requires |s| > 0 ==> s[0] == 'P' || s[0] == 'L'
    ensures IsBlank(s) <==> s == ""
  {
    if |s| > 0 {
      assert !IsWhiteSpace(s[0]);
    }
  }

  /** The UPDATE that sets the geography column of the row with `keys`, if there is a literal to write. */
  function GeographyUpdate(table: GeographyTable, wkt: string, keys: seq<int>): (r: seq<Statement>)
    ensures |r| <= 1
    ensures r != [] <==> !IsBlank(wkt)
    ensures r != [] ==> r[0].UpdateGeography? && r[0].table == table && r[0].wkt == wkt && r[0].srid == Wgs84Srid && r[0].keys == keys
  {
    if !IsBlank(wkt) then [UpdateGeography(table, wkt, Wgs84Srid, keys)] else []
  }

  /** Sets the geography column of one row from a literal, in WGS 84, unless the literal is blank. */
  method SetGeography(db: Connection, table: GeographyTable, wkt: string, keys: seq<int>) returns (failure: Option<Exception>)
    modifies db
    ensures failure == FirstFailure(db.backend, db.target, GeographyUpdate(table, wkt, keys))
    ensures db.issued == old(db.issued) + Attempted(db.backend, db.target, GeographyUpdate(table, wkt, keys))
    ensures db.committed == old(db.committed)
  {
    failure := None;
    if !IsBlank(wkt) {
      var update := UpdateGeography(table, wkt, Wgs84Srid, keys);
      assert [update][1..] == [];
      var updated := db.Run(update);
      if updated.Err? {
        failure := Some(updated.error);
      }
    }
  }

  // ---------------------------------------------------------------- InsertEventSeries

  /**
   * The geography update of a new event series: one UPDATE of its row, in WGS 84, with the
   * track's LINESTRING, exactly when the track has two distinct points.
   */
  function SeriesGeometry(seriesId: int, localizations: Option<seq<Localization>>, fmt: Double -> string): (r: seq<Statement>)
    ensures r == [] <==> localizations.None? || |Distinct(localizations.value)| < 2
    ensures r != [] ==> r == [UpdateGeography(CollectionEventSeriesTable, SerializeLocalizations(localizations, fmt), Wgs84Srid, [seriesId])]
  {
    var geoString := SerializeLocalizations(localizations, fmt);
    LiteralBlankIffEmpty(geoString);
    GeographyUpdate(CollectionEventSeriesTable, geoString, [seriesId])
  }

  /** The statements of InsertEventSeries: the series row, then its geography if the insert gave a key. */
  function SeriesPlan(b: Backend, t: Target, series: EventSeries, localizations: Option<seq<Localization>>, fmt: Double -> string)
    : seq<Statement>
  {
    [InsertRow(SeriesRow(series))] +
      match b.insert(t, SeriesRow(series))
      case Err(_) => []
      case Ok(id) => SeriesGeometry(id, localizations, fmt)
  }

  /** InsertEventSeries: returns the new series' key. */
  method InsertEventSeries(db: Connection, series: EventSeries, localizations: Option<seq<Localization>>, fmt: Double -> string)
    returns (r: Result<int>)
    modifies db
    ensures var plan := SeriesPlan(db.backend, db.target, series, localizations, fmt);
            && r == TransactionResult(db.backend, db.target, plan, GeneratedKey(db.backend, db.target, SeriesRow(series)))
            && db.issued == old(db.issued) + Attempted(db.backend, db.target, plan)
            && db.committed == old(db.committed) + (if r.Ok? then plan else [])
  {
    ghost var b, t := db.backend, db.target;
    ghost var plan := SeriesPlan(b, t, series, localizations, fmt);
    var start := |db.issued|;
    var head := InsertRow(SeriesRow(series));
    var inserted := db.Run(head);
    if inserted.Err? {
      HeadFails(b, t, head, plan[1..]);
      return Err(inserted.error);
    }
    var id := inserted.value;
    var geoString := SerializeLocalizations(localizations, fmt);
    ghost var follow := SeriesGeometry(id, localizations, fmt);
    assert plan == [head] + follow;
    HeadThen(b, t, head, follow);
    ghost var pre := db.issued;
    var failure := SetGeography(db, CollectionEventSeriesTable, geoString, [id]);
    assert db.issued == old(db.issued) + Attempted(b, t, plan) by {
      assert db.issued == pre + Attempted(b, t, follow);
      AppendAssociative(old(db.issued), [head], Attempted(b, t, follow));
    }
    if failure.Some? {
      return Err(failure.value);
    }
    db.Commit(start);
    r := Ok(id);
  }

  // ---------------------------------------------------------------- InsertEvent

  /** The geography update of one localisation row of an event, if there is a literal to write. */
  function LocalisationGeometry(loc: EventLocalisation, geoString: string): seq<Statement> {
    GeographyUpdate(CollectionEventLocalisationTable, geoString, [loc.collectionEventId, loc.localisationSystemId])
  }

  /** The statements for an event's localisation rows: each row, then its geography update. */
  function LocalisationStatements(locs: seq<EventLocalisation>, geoString: string): seq<Statement> {
    if |locs| == 0 then []
    else
      LocalisationStatements(locs[..|locs| - 1], geoString)
        + [InsertRow(LocalisationRow(locs[|locs| - 1]))] + LocalisationGeometry(locs[|locs| - 1], geoString)
  }

  /** There are one or two statements per localisation row: the insert and, for a non-blank literal, its update. */
  lemma {:induction false} LocalisationStatementsLength(locs: seq<EventLocalisation>, geoString: string)
    ensures |LocalisationStatements(locs, geoString)| == (if IsBlank(geoString) then 1 else 2) * |locs|
  {
    if |locs| > 0 {
      LocalisationStatementsLength(locs[..|locs| - 1], geoString);
    }
  }

  /** Every localisation row is inserted. */
  lemma {:induction false} LocalisationRowsInserted(locs: seq<EventLocalisation>, geoString: string)
    ensures var r := LocalisationStatements(locs, geoString);
            forall i :: 0 <= i < |locs| ==> InsertRow(LocalisationRow(locs[i])) in r
  {
    if |locs| > 0 {
      var init := locs[..|locs| - 1];
      var last := locs[|locs| - 1];
      LocalisationRowsInserted(init, geoString);
      var prefix := LocalisationStatements(init, geoString);
      var block := [InsertRow(LocalisationRow(last))] + LocalisationGeometry(last, geoString);
      assert LocalisationStatements(locs, geoString) == prefix + block;
      forall i | 0 <= i < |locs| ensures InsertRow(LocalisationRow(locs[i])) in prefix + block {
        if i < |init| {
          assert init[i] == locs[i];
          assert InsertRow(LocalisationRow(init[i])) in prefix;
        } else {
          assert block[0] == InsertRow(LocalisationRow(locs[i]));
        }
      }
    }
  }

  /** Every geography update writes `geoString` in WGS 84 to the row of one of the localisations. */
  lemma {:induction false} LocalisationUpdatesTargetRows(locs: seq<EventLocalisation>, geoString: string)
    ensures forall s :: s in LocalisationStatements(locs, geoString) && s.UpdateGeography? ==>
              && s.table == CollectionEventLocalisationTable && s.wkt == geoString && s.srid == Wgs84Srid
              && exists l :: l in locs && s.keys == [l.collectionEventId, l.localisationSystemId]
  {
    if |locs| > 0 {
      var init := locs[..|locs| - 1];
      var last := locs[|locs| - 1];
      LocalisationUpdatesTargetRows(init, geoString);
      var prefix := LocalisationStatements(init, geoString);
      var block := [InsertRow(LocalisationRow(last))] + LocalisationGeometry(last, geoString);
      assert LocalisationStatements(locs, geoString) == prefix + block;
      forall s: Statement | s in prefix + block && s.UpdateGeography?
        ensures && s.table == CollectionEventLocalisationTable && s.wkt == geoString && s.srid == Wgs84Srid
                && exists l :: l in locs && s.keys == [l.collectionEventId, l.localisationSystemId]
      {
        if s in prefix {
          var l :| l in init && s.keys == [l.collectionEventId, l.localisationSystemId];
          assert l in locs;
        } else {
          assert last in locs;
        }
      }
    }
  }

  /**
   * Every localisation row is inserted, and every geography update writes `geoString` in
   * WGS 84 to the row of one of the localisations.
   */
  lemma LocalisationStatementsShape(locs: seq<EventLocalisation>, geoString: string)
    ensures var r := LocalisationStatements(locs, geoString);
            && |r| == (if IsBlank(geoString) then 1 else 2) * |locs|
            && (forall i :: 0 <= i < |locs| ==> InsertRow(LocalisationRow(locs[i])) in r)
            && forall s :: s in r && s.UpdateGeography? ==>
                 && s.table == CollectionEventLocalisationTable && s.wkt == geoString && s.srid == Wgs84Srid
                 && exists l :: l in locs && s.keys == [l.collectionEventId, l.localisationSystemId]
  {
    LocalisationStatementsLength(locs, geoString);
    LocalisationRowsInserted(locs, geoString);
    LocalisationUpdatesTargetRows(locs, geoString);
  }

  /** A geography update is among the localisation statements exactly when there is a row and a literal. */
  lemma {:induction false} LocalisationUpdatesIff(locs: seq<EventLocalisation>, geoString: string)
    ensures (exists s :: s in LocalisationStatements(locs, geoString) && s.UpdateGeography?) <==> |locs| > 0 && !IsBlank(geoString)
  {
    if |locs| > 0 {
      var init := locs[..|locs| - 1];
      LocalisationUpdatesIff(init, geoString);
      var last := locs[|locs| - 1];
      if !IsBlank(geoString) {
        var u := UpdateGeography(CollectionEventLocalisationTable, geoString, Wgs84Srid, [last.collectionEventId, last.localisationSystemId]);
        assert u in LocalisationStatements(locs, geoString);
      }
    }
  }

  /** The statements of the rows after the first `i`. */
  lemma {:induction false} LocalisationStatementsPrefix(locs: seq<EventLocalisation>, i: nat, geoString: string)
    requires i < |locs|
    ensures LocalisationStatements(locs[..i + 1], geoString) ==
      LocalisationStatements(locs[..i], geoString) + [InsertRow(LocalisationRow(locs[i]))] + LocalisationGeometry(locs[i], geoString)
  {
    assert locs[..i + 1][..i] == locs[..i];
  }

  /** The body of the foreach over the localisation rows: inserts one row and sets its geography. */
  method InsertLocalisation(db: Connection, loc: EventLocalisation, geoString: string) returns (failure: Option<Exception>)
    modifies db
    ensures var block := [InsertRow(LocalisationRow(loc))] + LocalisationGeometry(loc, geoString);
            && failure == FirstFailure(db.backend, db.target, block)
            && db.issued == old(db.issued) + Attempted(db.backend, db.target, block)
    ensures db.committed == old(db.committed)
  {
    ghost var b, t := db.backend, db.target;
    var insertLoc := InsertRow(LocalisationRow(loc));
    ghost var geometry := LocalisationGeometry(loc, geoString);
    var inserted := db.Run(insertLoc);
    if inserted.Err? {
      HeadFails(b, t, insertLoc, geometry);
      return Some(inserted.error);
    }
    HeadThen(b, t, insertLoc, geometry);
    failure := SetGeography(db, CollectionEventLocalisationTable, geoString, [loc.collectionEventId, loc.localisationSystemId]);
    AppendAssociative(old(db.issued), [insertLoc], Attempted(b, t, geometry));
  }

  /** One turn of the foreach over the localisation rows, after the first `i` rows all succeeded. */
  lemma {:induction false} LocalisationStep(b: Backend, t: Target, locs: seq<EventLocalisation>, i: nat, geoString: string)
    requires i < |locs|
    requires FirstFailure(b, t, LocalisationStatements(locs[..i], geoString)).None?
    ensures var done := LocalisationStatements(locs[..i], geoString);
            var block := [InsertRow(LocalisationRow(locs[i]))] + LocalisationGeometry(locs[i], geoString);
            var later := LocalisationStatements(locs[i + 1..], geoString);
            var all := LocalisationStatements(locs, geoString);
            && LocalisationStatements(locs[..i + 1], geoString) == done + block
            && FirstFailure(b, t, all) == (if FirstFailure(b, t, block).Some? then FirstFailure(b, t, block) else FirstFailure(b, t, later))
            && Attempted(b, t, all) == done + (if FirstFailure(b, t, block).Some? then Attempted(b, t, block) else block + Attempted(b, t, later))
            && (FirstFailure(b, t, block).None? ==> FirstFailure(b, t, done + block).None?)
  {
    var done := LocalisationStatements(locs[..i], geoString);
    var block := [InsertRow(LocalisationRow(locs[i]))] + LocalisationGeometry(locs[i], geoString);
    var later := LocalisationStatements(locs[i + 1..], geoString);
    LocalisationStatementsPrefix(locs, i, geoString);
    assert locs == locs[..i + 1] + locs[i + 1..];
    LocalisationStatementsAppend(locs[..i + 1], locs[i + 1..], geoString);
    RunAfter(b, t, done, block, later);
    FirstFailureAppend(b, t, done, block);
  }

  /** The foreach over the localisation rows; stops at the first failure. */
  method InsertLocalisations(db: Connection, locs: seq<EventLocalisation>, geoString: string)
    returns (failure: Option<Exception>)
    modifies db
    ensures failure == FirstFailure(db.backend, db.target, LocalisationStatements(locs, geoString))
    ensures db.issued == old(db.issued) + Attempted(db.backend, db.target, LocalisationStatements(locs, geoString))
    ensures db.committed == old(db.committed)
  {
    ghost var b, t := db.backend, db.target;
    ghost var all := LocalisationStatements(locs, geoString);
    var i := 0;
    while i < |locs|
      invariant 0 <= i <= |locs|
      invariant db.issued == old(db.issued) + LocalisationStatements(locs[..i], geoString)
      invariant FirstFailure(b, t, LocalisationStatements(locs[..i], geoString)).None?
      invariant db.committed == old(db.committed)
    {
      LocalisationStep(b, t, locs, i, geoString);
      ghost var block := [InsertRow(LocalisationRow(locs[i]))] + LocalisationGeometry(locs[i], geoString);
      var blockFailure := InsertLocalisation(db, locs[i], geoString);
      AppendAssociative(old(db.issued), LocalisationStatements(locs[..i], geoString), Attempted(b, t, block));
      if blockFailure.Some? {
        return blockFailure;
      }
      i := i + 1;
    }
    assert locs[..i] == locs;
    failure := None;
  }

  /** The statements of two runs of rows one after the other are concatenated. */
  lemma {:induction false} LocalisationStatementsAppend(xs: seq<EventLocalisation>, ys: seq<EventLocalisation>, geoString: string)
    ensures LocalisationStatements(xs + ys, geoString) == LocalisationStatements(xs, geoString) + LocalisationStatements(ys, geoString)
    decreases |ys|
  {
    if |ys| == 0 {
      assert xs + ys == xs;
    } else {
      var ys' := ys[..|ys| - 1];
      assert (xs + ys)[..|xs + ys| - 1] == xs + ys';
      assert (xs + ys)[|xs + ys| - 1] == ys[|ys| - 1];
      LocalisationStatementsAppend(xs, ys', geoString);
    }
  }

  /** The event's properties, each stamped with the event's key, in order; none if null. */
  function PropertyStatements(properties: Option<seq<EventProperty>>, eventId: int): (r: seq<Statement>)
    ensures properties.None? ==> r == []
    ensures properties.Some? ==> |r| == |properties.value|
    ensures properties.Some? ==> forall i :: 0 <= i < |r| ==>
              r[i] == InsertRow(PropertyRow(properties.value[i].(collectionEventId := eventId)))
  {
    if properties.None? then []
    else
      var ps := properties.value;
      seq(|ps|, i requires 0 <= i < |ps| => InsertRow(PropertyRow(ps[i].(collectionEventId := eventId))))
  }

  /** The foreach over the properties: stamps each with the event's key and inserts it. */
  method InsertProperties(db: Connection, properties: Option<seq<EventProperty>>, eventId: int)
    returns (failure: Option<Exception>)
    modifies db
    ensures failure == FirstFailure(db.backend, db.target, PropertyStatements(properties, eventId))
    ensures db.issued == old(db.issued) + Attempted(db.backend, db.target, PropertyStatements(properties, eventId))
    ensures db.committed == old(db.committed)
  {
    ghost var b, t := db.backend, db.target;
    ghost var all := PropertyStatements(properties, eventId);
    if properties.None? {
      return None;
    }
    var ps := properties.value;
    var j := 0;
    while j < |ps|
      invariant 0 <= j <= |ps|
      invariant db.issued == old(db.issued) + all[..j]
      invariant FirstFailure(b, t, all[..j]).None?
      invariant db.committed == old(db.committed)
    {
      var p := ps[j].(collectionEventId := eventId);
      var insertProp := InsertRow(PropertyRow(p));
      assert all[j] == insertProp && all[..j + 1] == all[..j] + [insertProp];
      assert all == all[..j] + [insertProp] + all[j + 1..];
      Step(b, t, all[..j], insertProp, all[j + 1..]);
      var insertedProp := db.Run(insertProp);
      if insertedProp.Err? {
        return Some(insertedProp.error);
      }
      j := j + 1;
    }
    assert all[..j] == all;
    failure := None;
  }

  /** The statements after a new event's row, once its key is stamped into `ev`. */
  function EventFollowUp(ev: Event, localisations: seq<EventLocalisation>, properties: Option<seq<EventProperty>>, fmt: Double -> string)
    : seq<Statement>
  {
    LocalisationStatements(localisations, PointLiteral(ev.latitude, ev.longitude, ev.altitude, fmt))
      + PropertyStatements(properties, ev.collectionEventId)
  }

  /** The statements of InsertEvent; the localisation rows are derived from the stamped event. */
  function EventPlan(b: Backend, t: Target, ev: Event, properties: Option<seq<EventProperty>>, login: UserCredentials,
                     localisationsOf: (Event, UserCredentials) -> seq<EventLocalisation>, fmt: Double -> string)
    : seq<Statement>
  {
    [InsertRow(EventRow(ev))] +
      match b.insert(t, EventRow(ev))
      case Err(_) => []
      case Ok(id) =>
        var stamped := ev.(collectionEventId := id);
        EventFollowUp(stamped, localisationsOf(stamped, login), properties, fmt)
  }

  /**
   * Every property insert of an event's upload carries the event's key and otherwise the
   * property as sent, after the localisation statements; those write the geometry exactly
   * when the event has a position and there are localisation rows.
   */
  lemma EventFollowUpStamped(ev: Event, localisations: seq<EventLocalisation>, properties: seq<EventProperty>, fmt: Double -> string)
    ensures var geoString := PointLiteral(ev.latitude, ev.longitude, ev.altitude, fmt);
            var ls := LocalisationStatements(localisations, geoString);
            var r := EventFollowUp(ev, localisations, Some(properties), fmt);
            && |r| == |ls| + |properties|
            && (forall i :: 0 <= i < |properties| ==>
                  r[|ls| + i] == InsertRow(PropertyRow(properties[i].(collectionEventId := ev.collectionEventId))))
            && ((exists s :: s in ls && s.UpdateGeography?) <==> |localisations| > 0 && HasPosition(ev.latitude, ev.longitude))
  {
    var geoString := PointLiteral(ev.latitude, ev.longitude, ev.altitude, fmt);
    var ls := LocalisationStatements(localisations, geoString);
    var ps := PropertyStatements(Some(properties), ev.collectionEventId);
    var r := EventFollowUp(ev, localisations, Some(properties), fmt);
    assert r == ls + ps;
    forall i | 0 <= i < |properties|
      ensures r[|ls| + i] == InsertRow(PropertyRow(properties[i].(collectionEventId := ev.collectionEventId)))
    {
      assert r[|ls| + i] == ps[i];
    }
    LiteralBlankIffEmpty(geoString);
    LocalisationUpdatesIff(localisations, geoString);
  }

  /** The statements of InsertEvent after the event's row: its localisation rows, then its properties. */
  method InsertEventFollowUp(db: Connection, stamped: Event, locs: seq<EventLocalisation>, properties: Option<seq<EventProperty>>,
                             fmt: Double -> string)
    returns (failure: Option<Exception>)
    modifies db
    ensures var follow := EventFollowUp(stamped, locs, properties, fmt);
            && failure == FirstFailure(db.backend, db.target, follow)
            && db.issued == old(db.issued) + Attempted(db.backend, db.target, follow)
    ensures db.committed == old(db.committed)
  {
    ghost var b, t := db.backend, db.target;
    var geoString := SerializeLocalization(stamped.latitude, stamped.longitude, stamped.altitude, fmt);
    ghost var ls := LocalisationStatements(locs, geoString);
    ghost var props := PropertyStatements(properties, stamped.collectionEventId);
    FirstFailureAppend(b, t, ls, props);
    AttemptedAppend(b, t, ls, props);
    failure := InsertLocalisations(db, locs, geoString);
    if failure.Some? {
      return;
    }
    failure := InsertProperties(db, properties, stamped.collectionEventId);
    AppendAssociative(old(db.issued), ls, Attempted(b, t, props));
  }

  /** InsertEvent: returns the new event's key. */
  method InsertEvent(db: Connection, ev: Event, properties: Option<seq<EventProperty>>, login: UserCredentials,
                     localisationsOf: (Event, UserCredentials) -> seq<EventLocalisation>, fmt: Double -> string)
    returns (r: Result<int>)
    modifies db
    ensures var plan := EventPlan(db.backend, db.target, ev, properties, login, localisationsOf, fmt);
            && r == TransactionResult(db.backend, db.target, plan, GeneratedKey(db.backend, db.target, EventRow(ev)))
            && db.issued == old(db.issued) + Attempted(db.backend, db.target, plan)
            && db.committed == old(db.committed) + (if r.Ok? then plan else [])
  {
    ghost var b, t := db.backend, db.target;
    ghost var plan := EventPlan(b, t, ev, properties, login, localisationsOf, fmt);
    var start := |db.issued|;
    var head := InsertRow(EventRow(ev));
    var inserted := db.Run(head);
    if inserted.Err? {
      HeadFails(b, t, head, plan[1..]);
      return Err(inserted.error);
    }
    var id := inserted.value;
    var stamped := ev.(collectionEventId := id);
    var locs := localisationsOf(stamped, login);
    ghost var follow := EventFollowUp(stamped, locs, properties, fmt);
    assert plan == [head] + follow;
    HeadThen(b, t, head, follow);
    var failure := InsertEventFollowUp(db, stamped, locs, properties, fmt);
    AppendAssociative(old(db.issued), [head], Attempted(b, t, follow));
    if failure.Some? {
      return Err(failure.value);
    }
    db.Commit(start);
    r := Ok(id);
  }

  // ---------------------------------------------------------------- InsertSpecimen

  /** The rows a new specimen brings along: its project membership and its collecting agent. */
  function SpecimenFollowUp(s: Specimen, login: UserCredentials): seq<Statement> {
    [InsertRow(SpecimenProjectRow(s, login.projectId)), InsertRow(SpecimenAgentRow(s, login))]
  }

  /** The statements of InsertSpecimen; the dependent rows are built from the stamped specimen. */
  function SpecimenPlan(b: Backend, t: Target, s: Specimen, login: UserCredentials): seq<Statement> {
    [InsertRow(SpecimenRow(s))] +
      match b.insert(t, SpecimenRow(s))
      case Err(_) => []
      case Ok(id) => SpecimenFollowUp(s.(collectionSpecimenId := id), login)
  }

  /**
   * Once the specimen's row has its key, both dependent rows are built from the specimen
   * with that key and otherwise as sent; the project row names the caller's project.
   */
  lemma SpecimenStamped(b: Backend, t: Target, s: Specimen, login: UserCredentials)
    ensures var plan := SpecimenPlan(b, t, s, login);
            && plan[0] == InsertRow(SpecimenRow(s))
            && (b.insert(t, SpecimenRow(s)).Err? <==> |plan| == 1)
            && (b.insert(t, SpecimenRow(s)).Ok? ==>
                  && |plan| == 3
                  && plan[1].InsertRow? && plan[1].row.SpecimenProjectRow? && plan[1].row.projectId == login.projectId
                  && plan[2].InsertRow? && plan[2].row.SpecimenAgentRow? && plan[2].row.creds == login
                  && forall k :: 1 <= k < 3 ==>
                       plan[k].row.specimen == s.(collectionSpecimenId := b.insert(t, SpecimenRow(s)).value))
  {
  }

  /** InsertSpecimen: returns the new specimen's key. */
  method InsertSpecimen(db: Connection, s: Specimen, login: UserCredentials) returns (r: Result<int>)
    modifies db
    ensures var plan := SpecimenPlan(db.backend, db.target, s, login);
            && r == TransactionResult(db.backend, db.target, plan, GeneratedKey(db.backend, db.target, SpecimenRow(s)))
            && db.issued == old(db.issued) + Attempted(db.backend, db.target, plan)
            && db.committed == old(db.committed) + (if r.Ok? then plan else [])
  {
    ghost var b, t := db.backend, db.target;
    ghost var plan := SpecimenPlan(b, t, s, login);
    var start := |db.issued|;
    var head := InsertRow(SpecimenRow(s));
    var inserted := db.Run(head);
    if inserted.Err? {
      HeadFails(b, t, head, plan[1..]);
      return Err(inserted.error);
    }
    var id := inserted.value;
    var stamped := s.(collectionSpecimenId := id);
    var project := InsertRow(SpecimenProjectRow(stamped, login.projectId));
    var agent := InsertRow(SpecimenAgentRow(stamped, login));
    assert plan == [head] + [project] + [agent];
    Step(b, t, [head], project, [agent]);
    var insertedProject := db.Run(project);
    AppendAssociative(old(db.issued), [head], [project]);
    if insertedProject.Err? {
      return Err(insertedProject.error);
    }
    Step(b, t, [head] + [project], agent, []);
    var insertedAgent := db.Run(agent);
    AppendAssociative(old(db.issued), [head] + [project], [agent]);
    if insertedAgent.Err? {
      assert plan == [head] + [project] + [agent] + [];
      return Err(insertedAgent.error);
    }
    db.Commit(start);
    r := Ok(id);
  }

  // ---------------------------------------------------------------- InsertIdentificationUnit

  /**
   * The rows a new identification unit brings along: its identification, its geo-analysis,
   * and that row's geography when the unit has a position.
   */
  function UnitRows(unit: IdentificationUnit, login: UserCredentials, fmt: Double -> string): seq<Statement> {
    [InsertRow(IdentificationRow(unit, login)), InsertRow(GeoAnalysisRow(unit, login))]
      + GeographyUpdate(IdentificationUnitGeoAnalysisTable, PointLiteral(unit.latitude, unit.longitude, unit.altitude, fmt),
                        [unit.collectionSpecimenId, unit.collectionUnitId])
  }

  /** The unit's analyses, each stamped with the unit's key and its specimen's key, in order; none if null. */
  function AnalysisStatements(analyses: Option<seq<IdentificationUnitAnalysis>>, unit: IdentificationUnit): (r: seq<Statement>)
    ensures analyses.None? ==> r == []
    ensures analyses.Some? ==> |r| == |analyses.value|
    ensures analyses.Some? ==> forall i :: 0 <= i < |r| ==>
              r[i] == InsertRow(UnitAnalysisRow(analyses.value[i].(collectionUnitId := unit.collectionUnitId,
                                                                   collectionSpecimenId := unit.collectionSpecimenId)))
  {
    if analyses.None? then []
    else
      var given := analyses.value;
      seq(|given|, i requires 0 <= i < |given| =>
        InsertRow(UnitAnalysisRow(given[i].(collectionUnitId := unit.collectionUnitId, collectionSpecimenId := unit.collectionSpecimenId))))
  }

  /** The statements after a new unit's row, once its key is stamped into `unit`. */
  function UnitFollowUp(unit: IdentificationUnit, analyses: Option<seq<IdentificationUnitAnalysis>>, login: UserCredentials,
                        fmt: Double -> string)
    : seq<Statement>
  {
    UnitRows(unit, login, fmt) + AnalysisStatements(analyses, unit)
  }

  /** The statements of InsertIdentificationUnit. */
  function UnitPlan(b: Backend, t: Target, unit: IdentificationUnit, analyses: Option<seq<IdentificationUnitAnalysis>>,
                    login: UserCredentials, fmt: Double -> string)
    : seq<Statement>
  {
    [InsertRow(UnitRow(unit))] +
      match b.insert(t, UnitRow(unit))
      case Err(_) => []
      case Ok(id) => UnitFollowUp(unit.(collectionUnitId := id), analyses, login, fmt)
  }

  /**
   * After a unit's row: the identification and geo-analysis rows of the stamped unit, the
   * geography exactly when the unit has a position, then every analysis carrying the unit's
   * key and its specimen's key and otherwise as sent.
   */
  lemma UnitFollowUpStamped(unit: IdentificationUnit, analyses: seq<IdentificationUnitAnalysis>, login: UserCredentials,
                            fmt: Double -> string)
    ensures var rows := UnitRows(unit, login, fmt);
            var r := UnitFollowUp(unit, Some(analyses), login, fmt);
            && rows[0] == InsertRow(IdentificationRow(unit, login)) && rows[1] == InsertRow(GeoAnalysisRow(unit, login))
            && (|rows| == 3 <==> HasPosition(unit.latitude, unit.longitude))
            && (|rows| == 3 ==> rows[2].UpdateGeography? && rows[2].keys == [unit.collectionSpecimenId, unit.collectionUnitId])
            && |r| == |rows| + |analyses|
            && forall i :: 0 <= i < |analyses| ==>
                 && r[|rows| + i].InsertRow? && r[|rows| + i].row.UnitAnalysisRow?
                 && r[|rows| + i].row.analysis.collectionUnitId == unit.collectionUnitId
                 && r[|rows| + i].row.analysis.collectionSpecimenId == unit.collectionSpecimenId
                 && r[|rows| + i].row.analysis.details == analyses[i].details
  {
    LiteralBlankIffEmpty(PointLiteral(unit.latitude, unit.longitude, unit.altitude, fmt));
  }

  /** The identification, geo-analysis and geography statements of a new unit. */
  method InsertUnitRows(db: Connection, unit: IdentificationUnit, login: UserCredentials, fmt: Double -> string)
    returns (failure: Option<Exception>)
    modifies db
    ensures failure == FirstFailure(db.backend, db.target, UnitRows(unit, login, fmt))
    ensures db.issued == old(db.issued) + Attempted(db.backend, db.target, UnitRows(unit, login, fmt))
    ensures db.committed == old(db.committed)
  {
    ghost var b, t := db.backend, db.target;
    var identification := InsertRow(IdentificationRow(unit, login));
    var geoAnalysis := InsertRow(GeoAnalysisRow(unit, login));
    var geoString := SerializeLocalization(unit.latitude, unit.longitude, unit.altitude, fmt);
    ghost var geometry := GeographyUpdate(IdentificationUnitGeoAnalysisTable, geoString, [unit.collectionSpecimenId, unit.collectionUnitId]);
    assert UnitRows(unit, login, fmt) == [] + [identification] + ([geoAnalysis] + geometry);
    Step(b, t, [], identification, [geoAnalysis] + geometry);
    var insertedIdentification := db.Run(identification);
    if insertedIdentification.Err? {
      return Some(insertedIdentification.error);
    }
    assert UnitRows(unit, login, fmt) == [identification] + [geoAnalysis] + geometry;
    Step(b, t, [identification], geoAnalysis, geometry);
    var insertedGeoAnalysis := db.Run(geoAnalysis);
    AppendAssociative(old(db.issued), [identification], [geoAnalysis]);
    if insertedGeoAnalysis.Err? {
      return Some(insertedGeoAnalysis.error);
    }
    FirstFailureAppend(b, t, [identification] + [geoAnalysis], geometry);
    AttemptedAppend(b, t, [identification] + [geoAnalysis], geometry);
    failure := SetGeography(db, IdentificationUnitGeoAnalysisTable, geoString, [unit.collectionSpecimenId, unit.collectionUnitId]);
    AppendAssociative(old(db.issued), [identification] + [geoAnalysis], Attempted(b, t, geometry));
  }

  /** The foreach over the analyses: stamps each with the unit's and specimen's keys and inserts it. */
  method InsertAnalyses(db: Connection, analyses: Option<seq<IdentificationUnitAnalysis>>, unit: IdentificationUnit)
    returns (failure: Option<Exception>)
    modifies db
    ensures failure == FirstFailure(db.backend, db.target, AnalysisStatements(analyses, unit))
    ensures db.issued == old(db.issued) + Attempted(db.backend, db.target, AnalysisStatements(analyses, unit))
    ensures db.committed == old(db.committed)
  {
    ghost var b, t := db.backend, db.target;
    ghost var all := AnalysisStatements(analyses, unit);
    if analyses.None? {
      return None;
    }
    var given := analyses.value;
    var j := 0;
    while j < |given|
      invariant 0 <= j <= |given|
      invariant db.issued == old(db.issued) + all[..j]
      invariant FirstFailure(b, t, all[..j]).None?
      invariant db.committed == old(db.committed)
    {
      var a := given[j].(collectionUnitId := unit.collectionUnitId, collectionSpecimenId := unit.collectionSpecimenId);
      var insertAnalysis := InsertRow(UnitAnalysisRow(a));
      assert all[j] == insertAnalysis && all[..j + 1] == all[..j] + [insertAnalysis];
      assert all == all[..j] + [insertAnalysis] + all[j + 1..];
      Step(b, t, all[..j], insertAnalysis, all[j + 1..]);
      var insertedAnalysis := db.Run(insertAnalysis);
      if insertedAnalysis.Err? {
        return Some(insertedAnalysis.error);
      }
      j := j + 1;
    }
    assert all[..j] == all;
    failure := None;
  }

  /** InsertIdentificationUnit: returns the new unit's key. */
  method InsertIdentificationUnit(db: Connection, unit: IdentificationUnit, analyses: Option<seq<IdentificationUnitAnalysis>>,
                                  login: UserCredentials, fmt: Double -> string)
    returns (r: Result<int>)
    modifies db
    ensures var plan := UnitPlan(db.backend, db.target, unit, analyses, login, fmt);
            && r == TransactionResult(db.backend, db.target, plan, GeneratedKey(db.backend, db.target, UnitRow(unit)))
            && db.issued == old(db.issued) + Attempted(db.backend, db.target, plan)
            && db.committed == old(db.committed) + (if r.Ok? then plan else [])
  {
    ghost var b, t := db.backend, db.target;
    ghost var plan := UnitPlan(b, t, unit, analyses, login, fmt);
    var start := |db.issued|;
    var head := InsertRow(UnitRow(unit));
    var inserted := db.Run(head);
    if inserted.Err? {
      HeadFails(b, t, head, plan[1..]);
      return Err(inserted.error);
    }
    var id := inserted.value;
    var stamped := unit.(collectionUnitId := id);
    ghost var rows := UnitRows(stamped, login, fmt);
    ghost var stampedAnalyses := AnalysisStatements(analyses, stamped);
    ghost var follow := UnitFollowUp(stamped, analyses, login, fmt);
    assert plan == [head] + follow;
    HeadThen(b, t, head, follow);
    FirstFailureAppend(b, t, rows, stampedAnalyses);
    AttemptedAppend(b, t, rows, stampedAnalyses);
    var failure := InsertUnitRows(db, stamped, login, fmt);
    AppendAssociative(old(db.issued), [head], Attempted(b, t, rows));
    if failure.Some? {
      return Err(failure.value);
    }
    ghost var mid := db.issued;
    failure := InsertAnalyses(db, analyses, stamped);
    AppendAssociative(old(db.issued) + [head], rows, Attempted(b, t, stampedAnalyses));
    AppendAssociative(old(db.issued), [head], rows + Attempted(b, t, stampedAnalyses));
    if failure.Some? {
      return Err(failure.value);
    }
    db.Commit(start);
    r := Ok(id);
  }

  // ---------------------------------------------------------------- InsertMMO

  /** The image table a multimedia object goes to; specimens and their units share one. */
  function ImageTableFor(owner: MultimediaOwner): (r: Option<ImageTable>)
    ensures r.None? <==> owner.OtherOwner?
    ensures r == Some(CollectionSpecimenImage) <==> owner == SpecimenOwner || owner == IdentificationUnitOwner
    ensures r == Some(CollectionEventSeriesImage) <==> owner == EventSeriesOwner
    ensures r == Some(CollectionEventImage) <==> owner == EventOwner
  {
    match owner
    case EventSeriesOwner => Some(CollectionEventSeriesImage)
    case EventOwner => Some(CollectionEventImage)
    case SpecimenOwner => Some(CollectionSpecimenImage)
    case IdentificationUnitOwner => Some(CollectionSpecimenImage)
    case OtherOwner(_) => None
  }

  /** The statement InsertMMO sends: the image row, unless the owner type is unknown. */
  function MmoStatements(mmo: MultimediaObject): seq<Statement> {
    match ImageTableFor(mmo.ownerType)
    case None => []
    case Some(table) => [InsertRow(ImageRow(table, mmo))]
  }

  /**
   * What escapes InsertMMO: an ArgumentException for an unknown owner type, and any failure
   * of the insert except a storage failure, which counts as the object being there already.
   */
  function MmoOutcome(b: Backend, t: Target, mmo: MultimediaObject): (r: Result<()>)
    ensures r.Err? <==>
              || ImageTableFor(mmo.ownerType).None?
              || (var e := b.insert(t, ImageRow(ImageTableFor(mmo.ownerType).value, mmo)); e.Err? && e.error != SqlException)
    ensures r.Err? && ImageTableFor(mmo.ownerType).None? ==> r.error == ArgumentException
    ensures r.Err? && ImageTableFor(mmo.ownerType).Some? ==> r.error != SqlException
  {
    match ImageTableFor(mmo.ownerType)
    case None => Err(ArgumentException)
    case Some(table) =>
      match b.insert(t, ImageRow(table, mmo))
      case Ok(_) => Ok(())
      case Err(e) => if e == SqlException then Ok(()) else Err(e)
  }

  /** InsertMMO: one insert outside any transaction, which is durable as soon as it succeeds. */
  method InsertMMO(db: Connection, mmo: MultimediaObject) returns (r: Result<()>)
    modifies db
    ensures r == MmoOutcome(db.backend, db.target, mmo)
    ensures db.issued == old(db.issued) + MmoStatements(mmo)
    ensures db.committed == old(db.committed) +
              if FirstFailure(db.backend, db.target, MmoStatements(mmo)).None? then MmoStatements(mmo) else []
  {
    var start := |db.issued|;
    var table := ImageTableFor(mmo.ownerType);
    if table.None? {
      return Err(ArgumentException);
    }
    var insert := InsertRow(ImageRow(table.value, mmo));
    var inserted := db.Run(insert);
    assert [insert][1..] == [];
    if inserted.Ok? {
      db.Commit(start);
      return Ok(());
    }
    if inserted.error == SqlException {
      return Ok(());
    }
    r := Err(inserted.error);
  }
}
