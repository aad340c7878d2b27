/**
 * `_get_or_create_entity_id`, the get-or-create step every collector uses for
 * leagues and teams. Its copies differ only in what they do with the source id
 * of a row that already exists.
 */
module Resolver {
  import opened Wrappers
  import opened Store

  datatype Kind = LeagueKind | TeamKind

  /** What a resolver does with a supplied source id when the row already exists. */
  datatype Policy =
    | Overwrite   // written when the stored id is NULL or different
    | FillIfNull  // written only when the stored id is NULL
    | KeepSource  // never written

  /**
   * What happens to the INSERT of a new row: it succeeds; it raises
   * IntegrityError because a row `other` with the same key appeared first, and
   * the key is read again; or it raises another `sqlite3.Error`.
   */
  datatype Fault = NoFault | Raced(other: Entity) | Failed

  /** A name, sport or source id Python treats as present: not None, not NaN, not empty. */
  predicate Given(s: Option<string>)
  {
    s.Some? && s.value != ""
  }

  predicate Refresh(p: Policy, stored: Option<string>, source: Option<string>)
  {
    Given(source) &&
    match p
    case Overwrite => stored != source
    case FillIfNull => stored.None?
    case KeepSource => false
  }

  /** `not x` for an id returned by the resolver or by `lastrowid`. */
  predicate Falsy(id: Option<int>)
  {
    id.None? || id.value == 0
  }

  /** The row a new entity gets: the country is recorded for leagues only. */
  function NewEntity(kind: Kind, country: Option<string>, source: Option<string>): Entity
  {
    Entity(if kind == LeagueKind then country else None, source)
  }

  function TableOf(db: Db, kind: Kind): Table<Key, Entity>
  {
    if kind == LeagueKind then db.leagues else db.teams
  }

  function WithTable(db: Db, kind: Kind, t: Table<Key, Entity>): (r: Db)
    ensures TableOf(r, kind) == t
    ensures kind == LeagueKind ==> r.teams == db.teams
    ensures kind == TeamKind ==> r.leagues == db.leagues
    ensures r.matches == db.matches && r.stats == db.stats && r.odds == db.odds
  {
    if kind == LeagueKind then db.(leagues := t) else db.(teams := t)
  }

  /** The table after resolving, and the id returned (`None` for Python's `None`). */
  function Resolve(t: Table<Key, Entity>, kind: Kind, name: Option<string>, sport: Option<string>,
                   source: Option<string>, country: Option<string>, policy: Policy, fault: Fault): (Table<Key, Entity>, Option<int>)
  {
    if !Given(name) || !Given(sport) then (t, None)
    else
      var k := Key(name.value, sport.value);
      if k in t.rows then
        var e := t.rows[k].1;
        if Refresh(policy, e.sourceId, source) then (t.Update(k, e.(sourceId := source)), Some(t.rows[k].0))
        else (t, Some(t.rows[k].0))
      else
        match fault
        case NoFault => (t.Insert(k, NewEntity(kind, country, source)), Some(t.next))
        case Raced(other) => (t.Insert(k, other), Some(t.next))
        case Failed => (t, None)
  }

  /** `Resolve` on the whole store. */
  function ResolveDb(db: Db, kind: Kind, name: Option<string>, sport: Option<string>,
                     source: Option<string>, country: Option<string>, policy: Policy, fault: Fault): (Db, Option<int>)
  {
    var r := Resolve(TableOf(db, kind), kind, name, sport, source, country, policy, fault);
    (WithTable(db, kind, r.0), r.1)
  }

  /** The resolver as the collectors run it: one SELECT, then an UPDATE or an INSERT. */
  method GetOrCreateEntityId(conn: Connection, kind: Kind, name: Option<string>, sport: Option<string>,
                             source: Option<string>, country: Option<string>, policy: Policy, fault: Fault)
    returns (id: Option<int>)
    modifies conn
    ensures (conn.Snapshot(), id) == ResolveDb(old(conn.Snapshot()), kind, name, sport, source, country, policy, fault)
    ensures conn.schema == old(conn.schema)
  {
    if !Given(name) || !Given(sport) {
      return None;
    }
    var k := Key(name.value, sport.value);
    var t := if kind == LeagueKind then conn.leagues else conn.teams;
    if k in t.rows {
      var (found, e) := t.rows[k];
      if Refresh(policy, e.sourceId, source) {
        t := t.Update(k, e.(sourceId := source));
      }
      id := Some(found);
    } else {
      match fault {
        case NoFault =>
          id := Some(t.next);
          t := t.Insert(k, NewEntity(kind, country, source));
        case Raced(other) =>
          id := Some(t.next);
          t := t.Insert(k, other);
        case Failed =>
          return None;
      }
    }
    if kind == LeagueKind {
      conn.leagues := t;
    } else {
      conn.teams := t;
    }
  }

  /** A missing name or sport returns None and writes nothing. */
  lemma MissingNameOrSport(t: Table<Key, Entity>, kind: Kind, name: Option<string>, sport: Option<string>,
                           source: Option<string>, country: Option<string>, policy: Policy, fault: Fault)
    requires !Given(name) || !Given(sport)
    ensures Resolve(t, kind, name, sport, source, country, policy, fault) == (t, None)
  {
  }

  /**
   * An existing (name, sport) returns its id. No row is added and no other
   * row changes; of the found row only the source id may change, as the
   * policy says.
   */
  lemma FoundKeepsRows(t: Table<Key, Entity>, kind: Kind, name: string, sport: string,
                       source: Option<string>, country: Option<string>, policy: Policy, fault: Fault)
    requires t.Valid() && name != "" && sport != "" && Key(name, sport) in t.rows
    ensures var (t', id) := Resolve(t, kind, Some(name), Some(sport), source, country, policy, fault);
            var k := Key(name, sport);
            && id == Some(t.rows[k].0)
            && t'.Valid() && t'.rows.Keys == t.rows.Keys && t'.Size() == t.Size() && t'.next == t.next
            && t'.rows[k].0 == t.rows[k].0 && t'.rows[k].1.country == t.rows[k].1.country
            && t'.rows[k].1.sourceId == (if Refresh(policy, t.rows[k].1.sourceId, source) then source else t.rows[k].1.sourceId)
            && forall k' :: k' in t.rows && k' != k ==> t'.rows[k'] == t.rows[k']
  {
    var k := Key(name, sport);
    UpdateValid(t, k, t.rows[k].1.(sourceId := source));
  }

  /** A new (name, sport) gets exactly one new row, with the next id, and that id is returned. */
  lemma CreatedAddsOneRow(t: Table<Key, Entity>, kind: Kind, name: string, sport: string,
                          source: Option<string>, country: Option<string>, policy: Policy)
    requires t.Valid() && name != "" && sport != "" && Key(name, sport) !in t.rows
    ensures var (t', id) := Resolve(t, kind, Some(name), Some(sport), source, country, policy, NoFault);
            var k := Key(name, sport);
            && id == Some(t.next)
            && t'.Valid() && t'.rows.Keys == t.rows.Keys + {k} && t'.Size() == t.Size() + 1
            && t'.rows[k] == (t.next, NewEntity(kind, country, source))
            && forall k' :: k' in t.rows ==> t'.rows[k'] == t.rows[k']
  {
    InsertValid(t, Key(name, sport), NewEntity(kind, country, source));
  }

  /**
   * When the INSERT loses a race, the key is read again: the id returned is
   * that of the row the other writer stored, and our values are not written.
   */
  lemma RacedReturnsExisting(t: Table<Key, Entity>, kind: Kind, name: string, sport: string,
                             source: Option<string>, country: Option<string>, policy: Policy, other: Entity)
    requires t.Valid() && name != "" && sport != "" && Key(name, sport) !in t.rows
    ensures var (t', id) := Resolve(t, kind, Some(name), Some(sport), source, country, policy, Raced(other));
            && id.Some? && t'.Valid() && t'.rows[Key(name, sport)] == (id.value, other)
            && t'.Size() == t.Size() + 1
  {
    InsertValid(t, Key(name, sport), other);
  }

  /** Any other `sqlite3.Error` returns None and leaves the table as it was. */
  lemma FailedWritesNothing(t: Table<Key, Entity>, kind: Kind, name: string, sport: string,
                            source: Option<string>, country: Option<string>, policy: Policy)
    requires Key(name, sport) !in t.rows
    ensures Resolve(t, kind, Some(name), Some(sport), source, country, policy, Failed) == (t, None)
  {
  }

  /**
   * Resolving the same entity again returns the same id and changes nothing:
   * repeated calls leave the row count where the first left it.
   */
  lemma ResolveIdempotent(t: Table<Key, Entity>, kind: Kind, name: Option<string>, sport: Option<string>,
                          source: Option<string>, country: Option<string>, policy: Policy)
    requires t.Valid()
    ensures var (t1, id1) := Resolve(t, kind, name, sport, source, country, policy, NoFault);
            Resolve(t1, kind, name, sport, source, country, policy, NoFault) == (t1, id1)
  {
    if Given(name) && Given(sport) {
      var k := Key(name.value, sport.value);
      if k in t.rows {
        FoundKeepsRows(t, kind, name.value, sport.value, source, country, policy, NoFault);
      } else {
        CreatedAddsOneRow(t, kind, name.value, sport.value, source, country, policy);
      }
    }
  }

  /** Under the fill-if-NULL policy a stored source id is never replaced. */
  lemma FillIfNullKeepsStored(t: Table<Key, Entity>, kind: Kind, name: string, sport: string,
                              source: Option<string>, country: Option<string>, fault: Fault)
    requires t.Valid() && name != "" && sport != ""
    requires Key(name, sport) in t.rows && t.rows[Key(name, sport)].1.sourceId.Some?
    ensures Resolve(t, kind, Some(name), Some(sport), source, country, FillIfNull, fault) == (t, Some(t.rows[Key(name, sport)].0))
  {
  }

  /** Under the overwrite policy an existing row ends up with a supplied source id. */
  lemma OverwriteStoresSource(t: Table<Key, Entity>, kind: Kind, name: string, sport: string,
                              source: string, country: Option<string>, fault: Fault)
    requires t.Valid() && name != "" && sport != "" && source != ""
    requires Key(name, sport) in t.rows
    ensures Resolve(t, kind, Some(name), Some(sport), Some(source), country, Overwrite, fault).0.rows[Key(name, sport)].1.sourceId == Some(source)
  {
  }

  /** Under the keep policy an existing row is returned and the table is not touched. */
  lemma KeepSourceReadsOnly(t: Table<Key, Entity>, kind: Kind, name: string, sport: string,
                            source: Option<string>, country: Option<string>, fault: Fault)
    requires name != "" && sport != "" && Key(name, sport) in t.rows
    ensures Resolve(t, kind, Some(name), Some(sport), source, country, KeepSource, fault) == (t, Some(t.rows[Key(name, sport)].0))
  {
  }

  /** A resolve that will neither write nor fail: the name or sport is missing, or the row is there and its source id needs no change. */
  predicate Settled(t: Table<Key, Entity>, name: Option<string>, sport: Option<string>, source: Option<string>, policy: Policy)
  {
    !Given(name) || !Given(sport) ||
    (Key(name.value, sport.value) in t.rows && !Refresh(policy, t.rows[Key(name.value, sport.value)].1.sourceId, source))
  }

  /** A settled resolve leaves the table as it is. */
  lemma SettledResolveReadsOnly(t: Table<Key, Entity>, kind: Kind, name: Option<string>, sport: Option<string>,
                                source: Option<string>, country: Option<string>, policy: Policy, fault: Fault)
    requires Settled(t, name, sport, source, policy)
    ensures Resolve(t, kind, name, sport, source, country, policy, fault).0 == t
    ensures Given(name) && Given(sport) ==>
              Resolve(t, kind, name, sport, source, country, policy, fault).1 == Some(t.rows[Key(name.value, sport.value)].0)
  {
  }

  /** After one resolve without a fault, the same resolve is settled. */
  lemma ResolveSettles(t: Table<Key, Entity>, kind: Kind, name: Option<string>, sport: Option<string>,
                       source: Option<string>, country: Option<string>, policy: Policy)
    ensures Settled(Resolve(t, kind, name, sport, source, country, policy, NoFault).0, name, sport, source, policy)
  {
  }

  /** Resolving an entity with another key does not unsettle this one, nor change its id. */
  lemma SettledAfterOther(t: Table<Key, Entity>, kind: Kind, name: Option<string>, sport: Option<string>, source: Option<string>,
                          otherName: Option<string>, otherSource: Option<string>, country: Option<string>, policy: Policy)
    requires Settled(t, name, sport, source, policy)
    requires name != otherName
    ensures var t' := Resolve(t, kind, otherName, sport, otherSource, country, policy, NoFault).0;
            && Settled(t', name, sport, source, policy)
            && (Given(name) && Given(sport) ==> t'.rows[Key(name.value, sport.value)] == t.rows[Key(name.value, sport.value)])
  {
  }

  /** Resolving keeps the table valid and never removes a row; an id returned is that of the row under the key. */
  lemma ResolveTableValid(t: Table<Key, Entity>, kind: Kind, name: Option<string>, sport: Option<string>,
                          source: Option<string>, country: Option<string>, policy: Policy, fault: Fault)
    requires t.Valid()
    ensures var (t', id) := Resolve(t, kind, name, sport, source, country, policy, fault);
            && t'.Valid()
            && t.rows.Keys <= t'.rows.Keys
            && (id.Some? ==> Given(name) && Given(sport) && Key(name.value, sport.value) in t'.rows &&
                             t'.rows[Key(name.value, sport.value)].0 == id.value)
  {
    if Given(name) && Given(sport) {
      var k := Key(name.value, sport.value);
      if k in t.rows {
        FoundKeepsRows(t, kind, name.value, sport.value, source, country, policy, fault);
      } else if fault.NoFault? {
        CreatedAddsOneRow(t, kind, name.value, sport.value, source, country, policy);
      } else if fault.Raced? {
        RacedReturnsExisting(t, kind, name.value, sport.value, source, country, policy, fault.other);
      }
    }
  }

  /**
   * After the home and the away team of a match are resolved, resolving them
   * again returns the same ids and writes nothing; two different names get
   * different ids.
   */
  lemma TeamsSettle(t0: Table<Key, Entity>, hn: Option<string>, an: Option<string>, sport: Option<string>,
                    hs: Option<string>, as_: Option<string>, policy: Policy)
    requires t0.Valid() && hn != an
    ensures var (t1, hid) := Resolve(t0, TeamKind, hn, sport, hs, None, policy, NoFault);
            var (t2, aid) := Resolve(t1, TeamKind, an, sport, as_, None, policy, NoFault);
            && Resolve(t2, TeamKind, hn, sport, hs, None, policy, NoFault) == (t2, hid)
            && Resolve(t2, TeamKind, an, sport, as_, None, policy, NoFault) == (t2, aid)
            && (hid.Some? && aid.Some? ==> hid.value != aid.value)
  {
    TeamsReread(t0, hn, an, sport, hs, as_, policy);
    TeamsDistinct(t0, hn, an, sport, hs, as_, policy);
  }

  /** The first half of TeamsSettle: both resolves, repeated, return their ids and write nothing. */
  lemma TeamsReread(t0: Table<Key, Entity>, hn: Option<string>, an: Option<string>, sport: Option<string>,
                    hs: Option<string>, as_: Option<string>, policy: Policy)
    requires hn != an
    ensures var (t1, hid) := Resolve(t0, TeamKind, hn, sport, hs, None, policy, NoFault);
            var (t2, aid) := Resolve(t1, TeamKind, an, sport, as_, None, policy, NoFault);
            && Resolve(t2, TeamKind, hn, sport, hs, None, policy, NoFault) == (t2, hid)
            && Resolve(t2, TeamKind, an, sport, as_, None, policy, NoFault) == (t2, aid)
  {
    var (t1, hid) := Resolve(t0, TeamKind, hn, sport, hs, None, policy, NoFault);
    var (t2, aid) := Resolve(t1, TeamKind, an, sport, as_, None, policy, NoFault);
    ResolveSettles(t0, TeamKind, hn, sport, hs, None, policy);
    ResolveSettles(t1, TeamKind, an, sport, as_, None, policy);
    SettledAfterOther(t1, TeamKind, hn, sport, hs, an, as_, None, policy);
    SettledResolveReadsOnly(t2, TeamKind, hn, sport, hs, None, policy, NoFault);
    SettledResolveReadsOnly(t2, TeamKind, an, sport, as_, None, policy, NoFault);
  }

  /** The second half of TeamsSettle: two differently named teams get different ids. */
  lemma TeamsDistinct(t0: Table<Key, Entity>, hn: Option<string>, an: Option<string>, sport: Option<string>,
                      hs: Option<string>, as_: Option<string>, policy: Policy)
    requires t0.Valid() && hn != an
    ensures var (t1, hid) := Resolve(t0, TeamKind, hn, sport, hs, None, policy, NoFault);
            var (t2, aid) := Resolve(t1, TeamKind, an, sport, as_, None, policy, NoFault);
            hid.Some? && aid.Some? ==> hid.value != aid.value
  {
    var (t1, hid) := Resolve(t0, TeamKind, hn, sport, hs, None, policy, NoFault);
    var (t2, aid) := Resolve(t1, TeamKind, an, sport, as_, None, policy, NoFault);
    ResolveTableValid(t0, TeamKind, hn, sport, hs, None, policy, NoFault);
    ResolveTableValid(t1, TeamKind, an, sport, as_, None, policy, NoFault);
    if hid.Some? && aid.Some? {
      ResolveSettles(t0, TeamKind, hn, sport, hs, None, policy);
      SettledAfterOther(t1, TeamKind, hn, sport, hs, an, as_, None, policy);
      var kh, ka := Key(hn.value, sport.value), Key(an.value, sport.value);
      assert t2.rows[kh].0 == hid.value && t2.rows[ka].0 == aid.value && kh != ka;
    }
  }

  /** The home team, then the away team, of one match. */
  function ResolvePair(db: Db, hn: Option<string>, an: Option<string>, sport: Option<string>,
                       hs: Option<string>, as_: Option<string>, policy: Policy): (Db, Option<int>, Option<int>)
  {
    var (db1, hid) := ResolveDb(db, TeamKind, hn, sport, hs, None, policy, NoFault);
    var (db2, aid) := ResolveDb(db1, TeamKind, an, sport, as_, None, policy, NoFault);
    (db2, hid, aid)
  }

  /** Resolving the two teams of a match touches the teams table only, and keeps it valid. */
  lemma ResolvePairValid(db: Db, hn: Option<string>, an: Option<string>, sport: Option<string>,
                         hs: Option<string>, as_: Option<string>, policy: Policy)
    requires db.Valid()
    ensures var (db2, _, _) := ResolvePair(db, hn, an, sport, hs, as_, policy);
            db2.Valid() && db2 == db.(teams := db2.teams)
  {
    ResolveTableValid(db.teams, TeamKind, hn, sport, hs, None, policy, NoFault);
    var (t1, _) := Resolve(db.teams, TeamKind, hn, sport, hs, None, policy, NoFault);
    ResolveTableValid(t1, TeamKind, an, sport, as_, None, policy, NoFault);
  }

  /** Resolving two teams without source ids only adds team rows, and keeps the store valid. */
  lemma ResolvePairGrows(db: Db, hn: Option<string>, an: Option<string>, sport: Option<string>, policy: Policy)
    requires db.Valid()
    ensures var (db2, _, _) := ResolvePair(db, hn, an, sport, None, None, policy);
            db2.Valid() && db2 == db.(teams := db2.teams) && Extends(db.teams, db2.teams)
  {
    ResolvePairValid(db, hn, an, sport, None, None, policy);
    ResolveExtends(db.teams, TeamKind, hn, sport, None, policy, NoFault);
    var (t1, _) := Resolve(db.teams, TeamKind, hn, sport, None, None, policy, NoFault);
    ResolveExtends(t1, TeamKind, an, sport, None, policy, NoFault);
    var (t2, _) := Resolve(t1, TeamKind, an, sport, None, None, policy, NoFault);
    assert ResolvePair(db, hn, an, sport, None, None, policy).0.teams == t2;
  }

  /** After both teams are resolved without source ids, both resolves are settled, and a named team has an id. */
  lemma ResolvePairSettled(db: Db, hn: Option<string>, an: Option<string>, sport: Option<string>, policy: Policy)
    requires db.Valid()
    ensures var (db2, hid, aid) := ResolvePair(db, hn, an, sport, None, None, policy);
            && Settled(db2.teams, hn, sport, None, policy) && Settled(db2.teams, an, sport, None, policy)
            && (Given(hn) && Given(sport) ==> !Falsy(hid)) && (Given(an) && Given(sport) ==> !Falsy(aid))
  {
    var (t1, hid) := Resolve(db.teams, TeamKind, hn, sport, None, None, policy, NoFault);
    var (t2, aid) := Resolve(t1, TeamKind, an, sport, None, None, policy, NoFault);
    ResolveTableValid(db.teams, TeamKind, hn, sport, None, None, policy, NoFault);
    ResolveTableValid(t1, TeamKind, an, sport, None, None, policy, NoFault);
    ResolveSettles(db.teams, TeamKind, hn, sport, None, None, policy);
    ResolveExtends(t1, TeamKind, an, sport, None, policy, NoFault);
    SettledPersists(t1, t2, hn, sport, policy);
    ResolveSettles(t1, TeamKind, an, sport, None, None, policy);
    assert ResolvePair(db, hn, an, sport, None, None, policy) == (db.(teams := t2), hid, aid);
  }

  /**
   * Resolving the two differently named teams of a match again returns the
   * same ids, which differ, and writes nothing.
   */
  lemma ResolvePairSettles(db: Db, hn: Option<string>, an: Option<string>, sport: Option<string>,
                           hs: Option<string>, as_: Option<string>, policy: Policy)
    requires db.Valid() && hn != an
    ensures var (db2, hid, aid) := ResolvePair(db, hn, an, sport, hs, as_, policy);
            && ResolvePair(db2, hn, an, sport, hs, as_, policy) == (db2, hid, aid)
            && (hid.Some? && aid.Some? ==> hid.value != aid.value)
  {
    TeamsSettle(db.teams, hn, an, sport, hs, as_, policy);
  }

  /** A pair resolve that reads only reads only on any store with the same teams table. */
  lemma ResolvePairSameTeams(db: Db, db': Db, hn: Option<string>, an: Option<string>, sport: Option<string>,
                             hs: Option<string>, as_: Option<string>, policy: Policy)
    requires db'.teams == db.teams
    requires var (db2, _, _) := ResolvePair(db, hn, an, sport, hs, as_, policy); db2 == db
    ensures var (db2, hid, aid) := ResolvePair(db, hn, an, sport, hs, as_, policy);
            ResolvePair(db', hn, an, sport, hs, as_, policy) == (db', hid, aid)
  {
  }

  /** Resolving keeps the store valid and never removes a row. */
  lemma ResolveDbValid(db: Db, kind: Kind, name: Option<string>, sport: Option<string>,
                       source: Option<string>, country: Option<string>, policy: Policy, fault: Fault)
    requires db.Valid()
    ensures var (db', id) := ResolveDb(db, kind, name, sport, source, country, policy, fault);
            && db'.Valid()
            && TableOf(db, kind).rows.Keys <= TableOf(db', kind).rows.Keys
            && (id.Some? ==> exists k :: k in TableOf(db', kind).rows && TableOf(db', kind).rows[k].0 == id.value)
  {
    ResolveTableValid(TableOf(db, kind), kind, name, sport, source, country, policy, fault);
  }

  /** Without a source id to write, a resolve only ever adds a row. */
  lemma ResolveExtends(t: Table<Key, Entity>, kind: Kind, name: Option<string>, sport: Option<string>,
                       country: Option<string>, policy: Policy, fault: Fault)
    ensures Extends(t, Resolve(t, kind, name, sport, None, country, policy, fault).0)
  {
  }

  /** Without a source id, a settled resolve stays settled once rows are added. */
  lemma SettledPersists(t: Table<Key, Entity>, u: Table<Key, Entity>, name: Option<string>, sport: Option<string>, policy: Policy)
    requires Settled(t, name, sport, None, policy) && Extends(t, u)
    ensures Settled(u, name, sport, None, policy)
  {
  }
}
