/**
 * The store `database_importer.py` writes to. Its statements name a schema
 * of their own: leagues with a `source` column and UNIQUE (name, sport),
 * teams looked up by name alone, matches with an `ON CONFLICT (datetime,
 * home_team_id, away_team_id, source)` target, and odds and stats tables
 * without a uniqueness key. Also the two resolvers, `check_match_exists`,
 * and the shape all file importers share: one step per row, counted.
 */
module ImporterStore {
  import opened Wrappers
  import opened Text
  import opened Dates
  import opened Store
  import opened Resolver

  /** The sport every importer of this file files football under. */
  const FOOTBALL: string := "Football"

  /** A `leagues` row beyond its (name, sport) key. */
  datatype League = League(country: Option<string>, source: Option<string>)

  /** A `teams` row beyond its name. */
  datatype Team = Team(country: Option<string>, leagueId: Option<int>, source: Option<string>)

  /** The importers' conflict target on `matches`. */
  datatype ConflictKey = ConflictKey(datetime: string, homeId: int, awayId: int, source: string)

  /** The other `matches` columns the importers write. */
  datatype Fixture = Fixture(leagueId: int, status: string, homeScore: Option<int>, awayScore: Option<int>, sourceMatchId: string)

  /** An `odds` row: one bookmaker's 1X2 prices for a match. */
  datatype Price = Price(matchId: int, bookmaker: string, home: real, draw: real, away: real, source: string)

  /** A `stats` row: a home and an away value of one stat type, stored as `str()` of the floats given here. */
  datatype StatPair = StatPair(matchId: int, statType: string, home: real, away: real, source: string)

  /** The whole store, as the importers see it. */
  datatype ImportDb = ImportDb(
    leagues: Table<Key, League>,
    teams: Table<string, Team>,
    matches: Table<ConflictKey, Fixture>,
    odds: seq<Price>,
    stats: seq<StatPair>)
  {
    ghost predicate Valid()
    {
      leagues.Valid() && teams.Valid() && matches.Valid()
    }

    /** `SELECT COUNT(*)` of each table. */
    function Counts(): (nat, nat, nat, nat, nat)
    {
      (leagues.Size(), teams.Size(), matches.Size(), |odds|, |stats|)
    }
  }

  const EmptyImportDb: ImportDb := ImportDb(EmptyTable(), EmptyTable(), EmptyTable(), [], [])

  /** b keeps every row of a: rows were only added in between. */
  ghost predicate Grows(a: ImportDb, b: ImportDb)
  {
    Extends(a.leagues, b.leagues) && Extends(a.teams, b.teams) && Extends(a.matches, b.matches) &&
    a.odds <= b.odds && a.stats <= b.stats
  }

  /** Growing only adds rows, so no count goes down. */
  lemma GrowsCounts(a: ImportDb, b: ImportDb)
    requires Grows(a, b)
    ensures a.leagues.Size() <= b.leagues.Size() && a.teams.Size() <= b.teams.Size() && a.matches.Size() <= b.matches.Size()
    ensures |a.odds| <= |b.odds| && |a.stats| <= |b.stats|
  {
    assert a.leagues.rows.Keys <= b.leagues.rows.Keys;
    assert a.teams.rows.Keys <= b.teams.rows.Keys;
    assert a.matches.rows.Keys <= b.matches.rows.Keys;
    SubsetCard(a.leagues.rows.Keys, b.leagues.rows.Keys);
    SubsetCard(a.teams.rows.Keys, b.teams.rows.Keys);
    SubsetCard(a.matches.rows.Keys, b.matches.rows.Keys);
  }

  lemma {:induction false} SubsetCard<K>(a: set<K>, b: set<K>)
    requires a <= b
    ensures |a| <= |b|
    decreases |a|
  {
    if a != {} {
      var x :| x in a;
      SubsetCard(a - {x}, b - {x});
    }
  }

  /**
   * What the INSERT after a SELECT that found nothing does: it succeeds, it
   * meets a row another writer inserted under the key (`IntegrityError`,
   * after which the re-select finds that row), or it fails otherwise.
   */
  datatype Insertion<R> = Clean | Raced(row: R) | Broken

  /**
   * `get_or_create_league`: the id of the row under (name, sport), inserted
   * with the country and source given when absent. A NULL name or sport
   * violates NOT NULL and the re-select finds nothing.
   */
  function GetOrCreateLeague(db: ImportDb, name: Option<string>, sport: Option<string>, country: Option<string>,
                             source: Option<string>, ins: Insertion<League>): (ImportDb, Option<int>)
  {
    if name.None? || sport.None? then (db, None)
    else
      var k := Key(name.value, sport.value);
      if k in db.leagues.rows then (db, Some(db.leagues.rows[k].0))
      else
        match ins
        case Clean => (db.(leagues := db.leagues.Insert(k, League(country, source))), Some(db.leagues.next))
        case Raced(other) => (db.(leagues := db.leagues.Insert(k, other)), Some(db.leagues.next))
        case Broken => (db, None)
  }

  /**
   * `get_or_create_team`: looked up by name alone, whatever the league or
   * country; country, league and source are written only by the first insert.
   */
  function GetOrCreateTeam(db: ImportDb, name: Option<string>, country: Option<string>, leagueId: Option<int>,
                           source: Option<string>, ins: Insertion<Team>): (ImportDb, Option<int>)
  {
    if name.None? then (db, None)
    else if name.value in db.teams.rows then (db, Some(db.teams.rows[name.value].0))
    else
      match ins
      case Clean => (db.(teams := db.teams.Insert(name.value, Team(country, leagueId, source))), Some(db.teams.next))
      case Raced(other) => (db.(teams := db.teams.Insert(name.value, other)), Some(db.teams.next))
      case Broken => (db, None)
  }

  /**
   * An existing (name, sport) returns its id and writes nothing; a new one
   * is inserted as the next id holding the country and source given; a race
   * returns the other writer's row; any other failure returns None and
   * writes nothing. Either way only `leagues` can change, and the store stays valid.
   */
  lemma GetOrCreateLeagueSpec(db: ImportDb, name: Option<string>, sport: Option<string>, country: Option<string>,
                              source: Option<string>, ins: Insertion<League>)
    requires db.Valid()
    ensures var (db', id) := GetOrCreateLeague(db, name, sport, country, source, ins);
            && db'.Valid() && Grows(db, db') && db' == db.(leagues := db'.leagues)
            && (name.None? || sport.None? ==> db' == db && id.None?)
            && (name.Some? && sport.Some? ==>
                  var k := Key(name.value, sport.value);
                  && (k in db.leagues.rows ==> db' == db && id == Some(db.leagues.rows[k].0))
                  && (k !in db.leagues.rows && ins.Clean? ==>
                        db'.leagues.Size() == db.leagues.Size() + 1 && id == Some(db.leagues.next) &&
                        db'.leagues.rows[k] == (id.value, League(country, source)))
                  && (k !in db.leagues.rows && ins.Raced? ==> id.Some? && db'.leagues.rows[k] == (id.value, ins.row))
                  && (k !in db.leagues.rows && ins.Broken? ==> db' == db && id.None?))
            && (id.Some? ==> id.value >= 1)
  {
    if name.Some? && sport.Some? {
      var k := Key(name.value, sport.value);
      if k !in db.leagues.rows {
        InsertValid(db.leagues, k, League(country, source));
        if ins.Raced? {
          InsertValid(db.leagues, k, ins.row);
        }
      }
    }
  }

  /** Resolving a league only ever adds a row to `leagues`. */
  lemma GetOrCreateLeagueGrows(db: ImportDb, name: Option<string>, sport: Option<string>, country: Option<string>,
                               source: Option<string>, ins: Insertion<League>)
    ensures var db' := GetOrCreateLeague(db, name, sport, country, source, ins).0;
            Grows(db, db') && db' == db.(leagues := db'.leagues)
  {
  }

  /**
   * Once a league is resolved, resolving it again on that store or on any
   * store that kept its rows, with any country, source or fault, returns the
   * same id and writes nothing.
   */
  lemma GetOrCreateLeagueSettles(db: ImportDb, name: Option<string>, sport: Option<string>, country: Option<string>,
                                 source: Option<string>, d: ImportDb, country2: Option<string>, source2: Option<string>,
                                 ins2: Insertion<League>)
    requires Extends(GetOrCreateLeague(db, name, sport, country, source, Clean).0.leagues, d.leagues)
    ensures GetOrCreateLeague(d, name, sport, country2, source2, ins2) == (d, GetOrCreateLeague(db, name, sport, country, source, Clean).1)
  {
    if name.Some? && sport.Some? {
      var k := Key(name.value, sport.value);
      assert k in GetOrCreateLeague(db, name, sport, country, source, Clean).0.leagues.rows;
    }
  }

  /**
   * An existing name returns its id and writes nothing, whatever country,
   * league or source is passed; a new one is inserted as the next id with
   * them; a NULL name returns None. Only `teams` can change.
   */
  lemma GetOrCreateTeamSpec(db: ImportDb, name: Option<string>, country: Option<string>, leagueId: Option<int>,
                            source: Option<string>, ins: Insertion<Team>)
    requires db.Valid()
    ensures var (db', id) := GetOrCreateTeam(db, name, country, leagueId, source, ins);
            && db'.Valid() && Grows(db, db') && db' == db.(teams := db'.teams)
            && (name.None? ==> db' == db && id.None?)
            && (name.Some? && name.value in db.teams.rows ==> db' == db && id == Some(db.teams.rows[name.value].0))
            && (name.Some? && name.value !in db.teams.rows && ins.Clean? ==>
                  db'.teams.Size() == db.teams.Size() + 1 && id == Some(db.teams.next) &&
                  db'.teams.rows[name.value] == (id.value, Team(country, leagueId, source)))
            && (name.Some? && name.value !in db.teams.rows && ins.Broken? ==> db' == db && id.None?)
            && (id.Some? ==> id.value >= 1)
  {
    if name.Some? && name.value !in db.teams.rows {
      InsertValid(db.teams, name.value, Team(country, leagueId, source));
      if ins.Raced? {
        InsertValid(db.teams, name.value, ins.row);
      }
    }
  }

  /** Resolving a team only ever adds a row to `teams`. */
  lemma GetOrCreateTeamGrows(db: ImportDb, name: Option<string>, country: Option<string>, leagueId: Option<int>,
                             source: Option<string>, ins: Insertion<Team>)
    ensures var db' := GetOrCreateTeam(db, name, country, leagueId, source, ins).0;
            Grows(db, db') && db' == db.(teams := db'.teams)
  {
  }

  /** Once a team is resolved, resolving it again on any store that kept its rows returns the same id and writes nothing. */
  lemma GetOrCreateTeamSettles(db: ImportDb, name: Option<string>, country: Option<string>, leagueId: Option<int>,
                               source: Option<string>, d: ImportDb, country2: Option<string>, leagueId2: Option<int>,
                               source2: Option<string>, ins2: Insertion<Team>)
    requires Extends(GetOrCreateTeam(db, name, country, leagueId, source, Clean).0.teams, d.teams)
    ensures GetOrCreateTeam(d, name, country2, leagueId2, source2, ins2) == (d, GetOrCreateTeam(db, name, country, leagueId, source, Clean).1)
  {
    if name.Some? {
      assert name.value in GetOrCreateTeam(db, name, country, leagueId, source, Clean).0.teams.rows;
    }
  }

  /**
   * A clean resolution of a named league on a valid store: the key is
   * present afterwards under the id returned, which is positive, and a new
   * row holds the country and source given.
   */
  lemma GetOrCreateLeagueClean(db: ImportDb, name: string, sport: string, country: Option<string>, source: Option<string>)
    requires db.Valid()
    ensures var (db', id) := GetOrCreateLeague(db, Some(name), Some(sport), country, source, Clean);
            var k := Key(name, sport);
            && db'.Valid() && db' == db.(leagues := db'.leagues)
            && k in db'.leagues.rows && id == Some(db'.leagues.rows[k].0) && id.value >= 1
            && (k !in db.leagues.rows ==> db'.leagues.rows[k].1 == League(country, source))
  {
    GetOrCreateLeagueSpec(db, Some(name), Some(sport), country, source, Clean);
  }

  /** The two `get_or_create_team` calls of an importer row, both made before either id is checked. */
  function ResolveTeams(db: ImportDb, home: Option<string>, homeCountry: Option<string>, away: Option<string>,
                        awayCountry: Option<string>, leagueId: Option<int>, source: Option<string>): (ImportDb, Option<int>, Option<int>)
  {
    var (db1, hid) := GetOrCreateTeam(db, home, homeCountry, leagueId, source, Clean);
    var (db2, aid) := GetOrCreateTeam(db1, away, awayCountry, leagueId, source, Clean);
    (db2, hid, aid)
  }

  /** Resolving the two teams only adds rows to `teams`. */
  lemma ResolveTeamsGrows(db: ImportDb, home: Option<string>, homeCountry: Option<string>, away: Option<string>,
                          awayCountry: Option<string>, leagueId: Option<int>, source: Option<string>)
    ensures var db' := ResolveTeams(db, home, homeCountry, away, awayCountry, leagueId, source).0;
            Grows(db, db') && db' == db.(teams := db'.teams)
  {
    var (db1, hid) := GetOrCreateTeam(db, home, homeCountry, leagueId, source, Clean);
    GetOrCreateTeamGrows(db, home, homeCountry, leagueId, source, Clean);
    GetOrCreateTeamGrows(db1, away, awayCountry, leagueId, source, Clean);
    GrowsTransitive(db, db1, ResolveTeams(db, home, homeCountry, away, awayCountry, leagueId, source).0);
  }

  /** On a valid store, two named teams are both present afterwards under the positive ids returned. */
  lemma ResolveTeamsClean(db: ImportDb, home: string, homeCountry: Option<string>, away: string,
                          awayCountry: Option<string>, leagueId: Option<int>, source: Option<string>)
    requires db.Valid()
    ensures var (db', hid, aid) := ResolveTeams(db, Some(home), homeCountry, Some(away), awayCountry, leagueId, source);
            && db'.Valid() && db' == db.(teams := db'.teams)
            && home in db'.teams.rows && away in db'.teams.rows
            && hid == Some(db'.teams.rows[home].0) && aid == Some(db'.teams.rows[away].0)
            && hid.value >= 1 && aid.value >= 1
  {
    var (db1, hid) := GetOrCreateTeam(db, Some(home), homeCountry, leagueId, source, Clean);
    GetOrCreateTeamSpec(db, Some(home), homeCountry, leagueId, source, Clean);
    GetOrCreateTeamSpec(db1, Some(away), awayCountry, leagueId, source, Clean);
  }

  /** Resolving two teams, named or not, keeps the store valid. */
  lemma ResolveTeamsValid(db: ImportDb, home: Option<string>, homeCountry: Option<string>, away: Option<string>,
                          awayCountry: Option<string>, leagueId: Option<int>, source: Option<string>)
    requires db.Valid()
    ensures ResolveTeams(db, home, homeCountry, away, awayCountry, leagueId, source).0.Valid()
  {
    var (db1, hid) := GetOrCreateTeam(db, home, homeCountry, leagueId, source, Clean);
    GetOrCreateTeamSpec(db, home, homeCountry, leagueId, source, Clean);
    GetOrCreateTeamSpec(db1, away, awayCountry, leagueId, source, Clean);
  }

  /** Once both teams are resolved, resolving them again on any store that kept the rows returns the same ids and writes nothing. */
  lemma ResolveTeamsSettles(db: ImportDb, home: Option<string>, homeCountry: Option<string>, away: Option<string>,
                            awayCountry: Option<string>, leagueId: Option<int>, source: Option<string>, d: ImportDb)
    requires Extends(ResolveTeams(db, home, homeCountry, away, awayCountry, leagueId, source).0.teams, d.teams)
    ensures var (_, hid, aid) := ResolveTeams(db, home, homeCountry, away, awayCountry, leagueId, source);
            ResolveTeams(d, home, homeCountry, away, awayCountry, leagueId, source) == (d, hid, aid)
  {
    var (db1, hid) := GetOrCreateTeam(db, home, homeCountry, leagueId, source, Clean);
    var db2 := GetOrCreateTeam(db1, away, awayCountry, leagueId, source, Clean).0;
    GetOrCreateTeamGrows(db1, away, awayCountry, leagueId, source, Clean);
    assert Extends(db1.teams, d.teams);
    GetOrCreateTeamSettles(db, home, homeCountry, leagueId, source, d, homeCountry, leagueId, source, Clean);
    GetOrCreateTeamSettles(db1, away, awayCountry, leagueId, source, d, awayCountry, leagueId, source, Clean);
  }

  /** The two calls on the connection. */
  method ResolveTeamsRow(conn: ImportConnection, home: Option<string>, homeCountry: Option<string>, away: Option<string>,
                         awayCountry: Option<string>, leagueId: Option<int>, source: Option<string>) returns (hid: Option<int>, aid: Option<int>)
    modifies conn
    ensures (conn.Snapshot(), hid, aid) == ResolveTeams(old(conn.Snapshot()), home, homeCountry, away, awayCountry, leagueId, source)
  {
    hid := GetOrCreateTeamRow(conn, home, homeCountry, leagueId, source, Clean);
    aid := GetOrCreateTeamRow(conn, away, awayCountry, leagueId, source, Clean);
  }

  /**
   * `INSERT ... ON CONFLICT (datetime, home_team_id, away_team_id, source)
   * DO NOTHING`, and the id of the row under the key afterwards: the new
   * row's `lastrowid`, or the re-selected id of the row that was there.
   * `added` is `rowcount > 0`.
   */
  function InsertMatchDoNothing(t: Table<ConflictKey, Fixture>, k: ConflictKey, f: Fixture): (r: (Table<ConflictKey, Fixture>, int, bool))
  {
    (t.InsertOrIgnore(k, f), if k in t.rows then t.rows[k].0 else t.next, k !in t.rows)
  }

  /**
   * DO NOTHING keeps every row and the table valid, adds a row exactly when
   * the key was absent, holding the payload under the next id, and returns
   * the id of the row under the key.
   */
  lemma InsertMatchDoNothingSpec(t: Table<ConflictKey, Fixture>, k: ConflictKey, f: Fixture)
    requires t.Valid()
    ensures var (t', id, added) := InsertMatchDoNothing(t, k, f);
            && t'.Valid() && Extends(t, t') && k in t'.rows && t'.rows[k].0 == id && id >= 1
            && (added <==> k !in t.rows)
            && (added ==> t'.rows[k].1 == f)
            && t'.Size() == t.Size() + (if added then 1 else 0)
  {
    InsertOrIgnoreValid(t, k, f);
    if k !in t.rows {
      InsertValid(t, k, f);
    }
  }

  /** DO NOTHING only ever adds a row to `matches`, and adds one exactly when it reports so. */
  lemma InsertMatchDoNothingGrows(db: ImportDb, k: ConflictKey, f: Fixture)
    ensures var (t, _, added) := InsertMatchDoNothing(db.matches, k, f);
            Grows(db, db.(matches := t)) && t.Size() == db.matches.Size() + (if added then 1 else 0)
  {
    if k !in db.matches.rows {
      assert db.matches.Insert(k, f).rows.Keys == db.matches.rows.Keys + {k};
    }
  }

  /**
   * Once a fixture is inserted or found under its key, the same statement on
   * any table that kept the row, with any payload, adds nothing and returns
   * the same id.
   */
  lemma InsertMatchDoNothingSettles(t: Table<ConflictKey, Fixture>, k: ConflictKey, f: Fixture, u: Table<ConflictKey, Fixture>, f2: Fixture)
    requires Extends(InsertMatchDoNothing(t, k, f).0, u)
    ensures InsertMatchDoNothing(u, k, f2) == (u, InsertMatchDoNothing(t, k, f).1, false)
  {
    assert k in t.InsertOrIgnore(k, f).rows;
  }

  /** Some row of xs has c's key: the SELECT before an odds or stats INSERT. */
  predicate KeyPresent<R, K(==)>(xs: seq<R>, key: R -> K, c: R)
  {
    exists i :: 0 <= i < |xs| && key(xs[i]) == key(c)
  }

  /**
   * The inner loop of the odds and stats writers: each candidate row in
   * turn is appended unless a row with its key is already there; a missing
   * candidate (`None`) is one the row's cells did not allow. Also the number appended.
   */
  function AddAbsent<R, K(==)>(xs: seq<R>, cands: seq<Option<R>>, key: R -> K): (r: (seq<R>, nat))
    ensures xs <= r.0 && |r.0| == |xs| + r.1
    decreases |cands|
  {
    if cands == [] then (xs, 0)
    else
      var (ys, n) := AddAbsent(xs, cands[..|cands| - 1], key);
      match cands[|cands| - 1]
      case None => (ys, n)
      case Some(c) => if KeyPresent(ys, key, c) then (ys, n) else (ys + [c], n + 1)
  }

  /**
   * Afterwards every candidate's key is present; each appended row is one of
   * the candidates, and its key was present neither before nor in an
   * earlier appended row.
   */
  lemma {:induction false} AddAbsentSpec<R, K>(xs: seq<R>, cands: seq<Option<R>>, key: R -> K)
    ensures var ys := AddAbsent(xs, cands, key).0;
            && (forall j :: 0 <= j < |cands| && cands[j].Some? ==> KeyPresent(ys, key, cands[j].value))
            && (forall i :: |xs| <= i < |ys| ==> Some(ys[i]) in cands)
            && (forall i, j :: 0 <= j < i && |xs| <= i < |ys| ==> key(ys[j]) != key(ys[i]))
  {
    AddAbsentPresent(xs, cands, key);
    AddAbsentFromCandidates(xs, cands, key);
    AddAbsentDistinct(xs, cands, key);
  }

  /** The last candidate either leaves the rows alone or appends itself, its key being absent. */
  lemma AddAbsentLast<R, K>(xs: seq<R>, cands: seq<Option<R>>, key: R -> K)
    requires cands != []
    ensures var ys, zs, c := AddAbsent(xs, cands[..|cands| - 1], key).0, AddAbsent(xs, cands, key).0, cands[|cands| - 1];
            zs == ys || (c.Some? && zs == ys + [c.value] && !KeyPresent(ys, key, c.value))
  {
  }

  lemma {:induction false} AddAbsentPresent<R, K>(xs: seq<R>, cands: seq<Option<R>>, key: R -> K)
    ensures var ys := AddAbsent(xs, cands, key).0;
            forall j :: 0 <= j < |cands| && cands[j].Some? ==> KeyPresent(ys, key, cands[j].value)
    decreases |cands|
  {
    if cands != [] {
      var prev := cands[..|cands| - 1];
      AddAbsentPresent(xs, prev, key);
      var ys := AddAbsent(xs, prev, key).0;
      var zs := AddAbsent(xs, cands, key).0;
      AddAbsentLast(xs, cands, key);
      forall j | 0 <= j < |cands| && cands[j].Some? ensures KeyPresent(zs, key, cands[j].value) {
        if j < |prev| {
          assert prev[j] == cands[j];
          var i :| 0 <= i < |ys| && key(ys[i]) == key(cands[j].value);
          assert zs[i] == ys[i];
        } else if !KeyPresent(ys, key, cands[j].value) {
          assert zs[|ys|] == cands[j].value;
        }
      }
    }
  }

  lemma {:induction false} AddAbsentFromCandidates<R, K>(xs: seq<R>, cands: seq<Option<R>>, key: R -> K)
    ensures var ys := AddAbsent(xs, cands, key).0;
            forall i :: |xs| <= i < |ys| ==> Some(ys[i]) in cands
    decreases |cands|
  {
    if cands != [] {
      var prev := cands[..|cands| - 1];
      AddAbsentFromCandidates(xs, prev, key);
      var ys := AddAbsent(xs, prev, key).0;
      var zs := AddAbsent(xs, cands, key).0;
      AddAbsentLast(xs, cands, key);
      assert forall c :: c in prev ==> c in cands;
      forall i | |xs| <= i < |zs| ensures Some(zs[i]) in cands {
        if i < |ys| {
          assert zs[i] == ys[i];
        } else {
          assert cands[|cands| - 1] == Some(zs[i]);
        }
      }
    }
  }

  lemma {:induction false} AddAbsentDistinct<R, K>(xs: seq<R>, cands: seq<Option<R>>, key: R -> K)
    ensures var ys := AddAbsent(xs, cands, key).0;
            forall i, j :: 0 <= j < i && |xs| <= i < |ys| ==> key(ys[j]) != key(ys[i])
    decreases |cands|
  {
    if cands != [] {
      var prev := cands[..|cands| - 1];
      AddAbsentDistinct(xs, prev, key);
      var ys := AddAbsent(xs, prev, key).0;
      var zs := AddAbsent(xs, cands, key).0;
      AddAbsentLast(xs, cands, key);
      forall i, j | 0 <= j < i && |xs| <= i < |zs| ensures key(zs[j]) != key(zs[i]) {
        if i < |ys| {
          assert zs[i] == ys[i] && zs[j] == ys[j];
        } else {
          assert zs == ys + [cands[|cands| - 1].value] && !KeyPresent(ys, key, zs[i]);
          assert zs[j] == ys[j];
        }
      }
    }
  }

  /** Running the loop again, on the rows it left or on any longer table, appends nothing. */
  lemma {:induction false} AddAbsentSettles<R, K>(xs: seq<R>, cands: seq<Option<R>>, key: R -> K, zs: seq<R>)
    requires AddAbsent(xs, cands, key).0 <= zs
    ensures AddAbsent(zs, cands, key) == (zs, 0)
    decreases |cands|
  {
    if cands != [] {
      var prev := cands[..|cands| - 1];
      var ys := AddAbsent(xs, prev, key).0;
      AddAbsentSettles(xs, prev, key, zs);
      var last := cands[|cands| - 1];
      if last.Some? {
        var c := last.value;
        if KeyPresent(ys, key, c) {
          var i :| 0 <= i < |ys| && key(ys[i]) == key(c);
          assert zs[i] == ys[i];
        } else {
          assert zs[|ys|] == c;
        }
      }
    }
  }

  /** The inner loop itself, on a local list of rows: one SELECT and at most one INSERT per candidate. */
  method AddAbsentRows<R, K(==)>(xs: seq<R>, cands: seq<Option<R>>, key: R -> K) returns (ys: seq<R>, n: nat)
    ensures (ys, n) == AddAbsent(xs, cands, key)
  {
    ys, n := xs, 0;
    for j := 0 to |cands|
      invariant (ys, n) == AddAbsent(xs, cands[..j], key)
    {
      assert cands[..j + 1][..j] == cands[..j];
      match cands[j] {
        case None =>
        case Some(c) =>
          if !KeyPresent(ys, key, c) {
            ys, n := ys + [c], n + 1;
          }
      }
    }
    assert cands[..|cands|] == cands;
  }

  /** The result of `check_match_exists`: a match id, `None`, or the `ValueError` its `strptime` raises. */
  datatype Lookup = Found(id: int) | Absent | Raises

  /** SQLite's BINARY comparison of two TEXT values: `a <= b`. */
  predicate TextLe(a: string, b: string)
    decreases |a|
  {
    a == [] || (b != [] && (a[0] < b[0] || (a[0] == b[0] && TextLe(a[1..], b[1..]))))
  }

  /** `x BETWEEN lo AND hi` on TEXT. */
  predicate Between(x: string, lo: string, hi: string)
  {
    TextLe(lo, x) && TextLe(x, hi)
  }

  /** `source_match_id = ? AND source = ?`. */
  predicate BySourceId(db: ImportDb, k: ConflictKey, source: string, sourceMatchId: string)
  {
    k in db.matches.rows && k.source == source && db.matches.rows[k].1.sourceMatchId == sourceMatchId
  }

  /** Same home, away and league, with a kickoff text inside [lo, hi]. */
  predicate InWindow(db: ImportDb, k: ConflictKey, homeId: int, awayId: int, leagueId: int, lo: string, hi: string)
  {
    k in db.matches.rows && k.homeId == homeId && k.awayId == awayId && db.matches.rows[k].1.leagueId == leagueId &&
    Between(k.datetime, lo, hi)
  }

  /** An open connection to the importers' database. */
  class ImportConnection {
    var leagues: Table<Key, League>
    var teams: Table<string, Team>
    var matches: Table<ConflictKey, Fixture>
    var odds: seq<Price>
    var stats: seq<StatPair>

    function Snapshot(): ImportDb
      reads this
    {
      ImportDb(leagues, teams, matches, odds, stats)
    }

    /** A connection to a database file holding db. */
    constructor (db: ImportDb)
      ensures Snapshot() == db
    {
      leagues, teams, matches, odds, stats := db.leagues, db.teams, db.matches, db.odds, db.stats;
    }
  }

  /** `get_or_create_league` on the connection: a SELECT, then an INSERT when nothing was found. */
  method GetOrCreateLeagueRow(conn: ImportConnection, name: Option<string>, sport: Option<string>, country: Option<string>,
                              source: Option<string>, ins: Insertion<League>) returns (id: Option<int>)
    modifies conn
    ensures (conn.Snapshot(), id) == GetOrCreateLeague(old(conn.Snapshot()), name, sport, country, source, ins)
  {
    if name.None? || sport.None? {
      return None;
    }
    var k := Key(name.value, sport.value);
    if k in conn.leagues.rows {
      return Some(conn.leagues.rows[k].0);
    }
    match ins {
      case Clean =>
        id := Some(conn.leagues.next);
        conn.leagues := conn.leagues.Insert(k, League(country, source));
      case Raced(other) =>
        id := Some(conn.leagues.next);
        conn.leagues := conn.leagues.Insert(k, other);
      case Broken =>
        id := None;
    }
  }

  /** `get_or_create_team` on the connection. */
  method GetOrCreateTeamRow(conn: ImportConnection, name: Option<string>, country: Option<string>, leagueId: Option<int>,
                            source: Option<string>, ins: Insertion<Team>) returns (id: Option<int>)
    modifies conn
    ensures (conn.Snapshot(), id) == GetOrCreateTeam(old(conn.Snapshot()), name, country, leagueId, source, ins)
  {
    if name.None? {
      return None;
    }
    if name.value in conn.teams.rows {
      return Some(conn.teams.rows[name.value].0);
    }
    match ins {
      case Clean =>
        id := Some(conn.teams.next);
        conn.teams := conn.teams.Insert(name.value, Team(country, leagueId, source));
      case Raced(other) =>
        id := Some(conn.teams.next);
        conn.teams := conn.teams.Insert(name.value, other);
      case Broken =>
        id := None;
    }
  }

  /** The INSERT ... ON CONFLICT DO NOTHING on the connection, and the re-select when it did nothing. */
  method InsertMatchDoNothingRow(conn: ImportConnection, k: ConflictKey, f: Fixture) returns (id: int, added: bool)
    modifies conn
    ensures (conn.matches, id, added) == InsertMatchDoNothing(old(conn.matches), k, f)
    ensures conn.leagues == old(conn.leagues) && conn.teams == old(conn.teams)
    ensures conn.odds == old(conn.odds) && conn.stats == old(conn.stats)
  {
    if k in conn.matches.rows {
      id, added := conn.matches.rows[k].0, false;
    } else {
      id, added := conn.matches.next, true;
      conn.matches := conn.matches.Insert(k, f);
    }
  }

  /**
   * `check_match_exists`. With a source match id and a source, a match
   * under both is returned; failing that, the kickoff text is parsed as
   * `%Y-%m-%d %H:%M:%S` (raising where it does not parse) and a match of
   * the same teams and league whose kickoff text lies between the renderings
   * of two hours before and two hours after is returned. `shift` is the
   * `Timedelta` arithmetic. `fetchone` returns some matching row; which one
   * is left open.
   */
  method CheckMatchExists(conn: ImportConnection, homeId: int, awayId: int, kickoff: string, leagueId: int,
                          source: Option<string>, sourceMatchId: Option<string>, p: Parser, shift: (Stamp, int) -> Stamp)
    returns (r: Lookup)
    ensures var db := conn.Snapshot();
            Given(sourceMatchId) && Given(source) && (exists k :: BySourceId(db, k, source.value, sourceMatchId.value)) ==>
              exists k :: BySourceId(db, k, source.value, sourceMatchId.value) && r == Found(db.matches.rows[k].0)
    ensures var db := conn.Snapshot();
            !(Given(sourceMatchId) && Given(source) && (exists k :: BySourceId(db, k, source.value, sourceMatchId.value))) ==>
              match p(kickoff, YearMonthDayHms)
              case None => r == Raises
              case Some(d) =>
                var lo, hi := shift(d, -2).SqlText(), shift(d, 2).SqlText();
                && (r.Found? ==> exists k :: InWindow(db, k, homeId, awayId, leagueId, lo, hi) && r.id == db.matches.rows[k].0)
                && (r == Absent <==> !exists k :: InWindow(db, k, homeId, awayId, leagueId, lo, hi))
                && !r.Raises?
  {
    var db := conn.Snapshot();
    if Given(sourceMatchId) && Given(source) && exists k :: k in db.matches.rows && BySourceId(db, k, source.value, sourceMatchId.value) {
      var k :| k in db.matches.rows && BySourceId(db, k, source.value, sourceMatchId.value);
      return Found(db.matches.rows[k].0);
    }
    var d := p(kickoff, YearMonthDayHms);
    if d.None? {
      return Raises;
    }
    var lo, hi := shift(d.value, -2).SqlText(), shift(d.value, 2).SqlText();
    if exists k :: k in db.matches.rows && InWindow(db, k, homeId, awayId, leagueId, lo, hi) {
      var k :| k in db.matches.rows && InWindow(db, k, homeId, awayId, leagueId, lo, hi);
      r := Found(db.matches.rows[k].0);
    } else {
      r := Absent;
    }
  }

  /** The counters a file import returns: matches (or leagues) added, and odds, stats or teams added. */
  datatype Tally = Tally(main: nat, side: nat)
  {
    function Plus(o: Tally): Tally
    {
      Tally(main + o.main, side + o.side)
    }
  }

  /** A file import: each row's step in order, its counts summed. */
  function Import<T(!new)>(step: (ImportDb, T) -> (ImportDb, Tally), db: ImportDb, rows: seq<T>): (ImportDb, Tally)
    decreases |rows|
  {
    if rows == [] then (db, Tally(0, 0))
    else
      var (d, n) := Import(step, db, rows[..|rows| - 1]);
      var (d2, m) := step(d, rows[|rows| - 1]);
      (d2, n.Plus(m))
  }

  /** A loop that has imported the first i rows and then runs row i's step has imported the first i + 1. */
  lemma ImportExtend<T(!new)>(step: (ImportDb, T) -> (ImportDb, Tally), db: ImportDb, rows: seq<T>, i: nat,
                              before: ImportDb, t0: Tally, after: ImportDb, n: Tally)
    requires i < |rows|
    requires (before, t0) == Import(step, db, rows[..i])
    requires (after, n) == step(before, rows[i])
    ensures (after, t0.Plus(n)) == Import(step, db, rows[..i + 1])
  {
    assert rows[..i + 1][..i] == rows[..i];
  }

  /** Extending is transitive, so growing is. */
  lemma GrowsTransitive(a: ImportDb, b: ImportDb, c: ImportDb)
    requires Grows(a, b) && Grows(b, c)
    ensures Grows(a, c)
  {
  }

  /** Running the row's step again on db, or on any store that kept db's rows, changes nothing. */
  ghost predicate Settled<T(!new)>(step: (ImportDb, T) -> (ImportDb, Tally), db: ImportDb, r: T)
  {
    forall d :: Grows(db, d) ==> step(d, r).0 == d
  }

  /** ... and counts nothing. */
  ghost predicate SettledQuietly<T(!new)>(step: (ImportDb, T) -> (ImportDb, Tally), db: ImportDb, r: T)
  {
    forall d :: Grows(db, d) ==> step(d, r) == (d, Tally(0, 0))
  }

  /** A step that only ever adds rows and leaves its row settled. */
  ghost predicate Absorbing<T(!new)>(step: (ImportDb, T) -> (ImportDb, Tally))
  {
    forall db, r :: Grows(db, step(db, r).0) && Settled(step, step(db, r).0, r)
  }

  /** ... and quietly settled. */
  ghost predicate QuietlyAbsorbing<T(!new)>(step: (ImportDb, T) -> (ImportDb, Tally))
  {
    forall db, r :: Grows(db, step(db, r).0) && SettledQuietly(step, step(db, r).0, r)
  }

  lemma {:induction false} ImportGrows<T(!new)>(step: (ImportDb, T) -> (ImportDb, Tally), db: ImportDb, rows: seq<T>)
    requires Absorbing(step)
    ensures Grows(db, Import(step, db, rows).0)
    ensures forall i :: 0 <= i < |rows| ==> Settled(step, Import(step, db, rows).0, rows[i])
    decreases |rows|
  {
    if rows != [] {
      var prev := rows[..|rows| - 1];
      ImportGrows(step, db, prev);
      var d := Import(step, db, prev).0;
      var d2 := step(d, rows[|rows| - 1]).0;
      assert Grows(d, d2);
      GrowsTransitive(db, d, d2);
      forall i | 0 <= i < |rows| ensures Settled(step, d2, rows[i]) {
        if i < |rows| - 1 {
          assert rows[i] == prev[i];
          forall e | Grows(d2, e) ensures step(e, rows[i]).0 == e {
            GrowsTransitive(d, d2, e);
          }
        }
      }
    }
  }

  lemma {:induction false} QuietImportGrows<T(!new)>(step: (ImportDb, T) -> (ImportDb, Tally), db: ImportDb, rows: seq<T>)
    requires QuietlyAbsorbing(step)
    ensures Grows(db, Import(step, db, rows).0)
    ensures forall i :: 0 <= i < |rows| ==> SettledQuietly(step, Import(step, db, rows).0, rows[i])
    decreases |rows|
  {
    if rows != [] {
      var prev := rows[..|rows| - 1];
      QuietImportGrows(step, db, prev);
      var d := Import(step, db, prev).0;
      var d2 := step(d, rows[|rows| - 1]).0;
      assert Grows(d, d2);
      GrowsTransitive(db, d, d2);
      forall i | 0 <= i < |rows| ensures SettledQuietly(step, d2, rows[i]) {
        if i < |rows| - 1 {
          assert rows[i] == prev[i];
          forall e | Grows(d2, e) ensures step(e, rows[i]) == (e, Tally(0, 0)) {
            GrowsTransitive(d, d2, e);
          }
        }
      }
    }
  }

  lemma {:induction false} SettledRowsChangeNothing<T(!new)>(step: (ImportDb, T) -> (ImportDb, Tally), db: ImportDb, rows: seq<T>)
    requires forall i :: 0 <= i < |rows| ==> Settled(step, db, rows[i])
    ensures Import(step, db, rows).0 == db
    decreases |rows|
  {
    if rows != [] {
      var prev := rows[..|rows| - 1];
      assert forall i :: 0 <= i < |prev| ==> prev[i] == rows[i];
      SettledRowsChangeNothing(step, db, prev);
      assert Grows(db, db);
    }
  }

  lemma {:induction false} QuietRowsChangeNothing<T(!new)>(step: (ImportDb, T) -> (ImportDb, Tally), db: ImportDb, rows: seq<T>)
    requires forall i :: 0 <= i < |rows| ==> SettledQuietly(step, db, rows[i])
    ensures Import(step, db, rows) == (db, Tally(0, 0))
    decreases |rows|
  {
    if rows != [] {
      var prev := rows[..|rows| - 1];
      assert forall i :: 0 <= i < |prev| ==> prev[i] == rows[i];
      QuietRowsChangeNothing(step, db, prev);
      assert Grows(db, db);
    }
  }

  /** For an absorbing step, importing the same rows a second time changes no table. */
  lemma ReimportFixpoint<T(!new)>(step: (ImportDb, T) -> (ImportDb, Tally), db: ImportDb, rows: seq<T>)
    requires Absorbing(step)
    ensures Grows(db, Import(step, db, rows).0)
    ensures var db1 := Import(step, db, rows).0;
            Import(step, db1, rows).0 == db1
  {
    ImportGrows(step, db, rows);
    SettledRowsChangeNothing(step, Import(step, db, rows).0, rows);
  }

  /** For a quietly absorbing step, a re-import of the same rows changes no table and reports nothing added. */
  lemma ReimportAddsNothing<T(!new)>(step: (ImportDb, T) -> (ImportDb, Tally), db: ImportDb, rows: seq<T>)
    requires QuietlyAbsorbing(step)
    ensures Grows(db, Import(step, db, rows).0)
    ensures var db1 := Import(step, db, rows).0;
            Import(step, db1, rows) == (db1, Tally(0, 0))
  {
    QuietImportGrows(step, db, rows);
    QuietRowsChangeNothing(step, Import(step, db, rows).0, rows);
  }

  /**
   * When each step's main count is the number of matches it added and its
   * side count what it added to the rows `side` counts (odds or stats), the
   * same holds of the whole import.
   */
  lemma {:induction false} ImportCountsRows<T(!new)>(step: (ImportDb, T) -> (ImportDb, Tally), side: ImportDb -> nat,
                                                     db: ImportDb, rows: seq<T>)
    requires forall d, r :: step(d, r).0.matches.Size() == d.matches.Size() + step(d, r).1.main
    requires forall d, r :: side(step(d, r).0) == side(d) + step(d, r).1.side
    ensures Import(step, db, rows).0.matches.Size() == db.matches.Size() + Import(step, db, rows).1.main
    ensures side(Import(step, db, rows).0) == side(db) + Import(step, db, rows).1.side
    decreases |rows|
  {
    if rows != [] {
      ImportCountsRows(step, side, db, rows[..|rows| - 1]);
    }
  }

  /** A step that keeps the store valid keeps it valid over the whole import. */
  lemma {:induction false} ImportValid<T(!new)>(step: (ImportDb, T) -> (ImportDb, Tally), db: ImportDb, rows: seq<T>)
    requires forall d: ImportDb, r :: d.Valid() ==> step(d, r).0.Valid()
    requires db.Valid()
    ensures Import(step, db, rows).0.Valid()
    decreases |rows|
  {
    if rows != [] {
      ImportValid(step, db, rows[..|rows| - 1]);
    }
  }
}
