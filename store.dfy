/**
 * The SQLite store that `database_setup.py` creates and the collectors write:
 * five tables, each row carrying its AUTOINCREMENT id, each table keyed by
 * its UNIQUE constraint.
 */
module Store {
  import opened Wrappers

  /** UNIQUE (name, sport) of `leagues` and of `teams`. */
  datatype Key = Key(name: string, sport: string)

  /** The columns of a league or team row the collectors write besides its key. */
  datatype Entity = Entity(country: Option<string>, sourceId: Option<string>)

  /** UNIQUE (source_match_id, source_name) of `matches`; both columns are NOT NULL. */
  datatype MatchKey = MatchKey(sourceMatchId: string, sourceName: string)

  /** The other columns of a `matches` row; `match_datetime_utc` is NOT NULL. */
  datatype Match = Match(
    leagueId: Option<int>,
    homeTeamId: Option<int>,
    awayTeamId: Option<int>,
    datetime: string,
    status: Option<string>,
    homeScore: Option<int>,
    awayScore: Option<int>,
    winner: Option<string>,
    stage: Option<string>,
    matchday: Option<int>,
    isMock: bool)

  /** UNIQUE (match_id, bookmaker, market_type) of `odds`; the collectors always supply the match id. */
  datatype OddsKey = OddsKey(matchId: int, bookmaker: string, marketType: string)

  /** Prices are opaque numbers: only equality and sign are ever looked at. */
  datatype Odds = Odds(home: Option<real>, draw: Option<real>, away: Option<real>, timestamp: Option<string>)

  /** A `stats` row. */
  datatype Stat = Stat(matchId: Option<int>, teamId: Option<int>, statType: string, value: string, period: Option<string>)

  /**
   * A table with a UNIQUE key: the row for each key, with its id, and the
   * next id AUTOINCREMENT hands out.
   */
  datatype Table<K(==), R> = Table(rows: map<K, (int, R)>, next: int)
  {
    /** Ids are positive, below `next`, and belong to one key each. */
    ghost predicate Valid()
    {
      && next >= 1
      && (forall k :: k in rows ==> 1 <= rows[k].0 < next)
      && (forall k1, k2 :: k1 in rows && k2 in rows && rows[k1].0 == rows[k2].0 ==> k1 == k2)
    }

    /** `INSERT`: the new row takes the next id. */
    function Insert(k: K, r: R): Table<K, R>
    {
      Table(rows[k := (next, r)], next + 1)
    }

    /** `UPDATE ... WHERE id = ?` on the row of key k: the id stays. */
    function Update(k: K, r: R): Table<K, R>
      requires k in rows
    {
      Table(rows[k := (rows[k].0, r)], next)
    }

    /** `INSERT OR IGNORE`: a present key keeps its row, whatever r holds. */
    function InsertOrIgnore(k: K, r: R): Table<K, R>
    {
      if k in rows then this else Insert(k, r)
    }

    function Size(): nat { |rows| }
  }

  /** u keeps every row of t, with its id and columns: only INSERTs happened in between. */
  ghost predicate Extends<K, R>(t: Table<K, R>, u: Table<K, R>)
  {
    forall k :: k in t.rows ==> k in u.rows && u.rows[k] == t.rows[k]
  }

  function EmptyTable<K(==), R>(): (t: Table<K, R>)
    ensures t.Valid() && t.Size() == 0
  {
    Table(map[], 1)
  }

  /** Inserting an absent key keeps the table valid, adds exactly one row and leaves the others. */
  lemma InsertValid<K, R>(t: Table<K, R>, k: K, r: R)
    requires t.Valid() && k !in t.rows
    ensures t.Insert(k, r).Valid()
    ensures t.Insert(k, r).Size() == t.Size() + 1
    ensures t.Insert(k, r).rows[k] == (t.next, r)
    ensures forall k' :: k' in t.rows ==> k' in t.Insert(k, r).rows && t.Insert(k, r).rows[k'] == t.rows[k']
  {
    assert t.Insert(k, r).rows.Keys == t.rows.Keys + {k};
  }

  /** INSERT OR IGNORE keeps the table valid and every row in it, and leaves the key present. */
  lemma InsertOrIgnoreValid<K, R>(t: Table<K, R>, k: K, r: R)
    requires t.Valid()
    ensures t.InsertOrIgnore(k, r).Valid() && Extends(t, t.InsertOrIgnore(k, r)) && k in t.InsertOrIgnore(k, r).rows
    ensures k !in t.rows ==> t.InsertOrIgnore(k, r).rows[k] == (t.next, r)
  {
    if k !in t.rows {
      InsertValid(t, k, r);
    }
  }

  /** Updating a row keeps the table valid, its keys and its ids. */
  lemma UpdateValid<K, R>(t: Table<K, R>, k: K, r: R)
    requires t.Valid() && k in t.rows
    ensures t.Update(k, r).Valid()
    ensures t.Update(k, r).rows.Keys == t.rows.Keys && t.Update(k, r).Size() == t.Size()
    ensures forall k' :: k' in t.rows ==> t.Update(k, r).rows[k'].0 == t.rows[k'].0
  {
    assert t.Update(k, r).rows.Keys == t.rows.Keys;
  }

  /**
   * UNIQUE (match_id, team_id, stat_type, period): SQLite treats NULLs as
   * distinct, so two rows clash only when all four columns are non-NULL and equal.
   */
  predicate StatClash(a: Stat, b: Stat)
  {
    a.matchId.Some? && a.teamId.Some? && a.period.Some? && a.matchId == b.matchId && a.teamId == b.teamId &&
    a.statType == b.statType && a.period == b.period
  }

  ghost predicate StatsUnique(stats: seq<Stat>)
  {
    forall i, j :: 0 <= i < j < |stats| ==> !StatClash(stats[i], stats[j])
  }

  /** `INSERT OR IGNORE INTO stats`: the rows after it, and whether a row was added. */
  function InsertOrIgnoreStat(stats: seq<Stat>, s: Stat): (r: (seq<Stat>, bool))
    ensures r.1 <==> forall i :: 0 <= i < |stats| ==> !StatClash(stats[i], s)
    ensures r.0 == if r.1 then stats + [s] else stats
  {
    if exists i :: 0 <= i < |stats| && StatClash(stats[i], s) then (stats, false) else (stats + [s], true)
  }

  /** A stats row whose period is NULL never clashes, so INSERT OR IGNORE always adds it. */
  lemma NullPeriodNeverIgnored(stats: seq<Stat>, s: Stat)
    requires s.period.None?
    ensures InsertOrIgnoreStat(stats, s) == (stats + [s], true)
  {
    forall i | 0 <= i < |stats| ensures !StatClash(stats[i], s) {
    }
  }

  /** INSERT OR IGNORE keeps the stats rows free of clashes. */
  lemma InsertOrIgnoreStatUnique(stats: seq<Stat>, s: Stat)
    requires StatsUnique(stats)
    ensures StatsUnique(InsertOrIgnoreStat(stats, s).0)
  {
    var r := InsertOrIgnoreStat(stats, s);
    if r.1 {
      var t := stats + [s];
      assert forall i :: 0 <= i < |stats| ==> t[i] == stats[i];
      assert t[|stats|] == s;
    }
  }

  /** The whole store. */
  datatype Db = Db(
    leagues: Table<Key, Entity>,
    teams: Table<Key, Entity>,
    matches: Table<MatchKey, Match>,
    stats: seq<Stat>,
    odds: Table<OddsKey, Odds>)
  {
    /** The schema's uniqueness constraints, and ids handed out by AUTOINCREMENT. */
    ghost predicate Valid()
    {
      leagues.Valid() && teams.Valid() && matches.Valid() && odds.Valid() && StatsUnique(stats)
    }

    /** `SELECT COUNT(*)` of each table. */
    function Counts(): (nat, nat, nat, nat, nat)
    {
      (leagues.Size(), teams.Size(), matches.Size(), |stats|, odds.Size())
    }
  }

  /** b keeps every row of a: rows were only added in between. */
  ghost predicate Grows(a: Db, b: Db)
  {
    && Extends(a.leagues, b.leagues) && Extends(a.teams, b.teams) && Extends(a.matches, b.matches)
    && a.stats <= b.stats && Extends(a.odds, b.odds)
  }

  lemma GrowsTransitive(a: Db, b: Db, c: Db)
    requires Grows(a, b) && Grows(b, c)
    ensures Grows(a, c)
  {
  }

  const EmptyDb: Db := Db(EmptyTable(), EmptyTable(), EmptyTable(), [], EmptyTable())

  lemma EmptyDbValid()
    ensures EmptyDb.Valid() && EmptyDb.Counts() == (0, 0, 0, 0, 0)
  {
  }

  /** The schema objects `create_tables` creates, in order. */
  datatype SchemaObject =
    | LeaguesTable | TeamsTable | MatchesTable | StatsTable | OddsTable
    | MatchDatetimeIndex | HomeTeamIndex | AwayTeamIndex

  const Catalog: seq<SchemaObject> :=
    [LeaguesTable, TeamsTable, MatchesTable, StatsTable, OddsTable, MatchDatetimeIndex, HomeTeamIndex, AwayTeamIndex]

  /** An open SQLite connection: the schema objects present and the tables' contents. */
  class Connection {
    var schema: set<SchemaObject>
    var leagues: Table<Key, Entity>
    var teams: Table<Key, Entity>
    var matches: Table<MatchKey, Match>
    var stats: seq<Stat>
    var odds: Table<OddsKey, Odds>

    function Snapshot(): Db
      reads this
    {
      Db(leagues, teams, matches, stats, odds)
    }

    /** `sqlite3.connect` on a database file holding db. */
    constructor (db: Db, objects: set<SchemaObject>)
      ensures Snapshot() == db && schema == objects
    {
      schema := objects;
      leagues, teams, matches, stats, odds := db.leagues, db.teams, db.matches, db.stats, db.odds;
    }
  }

  /**
   * `create_connection`: the connection, or `None` where `sqlite3.connect`
   * raises. `file` is what the database file holds, `None` when it cannot be opened.
   */
  method CreateConnection(file: Option<(Db, set<SchemaObject>)>) returns (conn: Option<Connection>)
    ensures conn.None? <==> file.None?
    ensures conn.Some? ==> fresh(conn.value) && conn.value.Snapshot() == file.value.0 && conn.value.schema == file.value.1
  {
    if file.None? {
      return None;
    }
    var c := new Connection(file.value.0, file.value.1);
    return Some(c);
  }

  /**
   * `create_tables`: every statement is CREATE ... IF NOT EXISTS, so objects
   * already present, and every table's rows, are left as they are.
   */
  method CreateTables(conn: Connection)
    modifies conn
    ensures conn.schema == CreatedSchema(old(conn.schema))
    ensures conn.Snapshot() == old(conn.Snapshot())
  {
    conn.schema := conn.schema + {LeaguesTable};
    conn.schema := conn.schema + {TeamsTable};
    conn.schema := conn.schema + {MatchesTable};
    conn.schema := conn.schema + {StatsTable};
    conn.schema := conn.schema + {OddsTable};
    conn.schema := conn.schema + {MatchDatetimeIndex};
    conn.schema := conn.schema + {HomeTeamIndex};
    conn.schema := conn.schema + {AwayTeamIndex};
  }

  /** What `create_tables` leaves as the schema. */
  function CreatedSchema(objects: set<SchemaObject>): (r: set<SchemaObject>)
    ensures objects <= r
    ensures forall o :: o in Catalog ==> o in r
    ensures forall o :: o in r ==> o in objects || o in Catalog
  {
    objects + set o | o in Catalog
  }

  /** Running `create_tables` a second time changes nothing. */
  lemma CreateTablesIdempotent(objects: set<SchemaObject>)
    ensures CreatedSchema(CreatedSchema(objects)) == CreatedSchema(objects)
  {
  }
}
