/**
 * `collect_fivethirtyeight.py`: the SPI matches CSV, with column names taken
 * from the dataset configuration, mapped row by row to a match stored with
 * INSERT OR IGNORE, the forecast probabilities stored as odds and the SPI
 * ratings and match importances stored as stats.
 */
module FiveThirtyEight {
  import opened Wrappers
  import opened Text
  import opened Json
  import opened Dates
  import opened Outcome
  import opened Store
  import opened Resolver
  import opened Upsert
  import opened CsvRows

  const ODDS_BOOKMAKER: string := "FiveThirtyEight_SPI"
  const ODDS_MARKET: string := "1X2_probabilities"
  const SPI_RATING: string := "spi_rating"
  const MATCH_IMPORTANCE: string := "match_importance"

  /**
   * The CSV columns a dataset configuration names. A label is the value
   * configured, which need not be text; `leagueId` is `None`'s `JNull` when
   * no league id column is configured.
   */
  datatype Columns = Columns(
    league: Json, home: Json, away: Json, date: Json, homeScore: Json, awayScore: Json,
    homeProb: Json, drawProb: Json, awayProb: Json, homeSpi: Json, awaySpi: Json,
    homeImportance: Json, awayImportance: Json, leagueId: Json)

  const DEFAULT_COLUMNS: Columns := Columns(
    JStr("league"), JStr("team1"), JStr("team2"), JStr("date"), JStr("score1"), JStr("score2"),
    JStr("prob1"), JStr("probtie"), JStr("prob2"), JStr("spi1"), JStr("spi2"),
    JStr("importance1"), JStr("importance2"), JNull)

  /** The columns the configuration selects; every key it leaves out takes its default. */
  function ColumnsOf(cfg: Object): (c: Columns)
    ensures cfg == map[] ==> c == DEFAULT_COLUMNS
    ensures "league_col" !in cfg && "home_team_col" !in cfg && "away_team_col" !in cfg && "date_col" !in cfg ==>
              c.league == JStr("league") && c.home == JStr("team1") && c.away == JStr("team2") && c.date == JStr("date")
  {
    Columns(
      GetOr(cfg, "league_col", JStr("league")), GetOr(cfg, "home_team_col", JStr("team1")),
      GetOr(cfg, "away_team_col", JStr("team2")), GetOr(cfg, "date_col", JStr("date")),
      GetOr(cfg, "home_score_col", JStr("score1")), GetOr(cfg, "away_score_col", JStr("score2")),
      GetOr(cfg, "home_prob_col", JStr("prob1")), GetOr(cfg, "draw_prob_col", JStr("probtie")),
      GetOr(cfg, "away_prob_col", JStr("prob2")), GetOr(cfg, "home_spi_col", JStr("spi1")),
      GetOr(cfg, "away_spi_col", JStr("spi2")), GetOr(cfg, "home_importance_col", JStr("importance1")),
      GetOr(cfg, "away_importance_col", JStr("importance2")), Get(cfg, "league_id_col_csv"))
  }

  /** `row.get(col)`: a label that is not text names no column of the frame. */
  function Cell(row: Object, col: Json): (v: Json)
    ensures col.JStr? ==> v == Get(row, col.s)
    ensures !col.JStr? ==> v == JNull
  {
    if col.JStr? then Get(row, col.s) else JNull
  }

  /** The league's source id: `str()` of the cell, when a league id column is configured and the row has it. */
  function LeagueSource(row: Object, col: Json): (r: Option<string>)
    ensures r.Some? <==> Truthy(col) && col.JStr? && col.s in row
    ensures r.Some? ==> r.value == CellStr(row[col.s])
  {
    if Truthy(col) && col.JStr? && col.s in row then Some(CellStr(row[col.s])) else None
  }

  /**
   * What the rows are processed with: the columns, the sport (`None` where
   * the resolver rejects it) and the first '/'-segment of `file_path`
   * (`None` where reading it raises, inside each row).
   */
  datatype Config = Config(cols: Columns, sport: Option<string>, fileRoot: Option<string>)

  /** The configuration read: `None` where `dataset_config_from_yaml["sport"]` raises, before any row. */
  function ReadConfig(cfg: Object): (r: Option<Config>)
    ensures r.None? <==> "sport" !in cfg
    ensures r.Some? ==> r.value.cols == ColumnsOf(cfg) && r.value.sport == CellName(cfg["sport"])
    ensures r.Some? ==> (r.value.fileRoot.Some? <==> "file_path" in cfg && cfg["file_path"].JStr?)
    ensures r.Some? && r.value.fileRoot.Some? ==> r.value.fileRoot.value == FirstField(cfg["file_path"].s, '/')
  {
    if "sport" !in cfg then None
    else
      var fp := Get(cfg, "file_path");
      Some(Config(ColumnsOf(cfg), CellName(cfg["sport"]), if fp.JStr? then Some(FirstField(fp.s, '/')) else None))
  }

  /** `FiveThirtyEight_<first segment of file_path>`. */
  function SourceName(root: string): (r: string)
    ensures '/' !in root ==> |r| == 16 + |root|
  {
    "FiveThirtyEight_" + root
  }

  /** `538_<YYYYMMDD>_<home>_<away>_<league source id, or NOLID when it is None or empty>`. */
  function SourceMatchId(kickoff: Stamp, home: string, away: string, leagueSource: Option<string>): string
  {
    "538_" + kickoff.Compact() + "_" + home + "_" + away + "_" + (if Given(leagueSource) then leagueSource.value else "NOLID")
  }

  /** The same teams and league id on two different calendar days (years from 1000 on) get different ids. */
  lemma SourceMatchIdSeparatesDays(d1: Stamp, d2: Stamp, home: string, away: string, leagueSource: Option<string>)
    requires d1.year >= 1000 && d2.year >= 1000
    requires SourceMatchId(d1, home, away, leagueSource) == SourceMatchId(d2, home, away, leagueSource)
    ensures d1.year == d2.year && d1.month == d2.month && d1.day == d2.day
  {
    FourDigits(d1.year);
    FourDigits(d2.year);
    assert SourceMatchId(d1, home, away, leagueSource)[4..12] == d1.Compact();
    assert SourceMatchId(d2, home, away, leagueSource)[4..12] == d2.Compact();
    CompactInjective(d1, d2);
  }

  /** The kickoff: a missing date is skipped before `pd.to_datetime` sees it. */
  function ReadKickoff(raw: Json, p: Parser): (r: Option<Stamp>)
    ensures IsNa(raw) ==> r.None?
    ensures !IsNa(raw) ==> r == p(CellStr(raw), Inferred)
  {
    if IsNa(raw) then None else p(CellStr(raw), Inferred)
  }

  /** A row whose match is stored: the match's id, the two team ids and the kickoff text. */
  datatype Stored = Stored(matchId: int, home: int, away: int, kickoff: string)

  /**
   * One row up to its match's INSERT OR IGNORE: the store afterwards, and
   * the ids when the row gets that far. The league (with the row's league
   * source id) and both teams are resolved first; an unresolved one, a
   * missing or unparsable date, a score `int()` rejects, or a missing
   * `file_path` ends the row after the resolves.
   */
  function StoreMatchRow(db: Db, row: Object, c: Config, p: Parser): (Db, Option<Stored>)
  {
    var cols := c.cols;
    var src := LeagueSource(row, cols.leagueId);
    var (db1, lid) := ResolveDb(db, LeagueKind, CellName(Cell(row, cols.league)), c.sport, src, None, Overwrite, NoFault);
    var (db2, hid, aid) := ResolvePair(db1, CellName(Cell(row, cols.home)), CellName(Cell(row, cols.away)), c.sport, None, None, Overwrite);
    if Falsy(lid) || Falsy(hid) || Falsy(aid) then (db2, None)
    else
      match MatchOf(row, c, p, lid.value, hid.value, aid.value)
      case None => (db2, None)
      case Some((key, m)) =>
        var (mt, mid, _) := InsertOrIgnoreMatch(db2.matches, key, m);
        (db2.(matches := mt), if mid == 0 then None else Some(Stored(mid, hid.value, aid.value, m.datetime)))
  }

  /**
   * The key and columns of the match a row describes, once its league and
   * teams have ids; `None` where the date is missing or does not parse, a
   * score is rejected, or `file_path` is missing.
   */
  function MatchOf(row: Object, c: Config, p: Parser, lid: int, hid: int, aid: int): (r: Option<(MatchKey, Match)>)
    ensures var d := ReadKickoff(Cell(row, c.cols.date), p);
            var sc := CellScores(Cell(row, c.cols.homeScore), Cell(row, c.cols.awayScore), SCHEDULED);
            && (r.Some? <==> d.Some? && sc.Some? && c.fileRoot.Some?)
            && (r.Some? ==>
                  && r.value.0.sourceName == SourceName(c.fileRoot.value)
                  && r.value.0.sourceMatchId == SourceMatchId(d.value, CellStr(Cell(row, c.cols.home)), CellStr(Cell(row, c.cols.away)),
                                                              LeagueSource(row, c.cols.leagueId))
                  && r.value.1.leagueId == Some(lid) && r.value.1.homeTeamId == Some(hid) && r.value.1.awayTeamId == Some(aid)
                  && r.value.1.datetime == d.value.IsoZ() && r.value.1.status == Some(sc.value.status)
                  && r.value.1.homeScore == sc.value.homeScore && r.value.1.awayScore == sc.value.awayScore
                  && r.value.1.winner == sc.value.winner
                  && r.value.1.stage.None? && r.value.1.matchday.None? && !r.value.1.isMock)
  {
    var cols := c.cols;
    var d := ReadKickoff(Cell(row, cols.date), p);
    var sc := CellScores(Cell(row, cols.homeScore), Cell(row, cols.awayScore), SCHEDULED);
    if d.None? || sc.None? || c.fileRoot.None? then None
    else
      var src := LeagueSource(row, cols.leagueId);
      var key := MatchKey(SourceMatchId(d.value, CellStr(Cell(row, cols.home)), CellStr(Cell(row, cols.away)), src),
                          SourceName(c.fileRoot.value));
      Some((key, Match(Some(lid), Some(hid), Some(aid), d.value.IsoZ(), Some(sc.value.status), sc.value.homeScore,
                       sc.value.awayScore, sc.value.winner, None, None, false)))
  }

  /**
   * The row as written: the counter update right after the match insert
   * raises (`processed_matches_count` is never bound), the row's handler
   * catches it, and the odds and stats code below it never runs.
   */
  function ProcessRowAsWritten(db: Db, row: Object, c: Config, p: Parser): Db
  {
    StoreMatchRow(db, row, c, p).0
  }

  /** The three probabilities, when all are present and `float()` accepts each. */
  function Probabilities(row: Object, cols: Columns): (r: Option<(real, real, real)>)
    ensures r.Some? <==> && !IsNa(Cell(row, cols.homeProb)) && !IsNa(Cell(row, cols.drawProb)) && !IsNa(Cell(row, cols.awayProb))
                         && PyFloat(Cell(row, cols.homeProb)).Some? && PyFloat(Cell(row, cols.drawProb)).Some?
                         && PyFloat(Cell(row, cols.awayProb)).Some?
    ensures r.Some? ==> r.value == (PyFloat(Cell(row, cols.homeProb)).value, PyFloat(Cell(row, cols.drawProb)).value,
                                    PyFloat(Cell(row, cols.awayProb)).value)
  {
    var h, d, a := Cell(row, cols.homeProb), Cell(row, cols.drawProb), Cell(row, cols.awayProb);
    if IsNa(h) || IsNa(d) || IsNa(a) then None
    else if PyFloat(h).None? || PyFloat(d).None? || PyFloat(a).None? then None
    else Some((PyFloat(h).value, PyFloat(d).value, PyFloat(a).value))
  }

  function OddsKeyOf(s: Stored): OddsKey
  {
    OddsKey(s.matchId, ODDS_BOOKMAKER, ODDS_MARKET)
  }

  /** The probabilities' INSERT OR IGNORE into `odds`, timestamped with the kickoff. */
  function WriteOdds(odds: Table<OddsKey, Odds>, s: Stored, row: Object, cols: Columns): Table<OddsKey, Odds>
  {
    match Probabilities(row, cols)
    case None => odds
    case Some((h, d, a)) => odds.InsertOrIgnore(OddsKeyOf(s), Odds(Some(h), Some(d), Some(a), Some(s.kickoff)))
  }

  /** One stats row of the match for a team, with a NULL period. */
  function StatOf(s: Stored, team: int, statType: string, value: Json): Stat
  {
    Stat(Some(s.matchId), Some(team), statType, CellStr(value), None)
  }

  /** `stats_to_insert`: the home and away SPI, then the home and away importance, each only when present. */
  function StatItems(row: Object, cols: Columns, s: Stored): (r: seq<Stat>)
    ensures forall st :: st in r ==> st.matchId == Some(s.matchId) && st.period.None? &&
                                     (st.teamId == Some(s.home) || st.teamId == Some(s.away))
    ensures |r| == (if IsNa(Cell(row, cols.homeSpi)) then 0 else 1) + (if IsNa(Cell(row, cols.awaySpi)) then 0 else 1) +
                   (if IsNa(Cell(row, cols.homeImportance)) then 0 else 1) + (if IsNa(Cell(row, cols.awayImportance)) then 0 else 1)
    ensures s.home != s.away ==>
              && (StatOf(s, s.home, SPI_RATING, Cell(row, cols.homeSpi)) in r <==> !IsNa(Cell(row, cols.homeSpi)))
              && (StatOf(s, s.away, SPI_RATING, Cell(row, cols.awaySpi)) in r <==> !IsNa(Cell(row, cols.awaySpi)))
              && (StatOf(s, s.home, MATCH_IMPORTANCE, Cell(row, cols.homeImportance)) in r <==> !IsNa(Cell(row, cols.homeImportance)))
              && (StatOf(s, s.away, MATCH_IMPORTANCE, Cell(row, cols.awayImportance)) in r <==> !IsNa(Cell(row, cols.awayImportance)))
  {
    var spiH, spiA := Cell(row, cols.homeSpi), Cell(row, cols.awaySpi);
    var impH, impA := Cell(row, cols.homeImportance), Cell(row, cols.awayImportance);
    (if IsNa(spiH) then [] else [StatOf(s, s.home, SPI_RATING, spiH)]) +
    (if IsNa(spiA) then [] else [StatOf(s, s.away, SPI_RATING, spiA)]) +
    (if IsNa(impH) then [] else [StatOf(s, s.home, MATCH_IMPORTANCE, impH)]) +
    (if IsNa(impA) then [] else [StatOf(s, s.away, MATCH_IMPORTANCE, impA)])
  }

  /** `INSERT OR IGNORE INTO stats` for each item in order. */
  function InsertStats(stats: seq<Stat>, items: seq<Stat>): seq<Stat>
    decreases |items|
  {
    if items == [] then stats
    else InsertOrIgnoreStat(InsertStats(stats, items[..|items| - 1]), items[|items| - 1]).0
  }

  /** Items with a NULL period are never ignored: every one is appended. */
  lemma {:induction false} InsertStatsAppends(stats: seq<Stat>, items: seq<Stat>)
    requires forall st :: st in items ==> st.period.None?
    ensures InsertStats(stats, items) == stats + items
    decreases |items|
  {
    if items != [] {
      var prev := items[..|items| - 1];
      assert forall st :: st in prev ==> st in items;
      InsertStatsAppends(stats, prev);
      NullPeriodNeverIgnored(stats + prev, items[|items| - 1]);
      assert prev + [items[|items| - 1]] == items;
    }
  }

  /** One row with the counter update removed: the match, then the odds and the stats. */
  function ProcessRow(db: Db, row: Object, c: Config, p: Parser): Db
  {
    var (db3, s) := StoreMatchRow(db, row, c, p);
    if s.None? then db3
    else db3.(odds := WriteOdds(db3.odds, s.value, row, c.cols), stats := InsertStats(db3.stats, StatItems(row, c.cols, s.value)))
  }

  /** The rows in order, as written: each stops after its match insert. */
  function AsWrittenRows(db: Db, rows: seq<Object>, c: Config, p: Parser): Db
    decreases |rows|
  {
    if rows == [] then db else ProcessRowAsWritten(AsWrittenRows(db, rows[..|rows| - 1], c, p), rows[|rows| - 1], c, p)
  }

  /**
   * `parse_and_store_soccer_spi_matches`: `rows` is the parsed frame, empty
   * for empty or unparsable content, which returns before any write; `None`
   * where the missing `sport` key raises.
   */
  function StoreSpiMatches(db: Db, rows: seq<Object>, cfg: Object, p: Parser): Option<Db>
  {
    if rows == [] then Some(db)
    else
      match ReadConfig(cfg)
      case None => None
      case Some(c) => Some(AsWrittenRows(db, rows, c, p))
  }

  /** One row up to the match insert, on the connection. */
  method StoreMatchStep(conn: Connection, row: Object, c: Config, p: Parser) returns (s: Option<Stored>)
    modifies conn
    ensures (conn.Snapshot(), s) == StoreMatchRow(old(conn.Snapshot()), row, c, p)
    ensures conn.schema == old(conn.schema)
  {
    var cols := c.cols;
    var lc, hc, ac := Cell(row, cols.league), Cell(row, cols.home), Cell(row, cols.away);
    var src := LeagueSource(row, cols.leagueId);
    var lid := GetOrCreateEntityId(conn, LeagueKind, CellName(lc), c.sport, src, None, Overwrite, NoFault);
    var hid := GetOrCreateEntityId(conn, TeamKind, CellName(hc), c.sport, None, None, Overwrite, NoFault);
    var aid := GetOrCreateEntityId(conn, TeamKind, CellName(ac), c.sport, None, None, Overwrite, NoFault);
    if Falsy(lid) || Falsy(hid) || Falsy(aid) {
      return None;
    }
    var km := MatchOf(row, c, p, lid.value, hid.value, aid.value);
    if km.None? {
      return None;
    }
    var (key, m) := km.value;
    var mid, _ := InsertOrIgnoreMatchRow(conn, key, m);
    s := if mid == 0 then None else Some(Stored(mid, hid.value, aid.value, m.datetime));
  }

  /**
   * `parse_and_store_soccer_spi_matches` on the connection; `configError`
   * where the missing `sport` key raises before the loop. Each row stops
   * where the counter update raises, after its match insert. The raise of
   * line 282, after the commit, is not told apart from a return.
   */
  method ParseAndStoreSpiMatches(conn: Connection, rows: seq<Object>, cfg: Object, p: Parser) returns (configError: bool)
    modifies conn
    ensures configError <==> StoreSpiMatches(old(conn.Snapshot()), rows, cfg, p).None?
    ensures !configError ==> conn.Snapshot() == StoreSpiMatches(old(conn.Snapshot()), rows, cfg, p).value
    ensures configError ==> conn.Snapshot() == old(conn.Snapshot())
    ensures conn.schema == old(conn.schema)
  {
    if rows == [] {
      return false;
    }
    var config := ReadConfig(cfg);
    if config.None? {
      return true;
    }
    var c := config.value;
    ghost var start := conn.Snapshot();
    for i := 0 to |rows|
      invariant conn.Snapshot() == AsWrittenRows(start, rows[..i], c, p)
      invariant conn.schema == old(conn.schema)
    {
      assert rows[..i + 1][..i] == rows[..i];
      var _ := StoreMatchStep(conn, rows[i], c, p);
    }
    assert rows[..|rows|] == rows;
    return false;
  }

  /** As written, a run of rows leaves the odds and stats as they were and keeps the store valid. */
  lemma {:induction false} AsWrittenRowsWriteNoOddsOrStats(db: Db, rows: seq<Object>, c: Config, p: Parser)
    requires db.Valid()
    ensures var db1 := AsWrittenRows(db, rows, c, p);
            db1.Valid() && db1.odds == db.odds && db1.stats == db.stats
    decreases |rows|
  {
    if rows != [] {
      AsWrittenRowsWriteNoOddsOrStats(db, rows[..|rows| - 1], c, p);
      StoreMatchRowValid(AsWrittenRows(db, rows[..|rows| - 1], c, p), rows[|rows| - 1], c, p);
    }
  }

  /** As written, a row never writes odds or stats. */
  lemma AsWrittenWritesNoOddsOrStats(db: Db, row: Object, c: Config, p: Parser)
    ensures ProcessRowAsWritten(db, row, c, p).odds == db.odds
    ensures ProcessRowAsWritten(db, row, c, p).stats == db.stats
  {
  }

  /** With the counter update removed, the leagues, teams and matches are written as before; only odds and stats are added. */
  lemma CorrectedKeepsMatchPath(db: Db, row: Object, c: Config, p: Parser)
    ensures var (a, b) := (ProcessRowAsWritten(db, row, c, p), ProcessRow(db, row, c, p));
            a.leagues == b.leagues && a.teams == b.teams && a.matches == b.matches
  {
  }

  /** A row without a date writes no match, odds or stats. */
  lemma UndatedRowWritesOnlyEntities(db: Db, row: Object, c: Config, p: Parser)
    requires IsNa(Cell(row, c.cols.date))
    ensures var db1 := ProcessRow(db, row, c, p);
            db1.matches == db.matches && db1.odds == db.odds && db1.stats == db.stats
  {
  }

  /**
   * Once a row's match is stored, its probability odds row is present
   * afterwards exactly when it was present already or all three
   * probabilities are present and parse; a new one holds them in
   * home, draw, away order with the kickoff; an existing one is left.
   */
  lemma OddsWrittenIffProbabilities(db: Db, row: Object, c: Config, p: Parser)
    ensures var (db3, s) := StoreMatchRow(db, row, c, p);
            var db4 := ProcessRow(db, row, c, p);
            var pr := Probabilities(row, c.cols);
            s.Some? ==>
              && (OddsKeyOf(s.value) in db4.odds.rows <==> OddsKeyOf(s.value) in db3.odds.rows || pr.Some?)
              && (OddsKeyOf(s.value) !in db3.odds.rows && pr.Some? ==>
                    db4.odds.rows[OddsKeyOf(s.value)].1 == Odds(Some(pr.value.0), Some(pr.value.1), Some(pr.value.2), Some(s.value.kickoff)))
              && (OddsKeyOf(s.value) in db3.odds.rows ==> db4.odds.rows[OddsKeyOf(s.value)] == db3.odds.rows[OddsKeyOf(s.value)])
  {
  }

  /** Once a row's match is stored, its stats items are appended to the stats rows, none ignored. */
  lemma StatsAppended(db: Db, row: Object, c: Config, p: Parser)
    ensures var (db3, s) := StoreMatchRow(db, row, c, p);
            s.Some? ==> ProcessRow(db, row, c, p).stats == db3.stats + StatItems(row, c.cols, s.value)
  {
    var (db3, s) := StoreMatchRow(db, row, c, p);
    if s.Some? {
      InsertStatsAppends(db3.stats, StatItems(row, c.cols, s.value));
    }
  }

  /** The first pass over a row, with the league and team tables it resolves against. */
  lemma StoreMatchRowValid(db: Db, row: Object, c: Config, p: Parser)
    requires db.Valid()
    ensures var (db3, s) := StoreMatchRow(db, row, c, p);
            db3.Valid() && db3.stats == db.stats && db3.odds == db.odds
  {
    var cols := c.cols;
    var lc, hc, ac := Cell(row, cols.league), Cell(row, cols.home), Cell(row, cols.away);
    var src := LeagueSource(row, cols.leagueId);
    ResolveDbValid(db, LeagueKind, CellName(lc), c.sport, src, None, Overwrite, NoFault);
    var (db1, lid) := ResolveDb(db, LeagueKind, CellName(lc), c.sport, src, None, Overwrite, NoFault);
    ResolvePairValid(db1, CellName(hc), CellName(ac), c.sport, None, None, Overwrite);
    var (db2, hid, aid) := ResolvePair(db1, CellName(hc), CellName(ac), c.sport, None, None, Overwrite);
    if !Falsy(lid) && !Falsy(hid) && !Falsy(aid) {
      StoreResolvedMatchValid(db, row, c, p);
    } else {
      assert StoreMatchRow(db, row, c, p).0 == db2;
    }
  }

  /** StoreMatchRowValid once the league and both teams have ids: the match insert keeps the store valid. */
  lemma StoreResolvedMatchValid(db: Db, row: Object, c: Config, p: Parser)
    requires var cols := c.cols;
             var (db1, lid) := ResolveDb(db, LeagueKind, CellName(Cell(row, cols.league)), c.sport, LeagueSource(row, cols.leagueId), None, Overwrite, NoFault);
             var (db2, hid, aid) := ResolvePair(db1, CellName(Cell(row, cols.home)), CellName(Cell(row, cols.away)), c.sport, None, None, Overwrite);
             db2.Valid() && db2.stats == db.stats && db2.odds == db.odds && !Falsy(lid) && !Falsy(hid) && !Falsy(aid)
    ensures var (db3, s) := StoreMatchRow(db, row, c, p);
            db3.Valid() && db3.stats == db.stats && db3.odds == db.odds
  {
    var cols := c.cols;
    var (db1, lid) := ResolveDb(db, LeagueKind, CellName(Cell(row, cols.league)), c.sport, LeagueSource(row, cols.leagueId), None, Overwrite, NoFault);
    var (db2, hid, aid) := ResolvePair(db1, CellName(Cell(row, cols.home)), CellName(Cell(row, cols.away)), c.sport, None, None, Overwrite);
    var km := MatchOf(row, c, p, lid.value, hid.value, aid.value);
    if km.Some? {
      InsertOrIgnoreKeepsRows(db2.matches, km.value.0, km.value.1);
      var (mt, _, _) := InsertOrIgnoreMatch(db2.matches, km.value.0, km.value.1);
      assert StoreMatchRow(db, row, c, p).0 == db2.(matches := mt);
    } else {
      assert StoreMatchRow(db, row, c, p).0 == db2;
    }
  }

  /** A row keeps the store valid. */
  lemma ProcessRowValid(db: Db, row: Object, c: Config, p: Parser)
    requires db.Valid()
    ensures ProcessRow(db, row, c, p).Valid()
  {
    StoreMatchRowValid(db, row, c, p);
    var (db3, s) := StoreMatchRow(db, row, c, p);
    if s.Some? {
      var items := StatItems(row, c.cols, s.value);
      InsertStatsAppends(db3.stats, items);
      InsertOrIgnoreValid(db3.odds, OddsKeyOf(s.value), Odds(None, None, None, None));
      if Probabilities(row, c.cols).Some? {
        var pr := Probabilities(row, c.cols).value;
        InsertOrIgnoreValid(db3.odds, OddsKeyOf(s.value), Odds(Some(pr.0), Some(pr.1), Some(pr.2), Some(s.value.kickoff)));
      }
      AppendNullPeriodsUnique(db3.stats, items);
    }
  }

  /** Appending stats rows with a NULL period keeps the stats free of clashes. */
  lemma AppendNullPeriodsUnique(stats: seq<Stat>, items: seq<Stat>)
    requires StatsUnique(stats)
    requires forall st :: st in items ==> st.period.None?
    ensures StatsUnique(stats + items)
  {
    var t := stats + items;
    forall i, j | 0 <= i < j < |t| ensures !StatClash(t[i], t[j]) {
      if j >= |stats| {
        assert t[j] == items[j - |stats|];
        assert t[j] in items;
      } else {
        assert t[i] == stats[i] && t[j] == stats[j];
      }
    }
  }

  /**
   * The match path settles: on any store with the leagues, teams and matches
   * the first pass left, a row with two differently named teams resolves
   * to the same ids, finds the stored match under the same id and writes
   * nothing.
   */
  lemma StoreMatchRowSettles(db: Db, db': Db, row: Object, c: Config, p: Parser)
    requires db.Valid()
    requires CellName(Cell(row, c.cols.home)) != CellName(Cell(row, c.cols.away))
    requires var db3 := StoreMatchRow(db, row, c, p).0;
             db'.leagues == db3.leagues && db'.teams == db3.teams && db'.matches == db3.matches
    ensures StoreMatchRow(db', row, c, p) == (db', StoreMatchRow(db, row, c, p).1)
  {
    var cols := c.cols;
    var lc, hc, ac := Cell(row, cols.league), Cell(row, cols.home), Cell(row, cols.away);
    var src := LeagueSource(row, cols.leagueId);
    var (db1, lid) := ResolveDb(db, LeagueKind, CellName(lc), c.sport, src, None, Overwrite, NoFault);
    var (db2, hid, aid) := ResolvePair(db1, CellName(hc), CellName(ac), c.sport, None, None, Overwrite);
    RowResolvesSettle(db, db', row, c, p);
    if !Falsy(lid) && !Falsy(hid) && !Falsy(aid) {
      var km := MatchOf(row, c, p, lid.value, hid.value, aid.value);
      if km.Some? {
        InsertOrIgnoreSettles(db2.matches, km.value.0, km.value.1, km.value.1);
        var (mt, mid, _) := InsertOrIgnoreMatch(db2.matches, km.value.0, km.value.1);
        assert StoreMatchRow(db, row, c, p).0 == db2.(matches := mt);
        assert db'.matches == mt;
      } else {
        assert StoreMatchRow(db, row, c, p).0 == db2;
      }
    } else {
      assert StoreMatchRow(db, row, c, p).0 == db2;
    }
  }

  /** The resolves of StoreMatchRowSettles: on db' the league and both teams resolve to the same ids and write nothing. */
  lemma RowResolvesSettle(db: Db, db': Db, row: Object, c: Config, p: Parser)
    requires db.Valid()
    requires CellName(Cell(row, c.cols.home)) != CellName(Cell(row, c.cols.away))
    requires var db3 := StoreMatchRow(db, row, c, p).0;
             db'.leagues == db3.leagues && db'.teams == db3.teams
    ensures var cols := c.cols;
            var src := LeagueSource(row, cols.leagueId);
            var (db1, lid) := ResolveDb(db, LeagueKind, CellName(Cell(row, cols.league)), c.sport, src, None, Overwrite, NoFault);
            var (db2, hid, aid) := ResolvePair(db1, CellName(Cell(row, cols.home)), CellName(Cell(row, cols.away)), c.sport, None, None, Overwrite);
            && ResolveDb(db', LeagueKind, CellName(Cell(row, cols.league)), c.sport, src, None, Overwrite, NoFault) == (db', lid)
            && ResolvePair(db', CellName(Cell(row, cols.home)), CellName(Cell(row, cols.away)), c.sport, None, None, Overwrite) == (db', hid, aid)
            && db2 == db1.(teams := db2.teams) && db1 == db.(leagues := db1.leagues)
  {
    var cols := c.cols;
    var lc, hc, ac := Cell(row, cols.league), Cell(row, cols.home), Cell(row, cols.away);
    var src := LeagueSource(row, cols.leagueId);
    var (db1, lid) := ResolveDb(db, LeagueKind, CellName(lc), c.sport, src, None, Overwrite, NoFault);
    ResolveDbValid(db, LeagueKind, CellName(lc), c.sport, src, None, Overwrite, NoFault);
    ResolveSettles(db.leagues, LeagueKind, CellName(lc), c.sport, src, None, Overwrite);
    ResolvePairValid(db1, CellName(hc), CellName(ac), c.sport, None, None, Overwrite);
    var (db2, hid, aid) := ResolvePair(db1, CellName(hc), CellName(ac), c.sport, None, None, Overwrite);
    assert StoreMatchRow(db, row, c, p).0.leagues == db2.leagues && StoreMatchRow(db, row, c, p).0.teams == db2.teams;
    assert db'.leagues == db1.leagues;
    SettledResolveReadsOnly(db1.leagues, LeagueKind, CellName(lc), c.sport, src, None, Overwrite, NoFault);
    TeamsSettle(db1.teams, CellName(hc), CellName(ac), c.sport, None, None, Overwrite);
    assert db'.teams == db2.teams;
  }

  /**
   * Processing a row a second time, with two differently named teams,
   * leaves the leagues, teams, matches and odds as they are, but appends the
   * row's stats again: their period is NULL, so INSERT OR IGNORE never
   * meets a conflicting row.
   */
  lemma ReprocessDuplicatesStats(db: Db, row: Object, c: Config, p: Parser)
    requires db.Valid()
    requires CellName(Cell(row, c.cols.home)) != CellName(Cell(row, c.cols.away))
    ensures var (_, s) := StoreMatchRow(db, row, c, p);
            var db1 := ProcessRow(db, row, c, p);
            s.Some? ==> ProcessRow(db1, row, c, p) == db1.(stats := db1.stats + StatItems(row, c.cols, s.value))
  {
    var (db3, s) := StoreMatchRow(db, row, c, p);
    if s.Some? {
      var db1 := ProcessRow(db, row, c, p);
      StoreMatchRowSettles(db, db1, row, c, p);
      StatsAppended(db1, row, c, p);
    }
  }

  /** As written, processing a row a second time, with two differently named teams, changes nothing. */
  lemma ReprocessAsWrittenChangesNothing(db: Db, row: Object, c: Config, p: Parser)
    requires db.Valid()
    requires CellName(Cell(row, c.cols.home)) != CellName(Cell(row, c.cols.away))
    ensures var db1 := ProcessRowAsWritten(db, row, c, p);
            ProcessRowAsWritten(db1, row, c, p) == db1
  {
    StoreMatchRowSettles(db, ProcessRowAsWritten(db, row, c, p), row, c, p);
  }
}
