/**
 * The three CSV importers of `database_importer.py`: Kaggle international
 * results, soccer-data.co.uk season files and FiveThirtyEight SPI matches.
 * Each reads a row's cells, resolves its league and teams, inserts the match
 * with ON CONFLICT DO NOTHING and, for the last two, adds the row's odds or
 * stats unless an equal row is already stored. A row whose lookup, parse or
 * conversion raises is skipped with whatever it had written so far.
 */
module ImporterCsv {
  import opened Wrappers
  import opened Text
  import opened Json
  import opened Dates
  import opened Outcome
  import opened CsvRows
  import opened ImporterStore
  import Store
  import Resolver

  // ---------------------------------------------------------------- Kaggle

  const KAGGLE_SOURCE: string := "Kaggle/martj42_intl_results"

  /** The cells of a Kaggle row, all read before anything is written. */
  datatype KaggleCells = KaggleCells(dateText: string, day: Stamp, home: Json, away: Json,
                                     homeScore: int, awayScore: int, tournament: Json, country: Json)

  /**
   * `row['date']` parsed as `%Y-%m-%d`, the two team cells, `int()` of both
   * scores, the tournament and the country; None where a lookup, the parse
   * or an `int()` raises.
   */
  function KaggleCellsOf(row: Object, p: Parser): Option<KaggleCells>
  {
    if "date" in row && row["date"].JStr? && p(row["date"].s, YearMonthDay).Some?
       && "home_team" in row && "away_team" in row
       && "home_score" in row && PyInt(row["home_score"]).Some?
       && "away_score" in row && PyInt(row["away_score"]).Some?
       && "tournament" in row && "country" in row
    then Some(KaggleCells(row["date"].s, p(row["date"].s, YearMonthDay).value, row["home_team"], row["away_team"],
                          PyInt(row["home_score"]).value, PyInt(row["away_score"]).value, row["tournament"], row["country"]))
    else None
  }

  /** The two finals tournaments are filed under "International"; any other under the match's country. */
  function KaggleLeagueCountry(tournament: Json, country: Json): Option<string>
  {
    if tournament == JStr("FIFA World Cup") || tournament == JStr("UEFA Euro") then Some("International") else AsText(country)
  }

  function KaggleKey(c: KaggleCells, homeId: int, awayId: int): ConflictKey
  {
    ConflictKey(c.day.SqlText(), homeId, awayId, KAGGLE_SOURCE)
  }

  function KaggleFixture(c: KaggleCells, leagueId: int): Fixture
  {
    Fixture(leagueId, FINISHED, Some(c.homeScore), Some(c.awayScore),
            KAGGLE_SOURCE + "_" + c.dateText + "_" + CellStr(c.home) + "_vs_" + CellStr(c.away))
  }

  /** One iteration of `import_kaggle_international_results`: the store afterwards and the match it added. */
  function KaggleRow(db: ImportDb, row: Object, p: Parser): (ImportDb, Tally)
  {
    match KaggleCellsOf(row, p)
    case None => (db, Tally(0, 0))
    case Some(c) => KaggleWrite(db, c)
  }

  /** The writes of a readable Kaggle row: league, both teams, then the match. */
  function KaggleWrite(db: ImportDb, c: KaggleCells): (ImportDb, Tally)
  {
    var (db1, lid) := GetOrCreateLeague(db, AsText(c.tournament), Some(FOOTBALL), KaggleLeagueCountry(c.tournament, c.country),
                                        Some(KAGGLE_SOURCE), Clean);
    if Resolver.Falsy(lid) then (db1, Tally(0, 0))
    else
      var (db2, hid, aid) := ResolveTeams(db1, AsText(c.home), AsText(c.home), AsText(c.away), AsText(c.away), lid, Some(KAGGLE_SOURCE));
      if Resolver.Falsy(hid) || Resolver.Falsy(aid) then (db2, Tally(0, 0))
      else
        var (t, _, added) := InsertMatchDoNothing(db2.matches, KaggleKey(c, hid.value, aid.value), KaggleFixture(c, lid.value));
        (db2.(matches := t), Tally(if added then 1 else 0, 0))
  }

  function KaggleStep(p: Parser): (ImportDb, Object) -> (ImportDb, Tally)
  {
    (d, r) => KaggleRow(d, r, p)
  }

  /** A row's own result is its step's result. */
  lemma KaggleStepIs(db: ImportDb, row: Object, p: Parser, db': ImportDb, t: Tally)
    requires (db', t) == KaggleRow(db, row, p)
    ensures (db', t) == KaggleStep(p)(db, row)
  {
  }

  /** A row only adds rows, counts exactly the match it added, and touches neither odds nor stats. */
  lemma KaggleRowGrows(db: ImportDb, row: Object, p: Parser)
    ensures var (db', t) := KaggleRow(db, row, p);
            && Grows(db, db') && db'.matches.Size() == db.matches.Size() + t.main
            && db'.odds == db.odds && db'.stats == db.stats && t.side == 0
  {
    match KaggleCellsOf(row, p)
    case None =>
    case Some(c) =>
      var ln, lc, src := AsText(c.tournament), KaggleLeagueCountry(c.tournament, c.country), Some(KAGGLE_SOURCE);
      var (db1, lid) := GetOrCreateLeague(db, ln, Some(FOOTBALL), lc, src, Clean);
      GetOrCreateLeagueGrows(db, ln, Some(FOOTBALL), lc, src, Clean);
      if !Resolver.Falsy(lid) {
        var (db2, hid, aid) := ResolveTeams(db1, AsText(c.home), AsText(c.home), AsText(c.away), AsText(c.away), lid, src);
        ResolveTeamsGrows(db1, AsText(c.home), AsText(c.home), AsText(c.away), AsText(c.away), lid, src);
        GrowsTransitive(db, db1, db2);
        if !Resolver.Falsy(hid) && !Resolver.Falsy(aid) {
          var k, fx := KaggleKey(c, hid.value, aid.value), KaggleFixture(c, lid.value);
          InsertMatchDoNothingGrows(db2, k, fx);
          GrowsTransitive(db, db2, db2.(matches := InsertMatchDoNothing(db2.matches, k, fx).0));
        }
      }
  }

  /** A row keeps the store's ids valid. */
  lemma KaggleRowValid(db: ImportDb, row: Object, p: Parser)
    requires db.Valid()
    ensures KaggleRow(db, row, p).0.Valid()
  {
    match KaggleCellsOf(row, p)
    case None =>
    case Some(c) =>
      var ln, lc, src := AsText(c.tournament), KaggleLeagueCountry(c.tournament, c.country), Some(KAGGLE_SOURCE);
      var (db1, lid) := GetOrCreateLeague(db, ln, Some(FOOTBALL), lc, src, Clean);
      GetOrCreateLeagueSpec(db, ln, Some(FOOTBALL), lc, src, Clean);
      if !Resolver.Falsy(lid) {
        var (db2, hid, aid) := ResolveTeams(db1, AsText(c.home), AsText(c.home), AsText(c.away), AsText(c.away), lid, src);
        ResolveTeamsValid(db1, AsText(c.home), AsText(c.home), AsText(c.away), AsText(c.away), lid, src);
        if !Resolver.Falsy(hid) && !Resolver.Falsy(aid) {
          InsertMatchDoNothingSpec(db2.matches, KaggleKey(c, hid.value, aid.value), KaggleFixture(c, lid.value));
        }
      }
  }

  /**
   * On a valid store, a readable row whose tournament and team names are
   * text leaves its league, both teams and a match under (kickoff text,
   * home id, away id, source); it counts one exactly when that key was new,
   * and then the stored match holds the row's FINISHED result.
   */
  lemma KaggleRowStores(db: ImportDb, row: Object, p: Parser)
    requires db.Valid()
    requires KaggleCellsOf(row, p).Some?
    requires var c := KaggleCellsOf(row, p).value;
             AsText(c.tournament).Some? && AsText(c.home).Some? && AsText(c.away).Some?
    ensures var c := KaggleCellsOf(row, p).value;
            var (db', t) := KaggleRow(db, row, p);
            var lk := Store.Key(AsText(c.tournament).value, FOOTBALL);
            var hn, an := AsText(c.home).value, AsText(c.away).value;
            && lk in db'.leagues.rows && hn in db'.teams.rows && an in db'.teams.rows
            && var k := KaggleKey(c, db'.teams.rows[hn].0, db'.teams.rows[an].0);
               && k in db'.matches.rows
               && (t.main == 1 <==> k !in db.matches.rows)
               && (k !in db.matches.rows ==> db'.matches.rows[k].1 == KaggleFixture(c, db'.leagues.rows[lk].0))
  {
    var c := KaggleCellsOf(row, p).value;
    var ln, lc, src := AsText(c.tournament).value, KaggleLeagueCountry(c.tournament, c.country), Some(KAGGLE_SOURCE);
    var hn, an := AsText(c.home).value, AsText(c.away).value;
    var (db1, lid) := GetOrCreateLeague(db, Some(ln), Some(FOOTBALL), lc, src, Clean);
    GetOrCreateLeagueClean(db, ln, FOOTBALL, lc, src);
    var (db2, hid, aid) := ResolveTeams(db1, Some(hn), Some(hn), Some(an), Some(an), lid, src);
    ResolveTeamsClean(db1, hn, Some(hn), an, Some(an), lid, src);
    var k, fx := KaggleKey(c, hid.value, aid.value), KaggleFixture(c, lid.value);
    InsertMatchDoNothingSpec(db2.matches, k, fx);
    assert KaggleRow(db, row, p) == KaggleWrite(db, c);
    assert KaggleWrite(db, c).0 == db2.(matches := InsertMatchDoNothing(db2.matches, k, fx).0);
  }

  /** Once a row is imported, importing it again on any store that kept those rows writes and counts nothing. */
  lemma KaggleRowSettles(db: ImportDb, row: Object, p: Parser, d: ImportDb)
    requires Grows(KaggleRow(db, row, p).0, d)
    ensures KaggleRow(d, row, p) == (d, Tally(0, 0))
  {
    match KaggleCellsOf(row, p)
    case None =>
    case Some(c) =>
      var ln, lc, src := AsText(c.tournament), KaggleLeagueCountry(c.tournament, c.country), Some(KAGGLE_SOURCE);
      var (db1, lid) := GetOrCreateLeague(db, ln, Some(FOOTBALL), lc, src, Clean);
      if !Resolver.Falsy(lid) {
        var (db2, hid, aid) := ResolveTeams(db1, AsText(c.home), AsText(c.home), AsText(c.away), AsText(c.away), lid, src);
        ResolveTeamsGrows(db1, AsText(c.home), AsText(c.home), AsText(c.away), AsText(c.away), lid, src);
        if !Resolver.Falsy(hid) && !Resolver.Falsy(aid) {
          var k, fx := KaggleKey(c, hid.value, aid.value), KaggleFixture(c, lid.value);
          InsertMatchDoNothingGrows(db2, k, fx);
          InsertMatchDoNothingSettles(db2.matches, k, fx, d.matches, fx);
          GrowsTransitive(db2, db2.(matches := InsertMatchDoNothing(db2.matches, k, fx).0), d);
        }
        GrowsTransitive(db1, db2, d);
        ResolveTeamsSettles(db1, AsText(c.home), AsText(c.home), AsText(c.away), AsText(c.away), lid, src, d);
      }
      GetOrCreateLeagueSettles(db, ln, Some(FOOTBALL), lc, src, d, lc, src, Clean);
  }

  lemma KaggleAbsorbing(p: Parser)
    ensures QuietlyAbsorbing(KaggleStep(p))
  {
    forall db: ImportDb, r: Object
      ensures Grows(db, KaggleStep(p)(db, r).0) && SettledQuietly(KaggleStep(p), KaggleStep(p)(db, r).0, r)
    {
      KaggleRowGrows(db, r, p);
      forall d | Grows(KaggleRow(db, r, p).0, d) ensures KaggleStep(p)(d, r) == (d, Tally(0, 0)) {
        KaggleRowSettles(db, r, p, d);
      }
    }
  }

  /**
   * A Kaggle file import only adds rows, keeps the store valid, returns the
   * number of matches it added, and importing the same file again writes
   * nothing and returns 0.
   */
  lemma KaggleReimport(db: ImportDb, rows: seq<Object>, p: Parser)
    ensures var (db1, t) := Import(KaggleStep(p), db, rows);
            && Grows(db, db1)
            && db1.matches.Size() == db.matches.Size() + t.main
            && (db.Valid() ==> db1.Valid())
            && Import(KaggleStep(p), db1, rows) == (db1, Tally(0, 0))
  {
    KaggleAbsorbing(p);
    ReimportAddsNothing(KaggleStep(p), db, rows);
    forall d: ImportDb, r: Object
      ensures KaggleStep(p)(d, r).0.matches.Size() == d.matches.Size() + KaggleStep(p)(d, r).1.main
      ensures |KaggleStep(p)(d, r).0.odds| == |d.odds| + KaggleStep(p)(d, r).1.side
    {
      KaggleRowGrows(d, r, p);
    }
    ImportCountsRows(KaggleStep(p), (d: ImportDb) => |d.odds|, db, rows);
    if db.Valid() {
      forall d: ImportDb, r: Object | d.Valid() ensures KaggleStep(p)(d, r).0.Valid() {
        KaggleRowValid(d, r, p);
      }
      ImportValid(KaggleStep(p), db, rows);
    }
  }

  /** One Kaggle row on the connection: the resolver calls, then the INSERT. */
  method KaggleRowOn(conn: ImportConnection, row: Object, p: Parser) returns (t: Tally)
    modifies conn
    ensures (conn.Snapshot(), t) == KaggleRow(old(conn.Snapshot()), row, p)
  {
    var cells := KaggleCellsOf(row, p);
    if cells.None? {
      return Tally(0, 0);
    }
    var c := cells.value;
    var src := Some(KAGGLE_SOURCE);
    var lid := GetOrCreateLeagueRow(conn, AsText(c.tournament), Some(FOOTBALL), KaggleLeagueCountry(c.tournament, c.country), src, Clean);
    if Resolver.Falsy(lid) {
      return Tally(0, 0);
    }
    var hid, aid := ResolveTeamsRow(conn, AsText(c.home), AsText(c.home), AsText(c.away), AsText(c.away), lid, src);
    if Resolver.Falsy(hid) || Resolver.Falsy(aid) {
      return Tally(0, 0);
    }
    var id, added := InsertMatchDoNothingRow(conn, KaggleKey(c, hid.value, aid.value), KaggleFixture(c, lid.value));
    t := Tally(if added then 1 else 0, 0);
  }

  /** `import_kaggle_international_results` over the file's rows; returns `matches_added`. */
  method ImportKaggle(conn: ImportConnection, rows: seq<Object>, p: Parser) returns (matchesAdded: nat)
    modifies conn
    ensures (conn.Snapshot(), Tally(matchesAdded, 0)) == Import(KaggleStep(p), old(conn.Snapshot()), rows)
  {
    ghost var db0 := conn.Snapshot();
    matchesAdded := 0;
    for i := 0 to |rows|
      invariant (conn.Snapshot(), Tally(matchesAdded, 0)) == Import(KaggleStep(p), db0, rows[..i])
    {
      ghost var before, t0 := conn.Snapshot(), Tally(matchesAdded, 0);
      KaggleRowGrows(before, rows[i], p);
      var t := KaggleRowOn(conn, rows[i], p);
      KaggleStepIs(before, rows[i], p, conn.Snapshot(), t);
      ImportExtend(KaggleStep(p), db0, rows, i, before, t0, conn.Snapshot(), t);
      matchesAdded := matchesAdded + t.main;
      assert Tally(matchesAdded, 0) == t0.Plus(t);
    }
    assert rows[..|rows|] == rows;
  }

  // ------------------------------------------------------ soccer-data.co.uk

  const SOCCER_DATA_SOURCE: string := "SoccerDataUK"

  /** The bookmakers a season file may price, by the column of their home-win price, in the importer's order. */
  const ODDS_MAP: seq<(string, string)> := [
    ("B365H", "Bet365"), ("BSH", "Blue Square"), ("BWH", "Bet&Win"), ("GBH", "Gamebookers"),
    ("IWH", "Interwetten"), ("LBH", "Ladbrokes"), ("PSH", "Pinnacle"), ("SOH", "Sporting Odds"),
    ("SBH", "Sportingbet"), ("SJH", "Stan James"), ("SYH", "Stanleybet"), ("VCH", "VC Bet"),
    ("WHH", "William Hill"), ("MaxH", "MaxOdds"), ("AvgH", "AvgOdds")]

  /**
   * How the draw and away columns are named from the home column.
   * `AsWritten` replaces every `H` (`prefix.replace('H', 'D')`); `Corrected`
   * replaces the final `H` only, the files' own naming (`WHH`, `WHD`, `WHA`).
   */
  datatype Naming = AsWritten | Corrected

  function OddsColumns(prefix: string, naming: Naming): (string, string)
  {
    match naming
    case AsWritten => (ReplaceChar(prefix, 'H', 'D'), ReplaceChar(prefix, 'H', 'A'))
    case Corrected =>
      var stem := if prefix != [] && prefix[|prefix| - 1] == 'H' then prefix[..|prefix| - 1] else prefix;
      (stem + "D", stem + "A")
  }

  /**
   * One bookmaker's three prices in a row: all three columns present and not
   * NaN, each read by `float()` and each positive; None otherwise.
   */
  function PricesOf(row: Object, prefix: string, naming: Naming): Option<(real, real, real)>
  {
    var (dc, ac) := OddsColumns(prefix, naming);
    if prefix in row && dc in row && ac in row && !IsNa(row[prefix]) && !IsNa(row[dc]) && !IsNa(row[ac]) then
      var h, d, a := PyFloat(row[prefix]), PyFloat(row[dc]), PyFloat(row[ac]);
      if h.Some? && d.Some? && a.Some? && h.value > 0.0 && d.value > 0.0 && a.value > 0.0
      then Some((h.value, d.value, a.value))
      else None
    else None
  }

  /** The odds rows a row offers for match mid, one per bookmaker in order. */
  function OddsCandidates(row: Object, mid: int, naming: Naming): seq<Option<Price>>
  {
    seq(|ODDS_MAP|, i requires 0 <= i < |ODDS_MAP| =>
      match PricesOf(row, ODDS_MAP[i].0, naming)
      case None => None
      case Some((h, d, a)) => Some(Price(mid, ODDS_MAP[i].1, h, d, a, SOCCER_DATA_SOURCE)))
  }

  /** What the SELECT before an odds INSERT compares: match, bookmaker and the three prices, not the source. */
  function PriceKey(pr: Price): (int, string, real, real, real)
  {
    (pr.matchId, pr.bookmaker, pr.home, pr.draw, pr.away)
  }

  /** `str(row['Date'])` parsed as `%d/%m/%y` or `%d/%m/%Y` by the last field's width, `%Y-%m-%d`, or not at all. */
  function SoccerDataDay(dateText: string, p: Parser): Option<Stamp>
  {
    if '/' in dateText then p(dateText, if |LastField(dateText, '/')| == 2 then DayMonthYear2 else DayMonthYear4)
    else if '-' in dateText then p(dateText, YearMonthDay)
    else None
  }

  /** `strptime("12:00", '%H:%M')`. */
  const NOON: Stamp := DateTime(1900, 1, 1, 12, 0, 0, false)

  /** The `Time` cell (default "12:00") up to any `+`, stripped and parsed as `%H:%M`; noon where that raises. */
  function SoccerDataTime(row: Object, p: Parser): Stamp
  {
    match p(Strip(FirstField(CellStr(GetOr(row, "Time", JStr("12:00"))), '+')), HourMinute)
    case Some(t) => t
    case None => NOON
  }

  /** `datetime.combine(day.date(), time)`. */
  function Combine(day: Stamp, time: Stamp): Stamp
  {
    DateTime(day.year, day.month, day.day, time.hour, time.minute, time.second, false)
  }

  /** The parameters of one season file: its league id, country, season and file name. */
  datatype SeasonFile = SeasonFile(leagueId: int, country: string, season: string, fileName: string)

  /** The cells a soccer-data row is read from before its teams are resolved. */
  datatype SoccerDataCells = SoccerDataCells(dateText: string, kickoff: Stamp, home: string, away: string, homeScore: int, awayScore: int)

  /**
   * The five required columns present, the date parsed, the time combined,
   * the team names as `str()`, both scores numeric; None where the row is skipped.
   */
  function SoccerDataCellsOf(row: Object, p: Parser): Option<SoccerDataCells>
  {
    if !("Date" in row && "HomeTeam" in row && "AwayTeam" in row && "FTHG" in row && "FTAG" in row) then None
    else
      var dateText := CellStr(row["Date"]);
      match SoccerDataDay(dateText, p)
      case None => None
      case Some(day) =>
        var hs, aws := PyInt(row["FTHG"]), PyInt(row["FTAG"]);
        if hs.None? || aws.None? then None
        else Some(SoccerDataCells(dateText, Combine(day, SoccerDataTime(row, p)), CellStr(row["HomeTeam"]), CellStr(row["AwayTeam"]),
                                  hs.value, aws.value))
  }

  function SoccerDataKey(c: SoccerDataCells, homeId: int, awayId: int): ConflictKey
  {
    ConflictKey(c.kickoff.SqlText(), homeId, awayId, SOCCER_DATA_SOURCE)
  }

  /** The match row; the division is the `Div` cell, or the file name up to its first `_`. */
  function SoccerDataFixture(c: SoccerDataCells, row: Object, f: SeasonFile): Fixture
  {
    var div := CellStr(GetOr(row, "Div", JStr(FirstField(f.fileName, '_'))));
    Fixture(f.leagueId, FINISHED, Some(c.homeScore), Some(c.awayScore),
            SOCCER_DATA_SOURCE + "_" + div + "_" + f.season + "_" + c.dateText + "_" + c.home + "_vs_" + c.away)
  }

  /** One iteration of `import_soccer_data_csv`: the store afterwards, the match and the odds rows it added. */
  function SoccerDataRow(db: ImportDb, row: Object, f: SeasonFile, p: Parser, naming: Naming): (ImportDb, Tally)
  {
    match SoccerDataCellsOf(row, p)
    case None => (db, Tally(0, 0))
    case Some(c) =>
      var (db1, hid, aid) := ResolveTeams(db, Some(c.home), Some(f.country), Some(c.away), Some(f.country), Some(f.leagueId),
                                          Some(SOCCER_DATA_SOURCE));
      if Resolver.Falsy(hid) || Resolver.Falsy(aid) then (db1, Tally(0, 0))
      else SoccerDataMatch(db1, c, row, f, naming, hid.value, aid.value)
  }

  /** The match INSERT, then, with a match id, the bookmakers' odds. */
  function SoccerDataMatch(db: ImportDb, c: SoccerDataCells, row: Object, f: SeasonFile, naming: Naming, homeId: int, awayId: int): (ImportDb, Tally)
  {
    var (t, mid, added) := InsertMatchDoNothing(db.matches, SoccerDataKey(c, homeId, awayId), SoccerDataFixture(c, row, f));
    var db1 := db.(matches := t);
    var n := if added then 1 else 0;
    if mid == 0 then (db1, Tally(n, 0))
    else
      var (odds, m) := AddAbsent(db1.odds, OddsCandidates(row, mid, naming), PriceKey);
      (db1.(odds := odds), Tally(n, m))
  }

  function SoccerDataStep(f: SeasonFile, p: Parser, naming: Naming): (ImportDb, Object) -> (ImportDb, Tally)
  {
    (d, r) => SoccerDataRow(d, r, f, p, naming)
  }

  /** A row's own result is its step's result. */
  lemma SoccerDataStepIs(db: ImportDb, row: Object, f: SeasonFile, p: Parser, naming: Naming, db': ImportDb, t: Tally)
    requires (db', t) == SoccerDataRow(db, row, f, p, naming)
    ensures (db', t) == SoccerDataStep(f, p, naming)(db, row)
  {
  }

  /**
   * `import_soccer_data_csv`: the league is resolved once for the whole file
   * (a failure returns 0, 0), then every row is imported under it.
   */
  function SoccerDataFile(db: ImportDb, rows: seq<Object>, leagueName: string, country: string, season: string,
                          fileName: string, p: Parser, naming: Naming): (ImportDb, Tally)
  {
    var (db1, lid) := GetOrCreateLeague(db, Some(leagueName), Some(FOOTBALL), Some(country), Some(SOCCER_DATA_SOURCE), Clean);
    if Resolver.Falsy(lid) then (db1, Tally(0, 0))
    else Import(SoccerDataStep(SeasonFile(lid.value, country, season, fileName), p, naming), db1, rows)
  }

  lemma SoccerDataMatchGrows(db: ImportDb, c: SoccerDataCells, row: Object, f: SeasonFile, naming: Naming, homeId: int, awayId: int)
    ensures var (db', t) := SoccerDataMatch(db, c, row, f, naming, homeId, awayId);
            && Grows(db, db') && db'.matches.Size() == db.matches.Size() + t.main
            && |db'.odds| == |db.odds| + t.side && db'.stats == db.stats && db'.teams == db.teams
  {
    var k, fx := SoccerDataKey(c, homeId, awayId), SoccerDataFixture(c, row, f);
    InsertMatchDoNothingGrows(db, k, fx);
    var (t, mid, added) := InsertMatchDoNothing(db.matches, k, fx);
    var db1 := db.(matches := t);
    if mid != 0 {
      GrowsTransitive(db, db1, db1.(odds := AddAbsent(db1.odds, OddsCandidates(row, mid, naming), PriceKey).0));
    }
  }

  /** A row only adds rows, and counts exactly the match and the odds rows it added. */
  lemma SoccerDataRowGrows(db: ImportDb, row: Object, f: SeasonFile, p: Parser, naming: Naming)
    ensures var (db', t) := SoccerDataRow(db, row, f, p, naming);
            && Grows(db, db') && db'.matches.Size() == db.matches.Size() + t.main
            && |db'.odds| == |db.odds| + t.side && db'.stats == db.stats
  {
    match SoccerDataCellsOf(row, p)
    case None =>
    case Some(c) =>
      var cn, lid, src := Some(f.country), Some(f.leagueId), Some(SOCCER_DATA_SOURCE);
      var (db1, hid, aid) := ResolveTeams(db, Some(c.home), cn, Some(c.away), cn, lid, src);
      ResolveTeamsGrows(db, Some(c.home), cn, Some(c.away), cn, lid, src);
      if !Resolver.Falsy(hid) && !Resolver.Falsy(aid) {
        SoccerDataMatchGrows(db1, c, row, f, naming, hid.value, aid.value);
        GrowsTransitive(db, db1, SoccerDataMatch(db1, c, row, f, naming, hid.value, aid.value).0);
      }
  }

  /** A row keeps the store's ids valid. */
  lemma SoccerDataRowValid(db: ImportDb, row: Object, f: SeasonFile, p: Parser, naming: Naming)
    requires db.Valid()
    ensures SoccerDataRow(db, row, f, p, naming).0.Valid()
  {
    match SoccerDataCellsOf(row, p)
    case None =>
    case Some(c) =>
      var cn, lid, src := Some(f.country), Some(f.leagueId), Some(SOCCER_DATA_SOURCE);
      var (db1, hid, aid) := ResolveTeams(db, Some(c.home), cn, Some(c.away), cn, lid, src);
      ResolveTeamsValid(db, Some(c.home), cn, Some(c.away), cn, lid, src);
      if !Resolver.Falsy(hid) && !Resolver.Falsy(aid) {
        SoccerDataMatchValid(db1, c, row, f, naming, hid.value, aid.value);
        assert SoccerDataRow(db, row, f, p, naming) == SoccerDataMatch(db1, c, row, f, naming, hid.value, aid.value);
      } else {
        assert SoccerDataRow(db, row, f, p, naming) == (db1, Tally(0, 0));
      }
  }

  lemma SoccerDataMatchValid(db: ImportDb, c: SoccerDataCells, row: Object, f: SeasonFile, naming: Naming, homeId: int, awayId: int)
    requires db.Valid()
    ensures SoccerDataMatch(db, c, row, f, naming, homeId, awayId).0.Valid()
  {
    InsertMatchDoNothingSpec(db.matches, SoccerDataKey(c, homeId, awayId), SoccerDataFixture(c, row, f));
  }

  /**
   * After the odds loop for match mid: every bookmaker whose three prices the
   * row carries has an odds row with that match, bookmaker and those prices;
   * each row added is one the row offered; and no added row repeats the
   * (match, bookmaker, prices) of an earlier row.
   */
  ghost predicate OddsStored(before: seq<Price>, after: seq<Price>, row: Object, mid: int, naming: Naming)
  {
    && (forall j :: 0 <= j < |ODDS_MAP| && PricesOf(row, ODDS_MAP[j].0, naming).Some? ==>
          var (h, dr, a) := PricesOf(row, ODDS_MAP[j].0, naming).value;
          KeyPresent(after, PriceKey, Price(mid, ODDS_MAP[j].1, h, dr, a, SOCCER_DATA_SOURCE)))
    && (forall i :: |before| <= i < |after| ==> Some(after[i]) in OddsCandidates(row, mid, naming))
    && (forall i, j :: 0 <= j < i && |before| <= i < |after| ==> PriceKey(after[j]) != PriceKey(after[i]))
  }

  /** The odds loop stores what the row carries and nothing twice. */
  lemma OddsLoopStores(xs: seq<Price>, row: Object, mid: int, naming: Naming)
    ensures OddsStored(xs, AddAbsent(xs, OddsCandidates(row, mid, naming), PriceKey).0, row, mid, naming)
  {
    var cands := OddsCandidates(row, mid, naming);
    AddAbsentSpec(xs, cands, PriceKey);
    forall j | 0 <= j < |ODDS_MAP| && PricesOf(row, ODDS_MAP[j].0, naming).Some?
      ensures var (h, dr, a) := PricesOf(row, ODDS_MAP[j].0, naming).value;
              cands[j] == Some(Price(mid, ODDS_MAP[j].1, h, dr, a, SOCCER_DATA_SOURCE))
    {
    }
  }

  /** On a valid store the match is under its key afterwards, counted exactly when new, and the odds loop ran for its id. */
  lemma SoccerDataMatchStores(db: ImportDb, c: SoccerDataCells, row: Object, f: SeasonFile, naming: Naming, homeId: int, awayId: int)
    requires db.Valid()
    ensures var (db', t) := SoccerDataMatch(db, c, row, f, naming, homeId, awayId);
            var k := SoccerDataKey(c, homeId, awayId);
            && k in db'.matches.rows && db'.teams == db.teams
            && (t.main == 1 <==> k !in db.matches.rows)
            && (k !in db.matches.rows ==> db'.matches.rows[k].1 == SoccerDataFixture(c, row, f))
            && OddsStored(db.odds, db'.odds, row, db'.matches.rows[k].0, naming)
  {
    var k, fx := SoccerDataKey(c, homeId, awayId), SoccerDataFixture(c, row, f);
    InsertMatchDoNothingSpec(db.matches, k, fx);
    var (t, mid, added) := InsertMatchDoNothing(db.matches, k, fx);
    OddsLoopStores(db.odds, row, mid, naming);
  }

  /**
   * On a valid store, a readable row leaves both teams and a match under its
   * conflict key, counted exactly when the key was new and then holding the
   * row's FINISHED result; and the odds loop stored the row's prices for it.
   */
  lemma SoccerDataRowStores(db: ImportDb, row: Object, f: SeasonFile, p: Parser, naming: Naming)
    requires db.Valid()
    requires SoccerDataCellsOf(row, p).Some?
    ensures var c := SoccerDataCellsOf(row, p).value;
            var (db', t) := SoccerDataRow(db, row, f, p, naming);
            && c.home in db'.teams.rows && c.away in db'.teams.rows
            && var k := SoccerDataKey(c, db'.teams.rows[c.home].0, db'.teams.rows[c.away].0);
               && k in db'.matches.rows
               && (t.main == 1 <==> k !in db.matches.rows)
               && (k !in db.matches.rows ==> db'.matches.rows[k].1 == SoccerDataFixture(c, row, f))
               && OddsStored(db.odds, db'.odds, row, db'.matches.rows[k].0, naming)
  {
    var c := SoccerDataCellsOf(row, p).value;
    var cn, lid, src := Some(f.country), Some(f.leagueId), Some(SOCCER_DATA_SOURCE);
    var r := ResolveTeams(db, Some(c.home), cn, Some(c.away), cn, lid, src);
    ResolveTeamsClean(db, c.home, cn, c.away, cn, lid, src);
    SoccerDataRowResolved(db, row, f, p, naming);
    SoccerDataMatchAfterTeams(db, r.0, c, row, f, naming, r.1.value, r.2.value);
  }

  /** A readable row whose teams both resolve is the match step on the store the resolves left. */
  lemma SoccerDataRowResolved(db: ImportDb, row: Object, f: SeasonFile, p: Parser, naming: Naming)
    requires SoccerDataCellsOf(row, p).Some?
    ensures var c := SoccerDataCellsOf(row, p).value;
            var r := ResolveTeams(db, Some(c.home), Some(f.country), Some(c.away), Some(f.country), Some(f.leagueId), Some(SOCCER_DATA_SOURCE));
            !Resolver.Falsy(r.1) && !Resolver.Falsy(r.2) ==>
              SoccerDataRow(db, row, f, p, naming) == SoccerDataMatch(r.0, c, row, f, naming, r.1.value, r.2.value)
  {
  }

  /** The match step, run on the store the team resolves left, as seen from the store before them. */
  lemma SoccerDataMatchAfterTeams(db: ImportDb, db1: ImportDb, c: SoccerDataCells, row: Object, f: SeasonFile, naming: Naming,
                                  homeId: int, awayId: int)
    requires db1.Valid() && db1 == db.(teams := db1.teams)
    requires c.home in db1.teams.rows && c.away in db1.teams.rows
    requires homeId == db1.teams.rows[c.home].0 && awayId == db1.teams.rows[c.away].0
    ensures var (db', t) := SoccerDataMatch(db1, c, row, f, naming, homeId, awayId);
            && c.home in db'.teams.rows && c.away in db'.teams.rows
            && var k := SoccerDataKey(c, db'.teams.rows[c.home].0, db'.teams.rows[c.away].0);
               && k in db'.matches.rows
               && (t.main == 1 <==> k !in db.matches.rows)
               && (k !in db.matches.rows ==> db'.matches.rows[k].1 == SoccerDataFixture(c, row, f))
               && OddsStored(db.odds, db'.odds, row, db'.matches.rows[k].0, naming)
  {
    SoccerDataMatchStores(db1, c, row, f, naming, homeId, awayId);
  }

  /** Once a row is imported, importing it again on any store that kept those rows writes and counts nothing. */
  lemma SoccerDataRowSettles(db: ImportDb, row: Object, f: SeasonFile, p: Parser, naming: Naming, d: ImportDb)
    requires Grows(SoccerDataRow(db, row, f, p, naming).0, d)
    ensures SoccerDataRow(d, row, f, p, naming) == (d, Tally(0, 0))
  {
    match SoccerDataCellsOf(row, p)
    case None =>
    case Some(c) =>
      var cn, lid, src := Some(f.country), Some(f.leagueId), Some(SOCCER_DATA_SOURCE);
      var (db1, hid, aid) := ResolveTeams(db, Some(c.home), cn, Some(c.away), cn, lid, src);
      if !Resolver.Falsy(hid) && !Resolver.Falsy(aid) {
        SoccerDataMatchSettles(db1, c, row, f, naming, hid.value, aid.value, d);
        SoccerDataMatchGrows(db1, c, row, f, naming, hid.value, aid.value);
        GrowsTransitive(db1, SoccerDataMatch(db1, c, row, f, naming, hid.value, aid.value).0, d);
      }
      ResolveTeamsSettles(db, Some(c.home), cn, Some(c.away), cn, lid, src, d);
  }

  lemma SoccerDataMatchSettles(db: ImportDb, c: SoccerDataCells, row: Object, f: SeasonFile, naming: Naming, homeId: int, awayId: int, d: ImportDb)
    requires Grows(SoccerDataMatch(db, c, row, f, naming, homeId, awayId).0, d)
    ensures SoccerDataMatch(d, c, row, f, naming, homeId, awayId) == (d, Tally(0, 0))
  {
    var k, fx := SoccerDataKey(c, homeId, awayId), SoccerDataFixture(c, row, f);
    var (t, mid, added) := InsertMatchDoNothing(db.matches, k, fx);
    var db1 := db.(matches := t);
    if mid != 0 {
      var cands := OddsCandidates(row, mid, naming);
      AddAbsentSettles(db1.odds, cands, PriceKey, d.odds);
    }
    InsertMatchDoNothingSettles(db.matches, k, fx, d.matches, fx);
  }

  lemma SoccerDataAbsorbing(f: SeasonFile, p: Parser, naming: Naming)
    ensures QuietlyAbsorbing(SoccerDataStep(f, p, naming))
  {
    forall db: ImportDb, r: Object
      ensures Grows(db, SoccerDataStep(f, p, naming)(db, r).0)
      ensures SettledQuietly(SoccerDataStep(f, p, naming), SoccerDataStep(f, p, naming)(db, r).0, r)
    {
      SoccerDataRowGrows(db, r, f, p, naming);
      forall d | Grows(SoccerDataRow(db, r, f, p, naming).0, d) ensures SoccerDataStep(f, p, naming)(d, r) == (d, Tally(0, 0)) {
        SoccerDataRowSettles(db, r, f, p, naming, d);
      }
    }
  }

  /**
   * A season file import only adds rows, keeps the store valid, returns the
   * numbers of matches and odds rows it added, and importing the same file
   * again writes nothing and returns 0, 0.
   */
  lemma SoccerDataReimport(db: ImportDb, rows: seq<Object>, leagueName: string, country: string, season: string,
                           fileName: string, p: Parser, naming: Naming)
    ensures var (db1, t) := SoccerDataFile(db, rows, leagueName, country, season, fileName, p, naming);
            && Grows(db, db1)
            && db1.matches.Size() == db.matches.Size() + t.main && |db1.odds| == |db.odds| + t.side
            && (db.Valid() ==> db1.Valid())
            && SoccerDataFile(db1, rows, leagueName, country, season, fileName, p, naming) == (db1, Tally(0, 0))
  {
    var src := Some(SOCCER_DATA_SOURCE);
    var (dbL, lid) := GetOrCreateLeague(db, Some(leagueName), Some(FOOTBALL), Some(country), src, Clean);
    GetOrCreateLeagueGrows(db, Some(leagueName), Some(FOOTBALL), Some(country), src, Clean);
    if db.Valid() {
      GetOrCreateLeagueSpec(db, Some(leagueName), Some(FOOTBALL), Some(country), src, Clean);
    }
    if Resolver.Falsy(lid) {
      GetOrCreateLeagueSettles(db, Some(leagueName), Some(FOOTBALL), Some(country), src, dbL, Some(country), src, Clean);
    } else {
      var sf := SeasonFile(lid.value, country, season, fileName);
      SoccerDataImportFacts(dbL, rows, sf, p, naming);
      var db1 := Import(SoccerDataStep(sf, p, naming), dbL, rows).0;
      GrowsTransitive(db, dbL, db1);
      GetOrCreateLeagueSettles(db, Some(leagueName), Some(FOOTBALL), Some(country), src, db1, Some(country), src, Clean);
    }
  }

  /** The row-level facts carried over a season file's rows. */
  lemma SoccerDataImportFacts(db: ImportDb, rows: seq<Object>, f: SeasonFile, p: Parser, naming: Naming)
    ensures var (db1, t) := Import(SoccerDataStep(f, p, naming), db, rows);
            && Grows(db, db1)
            && db1.matches.Size() == db.matches.Size() + t.main && |db1.odds| == |db.odds| + t.side
            && (db.Valid() ==> db1.Valid())
            && Import(SoccerDataStep(f, p, naming), db1, rows) == (db1, Tally(0, 0))
  {
    var step := SoccerDataStep(f, p, naming);
    SoccerDataAbsorbing(f, p, naming);
    ReimportAddsNothing(step, db, rows);
    forall d: ImportDb, r: Object
      ensures step(d, r).0.matches.Size() == d.matches.Size() + step(d, r).1.main
      ensures |step(d, r).0.odds| == |d.odds| + step(d, r).1.side
    {
      SoccerDataRowGrows(d, r, f, p, naming);
    }
    ImportCountsRows(step, (d: ImportDb) => |d.odds|, db, rows);
    if db.Valid() {
      forall d: ImportDb, r: Object | d.Valid() ensures step(d, r).0.Valid() {
        SoccerDataRowValid(d, r, f, p, naming);
      }
      ImportValid(step, db, rows);
    }
  }

  /** As written, the William Hill home column `WHH` is paired with `WDD` and `WAA`; the files name them `WHD` and `WHA`. */
  lemma WilliamHillColumns()
    ensures OddsColumns("WHH", AsWritten) == ("WDD", "WAA")
    ensures OddsColumns("WHH", Corrected) == ("WHD", "WHA")
  {
    assert ReplaceChar("WHH", 'H', 'D') == "WDD";
    assert ReplaceChar("WHH", 'H', 'A') == "WAA";
    assert "WHH"[..2] == "WH";
    assert "WH" + "D" == "WHD" && "WH" + "A" == "WHA";
  }

  /** A row carrying William Hill prices 2.5, 3.2 and 2.8 in the files' columns. */
  const WILLIAM_HILL_ROW: Object := map["WHH" := JReal(2.5), "WHD" := JReal(3.2), "WHA" := JReal(2.8)]

  /** On that row the code as written finds no William Hill prices; the corrected naming finds all three. */
  lemma WilliamHillPricesLost()
    ensures PricesOf(WILLIAM_HILL_ROW, "WHH", AsWritten).None?
    ensures PricesOf(WILLIAM_HILL_ROW, "WHH", Corrected) == Some((2.5, 3.2, 2.8))
    ensures OddsCandidates(WILLIAM_HILL_ROW, 7, AsWritten)[12].None?
    ensures OddsCandidates(WILLIAM_HILL_ROW, 7, Corrected)[12] == Some(Price(7, "William Hill", 2.5, 3.2, 2.8, SOCCER_DATA_SOURCE))
  {
    WilliamHillColumns();
    assert "WDD" !in WILLIAM_HILL_ROW;
  }

  /** The corrected naming reads the draw and away prices of any home column `<stem>H` from `<stem>D` and `<stem>A`. */
  lemma CorrectedColumnsFollowNaming(stem: string)
    ensures OddsColumns(stem + "H", Corrected) == (stem + "D", stem + "A")
  {
    assert (stem + "H")[..|stem|] == stem;
  }

  /** Of the fifteen bookmakers, William Hill is the only one whose columns the two namings disagree on. */
  lemma OnlyWilliamHillMisread()
    ensures forall j :: 0 <= j < |ODDS_MAP| ==>
              (OddsColumns(ODDS_MAP[j].0, AsWritten) != OddsColumns(ODDS_MAP[j].0, Corrected) <==> ODDS_MAP[j].0 == "WHH")
  {
    WilliamHillColumns();
    forall j | 0 <= j < |ODDS_MAP| && ODDS_MAP[j].0 != "WHH"
      ensures OddsColumns(ODDS_MAP[j].0, AsWritten) == OddsColumns(ODDS_MAP[j].0, Corrected)
    {
      var prefix := ODDS_MAP[j].0;
      var stem := prefix[..|prefix| - 1];
      NonWilliamHillStem(j);
      ReplaceLastOnly(stem, 'D');
      ReplaceLastOnly(stem, 'A');
    }
  }

  /** Every home column but William Hill's is a stem without H followed by one H. */
  lemma NonWilliamHillStem(j: int)
    requires 0 <= j < |ODDS_MAP| && ODDS_MAP[j].0 != "WHH"
    ensures var prefix := ODDS_MAP[j].0;
            |prefix| >= 1 && prefix == prefix[..|prefix| - 1] + "H" && 'H' !in prefix[..|prefix| - 1]
  {
    var prefix := ODDS_MAP[j].0;
    if j < 7 {
      assert prefix in ["B365H", "BSH", "BWH", "GBH", "IWH", "LBH", "PSH"];
    } else {
      assert prefix in ["SOH", "SBH", "SJH", "SYH", "VCH", "MaxH", "AvgH"];
    }
  }

  /** Replacing every H of `<stem>H`, where stem has none, replaces the last one only. */
  lemma ReplaceLastOnly(stem: string, b: char)
    requires 'H' !in stem
    ensures ReplaceChar(stem + "H", 'H', b) == stem + [b]
  {
  }

  /** One soccer-data row on the connection, with the column naming as written. */
  method SoccerDataRowOn(conn: ImportConnection, row: Object, f: SeasonFile, p: Parser) returns (t: Tally)
    modifies conn
    ensures (conn.Snapshot(), t) == SoccerDataRow(old(conn.Snapshot()), row, f, p, AsWritten)
  {
    var cells := SoccerDataCellsOf(row, p);
    if cells.None? {
      return Tally(0, 0);
    }
    var c := cells.value;
    var hid, aid := ResolveTeamsRow(conn, Some(c.home), Some(f.country), Some(c.away), Some(f.country), Some(f.leagueId),
                                    Some(SOCCER_DATA_SOURCE));
    if Resolver.Falsy(hid) || Resolver.Falsy(aid) {
      return Tally(0, 0);
    }
    t := SoccerDataMatchOn(conn, c, row, f, hid.value, aid.value);
  }

  method SoccerDataMatchOn(conn: ImportConnection, c: SoccerDataCells, row: Object, f: SeasonFile, homeId: int, awayId: int) returns (t: Tally)
    modifies conn
    ensures (conn.Snapshot(), t) == SoccerDataMatch(old(conn.Snapshot()), c, row, f, AsWritten, homeId, awayId)
  {
    var mid, added := InsertMatchDoNothingRow(conn, SoccerDataKey(c, homeId, awayId), SoccerDataFixture(c, row, f));
    var n := if added then 1 else 0;
    if mid == 0 {
      return Tally(n, 0);
    }
    var odds, m := AddAbsentRows(conn.odds, OddsCandidates(row, mid, AsWritten), PriceKey);
    conn.odds := odds;
    t := Tally(n, m);
  }

  /**
   * `import_soccer_data_csv`; `file` is the file's rows, None where the file
   * is missing or `read_csv` raises, which returns `0, 0` before the league
   * is resolved. Returns `matches_added, odds_added`.
   */
  method ImportSoccerData(conn: ImportConnection, file: Option<seq<Object>>, leagueName: string, country: string, season: string,
                          fileName: string, p: Parser) returns (matchesAdded: nat, oddsAdded: nat)
    modifies conn
    ensures file.None? ==> conn.Snapshot() == old(conn.Snapshot()) && matchesAdded == 0 && oddsAdded == 0
    ensures file.Some? ==> (conn.Snapshot(), Tally(matchesAdded, oddsAdded)) ==
                           SoccerDataFile(old(conn.Snapshot()), file.value, leagueName, country, season, fileName, p, AsWritten)
  {
    if file.None? {
      return 0, 0;
    }
    var rows := file.value;
    var lid := GetOrCreateLeagueRow(conn, Some(leagueName), Some(FOOTBALL), Some(country), Some(SOCCER_DATA_SOURCE), Clean);
    if Resolver.Falsy(lid) {
      return 0, 0;
    }
    matchesAdded, oddsAdded := ImportSeasonRows(conn, rows, SeasonFile(lid.value, country, season, fileName), p);
  }

  /** The loop over a season file's rows under its resolved league. */
  method ImportSeasonRows(conn: ImportConnection, rows: seq<Object>, f: SeasonFile, p: Parser) returns (matchesAdded: nat, oddsAdded: nat)
    modifies conn
    ensures (conn.Snapshot(), Tally(matchesAdded, oddsAdded)) == Import(SoccerDataStep(f, p, AsWritten), old(conn.Snapshot()), rows)
  {
    ghost var db0 := conn.Snapshot();
    matchesAdded, oddsAdded := 0, 0;
    for i := 0 to |rows|
      invariant (conn.Snapshot(), Tally(matchesAdded, oddsAdded)) == Import(SoccerDataStep(f, p, AsWritten), db0, rows[..i])
    {
      ghost var before, t0 := conn.Snapshot(), Tally(matchesAdded, oddsAdded);
      var t := SoccerDataRowOn(conn, rows[i], f, p);
      SoccerDataStepIs(before, rows[i], f, p, AsWritten, conn.Snapshot(), t);
      ImportExtend(SoccerDataStep(f, p, AsWritten), db0, rows, i, before, t0, conn.Snapshot(), t);
      matchesAdded, oddsAdded := matchesAdded + t.main, oddsAdded + t.side;
      assert Tally(matchesAdded, oddsAdded) == t0.Plus(t);
    }
    assert rows[..|rows|] == rows;
  }

  // ------------------------------------------------------ FiveThirtyEight

  const FTE_SOURCE: string := "FiveThirtyEight/soccer-spi"

  /** `infer_country`: England for names containing "Premier League" or "FA Cup", Germany for "Bundesliga". */
  function InferCountry(name: string): Option<string>
  {
    if Contains(name, "Premier League") || Contains(name, "FA Cup") then Some("England")
    else if Contains(name, "Bundesliga") then Some("Germany")
    else None
  }

  /** The stats a row may carry: stat type, home column, away column. */
  const FTE_STATS: seq<(string, string, string)> := [
    ("expected_goals", "xg1", "xg2"),
    ("non_shot_expected_goals", "nsxg1", "nsxg2"),
    ("adjusted_score", "adj_score1", "adj_score2")]

  /** The stats rows a row offers for match mid: both cells present, not NaN and `float()`-able. */
  function StatCandidates(row: Object, mid: int): seq<Option<StatPair>>
  {
    seq(|FTE_STATS|, i requires 0 <= i < |FTE_STATS| =>
      var (kind, hc, ac) := FTE_STATS[i];
      var h, a := Get(row, hc), Get(row, ac);
      if !IsNa(h) && !IsNa(a) && PyFloat(h).Some? && PyFloat(a).Some?
      then Some(StatPair(mid, kind, PyFloat(h).value, PyFloat(a).value, FTE_SOURCE))
      else None)
  }

  /** What the SELECT before a stats INSERT compares: match, stat type and source. */
  function StatKey(s: StatPair): (int, string, string)
  {
    (s.matchId, s.statType, s.source)
  }

  /** The cells read before the league is resolved: the date, parsed as `%Y-%m-%d`, and `str()` of the league. */
  function FteHead(row: Object, p: Parser): Option<(string, Stamp, string)>
  {
    if "date" in row && row["date"].JStr? && p(row["date"].s, YearMonthDay).Some? && "league" in row
    then Some((row["date"].s, p(row["date"].s, YearMonthDay).value, CellStr(row["league"])))
    else None
  }

  function FteKey(day: Stamp, homeId: int, awayId: int): ConflictKey
  {
    ConflictKey(day.SqlText(), homeId, awayId, FTE_SOURCE)
  }

  function FteFixture(dateText: string, league: string, leagueId: int, home: string, away: string, s: Scoreline): Fixture
  {
    Fixture(leagueId, s.status, s.homeScore, s.awayScore, FTE_SOURCE + "_" + dateText + "_" + league + "_" + home + "_vs_" + away)
  }

  /** The columns of one FiveThirtyEight match row once its league and teams are known. */
  datatype FteMatchRow = FteMatchRow(dateText: string, day: Stamp, league: string, leagueId: int, home: string, away: string)

  /**
   * One iteration of `import_fivethirtyeight_spi_matches`: the store
   * afterwards, the match and the stats rows it added. The league is written
   * before the team cells are read, and the teams before the scores are.
   */
  function FteRow(db: ImportDb, row: Object, p: Parser): (ImportDb, Tally)
  {
    match FteHead(row, p)
    case None => (db, Tally(0, 0))
    case Some((dateText, day, league)) =>
      var country, src := InferCountry(league), Some(FTE_SOURCE);
      var (db1, lid) := GetOrCreateLeague(db, Some(league), Some(FOOTBALL), country, src, Clean);
      if Resolver.Falsy(lid) || "team1" !in row || "team2" !in row then (db1, Tally(0, 0))
      else
        var home, away := CellStr(row["team1"]), CellStr(row["team2"]);
        var (db2, hid, aid) := ResolveTeams(db1, Some(home), country, Some(away), country, lid, src);
        if Resolver.Falsy(hid) || Resolver.Falsy(aid) then (db2, Tally(0, 0))
        else FteMatch(db2, row, FteMatchRow(dateText, day, league, lid.value, home, away), hid.value, aid.value)
  }

  /** The scores, the match INSERT, then, with a match id, the stats. */
  function FteMatch(db: ImportDb, row: Object, m: FteMatchRow, homeId: int, awayId: int): (ImportDb, Tally)
  {
    match CellScores(Get(row, "score1"), Get(row, "score2"), SCHEDULED)
    case None => (db, Tally(0, 0))
    case Some(s) =>
      var (t, mid, added) := InsertMatchDoNothing(db.matches, FteKey(m.day, homeId, awayId),
                                                  FteFixture(m.dateText, m.league, m.leagueId, m.home, m.away, s));
      var db1 := db.(matches := t);
      var n := if added then 1 else 0;
      if mid == 0 then (db1, Tally(n, 0))
      else
        var (stats, k) := AddAbsent(db1.stats, StatCandidates(row, mid), StatKey);
        (db1.(stats := stats), Tally(n, k))
  }

  function FteStep(p: Parser): (ImportDb, Object) -> (ImportDb, Tally)
  {
    (d, r) => FteRow(d, r, p)
  }

  /** A row's own result is its step's result. */
  lemma FteStepIs(db: ImportDb, row: Object, p: Parser, db': ImportDb, t: Tally)
    requires (db', t) == FteRow(db, row, p)
    ensures (db', t) == FteStep(p)(db, row)
  {
  }

  lemma FteMatchGrows(db: ImportDb, row: Object, m: FteMatchRow, homeId: int, awayId: int)
    ensures var (db', t) := FteMatch(db, row, m, homeId, awayId);
            && Grows(db, db') && db'.matches.Size() == db.matches.Size() + t.main
            && |db'.stats| == |db.stats| + t.side && db'.odds == db.odds && db'.teams == db.teams
  {
    var sc := CellScores(Get(row, "score1"), Get(row, "score2"), SCHEDULED);
    if sc.Some? {
      var k, fx := FteKey(m.day, homeId, awayId), FteFixture(m.dateText, m.league, m.leagueId, m.home, m.away, sc.value);
      InsertMatchDoNothingGrows(db, k, fx);
      var (t, mid, added) := InsertMatchDoNothing(db.matches, k, fx);
      var db1 := db.(matches := t);
      if mid != 0 {
        GrowsTransitive(db, db1, db1.(stats := AddAbsent(db1.stats, StatCandidates(row, mid), StatKey).0));
      }
    }
  }

  /** A row only adds rows, and counts exactly the match and the stats rows it added. */
  lemma FteRowGrows(db: ImportDb, row: Object, p: Parser)
    ensures var (db', t) := FteRow(db, row, p);
            && Grows(db, db') && db'.matches.Size() == db.matches.Size() + t.main
            && |db'.stats| == |db.stats| + t.side && db'.odds == db.odds
  {
    match FteHead(row, p)
    case None =>
    case Some((dateText, day, league)) =>
      var country, src := InferCountry(league), Some(FTE_SOURCE);
      var (db1, lid) := GetOrCreateLeague(db, Some(league), Some(FOOTBALL), country, src, Clean);
      GetOrCreateLeagueGrows(db, Some(league), Some(FOOTBALL), country, src, Clean);
      if !(Resolver.Falsy(lid) || "team1" !in row || "team2" !in row) {
        var home, away := CellStr(row["team1"]), CellStr(row["team2"]);
        var (db2, hid, aid) := ResolveTeams(db1, Some(home), country, Some(away), country, lid, src);
        ResolveTeamsGrows(db1, Some(home), country, Some(away), country, lid, src);
        GrowsTransitive(db, db1, db2);
        if !Resolver.Falsy(hid) && !Resolver.Falsy(aid) {
          var m := FteMatchRow(dateText, day, league, lid.value, home, away);
          FteMatchGrows(db2, row, m, hid.value, aid.value);
          GrowsTransitive(db, db2, FteMatch(db2, row, m, hid.value, aid.value).0);
        }
      }
  }

  /** A row keeps the store's ids valid. */
  lemma FteRowValid(db: ImportDb, row: Object, p: Parser)
    requires db.Valid()
    ensures FteRow(db, row, p).0.Valid()
  {
    match FteHead(row, p)
    case None =>
    case Some((dateText, day, league)) =>
      var country, src := InferCountry(league), Some(FTE_SOURCE);
      var (db1, lid) := GetOrCreateLeague(db, Some(league), Some(FOOTBALL), country, src, Clean);
      GetOrCreateLeagueClean(db, league, FOOTBALL, country, src);
      if !(Resolver.Falsy(lid) || "team1" !in row || "team2" !in row) {
        var home, away := CellStr(row["team1"]), CellStr(row["team2"]);
        var (db2, hid, aid) := ResolveTeams(db1, Some(home), country, Some(away), country, lid, src);
        ResolveTeamsValid(db1, Some(home), country, Some(away), country, lid, src);
        if !Resolver.Falsy(hid) && !Resolver.Falsy(aid) {
          FteMatchValid(db2, row, FteMatchRow(dateText, day, league, lid.value, home, away), hid.value, aid.value);
        }
      }
  }

  lemma FteMatchValid(db: ImportDb, row: Object, m: FteMatchRow, homeId: int, awayId: int)
    requires db.Valid()
    ensures FteMatch(db, row, m, homeId, awayId).0.Valid()
  {
    var sc := CellScores(Get(row, "score1"), Get(row, "score2"), SCHEDULED);
    if sc.Some? {
      InsertMatchDoNothingSpec(db.matches, FteKey(m.day, homeId, awayId), FteFixture(m.dateText, m.league, m.leagueId, m.home, m.away, sc.value));
    }
  }

  /**
   * After the stats loop for match mid: every stat the row carries has a row
   * with that match, type and source, and no row added repeats the
   * (match, type, source) of an earlier one.
   */
  ghost predicate StatsStored(before: seq<StatPair>, after: seq<StatPair>, row: Object, mid: int)
  {
    && (forall j :: 0 <= j < |FTE_STATS| && StatCandidates(row, mid)[j].Some? ==>
          KeyPresent(after, StatKey, StatCandidates(row, mid)[j].value))
    && (forall i, j :: 0 <= j < i && |before| <= i < |after| ==> StatKey(after[j]) != StatKey(after[i]))
  }

  /**
   * On a valid store, with readable scores, the match is under its key
   * afterwards, counted exactly when new; a new match is SCHEDULED without
   * scores when either score cell is NaN, else FINISHED with `int()` of
   * both; and the stats loop ran for its id.
   */
  lemma FteMatchStores(db: ImportDb, row: Object, m: FteMatchRow, homeId: int, awayId: int)
    requires db.Valid()
    requires CellScores(Get(row, "score1"), Get(row, "score2"), SCHEDULED).Some?
    ensures var s := CellScores(Get(row, "score1"), Get(row, "score2"), SCHEDULED).value;
            var (db', t) := FteMatch(db, row, m, homeId, awayId);
            var k := FteKey(m.day, homeId, awayId);
            && k in db'.matches.rows && db'.teams == db.teams && db'.leagues == db.leagues
            && (t.main == 1 <==> k !in db.matches.rows)
            && (k !in db.matches.rows ==> db'.matches.rows[k].1 == FteFixture(m.dateText, m.league, m.leagueId, m.home, m.away, s))
            && (IsNa(Get(row, "score1")) || IsNa(Get(row, "score2")) ==> s == Unplayed(SCHEDULED))
            && (!IsNa(Get(row, "score1")) && !IsNa(Get(row, "score2")) ==>
                  s.status == FINISHED && s.homeScore == PyInt(Get(row, "score1")) && s.awayScore == PyInt(Get(row, "score2")))
            && StatsStored(db.stats, db'.stats, row, db'.matches.rows[k].0)
  {
    var h, a := Get(row, "score1"), Get(row, "score2");
    var s := CellScores(h, a, SCHEDULED).value;
    if !IsNa(h) && !IsNa(a) {
      assert s == Played(PyInt(h).value, PyInt(a).value);
    }
    var k, fx := FteKey(m.day, homeId, awayId), FteFixture(m.dateText, m.league, m.leagueId, m.home, m.away, s);
    InsertMatchDoNothingSpec(db.matches, k, fx);
    var (t, mid, added) := InsertMatchDoNothing(db.matches, k, fx);
    FteMatchInserts(db, row, m, homeId, awayId, s);
    var (stats, n) := AddAbsent(db.stats, StatCandidates(row, mid), StatKey);
    AddAbsentSpec(db.stats, StatCandidates(row, mid), StatKey);
    assert StatsStored(db.stats, stats, row, t.rows[k].0);
  }

  /** With readable scores and a valid match table, FteMatch is the INSERT and then the stats loop for its id. */
  lemma FteMatchInserts(db: ImportDb, row: Object, m: FteMatchRow, homeId: int, awayId: int, s: Scoreline)
    requires db.matches.Valid()
    requires CellScores(Get(row, "score1"), Get(row, "score2"), SCHEDULED) == Some(s)
    ensures var (t, mid, added) := InsertMatchDoNothing(db.matches, FteKey(m.day, homeId, awayId),
                                                        FteFixture(m.dateText, m.league, m.leagueId, m.home, m.away, s));
            var (stats, n) := AddAbsent(db.stats, StatCandidates(row, mid), StatKey);
            FteMatch(db, row, m, homeId, awayId) == (db.(matches := t, stats := stats), Tally(if added then 1 else 0, n))
  {
    InsertMatchDoNothingSpec(db.matches, FteKey(m.day, homeId, awayId), FteFixture(m.dateText, m.league, m.leagueId, m.home, m.away, s));
  }

  /**
   * On a valid store, a row with a date, a league, both team columns and
   * readable scores leaves its league, both teams and the match of
   * `FteMatchStores` under (kickoff, home id, away id, source).
   */
  lemma FteRowStores(db: ImportDb, row: Object, p: Parser)
    requires db.Valid()
    requires FteHead(row, p).Some? && "team1" in row && "team2" in row
    requires CellScores(Get(row, "score1"), Get(row, "score2"), SCHEDULED).Some?
    ensures var (dateText, day, league) := FteHead(row, p).value;
            var home, away := CellStr(row["team1"]), CellStr(row["team2"]);
            var s := CellScores(Get(row, "score1"), Get(row, "score2"), SCHEDULED).value;
            var (db', t) := FteRow(db, row, p);
            var lk := Store.Key(league, FOOTBALL);
            && lk in db'.leagues.rows && home in db'.teams.rows && away in db'.teams.rows
            && var k := FteKey(day, db'.teams.rows[home].0, db'.teams.rows[away].0);
               && k in db'.matches.rows
               && (t.main == 1 <==> k !in db.matches.rows)
               && (k !in db.matches.rows ==> db'.matches.rows[k].1 == FteFixture(dateText, league, db'.leagues.rows[lk].0, home, away, s))
               && StatsStored(db.stats, db'.stats, row, db'.matches.rows[k].0)
  {
    var (dateText, day, league) := FteHead(row, p).value;
    var country, src := InferCountry(league), Some(FTE_SOURCE);
    var (db1, lid) := GetOrCreateLeague(db, Some(league), Some(FOOTBALL), country, src, Clean);
    GetOrCreateLeagueClean(db, league, FOOTBALL, country, src);
    var home, away := CellStr(row["team1"]), CellStr(row["team2"]);
    var (db2, hid, aid) := ResolveTeams(db1, Some(home), country, Some(away), country, lid, src);
    ResolveTeamsClean(db1, home, country, away, country, lid, src);
    var m := FteMatchRow(dateText, day, league, lid.value, home, away);
    FteMatchStores(db2, row, m, hid.value, aid.value);
    FteRowResolved(db, row, p, dateText, day, league, db1, lid, db2, hid, aid);
    var (db', t) := FteMatch(db2, row, m, hid.value, aid.value);
    var lk := Store.Key(league, FOOTBALL);
    assert db'.leagues == db1.leagues && db'.teams == db2.teams && db2.matches == db.matches && db2.stats == db.stats;
    assert db'.leagues.rows[lk].0 == lid.value;
    assert db'.teams.rows[home].0 == hid.value && db'.teams.rows[away].0 == aid.value;
  }

  /** A row whose league and both teams resolve is its match INSERT on the resolved store. */
  lemma FteRowResolved(db: ImportDb, row: Object, p: Parser, dateText: string, day: Stamp, league: string,
                       db1: ImportDb, lid: Option<int>, db2: ImportDb, hid: Option<int>, aid: Option<int>)
    requires FteHead(row, p) == Some((dateText, day, league)) && "team1" in row && "team2" in row
    requires (db1, lid) == GetOrCreateLeague(db, Some(league), Some(FOOTBALL), InferCountry(league), Some(FTE_SOURCE), Clean)
    requires (db2, hid, aid) == ResolveTeams(db1, Some(CellStr(row["team1"])), InferCountry(league), Some(CellStr(row["team2"])),
                                             InferCountry(league), lid, Some(FTE_SOURCE))
    requires !Resolver.Falsy(lid) && !Resolver.Falsy(hid) && !Resolver.Falsy(aid)
    ensures FteRow(db, row, p) ==
            FteMatch(db2, row, FteMatchRow(dateText, day, league, lid.value, CellStr(row["team1"]), CellStr(row["team2"])), hid.value, aid.value)
  {
  }

  lemma FteMatchSettles(db: ImportDb, row: Object, m: FteMatchRow, homeId: int, awayId: int, d: ImportDb)
    requires Grows(FteMatch(db, row, m, homeId, awayId).0, d)
    ensures FteMatch(d, row, m, homeId, awayId) == (d, Tally(0, 0))
  {
    var sc := CellScores(Get(row, "score1"), Get(row, "score2"), SCHEDULED);
    if sc.Some? {
      var k, fx := FteKey(m.day, homeId, awayId), FteFixture(m.dateText, m.league, m.leagueId, m.home, m.away, sc.value);
      var (t, mid, added) := InsertMatchDoNothing(db.matches, k, fx);
      var db1 := db.(matches := t);
      if mid != 0 {
        AddAbsentSettles(db1.stats, StatCandidates(row, mid), StatKey, d.stats);
      }
      InsertMatchDoNothingSettles(db.matches, k, fx, d.matches, fx);
    }
  }

  /** Once a row is imported, importing it again on any store that kept those rows writes and counts nothing. */
  lemma FteRowSettles(db: ImportDb, row: Object, p: Parser, d: ImportDb)
    requires Grows(FteRow(db, row, p).0, d)
    ensures FteRow(d, row, p) == (d, Tally(0, 0))
  {
    match FteHead(row, p)
    case None =>
    case Some((dateText, day, league)) =>
      var country, src := InferCountry(league), Some(FTE_SOURCE);
      var (db1, lid) := GetOrCreateLeague(db, Some(league), Some(FOOTBALL), country, src, Clean);
      if !(Resolver.Falsy(lid) || "team1" !in row || "team2" !in row) {
        var home, away := CellStr(row["team1"]), CellStr(row["team2"]);
        var (db2, hid, aid) := ResolveTeams(db1, Some(home), country, Some(away), country, lid, src);
        ResolveTeamsGrows(db1, Some(home), country, Some(away), country, lid, src);
        if !Resolver.Falsy(hid) && !Resolver.Falsy(aid) {
          var m := FteMatchRow(dateText, day, league, lid.value, home, away);
          FteMatchGrows(db2, row, m, hid.value, aid.value);
          FteMatchSettles(db2, row, m, hid.value, aid.value, d);
          GrowsTransitive(db2, FteMatch(db2, row, m, hid.value, aid.value).0, d);
        }
        GrowsTransitive(db1, db2, d);
        ResolveTeamsSettles(db1, Some(home), country, Some(away), country, lid, src, d);
      }
      GetOrCreateLeagueSettles(db, Some(league), Some(FOOTBALL), country, src, d, country, src, Clean);
  }

  lemma FteAbsorbing(p: Parser)
    ensures QuietlyAbsorbing(FteStep(p))
  {
    forall db: ImportDb, r: Object
      ensures Grows(db, FteStep(p)(db, r).0) && SettledQuietly(FteStep(p), FteStep(p)(db, r).0, r)
    {
      FteRowGrows(db, r, p);
      forall d | Grows(FteRow(db, r, p).0, d) ensures FteStep(p)(d, r) == (d, Tally(0, 0)) {
        FteRowSettles(db, r, p, d);
      }
    }
  }

  /**
   * A FiveThirtyEight file import only adds rows, keeps the store valid,
   * returns the numbers of matches and stats rows it added, and importing
   * the same file again writes nothing and returns 0, 0.
   */
  lemma FteReimport(db: ImportDb, rows: seq<Object>, p: Parser)
    ensures var (db1, t) := Import(FteStep(p), db, rows);
            && Grows(db, db1)
            && db1.matches.Size() == db.matches.Size() + t.main && |db1.stats| == |db.stats| + t.side
            && (db.Valid() ==> db1.Valid())
            && Import(FteStep(p), db1, rows) == (db1, Tally(0, 0))
  {
    FteAbsorbing(p);
    ReimportAddsNothing(FteStep(p), db, rows);
    forall d: ImportDb, r: Object
      ensures FteStep(p)(d, r).0.matches.Size() == d.matches.Size() + FteStep(p)(d, r).1.main
      ensures |FteStep(p)(d, r).0.stats| == |d.stats| + FteStep(p)(d, r).1.side
    {
      FteRowGrows(d, r, p);
    }
    ImportCountsRows(FteStep(p), (d: ImportDb) => |d.stats|, db, rows);
    if db.Valid() {
      forall d: ImportDb, r: Object | d.Valid() ensures FteStep(p)(d, r).0.Valid() {
        FteRowValid(d, r, p);
      }
      ImportValid(FteStep(p), db, rows);
    }
  }

  /** One FiveThirtyEight row on the connection. */
  method FteRowOn(conn: ImportConnection, row: Object, p: Parser) returns (t: Tally)
    modifies conn
    ensures (conn.Snapshot(), t) == FteRow(old(conn.Snapshot()), row, p)
  {
    var head := FteHead(row, p);
    if head.None? {
      return Tally(0, 0);
    }
    var (dateText, day, league) := head.value;
    var country, src := InferCountry(league), Some(FTE_SOURCE);
    var lid := GetOrCreateLeagueRow(conn, Some(league), Some(FOOTBALL), country, src, Clean);
    if Resolver.Falsy(lid) || "team1" !in row || "team2" !in row {
      return Tally(0, 0);
    }
    var home, away := CellStr(row["team1"]), CellStr(row["team2"]);
    var hid, aid := ResolveTeamsRow(conn, Some(home), country, Some(away), country, lid, src);
    if Resolver.Falsy(hid) || Resolver.Falsy(aid) {
      return Tally(0, 0);
    }
    t := FteMatchOn(conn, row, FteMatchRow(dateText, day, league, lid.value, home, away), hid.value, aid.value);
  }

  method FteMatchOn(conn: ImportConnection, row: Object, m: FteMatchRow, homeId: int, awayId: int) returns (t: Tally)
    modifies conn
    ensures (conn.Snapshot(), t) == FteMatch(old(conn.Snapshot()), row, m, homeId, awayId)
  {
    var sc := CellScores(Get(row, "score1"), Get(row, "score2"), SCHEDULED);
    if sc.None? {
      return Tally(0, 0);
    }
    var mid, added := InsertMatchDoNothingRow(conn, FteKey(m.day, homeId, awayId),
                                              FteFixture(m.dateText, m.league, m.leagueId, m.home, m.away, sc.value));
    var n := if added then 1 else 0;
    if mid == 0 {
      return Tally(n, 0);
    }
    var stats, k := AddAbsentRows(conn.stats, StatCandidates(row, mid), StatKey);
    conn.stats := stats;
    t := Tally(n, k);
  }

  /** `import_fivethirtyeight_spi_matches` over the file's rows; returns `m_added, 0, s_added`. */
  method ImportFte(conn: ImportConnection, rows: seq<Object>, p: Parser) returns (matchesAdded: nat, oddsAdded: nat, statsAdded: nat)
    modifies conn
    ensures oddsAdded == 0
    ensures (conn.Snapshot(), Tally(matchesAdded, statsAdded)) == Import(FteStep(p), old(conn.Snapshot()), rows)
  {
    ghost var db0 := conn.Snapshot();
    matchesAdded, oddsAdded, statsAdded := 0, 0, 0;
    for i := 0 to |rows|
      invariant (conn.Snapshot(), Tally(matchesAdded, statsAdded)) == Import(FteStep(p), db0, rows[..i])
    {
      ghost var before, t0 := conn.Snapshot(), Tally(matchesAdded, statsAdded);
      var t := FteRowOn(conn, rows[i], p);
      FteStepIs(before, rows[i], p, conn.Snapshot(), t);
      ImportExtend(FteStep(p), db0, rows, i, before, t0, conn.Snapshot(), t);
      matchesAdded, statsAdded := matchesAdded + t.main, statsAdded + t.side;
      assert Tally(matchesAdded, statsAdded) == t0.Plus(t);
    }
    assert rows[..|rows|] == rows;
  }
}
