/**
 * `collect_soccer_data_co_uk.py`: a soccer-data.co.uk season CSV mapped row
 * by row to matches stored with INSERT OR IGNORE, so that a match already
 * stored is never rewritten.
 */
module SoccerData {
  import opened Wrappers
  import opened Json
  import opened Dates
  import opened Outcome
  import opened Store
  import opened Resolver
  import opened Upsert
  import opened CsvRows

  const SOURCE_NAME: string := "soccer-data.co.uk"

  /** `%d/%m/%y`, then `%d/%m/%Y`. */
  const DATE_FORMATS: seq<Format> := [DayMonthYear2, DayMonthYear4]

  /** `sdcuk_<YYYYMMDD>_<home>_<away>`, the names as they are. */
  function SourceMatchId(kickoff: Stamp, home: string, away: string): string
  {
    "sdcuk_" + kickoff.Compact() + "_" + home + "_" + away
  }

  /** The same two teams on two different calendar days (years from 1000 on) get different ids. */
  lemma SourceMatchIdSeparatesDays(d1: Stamp, d2: Stamp, home: string, away: string)
    requires d1.year >= 1000 && d2.year >= 1000
    requires SourceMatchId(d1, home, away) == SourceMatchId(d2, home, away)
    ensures d1.year == d2.year && d1.month == d2.month && d1.day == d2.day
  {
    FourDigits(d1.year);
    FourDigits(d2.year);
    var s1, s2 := SourceMatchId(d1, home, away), SourceMatchId(d2, home, away);
    assert s1[6..14] == d1.Compact();
    assert s2[6..14] == d2.Compact();
    CompactInjective(d1, d2);
  }

  /** What a row contributes once its teams are known. */
  datatype MatchRow = MatchRow(key: MatchKey, kickoff: string, score: Scoreline)

  /**
   * Reading a row: `None` (the row is skipped) for a missing date, a date
   * that parses in neither format, and a score `int()` rejects.
   */
  function ReadMatch(row: Object, p: Parser): (r: Option<MatchRow>)
    ensures IsNa(Get(row, "Date")) ==> r.None?
    ensures !IsNa(Get(row, "Date")) ==>
              var d := FirstParse(p, CellStr(Get(row, "Date")), DATE_FORMATS);
              var sc := CellScores(Get(row, "FTHG"), Get(row, "FTAG"), SCHEDULED);
              && (r.Some? <==> d.Some? && sc.Some?)
              && (r.Some? ==> && r.value.key == MatchKey(SourceMatchId(d.value, CellStr(Get(row, "HomeTeam")), CellStr(Get(row, "AwayTeam"))), SOURCE_NAME)
                              && r.value.kickoff == d.value.IsoZ()
                              && r.value.score == sc.value)
  {
    var raw := Get(row, "Date");
    if IsNa(raw) then None
    else
      var d := FirstParse(p, CellStr(raw), DATE_FORMATS);
      var sc := CellScores(Get(row, "FTHG"), Get(row, "FTAG"), SCHEDULED);
      if d.None? || sc.None? then None
      else
        var id := SourceMatchId(d.value, CellStr(Get(row, "HomeTeam")), CellStr(Get(row, "AwayTeam")));
        Some(MatchRow(MatchKey(id, SOURCE_NAME), d.value.IsoZ(), sc.value))
  }

  /** The inserted columns: no stage, no matchday, `is_mock` left at its default 0. */
  function Payload(mr: MatchRow, league: int, home: int, away: int): Match
  {
    Match(Some(league), Some(home), Some(away), mr.kickoff, Some(mr.score.status), mr.score.homeScore,
          mr.score.awayScore, mr.score.winner, None, None, false)
  }

  /** The match's INSERT OR IGNORE. */
  function StoreMatch(db: Db, mr: MatchRow, league: int, home: int, away: int): Db
  {
    db.(matches := InsertOrIgnoreMatch(db.matches, mr.key, Payload(mr, league, home, away)).0)
  }

  /**
   * One row: a missing team name skips it; both teams are resolved with no
   * source id; an unresolved team, or a row `ReadMatch` rejects, is skipped
   * after the resolves. The statements after the match insert raise
   * (`processed_matches_count` is never bound) and end the row there.
   */
  function ProcessRow(db: Db, row: Object, league: int, sport: string, p: Parser): Db
  {
    var hc, ac := Get(row, "HomeTeam"), Get(row, "AwayTeam");
    if IsNa(hc) || IsNa(ac) then db
    else
      var (db2, hid, aid) := ResolvePair(db, CellName(hc), CellName(ac), Some(sport), None, None, Overwrite);
      if Falsy(hid) || Falsy(aid) then db2
      else
        var mr := ReadMatch(row, p);
        if mr.None? then db2 else StoreMatch(db2, mr.value, league, hid.value, aid.value)
  }

  /** The rows in order. */
  function ProcessRows(db: Db, rows: seq<Object>, league: int, sport: string, p: Parser): Db
    decreases |rows|
  {
    if rows == [] then db
    else ProcessRow(ProcessRows(db, rows[..|rows| - 1], league, sport, p), rows[|rows| - 1], league, sport, p)
  }

  /**
   * `parse_and_store_data`. `rows` is the parsed frame: empty for empty
   * content, content pandas cannot parse, and a frame without rows, all of
   * which return before any write. The league is resolved once, with the
   * default name and country and no source id; its failure aborts.
   */
  function StoreCsv(db: Db, rows: seq<Object>, leagueName: string, country: string, sport: string, p: Parser): Db
  {
    if rows == [] then db
    else
      var (db1, lid) := ResolveDb(db, LeagueKind, Some(leagueName), Some(sport), None, Some(country), Overwrite, NoFault);
      if Falsy(lid) then db1 else ProcessRows(db1, rows, lid.value, sport, p)
  }

  /** One row on the connection. */
  method ProcessRowStep(conn: Connection, row: Object, league: int, sport: string, p: Parser)
    modifies conn
    ensures conn.Snapshot() == ProcessRow(old(conn.Snapshot()), row, league, sport, p)
    ensures conn.schema == old(conn.schema)
  {
    var hc, ac := Get(row, "HomeTeam"), Get(row, "AwayTeam");
    if IsNa(hc) || IsNa(ac) {
      return;
    }
    var hid := GetOrCreateEntityId(conn, TeamKind, CellName(hc), Some(sport), None, None, Overwrite, NoFault);
    var aid := GetOrCreateEntityId(conn, TeamKind, CellName(ac), Some(sport), None, None, Overwrite, NoFault);
    if Falsy(hid) || Falsy(aid) {
      return;
    }
    var mr := ReadMatch(row, p);
    if mr.None? {
      return;
    }
    var _, _ := InsertOrIgnoreMatchRow(conn, mr.value.key, Payload(mr.value, league, hid.value, aid.value));
  }

  /** `parse_and_store_data` on the connection. */
  method ParseAndStoreData(conn: Connection, rows: seq<Object>, leagueName: string, country: string, sport: string, p: Parser)
    modifies conn
    ensures conn.Snapshot() == StoreCsv(old(conn.Snapshot()), rows, leagueName, country, sport, p)
    ensures conn.schema == old(conn.schema)
  {
    if rows == [] {
      return;
    }
    var lid := GetOrCreateEntityId(conn, LeagueKind, Some(leagueName), Some(sport), None, Some(country), Overwrite, NoFault);
    if Falsy(lid) {
      return;
    }
    ghost var start := conn.Snapshot();
    for i := 0 to |rows|
      invariant conn.Snapshot() == ProcessRows(start, rows[..i], lid.value, sport, p)
      invariant conn.schema == old(conn.schema)
    {
      assert rows[..i + 1][..i] == rows[..i];
      ProcessRowStep(conn, rows[i], lid.value, sport, p);
    }
    assert rows[..|rows|] == rows;
  }

  /** A row missing either team name is skipped with no write. */
  lemma IncompleteRowSkipped(db: Db, row: Object, league: int, sport: string, p: Parser)
    requires IsNa(Get(row, "HomeTeam")) || IsNa(Get(row, "AwayTeam"))
    ensures ProcessRow(db, row, league, sport, p) == db
  {
  }

  /** A row whose date or score cannot be read writes at most its two teams. */
  lemma UnreadableRowWritesOnlyTeams(db: Db, row: Object, league: int, sport: string, p: Parser)
    requires ReadMatch(row, p).None?
    ensures var db1 := ProcessRow(db, row, league, sport, p);
            db1 == db.(teams := db1.teams)
  {
  }

  /** A match already stored under the row's key is left exactly as it is: no column is rewritten. */
  lemma StoredMatchUntouched(db: Db, mr: MatchRow, league: int, home: int, away: int)
    requires mr.key in db.matches.rows
    ensures StoreMatch(db, mr, league, home, away) == db
  {
  }

  /**
   * Everything a row would write is already there: each team it names is
   * stored, and so is its match whenever it reaches the insert.
   */
  ghost predicate Absorbed(db: Db, row: Object, sport: string, p: Parser)
  {
    var hc, ac := Get(row, "HomeTeam"), Get(row, "AwayTeam");
    IsNa(hc) || IsNa(ac) ||
    (&& Settled(db.teams, CellName(hc), Some(sport), None, Overwrite)
     && Settled(db.teams, CellName(ac), Some(sport), None, Overwrite)
     && (Given(CellName(hc)) && Given(CellName(ac)) && sport != "" && ReadMatch(row, p).Some? ==>
           ReadMatch(row, p).value.key in db.matches.rows))
  }

  /** An absorbed row writes nothing. */
  lemma AbsorbedRowChangesNothing(db: Db, row: Object, league: int, sport: string, p: Parser)
    requires db.Valid() && Absorbed(db, row, sport, p)
    ensures ProcessRow(db, row, league, sport, p) == db
  {
    var hc, ac := Get(row, "HomeTeam"), Get(row, "AwayTeam");
    if !IsNa(hc) && !IsNa(ac) {
      SettledResolveReadsOnly(db.teams, TeamKind, CellName(hc), Some(sport), None, None, Overwrite, NoFault);
      SettledResolveReadsOnly(db.teams, TeamKind, CellName(ac), Some(sport), None, None, Overwrite, NoFault);
    }
  }

  /** After a row is processed it is absorbed. */
  lemma ProcessRowAbsorbs(db: Db, row: Object, league: int, sport: string, p: Parser)
    requires db.Valid()
    ensures Absorbed(ProcessRow(db, row, league, sport, p), row, sport, p)
  {
    var hc, ac := Get(row, "HomeTeam"), Get(row, "AwayTeam");
    if !IsNa(hc) && !IsNa(ac) {
      var hn, an := CellName(hc), CellName(ac);
      ResolvePairGrows(db, hn, an, Some(sport), Overwrite);
      ResolvePairSettled(db, hn, an, Some(sport), Overwrite);
      var (db2, hid, aid) := ResolvePair(db, hn, an, Some(sport), None, None, Overwrite);
      var mr := ReadMatch(row, p);
      if !Falsy(hid) && !Falsy(aid) && mr.Some? {
        InsertOrIgnoreKeepsRows(db2.matches, mr.value.key, Payload(mr.value, league, hid.value, aid.value));
        assert ProcessRow(db, row, league, sport, p) == StoreMatch(db2, mr.value, league, hid.value, aid.value);
      } else {
        assert ProcessRow(db, row, league, sport, p) == db2;
      }
    }
  }

  /** A row only adds rows, to the teams and matches tables, and keeps the store valid. */
  lemma ProcessRowGrows(db: Db, row: Object, league: int, sport: string, p: Parser)
    requires db.Valid()
    ensures var db1 := ProcessRow(db, row, league, sport, p);
            db1.Valid() && Grows(db, db1) && db1.leagues == db.leagues && db1.stats == db.stats && db1.odds == db.odds
  {
    var hc, ac := Get(row, "HomeTeam"), Get(row, "AwayTeam");
    if !IsNa(hc) && !IsNa(ac) {
      var hn, an := CellName(hc), CellName(ac);
      ResolvePairGrows(db, hn, an, Some(sport), Overwrite);
      var (db2, hid, aid) := ResolvePair(db, hn, an, Some(sport), None, None, Overwrite);
      assert Grows(db, db2);
      var mr := ReadMatch(row, p);
      if !Falsy(hid) && !Falsy(aid) && mr.Some? {
        InsertOrIgnoreKeepsRows(db2.matches, mr.value.key, Payload(mr.value, league, hid.value, aid.value));
        assert ProcessRow(db, row, league, sport, p) == StoreMatch(db2, mr.value, league, hid.value, aid.value);
      } else {
        assert ProcessRow(db, row, league, sport, p) == db2;
      }
    }
  }

  /** A run of rows only adds teams and matches, and keeps the store valid. */
  lemma {:induction false} ProcessRowsGrows(db: Db, rows: seq<Object>, league: int, sport: string, p: Parser)
    requires db.Valid()
    ensures var db1 := ProcessRows(db, rows, league, sport, p);
            db1.Valid() && Grows(db, db1) && db1.leagues == db.leagues && db1.stats == db.stats && db1.odds == db.odds
    decreases |rows|
  {
    if rows != [] {
      var prev := rows[..|rows| - 1];
      ProcessRowsGrows(db, prev, league, sport, p);
      ProcessRowGrows(ProcessRows(db, prev, league, sport, p), rows[|rows| - 1], league, sport, p);
      GrowsTransitive(db, ProcessRows(db, prev, league, sport, p), ProcessRows(db, rows, league, sport, p));
    }
  }

  /** Added rows do not undo absorption. */
  lemma AbsorbedPersists(db: Db, db1: Db, row: Object, sport: string, p: Parser)
    requires Absorbed(db, row, sport, p) && Grows(db, db1)
    ensures Absorbed(db1, row, sport, p)
  {
    var hc, ac := Get(row, "HomeTeam"), Get(row, "AwayTeam");
    if !IsNa(hc) && !IsNa(ac) {
      SettledPersists(db.teams, db1.teams, CellName(hc), Some(sport), Overwrite);
      SettledPersists(db.teams, db1.teams, CellName(ac), Some(sport), Overwrite);
    }
  }

  /** Rows absorbed before a store grew, and a last row absorbed after it: all of them are absorbed. */
  lemma AbsorbedRowsExtend(mid: Db, db1: Db, rows: seq<Object>, sport: string, p: Parser)
    requires rows != [] && Grows(mid, db1)
    requires forall i :: 0 <= i < |rows| - 1 ==> Absorbed(mid, rows[i], sport, p)
    requires Absorbed(db1, rows[|rows| - 1], sport, p)
    ensures forall i :: 0 <= i < |rows| ==> Absorbed(db1, rows[i], sport, p)
  {
    forall i | 0 <= i < |rows| ensures Absorbed(db1, rows[i], sport, p) {
      if i < |rows| - 1 {
        AbsorbedPersists(mid, db1, rows[i], sport, p);
      }
    }
  }

  /** The step of ProcessRowsAbsorb: the earlier rows absorbed before the last row, all rows absorbed after it. */
  lemma AbsorbedAfterLastRow(db: Db, rows: seq<Object>, league: int, sport: string, p: Parser)
    requires db.Valid() && rows != []
    requires forall i :: 0 <= i < |rows| - 1 ==> Absorbed(ProcessRows(db, rows[..|rows| - 1], league, sport, p), rows[i], sport, p)
    ensures forall i :: 0 <= i < |rows| ==> Absorbed(ProcessRows(db, rows, league, sport, p), rows[i], sport, p)
  {
    var prev, n := rows[..|rows| - 1], |rows| - 1;
    var mid := ProcessRows(db, prev, league, sport, p);
    ProcessRowsGrows(db, prev, league, sport, p);
    ProcessRowGrows(mid, rows[n], league, sport, p);
    ProcessRowAbsorbs(mid, rows[n], league, sport, p);
    AbsorbedRowsExtend(mid, ProcessRows(db, rows, league, sport, p), rows, sport, p);
  }

  /** After a run of rows every one of them is absorbed. */
  lemma {:induction false} ProcessRowsAbsorb(db: Db, rows: seq<Object>, league: int, sport: string, p: Parser)
    requires db.Valid()
    ensures forall i :: 0 <= i < |rows| ==> Absorbed(ProcessRows(db, rows, league, sport, p), rows[i], sport, p)
    decreases |rows|
  {
    if rows != [] {
      var prev, n := rows[..|rows| - 1], |rows| - 1;
      ProcessRowsAbsorb(db, prev, league, sport, p);
      assert forall i :: 0 <= i < n ==> rows[i] == prev[i];
      AbsorbedAfterLastRow(db, rows, league, sport, p);
    }
  }

  /** A run of absorbed rows writes nothing. */
  lemma {:induction false} AbsorbedRowsChangeNothing(db: Db, rows: seq<Object>, league: int, sport: string, p: Parser)
    requires db.Valid()
    requires forall i :: 0 <= i < |rows| ==> Absorbed(db, rows[i], sport, p)
    ensures ProcessRows(db, rows, league, sport, p) == db
    decreases |rows|
  {
    if rows != [] {
      var prev := rows[..|rows| - 1];
      assert forall i :: 0 <= i < |prev| ==> prev[i] == rows[i];
      AbsorbedRowsChangeNothing(db, prev, league, sport, p);
      AbsorbedRowChangesNothing(db, rows[|rows| - 1], league, sport, p);
    }
  }

  /** Importing the same file a second time changes no table. */
  lemma ReimportChangesNothing(db: Db, rows: seq<Object>, leagueName: string, country: string, sport: string, p: Parser)
    requires db.Valid()
    ensures var db1 := StoreCsv(db, rows, leagueName, country, sport, p);
            StoreCsv(db1, rows, leagueName, country, sport, p) == db1
  {
    if rows != [] {
      var (db1, lid) := ResolveDb(db, LeagueKind, Some(leagueName), Some(sport), None, Some(country), Overwrite, NoFault);
      ResolveDbValid(db, LeagueKind, Some(leagueName), Some(sport), None, Some(country), Overwrite, NoFault);
      ResolveTableValid(db.leagues, LeagueKind, Some(leagueName), Some(sport), None, Some(country), Overwrite, NoFault);
      ResolveSettles(db.leagues, LeagueKind, Some(leagueName), Some(sport), None, Some(country), Overwrite);
      if !Falsy(lid) {
        var db2 := ProcessRows(db1, rows, lid.value, sport, p);
        ProcessRowsGrows(db1, rows, lid.value, sport, p);
        ProcessRowsAbsorb(db1, rows, lid.value, sport, p);
        SettledResolveReadsOnly(db2.leagues, LeagueKind, Some(leagueName), Some(sport), None, Some(country), Overwrite, NoFault);
        AbsorbedRowsChangeNothing(db2, rows, lid.value, sport, p);
      } else {
        SettledResolveReadsOnly(db1.leagues, LeagueKind, Some(leagueName), Some(sport), None, Some(country), Overwrite, NoFault);
      }
    }
  }
}
