/**
 * `collect_kaggle.py`: the martj42 international results CSV mapped row by
 * row to matches of one league, stored with INSERT OR IGNORE under an id
 * that embeds the row's index.
 */
module Kaggle {
  import opened Wrappers
  import opened Text
  import opened Json
  import opened Dates
  import opened Outcome
  import opened Store
  import opened Resolver
  import opened Upsert
  import opened CsvRows

  const SOURCE_NAME: string := "Kaggle_martj42_intl_football_results"
  const LEAGUE_COUNTRY: string := "International"

  /** `kgl_martj42_<index>_<YYYYMMDD>_<home[:3]>_<away[:3]>`. */
  function SourceMatchId(index: nat, kickoff: Stamp, home: string, away: string): string
  {
    "kgl_martj42_" + NatStr(index) + "_" + IdTail(kickoff, home, away)
  }

  /** The part of the id after the index. */
  function IdTail(kickoff: Stamp, home: string, away: string): string
  {
    kickoff.Compact() + "_" + Take(home, 3) + "_" + Take(away, 3)
  }

  /** Two rows at different indexes never share an id, whatever their dates and teams. */
  lemma SourceMatchIdSeparatesRows(i: nat, j: nat, d1: Stamp, d2: Stamp, h1: string, a1: string, h2: string, a2: string)
    requires SourceMatchId(i, d1, h1, a1) == SourceMatchId(j, d2, h2, a2)
    ensures i == j
  {
    NatStrDelimitedAfter("kgl_martj42_", i, j, '_', IdTail(d1, h1, a1), IdTail(d2, h2, a2));
  }

  /** What a row contributes once its teams are known. */
  datatype MatchRow = MatchRow(key: MatchKey, kickoff: string, score: Scoreline, stage: Option<string>)

  /**
   * Reading the row at `index`: `None` (the row is skipped) for a missing or
   * unparsable date, a score `int()` rejects, and a team name that is not
   * text (slicing it raises). A row without both scores is UNKNOWN_SCORE.
   */
  function ReadMatch(row: Object, index: nat, p: Parser): (r: Option<MatchRow>)
    ensures IsNa(Get(row, "date")) ==> r.None?
    ensures !IsNa(Get(row, "date")) ==>
              var d := p(CellStr(Get(row, "date")), Inferred);
              var sc := CellScores(Get(row, "home_score"), Get(row, "away_score"), UNKNOWN_SCORE);
              var hc, ac := Get(row, "home_team"), Get(row, "away_team");
              && (r.Some? <==> d.Some? && sc.Some? && hc.JStr? && ac.JStr?)
              && (r.Some? ==> && r.value.key == MatchKey(SourceMatchId(index, d.value, hc.s, ac.s), SOURCE_NAME)
                              && r.value.kickoff == d.value.IsoZ()
                              && r.value.score == sc.value
                              && r.value.stage == AsText(Get(row, "tournament")))
  {
    var raw := Get(row, "date");
    if IsNa(raw) then None
    else
      var d := p(CellStr(raw), Inferred);
      var sc := CellScores(Get(row, "home_score"), Get(row, "away_score"), UNKNOWN_SCORE);
      var hc, ac := Get(row, "home_team"), Get(row, "away_team");
      if d.None? || sc.None? || !hc.JStr? || !ac.JStr? then None
      else
        Some(MatchRow(MatchKey(SourceMatchId(index, d.value, hc.s, ac.s), SOURCE_NAME), d.value.IsoZ(), sc.value,
                      AsText(Get(row, "tournament"))))
  }

  /** The inserted columns: the tournament as the stage, no matchday, `is_mock` left at 0. */
  function Payload(mr: MatchRow, league: int, home: int, away: int): Match
  {
    Match(Some(league), Some(home), Some(away), mr.kickoff, Some(mr.score.status), mr.score.homeScore,
          mr.score.awayScore, mr.score.winner, mr.stage, None, false)
  }

  function StoreMatch(db: Db, mr: MatchRow, league: int, home: int, away: int): Db
  {
    db.(matches := InsertOrIgnoreMatch(db.matches, mr.key, Payload(mr, league, home, away)).0)
  }

  /**
   * The row at `index`: a missing team name skips it; both teams are
   * resolved with no source id; an unresolved team, or a row `ReadMatch`
   * rejects, is skipped after the resolves. The counter update after the
   * insert raises (`processed_matches_count` is never bound) and ends the row.
   */
  function ProcessRow(db: Db, row: Object, index: nat, league: int, sport: string, p: Parser): Db
  {
    var hc, ac := Get(row, "home_team"), Get(row, "away_team");
    if IsNa(hc) || IsNa(ac) then db
    else
      var (db2, hid, aid) := ResolvePair(db, CellName(hc), CellName(ac), Some(sport), None, None, FillIfNull);
      if Falsy(hid) || Falsy(aid) then db2
      else
        var mr := ReadMatch(row, index, p);
        if mr.None? then db2 else StoreMatch(db2, mr.value, league, hid.value, aid.value)
  }

  /** The rows in order, each with its position as its index. */
  function ProcessRows(db: Db, rows: seq<Object>, league: int, sport: string, p: Parser): Db
    decreases |rows|
  {
    if rows == [] then db
    else ProcessRow(ProcessRows(db, rows[..|rows| - 1], league, sport, p), rows[|rows| - 1], |rows| - 1, league, sport, p)
  }

  /**
   * `parse_martj42_intl_football_results`. `frame` is `None` when the file is
   * missing or pandas cannot read it, which returns before any write. The
   * league is resolved once, even for a frame without rows, with country
   * "International"; its failure aborts.
   */
  function StoreResults(db: Db, frame: Option<seq<Object>>, leagueName: string, sport: string, p: Parser): Db
  {
    if frame.None? then db
    else
      var (db1, lid) := ResolveDb(db, LeagueKind, Some(leagueName), Some(sport), None, Some(LEAGUE_COUNTRY), FillIfNull, NoFault);
      if Falsy(lid) then db1 else ProcessRows(db1, frame.value, lid.value, sport, p)
  }

  /** One row on the connection. */
  method ProcessRowStep(conn: Connection, row: Object, index: nat, league: int, sport: string, p: Parser)
    modifies conn
    ensures conn.Snapshot() == ProcessRow(old(conn.Snapshot()), row, index, league, sport, p)
    ensures conn.schema == old(conn.schema)
  {
    var hc, ac := Get(row, "home_team"), Get(row, "away_team");
    if IsNa(hc) || IsNa(ac) {
      return;
    }
    var hid := GetOrCreateEntityId(conn, TeamKind, CellName(hc), Some(sport), None, None, FillIfNull, NoFault);
    var aid := GetOrCreateEntityId(conn, TeamKind, CellName(ac), Some(sport), None, None, FillIfNull, NoFault);
    if Falsy(hid) || Falsy(aid) {
      return;
    }
    var mr := ReadMatch(row, index, p);
    if mr.None? {
      return;
    }
    var _, _ := InsertOrIgnoreMatchRow(conn, mr.value.key, Payload(mr.value, league, hid.value, aid.value));
  }

  /** `parse_martj42_intl_football_results` on the connection. */
  method ParseResults(conn: Connection, frame: Option<seq<Object>>, leagueName: string, sport: string, p: Parser)
    modifies conn
    ensures conn.Snapshot() == StoreResults(old(conn.Snapshot()), frame, leagueName, sport, p)
    ensures conn.schema == old(conn.schema)
  {
    if frame.None? {
      return;
    }
    var lid := GetOrCreateEntityId(conn, LeagueKind, Some(leagueName), Some(sport), None, Some(LEAGUE_COUNTRY), FillIfNull, NoFault);
    if Falsy(lid) {
      return;
    }
    var rows := frame.value;
    ghost var start := conn.Snapshot();
    for i := 0 to |rows|
      invariant conn.Snapshot() == ProcessRows(start, rows[..i], lid.value, sport, p)
      invariant conn.schema == old(conn.schema)
    {
      assert rows[..i + 1][..i] == rows[..i];
      ProcessRowStep(conn, rows[i], i, lid.value, sport, p);
    }
    assert rows[..|rows|] == rows;
  }

  /** A row missing either team name is skipped with no write. */
  lemma IncompleteRowSkipped(db: Db, row: Object, index: nat, league: int, sport: string, p: Parser)
    requires IsNa(Get(row, "home_team")) || IsNa(Get(row, "away_team"))
    ensures ProcessRow(db, row, index, league, sport, p) == db
  {
  }

  /** A row without a date writes at most its two teams. */
  lemma UndatedRowWritesOnlyTeams(db: Db, row: Object, index: nat, league: int, sport: string, p: Parser)
    requires IsNa(Get(row, "date"))
    ensures var db1 := ProcessRow(db, row, index, league, sport, p);
            db1 == db.(teams := db1.teams)
  {
  }

  /** A league that cannot be resolved aborts the file after nothing is written. */
  lemma LeagueFailureWritesNothing(db: Db, frame: Option<seq<Object>>, sport: string, p: Parser)
    ensures StoreResults(db, frame, "", sport, p) == db
    ensures StoreResults(db, frame, "International Matches", "", p) == db
  {
  }

  /** Everything a row would write is already there. */
  ghost predicate Absorbed(db: Db, row: Object, index: nat, sport: string, p: Parser)
  {
    var hc, ac := Get(row, "home_team"), Get(row, "away_team");
    IsNa(hc) || IsNa(ac) ||
    (&& Settled(db.teams, CellName(hc), Some(sport), None, FillIfNull)
     && Settled(db.teams, CellName(ac), Some(sport), None, FillIfNull)
     && (Given(CellName(hc)) && Given(CellName(ac)) && sport != "" && ReadMatch(row, index, p).Some? ==>
           ReadMatch(row, index, p).value.key in db.matches.rows))
  }

  /** An absorbed row writes nothing. */
  lemma AbsorbedRowChangesNothing(db: Db, row: Object, index: nat, league: int, sport: string, p: Parser)
    requires db.Valid() && Absorbed(db, row, index, sport, p)
    ensures ProcessRow(db, row, index, league, sport, p) == db
  {
    var hc, ac := Get(row, "home_team"), Get(row, "away_team");
    if !IsNa(hc) && !IsNa(ac) {
      SettledResolveReadsOnly(db.teams, TeamKind, CellName(hc), Some(sport), None, None, FillIfNull, NoFault);
      SettledResolveReadsOnly(db.teams, TeamKind, CellName(ac), Some(sport), None, None, FillIfNull, NoFault);
    }
  }

  /** After a row is processed it is absorbed. */
  lemma ProcessRowAbsorbs(db: Db, row: Object, index: nat, league: int, sport: string, p: Parser)
    requires db.Valid()
    ensures Absorbed(ProcessRow(db, row, index, league, sport, p), row, index, sport, p)
  {
    var hc, ac := Get(row, "home_team"), Get(row, "away_team");
    if !IsNa(hc) && !IsNa(ac) {
      var hn, an := CellName(hc), CellName(ac);
      ResolvePairGrows(db, hn, an, Some(sport), FillIfNull);
      ResolvePairSettled(db, hn, an, Some(sport), FillIfNull);
      var (db2, hid, aid) := ResolvePair(db, hn, an, Some(sport), None, None, FillIfNull);
      var mr := ReadMatch(row, index, p);
      if !Falsy(hid) && !Falsy(aid) && mr.Some? {
        InsertOrIgnoreKeepsRows(db2.matches, mr.value.key, Payload(mr.value, league, hid.value, aid.value));
        assert ProcessRow(db, row, index, league, sport, p) == StoreMatch(db2, mr.value, league, hid.value, aid.value);
      } else {
        assert ProcessRow(db, row, index, league, sport, p) == db2;
      }
    }
  }

  /** A row only adds rows, to the teams and matches tables, and keeps the store valid. */
  lemma ProcessRowGrows(db: Db, row: Object, index: nat, league: int, sport: string, p: Parser)
    requires db.Valid()
    ensures var db1 := ProcessRow(db, row, index, league, sport, p);
            db1.Valid() && Grows(db, db1) && db1.leagues == db.leagues && db1.stats == db.stats && db1.odds == db.odds
  {
    var hc, ac := Get(row, "home_team"), Get(row, "away_team");
    if !IsNa(hc) && !IsNa(ac) {
      var hn, an := CellName(hc), CellName(ac);
      ResolvePairGrows(db, hn, an, Some(sport), FillIfNull);
      var (db2, hid, aid) := ResolvePair(db, hn, an, Some(sport), None, None, FillIfNull);
      assert Grows(db, db2);
      var mr := ReadMatch(row, index, p);
      if !Falsy(hid) && !Falsy(aid) && mr.Some? {
        InsertOrIgnoreKeepsRows(db2.matches, mr.value.key, Payload(mr.value, league, hid.value, aid.value));
        assert ProcessRow(db, row, index, league, sport, p) == StoreMatch(db2, mr.value, league, hid.value, aid.value);
      } else {
        assert ProcessRow(db, row, index, league, sport, p) == db2;
      }
    }
  }

  /** A run of rows only adds teams and matches, and keeps the store valid. */
  lemma {:induction false} ProcessRowsGrows(db: Db, rows: seq<Object>, league: int, sport: string, p: Parser)
    requires db.Valid()
    ensures var db1 := ProcessRows(db, rows, league, sport, p);
            db1.Valid() && Grows(db, db1) && db1.leagues == db.leagues && db1.stats == db.stats && db1.odds == db.odds
    decreases |rows|
  {
    if rows != [] {
      var prev := rows[..|rows| - 1];
      ProcessRowsGrows(db, prev, league, sport, p);
      ProcessRowGrows(ProcessRows(db, prev, league, sport, p), rows[|rows| - 1], |rows| - 1, league, sport, p);
      GrowsTransitive(db, ProcessRows(db, prev, league, sport, p), ProcessRows(db, rows, league, sport, p));
    }
  }

  /** Added rows do not undo absorption. */
  lemma AbsorbedPersists(db: Db, db1: Db, row: Object, index: nat, sport: string, p: Parser)
    requires Absorbed(db, row, index, sport, p) && Grows(db, db1)
    ensures Absorbed(db1, row, index, sport, p)
  {
    var hc, ac := Get(row, "home_team"), Get(row, "away_team");
    if !IsNa(hc) && !IsNa(ac) {
      SettledPersists(db.teams, db1.teams, CellName(hc), Some(sport), FillIfNull);
      SettledPersists(db.teams, db1.teams, CellName(ac), Some(sport), FillIfNull);
    }
  }

  lemma AbsorbedRowsPersist(db: Db, db1: Db, rows: seq<Object>, sport: string, p: Parser)
    requires Grows(db, db1)
    requires forall i :: 0 <= i < |rows| ==> Absorbed(db, rows[i], i, sport, p)
    ensures forall i :: 0 <= i < |rows| ==> Absorbed(db1, rows[i], i, sport, p)
  {
    forall i | 0 <= i < |rows| ensures Absorbed(db1, rows[i], i, sport, p) {
      AbsorbedPersists(db, db1, rows[i], i, sport, p);
    }
  }

  /** Rows absorbed before a store grew, and a last row absorbed after it: all of them are absorbed. */
  lemma AbsorbedRowsExtend(mid: Db, db1: Db, rows: seq<Object>, sport: string, p: Parser)
    requires rows != [] && Grows(mid, db1)
    requires forall i :: 0 <= i < |rows| - 1 ==> Absorbed(mid, rows[i], i, sport, p)
    requires Absorbed(db1, rows[|rows| - 1], |rows| - 1, sport, p)
    ensures forall i :: 0 <= i < |rows| ==> Absorbed(db1, rows[i], i, sport, p)
  {
    forall i | 0 <= i < |rows| ensures Absorbed(db1, rows[i], i, sport, p) {
      if i < |rows| - 1 {
        AbsorbedPersists(mid, db1, rows[i], i, sport, p);
      }
    }
  }

  /** The step of ProcessRowsAbsorb: the earlier rows absorbed before the last row, all rows absorbed after it. */
  lemma AbsorbedAfterLastRow(db: Db, rows: seq<Object>, league: int, sport: string, p: Parser)
    requires db.Valid() && rows != []
    requires forall i :: 0 <= i < |rows| - 1 ==> Absorbed(ProcessRows(db, rows[..|rows| - 1], league, sport, p), rows[i], i, sport, p)
    ensures forall i :: 0 <= i < |rows| ==> Absorbed(ProcessRows(db, rows, league, sport, p), rows[i], i, sport, p)
  {
    var prev, n := rows[..|rows| - 1], |rows| - 1;
    var mid := ProcessRows(db, prev, league, sport, p);
    ProcessRowsGrows(db, prev, league, sport, p);
    ProcessRowGrows(mid, rows[n], n, league, sport, p);
    ProcessRowAbsorbs(mid, rows[n], n, league, sport, p);
    AbsorbedRowsExtend(mid, ProcessRows(db, rows, league, sport, p), rows, sport, p);
  }

  /** After a run of rows every one of them, at its index, is absorbed. */
  lemma {:induction false} ProcessRowsAbsorb(db: Db, rows: seq<Object>, league: int, sport: string, p: Parser)
    requires db.Valid()
    ensures forall i :: 0 <= i < |rows| ==> Absorbed(ProcessRows(db, rows, league, sport, p), rows[i], i, sport, p)
    decreases |rows|
  {
    if rows != [] {
      var prev, n := rows[..|rows| - 1], |rows| - 1;
      ProcessRowsAbsorb(db, prev, league, sport, p);
      assert forall i :: 0 <= i < n ==> rows[i] == prev[i];
      AbsorbedAfterLastRow(db, rows, league, sport, p);
    }
  }

  /** A run of absorbed rows writes nothing. */
  lemma {:induction false} AbsorbedRowsChangeNothing(db: Db, rows: seq<Object>, league: int, sport: string, p: Parser)
    requires db.Valid()
    requires forall i :: 0 <= i < |rows| ==> Absorbed(db, rows[i], i, sport, p)
    ensures ProcessRows(db, rows, league, sport, p) == db
    decreases |rows|
  {
    if rows != [] {
      var prev := rows[..|rows| - 1];
      assert forall i :: 0 <= i < |prev| ==> prev[i] == rows[i];
      AbsorbedRowsChangeNothing(db, prev, league, sport, p);
      AbsorbedRowChangesNothing(db, rows[|rows| - 1], |rows| - 1, league, sport, p);
    }
  }

  /** Importing the same file a second time changes no table. */
  lemma ReimportChangesNothing(db: Db, frame: Option<seq<Object>>, leagueName: string, sport: string, p: Parser)
    requires db.Valid()
    ensures var db1 := StoreResults(db, frame, leagueName, sport, p);
            StoreResults(db1, frame, leagueName, sport, p) == db1
  {
    if frame.Some? {
      var rows := frame.value;
      var (db1, lid) := ResolveDb(db, LeagueKind, Some(leagueName), Some(sport), None, Some(LEAGUE_COUNTRY), FillIfNull, NoFault);
      ResolveDbValid(db, LeagueKind, Some(leagueName), Some(sport), None, Some(LEAGUE_COUNTRY), FillIfNull, NoFault);
      ResolveTableValid(db.leagues, LeagueKind, Some(leagueName), Some(sport), None, Some(LEAGUE_COUNTRY), FillIfNull, NoFault);
      ResolveSettles(db.leagues, LeagueKind, Some(leagueName), Some(sport), None, Some(LEAGUE_COUNTRY), FillIfNull);
      if !Falsy(lid) {
        var db2 := ProcessRows(db1, rows, lid.value, sport, p);
        ProcessRowsGrows(db1, rows, lid.value, sport, p);
        ProcessRowsAbsorb(db1, rows, lid.value, sport, p);
        SettledResolveReadsOnly(db2.leagues, LeagueKind, Some(leagueName), Some(sport), None, Some(LEAGUE_COUNTRY), FillIfNull, NoFault);
        AbsorbedRowsChangeNothing(db2, rows, lid.value, sport, p);
      } else {
        SettledResolveReadsOnly(db1.leagues, LeagueKind, Some(leagueName), Some(sport), None, Some(LEAGUE_COUNTRY), FillIfNull, NoFault);
      }
    }
  }
}
