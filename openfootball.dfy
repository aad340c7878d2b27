/**
 * `collect_openfootball.py`: a football.json season file mapped to matches
 * and upserted keyed by an id built from the date and the team names.
 */
module OpenFootball {
  import opened Wrappers
  import opened Text
  import opened Json
  import opened Dates
  import opened Outcome
  import opened Store
  import opened Resolver
  import opened Upsert

  const SOURCE_NAME: string := "OpenFootball_football.json"

  /** Inserted and updated matches. */
  datatype Counts = Counts(insertedMatches: nat, updatedMatches: nat)
  {
    function Plus(o: Counts): Counts
    {
      Counts(insertedMatches + o.insertedMatches, updatedMatches + o.updatedMatches)
    }
  }

  const NoCounts: Counts := Counts(0, 0)

  /** `_extract_team_name`: the `name` of an object, a string itself, and None for anything else. */
  function ExtractTeamName(team: Json): (r: Json)
    ensures team.JDict? ==> r == Get(team.fields, "name")
    ensures team.JStr? ==> r == team
    ensures !team.JDict? && !team.JStr? ==> r == JNull
  {
    match team
    case JDict(fields) => Get(fields, "name")
    case JStr(_) => team
    case _ => JNull
  }

  /** A date with a 'T' is read by `fromisoformat`, its 'Z' written as '+00:00'; any other by `%Y-%m-%d`. */
  function MatchDate(p: Parser, raw: string): (r: Option<Stamp>)
    ensures 'T' in raw ==> r == p(ReplaceCharWith(raw, 'Z', "+00:00"), IsoFormat)
    ensures 'T' !in raw ==> r == p(raw, YearMonthDay)
  {
    if 'T' in raw then p(ReplaceCharWith(raw, 'Z', "+00:00"), IsoFormat) else p(raw, YearMonthDay)
  }

  /** An `ft` entry of two values: a list of exactly two. */
  predicate IsPair(ft: Json)
  {
    ft.JList? && |ft.items| == 2
  }

  /**
   * The result of a match kicking off at `kickoff`, when the clock reads
   * `now`. `None` where Python raises: a `score` that is not an object, or an
   * unscored match whose kickoff cannot be compared with `now` (one carries a
   * UTC offset and the other does not).
   */
  function ReadResult(e: Object, kickoff: Stamp, now: DateTime): (r: Option<Scoreline>)
    ensures !GetOr(e, "score", JDict(map[])).JDict? ==> r.None?
    ensures r.Some? ==> r.value.Consistent()
    ensures GetOr(e, "score", JDict(map[])).JDict? ==>
              var ft := Get(GetOr(e, "score", JDict(map[])).fields, "ft");
              && (IsPair(ft) ==> r.Some? && (r.value.status == FINISHED <==> PyInt(ft.items[0]).Some? && PyInt(ft.items[1]).Some?))
              && (IsPair(ft) && r.value.status == FINISHED ==> (r.value.homeScore, r.value.awayScore) == (PyInt(ft.items[0]), PyInt(ft.items[1])))
              && (IsPair(ft) && r.value.status != FINISHED ==> r.value.status == SCHEDULED)
              && (!IsPair(ft) ==> (r.None? <==> kickoff.aware != now.aware))
              && (!IsPair(ft) && r.Some? ==> r.value.status == (if kickoff.Ordinal() > now.Ordinal() then SCHEDULED else UNKNOWN_SCORE))
  {
    var score := GetOr(e, "score", JDict(map[]));
    if !score.JDict? then None
    else
      var ft := Get(score.fields, "ft");
      if Truthy(ft) && IsPair(ft) then
        var h, a := PyInt(ft.items[0]), PyInt(ft.items[1]);
        if h.Some? && a.Some? then Some(Played(h.value, a.value))
        else Some(Unplayed(SCHEDULED))
      else
        match After(kickoff, now)
        case None => None
        case Some(later) => Some(Unplayed(if later then SCHEDULED else UNKNOWN_SCORE))
  }

  /** `ofj_<YYYYMMDD>_<team1>_<team2>_<league>`: team names without spaces, the league's first word. */
  function SourceMatchId(kickoff: Stamp, team1: string, team2: string, league: string): string
  {
    "ofj_" + kickoff.Compact() + "_" + RemoveChar(team1, ' ') + "_" + RemoveChar(team2, ' ') + "_" +
    RemoveChar(FirstField(league, ' '), ' ')
  }

  /** The id holds no space. */
  lemma SourceMatchIdHasNoSpace(kickoff: Stamp, team1: string, team2: string, league: string)
    ensures ' ' !in SourceMatchId(kickoff, team1, team2, league)
  {
    var a, b, c := RemoveChar(team1, ' '), RemoveChar(team2, ' '), RemoveChar(FirstField(league, ' '), ' ');
    var k := kickoff.Compact();
    assert ' ' !in k by {
      assert forall i :: 0 <= i < |k| ==> IsDigit(k[i]) by {
        assert k == NatStr(kickoff.year) + Pad2(kickoff.month) + Pad2(kickoff.day);
        assert IsDigits(NatStr(kickoff.year)) && IsDigits(Pad2(kickoff.month)) && IsDigits(Pad2(kickoff.day));
      }
    }
    SpaceFreeConcat("ofj_", k);
    SpaceFreeConcat("ofj_" + k, "_");
    SpaceFreeConcat("ofj_" + k + "_", a);
    SpaceFreeConcat("ofj_" + k + "_" + a, "_");
    SpaceFreeConcat("ofj_" + k + "_" + a + "_", b);
    SpaceFreeConcat("ofj_" + k + "_" + a + "_" + b, "_");
    SpaceFreeConcat("ofj_" + k + "_" + a + "_" + b + "_", c);
  }

  lemma SpaceFreeConcat(x: string, y: string)
    requires ' ' !in x && ' ' !in y
    ensures ' ' !in x + y
  {
    forall i | 0 <= i < |x + y| ensures (x + y)[i] != ' ' {
      if i < |x| {
        assert (x + y)[i] == x[i];
      } else {
        assert (x + y)[i] == y[i - |x|];
      }
    }
  }

  /** Matches of the same teams and league on two different calendar days (years from 1000 on) get different ids. */
  lemma SourceMatchIdSeparatesDays(d1: Stamp, d2: Stamp, team1: string, team2: string, league: string)
    requires d1.year >= 1000 && d2.year >= 1000
    requires SourceMatchId(d1, team1, team2, league) == SourceMatchId(d2, team1, team2, league)
    ensures d1.year == d2.year && d1.month == d2.month && d1.day == d2.day
  {
    FourDigits(d1.year);
    FourDigits(d2.year);
    var s1, s2 := SourceMatchId(d1, team1, team2, league), SourceMatchId(d2, team1, team2, league);
    assert |d1.Compact()| == 8 && |d2.Compact()| == 8;
    assert s1[4..12] == d1.Compact();
    assert s2[4..12] == d2.Compact();
    CompactInjective(d1, d2);
  }

  /** What one match contributes once its teams are known. */
  datatype MatchRow = MatchRow(key: MatchKey, kickoff: string, result: Scoreline, stage: Option<string>)

  /**
   * Reading a match: `None` (the match is skipped) for a missing date, a
   * date that is not text or does not parse, and where the result raises.
   */
  function ReadMatch(e: Object, team1: string, team2: string, league: string, p: Parser, now: DateTime): (r: Option<MatchRow>)
    ensures !Truthy(Get(e, "date")) || !Get(e, "date").JStr? ==> r.None?
    ensures r.Some? ==> var d := MatchDate(p, Get(e, "date").s);
                        && d.Some?
                        && r.value.key == MatchKey(SourceMatchId(d.value, team1, team2, league), SOURCE_NAME)
                        && r.value.kickoff == d.value.IsoZ()
                        && Some(r.value.result) == ReadResult(e, d.value, now)
  {
    var raw := Get(e, "date");
    if !Truthy(raw) || !raw.JStr? then None
    else
      var d := MatchDate(p, raw.s);
      if d.None? then None
      else
        var res := ReadResult(e, d.value, now);
        if res.None? then None
        else
          var stage := if Truthy(Get(e, "round")) then Get(e, "round") else Get(e, "group");
          Some(MatchRow(MatchKey(SourceMatchId(d.value, team1, team2, league), SOURCE_NAME), d.value.IsoZ(), res.value, AsText(stage)))
  }

  /** The payload: `is_mock` 0 and no `matchday` column. */
  function Payload(row: MatchRow, league: int, home: int, away: int): Match
  {
    Match(Some(league), Some(home), Some(away), row.kickoff, Some(row.result.status), row.result.homeScore,
          row.result.awayScore, row.result.winner, row.stage, None, false)
  }

  /** The match upsert; an insert whose `lastrowid` is falsy is not counted. */
  function StoreMatch(db: Db, row: MatchRow, league: int, home: int, away: int): (Db, Counts)
  {
    var (mt, mid, ch) := UpsertMatch(db.matches, row.key, Payload(row, league, home, away), WithoutWinner, AllButMatchday);
    (db.(matches := mt), Counts(if ch == Inserted && mid != 0 then 1 else 0, if ch == Updated then 1 else 0))
  }

  /**
   * One match. A value that is not an object raises before any write; a
   * missing team name skips the match; teams are resolved with no source id;
   * a team or league name that is not text raises at the id builder, after
   * the teams are written.
   */
  function ProcessMatch(db: Db, ev: Json, league: int, leagueName: Json, sport: string, p: Parser, now: DateTime): (Db, Counts)
  {
    if !ev.JDict? then (db, NoCounts)
    else
      var e := ev.fields;
      var t1, t2 := ExtractTeamName(Get(e, "team1")), ExtractTeamName(Get(e, "team2"));
      if !Truthy(t1) || !Truthy(t2) then (db, NoCounts)
      else
        var (db2, hid, aid) := ResolvePair(db, AsText(t1), AsText(t2), Some(sport), None, None, Overwrite);
        if Falsy(hid) || Falsy(aid) || !t1.JStr? || !t2.JStr? || !leagueName.JStr? then (db2, NoCounts)
        else
          var row := ReadMatch(e, t1.s, t2.s, leagueName.s, p, now);
          if row.None? then (db2, NoCounts)
          else StoreMatch(db2, row.value, league, hid.value, aid.value)
  }

  /** The matches in order. */
  function ProcessMatches(db: Db, matches: seq<Json>, league: int, leagueName: Json, sport: string, p: Parser, now: DateTime): (Db, Counts)
    decreases |matches|
  {
    if matches == [] then (db, NoCounts)
    else
      var (d, c) := ProcessMatches(db, matches[..|matches| - 1], league, leagueName, sport, p, now);
      var (d', c') := ProcessMatch(d, matches[|matches| - 1], league, leagueName, sport, p, now);
      (d', c.Plus(c'))
  }

  /** The match entries iterated: a list's items; any other value yields entries that are all skipped. */
  function MatchEntries(j: Json): seq<Json>
  {
    if j.JList? then j.items else []
  }

  /**
   * `parse_and_store_football_json`: nothing for an empty file or a missing
   * league name; the league is resolved once and its failure aborts; an
   * empty match list stops after the league is written; a failed commit
   * reports zero counts.
   */
  function StoreDataset(db: Db, data: Object, country: Option<string>, sport: string, p: Parser, now: DateTime, commitOk: bool): (Db, Counts)
  {
    if data == map[] then (db, NoCounts)
    else
      var name := Get(data, "name");
      if !Truthy(name) then (db, NoCounts)
      else
        var (db1, lid) := ResolveDb(db, LeagueKind, AsText(name), Some(sport), None, country, Overwrite, NoFault);
        if Falsy(lid) then (db1, NoCounts)
        else
          var list := GetOr(data, "matches", JList([]));
          if !Truthy(list) then (db1, NoCounts)
          else
            var (db2, c) := ProcessMatches(db1, MatchEntries(list), lid.value, name, sport, p, now);
            (db2, if commitOk then c else NoCounts)
  }

  /** One match on the connection. */
  method ProcessMatchStep(conn: Connection, ev: Json, league: int, leagueName: Json, sport: string, p: Parser, now: DateTime)
    returns (c: Counts)
    modifies conn
    ensures (conn.Snapshot(), c) == ProcessMatch(old(conn.Snapshot()), ev, league, leagueName, sport, p, now)
    ensures conn.schema == old(conn.schema)
  {
    c := NoCounts;
    if !ev.JDict? {
      return;
    }
    var e := ev.fields;
    var t1, t2 := ExtractTeamName(Get(e, "team1")), ExtractTeamName(Get(e, "team2"));
    if !Truthy(t1) || !Truthy(t2) {
      return;
    }
    var hid := GetOrCreateEntityId(conn, TeamKind, AsText(t1), Some(sport), None, None, Overwrite, NoFault);
    var aid := GetOrCreateEntityId(conn, TeamKind, AsText(t2), Some(sport), None, None, Overwrite, NoFault);
    if Falsy(hid) || Falsy(aid) || !t1.JStr? || !t2.JStr? || !leagueName.JStr? {
      return;
    }
    var row := ReadMatch(e, t1.s, t2.s, leagueName.s, p, now);
    if row.None? {
      return;
    }
    var mid, ch := UpsertMatchRow(conn, row.value.key, Payload(row.value, league, hid.value, aid.value), WithoutWinner, AllButMatchday);
    c := Counts(if ch == Inserted && mid != 0 then 1 else 0, if ch == Updated then 1 else 0);
  }

  /** `parse_and_store_football_json` on the connection. */
  method ParseAndStoreFootballJson(conn: Connection, data: Object, country: Option<string>, sport: string, p: Parser,
                                   now: DateTime, commitOk: bool) returns (c: Counts)
    modifies conn
    ensures (conn.Snapshot(), c) == StoreDataset(old(conn.Snapshot()), data, country, sport, p, now, commitOk)
    ensures conn.schema == old(conn.schema)
  {
    if data == map[] {
      return NoCounts;
    }
    var name := Get(data, "name");
    if !Truthy(name) {
      return NoCounts;
    }
    var lid := GetOrCreateEntityId(conn, LeagueKind, AsText(name), Some(sport), None, country, Overwrite, NoFault);
    if Falsy(lid) {
      return NoCounts;
    }
    var entries := GetOr(data, "matches", JList([]));
    if !Truthy(entries) {
      return NoCounts;
    }
    ghost var start := conn.Snapshot();
    var list := MatchEntries(entries);
    c := NoCounts;
    for i := 0 to |list|
      invariant (conn.Snapshot(), c) == ProcessMatches(start, list[..i], lid.value, name, sport, p, now)
      invariant conn.schema == old(conn.schema)
    {
      assert list[..i + 1][..i] == list[..i];
      var ci := ProcessMatchStep(conn, list[i], lid.value, name, sport, p, now);
      c := c.Plus(ci);
    }
    assert list[..|list|] == list;
    if !commitOk {
      c := NoCounts;
    }
  }

  /** A match that is not an object, or lacks a team name, is skipped with no write. */
  lemma IncompleteMatchSkipped(db: Db, ev: Json, league: int, leagueName: Json, sport: string, p: Parser, now: DateTime)
    requires !ev.JDict? || !Truthy(ExtractTeamName(Get(ev.fields, "team1"))) || !Truthy(ExtractTeamName(Get(ev.fields, "team2")))
    ensures ProcessMatch(db, ev, league, leagueName, sport, p, now) == (db, NoCounts)
  {
  }

  /**
   * A match without a score whose kickoff carries a UTC offset, while the
   * clock does not, raises `TypeError` at the comparison and is never
   * stored: this is the case of every unplayed fixture dated
   * `YYYY-MM-DDTHH:MM:SSZ` when the parser reads the offset.
   */
  lemma AwareUnscoredSkipped(e: Object, team1: string, team2: string, league: string, p: Parser, now: DateTime)
    requires !now.aware
    requires GetOr(e, "score", JDict(map[])).JDict? && !IsPair(Get(GetOr(e, "score", JDict(map[])).fields, "ft"))
    requires Get(e, "date").JStr? && MatchDate(p, Get(e, "date").s).Some? && MatchDate(p, Get(e, "date").s).value.aware
    ensures ReadMatch(e, team1, team2, league, p, now).None?
  {
  }

  /** A league name that is missing or false stops the file with nothing written. */
  lemma NoLeagueNameCountsNothing(db: Db, data: Object, country: Option<string>, sport: string, p: Parser, now: DateTime, commitOk: bool)
    requires !Truthy(Get(data, "name"))
    ensures StoreDataset(db, data, country, sport, p, now, commitOk) == (db, NoCounts)
  {
  }

  /** An empty or missing match list writes the league row only, and counts nothing. */
  lemma EmptyMatchListWritesOnlyLeague(db: Db, data: Object, country: Option<string>, sport: string, p: Parser, now: DateTime, commitOk: bool)
    requires !Truthy(GetOr(data, "matches", JList([])))
    ensures var (db1, c) := StoreDataset(db, data, country, sport, p, now, commitOk);
            c == NoCounts && db1 == db.(leagues := db1.leagues)
  {
  }

  /** A failed commit reports zero counts for the whole file. */
  lemma CommitFailureCountsNothing(db: Db, data: Object, country: Option<string>, sport: string, p: Parser, now: DateTime)
    ensures StoreDataset(db, data, country, sport, p, now, false).1 == NoCounts
  {
  }

  /** Storing the same row again, with the same ids, changes nothing and counts nothing. */
  lemma StoreMatchSettles(db: Db, row: MatchRow, league: int, home: int, away: int)
    ensures var (db1, _) := StoreMatch(db, row, league, home, away);
            StoreMatch(db1, row, league, home, away) == (db1, NoCounts)
  {
    UpsertSettles(db.matches, row.key, Payload(row, league, home, away), WithoutWinner, AllButMatchday);
  }

  /**
   * Re-processing an unchanged match, with the clock unchanged, inserts
   * nothing and updates nothing, provided its two team names differ.
   */
  lemma ReprocessMatchChangesNothing(db: Db, ev: Json, league: int, leagueName: Json, sport: string, p: Parser, now: DateTime)
    requires db.Valid()
    requires ev.JDict? ==> AsText(ExtractTeamName(Get(ev.fields, "team1"))) != AsText(ExtractTeamName(Get(ev.fields, "team2")))
    ensures var (db1, _) := ProcessMatch(db, ev, league, leagueName, sport, p, now);
            ProcessMatch(db1, ev, league, leagueName, sport, p, now) == (db1, NoCounts)
  {
    if ev.JDict? && Truthy(ExtractTeamName(Get(ev.fields, "team1"))) && Truthy(ExtractTeamName(Get(ev.fields, "team2"))) {
      ReprocessNamedMatch(db, ev, league, leagueName, sport, p, now);
    }
  }

  /** ReprocessMatchChangesNothing for a match that names both its teams. */
  lemma ReprocessNamedMatch(db: Db, ev: Json, league: int, leagueName: Json, sport: string, p: Parser, now: DateTime)
    requires db.Valid() && ev.JDict?
    requires var t1, t2 := ExtractTeamName(Get(ev.fields, "team1")), ExtractTeamName(Get(ev.fields, "team2"));
             Truthy(t1) && Truthy(t2) && AsText(t1) != AsText(t2)
    ensures var (db1, _) := ProcessMatch(db, ev, league, leagueName, sport, p, now);
            ProcessMatch(db1, ev, league, leagueName, sport, p, now) == (db1, NoCounts)
  {
    var e := ev.fields;
    var t1, t2 := ExtractTeamName(Get(e, "team1")), ExtractTeamName(Get(e, "team2"));
    ResolvePairSettles(db, AsText(t1), AsText(t2), Some(sport), None, None, Overwrite);
    var (db2, hid, aid) := ResolvePair(db, AsText(t1), AsText(t2), Some(sport), None, None, Overwrite);
    if !Falsy(hid) && !Falsy(aid) && t1.JStr? && t2.JStr? && leagueName.JStr? {
      var row := ReadMatch(e, t1.s, t2.s, leagueName.s, p, now);
      if row.Some? {
        StoreMatchSettles(db2, row.value, league, hid.value, aid.value);
        var db1 := StoreMatch(db2, row.value, league, hid.value, aid.value).0;
        assert db1.teams == db2.teams;
        ResolvePairSameTeams(db2, db1, AsText(t1), AsText(t2), Some(sport), None, None, Overwrite);
        assert ProcessMatch(db, ev, league, leagueName, sport, p, now).0 == db1;
        assert ProcessMatch(db1, ev, league, leagueName, sport, p, now) == StoreMatch(db1, row.value, league, hid.value, aid.value);
      } else {
        assert ProcessMatch(db, ev, league, leagueName, sport, p, now).0 == db2;
      }
    } else {
      assert ProcessMatch(db, ev, league, leagueName, sport, p, now).0 == db2;
    }
  }

  /** One match keeps the store valid. */
  lemma ProcessMatchValid(db: Db, ev: Json, league: int, leagueName: Json, sport: string, p: Parser, now: DateTime)
    requires db.Valid()
    ensures ProcessMatch(db, ev, league, leagueName, sport, p, now).0.Valid()
  {
    if ev.JDict? {
      var e := ev.fields;
      var t1, t2 := ExtractTeamName(Get(e, "team1")), ExtractTeamName(Get(e, "team2"));
      if Truthy(t1) && Truthy(t2) {
        ResolvePairValid(db, AsText(t1), AsText(t2), Some(sport), None, None, Overwrite);
        var (db2, hid, aid) := ResolvePair(db, AsText(t1), AsText(t2), Some(sport), None, None, Overwrite);
        if !Falsy(hid) && !Falsy(aid) && t1.JStr? && t2.JStr? && leagueName.JStr? {
          var row := ReadMatch(e, t1.s, t2.s, leagueName.s, p, now);
          if row.Some? {
            StoreMatchValid(db2, row.value, league, hid.value, aid.value);
            assert ProcessMatch(db, ev, league, leagueName, sport, p, now) == StoreMatch(db2, row.value, league, hid.value, aid.value);
          } else {
            assert ProcessMatch(db, ev, league, leagueName, sport, p, now).0 == db2;
          }
        } else {
          assert ProcessMatch(db, ev, league, leagueName, sport, p, now).0 == db2;
        }
      }
    }
  }

  /** Storing one match keeps the store valid. */
  lemma StoreMatchValid(db: Db, row: MatchRow, league: int, home: int, away: int)
    requires db.Valid()
    ensures StoreMatch(db, row, league, home, away).0.Valid()
  {
    var m := Payload(row, league, home, away);
    if row.key in db.matches.rows {
      UpsertUpdatesPresent(db.matches, row.key, m, WithoutWinner, AllButMatchday);
    } else {
      UpsertInsertsAbsent(db.matches, row.key, m, WithoutWinner, AllButMatchday);
    }
  }

  /** The whole file keeps the store valid. */
  lemma {:induction false} ProcessMatchesValid(db: Db, matches: seq<Json>, league: int, leagueName: Json, sport: string, p: Parser, now: DateTime)
    requires db.Valid()
    ensures ProcessMatches(db, matches, league, leagueName, sport, p, now).0.Valid()
    decreases |matches|
  {
    if matches != [] {
      ProcessMatchesValid(db, matches[..|matches| - 1], league, leagueName, sport, p, now);
      ProcessMatchValid(ProcessMatches(db, matches[..|matches| - 1], league, leagueName, sport, p, now).0,
                        matches[|matches| - 1], league, leagueName, sport, p, now);
    }
  }
}
