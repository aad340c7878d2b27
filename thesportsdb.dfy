/**
 * `connector_thesportsdb.py`: TheSportsDB events are mapped to matches and
 * shot statistics and upserted keyed by (idEvent, 'TheSportsDB').
 */
module TheSportsDb {
  import opened Wrappers
  import opened Text
  import opened Json
  import opened Dates
  import opened Outcome
  import opened Store
  import opened Resolver
  import opened Upsert

  const SOURCE_NAME: string := "TheSportsDB"
  const SHOTS: string := "shots_total"

  /** `map_status_thesportsdb`: API status and scores to the stored status. */
  function MapStatus(apiStatus: Json, home: Option<int>, away: Option<int>): (s: string)
    ensures apiStatus == JStr("Match Finished") ==> s == FINISHED
    ensures apiStatus in {JStr("Not Started"), JStr("Match Postponed"), JStr("Match Cancelled")} ==> s == SCHEDULED
    ensures apiStatus == JStr("Live") ==> s == LIVE
    ensures apiStatus !in {JStr("Match Finished"), JStr("Not Started"), JStr("Match Postponed"), JStr("Match Cancelled"), JStr("Live")} ==>
              (s == FINISHED <==> home.Some? && away.Some?) && (s != FINISHED ==> s == SCHEDULED)
  {
    if apiStatus == JStr("Match Finished") then FINISHED
    else if apiStatus == JStr("Not Started") || apiStatus == JStr("Match Postponed") || apiStatus == JStr("Match Cancelled") then SCHEDULED
    else if apiStatus == JStr("Live") then LIVE
    else if home.Some? && away.Some? then FINISHED
    else SCHEDULED
  }

  /** The winner is recorded only for a FINISHED match with both scores. */
  function EventWinner(status: string, home: Option<int>, away: Option<int>): (w: Option<string>)
    ensures w.Some? <==> status == FINISHED && home.Some? && away.Some?
    ensures w.Some? ==> w.value == DeriveWinner(home.value, away.value).Label()
  {
    if status == FINISHED && home.Some? && away.Some? then Some(DeriveWinner(home.value, away.value).Label()) else None
  }

  /** `strTime`: a time containing a letter becomes midnight; a value that is not text cannot be scanned. */
  function EventTime(j: Json): (r: Option<string>)
    ensures r.Some? <==> j.JStr?
    ensures j.JStr? && (exists i :: 0 <= i < |j.s| && IsAlpha(j.s[i])) ==> r == Some("00:00:00")
    ensures j.JStr? && (forall i :: 0 <= i < |j.s| ==> !IsAlpha(j.s[i])) ==> r == Some(j.s)
  {
    if !j.JStr? then None
    else if exists i :: 0 <= i < |j.s| && IsAlpha(j.s[i]) then Some("00:00:00")
    else Some(j.s)
  }

  const EventFormats: seq<Format> := [YearMonthDayHms, YearMonthDayHm, DayMonthYear2Hms]

  /** `"<date> <time>"` in the first of three formats that parses it, else the date alone as `%Y-%m-%d`. */
  function Kickoff(p: Parser, date: Json, time: string): (r: Option<Stamp>)
    ensures FirstParse(p, PyStr(date) + " " + time, EventFormats).Some? ==> r == FirstParse(p, PyStr(date) + " " + time, EventFormats)
    ensures FirstParse(p, PyStr(date) + " " + time, EventFormats).None? ==> r == (if date.JStr? then p(date.s, YearMonthDay) else None)
  {
    var first := FirstParse(p, PyStr(date) + " " + time, EventFormats);
    if first.Some? then first
    else if date.JStr? then p(date.s, YearMonthDay)
    else None
  }

  /** What one event contributes once its teams are known. */
  datatype EventRow = EventRow(
    key: MatchKey,
    kickoff: string,
    status: string,
    homeScore: Option<int>,
    awayScore: Option<int>,
    winner: Option<string>,
    stage: Option<string>,
    homeShots: Option<string>,
    awayShots: Option<string>)

  /** `str(x)` of a value that is not None. */
  function ValueText(j: Json): Option<string>
  {
    if j.JNull? then None else Some(PyStr(j))
  }

  /**
   * Reading an event after its teams are resolved: `None` when the date is
   * missing, when the time or the date cannot be parsed, or when `int()`
   * rejects a score. Each of these skips the event.
   */
  function ReadEvent(e: Object, p: Parser): (r: Option<EventRow>)
    ensures !Truthy(Get(e, "dateEvent")) ==> r.None?
    ensures Truthy(Get(e, "dateEvent")) && EventTime(GetOr(e, "strTime", JStr("00:00:00"))).None? ==> r.None?
    ensures r.Some? <==>
              && Truthy(Get(e, "dateEvent"))
              && EventTime(GetOr(e, "strTime", JStr("00:00:00"))).Some?
              && Kickoff(p, Get(e, "dateEvent"), EventTime(GetOr(e, "strTime", JStr("00:00:00"))).value).Some?
              && (Get(e, "intHomeScore").JNull? || PyInt(Get(e, "intHomeScore")).Some?)
              && (Get(e, "intAwayScore").JNull? || PyInt(Get(e, "intAwayScore")).Some?)
    ensures r.Some? ==> r.value.key == MatchKey(PyStr(Get(e, "idEvent")), SOURCE_NAME)
    ensures r.Some? ==> r.value.kickoff == Kickoff(p, Get(e, "dateEvent"), EventTime(GetOr(e, "strTime", JStr("00:00:00"))).value).value.IsoZ()
    ensures r.Some? ==> r.value.status == MapStatus(GetOr(e, "strStatus", JStr("Not Started")), r.value.homeScore, r.value.awayScore)
    ensures r.Some? ==> r.value.winner == EventWinner(r.value.status, r.value.homeScore, r.value.awayScore)
    ensures r.Some? ==> r.value.homeScore == PyInt(Get(e, "intHomeScore")) && r.value.awayScore == PyInt(Get(e, "intAwayScore"))
    ensures r.Some? ==> r.value.stage == AsText(Get(e, "strRound"))
    ensures r.Some? ==> r.value.homeShots == ValueText(Get(e, "intHomeShots")) && r.value.awayShots == ValueText(Get(e, "intAwayShots"))
  {
    var date := Get(e, "dateEvent");
    if !Truthy(date) then None
    else
      var time := EventTime(GetOr(e, "strTime", JStr("00:00:00")));
      if time.None? then None
      else
        var kickoff := Kickoff(p, date, time.value);
        if kickoff.None? then None
        else
          var hv, av := Get(e, "intHomeScore"), Get(e, "intAwayScore");
          if (!hv.JNull? && PyInt(hv).None?) || (!av.JNull? && PyInt(av).None?) then None
          else
            var status := MapStatus(GetOr(e, "strStatus", JStr("Not Started")), PyInt(hv), PyInt(av));
            Some(EventRow(
              MatchKey(PyStr(Get(e, "idEvent")), SOURCE_NAME), kickoff.value.IsoZ(), status, PyInt(hv), PyInt(av),
              EventWinner(status, PyInt(hv), PyInt(av)), AsText(Get(e, "strRound")),
              ValueText(Get(e, "intHomeShots")), ValueText(Get(e, "intAwayShots"))))
  }

  /** The match payload: `is_mock` 0 and no `matchday` column. */
  function Payload(row: EventRow, league: int, home: int, away: int): Match
  {
    Match(Some(league), Some(home), Some(away), row.kickoff, Some(row.status), row.homeScore, row.awayScore,
          row.winner, row.stage, None, false)
  }

  /** The shot counts to upsert, home first, each only when present. */
  function ShotItems(row: EventRow, home: int, away: int): (items: seq<(int, string)>)
    ensures |items| == (if row.homeShots.Some? then 1 else 0) + (if row.awayShots.Some? then 1 else 0)
    ensures row.homeShots.Some? ==> items[0] == (home, row.homeShots.value)
    ensures row.awayShots.Some? ==> items[|items| - 1] == (away, row.awayShots.value)
  {
    (if row.homeShots.Some? then [(home, row.homeShots.value)] else []) +
    (if row.awayShots.Some? then [(away, row.awayShots.value)] else [])
  }

  /** The per-batch counters: inserted and updated matches, inserted and updated stats. */
  datatype Counts = Counts(insertedMatches: nat, updatedMatches: nat, insertedStats: nat, updatedStats: nat)
  {
    function Plus(o: Counts): Counts
    {
      Counts(insertedMatches + o.insertedMatches, updatedMatches + o.updatedMatches,
             insertedStats + o.insertedStats, updatedStats + o.updatedStats)
    }
  }

  const NoCounts: Counts := Counts(0, 0, 0, 0)

  /** The stats upserts of one match, in order, with the inserted and updated counts. */
  function UpsertShots(stats: seq<Stat>, matchId: int, items: seq<(int, string)>): (seq<Stat>, nat, nat)
    decreases |items|
  {
    if items == [] then (stats, 0, 0)
    else
      var (s, ins, upd) := UpsertShots(stats, matchId, items[..|items| - 1]);
      var (s', ch) := UpsertStat(s, matchId, items[|items| - 1].0, SHOTS, items[|items| - 1].1);
      (s', ins + (if ch == Inserted then 1 else 0), upd + (if ch == Updated then 1 else 0))
  }

  /**
   * One event: resolve both teams, read the event, upsert the match, then
   * its shot stats. Only objects get here: StoreEvents stops the batch at
   * the first value that is not one.
   */
  function ProcessEvent(db: Db, ev: Json, league: int, sport: string, p: Parser): (Db, Counts)
  {
    if !ev.JDict? then (db, NoCounts)
    else
      var e := ev.fields;
      var hn, an, hs, as_ := Get(e, "strHomeTeam"), Get(e, "strAwayTeam"), Get(e, "idHomeTeam"), Get(e, "idAwayTeam");
      if !Truthy(hn) || !Truthy(an) || !Truthy(hs) || !Truthy(as_) then (db, NoCounts)
      else
        var (db2, hid, aid) := ResolvePair(db, AsText(hn), AsText(an), Some(sport), Some(PyStr(hs)), Some(PyStr(as_)), FillIfNull);
        if Falsy(hid) || Falsy(aid) then (db2, NoCounts)
        else
          var row := ReadEvent(e, p);
          if row.None? then (db2, NoCounts)
          else StoreRow(db2, row.value, league, hid.value, aid.value)
  }

  /** The match upsert of an event read with both teams resolved, then its shot stats. */
  function StoreRow(db: Db, row: EventRow, league: int, home: int, away: int): (Db, Counts)
  {
    var (mt, mid, ch) := UpsertMatch(db.matches, row.key, Payload(row, league, home, away), WithWinner, AllButMatchday);
    var c := Counts(if ch == Inserted && mid != 0 then 1 else 0, if ch == Updated then 1 else 0, 0, 0);
    if mid == 0 then (db.(matches := mt), c)
    else
      var (st, si, su) := UpsertShots(db.stats, mid, ShotItems(row, home, away));
      (db.(matches := mt, stats := st), c.(insertedStats := si, updatedStats := su))
  }

  /** The events in order. */
  function ProcessEvents(db: Db, events: seq<Json>, league: int, sport: string, p: Parser): (Db, Counts)
    decreases |events|
  {
    if events == [] then (db, NoCounts)
    else
      var (d, c) := ProcessEvents(db, events[..|events| - 1], league, sport, p);
      var (d', c') := ProcessEvent(d, events[|events| - 1], league, sport, p);
      (d', c.Plus(c'))
  }

  /** One more event extends the fold by that event's step. */
  lemma ProcessEventsExtend(db: Db, events: seq<Json>, i: nat, league: int, sport: string, p: Parser)
    requires i < |events|
    ensures var before := ProcessEvents(db, events[..i], league, sport, p);
            var step := ProcessEvent(before.0, events[i], league, sport, p);
            ProcessEvents(db, events[..i + 1], league, sport, p) == (step.0, before.1.Plus(step.1))
  {
    assert events[..i + 1][..i] == events[..i];
  }

  /** TheSportsDB's "Soccer" is stored as "football"; any other sport lower-cased. */
  function DbSport(sportName: string): string
  {
    if Lower(sportName) == "soccer" then "football" else Lower(sportName)
  }

  /**
   * Where a batch ends: the store the connection sees, the counts returned
   * (None when the function raised instead of returning), and whether the
   * commit was reached and succeeded.
   */
  datatype Batch = Batch(db: Db, counts: Option<Counts>, committed: bool)

  /**
   * `process_and_store_events`: nothing for an empty batch; the league is
   * resolved once and its failure aborts the batch. An event that is not an
   * object makes the first `.get` raise, and the handler's own
   * `event.get('idEvent')` raises again, out of the function: the events
   * before it stay written but uncommitted and nothing is returned. A failed
   * commit reports zero counts.
   */
  function StoreEvents(db: Db, events: Option<seq<Json>>, sportName: string, leagueName: Option<string>,
                       leagueApiId: Json, country: Option<string>, p: Parser, commitOk: bool): Batch
  {
    if events.None? || events.value == [] then Batch(db, Some(NoCounts), false)
    else
      var sport := DbSport(sportName);
      var (db1, lid) := ResolveDb(db, LeagueKind, leagueName, Some(sport), Some(PyStr(leagueApiId)), country, FillIfNull, NoFault);
      if Falsy(lid) then Batch(db1, Some(NoCounts), false)
      else
        var k := FirstNonObject(events.value);
        var (db2, c) := ProcessEvents(db1, events.value[..k], lid.value, sport, p);
        if k < |events.value| then Batch(db2, None, false)
        else Batch(db2, Some(if commitOk then c else NoCounts), commitOk)
  }

  /** The stats loop of one match. */
  method UpsertShotRows(conn: Connection, matchId: int, items: seq<(int, string)>) returns (ins: nat, upd: nat)
    modifies conn
    ensures (conn.stats, ins, upd) == UpsertShots(old(conn.stats), matchId, items)
    ensures conn.leagues == old(conn.leagues) && conn.teams == old(conn.teams) && conn.matches == old(conn.matches)
    ensures conn.odds == old(conn.odds) && conn.schema == old(conn.schema)
  {
    ins, upd := 0, 0;
    for i := 0 to |items|
      invariant (conn.stats, ins, upd) == UpsertShots(old(conn.stats), matchId, items[..i])
      invariant conn.leagues == old(conn.leagues) && conn.teams == old(conn.teams) && conn.matches == old(conn.matches)
      invariant conn.odds == old(conn.odds) && conn.schema == old(conn.schema)
    {
      assert items[..i + 1][..i] == items[..i];
      var (teamId, value) := items[i];
      var found := FindStat(conn.stats, matchId, teamId, SHOTS);
      if found.Some? {
        if conn.stats[found.value].value != value {
          conn.stats := conn.stats[found.value := conn.stats[found.value].(value := value)];
          upd := upd + 1;
        }
      } else {
        conn.stats := conn.stats + [Stat(Some(matchId), Some(teamId), SHOTS, value, None)];
        ins := ins + 1;
      }
    }
    assert items[..|items|] == items;
  }

  /** One event on the connection. */
  method ProcessEventStep(conn: Connection, ev: Json, league: int, sport: string, p: Parser) returns (c: Counts)
    modifies conn
    ensures (conn.Snapshot(), c) == ProcessEvent(old(conn.Snapshot()), ev, league, sport, p)
    ensures conn.schema == old(conn.schema)
  {
    c := NoCounts;
    if !ev.JDict? {
      return;
    }
    var e := ev.fields;
    var hn, an, hs, as_ := Get(e, "strHomeTeam"), Get(e, "strAwayTeam"), Get(e, "idHomeTeam"), Get(e, "idAwayTeam");
    if !Truthy(hn) || !Truthy(an) || !Truthy(hs) || !Truthy(as_) {
      return;
    }
    var hid := GetOrCreateEntityId(conn, TeamKind, AsText(hn), Some(sport), Some(PyStr(hs)), None, FillIfNull, NoFault);
    var aid := GetOrCreateEntityId(conn, TeamKind, AsText(an), Some(sport), Some(PyStr(as_)), None, FillIfNull, NoFault);
    if Falsy(hid) || Falsy(aid) {
      return;
    }
    var row := ReadEvent(e, p);
    if row.None? {
      return;
    }
    var mid, ch := UpsertMatchRow(conn, row.value.key, Payload(row.value, league, hid.value, aid.value), WithWinner, AllButMatchday);
    c := Counts(if ch == Inserted && mid != 0 then 1 else 0, if ch == Updated then 1 else 0, 0, 0);
    if mid == 0 {
      return;
    }
    var si, su := UpsertShotRows(conn, mid, ShotItems(row.value, hid.value, aid.value));
    c := c.(insertedStats := si, updatedStats := su);
  }

  /** `process_and_store_events` on the connection: the counts, or None where it raises, and whether it committed. */
  method ProcessAndStoreEvents(conn: Connection, events: Option<seq<Json>>, sportName: string, leagueName: Option<string>,
                               leagueApiId: Json, country: Option<string>, p: Parser, commitOk: bool)
    returns (c: Option<Counts>, committed: bool)
    modifies conn
    ensures Batch(conn.Snapshot(), c, committed) == StoreEvents(old(conn.Snapshot()), events, sportName, leagueName, leagueApiId, country, p, commitOk)
    ensures conn.schema == old(conn.schema)
  {
    if events.None? || events.value == [] {
      return Some(NoCounts), false;
    }
    var sport := DbSport(sportName);
    var lid := GetOrCreateEntityId(conn, LeagueKind, leagueName, Some(sport), Some(PyStr(leagueApiId)), country, FillIfNull, NoFault);
    if Falsy(lid) {
      return Some(NoCounts), false;
    }
    ghost var start := conn.Snapshot();
    var list := events.value;
    ghost var k := FirstNonObject(list);
    var total := NoCounts;
    for i := 0 to |list|
      invariant i <= k
      invariant (conn.Snapshot(), total) == ProcessEvents(start, list[..i], lid.value, sport, p)
      invariant conn.schema == old(conn.schema)
    {
      if !list[i].JDict? {
        assert i == k;
        return None, false;
      }
      var ci := ProcessEventStep(conn, list[i], lid.value, sport, p);
      ProcessEventsExtend(start, list, i, lid.value, sport, p);
      total := total.Plus(ci);
    }
    assert k == |list| && list[..|list|] == list;
    if !commitOk {
      return Some(NoCounts), false;
    }
    return Some(total), true;
  }

  /** An event lacking a team name or an API team id is skipped with no write. */
  lemma IncompleteEventSkipped(db: Db, ev: Json, league: int, sport: string, p: Parser)
    requires ev.JDict?
    requires !Truthy(Get(ev.fields, "strHomeTeam")) || !Truthy(Get(ev.fields, "strAwayTeam")) ||
             !Truthy(Get(ev.fields, "idHomeTeam")) || !Truthy(Get(ev.fields, "idAwayTeam"))
    ensures ProcessEvent(db, ev, league, sport, p) == (db, NoCounts)
  {
  }

  /**
   * Once the league is resolved, a batch holding a value that is not an
   * object raises out of the function: it returns no counts and does not
   * commit, and the connection holds the writes of the events before that
   * value.
   */
  lemma NonObjectEventRaises(db: Db, events: seq<Json>, sportName: string, leagueName: Option<string>,
                             leagueApiId: Json, country: Option<string>, p: Parser, commitOk: bool, i: nat)
    requires i < |events| && !events[i].JDict?
    requires var sport := DbSport(sportName);
             !Falsy(ResolveDb(db, LeagueKind, leagueName, Some(sport), Some(PyStr(leagueApiId)), country, FillIfNull, NoFault).1)
    ensures var sport := DbSport(sportName);
            var (db1, lid) := ResolveDb(db, LeagueKind, leagueName, Some(sport), Some(PyStr(leagueApiId)), country, FillIfNull, NoFault);
            var k := FirstNonObject(events);
            && k <= i
            && StoreEvents(db, Some(events), sportName, leagueName, leagueApiId, country, p, commitOk) ==
               Batch(ProcessEvents(db1, events[..k], lid.value, sport, p).0, None, false)
  {
  }

  /**
   * The batch commits exactly when it is not empty, its league resolves,
   * every event is an object and the commit succeeds; it raises exactly when
   * the league resolves and some event is not an object.
   */
  lemma CommitIff(db: Db, events: Option<seq<Json>>, sportName: string, leagueName: Option<string>,
                  leagueApiId: Json, country: Option<string>, p: Parser, commitOk: bool)
    ensures var r := StoreEvents(db, events, sportName, leagueName, leagueApiId, country, p, commitOk);
            var lid := ResolveDb(db, LeagueKind, leagueName, Some(DbSport(sportName)), Some(PyStr(leagueApiId)), country, FillIfNull, NoFault).1;
            && (r.committed <==> events.Some? && events.value != [] && !Falsy(lid) &&
                                 (forall i :: 0 <= i < |events.value| ==> events.value[i].JDict?) && commitOk)
            && (r.counts.None? <==> events.Some? && events.value != [] && !Falsy(lid) &&
                                    exists i :: 0 <= i < |events.value| && !events.value[i].JDict?)
  {
    if events.Some? && events.value != [] {
      var k := FirstNonObject(events.value);
      if k < |events.value| {
        assert !events.value[k].JDict?;
      }
    }
  }

  /**
   * An event without a date is skipped after its teams are resolved: the
   * team rows may change, nothing else does, and nothing is counted.
   */
  lemma UndatedEventWritesOnlyTeams(db: Db, ev: Json, league: int, sport: string, p: Parser)
    requires ev.JDict? && !Truthy(Get(ev.fields, "dateEvent"))
    ensures var (db', c) := ProcessEvent(db, ev, league, sport, p);
            && c == NoCounts
            && db'.leagues == db.leagues && db'.matches == db.matches && db'.stats == db.stats && db'.odds == db.odds
  {
  }

  /** A failed commit reports zero counts for the whole batch, when the batch does not raise first. */
  lemma CommitFailureCountsNothing(db: Db, events: Option<seq<Json>>, sportName: string, leagueName: Option<string>,
                                   leagueApiId: Json, country: Option<string>, p: Parser)
    ensures var r := StoreEvents(db, events, sportName, leagueName, leagueApiId, country, p, false);
            !r.committed && (r.counts.Some? ==> r.counts.value == NoCounts)
  {
  }

  /** The shot upserts of one or two items, written out. */
  lemma UnfoldShots(stats: seq<Stat>, matchId: int, x: (int, string), y: (int, string))
    ensures UpsertShots(stats, matchId, [x]) ==
              var (s, ch) := UpsertStat(stats, matchId, x.0, SHOTS, x.1);
              (s, if ch == Inserted then 1 else 0, if ch == Updated then 1 else 0)
    ensures UpsertShots(stats, matchId, [x, y]) ==
              var (s, ch) := UpsertStat(stats, matchId, x.0, SHOTS, x.1);
              var (s', ch') := UpsertStat(s, matchId, y.0, SHOTS, y.1);
              (s', (if ch == Inserted then 1 else 0) + (if ch' == Inserted then 1 else 0),
                   (if ch == Updated then 1 else 0) + (if ch' == Updated then 1 else 0))
  {
    assert [x][..0] == [];
    assert [x, y][..1] == [x];
  }

  /** Within one match, the second pass of the shot upserts finds every value in place. */
  lemma ShotsSettle(stats: seq<Stat>, matchId: int, row: EventRow, home: int, away: int)
    requires home != away
    ensures var (s1, _, _) := UpsertShots(stats, matchId, ShotItems(row, home, away));
            UpsertShots(s1, matchId, ShotItems(row, home, away)) == (s1, 0, 0)
  {
    var items := ShotItems(row, home, away);
    if row.homeShots.Some? && row.awayShots.Some? {
      var x, y := (home, row.homeShots.value), (away, row.awayShots.value);
      assert items == [x, y];
      var s1 := UpsertStat(stats, matchId, home, SHOTS, x.1).0;
      var s2 := UpsertStat(s1, matchId, away, SHOTS, y.1).0;
      UnfoldShots(stats, matchId, x, y);
      UnfoldShots(s2, matchId, x, y);
      UpsertStatSettles(stats, matchId, home, SHOTS, x.1);
      UpsertStatSettles(s1, matchId, away, SHOTS, y.1);
      UpsertStatOtherTeam(s1, matchId, home, away, SHOTS, y.1);
      assert UpsertStat(s2, matchId, home, SHOTS, x.1) == (s2, Kept);
    } else if row.homeShots.Some? || row.awayShots.Some? {
      var x := if row.homeShots.Some? then (home, row.homeShots.value) else (away, row.awayShots.value);
      assert items == [x];
      UnfoldShots(stats, matchId, x, x);
      UnfoldShots(UpsertStat(stats, matchId, x.0, SHOTS, x.1).0, matchId, x, x);
      UpsertStatSettles(stats, matchId, x.0, SHOTS, x.1);
    }
  }

  /** Storing the same event row again, with the same ids, changes nothing and counts nothing. */
  lemma StoreRowSettles(db: Db, row: EventRow, league: int, home: int, away: int)
    requires home != away
    ensures var (db1, _) := StoreRow(db, row, league, home, away);
            StoreRow(db1, row, league, home, away) == (db1, NoCounts)
  {
    var m := Payload(row, league, home, away);
    UpsertSettles(db.matches, row.key, m, WithWinner, AllButMatchday);
    var (mt, mid, ch) := UpsertMatch(db.matches, row.key, m, WithWinner, AllButMatchday);
    if mid != 0 {
      ShotsSettle(db.stats, mid, row, home, away);
    }
  }

  /**
   * Re-processing an unchanged event inserts nothing and updates nothing,
   * provided its two team names differ.
   */
  lemma ReprocessEventChangesNothing(db: Db, ev: Json, league: int, sport: string, p: Parser)
    requires db.Valid()
    requires ev.JDict? ==> AsText(Get(ev.fields, "strHomeTeam")) != AsText(Get(ev.fields, "strAwayTeam"))
    ensures var (db1, _) := ProcessEvent(db, ev, league, sport, p);
            ProcessEvent(db1, ev, league, sport, p) == (db1, NoCounts)
  {
    if ev.JDict? {
      var e := ev.fields;
      if Truthy(Get(e, "strHomeTeam")) && Truthy(Get(e, "strAwayTeam")) && Truthy(Get(e, "idHomeTeam")) && Truthy(Get(e, "idAwayTeam")) {
        ReprocessNamedEvent(db, ev, league, sport, p);
      }
    }
  }

  /** The case of ReprocessEventChangesNothing where both teams carry a name and an id. */
  lemma ReprocessNamedEvent(db: Db, ev: Json, league: int, sport: string, p: Parser)
    requires db.Valid() && ev.JDict?
    requires var e := ev.fields;
             && Truthy(Get(e, "strHomeTeam")) && Truthy(Get(e, "strAwayTeam")) && Truthy(Get(e, "idHomeTeam")) && Truthy(Get(e, "idAwayTeam"))
             && AsText(Get(e, "strHomeTeam")) != AsText(Get(e, "strAwayTeam"))
    ensures var (db1, _) := ProcessEvent(db, ev, league, sport, p);
            ProcessEvent(db1, ev, league, sport, p) == (db1, NoCounts)
  {
    var e := ev.fields;
    var hn, an := AsText(Get(e, "strHomeTeam")), AsText(Get(e, "strAwayTeam"));
    var hs, as_ := Some(PyStr(Get(e, "idHomeTeam"))), Some(PyStr(Get(e, "idAwayTeam")));
    ResolvePairSettles(db, hn, an, Some(sport), hs, as_, FillIfNull);
    var (db2, hid, aid) := ResolvePair(db, hn, an, Some(sport), hs, as_, FillIfNull);
    var row := ReadEvent(e, p);
    if !Falsy(hid) && !Falsy(aid) && row.Some? {
      StoreRowSettles(db2, row.value, league, hid.value, aid.value);
      var db3 := StoreRow(db2, row.value, league, hid.value, aid.value).0;
      assert db3.teams == db2.teams;
      ResolvePairSameTeams(db2, db3, hn, an, Some(sport), hs, as_, FillIfNull);
      assert ProcessEvent(db, ev, league, sport, p).0 == db3;
      assert ProcessEvent(db3, ev, league, sport, p) == StoreRow(db3, row.value, league, hid.value, aid.value);
    } else {
      assert ProcessEvent(db, ev, league, sport, p).0 == db2;
    }
  }

  /** The stats loop keeps the stats uniqueness constraint. */
  lemma UpsertShotsUnique(stats: seq<Stat>, matchId: int, items: seq<(int, string)>)
    requires StatsUnique(stats)
    ensures StatsUnique(UpsertShots(stats, matchId, items).0)
    decreases |items|
  {
    if items != [] {
      UpsertShotsUnique(stats, matchId, items[..|items| - 1]);
      var s := UpsertShots(stats, matchId, items[..|items| - 1]).0;
      UpsertStatUnique(s, matchId, items[|items| - 1].0, SHOTS, items[|items| - 1].1);
    }
  }

  /** Processing an event keeps every uniqueness constraint of the store. */
  lemma ProcessEventValid(db: Db, ev: Json, league: int, sport: string, p: Parser)
    requires db.Valid()
    ensures ProcessEvent(db, ev, league, sport, p).0.Valid()
  {
    if ev.JDict? {
      var e := ev.fields;
      var hn, an, hs, as_ := Get(e, "strHomeTeam"), Get(e, "strAwayTeam"), Get(e, "idHomeTeam"), Get(e, "idAwayTeam");
      if Truthy(hn) && Truthy(an) && Truthy(hs) && Truthy(as_) {
        ResolvePairValid(db, AsText(hn), AsText(an), Some(sport), Some(PyStr(hs)), Some(PyStr(as_)), FillIfNull);
        var (db2, hid, aid) := ResolvePair(db, AsText(hn), AsText(an), Some(sport), Some(PyStr(hs)), Some(PyStr(as_)), FillIfNull);
        var row := ReadEvent(e, p);
        if !Falsy(hid) && !Falsy(aid) && row.Some? {
          StoreRowValid(db2, row.value, league, hid.value, aid.value);
          assert ProcessEvent(db, ev, league, sport, p) == StoreRow(db2, row.value, league, hid.value, aid.value);
        } else {
          assert ProcessEvent(db, ev, league, sport, p).0 == db2;
        }
      }
    }
  }

  lemma StoreRowValid(db: Db, row: EventRow, league: int, home: int, away: int)
    requires db.Valid()
    ensures StoreRow(db, row, league, home, away).0.Valid()
  {
    var k, m := row.key, Payload(row, league, home, away);
    if k in db.matches.rows {
      UpsertUpdatesPresent(db.matches, k, m, WithWinner, AllButMatchday);
    } else {
      UpsertInsertsAbsent(db.matches, k, m, WithWinner, AllButMatchday);
    }
    var (mt, mid, ch) := UpsertMatch(db.matches, k, m, WithWinner, AllButMatchday);
    UpsertShotsUnique(db.stats, mid, ShotItems(row, home, away));
  }

  /** The whole batch keeps every uniqueness constraint of the store. */
  lemma ProcessEventsValid(db: Db, events: seq<Json>, league: int, sport: string, p: Parser)
    requires db.Valid()
    ensures ProcessEvents(db, events, league, sport, p).0.Valid()
    decreases |events|
  {
    if events != [] {
      ProcessEventsValid(db, events[..|events| - 1], league, sport, p);
      ProcessEventValid(ProcessEvents(db, events[..|events| - 1], league, sport, p).0, events[|events| - 1], league, sport, p);
    }
  }
}
