/**
 * `collect_football_data_org_history.py`: historical football-data.org
 * matches upserted keyed by (id, 'football-data.org-history'), with the
 * 1X2 odds of a match upserted keyed by (match, bookmaker, market).
 */
module FdOrgHistory {
  import opened Wrappers
  import opened Json
  import opened Outcome
  import opened Store
  import opened Resolver
  import opened Upsert

  const SOURCE_NAME: string := "football-data.org-history"
  const BOOKMAKER: string := "football-data.org_API"
  const MARKET: string := "1X2"
  /** The placeholder the API sends instead of odds on a free plan. */
  const NO_ODDS_MSG: string := "Activate Odds-Package in User-Panel to retrieve odds."

  /** Inserted and updated matches, inserted and updated odds. */
  datatype Counts = Counts(insertedMatches: nat, updatedMatches: nat, insertedOdds: nat, updatedOdds: nat)
  {
    function Plus(o: Counts): Counts
    {
      Counts(insertedMatches + o.insertedMatches, updatedMatches + o.updatedMatches,
             insertedOdds + o.insertedOdds, updatedOdds + o.updatedOdds)
    }
  }

  const NoCounts: Counts := Counts(0, 0, 0, 0)

  /** A team's source id: `str(id)`, and only when the id is truthy. */
  function TeamSource(team: Object): (r: Option<string>)
    ensures r.Some? <==> Truthy(Get(team, "id"))
    ensures r.Some? ==> r.value == PyStr(Get(team, "id"))
  {
    if Truthy(Get(team, "id")) then Some(PyStr(Get(team, "id"))) else None
  }

  /** `score['fullTime']`, when `score` and `fullTime` are both non-empty objects. */
  function FullTime(e: Object): Option<Object>
  {
    var score := GetOr(e, "score", JDict(map[]));
    if score.JDict? && Truthy(score) && Get(score.fields, "fullTime").JDict? && Truthy(Get(score.fields, "fullTime"))
    then Some(Get(score.fields, "fullTime").fields)
    else None
  }

  /**
   * The full-time score. `None` where Python raises: a truthy `score` or
   * `fullTime` that is not an object, or a score `int()` rejects. A missing
   * or empty `score` or `fullTime` gives no scores.
   */
  function ReadScore(e: Object): (r: Option<(Option<int>, Option<int>)>)
    ensures !Truthy(GetOr(e, "score", JDict(map[]))) ==> r == Some((None, None))
    ensures FullTime(e).None? && r.Some? ==> r == Some((None, None))
    ensures var score := GetOr(e, "score", JDict(map[]));
            Truthy(score) && !score.JDict? ==> r.None?
    ensures var score := GetOr(e, "score", JDict(map[]));
            Truthy(score) && score.JDict? && Truthy(Get(score.fields, "fullTime")) && !Get(score.fields, "fullTime").JDict? ==> r.None?
    ensures var score := GetOr(e, "score", JDict(map[]));
            Truthy(score) && score.JDict? && !Truthy(Get(score.fields, "fullTime")) ==> r == Some((None, None))
    ensures FullTime(e).Some? ==>
              var h, a := Get(FullTime(e).value, "home"), Get(FullTime(e).value, "away");
              (r.None? <==> (!h.JNull? && PyInt(h).None?) || (!a.JNull? && PyInt(a).None?)) &&
              (r.Some? ==> r.value == (PyInt(h), PyInt(a)))
  {
    var score := GetOr(e, "score", JDict(map[]));
    if !Truthy(score) then Some((None, None))
    else if !score.JDict? then None
    else
      var ft := Get(score.fields, "fullTime");
      if !Truthy(ft) then Some((None, None))
      else if !ft.JDict? then None
      else
        var hv, av := Get(ft.fields, "home"), Get(ft.fields, "away");
        if (!hv.JNull? && PyInt(hv).None?) || (!av.JNull? && PyInt(av).None?) then None
        else Some((PyInt(hv), PyInt(av)))
  }

  /** The winner is derived whenever both scores are present, whatever the status. */
  function ScoreWinner(home: Option<int>, away: Option<int>): (w: Option<string>)
    ensures w.Some? <==> home.Some? && away.Some?
    ensures w.Some? ==> w.value == DeriveWinner(home.value, away.value).Label()
  {
    if home.Some? && away.Some? then Some(DeriveWinner(home.value, away.value).Label()) else None
  }

  /** The value an INTEGER column holds for `matchday`: an integer, or NULL. */
  function IntColumn(j: Json): Option<int>
  {
    match j
    case JInt(i) => Some(i)
    case JBool(b) => Some(if b then 1 else 0)
    case _ => None
  }

  /** What one match contributes once its teams are known. */
  datatype MatchRow = MatchRow(
    key: MatchKey,
    kickoff: Option<string>,
    status: Option<string>,
    homeScore: Option<int>,
    awayScore: Option<int>,
    winner: Option<string>,
    stage: Option<string>,
    matchday: Option<int>)

  /** Reading a match after its teams are resolved; `None` where the score raises. */
  function ReadMatch(e: Object): (r: Option<MatchRow>)
    ensures r.None? <==> ReadScore(e).None?
    ensures r.Some? ==> r.value.key == MatchKey(PyStr(Get(e, "id")), SOURCE_NAME)
    ensures r.Some? ==> r.value.kickoff == AsText(Get(e, "utcDate")) && r.value.status == AsText(Get(e, "status"))
    ensures r.Some? ==> (r.value.homeScore, r.value.awayScore) == ReadScore(e).value
    ensures r.Some? ==> (r.value.winner.Some? <==> r.value.homeScore.Some? && r.value.awayScore.Some?)
  {
    var score := ReadScore(e);
    if score.None? then None
    else
      var (h, a) := score.value;
      Some(MatchRow(MatchKey(PyStr(Get(e, "id")), SOURCE_NAME), AsText(Get(e, "utcDate")), AsText(Get(e, "status")),
                    h, a, ScoreWinner(h, a), AsText(Get(e, "stage")), IntColumn(Get(e, "matchday"))))
  }

  /** The payload both the UPDATE and the INSERT write: every column but the key, `is_mock` 0. */
  function Payload(row: MatchRow, league: int, home: int, away: int): Match
    requires row.kickoff.Some?
  {
    Match(Some(league), Some(home), Some(away), row.kickoff.value, row.status, row.homeScore, row.awayScore,
          row.winner, row.stage, row.matchday, false)
  }

  /**
   * The three prices to store, or `None` when the odds are skipped: missing,
   * not an object, the placeholder message, a price that is None, or a
   * price `float()` rejects.
   */
  function ReadOdds(e: Object): (r: Option<(real, real, real)>)
    ensures var o := Get(e, "odds");
            r.Some? <==> Truthy(o) && o.JDict? && Get(o.fields, "msg") != JStr(NO_ODDS_MSG) &&
                         PyFloat(Get(o.fields, "homeWin")).Some? && PyFloat(Get(o.fields, "draw")).Some? &&
                         PyFloat(Get(o.fields, "awayWin")).Some?
    ensures r.Some? ==> var o := Get(e, "odds").fields;
                        r.value == (PyFloat(Get(o, "homeWin")).value, PyFloat(Get(o, "draw")).value, PyFloat(Get(o, "awayWin")).value)
  {
    var o := Get(e, "odds");
    if !Truthy(o) || !o.JDict? || Get(o.fields, "msg") == JStr(NO_ODDS_MSG) then None
    else
      var h, d, a := Get(o.fields, "homeWin"), Get(o.fields, "draw"), Get(o.fields, "awayWin");
      if h.JNull? || d.JNull? || a.JNull? then None
      else if PyFloat(h).None? || PyFloat(d).None? || PyFloat(a).None? then None
      else Some((PyFloat(h).value, PyFloat(d).value, PyFloat(a).value))
  }

  /**
   * The odds upsert: the row for the key is rewritten when a price differs
   * (the timestamp is not compared), and inserted when absent.
   */
  function UpsertOdds(t: Table<OddsKey, Odds>, k: OddsKey, prices: (real, real, real), timestamp: string): (r: (Table<OddsKey, Odds>, int, Change))
    ensures r.2 == Inserted <==> k !in t.rows
    ensures r.2 == Updated <==> k in t.rows && (t.rows[k].1.home, t.rows[k].1.draw, t.rows[k].1.away) != (Some(prices.0), Some(prices.1), Some(prices.2))
    ensures r.2 != Kept ==> k in r.0.rows && r.0.rows[k] == (r.1, Odds(Some(prices.0), Some(prices.1), Some(prices.2), Some(timestamp)))
    ensures r.2 == Kept ==> r.0 == t
    ensures k in t.rows ==> r.1 == t.rows[k].0
    ensures forall k' :: k' in t.rows && k' != k ==> k' in r.0.rows && r.0.rows[k'] == t.rows[k']
  {
    var o := Odds(Some(prices.0), Some(prices.1), Some(prices.2), Some(timestamp));
    if k in t.rows then
      var stored := t.rows[k].1;
      if stored.home != o.home || stored.draw != o.draw || stored.away != o.away then (t.Update(k, o), t.rows[k].0, Updated)
      else (t, t.rows[k].0, Kept)
    else (t.Insert(k, o), t.next, Inserted)
  }

  /** The same odds a second time leave the row as it is. */
  lemma OddsSettle(t: Table<OddsKey, Odds>, k: OddsKey, prices: (real, real, real), timestamp: string)
    ensures var (t1, id1, _) := UpsertOdds(t, k, prices, timestamp);
            UpsertOdds(t1, k, prices, timestamp) == (t1, id1, Kept)
  {
  }

  /** The odds upsert keeps the table valid. */
  lemma UpsertOddsValid(t: Table<OddsKey, Odds>, k: OddsKey, prices: (real, real, real), timestamp: string)
    requires t.Valid()
    ensures UpsertOdds(t, k, prices, timestamp).0.Valid()
  {
    var o := Odds(Some(prices.0), Some(prices.1), Some(prices.2), Some(timestamp));
    if k in t.rows {
      UpdateValid(t, k, o);
    } else {
      InsertValid(t, k, o);
    }
  }

  /**
   * The match upsert, then the odds upsert. An inserted match is counted
   * even when `lastrowid` is falsy (the row is read back), but then its odds
   * are not written.
   */
  function StoreMatch(db: Db, row: MatchRow, odds: Option<(real, real, real)>, league: int, home: int, away: int): (Db, Counts)
    requires row.kickoff.Some?
  {
    var (mt, mid, ch) := UpsertMatch(db.matches, row.key, Payload(row, league, home, away), WithoutWinner, AllColumns);
    var c := Counts(if ch == Inserted then 1 else 0, if ch == Updated then 1 else 0, 0, 0);
    if mid == 0 || odds.None? then (db.(matches := mt), c)
    else
      var (ot, oid, och) := UpsertOdds(db.odds, OddsKey(mid, BOOKMAKER, MARKET), odds.value, row.kickoff.value);
      (db.(matches := mt, odds := ot),
       c.(insertedOdds := if och == Inserted && oid != 0 then 1 else 0, updatedOdds := if och == Updated then 1 else 0))
  }

  /**
   * One match of the batch. Only objects get here: StoreMatches stops the
   * batch at the first value that is not one. A team that is not an object
   * raises before any write, which skips the match; so does a missing team name;
   * the teams are resolved without ever refreshing their source ids; a NULL
   * kickoff violates NOT NULL, so its match is not written.
   */
  function ProcessMatch(db: Db, ev: Json, league: int, sport: string): (Db, Counts)
  {
    if !ev.JDict? then (db, NoCounts)
    else
      var e := ev.fields;
      var ht, at := GetOr(e, "homeTeam", JDict(map[])), GetOr(e, "awayTeam", JDict(map[]));
      if !ht.JDict? || !at.JDict? then (db, NoCounts)
      else
        var hn, an := Get(ht.fields, "name"), Get(at.fields, "name");
        if !Truthy(hn) || !Truthy(an) then (db, NoCounts)
        else
          var (db2, hid, aid) := ResolvePair(db, AsText(hn), AsText(an), Some(sport), TeamSource(ht.fields), TeamSource(at.fields), KeepSource);
          if Falsy(hid) || Falsy(aid) then (db2, NoCounts)
          else
            var row := ReadMatch(e);
            if row.None? || row.value.kickoff.None? then (db2, NoCounts)
            else StoreMatch(db2, row.value, ReadOdds(e), league, hid.value, aid.value)
  }

  /** The matches in order. */
  function ProcessMatches(db: Db, matches: seq<Json>, league: int, sport: string): (Db, Counts)
    decreases |matches|
  {
    if matches == [] then (db, NoCounts)
    else
      var (d, c) := ProcessMatches(db, matches[..|matches| - 1], league, sport);
      var (d', c') := ProcessMatch(d, matches[|matches| - 1], league, sport);
      (d', c.Plus(c'))
  }

  /** One more match extends the fold by that match's step. */
  lemma ProcessMatchesExtend(db: Db, matches: seq<Json>, i: nat, league: int, sport: string)
    requires i < |matches|
    ensures var before := ProcessMatches(db, matches[..i], league, sport);
            var step := ProcessMatch(before.0, matches[i], league, sport);
            ProcessMatches(db, matches[..i + 1], league, sport) == (step.0, before.1.Plus(step.1))
  {
    assert matches[..i + 1][..i] == matches[..i];
  }

  /**
   * Where a batch ends: the store the connection sees, the counts returned
   * (None when the function raised instead of returning), and whether the
   * commit was reached and succeeded.
   */
  datatype Batch = Batch(db: Db, counts: Option<Counts>, committed: bool)

  /**
   * `process_and_store_matches`: nothing for an empty batch; the league is
   * resolved once and its failure aborts the batch. A match that is not an
   * object makes the first `.get` raise, and the handler's own
   * `match_data.get('id')` raises again, out of the function: the matches
   * before it stay written but uncommitted and nothing is returned. A failed
   * commit reports zero counts.
   */
  function StoreMatches(db: Db, matches: Option<seq<Json>>, leagueName: Option<string>, leagueCode: Option<string>,
                        country: Option<string>, sport: string, commitOk: bool): Batch
  {
    if matches.None? || matches.value == [] then Batch(db, Some(NoCounts), false)
    else
      var (db1, lid) := ResolveDb(db, LeagueKind, leagueName, Some(sport), leagueCode, country, KeepSource, NoFault);
      if Falsy(lid) then Batch(db1, Some(NoCounts), false)
      else
        var k := FirstNonObject(matches.value);
        var (db2, c) := ProcessMatches(db1, matches.value[..k], lid.value, sport);
        if k < |matches.value| then Batch(db2, None, false)
        else Batch(db2, Some(if commitOk then c else NoCounts), commitOk)
  }

  /** The odds SELECT, then UPDATE or INSERT, on the connection. */
  method UpsertOddsRow(conn: Connection, k: OddsKey, prices: (real, real, real), timestamp: string) returns (id: int, change: Change)
    modifies conn
    ensures (conn.odds, id, change) == UpsertOdds(old(conn.odds), k, prices, timestamp)
    ensures conn.leagues == old(conn.leagues) && conn.teams == old(conn.teams) && conn.matches == old(conn.matches)
    ensures conn.stats == old(conn.stats) && conn.schema == old(conn.schema)
  {
    var o := Odds(Some(prices.0), Some(prices.1), Some(prices.2), Some(timestamp));
    if k in conn.odds.rows {
      var (found, stored) := conn.odds.rows[k];
      id := found;
      if stored.home != o.home || stored.draw != o.draw || stored.away != o.away {
        conn.odds := conn.odds.Update(k, o);
        change := Updated;
      } else {
        change := Kept;
      }
    } else {
      id := conn.odds.next;
      conn.odds := conn.odds.Insert(k, o);
      change := Inserted;
    }
  }

  /** One match on the connection. */
  method ProcessMatchStep(conn: Connection, ev: Json, league: int, sport: string) returns (c: Counts)
    modifies conn
    ensures (conn.Snapshot(), c) == ProcessMatch(old(conn.Snapshot()), ev, league, sport)
    ensures conn.schema == old(conn.schema)
  {
    c := NoCounts;
    if !ev.JDict? {
      return;
    }
    var e := ev.fields;
    var ht, at := GetOr(e, "homeTeam", JDict(map[])), GetOr(e, "awayTeam", JDict(map[]));
    if !ht.JDict? || !at.JDict? {
      return;
    }
    var hn, an := Get(ht.fields, "name"), Get(at.fields, "name");
    if !Truthy(hn) || !Truthy(an) {
      return;
    }
    var hid := GetOrCreateEntityId(conn, TeamKind, AsText(hn), Some(sport), TeamSource(ht.fields), None, KeepSource, NoFault);
    var aid := GetOrCreateEntityId(conn, TeamKind, AsText(an), Some(sport), TeamSource(at.fields), None, KeepSource, NoFault);
    if Falsy(hid) || Falsy(aid) {
      return;
    }
    var row := ReadMatch(e);
    if row.None? || row.value.kickoff.None? {
      return;
    }
    var mid, ch := UpsertMatchRow(conn, row.value.key, Payload(row.value, league, hid.value, aid.value), WithoutWinner, AllColumns);
    c := Counts(if ch == Inserted then 1 else 0, if ch == Updated then 1 else 0, 0, 0);
    var odds := ReadOdds(e);
    if mid == 0 || odds.None? {
      return;
    }
    var oid, och := UpsertOddsRow(conn, OddsKey(mid, BOOKMAKER, MARKET), odds.value, row.value.kickoff.value);
    c := c.(insertedOdds := if och == Inserted && oid != 0 then 1 else 0, updatedOdds := if och == Updated then 1 else 0);
  }

  /** `process_and_store_matches` on the connection: the counts, or None where it raises, and whether it committed. */
  method ProcessAndStoreMatches(conn: Connection, matches: Option<seq<Json>>, leagueName: Option<string>, leagueCode: Option<string>,
                                country: Option<string>, sport: string, commitOk: bool) returns (c: Option<Counts>, committed: bool)
    modifies conn
    ensures Batch(conn.Snapshot(), c, committed) == StoreMatches(old(conn.Snapshot()), matches, leagueName, leagueCode, country, sport, commitOk)
    ensures conn.schema == old(conn.schema)
  {
    if matches.None? || matches.value == [] {
      return Some(NoCounts), false;
    }
    var lid := GetOrCreateEntityId(conn, LeagueKind, leagueName, Some(sport), leagueCode, country, KeepSource, NoFault);
    if Falsy(lid) {
      return Some(NoCounts), false;
    }
    ghost var start := conn.Snapshot();
    var list := matches.value;
    ghost var k := FirstNonObject(list);
    var total := NoCounts;
    for i := 0 to |list|
      invariant i <= k
      invariant (conn.Snapshot(), total) == ProcessMatches(start, list[..i], lid.value, sport)
      invariant conn.schema == old(conn.schema)
    {
      if !list[i].JDict? {
        assert i == k;
        return None, false;
      }
      var ci := ProcessMatchStep(conn, list[i], league := lid.value, sport := sport);
      ProcessMatchesExtend(start, list, i, lid.value, sport);
      total := total.Plus(ci);
    }
    assert k == |list| && list[..|list|] == list;
    if !commitOk {
      return Some(NoCounts), false;
    }
    return Some(total), true;
  }

  /** A match with a team that is not an object, or lacking a team name, is skipped with no write. */
  lemma IncompleteMatchSkipped(db: Db, ev: Json, league: int, sport: string)
    requires ev.JDict?
    requires !GetOr(ev.fields, "homeTeam", JDict(map[])).JDict? || !GetOr(ev.fields, "awayTeam", JDict(map[])).JDict? ||
             !Truthy(Get(GetOr(ev.fields, "homeTeam", JDict(map[])).fields, "name")) ||
             !Truthy(Get(GetOr(ev.fields, "awayTeam", JDict(map[])).fields, "name"))
    ensures ProcessMatch(db, ev, league, sport) == (db, NoCounts)
  {
  }

  /**
   * Once the league is resolved, a batch holding a value that is not an
   * object raises out of the function: it returns no counts and does not
   * commit, and the connection holds the writes of the matches before that
   * value.
   */
  lemma NonObjectMatchRaises(db: Db, matches: seq<Json>, leagueName: Option<string>, leagueCode: Option<string>,
                             country: Option<string>, sport: string, commitOk: bool, i: nat)
    requires i < |matches| && !matches[i].JDict?
    requires !Falsy(ResolveDb(db, LeagueKind, leagueName, Some(sport), leagueCode, country, KeepSource, NoFault).1)
    ensures var (db1, lid) := ResolveDb(db, LeagueKind, leagueName, Some(sport), leagueCode, country, KeepSource, NoFault);
            var k := FirstNonObject(matches);
            && k <= i
            && StoreMatches(db, Some(matches), leagueName, leagueCode, country, sport, commitOk) ==
               Batch(ProcessMatches(db1, matches[..k], lid.value, sport).0, None, false)
  {
  }

  /**
   * The batch commits exactly when it is not empty, its league resolves,
   * every match is an object and the commit succeeds; it raises exactly when
   * the league resolves and some match is not an object.
   */
  lemma CommitIff(db: Db, matches: Option<seq<Json>>, leagueName: Option<string>, leagueCode: Option<string>,
                  country: Option<string>, sport: string, commitOk: bool)
    ensures var r := StoreMatches(db, matches, leagueName, leagueCode, country, sport, commitOk);
            var lid := ResolveDb(db, LeagueKind, leagueName, Some(sport), leagueCode, country, KeepSource, NoFault).1;
            && (r.committed <==> matches.Some? && matches.value != [] && !Falsy(lid) &&
                                 (forall i :: 0 <= i < |matches.value| ==> matches.value[i].JDict?) && commitOk)
            && (r.counts.None? <==> matches.Some? && matches.value != [] && !Falsy(lid) &&
                                    exists i :: 0 <= i < |matches.value| && !matches.value[i].JDict?)
  {
    if matches.Some? && matches.value != [] {
      var k := FirstNonObject(matches.value);
      if k < |matches.value| {
        assert !matches.value[k].JDict?;
      }
    }
  }

  /**
   * An existing row whose status, scores and kickoff equal the payload's is
   * left as it is, even when its winner, stage, matchday or ids differ.
   */
  lemma WinnerNotCompared(t: Table<MatchKey, Match>, k: MatchKey, m: Match)
    requires k in t.rows
    requires t.rows[k].1.status == m.status && t.rows[k].1.homeScore == m.homeScore
    requires t.rows[k].1.awayScore == m.awayScore && t.rows[k].1.datetime == m.datetime
    ensures UpsertMatch(t, k, m, WithoutWinner, AllColumns) == (t, t.rows[k].0, Kept)
  {
  }

  /** An UPDATE rewrites every payload column, the league and team ids included. */
  lemma UpdateRewritesPayload(t: Table<MatchKey, Match>, k: MatchKey, m: Match)
    requires k in t.rows && Differs(WithoutWinner, t.rows[k].1, m)
    ensures UpsertMatch(t, k, m, WithoutWinner, AllColumns) == (t.Update(k, m), t.rows[k].0, Updated)
  {
  }

  /** Odds that are skipped leave the match as if it came with no odds at all. */
  lemma RejectedOddsSkipOnlyOdds(db: Db, e: Object, league: int, sport: string)
    requires ReadOdds(e).None?
    ensures ProcessMatch(db, JDict(e), league, sport) == ProcessMatch(db, JDict(e - {"odds"}), league, sport)
  {
    var e' := e - {"odds"};
    assert GetOr(e', "homeTeam", JDict(map[])) == GetOr(e, "homeTeam", JDict(map[]));
    assert GetOr(e', "awayTeam", JDict(map[])) == GetOr(e, "awayTeam", JDict(map[]));
    assert GetOr(e', "score", JDict(map[])) == GetOr(e, "score", JDict(map[]));
    assert ReadScore(e') == ReadScore(e);
    assert Get(e', "id") == Get(e, "id") && Get(e', "utcDate") == Get(e, "utcDate") && Get(e', "status") == Get(e, "status");
    assert Get(e', "stage") == Get(e, "stage") && Get(e', "matchday") == Get(e, "matchday");
    assert ReadMatch(e') == ReadMatch(e);
    assert Get(e', "odds") == JNull;
    SameReadsSameMatch(db, e, e', league, sport);
  }

  /** ProcessMatch looks at an event only through its teams, its match row and its odds. */
  lemma SameReadsSameMatch(db: Db, e: Object, e': Object, league: int, sport: string)
    requires GetOr(e', "homeTeam", JDict(map[])) == GetOr(e, "homeTeam", JDict(map[]))
    requires GetOr(e', "awayTeam", JDict(map[])) == GetOr(e, "awayTeam", JDict(map[]))
    requires ReadMatch(e') == ReadMatch(e) && ReadOdds(e') == ReadOdds(e)
    ensures ProcessMatch(db, JDict(e), league, sport) == ProcessMatch(db, JDict(e'), league, sport)
  {
  }

  /** The placeholder message means no odds are written. */
  lemma PlaceholderMeansNoOdds(e: Object)
    requires Get(e, "odds").JDict? && Get(Get(e, "odds").fields, "msg") == JStr(NO_ODDS_MSG)
    ensures ReadOdds(e).None?
  {
  }

  /** A league that cannot be resolved aborts the batch with zero counts and no match written. */
  lemma LeagueFailureCountsNothing(db: Db, matches: Option<seq<Json>>, leagueName: Option<string>, leagueCode: Option<string>,
                                   country: Option<string>, sport: string, commitOk: bool)
    requires !Given(leagueName) || sport == ""
    ensures StoreMatches(db, matches, leagueName, leagueCode, country, sport, commitOk) == Batch(db, Some(NoCounts), false)
  {
  }

  /** A failed commit reports zero counts for the whole batch, when the batch does not raise first. */
  lemma CommitFailureCountsNothing(db: Db, matches: Option<seq<Json>>, leagueName: Option<string>, leagueCode: Option<string>,
                                   country: Option<string>, sport: string)
    ensures var r := StoreMatches(db, matches, leagueName, leagueCode, country, sport, false);
            !r.committed && (r.counts.Some? ==> r.counts.value == NoCounts)
  {
  }

  /** Storing the same match row and odds again, with the same ids, changes nothing and counts nothing. */
  lemma StoreMatchSettles(db: Db, row: MatchRow, odds: Option<(real, real, real)>, league: int, home: int, away: int)
    requires row.kickoff.Some?
    ensures var (db1, _) := StoreMatch(db, row, odds, league, home, away);
            StoreMatch(db1, row, odds, league, home, away) == (db1, NoCounts)
  {
    var m := Payload(row, league, home, away);
    UpsertSettles(db.matches, row.key, m, WithoutWinner, AllColumns);
    var (mt, mid, ch) := UpsertMatch(db.matches, row.key, m, WithoutWinner, AllColumns);
    if mid != 0 && odds.Some? {
      OddsSettle(db.odds, OddsKey(mid, BOOKMAKER, MARKET), odds.value, row.kickoff.value);
    }
  }

  /** Re-processing an unchanged match inserts nothing and updates nothing, provided its two team names differ. */
  lemma ReprocessMatchChangesNothing(db: Db, ev: Json, league: int, sport: string)
    requires db.Valid()
    requires ev.JDict? && GetOr(ev.fields, "homeTeam", JDict(map[])).JDict? && GetOr(ev.fields, "awayTeam", JDict(map[])).JDict? ==>
               AsText(Get(GetOr(ev.fields, "homeTeam", JDict(map[])).fields, "name")) !=
               AsText(Get(GetOr(ev.fields, "awayTeam", JDict(map[])).fields, "name"))
    ensures var (db1, _) := ProcessMatch(db, ev, league, sport);
            ProcessMatch(db1, ev, league, sport) == (db1, NoCounts)
  {
    if ev.JDict? {
      var e := ev.fields;
      var ht, at := GetOr(e, "homeTeam", JDict(map[])), GetOr(e, "awayTeam", JDict(map[]));
      if ht.JDict? && at.JDict? && Truthy(Get(ht.fields, "name")) && Truthy(Get(at.fields, "name")) {
        ReprocessNamedMatch(db, ev, league, sport);
      }
    }
  }

  /** The case of ReprocessMatchChangesNothing where both teams carry a name. */
  lemma ReprocessNamedMatch(db: Db, ev: Json, league: int, sport: string)
    requires db.Valid() && ev.JDict?
    requires var ht, at := GetOr(ev.fields, "homeTeam", JDict(map[])), GetOr(ev.fields, "awayTeam", JDict(map[]));
             && ht.JDict? && at.JDict? && Truthy(Get(ht.fields, "name")) && Truthy(Get(at.fields, "name"))
             && AsText(Get(ht.fields, "name")) != AsText(Get(at.fields, "name"))
    ensures var (db1, _) := ProcessMatch(db, ev, league, sport);
            ProcessMatch(db1, ev, league, sport) == (db1, NoCounts)
  {
    var e := ev.fields;
    var ht, at := GetOr(e, "homeTeam", JDict(map[])), GetOr(e, "awayTeam", JDict(map[]));
    var hn, an := AsText(Get(ht.fields, "name")), AsText(Get(at.fields, "name"));
    var hs, as_ := TeamSource(ht.fields), TeamSource(at.fields);
    ResolvePairSettles(db, hn, an, Some(sport), hs, as_, KeepSource);
    var (db2, hid, aid) := ResolvePair(db, hn, an, Some(sport), hs, as_, KeepSource);
    var row := ReadMatch(e);
    if !Falsy(hid) && !Falsy(aid) && row.Some? && row.value.kickoff.Some? {
      StoreMatchSettles(db2, row.value, ReadOdds(e), league, hid.value, aid.value);
      var db1 := StoreMatch(db2, row.value, ReadOdds(e), league, hid.value, aid.value).0;
      assert db1.teams == db2.teams;
      ResolvePairSameTeams(db2, db1, hn, an, Some(sport), hs, as_, KeepSource);
      assert ProcessMatch(db, ev, league, sport).0 == db1;
      assert ProcessMatch(db1, ev, league, sport) == StoreMatch(db1, row.value, ReadOdds(e), league, hid.value, aid.value);
    } else {
      assert ProcessMatch(db, ev, league, sport).0 == db2;
    }
  }

  /** Storing a match row keeps the store valid and leaves the leagues and teams alone. */
  lemma StoreMatchValid(db: Db, row: MatchRow, odds: Option<(real, real, real)>, league: int, home: int, away: int)
    requires db.Valid() && row.kickoff.Some?
    ensures var (db1, _) := StoreMatch(db, row, odds, league, home, away);
            db1.Valid() && db1.leagues == db.leagues && db1.teams == db.teams && db1.stats == db.stats
  {
    var m := Payload(row, league, home, away);
    if row.key in db.matches.rows {
      UpsertUpdatesPresent(db.matches, row.key, m, WithoutWinner, AllColumns);
    } else {
      UpsertInsertsAbsent(db.matches, row.key, m, WithoutWinner, AllColumns);
    }
    var (mt, mid, ch) := UpsertMatch(db.matches, row.key, m, WithoutWinner, AllColumns);
    if mid != 0 && odds.Some? {
      UpsertOddsValid(db.odds, OddsKey(mid, BOOKMAKER, MARKET), odds.value, row.kickoff.value);
    }
  }

  /** One match keeps the store valid. */
  lemma ProcessMatchValid(db: Db, ev: Json, league: int, sport: string)
    requires db.Valid()
    ensures ProcessMatch(db, ev, league, sport).0.Valid()
  {
    if ev.JDict? {
      var e := ev.fields;
      var ht, at := GetOr(e, "homeTeam", JDict(map[])), GetOr(e, "awayTeam", JDict(map[]));
      if ht.JDict? && at.JDict? && Truthy(Get(ht.fields, "name")) && Truthy(Get(at.fields, "name")) {
        var hn, an := Get(ht.fields, "name"), Get(at.fields, "name");
        ResolvePairValid(db, AsText(hn), AsText(an), Some(sport), TeamSource(ht.fields), TeamSource(at.fields), KeepSource);
        var (db2, hid, aid) := ResolvePair(db, AsText(hn), AsText(an), Some(sport), TeamSource(ht.fields), TeamSource(at.fields), KeepSource);
        var row := ReadMatch(e);
        if !Falsy(hid) && !Falsy(aid) && row.Some? && row.value.kickoff.Some? {
          StoreMatchValid(db2, row.value, ReadOdds(e), league, hid.value, aid.value);
        }
      }
    }
  }

  /** The whole batch keeps the store valid. */
  lemma {:induction false} ProcessMatchesValid(db: Db, matches: seq<Json>, league: int, sport: string)
    requires db.Valid()
    ensures ProcessMatches(db, matches, league, sport).0.Valid()
    decreases |matches|
  {
    if matches != [] {
      ProcessMatchesValid(db, matches[..|matches| - 1], league, sport);
      ProcessMatchValid(ProcessMatches(db, matches[..|matches| - 1], league, sport).0, matches[|matches| - 1], league, sport);
    }
  }
}
