/**
 * The explicit upserts of the TheSportsDB, football-data.org and openfootball
 * collectors: SELECT the row by its key, then UPDATE it when the compared
 * columns differ, or INSERT it when absent.
 */
module Upsert {
  import opened Wrappers
  import opened Store

  /** What an upsert did: added a row, rewrote one, or left it as it was. */
  datatype Change = Inserted | Updated | Kept

  /** The columns an upsert compares with the stored row before rewriting it. */
  datatype Compare =
    | WithWinner     // status, both scores, winner and kickoff
    | WithoutWinner  // status, both scores and kickoff

  predicate Differs(c: Compare, stored: Match, m: Match)
  {
    || stored.status != m.status
    || stored.homeScore != m.homeScore
    || stored.awayScore != m.awayScore
    || (c == WithWinner && stored.winner != m.winner)
    || stored.datetime != m.datetime
  }

  /** Which columns the UPDATE sets: the payload's, with or without `matchday`. */
  datatype SetClause = AllButMatchday | AllColumns

  /** The row an UPDATE leaves. The key columns are never in the SET clause. */
  function Rewritten(s: SetClause, stored: Match, m: Match): (r: Match)
    ensures !Differs(WithWinner, r, m)
    ensures s == AllColumns ==> r == m
    ensures s == AllButMatchday ==> r == m.(matchday := stored.matchday)
  {
    if s == AllColumns then m else m.(matchday := stored.matchday)
  }

  /** The matches table after the upsert of payload m under key k, the row's id, and what happened. */
  function UpsertMatch(t: Table<MatchKey, Match>, k: MatchKey, m: Match, c: Compare, s: SetClause): (Table<MatchKey, Match>, int, Change)
  {
    if k in t.rows then
      if Differs(c, t.rows[k].1, m) then (t.Update(k, Rewritten(s, t.rows[k].1, m)), t.rows[k].0, Updated)
      else (t, t.rows[k].0, Kept)
    else (t.Insert(k, m), t.next, Inserted)
  }

  /** The statements of the upsert on the connection. */
  method UpsertMatchRow(conn: Connection, k: MatchKey, m: Match, c: Compare, s: SetClause) returns (id: int, change: Change)
    modifies conn
    ensures (conn.matches, id, change) == UpsertMatch(old(conn.matches), k, m, c, s)
    ensures conn.leagues == old(conn.leagues) && conn.teams == old(conn.teams)
    ensures conn.stats == old(conn.stats) && conn.odds == old(conn.odds) && conn.schema == old(conn.schema)
  {
    if k in conn.matches.rows {
      var (found, stored) := conn.matches.rows[k];
      id := found;
      if Differs(c, stored, m) {
        conn.matches := conn.matches.Update(k, Rewritten(s, stored, m));
        change := Updated;
      } else {
        change := Kept;
      }
    } else {
      id := conn.matches.next;
      conn.matches := conn.matches.Insert(k, m);
      change := Inserted;
    }
  }

  /** An absent key is inserted: one more row, holding the payload under the next id. */
  lemma UpsertInsertsAbsent(t: Table<MatchKey, Match>, k: MatchKey, m: Match, c: Compare, s: SetClause)
    requires t.Valid() && k !in t.rows
    ensures var (t', id, ch) := UpsertMatch(t, k, m, c, s);
            && ch == Inserted && id == t.next && t'.Valid()
            && t'.rows[k] == (id, m) && t'.Size() == t.Size() + 1
            && forall k' :: k' in t.rows ==> t'.rows[k'] == t.rows[k']
  {
    InsertValid(t, k, m);
  }

  /**
   * A present key keeps its row and id: the row is rewritten exactly when a
   * compared column differs, and no row is added.
   */
  lemma UpsertUpdatesPresent(t: Table<MatchKey, Match>, k: MatchKey, m: Match, c: Compare, s: SetClause)
    requires t.Valid() && k in t.rows
    ensures var (t', id, ch) := UpsertMatch(t, k, m, c, s);
            && id == t.rows[k].0 && t'.Valid() && t'.rows.Keys == t.rows.Keys && t'.Size() == t.Size()
            && (ch == Updated <==> Differs(c, t.rows[k].1, m))
            && (ch == Updated ==> t'.rows[k] == (id, Rewritten(s, t.rows[k].1, m)))
            && (ch != Updated ==> ch == Kept && t' == t)
            && forall k' :: k' in t.rows && k' != k ==> t'.rows[k'] == t.rows[k']
  {
    UpdateValid(t, k, Rewritten(s, t.rows[k].1, m));
  }

  /** Upserting the same payload a second time finds the row and leaves it: 0 inserted, 0 updated. */
  lemma UpsertSettles(t: Table<MatchKey, Match>, k: MatchKey, m: Match, c: Compare, s: SetClause)
    ensures var (t1, id1, _) := UpsertMatch(t, k, m, c, s);
            UpsertMatch(t1, k, m, c, s) == (t1, id1, Kept)
  {
    var (t1, id1, ch) := UpsertMatch(t, k, m, c, s);
    assert k in t1.rows && !Differs(c, t1.rows[k].1, m);
  }

  /** A stats row for this match, team and type. */
  predicate StatFor(st: Stat, matchId: int, teamId: int, statType: string)
  {
    st.matchId == Some(matchId) && st.teamId == Some(teamId) && st.statType == statType
  }

  /** `SELECT ... FROM stats WHERE match_id = ? AND team_id = ? AND stat_type = ?`, first row from index i on. */
  function FindStatFrom(stats: seq<Stat>, matchId: int, teamId: int, statType: string, i: nat): (r: Option<nat>)
    requires i <= |stats|
    ensures r.Some? ==> i <= r.value < |stats| && StatFor(stats[r.value], matchId, teamId, statType)
    ensures r.Some? ==> forall j :: i <= j < r.value ==> !StatFor(stats[j], matchId, teamId, statType)
    ensures r.None? ==> forall j :: i <= j < |stats| ==> !StatFor(stats[j], matchId, teamId, statType)
    decreases |stats| - i
  {
    if i == |stats| then None
    else if StatFor(stats[i], matchId, teamId, statType) then Some(i)
    else FindStatFrom(stats, matchId, teamId, statType, i + 1)
  }

  /** The first stats row (in rowid order) for the match, team and type. */
  function FindStat(stats: seq<Stat>, matchId: int, teamId: int, statType: string): (r: Option<nat>)
    ensures r.Some? ==> r.value < |stats| && StatFor(stats[r.value], matchId, teamId, statType)
    ensures r.Some? ==> forall j :: 0 <= j < r.value ==> !StatFor(stats[j], matchId, teamId, statType)
    ensures r.None? ==> forall j :: 0 <= j < |stats| ==> !StatFor(stats[j], matchId, teamId, statType)
  {
    FindStatFrom(stats, matchId, teamId, statType, 0)
  }

  /** The first row is the only index with the three properties above. */
  lemma FindStatUnique(stats: seq<Stat>, matchId: int, teamId: int, statType: string, i: nat)
    requires i < |stats| && StatFor(stats[i], matchId, teamId, statType)
    requires forall j :: 0 <= j < i ==> !StatFor(stats[j], matchId, teamId, statType)
    ensures FindStat(stats, matchId, teamId, statType) == Some(i)
  {
  }

  /**
   * A stats upsert keyed by (match, team, type): the first such row is
   * rewritten when its value differs; when there is none, a row with a NULL
   * period is added.
   */
  function UpsertStat(stats: seq<Stat>, matchId: int, teamId: int, statType: string, value: string): (r: (seq<Stat>, Change))
    ensures r.1 == Inserted <==> FindStat(stats, matchId, teamId, statType).None?
    ensures r.1 == Inserted ==> r.0 == stats + [Stat(Some(matchId), Some(teamId), statType, value, None)]
    ensures r.1 == Updated ==> var i := FindStat(stats, matchId, teamId, statType).value;
                               stats[i].value != value && r.0 == stats[i := stats[i].(value := value)]
    ensures r.1 == Kept ==> r.0 == stats
  {
    match FindStat(stats, matchId, teamId, statType)
    case Some(i) =>
      if stats[i].value != value then (stats[i := stats[i].(value := value)], Updated) else (stats, Kept)
    case None => (stats + [Stat(Some(matchId), Some(teamId), statType, value, None)], Inserted)
  }

  /** After an upsert, the first row for the key holds the value, so the same upsert again changes nothing. */
  lemma UpsertStatSettles(stats: seq<Stat>, matchId: int, teamId: int, statType: string, value: string)
    ensures var (s1, _) := UpsertStat(stats, matchId, teamId, statType, value);
            UpsertStat(s1, matchId, teamId, statType, value) == (s1, Kept)
  {
    var (s1, ch) := UpsertStat(stats, matchId, teamId, statType, value);
    match FindStat(stats, matchId, teamId, statType)
    case Some(i) =>
      FindStatUnique(s1, matchId, teamId, statType, i);
    case None =>
      FindStatUnique(s1, matchId, teamId, statType, |stats|);
  }

  /** An upsert for another team of the same match does not move the first row for this team, nor change its value. */
  lemma UpsertStatOtherTeam(stats: seq<Stat>, matchId: int, teamId: int, other: int, statType: string, value: string)
    requires other != teamId
    ensures var (s1, _) := UpsertStat(stats, matchId, other, statType, value);
            && FindStat(s1, matchId, teamId, statType) == FindStat(stats, matchId, teamId, statType)
            && (FindStat(stats, matchId, teamId, statType).Some? ==>
                  s1[FindStat(stats, matchId, teamId, statType).value] == stats[FindStat(stats, matchId, teamId, statType).value])
  {
    var (s1, ch) := UpsertStat(stats, matchId, other, statType, value);
    assert forall j :: 0 <= j < |stats| ==> (StatFor(s1[j], matchId, teamId, statType) <==> StatFor(stats[j], matchId, teamId, statType));
    match FindStat(stats, matchId, teamId, statType)
    case Some(i) =>
      FindStatUnique(s1, matchId, teamId, statType, i);
    case None =>
      if ch == Inserted {
        assert !StatFor(s1[|stats|], matchId, teamId, statType);
      }
  }

  /** The stats upsert keeps the table's uniqueness constraint: its new rows have a NULL period. */
  lemma UpsertStatUnique(stats: seq<Stat>, matchId: int, teamId: int, statType: string, value: string)
    requires StatsUnique(stats)
    ensures StatsUnique(UpsertStat(stats, matchId, teamId, statType, value).0)
  {
    var (s1, ch) := UpsertStat(stats, matchId, teamId, statType, value);
    if ch == Inserted {
      var s := Stat(Some(matchId), Some(teamId), statType, value, None);
      NullPeriodNeverIgnored(stats, s);
      InsertOrIgnoreStatUnique(stats, s);
    } else if ch == Updated {
      var i := FindStat(stats, matchId, teamId, statType).value;
      assert forall a, b :: 0 <= a < |s1| && 0 <= b < |s1| ==> (StatClash(s1[a], s1[b]) <==> StatClash(stats[a], stats[b]));
    }
  }

  /**
   * `INSERT OR IGNORE INTO matches`: an absent key is inserted under the next
   * id and a present row is left as it is, whatever the payload. Also the id
   * of the row under the key (`lastrowid` when a row was added, the
   * re-selected id otherwise) and whether a row was added (`rowcount > 0`).
   */
  function InsertOrIgnoreMatch(t: Table<MatchKey, Match>, k: MatchKey, m: Match): (Table<MatchKey, Match>, int, bool)
  {
    if k in t.rows then (t, t.rows[k].0, false) else (t.Insert(k, m), t.next, true)
  }

  /** The INSERT OR IGNORE statement on the connection, and the re-select when it was ignored. */
  method InsertOrIgnoreMatchRow(conn: Connection, k: MatchKey, m: Match) returns (id: int, added: bool)
    modifies conn
    ensures (conn.matches, id, added) == InsertOrIgnoreMatch(old(conn.matches), k, m)
    ensures conn.leagues == old(conn.leagues) && conn.teams == old(conn.teams)
    ensures conn.stats == old(conn.stats) && conn.odds == old(conn.odds) && conn.schema == old(conn.schema)
  {
    if k in conn.matches.rows {
      id, added := conn.matches.rows[k].0, false;
    } else {
      id, added := conn.matches.next, true;
      conn.matches := conn.matches.Insert(k, m);
    }
  }

  /**
   * INSERT OR IGNORE keeps the table valid and every row in it; afterwards
   * the key is present under the id returned, and a row was added exactly
   * when the key was absent, holding the payload.
   */
  lemma InsertOrIgnoreKeepsRows(t: Table<MatchKey, Match>, k: MatchKey, m: Match)
    requires t.Valid()
    ensures var (t', id, added) := InsertOrIgnoreMatch(t, k, m);
            && t'.Valid() && Extends(t, t') && k in t'.rows && t'.rows[k].0 == id && id >= 1
            && (added <==> k !in t.rows)
            && (added ==> t'.rows[k].1 == m)
            && t'.Size() == t.Size() + (if added then 1 else 0)
  {
    if k !in t.rows {
      InsertValid(t, k, m);
    }
  }

  /** A second INSERT OR IGNORE of the key, whatever its payload, is ignored and finds the same id. */
  lemma InsertOrIgnoreSettles(t: Table<MatchKey, Match>, k: MatchKey, m: Match, m2: Match)
    ensures var (t1, id1, _) := InsertOrIgnoreMatch(t, k, m);
            InsertOrIgnoreMatch(t1, k, m2) == (t1, id1, false)
  {
  }
}
