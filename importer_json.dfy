/**
 * The document importers of `database_importer.py` that add rows only:
 * football-data.org match lists (ON CONFLICT DO NOTHING), an OpenFootball
 * league with its clubs, and TheSportsDB league lists. Each walks the
 * entries of an already decoded document; reading and decoding the file is
 * outside the model, its outcome given as a parameter.
 */
module ImporterJson {
  import opened Wrappers
  import opened Text
  import opened Json
  import opened Dates
  import opened Outcome
  import opened ImporterStore
  import Store
  import Resolver

  /** The counts of an import when every step on a valid store counts w of its row, whatever the store holds. */
  function TallySum<T>(w: T -> Tally, rows: seq<T>): Tally
    decreases |rows|
  {
    if rows == [] then Tally(0, 0) else TallySum(w, rows[..|rows| - 1]).Plus(w(rows[|rows| - 1]))
  }

  /** An import whose steps count independently of the store counts the sum of its rows' counts. */
  lemma {:induction false} ImportTallies<T(!new)>(step: (ImportDb, T) -> (ImportDb, Tally), w: T -> Tally, db: ImportDb, rows: seq<T>)
    requires forall d: ImportDb, r :: d.Valid() ==> step(d, r).0.Valid() && step(d, r).1 == w(r)
    requires db.Valid()
    ensures Import(step, db, rows).1 == TallySum(w, rows)
    decreases |rows|
  {
    if rows != [] {
      var prev := rows[..|rows| - 1];
      ImportTallies(step, w, db, prev);
      ImportValid(step, db, prev);
    }
  }

  // ------------------------------------------------ football-data.org JSON

  const FD_ORG_SOURCE: string := "FootballDataOrg"

  /**
   * The match list of a decoded document: the document itself when it is a
   * list, else `data.get('matches', [])`; None where `.get` raises because
   * the document is neither. The second look-up of `data['matches']` made
   * when that list is empty finds the same value again and changes nothing.
   */
  function FdOrgMatchList(data: Json): Option<Json>
  {
    match data
    case JList(_) => Some(data)
    case JDict(m) => Some(GetOr(m, "matches", JList([])))
    case _ => None
  }

  /**
   * What `enumerate` walks over a truthy match list. A list gives its
   * items. The keys of a dict and the characters of a string are strings,
   * on which the entry's first `.get` raises, so every such iteration is
   * skipped before it writes: they are left out of the sequence. A number
   * or a boolean makes `enumerate` raise: None.
   */
  function FdOrgEntries(list: Json): Option<seq<Json>>
  {
    match list
    case JList(xs) => Some(xs)
    case JDict(_) => Some([])
    case JStr(_) => Some([])
    case _ => None
  }

  /** Competition code PL is filed under England and BL1 under Germany; no other code has a country. */
  function FdOrgCountry(code: Json): Option<string>
  {
    if code == JStr("PL") then Some("England") else if code == JStr("BL1") then Some("Germany") else None
  }

  /**
   * An entry's competition name and the country its code gives, the code
   * defaulting to the override when the key is missing; None where a `.get`
   * raises (the entry or its competition is not a dict) or the name is falsy.
   */
  function FdOrgLeague(entry: Json, codeOverride: Json): (r: Option<(Json, Option<string>)>)
    ensures r.Some? <==>
              && entry.JDict?
              && GetOr(entry.fields, "competition", JDict(map[])).JDict?
              && Truthy(Get(GetOr(entry.fields, "competition", JDict(map[])).fields, "name"))
    ensures r.Some? ==>
              var comp := GetOr(entry.fields, "competition", JDict(map[])).fields;
              && r.value.0 == Get(comp, "name")
              && r.value.1 == FdOrgCountry(GetOr(comp, "code", codeOverride))
    ensures r.Some? && GetOr(GetOr(entry.fields, "competition", JDict(map[])).fields, "code", codeOverride) == JStr("PL") ==>
              r.value.1 == Some("England")
    ensures r.Some? && GetOr(GetOr(entry.fields, "competition", JDict(map[])).fields, "code", codeOverride) == JStr("BL1") ==>
              r.value.1 == Some("Germany")
    ensures r.Some? && GetOr(GetOr(entry.fields, "competition", JDict(map[])).fields, "code", codeOverride) !in {JStr("PL"), JStr("BL1")} ==>
              r.value.1.None?
  {
    if !entry.JDict? then None
    else
      var comp := GetOr(entry.fields, "competition", JDict(map[]));
      if !comp.JDict? then None
      else
        var name, code := Get(comp.fields, "name"), GetOr(comp.fields, "code", codeOverride);
        if Truthy(name) then Some((name, FdOrgCountry(code))) else None
  }

  /** The two team names, both read before either is checked; None where a `.get` raises or a name is falsy. */
  function FdOrgTeams(m: Object): (r: Option<(Json, Json)>)
    ensures r.Some? ==> Truthy(r.value.0) && Truthy(r.value.1)
  {
    var ht, at := GetOr(m, "homeTeam", JDict(map[])), GetOr(m, "awayTeam", JDict(map[]));
    if !ht.JDict? || !at.JDict? then None
    else
      var hn, an := Get(ht.fields, "name"), Get(at.fields, "name");
      if Truthy(hn) && Truthy(an) then Some((hn, an)) else None
  }

  /**
   * `utcDate` parsed as `%Y-%m-%dT%H:%M:%SZ`, else by `fromisoformat` once
   * every 'Z' is replaced by "+00:00"; None for a falsy value, for a value
   * that is not a string (`strptime` raises `TypeError`) and where neither parses.
   */
  function FdOrgKickoff(raw: Json, p: Parser): (r: Option<Stamp>)
    ensures !(raw.JStr? && raw.s != "") ==> r.None?
    ensures raw.JStr? && raw.s != "" && p(raw.s, IsoZulu).Some? ==> r == p(raw.s, IsoZulu)
    ensures raw.JStr? && raw.s != "" && p(raw.s, IsoZulu).None? ==> r == p(ReplaceCharWith(raw.s, 'Z', "+00:00"), IsoFormat)
  {
    if raw.JStr? && raw.s != "" then
      if p(raw.s, IsoZulu).Some? then p(raw.s, IsoZulu) else p(ReplaceCharWith(raw.s, 'Z', "+00:00"), IsoFormat)
    else None
  }

  /**
   * Whether a full-time score is bound to the INTEGER column as an integer
   * or NULL: null, an integer, a boolean, or a float holding a whole number,
   * which the column's INTEGER affinity stores as that integer.
   */
  predicate IntegerScore(j: Json)
  {
    j.JNull? || j.JInt? || j.JBool? || (j.JReal? && j.r == j.r.Floor as real)
  }

  /** The integer SQLite stores for such a score: True as 1, False as 0; None for NULL. */
  function ScoreOf(j: Json): Option<int>
  {
    match j
    case JInt(i) => Some(i)
    case JBool(b) => Some(if b then 1 else 0)
    case JReal(x) => Some(x.Floor)
    case _ => None
  }

  /**
   * The status and scores of an entry: `status` upper-cased, SCHEDULED when
   * the key is missing; scores are read only for FINISHED, which becomes
   * UNKNOWN_SCORE when either full-time score is null (the other one is
   * still stored). None where `.upper()` or a `.get` raises, and for a score
   * that is not an IntegerScore.
   */
  function FdOrgResult(m: Object): (r: Option<(string, Option<int>, Option<int>)>)
    ensures r.Some? ==> (r.value.0 == FINISHED <==> r.value.1.Some? && r.value.2.Some?)
    ensures r.Some? && (r.value.1.Some? || r.value.2.Some?) ==>
              GetOr(m, "status", JStr(SCHEDULED)).JStr? && Upper(GetOr(m, "status", JStr(SCHEDULED)).s) == FINISHED
    ensures r.Some? && r.value.0 != UNKNOWN_SCORE ==>
              GetOr(m, "status", JStr(SCHEDULED)).JStr? && r.value.0 == Upper(GetOr(m, "status", JStr(SCHEDULED)).s)
    ensures GetOr(m, "status", JStr(SCHEDULED)).JStr? && Upper(GetOr(m, "status", JStr(SCHEDULED)).s) != FINISHED ==>
              r == Some((Upper(GetOr(m, "status", JStr(SCHEDULED)).s), None, None))
    ensures !GetOr(m, "status", JStr(SCHEDULED)).JStr? ==> r.None?
    ensures GetOr(m, "status", JStr(SCHEDULED)).JStr? && Upper(GetOr(m, "status", JStr(SCHEDULED)).s) == FINISHED ==>
              (r.Some? <==>
                 && GetOr(m, "score", JDict(map[])).JDict?
                 && GetOr(GetOr(m, "score", JDict(map[])).fields, "fullTime", JDict(map[])).JDict?
                 && IntegerScore(Get(GetOr(GetOr(m, "score", JDict(map[])).fields, "fullTime", JDict(map[])).fields, "home"))
                 && IntegerScore(Get(GetOr(GetOr(m, "score", JDict(map[])).fields, "fullTime", JDict(map[])).fields, "away")))
    ensures r.Some? && Upper(GetOr(m, "status", JStr(SCHEDULED)).s) == FINISHED ==>
              var ft := GetOr(GetOr(m, "score", JDict(map[])).fields, "fullTime", JDict(map[])).fields;
              r.value.1 == ScoreOf(Get(ft, "home")) && r.value.2 == ScoreOf(Get(ft, "away"))
  {
    var raw := GetOr(m, "status", JStr(SCHEDULED));
    if !raw.JStr? then None
    else
      var status := Upper(raw.s);
      if status != FINISHED then Some((status, None, None))
      else
        var score := GetOr(m, "score", JDict(map[]));
        if !score.JDict? then None
        else
          var ft := GetOr(score.fields, "fullTime", JDict(map[]));
          if !ft.JDict? then None
          else
            var h, a := Get(ft.fields, "home"), Get(ft.fields, "away");
            if !IntegerScore(h) || !IntegerScore(a) then None
            else if h.JNull? || a.JNull? then Some((UNKNOWN_SCORE, ScoreOf(h), ScoreOf(a)))
            else Some((FINISHED, ScoreOf(h), ScoreOf(a)))
  }

  /** An entry without a `status` key is stored as SCHEDULED without scores. */
  lemma FdOrgDefaultStatus(m: Object)
    requires "status" !in m
    ensures FdOrgResult(m) == Some((SCHEDULED, None, None))
  {
    assert Upper(SCHEDULED) == SCHEDULED;
  }

  /** One iteration of the entry loop: the store afterwards and the match it added. */
  function FdOrgRow(db: ImportDb, entry: Json, codeOverride: Json, p: Parser): (ImportDb, Tally)
  {
    match FdOrgLeague(entry, codeOverride)
    case None => (db, Tally(0, 0))
    case Some((name, country)) =>
      var src := Some(FD_ORG_SOURCE);
      var (db1, lid) := GetOrCreateLeague(db, AsText(name), Some(FOOTBALL), country, src, Clean);
      if Resolver.Falsy(lid) then (db1, Tally(0, 0))
      else
        match FdOrgTeams(entry.fields)
        case None => (db1, Tally(0, 0))
        case Some((hn, an)) =>
          var (db2, hid, aid) := ResolveTeams(db1, AsText(hn), country, AsText(an), country, lid, src);
          if Resolver.Falsy(hid) || Resolver.Falsy(aid) then (db2, Tally(0, 0))
          else FdOrgMatch(db2, entry.fields, lid.value, hid.value, aid.value, p)
  }

  /** The kickoff, the result, then the INSERT ... ON CONFLICT DO NOTHING of an entry whose league and teams are known. */
  function FdOrgMatch(db: ImportDb, m: Object, leagueId: int, homeId: int, awayId: int, p: Parser): (ImportDb, Tally)
  {
    match FdOrgKickoff(Get(m, "utcDate"), p)
    case None => (db, Tally(0, 0))
    case Some(t) =>
      match FdOrgResult(m)
      case None => (db, Tally(0, 0))
      case Some((status, hs, as_)) =>
        var (tb, _, added) := InsertMatchDoNothing(db.matches, FdOrgKey(t, homeId, awayId),
                                                   Fixture(leagueId, status, hs, as_, PyStr(Get(m, "id"))));
        (db.(matches := tb), Tally(if added then 1 else 0, 0))
  }

  function FdOrgKey(t: Stamp, homeId: int, awayId: int): ConflictKey
  {
    ConflictKey(t.SqlText(), homeId, awayId, FD_ORG_SOURCE)
  }

  function FdOrgStep(codeOverride: Json, p: Parser): (ImportDb, Json) -> (ImportDb, Tally)
  {
    (d, e) => FdOrgRow(d, e, codeOverride, p)
  }

  /**
   * `import_football_data_org_historical_json`. doc is the decoded file,
   * None when the file is missing or does not decode (then nothing is
   * written and 0, 0 returned). The result is the store afterwards with
   * `(m_added, o_added)`, or None where the function raises, before any write.
   */
  function ImportFdOrgDoc(db: ImportDb, doc: Option<Json>, codeOverride: Json, p: Parser): Option<(ImportDb, Tally)>
  {
    if doc.None? then Some((db, Tally(0, 0)))
    else
      match FdOrgMatchList(doc.value)
      case None => None
      case Some(list) =>
        if !Truthy(list) then Some((db, Tally(0, 0)))
        else
          match FdOrgEntries(list)
          case None => None
          case Some(entries) => Some(Import(FdOrgStep(codeOverride, p), db, entries))
  }

  lemma FdOrgMatchGrows(db: ImportDb, m: Object, leagueId: int, homeId: int, awayId: int, p: Parser)
    ensures var (db', t) := FdOrgMatch(db, m, leagueId, homeId, awayId, p);
            && Grows(db, db') && db' == db.(matches := db'.matches)
            && db'.matches.Size() == db.matches.Size() + t.main && t.side == 0
  {
    var kick := FdOrgKickoff(Get(m, "utcDate"), p);
    var res := FdOrgResult(m);
    if kick.Some? && res.Some? {
      var (status, hs, as_) := res.value;
      InsertMatchDoNothingGrows(db, FdOrgKey(kick.value, homeId, awayId), Fixture(leagueId, status, hs, as_, PyStr(Get(m, "id"))));
    }
  }

  /** An entry only adds rows, counts exactly the match it added, and writes no odds: `o_added` stays 0. */
  lemma FdOrgRowGrows(db: ImportDb, entry: Json, codeOverride: Json, p: Parser)
    ensures var (db', t) := FdOrgRow(db, entry, codeOverride, p);
            && Grows(db, db') && db'.matches.Size() == db.matches.Size() + t.main
            && db'.odds == db.odds && db'.stats == db.stats && t.side == 0
  {
    match FdOrgLeague(entry, codeOverride)
    case None =>
    case Some((name, country)) =>
      var src := Some(FD_ORG_SOURCE);
      var (db1, lid) := GetOrCreateLeague(db, AsText(name), Some(FOOTBALL), country, src, Clean);
      GetOrCreateLeagueGrows(db, AsText(name), Some(FOOTBALL), country, src, Clean);
      if !Resolver.Falsy(lid) && FdOrgTeams(entry.fields).Some? {
        var (hn, an) := FdOrgTeams(entry.fields).value;
        var (db2, hid, aid) := ResolveTeams(db1, AsText(hn), country, AsText(an), country, lid, src);
        ResolveTeamsGrows(db1, AsText(hn), country, AsText(an), country, lid, src);
        GrowsTransitive(db, db1, db2);
        if !Resolver.Falsy(hid) && !Resolver.Falsy(aid) {
          FdOrgMatchGrows(db2, entry.fields, lid.value, hid.value, aid.value, p);
          GrowsTransitive(db, db2, FdOrgMatch(db2, entry.fields, lid.value, hid.value, aid.value, p).0);
        }
      }
  }

  /** An entry keeps the store's ids valid. */
  lemma FdOrgRowValid(db: ImportDb, entry: Json, codeOverride: Json, p: Parser)
    requires db.Valid()
    ensures FdOrgRow(db, entry, codeOverride, p).0.Valid()
  {
    match FdOrgLeague(entry, codeOverride)
    case None =>
    case Some((name, country)) =>
      var src := Some(FD_ORG_SOURCE);
      var (db1, lid) := GetOrCreateLeague(db, AsText(name), Some(FOOTBALL), country, src, Clean);
      GetOrCreateLeagueSpec(db, AsText(name), Some(FOOTBALL), country, src, Clean);
      if !Resolver.Falsy(lid) && FdOrgTeams(entry.fields).Some? {
        FdOrgTeamsValid(db, entry, codeOverride, p, name, country, db1, lid);
      } else {
        assert FdOrgRow(db, entry, codeOverride, p).0 == db1;
      }
  }

  /** The teams and the match of an entry whose league resolved keep the store's ids valid. */
  lemma FdOrgTeamsValid(db: ImportDb, entry: Json, codeOverride: Json, p: Parser,
                        name: Json, country: Option<string>, db1: ImportDb, lid: Option<int>)
    requires FdOrgLeague(entry, codeOverride) == Some((name, country))
    requires (db1, lid) == GetOrCreateLeague(db, AsText(name), Some(FOOTBALL), country, Some(FD_ORG_SOURCE), Clean)
    requires db1.Valid() && !Resolver.Falsy(lid) && FdOrgTeams(entry.fields).Some?
    ensures FdOrgRow(db, entry, codeOverride, p).0.Valid()
  {
    var src := Some(FD_ORG_SOURCE);
    var (hn, an) := FdOrgTeams(entry.fields).value;
    var (db2, hid, aid) := ResolveTeams(db1, AsText(hn), country, AsText(an), country, lid, src);
    ResolveTeamsValid(db1, AsText(hn), country, AsText(an), country, lid, src);
    if !Resolver.Falsy(hid) && !Resolver.Falsy(aid) {
      FdOrgMatchValid(db2, entry.fields, lid.value, hid.value, aid.value, p);
      assert FdOrgRow(db, entry, codeOverride, p) == FdOrgMatch(db2, entry.fields, lid.value, hid.value, aid.value, p);
    } else {
      assert FdOrgRow(db, entry, codeOverride, p).0 == db2;
    }
  }

  lemma FdOrgMatchValid(db: ImportDb, m: Object, leagueId: int, homeId: int, awayId: int, p: Parser)
    requires db.Valid()
    ensures FdOrgMatch(db, m, leagueId, homeId, awayId, p).0.Valid()
  {
    var kick, res := FdOrgKickoff(Get(m, "utcDate"), p), FdOrgResult(m);
    if kick.Some? && res.Some? {
      var (status, hs, as_) := res.value;
      InsertMatchDoNothingSpec(db.matches, FdOrgKey(kick.value, homeId, awayId),
                               Fixture(leagueId, status, hs, as_, PyStr(Get(m, "id"))));
    }
  }

  /**
   * On a valid store, with a kickoff and a readable result, the match is
   * under its key afterwards, counted exactly when new, and a new match
   * holds the league id, the result and `str()` of the entry's id.
   */
  lemma FdOrgMatchStores(db: ImportDb, m: Object, leagueId: int, homeId: int, awayId: int, p: Parser)
    requires db.Valid()
    requires FdOrgKickoff(Get(m, "utcDate"), p).Some? && FdOrgResult(m).Some?
    ensures var (status, hs, as_) := FdOrgResult(m).value;
            var (db', t) := FdOrgMatch(db, m, leagueId, homeId, awayId, p);
            var k := FdOrgKey(FdOrgKickoff(Get(m, "utcDate"), p).value, homeId, awayId);
            && k in db'.matches.rows && db'.teams == db.teams && db'.leagues == db.leagues
            && (t.main == 1 <==> k !in db.matches.rows)
            && (k !in db.matches.rows ==> db'.matches.rows[k].1 == Fixture(leagueId, status, hs, as_, PyStr(Get(m, "id"))))
  {
    var (status, hs, as_) := FdOrgResult(m).value;
    InsertMatchDoNothingSpec(db.matches, FdOrgKey(FdOrgKickoff(Get(m, "utcDate"), p).value, homeId, awayId),
                             Fixture(leagueId, status, hs, as_, PyStr(Get(m, "id"))));
  }

  /**
   * On a valid store, an entry with a competition name, two team names,
   * all three text, a kickoff and a readable result leaves its league (with
   * the country its code gives), both teams and a match under (kickoff,
   * home id, away id, source); it counts one exactly when that key was new,
   * and a new match holds the league id, the result and `str()` of the id.
   */
  lemma FdOrgRowStores(db: ImportDb, entry: Json, codeOverride: Json, p: Parser)
    requires db.Valid()
    requires FdOrgLeague(entry, codeOverride).Some? && FdOrgTeams(entry.fields).Some?
    requires AsText(FdOrgLeague(entry, codeOverride).value.0).Some?
    requires AsText(FdOrgTeams(entry.fields).value.0).Some? && AsText(FdOrgTeams(entry.fields).value.1).Some?
    requires FdOrgKickoff(Get(entry.fields, "utcDate"), p).Some? && FdOrgResult(entry.fields).Some?
    ensures var (name, country) := FdOrgLeague(entry, codeOverride).value;
            var home, away := AsText(FdOrgTeams(entry.fields).value.0).value, AsText(FdOrgTeams(entry.fields).value.1).value;
            var (status, hs, as_) := FdOrgResult(entry.fields).value;
            var (db', t) := FdOrgRow(db, entry, codeOverride, p);
            var lk := Store.Key(AsText(name).value, FOOTBALL);
            && lk in db'.leagues.rows && home in db'.teams.rows && away in db'.teams.rows
            && (lk !in db.leagues.rows ==> db'.leagues.rows[lk].1 == League(country, Some(FD_ORG_SOURCE)))
            && var k := FdOrgKey(FdOrgKickoff(Get(entry.fields, "utcDate"), p).value, db'.teams.rows[home].0, db'.teams.rows[away].0);
               && k in db'.matches.rows
               && (t.main == 1 <==> k !in db.matches.rows)
               && (k !in db.matches.rows ==>
                     db'.matches.rows[k].1 == Fixture(db'.leagues.rows[lk].0, status, hs, as_, PyStr(Get(entry.fields, "id"))))
  {
    var (name, country) := FdOrgLeague(entry, codeOverride).value;
    var src := Some(FD_ORG_SOURCE);
    var (db1, lid) := GetOrCreateLeague(db, AsText(name), Some(FOOTBALL), country, src, Clean);
    GetOrCreateLeagueClean(db, AsText(name).value, FOOTBALL, country, src);
    var (hn, an) := FdOrgTeams(entry.fields).value;
    var home, away := AsText(hn).value, AsText(an).value;
    var (db2, hid, aid) := ResolveTeams(db1, Some(home), country, Some(away), country, lid, src);
    ResolveTeamsClean(db1, home, country, away, country, lid, src);
    FdOrgMatchStores(db2, entry.fields, lid.value, hid.value, aid.value, p);
    FdOrgRowResolved(db, entry, codeOverride, p, name, country, db1, lid, hn, an, db2, hid, aid);
    var (db', t) := FdOrgMatch(db2, entry.fields, lid.value, hid.value, aid.value, p);
    var lk := Store.Key(AsText(name).value, FOOTBALL);
    assert db'.leagues == db1.leagues && db'.teams == db2.teams && db2.matches == db.matches;
    assert db'.leagues.rows[lk].0 == lid.value;
    assert db'.teams.rows[home].0 == hid.value && db'.teams.rows[away].0 == aid.value;
  }

  /** An entry whose league and both teams resolve is its match INSERT on the resolved store. */
  lemma FdOrgRowResolved(db: ImportDb, entry: Json, codeOverride: Json, p: Parser, name: Json, country: Option<string>,
                         db1: ImportDb, lid: Option<int>, hn: Json, an: Json, db2: ImportDb, hid: Option<int>, aid: Option<int>)
    requires FdOrgLeague(entry, codeOverride) == Some((name, country))
    requires (db1, lid) == GetOrCreateLeague(db, AsText(name), Some(FOOTBALL), country, Some(FD_ORG_SOURCE), Clean)
    requires FdOrgTeams(entry.fields) == Some((hn, an))
    requires (db2, hid, aid) == ResolveTeams(db1, AsText(hn), country, AsText(an), country, lid, Some(FD_ORG_SOURCE))
    requires !Resolver.Falsy(lid) && !Resolver.Falsy(hid) && !Resolver.Falsy(aid)
    ensures FdOrgRow(db, entry, codeOverride, p) == FdOrgMatch(db2, entry.fields, lid.value, hid.value, aid.value, p)
  {
  }

  lemma FdOrgMatchSettles(db: ImportDb, m: Object, leagueId: int, homeId: int, awayId: int, p: Parser, d: ImportDb)
    requires Grows(FdOrgMatch(db, m, leagueId, homeId, awayId, p).0, d)
    ensures FdOrgMatch(d, m, leagueId, homeId, awayId, p) == (d, Tally(0, 0))
  {
    var kick, res := FdOrgKickoff(Get(m, "utcDate"), p), FdOrgResult(m);
    if kick.Some? && res.Some? {
      var (status, hs, as_) := res.value;
      var fx := Fixture(leagueId, status, hs, as_, PyStr(Get(m, "id")));
      InsertMatchDoNothingSettles(db.matches, FdOrgKey(kick.value, homeId, awayId), fx, d.matches, fx);
    }
  }

  /** Once an entry is imported, importing it again on any store that kept those rows writes and counts nothing. */
  lemma FdOrgRowSettles(db: ImportDb, entry: Json, codeOverride: Json, p: Parser, d: ImportDb)
    requires Grows(FdOrgRow(db, entry, codeOverride, p).0, d)
    ensures FdOrgRow(d, entry, codeOverride, p) == (d, Tally(0, 0))
  {
    match FdOrgLeague(entry, codeOverride)
    case None =>
    case Some((name, country)) =>
      var src := Some(FD_ORG_SOURCE);
      var (db1, lid) := GetOrCreateLeague(db, AsText(name), Some(FOOTBALL), country, src, Clean);
      if !Resolver.Falsy(lid) && FdOrgTeams(entry.fields).Some? {
        var (hn, an) := FdOrgTeams(entry.fields).value;
        var (db2, hid, aid) := ResolveTeams(db1, AsText(hn), country, AsText(an), country, lid, src);
        ResolveTeamsGrows(db1, AsText(hn), country, AsText(an), country, lid, src);
        if !Resolver.Falsy(hid) && !Resolver.Falsy(aid) {
          FdOrgMatchGrows(db2, entry.fields, lid.value, hid.value, aid.value, p);
          FdOrgMatchSettles(db2, entry.fields, lid.value, hid.value, aid.value, p, d);
          GrowsTransitive(db2, FdOrgMatch(db2, entry.fields, lid.value, hid.value, aid.value, p).0, d);
        }
        GrowsTransitive(db1, db2, d);
        ResolveTeamsSettles(db1, AsText(hn), country, AsText(an), country, lid, src, d);
      }
      GetOrCreateLeagueSettles(db, AsText(name), Some(FOOTBALL), country, src, d, country, src, Clean);
  }

  lemma FdOrgAbsorbing(codeOverride: Json, p: Parser)
    ensures QuietlyAbsorbing(FdOrgStep(codeOverride, p))
  {
    forall db: ImportDb, e: Json
      ensures Grows(db, FdOrgStep(codeOverride, p)(db, e).0) && SettledQuietly(FdOrgStep(codeOverride, p), FdOrgStep(codeOverride, p)(db, e).0, e)
    {
      FdOrgRowGrows(db, e, codeOverride, p);
      forall d | Grows(FdOrgRow(db, e, codeOverride, p).0, d) ensures FdOrgStep(codeOverride, p)(d, e) == (d, Tally(0, 0)) {
        FdOrgRowSettles(db, e, codeOverride, p, d);
      }
    }
  }

  /**
   * The entry loop only adds rows, keeps the store valid, counts the
   * matches it added and no odds, and a second pass writes and counts nothing.
   */
  lemma FdOrgEntriesReimport(db: ImportDb, entries: seq<Json>, codeOverride: Json, p: Parser)
    ensures var (db1, t) := Import(FdOrgStep(codeOverride, p), db, entries);
            && Grows(db, db1) && db1.odds == db.odds && db1.stats == db.stats
            && db1.matches.Size() == db.matches.Size() + t.main && t.side == 0
            && (db.Valid() ==> db1.Valid())
            && Import(FdOrgStep(codeOverride, p), db1, entries) == (db1, Tally(0, 0))
  {
    var step := FdOrgStep(codeOverride, p);
    FdOrgAbsorbing(codeOverride, p);
    ReimportAddsNothing(step, db, entries);
    FdOrgEntriesCount(db, entries, codeOverride, p);
    if db.Valid() {
      forall d: ImportDb, e: Json | d.Valid() ensures step(d, e).0.Valid() {
        FdOrgRowValid(d, e, codeOverride, p);
      }
      ImportValid(step, db, entries);
    }
  }

  lemma FdOrgEntriesCount(db: ImportDb, entries: seq<Json>, codeOverride: Json, p: Parser)
    requires Grows(db, Import(FdOrgStep(codeOverride, p), db, entries).0)
    ensures var (db1, t) := Import(FdOrgStep(codeOverride, p), db, entries);
            && db1.odds == db.odds && db1.stats == db.stats
            && db1.matches.Size() == db.matches.Size() + t.main && t.side == 0
  {
    var step := FdOrgStep(codeOverride, p);
    forall d: ImportDb, e: Json
      ensures step(d, e).0.matches.Size() == d.matches.Size() + step(d, e).1.main
      ensures |step(d, e).0.odds| == |d.odds| + step(d, e).1.side
      ensures |step(d, e).0.stats| == |d.stats| + step(d, e).1.side
      ensures 0 == 0 + step(d, e).1.side
    {
      FdOrgRowGrows(d, e, codeOverride, p);
    }
    ImportCountsRows(step, (d: ImportDb) => |d.odds|, db, entries);
    ImportCountsRows(step, (d: ImportDb) => |d.stats|, db, entries);
    ImportCountsRows(step, (d: ImportDb) => 0, db, entries);
  }

  /**
   * A file import that returns only adds rows, keeps the store valid,
   * returns the number of matches it added and 0 odds, and importing the
   * same document again writes nothing and returns 0, 0.
   */
  lemma FdOrgReimport(db: ImportDb, doc: Option<Json>, codeOverride: Json, p: Parser)
    requires ImportFdOrgDoc(db, doc, codeOverride, p).Some?
    ensures var (db1, t) := ImportFdOrgDoc(db, doc, codeOverride, p).value;
            && Grows(db, db1) && db1.odds == db.odds && db1.stats == db.stats
            && db1.matches.Size() == db.matches.Size() + t.main && t.side == 0
            && (db.Valid() ==> db1.Valid())
            && ImportFdOrgDoc(db1, doc, codeOverride, p) == Some((db1, Tally(0, 0)))
  {
    if doc.Some? && Truthy(FdOrgMatchList(doc.value).value) {
      FdOrgEntriesReimport(db, FdOrgEntries(FdOrgMatchList(doc.value).value).value, codeOverride, p);
    }
  }

  /** One entry on the connection. */
  method FdOrgRowOn(conn: ImportConnection, entry: Json, codeOverride: Json, p: Parser) returns (t: Tally)
    modifies conn
    ensures (conn.Snapshot(), t) == FdOrgRow(old(conn.Snapshot()), entry, codeOverride, p)
  {
    var league := FdOrgLeague(entry, codeOverride);
    if league.None? {
      return Tally(0, 0);
    }
    var (name, country) := league.value;
    var src := Some(FD_ORG_SOURCE);
    var lid := GetOrCreateLeagueRow(conn, AsText(name), Some(FOOTBALL), country, src, Clean);
    if Resolver.Falsy(lid) {
      return Tally(0, 0);
    }
    var teams := FdOrgTeams(entry.fields);
    if teams.None? {
      return Tally(0, 0);
    }
    var (hn, an) := teams.value;
    var hid, aid := ResolveTeamsRow(conn, AsText(hn), country, AsText(an), country, lid, src);
    if Resolver.Falsy(hid) || Resolver.Falsy(aid) {
      return Tally(0, 0);
    }
    var m := entry.fields;
    var kick, res := FdOrgKickoff(Get(m, "utcDate"), p), FdOrgResult(m);
    if kick.None? || res.None? {
      return Tally(0, 0);
    }
    var (status, hs, as_) := res.value;
    var _, added := InsertMatchDoNothingRow(conn, FdOrgKey(kick.value, hid.value, aid.value),
                                            Fixture(lid.value, status, hs, as_, PyStr(Get(m, "id"))));
    t := Tally(if added then 1 else 0, 0);
  }

  /** The entry loop: `m_added` and `o_added` over the entries. */
  method ImportFdOrgEntries(conn: ImportConnection, entries: seq<Json>, codeOverride: Json, p: Parser) returns (t: Tally)
    modifies conn
    ensures (conn.Snapshot(), t) == Import(FdOrgStep(codeOverride, p), old(conn.Snapshot()), entries)
  {
    ghost var db0 := conn.Snapshot();
    t := Tally(0, 0);
    for i := 0 to |entries|
      invariant (conn.Snapshot(), t) == Import(FdOrgStep(codeOverride, p), db0, entries[..i])
    {
      assert entries[..i + 1][..i] == entries[..i];
      var n := FdOrgRowOn(conn, entries[i], codeOverride, p);
      t := t.Plus(n);
    }
    assert entries[..|entries|] == entries;
  }

  /** `import_football_data_org_historical_json` on the connection: the counts, or None where it raises. */
  method ImportFdOrg(conn: ImportConnection, doc: Option<Json>, codeOverride: Json, p: Parser) returns (r: Option<Tally>)
    modifies conn
    ensures r.None? ==> ImportFdOrgDoc(old(conn.Snapshot()), doc, codeOverride, p).None? && conn.Snapshot() == old(conn.Snapshot())
    ensures r.Some? ==> ImportFdOrgDoc(old(conn.Snapshot()), doc, codeOverride, p) == Some((conn.Snapshot(), r.value))
  {
    if doc.None? {
      return Some(Tally(0, 0));
    }
    var list := FdOrgMatchList(doc.value);
    if list.None? {
      return None;
    }
    if !Truthy(list.value) {
      return Some(Tally(0, 0));
    }
    var entries := FdOrgEntries(list.value);
    if entries.None? {
      return None;
    }
    var t := ImportFdOrgEntries(conn, entries.value, codeOverride, p);
    r := Some(t);
  }

  // ------------------------------------------------ OpenFootball league and clubs

  /** A repository whose name contains "eng-" holds an English league; no other gets a country. */
  function OpenFootballCountry(repo: string): Option<string>
  {
    if Contains(repo, "eng-") then Some("England") else None
  }

  /** `f"{l_name} {season}"` when the season is truthy, else the name as it is bound. */
  function DisplayName(name: Json, season: Json): Option<string>
  {
    if Truthy(season) then Some(PyStr(name) + " " + PyStr(season)) else AsText(name)
  }

  /**
   * A club entry's name as `get_or_create_team` takes it: the entry itself
   * when it is a string, its `name` when it is a dict; None when that is
   * falsy or, for a container, cannot be bound.
   */
  function ClubName(entry: Json): Option<string>
  {
    match entry
    case JStr(s) => if s != "" then Some(s) else None
    case JDict(m) => if Truthy(Get(m, "name")) then AsText(Get(m, "name")) else None
    case _ => None
  }

  /** One club of the list: its team resolved, counted when an id came back. */
  function ClubRow(db: ImportDb, entry: Json, country: Option<string>, leagueId: int, source: Option<string>): (ImportDb, Tally)
  {
    match ClubName(entry)
    case None => (db, Tally(0, 0))
    case Some(name) =>
      var (db1, id) := GetOrCreateTeam(db, Some(name), country, Some(leagueId), source, Clean);
      (db1, Tally(0, if Resolver.Falsy(id) then 0 else 1))
  }

  function ClubStep(country: Option<string>, leagueId: int, source: Option<string>): (ImportDb, Json) -> (ImportDb, Tally)
  {
    (d, e) => ClubRow(d, e, country, leagueId, source)
  }

  /** A club's own result is its step's result. */
  lemma ClubStepIs(db: ImportDb, entry: Json, country: Option<string>, leagueId: int, source: Option<string>, db': ImportDb, t: Tally)
    requires (db', t) == ClubRow(db, entry, country, leagueId, source)
    ensures (db', t) == ClubStep(country, leagueId, source)(db, entry)
  {
  }

  /** What a club counts on a valid store: one when it has a name. */
  function ClubTally(entry: Json): Tally
  {
    Tally(0, if ClubName(entry).Some? then 1 else 0)
  }

  /**
   * `import_openfootball_league_teams`: the store afterwards and
   * `(leagues_proc, teams_proc)`. The league is `name` and `season`; the
   * clubs are resolved only once it has an id and only when `clubs` is a list.
   */
  function ImportOpenFootball(db: ImportDb, data: Json, repo: string): (ImportDb, Tally)
  {
    if !data.JDict? then (db, Tally(0, 0))
    else
      var m, country, src := data.fields, OpenFootballCountry(repo), Some("OpenFootball/" + repo);
      if !Truthy(Get(m, "name")) then (db, Tally(0, 0))
      else
        var (db1, lid) := GetOrCreateLeague(db, DisplayName(Get(m, "name"), Get(m, "season")), Some(FOOTBALL), country, src, Clean);
        if Resolver.Falsy(lid) then (db1, Tally(0, 0))
        else if "clubs" !in m || !m["clubs"].JList? then (db1, Tally(1, 0))
        else
          var (db2, t) := Import(ClubStep(country, lid.value, src), db1, m["clubs"].items);
          (db2, Tally(1, t.side))
  }

  /** A club row only adds teams; on a valid store it keeps it valid and counts its ClubTally. */
  lemma ClubRowSpec(db: ImportDb, entry: Json, country: Option<string>, leagueId: int, source: Option<string>)
    ensures var (db', t) := ClubRow(db, entry, country, leagueId, source);
            Grows(db, db') && db' == db.(teams := db'.teams)
    ensures db.Valid() ==> ClubRow(db, entry, country, leagueId, source).0.Valid() &&
                           ClubRow(db, entry, country, leagueId, source).1 == ClubTally(entry)
    ensures db.Valid() && ClubName(entry).Some? ==> ClubName(entry).value in ClubRow(db, entry, country, leagueId, source).0.teams.rows
  {
    if ClubName(entry).Some? {
      GetOrCreateTeamGrows(db, ClubName(entry), country, Some(leagueId), source, Clean);
      if db.Valid() {
        GetOrCreateTeamSpec(db, ClubName(entry), country, Some(leagueId), source, Clean);
      }
    }
  }

  lemma ClubAbsorbing(country: Option<string>, leagueId: int, source: Option<string>)
    ensures Absorbing(ClubStep(country, leagueId, source))
  {
    var step := ClubStep(country, leagueId, source);
    forall db: ImportDb, e: Json ensures Grows(db, step(db, e).0) && Settled(step, step(db, e).0, e) {
      ClubRowSpec(db, e, country, leagueId, source);
      forall d | Grows(step(db, e).0, d) ensures step(d, e).0 == d {
        if ClubName(e).Some? {
          GetOrCreateTeamSettles(db, ClubName(e), country, Some(leagueId), source, d, country, Some(leagueId), source, Clean);
        }
      }
    }
  }

  /**
   * On a valid store, walking the clubs counts every club with a name once,
   * whether its team was new or not, and every such team is present afterwards.
   */
  lemma ClubsCounted(db: ImportDb, clubs: seq<Json>, country: Option<string>, leagueId: int, source: Option<string>)
    requires db.Valid()
    ensures var (db', t) := Import(ClubStep(country, leagueId, source), db, clubs);
            && db'.Valid() && t == TallySum(ClubTally, clubs)
            && forall i :: 0 <= i < |clubs| && ClubName(clubs[i]).Some? ==> ClubName(clubs[i]).value in db'.teams.rows
  {
    var step := ClubStep(country, leagueId, source);
    forall d: ImportDb, e: Json | d.Valid() ensures step(d, e).0.Valid() && step(d, e).1 == ClubTally(e) {
      ClubRowSpec(d, e, country, leagueId, source);
    }
    ImportTallies(step, ClubTally, db, clubs);
    ImportValid(step, db, clubs);
    ClubsPresent(db, clubs, country, leagueId, source);
  }

  lemma {:induction false} ClubsPresent(db: ImportDb, clubs: seq<Json>, country: Option<string>, leagueId: int, source: Option<string>)
    requires db.Valid()
    ensures forall i :: 0 <= i < |clubs| && ClubName(clubs[i]).Some? ==>
              ClubName(clubs[i]).value in Import(ClubStep(country, leagueId, source), db, clubs).0.teams.rows
    decreases |clubs|
  {
    var step := ClubStep(country, leagueId, source);
    if clubs != [] {
      var prev := clubs[..|clubs| - 1];
      ClubsPresent(db, prev, country, leagueId, source);
      var d := Import(step, db, prev).0;
      forall d: ImportDb, e: Json | d.Valid() ensures step(d, e).0.Valid() {
        ClubRowSpec(d, e, country, leagueId, source);
      }
      ImportValid(step, db, prev);
      ClubRowSpec(d, clubs[|clubs| - 1], country, leagueId, source);
      forall i | 0 <= i < |prev| ensures clubs[i] == prev[i] { }
    }
  }

  /**
   * On a valid store the league counts one exactly when the document is a
   * dict with a truthy name whose display name can be bound, and the clubs
   * count each club with a name once when `clubs` is a list; matches, odds
   * and stats are untouched. Running the import again leaves the store as it
   * is and returns the same counts: they count rows processed, not added.
   */
  lemma OpenFootballReimport(db: ImportDb, data: Json, repo: string)
    requires db.Valid()
    ensures var (db1, c) := ImportOpenFootball(db, data, repo);
            && Grows(db, db1) && db1.Valid()
            && db1.matches == db.matches && db1.odds == db.odds && db1.stats == db.stats
            && (c.main == 1 <==> data.JDict? && Truthy(Get(data.fields, "name")) &&
                                 DisplayName(Get(data.fields, "name"), Get(data.fields, "season")).Some?)
            && c.main <= 1
            && (c.main == 1 && "clubs" in data.fields && data.fields["clubs"].JList? ==>
                  c.side == TallySum(ClubTally, data.fields["clubs"].items).side)
            && (!(c.main == 1 && "clubs" in data.fields && data.fields["clubs"].JList?) ==> c.side == 0)
            && ImportOpenFootball(db1, data, repo) == (db1, c)
  {
    if data.JDict? && Truthy(Get(data.fields, "name")) {
      var m, country, src := data.fields, OpenFootballCountry(repo), Some("OpenFootball/" + repo);
      var dn := DisplayName(Get(m, "name"), Get(m, "season"));
      var (db1, lid) := GetOrCreateLeague(db, dn, Some(FOOTBALL), country, src, Clean);
      GetOrCreateLeagueSpec(db, dn, Some(FOOTBALL), country, src, Clean);
      if !Resolver.Falsy(lid) && "clubs" in m && m["clubs"].JList? {
        var clubs := m["clubs"].items;
        ClubsReimport(db1, clubs, country, lid.value, src);
        var db2 := Import(ClubStep(country, lid.value, src), db1, clubs).0;
        GrowsTransitive(db, db1, db2);
        GetOrCreateLeagueSettles(db, dn, Some(FOOTBALL), country, src, db2, country, src, Clean);
      } else if !Resolver.Falsy(lid) {
        GetOrCreateLeagueSettles(db, dn, Some(FOOTBALL), country, src, db1, country, src, Clean);
      }
    }
  }

  /** On a valid store the club walk adds teams only, counts each named club, and a second walk changes nothing and counts the same. */
  lemma ClubsReimport(db: ImportDb, clubs: seq<Json>, country: Option<string>, leagueId: int, source: Option<string>)
    requires db.Valid()
    ensures var (db1, t) := Import(ClubStep(country, leagueId, source), db, clubs);
            && Grows(db, db1) && db1.Valid() && db1 == db.(teams := db1.teams)
            && t == TallySum(ClubTally, clubs)
            && Import(ClubStep(country, leagueId, source), db1, clubs) == (db1, t)
  {
    var step := ClubStep(country, leagueId, source);
    ClubAbsorbing(country, leagueId, source);
    ReimportFixpoint(step, db, clubs);
    ClubsCounted(db, clubs, country, leagueId, source);
    var db1 := Import(step, db, clubs).0;
    ClubsCounted(db1, clubs, country, leagueId, source);
    forall d: ImportDb, r: Json ensures step(d, r).0 == d.(teams := step(d, r).0.teams) {
      ClubRowSpec(d, r, country, leagueId, source);
    }
    ImportKeepsMatches(step, db, clubs);
  }

  /** The club walk writes teams only. */
  lemma {:induction false} ImportKeepsMatches(step: (ImportDb, Json) -> (ImportDb, Tally), db: ImportDb, rows: seq<Json>)
    requires forall d: ImportDb, r: Json :: step(d, r).0 == d.(teams := step(d, r).0.teams)
    ensures var d' := Import(step, db, rows).0;
            d'.matches == db.matches && d'.odds == db.odds && d'.stats == db.stats && d'.leagues == db.leagues
    decreases |rows|
  {
    if rows != [] {
      ImportKeepsMatches(step, db, rows[..|rows| - 1]);
    }
  }

  /** `import_openfootball_league_teams` on the connection. */
  method ImportOpenFootballOn(conn: ImportConnection, data: Json, repo: string) returns (leagues: nat, teams: nat)
    modifies conn
    ensures (conn.Snapshot(), Tally(leagues, teams)) == ImportOpenFootball(old(conn.Snapshot()), data, repo)
  {
    ghost var db0 := conn.Snapshot();
    if !data.JDict? {
      return 0, 0;
    }
    var m, country, src := data.fields, OpenFootballCountry(repo), Some("OpenFootball/" + repo);
    if !Truthy(Get(m, "name")) {
      return 0, 0;
    }
    var lid := GetOrCreateLeagueRow(conn, DisplayName(Get(m, "name"), Get(m, "season")), Some(FOOTBALL), country, src, Clean);
    if Resolver.Falsy(lid) {
      return 0, 0;
    }
    leagues, teams := 1, 0;
    if "clubs" !in m || !m["clubs"].JList? {
      return;
    }
    var clubs := m["clubs"].items;
    ghost var db1 := conn.Snapshot();
    for i := 0 to |clubs|
      invariant (conn.Snapshot(), Tally(0, teams)) == Import(ClubStep(country, lid.value, src), db1, clubs[..i])
    {
      ghost var before, t0 := conn.Snapshot(), Tally(0, teams);
      ghost var n := Tally(0, 0);
      var name := ClubName(clubs[i]);
      if name.Some? {
        var id := GetOrCreateTeamRow(conn, name, country, Some(lid.value), src, Clean);
        if !Resolver.Falsy(id) {
          teams, n := teams + 1, Tally(0, 1);
        }
      }
      ClubStepIs(before, clubs[i], country, lid.value, src, conn.Snapshot(), n);
      ImportExtend(ClubStep(country, lid.value, src), db1, clubs, i, before, t0, conn.Snapshot(), n);
      assert Tally(0, teams) == t0.Plus(n);
    }
    assert clubs[..|clubs|] == clubs;
  }

  // ------------------------------------------------ TheSportsDB leagues

  const TSDB_SOURCE: string := "TheSportsDB"

  /** `sport.lower() == "soccer"` files the league under Football; any other sport is kept as written. */
  function TsdbSport(sport: string): (r: string)
    ensures Lower(sport) == "soccer" ==> r == FOOTBALL
    ensures Lower(sport) != "soccer" ==> r == sport
  {
    if Lower(sport) == "soccer" then FOOTBALL else sport
  }

  /** What one entry of a league list does: nothing, raise out of the import, or resolve a league. */
  datatype LeagueEntry = SkipEntry | RaiseEntry | LeagueOf(name: Option<string>, sport: string, country: Option<string>)

  /**
   * A dict with a truthy `strLeague` and `strSport` resolves a league whose
   * country is `strCountryAlternate` or else `strCountry`; a truthy sport
   * that is not a string makes `.lower()` raise, which nothing catches.
   */
  function TsdbLeagueEntry(entry: Json): LeagueEntry
  {
    if !entry.JDict? then SkipEntry
    else
      var m := entry.fields;
      var name, sport := Get(m, "strLeague"), Get(m, "strSport");
      var country := if Truthy(Get(m, "strCountryAlternate")) then Get(m, "strCountryAlternate") else Get(m, "strCountry");
      if !Truthy(name) || !Truthy(sport) then SkipEntry
      else if !sport.JStr? then RaiseEntry
      else LeagueOf(AsText(name), TsdbSport(sport.s), AsText(country))
  }

  function TsdbLeagueRow(db: ImportDb, entry: Json): (ImportDb, Tally)
  {
    match TsdbLeagueEntry(entry)
    case LeagueOf(name, sport, country) =>
      var (db1, id) := GetOrCreateLeague(db, name, Some(sport), country, Some(TSDB_SOURCE), Clean);
      (db1, Tally(if Resolver.Falsy(id) then 0 else 1, 0))
    case _ => (db, Tally(0, 0))
  }

  function TsdbLeagueStep(): (ImportDb, Json) -> (ImportDb, Tally)
  {
    (d, e) => TsdbLeagueRow(d, e)
  }

  /** An entry's own result is its step's result. */
  lemma TsdbLeagueStepIs(db: ImportDb, entry: Json, db': ImportDb, t: Tally)
    requires (db', t) == TsdbLeagueRow(db, entry)
    ensures (db', t) == TsdbLeagueStep()(db, entry)
  {
  }

  /** What an entry counts on a valid store: one when it names a league that can be bound. */
  function TsdbLeagueTally(entry: Json): Tally
  {
    Tally(if TsdbLeagueEntry(entry).LeagueOf? && TsdbLeagueEntry(entry).name.Some? then 1 else 0, 0)
  }

  /** The index of the first entry that raises, or the length of the list. */
  function FirstRaise(entries: seq<Json>): (k: nat)
    ensures k <= |entries|
    ensures k < |entries| ==> TsdbLeagueEntry(entries[k]).RaiseEntry?
    ensures forall i :: 0 <= i < k ==> !TsdbLeagueEntry(entries[i]).RaiseEntry?
  {
    if entries == [] || TsdbLeagueEntry(entries[0]).RaiseEntry? then 0
    else 1 + FirstRaise(entries[1..])
  }

  /**
   * `import_thesportsdb_leagues`: the store afterwards and
   * `leagues_processed`, or None when an entry raises; the entries before
   * it have then been written.
   */
  function ImportTsdbLeagues(db: ImportDb, data: Json): (ImportDb, Option<nat>)
  {
    if !Truthy(data) || !data.JList? then (db, Some(0))
    else
      var k := FirstRaise(data.items);
      var (db1, t) := Import(TsdbLeagueStep(), db, data.items[..k]);
      (db1, if k == |data.items| then Some(t.main) else None)
  }

  lemma TsdbLeagueRowSpec(db: ImportDb, entry: Json)
    ensures var (db', t) := TsdbLeagueRow(db, entry);
            Grows(db, db') && db' == db.(leagues := db'.leagues)
    ensures db.Valid() ==> TsdbLeagueRow(db, entry).0.Valid() && TsdbLeagueRow(db, entry).1 == TsdbLeagueTally(entry)
  {
    match TsdbLeagueEntry(entry)
    case LeagueOf(name, sport, country) =>
      GetOrCreateLeagueGrows(db, name, Some(sport), country, Some(TSDB_SOURCE), Clean);
      if db.Valid() {
        GetOrCreateLeagueSpec(db, name, Some(sport), country, Some(TSDB_SOURCE), Clean);
      }
    case _ =>
  }

  lemma TsdbLeagueAbsorbing()
    ensures Absorbing(TsdbLeagueStep())
  {
    var step := TsdbLeagueStep();
    forall db: ImportDb, e: Json ensures Grows(db, step(db, e).0) && Settled(step, step(db, e).0, e) {
      TsdbLeagueRowSpec(db, e);
      forall d | Grows(step(db, e).0, d) ensures step(d, e).0 == d {
        match TsdbLeagueEntry(e)
        case LeagueOf(name, sport, country) =>
          GetOrCreateLeagueSettles(db, name, Some(sport), country, Some(TSDB_SOURCE), d, country, Some(TSDB_SOURCE), Clean);
        case _ =>
      }
    }
  }

  /**
   * On a valid store a league list that does not raise counts each entry
   * naming a league once, whether new or not; only `leagues` changes, and a
   * second run leaves the store as it is and returns the same count. A list
   * raises exactly when some entry has a truthy sport that is not a string.
   */
  lemma TsdbLeaguesReimport(db: ImportDb, data: Json)
    requires db.Valid()
    ensures var (db1, n) := ImportTsdbLeagues(db, data);
            && Grows(db, db1) && db1.Valid() && db1 == db.(leagues := db1.leagues)
            && (n.None? <==> data.JList? && data.items != [] &&
                             exists i :: 0 <= i < |data.items| && TsdbLeagueEntry(data.items[i]).RaiseEntry?)
            && (n.Some? && data.JList? ==> n.value == TallySum(TsdbLeagueTally, data.items).main)
            && ImportTsdbLeagues(db1, data) == (db1, n)
  {
    if Truthy(data) && data.JList? {
      var step, items := TsdbLeagueStep(), data.items;
      var k := FirstRaise(items);
      var rows := items[..k];
      TsdbLeagueStepCounts();
      TsdbLeagueStepLeaguesOnly();
      TsdbLeagueAbsorbing();
      ReimportFixpoint(step, db, rows);
      ImportTallies(step, TsdbLeagueTally, db, rows);
      ImportValid(step, db, rows);
      var db1 := Import(step, db, rows).0;
      ImportTallies(step, TsdbLeagueTally, db1, rows);
      ImportKeepsOthers(step, db, rows);
      var n := if k == |items| then Some(TallySum(TsdbLeagueTally, rows).main) else None;
      assert ImportTsdbLeagues(db, data) == (db1, n);
      assert Import(step, db1, rows) == (db1, TallySum(TsdbLeagueTally, rows));
      assert ImportTsdbLeagues(db1, data) == (db1, n);
      if k == |items| {
        assert rows == items;
      } else {
        assert TsdbLeagueEntry(items[k]).RaiseEntry?;
      }
    }
  }

  /** On a valid store each league entry keeps the store valid and counts independently of it. */
  lemma TsdbLeagueStepCounts()
    ensures forall d: ImportDb, e: Json :: d.Valid() ==>
              TsdbLeagueStep()(d, e).0.Valid() && TsdbLeagueStep()(d, e).1 == TsdbLeagueTally(e)
  {
    forall d: ImportDb, e: Json | d.Valid()
      ensures TsdbLeagueStep()(d, e).0.Valid() && TsdbLeagueStep()(d, e).1 == TsdbLeagueTally(e)
    {
      TsdbLeagueRowSpec(d, e);
    }
  }

  /** Each league entry writes the leagues table only. */
  lemma TsdbLeagueStepLeaguesOnly()
    ensures forall d: ImportDb, e: Json :: TsdbLeagueStep()(d, e).0 == d.(leagues := TsdbLeagueStep()(d, e).0.leagues)
  {
    forall d: ImportDb, e: Json
      ensures TsdbLeagueStep()(d, e).0 == d.(leagues := TsdbLeagueStep()(d, e).0.leagues)
    {
      TsdbLeagueRowSpec(d, e);
    }
  }

  /** The league walk writes leagues only. */
  lemma {:induction false} ImportKeepsOthers(step: (ImportDb, Json) -> (ImportDb, Tally), db: ImportDb, rows: seq<Json>)
    requires forall d: ImportDb, r: Json :: step(d, r).0 == d.(leagues := step(d, r).0.leagues)
    ensures Import(step, db, rows).0 == db.(leagues := Import(step, db, rows).0.leagues)
    decreases |rows|
  {
    if rows != [] {
      ImportKeepsOthers(step, db, rows[..|rows| - 1]);
    }
  }

  /** `import_thesportsdb_leagues` on the connection: the count, or None where an entry raises. */
  method ImportTsdbLeaguesOn(conn: ImportConnection, data: Json) returns (n: Option<nat>)
    modifies conn
    ensures (conn.Snapshot(), n) == ImportTsdbLeagues(old(conn.Snapshot()), data)
  {
    if !Truthy(data) || !data.JList? {
      return Some(0);
    }
    ghost var db0 := conn.Snapshot();
    var entries := data.items;
    ghost var k := FirstRaise(entries);
    var count := 0;
    var i := 0;
    while i < |entries|
      invariant 0 <= i <= k
      invariant (conn.Snapshot(), Tally(count, 0)) == Import(TsdbLeagueStep(), db0, entries[..i])
    {
      var e := TsdbLeagueEntry(entries[i]);
      if e.RaiseEntry? {
        assert i == k;
        return None;
      }
      assert i < k;
      ghost var before, t0 := conn.Snapshot(), Tally(count, 0);
      ghost var t := Tally(0, 0);
      if e.LeagueOf? {
        var id := GetOrCreateLeagueRow(conn, e.name, Some(e.sport), e.country, Some(TSDB_SOURCE), Clean);
        if !Resolver.Falsy(id) {
          count, t := count + 1, Tally(1, 0);
        }
      }
      TsdbLeagueStepIs(before, entries[i], conn.Snapshot(), t);
      ImportExtend(TsdbLeagueStep(), db0, entries, i, before, t0, conn.Snapshot(), t);
      assert Tally(count, 0) == t0.Plus(t);
      i := i + 1;
    }
    assert i == k == |entries|;
    n := Some(count);
  }
}
