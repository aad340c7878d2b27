/**
 * `import_thesportsdb_events` of `database_importer.py`: the one importer
 * that updates matches in place. Each event resolves its league and teams,
 * then runs `INSERT ... ON CONFLICT (datetime, home_team_id, away_team_id,
 * source) DO UPDATE`, which refreshes status, scores and source match id of
 * a match already there and keeps its league. Importing the same events a
 * second time leaves the store as the first import left it.
 */
module ImporterEvents {
  import opened Wrappers
  import opened Text
  import opened Json
  import opened Dates
  import opened Outcome
  import opened Store
  import opened ImporterStore
  import Resolver
  import ImporterJson

  /**
   * The function's parameters besides the events, and the library calls it
   * makes: `pd.to_datetime` is p with the format inferred, and toUtc is
   * `tz_convert('UTC').tz_localize(None)` on a time that carries an offset.
   */
  datatype TsdbArgs = TsdbArgs(defaultLeague: Json, defaultSport: Json, p: Parser, toUtc: Stamp -> Stamp)

  const FIN_STATUSES: seq<string> := ["MATCH FINISHED", "FT", "AET", "PEN", "FINISHED"]
  const POST_STATUSES: seq<string> := ["POSTPONED", "CANCELLED", "ABANDONED", "SUSPENDED"]
  const LIVE_STATUSES: seq<string> := ["LIVE", "HT", "BREAK"]

  // ------------------------------------------------ reading one event

  /**
   * The status stored for the upper-cased `strStatus` and the scores read:
   * a finished label gives FINISHED, or AWAITING_SCORES when a score is
   * missing; a postponed label gives POSTPONED and drops the scores; a live
   * label gives LIVE; no label with a score gives FINISHED; anything else
   * is SCHEDULED without scores.
   */
  function TsdbStatus(api: string, hs: Option<int>, as_: Option<int>): (r: (string, Option<int>, Option<int>))
    ensures r.0 == FINISHED <==> (api in FIN_STATUSES && hs.Some? && as_.Some?) || (api == "" && (hs.Some? || as_.Some?))
    ensures r.0 == AWAITING_SCORES <==> api in FIN_STATUSES && (hs.None? || as_.None?)
    ensures r.0 == POSTPONED <==> api !in FIN_STATUSES && api in POST_STATUSES
    ensures r.0 == LIVE <==> api !in FIN_STATUSES && api !in POST_STATUSES && api in LIVE_STATUSES
    ensures r.0 in {FINISHED, AWAITING_SCORES, LIVE} ==> r.1 == hs && r.2 == as_
    ensures r.0 !in {FINISHED, AWAITING_SCORES, LIVE} ==> r.1.None? && r.2.None? && r.0 in {POSTPONED, SCHEDULED}
  {
    if api in FIN_STATUSES then (if hs.None? || as_.None? then AWAITING_SCORES else FINISHED, hs, as_)
    else if api in POST_STATUSES then (POSTPONED, None, None)
    else if api in LIVE_STATUSES then (LIVE, hs, as_)
    else if api == "" && (hs.Some? || as_.Some?) then (FINISHED, hs, as_)
    else (SCHEDULED, None, None)
  }

  /** `int(raw)` when `str(raw).strip().isdigit()`, else None. */
  function TsdbScore(raw: Json): (r: Option<int>)
    ensures raw.JNull? ==> r.None?
    ensures raw.JInt? && raw.i >= 0 ==> r == Some(raw.i)
    ensures raw.JInt? && raw.i < 0 ==> r.None?
    ensures r.Some? ==> r.value >= 0
    ensures r.Some? <==> !raw.JNull? && IsDigits(Strip(PyStr(raw)))
    ensures raw.JStr? && IsDigits(Strip(raw.s)) ==> r == Some(ParseDigits(Strip(raw.s)))
  {
    var t := Strip(PyStr(raw));
    if !raw.JNull? && IsDigits(t) then Some(ParseDigits(t)) else None
  }

  /** The crude test of a timestamp for a zone: a 'Z', a '+', or a '-' at index 10 of a text with a ':'. */
  predicate HasOffset(s: string)
  {
    'Z' in Upper(s) || '+' in s || (|s| > 10 && s[10] == '-' && ':' in s)
  }

  /**
   * The text handed to `pd.to_datetime`. A non-blank `strTimestamp`,
   * stripped, is used as it is, with `strTime` (default "00:00:00") appended
   * when it has no zone and is at most ten characters long; failing that, a
   * non-blank `dateEvent` with the time appended; None when neither is there.
   */
  function TsdbKickoffText(m: Object): (r: Option<string>)
    ensures var ts, de := Strip(PyStr(Get(m, "strTimestamp"))), Strip(PyStr(Get(m, "dateEvent")));
            var time := PyStr(GetOr(m, "strTime", JStr("00:00:00")));
            var useTs, useDe := Truthy(Get(m, "strTimestamp")) && ts != "", Truthy(Get(m, "dateEvent")) && de != "";
            && (r.None? <==> !useTs && !useDe)
            && (useTs && (HasOffset(ts) || |ts| > 10) ==> r == Some(ts))
            && (useTs && !HasOffset(ts) && |ts| <= 10 ==> r == Some(ts + " " + time))
            && (!useTs && useDe ==> r == Some(de + " " + time))
  {
    var ts, de := Get(m, "strTimestamp"), Get(m, "dateEvent");
    var time := PyStr(GetOr(m, "strTime", JStr("00:00:00")));
    if Truthy(ts) && Strip(PyStr(ts)) != "" then
      var s := Strip(PyStr(ts));
      if !HasOffset(s) && |s| <= 10 then Some(s + " " + time) else Some(s)
    else if Truthy(de) && Strip(PyStr(de)) != "" then Some(Strip(PyStr(de)) + " " + time)
    else None
  }

  /**
   * An event's league name and sport as bound, and its id; None for a
   * non-dict, a falsy `idEvent` or league name, and a truthy sport that is
   * not a string (`.lower()` raises). A sport spelled "soccer" is Football.
   */
  function TsdbEventHead(ev: Json, args: TsdbArgs): (r: Option<(Option<string>, Option<string>)>)
    ensures r.Some? ==> ev.JDict? && Truthy(Get(ev.fields, "idEvent"))
  {
    if !ev.JDict? then None
    else
      var m := ev.fields;
      var name, sport := GetOr(m, "strLeague", args.defaultLeague), GetOr(m, "strSport", args.defaultSport);
      if !Truthy(Get(m, "idEvent")) || (Truthy(sport) && !sport.JStr?) || !Truthy(name) then None
      else Some((AsText(name), if Truthy(sport) then Some(ImporterJson.TsdbSport(sport.s)) else AsText(sport)))
  }

  /**
   * The key and values of the upsert, once league and teams are known:
   * the kickoff rendered `%Y-%m-%d %H:%M:%S` in UTC, the status and scores
   * of TsdbStatus, and the event id as source match id. None where the date
   * does not parse, `strStatus` is not a string, or the id cannot be bound.
   */
  function TsdbFixture(m: Object, leagueId: int, homeId: int, awayId: int, args: TsdbArgs): (r: Option<(ConflictKey, Fixture)>)
    ensures r.Some? ==> r.value.0.homeId == homeId && r.value.0.awayId == awayId && r.value.0.source == ImporterJson.TSDB_SOURCE
    ensures r.Some? ==> r.value.1.leagueId == leagueId && Some(r.value.1.sourceMatchId) == AsText(Get(m, "idEvent"))
    ensures r.Some? ==> (r.value.1.status == FINISHED ==> r.value.1.homeScore.Some? || r.value.1.awayScore.Some?)
  {
    match TsdbKickoffText(m)
    case None => None
    case Some(text) =>
      match args.p(text, Inferred)
      case None => None
      case Some(d) =>
        var when := if d.aware then args.toUtc(d) else d;
        var raw := GetOr(m, "strStatus", JStr(""));
        if !raw.JStr? then None
        else
          var (status, hs, as_) := TsdbStatus(Upper(raw.s), TsdbScore(Get(m, "intHomeScore")), TsdbScore(Get(m, "intAwayScore")));
          match AsText(Get(m, "idEvent"))
          case None => None
          case Some(smid) =>
            Some((ConflictKey(when.SqlText(), homeId, awayId, ImporterJson.TSDB_SOURCE), Fixture(leagueId, status, hs, as_, smid)))
  }

  /**
   * The league and team resolution of an event, and the upsert it then
   * makes, if it gets that far. The writes made before a skip stay.
   */
  function TsdbEntities(db: ImportDb, ev: Json, args: TsdbArgs): (ImportDb, Option<(ConflictKey, Fixture)>)
  {
    match TsdbEventHead(ev, args)
    case None => (db, None)
    case Some((name, sport)) =>
      var src := Some(ImporterJson.TSDB_SOURCE);
      var (db1, lid) := GetOrCreateLeague(db, name, sport, None, src, Clean);
      if Resolver.Falsy(lid) then (db1, None)
      else
        var hn, an := Get(ev.fields, "strHomeTeam"), Get(ev.fields, "strAwayTeam");
        if !Truthy(hn) || !Truthy(an) then (db1, None)
        else
          var (db2, hid, aid) := ResolveTeams(db1, AsText(hn), None, AsText(an), None, lid, src);
          if Resolver.Falsy(hid) || Resolver.Falsy(aid) then (db2, None)
          else (db2, TsdbFixture(ev.fields, lid.value, hid.value, aid.value, args))
  }

  // ------------------------------------------------ the upsert

  /** DO UPDATE SET status, scores and source match id: the league of the stored row stays. */
  function Refresh(stored: Fixture, f: Fixture): Fixture
  {
    f.(leagueId := stored.leagueId)
  }

  /** `INSERT ... ON CONFLICT ... DO UPDATE`: the row under k refreshed in place, or inserted. */
  function UpsertMatch(t: Table<ConflictKey, Fixture>, k: ConflictKey, f: Fixture): Table<ConflictKey, Fixture>
  {
    if k in t.rows then t.Update(k, Refresh(t.rows[k].1, f)) else t.Insert(k, f)
  }

  /**
   * After the upsert the key is present and holds the new status, scores
   * and source match id; a key already there keeps its id and league and
   * the table its size, a new key takes the next id and the league given.
   * Every other row is untouched and the table stays valid.
   */
  lemma UpsertMatchSpec(t: Table<ConflictKey, Fixture>, k: ConflictKey, f: Fixture)
    ensures var u := UpsertMatch(t, k, f);
            && u.rows.Keys == t.rows.Keys + {k}
            && (forall k' :: k' in t.rows && k' != k ==> u.rows[k'] == t.rows[k'])
            && u.rows[k].1 == f.(leagueId := u.rows[k].1.leagueId)
            && (k in t.rows ==> u.rows[k].0 == t.rows[k].0 && u.rows[k].1.leagueId == t.rows[k].1.leagueId &&
                                u.next == t.next && u.Size() == t.Size())
            && (k !in t.rows ==> u.rows[k] == (t.next, f) && u.next == t.next + 1 && u.Size() == t.Size() + 1)
    ensures t.Valid() ==> UpsertMatch(t, k, f).Valid()
  {
    if k in t.rows {
      assert UpsertMatch(t, k, f).rows.Keys == t.rows.Keys;
      if t.Valid() {
        UpdateValid(t, k, Refresh(t.rows[k].1, f));
      }
    } else {
      assert UpsertMatch(t, k, f).rows.Keys == t.rows.Keys + {k};
      if t.Valid() {
        InsertValid(t, k, f);
      }
    }
  }

  function ApplyOp(t: Table<ConflictKey, Fixture>, op: Option<(ConflictKey, Fixture)>): Table<ConflictKey, Fixture>
  {
    if op.None? then t else UpsertMatch(t, op.value.0, op.value.1)
  }

  /** The upserts of a run of events, in order. */
  function UpsertAll(t: Table<ConflictKey, Fixture>, ops: seq<Option<(ConflictKey, Fixture)>>): Table<ConflictKey, Fixture>
    decreases |ops|
  {
    if ops == [] then t else ApplyOp(UpsertAll(t, ops[..|ops| - 1]), ops[|ops| - 1])
  }

  /** Some upsert of ops is keyed k. */
  predicate KeyedIn(ops: seq<Option<(ConflictKey, Fixture)>>, k: ConflictKey)
  {
    exists j :: 0 <= j < |ops| && ops[j].Some? && ops[j].value.0 == k
  }

  /** u keeps every row of t under its id and league, and hands out no id t could have used. */
  ghost predicate KeepsRows(t: Table<ConflictKey, Fixture>, u: Table<ConflictKey, Fixture>)
  {
    && t.next <= u.next
    && forall k :: k in t.rows ==> k in u.rows && u.rows[k].0 == t.rows[k].0 && u.rows[k].1.leagueId == t.rows[k].1.leagueId
  }

  /** One upsert keeps every row of the table it is applied to. */
  lemma ApplyOpKeeps(u: Table<ConflictKey, Fixture>, op: Option<(ConflictKey, Fixture)>)
    ensures KeepsRows(u, ApplyOp(u, op))
    ensures op.Some? ==> op.value.0 in ApplyOp(u, op).rows
    ensures ApplyOp(u, op).rows.Keys <= u.rows.Keys + (if op.Some? then {op.value.0} else {})
    ensures forall k :: k in u.rows && (op.None? || op.value.0 != k) ==> ApplyOp(u, op).rows[k] == u.rows[k]
    ensures u.Valid() ==> ApplyOp(u, op).Valid()
  {
    if op.Some? {
      UpsertMatchSpec(u, op.value.0, op.value.1);
    }
  }

  /** The upserts keep every row's id and league, and the table valid. */
  lemma {:induction false} UpsertAllKeeps(t: Table<ConflictKey, Fixture>, ops: seq<Option<(ConflictKey, Fixture)>>)
    ensures KeepsRows(t, UpsertAll(t, ops))
    ensures t.Valid() ==> UpsertAll(t, ops).Valid()
    decreases |ops|
  {
    if ops != [] {
      var prev, op := ops[..|ops| - 1], ops[|ops| - 1];
      UpsertAllKeeps(t, prev);
      ApplyOpKeeps(UpsertAll(t, prev), op);
    }
  }

  /** Every key an upsert names is present afterwards, and no other key is added. */
  lemma {:induction false} UpsertAllNamed(t: Table<ConflictKey, Fixture>, ops: seq<Option<(ConflictKey, Fixture)>>)
    ensures var u := UpsertAll(t, ops);
            && (forall j :: 0 <= j < |ops| && ops[j].Some? ==> ops[j].value.0 in u.rows)
            && u.rows.Keys <= t.rows.Keys + set j | 0 <= j < |ops| && ops[j].Some? :: ops[j].value.0
    decreases |ops|
  {
    if ops != [] {
      var prev, op := ops[..|ops| - 1], ops[|ops| - 1];
      UpsertAllNamed(t, prev);
      var u := UpsertAll(t, prev);
      ApplyOpKeeps(u, op);
      forall j | 0 <= j < |prev| ensures ops[j] == prev[j] { }
      var named := set j | 0 <= j < |ops| && ops[j].Some? :: ops[j].value.0;
      assert (set j | 0 <= j < |prev| && prev[j].Some? :: prev[j].value.0) <= named;
      assert op.Some? ==> op.value.0 in named;
    }
  }

  /** A row no upsert names is untouched. */
  lemma {:induction false} UpsertAllUntouched(t: Table<ConflictKey, Fixture>, ops: seq<Option<(ConflictKey, Fixture)>>)
    ensures forall k :: k in t.rows && !KeyedIn(ops, k) ==> k in UpsertAll(t, ops).rows && UpsertAll(t, ops).rows[k] == t.rows[k]
    decreases |ops|
  {
    if ops != [] {
      var prev, op := ops[..|ops| - 1], ops[|ops| - 1];
      UpsertAllUntouched(t, prev);
      UpsertAllKeeps(t, prev);
      var u := UpsertAll(t, prev);
      ApplyOpKeeps(u, op);
      forall j | 0 <= j < |prev| ensures ops[j] == prev[j] { }
      forall k | k in t.rows && !KeyedIn(ops, k) ensures ApplyOp(u, op).rows[k] == t.rows[k] {
        assert !KeyedIn(prev, k);
        assert op.Some? ==> op.value.0 != k;
      }
    }
  }

  /**
   * Upserts keep every row's id and league, keep the table valid, and leave
   * every key they name present; a row no upsert names is untouched.
   */
  lemma UpsertAllSpec(t: Table<ConflictKey, Fixture>, ops: seq<Option<(ConflictKey, Fixture)>>)
    ensures var u := UpsertAll(t, ops);
            && KeepsRows(t, u)
            && (forall j :: 0 <= j < |ops| && ops[j].Some? ==> ops[j].value.0 in u.rows)
            && (forall k :: k in t.rows && !KeyedIn(ops, k) ==> u.rows[k] == t.rows[k])
            && u.rows.Keys <= t.rows.Keys + set j | 0 <= j < |ops| && ops[j].Some? :: ops[j].value.0
    ensures t.Valid() ==> UpsertAll(t, ops).Valid()
  {
    UpsertAllKeeps(t, ops);
    UpsertAllNamed(t, ops);
    UpsertAllUntouched(t, ops);
  }

  /**
   * The row under the key of the last upsert naming it holds that upsert's
   * status, scores and source match id.
   */
  lemma {:induction false} UpsertAllReflects(t: Table<ConflictKey, Fixture>, ops: seq<Option<(ConflictKey, Fixture)>>, i: nat)
    requires i < |ops| && ops[i].Some?
    requires forall j :: i < j < |ops| && ops[j].Some? ==> ops[j].value.0 != ops[i].value.0
    ensures var (k, f) := ops[i].value;
            k in UpsertAll(t, ops).rows && UpsertAll(t, ops).rows[k].1 == f.(leagueId := UpsertAll(t, ops).rows[k].1.leagueId)
    decreases |ops|
  {
    var prev := ops[..|ops| - 1];
    var (k, f) := ops[i].value;
    if i == |ops| - 1 {
      UpsertMatchSpec(UpsertAll(t, prev), k, f);
    } else {
      assert prev[i] == ops[i];
      UpsertAllReflects(t, prev, i);
      var op := ops[|ops| - 1];
      if op.Some? {
        UpsertMatchSpec(UpsertAll(t, prev), op.value.0, op.value.1);
      }
    }
  }

  /**
   * Upserting ops again onto t1, the table the first pass left, after
   * their first i entries: keys, ids, leagues and next id are t1's, and a
   * row no later upsert names is already t1's row.
   */
  ghost predicate SecondPassAt(t1: Table<ConflictKey, Fixture>, u: Table<ConflictKey, Fixture>, rest: seq<Option<(ConflictKey, Fixture)>>)
  {
    && u.next == t1.next && u.rows.Keys == t1.rows.Keys
    && forall k :: k in t1.rows ==>
         && u.rows[k].0 == t1.rows[k].0 && u.rows[k].1.leagueId == t1.rows[k].1.leagueId
         && (!KeyedIn(rest, k) ==> u.rows[k] == t1.rows[k])
  }

  lemma {:induction false} SecondPass(t: Table<ConflictKey, Fixture>, ops: seq<Option<(ConflictKey, Fixture)>>, i: nat)
    requires i <= |ops|
    ensures SecondPassAt(UpsertAll(t, ops), UpsertAll(UpsertAll(t, ops), ops[..i]), ops[i..])
    decreases i
  {
    var t1 := UpsertAll(t, ops);
    if i == 0 {
      assert ops[..0] == [];
      assert ops[0..] == ops;
    } else {
      SecondPass(t, ops, i - 1);
      assert ops[..i][..i - 1] == ops[..i - 1];
      SecondPassStep(t, ops, i, UpsertAll(t1, ops[..i - 1]));
    }
  }

  /** One more upsert of the second pass keeps SecondPassAt. */
  lemma SecondPassStep(t: Table<ConflictKey, Fixture>, ops: seq<Option<(ConflictKey, Fixture)>>, i: nat, u: Table<ConflictKey, Fixture>)
    requires 1 <= i <= |ops|
    requires SecondPassAt(UpsertAll(t, ops), u, ops[i - 1..])
    ensures SecondPassAt(UpsertAll(t, ops), ApplyOp(u, ops[i - 1]), ops[i..])
  {
    var t1 := UpsertAll(t, ops);
    var op := ops[i - 1];
    forall k | !KeyedIn(ops[i..], k) && !(op.Some? && op.value.0 == k) ensures !KeyedIn(ops[i - 1..], k) {
      if KeyedIn(ops[i - 1..], k) {
        KeyedInTail(ops, i, k);
      }
    }
    if op.Some? {
      var (k0, f) := op.value;
      UpsertAllSpec(t, ops);
      assert k0 in t1.rows;
      if !KeyedIn(ops[i..], k0) {
        forall j | i - 1 < j < |ops| && ops[j].Some? ensures ops[j].value.0 != k0 {
          assert ops[i..][j - i] == ops[j];
        }
        UpsertAllReflects(t, ops, i - 1);
      }
      SecondPassUpsert(t1, u, ops[i - 1..], ops[i..], k0, f);
    }
  }

  /** The step of SecondPassStep for an upsert keyed k0 carrying f, over any two tails. */
  lemma SecondPassUpsert(t1: Table<ConflictKey, Fixture>, u: Table<ConflictKey, Fixture>,
                         before: seq<Option<(ConflictKey, Fixture)>>, after: seq<Option<(ConflictKey, Fixture)>>,
                         k0: ConflictKey, f: Fixture)
    requires SecondPassAt(t1, u, before)
    requires k0 in t1.rows
    requires !KeyedIn(after, k0) ==> t1.rows[k0].1 == f.(leagueId := t1.rows[k0].1.leagueId)
    requires forall k :: !KeyedIn(after, k) && k != k0 ==> !KeyedIn(before, k)
    ensures SecondPassAt(t1, UpsertMatch(u, k0, f), after)
  {
    var v := UpsertMatch(u, k0, f);
    UpsertMatchSpec(u, k0, f);
    assert v.next == t1.next && v.rows.Keys == t1.rows.Keys;
    forall k | k in t1.rows
      ensures v.rows[k].0 == t1.rows[k].0 && v.rows[k].1.leagueId == t1.rows[k].1.leagueId
      ensures !KeyedIn(after, k) ==> v.rows[k] == t1.rows[k]
    {
      if k == k0 {
        if !KeyedIn(after, k) {
          assert v.rows[k].1 == t1.rows[k].1;
        }
      } else {
        assert v.rows[k] == u.rows[k];
      }
    }
  }

  /** An upsert naming k in ops[i - 1..] is the first of them or one in ops[i..]. */
  lemma KeyedInTail(ops: seq<Option<(ConflictKey, Fixture)>>, i: nat, k: ConflictKey)
    requires 1 <= i <= |ops|
    requires KeyedIn(ops[i - 1..], k)
    ensures KeyedIn(ops[i..], k) || (ops[i - 1].Some? && ops[i - 1].value.0 == k)
  {
    var j :| 0 <= j < |ops[i - 1..]| && ops[i - 1..][j].Some? && ops[i - 1..][j].value.0 == k;
    if j > 0 {
      assert ops[i..][j - 1] == ops[i - 1..][j];
    }
  }

  /** Running the same upserts twice leaves the table as running them once. */
  lemma UpsertFixpoint(t: Table<ConflictKey, Fixture>, ops: seq<Option<(ConflictKey, Fixture)>>)
    ensures UpsertAll(UpsertAll(t, ops), ops) == UpsertAll(t, ops)
  {
    SecondPass(t, ops, |ops|);
    assert ops[..|ops|] == ops;
    var t1, u := UpsertAll(t, ops), UpsertAll(UpsertAll(t, ops), ops);
    assert ops[|ops|..] == [];
    assert u.rows == t1.rows;
  }

  // ------------------------------------------------ the import

  /** One event: its writes to leagues and teams, then the upsert, counted in `updated`. */
  function TsdbEvent(db: ImportDb, ev: Json, args: TsdbArgs): (ImportDb, Tally)
  {
    var (d, op) := TsdbEntities(db, ev, args);
    (d.(matches := ApplyOp(d.matches, op)), Tally(0, if op.Some? then 1 else 0))
  }

  function TsdbStep(args: TsdbArgs): (ImportDb, Json) -> (ImportDb, Tally)
  {
    (d, e) => TsdbEvent(d, e, args)
  }

  /** An event's own result is its step's result. */
  lemma TsdbStepIs(db: ImportDb, ev: Json, args: TsdbArgs, db': ImportDb, t: Tally)
    requires (db', t) == TsdbEvent(db, ev, args)
    ensures (db', t) == TsdbStep(args)(db, ev)
  {
  }

  /** `import_thesportsdb_events`: the store afterwards and `(added, updated)`. */
  function ImportTsdbEvents(db: ImportDb, data: Json, args: TsdbArgs): (ImportDb, Tally)
  {
    if !Truthy(data) || !data.JList? then (db, Tally(0, 0)) else Import(TsdbStep(args), db, data.items)
  }

  /** b keeps a's leagues and teams. */
  ghost predicate EntitiesGrow(a: ImportDb, b: ImportDb)
  {
    Extends(a.leagues, b.leagues) && Extends(a.teams, b.teams)
  }

  /** Resolving an event's league and teams adds to those tables only and keeps the store valid. */
  lemma TsdbEntitiesGrow(db: ImportDb, ev: Json, args: TsdbArgs)
    ensures var d := TsdbEntities(db, ev, args).0;
            EntitiesGrow(db, d) && d == db.(leagues := d.leagues, teams := d.teams)
    ensures db.Valid() ==> TsdbEntities(db, ev, args).0.Valid()
  {
    match TsdbEventHead(ev, args)
    case None =>
    case Some((name, sport)) =>
      var src := Some(ImporterJson.TSDB_SOURCE);
      var (db1, lid) := GetOrCreateLeague(db, name, sport, None, src, Clean);
      GetOrCreateLeagueGrows(db, name, sport, None, src, Clean);
      if db.Valid() {
        GetOrCreateLeagueSpec(db, name, sport, None, src, Clean);
      }
      var hn, an := Get(ev.fields, "strHomeTeam"), Get(ev.fields, "strAwayTeam");
      if !Resolver.Falsy(lid) && Truthy(hn) && Truthy(an) {
        ResolveTeamsGrows(db1, AsText(hn), None, AsText(an), None, lid, src);
        if db.Valid() {
          ResolveTeamsValid(db1, AsText(hn), None, AsText(an), None, lid, src);
        }
        ImporterStore.GrowsTransitive(db, db1, ResolveTeams(db1, AsText(hn), None, AsText(an), None, lid, src).0);
      }
  }

  /**
   * Once an event's league and teams are resolved, resolving them again on
   * any store that kept those rows writes nothing and reaches the same
   * upsert: its ids are the ones found the first time.
   */
  lemma TsdbEntitiesSettles(db: ImportDb, ev: Json, args: TsdbArgs, d: ImportDb)
    requires EntitiesGrow(TsdbEntities(db, ev, args).0, d)
    ensures TsdbEntities(d, ev, args) == (d, TsdbEntities(db, ev, args).1)
  {
    match TsdbEventHead(ev, args)
    case None =>
    case Some((name, sport)) =>
      var src := Some(ImporterJson.TSDB_SOURCE);
      var (db1, lid) := GetOrCreateLeague(db, name, sport, None, src, Clean);
      var hn, an := Get(ev.fields, "strHomeTeam"), Get(ev.fields, "strAwayTeam");
      if !Resolver.Falsy(lid) && Truthy(hn) && Truthy(an) {
        var db2 := ResolveTeams(db1, AsText(hn), None, AsText(an), None, lid, src).0;
        ResolveTeamsGrows(db1, AsText(hn), None, AsText(an), None, lid, src);
        assert Extends(db1.leagues, d.leagues);
        ResolveTeamsSettles(db1, AsText(hn), None, AsText(an), None, lid, src, d);
      }
      GetOrCreateLeagueSettles(db, name, sport, None, src, d, None, src, Clean);
  }

  /** Every event's league and teams are settled in db: resolving them on a store that kept db's rows changes nothing. */
  ghost predicate EventSettled(db: ImportDb, ev: Json, op: Option<(ConflictKey, Fixture)>, args: TsdbArgs)
  {
    forall d :: EntitiesGrow(db, d) ==> TsdbEntities(d, ev, args) == (d, op)
  }

  /** The upserts a run of events makes, each computed on the store its predecessors left. */
  function Ops(db: ImportDb, evs: seq<Json>, args: TsdbArgs): (r: seq<Option<(ConflictKey, Fixture)>>)
    ensures |r| == |evs|
    decreases |evs|
  {
    if evs == [] then []
    else
      var prev := evs[..|evs| - 1];
      Ops(db, prev, args) + [TsdbEntities(Import(TsdbStep(args), db, prev).0, evs[|evs| - 1], args).1]
  }

  /** How many upserts ops holds: `updated`. */
  function SomeCount(ops: seq<Option<(ConflictKey, Fixture)>>): nat
    decreases |ops|
  {
    if ops == [] then 0 else SomeCount(ops[..|ops| - 1]) + (if ops[|ops| - 1].Some? then 1 else 0)
  }

  /**
   * The first import: leagues and teams only grow, matches are the upserts
   * of Ops applied in order, every event ends settled, and the counts are
   * 0 added and one update per upsert.
   */
  lemma {:induction false} FirstRun(db: ImportDb, evs: seq<Json>, args: TsdbArgs)
    ensures var (f, t) := Import(TsdbStep(args), db, evs);
            var ops := Ops(db, evs, args);
            && EntitiesGrow(db, f) && f == db.(leagues := f.leagues, teams := f.teams, matches := UpsertAll(db.matches, ops))
            && t == Tally(0, SomeCount(ops))
            && forall i :: 0 <= i < |evs| ==> EventSettled(f, evs[i], ops[i], args)
    decreases |evs|
  {
    if evs != [] {
      var prev, last := evs[..|evs| - 1], evs[|evs| - 1];
      FirstRun(db, prev, args);
      var d := Import(TsdbStep(args), db, prev).0;
      var (d2, op) := TsdbEntities(d, last, args);
      TsdbEntitiesGrow(d, last, args);
      var f := Import(TsdbStep(args), db, evs).0;
      assert f == d2.(matches := ApplyOp(d2.matches, op));
      var ops, pops := Ops(db, evs, args), Ops(db, prev, args);
      assert ops == pops + [op];
      assert ops[..|ops| - 1] == pops;
      forall i | 0 <= i < |evs| ensures EventSettled(f, evs[i], ops[i], args) {
        forall x | EntitiesGrow(f, x) ensures TsdbEntities(x, evs[i], args) == (x, ops[i]) {
          if i == |evs| - 1 {
            TsdbEntitiesSettles(d, last, args, x);
          } else {
            assert evs[i] == prev[i] && ops[i] == pops[i];
            assert EntitiesGrow(d, x);
          }
        }
      }
    }
  }

  lemma SettledPrefix(f: ImportDb, evs: seq<Json>, ops: seq<Option<(ConflictKey, Fixture)>>, args: TsdbArgs)
    requires |ops| == |evs| > 0
    requires forall i :: 0 <= i < |evs| ==> EventSettled(f, evs[i], ops[i], args)
    ensures var prev, pops := evs[..|evs| - 1], ops[..|ops| - 1];
            forall i :: 0 <= i < |prev| ==> EventSettled(f, prev[i], pops[i], args)
  {
    var prev, pops := evs[..|evs| - 1], ops[..|ops| - 1];
    forall i | 0 <= i < |prev| ensures EventSettled(f, prev[i], pops[i], args) {
      assert prev[i] == evs[i] && pops[i] == ops[i];
    }
  }

  /** A settled event, on a store with the same leagues and teams, only applies its upsert. */
  lemma SettledEvent(f: ImportDb, g: ImportDb, ev: Json, op: Option<(ConflictKey, Fixture)>, args: TsdbArgs)
    requires EventSettled(f, ev, op, args)
    requires g.leagues == f.leagues && g.teams == f.teams
    ensures TsdbStep(args)(g, ev) == (g.(matches := ApplyOp(g.matches, op)), Tally(0, if op.Some? then 1 else 0))
  {
    assert EntitiesGrow(f, g);
  }

  /** A second import over a store where every event is settled applies the same upserts and counts the same. */
  lemma {:induction false} SecondRun(f: ImportDb, evs: seq<Json>, ops: seq<Option<(ConflictKey, Fixture)>>, args: TsdbArgs)
    requires |ops| == |evs|
    requires forall i :: 0 <= i < |evs| ==> EventSettled(f, evs[i], ops[i], args)
    ensures Import(TsdbStep(args), f, evs) == (f.(matches := UpsertAll(f.matches, ops)), Tally(0, SomeCount(ops)))
    decreases |evs|
  {
    if evs != [] {
      var prev, pops := evs[..|evs| - 1], ops[..|ops| - 1];
      SettledPrefix(f, evs, ops, args);
      SecondRun(f, prev, pops, args);
      var g := f.(matches := UpsertAll(f.matches, pops));
      var last, op := evs[|evs| - 1], ops[|ops| - 1];
      SettledEvent(f, g, last, op, args);
      var step := TsdbStep(args);
      assert Import(step, f, evs) == (step(g, last).0, Tally(0, SomeCount(pops)).Plus(step(g, last).1));
      assert UpsertAll(f.matches, ops) == ApplyOp(UpsertAll(f.matches, pops), op);
      assert step(g, last).0 == f.(matches := UpsertAll(f.matches, ops));
      assert SomeCount(ops) == SomeCount(pops) + (if op.Some? then 1 else 0);
      assert Tally(0, SomeCount(pops)).Plus(step(g, last).1) == Tally(0, SomeCount(ops));
    }
  }

  /**
   * An event import adds nothing to `added`, adds leagues and teams only,
   * keeps every match's id and league, touches no odds or stats, keeps the
   * store valid, and importing the same events again leaves the store as
   * the first import left it and returns the same counts.
   */
  lemma TsdbReimport(db: ImportDb, data: Json, args: TsdbArgs)
    ensures var (db1, t) := ImportTsdbEvents(db, data, args);
            && t.main == 0
            && EntitiesGrow(db, db1) && KeepsRows(db.matches, db1.matches)
            && db1.odds == db.odds && db1.stats == db.stats
            && (db.Valid() ==> db1.Valid())
            && ImportTsdbEvents(db1, data, args) == (db1, t)
  {
    if Truthy(data) && data.JList? {
      var evs := data.items;
      FirstRun(db, evs, args);
      var (f, t) := Import(TsdbStep(args), db, evs);
      var ops := Ops(db, evs, args);
      SecondRun(f, evs, ops, args);
      UpsertFixpoint(db.matches, ops);
      UpsertAllSpec(db.matches, ops);
      if db.Valid() {
        forall d: ImportDb, e: Json | d.Valid() ensures TsdbStep(args)(d, e).0.Valid() {
          TsdbEventValid(d, e, args);
        }
        ImportValid(TsdbStep(args), db, evs);
      }
    }
  }

  lemma TsdbEventValid(db: ImportDb, ev: Json, args: TsdbArgs)
    requires db.Valid()
    ensures TsdbEvent(db, ev, args).0.Valid()
  {
    TsdbEntitiesGrow(db, ev, args);
    var (d, op) := TsdbEntities(db, ev, args);
    if op.Some? {
      UpsertMatchSpec(d.matches, op.value.0, op.value.1);
    }
  }

  /**
   * On a valid store, an event that reaches its upsert leaves the match
   * under its key holding the event's status, scores and id; a match
   * already there keeps its id and league, a new one takes the event's
   * league; `updated` goes up by one, `added` never.
   */
  lemma TsdbEventUpserts(db: ImportDb, ev: Json, args: TsdbArgs)
    requires db.Valid()
    requires TsdbEntities(db, ev, args).1.Some?
    ensures var (d, op) := TsdbEntities(db, ev, args);
            var (k, f) := op.value;
            var (db', t) := TsdbEvent(db, ev, args);
            && db'.Valid() && t == Tally(0, 1)
            && k in db'.matches.rows && db'.matches.rows[k].1 == f.(leagueId := db'.matches.rows[k].1.leagueId)
            && (k in db.matches.rows ==>
                  db'.matches.rows[k].0 == db.matches.rows[k].0 && db'.matches.rows[k].1.leagueId == db.matches.rows[k].1.leagueId)
            && (k !in db.matches.rows ==> db'.matches.rows[k].1 == f && db'.matches.Size() == db.matches.Size() + 1)
  {
    TsdbEntitiesGrow(db, ev, args);
    var (d, op) := TsdbEntities(db, ev, args);
    UpsertMatchSpec(d.matches, op.value.0, op.value.1);
  }

  // ------------------------------------------------ on the connection

  /** The upsert on the connection. */
  method UpsertMatchRow(conn: ImportConnection, k: ConflictKey, f: Fixture)
    modifies conn
    ensures conn.matches == UpsertMatch(old(conn.matches), k, f)
    ensures conn.leagues == old(conn.leagues) && conn.teams == old(conn.teams)
    ensures conn.odds == old(conn.odds) && conn.stats == old(conn.stats)
  {
    if k in conn.matches.rows {
      conn.matches := conn.matches.Update(k, Refresh(conn.matches.rows[k].1, f));
    } else {
      conn.matches := conn.matches.Insert(k, f);
    }
  }

  /** One event on the connection. */
  method TsdbEventOn(conn: ImportConnection, ev: Json, args: TsdbArgs) returns (t: Tally)
    modifies conn
    ensures (conn.Snapshot(), t) == TsdbEvent(old(conn.Snapshot()), ev, args)
  {
    var head := TsdbEventHead(ev, args);
    if head.None? {
      return Tally(0, 0);
    }
    var (name, sport) := head.value;
    var src := Some(ImporterJson.TSDB_SOURCE);
    var lid := GetOrCreateLeagueRow(conn, name, sport, None, src, Clean);
    if Resolver.Falsy(lid) {
      return Tally(0, 0);
    }
    var hn, an := Get(ev.fields, "strHomeTeam"), Get(ev.fields, "strAwayTeam");
    if !Truthy(hn) || !Truthy(an) {
      return Tally(0, 0);
    }
    var hid, aid := ResolveTeamsRow(conn, AsText(hn), None, AsText(an), None, lid, src);
    if Resolver.Falsy(hid) || Resolver.Falsy(aid) {
      return Tally(0, 0);
    }
    var op := TsdbFixture(ev.fields, lid.value, hid.value, aid.value, args);
    if op.None? {
      return Tally(0, 0);
    }
    UpsertMatchRow(conn, op.value.0, op.value.1);
    t := Tally(0, 1);
  }

  /** `import_thesportsdb_events` on the connection: `(added, updated)`. */
  method ImportTsdbEventsOn(conn: ImportConnection, data: Json, args: TsdbArgs) returns (added: nat, updated: nat)
    modifies conn
    ensures (conn.Snapshot(), Tally(added, updated)) == ImportTsdbEvents(old(conn.Snapshot()), data, args)
  {
    if !Truthy(data) || !data.JList? {
      return 0, 0;
    }
    ghost var db0 := conn.Snapshot();
    var evs := data.items;
    added, updated := 0, 0;
    for i := 0 to |evs|
      invariant (conn.Snapshot(), Tally(added, updated)) == Import(TsdbStep(args), db0, evs[..i])
    {
      ghost var before, t0 := conn.Snapshot(), Tally(added, updated);
      var n := TsdbEventOn(conn, evs[i], args);
      TsdbStepIs(before, evs[i], args, conn.Snapshot(), n);
      ImportExtend(TsdbStep(args), db0, evs, i, before, t0, conn.Snapshot(), n);
      added, updated := added + n.main, updated + n.side;
      assert Tally(added, updated) == t0.Plus(n);
    }
    assert evs[..|evs|] == evs;
  }
}
