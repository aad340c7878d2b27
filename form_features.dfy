/**
 * Team form over the last N fixtures before a cutoff date (wins, draws,
 * losses and games played), overall or for one venue, and the 24 form
 * columns added to every upcoming fixture.
 *
 * Dates are integer timestamps in seconds; a NaT date is `None`.  Scores
 * are the values `pd.to_numeric(..., errors='coerce')` yields: `None` when
 * missing or not numeric.
 */
module FormFeatures {
  import opened Wrappers

  const DAY: int := 86400

  /** One row of the historical match frame. */
  datatype HistRow = HistRow(
    homeTeamId: Option<int>,
    awayTeamId: Option<int>,
    utcDate: Option<int>,
    homeScore: Option<int>,
    awayScore: Option<int>)

  /** The historical frame: whether it has a `utcDate` column, and its rows. */
  datatype History = History(hasUtcDate: bool, rows: seq<HistRow>)

  /** What `pd.to_datetime(match_date_str)` makes of the cutoff argument. */
  datatype CutoffArg = NoCutoff | Unparseable | Cutoff(t: int)

  /** The dictionary returned by the form calculation, under `prefix`. */
  datatype Form = Form(prefix: string, wins: int, draws: int, losses: int, gamesPlayed: int)
  {
    function Keys(): seq<string>
    {
      [prefix + "_W", prefix + "_D", prefix + "_L", prefix + "_games_played"]
    }

    function AsDict(): map<string, int>
    {
      map[prefix + "_W" := wins, prefix + "_D" := draws, prefix + "_L" := losses,
          prefix + "_games_played" := gamesPlayed]
    }
  }

  /** Key prefix chosen from the venue argument (None, 'home', 'away' or anything else). */
  function KeyPrefix(venue: Option<string>): string
  {
    if venue.None? then "form_overall"
    else if venue.value == "home" || venue.value == "away" then "form_spec_venue"
    else "form_unknown_venue_type"
  }

  function Zero(prefix: string): Form
  {
    Form(prefix, 0, 0, 0, 0)
  }

  predicate IsZero(f: Form)
  {
    f.wins == 0 && f.draws == 0 && f.losses == 0 && f.gamesPlayed == 0
  }

  // ---------------------------------------------------------------------
  // Eligibility filter

  predicate Involves(r: HistRow, team: int)
  {
    r.homeTeamId == Some(team) || r.awayTeamId == Some(team)
  }

  /** The venue filter: 'home' and 'away' require that side; anything else is overall. */
  predicate OnVenueSide(r: HistRow, team: int, venue: Option<string>)
  {
    if venue == Some("home") then r.homeTeamId == Some(team)
    else if venue == Some("away") then r.awayTeamId == Some(team)
    else true
  }

  predicate Eligible(r: HistRow, team: int, cutoff: int, venue: Option<string>)
  {
    Involves(r, team) && r.utcDate.Some? && r.utcDate.value < cutoff && OnVenueSide(r, team, venue)
  }

  /** The boolean-mask selection over rows[i..], keeping frame order. */
  function FilterFrom(rows: seq<HistRow>, i: nat, team: int, cutoff: int, venue: Option<string>): seq<HistRow>
    requires i <= |rows|
    decreases |rows| - i
  {
    if i == |rows| then []
    else if Eligible(rows[i], team, cutoff, venue) then [rows[i]] + FilterFrom(rows, i + 1, team, cutoff, venue)
    else FilterFrom(rows, i + 1, team, cutoff, venue)
  }

  function Filter(rows: seq<HistRow>, team: int, cutoff: int, venue: Option<string>): seq<HistRow>
  {
    FilterFrom(rows, 0, team, cutoff, venue)
  }

  lemma {:induction false} FilterFromExact(rows: seq<HistRow>, i: nat, team: int, cutoff: int, venue: Option<string>)
    requires i <= |rows|
    ensures forall r :: r in FilterFrom(rows, i, team, cutoff, venue) <==> r in rows[i..] && Eligible(r, team, cutoff, venue)
    ensures |FilterFrom(rows, i, team, cutoff, venue)| <= |rows| - i
    decreases |rows| - i
  {
    if i < |rows| {
      FilterFromExact(rows, i + 1, team, cutoff, venue);
      assert rows[i..] == [rows[i]] + rows[i + 1..];
    }
  }

  /** The selection keeps exactly the eligible rows. */
  lemma FilterExact(rows: seq<HistRow>, team: int, cutoff: int, venue: Option<string>)
    ensures forall r :: r in Filter(rows, team, cutoff, venue) <==> r in rows && Eligible(r, team, cutoff, venue)
    ensures |Filter(rows, team, cutoff, venue)| <= |rows|
  {
    FilterFromExact(rows, 0, team, cutoff, venue);
    assert rows[0..] == rows;
  }

  // ---------------------------------------------------------------------
  // Sorting by date, most recent first

  function Date(r: HistRow): int
  {
    if r.utcDate.Some? then r.utcDate.value else 0
  }

  predicate SortedDesc(s: seq<HistRow>)
  {
    forall i, j :: 0 <= i < j < |s| ==> Date(s[j]) <= Date(s[i])
  }

  function Insert(x: HistRow, s: seq<HistRow>): seq<HistRow>
  {
    if s == [] then [x]
    else if Date(s[0]) <= Date(x) then [x] + s
    else [s[0]] + Insert(x, s[1..])
  }

  /**
   * One ordering `sort_values(ascending=False)` may produce: equal dates
   * keep their history order. pandas does not promise that order, so the
   * lemmas below are stated where ties cannot matter: the counts depend only
   * on which rows the window holds (TallyPermutation), and the window is
   * fixed when no tie straddles its edge (WindowByThreshold). A tie that
   * does straddle it can change the counts (FormExamples.TieAtWindowEdge).
   */
  function SortByDateDesc(s: seq<HistRow>): seq<HistRow>
  {
    if s == [] then [] else Insert(s[0], SortByDateDesc(s[1..]))
  }

  lemma {:induction false} InsertPermutes(x: HistRow, s: seq<HistRow>)
    ensures multiset(Insert(x, s)) == multiset(s) + multiset{x}
    ensures |Insert(x, s)| == |s| + 1
  {
    if s != [] && Date(x) < Date(s[0]) {
      InsertPermutes(x, s[1..]);
      assert s == [s[0]] + s[1..];
    }
  }

  lemma {:induction false} InsertSorted(x: HistRow, s: seq<HistRow>)
    requires SortedDesc(s)
    ensures SortedDesc(Insert(x, s))
    ensures s != [] ==> Insert(x, s)[0] == x || Insert(x, s)[0] == s[0]
    ensures multiset(Insert(x, s)) == multiset(s) + multiset{x}
    ensures |Insert(x, s)| == |s| + 1
  {
    InsertPermutes(x, s);
    if s != [] && Date(x) < Date(s[0]) {
      var rest := s[1..];
      assert SortedDesc(rest);
      InsertSorted(x, rest);
      var t := Insert(x, rest);
      assert Insert(x, s) == [s[0]] + t;
      assert Date(t[0]) <= Date(s[0]) by {
        if rest != [] {
          assert t[0] == x || t[0] == s[1];
        }
      }
      forall i, j | 0 <= i < j < |[s[0]] + t| ensures Date(([s[0]] + t)[j]) <= Date(([s[0]] + t)[i]) {
        if i == 0 {
          assert ([s[0]] + t)[j] == t[j - 1];
          assert Date(t[j - 1]) <= Date(t[0]);
        } else {
          assert ([s[0]] + t)[j] == t[j - 1] && ([s[0]] + t)[i] == t[i - 1];
        }
      }
    }
  }

  lemma {:induction false} SortSorted(s: seq<HistRow>)
    ensures SortedDesc(SortByDateDesc(s))
    ensures multiset(SortByDateDesc(s)) == multiset(s)
    ensures |SortByDateDesc(s)| == |s|
  {
    if s != [] {
      SortSorted(s[1..]);
      InsertSorted(s[0], SortByDateDesc(s[1..]));
      assert s == [s[0]] + s[1..];
    }
  }

  // ---------------------------------------------------------------------
  // The window

  /** Number of rows `DataFrame.head(n)` keeps of `len` rows; a negative n drops the last |n|. */
  function HeadCount(n: int, len: nat): (k: nat)
    ensures k <= len
    ensures n >= 0 ==> k == if n < len then n else len
    ensures n < 0 ==> k == if len + n > 0 then len + n else 0
  {
    if n >= 0 then (if n < len then n else len)
    else if len + n > 0 then len + n else 0
  }

  function Window(rows: seq<HistRow>, team: int, cutoff: int, n: int, venue: Option<string>): seq<HistRow>
  {
    var sorted := SortByDateDesc(Filter(rows, team, cutoff, venue));
    SortSorted(Filter(rows, team, cutoff, venue));
    sorted[..HeadCount(n, |sorted|)]
  }

  lemma SortedSplit(s: seq<HistRow>, k: nat)
    requires SortedDesc(s) && k <= |s|
    ensures forall x, y :: x in s[k..] && y in s[..k] ==> Date(x) <= Date(y)
  {
    forall x, y | x in s[k..] && y in s[..k] ensures Date(x) <= Date(y) {
      var j :| 0 <= j < |s[k..]| && s[k..][j] == x;
      var i :| 0 <= i < |s[..k]| && s[..k][i] == y;
      assert s[k + j] == x && s[i] == y;
    }
  }

  /** A prefix of a descending rearrangement of e holds rows of e no older than the rest. */
  lemma SortedPrefix(e: seq<HistRow>, s: seq<HistRow>, k: nat)
    requires SortedDesc(s) && multiset(s) == multiset(e) && k <= |s|
    ensures SortedDesc(s[..k])
    ensures multiset(s[..k]) <= multiset(e)
    ensures forall x, y :: x in multiset(e) - multiset(s[..k]) && y in s[..k] ==> Date(x) <= Date(y)
  {
    assert s == s[..k] + s[k..];
    assert multiset(e) - multiset(s[..k]) == multiset(s[k..]);
    SortedSplit(s, k);
    forall x, y | x in multiset(e) - multiset(s[..k]) && y in s[..k] ensures Date(x) <= Date(y) {
      assert x in multiset(s[k..]);
    }
  }

  /**
   * The window holds HeadCount(n, #eligible) eligible rows, most recent
   * first, and every eligible row left out of it is no later than every row
   * kept, whichever way ties were ordered.
   */
  lemma WindowMostRecent(rows: seq<HistRow>, team: int, cutoff: int, n: int, venue: Option<string>)
    ensures var e := Filter(rows, team, cutoff, venue);
            var w := Window(rows, team, cutoff, n, venue);
            && |w| == HeadCount(n, |e|)
            && SortedDesc(w)
            && multiset(w) <= multiset(e)
            && (forall r :: r in w ==> Eligible(r, team, cutoff, venue))
            && (forall x, y :: x in multiset(e) - multiset(w) && y in w ==> Date(x) <= Date(y))
  {
    var e := Filter(rows, team, cutoff, venue);
    var s := SortByDateDesc(e);
    SortSorted(e);
    var k := HeadCount(n, |s|);
    SortedPrefix(e, s, k);
    var w := s[..k];
    assert w == Window(rows, team, cutoff, n, venue);
    FilterExact(rows, team, cutoff, venue);
    forall r | r in w ensures Eligible(r, team, cutoff, venue) {
      assert r in multiset(w);
      assert r in multiset(e);
    }
  }

  // ---------------------------------------------------------------------
  // Counting outcomes

  datatype Tally = Tally(wins: nat, draws: nat, losses: nat, unscored: nat)

  function Add(a: Tally, b: Tally): Tally
  {
    Tally(a.wins + b.wins, a.draws + b.draws, a.losses + b.losses, a.unscored + b.unscored)
  }

  const NoGames: Tally := Tally(0, 0, 0, 0)

  predicate Scored(r: HistRow)
  {
    r.homeScore.Some? && r.awayScore.Some?
  }

  /** Credit one scored result from the team's side: mine against theirs. */
  function Credit(t: Tally, mine: int, theirs: int): Tally
  {
    if mine > theirs then t.(wins := t.wins + 1)
    else if mine == theirs then t.(draws := t.draws + 1)
    else t.(losses := t.losses + 1)
  }

  /**
   * One iteration of the counting loop: an unscored row is counted as such;
   * a scored row is a result from the home side when the team is at home,
   * otherwise from the away side.
   */
  function Count(t: Tally, r: HistRow, team: int): Tally
  {
    if !Scored(r) then t.(unscored := t.unscored + 1)
    else if r.homeTeamId == Some(team) then Credit(t, r.homeScore.value, r.awayScore.value)
    else if r.awayTeamId == Some(team) then Credit(t, r.awayScore.value, r.homeScore.value)
    else t
  }

  /** The counting loop run from tally t over the rows of s. */
  function TallyFrom(t: Tally, s: seq<HistRow>, team: int): Tally
    decreases |s|
  {
    if s == [] then t else TallyFrom(Count(t, s[0], team), s[1..], team)
  }

  function TallyOf(s: seq<HistRow>, team: int): Tally
  {
    TallyFrom(NoGames, s, team)
  }

  /** Rows of `s` whose score is missing or not numeric. */
  function Unscored(s: seq<HistRow>): nat
  {
    if s == [] then 0 else (if Scored(s[0]) then 0 else 1) + Unscored(s[1..])
  }

  lemma {:induction false} TallyFromAdd(t: Tally, s: seq<HistRow>, team: int)
    ensures TallyFrom(t, s, team) == Add(t, TallyOf(s, team))
    decreases |s|
  {
    if s != [] {
      TallyFromAdd(Count(t, s[0], team), s[1..], team);
      TallyFromAdd(Count(NoGames, s[0], team), s[1..], team);
    }
  }

  lemma {:induction false} TallyAppend(a: seq<HistRow>, b: seq<HistRow>, team: int)
    ensures TallyOf(a + b, team) == Add(TallyOf(a, team), TallyOf(b, team))
    decreases |a|
  {
    if a == [] {
      assert a + b == b;
    } else {
      var u := Count(NoGames, a[0], team);
      assert (a + b)[0] == a[0] && (a + b)[1..] == a[1..] + b;
      calc {
        TallyOf(a + b, team);
        TallyFrom(u, a[1..] + b, team);
        { TallyFromAdd(u, a[1..] + b, team); }
        Add(u, TallyOf(a[1..] + b, team));
        { TallyAppend(a[1..], b, team); }
        Add(u, Add(TallyOf(a[1..], team), TallyOf(b, team)));
        Add(Add(u, TallyOf(a[1..], team)), TallyOf(b, team));
        { TallyFromAdd(u, a[1..], team); }
        Add(TallyFrom(u, a[1..], team), TallyOf(b, team));
        Add(TallyOf(a, team), TallyOf(b, team));
      }
    }
  }

  lemma RemoveMatching(s: seq<HistRow>, t: seq<HistRow>, j: nat)
    requires s != [] && j < |t| && t[j] == s[0] && multiset(s) == multiset(t)
    ensures multiset(s[1..]) == multiset(t[..j] + t[j + 1..])
  {
    assert t == t[..j] + [t[j]] + t[j + 1..];
    assert s == [s[0]] + s[1..];
    assert multiset(t[..j] + t[j + 1..]) == multiset(t) - multiset{s[0]};
  }

  /**
   * The counts depend only on which rows are in the window, not on their
   * order: an unstable sort cannot change the result.
   */
  lemma {:induction false} TallyPermutation(s: seq<HistRow>, t: seq<HistRow>, team: int)
    requires multiset(s) == multiset(t)
    ensures TallyOf(s, team) == TallyOf(t, team)
    decreases |s|
  {
    if s == [] {
      assert |t| == |multiset(t)| == 0;
    } else {
      var x := s[0];
      assert x in multiset(t);
      var j :| 0 <= j < |t| && t[j] == x;
      var rest := t[..j] + t[j + 1..];
      RemoveMatching(s, t, j);
      TallyPermutation(s[1..], rest, team);
      assert t == t[..j] + ([x] + t[j + 1..]);
      assert s == [x] + s[1..];
      calc {
        TallyOf(t, team);
        { TallyAppend(t[..j], [x] + t[j + 1..], team); TallyAppend([x], t[j + 1..], team); }
        Add(TallyOf(t[..j], team), Add(TallyOf([x], team), TallyOf(t[j + 1..], team)));
        Add(TallyOf([x], team), Add(TallyOf(t[..j], team), TallyOf(t[j + 1..], team)));
        { TallyAppend(t[..j], t[j + 1..], team); }
        Add(TallyOf([x], team), TallyOf(rest, team));
        Add(TallyOf([x], team), TallyOf(s[1..], team));
        { TallyAppend([x], s[1..], team); }
        TallyOf(s, team);
      }
    }
  }

  /**
   * When every row involves the team, each row is counted exactly once:
   * as a win, a draw, a loss, or an unscored row.
   */
  lemma {:induction false} TallyBalanced(t: Tally, s: seq<HistRow>, team: int)
    requires forall r :: r in s ==> Involves(r, team)
    ensures var u := TallyFrom(t, s, team);
            && u.wins + u.draws + u.losses + u.unscored == t.wins + t.draws + t.losses + t.unscored + |s|
            && u.unscored == t.unscored + Unscored(s)
    decreases |s|
  {
    if s != [] {
      assert s[0] in s;
      assert forall r :: r in s[1..] ==> r in s;
      TallyBalanced(Count(t, s[0], team), s[1..], team);
    }
  }

  // ---------------------------------------------------------------------
  // Rows dated at or after a threshold

  function AtLeastFrom(s: seq<HistRow>, i: nat, th: int): seq<HistRow>
    requires i <= |s|
    decreases |s| - i
  {
    if i == |s| then []
    else if Date(s[i]) >= th then [s[i]] + AtLeastFrom(s, i + 1, th)
    else AtLeastFrom(s, i + 1, th)
  }

  /** The rows of s dated at or after th, in the order of s. */
  function AtLeast(s: seq<HistRow>, th: int): seq<HistRow>
  {
    AtLeastFrom(s, 0, th)
  }

  lemma {:induction false} AtLeastFromCount(s: seq<HistRow>, i: nat, th: int, x: HistRow)
    requires i <= |s|
    ensures multiset(AtLeastFrom(s, i, th))[x] == if Date(x) >= th then multiset(s[i..])[x] else 0
    decreases |s| - i
  {
    if i < |s| {
      AtLeastFromCount(s, i + 1, th, x);
      assert s[i..] == [s[i]] + s[i + 1..];
    }
  }

  lemma AtLeastPermutation(s: seq<HistRow>, t: seq<HistRow>, th: int)
    requires multiset(s) == multiset(t)
    ensures multiset(AtLeast(s, th)) == multiset(AtLeast(t, th))
  {
    assert s[0..] == s && t[0..] == t;
    forall x ensures multiset(AtLeast(s, th))[x] == multiset(AtLeast(t, th))[x] {
      AtLeastFromCount(s, 0, th, x);
      AtLeastFromCount(t, 0, th, x);
    }
  }

  lemma {:induction false} AtLeastFromNone(s: seq<HistRow>, i: nat, th: int)
    requires i <= |s|
    requires forall j :: i <= j < |s| ==> Date(s[j]) < th
    ensures AtLeastFrom(s, i, th) == []
    decreases |s| - i
  {
    if i < |s| {
      AtLeastFromNone(s, i + 1, th);
    }
  }

  /** In a descending sequence the rows dated at or after th form a prefix. */
  lemma {:induction false} AtLeastFromPrefix(s: seq<HistRow>, i: nat, th: int)
    requires i <= |s| && SortedDesc(s)
    ensures i + |AtLeastFrom(s, i, th)| <= |s|
    ensures AtLeastFrom(s, i, th) == s[i..i + |AtLeastFrom(s, i, th)|]
    decreases |s| - i
  {
    if i < |s| {
      if Date(s[i]) >= th {
        AtLeastFromPrefix(s, i + 1, th);
        var m := |AtLeastFrom(s, i + 1, th)|;
        assert s[i..i + 1 + m] == [s[i]] + s[i + 1..i + 1 + m];
      } else {
        AtLeastFromNone(s, i, th);
      }
    }
  }

  // ---------------------------------------------------------------------
  // get_team_form_features

  /** The specification of the form calculation. */
  function TeamForm(team: Option<int>, cutoff: CutoffArg, h: History, n: int, venue: Option<string>): Form
  {
    var p := KeyPrefix(venue);
    if h.rows == [] || team.None? || cutoff.NoCutoff? then Zero(p)
    else if cutoff.Unparseable? then Zero(p)
    else if !h.hasUtcDate then Zero(p)
    else
      var w := Window(h.rows, team.value, cutoff.t, n, venue);
      var t := TallyOf(w, team.value);
      Form(p, t.wins, t.draws, t.losses, |w| - t.unscored)
  }

  /** The form calculation: filter, sort, take the window, then count in a loop. */
  method GetTeamFormFeatures(team: Option<int>, cutoff: CutoffArg, h: History, n: int, venue: Option<string>)
    returns (f: Form)
    ensures f == TeamForm(team, cutoff, h, n, venue)
  {
    var p := KeyPrefix(venue);
    if h.rows == [] || team.None? || cutoff.NoCutoff? {
      return Zero(p);
    }
    if cutoff.Unparseable? {
      return Zero(p);
    }
    if !h.hasUtcDate {
      return Zero(p);
    }
    var tm := team.value;
    var recent := Window(h.rows, tm, cutoff.t, n, venue);
    var gamesPlayed: int := |recent|;
    if gamesPlayed == 0 {
      return Zero(p);
    }
    var wins, draws, losses := 0, 0, 0;
    var i := 0;
    while i < |recent|
      invariant 0 <= i <= |recent|
      invariant |recent| - i <= gamesPlayed <= |recent|
      invariant TallyFrom(Tally(wins, draws, losses, |recent| - gamesPlayed), recent[i..], tm) == TallyOf(recent, tm)
    {
      var r := recent[i];
      assert recent[i..] == [r] + recent[i + 1..];
      if r.homeScore.None? || r.awayScore.None? {
        gamesPlayed := gamesPlayed - 1;
      } else if r.homeTeamId == Some(tm) {
        if r.homeScore.value > r.awayScore.value {
          wins := wins + 1;
        } else if r.homeScore.value == r.awayScore.value {
          draws := draws + 1;
        } else {
          losses := losses + 1;
        }
      } else if r.awayTeamId == Some(tm) {
        if r.awayScore.value > r.homeScore.value {
          wins := wins + 1;
        } else if r.awayScore.value == r.homeScore.value {
          draws := draws + 1;
        } else {
          losses := losses + 1;
        }
      }
      i := i + 1;
    }
    return Form(p, wins, draws, losses, gamesPlayed);
  }

  // ---------------------------------------------------------------------
  // Properties of the form calculation

  /** Each of the early returns gives the all-zero dictionary under the venue's prefix. */
  lemma ZeroCases(team: Option<int>, cutoff: CutoffArg, h: History, n: int, venue: Option<string>)
    requires h.rows == [] || team.None? || cutoff.NoCutoff? || cutoff.Unparseable? || !h.hasUtcDate
    ensures TeamForm(team, cutoff, h, n, venue) == Zero(KeyPrefix(venue))
  {
  }

  /** The result's keys: the prefix follows the venue, and the four keys are distinct. */
  lemma FormKeys(team: Option<int>, cutoff: CutoffArg, h: History, n: int, venue: Option<string>)
    ensures var f := TeamForm(team, cutoff, h, n, venue);
            && f.prefix == (if venue.None? then "form_overall"
                            else if venue == Some("home") || venue == Some("away") then "form_spec_venue"
                            else "form_unknown_venue_type")
            && |f.AsDict()| == 4
            && f.AsDict().Keys == set k | k in f.Keys()
  {
    var f := TeamForm(team, cutoff, h, n, venue);
    var p := f.prefix;
    assert (p + "_W")[|p|..] == "_W";
    assert (p + "_D")[|p|..] == "_D";
    assert (p + "_L")[|p|..] == "_L";
    assert (p + "_games_played")[|p|..] == "_games_played";
    assert |(p + "_W")| == |p| + 2;
  }

  /**
   * W + D + L equals games played, and games played is the window size
   * less its unscored rows: an unscored row uses up a window slot and is
   * not replaced by an older fixture.
   */
  lemma FormBalanced(team: Option<int>, cutoff: CutoffArg, h: History, n: int, venue: Option<string>)
    ensures var f := TeamForm(team, cutoff, h, n, venue);
            && f.wins + f.draws + f.losses == f.gamesPlayed
            && (team.Some? && cutoff.Cutoff? && h.rows != [] && h.hasUtcDate ==>
                  var w := Window(h.rows, team.value, cutoff.t, n, venue);
                  f.gamesPlayed == |w| - Unscored(w))
  {
    if team.Some? && cutoff.Cutoff? && h.rows != [] && h.hasUtcDate {
      var w := Window(h.rows, team.value, cutoff.t, n, venue);
      WindowMostRecent(h.rows, team.value, cutoff.t, n, venue);
      TallyBalanced(NoGames, w, team.value);
    }
  }

  /** Games played never exceeds the number of eligible rows, nor a non-negative num_games. */
  lemma GamesPlayedBound(team: Option<int>, cutoff: CutoffArg, h: History, n: int, venue: Option<string>)
    ensures var f := TeamForm(team, cutoff, h, n, venue);
            && 0 <= f.gamesPlayed
            && (team.Some? && cutoff.Cutoff? ==> f.gamesPlayed <= |Filter(h.rows, team.value, cutoff.t, venue)|)
            && (n >= 0 ==> f.gamesPlayed <= n)
  {
    if team.Some? && cutoff.Cutoff? && h.rows != [] && h.hasUtcDate {
      var w := Window(h.rows, team.value, cutoff.t, n, venue);
      WindowMostRecent(h.rows, team.value, cutoff.t, n, venue);
      TallyBalanced(NoGames, w, team.value);
    }
  }

  /**
   * When exactly as many eligible rows as the window holds are dated at or
   * after th, the window is those rows, and the counts are theirs, however
   * ties were ordered: no tie then straddles the window's edge.
   */
  lemma WindowByThreshold(rows: seq<HistRow>, team: int, cutoff: int, n: int, venue: Option<string>, th: int)
    requires |AtLeast(Filter(rows, team, cutoff, venue), th)| == HeadCount(n, |Filter(rows, team, cutoff, venue)|)
    ensures multiset(Window(rows, team, cutoff, n, venue)) == multiset(AtLeast(Filter(rows, team, cutoff, venue), th))
    ensures TallyOf(Window(rows, team, cutoff, n, venue), team) == TallyOf(AtLeast(Filter(rows, team, cutoff, venue), th), team)
  {
    var e := Filter(rows, team, cutoff, venue);
    var s := SortByDateDesc(e);
    SortSorted(e);
    AtLeastPermutation(s, e, th);
    AtLeastFromPrefix(s, 0, th);
    var k := HeadCount(n, |s|);
    assert |AtLeast(s, th)| == |multiset(AtLeast(s, th))| == |multiset(AtLeast(e, th))| == k;
    assert Window(rows, team, cutoff, n, venue) == s[..k] == AtLeast(s, th);
    TallyPermutation(AtLeast(s, th), AtLeast(e, th), team);
  }

  // ---------------------------------------------------------------------
  // engineer_form_features

  /** A `utcDate` cell of the upcoming-fixture frame. */
  datatype DateCell =
    | NaT
      /** a pandas Timestamp */
    | Stamp(t: int)
      /** any other value, with what `pd.to_datetime(str(value))` makes of it */
    | Other(parsed: Option<int>)

  datatype Fixture = Fixture(homeTeamId: Option<int>, awayTeamId: Option<int>, utcDate: DateCell)

  /** The upcoming-fixture frame: which required columns it has, and its rows. */
  datatype Upcoming = Upcoming(hasHomeTeamId: bool, hasAwayTeamId: bool, hasUtcDate: bool, rows: seq<Fixture>)

  datatype Side = HomeSide | AwaySide
  datatype VenueKey = OverallVenue | HomeVenue | AwayVenue
  datatype Stat = W | D | L | GamesPlayed

  function SideLabel(s: Side): string
  {
    if s == HomeSide then "home" else "away"
  }

  function VenueLabel(v: VenueKey): string
  {
    match v case OverallVenue => "overall" case HomeVenue => "home" case AwayVenue => "away"
  }

  function StatLabel(st: Stat): string
  {
    match st case W => "W" case D => "D" case L => "L" case GamesPlayed => "games_played"
  }

  /** One of the 24 form columns, named `<side>_form_<venue>_<stat>`. */
  datatype FormColumn = FormColumn(side: Side, venue: VenueKey, stat: Stat)
  {
    function Name(): string
    {
      SideLabel(side) + "_form_" + VenueLabel(venue) + "_" + StatLabel(stat)
    }
  }

  /** The frame returned: the form columns it gained, and each row with its form values. */
  datatype Engineered = Engineered(addedColumns: set<FormColumn>, rows: seq<(Fixture, map<FormColumn, int>)>)

  /** Midnight of the day containing t: what `strftime('%Y-%m-%d')` keeps of a timestamp. */
  function DayStart(t: int): int
  {
    t - t % DAY
  }

  /** The cutoff handed to the form calculation for a fixture with a usable date. */
  function FixtureCutoff(d: DateCell): CutoffArg
  {
    match d
    case NaT => NoCutoff
    case Stamp(t) => Cutoff(DayStart(t))
    case Other(p) => if p.Some? then Cutoff(p.value) else Unparseable
  }

  /** One form dictionary with its keys renamed to the (side, venue) columns. */
  function Renamed(side: Side, venue: VenueKey, f: Form): map<FormColumn, int>
  {
    map[FormColumn(side, venue, W) := f.wins, FormColumn(side, venue, D) := f.draws,
        FormColumn(side, venue, L) := f.losses, FormColumn(side, venue, GamesPlayed) := f.gamesPlayed]
  }

  /** The six form dictionaries of one fixture, merged under their renamed keys. */
  function Merge(hO: Form, hH: Form, hA: Form, aO: Form, aH: Form, aA: Form): map<FormColumn, int>
  {
    Renamed(HomeSide, OverallVenue, hO) + Renamed(HomeSide, HomeVenue, hH) + Renamed(HomeSide, AwayVenue, hA)
    + Renamed(AwaySide, OverallVenue, aO) + Renamed(AwaySide, HomeVenue, aH) + Renamed(AwaySide, AwayVenue, aA)
  }

  const ZeroFeatures: map<FormColumn, int> := Merge(Zero(""), Zero(""), Zero(""), Zero(""), Zero(""), Zero(""))

  /** The form values the loop appends for one fixture. */
  function FeatureRow(fx: Fixture, h: History, n: int): map<FormColumn, int>
  {
    if fx.utcDate.NaT? then ZeroFeatures
    else
      var c := FixtureCutoff(fx.utcDate);
      Merge(TeamForm(fx.homeTeamId, c, h, n, None), TeamForm(fx.homeTeamId, c, h, n, Some("home")),
            TeamForm(fx.homeTeamId, c, h, n, Some("away")), TeamForm(fx.awayTeamId, c, h, n, None),
            TeamForm(fx.awayTeamId, c, h, n, Some("home")), TeamForm(fx.awayTeamId, c, h, n, Some("away")))
  }

  /** The value a form dictionary holds under one statistic. */
  function StatOf(f: Form, st: Stat): int
  {
    match st case W => f.wins case D => f.draws case L => f.losses case GamesPlayed => f.gamesPlayed
  }

  /** The form dictionary that the (side, venue) columns are renamed from. */
  function Pick(side: Side, venue: VenueKey, hO: Form, hH: Form, hA: Form, aO: Form, aH: Form, aA: Form): Form
  {
    match (side, venue)
    case (HomeSide, OverallVenue) => hO
    case (HomeSide, HomeVenue) => hH
    case (HomeSide, AwayVenue) => hA
    case (AwaySide, OverallVenue) => aO
    case (AwaySide, HomeVenue) => aH
    case (AwaySide, AwayVenue) => aA
  }

  lemma RenamedAt(side: Side, venue: VenueKey, f: Form, c: FormColumn)
    ensures c in Renamed(side, venue, f) <==> c.side == side && c.venue == venue
    ensures c.side == side && c.venue == venue ==> Renamed(side, venue, f)[c] == StatOf(f, c.stat)
  {
    match c.stat
    case W =>
    case D =>
    case L =>
    case GamesPlayed =>
  }

  /**
   * The merged row has every one of the 24 columns, and column
   * (side, venue, stat) holds that statistic of the form computed for that
   * side's team at that venue.
   */
  lemma MergeAt(hO: Form, hH: Form, hA: Form, aO: Form, aH: Form, aA: Form, c: FormColumn)
    ensures c in Merge(hO, hH, hA, aO, aH, aA)
    ensures Merge(hO, hH, hA, aO, aH, aA)[c] == StatOf(Pick(c.side, c.venue, hO, hH, hA, aO, aH, aA), c.stat)
  {
    RenamedAt(HomeSide, OverallVenue, hO, c);
    RenamedAt(HomeSide, HomeVenue, hH, c);
    RenamedAt(HomeSide, AwayVenue, hA, c);
    RenamedAt(AwaySide, OverallVenue, aO, c);
    RenamedAt(AwaySide, HomeVenue, aH, c);
    RenamedAt(AwaySide, AwayVenue, aA, c);
  }

  /**
   * Every fixture row gets all 24 form columns; a row with a NaT date gets
   * zero in each of them, any other row gets the six forms of its two teams.
   */
  lemma FeatureRowColumns(fx: Fixture, h: History, n: int, col: FormColumn)
    ensures col in FeatureRow(fx, h, n)
    ensures fx.utcDate.NaT? ==> FeatureRow(fx, h, n)[col] == 0
    ensures !fx.utcDate.NaT? ==>
              var c := FixtureCutoff(fx.utcDate);
              var team := if col.side == HomeSide then fx.homeTeamId else fx.awayTeamId;
              var venue := match col.venue case OverallVenue => None case HomeVenue => Some("home") case AwayVenue => Some("away");
              FeatureRow(fx, h, n)[col] == StatOf(TeamForm(team, c, h, n, venue), col.stat)
  {
    var z := Zero("");
    MergeAt(z, z, z, z, z, z, col);
    if !fx.utcDate.NaT? {
      var c := FixtureCutoff(fx.utcDate);
      MergeAt(TeamForm(fx.homeTeamId, c, h, n, None), TeamForm(fx.homeTeamId, c, h, n, Some("home")),
              TeamForm(fx.homeTeamId, c, h, n, Some("away")), TeamForm(fx.awayTeamId, c, h, n, None),
              TeamForm(fx.awayTeamId, c, h, n, Some("home")), TeamForm(fx.awayTeamId, c, h, n, Some("away")), col);
    }
  }

  /** Distinct columns have distinct names, so the 24 names are 24 different columns. */
  lemma ColumnNamesDistinct(a: FormColumn, b: FormColumn)
    requires a.Name() == b.Name()
    ensures a == b
  {
    NameParts(a);
    NameParts(b);
    var x := a.Name();
    assert SideLabel(a.side) == SideLabel(b.side);
    assert VenueLabel(a.venue)[0] == VenueLabel(b.venue)[0];
    assert a.venue == b.venue;
    assert StatLabel(a.stat) == StatLabel(b.stat);
  }

  lemma NameParts(a: FormColumn)
    ensures |a.Name()| > 11
    ensures a.Name()[..4] == SideLabel(a.side)
    ensures a.Name()[10] == VenueLabel(a.venue)[0]
    ensures a.Name()[11 + |VenueLabel(a.venue)|..] == StatLabel(a.stat)
  {
    var x := a.Name();
    var side, venue := SideLabel(a.side), VenueLabel(a.venue);
    assert x == side + ("_form_" + (venue + ("_" + StatLabel(a.stat))));
    assert x[..4] == side;
    assert x[10..] == venue + ("_" + StatLabel(a.stat));
    assert x[11 + |venue|..] == x[10..][1 + |venue|..];
  }

  /**
   * For a Timestamp-dated fixture the cutoff is the start of its day, so a
   * historical row dated earlier on that same day is never in any window.
   */
  lemma SameDayExcluded(fx: Fixture, r: HistRow, team: int, venue: Option<string>)
    requires fx.utcDate.Stamp? && r.utcDate.Some?
    requires DayStart(r.utcDate.value) == DayStart(fx.utcDate.t)
    ensures FixtureCutoff(fx.utcDate).Cutoff?
    ensures !Eligible(r, team, FixtureCutoff(fx.utcDate).t, venue)
  {
  }

  /** The 24 form columns the frame gains. */
  function AllColumns(): set<FormColumn>
  {
    set s: Side, v: VenueKey, st: Stat | true :: FormColumn(s, v, st)
  }

  lemma AllColumnsComplete(c: FormColumn)
    ensures c in AllColumns()
  {
    assert c == FormColumn(c.side, c.venue, c.stat);
  }

  /** The feature-engineering loop over the upcoming fixtures. */
  method EngineerFormFeatures(up: Upcoming, h: History, n: int) returns (out: Engineered)
    ensures up.rows == [] ==> out == Engineered({}, [])
    ensures up.rows != [] ==> forall c: FormColumn :: c in out.addedColumns
    ensures |out.rows| == |up.rows|
    ensures forall i :: 0 <= i < |up.rows| ==> out.rows[i].0 == up.rows[i]
    ensures up.rows != [] && !(up.hasHomeTeamId && up.hasAwayTeamId && up.hasUtcDate) ==>
              forall i :: 0 <= i < |up.rows| ==> out.rows[i].1 == ZeroFeatures
    ensures up.hasHomeTeamId && up.hasAwayTeamId && up.hasUtcDate ==>
              forall i :: 0 <= i < |up.rows| ==> out.rows[i].1 == FeatureRow(up.rows[i], h, n)
  {
    if up.rows == [] {
      return Engineered({}, []);
    }
    if !(up.hasHomeTeamId && up.hasAwayTeamId && up.hasUtcDate) {
      var zeroed := seq(|up.rows|, i requires 0 <= i < |up.rows| => (up.rows[i], ZeroFeatures));
      forall c: FormColumn ensures c in AllColumns() { AllColumnsComplete(c); }
      return Engineered(AllColumns(), zeroed);
    }
    var all: seq<(Fixture, map<FormColumn, int>)> := [];
    var i := 0;
    while i < |up.rows|
      invariant 0 <= i <= |up.rows|
      invariant |all| == i
      invariant forall j :: 0 <= j < i ==> all[j] == (up.rows[j], FeatureRow(up.rows[j], h, n))
    {
      var fx := up.rows[i];
      if fx.utcDate.NaT? {
        all := all + [(fx, ZeroFeatures)];
      } else {
        var c := FixtureCutoff(fx.utcDate);
        var hO := GetTeamFormFeatures(fx.homeTeamId, c, h, n, None);
        var hH := GetTeamFormFeatures(fx.homeTeamId, c, h, n, Some("home"));
        var hA := GetTeamFormFeatures(fx.homeTeamId, c, h, n, Some("away"));
        var aO := GetTeamFormFeatures(fx.awayTeamId, c, h, n, None);
        var aH := GetTeamFormFeatures(fx.awayTeamId, c, h, n, Some("home"));
        var aA := GetTeamFormFeatures(fx.awayTeamId, c, h, n, Some("away"));
        all := all + [(fx, Merge(hO, hH, hA, aO, aH, aA))];
      }
      i := i + 1;
    }
    forall c: FormColumn ensures c in AllColumns() { AllColumnsComplete(c); }
    return Engineered(AllColumns(), all);
  }
}
