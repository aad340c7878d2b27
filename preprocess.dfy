/**
 * `preprocess_match_data`: a football-data.org match list turned into a
 * frame, with identifiers, team names and full-time scores lifted out of
 * the nested `homeTeam`, `awayTeam`, `competition` and `score` dicts.
 */
module Preprocess {
  import opened Wrappers
  import opened Json

  /** What the function is handed: a list of match dicts, or anything else. */
  datatype Input = Records(matches: seq<Object>) | NotAList

  /** The `utcDate` column after `pd.to_datetime(errors='coerce')`: absent, or a timestamp (None for NaT). */
  datatype DateColumn = NoDateColumn | DateCell(t: Option<int>)

  /** The columns the function adds to one row. */
  datatype Derived = Derived(
    matchId: Json,
    homeTeamId: Json, homeTeamName: Json,
    awayTeamId: Json, awayTeamName: Json,
    competitionId: Json,
    homeTeamScore: Json, awayTeamScore: Json,
    utcDate: DateColumn)

  /** The returned frame: its rows, and the added columns when extraction ran. */
  datatype Frame = Frame(rows: seq<Object>, derived: Option<seq<Derived>>)

  /** The columns read with `df[...]`, each a KeyError when no match carries it. */
  const REQUIRED: set<string> := {"id", "homeTeam", "awayTeam", "competition", "score"}

  /** The columns of `pd.DataFrame(matches)`: every key some match carries. */
  function ColumnsOf(ms: seq<Object>): (cols: set<string>)
    ensures forall k :: k in cols <==> exists i :: 0 <= i < |ms| && k in ms[i]
  {
    if ms == [] then {}
    else
      var rest := ColumnsOf(ms[1..]);
      assert forall k :: (exists i :: 1 <= i < |ms| && k in ms[i]) <==> k in rest by {
        forall k | k in rest ensures exists i :: 1 <= i < |ms| && k in ms[i] {
          var j :| 0 <= j < |ms[1..]| && k in ms[1..][j];
          assert k in ms[j + 1];
        }
      }
      ms[0].Keys + rest
  }

  /** `x.get(k) if isinstance(x, dict) else None`. */
  function Field(x: Json, k: string): (v: Json)
    ensures v != JNull ==> x.JDict? && k in x.fields && v == x.fields[k]
    ensures x.JDict? && k in x.fields ==> v == x.fields[k]
  {
    if x.JDict? then Get(x.fields, k) else JNull
  }

  /** `extract_score`: the side's full-time score, read only through a dict `score` holding a dict `fullTime`. */
  function ExtractScore(scoreData: Json, side: string): (v: Json)
    ensures v != JNull ==>
      scoreData.JDict? && "fullTime" in scoreData.fields && scoreData.fields["fullTime"].JDict? &&
      side in scoreData.fields["fullTime"].fields && v == scoreData.fields["fullTime"].fields[side]
    ensures (scoreData.JDict? && "fullTime" in scoreData.fields && scoreData.fields["fullTime"].JDict? &&
             side in scoreData.fields["fullTime"].fields) ==>
      v == scoreData.fields["fullTime"].fields[side]
  {
    if scoreData.JDict? && Get(scoreData.fields, "fullTime").JDict? then
      Get(Get(scoreData.fields, "fullTime").fields, side)
    else JNull
  }

  /** `pd.to_datetime(errors='coerce')` on one cell: a missing cell and an unparsable one are both NaT. */
  function ToDatetime(cell: Json, parse: Json -> Option<int>): (t: Option<int>)
    ensures cell.JNull? ==> t.None?
    ensures !cell.JNull? ==> t == parse(cell)
  {
    if cell.JNull? then None else parse(cell)
  }

  /** The added columns of one match; `hasDate` says whether the frame has a `utcDate` column. */
  function DeriveRow(m: Object, hasDate: bool, parse: Json -> Option<int>): (d: Derived)
    ensures d.matchId == Get(m, "id")
    ensures !Get(m, "homeTeam").JDict? ==> d.homeTeamId == JNull && d.homeTeamName == JNull
    ensures !Get(m, "awayTeam").JDict? ==> d.awayTeamId == JNull && d.awayTeamName == JNull
    ensures !Get(m, "competition").JDict? ==> d.competitionId == JNull
    ensures !(Get(m, "score").JDict? && Get(Get(m, "score").fields, "fullTime").JDict?) ==>
      d.homeTeamScore == JNull && d.awayTeamScore == JNull
    ensures d.utcDate.NoDateColumn? <==> !hasDate
    ensures hasDate && !Get(m, "utcDate").JNull? ==> d.utcDate == DateCell(parse(Get(m, "utcDate")))
  {
    var home := Get(m, "homeTeam");
    var away := Get(m, "awayTeam");
    var score := Get(m, "score");
    Derived(
      Get(m, "id"),
      Field(home, "id"), Field(home, "name"),
      Field(away, "id"), Field(away, "name"),
      Field(Get(m, "competition"), "id"),
      ExtractScore(score, "home"), ExtractScore(score, "away"),
      if hasDate then DateCell(ToDatetime(Get(m, "utcDate"), parse)) else NoDateColumn)
  }

  /**
   * `preprocess_match_data`. None stands for the KeyError raised when one of
   * the columns read with `df[...]` is carried by no match; a frame with rows
   * but no columns counts as empty and is returned without extraction.
   */
  function PreprocessMatchData(input: Input, parse: Json -> Option<int>): (r: Option<Frame>)
    ensures (input.NotAList? || input.matches == []) ==> r == Some(Frame([], None))
    ensures r.None? <==>
      input.Records? && ColumnsOf(input.matches) != {} && !(REQUIRED <= ColumnsOf(input.matches))
    ensures r.Some? && input.Records? ==> r.value.rows == input.matches
    ensures r.Some? && r.value.derived.None? ==> forall i :: 0 <= i < |r.value.rows| ==> r.value.rows[i] == map[]
    ensures r.Some? && r.value.derived.Some? ==>
      |r.value.derived.value| == |r.value.rows| > 0 &&
      forall i :: 0 <= i < |r.value.rows| ==>
        r.value.derived.value[i] == DeriveRow(r.value.rows[i], "utcDate" in ColumnsOf(r.value.rows), parse)
  {
    match input
    case NotAList => Some(Frame([], None))
    case Records(ms) =>
      var cols := ColumnsOf(ms);
      if ms == [] then Some(Frame([], None))
      else if cols == {} then
        assert forall i :: 0 <= i < |ms| ==> ms[i].Keys == {};
        Some(Frame(ms, None))
      else if !(REQUIRED <= cols) then None
      else Some(Frame(ms, Some(seq(|ms|, i requires 0 <= i < |ms| => DeriveRow(ms[i], "utcDate" in cols, parse)))))
  }

  /**
   * The promises made about each extracted row: the match id is copied, team
   * ids and names stay None unless the team cell is a dict, scores stay None
   * unless `score` and its `fullTime` are dicts, and `utcDate` is parsed
   * exactly when some match carries it.
   */
  lemma PreprocessRows(input: Input, parse: Json -> Option<int>, i: nat)
    requires PreprocessMatchData(input, parse).Some?
    requires PreprocessMatchData(input, parse).value.derived.Some?
    requires i < |input.matches|
    ensures input.Records?
    ensures var d := PreprocessMatchData(input, parse).value.derived.value[i];
      var m := input.matches[i];
      d.matchId == Get(m, "id") &&
      (!Get(m, "homeTeam").JDict? ==> d.homeTeamId == JNull && d.homeTeamName == JNull) &&
      (!Get(m, "awayTeam").JDict? ==> d.awayTeamId == JNull && d.awayTeamName == JNull) &&
      (!(Get(m, "score").JDict? && Get(Get(m, "score").fields, "fullTime").JDict?) ==>
        d.homeTeamScore == JNull && d.awayTeamScore == JNull) &&
      (d.utcDate.NoDateColumn? <==> forall j :: 0 <= j < |input.matches| ==> "utcDate" !in input.matches[j])
  {
    var d := PreprocessMatchData(input, parse).value.derived.value[i];
    assert d == DeriveRow(input.matches[i], "utcDate" in ColumnsOf(input.matches), parse);
  }
}
