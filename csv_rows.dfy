/**
 * The cells of a pandas row as the CSV collectors (soccer-data.co.uk,
 * FiveThirtyEight, Kaggle) read them; a missing cell (`NaN`) is `JNull`.
 */
module CsvRows {
  import opened Wrappers
  import opened Json
  import opened Outcome

  /** A team or league name as the resolver takes it: `None` where `pd.isna(name) or not name` holds. */
  function CellName(c: Json): (r: Option<string>)
    ensures !Truthy(c) ==> r.None?
    ensures c.JStr? && c.s != "" ==> r == Some(c.s)
  {
    if Truthy(c) then AsText(c) else None
  }

  /** `str(x)` of a cell: a missing value renders as `nan`. */
  function CellStr(c: Json): (r: string)
    ensures c.JNull? ==> r == "nan"
    ensures c.JStr? ==> r == c.s
  {
    if c.JNull? then "nan" else PyStr(c)
  }

  /**
   * The result of a row whose score cells are h and a. Both present: `int()`
   * of each, FINISHED and the winner they give, or `None` where `int()`
   * raises. Otherwise the status `unscored` with no scores and no winner.
   */
  function CellScores(h: Json, a: Json, unscored: string): (r: Option<Scoreline>)
    requires unscored != FINISHED
    ensures r.Some? ==> r.value.Consistent()
    ensures IsNa(h) || IsNa(a) ==> r == Some(Unplayed(unscored))
    ensures !IsNa(h) && !IsNa(a) ==> (r.Some? <==> PyInt(h).Some? && PyInt(a).Some?)
    ensures r.Some? && !IsNa(h) && !IsNa(a) ==> r.value == Played(PyInt(h).value, PyInt(a).value)
  {
    if IsNa(h) || IsNa(a) then Some(Unplayed(unscored))
    else if PyInt(h).Some? && PyInt(a).Some? then Some(Played(PyInt(h).value, PyInt(a).value))
    else None
  }
}
