/**
 * Decoded JSON documents and pandas row cells, with the Python operations the
 * collectors apply to them: `dict.get`, truthiness, `pd.isna`, `str()`,
 * `int()` and `float()`.
 */
module Json {
  import opened Wrappers
  import opened Text

  /**
   * A decoded JSON value. `JNull` also stands for a pandas missing value
   * (`NaN` / `None` in a row cell): every check the pipeline makes on cells
   * (`pd.isna`, `pd.notna`) treats the two alike.
   */
  datatype Json =
    | JNull
    | JBool(b: bool)
    | JInt(i: int)
    | JReal(r: real)
    | JStr(s: string)
    | JList(items: seq<Json>)
    | JDict(fields: map<string, Json>)

  type Object = map<string, Json>

  /** `d.get(k)`: the value, or `None` for a missing key. */
  function Get(d: Object, k: string): (v: Json)
    ensures k !in d ==> v == JNull
    ensures k in d ==> v == d[k]
  {
    if k in d then d[k] else JNull
  }

  /** `d.get(k, dflt)`: the default only when the key is missing, not when it holds null. */
  function GetOr(d: Object, k: string, dflt: Json): (v: Json)
    ensures k !in d ==> v == dflt
    ensures k in d ==> v == d[k]
  {
    if k in d then d[k] else dflt
  }

  /** Python truthiness: `None`, `False`, zero and empty containers are false. */
  predicate Truthy(j: Json)
  {
    match j
    case JNull => false
    case JBool(b) => b
    case JInt(i) => i != 0
    case JReal(r) => r != 0.0
    case JStr(s) => s != ""
    case JList(xs) => xs != []
    case JDict(m) => m != map[]
  }

  /**
   * The index of the first value of a list that is not an object, or the
   * length of the list: the first value on which `.get` raises.
   */
  function FirstNonObject(xs: seq<Json>): (k: nat)
    ensures k <= |xs|
    ensures k < |xs| ==> !xs[k].JDict?
    ensures forall i :: 0 <= i < k ==> xs[i].JDict?
  {
    if xs == [] || !xs[0].JDict? then 0
    else 1 + FirstNonObject(xs[1..])
  }

  /** `pd.isna(x)` on a scalar cell. */
  predicate IsNa(j: Json) { j.JNull? }

  /** A string value that is not empty, the test `if not name` passes. */
  function NonEmptyText(j: Json): (r: Option<string>)
    ensures r.Some? <==> j.JStr? && j.s != ""
    ensures r.Some? ==> r.value == j.s && Truthy(j)
  {
    if j.JStr? && j.s != "" then Some(j.s) else None
  }

  /**
   * `str(x)` for the scalar values identifiers are built from. A float that
   * holds a whole number renders with a trailing `.0`, as Python does; other
   * floats and containers render as a fixed marker.
   */
  function PyStr(j: Json): string
  {
    match j
    case JNull => "None"
    case JBool(b) => if b then "True" else "False"
    case JInt(i) => IntStr(i)
    case JReal(r) => if r == r.Floor as real then IntStr(r.Floor) + ".0" else "<float>"
    case JStr(s) => s
    case JList(_) => "<list>"
    case JDict(_) => "<dict>"
  }

  /**
   * The text SQLite stores for a value bound to a TEXT column: a string as
   * it is, a number as its decimal text. `None` for null, and for a container,
   * which cannot be bound (`sqlite3.Error`, handled like a missing value).
   */
  function AsText(j: Json): (r: Option<string>)
    ensures j.JStr? ==> r == Some(j.s)
    ensures j.JNull? ==> r.None?
  {
    match j
    case JNull => None
    case JStr(s) => Some(s)
    case JList(_) => None
    case JDict(_) => None
    case _ => Some(PyStr(j))
  }

  /** `str(x)` of a value Python treats as true is never empty. */
  lemma PyStrOfTruthy(j: Json)
    requires Truthy(j)
    ensures PyStr(j) != ""
  {
  }

  /** Truncation toward zero, as `int()` applies to a float. */
  function Trunc(r: real): (i: int)
    ensures r >= 0.0 ==> i == r.Floor
    ensures r < 0.0 ==> i == -((-r).Floor)
  {
    if r >= 0.0 then r.Floor else -((-r).Floor)
  }

  /** `int(x)`: `None` where Python raises (`None`, a non-numeric string, a container). */
  function PyInt(j: Json): (r: Option<int>)
    ensures j.JNull? ==> r.None?
    ensures j.JInt? ==> r == Some(j.i)
  {
    match j
    case JNull => None
    case JBool(b) => Some(if b then 1 else 0)
    case JInt(i) => Some(i)
    case JReal(r) => Some(Trunc(r))
    case JStr(s) => ParseInt(s)
    case JList(_) => None
    case JDict(_) => None
  }

  /**
   * `float(x)`: `None` where Python raises. Only whole-number strings are
   * read as text here; a string with a decimal point is outside this model.
   */
  function PyFloat(j: Json): (r: Option<real>)
    ensures j.JReal? ==> r == Some(j.r)
    ensures j.JInt? ==> r == Some(j.i as real)
  {
    match j
    case JNull => None
    case JBool(b) => Some(if b then 1.0 else 0.0)
    case JInt(i) => Some(i as real)
    case JReal(r) => Some(r)
    case JStr(s) => (if ParseInt(s).Some? then Some(ParseInt(s).value as real) else None)
    case JList(_) => None
    case JDict(_) => None
  }

  /** `int()` of an integer or of its decimal text gives back the same number. */
  lemma PyIntOfText(n: nat)
    ensures PyInt(JStr(NatStr(n))) == Some(n)
    ensures PyInt(JInt(n)) == Some(n)
  {
    ParseNatStr(n);
  }
}
