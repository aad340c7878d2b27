/**
 * Column-name normalisation (`utils.py`): `to_snake_case`, a chain of three
 * regular-expression rewrites followed by lower-casing and separator
 * replacement, and `normalise_dataframe_columns`, which rewrites every
 * string label of a frame in place.
 */
module Columns {
  import opened Wrappers
  import opened Text
  import opened Json

  /** A column label: a string, or any other label (an integer, a tuple, ...), kept opaque. */
  datatype Label = StrLabel(s: string) | OtherLabel(v: Json)

  /** The characters of the class `[\w_]`. */
  predicate IsWordChar(c: char) { IsAlpha(c) || IsDigit(c) || c == '_' }

  /** The characters the normaliser turns into underscores. */
  predicate IsSeparator(c: char) { c == ' ' || c == '-' || c == '.' }

  predicate NoUpper(s: string) { forall i :: 0 <= i < |s| ==> !IsUpper(s[i]) }

  /** The length of the run of capitals that ends t. */
  function CapsRun(t: string): (k: nat)
    ensures k <= |t|
    ensures forall j :: |t| - k <= j < |t| ==> IsUpper(t[j])
    ensures k < |t| ==> !IsUpper(t[|t| - k - 1])
  {
    if t == [] || !IsUpper(t[|t| - 1]) then 0 else 1 + CapsRun(t[..|t| - 1])
  }

  /**
   * `re.sub(r'([A-Z])([A-Z]+)$', r'\1_\2', name)`: a run of two or more
   * capitals at the end (where `$` also matches before one final newline) is
   * split after its first letter. The leftmost match starts the whole run,
   * and nothing is left for a second one.
   */
  function SplitTrailingCaps(s: string): (r: string)
    ensures r == s || exists k :: 0 < k < |s| && IsUpper(s[k - 1]) && IsUpper(s[k]) && r == s[..k] + "_" + s[k..]
    ensures NoUpper(s) ==> r == s
  {
    var e := if s != [] && s[|s| - 1] == '\n' then |s| - 1 else |s|;
    var k := CapsRun(s[..e]);
    if k >= 2 then
      assert IsUpper(s[..e][e - k]) && IsUpper(s[..e][e - k + 1]);
      s[..e - k + 1] + "_" + s[e - k + 1..]
    else s
  }

  /** Splitting a trailing run of capitals only inserts an underscore. */
  lemma SplitTrailingCapsKeepsText(s: string)
    ensures RemoveChar(SplitTrailingCaps(s), '_') == RemoveChar(s, '_')
  {
    var e := if s != [] && s[|s| - 1] == '\n' then |s| - 1 else |s|;
    var k := CapsRun(s[..e]);
    if k >= 2 {
      RemoveCharInserted(s, e - k + 1, '_');
    }
  }

  /**
   * `re.sub(r'([a-z0-9])([A-Z])', r'\1_\2', name)`: an underscore between
   * every lower-case letter or digit and the capital after it. Two matches
   * can never overlap, since a match ends on a capital and starts on a
   * lower-case letter or digit.
   */
  function SplitCamel(s: string): (r: string)
    ensures s != [] ==> r != [] && r[0] == s[0]
    ensures forall i :: 0 <= i < |r| - 1 ==> !((IsLower(r[i]) || IsDigit(r[i])) && IsUpper(r[i + 1]))
    ensures forall c :: c in r ==> c in s || c == '_'
    ensures NoUpper(s) ==> r == s
  {
    if |s| < 2 then s
    else
      var rest := SplitCamel(s[1..]);
      var head := if (IsLower(s[0]) || IsDigit(s[0])) && IsUpper(s[1]) then [s[0], '_'] else [s[0]];
      head + rest
  }

  /**
   * Splitting camel case only inserts underscores, one at each
   * lower-case-to-capital boundary.
   */
  lemma {:induction false} SplitCamelKeepsText(s: string)
    ensures RemoveChar(SplitCamel(s), '_') == RemoveChar(s, '_')
    ensures |SplitCamel(s)| == |s| + CamelBoundaries(s)
    decreases |s|
  {
    if |s| >= 2 {
      var rest := SplitCamel(s[1..]);
      var head := if (IsLower(s[0]) || IsDigit(s[0])) && IsUpper(s[1]) then [s[0], '_'] else [s[0]];
      SplitCamelKeepsText(s[1..]);
      RemoveCharAfterHead(s, head, rest, '_');
    }
  }

  /** Whether the lower-case letter or digit at i is followed by a capital. */
  predicate CamelBoundary(s: string, i: int)
    requires 0 <= i < |s| - 1
  {
    (IsLower(s[i]) || IsDigit(s[i])) && IsUpper(s[i + 1])
  }

  /** The number of lower-case-to-capital boundaries in s. */
  function CamelBoundaries(s: string): nat
    decreases |s|
  {
    if |s| < 2 then 0 else (if CamelBoundary(s, 0) then 1 else 0) + CamelBoundaries(s[1..])
  }

  /**
   * `re.sub(r'([A-Z])([A-Z][a-z])', r'\1_\2', name)`: an underscore before
   * every capital that follows a capital and starts a lower-case word. Two
   * matches can never overlap, since the third letter of one is lower case
   * and the first two of the next are capitals.
   */
  function SplitAcronym(s: string): (r: string)
    ensures s != [] ==> r != [] && r[0] == s[0]
    ensures |s| > 1 ==> |r| > 1 && (r[1] == '_' || r[1] == s[1])
    ensures forall i :: 0 <= i < |r| - 2 ==> !(IsUpper(r[i]) && IsUpper(r[i + 1]) && IsLower(r[i + 2]))
    ensures forall c :: c in r ==> c in s || c == '_'
    ensures NoUpper(s) ==> r == s
  {
    if |s| < 3 then s
    else
      var rest := SplitAcronym(s[1..]);
      var head := if IsUpper(s[0]) && IsUpper(s[1]) && IsLower(s[2]) then [s[0], '_'] else [s[0]];
      head + rest
  }

  /** Splitting acronyms only inserts underscores. */
  lemma {:induction false} SplitAcronymKeepsText(s: string)
    ensures RemoveChar(SplitAcronym(s), '_') == RemoveChar(s, '_')
    decreases |s|
  {
    if |s| >= 3 {
      var rest := SplitAcronym(s[1..]);
      var head := if IsUpper(s[0]) && IsUpper(s[1]) && IsLower(s[2]) then [s[0], '_'] else [s[0]];
      SplitAcronymKeepsText(s[1..]);
      RemoveCharAfterHead(s, head, rest, '_');
    }
  }

  /** `.replace(' ', '_').replace('-', '_').replace('.', '_')`. */
  function Separators(s: string): (r: string)
    ensures |r| == |s|
    ensures forall i :: 0 <= i < |s| ==> r[i] == (if IsSeparator(s[i]) then '_' else s[i])
    ensures NoUpper(s) ==> NoUpper(r)
  {
    ReplaceChar(ReplaceChar(ReplaceChar(s, ' ', '_'), '-', '_'), '.', '_')
  }

  /** `to_snake_case` on a string. */
  function ToSnakeCase(name: string): (r: string)
    ensures NoUpper(r)
    ensures forall i :: 0 <= i < |r| ==> !IsSeparator(r[i])
  {
    LowerSeparated(SplitAcronym(SplitCamel(SplitTrailingCaps(name))))
  }

  /** `.lower()`, then separators replaced: no capital and no separator is left. */
  function LowerSeparated(x: string): (r: string)
    ensures NoUpper(r)
    ensures forall i :: 0 <= i < |r| ==> !IsSeparator(r[i])
  {
    Separators(Lower(x))
  }

  /**
   * `to_snake_case` only inserts underscores, lower-cases and replaces
   * separators: with the underscores taken out, its output is the name
   * lower-cased with separators replaced.
   */
  lemma SnakeCaseKeepsText(name: string)
    ensures RemoveChar(ToSnakeCase(name), '_') == RemoveChar(Separators(Lower(name)), '_')
  {
    SplitTrailingCapsKeepsText(name);
    SplitCamelKeepsText(SplitTrailingCaps(name));
    SplitAcronymKeepsText(SplitCamel(SplitTrailingCaps(name)));
    SnakeText(name, SplitAcronym(SplitCamel(SplitTrailingCaps(name))));
  }

  /** Text whose underscores are all that differ lower-cases and replaces its separators to the same text. */
  lemma SnakeText(name: string, x: string)
    requires RemoveChar(x, '_') == RemoveChar(name, '_')
    ensures RemoveChar(Separators(Lower(x)), '_') == RemoveChar(Separators(Lower(name)), '_')
  {
    SquashSpec(x);
    SquashSpec(name);
    SquashUnderscores(x);
    SquashUnderscores(name);
  }

  /** The name lower-cased, without its underscores and separators. */
  function Squash(x: string): string
    decreases |x|
  {
    if x == [] then [] else (if x[0] == '_' || IsSeparator(x[0]) then [] else [LowerChar(x[0])]) + Squash(x[1..])
  }

  lemma {:induction false} SquashSpec(x: string)
    ensures RemoveChar(Separators(Lower(x)), '_') == Squash(x)
    decreases |x|
  {
    if x != [] {
      var y := Separators(Lower(x));
      assert y[1..] == Separators(Lower(x[1..]));
      assert y == [y[0]] + y[1..];
      SquashSpec(x[1..]);
    }
  }

  lemma {:induction false} SquashUnderscores(x: string)
    ensures Squash(RemoveChar(x, '_')) == Squash(x)
    decreases |x|
  {
    if x != [] {
      SquashUnderscores(x[1..]);
      var t := RemoveChar(x, '_');
      if x[0] != '_' {
        assert t == [x[0]] + RemoveChar(x[1..], '_');
        assert t[0] == x[0] && t[1..] == RemoveChar(x[1..], '_');
        assert Squash(t) == (if IsSeparator(x[0]) then [] else [LowerChar(x[0])]) + Squash(t[1..]);
      } else {
        assert t == RemoveChar(x[1..], '_');
        assert Squash(x) == Squash(x[1..]);
      }
    }
  }

  /** `to_snake_case` on any label: anything but a string comes back unchanged. */
  function SnakeLabel(l: Label): (r: Label)
    ensures l.OtherLabel? ==> r == l
    ensures l.StrLabel? ==> r == StrLabel(ToSnakeCase(l.s))
  {
    match l
    case OtherLabel(_) => l
    case StrLabel(s) => StrLabel(ToSnakeCase(s))
  }

  lemma LowerFixes(s: string)
    requires NoUpper(s)
    ensures Lower(s) == s
  {
    assert forall i :: 0 <= i < |s| ==> Lower(s)[i] == s[i];
  }

  lemma SeparatorsFixes(s: string)
    requires forall i :: 0 <= i < |s| ==> !IsSeparator(s[i])
    ensures Separators(s) == s
  {
    assert forall i :: 0 <= i < |s| ==> Separators(s)[i] == s[i];
  }

  /** `to_snake_case` is idempotent: its output is already snake case. */
  lemma SnakeCaseIdempotent(name: string)
    ensures ToSnakeCase(ToSnakeCase(name)) == ToSnakeCase(name)
  {
    var t := ToSnakeCase(name);
    assert SplitAcronym(SplitCamel(SplitTrailingCaps(t))) == t;
    LowerFixes(t);
    SeparatorsFixes(t);
  }

  /** `re.sub(r'[^\w_]', '', s)`: only word characters are kept, in order. */
  function KeepWordChars(s: string): (r: string)
    ensures |r| <= |s|
    ensures forall i :: 0 <= i < |r| ==> IsWordChar(r[i])
    ensures forall c :: c in s && IsWordChar(c) ==> c in r
    ensures forall c :: c in r ==> c in s
    ensures (forall i :: 0 <= i < |s| ==> IsWordChar(s[i])) ==> r == s
    ensures NoUpper(s) ==> NoUpper(r)
  {
    if s == [] then []
    else
      var rest := KeepWordChars(s[1..]);
      assert forall c :: c in s ==> c == s[0] || c in s[1..];
      if IsWordChar(s[0]) then [s[0]] + rest else rest
  }

  /** The filter works character by character: on two pieces it is the filter of each, joined. */
  lemma {:induction false} KeepWordCharsAppend(x: string, y: string)
    ensures KeepWordChars(x + y) == KeepWordChars(x) + KeepWordChars(y)
    decreases |x|
  {
    if x == [] {
      assert x + y == y;
    } else {
      KeepWordCharsAppend(x[1..], y);
      KeepWordCharsCons(x, y);
    }
  }

  /** The step of KeepWordCharsAppend: the first character of x is kept or dropped in front of the rest. */
  lemma KeepWordCharsCons(x: string, y: string)
    requires x != []
    requires KeepWordChars(x[1..] + y) == KeepWordChars(x[1..]) + KeepWordChars(y)
    ensures KeepWordChars(x + y) == KeepWordChars(x) + KeepWordChars(y)
  {
    var h: string := if IsWordChar(x[0]) then [x[0]] else [];
    KeepWordCharsHead(x, y);
    JoinAfterHead(h, KeepWordChars(x + y), KeepWordChars(x), KeepWordChars(x[1..] + y), KeepWordChars(x[1..]), KeepWordChars(y));
  }

  /** The first character of x decides what the filter keeps in front of the rest of x + y. */
  lemma KeepWordCharsHead(x: string, y: string)
    requires x != []
    ensures var h: string := if IsWordChar(x[0]) then [x[0]] else [];
            KeepWordChars(x + y) == h + KeepWordChars(x[1..] + y) && KeepWordChars(x) == h + KeepWordChars(x[1..])
  {
    var xy := x + y;
    assert xy[0] == x[0] && xy[1..] == x[1..] + y;
  }

  /** Joining after a common head: h + (a + b) is (h + a) + b. */
  lemma JoinAfterHead(h: string, whole: string, left: string, tail: string, a: string, b: string)
    requires whole == h + tail && left == h + a && tail == a + b
    ensures whole == left + b
  {
  }

  /** One character is kept exactly when it is a word character. */
  lemma KeepWordCharsOne(c: char)
    ensures KeepWordChars([c]) == if IsWordChar(c) then [c] else []
  {
    assert [c][1..] == [];
  }

  /** What separator replacement and the filter make of one character of a name. */
  function WordPiece(c: char): string
  {
    if IsSeparator(c) then "_" else if IsWordChar(c) then [c] else []
  }

  /** A reference definition of the two steps: the piece of each character, in order. */
  function WordPieces(l: string): string
  {
    if l == [] then [] else WordPiece(l[0]) + WordPieces(l[1..])
  }

  /**
   * Separator replacement then the filter give exactly the pieces of the
   * name's characters, in order: each word character once, each separator
   * as one underscore, nothing for any other character.
   */
  lemma {:induction false} WordsByPieces(l: string)
    ensures KeepWordChars(Separators(l)) == WordPieces(l)
    decreases |l|
  {
    if l != [] {
      var sep := Separators(l);
      assert sep == [sep[0]] + sep[1..];
      assert sep[1..] == Separators(l[1..]);
      KeepWordCharsAppend([sep[0]], sep[1..]);
      KeepWordCharsOne(sep[0]);
      WordsByPieces(l[1..]);
    }
  }

  /** Lines 30-36 of `normalise_dataframe_columns`: strip, lower, separators, word characters, digit prefix. */
  function Cleaned(col: string): (n: string)
  {
    Identifier(Lower(Strip(col)))
  }

  /** Lines 31-36: separators to underscores, word characters only, an underscore before a leading digit. */
  function Identifier(l: string): (n: string)
  {
    var w := KeepWordChars(Separators(l));
    if w != [] && IsDigit(w[0]) then "_" + w else w
  }

  /** The new name of one string column: its cleaned form, or `to_snake_case` of the original when that is empty. */
  function NormaliseName(col: string): (r: string)
  {
    var n := Cleaned(col);
    if n != [] then n else ToSnakeCase(col)
  }

  /** Separator replacement and the word-character filter keep every word character and add none. */
  lemma WordsSpec(l: string)
    ensures var w := KeepWordChars(Separators(l));
      (forall c :: c in l && IsWordChar(c) ==> c in w) &&
      (forall c :: c in w ==> (c in l && IsWordChar(c)) || c == '_') &&
      (w == [] <==> forall i :: 0 <= i < |l| ==> !IsWordChar(l[i]) && !IsSeparator(l[i]))
  {
    WordsKeep(l);
    WordsAddNone(l);
    WordsEmptyIff(l);
  }

  lemma WordsAddNone(l: string)
    ensures forall c :: c in KeepWordChars(Separators(l)) ==> (c in l && IsWordChar(c)) || c == '_'
  {
    var sep := Separators(l);
    forall c | c in KeepWordChars(sep) ensures (c in l && IsWordChar(c)) || c == '_' {
      var i :| 0 <= i < |sep| && sep[i] == c;
      assert IsWordChar(c);
      assert c == l[i] || c == '_';
    }
  }

  lemma WordsKeep(l: string)
    ensures forall c :: c in l && IsWordChar(c) ==> c in KeepWordChars(Separators(l))
  {
    var sep := Separators(l);
    forall c | c in l && IsWordChar(c) ensures c in KeepWordChars(sep) {
      var i :| 0 <= i < |l| && l[i] == c;
      assert sep[i] == c;
    }
  }

  lemma WordsEmptyIff(l: string)
    ensures KeepWordChars(Separators(l)) == [] <==>
            forall i :: 0 <= i < |l| ==> !IsWordChar(l[i]) && !IsSeparator(l[i])
  {
    var sep := Separators(l);
    var w := KeepWordChars(sep);
    if w == [] {
      forall i | 0 <= i < |l| ensures !IsWordChar(l[i]) && !IsSeparator(l[i]) {
        assert sep[i] in sep;
      }
    } else {
      assert w[0] in w;
      var j :| 0 <= j < |sep| && sep[j] == w[0];
      assert !IsWordChar(l[j]) ==> IsSeparator(l[j]);
    }
  }

  /**
   * A cleaned name is made of lower-case word characters and does not start
   * with a digit; it keeps every word character of the stripped, lower-cased
   * name, and is empty (so that the fallback is taken) exactly when that name
   * holds neither a word character nor a separator.
   */
  lemma CleanedSpec(col: string)
    ensures var l, n := Lower(Strip(col)), Cleaned(col);
      (forall i :: 0 <= i < |n| ==> IsWordChar(n[i]) && !IsUpper(n[i])) &&
      (n != [] ==> !IsDigit(n[0])) &&
      (forall c :: c in l && IsWordChar(c) ==> c in n) &&
      (n == [] <==> forall i :: 0 <= i < |l| ==> !IsWordChar(l[i]) && !IsSeparator(l[i]))
  {
    IdentifierSpec(Lower(Strip(col)));
  }

  lemma IdentifierSpec(l: string)
    requires NoUpper(l)
    ensures var n := Identifier(l);
      (forall i :: 0 <= i < |n| ==> IsWordChar(n[i]) && !IsUpper(n[i])) &&
      (n != [] ==> !IsDigit(n[0])) &&
      (forall c :: c in l && IsWordChar(c) ==> c in n) &&
      (n == [] <==> forall i :: 0 <= i < |l| ==> !IsWordChar(l[i]) && !IsSeparator(l[i]))
  {
    var w := KeepWordChars(Separators(l));
    WordsSpec(l);
    assert NoUpper(w) && forall i :: 0 <= i < |w| ==> IsWordChar(w[i]);
    if w != [] && IsDigit(w[0]) {
      DigitPrefixed(w);
    }
  }

  /** The underscore put before a leading digit keeps a lower-case word and every character of it. */
  lemma DigitPrefixed(w: string)
    requires NoUpper(w) && forall i :: 0 <= i < |w| ==> IsWordChar(w[i])
    ensures var n := "_" + w;
      (forall i :: 0 <= i < |n| ==> IsWordChar(n[i]) && !IsUpper(n[i])) &&
      !IsDigit(n[0]) && (forall c :: c in w ==> c in n) && n != []
  {
    var n := "_" + w;
    forall c | c in w ensures c in n {
      var i :| 0 <= i < |w| && w[i] == c;
      assert n[i + 1] == c;
    }
    forall i | 0 <= i < |n| ensures IsWordChar(n[i]) && !IsUpper(n[i]) {
      if i > 0 { assert n[i] == w[i - 1]; }
    }
  }

  /** A name whose cleaned form is not empty normalises to a fixpoint. */
  lemma NormaliseIdempotent(col: string)
    requires Cleaned(col) != []
    ensures NormaliseName(NormaliseName(col)) == NormaliseName(col)
  {
    var n := Cleaned(col);
    CleanedSpec(col);
    CleanedFixpoint(n);
  }

  /** A non-empty lower-case word not starting with a digit is its own normalised name. */
  lemma CleanedFixpoint(n: string)
    requires n != [] && !IsDigit(n[0])
    requires forall i :: 0 <= i < |n| ==> IsWordChar(n[i]) && !IsUpper(n[i])
    ensures NormaliseName(n) == n
  {
    assert Strip(n) == n by {
      assert forall i :: 0 <= i < |n| ==> !IsSpace(n[i]) by {
        forall i | 0 <= i < |n| ensures !IsSpace(n[i]) { assert IsWordChar(n[i]); }
      }
    }
    LowerFixes(n);
    IdentifierFixes(n);
  }

  lemma IdentifierFixes(n: string)
    requires n != [] && !IsDigit(n[0])
    requires forall i :: 0 <= i < |n| ==> IsWordChar(n[i])
    ensures Identifier(n) == n
  {
    assert forall i :: 0 <= i < |n| ==> !IsSeparator(n[i]) by {
      forall i | 0 <= i < |n| ensures !IsSeparator(n[i]) { assert IsWordChar(n[i]); }
    }
    SeparatorsFixes(n);
    assert KeepWordChars(n) == n;
  }

  /** The fallback can hand back a name that is not an identifier: `"%"` stays `"%"`. */
  lemma FallbackKeepsSymbols()
    ensures NormaliseName("%") == "%"
  {
    assert Strip("%") == "%";
    assert Lower("%") == "%";
    assert Separators("%") == "%";
    assert KeepWordChars("%") == [];
    assert SplitTrailingCaps("%") == "%";
  }

  /** One label of the loop: strings are normalised, other labels are kept as they are. */
  function NormaliseLabel(l: Label): (r: Label)
    ensures l.OtherLabel? ==> r == l
    ensures l.StrLabel? ==> r.StrLabel? && r.s == NormaliseName(l.s)
  {
    match l
    case OtherLabel(_) => l
    case StrLabel(s) => StrLabel(NormaliseName(s))
  }

  /** A frame, as far as the normaliser sees it: its column labels. */
  class DataFrame {
    var columns: seq<Label>

    constructor (columns: seq<Label>)
      ensures this.columns == columns
    {
      this.columns := columns;
    }
  }

  /** The argument of `normalise_dataframe_columns`: a frame, or something else. */
  datatype Arg = FrameArg(df: DataFrame) | NotAFrame

  /**
   * `normalise_dataframe_columns`: None for the TypeError raised on anything
   * but a frame; otherwise the same frame, its labels rewritten one by one,
   * their number and order kept.
   */
  method NormaliseDataframeColumns(arg: Arg) returns (r: Option<DataFrame>)
    modifies if arg.FrameArg? then {arg.df} else {}
    ensures r.None? <==> arg.NotAFrame?
    ensures arg.FrameArg? ==> r == Some(arg.df)
    ensures arg.FrameArg? ==>
      |arg.df.columns| == |old(arg.df.columns)| &&
      forall i :: 0 <= i < |arg.df.columns| ==> arg.df.columns[i] == NormaliseLabel(old(arg.df.columns)[i])
  {
    if arg.NotAFrame? {
      return None;
    }
    var df := arg.df;
    var columns := df.columns;
    var newColumns: seq<Label> := [];
    var i := 0;
    while i < |columns|
      invariant 0 <= i <= |columns|
      invariant |newColumns| == i
      invariant forall j :: 0 <= j < i ==> newColumns[j] == NormaliseLabel(columns[j])
    {
      newColumns := newColumns + [NormaliseLabel(columns[i])];
      i := i + 1;
    }
    df.columns := newColumns;
    return Some(df);
  }
}
