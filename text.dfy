/**
 * The string operations the pipeline applies to names, statuses and
 * identifiers, over ASCII: case mapping, `strip`, `replace`, `split`,
 * `isdigit`, and decimal rendering of numbers.
 */
module Text {
  import opened Wrappers

  predicate IsUpper(c: char) { 'A' <= c <= 'Z' }
  predicate IsLower(c: char) { 'a' <= c <= 'z' }
  predicate IsDigit(c: char) { '0' <= c <= '9' }
  predicate IsAlpha(c: char) { IsUpper(c) || IsLower(c) }

  /** The ASCII characters `str.strip()` removes: tab to carriage return, the four separators 0x1C-0x1F, and space. */
  predicate IsSpace(c: char)
  {
    c == ' ' || (9 as char <= c <= 13 as char) || (28 as char <= c <= 31 as char)
  }

  function LowerChar(c: char): (d: char)
    ensures !IsUpper(d)
    ensures IsUpper(c) ==> d as int == c as int + 32
    ensures !IsUpper(c) ==> d == c
  {
    if IsUpper(c) then (c as int + 32) as char else c
  }

  function UpperChar(c: char): (d: char)
    ensures !IsLower(d)
    ensures IsLower(c) ==> d as int == c as int - 32
    ensures !IsLower(c) ==> d == c
  {
    if IsLower(c) then (c as int - 32) as char else c
  }

  function Lower(s: string): (r: string)
    ensures |r| == |s|
    ensures forall i :: 0 <= i < |s| ==> r[i] == LowerChar(s[i])
  {
    if s == [] then [] else [LowerChar(s[0])] + Lower(s[1..])
  }

  function Upper(s: string): (r: string)
    ensures |r| == |s|
    ensures forall i :: 0 <= i < |s| ==> r[i] == UpperChar(s[i])
  {
    if s == [] then [] else [UpperChar(s[0])] + Upper(s[1..])
  }

  /** `str.strip()`: no leading or trailing white space is left, and nothing changes when there is none. */
  function Strip(s: string): (r: string)
    ensures r == [] || (!IsSpace(r[0]) && !IsSpace(r[|r| - 1]))
    ensures |r| <= |s|
    ensures (forall i :: 0 <= i < |s| ==> !IsSpace(s[i])) ==> r == s
  {
    var l := StripLeft(s);
    assert (forall i :: 0 <= i < |s| ==> !IsSpace(s[i])) ==> l == s && (s == [] || !IsSpace(s[|s| - 1]));
    StripRight(l)
  }

  /** `str.strip()` keeps a slice of its argument and cuts off nothing but white space. */
  lemma StripIsSlice(s: string)
    ensures exists i, j :: 0 <= i <= j <= |s| && Strip(s) == s[i..j] && AllSpace(s[..i]) && AllSpace(s[j..])
  {
    var l := StripLeft(s);
    StripLeftDropsSpace(s);
    StripRightDropsSpace(l);
    StripSlice(s, l, StripRight(l));
  }

  lemma StripSlice(s: string, l: string, r: string)
    requires |l| <= |s| && l == s[|s| - |l|..] && AllSpace(s[..|s| - |l|])
    requires |r| <= |l| && r == l[..|r|] && AllSpace(l[|r|..])
    ensures exists i, j :: 0 <= i <= j <= |s| && r == s[i..j] && AllSpace(s[..i]) && AllSpace(s[j..])
  {
    var i := |s| - |l|;
    var j := i + |r|;
    assert l == s[i..];
    assert r == l[..|r|];
    assert l[..|r|] == s[i..j];
    assert s[j..] == l[|r|..];
  }

  /** Every character of s is white space. */
  predicate AllSpace(s: string)
  {
    forall k :: 0 <= k < |s| ==> IsSpace(s[k])
  }

  /** `str.lstrip()`: the suffix left once the leading white space is dropped. */
  function StripLeft(s: string): (r: string)
    ensures r == [] || !IsSpace(r[0])
    ensures |r| <= |s| && r == s[|s| - |r|..]
    ensures (s == [] || !IsSpace(s[0])) ==> r == s
    decreases |s|
  {
    if s != [] && IsSpace(s[0]) then StripLeft(s[1..]) else assert s == s[0..]; s
  }

  /** What `str.lstrip()` drops is white space. */
  lemma {:induction false} StripLeftDropsSpace(s: string)
    ensures AllSpace(s[..|s| - |StripLeft(s)|])
    decreases |s|
  {
    if s != [] && IsSpace(s[0]) {
      StripLeftDropsSpace(s[1..]);
      assert s[..|s| - |StripLeft(s)|] == [s[0]] + s[1..][..|s[1..]| - |StripLeft(s[1..])|];
    }
  }

  /** `str.rstrip()`: the prefix left once the trailing white space is dropped. */
  function StripRight(s: string): (r: string)
    ensures r == [] || !IsSpace(r[|r| - 1])
    ensures |r| <= |s| && r == s[..|r|]
    ensures (s == [] || !IsSpace(s[|s| - 1])) ==> r == s
    decreases |s|
  {
    if s != [] && IsSpace(s[|s| - 1]) then StripRight(s[..|s| - 1]) else assert s == s[..|s|]; s
  }

  /** What `str.rstrip()` drops is white space. */
  lemma {:induction false} StripRightDropsSpace(s: string)
    ensures AllSpace(s[|StripRight(s)|..])
    decreases |s|
  {
    if s != [] && IsSpace(s[|s| - 1]) {
      var t := s[..|s| - 1];
      StripRightDropsSpace(t);
      assert s[|StripRight(s)|..] == t[|StripRight(t)|..] + [s[|s| - 1]];
    }
  }

  /** `s.replace(a, b)` for single characters a and b. */
  function ReplaceChar(s: string, a: char, b: char): (r: string)
    ensures |r| == |s|
    ensures forall i :: 0 <= i < |s| ==> r[i] == (if s[i] == a then b else s[i])
  {
    if s == [] then [] else [if s[0] == a then b else s[0]] + ReplaceChar(s[1..], a, b)
  }

  /** `s.replace(a, t)` for a single character a and any replacement text t. */
  function ReplaceCharWith(s: string, a: char, t: string): (r: string)
    ensures a !in t ==> a !in r
    ensures a !in s ==> r == s
    ensures forall c :: c in r ==> c in s || c in t
  {
    if s == [] then [] else (if s[0] == a then t else [s[0]]) + ReplaceCharWith(s[1..], a, t)
  }

  /** `s.replace(a, '')`. */
  function RemoveChar(s: string, a: char): (r: string)
    ensures a !in r
    ensures |r| <= |s|
    ensures forall c :: c in r ==> c in s
  {
    if s == [] then [] else (if s[0] == a then [] else [s[0]]) + RemoveChar(s[1..], a)
  }

  /** Removing a character distributes over concatenation. */
  lemma {:induction false} RemoveCharAppend(x: string, y: string, a: char)
    ensures RemoveChar(x + y, a) == RemoveChar(x, a) + RemoveChar(y, a)
    decreases |x|
  {
    if x == [] {
      assert x + y == y;
    } else {
      var h := if x[0] == a then [] else [x[0]];
      assert (x + y)[0] == x[0] && (x + y)[1..] == x[1..] + y;
      assert RemoveChar(x + y, a) == h + RemoveChar(x[1..] + y, a);
      assert RemoveChar(x, a) == h + RemoveChar(x[1..], a);
      RemoveCharAppend(x[1..], y, a);
    }
  }

  /** Inserting a into s at j changes nothing once a is removed. */
  lemma RemoveCharInserted(s: string, j: int, a: char)
    requires 0 <= j <= |s|
    ensures RemoveChar(s[..j] + [a] + s[j..], a) == RemoveChar(s, a)
  {
    var u, v := s[..j], s[j..];
    assert u + v == s;
    assert RemoveChar([a], a) == [];
    RemoveCharAppend(u, [a], a);
    assert RemoveChar(u + [a], a) == RemoveChar(u, a);
    RemoveCharAppend(u + [a], v, a);
    RemoveCharAppend(u, v, a);
  }

  /** s's first character, with or without an a after it, before a rest with the same text as s's changes nothing once a is removed. */
  lemma RemoveCharAfterHead(s: string, head: string, rest: string, a: char)
    requires s != []
    requires head == [s[0]] || head == [s[0], a]
    requires RemoveChar(rest, a) == RemoveChar(s[1..], a)
    ensures RemoveChar(head + rest, a) == RemoveChar(s, a)
  {
    RemoveCharAppend(head, rest, a);
    RemoveCharAppend([s[0]], s[1..], a);
    assert [s[0]] + s[1..] == s;
    if head == [s[0], a] {
      RemoveCharAppend([s[0]], [a], a);
      assert [s[0]] + [a] == head;
    }
  }

  /** The text before the first occurrence of sep, or all of s: `s.split(sep)[0]`. */
  function FirstField(s: string, sep: char): (r: string)
    ensures sep !in r
    ensures |r| <= |s| && r == s[..|r|]
    ensures |r| < |s| ==> s[|r|] == sep
  {
    if s == [] || s[0] == sep then [] else [s[0]] + FirstField(s[1..], sep)
  }

  /** The text after the last occurrence of sep, or all of s: `s.split(sep)[-1]`. */
  function LastField(s: string, sep: char): (r: string)
    ensures sep !in r
    ensures |r| <= |s| && r == s[|s| - |r|..]
    ensures |r| < |s| ==> s[|s| - |r| - 1] == sep
    decreases |s|
  {
    if s == [] || s[|s| - 1] == sep then [] else LastField(s[..|s| - 1], sep) + [s[|s| - 1]]
  }

  /** `str.isdigit()`: non-empty and made of digits only. */
  predicate IsDigits(s: string)
  {
    |s| > 0 && forall i :: 0 <= i < |s| ==> IsDigit(s[i])
  }

  function DigitValue(c: char): (n: nat)
    requires IsDigit(c)
    ensures n < 10
  {
    c as int - '0' as int
  }

  function DigitChar(n: nat): (c: char)
    requires n < 10
    ensures IsDigit(c) && DigitValue(c) == n
  {
    ('0' as int + n) as char
  }

  /** The value of a string of decimal digits. */
  function ParseDigits(s: string): nat
    requires forall i :: 0 <= i < |s| ==> IsDigit(s[i])
    decreases |s|
  {
    if s == [] then 0 else 10 * ParseDigits(s[..|s| - 1]) + DigitValue(s[|s| - 1])
  }

  /** `str(n)` for a natural number: no leading zero. */
  function NatStr(n: nat): (s: string)
    ensures IsDigits(s)
    ensures ParseDigits(s) == n
    ensures |s| > 1 ==> s[0] != '0'
  {
    if n < 10 then [DigitChar(n)]
    else
      var s := NatStr(n / 10) + [DigitChar(n % 10)];
      assert s[..|s| - 1] == NatStr(n / 10);
      s
  }

  /** `str(i)` for an integer. */
  function IntStr(i: int): string
  {
    if i < 0 then "-" + NatStr(-i) else NatStr(i)
  }

  /** Two-digit zero-padded rendering, as `%02d` and the `%m %d %H %M %S` directives give. */
  function Pad2(n: nat): (s: string)
    requires n < 100
    ensures |s| == 2 && IsDigits(s) && ParseDigits(s) == n
  {
    var s := [DigitChar(n / 10), DigitChar(n % 10)];
    assert s[..1] == [DigitChar(n / 10)] && s[..1][..0] == [];
    assert ParseDigits(s[..1]) == n / 10;
    s
  }

  /** Parsing the decimal rendering gives the number back. */
  lemma NatStrInjective(m: nat, n: nat)
    requires NatStr(m) == NatStr(n)
    ensures m == n
  {
    assert ParseDigits(NatStr(m)) == m;
  }

  /** A number followed by a separator that is not a digit is read back from the front of the text. */
  lemma NatStrDelimited(m: nat, n: nat, sep: char, x: string, y: string)
    requires !IsDigit(sep)
    requires NatStr(m) + [sep] + x == NatStr(n) + [sep] + y
    ensures m == n
  {
    var a, b := NatStr(m), NatStr(n);
    var s := a + [sep] + x;
    assert s == b + [sep] + y;
    assert forall i :: 0 <= i < |a| ==> s[i] == a[i];
    assert forall i :: 0 <= i < |b| ==> s[i] == b[i];
    assert s[|a|] == sep && s[|b|] == sep;
    assert |a| == |b|;
    assert a == s[..|a|] && b == s[..|b|];
    NatStrInjective(m, n);
  }

  /** The same, after a common prefix. */
  lemma NatStrDelimitedAfter(pre: string, m: nat, n: nat, sep: char, x: string, y: string)
    requires !IsDigit(sep)
    requires pre + NatStr(m) + [sep] + x == pre + NatStr(n) + [sep] + y
    ensures m == n
  {
    var u, v := NatStr(m) + [sep] + x, NatStr(n) + [sep] + y;
    assert pre + NatStr(m) + [sep] + x == pre + u;
    assert pre + NatStr(n) + [sep] + y == pre + v;
    assert u == (pre + u)[|pre|..];
    assert v == (pre + v)[|pre|..];
    NatStrDelimited(m, n, sep, x, y);
  }

  /** `t in s` on strings: t occurs in s as a substring. */
  predicate Contains(s: string, t: string)
    decreases |s|
  {
    t <= s || (s != [] && Contains(s[1..], t))
  }

  /** `s[:n]`: the first n characters, or all of a shorter string. */
  function Take(s: string, n: nat): (r: string)
    ensures |r| == if |s| <= n then |s| else n
    ensures r <= s
  {
    if |s| <= n then s else s[..n]
  }

  /** `int(s)` on a string: surrounding white space, an optional sign, then digits. */
  function ParseInt(s: string): (r: Option<int>)
    ensures IsDigits(s) ==> r == Some(ParseDigits(s))
  {
    var t := Strip(s);
    if IsDigits(t) then Some(ParseDigits(t))
    else if |t| > 1 && t[0] == '-' && IsDigits(t[1..]) then Some(0 - ParseDigits(t[1..]))
    else if |t| > 1 && t[0] == '+' && IsDigits(t[1..]) then Some(ParseDigits(t[1..]))
    else None
  }

  /** `int(str(n))` gives back n. */
  lemma ParseNatStr(n: nat)
    ensures ParseInt(NatStr(n)) == Some(n)
  {
  }
}
