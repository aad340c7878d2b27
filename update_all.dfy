/**
 * `update_data_all.py`: choosing collectors from the `--sources` argument
 * and running them one after another, a raising collector recorded as a
 * failure without stopping the rest.
 */
module UpdateAll {
  import opened Wrappers
  import opened Text

  /** The keys of `AVAILABLE_COLLECTORS`, in the mapping's order. */
  const COLLECTORS: seq<string> :=
    ["daily_live", "soccer_data_co_uk", "fivethirtyeight", "openfootball",
     "fd_org_history", "kaggle_intl", "thesportsdb"]

  /** The collectors called with `full_refresh`, `since_date` and `logger`; the rest get `logger` only. */
  const INCREMENTAL: set<string> := {"daily_live", "fd_org_history", "thesportsdb"}

  /** `s.split(sep)`: always one more piece than there are separators. */
  function Split(s: string, sep: char): (parts: seq<string>)
    ensures |parts| >= 1
    ensures forall i :: 0 <= i < |parts| ==> sep !in parts[i]
    decreases |s|
  {
    var f := FirstField(s, sep);
    if |f| == |s| then [s] else [f] + Split(s[|f| + 1..], sep)
  }

  /** `sep.join(parts)`. */
  function Join(parts: seq<string>, sep: char): string
  {
    if parts == [] then "" else if |parts| == 1 then parts[0] else parts[0] + [sep] + Join(parts[1..], sep)
  }

  /** Splitting loses nothing: joining the pieces back gives the text. */
  lemma {:induction false} SplitJoin(s: string, sep: char)
    ensures Join(Split(s, sep), sep) == s
    decreases |s|
  {
    var f := FirstField(s, sep);
    if |f| < |s| {
      var rest := s[|f| + 1..];
      SplitJoin(rest, sep);
      assert s == f + [sep] + rest;
    }
  }

  /** The names of `names` that are known collectors, in the order given. */
  function Known(names: seq<string>): (r: seq<string>)
    ensures forall x :: x in r <==> x in names && x in COLLECTORS
    ensures |r| <= |names|
  {
    if names == [] then []
    else Known(names[..|names| - 1]) + (if names[|names| - 1] in COLLECTORS then [names[|names| - 1]] else [])
  }

  function StripAll(names: seq<string>): (r: seq<string>)
    ensures |r| == |names|
    ensures forall i :: 0 <= i < |names| ==> r[i] == Strip(names[i])
  {
    if names == [] then [] else [Strip(names[0])] + StripAll(names[1..])
  }

  /** Lines 131-142: the collectors `--sources` selects. */
  function Selection(sources: string): (r: seq<string>)
  {
    var s := Lower(sources);
    if s == "all" then COLLECTORS else Known(StripAll(Split(s, ',')))
  }

  /**
   * "all", in any letter case, selects every collector in the mapping's
   * order; otherwise a name is selected exactly when it is a known collector
   * and some comma-separated piece of the lower-cased argument strips to it.
   */
  lemma SelectionSpec(sources: string)
    ensures Lower(sources) == "all" ==> Selection(sources) == COLLECTORS
    ensures Lower(sources) != "all" ==> forall x ::
      x in Selection(sources) <==> x in COLLECTORS && exists p :: p in Split(Lower(sources), ',') && Strip(p) == x
    ensures forall x :: x in Selection(sources) ==> x in COLLECTORS
  {
    var s := Lower(sources);
    if s != "all" {
      StripAllMembers(Split(s, ','));
    }
  }

  /** The stripped pieces are exactly the pieces' stripped forms. */
  lemma StripAllMembers(pieces: seq<string>)
    ensures forall x :: x in StripAll(pieces) <==> exists p :: p in pieces && Strip(p) == x
  {
    forall x ensures x in StripAll(pieces) <==> exists p :: p in pieces && Strip(p) == x {
      if x in StripAll(pieces) {
        var i :| 0 <= i < |pieces| && StripAll(pieces)[i] == x;
        assert pieces[i] in pieces;
      }
      if exists p :: p in pieces && Strip(p) == x {
        var p :| p in pieces && Strip(p) == x;
        var i :| 0 <= i < |pieces| && pieces[i] == p;
        assert StripAll(pieces)[i] == x;
      }
    }
  }

  /** `--sources aLL` runs everything, like `all`. */
  lemma AllIgnoresCase()
    ensures Selection("aLL") == COLLECTORS
  {
    assert Lower("aLL") == "all";
  }

  /**
   * The known names keep the order they were given in, duplicates included:
   * selecting from two lists one after the other is selecting from both.
   */
  lemma {:induction false} KnownAppend(a: seq<string>, b: seq<string>)
    ensures Known(a + b) == Known(a) + Known(b)
    decreases |b|
  {
    if b == [] {
      assert a + b == a;
    } else {
      var init, last := b[..|b| - 1], b[|b| - 1];
      var tail := if last in COLLECTORS then [last] else [];
      KnownAppend(a, init);
      assert (a + b)[..|a + b| - 1] == a + init && (a + b)[|a + b| - 1] == last;
      assert Known(a + b) == Known(a + init) + tail;
      assert Known(b) == Known(init) + tail;
      assert Known(a) + Known(init) + tail == Known(a) + (Known(init) + tail);
    }
  }

  /** The keyword arguments a collector's main function is called with. */
  datatype Call = FullCall(fullRefresh: bool, sinceDate: Option<string>) | LoggerCall

  /**
   * What running the collectors depends on: the command-line flags, the
   * `__name__` of each collector's function, and whether a call raises.
   */
  datatype Env = Env(
    full: bool, since: Option<string>,
    funcName: string -> string,
    raises: (string, Call) -> bool)

  function CallFor(env: Env, name: string): (c: Call)
    ensures c.FullCall? <==> name in INCREMENTAL
    ensures c.FullCall? ==> c == FullCall(env.full, env.since)
  {
    if name in INCREMENTAL then FullCall(env.full, env.since) else LoggerCall
  }

  /** Line 159: a function named `<lambda>` or `pass` stands for a collector that was not imported. */
  predicate Placeholder(env: Env, name: string)
  {
    env.funcName(name) == "<lambda>" || env.funcName(name) == "pass"
  }

  /** A selected collector fails when it is a placeholder or its call raises. */
  predicate Fails(env: Env, name: string)
  {
    Placeholder(env, name) || env.raises(name, CallFor(env, name))
  }

  function FailedOf(env: Env, sel: seq<string>): seq<string>
  {
    if sel == [] then [] else FailedOf(env, sel[..|sel| - 1]) + (if Fails(env, sel[|sel| - 1]) then [sel[|sel| - 1]] else [])
  }

  function SucceededOf(env: Env, sel: seq<string>): seq<string>
  {
    if sel == [] then [] else SucceededOf(env, sel[..|sel| - 1]) + (if Fails(env, sel[|sel| - 1]) then [] else [sel[|sel| - 1]])
  }

  /** The calls made, in order: every selected collector but the placeholders. */
  function CallsOf(env: Env, sel: seq<string>): seq<(string, Call)>
  {
    if sel == [] then []
    else
      var last := sel[|sel| - 1];
      CallsOf(env, sel[..|sel| - 1]) + (if Placeholder(env, last) then [] else [(last, CallFor(env, last))])
  }

  /**
   * Every selected collector ends up in exactly one of the two lists: the
   * failed ones are those that fail, the successful ones the others, each
   * occurrence counted once.
   */
  lemma {:induction false} Partition(env: Env, sel: seq<string>)
    ensures multiset(FailedOf(env, sel)) + multiset(SucceededOf(env, sel)) == multiset(sel)
    ensures forall x :: x in FailedOf(env, sel) <==> x in sel && Fails(env, x)
    ensures forall x :: x in SucceededOf(env, sel) <==> x in sel && !Fails(env, x)
  {
    if sel != [] {
      var init := sel[..|sel| - 1];
      Partition(env, init);
      assert sel == init + [sel[|sel| - 1]];
    }
  }

  /** Only placeholders are not called; each call carries the arguments its name calls for. */
  lemma {:induction false} CallsSpec(env: Env, sel: seq<string>)
    ensures forall n, c :: (n, c) in CallsOf(env, sel) ==> n in sel && !Placeholder(env, n) && c == CallFor(env, n)
    ensures forall n :: n in sel && !Placeholder(env, n) ==> (n, CallFor(env, n)) in CallsOf(env, sel)
  {
    if sel != [] {
      var init := sel[..|sel| - 1];
      CallsSpec(env, init);
      assert sel == init + [sel[|sel| - 1]];
    }
  }

  /** The first loop of `run_selected_collectors`, building `collectors_to_run`. */
  method SelectCollectors(sources: string) returns (toRun: seq<string>)
    ensures toRun == Selection(sources)
  {
    var s := Lower(sources);
    if s == "all" {
      return COLLECTORS;
    }
    var names := StripAll(Split(s, ','));
    toRun := [];
    var i := 0;
    while i < |names|
      invariant 0 <= i <= |names|
      invariant toRun == Known(names[..i])
    {
      assert names[..i + 1][..i] == names[..i];
      if names[i] in COLLECTORS {
        toRun := toRun + [names[i]];
      }
      i := i + 1;
    }
    assert names[..|names|] == names;
  }

  /**
   * `run_selected_collectors`: the selected collectors are run in order;
   * placeholders and raising calls are recorded as failed, the others as
   * successful, and the result is true exactly when nothing failed. An empty
   * selection runs nothing and is a success.
   */
  method RunSelectedCollectors(sources: string, env: Env)
    returns (ok: bool, calls: seq<(string, Call)>, failed: seq<string>, succeeded: seq<string>)
    ensures var sel := Selection(sources);
      failed == FailedOf(env, sel) && succeeded == SucceededOf(env, sel) && calls == CallsOf(env, sel)
    ensures ok <==> failed == []
    ensures Selection(sources) == [] ==> ok && calls == []
  {
    var toRun := SelectCollectors(sources);
    calls, failed, succeeded := [], [], [];
    if toRun == [] {
      return true, calls, failed, succeeded;
    }
    var i := 0;
    while i < |toRun|
      invariant 0 <= i <= |toRun|
      invariant failed == FailedOf(env, toRun[..i])
      invariant succeeded == SucceededOf(env, toRun[..i])
      invariant calls == CallsOf(env, toRun[..i])
    {
      var name := toRun[i];
      assert toRun[..i + 1][..i] == toRun[..i];
      if Placeholder(env, name) {
        failed := failed + [name];
      } else {
        var call := if name in INCREMENTAL then FullCall(env.full, env.since) else LoggerCall;
        calls := calls + [(name, call)];
        if env.raises(name, call) {
          failed := failed + [name];
        } else {
          succeeded := succeeded + [name];
        }
      }
      i := i + 1;
    }
    assert toRun[..|toRun|] == toRun;
    ok := failed == [];
  }

  /** The run reports success exactly when every selected collector is a real function whose call returns. */
  lemma NoFailureIff(env: Env, sel: seq<string>)
    ensures FailedOf(env, sel) == [] <==>
      forall x :: x in sel ==> !Placeholder(env, x) && !env.raises(x, CallFor(env, x))
  {
    Partition(env, sel);
    if FailedOf(env, sel) != [] {
      assert FailedOf(env, sel)[0] in FailedOf(env, sel);
    }
  }
}
