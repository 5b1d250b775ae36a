/**
 * The string rewriting `_clean_path` applies to a user-typed path before handing it to
 * `os.path.normpath`, which is an opaque parameter here.
 */
module PathCleaning {
  import opened Paths

  const Quote: char := '\''
  const DoubleQuote: char := '"'

  /** Some position holds two adjacent single quotes. */
  predicate HasDoubledQuote(s: string)
  {
    exists i :: 0 <= i < |s| - 1 && s[i] == Quote && s[i + 1] == Quote
  }

  /** `s` with every single quote removed. */
  function NonQuotes(s: string): (r: string)
    ensures |r| <= |s|
  {
    if s == [] then [] else (if s[0] == Quote then [] else [s[0]]) + NonQuotes(s[1..])
  }

  /** `s.replace("''", "'")`: left to right, non-overlapping. */
  function CollapseDoubled(s: string): (r: string)
    ensures |r| <= |s|
    ensures r == s <==> !HasDoubledQuote(s)
    ensures NonQuotes(r) == NonQuotes(s)
  {
    if |s| >= 2 && s[0] == Quote && s[1] == Quote then
      var rest := CollapseDoubled(s[2..]);
      assert HasDoubledQuote(s);
      [Quote] + rest
    else if s == [] then
      []
    else
      var rest := CollapseDoubled(s[1..]);
      assert HasDoubledQuote(s) <==> HasDoubledQuote(s[1..]) by {
        if HasDoubledQuote(s) {
          var i :| 0 <= i < |s| - 1 && s[i] == Quote && s[i + 1] == Quote;
          assert i != 0;
          assert s[1..][i - 1] == Quote && s[1..][i] == Quote;
        }
        if HasDoubledQuote(s[1..]) {
          var i :| 0 <= i < |s[1..]| - 1 && s[1..][i] == Quote && s[1..][i + 1] == Quote;
          assert s[i + 1] == Quote && s[i + 2] == Quote;
        }
      }
      assert [s[0]] + s[1..] == s;
      [s[0]] + rest
  }

  /** Step 1: drop one leading "& " (left by a PowerShell drag-and-drop). */
  function StripCallOperator(s: string): string
  {
    if StartsWith(s, "& ") then s[2..] else s
  }

  /** Both ends hold the same quote character (a lone quote counts). */
  predicate Quoted(s: string)
  {
    (StartsWith(s, [Quote]) && EndsWith(s, [Quote]))
    || (StartsWith(s, [DoubleQuote]) && EndsWith(s, [DoubleQuote]))
  }

  /** Step 2: drop one surrounding pair of matching quotes; Python's `"'"[1:-1]` is "". */
  function StripQuotes(s: string): string
  {
    if Quoted(s) then (if |s| < 2 then [] else s[1..|s| - 1]) else s
  }

  /** The three rewriting steps in order; the guard `"''" in path` only skips a no-op replace. */
  function PreClean(path: string): (r: string)
    ensures |r| <= |path|
    ensures !StartsWith(path, "& ") && !Quoted(path) && !HasDoubledQuote(path) ==> r == path
    ensures NonQuotes(r) == NonQuotes(StripQuotes(StripCallOperator(path)))
  {
    var p1 := StripCallOperator(path);
    var p2 := StripQuotes(p1);
    if HasDoubledQuote(p2) then CollapseDoubled(p2) else p2
  }

  /** `_clean_path`, with `os.path.normpath` supplied as `normpath`. */
  function CleanPath(path: string, normpath: string -> string): (r: string)
    ensures !StartsWith(path, "& ") && !Quoted(path) && !HasDoubledQuote(path) ==> r == normpath(path)
    ensures r == normpath(CollapseDoubled(StripQuotes(StripCallOperator(path))))
  {
    normpath(PreClean(path))
  }

  /** Skipping the replace when no "''" occurs gives the same result as always replacing. */
  lemma GuardIsNoOp(p: string)
    ensures PreClean(p) == CollapseDoubled(StripQuotes(StripCallOperator(p)))
  {
  }

  /** A path with none of the three patterns reaches `normpath` unchanged. */
  lemma PlainPathUnchanged(path: string)
    requires !StartsWith(path, "& ") && !Quoted(path) && !HasDoubledQuote(path)
    ensures forall normpath: string -> string :: CleanPath(path, normpath) == normpath(path)
  {
  }

  /** Exactly one leading "& " is removed, even when the rest starts with another. */
  lemma OneCallOperatorRemoved(rest: string)
    ensures PreClean("& " + rest) == CollapseDoubled(StripQuotes(rest))
  {
    assert ("& " + rest)[2..] == rest;
    GuardIsNoOp("& " + rest);
  }

  /** A matched pair of quotes is removed once; a lone quote becomes empty. */
  lemma OneQuotePairRemoved(inner: string, q: char)
    requires q == Quote || q == DoubleQuote
    ensures StripQuotes([q] + inner + [q]) == inner
    ensures StripQuotes([q]) == []
  {
    var s := [q] + inner + [q];
    assert s[..1] == [q] && s[|s| - 1..] == [q];
    assert s[1..|s| - 1] == inner;
  }

  /** `s` with every single quote written twice. */
  function DoubleEachQuote(s: string): (r: string)
    ensures NonQuotes(r) == NonQuotes(s)
  {
    if s == [] then []
    else
      assert [s[0]] + s[1..] == s;
      (if s[0] == Quote then [Quote, Quote] else [s[0]]) + DoubleEachQuote(s[1..])
  }

  /** The replace undoes the doubling of every quote: each `''` becomes exactly one `'`. */
  lemma {:induction false} CollapseUndoesDoubling(t: string)
    ensures CollapseDoubled(DoubleEachQuote(t)) == t
  {
    if t != [] {
      var rest := DoubleEachQuote(t[1..]);
      CollapseUndoesDoubling(t[1..]);
      if t[0] == Quote {
        var d := [Quote, Quote] + rest;
        assert DoubleEachQuote(t) == d;
        assert d[2..] == rest;
      } else {
        var d := [t[0]] + rest;
        assert DoubleEachQuote(t) == d;
        assert d[1..] == rest;
      }
      assert [t[0]] + t[1..] == t;
    }
  }

  /** The replace is not idempotent: three quotes become two, which still hold a pair. */
  lemma CollapseNotIdempotent()
    ensures CollapseDoubled("'''") == "''"
    ensures HasDoubledQuote(CollapseDoubled("'''"))
  {
    assert CollapseDoubled("'") == "'";
    assert HasDoubledQuote("''") by { assert "''"[0] == Quote && "''"[1] == Quote; }
  }
}
