/**
 * POSIX-style versions of the `os.path` helpers the record keeping relies on:
 * `basename`, `dirname`, `join` (two arguments) and the extension half of `splitext`.
 * The separator is `/` and the extension separator is `.`.
 */
module Paths {

  const Sep: char := '/'
  const ExtSep: char := '.'

  predicate StartsWith(s: string, prefix: string)
  {
    |prefix| <= |s| && s[..|prefix|] == prefix
  }

  predicate EndsWith(s: string, suffix: string)
  {
    |suffix| <= |s| && s[|s| - |suffix|..] == suffix
  }

  /** Every character of `s` is a separator (vacuously true of ""). */
  predicate AllSeps(s: string)
  {
    forall i :: 0 <= i < |s| ==> s[i] == Sep
  }

  /** Some character of `s[lo..hi]` is not an extension separator. */
  predicate HasNonDot(s: string, lo: int, hi: int)
    requires 0 <= lo <= hi <= |s|
  {
    exists k :: lo <= k < hi && s[k] != ExtSep
  }

  /** `str.rfind` for one character: the index of its last occurrence, or -1. */
  function RFind(s: string, c: char): (r: int)
    ensures -1 <= r < |s|
    ensures r >= 0 ==> s[r] == c
    ensures forall j :: r < j < |s| ==> s[j] != c
  {
    if s == [] then -1
    else if s[|s| - 1] == c then |s| - 1
    else RFind(s[..|s| - 1], c)
  }

  /** The last occurrence is unique: any index with the two defining properties is it. */
  lemma RFindIs(s: string, c: char, k: int)
    requires -1 <= k < |s|
    requires k >= 0 ==> s[k] == c
    requires forall j :: k < j < |s| ==> s[j] != c
    ensures RFind(s, c) == k
  {
  }

  /** `os.path.basename`: everything after the last separator. */
  function Basename(p: string): (r: string)
    ensures EndsWith(p, r)
    ensures Sep !in r
    ensures r == p || p[|p| - |r| - 1] == Sep
  {
    p[RFind(p, Sep) + 1..]
  }

  /** `rstrip` of separators. */
  function RStripSeps(s: string): (r: string)
    ensures StartsWith(s, r)
    ensures r == [] || r[|r| - 1] != Sep
    ensures AllSeps(s[|r|..])
  {
    if s != [] && s[|s| - 1] == Sep then
      var t := s[..|s| - 1];
      var r := RStripSeps(t);
      assert s[..|r|] == t[..|r|];
      assert s[|r|..] == t[|r|..] + [Sep];
      r
    else
      assert s[|s|..] == [];
      s
  }

  /** The shapes a directory part can take: empty, separators only, or not ending in one. */
  predicate DirForm(d: string)
  {
    d == [] || AllSeps(d) || d[|d| - 1] != Sep
  }

  /**
   * `os.path.dirname`: the text up to the last separator, with trailing separators
   * removed unless it consists of separators only (so the root stays "/").
   */
  function Dirname(p: string): (r: string)
    ensures StartsWith(p, r)
    ensures DirForm(r)
    ensures r == [] <==> Sep !in p
    ensures |r| + |Basename(p)| <= |p| && AllSeps(p[|r|..|p| - |Basename(p)|])
  {
    var head := p[..RFind(p, Sep) + 1];
    var r := if head != [] && !AllSeps(head) then RStripSeps(head) else head;
    DirnameShape(p, head, r);
    r
  }

  /** The facts behind `Dirname`'s contract, from the last separator and the stripped tail. */
  lemma DirnameShape(p: string, head: string, r: string)
    requires head == p[..RFind(p, Sep) + 1]
    requires r == if head != [] && !AllSeps(head) then RStripSeps(head) else head
    ensures StartsWith(p, r) && DirForm(r) && (r == [] <==> Sep !in p)
    ensures |r| + |Basename(p)| <= |p| && AllSeps(p[|r|..|p| - |Basename(p)|])
  {
    var k := RFind(p, Sep);
    var b := Basename(p);
    assert |head| + |b| == |p|;
    if k == -1 {
      assert Sep !in p by {
        forall j | 0 <= j < |p| ensures p[j] != Sep { }
      }
      assert p[0..|p| - |b|] == [];
    } else {
      assert p[k] == Sep && Sep in p;
      if head != [] && !AllSeps(head) {
        assert StartsWith(head, r) && AllSeps(head[|r|..]);
        assert p[..|r|] == head[..|r|];
        assert p[|r|..|p| - |b|] == head[|r|..];
        assert head[|r|..] == head ==> AllSeps(head);
      } else {
        assert p[|r|..|p| - |b|] == [];
      }
    }
  }

  /** Two-argument `os.path.join`. */
  function Join(a: string, b: string): (r: string)
    ensures EndsWith(r, b)
    ensures StartsWith(b, [Sep]) ==> r == b
    ensures !StartsWith(b, [Sep]) && (a == [] || a[|a| - 1] == Sep) ==> r == a + b
    ensures !StartsWith(b, [Sep]) && a != [] && a[|a| - 1] != Sep ==> r == a + [Sep] + b
  {
    if StartsWith(b, [Sep]) then b
    else if a == [] || a[|a| - 1] == Sep then a + b
    else a + [Sep] + b
  }

  /**
   * The extension that `os.path.splitext` reports. splitext looks for the last `.` after
   * the last separator, that is, inside the final component; the component's leading dots
   * never start an extension. So the extension of a path is that of its basename.
   */
  function Ext(p: string): (r: string)
    ensures r == [] || r[0] == ExtSep
    ensures EndsWith(p, r)
    ensures r != [] ==> |r| < |Basename(p)| && HasNonDot(Basename(p), 0, |Basename(p)| - |r|)
  {
    var b := Basename(p);
    var r := NameExt(b);
    SuffixOfSuffix(p, b, r);
    r
  }

  /** The extension holds one dot, at its start, and no separator; it is shorter than the basename. */
  lemma ExtFacts(p: string)
    ensures var r := Ext(p);
      (r == [] || (ExtSep !in r[1..] && Sep !in r && |r| < |Basename(p)|)) && EndsWith(Basename(p), r)
  {
    SuffixOfSuffix(p, Basename(p), NameExt(Basename(p)));
  }

  /** A suffix of a suffix is a suffix, and it inherits the absence of separators. */
  lemma SuffixOfSuffix(p: string, b: string, r: string)
    requires EndsWith(p, b) && EndsWith(b, r) && Sep !in b
    ensures EndsWith(p, r) && Sep !in r
  {
    assert p[|p| - |r|..] == b[|b| - |r|..];
    forall i | 0 <= i < |r| ensures r[i] != Sep { assert r[i] == b[|b| - |r| + i]; }
  }

  /** The extension of one path component `b`: from its last dot, unless only dots precede it. */
  function NameExt(b: string): (r: string)
    ensures r == [] || (r[0] == ExtSep && ExtSep !in r[1..])
    ensures EndsWith(b, r)
    ensures r != [] ==> |r| < |b|
  {
    var dotIndex := RFind(b, ExtSep);
    if dotIndex >= 0 && HasNonDot(b, 0, dotIndex) then
      NameExtShape(b, dotIndex);
      b[dotIndex..]
    else
      []
  }

  lemma NameExtShape(b: string, dotIndex: int)
    requires dotIndex == RFind(b, ExtSep) && dotIndex >= 0 && HasNonDot(b, 0, dotIndex)
    ensures var r := b[dotIndex..];
      r[0] == ExtSep && ExtSep !in r[1..] && EndsWith(b, r) && |r| < |b|
  {
    var r := b[dotIndex..];
    forall i | 0 <= i < |r[1..]| ensures r[1..][i] != ExtSep {
      assert r[1..][i] == b[dotIndex + 1 + i];
    }
  }

  /** A separator-free name placed under a directory part of any `DirForm` keeps that directory. */
  lemma JoinDirname(d: string, n: string)
    requires DirForm(d) && Sep !in n
    ensures Dirname(Join(d, n)) == d
    ensures Basename(Join(d, n)) == n
  {
    assert !StartsWith(n, [Sep]) by { if |n| > 0 { assert n[0] in n; } }
    if d == [] {
      assert Join(d, n) == n;
      RFindIs(n, Sep, -1);
      assert n[..0] == [];
    } else if d[|d| - 1] == Sep {
      assert Join(d, n) == d + n;
      UnderSeparator(d, n);
    } else {
      assert Join(d, n) == (d + [Sep]) + n;
      UnderSeparator(d + [Sep], n);
      assert (d + [Sep])[..|d|] == d;
      assert RStripSeps(d) == d;
    }
  }

  /** A separator-free name after a text ending in a separator: that text is the head. */
  lemma UnderSeparator(x: string, n: string)
    requires x != [] && x[|x| - 1] == Sep && Sep !in n
    ensures RFind(x + n, Sep) == |x| - 1
    ensures (x + n)[..|x|] == x && (x + n)[|x|..] == n
    ensures Basename(x + n) == n
    ensures Dirname(x + n) == if AllSeps(x) then x else RStripSeps(x)
  {
    var j := x + n;
    forall k | |x| - 1 < k < |j| ensures j[k] != Sep {
      assert j[k] == n[k - |x|];
    }
    RFindIs(j, Sep, |x| - 1);
    assert j[..|x|] == x && j[|x|..] == n;
  }

  /** The extension of a path whose last component is `n` is the extension of `n` alone. */
  lemma ExtUnderDir(x: string, n: string)
    requires x == [] || x[|x| - 1] == Sep
    requires Sep !in n
    ensures Ext(x + n) == Ext(n)
  {
    RFindIs(n, Sep, -1);
    if x != [] {
      RFindIs(x + n, Sep, |x| - 1);
      assert Basename(x + n) == n;
    } else {
      assert x + n == n;
    }
  }

  /** Inside one component, a dotted suffix with no further dot and a stem that is not all dots is the extension. */
  lemma ExtOfDottedName(n: string, e: string)
    requires Sep !in n
    requires |e| >= 1 && e[0] == ExtSep && ExtSep !in e[1..]
    requires EndsWith(n, e) && HasNonDot(n, 0, |n| - |e|)
    ensures Ext(n) == e
  {
    var k := |n| - |e|;
    forall j | k < j < |n| ensures n[j] != ExtSep {
      assert n[j] == e[1..][j - k - 1];
    }
    RFindIs(n, ExtSep, k);
    RFindIs(n, Sep, -1);
  }

  /** A final component whose every dot has only dots before it (`.bashrc`, `...`, `name`) has no extension. */
  lemma NoExtWithLeadingDotsOnly(p: string)
    requires forall k :: 0 <= k < |Basename(p)| && Basename(p)[k] == ExtSep ==> !HasNonDot(Basename(p), 0, k)
    ensures Ext(p) == []
  {
    var b := Basename(p);
    var d := RFind(b, ExtSep);
    if d >= 0 {
      assert b[d] == ExtSep;
    }
  }

  /** The extension of a join is that of the joined separator-free name. */
  lemma ExtOfJoin(d: string, n: string)
    requires Sep !in n
    ensures Ext(Join(d, n)) == Ext(n)
  {
    assert !StartsWith(n, [Sep]) by { if |n| > 0 { assert n[0] in n; } }
    if d == [] || d[|d| - 1] == Sep {
      ExtUnderDir(d, n);
    } else {
      assert Join(d, n) == (d + [Sep]) + n;
      ExtUnderDir(d + [Sep], n);
    }
  }
}
