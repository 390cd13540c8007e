/** POSIX path helpers from Python's `posixpath`: `splitext` and `dirname`,
    with '/' as the only separator and '.' as the extension separator. */
module Paths {
  import opened Text

  /** `s.rfind(c)`: the last index holding c, or -1. */
  function LastIndexOf(s: string, c: char): (i: int)
    ensures -1 <= i < |s|
    ensures i >= 0 ==> s[i] == c
    ensures forall j :: i < j < |s| ==> s[j] != c
    decreases |s|
  {
    if |s| == 0 then -1
    else if s[|s| - 1] == c then |s| - 1
    else LastIndexOf(s[..|s| - 1], c)
  }

  predicate AllDots(s: string) {
    forall k :: 0 <= k < |s| ==> s[k] == '.'
  }

  /** A non-empty run of separators only, such as "/" or "//": the root. */
  predicate IsRoot(s: string) {
    |s| > 0 && forall k :: 0 <= k < |s| ==> s[k] == '/'
  }

  /** The final path component (what `os.path.basename` returns). */
  function FinalComponent(p: string): string {
    p[LastIndexOf(p, '/') + 1..]
  }

  /** Some character of p[lo..hi] is not a dot. */
  predicate NonDotBetween(p: string, lo: int, hi: int) {
    exists k :: lo <= k < hi && 0 <= k < |p| && p[k] != '.'
  }

  /** Where `splitext` cuts p: at the last '.' after the last '/', provided
      some character of the final component before that dot is not a dot;
      otherwise at the end, leaving no extension. */
  function ExtStart(p: string): (i: nat)
    ensures i <= |p|
    ensures i < |p| ==> p[i] == '.' && NonDotBetween(p, LastIndexOf(p, '/') + 1, i)
    ensures forall k :: i < k < |p| ==> p[k] != '.' && p[k] != '/'
  {
    var sepIndex := LastIndexOf(p, '/');
    var dotIndex := LastIndexOf(p, '.');
    if dotIndex > sepIndex && NonDotBetween(p, sepIndex + 1, dotIndex) then dotIndex else |p|
  }

  /** `os.path.splitext(p)`: the root and the extension, which is empty or
      a dot followed by neither dots nor separators. */
  function SplitExt(p: string): (r: (string, string))
    ensures r.0 + r.1 == p
    ensures ExtensionShaped(r.1) || r.1 == []
  {
    var i := ExtStart(p);
    (p[..i], p[i..])
  }

  /** An extension is only split off a final component that has a
      character other than a dot in front of it. */
  lemma SplitExtNamesStem(p: string)
    ensures SplitExt(p).1 != [] ==> !AllDots(FinalComponent(SplitExt(p).0))
  {
    var i := ExtStart(p);
    if i < |p| {
      var sepIndex := LastIndexOf(p, '/');
      var root := p[..i];
      LastIndexOfPrefix(p, '/', i);
      assert LastIndexOf(root, '/') == sepIndex;
      var name := FinalComponent(root);
      assert name == p[sepIndex + 1..i];
      var k :| sepIndex + 1 <= k < i && 0 <= k < |p| && p[k] != '.';
      assert name[k - sepIndex - 1] == p[k];
    }
  }

  /** Cutting the string after its last c does not move the last c. */
  lemma {:induction false} LastIndexOfPrefix(s: string, c: char, n: int)
    requires LastIndexOf(s, c) < n <= |s|
    ensures LastIndexOf(s[..n], c) == LastIndexOf(s, c)
    decreases |s|
  {
    if n < |s| {
      assert s[..|s| - 1][..n] == s[..n];
      LastIndexOfPrefix(s[..|s| - 1], c, n);
    } else {
      assert s[..n] == s;
    }
  }

  /** The last c is characterised by its two contract clauses, so two strings
      that agree on where c occurs agree on its last index. */
  lemma {:induction false} LastIndexOfSamePositions(s: string, t: string, c: char)
    requires |s| == |t|
    requires forall k :: 0 <= k < |s| ==> (s[k] == c <==> t[k] == c)
    ensures LastIndexOf(s, c) == LastIndexOf(t, c)
    decreases |s|
  {
    if |s| > 0 && s[|s| - 1] != c {
      LastIndexOfSamePositions(s[..|s| - 1], t[..|t| - 1], c);
    }
  }

  /** The contract of LastIndexOf pins down its result. */
  lemma LastIndexOfIs(s: string, c: char, i: int)
    requires -1 <= i < |s|
    requires i >= 0 ==> s[i] == c
    requires forall j :: i < j < |s| ==> s[j] != c
    ensures LastIndexOf(s, c) == i
  {
  }

  /** A character absent from s[n..] last occurs before n. */
  lemma LastIndexOfBelow(s: string, c: char, n: int)
    requires 0 <= n <= |s|
    requires forall j :: n <= j < |s| ==> s[j] != c
    ensures LastIndexOf(s, c) < n
  {
  }

  lemma NonDotBetweenLower(p: string, lo: int, hi: int)
    ensures NonDotBetween(Lower(p), lo, hi) == NonDotBetween(p, lo, hi)
  {
    LowerSamePositions(p, '.');
  }

  /** Lower-casing keeps every '.' and '/' in place, so `splitext` cuts the
      lower-cased path at the same index. */
  lemma ExtStartLower(p: string)
    ensures ExtStart(Lower(p)) == ExtStart(p)
  {
    var lp := Lower(p);
    LowerSamePositions(p, '/');
    LowerSamePositions(p, '.');
    LastIndexOfSamePositions(p, lp, '/');
    LastIndexOfSamePositions(p, lp, '.');
    NonDotBetweenLower(p, LastIndexOf(p, '/') + 1, LastIndexOf(p, '.'));
  }

  /** `splitext` sees through case: splitting the lower-cased path gives the
      lower-cased parts. */
  lemma SplitExtLower(p: string)
    ensures SplitExt(Lower(p)) == (Lower(SplitExt(p).0), Lower(SplitExt(p).1))
  {
    var i := ExtStart(p);
    ExtStartLower(p);
    LowerSlice(p, 0, i);
    LowerSlice(p, i, |p|);
    assert p[0..i] == p[..i] && p[i..|p|] == p[i..];
    assert Lower(p)[0..i] == Lower(p)[..i] && Lower(p)[i..|p|] == Lower(p)[i..];
  }

  /** True when the final component has a character other than '.' before
      its last n characters. */
  predicate NamedBeforeSuffix(p: string, n: nat) {
    NonDotBetween(p, LastIndexOf(p, '/') + 1, |p| - n)
  }

  /** An extension-shaped string: a dot followed by characters that are
      neither dots nor separators. */
  predicate ExtensionShaped(e: string) {
    |e| > 0 && e[0] == '.' && forall k :: 0 < k < |e| ==> e[k] != '.' && e[k] != '/'
  }

  /** When p ends with an extension-shaped e, `splitext` returns e as the
      extension exactly when the final component names something before e. */
  lemma SplitExtOfSuffix(p: string, e: string)
    requires ExtensionShaped(e) && EndsWith(p, e)
    ensures SplitExt(p).1 == e <==> NamedBeforeSuffix(p, |e|)
  {
    var d := |p| - |e|;
    assert p[d..] == e;
    assert forall k :: d < k < |p| ==> p[k] == e[k - d];
    LastIndexOfIs(p, '.', d);
    LastIndexOfBelow(p, '/', d);
    if NamedBeforeSuffix(p, |e|) {
      assert ExtStart(p) == d;
    } else {
      assert ExtStart(p) == |p|;
    }
  }

  /** A final component that starts with its only dot, such as ".pdf", has
      no extension: leading dots do not start one. */
  lemma LeadingDotIsNotExtension(dir: string, name: string)
    requires forall k :: 0 <= k < |name| ==> name[k] != '.' && name[k] != '/'
    ensures SplitExt(dir + "/." + name).1 == []
    ensures SplitExt("." + name).1 == []
  {
    var p := dir + "/." + name;
    LastIndexOfIs(p, '/', |dir|);
    LastIndexOfIs(p, '.', |dir| + 1);
    assert ExtStart(p) == |p|;
    var q := "." + name;
    LastIndexOfIs(q, '/', -1);
    LastIndexOfIs(q, '.', 0);
    assert ExtStart(q) == |q|;
  }

  /** Python's `rstrip(c)`. */
  function RStrip(s: string, c: char): (r: string)
    ensures |r| <= |s| && r == s[..|r|]
    ensures r == [] || r[|r| - 1] != c
    ensures forall k :: |r| <= k < |s| ==> s[k] == c
  {
    if |s| > 0 && s[|s| - 1] == c then RStrip(s[..|s| - 1], c) else s
  }

  /** `os.path.dirname(p)`: everything up to the last '/', with trailing
      separators removed unless the head is the root. */
  function Dirname(p: string): (r: string)
    ensures |r| <= |p| && r == p[..|r|]
    ensures r == [] <==> LastIndexOf(p, '/') < 0
    ensures r != [] && !IsRoot(r) ==> r[|r| - 1] != '/'
    ensures p != [] && !IsRoot(p) ==> |r| < |p|
    ensures LastIndexOf(p, '/') >= 0 ==> |r| <= LastIndexOf(p, '/') + 1
    ensures forall k :: |r| <= k <= LastIndexOf(p, '/') ==> p[k] == '/'
    ensures IsRoot(p[..LastIndexOf(p, '/') + 1]) ==> r == p[..LastIndexOf(p, '/') + 1]
  {
    var head := p[..LastIndexOf(p, '/') + 1];
    if head != [] && !IsRoot(head) then
      var r := RStrip(head, '/');
      assert r != [] by {
        var k :| 0 <= k < |head| && head[k] != '/';
        assert k < |r|;
      }
      r
    else head
  }
}
