/** Small shared vocabulary: an optional value (JavaScript's `undefined`),
    and the handful of JavaScript string operations the reconciliation code
    relies on, stated over `seq<char>`. */
module Util {

  /** `None` stands for a property that is `undefined` (or `null`). */
  datatype Option<+T> = None | Some(value: T) {
    function GetOr(default: T): T {
      if Some? then value else default
    }
  }

  /** JavaScript renders `undefined` as the text "undefined" when it is
      concatenated into a string. */
  function Show(s: Option<string>): string {
    s.GetOr("undefined")
  }

  /** `s.indexOf(p) === 0`: `p` is a prefix of `s`. */
  predicate StartsWith(s: string, p: string) {
    |p| <= |s| && s[..|p|] == p
  }

  /** `p` occurs in `s` starting at position `k`. */
  predicate OccursAt(s: string, p: string, k: int) {
    0 <= k && k + |p| <= |s| && s[k..k + |p|] == p
  }

  predicate Contains(s: string, p: string) {
    exists k :: 0 <= k <= |s| && OccursAt(s, p, k)
  }

  /** `s.indexOf(p, from)`: the first occurrence of `p` at or after `from`,
      or -1. */
  function IndexOfFrom(s: string, p: string, from: nat): (r: int)
    requires from <= |s|
    decreases |s| - from
    ensures r == -1 || (from <= r && OccursAt(s, p, r))
    ensures r == -1 ==> forall k :: from <= k ==> !OccursAt(s, p, k)
    ensures r != -1 ==> forall k :: from <= k < r ==> !OccursAt(s, p, k)
  {
    if from + |p| > |s| then -1
    else if s[from..from + |p|] == p then from
    else IndexOfFrom(s, p, from + 1)
  }

  function IndexOf(s: string, p: string): int {
    IndexOfFrom(s, p, 0)
  }

  /** `s.replace(p, r)` with a string pattern: only the FIRST occurrence of
      `p` is replaced; without an occurrence `s` is returned unchanged. */
  function ReplaceFirst(s: string, p: string, r: string): string {
    var k := IndexOf(s, p);
    if k < 0 then s else s[..k] + r + s[k + |p|..]
  }

  /** Without an occurrence of the pattern, `replace` changes nothing. */
  lemma ReplaceFirstWithoutOccurrence(s: string, p: string, r: string)
    requires !Contains(s, p)
    ensures ReplaceFirst(s, p, r) == s
  {
  }

  /** When the first occurrence of `p` in `a + p + b` is the one after `a`,
      `replace` turns the string into `a + r + b`: whatever follows, even
      further occurrences of `p` inside `b`, is left alone. */
  lemma {:induction false} ReplaceFirstAt(a: string, p: string, b: string, r: string)
    requires forall k :: 0 <= k < |a| ==> !OccursAt(a + p + b, p, k)
    ensures ReplaceFirst(a + p + b, p, r) == a + r + b
  {
    var s := a + p + b;
    assert s[|a|..|a| + |p|] == p;
    assert OccursAt(s, p, |a|);
    var k := IndexOf(s, p);
    assert k == |a|;
    assert s[..k] == a;
    assert s[k + |p|..] == b;
  }

  /** `replace` does not rewrite a second reference: in a text that holds the
      pattern twice, the second copy survives. */
  lemma ReplaceFirstLeavesSecondOccurrence(p: string, sep: string, r: string)
    ensures ReplaceFirst(p + sep + p, p, r) == r + sep + p
    ensures Contains(ReplaceFirst(p + sep + p, p, r), p)
  {
    ReplaceFirstAt([], p, sep + p, r);
    assert [] + p + (sep + p) == p + sep + p;
    assert [] + r + (sep + p) == r + sep + p;
    assert OccursAt(r + sep + p, p, |r| + |sep|);
  }

  /** `path.join(sep)`. */
  function Join(parts: seq<string>, sep: string): string {
    if |parts| == 0 then ""
    else if |parts| == 1 then parts[0]
    else parts[0] + sep + Join(parts[1..], sep)
  }

  /** JavaScript's `a < b` on two strings: lexicographic on characters, a
      proper prefix being smaller. (Dafny's own `<` on sequences means
      "proper prefix", which is not this.) */
  predicate LexLess(a: string, b: string)
    decreases |a|
  {
    if |a| == 0 then |b| > 0
    else if |b| == 0 then false
    else if a[0] != b[0] then a[0] < b[0]
    else LexLess(a[1..], b[1..])
  }

  lemma {:induction false} LexLessIrreflexive(a: string)
    ensures !LexLess(a, a)
    decreases |a|
  {
    if |a| > 0 {
      LexLessIrreflexive(a[1..]);
    }
  }

  lemma {:induction false} LexLessTransitive(a: string, b: string, c: string)
    requires LexLess(a, b) && LexLess(b, c)
    ensures LexLess(a, c)
    decreases |a|
  {
    if |a| > 0 && |b| > 0 && |c| > 0 && a[0] == b[0] && b[0] == c[0] {
      LexLessTransitive(a[1..], b[1..], c[1..]);
    }
  }

  lemma {:induction false} LexLessTotal(a: string, b: string)
    requires a != b
    ensures LexLess(a, b) || LexLess(b, a)
    decreases |a|
  {
    if |a| > 0 && |b| > 0 && a[0] == b[0] {
      assert a == [a[0]] + a[1..] && b == [b[0]] + b[1..];
      LexLessTotal(a[1..], b[1..]);
    }
  }

  lemma {:induction false} LexLessAsymmetric(a: string, b: string)
    requires LexLess(a, b)
    ensures !LexLess(b, a)
    decreases |a|
  {
    if |a| > 0 && |b| > 0 && a[0] == b[0] {
      LexLessAsymmetric(a[1..], b[1..]);
    }
  }
}
