/** `Array.prototype.sort` with a comparator, and the "drop a neighbour that
    compares equal" pass the reconciliation code runs after sorting.

    The library sort is modelled as a stable insertion sort driven by
    `less(a, b)`, which stands for `compare(a, b) < 0`. For a comparator
    that is a strict order on the elements being sorted the result is the
    unique stable sorted permutation, which is what a stable engine sort
    produces; for an inconsistent comparator JavaScript leaves the order to
    the engine and this is one admissible choice. */
module Sorting {

  /** No later element is strictly smaller than an earlier one. */
  ghost predicate SortedBy<T>(s: seq<T>, less: (T, T) -> bool) {
    forall i, j :: 0 <= i < j < |s| ==> !less(s[j], s[i])
  }

  /** `less` is irreflexive and transitive on the elements of `xs`. */
  ghost predicate StrictOn<T>(less: (T, T) -> bool, xs: multiset<T>) {
    && (forall a :: a in xs ==> !less(a, a))
    && (forall a, b, c :: a in xs && b in xs && c in xs && less(a, b) && less(b, c) ==> less(a, c))
  }

  /** Puts `x` in front of the first element it is strictly smaller than,
      so after every element it ties with. */
  function Insert<T>(x: T, s: seq<T>, less: (T, T) -> bool): (r: seq<T>)
    ensures |r| == |s| + 1
    ensures multiset(r) == multiset(s) + multiset{x}
  {
    if s == [] || less(x, s[0]) then [x] + s
    else
      assert s == [s[0]] + s[1..];
      [s[0]] + Insert(x, s[1..], less)
  }

  /** The sort: insert the elements one after another, left to right. */
  function SortBy<T>(s: seq<T>, less: (T, T) -> bool): (r: seq<T>)
    ensures |r| == |s|
    ensures multiset(r) == multiset(s)
  {
    if s == [] then []
    else
      assert s == s[..|s| - 1] + [s[|s| - 1]];
      Insert(s[|s| - 1], SortBy(s[..|s| - 1], less), less)
  }

  lemma StrictOnSubset<T>(less: (T, T) -> bool, xs: multiset<T>, ys: multiset<T>)
    requires StrictOn(less, ys) && xs <= ys
    ensures StrictOn(less, xs)
  {
  }

  /** `x` goes in front: nothing in `s` is smaller than `x`. */
  lemma InsertFrontSorted<T>(x: T, s: seq<T>, less: (T, T) -> bool)
    requires s != [] && less(x, s[0])
    requires SortedBy(s, less)
    requires StrictOn(less, multiset(s) + multiset{x})
    ensures SortedBy([x] + s, less)
  {
    var r := [x] + s;
    forall j | 1 <= j < |r| ensures !less(r[j], x) {
      var y := s[j - 1];
      assert r[j] == y;
      assert y in multiset(s) && s[0] in multiset(s);
      assert !less(y, s[0]) by {
        if j - 1 == 0 {
          assert y == s[0];
        }
      }
    }
  }

  /** `x` goes after the head: the head is not larger than anything behind it. */
  lemma InsertLaterSorted<T>(x: T, h: T, u: seq<T>, t: seq<T>, less: (T, T) -> bool)
    requires !less(x, h)
    requires SortedBy([h] + t, less)
    requires SortedBy(u, less)
    requires multiset(u) == multiset(t) + multiset{x}
    ensures SortedBy([h] + u, less)
  {
    var r := [h] + u;
    forall j | 1 <= j < |r| ensures !less(r[j], h) {
      var y := u[j - 1];
      assert r[j] == y && r[0] == h;
      assert y in multiset(u);
      if y != x {
        assert y in multiset(t);
        var m :| 0 <= m < |t| && t[m] == y;
        assert ([h] + t)[m + 1] == y && ([h] + t)[0] == h;
      }
    }
    forall i, j | 1 <= i < j < |r| ensures !less(r[j], r[i]) {
      assert r[j] == u[j - 1] && r[i] == u[i - 1];
    }
  }

  lemma {:induction false} InsertSorted<T>(x: T, s: seq<T>, less: (T, T) -> bool)
    requires SortedBy(s, less)
    requires StrictOn(less, multiset(s) + multiset{x})
    ensures SortedBy(Insert(x, s, less), less)
    decreases |s|
  {
    if s == [] {
    } else if less(x, s[0]) {
      InsertFrontSorted(x, s, less);
    } else {
      var t := s[1..];
      assert s == [s[0]] + t;
      assert multiset(t) + multiset{x} <= multiset(s) + multiset{x};
      StrictOnSubset(less, multiset(t) + multiset{x}, multiset(s) + multiset{x});
      assert SortedBy(t, less);
      InsertSorted(x, t, less);
      InsertLaterSorted(x, s[0], Insert(x, t, less), t, less);
    }
  }

  /** With a comparator that is a strict order on the input, the result is
      sorted. Together with the permutation stated on `SortBy` itself, this
      is what `Array.prototype.sort` promises. */
  lemma {:induction false} SortBySorted<T>(s: seq<T>, less: (T, T) -> bool)
    requires StrictOn(less, multiset(s))
    ensures SortedBy(SortBy(s, less), less)
    decreases |s|
  {
    if s != [] {
      var p := s[..|s| - 1];
      assert s == p + [s[|s| - 1]];
      assert multiset(s) == multiset(p) + multiset{s[|s| - 1]};
      StrictOnSubset(less, multiset(p), multiset(s));
      SortBySorted(p, less);
      InsertSorted(s[|s| - 1], SortBy(p, less), less);
    }
  }

  /** The elements at index `k` and beyond that survive the backward splice
      loop: each one is dropped when it compares equal (`same`) to its
      left-hand neighbour in the input. */
  function KeptFrom<T>(s: seq<T>, k: nat, same: (T, T) -> bool): seq<T>
    requires 1 <= k
    decreases |s| - k
  {
    if k >= |s| then []
    else (if same(s[k], s[k - 1]) then [] else [s[k]]) + KeptFrom(s, k + 1, same)
  }

  /** The result of the splice loop on the whole array. */
  function DedupAdjacent<T>(s: seq<T>, same: (T, T) -> bool): seq<T> {
    if |s| == 0 then [] else [s[0]] + KeptFrom(s, 1, same)
  }

  /** `for (i = a.length - 1; i > 0; i--) if (same(a[i], a[i-1])) a.splice(i, 1);`
      Splicing at `i` leaves every index below `i` in place, so each element
      is compared with its neighbour in the input. */
  method RemoveAdjacentDuplicates<T>(a: seq<T>, same: (T, T) -> bool) returns (m: seq<T>)
    ensures m == DedupAdjacent(a, same)
  {
    m := a;
    if |a| == 0 {
      return;
    }
    var i := |a| - 1;
    while i > 0
      invariant 0 <= i < |a|
      invariant m == a[..i + 1] + KeptFrom(a, i + 1, same)
      decreases i
    {
      assert m[i] == a[i] && m[i - 1] == a[i - 1];
      if same(m[i], m[i - 1]) {
        m := m[..i] + m[i + 1..];
        assert m == a[..i] + KeptFrom(a, i + 1, same);
      } else {
        assert m == a[..i] + [a[i]] + KeptFrom(a, i + 1, same);
      }
      assert a[..i] == a[..i - 1 + 1];
      i := i - 1;
    }
    assert a[..1] == [a[0]];
  }

  /** Each survivor of the splice loop comes from the input, in the input's
      order, and no survivor compares equal to the survivor before it when
      `same` holds of adjacent equal-keyed inputs transitively. Stated here:
      the survivors are a sub-multiset of the input and the first element
      always survives. */
  lemma {:induction false} KeptFromSubset<T>(s: seq<T>, k: nat, same: (T, T) -> bool)
    requires 1 <= k <= |s|
    ensures multiset(KeptFrom(s, k, same)) <= multiset(s[k..])
    decreases |s| - k
  {
    if k < |s| {
      KeptFromSubset(s, k + 1, same);
      assert s[k..] == [s[k]] + s[k + 1..];
    }
  }

  lemma DedupAdjacentSubset<T>(s: seq<T>, same: (T, T) -> bool)
    ensures multiset(DedupAdjacent(s, same)) <= multiset(s)
    ensures |s| > 0 ==> |DedupAdjacent(s, same)| > 0 && DedupAdjacent(s, same)[0] == s[0]
  {
    if |s| > 0 {
      KeptFromSubset(s, 1, same);
      assert s == [s[0]] + s[1..];
    }
  }

  /** `same` is symmetric and transitive on the elements of `xs`. */
  ghost predicate EquivalenceOn<T>(same: (T, T) -> bool, xs: multiset<T>) {
    && (forall a, b :: a in xs && b in xs && same(a, b) ==> same(b, a))
    && (forall a, b, c :: a in xs && b in xs && c in xs && same(a, b) && same(b, c) ==> same(a, c))
  }

  /** No element compares equal to the one before it. */
  ghost predicate NoAdjacentSame<T>(s: seq<T>, same: (T, T) -> bool) {
    forall i :: 0 < i < |s| ==> !same(s[i], s[i - 1])
  }

  lemma PrependSorted<T>(x: T, t: seq<T>, less: (T, T) -> bool)
    requires SortedBy(t, less)
    requires forall y :: y in t ==> !less(y, x)
    ensures SortedBy([x] + t, less)
  {
    var r := [x] + t;
    forall i, j | 0 <= i < j < |r| ensures !less(r[j], r[i]) {
      assert r[j] == t[j - 1] && r[j] in t;
      if i > 0 {
        assert r[i] == t[i - 1];
      }
    }
  }

  lemma {:induction false} KeptFromSorted<T>(s: seq<T>, k: nat, same: (T, T) -> bool, less: (T, T) -> bool)
    requires 1 <= k <= |s| && SortedBy(s, less)
    ensures SortedBy(KeptFrom(s, k, same), less)
    ensures forall y :: y in KeptFrom(s, k, same) ==> !less(y, s[k - 1])
    decreases |s| - k
  {
    if k < |s| {
      var rest := KeptFrom(s, k + 1, same);
      KeptFromSorted(s, k + 1, same, less);
      KeptFromSubset(s, k + 1, same);
      forall y | y in rest ensures !less(y, s[k]) && !less(y, s[k - 1]) {
        assert y in multiset(s[k + 1..]);
        var m :| 0 <= m < |s[k + 1..]| && s[k + 1..][m] == y;
        assert s[k + 1 + m] == y;
      }
      if !same(s[k], s[k - 1]) {
        PrependSorted(s[k], rest, less);
      }
    }
  }

  /** Dropping neighbours keeps a sorted array sorted. */
  lemma DedupAdjacentSorted<T>(s: seq<T>, same: (T, T) -> bool, less: (T, T) -> bool)
    requires SortedBy(s, less)
    ensures SortedBy(DedupAdjacent(s, same), less)
  {
    if |s| > 0 {
      KeptFromSorted(s, 1, same, less);
      PrependSorted(s[0], KeptFrom(s, 1, same), less);
    }
  }

  lemma {:induction false} KeptFromNoAdjacent<T>(s: seq<T>, k: nat, same: (T, T) -> bool)
    requires 1 <= k <= |s| && EquivalenceOn(same, multiset(s))
    ensures NoAdjacentSame(KeptFrom(s, k, same), same)
    ensures KeptFrom(s, k, same) != [] ==> !same(KeptFrom(s, k, same)[0], s[k - 1])
    decreases |s| - k
  {
    if k < |s| {
      var rest := KeptFrom(s, k + 1, same);
      KeptFromNoAdjacent(s, k + 1, same);
      if rest != [] {
        KeptFromSubset(s, k + 1, same);
        assert rest[0] in multiset(s[k + 1..]);
        assert multiset(s[k + 1..]) <= multiset(s) by {
          assert s == s[..k + 1] + s[k + 1..];
        }
        assert s[k] in multiset(s) && s[k - 1] in multiset(s);
      }
      if !same(s[k], s[k - 1]) {
        var r := [s[k]] + rest;
        forall i | 0 < i < |r| ensures !same(r[i], r[i - 1]) {
          if i > 1 {
            assert r[i] == rest[i - 1] && r[i - 1] == rest[i - 2];
          }
        }
      }
    }
  }

  /** When `same` is an equivalence, no two neighbours of the result
      compare equal. */
  lemma DedupAdjacentNoAdjacent<T>(s: seq<T>, same: (T, T) -> bool)
    requires EquivalenceOn(same, multiset(s))
    ensures NoAdjacentSame(DedupAdjacent(s, same), same)
  {
    if |s| > 0 {
      KeptFromNoAdjacent(s, 1, same);
      var r := DedupAdjacent(s, same);
      forall i | 0 < i < |r| ensures !same(r[i], r[i - 1]) {
        if i > 1 {
          assert r[i] == KeptFrom(s, 1, same)[i - 1] && r[i - 1] == KeptFrom(s, 1, same)[i - 2];
        }
      }
    }
  }

  /** `x` survives in `r`, or something that compares equal to it does. */
  ghost predicate Represented<T>(r: seq<T>, x: T, same: (T, T) -> bool)
  {
    exists y :: y in r && (y == x || same(x, y))
  }

  lemma {:induction false} KeptFromKeeps<T>(s: seq<T>, k: nat, i: nat, same: (T, T) -> bool)
    requires 1 <= k <= i < |s| && !same(s[i], s[i - 1])
    ensures s[i] in KeptFrom(s, k, same)
    decreases i - k
  {
    if k < i {
      KeptFromKeeps(s, k + 1, i, same);
    }
  }

  lemma {:induction false} DedupAdjacentCoversAt<T>(s: seq<T>, i: int, same: (T, T) -> bool)
    requires 0 <= i < |s| && EquivalenceOn(same, multiset(s))
    ensures Represented(DedupAdjacent(s, same), s[i], same)
    decreases i
  {
    var r := DedupAdjacent(s, same);
    if i == 0 {
      assert r[0] == s[0] && r[0] in r;
    } else if !same(s[i], s[i - 1]) {
      KeptFromKeeps(s, 1, i, same);
      assert s[i] in r;
    } else {
      DedupAdjacentCoversAt(s, i - 1, same);
      var y :| y in r && (y == s[i - 1] || same(s[i - 1], y));
      DedupAdjacentSubset(s, same);
      assert y in multiset(r);
      assert s[i] in multiset(s) && s[i - 1] in multiset(s);
    }
  }

  /** When `same` is an equivalence, every input element is kept or has
      an equal survivor. */
  lemma DedupAdjacentCovers<T>(s: seq<T>, same: (T, T) -> bool)
    requires EquivalenceOn(same, multiset(s))
    ensures forall i :: 0 <= i < |s| ==> Represented(DedupAdjacent(s, same), s[i], same)
  {
    forall i | 0 <= i < |s|
      ensures Represented(DedupAdjacent(s, same), s[i], same)
    {
      DedupAdjacentCoversAt(s, i, same);
    }
  }
}
