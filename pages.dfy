/** Collecting resources from several bundles without repeats: the extra
    pages `search` fetches (keyed by `type/id`), and the candidate matches
    `reconcile` gathers from its queries (keyed by `id` alone). Also the
    choice of the best candidate. */
module Pages {
  import opened Util
  import opened Records

  /** `resource.resourceType + '/' + resource.id`, the key of the page merge. */
  function EntryKey(r: Rec): string {
    r.resourceType + "/" + r.id
  }

  /** `resource.id`, the key of the candidate list. */
  function IdKey(r: Rec): string {
    r.id
  }

  /** The keys of a list of resources, in order. */
  function Keys(s: seq<Rec>, key: Rec -> string): (r: seq<string>)
    ensures |r| == |s|
    ensures forall i :: 0 <= i < |s| ==> r[i] == key(s[i])
  {
    if s == [] then [] else Keys(s[..|s| - 1], key) + [key(s[|s| - 1])]
  }

  /** The list of keys seen so far and the resources kept so far. */
  datatype Gathered = Gathered(ids: seq<string>, entries: seq<Rec>)

  /** `if (ids.indexOf(k) == -1) { ids.push(k); entries.push(r); }` */
  function Absorb(g: Gathered, r: Rec, key: Rec -> string): Gathered {
    if key(r) in g.ids then g else Gathered(g.ids + [key(r)], g.entries + [r])
  }

  /** The resources `rs` absorbed one after another. */
  function AbsorbAll(g: Gathered, rs: seq<Rec>, key: Rec -> string): Gathered {
    if rs == [] then g else Absorb(AbsorbAll(g, rs[..|rs| - 1], key), rs[|rs| - 1], key)
  }

  /** The entry lists of several bundles, one after another, skipping
      bundles without an entry list. */
  function FlattenPresent(bundles: seq<Option<seq<Rec>>>): seq<Rec> {
    if bundles == [] then []
    else
      var last := bundles[|bundles| - 1];
      FlattenPresent(bundles[..|bundles| - 1]) + (if last.Some? then last.value else [])
  }

  lemma AbsorbAllAppend(g: Gathered, rs: seq<Rec>, r: Rec, key: Rec -> string)
    ensures AbsorbAll(g, rs + [r], key) == Absorb(AbsorbAll(g, rs, key), r, key)
  {
    assert (rs + [r])[..|rs|] == rs;
  }

  /** Absorbing keeps the ids equal to the keys of the kept list, and the
      kept list only grows. */
  lemma {:induction false} AbsorbKeepsKeys(g: Gathered, rs: seq<Rec>, key: Rec -> string)
    requires g.ids == Keys(g.entries, key)
    ensures var r := AbsorbAll(g, rs, key);
      r.ids == Keys(r.entries, key) && g.entries <= r.entries
    decreases |rs|
  {
    if rs != [] {
      var init := rs[..|rs| - 1];
      var x := rs[|rs| - 1];
      AbsorbKeepsKeys(g, init, key);
      var mid := AbsorbAll(g, init, key);
      if key(x) !in mid.ids {
        var r := AbsorbAll(g, rs, key);
        assert r.entries[..|mid.entries|] == mid.entries;
        assert Keys(r.entries, key) == Keys(mid.entries, key) + [key(x)];
      }
    }
  }

  /** Every absorbed resource has its key among the ids afterwards. */
  lemma {:induction false} AbsorbCovers(g: Gathered, rs: seq<Rec>, key: Rec -> string)
    ensures var r := AbsorbAll(g, rs, key);
      forall x :: x in rs ==> key(x) in r.ids
    decreases |rs|
  {
    if rs != [] {
      var init := rs[..|rs| - 1];
      AbsorbCovers(g, init, key);
      AbsorbGrowsIds(g, init, rs[|rs| - 1], key);
      assert rs == init + [rs[|rs| - 1]];
    }
  }

  lemma AbsorbGrowsIds(g: Gathered, init: seq<Rec>, x: Rec, key: Rec -> string)
    ensures var mid := AbsorbAll(g, init, key);
      var r := Absorb(mid, x, key);
      (forall id :: id in mid.ids ==> id in r.ids) && key(x) in r.ids
  {
  }

  /** Each resource added to the kept list comes from `rs`, and its key
      was not among the keys of the resources kept before it. */
  lemma {:induction false} AbsorbAddsFresh(g: Gathered, rs: seq<Rec>, key: Rec -> string)
    requires g.ids == Keys(g.entries, key)
    ensures var r := AbsorbAll(g, rs, key);
      forall i :: |g.entries| <= i < |r.entries| ==> r.entries[i] in rs && key(r.entries[i]) !in Keys(r.entries[..i], key)
    decreases |rs|
  {
    if rs != [] {
      var init := rs[..|rs| - 1];
      var x := rs[|rs| - 1];
      AbsorbAddsFresh(g, init, key);
      AbsorbKeepsKeys(g, init, key);
      var mid := AbsorbAll(g, init, key);
      var r := AbsorbAll(g, rs, key);
      assert rs == init + [x];
      if key(x) !in mid.ids {
        forall i | |g.entries| <= i < |r.entries|
          ensures r.entries[i] in rs && key(r.entries[i]) !in Keys(r.entries[..i], key)
        {
          if i < |mid.entries| {
            assert r.entries[..i] == mid.entries[..i];
          } else {
            assert r.entries[..i] == mid.entries;
          }
        }
      }
    }
  }

  lemma AbsorbAllFacts(g: Gathered, rs: seq<Rec>, key: Rec -> string)
    requires g.ids == Keys(g.entries, key)
    ensures var r := AbsorbAll(g, rs, key);
      && r.ids == Keys(r.entries, key)
      && g.entries <= r.entries
      && (forall x :: x in rs ==> key(x) in r.ids)
      && (forall i :: |g.entries| <= i < |r.entries| ==> r.entries[i] in rs && key(r.entries[i]) !in Keys(r.entries[..i], key))
  {
    AbsorbKeepsKeys(g, rs, key);
    AbsorbCovers(g, rs, key);
    AbsorbAddsFresh(g, rs, key);
  }

  /** No key appears twice among the entries added to `base`. */
  lemma AddedKeysDistinct(g: Gathered, rs: seq<Rec>, key: Rec -> string)
    requires g.ids == Keys(g.entries, key)
    ensures var r := AbsorbAll(g, rs, key);
      forall i, j :: 0 <= i < j < |r.entries| && |g.entries| <= j ==> key(r.entries[i]) != key(r.entries[j])
  {
    AbsorbAllFacts(g, rs, key);
    var r := AbsorbAll(g, rs, key);
    forall i, j | 0 <= i < j < |r.entries| && |g.entries| <= j
      ensures key(r.entries[i]) != key(r.entries[j])
    {
      assert Keys(r.entries[..j], key)[i] == key(r.entries[i]);
    }
  }

  // ---------------------------------------------------------------------
  // search: merging the extra pages

  /** Every extra page has an entry list. */
  predicate AllPresent(pages: seq<Option<seq<Rec>>>) {
    forall t :: 0 <= t < |pages| ==> pages[t].Some?
  }

  /** `retrievedIds` from the first page, then every entry of every extra
      page whose `type/id` is not yet among them. The first page is kept as
      it is, repeats included. An extra page without `entry` makes the
      source throw reading its length, and the merged list is never
      delivered: `None`. */
  function MergedPages(first: seq<Rec>, pages: seq<Option<seq<Rec>>>): Option<seq<Rec>> {
    if AllPresent(pages) then Some(AbsorbAll(Gathered(Keys(first, EntryKey), first), FlattenPresent(pages), EntryKey).entries)
    else None
  }

  method MergePages(first: seq<Rec>, pages: seq<Option<seq<Rec>>>) returns (entries: Option<seq<Rec>>)
    ensures entries == MergedPages(first, pages)
  {
    var ids: seq<string> := [];
    var q := 0;
    while q < |first|
      invariant 0 <= q <= |first|
      invariant ids == Keys(first[..q], EntryKey)
    {
      assert first[..q + 1][..q] == first[..q];
      ids := ids + [first[q].resourceType + "/" + first[q].id];
      q := q + 1;
    }
    assert first[..q] == first;
    var merged := first;
    ghost var g0 := Gathered(ids, merged);
    var t := 0;
    while t < |pages|
      invariant 0 <= t <= |pages|
      invariant AllPresent(pages[..t])
      invariant Gathered(ids, merged) == AbsorbAll(g0, FlattenPresent(pages[..t]), EntryKey)
    {
      if pages[t].None? {
        assert !AllPresent(pages);
        return None;
      }
      var page := pages[t].value;
      assert pages[..t + 1][..t] == pages[..t];
      assert FlattenPresent(pages[..t + 1]) == FlattenPresent(pages[..t]) + page;
      AbsorbAllConcat(g0, FlattenPresent(pages[..t]), page, EntryKey);
      ids, merged := AbsorbPage(ids, merged, page);
      t := t + 1;
    }
    assert pages[..t] == pages;
    entries := Some(merged);
  }

  /** The inner loop of the page merge: one extra page absorbed into
      `retrievedIds` and the entry list. */
  method AbsorbPage(ids0: seq<string>, entries0: seq<Rec>, page: seq<Rec>) returns (ids: seq<string>, entries: seq<Rec>)
    ensures Gathered(ids, entries) == AbsorbAll(Gathered(ids0, entries0), page, EntryKey)
  {
    ids, entries := ids0, entries0;
    var j := 0;
    while j < |page|
      invariant 0 <= j <= |page|
      invariant Gathered(ids, entries) == AbsorbAll(Gathered(ids0, entries0), page[..j], EntryKey)
    {
      var tempId := page[j].resourceType + "/" + page[j].id;
      assert page[..j + 1] == page[..j] + [page[j]];
      AbsorbAllAppend(Gathered(ids0, entries0), page[..j], page[j], EntryKey);
      if tempId !in ids {
        ids := ids + [tempId];
        entries := entries + [page[j]];
      }
      j := j + 1;
    }
    assert page[..j] == page;
  }

  lemma {:induction false} AbsorbAllConcat(g: Gathered, a: seq<Rec>, b: seq<Rec>, key: Rec -> string)
    ensures AbsorbAll(g, a + b, key) == AbsorbAll(AbsorbAll(g, a, key), b, key)
    decreases |b|
  {
    if b == [] {
      assert a + b == a;
    } else {
      var b' := b[..|b| - 1];
      var x := b[|b| - 1];
      assert b == b' + [x];
      assert a + b == (a + b') + [x];
      AbsorbAllConcat(g, a, b', key);
      AbsorbAllAppend(g, a + b', x, key);
      AbsorbAllAppend(AbsorbAll(g, a, key), b', x, key);
    }
  }

  /** The merged list starts with the first page; every entry of every
      page has its `type/id` in it; each entry added after the first page
      comes from a page and has a `type/id` not seen before it. */
  lemma MergedPagesFacts(first: seq<Rec>, pages: seq<Option<seq<Rec>>>)
    ensures MergedPages(first, pages).None? <==> exists t :: 0 <= t < |pages| && pages[t].None?
    ensures MergedPages(first, pages).Some? ==>
      var m := MergedPages(first, pages).value;
      && first <= m
      && (forall x :: x in FlattenPresent(pages) ==> EntryKey(x) in Keys(m, EntryKey))
      && (forall i :: |first| <= i < |m| ==> m[i] in FlattenPresent(pages) && EntryKey(m[i]) !in Keys(m[..i], EntryKey))
  {
    var g := Gathered(Keys(first, EntryKey), first);
    AbsorbAllFacts(g, FlattenPresent(pages), EntryKey);
  }

  // ---------------------------------------------------------------------
  // reconcile: gathering and ranking candidates

  /** The resources of every query result, each `id` once, in order of
      first appearance; results without entries are skipped. */
  function Candidates(bundles: seq<Option<seq<Rec>>>): seq<Rec> {
    AbsorbAll(Gathered([], []), FlattenPresent(bundles), IdKey).entries
  }

  method CollectCandidates(bundles: seq<Option<seq<Rec>>>) returns (potentialMatches: seq<Rec>)
    ensures potentialMatches == Candidates(bundles)
  {
    var ids: seq<string> := [];
    potentialMatches := [];
    var i := 0;
    while i < |bundles|
      invariant 0 <= i <= |bundles|
      invariant Gathered(ids, potentialMatches) == AbsorbAll(Gathered([], []), FlattenPresent(bundles[..i]), IdKey)
    {
      assert bundles[..i + 1][..i] == bundles[..i];
      var entry := bundles[i];
      if entry.Some? {
        var es := entry.value;
        var j := 0;
        assert FlattenPresent(bundles[..i]) + es[..0] == FlattenPresent(bundles[..i]);
        while j < |es|
          invariant 0 <= j <= |es|
          invariant Gathered(ids, potentialMatches) == AbsorbAll(Gathered([], []), FlattenPresent(bundles[..i]) + es[..j], IdKey)
        {
          var id := es[j].id;
          assert es[..j + 1] == es[..j] + [es[j]];
          assert FlattenPresent(bundles[..i]) + es[..j + 1] == (FlattenPresent(bundles[..i]) + es[..j]) + [es[j]];
          AbsorbAllAppend(Gathered([], []), FlattenPresent(bundles[..i]) + es[..j], es[j], IdKey);
          if id !in ids {
            ids := ids + [id];
            potentialMatches := potentialMatches + [es[j]];
          }
          j := j + 1;
        }
        assert es[..j] == es;
        assert FlattenPresent(bundles[..i + 1]) == FlattenPresent(bundles[..i]) + es;
      } else {
        var prior := FlattenPresent(bundles[..i]);
        assert FlattenPresent(bundles[..i + 1]) == prior + [];
        assert prior + [] == prior;
      }
      i := i + 1;
    }
    assert bundles[..i] == bundles;
  }

  /** Every id of every result is among the candidates, no id is there
      twice, and every candidate came from some result. */
  lemma CandidatesFacts(bundles: seq<Option<seq<Rec>>>)
    ensures var c := Candidates(bundles);
      && (forall x :: x in FlattenPresent(bundles) ==> x.id in Keys(c, IdKey))
      && (forall x :: x in c ==> x in FlattenPresent(bundles))
      && (forall i, j :: 0 <= i < j < |c| ==> c[i].id != c[j].id)
  {
    var g := Gathered([], []);
    AbsorbAllFacts(g, FlattenPresent(bundles), IdKey);
    AddedKeysDistinct(g, FlattenPresent(bundles), IdKey);
    var c := Candidates(bundles);
    forall x | x in c ensures x in FlattenPresent(bundles) {
      var i :| 0 <= i < |c| && c[i] == x;
    }
  }

  /** The score a candidate must beat. */
  const Floor: real := 70.0

  /** `{ changeType: 'update', lhs: fhirResource, rhs: b, changes: c.changes }` */
  datatype Proposal = Proposal(lhs: Rec, rhs: Rec, changes: Changes)

  /** The best score so far and the record it belongs to, over the first
      `k` candidates. */
  function BestUpTo(resource: Rec, candidates: seq<Rec>, scorer: Scorer, k: nat): (real, Option<Proposal>)
    requires k <= |candidates|
  {
    if k == 0 then (Floor, None)
    else
      var (score, best) := BestUpTo(resource, candidates, scorer, k - 1);
      var c := ScoreRecord(resource, candidates[k - 1], None, scorer);
      if c.score > score then (c.score, Some(Proposal(resource, candidates[k - 1], c.changes)))
      else (score, best)
  }

  /** The comparison loop of `reconcile`. */
  method BestCandidate(resource: Rec, candidates: seq<Rec>, scorer: Scorer) returns (scoringRecord: Option<Proposal>)
    ensures scoringRecord == BestUpTo(resource, candidates, scorer, |candidates|).1
  {
    var score := Floor;
    scoringRecord := None;
    var i := 0;
    while i < |candidates|
      invariant 0 <= i <= |candidates|
      invariant (score, scoringRecord) == BestUpTo(resource, candidates, scorer, i)
    {
      var c := ScoreRecord(resource, candidates[i], None, scorer);
      if c.score > score {
        scoringRecord := Some(Proposal(resource, candidates[i], c.changes));
        score := c.score;
      }
      i := i + 1;
    }
  }

  function ScoreOf(resource: Rec, candidates: seq<Rec>, scorer: Scorer, m: nat): real
    requires m < |candidates|
  {
    ScoreRecord(resource, candidates[m], None, scorer).score
  }

  /** Nothing is proposed exactly when no candidate scores above 70.
      Otherwise the proposal is the first candidate with the highest score,
      which is above 70, with that candidate's changes. */
  lemma {:induction false} BestIsFirstMaximum(resource: Rec, candidates: seq<Rec>, scorer: Scorer, k: nat)
    requires k <= |candidates|
    ensures var (score, best) := BestUpTo(resource, candidates, scorer, k);
      && (best.None? <==> forall m :: 0 <= m < k ==> ScoreOf(resource, candidates, scorer, m) <= Floor)
      && (best.None? ==> score == Floor)
      && (best.Some? ==>
            exists m :: 0 <= m < k
              && best.value == Proposal(resource, candidates[m], ScoreRecord(resource, candidates[m], None, scorer).changes)
              && score == ScoreOf(resource, candidates, scorer, m) && score > Floor
              && (forall n :: 0 <= n < k ==> ScoreOf(resource, candidates, scorer, n) <= score)
              && (forall n :: 0 <= n < m ==> ScoreOf(resource, candidates, scorer, n) < score))
    decreases k
  {
    if k > 0 {
      BestIsFirstMaximum(resource, candidates, scorer, k - 1);
      var (score, best) := BestUpTo(resource, candidates, scorer, k - 1);
      var c := ScoreRecord(resource, candidates[k - 1], None, scorer);
      if c.score > score {
        assert ScoreOf(resource, candidates, scorer, k - 1) == c.score;
      } else if best.Some? {
        var m :| 0 <= m < k - 1
          && best.value == Proposal(resource, candidates[m], ScoreRecord(resource, candidates[m], None, scorer).changes)
          && score == ScoreOf(resource, candidates, scorer, m) && score > Floor
          && (forall n :: 0 <= n < k - 1 ==> ScoreOf(resource, candidates, scorer, n) <= score)
          && (forall n :: 0 <= n < m ==> ScoreOf(resource, candidates, scorer, n) < score);
        assert ScoreOf(resource, candidates, scorer, k - 1) == c.score;
      } else {
        assert ScoreOf(resource, candidates, scorer, k - 1) == c.score;
      }
    }
  }
}
