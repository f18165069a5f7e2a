/** The clustering pass `findMatches` as a specification: what one pass over
    the records of one type does to the slots, the match matrix and the
    result lists, stated as left folds that follow the loops of the source
    step by step, and the properties of those folds. */
module Clustering {
  import opened Util
  import opened Records

  /** One entry of the result: a record with nothing close enough (`new`),
      the best-scoring near match (`update`), or the records absorbed as
      exact matches (`match`). */
  datatype Comp =
    | New(lhs: Rec)
    | Update(lhs: Rec, rhs: Rec, changes: Changes, score: real)
    | Match(lhs: Rec, matches: seq<Rec>)

  /** An update needs a score strictly above this. */
  const Threshold: real := 70.0

  /** The matrix key the guards look up: `key + '/' + id`. */
  function CheckKey(key: string, r: Rec): string {
    key + "/" + r.id
  }

  /** The matrix key that is written: the id itself when it already begins
      with the type, else `key + '/' + id`. */
  function NormId(key: string, r: Rec): string {
    if StartsWith(r.id, key) then r.id else key + "/" + r.id
  }

  /** Slot `k` still takes part: it holds a record whose key is not yet in
      the matrix. */
  predicate Open(key: string, slots: seq<Option<Rec>>, matrix: Matrix, k: int) {
    0 <= k < |slots| && slots[k].Some? && CheckKey(key, slots[k].value) !in matrix
  }

  /** Record `i` and record `j` compare as an exact match. */
  predicate ExactPair(scorer: Scorer, slots: seq<Option<Rec>>, matrix: Matrix, i: nat, j: nat)
    requires i < |slots| && j < |slots| && slots[i].Some? && slots[j].Some?
  {
    IsExact(ScoreRecord(slots[i].value, slots[j].value, Some(matrix), scorer).changes)
  }

  /** The number of records not yet absorbed. */
  function NonNull(slots: seq<Option<Rec>>): nat {
    if slots == [] then 0 else NonNull(slots[..|slots| - 1]) + (if slots[|slots| - 1].Some? then 1 else 0)
  }

  lemma {:induction false} NonNullClear(slots: seq<Option<Rec>>, j: nat)
    requires j < |slots| && slots[j].Some?
    ensures NonNull(slots[j := None]) == NonNull(slots) - 1
    decreases |slots|
  {
    var t := slots[j := None];
    var n := |slots| - 1;
    assert t[..n] == if j < n then slots[..n][j := None] else slots[..n];
    if j < n {
      NonNullClear(slots[..n], j);
    }
  }

  // ---------------------------------------------------------------------
  // The inner loop: head `i` against every later record

  /** The variables of the inner loop: the slots, the matrix, the head's
      entry, `closestScore`, `closestMatch`, and `foundNewMatch`. */
  datatype Scan = Scan(slots: seq<Option<Rec>>, matrix: Matrix, comp: Comp, closest: real, closestMatch: string, found: bool)

  /** One iteration of the inner loop, comparing head `i` with record `j`. */
  function InnerStep(key: string, scorer: Scorer, i: nat, j: nat, s: Scan): (r: Scan)
    requires i < j < |s.slots| && s.slots[i].Some?
    ensures |r.slots| == |s.slots| && r.slots[i] == s.slots[i]
    ensures s.found ==> r.found
    ensures s.comp.lhs == s.slots[i].value ==> r.comp.lhs == s.comp.lhs
  {
    if Open(key, s.slots, s.matrix, j) then
      var a := s.slots[i].value;
      var b := s.slots[j].value;
      var id1 := NormId(key, a);
      var id2 := NormId(key, b);
      var c := ScoreRecord(a, b, Some(s.matrix), scorer);
      if IsExact(c.changes) then
        var m := if s.comp.Match? then s.matrix else s.matrix[id1 := id1];
        var ms := if s.comp.Match? then s.comp.matches + [b] else [b];
        Scan(s.slots[j := None], m[id2 := id1], Match(a, ms), 100.0, s.closestMatch, true)
      else if c.score > s.closest then
        Scan(s.slots, s.matrix, Update(a, b, c.changes, c.score), c.score, id2, s.found)
      else
        s
    else
      s
  }

  /** The inner loop run for `j` from `i + 1` up to, not including, `j`. */
  function InnerUpTo(key: string, scorer: Scorer, i: nat, j: nat, s0: Scan): (r: Scan)
    requires i < j <= |s0.slots| && s0.slots[i].Some?
    ensures |r.slots| == |s0.slots| && r.slots[i] == s0.slots[i]
    ensures s0.found ==> r.found
    ensures s0.comp.lhs == s0.slots[i].value ==> r.comp.lhs == s0.comp.lhs
    decreases j
  {
    if j == i + 1 then s0 else InnerStep(key, scorer, i, j - 1, InnerUpTo(key, scorer, i, j - 1, s0))
  }

  /** An inner step never re-opens a slot, and one that finds a match
      clears one. */
  lemma InnerStepProgress(key: string, scorer: Scorer, i: nat, j: nat, s: Scan)
    requires i < j < |s.slots| && s.slots[i].Some?
    ensures var r := InnerStep(key, scorer, i, j, s);
      && NonNull(r.slots) <= NonNull(s.slots)
      && (r.found && !s.found ==> NonNull(r.slots) < NonNull(s.slots))
  {
    var r := InnerStep(key, scorer, i, j, s);
    if r.slots != s.slots {
      assert r.slots == s.slots[j := None] && s.slots[j].Some?;
      NonNullClear(s.slots, j);
    }
  }

  /** The inner loop never re-opens a slot, and one that finds a match
      clears at least one. */
  lemma {:induction false} InnerProgress(key: string, scorer: Scorer, i: nat, j: nat, s0: Scan)
    requires i < j <= |s0.slots| && s0.slots[i].Some?
    ensures var r := InnerUpTo(key, scorer, i, j, s0);
      && NonNull(r.slots) <= NonNull(s0.slots)
      && (r.found && !s0.found ==> NonNull(r.slots) < NonNull(s0.slots))
    decreases j
  {
    if j > i + 1 {
      var mid := InnerUpTo(key, scorer, i, j - 1, s0);
      var r := InnerStep(key, scorer, i, j - 1, mid);
      assert InnerUpTo(key, scorer, i, j, s0) == r;
      InnerProgress(key, scorer, i, j - 1, s0);
      InnerStepProgress(key, scorer, i, j - 1, mid);
      assert NonNull(r.slots) <= NonNull(mid.slots) <= NonNull(s0.slots);
      if r.found && !s0.found {
        if mid.found {
          assert NonNull(mid.slots) < NonNull(s0.slots);
        } else {
          assert NonNull(r.slots) < NonNull(mid.slots);
        }
      }
    }
  }

  // ---------------------------------------------------------------------
  // The outer loop: one pass over the records of one type

  /** The state of `findMatches`: the slots, the matrix, the two result
      lists, `used`, and `foundNewMatch`. */
  datatype Pass = Pass(slots: seq<Option<Rec>>, matrix: Matrix, matchSet: seq<Comp>, noMatchSet: seq<Comp>, used: seq<string>, found: bool)

  /** The scan a head starts with: entry `new`, best score 70. */
  function StartScan(p: Pass, a: Rec): Scan {
    Scan(p.slots, p.matrix, New(a), Threshold, "", p.found)
  }

  /** Where a finished head's entry goes: a `new` only when its id is neither
      in `used` nor a matrix key, an `update` (with its best score) only when
      its id is not in `used`, which then records the update's target, and a
      `match` always. */
  function Classify(id1: string, s: Scan, p: Pass): Pass {
    if s.comp.New? && id1 !in p.used && id1 !in s.matrix then
      Pass(s.slots, s.matrix, p.matchSet, p.noMatchSet + [s.comp], p.used, s.found)
    else if s.comp.Update? && id1 !in p.used then
      Pass(s.slots, s.matrix, p.matchSet, p.noMatchSet + [s.comp.(score := s.closest)], p.used + [s.closestMatch], s.found)
    else if s.comp.Match? then
      Pass(s.slots, s.matrix, p.matchSet + [s.comp], p.noMatchSet, p.used, s.found)
    else
      Pass(s.slots, s.matrix, p.matchSet, p.noMatchSet, p.used, s.found)
  }

  /** One iteration of the outer loop, for head `i`. */
  function HeadStep(key: string, scorer: Scorer, i: nat, p: Pass): (r: Pass)
    requires i < |p.slots|
    ensures |r.slots| == |p.slots|
    ensures p.found ==> r.found
  {
    if Open(key, p.slots, p.matrix, i) then
      var a := p.slots[i].value;
      var s := InnerUpTo(key, scorer, i, |p.slots|, StartScan(p, a));
      Classify(NormId(key, a), s, p)
    else
      p
  }

  /** The outer loop run for the heads before `k`. */
  function PassUpTo(key: string, scorer: Scorer, k: nat, p0: Pass): (r: Pass)
    requires k <= |p0.slots|
    ensures |r.slots| == |p0.slots|
    ensures p0.found ==> r.found
    decreases k
  {
    if k == 0 then p0 else HeadStep(key, scorer, k - 1, PassUpTo(key, scorer, k - 1, p0))
  }

  /** `findMatches(patientRecord, key, matchSet, noMatchSet, matchMatrix)`:
      `used` and `foundNewMatch` start empty and false on every call. */
  function FindMatches(key: string, scorer: Scorer, slots: seq<Option<Rec>>, matrix: Matrix, matchSet: seq<Comp>, noMatchSet: seq<Comp>): Pass {
    PassUpTo(key, scorer, |slots|, Pass(slots, matrix, matchSet, noMatchSet, [], false))
  }

  // ---------------------------------------------------------------------
  // A pass that finds nothing changes nothing

  /** No record after head `i` that is still open is an exact match for it. */
  ghost predicate NoExactPairFrom(key: string, scorer: Scorer, slots: seq<Option<Rec>>, matrix: Matrix, i: nat)
    requires i < |slots| && slots[i].Some?
  {
    forall j :: i < j < |slots| && Open(key, slots, matrix, j) ==> !ExactPair(scorer, slots, matrix, i, j)
  }

  /** No two open records of the type are an exact match. */
  ghost predicate Settled(key: string, scorer: Scorer, slots: seq<Option<Rec>>, matrix: Matrix) {
    forall i :: Open(key, slots, matrix, i) ==> NoExactPairFrom(key, scorer, slots, matrix, i)
  }

  /** An inner loop that finds no exact match leaves slots and matrix alone,
      never forms a `match`, and has seen no exact pair. */
  lemma {:induction false} InnerQuiet(key: string, scorer: Scorer, i: nat, j: nat, s0: Scan)
    requires i < j <= |s0.slots| && s0.slots[i].Some?
    requires !InnerUpTo(key, scorer, i, j, s0).found
    ensures var r := InnerUpTo(key, scorer, i, j, s0);
      r.slots == s0.slots && r.matrix == s0.matrix && (r.comp.Match? ==> s0.comp.Match?)
    ensures forall j' :: i < j' < j && Open(key, s0.slots, s0.matrix, j') ==> !ExactPair(scorer, s0.slots, s0.matrix, i, j')
    decreases j
  {
    if j > i + 1 {
      InnerQuiet(key, scorer, i, j - 1, s0);
    }
  }

  /** A pass that finds no exact match leaves slots, matrix and `matchSet`
      as they were, and every head it examined has no exact partner. */
  lemma {:induction false} PassQuiet(key: string, scorer: Scorer, k: nat, p0: Pass)
    requires k <= |p0.slots|
    requires !PassUpTo(key, scorer, k, p0).found
    ensures var r := PassUpTo(key, scorer, k, p0);
      r.slots == p0.slots && r.matrix == p0.matrix && r.matchSet == p0.matchSet
    ensures forall i :: 0 <= i < k && Open(key, p0.slots, p0.matrix, i) ==> NoExactPairFrom(key, scorer, p0.slots, p0.matrix, i)
    decreases k
  {
    if k > 0 {
      var mid := PassUpTo(key, scorer, k - 1, p0);
      assert !mid.found;
      PassQuiet(key, scorer, k - 1, p0);
      HeadQuiet(key, scorer, k - 1, mid);
      assert PassUpTo(key, scorer, k, p0) == HeadStep(key, scorer, k - 1, mid);
      forall i | 0 <= i < k && Open(key, p0.slots, p0.matrix, i)
        ensures NoExactPairFrom(key, scorer, p0.slots, p0.matrix, i)
      {
        if i == k - 1 {
          assert Open(key, mid.slots, mid.matrix, i);
          assert NoExactPairFrom(key, scorer, mid.slots, mid.matrix, i);
        }
      }
    }
  }

  lemma HeadQuiet(key: string, scorer: Scorer, i: nat, p: Pass)
    requires i < |p.slots|
    requires !HeadStep(key, scorer, i, p).found
    ensures var r := HeadStep(key, scorer, i, p);
      r.slots == p.slots && r.matrix == p.matrix && r.matchSet == p.matchSet
    ensures Open(key, p.slots, p.matrix, i) ==> NoExactPairFrom(key, scorer, p.slots, p.matrix, i)
  {
    if Open(key, p.slots, p.matrix, i) {
      var a := p.slots[i].value;
      InnerQuiet(key, scorer, i, |p.slots|, StartScan(p, a));
    }
  }

  /** `findMatches` returns false exactly when the type was already settled,
      and then it changes neither the records, the matrix nor `matchSet`. */
  lemma FindMatchesFalseIffSettled(key: string, scorer: Scorer, slots: seq<Option<Rec>>, matrix: Matrix, matchSet: seq<Comp>, noMatchSet: seq<Comp>)
    ensures !FindMatches(key, scorer, slots, matrix, matchSet, noMatchSet).found <==> Settled(key, scorer, slots, matrix)
    ensures var p := FindMatches(key, scorer, slots, matrix, matchSet, noMatchSet);
      !p.found ==> p.slots == slots && p.matrix == matrix && p.matchSet == matchSet
  {
    var p0 := Pass(slots, matrix, matchSet, noMatchSet, [], false);
    if !FindMatches(key, scorer, slots, matrix, matchSet, noMatchSet).found {
      PassQuiet(key, scorer, |slots|, p0);
    } else {
      FirstAbsorptionIsExact(key, scorer, |slots|, p0);
    }
  }

  /** A pass that starts settled finds nothing: each head meets no exact
      partner, so nothing changes from one head to the next. */
  lemma {:induction false} FirstAbsorptionIsExact(key: string, scorer: Scorer, k: nat, p0: Pass)
    requires k <= |p0.slots| && !p0.found
    requires PassUpTo(key, scorer, k, p0).found
    ensures !Settled(key, scorer, p0.slots, p0.matrix)
    decreases k
  {
    var mid := PassUpTo(key, scorer, k - 1, p0);
    if mid.found {
      FirstAbsorptionIsExact(key, scorer, k - 1, p0);
    } else {
      PassQuiet(key, scorer, k - 1, p0);
      var i := k - 1;
      assert Open(key, mid.slots, mid.matrix, i);
      var a := mid.slots[i].value;
      InnerFindsExact(key, scorer, i, |mid.slots|, StartScan(mid, a));
    }
  }

  /** An inner loop that starts without a find and ends with one met an open
      exact partner of the head. */
  lemma {:induction false} InnerFindsExact(key: string, scorer: Scorer, i: nat, j: nat, s0: Scan)
    requires i < j <= |s0.slots| && s0.slots[i].Some? && !s0.found
    requires InnerUpTo(key, scorer, i, j, s0).found
    ensures Open(key, s0.slots, s0.matrix, i) ==> !NoExactPairFrom(key, scorer, s0.slots, s0.matrix, i)
    decreases j
  {
    var mid := InnerUpTo(key, scorer, i, j - 1, s0);
    if mid.found {
      InnerFindsExact(key, scorer, i, j - 1, s0);
    } else {
      InnerQuiet(key, scorer, i, j - 1, s0);
      assert Open(key, s0.slots, s0.matrix, j - 1) && ExactPair(scorer, s0.slots, s0.matrix, i, j - 1);
    }
  }

  // ---------------------------------------------------------------------
  // The best update

  /** Record `j` is open for head `i` in the state the head started from,
      and is no exact match for it. */
  predicate Candidate(key: string, scorer: Scorer, s0: Scan, i: nat, j: nat)
    requires i < |s0.slots| && s0.slots[i].Some?
  {
    Open(key, s0.slots, s0.matrix, j) && !ExactPair(scorer, s0.slots, s0.matrix, i, j)
  }

  function CandidateScore(scorer: Scorer, s0: Scan, i: nat, j: nat): real
    requires i < |s0.slots| && j < |s0.slots| && s0.slots[i].Some? && s0.slots[j].Some?
  {
    ScoreRecord(s0.slots[i].value, s0.slots[j].value, Some(s0.matrix), scorer).score
  }

  /** Record `m` is the first open record with the best score `r.closest`,
      and `r` is the `update` towards it. */
  ghost predicate BestAt(key: string, scorer: Scorer, i: nat, s0: Scan, m: nat, r: Scan)
    requires i < |s0.slots| && s0.slots[i].Some?
  {
    && i < m < |s0.slots| && Candidate(key, scorer, s0, i, m)
    && r.comp.Update? && s0.slots[m] == Some(r.comp.rhs)
    && CandidateScore(scorer, s0, i, m) == r.closest
    && r.closestMatch == NormId(key, r.comp.rhs)
    && forall k :: i < k < m && Open(key, s0.slots, s0.matrix, k) ==> CandidateScore(scorer, s0, i, k) < r.closest
  }

  /** The scan `r` of head `i` over the records before `j` kept slots and
      matrix, formed no `match`, and its best score bounds every open
      record's score. Its entry is `new` with best score 70, or the `update`
      towards the FIRST open record with the highest score, that score being
      above 70. */
  ghost predicate BestSoFar(key: string, scorer: Scorer, i: nat, j: nat, s0: Scan, r: Scan)
    requires i < j <= |s0.slots| && s0.slots[i].Some?
  {
    && r.slots == s0.slots && r.matrix == s0.matrix
    && !r.comp.Match?
    && (forall k :: i < k < j && Open(key, s0.slots, s0.matrix, k) ==> CandidateScore(scorer, s0, i, k) <= r.closest)
    && (r.comp.New? ==> r.closest == Threshold)
    && (r.comp.Update? ==>
          && r.comp.lhs == s0.slots[i].value
          && r.comp.score == r.closest && r.closest > Threshold
          && exists m :: i < m < j && BestAt(key, scorer, i, s0, m, r))
  }

  /** When a head meets no exact match, its entry ends as `new` only if no
      open record scored above 70; otherwise it is the `update` towards the
      first open record with the highest score. */
  lemma {:induction false} BestUpdate(key: string, scorer: Scorer, i: nat, j: nat, s0: Scan)
    requires i < j <= |s0.slots| && s0.slots[i].Some?
    requires s0.comp == New(s0.slots[i].value) && s0.closest == Threshold
    requires forall k :: i < k < j && Open(key, s0.slots, s0.matrix, k) ==> !ExactPair(scorer, s0.slots, s0.matrix, i, k)
    ensures BestSoFar(key, scorer, i, j, s0, InnerUpTo(key, scorer, i, j, s0))
    decreases j
  {
    if j > i + 1 {
      BestUpdate(key, scorer, i, j - 1, s0);
      BestStep(key, scorer, i, j, s0, InnerUpTo(key, scorer, i, j - 1, s0));
    }
  }

  lemma BestStep(key: string, scorer: Scorer, i: nat, j: nat, s0: Scan, mid: Scan)
    requires i + 1 < j <= |s0.slots| && s0.slots[i].Some?
    requires !(Open(key, s0.slots, s0.matrix, j - 1) && ExactPair(scorer, s0.slots, s0.matrix, i, j - 1))
    requires BestSoFar(key, scorer, i, j - 1, s0, mid)
    ensures BestSoFar(key, scorer, i, j, s0, InnerStep(key, scorer, i, j - 1, mid))
  {
    var r := InnerStep(key, scorer, i, j - 1, mid);
    if Open(key, s0.slots, s0.matrix, j - 1) && CandidateScore(scorer, s0, i, j - 1) > mid.closest {
      assert r.comp == Update(s0.slots[i].value, s0.slots[j - 1].value, r.comp.changes, r.closest);
      assert BestAt(key, scorer, i, s0, j - 1, r);
    } else {
      assert r == mid;
      if r.comp.Update? {
        var m :| i < m < j - 1 && BestAt(key, scorer, i, s0, m, mid);
        assert BestAt(key, scorer, i, s0, m, r);
      }
    }
  }

  /** All scores the scorer hands out are at most 100. */
  ghost predicate ScoresAtMost100(scorer: Scorer) {
    forall a, b, m :: scorer(a, b, m).score <= 100.0
  }

  /** Once a head has absorbed an exact match its best score is 100, so with
      scores of at most 100 it stays a `match` for the rest of the scan and
      only gains members. */
  lemma {:induction false} MatchIsFinal(key: string, scorer: Scorer, i: nat, j0: nat, j: nat, s0: Scan)
    requires ScoresAtMost100(scorer)
    requires i < j0 <= j <= |s0.slots| && s0.slots[i].Some? && s0.comp.lhs == s0.slots[i].value
    requires InnerUpTo(key, scorer, i, j0, s0).comp.Match?
    requires InnerUpTo(key, scorer, i, j0, s0).closest == 100.0
    ensures var r0 := InnerUpTo(key, scorer, i, j0, s0);
      var r := InnerUpTo(key, scorer, i, j, s0);
      && r.comp.Match? && r.closest == 100.0
      && r.comp.lhs == r0.comp.lhs
      && r0.comp.matches <= r.comp.matches
    decreases j
  {
    if j > j0 {
      MatchIsFinal(key, scorer, i, j0, j - 1, s0);
      var mid := InnerUpTo(key, scorer, i, j - 1, s0);
      assert InnerUpTo(key, scorer, i, j, s0) == InnerStep(key, scorer, i, j - 1, mid);
      InnerStepKeepsMatch(key, scorer, i, j - 1, mid);
    }
  }

  lemma InnerStepKeepsMatch(key: string, scorer: Scorer, i: nat, j: nat, s: Scan)
    requires ScoresAtMost100(scorer)
    requires i < j < |s.slots| && s.slots[i].Some?
    requires s.comp.Match? && s.closest == 100.0 && s.comp.lhs == s.slots[i].value
    ensures var r := InnerStep(key, scorer, i, j, s);
      r.comp.Match? && r.closest == 100.0 && r.comp.lhs == s.comp.lhs && s.comp.matches <= r.comp.matches
  {
    if Open(key, s.slots, s.matrix, j) {
      var a := s.slots[i].value;
      var b := s.slots[j].value;
      var c := ScoreRecord(a, b, Some(s.matrix), scorer);
      assert c.score <= 100.0 by {
        assert scorer(b, a, Some(s.matrix)).score <= 100.0;
      }
      if IsExact(c.changes) {
        assert InnerStep(key, scorer, i, j, s).comp == Match(a, s.comp.matches + [b]);
      }
    }
  }

  // ---------------------------------------------------------------------
  // What a pass adds to the result lists

  /** A pass only appends to `matchSet`, `noMatchSet` and `used`; it appends
      nothing but `match` entries to `matchSet`, and nothing but `new` and
      `update` entries to `noMatchSet`. */
  lemma {:induction false} PassAppends(key: string, scorer: Scorer, k: nat, p0: Pass)
    requires k <= |p0.slots|
    ensures var r := PassUpTo(key, scorer, k, p0);
      && p0.matchSet <= r.matchSet && p0.noMatchSet <= r.noMatchSet && p0.used <= r.used
      && (forall x :: |p0.matchSet| <= x < |r.matchSet| ==> r.matchSet[x].Match?)
      && (forall x :: |p0.noMatchSet| <= x < |r.noMatchSet| ==> !r.noMatchSet[x].Match?)
    decreases k
  {
    if k > 0 {
      var mid := PassUpTo(key, scorer, k - 1, p0);
      PassAppends(key, scorer, k - 1, p0);
      HeadStepAppends(key, scorer, k - 1, mid);
      assert PassUpTo(key, scorer, k, p0) == HeadStep(key, scorer, k - 1, mid);
    }
  }

  /** One head appends at most one entry to one of the lists: a `match` to
      `matchSet`, or a `new` or `update` to `noMatchSet`. */
  lemma HeadStepAppends(key: string, scorer: Scorer, i: nat, p: Pass)
    requires i < |p.slots|
    ensures var r := HeadStep(key, scorer, i, p);
      && p.matchSet <= r.matchSet && p.noMatchSet <= r.noMatchSet && p.used <= r.used
      && (forall x :: |p.matchSet| <= x < |r.matchSet| ==> r.matchSet[x].Match?)
      && (forall x :: |p.noMatchSet| <= x < |r.noMatchSet| ==> !r.noMatchSet[x].Match?)
  {
    if Open(key, p.slots, p.matrix, i) {
      var a := p.slots[i].value;
      var s := InnerUpTo(key, scorer, i, |p.slots|, StartScan(p, a));
      assert HeadStep(key, scorer, i, p) == Classify(NormId(key, a), s, p);
    }
  }

  /** One head adds at most one entry over both lists; a `new` is added
      exactly when its id is neither in `used` nor a matrix key after the
      scan, an `update` (carrying the best score seen) exactly when its id is
      not in `used`, which then gains the update's target, and a `match`
      exactly when the scan absorbed an exact match. */
  lemma HeadStepClassifies(key: string, scorer: Scorer, i: nat, p: Pass)
    requires Open(key, p.slots, p.matrix, i)
    ensures var r := HeadStep(key, scorer, i, p);
      var a := p.slots[i].value;
      var s := InnerUpTo(key, scorer, i, |p.slots|, StartScan(p, a));
      var id1 := NormId(key, a);
      && |r.matchSet| + |r.noMatchSet| <= |p.matchSet| + |p.noMatchSet| + 1
      && (|r.matchSet| > |p.matchSet| <==> s.comp.Match?)
      && (|r.matchSet| > |p.matchSet| ==> r.matchSet[|p.matchSet|] == s.comp)
      && (|r.noMatchSet| > |p.noMatchSet| <==>
            (s.comp.New? && id1 !in p.used && id1 !in s.matrix) || (s.comp.Update? && id1 !in p.used))
      && (|r.noMatchSet| > |p.noMatchSet| && r.noMatchSet[|p.noMatchSet|].New? ==>
            id1 !in p.used && id1 !in s.matrix && r.noMatchSet[|p.noMatchSet|] == s.comp && r.used == p.used)
      && (|r.noMatchSet| > |p.noMatchSet| && r.noMatchSet[|p.noMatchSet|].Update? ==>
            id1 !in p.used && r.noMatchSet[|p.noMatchSet|].score == s.closest && r.used == p.used + [s.closestMatch])
      && (|r.noMatchSet| == |p.noMatchSet| ==> r.used == p.used)
  {
    var a := p.slots[i].value;
    var s := InnerUpTo(key, scorer, i, |p.slots|, StartScan(p, a));
    assert HeadStep(key, scorer, i, p) == Classify(NormId(key, a), s, p);
  }

  /** A slot is only ever emptied, never refilled or moved. */
  lemma {:induction false} InnerOnlyEmpties(key: string, scorer: Scorer, i: nat, j: nat, s0: Scan)
    requires i < j <= |s0.slots| && s0.slots[i].Some?
    ensures var r := InnerUpTo(key, scorer, i, j, s0);
      forall k :: 0 <= k < |r.slots| ==> r.slots[k] == s0.slots[k] || r.slots[k].None?
    decreases j
  {
    if j > i + 1 {
      InnerOnlyEmpties(key, scorer, i, j - 1, s0);
    }
  }

  lemma {:induction false} PassOnlyEmpties(key: string, scorer: Scorer, k: nat, p0: Pass)
    requires k <= |p0.slots|
    ensures var r := PassUpTo(key, scorer, k, p0);
      forall x :: 0 <= x < |r.slots| ==> r.slots[x] == p0.slots[x] || r.slots[x].None?
    decreases k
  {
    if k > 0 {
      var mid := PassUpTo(key, scorer, k - 1, p0);
      PassOnlyEmpties(key, scorer, k - 1, p0);
      HeadStepOnlyEmpties(key, scorer, k - 1, mid);
      assert PassUpTo(key, scorer, k, p0) == HeadStep(key, scorer, k - 1, mid);
    }
  }

  lemma HeadStepOnlyEmpties(key: string, scorer: Scorer, i: nat, p: Pass)
    requires i < |p.slots|
    ensures var r := HeadStep(key, scorer, i, p);
      forall x :: 0 <= x < |r.slots| ==> r.slots[x] == p.slots[x] || r.slots[x].None?
  {
    if Open(key, p.slots, p.matrix, i) {
      var a := p.slots[i].value;
      InnerOnlyEmpties(key, scorer, i, |p.slots|, StartScan(p, a));
    }
  }

  /** Every pass keeps the count of records still present from growing, and
      a pass that absorbs something lowers it: the reason the fixpoint loop
      around `findMatches` ends. */
  lemma {:induction false} PassProgress(key: string, scorer: Scorer, k: nat, p0: Pass)
    requires k <= |p0.slots|
    ensures var r := PassUpTo(key, scorer, k, p0);
      && NonNull(r.slots) <= NonNull(p0.slots)
      && (r.found && !p0.found ==> NonNull(r.slots) < NonNull(p0.slots))
    decreases k
  {
    if k > 0 {
      var mid := PassUpTo(key, scorer, k - 1, p0);
      var r := HeadStep(key, scorer, k - 1, mid);
      assert PassUpTo(key, scorer, k, p0) == r;
      PassProgress(key, scorer, k - 1, p0);
      HeadStepProgress(key, scorer, k - 1, mid);
      assert NonNull(r.slots) <= NonNull(mid.slots) <= NonNull(p0.slots);
      if r.found && !p0.found {
        if mid.found {
          assert NonNull(mid.slots) < NonNull(p0.slots);
        } else {
          assert NonNull(r.slots) < NonNull(mid.slots);
        }
      }
    }
  }

  lemma HeadStepProgress(key: string, scorer: Scorer, i: nat, p: Pass)
    requires i < |p.slots|
    ensures var r := HeadStep(key, scorer, i, p);
      && NonNull(r.slots) <= NonNull(p.slots)
      && (r.found && !p.found ==> NonNull(r.slots) < NonNull(p.slots))
  {
    if Open(key, p.slots, p.matrix, i) {
      var a := p.slots[i].value;
      var s := InnerUpTo(key, scorer, i, |p.slots|, StartScan(p, a));
      assert HeadStep(key, scorer, i, p).slots == s.slots;
      assert HeadStep(key, scorer, i, p).found == s.found;
      InnerProgress(key, scorer, i, |p.slots|, StartScan(p, a));
    }
  }

  // ---------------------------------------------------------------------
  // The match matrix

  /** Every value of the matrix is a key that maps to itself: each record
      points straight at the head of its cluster. */
  ghost predicate Closed(m: Matrix) {
    forall k :: k in m ==> m[k] in m && m[m[k]] == m[k]
  }

  /** `m` keeps every entry of `m0` unchanged. */
  ghost predicate Extends(m0: Matrix, m: Matrix) {
    forall k :: k in m0 ==> k in m && m[k] == m0[k]
  }

  lemma ExtendsTransitive(m0: Matrix, m1: Matrix, m2: Matrix)
    requires Extends(m0, m1) && Extends(m1, m2)
    ensures Extends(m0, m2)
  {
  }

  /** No id begins with its type, so the key the guards look up is the key
      that gets written. */
  predicate PlainIds(key: string, slots: seq<Option<Rec>>) {
    forall k :: 0 <= k < |slots| && slots[k].Some? ==> !StartsWith(slots[k].value.id, key)
  }

  /** During the scan of head `i`: once it has absorbed something its own
      key is in the matrix, and whenever its key is there it maps to itself. */
  ghost predicate HeadRecorded(key: string, i: nat, s: Scan)
    requires i < |s.slots| && s.slots[i].Some?
  {
    var id1 := NormId(key, s.slots[i].value);
    (s.comp.Match? ==> id1 in s.matrix) && (id1 in s.matrix ==> s.matrix[id1] == id1)
  }

  lemma InnerStepMatrix(key: string, scorer: Scorer, i: nat, j: nat, s: Scan)
    requires i < j < |s.slots| && s.slots[i].Some?
    requires PlainIds(key, s.slots) && Closed(s.matrix) && HeadRecorded(key, i, s)
    ensures var r := InnerStep(key, scorer, i, j, s);
      PlainIds(key, r.slots) && Closed(r.matrix) && Extends(s.matrix, r.matrix) && HeadRecorded(key, i, r)
  {
    var r := InnerStep(key, scorer, i, j, s);
    if Open(key, s.slots, s.matrix, j) {
      var a := s.slots[i].value;
      var b := s.slots[j].value;
      var id1 := NormId(key, a);
      var id2 := NormId(key, b);
      if IsExact(ScoreRecord(a, b, Some(s.matrix), scorer).changes) {
        var m1 := if s.comp.Match? then s.matrix else s.matrix[id1 := id1];
        assert id2 !in s.matrix;
        assert Closed(m1) && Extends(s.matrix, m1) && m1[id1] == id1;
        assert id2 == id1 || id2 !in m1;
        assert r.matrix == m1[id2 := id1];
      }
    }
  }

  lemma {:induction false} InnerMatrix(key: string, scorer: Scorer, i: nat, j: nat, s0: Scan)
    requires i < j <= |s0.slots| && s0.slots[i].Some?
    requires PlainIds(key, s0.slots) && Closed(s0.matrix) && HeadRecorded(key, i, s0)
    ensures var r := InnerUpTo(key, scorer, i, j, s0);
      PlainIds(key, r.slots) && Closed(r.matrix) && Extends(s0.matrix, r.matrix) && HeadRecorded(key, i, r)
    decreases j
  {
    if j > i + 1 {
      InnerMatrix(key, scorer, i, j - 1, s0);
      var mid := InnerUpTo(key, scorer, i, j - 1, s0);
      InnerStepMatrix(key, scorer, i, j - 1, mid);
      assert InnerUpTo(key, scorer, i, j, s0) == InnerStep(key, scorer, i, j - 1, mid);
      ExtendsTransitive(s0.matrix, mid.matrix, InnerStep(key, scorer, i, j - 1, mid).matrix);
    }
  }

  /** With plain ids, a pass never removes or rewrites a matrix entry, and
      keeps every entry pointing at a key that points at itself. */
  lemma {:induction false} PassMatrix(key: string, scorer: Scorer, k: nat, p0: Pass)
    requires k <= |p0.slots|
    requires PlainIds(key, p0.slots) && Closed(p0.matrix)
    ensures var r := PassUpTo(key, scorer, k, p0);
      PlainIds(key, r.slots) && Closed(r.matrix) && Extends(p0.matrix, r.matrix)
    decreases k
  {
    if k > 0 {
      PassMatrix(key, scorer, k - 1, p0);
      var mid := PassUpTo(key, scorer, k - 1, p0);
      HeadStepMatrix(key, scorer, k - 1, mid);
      assert PassUpTo(key, scorer, k, p0) == HeadStep(key, scorer, k - 1, mid);
      ExtendsTransitive(p0.matrix, mid.matrix, PassUpTo(key, scorer, k, p0).matrix);
    }
  }

  lemma HeadStepMatrix(key: string, scorer: Scorer, i: nat, p: Pass)
    requires i < |p.slots|
    requires PlainIds(key, p.slots) && Closed(p.matrix)
    ensures var r := HeadStep(key, scorer, i, p);
      PlainIds(key, r.slots) && Closed(r.matrix) && Extends(p.matrix, r.matrix)
  {
    if Open(key, p.slots, p.matrix, i) {
      var a := p.slots[i].value;
      var s0 := StartScan(p, a);
      assert NormId(key, a) == CheckKey(key, a);
      InnerMatrix(key, scorer, i, |p.slots|, s0);
    }
  }
}
