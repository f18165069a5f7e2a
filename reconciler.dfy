/** The reconciliation engine's working state and the loops that drive it:
    `findMatches` over one type, the `while (newMatchesFound)` loop, and the
    entry points `deduplicate` and `reconcilePatient` that build the index,
    run the loop and return `matchSet.concat(noMatchSet)`. */
module Reconciliation {
  import opened Util
  import opened Records
  import opened Clustering
  import opened Rounds
  import RecordIndex

  /** The state `findMatches` mutates: the per-type arrays of
      `patientRecord` (with the order in which `for (key in ...)` visits the
      types), the match matrix, and the two result lists. */
  class Reconciler {
    var types: seq<string>
    var records: map<string, seq<Option<Rec>>>
    var matrix: Matrix
    var matchSet: seq<Comp>
    var noMatchSet: seq<Comp>

    predicate Valid()
      reads this
    {
      AllIn(types, records)
    }

    function State(found: bool): RoundState
      reads this
    {
      RoundState(records, matrix, matchSet, noMatchSet, found)
    }

    /** A fresh run over an index: empty matrix, empty result lists. */
    constructor (types: seq<string>, records: map<string, seq<Option<Rec>>>)
      requires AllIn(types, records)
      ensures Valid()
      ensures this.types == types && this.records == records
      ensures matrix == map[] && matchSet == [] && noMatchSet == []
    {
      this.types := types;
      this.records := records;
      matrix := map[];
      matchSet := [];
      noMatchSet := [];
    }

    /** `findMatches(patientRecord, key, matchSet, noMatchSet, matchMatrix)`:
        every open record of the type, in index order, is compared with
        every later open record; absorbed records are nulled in place. */
    method FindMatches(key: string, scorer: Scorer) returns (found: bool)
      requires Valid() && key in records
      modifies this
      ensures Valid() && types == old(types)
      ensures var p := Clustering.FindMatches(key, scorer, old(records)[key], old(matrix), old(matchSet), old(noMatchSet));
        && records == old(records)[key := p.slots]
        && matrix == p.matrix && matchSet == p.matchSet && noMatchSet == p.noMatchSet
        && found == p.found
    {
      ghost var p0 := Pass(records[key], matrix, matchSet, noMatchSet, [], false);
      var n := |records[key]|;
      var foundNewMatch := false;
      var used: seq<string> := [];
      var i := 0;
      while i < n
        invariant 0 <= i <= n
        invariant types == old(types) && key in records && Valid()
        invariant records == old(records)[key := records[key]]
        invariant Pass(records[key], matrix, matchSet, noMatchSet, used, foundNewMatch) == PassUpTo(key, scorer, i, p0)
      {
        ghost var before := Pass(records[key], matrix, matchSet, noMatchSet, used, foundNewMatch);
        if records[key][i].Some? && CheckKey(key, records[key][i].value) !in matrix {
          var a := records[key][i].value;
          var id1 := NormId(key, a);
          var comp, closestScore, closestMatch, f := CompareWithLater(key, scorer, i, foundNewMatch);
          foundNewMatch := f;
          ghost var s := InnerUpTo(key, scorer, i, n, StartScan(before, a));
          assert Scan(records[key], matrix, comp, closestScore, closestMatch, foundNewMatch) == s;
          if comp.New? && id1 !in used && id1 !in matrix {
            noMatchSet := noMatchSet + [comp];
          } else if comp.Update? && id1 !in used {
            noMatchSet := noMatchSet + [comp.(score := closestScore)];
            used := used + [closestMatch];
          } else if comp.Match? {
            matchSet := matchSet + [comp];
          }
          assert Pass(records[key], matrix, matchSet, noMatchSet, used, foundNewMatch) == Classify(id1, s, before);
        }
        i := i + 1;
      }
      found := foundNewMatch;
    }

    /** The inner loop of `findMatches` for head `i`: its entry starts as
        `new` with best score 70, and each later open record is scored
        against the head. */
    method CompareWithLater(key: string, scorer: Scorer, i: nat, foundBefore: bool)
      returns (comp: Comp, closestScore: real, closestMatch: string, found: bool)
      requires Valid() && key in records && i < |records[key]| && records[key][i].Some?
      modifies this
      ensures Valid() && types == old(types) && key in records
      ensures records == old(records)[key := records[key]]
      ensures matchSet == old(matchSet) && noMatchSet == old(noMatchSet)
      ensures Scan(records[key], matrix, comp, closestScore, closestMatch, found)
        == InnerUpTo(key, scorer, i, |old(records)[key]|, Scan(old(records)[key], old(matrix), New(old(records)[key][i].value), Threshold, "", foundBefore))
    {
      ghost var s0 := Scan(records[key], matrix, New(records[key][i].value), Threshold, "", foundBefore);
      var n := |records[key]|;
      var a := records[key][i].value;
      var id1 := NormId(key, a);
      comp := New(a);
      closestScore := Threshold;
      closestMatch := "";
      found := foundBefore;
      var j := i + 1;
      while j < n
        invariant i + 1 <= j <= n
        invariant types == old(types) && key in records && Valid()
        invariant records == old(records)[key := records[key]]
        invariant matchSet == old(matchSet) && noMatchSet == old(noMatchSet)
        invariant Scan(records[key], matrix, comp, closestScore, closestMatch, found) == InnerUpTo(key, scorer, i, j, s0)
      {
        assert InnerUpTo(key, scorer, i, j + 1, s0) == InnerStep(key, scorer, i, j, InnerUpTo(key, scorer, i, j, s0));
        comp, closestScore, closestMatch, found := CompareOne(key, scorer, i, j, comp, closestScore, closestMatch, found);
        j := j + 1;
      }
    }

    /** One iteration of the inner loop: record `j`, if still open, is
        scored against head `i`; an exact match is absorbed, a better score
        becomes the head's update. */
    method CompareOne(key: string, scorer: Scorer, i: nat, j: nat, comp: Comp, closestScore: real, closestMatch: string, found: bool)
      returns (comp': Comp, closestScore': real, closestMatch': string, found': bool)
      requires Valid() && key in records && i < j < |records[key]| && records[key][i].Some?
      modifies this
      ensures Valid() && types == old(types) && key in records
      ensures records == old(records)[key := records[key]]
      ensures matchSet == old(matchSet) && noMatchSet == old(noMatchSet)
      ensures Scan(records[key], matrix, comp', closestScore', closestMatch', found')
        == InnerStep(key, scorer, i, j, Scan(old(records)[key], old(matrix), comp, closestScore, closestMatch, found))
    {
      comp', closestScore', closestMatch', found' := comp, closestScore, closestMatch, found;
      ghost var cur := Scan(records[key], matrix, comp, closestScore, closestMatch, found);
      var slots := records[key];
      var a := slots[i].value;
      var id1 := NormId(key, a);
      if slots[j].Some? && CheckKey(key, slots[j].value) !in matrix {
        var b := slots[j].value;
        var id2 := NormId(key, b);
        var c := ScoreRecord(a, b, Some(matrix), scorer);
        if IsExact(c.changes) {
          var members: seq<Rec> := [];
          if comp.Match? {
            members := comp.matches;
          } else {
            matrix := matrix[id1 := id1];
          }
          matrix := matrix[id2 := id1];
          comp' := Match(a, members + [b]);
          closestScore' := 100.0;
          records := records[key := slots[j := None]];
          found' := true;
          ghost var st := InnerStep(key, scorer, i, j, cur);
          assert st.slots == records[key];
          assert st.matrix == matrix;
          assert st.comp == comp';
          assert st.closest == closestScore' && st.closestMatch == closestMatch' && st.found == found';
          assert Scan(records[key], matrix, comp', closestScore', closestMatch', found') == InnerStep(key, scorer, i, j, cur);
        } else if c.score > closestScore {
          comp' := Update(a, b, c.changes, c.score);
          closestScore' := c.score;
          closestMatch' := id2;
          assert Scan(records[key], matrix, comp', closestScore', closestMatch', found') == InnerStep(key, scorer, i, j, cur);
        } else {
          assert cur == InnerStep(key, scorer, i, j, cur);
        }
      } else {
        assert cur == InnerStep(key, scorer, i, j, cur);
      }
    }

    /** One iteration of the `while` loop: `noMatchSet` and the flag are
        reset and `findMatches` runs on every type in turn. */
    method Round(scorer: Scorer) returns (found: bool)
      requires Valid()
      modifies this
      ensures Valid() && types == old(types)
      ensures State(found) == OneRound(types, scorer, old(State(found)))
    {
      ghost var r0 := State(false).(noMatchSet := []);
      noMatchSet := [];
      found := false;
      var k := 0;
      while k < |types|
        invariant 0 <= k <= |types|
        invariant types == old(types) && Valid()
        invariant State(found) == RoundUpTo(types, scorer, k, r0)
      {
        var f := FindMatches(types[k], scorer);
        found := f || found;
        k := k + 1;
      }
    }

    /** `while (newMatchesFound) { ... }`, entered with the flag up. */
    method Run(scorer: Scorer)
      requires Valid()
      modifies this
      ensures Valid() && types == old(types)
      ensures State(false) == Settle(types, scorer, old(State(true)))
    {
      ghost var goal := Settle(types, scorer, State(true));
      var found := true;
      while found
        invariant Valid() && types == old(types)
        invariant found ==> Settle(types, scorer, State(found)) == goal
        invariant !found ==> State(found) == goal
        decreases Remaining(types, records) + (if found then 1 else 0)
      {
        ghost var st := State(found);
        RoundProgress(types, scorer, |types|, st.(noMatchSet := [], found := false));
        found := Round(scorer);
      }
    }
  }

  /** What `deduplicate` and `reconcilePatient` hand to their callback
      once the loop has run over an index. */
  function Outcome(types: seq<string>, scorer: Scorer, records: map<string, seq<Option<Rec>>>): seq<Comp>
    requires AllIn(types, records)
  {
    var r := Settle(types, scorer, RoundState(records, map[], [], [], true));
    r.matchSet + r.noMatchSet
  }

  /** The outcome lists every `match` entry first and every `new` or
      `update` entry after them, and the records left in the index are
      pairwise inexact. */
  lemma OutcomeShape(types: seq<string>, scorer: Scorer, records: map<string, seq<Option<Rec>>>)
    requires AllIn(types, records)
    ensures var r := Settle(types, scorer, RoundState(records, map[], [], [], true));
      && AllSettled(types, scorer, r.records, r.matrix)
      && Outcome(types, scorer, records) == r.matchSet + r.noMatchSet
      && (forall x :: 0 <= x < |r.matchSet| ==> r.matchSet[x].Match?)
      && (forall x :: 0 <= x < |r.noMatchSet| ==> !r.noMatchSet[x].Match?)
  {
    SettleResult(types, scorer, RoundState(records, map[], [], [], true));
  }

  /** `deduplicate(patientId, success)` on the fetched bundle's resources:
      nothing when the bundle is empty (the callback gets `{}`), otherwise
      the outcome of the loop over the sorted index. */
  method Deduplicate(entries: seq<Rec>, scorer: Scorer) returns (result: Option<seq<Comp>>)
    ensures |entries| == 0 ==> result == None
    ensures |entries| > 0 ==> result == Some(Outcome(RecordIndex.TypesOf(entries), scorer, RecordIndex.SortedIndex(entries)))
  {
    if |entries| == 0 {
      return None;
    }
    var types, groups := RecordIndex.Group(entries);
    var records := RecordIndex.SortGroups(types, groups);
    assert records == RecordIndex.SortedIndex(entries);
    var engine := new Reconciler(types, records);
    engine.Run(scorer);
    result := Some(engine.matchSet + engine.noMatchSet);
  }

  /** `reconcilePatient(fhirResource, patientId, callback)`: the patient's
      resources indexed and sorted, the incoming resources appended, the
      loop run, and `matchSet.concat(noMatchSet)` returned. A patient bundle
      without `entry` (`None`) makes the indexing loop read `length` of
      `undefined` and throw: no result. */
  method ReconcilePatient(bundleEntries: Option<seq<Rec>>, incoming: seq<Rec>, scorer: Scorer) returns (result: Option<seq<Comp>>)
    ensures result.None? <==> bundleEntries.None?
    ensures bundleEntries.Some? ==>
      var entries := bundleEntries.value;
      result == Some(Outcome(RecordIndex.MergedTypes(entries, incoming), scorer, RecordIndex.MergedIndex(entries, incoming)))
  {
    if bundleEntries.None? {
      return None;
    }
    var entries := bundleEntries.value;
    var types, groups := RecordIndex.Group(entries);
    var records := RecordIndex.SortGroups(types, groups);
    var incomingTypes, incomingGroups := RecordIndex.Group(incoming);
    assert records == RecordIndex.SortedIndex(entries);
    var types', records' := RecordIndex.MergeIncoming(types, records, incomingTypes, incomingGroups);
    RecordIndex.MergedIndexFromParts(entries, incoming, incomingGroups, types', records');
    var engine := new Reconciler(types', records');
    engine.Run(scorer);
    result := Some(engine.matchSet + engine.noMatchSet);
  }
}
