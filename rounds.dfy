/** The `while (newMatchesFound)` loop shared by `deduplicate`,
    `reconcilePatient` and `handleMerges`: rounds of `findMatches` over every
    type, repeated until a round absorbs nothing. Stated as functions, with
    the proof that the loop ends and what holds when it does. */
module Rounds {
  import opened Util
  import opened Records
  import opened Clustering

  /** The variables the loop works on: the index, the matrix, the two
      result lists and `newMatchesFound`. */
  datatype RoundState = RoundState(
    records: map<string, seq<Option<Rec>>>,
    matrix: Matrix,
    matchSet: seq<Comp>,
    noMatchSet: seq<Comp>,
    found: bool)

  predicate AllIn(types: seq<string>, records: map<string, seq<Option<Rec>>>) {
    forall t :: t in types ==> t in records
  }

  /** `newMatchesFound = findMatches(patientRecord, key, ...) || newMatchesFound`:
      the call is made whatever the flag already is. */
  function TypeStep(key: string, scorer: Scorer, r: RoundState): (r': RoundState)
    requires key in r.records
    ensures r'.records.Keys == r.records.Keys
  {
    var p := FindMatches(key, scorer, r.records[key], r.matrix, r.matchSet, r.noMatchSet);
    RoundState(r.records[key := p.slots], p.matrix, p.matchSet, p.noMatchSet, p.found || r.found)
  }

  /** The `for (key in patientRecord)` loop over the first `k` types. */
  function RoundUpTo(types: seq<string>, scorer: Scorer, k: nat, r0: RoundState): (r: RoundState)
    requires k <= |types| && AllIn(types, r0.records)
    ensures r.records.Keys == r0.records.Keys
    decreases k
  {
    if k == 0 then r0 else TypeStep(types[k - 1], scorer, RoundUpTo(types, scorer, k - 1, r0))
  }

  /** One iteration of the `while` loop: the flag and `noMatchSet` are reset,
      then every type is scanned. */
  function OneRound(types: seq<string>, scorer: Scorer, st: RoundState): (r: RoundState)
    requires AllIn(types, st.records)
    ensures r.records.Keys == st.records.Keys
  {
    RoundUpTo(types, scorer, |types|, st.(noMatchSet := [], found := false))
  }

  /** The records still present over all types. */
  function Remaining(types: seq<string>, records: map<string, seq<Option<Rec>>>): nat
    requires AllIn(types, records)
  {
    if types == [] then 0 else NonNull(records[types[0]]) + Remaining(types[1..], records)
  }

  lemma {:induction false} RemainingUpdate(types: seq<string>, records: map<string, seq<Option<Rec>>>, key: string, s: seq<Option<Rec>>)
    requires AllIn(types, records) && key in records
    requires NonNull(s) <= NonNull(records[key])
    ensures Remaining(types, records[key := s]) <= Remaining(types, records)
    ensures NonNull(s) < NonNull(records[key]) && key in types ==> Remaining(types, records[key := s]) < Remaining(types, records)
    decreases |types|
  {
    if types != [] {
      RemainingUpdate(types[1..], records, key, s);
      if key in types && key != types[0] {
        assert key in types[1..];
      }
    }
  }

  /** A round never adds records back, and a round that absorbs something
      removes at least one. */
  lemma {:induction false} RoundProgress(types: seq<string>, scorer: Scorer, k: nat, r0: RoundState)
    requires k <= |types| && AllIn(types, r0.records)
    ensures var r := RoundUpTo(types, scorer, k, r0);
      && Remaining(types, r.records) <= Remaining(types, r0.records)
      && (r.found && !r0.found ==> Remaining(types, r.records) < Remaining(types, r0.records))
    decreases k
  {
    if k > 0 {
      RoundProgress(types, scorer, k - 1, r0);
      var mid := RoundUpTo(types, scorer, k - 1, r0);
      var key := types[k - 1];
      var p0 := Pass(mid.records[key], mid.matrix, mid.matchSet, mid.noMatchSet, [], false);
      PassProgress(key, scorer, |mid.records[key]|, p0);
      var p := FindMatches(key, scorer, mid.records[key], mid.matrix, mid.matchSet, mid.noMatchSet);
      RemainingUpdate(types, mid.records, key, p.slots);
    }
  }

  /** Every type's open records are pairwise inexact. */
  ghost predicate AllSettled(types: seq<string>, scorer: Scorer, records: map<string, seq<Option<Rec>>>, matrix: Matrix)
    requires AllIn(types, records)
  {
    forall t :: t in types ==> Settled(t, scorer, records[t], matrix)
  }

  /** A round that absorbs nothing changes neither the index, the matrix
      nor `matchSet`, and every type it scanned was settled. */
  lemma {:induction false} RoundQuiet(types: seq<string>, scorer: Scorer, k: nat, r0: RoundState)
    requires k <= |types| && AllIn(types, r0.records)
    requires !RoundUpTo(types, scorer, k, r0).found
    ensures var r := RoundUpTo(types, scorer, k, r0);
      r.records == r0.records && r.matrix == r0.matrix && r.matchSet == r0.matchSet
    ensures forall x :: 0 <= x < k ==> Settled(types[x], scorer, r0.records[types[x]], r0.matrix)
    decreases k
  {
    if k > 0 {
      RoundQuiet(types, scorer, k - 1, r0);
      var key := types[k - 1];
      FindMatchesFalseIffSettled(key, scorer, r0.records[key], r0.matrix, r0.matchSet, RoundUpTo(types, scorer, k - 1, r0).noMatchSet);
    }
  }

  /** Conversely, from a state where every type is settled a round absorbs
      nothing and changes neither the index, the matrix nor `matchSet`. */
  lemma {:induction false} SettledRoundQuiet(types: seq<string>, scorer: Scorer, k: nat, r0: RoundState)
    requires k <= |types| && AllIn(types, r0.records) && !r0.found
    requires forall x :: 0 <= x < k ==> Settled(types[x], scorer, r0.records[types[x]], r0.matrix)
    ensures var r := RoundUpTo(types, scorer, k, r0);
      !r.found && r.records == r0.records && r.matrix == r0.matrix && r.matchSet == r0.matchSet
    decreases k
  {
    if k > 0 {
      SettledRoundQuiet(types, scorer, k - 1, r0);
      var key := types[k - 1];
      FindMatchesFalseIffSettled(key, scorer, r0.records[key], r0.matrix, r0.matchSet, RoundUpTo(types, scorer, k - 1, r0).noMatchSet);
    }
  }

  /** The loop's exit test: a round reports no new match exactly when every
      type was already settled before it. */
  lemma RoundFixpoint(types: seq<string>, scorer: Scorer, st: RoundState)
    requires AllIn(types, st.records)
    ensures !OneRound(types, scorer, st).found <==> AllSettled(types, scorer, st.records, st.matrix)
  {
    var r0 := st.(noMatchSet := [], found := false);
    if !OneRound(types, scorer, st).found {
      RoundQuiet(types, scorer, |types|, r0);
      forall t | t in types
        ensures Settled(t, scorer, st.records[t], st.matrix)
      {
        var x :| 0 <= x < |types| && types[x] == t;
      }
    } else if AllSettled(types, scorer, st.records, st.matrix) {
      SettledRoundQuiet(types, scorer, |types|, r0);
    }
  }

  /** The whole `while (newMatchesFound)` loop: at least one round, and
      another one as long as the last one absorbed something. */
  function Settle(types: seq<string>, scorer: Scorer, st: RoundState): (r: RoundState)
    requires AllIn(types, st.records)
    ensures r.records.Keys == st.records.Keys
    decreases Remaining(types, st.records)
  {
    var r := OneRound(types, scorer, st);
    if !r.found then r
    else
      RoundProgress(types, scorer, |types|, st.(noMatchSet := [], found := false));
      Settle(types, scorer, r)
  }

  /** The lists a round appends to: `matchSet` only grows, and only by
      `match` entries; `noMatchSet` holds only `new` and `update` entries
      after its initial part. */
  lemma {:induction false} RoundAppends(types: seq<string>, scorer: Scorer, k: nat, r0: RoundState)
    requires k <= |types| && AllIn(types, r0.records)
    ensures var r := RoundUpTo(types, scorer, k, r0);
      && r0.matchSet <= r.matchSet && r0.noMatchSet <= r.noMatchSet
      && (forall x :: |r0.matchSet| <= x < |r.matchSet| ==> r.matchSet[x].Match?)
      && (forall x :: |r0.noMatchSet| <= x < |r.noMatchSet| ==> !r.noMatchSet[x].Match?)
    decreases k
  {
    if k > 0 {
      RoundAppends(types, scorer, k - 1, r0);
      var mid := RoundUpTo(types, scorer, k - 1, r0);
      var key := types[k - 1];
      PassAppends(key, scorer, |mid.records[key]|, Pass(mid.records[key], mid.matrix, mid.matchSet, mid.noMatchSet, [], false));
    }
  }

  /** What the loop leaves behind: the flag is down, every type is settled,
      `matchSet` has only grown and only by `match` entries, and
      `noMatchSet` (the last round's) holds only `new` and `update`
      entries. */
  lemma {:induction false} SettleResult(types: seq<string>, scorer: Scorer, st: RoundState)
    requires AllIn(types, st.records)
    ensures var r := Settle(types, scorer, st);
      && !r.found
      && AllSettled(types, scorer, r.records, r.matrix)
      && st.matchSet <= r.matchSet
      && (forall x :: |st.matchSet| <= x < |r.matchSet| ==> r.matchSet[x].Match?)
      && (forall x :: 0 <= x < |r.noMatchSet| ==> !r.noMatchSet[x].Match?)
    decreases Remaining(types, st.records)
  {
    var r0 := st.(noMatchSet := [], found := false);
    var r := OneRound(types, scorer, st);
    RoundAppends(types, scorer, |types|, r0);
    if !r.found {
      RoundQuiet(types, scorer, |types|, r0);
      RoundFixpoint(types, scorer, r);
    } else {
      RoundProgress(types, scorer, |types|, r0);
      SettleResult(types, scorer, r);
    }
  }

  predicate AllPlain(types: seq<string>, records: map<string, seq<Option<Rec>>>)
    requires AllIn(types, records)
  {
    forall t :: t in types ==> PlainIds(t, records[t])
  }

  lemma {:induction false} RoundMatrix(types: seq<string>, scorer: Scorer, k: nat, r0: RoundState)
    requires k <= |types| && AllIn(types, r0.records)
    requires AllPlain(types, r0.records) && Closed(r0.matrix)
    ensures var r := RoundUpTo(types, scorer, k, r0);
      AllPlain(types, r.records) && Closed(r.matrix) && Extends(r0.matrix, r.matrix)
    decreases k
  {
    if k > 0 {
      RoundMatrix(types, scorer, k - 1, r0);
      var mid := RoundUpTo(types, scorer, k - 1, r0);
      var key := types[k - 1];
      PassMatrix(key, scorer, |mid.records[key]|, Pass(mid.records[key], mid.matrix, mid.matchSet, mid.noMatchSet, [], false));
      ExtendsTransitive(r0.matrix, mid.matrix, RoundUpTo(types, scorer, k, r0).matrix);
    }
  }

  /** When no id begins with its own type, the loop only adds entries to
      the matrix, and every entry points at a head that points at itself. */
  lemma {:induction false} SettleMatrix(types: seq<string>, scorer: Scorer, st: RoundState)
    requires AllIn(types, st.records) && AllPlain(types, st.records) && Closed(st.matrix)
    ensures var r := Settle(types, scorer, st);
      Closed(r.matrix) && Extends(st.matrix, r.matrix)
    decreases Remaining(types, st.records)
  {
    var r0 := st.(noMatchSet := [], found := false);
    var r := OneRound(types, scorer, st);
    RoundMatrix(types, scorer, |types|, r0);
    if r.found {
      RoundProgress(types, scorer, |types|, r0);
      SettleMatrix(types, scorer, r);
      ExtendsTransitive(st.matrix, r.matrix, Settle(types, scorer, r).matrix);
    }
  }
}
