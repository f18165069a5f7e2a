/** The per-type record index `patientRecord` that `deduplicate` and
    `reconcilePatient` build before clustering: the records of a bundle
    grouped by resource type in order of first appearance, each group sorted
    by id, and the incoming records appended after the sort. */
module RecordIndex {
  import opened Util
  import opened Records
  import Sorting

  /** The records of type `t`, in bundle order. */
  function OfType(entries: seq<Rec>, t: string): seq<Rec> {
    if entries == [] then []
    else
      var init := entries[..|entries| - 1];
      var last := entries[|entries| - 1];
      OfType(init, t) + (if last.resourceType == t then [last] else [])
  }

  /** A group holds exactly the records of its type, each as often as the
      bundle does. */
  lemma {:induction false} OfTypeCounts(entries: seq<Rec>, t: string)
    ensures forall x :: x in OfType(entries, t) ==> x.resourceType == t
    ensures forall x :: multiset(OfType(entries, t))[x] == if x.resourceType == t then multiset(entries)[x] else 0
    decreases |entries|
  {
    if entries != [] {
      var init := entries[..|entries| - 1];
      assert entries == init + [entries[|entries| - 1]];
      OfTypeCounts(init, t);
    }
  }

  /** The resource types of the bundle in order of first appearance: the
      order in which `for (key in patientRecord)` visits them. */
  function TypesOf(entries: seq<Rec>): seq<string> {
    if entries == [] then []
    else
      var init := entries[..|entries| - 1];
      var last := entries[|entries| - 1];
      var ts := TypesOf(init);
      if last.resourceType in ts then ts else ts + [last.resourceType]
  }

  /** The types listed are exactly those of the records, each once. */
  lemma {:induction false} TypesOfMembers(entries: seq<Rec>)
    ensures forall t :: t in TypesOf(entries) <==> exists x :: x in entries && x.resourceType == t
    ensures forall a, b :: 0 <= a < b < |TypesOf(entries)| ==> TypesOf(entries)[a] != TypesOf(entries)[b]
    decreases |entries|
  {
    if entries != [] {
      var init := entries[..|entries| - 1];
      assert entries == init + [entries[|entries| - 1]];
      TypesOfMembers(init);
    }
  }

  /** The loop that pushes every record onto the array of its type,
      creating the array the first time the type is seen. */
  method Group(entries: seq<Rec>) returns (types: seq<string>, groups: map<string, seq<Rec>>)
    ensures types == TypesOf(entries)
    ensures forall a, b :: 0 <= a < b < |types| ==> types[a] != types[b]
    ensures forall t :: t in groups <==> t in types
    ensures forall t :: t in groups ==> groups[t] == OfType(entries, t)
  {
    types := [];
    groups := map[];
    var i := 0;
    while i < |entries|
      invariant 0 <= i <= |entries|
      invariant types == TypesOf(entries[..i])
      invariant forall t :: t in groups <==> t in types
      invariant forall t :: t in groups ==> groups[t] == OfType(entries[..i], t)
    {
      var r := entries[i];
      var t := r.resourceType;
      GroupStep(entries, i);
      if t !in groups {
        groups := groups[t := []];
        types := types + [t];
      }
      groups := groups[t := groups[t] + [r]];
      assert types == TypesOf(entries[..i + 1]);
      assert forall u :: u in groups ==> groups[u] == OfType(entries[..i + 1], u);
      i := i + 1;
    }
    assert entries[..i] == entries;
    TypesOfMembers(entries);
  }

  /** What one more record does to the types and the groups. */
  lemma GroupStep(entries: seq<Rec>, i: nat)
    requires i < |entries|
    ensures var r := entries[i];
      && TypesOf(entries[..i + 1]) == (if r.resourceType in TypesOf(entries[..i]) then TypesOf(entries[..i]) else TypesOf(entries[..i]) + [r.resourceType])
      && (r.resourceType !in TypesOf(entries[..i]) ==> OfType(entries[..i], r.resourceType) == [])
      && forall t :: OfType(entries[..i + 1], t) == OfType(entries[..i], t) + (if r.resourceType == t then [r] else [])
  {
    var r := entries[i];
    assert entries[..i + 1][..i] == entries[..i];
    if r.resourceType !in TypesOf(entries[..i]) {
      TypesOfMembers(entries[..i]);
      OfTypeCounts(entries[..i], r.resourceType);
      var g := OfType(entries[..i], r.resourceType);
      assert forall x :: x in g ==> x in entries[..i];
    }
  }

  /** The sort comparator on defined ids: JavaScript's `<` on strings. */
  predicate IdLess(a: Rec, b: Rec) {
    LexLess(a.id, b.id)
  }

  lemma IdLessStrict(xs: multiset<Rec>)
    ensures Sorting.StrictOn(IdLess, xs)
  {
    forall a | a in xs
      ensures !IdLess(a, a)
    {
      LexLessIrreflexive(a.id);
    }
    forall a, b, c | a in xs && b in xs && c in xs && IdLess(a, b) && IdLess(b, c)
      ensures IdLess(a, c)
    {
      LexLessTransitive(a.id, b.id, c.id);
    }
  }

  /** A group sorted by id is ordered by id and holds the same records. */
  lemma SortedGroup(group: seq<Rec>)
    ensures var s := Sorting.SortBy(group, IdLess);
      && multiset(s) == multiset(group)
      && forall a, b :: 0 <= a < b < |s| ==> !LexLess(s[b].id, s[a].id)
  {
    IdLessStrict(multiset(group));
    Sorting.SortBySorted(group, IdLess);
  }

  /** The array of a type as `findMatches` sees it: a slot per record. */
  function Slots(rs: seq<Rec>): (r: seq<Option<Rec>>)
    ensures |r| == |rs| && forall k :: 0 <= k < |rs| ==> r[k] == Some(rs[k])
  {
    seq(|rs|, k requires 0 <= k < |rs| => Some(rs[k]))
  }

  /** The index after the sort loop: every group sorted by id. */
  method SortGroups(types: seq<string>, groups: map<string, seq<Rec>>) returns (records: map<string, seq<Option<Rec>>>)
    requires forall t :: t in groups <==> t in types
    ensures forall t :: t in records <==> t in types
    ensures forall t :: t in records ==> records[t] == Slots(Sorting.SortBy(groups[t], IdLess))
  {
    records := map[];
    var k := 0;
    while k < |types|
      invariant 0 <= k <= |types|
      invariant forall t :: t in records <==> t in types[..k]
      invariant forall t :: t in records ==> records[t] == Slots(Sorting.SortBy(groups[t], IdLess))
    {
      var t := types[k];
      ghost var before := records;
      records := records[t := Slots(Sorting.SortBy(groups[t], IdLess))];
      assert types[..k + 1] == types[..k] + [t];
      forall u | u in records
        ensures records[u] == Slots(Sorting.SortBy(groups[u], IdLess))
      {
        if u != t {
          assert records[u] == before[u];
        }
      }
      k := k + 1;
    }
    assert types[..k] == types;
  }

  /** The index `deduplicate` clusters: each type's records sorted by id. */
  function SortedIndex(entries: seq<Rec>): map<string, seq<Option<Rec>>> {
    map t | t in TypesOf(entries) :: Slots(Sorting.SortBy(OfType(entries, t), IdLess))
  }

  /** The incoming types the index does not have yet, in their order. */
  function NewTypes(incomingTypes: seq<string>, types: seq<string>): seq<string> {
    if incomingTypes == [] then []
    else
      var init := incomingTypes[..|incomingTypes| - 1];
      var last := incomingTypes[|incomingTypes| - 1];
      NewTypes(init, types) + (if last in types then [] else [last])
  }

  lemma {:induction false} NewTypesMembers(incomingTypes: seq<string>, types: seq<string>)
    ensures forall t :: t in NewTypes(incomingTypes, types) <==> t in incomingTypes && t !in types
    decreases |incomingTypes|
  {
    if incomingTypes != [] {
      var init := incomingTypes[..|incomingTypes| - 1];
      assert incomingTypes == init + [incomingTypes[|incomingTypes| - 1]];
      NewTypesMembers(init, types);
    }
  }

  /** The types of the index `reconcilePatient` clusters: the bundle's, then
      the new incoming ones. */
  function MergedTypes(entries: seq<Rec>, incoming: seq<Rec>): seq<string> {
    TypesOf(entries) + NewTypes(TypesOf(incoming), TypesOf(entries))
  }

  /** The index `reconcilePatient` clusters: each type's sorted records
      followed by its incoming records in arrival order. */
  function MergedIndex(entries: seq<Rec>, incoming: seq<Rec>): map<string, seq<Option<Rec>>> {
    map t | t in MergedTypes(entries, incoming) ::
      (if t in TypesOf(entries) then SortedIndex(entries)[t] else [])
      + (if t in TypesOf(incoming) then Slots(OfType(incoming, t)) else [])
  }

  /** One iteration of the merge loop, for incoming type `key`. */
  function MergeStep(ts: seq<string>, rs: map<string, seq<Option<Rec>>>, key: string, incoming: map<string, seq<Rec>>)
    : (seq<string>, map<string, seq<Option<Rec>>>)
    requires key in incoming
  {
    if key !in rs then (ts + [key], rs[key := Slots(incoming[key])])
    else (ts, rs[key := rs[key] + Slots(incoming[key])])
  }

  /** One merge step keeps the types as the existing ones followed by the
      new incoming ones in order, and keeps the index's keys equal to the
      listed types. */
  lemma MergeStepTypes(types: seq<string>, ts: seq<string>, rs: map<string, seq<Option<Rec>>>, done: seq<string>, key: string, incoming: map<string, seq<Rec>>)
    requires key in incoming && key !in done
    requires ts == types + NewTypes(done, types)
    requires forall t :: t in rs <==> t in ts
    ensures MergeStep(ts, rs, key, incoming).0 == types + NewTypes(done + [key], types)
    ensures forall t :: t in MergeStep(ts, rs, key, incoming).1 <==> t in MergeStep(ts, rs, key, incoming).0
  {
    assert (done + [key])[..|done|] == done;
    assert NewTypes(done + [key], types) == NewTypes(done, types) + (if key in types then [] else [key]);
    NewTypesMembers(done, types);
    assert key in rs <==> key in types;
  }

  /** A type not yet merged is in the index exactly when it was there
      before the merge. */
  lemma KeyAlreadyIndexed(types: seq<string>, records: map<string, seq<Option<Rec>>>, ts: seq<string>, rs: map<string, seq<Option<Rec>>>, done: seq<string>, key: string)
    requires forall t :: t in records <==> t in types
    requires ts == types + NewTypes(done, types)
    requires forall t :: t in rs <==> t in ts
    requires key !in done
    ensures key in rs <==> key in records
  {
    NewTypesMembers(done, types);
    assert key !in NewTypes(done, types);
  }

  /** With distinct incoming types, the `k`-th is not among those before
      it, and each of those has its incoming records. */
  lemma PrefixFacts(incomingTypes: seq<string>, incoming: map<string, seq<Rec>>, k: nat)
    requires 0 < k <= |incomingTypes| && forall t :: t in incomingTypes ==> t in incoming
    requires forall a, b :: 0 <= a < b < |incomingTypes| ==> incomingTypes[a] != incomingTypes[b]
    ensures incomingTypes[..k] == incomingTypes[..k - 1] + [incomingTypes[k - 1]]
    ensures incomingTypes[k - 1] !in incomingTypes[..k - 1]
    ensures forall t :: t in incomingTypes[..k - 1] ==> t in incoming
  {
    var done := incomingTypes[..k - 1];
    assert incomingTypes[..k] == done + [incomingTypes[k - 1]];
    forall j | 0 <= j < k - 1
      ensures done[j] != incomingTypes[k - 1]
    {
      assert done[j] == incomingTypes[j];
    }
    forall t | t in done
      ensures t in incoming
    {
      assert t in incomingTypes;
    }
  }

  /** One merge step appends the incoming records of its type to that
      type's old records, and leaves every other type alone. */
  lemma MergeStepRecords(records: map<string, seq<Option<Rec>>>, ts: seq<string>, rs: map<string, seq<Option<Rec>>>, done: seq<string>, key: string, incoming: map<string, seq<Rec>>)
    requires key in incoming && key !in done && (key in rs <==> key in records)
    requires forall t :: t in done ==> t in incoming
    requires forall t :: t in rs ==> rs[t] == (if t in records then records[t] else []) + (if t in done then Slots(incoming[t]) else [])
    ensures var rs' := MergeStep(ts, rs, key, incoming).1;
      forall t :: t in rs' ==> rs'[t] == (if t in records then records[t] else []) + (if t in done + [key] then Slots(incoming[t]) else [])
  {
  }

  /** The merge of the incoming records: a type already in the index gets
      them appended after its sorted records, a new type is added after the
      existing ones with the incoming records unsorted. */
  method MergeIncoming(types: seq<string>, records: map<string, seq<Option<Rec>>>, incomingTypes: seq<string>, incoming: map<string, seq<Rec>>)
    returns (types': seq<string>, records': map<string, seq<Option<Rec>>>)
    requires forall t :: t in records <==> t in types
    requires forall t :: t in incoming <==> t in incomingTypes
    requires forall a, b :: 0 <= a < b < |incomingTypes| ==> incomingTypes[a] != incomingTypes[b]
    ensures types' == types + NewTypes(incomingTypes, types)
    ensures forall t :: t in records' <==> t in types'
    ensures forall t :: t in records' ==>
      records'[t] == (if t in records then records[t] else []) + (if t in incoming then Slots(incoming[t]) else [])
  {
    types' := types;
    records' := records;
    var k := 0;
    MergingStart(types, records, incomingTypes, incoming);
    while k < |incomingTypes|
      invariant 0 <= k <= |incomingTypes|
      invariant Merging(types, records, incomingTypes, incoming, k, types', records')
    {
      MergingStep(types, records, incomingTypes, incoming, k, types', records');
      types', records' := MergeOne(types', records', incomingTypes[k], incoming);
      k := k + 1;
    }
    MergingDone(types, records, incomingTypes, incoming, types', records');
  }

  /** The body of the merge loop for incoming type `key`. */
  method MergeOne(ts: seq<string>, rs: map<string, seq<Option<Rec>>>, key: string, incoming: map<string, seq<Rec>>)
    returns (ts': seq<string>, rs': map<string, seq<Option<Rec>>>)
    requires key in incoming
    ensures (ts', rs') == MergeStep(ts, rs, key, incoming)
  {
    ts', rs' := ts, rs;
    if key !in rs' {
      rs' := rs'[key := Slots(incoming[key])];
      ts' := ts' + [key];
    } else {
      rs' := rs'[key := rs'[key] + Slots(incoming[key])];
    }
  }

  lemma MergingStart(types: seq<string>, records: map<string, seq<Option<Rec>>>, incomingTypes: seq<string>, incoming: map<string, seq<Rec>>)
    requires forall t :: t in records <==> t in types
    requires forall t :: t in incomingTypes ==> t in incoming
    ensures Merging(types, records, incomingTypes, incoming, 0, types, records)
  {
    assert incomingTypes[..0] == [];
  }

  lemma MergingDone(types: seq<string>, records: map<string, seq<Option<Rec>>>, incomingTypes: seq<string>, incoming: map<string, seq<Rec>>,
                    ts: seq<string>, rs: map<string, seq<Option<Rec>>>)
    requires forall t :: t in incoming <==> t in incomingTypes
    requires Merging(types, records, incomingTypes, incoming, |incomingTypes|, ts, rs)
    ensures ts == types + NewTypes(incomingTypes, types)
    ensures forall t :: t in rs <==> t in ts
    ensures forall t :: t in rs ==>
      rs[t] == (if t in records then records[t] else []) + (if t in incoming then Slots(incoming[t]) else [])
  {
    assert incomingTypes[..|incomingTypes|] == incomingTypes;
  }

  /** The loop invariant of the merge after `k` incoming types: the types
      are the existing ones then the new incoming ones, the index has
      exactly those keys, and every type holds its old records followed by
      its incoming ones if already merged. */
  ghost predicate Merging(types: seq<string>, records: map<string, seq<Option<Rec>>>, incomingTypes: seq<string>, incoming: map<string, seq<Rec>>,
                          k: nat, ts: seq<string>, rs: map<string, seq<Option<Rec>>>)
    requires k <= |incomingTypes| && forall t :: t in incomingTypes ==> t in incoming
  {
    && ts == types + NewTypes(incomingTypes[..k], types)
    && (forall t :: t in rs <==> t in ts)
    && forall t :: t in rs ==>
         rs[t] == (if t in records then records[t] else []) + (if t in incomingTypes[..k] then Slots(incoming[t]) else [])
  }

  lemma MergingStep(types: seq<string>, records: map<string, seq<Option<Rec>>>, incomingTypes: seq<string>, incoming: map<string, seq<Rec>>,
                    k: nat, ts: seq<string>, rs: map<string, seq<Option<Rec>>>)
    requires k < |incomingTypes| && forall t :: t in incomingTypes ==> t in incoming
    requires forall t :: t in records <==> t in types
    requires forall a, b :: 0 <= a < b < |incomingTypes| ==> incomingTypes[a] != incomingTypes[b]
    requires Merging(types, records, incomingTypes, incoming, k, ts, rs)
    ensures var next := MergeStep(ts, rs, incomingTypes[k], incoming);
      Merging(types, records, incomingTypes, incoming, k + 1, next.0, next.1)
  {
    var key := incomingTypes[k];
    var done := incomingTypes[..k];
    PrefixFacts(incomingTypes, incoming, k + 1);
    KeyAlreadyIndexed(types, records, ts, rs, done, key);
    MergeStepTypes(types, ts, rs, done, key, incoming);
    MergeStepRecords(records, ts, rs, done, key, incoming);
  }

  /** The index `MergeIncoming` builds from the sorted index and the
      grouped incoming records is `MergedIndex`. */
  lemma MergedIndexFromParts(entries: seq<Rec>, incoming: seq<Rec>, incomingGroups: map<string, seq<Rec>>, types': seq<string>, records': map<string, seq<Option<Rec>>>)
    requires forall t :: t in incomingGroups <==> t in TypesOf(incoming)
    requires forall t :: t in incomingGroups ==> incomingGroups[t] == OfType(incoming, t)
    requires types' == MergedTypes(entries, incoming)
    requires forall t :: t in records' <==> t in types'
    requires forall t :: t in records' ==>
      records'[t] == (if t in SortedIndex(entries) then SortedIndex(entries)[t] else [])
        + (if t in incomingGroups then Slots(incomingGroups[t]) else [])
    ensures records' == MergedIndex(entries, incoming)
  {
    var m := MergedIndex(entries, incoming);
    assert records'.Keys == m.Keys;
    forall t | t in m
      ensures records'[t] == m[t]
    {
      assert t in SortedIndex(entries) <==> t in TypesOf(entries);
      assert t in incomingGroups <==> t in TypesOf(incoming);
    }
  }
}
