/** The Patient merge definition: the weighted scorer that turns a list of
    differences between two records into a score out of 100, its
    `matchCriteria` table, and the two search-query builders.

    The differences themselves come from the `deep-diff` library, which is
    not part of this model: the scorer receives them as an abstract list of
    edits, each with a kind and a property path. */
module Definition {
  import opened Util

  /** `deep-diff` kinds: N added, D deleted, E edited, A change inside an array. */
  datatype Kind = N | D | E | A

  /** One difference; array indices in a path appear as their decimal text. */
  datatype Edit = Edit(kind: Kind, path: seq<string>)

  /** A `matchCriteria` entry `[weight for N/D/A, weight for E]`. */
  datatype Weights = Weights(other: real, edited: real)

  type Criteria = map<string, Weights>

  const DefaultKey: string := "default_value"

  /** The Patient table. */
  const PatientCriteria: Criteria := map[
    "id" := Weights(0.0, -5.0),
    "text" := Weights(0.0, -1.0),
    "meta_lastUpdated" := Weights(0.0, 0.0),
    DefaultKey := Weights(-1.0, -2.5)
  ]

  /** `path[0]`, which is `undefined` (looked up as the key "undefined") for
      an empty path. */
  function FirstSegment(path: seq<string>): string {
    if |path| > 0 then path[0] else "undefined"
  }

  /** The table entry used for a path: the whole path joined with `_`, else
      its first segment, else the default. */
  function WeightsFor(c: Criteria, path: seq<string>): Weights
    requires DefaultKey in c
  {
    var compiled := Join(path, "_");
    if compiled in c then c[compiled]
    else if FirstSegment(path) in c then c[FirstSegment(path)]
    else c[DefaultKey]
  }

  /** What one difference adds to the score: the second weight for an edit,
      the first for every other kind. */
  function Contribution(c: Criteria, e: Edit): real
    requires DefaultKey in c
  {
    if e.kind == E then WeightsFor(c, e.path).edited else WeightsFor(c, e.path).other
  }

  /** The sum of the contributions of `es`, accumulated left to right. */
  function Total(c: Criteria, es: seq<Edit>): real
    requires DefaultKey in c
  {
    if es == [] then 0.0 else Total(c, es[..|es| - 1]) + Contribution(c, es[|es| - 1])
  }

  /** `Patient.calculateScore` once the differences are known: `None` is a
      `diff` result of `undefined` (no difference at all). */
  method CalculateScore(c: Criteria, differences: Option<seq<Edit>>) returns (score: real)
    requires DefaultKey in c
    ensures differences.None? ==> score == 100.0
    ensures differences.Some? ==> score == 100.0 + Total(c, differences.value)
  {
    score := 100.0;
    if differences.None? {
      return;
    }
    var ds := differences.value;
    var i := 0;
    while i < |ds|
      invariant 0 <= i <= |ds|
      invariant score == 100.0 + Total(c, ds[..i])
    {
      assert ds[..i + 1][..i] == ds[..i];
      score := score + Contribution(c, ds[i]);
      i := i + 1;
    }
    assert ds[..|ds|] == ds;
  }

  /** Only an edit reads the second weight: an array change weighs what an
      addition or a deletion at the same path weighs. */
  lemma ArrayChangeWeighsLikeAddition(c: Criteria, path: seq<string>)
    requires DefaultKey in c
    ensures Contribution(c, Edit(A, path)) == Contribution(c, Edit(N, path))
    ensures Contribution(c, Edit(D, path)) == Contribution(c, Edit(N, path))
  {
  }

  /** A specific entry for the whole path wins over the entry for its first
      segment, and the default is used only when neither is present. */
  lemma LookupOrder(c: Criteria, path: seq<string>)
    requires DefaultKey in c
    ensures Join(path, "_") in c ==> WeightsFor(c, path) == c[Join(path, "_")]
    ensures Join(path, "_") !in c && FirstSegment(path) in c ==> WeightsFor(c, path) == c[FirstSegment(path)]
    ensures Join(path, "_") !in c && FirstSegment(path) !in c ==> WeightsFor(c, path) == c[DefaultKey]
  {
  }

  lemma {:induction false} TotalAppend(c: Criteria, a: seq<Edit>, b: seq<Edit>)
    requires DefaultKey in c
    ensures Total(c, a + b) == Total(c, a) + Total(c, b)
    decreases |b|
  {
    if b == [] {
      assert a + b == a;
    } else {
      var b' := b[..|b| - 1];
      assert (a + b)[..|a + b| - 1] == a + b';
      assert (a + b)[|a + b| - 1] == b[|b| - 1];
      TotalAppend(c, a, b');
    }
  }

  /** The score does not depend on the order in which `deep-diff` lists the
      differences. */
  lemma {:induction false} TotalPermutation(c: Criteria, a: seq<Edit>, b: seq<Edit>)
    requires DefaultKey in c
    requires multiset(a) == multiset(b)
    ensures Total(c, a) == Total(c, b)
    decreases |a|
  {
    if a != [] {
      var x := a[|a| - 1];
      var a' := a[..|a| - 1];
      assert a == a' + [x];
      assert x in multiset(b);
      var k :| 0 <= k < |b| && b[k] == x;
      var b' := b[..k] + b[k + 1..];
      assert b == b[..k] + [x] + b[k + 1..];
      assert multiset(b) == multiset(b') + multiset{x};
      assert multiset(a) == multiset(a') + multiset{x};
      assert multiset(a') == multiset(a) - multiset{x};
      assert multiset(b') == multiset(b) - multiset{x};
      TotalPermutation(c, a', b');
      TotalAppend(c, b[..k], b[k + 1..]);
      TotalAppend(c, b[..k], [x]);
      TotalAppend(c, b[..k] + [x], b[k + 1..]);
      assert Total(c, [x]) == Contribution(c, x) by {
        assert [x][..0] == [];
      }
    }
  }

  /** Every weight of the table is at most zero. */
  ghost predicate NonPositive(c: Criteria) {
    forall k :: k in c ==> c[k].other <= 0.0 && c[k].edited <= 0.0
  }

  /** Every weight of the table is at least `lo`. */
  ghost predicate AtLeast(c: Criteria, lo: real) {
    forall k :: k in c ==> lo <= c[k].other && lo <= c[k].edited
  }

  lemma PatientCriteriaBounds()
    ensures DefaultKey in PatientCriteria
    ensures NonPositive(PatientCriteria)
    ensures AtLeast(PatientCriteria, -5.0)
  {
  }

  /** A single contribution is one of the table's weights. */
  lemma ContributionBounds(c: Criteria, e: Edit, lo: real)
    requires DefaultKey in c
    ensures NonPositive(c) ==> Contribution(c, e) <= 0.0
    ensures AtLeast(c, lo) ==> lo <= Contribution(c, e)
  {
    var compiled := Join(e.path, "_");
    if compiled in c {
      assert WeightsFor(c, e.path) == c[compiled];
    } else if FirstSegment(e.path) in c {
      assert WeightsFor(c, e.path) == c[FirstSegment(e.path)];
    } else {
      assert WeightsFor(c, e.path) == c[DefaultKey];
    }
  }

  /** With a table whose weights lie in `[lo, 0]`, `n` differences bring the
      score down to somewhere between `100 + n * lo` and `100`. */
  lemma TotalBounds(c: Criteria, es: seq<Edit>, lo: real)
    requires DefaultKey in c && NonPositive(c) && AtLeast(c, lo)
    ensures (|es| as real) * lo <= Total(c, es) <= 0.0
  {
    TotalAtLeastRepeated(c, es, lo);
    RepeatedIsProduct(|es|, lo);
  }

  /** `lo` added up `n` times. */
  function Repeated(n: nat, lo: real): real {
    if n == 0 then 0.0 else Repeated(n - 1, lo) + lo
  }

  lemma {:induction false} RepeatedIsProduct(n: nat, lo: real)
    ensures Repeated(n, lo) == (n as real) * lo
  {
    if n > 0 {
      RepeatedIsProduct(n - 1, lo);
      assert (n as real) * lo == ((n - 1) as real) * lo + lo;
    }
  }

  lemma {:induction false} TotalAtLeastRepeated(c: Criteria, es: seq<Edit>, lo: real)
    requires DefaultKey in c && NonPositive(c) && AtLeast(c, lo)
    ensures Repeated(|es|, lo) <= Total(c, es) <= 0.0
    decreases |es|
  {
    if es != [] {
      var init := es[..|es| - 1];
      var last := es[|es| - 1];
      TotalAtLeastRepeated(c, init, lo);
      ContributionBounds(c, last, lo);
      assert Total(c, es) == Total(c, init) + Contribution(c, last);
    }
  }

  /** With a table of non-positive weights, inserting one more difference
      anywhere in the list never raises the score. */
  lemma ExtraDifferenceNeverRaises(c: Criteria, a: seq<Edit>, e: Edit, b: seq<Edit>)
    requires DefaultKey in c && NonPositive(c)
    ensures Total(c, a + [e] + b) <= Total(c, a + b)
  {
    TotalAppend(c, a + [e], b);
    TotalAppend(c, a, [e]);
    TotalAppend(c, a, b);
    assert [e][..0] == [];
    ContributionBounds(c, e, 0.0);
    assert Total(c, [e]) == Contribution(c, e);
  }

  /** The Patient score of a list of differences lies between `100 - 5n`
      and `100`. */
  method PatientScore(differences: Option<seq<Edit>>) returns (score: real)
    ensures score <= 100.0
    ensures differences.Some? ==> 100.0 - 5.0 * (|differences.value| as real) <= score
    ensures differences.None? ==> score == 100.0
  {
    PatientCriteriaBounds();
    score := CalculateScore(PatientCriteria, differences);
    if differences.Some? {
      TotalBounds(PatientCriteria, differences.value, -5.0);
    }
  }

  // ---------------------------------------------------------------------
  // Search queries

  /** A value in a query object: `_count: 1000`, a single `system|value`
      string, or `{$or: [...]}`. */
  datatype QueryValue = Count(n: int) | Term(text: string) | AnyOf(terms: seq<string>)

  type Query = map<string, QueryValue>

  /** An element of an identifier or coding array, as a map from property
      names to their string values. */
  type Coding = map<string, string>

  /** `c[name]` concatenated into a string: a missing property reads as
      "undefined". */
  function Property(c: Coding, name: string): string {
    if name in c then c[name] else "undefined"
  }

  /** `c.system + '|' + c[valueName]`. */
  function SystemAndValue(c: Coding, valueName: string): string {
    Property(c, "system") + "|" + Property(c, valueName)
  }

  function Terms(codings: seq<Coding>, valueName: string): (r: seq<string>)
    ensures |r| == |codings|
    ensures forall i :: 0 <= i < |r| ==> r[i] == SystemAndValue(codings[i], valueName)
  {
    if codings == [] then [] else Terms(codings[..|codings| - 1], valueName) + [SystemAndValue(codings[|codings| - 1], valueName)]
  }

  /** The query object `buildSystemAndCodeQueryArray` returns. */
  function SystemAndCodeQuery(codings: seq<Coding>, fieldName: string, valueName: string): Query {
    var ret := map["_count" := Count(1000)];
    if |codings| == 1 then ret[fieldName := Term(SystemAndValue(codings[0], valueName))]
    else ret[fieldName := AnyOf(Terms(codings, valueName))]
  }

  /** The query always has `_count: 1000` (unless the field itself is called
      `_count`) and exactly one other key, the field; a single element gives
      one `system|value` string and any other number of elements, including
      none, a `$or` list with one string per element in order. */
  lemma SystemAndCodeQueryShape(codings: seq<Coding>, fieldName: string, valueName: string)
    ensures SystemAndCodeQuery(codings, fieldName, valueName).Keys == {"_count", fieldName}
    ensures fieldName != "_count" ==> SystemAndCodeQuery(codings, fieldName, valueName)["_count"] == Count(1000)
    ensures |codings| == 1 ==>
      SystemAndCodeQuery(codings, fieldName, valueName)[fieldName] == Term(SystemAndValue(codings[0], valueName))
    ensures |codings| != 1 ==>
      var q := SystemAndCodeQuery(codings, fieldName, valueName)[fieldName];
      q.AnyOf? && |q.terms| == |codings| &&
      forall i :: 0 <= i < |codings| ==> q.terms[i] == SystemAndValue(codings[i], valueName)
  {
  }

  /** `buildSystemAndCodeQueryArray(theArray, fieldName, valueName)`. */
  method BuildSystemAndCodeQuery(codings: seq<Coding>, fieldName: string, valueName: string) returns (ret: Query)
    ensures ret == SystemAndCodeQuery(codings, fieldName, valueName)
  {
    ret := map["_count" := Count(1000)];
    if |codings| == 1 {
      ret := ret[fieldName := Term(SystemAndValue(codings[0], valueName))];
      return;
    }
    var terms: seq<string> := [];
    var i := 0;
    while i < |codings|
      invariant 0 <= i <= |codings|
      invariant terms == Terms(codings[..i], valueName)
    {
      assert codings[..i + 1][..i] == codings[..i];
      terms := terms + [SystemAndValue(codings[i], valueName)];
      i := i + 1;
    }
    assert codings[..|codings|] == codings;
    ret := ret[fieldName := AnyOf(terms)];
  }

  /** The text before the first `|` of a term, and the text after it. */
  function SplitTerm(t: string): (string, string) {
    var k := IndexOf(t, "|");
    if k < 0 then (t, "") else (t[..k], t[k + 1..])
  }

  /** A search server splitting a `system|value` term at its first `|` gets
      back the system and the value, provided the system holds no `|`. */
  lemma SystemAndValueSplits(c: Coding, valueName: string)
    requires !Contains(Property(c, "system"), "|")
    ensures SplitTerm(SystemAndValue(c, valueName)) == (Property(c, "system"), Property(c, valueName))
  {
    var s := Property(c, "system");
    var t := SystemAndValue(c, valueName);
    assert OccursAt(t, "|", |s|);
    forall k | 0 <= k < |s|
      ensures !OccursAt(t, "|", k)
    {
      if OccursAt(t, "|", k) {
        assert t[k] == s[k];
        assert OccursAt(s, "|", k);
      }
    }
    assert t[..|s|] == s;
    assert t[|s| + 1..] == Property(c, valueName);
  }

  /** The part of a patient the query builder reads. A patient without an
      `identifier` property has `None` there. */
  datatype PatientRecord = PatientRecord(id: Option<string>, identifier: Option<seq<Coding>>)

  /** `Patient.searchQueryArray(patient, id)`. Without an `identifier` the
      builder reads `length` of `undefined` and throws: the result is then
      `None`. */
  method PatientSearchQuery(patient: PatientRecord, id: Option<string>) returns (query: Option<seq<Query>>)
    ensures query.None? <==> patient.identifier.None?
    ensures query.Some? ==>
      var q := query.value;
      && |q| == (if id.Some? || patient.id.Some? then 2 else 1)
      && (id.Some? ==> q[0] == map["_id" := Term("Patient/" + id.value)])
      && (id.None? && patient.id.Some? ==> q[0] == map["_id" := Term("Patient/" + patient.id.value)])
      && q[|q| - 1] == SystemAndCodeQuery(patient.identifier.value, "identifier", "value")
  {
    var q := [];
    if id.Some? || patient.id.Some? {
      var patientId := "Patient/" + Show(patient.id);
      if id.Some? {
        patientId := "Patient/" + id.value;
      }
      q := q + [map["_id" := Term(patientId)]];
    }
    if patient.identifier.None? {
      return None;
    }
    var identifierQuery := BuildSystemAndCodeQuery(patient.identifier.value, "identifier", "value");
    query := Some(q + [identifierQuery]);
  }
}
