/** `mergeExtensions` and its two comparators: when a duplicate is replaced
    by its primary, the duplicate's extensions (and an optional new one) are
    folded into the primary's. Mismatch markers and source markers are
    sorted and neighbours that compare equal are dropped; every other
    extension is kept as it is. */
module Extensions {
  import opened Util
  import opened Records
  import opened Sorting

  /** The three groups the merge separates extensions into. */
  datatype Kind = MismatchMarker | SourceMarker | Plain

  function KindOf(e: Extension): Kind {
    if e.url == Some(MismatchUrl) then MismatchMarker
    else if e.url == Some(SourceUrl) then SourceMarker
    else Plain
  }

  /** The extensions of one kind, in their original order. */
  function OfKind(s: seq<Extension>, k: Kind): (r: seq<Extension>)
    ensures |r| <= |s|
  {
    if s == [] then []
    else OfKind(s[..|s| - 1], k) + (if KindOf(s[|s| - 1]) == k then [s[|s| - 1]] else [])
  }

  // ---------------------------------------------------------------------
  // compareMismatchExtension

  /** `compareMismatchExtension(a, b)`: an extension without a `valueString`
      sorts after everything (even after another one without); two defined
      values compare as strings. */
  function CompareMismatch(a: Extension, b: Extension): int {
    if a.valueString.None? then 1
    else if b.valueString.None? then -1
    else if LexLess(a.valueString.value, b.valueString.value) then -1
    else if LexLess(b.valueString.value, a.valueString.value) then 1
    else 0
  }

  predicate MismatchLess(a: Extension, b: Extension) {
    CompareMismatch(a, b) < 0
  }

  predicate MismatchSame(a: Extension, b: Extension) {
    CompareMismatch(a, b) == 0
  }

  /** Two mismatch markers compare equal exactly when both carry the same
      defined `valueString`; markers without one never compare equal. */
  lemma MismatchSameIff(a: Extension, b: Extension)
    ensures MismatchSame(a, b) <==> a.valueString.Some? && a.valueString == b.valueString
  {
    if a.valueString.Some? && b.valueString.Some? {
      LexLessIrreflexive(a.valueString.value);
      if a.valueString != b.valueString {
        LexLessTotal(a.valueString.value, b.valueString.value);
      }
    }
  }

  lemma MismatchLessIrreflexive(a: Extension)
    ensures !MismatchLess(a, a)
  {
    if a.valueString.Some? {
      LexLessIrreflexive(a.valueString.value);
    }
  }

  lemma MismatchLessTransitive(a: Extension, b: Extension, c: Extension)
    requires MismatchLess(a, b) && MismatchLess(b, c)
    ensures MismatchLess(a, c)
  {
    if c.valueString.Some? {
      LexLessTransitive(a.valueString.value, b.valueString.value, c.valueString.value);
    }
  }

  /** The comparator is a strict order, so the sort is well defined, and
      "compares equal" is an equivalence, so dropping neighbours is a
      de-duplication. */
  lemma MismatchOrder(xs: multiset<Extension>)
    ensures StrictOn(MismatchLess, xs)
    ensures EquivalenceOn(MismatchSame, xs)
  {
    forall a | a in xs ensures !MismatchLess(a, a) {
      MismatchLessIrreflexive(a);
    }
    forall a, b, c | a in xs && b in xs && c in xs && MismatchLess(a, b) && MismatchLess(b, c)
      ensures MismatchLess(a, c)
    {
      MismatchLessTransitive(a, b, c);
    }
    forall a, b | a in xs && b in xs && MismatchSame(a, b) ensures MismatchSame(b, a) {
      MismatchSameIff(a, b);
      MismatchSameIff(b, a);
    }
    forall a, b, c | a in xs && b in xs && c in xs && MismatchSame(a, b) && MismatchSame(b, c)
      ensures MismatchSame(a, c)
    {
      MismatchSameIff(a, b);
      MismatchSameIff(b, c);
      MismatchSameIff(a, c);
    }
  }

  /** In a sorted list of mismatch markers, the ones without a
      `valueString` come last. */
  lemma UndefinedLast(s: seq<Extension>)
    requires SortedBy(s, MismatchLess)
    ensures forall i, j :: 0 <= i < j < |s| && s[i].valueString.None? ==> s[j].valueString.None?
  {
    forall i, j | 0 <= i < j < |s| && s[i].valueString.None?
      ensures s[j].valueString.None?
    {
      assert !MismatchLess(s[j], s[i]);
    }
  }

  // ---------------------------------------------------------------------
  // compareSourceExtension

  /** What `compareSourceExtension` reads from a source marker's parts: the
      date text (`valueDate`, else `valueDateTime`), the reference and the
      description. Each starts as `""` and a part without the value sets
      it to `undefined` (`None`). */
  datatype SourceFields = SourceFields(date: Option<string>, reference: Option<string>, description: Option<string>)

  function FieldStep(f: SourceFields, e: Extension): SourceFields {
    if e.url == Some(SourceDateUrl) then f.(date := if e.valueDate.Some? then e.valueDate else e.valueDateTime)
    else if e.url == Some(SourceReferenceUrl) then f.(reference := e.valueString)
    else if e.url == Some(SourceDescriptionUrl) then f.(description := e.valueString)
    else f
  }

  /** The scan over the first `k` parts. */
  function FieldsUpTo(parts: seq<Extension>, k: nat): SourceFields
    requires k <= |parts|
  {
    if k == 0 then SourceFields(Some(""), Some(""), Some(""))
    else FieldStep(FieldsUpTo(parts, k - 1), parts[k - 1])
  }

  function Fields(e: Extension): SourceFields {
    FieldsUpTo(e.extension, |e.extension|)
  }

  /** The urls of the three parts a source marker is read from. */
  predicate IsPartUrl(url: string) {
    url == SourceDateUrl || url == SourceReferenceUrl || url == SourceDescriptionUrl
  }

  /** The field a part url sets. */
  function FieldOf(f: SourceFields, url: string): Option<string> {
    if url == SourceDateUrl then f.date
    else if url == SourceReferenceUrl then f.reference
    else if url == SourceDescriptionUrl then f.description
    else None
  }

  /** The value a part with that url supplies. */
  function PartValue(e: Extension, url: string): Option<string> {
    if url == SourceDateUrl then (if e.valueDate.Some? then e.valueDate else e.valueDateTime)
    else e.valueString
  }

  /** Part `i` is the last of the first `k` parts with this url. */
  predicate LastWith(parts: seq<Extension>, k: nat, i: int, url: string) {
    && 0 <= i < k <= |parts|
    && parts[i].url == Some(url)
    && forall j :: i < j < k ==> parts[j].url != Some(url)
  }

  lemma SourcePartUrlsDistinct()
    ensures SourceDateUrl != SourceReferenceUrl
    ensures SourceDateUrl != SourceDescriptionUrl
    ensures SourceReferenceUrl != SourceDescriptionUrl
  {
    assert |SourceDateUrl| != |SourceReferenceUrl|;
    assert |SourceDateUrl| != |SourceDescriptionUrl|;
    assert |SourceReferenceUrl| != |SourceDescriptionUrl|;
  }

  /** A part with another url leaves a field alone. */
  lemma FieldStepOther(f: SourceFields, e: Extension, url: string)
    requires IsPartUrl(url) && e.url != Some(url)
    ensures FieldOf(FieldStep(f, e), url) == FieldOf(f, url)
  {
    SourcePartUrlsDistinct();
  }

  /** The last part with a given url decides the field. */
  lemma {:induction false} LastPartWins(parts: seq<Extension>, k: nat, i: int, url: string)
    requires IsPartUrl(url) && LastWith(parts, k, i, url)
    ensures FieldOf(FieldsUpTo(parts, k), url) == PartValue(parts[i], url)
    decreases k
  {
    if i < k - 1 {
      LastPartWins(parts, k - 1, i, url);
      FieldStepOther(FieldsUpTo(parts, k - 1), parts[k - 1], url);
    } else {
      SourcePartUrlsDistinct();
    }
  }

  /** Without a part with that url the field keeps its initial `""`. */
  lemma {:induction false} NoPartKeepsDefault(parts: seq<Extension>, k: nat, url: string)
    requires IsPartUrl(url) && k <= |parts|
    requires forall j :: 0 <= j < k ==> parts[j].url != Some(url)
    ensures FieldOf(FieldsUpTo(parts, k), url) == Some("")
    decreases k
  {
    if k > 0 {
      NoPartKeepsDefault(parts, k - 1, url);
      FieldStepOther(FieldsUpTo(parts, k - 1), parts[k - 1], url);
    } else {
      SourcePartUrlsDistinct();
    }
  }

  /** The loop of `compareSourceExtension` over one marker's parts. */
  method ReadFields(a: Extension) returns (f: SourceFields)
    ensures f == Fields(a)
  {
    f := SourceFields(Some(""), Some(""), Some(""));
    var i := 0;
    while i < |a.extension|
      invariant 0 <= i <= |a.extension|
      invariant f == FieldsUpTo(a.extension, i)
    {
      var part := a.extension[i];
      if part.url == Some(SourceDateUrl) {
        f := f.(date := part.valueDate);
        if part.valueDate.None? {
          f := f.(date := part.valueDateTime);
        }
      } else if part.url == Some(SourceReferenceUrl) {
        f := f.(reference := part.valueString);
      } else if part.url == Some(SourceDescriptionUrl) {
        f := f.(description := part.valueString);
      }
      i := i + 1;
    }
  }

  /** A date parser: the time in milliseconds, or `None` for text that
      `new Date` turns into an invalid date. */
  type DateParser = string -> Option<int>

  /** The date as compared: `undefined` stays `undefined`, anything else is
      parsed. */
  function DateKey(e: Extension, parse: DateParser): Option<int> {
    var d := Fields(e).date;
    if d.None? then None else parse(d.value)
  }

  /** JavaScript `<` on two dates: false as soon as one side is `undefined`
      or an invalid date. */
  predicate DateLess(x: Option<int>, y: Option<int>) {
    x.Some? && y.Some? && x.value < y.value
  }

  /** JavaScript `<` on two values that are strings or `undefined`: false
      as soon as one side is `undefined`. */
  predicate TextLess(x: Option<string>, y: Option<string>) {
    x.Some? && y.Some? && LexLess(x.value, y.value)
  }

  /** `compareSourceExtension(a, b)`: by date, then reference, then
      description. */
  function CompareSource(a: Extension, b: Extension, parse: DateParser): int {
    var fa := Fields(a);
    var fb := Fields(b);
    var da := DateKey(a, parse);
    var db := DateKey(b, parse);
    if DateLess(da, db) then -1
    else if DateLess(db, da) then 1
    else if TextLess(fa.reference, fb.reference) then -1
    else if TextLess(fb.reference, fa.reference) then 1
    else if TextLess(fa.description, fb.description) then -1
    else if TextLess(fb.description, fa.description) then 1
    else 0
  }

  /** The comparator as a method: both loops, then the comparisons. */
  method CompareSourceMarkers(a: Extension, b: Extension, parse: DateParser) returns (c: int)
    ensures c == CompareSource(a, b, parse)
    ensures c in {-1, 0, 1}
  {
    var fa := ReadFields(a);
    var fb := ReadFields(b);
    var da := if fa.date.None? then None else parse(fa.date.value);
    var db := if fb.date.None? then None else parse(fb.date.value);
    if DateLess(da, db) {
      return -1;
    }
    if DateLess(db, da) {
      return 1;
    }
    if TextLess(fa.reference, fb.reference) {
      return -1;
    }
    if TextLess(fb.reference, fa.reference) {
      return 1;
    }
    if TextLess(fa.description, fb.description) {
      return -1;
    }
    if TextLess(fb.description, fa.description) {
      return 1;
    }
    return 0;
  }

  function SourceOrder(parse: DateParser): (Extension, Extension) -> bool {
    (a: Extension, b: Extension) => CompareSource(a, b, parse) < 0
  }

  function SourceSame(parse: DateParser): (Extension, Extension) -> bool {
    (a: Extension, b: Extension) => CompareSource(a, b, parse) == 0
  }

  /** A source marker whose date parses and whose reference and description
      are defined. */
  predicate Complete(e: Extension, parse: DateParser) {
    DateKey(e, parse).Some? && Fields(e).reference.Some? && Fields(e).description.Some?
  }

  /** The key a marker is sorted by. */
  function SourceKey(e: Extension, parse: DateParser): (Option<int>, Option<string>, Option<string>) {
    (DateKey(e, parse), Fields(e).reference, Fields(e).description)
  }

  /** On complete markers, "compares equal" means "same date, reference
      and description". */
  lemma SourceSameIff(a: Extension, b: Extension, parse: DateParser)
    requires Complete(a, parse) && Complete(b, parse)
    ensures CompareSource(a, b, parse) == 0 <==> SourceKey(a, parse) == SourceKey(b, parse)
  {
    var fa := Fields(a);
    var fb := Fields(b);
    if SourceKey(a, parse) == SourceKey(b, parse) {
      LexLessIrreflexive(fa.reference.value);
      LexLessIrreflexive(fa.description.value);
    } else if fa.reference != fb.reference {
      LexLessTotal(fa.reference.value, fb.reference.value);
    } else if fa.description != fb.description {
      LexLessTotal(fa.description.value, fb.description.value);
    }
  }

  /** On complete markers the comparator is a strict order and "compares
      equal" an equivalence. (With an invalid or missing date the
      comparator is not transitive, and the engine's sort order is then
      unspecified.) */
  lemma SourceOrderStrict(xs: multiset<Extension>, parse: DateParser)
    requires forall e :: e in xs ==> Complete(e, parse)
    ensures StrictOn(SourceOrder(parse), xs)
    ensures EquivalenceOn(SourceSame(parse), xs)
  {
    var less := SourceOrder(parse);
    forall a | a in xs ensures !less(a, a) {
      SourceSameIff(a, a, parse);
    }
    forall a, b, c | a in xs && b in xs && c in xs && less(a, b) && less(b, c)
      ensures less(a, c)
    {
      SourceLessTransitive(a, b, c, parse);
    }
    forall a, b | a in xs && b in xs && SourceSame(parse)(a, b)
      ensures SourceSame(parse)(b, a)
    {
      SourceSameIff(a, b, parse);
      SourceSameIff(b, a, parse);
    }
    forall a, b, c | a in xs && b in xs && c in xs && SourceSame(parse)(a, b) && SourceSame(parse)(b, c)
      ensures SourceSame(parse)(a, c)
    {
      SourceSameIff(a, b, parse);
      SourceSameIff(b, c, parse);
      SourceSameIff(a, c, parse);
    }
  }

  lemma SourceLessTransitive(a: Extension, b: Extension, c: Extension, parse: DateParser)
    requires Complete(a, parse) && Complete(b, parse) && Complete(c, parse)
    requires CompareSource(a, b, parse) < 0 && CompareSource(b, c, parse) < 0
    ensures CompareSource(a, c, parse) < 0
  {
    var fa, fb, fc := Fields(a), Fields(b), Fields(c);
    var ra, rb, rc := fa.reference.value, fb.reference.value, fc.reference.value;
    var sa, sb, sc := fa.description.value, fb.description.value, fc.description.value;
    LexLessIrreflexive(ra);
    if LexLess(ra, rb) && LexLess(rb, rc) {
      LexLessTransitive(ra, rb, rc);
      LexLessAsymmetric(ra, rc);
    } else if LexLess(ra, rb) {
      LexLessAsymmetric(ra, rb);
    } else if LexLess(rb, rc) {
      LexLessAsymmetric(rb, rc);
    }
    if LexLess(sa, sb) && LexLess(sb, sc) {
      LexLessTransitive(sa, sb, sc);
      LexLessAsymmetric(sa, sc);
    }
    if LexLess(ra, rc) {
      LexLessAsymmetric(ra, rc);
    }
    if LexLess(sa, sc) {
      LexLessAsymmetric(sa, sc);
    }
    if ra != rb {
      LexLessTotal(ra, rb);
    }
    if rb != rc {
      LexLessTotal(rb, rc);
    }
    if sa != sb {
      LexLessTotal(sa, sb);
    }
    if sb != sc {
      LexLessTotal(sb, sc);
    }
  }

  // ---------------------------------------------------------------------
  // mergeExtensions

  /** The secondary's extensions followed by the new one, if any. */
  function Incoming(secondary: seq<Extension>, newExtension: Option<Extension>): seq<Extension> {
    secondary + (if newExtension.Some? then [newExtension.value] else [])
  }

  /** The mismatch markers, sorted and with equal neighbours dropped. */
  function MergedMismatches(pool: seq<Extension>): seq<Extension> {
    DedupAdjacent(SortBy(OfKind(pool, MismatchMarker), MismatchLess), MismatchSame)
  }

  /** The source markers, sorted and with equal neighbours dropped. */
  function MergedSources(pool: seq<Extension>, parse: DateParser): seq<Extension> {
    DedupAdjacent(SortBy(OfKind(pool, SourceMarker), SourceOrder(parse)), SourceSame(parse))
  }

  /** The primary's `extension` property after `mergeExtensions(primary,
      secondary, newExtension)`; `secondary` is the secondary's extension
      list, empty when there is no secondary or it has none. */
  function Merged(primary: Option<seq<Extension>>, secondary: seq<Extension>, newExtension: Option<Extension>, parse: DateParser): Option<seq<Extension>> {
    var incoming := Incoming(secondary, newExtension);
    if incoming == [] then primary
    else if primary.None? then Some(incoming)
    else
      var pool := incoming + primary.value;
      var r := OfKind(pool, Plain) + MergedMismatches(pool) + MergedSources(pool, parse);
      if |r| > 0 then Some(r) else primary
  }

  /** The loop that separates mismatch markers, source markers and the
      rest, each group in its original order. */
  method Partition(all: seq<Extension>) returns (mismatches: seq<Extension>, sources: seq<Extension>, others: seq<Extension>)
    ensures mismatches == OfKind(all, MismatchMarker)
    ensures sources == OfKind(all, SourceMarker)
    ensures others == OfKind(all, Plain)
  {
    mismatches, sources, others := [], [], [];
    var i := 0;
    while i < |all|
      invariant 0 <= i <= |all|
      invariant mismatches == OfKind(all[..i], MismatchMarker)
      invariant sources == OfKind(all[..i], SourceMarker)
      invariant others == OfKind(all[..i], Plain)
    {
      assert all[..i + 1][..i] == all[..i];
      var e := all[i];
      if e.url == Some(MismatchUrl) {
        mismatches := mismatches + [e];
      } else if e.url == Some(SourceUrl) {
        sources := sources + [e];
      } else {
        others := others + [e];
      }
      i := i + 1;
    }
    assert all[..i] == all;
  }

  method MergeExtensions(primary: Option<seq<Extension>>, secondary: seq<Extension>, newExtension: Option<Extension>, parse: DateParser)
    returns (extension: Option<seq<Extension>>)
    ensures extension == Merged(primary, secondary, newExtension, parse)
    ensures secondary == [] && newExtension.None? ==> extension == primary
    ensures primary.None? ==> extension == if Incoming(secondary, newExtension) == [] then None else Some(Incoming(secondary, newExtension))
  {
    var all := secondary;
    if newExtension.Some? {
      all := all + [newExtension.value];
    }
    assert all == Incoming(secondary, newExtension);
    if |all| == 0 {
      return primary;
    }
    if primary.None? {
      return Some(all);
    }
    all := all + primary.value;
    var mismatches, sources, others := Partition(all);
    mismatches := SortBy(mismatches, MismatchLess);
    mismatches := RemoveAdjacentDuplicates(mismatches, MismatchSame);
    others := others + mismatches;
    sources := SortBy(sources, SourceOrder(parse));
    sources := RemoveAdjacentDuplicates(sources, SourceSame(parse));
    others := others + sources;
    assert others == OfKind(all, Plain) + MergedMismatches(all) + MergedSources(all, parse);
    extension := primary;
    if |others| > 0 {
      extension := Some(others);
    }
  }

  // ---------------------------------------------------------------------
  // What the merged list holds

  lemma {:induction false} OfKindAppend(s: seq<Extension>, t: seq<Extension>, k: Kind)
    ensures OfKind(s + t, k) == OfKind(s, k) + OfKind(t, k)
    decreases |t|
  {
    if t != [] {
      var t' := t[..|t| - 1];
      assert (s + t)[..|s + t| - 1] == s + t';
      assert (s + t)[|s + t| - 1] == t[|t| - 1];
      OfKindAppend(s, t', k);
    } else {
      assert s + t == s;
    }
  }

  lemma {:induction false} OfKindMembers(s: seq<Extension>, k: Kind)
    ensures forall e :: e in OfKind(s, k) ==> KindOf(e) == k
    ensures multiset(OfKind(s, k)) <= multiset(s)
    ensures forall e :: e in s && KindOf(e) == k ==> e in OfKind(s, k)
    decreases |s|
  {
    if s != [] {
      var p := s[..|s| - 1];
      var x := s[|s| - 1];
      OfKindMembers(p, k);
      assert s == p + [x];
      assert multiset(s) == multiset(p) + multiset{x};
      if KindOf(x) == k {
        assert OfKind(s, k) == OfKind(p, k) + [x];
        assert multiset(OfKind(s, k)) == multiset(OfKind(p, k)) + multiset{x};
      } else {
        assert OfKind(s, k) == OfKind(p, k);
      }
    }
  }

  /** A list all of one kind is its own filter, and has nothing of the
      other kinds. */
  lemma {:induction false} OfKindOfOneKind(s: seq<Extension>, k: Kind, k': Kind)
    requires forall e :: e in s ==> KindOf(e) == k
    ensures OfKind(s, k') == if k == k' then s else []
    decreases |s|
  {
    if s != [] {
      var p := s[..|s| - 1];
      assert s == p + [s[|s| - 1]];
      assert forall e :: e in p ==> e in s;
      OfKindOfOneKind(p, k, k');
    }
  }

  /** The kept markers are of the kind they were filtered by. */
  lemma DedupOfKind(s: seq<Extension>, k: Kind, same: (Extension, Extension) -> bool, less: (Extension, Extension) -> bool)
    ensures forall e :: e in DedupAdjacent(SortBy(OfKind(s, k), less), same) ==> KindOf(e) == k
    ensures multiset(DedupAdjacent(SortBy(OfKind(s, k), less), same)) <= multiset(s)
  {
    OfKindMembers(s, k);
    var sorted := SortBy(OfKind(s, k), less);
    DedupAdjacentSubset(sorted, same);
    forall e | e in DedupAdjacent(sorted, same) ensures KindOf(e) == k {
      assert e in multiset(DedupAdjacent(sorted, same));
      assert e in multiset(OfKind(s, k));
    }
  }

  /** Three lists, one per kind, put side by side: each kind's filter
      gives back its own list. */
  lemma {:induction false} SideBySide(plain: seq<Extension>, ms: seq<Extension>, ss: seq<Extension>)
    requires forall e :: e in plain ==> KindOf(e) == Plain
    requires forall e :: e in ms ==> KindOf(e) == MismatchMarker
    requires forall e :: e in ss ==> KindOf(e) == SourceMarker
    ensures OfKind(plain + ms + ss, Plain) == plain
    ensures OfKind(plain + ms + ss, MismatchMarker) == ms
    ensures OfKind(plain + ms + ss, SourceMarker) == ss
  {
    forall kk: Kind
      ensures OfKind(plain + ms + ss, kk) == (if kk == Plain then plain else []) + (if kk == MismatchMarker then ms else []) + (if kk == SourceMarker then ss else [])
    {
      OfKindAppend(plain + ms, ss, kk);
      OfKindAppend(plain, ms, kk);
      OfKindOfOneKind(plain, Plain, kk);
      OfKindOfOneKind(ms, MismatchMarker, kk);
      OfKindOfOneKind(ss, SourceMarker, kk);
    }
  }

  /** Something came in, so one of the three groups is not empty. */
  lemma MergedNotEmpty(pool: seq<Extension>, parse: DateParser)
    requires pool != []
    ensures |OfKind(pool, Plain) + MergedMismatches(pool) + MergedSources(pool, parse)| > 0
  {
    var k := KindOf(pool[0]);
    OfKindMembers(pool, k);
    assert pool[0] in pool;
    if k == MismatchMarker {
      DedupAdjacentSubset(SortBy(OfKind(pool, k), MismatchLess), MismatchSame);
    } else if k == SourceMarker {
      DedupAdjacentSubset(SortBy(OfKind(pool, k), SourceOrder(parse)), SourceSame(parse));
    }
  }

  /** When the primary has extensions and something comes in, the new list
      is laid out as: the plain extensions of the incoming list and the
      primary, in order and all of them; then the merged mismatch markers;
      then the merged source markers. Nothing is invented. */
  lemma MergedLayout(primary: seq<Extension>, secondary: seq<Extension>, newExtension: Option<Extension>, parse: DateParser)
    requires Incoming(secondary, newExtension) != []
    ensures var pool := Incoming(secondary, newExtension) + primary;
      var r := Merged(Some(primary), secondary, newExtension, parse);
      && r.Some?
      && multiset(r.value) <= multiset(pool)
      && OfKind(r.value, Plain) == OfKind(pool, Plain)
      && r.value == OfKind(r.value, Plain) + OfKind(r.value, MismatchMarker) + OfKind(r.value, SourceMarker)
      && OfKind(r.value, MismatchMarker) == MergedMismatches(pool)
      && OfKind(r.value, SourceMarker) == MergedSources(pool, parse)
  {
    var pool := Incoming(secondary, newExtension) + primary;
    var r := OfKind(pool, Plain) + MergedMismatches(pool) + MergedSources(pool, parse);
    MergedIs(primary, secondary, newExtension, parse);
    NothingInvented(pool, parse);
    OfKindMembers(pool, Plain);
    DedupOfKind(pool, MismatchMarker, MismatchSame, MismatchLess);
    DedupOfKind(pool, SourceMarker, SourceSame(parse), SourceOrder(parse));
    SideBySide(OfKind(pool, Plain), MergedMismatches(pool), MergedSources(pool, parse));
  }

  lemma MergedIs(primary: seq<Extension>, secondary: seq<Extension>, newExtension: Option<Extension>, parse: DateParser)
    requires Incoming(secondary, newExtension) != []
    ensures var pool := Incoming(secondary, newExtension) + primary;
      Merged(Some(primary), secondary, newExtension, parse) == Some(OfKind(pool, Plain) + MergedMismatches(pool) + MergedSources(pool, parse))
  {
    MergedNotEmpty(Incoming(secondary, newExtension) + primary, parse);
  }

  lemma NothingInvented(pool: seq<Extension>, parse: DateParser)
    ensures multiset(OfKind(pool, Plain) + MergedMismatches(pool) + MergedSources(pool, parse)) <= multiset(pool)
  {
    var plain := OfKind(pool, Plain);
    var ms := MergedMismatches(pool);
    var ss := MergedSources(pool, parse);
    OfKindPartition(pool);
    DedupAdjacentSubset(SortBy(OfKind(pool, MismatchMarker), MismatchLess), MismatchSame);
    DedupAdjacentSubset(SortBy(OfKind(pool, SourceMarker), SourceOrder(parse)), SourceSame(parse));
    assert multiset(plain + ms + ss) == multiset(plain) + multiset(ms) + multiset(ss);
  }

  /** The three groups split a list without loss. */
  lemma {:induction false} OfKindPartition(s: seq<Extension>)
    ensures multiset(s) == multiset(OfKind(s, Plain)) + multiset(OfKind(s, MismatchMarker)) + multiset(OfKind(s, SourceMarker))
    decreases |s|
  {
    if s != [] {
      var p := s[..|s| - 1];
      OfKindPartition(p);
      assert s == p + [s[|s| - 1]];
    }
  }

  /** The mismatch markers after the merge are sorted with undefined values
      last, no two neighbours carry the same value, and each marker of the
      input is kept or has a kept marker with the same value. */
  lemma MergedMismatchesSorted(pool: seq<Extension>)
    ensures var ms := MergedMismatches(pool);
      && SortedBy(ms, MismatchLess)
      && NoAdjacentSame(ms, MismatchSame)
      && (forall i, j :: 0 <= i < j < |ms| && ms[i].valueString.None? ==> ms[j].valueString.None?)
      && (forall e :: e in pool && KindOf(e) == MismatchMarker ==>
            exists y :: y in ms && (y == e || y.valueString == e.valueString))
  {
    MergedMismatchesOrdered(pool);
    MergedMismatchesCover(pool);
  }

  lemma MergedMismatchesOrdered(pool: seq<Extension>)
    ensures var ms := MergedMismatches(pool);
      && SortedBy(ms, MismatchLess)
      && NoAdjacentSame(ms, MismatchSame)
      && (forall i, j :: 0 <= i < j < |ms| && ms[i].valueString.None? ==> ms[j].valueString.None?)
  {
    var marks := OfKind(pool, MismatchMarker);
    var sorted := SortBy(marks, MismatchLess);
    MismatchOrder(multiset(marks));
    SortBySorted(marks, MismatchLess);
    DedupAdjacentSorted(sorted, MismatchSame, MismatchLess);
    UndefinedLast(MergedMismatches(pool));
    MismatchOrder(multiset(sorted));
    DedupAdjacentNoAdjacent(sorted, MismatchSame);
  }

  lemma MergedMismatchesCover(pool: seq<Extension>)
    ensures forall e :: e in pool && KindOf(e) == MismatchMarker ==>
      exists y :: y in MergedMismatches(pool) && (y == e || y.valueString == e.valueString)
  {
    forall e | e in pool && KindOf(e) == MismatchMarker
      ensures exists y :: y in MergedMismatches(pool) && (y == e || y.valueString == e.valueString)
    {
      MismatchKept(pool, e);
    }
  }

  lemma MismatchKept(pool: seq<Extension>, e: Extension)
    requires e in pool && KindOf(e) == MismatchMarker
    ensures exists y :: y in MergedMismatches(pool) && (y == e || y.valueString == e.valueString)
  {
    var marks := OfKind(pool, MismatchMarker);
    OfKindMembers(pool, MismatchMarker);
    var sorted := SortBy(marks, MismatchLess);
    assert e in multiset(sorted);
    var i :| 0 <= i < |sorted| && sorted[i] == e;
    MismatchOrder(multiset(sorted));
    DedupAdjacentCoversAt(sorted, i, MismatchSame);
    var y :| y in MergedMismatches(pool) && (y == e || MismatchSame(e, y));
    MismatchSameIff(e, y);
  }

  /** The sorted source markers: the comparator is a strict order on them
      and "compares equal" an equivalence. */
  lemma SortedSourcesOrdered(pool: seq<Extension>, parse: DateParser)
    requires forall e :: e in pool && KindOf(e) == SourceMarker ==> Complete(e, parse)
    ensures var sorted := SortBy(OfKind(pool, SourceMarker), SourceOrder(parse));
      && SortedBy(sorted, SourceOrder(parse))
      && EquivalenceOn(SourceSame(parse), multiset(sorted))
      && forall e :: e in multiset(sorted) ==> Complete(e, parse)
  {
    var marks := OfKind(pool, SourceMarker);
    OfKindMembers(pool, SourceMarker);
    assert forall e :: e in multiset(marks) ==> Complete(e, parse);
    SourceOrderStrict(multiset(marks), parse);
    SortBySorted(marks, SourceOrder(parse));
  }

  /** With complete source markers, the source markers after the merge are
      sorted by (date, reference, description) and no two neighbours share
      that key. */
  lemma MergedSourcesSorted(pool: seq<Extension>, parse: DateParser)
    requires forall e :: e in pool && KindOf(e) == SourceMarker ==> Complete(e, parse)
    ensures var ss := MergedSources(pool, parse);
      && SortedBy(ss, SourceOrder(parse))
      && (forall i :: 0 < i < |ss| ==> SourceKey(ss[i], parse) != SourceKey(ss[i - 1], parse))
  {
    var sorted := SortBy(OfKind(pool, SourceMarker), SourceOrder(parse));
    var ss := MergedSources(pool, parse);
    SortedSourcesOrdered(pool, parse);
    DedupAdjacentSorted(sorted, SourceSame(parse), SourceOrder(parse));
    DedupAdjacentNoAdjacent(sorted, SourceSame(parse));
    DedupAdjacentSubset(sorted, SourceSame(parse));
    forall i | 0 < i < |ss| ensures SourceKey(ss[i], parse) != SourceKey(ss[i - 1], parse) {
      assert ss[i] in multiset(sorted) && ss[i - 1] in multiset(sorted);
      SourceSameIff(ss[i], ss[i - 1], parse);
    }
  }

  /** With complete source markers, every key of the input is still present
      after the merge. */
  lemma MergedSourcesKeepKeys(pool: seq<Extension>, parse: DateParser)
    requires forall e :: e in pool && KindOf(e) == SourceMarker ==> Complete(e, parse)
    ensures forall e :: e in pool && KindOf(e) == SourceMarker ==>
      exists y :: y in MergedSources(pool, parse) && SourceKey(y, parse) == SourceKey(e, parse)
  {
    OfKindMembers(pool, SourceMarker);
    forall e | e in pool && KindOf(e) == SourceMarker
      ensures exists y :: y in MergedSources(pool, parse) && SourceKey(y, parse) == SourceKey(e, parse)
    {
      SourceKeyKept(pool, parse, e);
    }
  }

  lemma SourceKeyKept(pool: seq<Extension>, parse: DateParser, e: Extension)
    requires forall e :: e in pool && KindOf(e) == SourceMarker ==> Complete(e, parse)
    requires e in OfKind(pool, SourceMarker)
    ensures exists y :: y in MergedSources(pool, parse) && SourceKey(y, parse) == SourceKey(e, parse)
  {
    var sorted := SortBy(OfKind(pool, SourceMarker), SourceOrder(parse));
    SortedSourcesOrdered(pool, parse);
    assert e in multiset(sorted);
    var i :| 0 <= i < |sorted| && sorted[i] == e;
    DedupKeepsKey(sorted, i, parse);
  }

  lemma DedupKeepsKey(sorted: seq<Extension>, i: int, parse: DateParser)
    requires 0 <= i < |sorted|
    requires EquivalenceOn(SourceSame(parse), multiset(sorted))
    requires forall e :: e in multiset(sorted) ==> Complete(e, parse)
    ensures exists y :: y in DedupAdjacent(sorted, SourceSame(parse)) && SourceKey(y, parse) == SourceKey(sorted[i], parse)
  {
    var ss := DedupAdjacent(sorted, SourceSame(parse));
    DedupAdjacentSubset(sorted, SourceSame(parse));
    DedupAdjacentCoversAt(sorted, i, SourceSame(parse));
    var y :| y in ss && (y == sorted[i] || SourceSame(parse)(sorted[i], y));
    assert y in multiset(sorted) && sorted[i] in multiset(sorted);
    SourceSameIff(sorted[i], y, parse);
  }
}
