/** Resources as the reconciliation engine sees them, the FHIR extensions it
    reads and writes, and the pairwise score with its mismatch short-circuit. */
module Records {
  import opened Util
  import Definition

  const MismatchUrl: string := "http://amida-tech.com/fhir/extensions/mismatch"
  const SourceUrl: string := "http://amida-tech.com/fhir/extensions/source"
  const SourceDateUrl: string := "http://amida-tech.com/fhir/extensions/source/date"
  const SourceReferenceUrl: string := "http://amida-tech.com/fhir/extensions/source/reference"
  const SourceDescriptionUrl: string := "http://amida-tech.com/fhir/extensions/source/description"

  /** A FHIR extension with the properties the engine reads. A missing list
      of nested extensions is the empty list. */
  datatype Extension = Extension(
    url: Option<string>,
    valueString: Option<string>,
    valueDate: Option<string>,
    valueDateTime: Option<string>,
    extension: seq<Extension>)

  /** A resource: its type, its id, its optional extension list, and the
      rest of it, which only the scorer looks at. */
  datatype Rec = Rec(resourceType: string, id: string, extension: Option<seq<Extension>>, content: string)

  /** `"type/id"` to the id of the head of its cluster. */
  type Matrix = map<string, string>

  /** The `changes` a scorer reports: `null`, a string, or a list of edits. */
  datatype Changes = NoChanges | Text(text: string) | Edits(edits: seq<Definition.Edit>)

  datatype Scored = Scored(score: real, changes: Changes)

  /** The scorer `scoreRecord` falls back on for an unflagged pair. The
      source calls `dict.calculateScore(proposed, original, matchMatrix,
      patientRecord)`, a function its `dict` module does not define; here it
      is a parameter, given the two records and the matrix (`undefined` when
      the caller has none) but not `patientRecord`. */
  type Scorer = (Rec, Rec, Option<Matrix>) -> Scored

  /** `changes === null || changes === '' || changes.length == 0`. */
  predicate IsExact(c: Changes) {
    match c
    case NoChanges => true
    case Text(t) => |t| == 0
    case Edits(es) => |es| == 0
  }

  /** An extension that flags `id` as a known mismatch. */
  predicate MarksMismatchWith(e: Extension, id: string) {
    e.url == Some(MismatchUrl) && e.valueString == Some(id)
  }

  /** `isMismatch(original, proposed)`: one of the original's extensions
      flags the proposed record's id as a mismatch. */
  predicate IsMismatch(original: Rec, proposed: Rec) {
    original.extension.Some? &&
    exists j :: 0 <= j < |original.extension.value| && MarksMismatchWith(original.extension.value[j], proposed.id)
  }

  /** `scoreRecord(original, proposed, matchMatrix)`: a pair flagged as a
      mismatch in either direction scores 0 with changes `''` and the scorer
      is not consulted; otherwise the scorer decides. */
  function ScoreRecord(original: Rec, proposed: Rec, matrix: Option<Matrix>, scorer: Scorer): (r: Scored)
    ensures IsMismatch(original, proposed) || IsMismatch(proposed, original) ==> r == Scored(0.0, Text(""))
    ensures !IsMismatch(original, proposed) && !IsMismatch(proposed, original) ==> r == scorer(proposed, original, matrix)
  {
    if IsMismatch(original, proposed) then Scored(0.0, Text(""))
    else if IsMismatch(proposed, original) then Scored(0.0, Text(""))
    else scorer(proposed, original, matrix)
  }

  /** The changes `''` of the short-circuit pass the exact-match test, so a
      pair flagged as a mismatch is treated like an identical pair by the
      clustering pass, whatever the scorer would have said. */
  lemma MismatchedPairCountsAsExact(original: Rec, proposed: Rec, matrix: Option<Matrix>, scorer: Scorer, j: nat)
    requires original.extension.Some? && j < |original.extension.value|
    requires MarksMismatchWith(original.extension.value[j], proposed.id)
    ensures IsExact(ScoreRecord(original, proposed, matrix, scorer).changes)
    ensures IsExact(ScoreRecord(proposed, original, matrix, scorer).changes)
    ensures ScoreRecord(original, proposed, matrix, scorer).score == 0.0
  {
  }

  /** Without a mismatch flag in either record the short-circuit never
      fires and the pair is scored by the scorer alone. */
  lemma NoFlagsMeansScorer(original: Rec, proposed: Rec, matrix: Option<Matrix>, scorer: Scorer)
    requires original.extension.None? || forall e :: e in original.extension.value ==> e.url != Some(MismatchUrl)
    requires proposed.extension.None? || forall e :: e in proposed.extension.value ==> e.url != Some(MismatchUrl)
    ensures ScoreRecord(original, proposed, matrix, scorer) == scorer(proposed, original, matrix)
  {
    if original.extension.Some? {
      forall j | 0 <= j < |original.extension.value|
        ensures !MarksMismatchWith(original.extension.value[j], proposed.id)
      {
        assert original.extension.value[j] in original.extension.value;
      }
    }
    if proposed.extension.Some? {
      forall j | 0 <= j < |proposed.extension.value|
        ensures !MarksMismatchWith(proposed.extension.value[j], original.id)
      {
        assert proposed.extension.value[j] in proposed.extension.value;
      }
    }
  }
}
