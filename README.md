# dre-data reconciliation core in Dafny

This project models the in-memory reconciliation logic of the dre-data
FHIR client (the Data Reconciliation Engine), and proves properties of
that model:

- **Clustering engine.** `findMatches` compares every record of a type
  with every later record. An exact match absorbs the later record: its
  slot is nulled and the match matrix maps it to the head. Otherwise the
  best near match above 70 becomes an `update`. The
  `while (newMatchesFound)` loop of `deduplicate` and `reconcilePatient`
  repeats whole passes until a pass absorbs nothing. Also modelled:
  - the per-type record index, sorted by id, with the incoming records
    appended;
  - the mismatch short-circuit of `scoreRecord`;
  - the matrix seeding at the start of `handleMerges`.
- **Weighted scorer.** The Patient merge definition's `calculateScore`
  with its `matchCriteria` table, and the two search-query builders.
- **Extension merge.** `mergeExtensions` partitions the extensions into
  mismatch markers, source markers and the rest. It sorts and
  de-duplicates the two marker groups with `compareMismatchExtension` and
  `compareSourceExtension`, then concatenates the groups.
- **Duplicate replacement.** The writes `replace` issues, as an ordered
  log of abstract transactions: re-saved referrers first, then the delete
  of the duplicate, with the primary re-saved when extensions must be
  merged.
- **String and list helpers.**
  - the reference cut out of a `_history` location;
  - the page links built from a paging link;
  - the `type/id` de-duplication of merged pages;
  - the candidate collection and best-above-70 choice of `reconcile`.
- **Transaction builder and provenance accumulator.** The classes whose
  `bundle.entry` and `resources` lists grow as resources are added.

Imperative source code is modelled by classes and methods with loops. Each
method is proved equal to a specification function written as a left fold
that follows the loop step by step. The properties are proved about those
functions. Pure code is modelled by functions and lemmas.

Server calls, the clock, `JSON.stringify`/`JSON.parse`, `new Date(...)`,
`btoa` and the `deep-diff` library are not modelled. The date parser is a
parameter. So is the scorer `scoreRecord` falls back on: the source calls
`dict.calculateScore`, but `dict` is the merge-definition module
(lib/client.js:5), which exports only `definitions`
(lib/mergeDefinitions/definition.js:5), so that call has no function to
reach (see "## Left out"). Serialised resources are abstract strings.

Where the code does something other than what its own comments say, the
model follows the code:
- `replace` rewrites only the **first** reference to the duplicate in each
  re-saved resource. `String.prototype.replace` with a string pattern
  (lib/client.js:1035) replaces one occurrence, while the comments at
  lib/client.js:1008 and lib/client.js:1034 speak of replacing all
  references. `Replace.SecondReferenceSurvives` shows a second reference
  surviving.
- `replace` issues the delete transaction from inside the upsert's
  callback (lib/client.js:1049-1053) and never looks at the upsert's
  `err`. The model's log holds the upsert and then the delete, in that
  order, whatever the upsert reported.
- `scoreRecord` returns score 0 with `''` as `changes` when `isMismatch`
  flags the pair in either direction (lib/client.js:746-750), and
  `findMatches` treats `''` as an exact match. So a pair flagged as a mismatch is absorbed as a match
  (`Records.MismatchedPairCountsAsExact`).

## Model

| member | source | states |
|---|---|---|
| Util.ReplaceFirstAt | lib/client.js:1035 | when the first occurrence of the pattern follows `a`, `replace` turns `a + p + b` into `a + r + b`, leaving any later occurrence in `b` alone |
| Util.ReplaceFirstLeavesSecondOccurrence | lib/client.js:1035 | replacing in `p + sep + p` gives `r + sep + p`, which still contains `p` |
| Util.LexLessIrreflexive | lib/client.js:400-403 | JavaScript `<` on strings is irreflexive |
| Util.LexLessTransitive | lib/client.js:400-403 | JavaScript `<` on strings is transitive |
| Util.LexLessTotal | lib/client.js:400-403 | of two different strings one is `<` the other |
| Util.LexLessAsymmetric | lib/client.js:400-403 | `a < b` excludes `b < a` |
| Definition.CalculateScore | lib/mergeDefinitions/definition.js:72-107 | no differences (`undefined`/`null`) scores exactly 100; otherwise 100 plus the summed weights of the differences |
| Definition.ArrayChangeWeighsLikeAddition | lib/mergeDefinitions/definition.js:91 | only kind `E` uses the second weight; `A`, `N` and `D` all use the first |
| Definition.LookupOrder | lib/mergeDefinitions/definition.js:92-103 | the weight pair comes from the `_`-joined path if listed, else from `path[0]`, else from `default_value` |
| Definition.TotalAppend | lib/mergeDefinitions/definition.js:81-104 | the sum over two lists of differences is the sum of the two sums |
| Definition.TotalPermutation | lib/mergeDefinitions/definition.js:81-104 | the score does not depend on the order of the differences |
| Definition.PatientCriteriaBounds | lib/mergeDefinitions/definition.js:65-70 | the Patient table has `default_value`, and every weight lies between -5 and 0 |
| Definition.TotalBounds | lib/mergeDefinitions/definition.js:81-104 | with weights in `[lo, 0]`, n differences sum to between `n * lo` and 0 |
| Definition.ExtraDifferenceNeverRaises | lib/mergeDefinitions/definition.js:81-104 | with non-positive weights, adding a difference never raises the score |
| Definition.PatientScore | lib/mergeDefinitions/definition.js:65-107 | a Patient score is at most 100, at least `100 - 5n` for n differences, and exactly 100 without differences |
| Definition.Terms | lib/mergeDefinitions/definition.js:122-125 | one string per element, in order: its system and its value joined by a bar |
| Definition.SystemAndCodeQueryShape | lib/mergeDefinitions/definition.js:114-128 | the query has exactly the keys `_count` (1000) and the field; one element gives its system and value joined by a bar, any other length a `$or` list of such strings in element order |
| Definition.BuildSystemAndCodeQuery | lib/mergeDefinitions/definition.js:114-128 | the loop builds exactly that query |
| Definition.SystemAndValueSplits | lib/mergeDefinitions/definition.js:117 | splitting the joined string at its first bar gives back the system and the value when the system holds no bar |
| Definition.PatientSearchQuery | lib/mergeDefinitions/definition.js:49-63 | no query (the source throws) exactly when the patient has no `identifier`; otherwise an `_id` query for `Patient/` + the given id, else the patient's id, present only when one of them is defined, then the identifier query |
| Records.ScoreRecord | lib/client.js:743-753 | a pair flagged as a mismatch in either direction scores 0 with changes `''`; otherwise the scorer's result, with the arguments swapped |
| Records.MismatchedPairCountsAsExact | lib/client.js:743-775 | a mismatch flag makes the changes pass the exact-match test in both directions, with score 0 |
| Records.NoFlagsMeansScorer | lib/client.js:758-775 | without mismatch-url extensions on either record, the scorer alone decides |
| Clustering.InnerStep | lib/client.js:846-879 | one comparison keeps the number of slots and the head's slot, keeps the entry's `lhs` the head record, and never clears `foundNewMatch` |
| Clustering.InnerUpTo | lib/client.js:845-880 | the same for the whole inner loop |
| Clustering.InnerStepProgress | lib/client.js:846-879 | one comparison never raises the count of live records, and lowers it when it sets `foundNewMatch` |
| Clustering.InnerProgress | lib/client.js:845-880 | the same for the whole inner loop |
| Clustering.HeadStep | lib/client.js:836-893 | one head keeps the number of slots and never clears `foundNewMatch` |
| Clustering.PassUpTo | lib/client.js:829-895 | the same for the outer loop |
| Clustering.NonNullClear | lib/client.js:868 | nulling a live slot lowers the count of live records by one |
| Clustering.InnerQuiet | lib/client.js:845-880 | an inner loop that absorbs nothing leaves slots and matrix as they were, and the head had no exact partner |
| Clustering.PassQuiet | lib/client.js:829-895 | a pass that absorbs nothing leaves slots, matrix and `matchSet` as they were, and no examined head had an exact partner |
| Clustering.FindMatchesFalseIffSettled | lib/client.js:825-898 | `findMatches` returns false exactly when no two open records are an exact match, and then changes nothing |
| Clustering.FirstAbsorptionIsExact | lib/client.js:855-872 | a pass that returns true started from a state with an open exact pair |
| Clustering.InnerFindsExact | lib/client.js:855-872 | an inner loop that sets the flag met an open exact partner of the head |
| Clustering.BestUpdate | lib/client.js:833-877 | without an exact match, the head stays `new` if no open record scores above 70; otherwise it is the `update` to the first open record with the highest score, which is above 70 |
| Clustering.MatchIsFinal | lib/client.js:855-877 | with scores of at most 100, a head that absorbed something stays a `match` and only gains members |
| Clustering.InnerStepKeepsMatch | lib/client.js:855-877 | one comparison keeps a `match` a `match` |
| Clustering.PassAppends | lib/client.js:883-892 | a pass only appends: `match` entries to `matchSet`, `new`/`update` entries to `noMatchSet` |
| Clustering.HeadStepAppends | lib/client.js:883-892 | one head only appends: `match` entries to `matchSet`, `new`/`update` entries to `noMatchSet`, and only extends `used` |
| Clustering.HeadStepClassifies | lib/client.js:883-892 | one head appends at most one entry over both lists; a `match` exactly when the scan absorbed; a `new` exactly when its id is neither in `used` nor a matrix key, leaving `used` alone; an `update` exactly when its id is not in `used`, with the best score and its target added to `used` |
| Clustering.InnerOnlyEmpties | lib/client.js:868 | a slot is only ever emptied, never refilled or moved |
| Clustering.PassOnlyEmpties | lib/client.js:868 | the same for a whole pass |
| Clustering.PassProgress | lib/client.js:825-898 | a pass never raises the count of live records and lowers it when it returns true |
| Clustering.InnerStepMatrix | lib/client.js:855-864 | with plain ids, a comparison only adds matrix entries, keeps them pointing at self-mapped heads, and records the head once it has absorbed |
| Clustering.InnerMatrix | lib/client.js:845-880 | the same for the inner loop |
| Clustering.PassMatrix | lib/client.js:825-898 | the same for a pass |
| Rounds.TypeStep | lib/client.js:626 | `findMatches` runs on every type whatever the flag; the index keeps its types |
| Rounds.RoundUpTo | lib/client.js:624-627 | the loop over the types keeps the index's types |
| Rounds.OneRound | lib/client.js:616-628 | a round resets flag and `noMatchSet` and keeps the index's types |
| Rounds.Settle | lib/client.js:616-628 | the whole `while` loop keeps the index's types; it is well defined because each round that absorbs lowers the count of live records |
| Rounds.RemainingUpdate | lib/client.js:626 | replacing one type's slots by fewer live ones lowers the total count |
| Rounds.RoundProgress | lib/client.js:616-628 | a round never raises the live count and lowers it when it finds a match |
| Rounds.RoundQuiet | lib/client.js:616-628 | a round that finds nothing leaves the index, matrix and `matchSet` alone, and every type was settled |
| Rounds.SettledRoundQuiet | lib/client.js:616-628 | a round over settled types finds nothing |
| Rounds.RoundFixpoint | lib/client.js:616-628 | the loop's exit test: a round finds nothing exactly when every type was settled |
| Rounds.RoundAppends | lib/client.js:616-628 | a round only appends `match` entries to `matchSet` and `new`/`update` entries to `noMatchSet` |
| Rounds.SettleResult | lib/client.js:616-629 | after the loop the flag is down, every type is settled, `matchSet` only grew by `match` entries, and `noMatchSet` holds only `new`/`update` entries |
| Rounds.RoundMatrix | lib/client.js:616-628 | with plain ids a round only adds matrix entries and keeps every entry pointing at a self-mapped head |
| Rounds.SettleMatrix | lib/client.js:616-628 | the same for the whole loop |
| Reconciliation.Reconciler.constructor | lib/client.js:611-613 | empty matrix and result lists over the given index |
| Reconciliation.Reconciler.FindMatches | lib/client.js:825-898 | the in-place pass produces exactly the state and result of the pass `Clustering.FindMatches` folds |
| Reconciliation.Reconciler.CompareWithLater | lib/client.js:845-880 | the inner loop produces the state of the fold `Clustering.InnerUpTo` |
| Reconciliation.Reconciler.CompareOne | lib/client.js:846-879 | one comparison produces the state of `Clustering.InnerStep` |
| Reconciliation.Reconciler.Round | lib/client.js:618-628 | one `while` iteration produces the round `Rounds.OneRound` |
| Reconciliation.Reconciler.Run | lib/client.js:616-628 | the `while` loop ends in the state `Settle` describes |
| Reconciliation.OutcomeShape | lib/client.js:629 | the result lists `match` entries first, then `new`/`update` ones, and the remaining records are pairwise inexact |
| Reconciliation.Deduplicate | lib/client.js:565-629 | an empty bundle gives nothing; otherwise the loop's outcome over the id-sorted index |
| Reconciliation.ReconcilePatient | lib/client.js:377-479 | no result (the source throws) exactly when the patient bundle has no `entry`; otherwise the loop's outcome over the sorted index with the incoming records appended |
| RecordIndex.OfTypeCounts | lib/client.js:582-590 | a type's array holds exactly the bundle's records of that type, each as often as the bundle does |
| RecordIndex.TypesOfMembers | lib/client.js:582-590 | the types are those of the records, each listed once, in order of first appearance |
| RecordIndex.Group | lib/client.js:582-590 | the grouping loop builds those arrays and that type order |
| RecordIndex.GroupStep | lib/client.js:585-587 | one more record extends its type's array, or opens a new type |
| RecordIndex.IdLessStrict | lib/client.js:595-605 | comparing ids with `<` is a strict order |
| RecordIndex.SortedGroup | lib/client.js:593-606 | a sorted array is ordered by id and holds the same records |
| RecordIndex.SortGroups | lib/client.js:593-606 | the sort loop leaves every type's records sorted by id |
| RecordIndex.NewTypesMembers | lib/client.js:453-459 | the appended types are the incoming types the index lacked |
| RecordIndex.MergeOne | lib/client.js:454-458 | one iteration: a type the index lacks gets the incoming array, an indexed type gets the incoming records appended |
| RecordIndex.MergeStepTypes | lib/client.js:453-459 | an incoming type is appended to the type list only when the index lacked it, and the index keeps exactly the listed types |
| RecordIndex.MergingStep | lib/client.js:453-459 | every iteration keeps the loop invariant: existing types then new incoming ones in order, each merged type holding its old records followed by its incoming ones |
| RecordIndex.MergeIncoming | lib/client.js:453-459 | the merge loop builds that index |
| RecordIndex.MergedIndexFromParts | lib/client.js:453-459 | the merged index is the sorted index with the incoming records appended per type |
| Seeding.PlaceAll | lib/client.js:658-677 | every placed record maps to the head; other keys keep their values |
| Seeding.PlaceUnder | lib/client.js:658-677 | the placing loop builds exactly that matrix |
| Seeding.SeedMatrix | lib/client.js:644-680 | the seeding loop builds the fold's matrix and `matchSet` |
| Seeding.SeedMatchSet | lib/client.js:647-654 | `matchSet` holds exactly the `match` and `update` decisions |
| Seeding.SeedKeys | lib/client.js:644-680 | the matrix keys are the heads and placed records of those decisions, and every value is one of their heads |
| Seeding.SeedClosed | lib/client.js:644-680 | when no head is also placed, the seeded matrix is closed, as `findMatches` relies on |
| Seeding.SeedHeadsFixed | lib/client.js:649-655 | every head maps to itself |
| Sorting.Insert | lib/client.js:1124 | inserting adds exactly one element |
| Sorting.SortBy | lib/client.js:1124 | the sort is a permutation of its input |
| Sorting.InsertSorted | lib/client.js:1124 | insertion into a sorted list keeps it sorted |
| Sorting.SortBySorted | lib/client.js:1124 | for a strict order the result is sorted |
| Sorting.RemoveAdjacentDuplicates | lib/client.js:1127-1131 | the backward splice loop yields the list `DedupAdjacent` defines |
| Sorting.DedupAdjacentSubset | lib/client.js:1127-1131 | de-duplication only removes elements, and keeps the first |
| Sorting.DedupAdjacentSorted | lib/client.js:1127-1131 | de-duplication keeps a sorted list sorted |
| Sorting.DedupAdjacentNoAdjacent | lib/client.js:1127-1131 | for an equivalence, no two neighbours of the result compare equal |
| Sorting.DedupAdjacentCovers | lib/client.js:1127-1131 | every input element is in the result or has an equal one there |
| Extensions.OfKindMembers | lib/client.js:1105-1116 | a group holds only its kind, comes from the list, and misses none of its kind |
| Extensions.OfKindAppend | lib/client.js:1105-1116 | grouping distributes over concatenation |
| Extensions.OfKindPartition | lib/client.js:1105-1116 | the three groups together are the whole list |
| Extensions.Partition | lib/client.js:1105-1116 | the loop builds the three groups, each in original order |
| Extensions.MismatchSameIff | lib/client.js:1226-1240 | two mismatch markers compare equal exactly when both have the same defined `valueString` |
| Extensions.MismatchLessIrreflexive | lib/client.js:1226-1240 | no marker sorts before itself |
| Extensions.MismatchLessTransitive | lib/client.js:1226-1240 | the mismatch order is transitive |
| Extensions.MismatchOrder | lib/client.js:1226-1240 | the mismatch comparator is a strict order with an equivalence for "compares equal" |
| Extensions.UndefinedLast | lib/client.js:1228-1229 | in a sorted list, markers without `valueString` come last |
| Extensions.LastPartWins | lib/client.js:1167-1178 | a field takes the value of the last part with its url (date: `valueDate`, else `valueDateTime`) |
| Extensions.NoPartKeepsDefault | lib/client.js:1160-1178 | without such a part the field stays `""` |
| Extensions.ReadFields | lib/client.js:1167-1178 | the loop reads exactly those fields |
| Extensions.CompareSourceMarkers | lib/client.js:1159-1223 | the comparator returns -1, 0 or 1, by date, then reference, then description |
| Extensions.SourceSameIff | lib/client.js:1196-1222 | for complete markers, 0 exactly when date, reference and description agree |
| Extensions.SourceOrderStrict | lib/client.js:1196-1222 | on complete markers the source comparator is a strict order with an equivalence |
| Extensions.SourceLessTransitive | lib/client.js:1196-1222 | on complete markers "before" is transitive |
| Extensions.MergeExtensions | lib/client.js:1081-1154 | with nothing new the primary is unchanged; a primary without extensions gets the incoming ones verbatim; otherwise the merged layout |
| Extensions.MergedNotEmpty | lib/client.js:1151-1152 | a non-empty pool always gives a non-empty result, so it is assigned |
| Extensions.MergedLayout | lib/client.js:1100-1152 | the result is the other extensions in order, then the merged mismatch markers, then the merged source markers, all taken from the pool |
| Extensions.MergedIs | lib/client.js:1100-1152 | the result is that concatenation exactly |
| Extensions.NothingInvented | lib/client.js:1100-1152 | every merged extension comes from the pool, no more often than there |
| Extensions.MergedMismatchesSorted | lib/client.js:1123-1134 | mismatch markers are sorted, no two neighbours share a `valueString`, undefined ones are last, and every pool marker's `valueString` survives |
| Extensions.MergedSourcesSorted | lib/client.js:1137-1145 | complete source markers are sorted and neighbours differ in (date, reference, description) |
| Extensions.MergedSourcesKeepKeys | lib/client.js:1137-1145 | every complete source marker's (date, reference, description) survives |
| Replace.PlanEntries | lib/client.js:1025-1045 | the `forEach` builds exactly the fold's plan |
| Replace.PlanPuts | lib/client.js:1027-1037 | every referrer of another type is re-saved, rewritten, and nothing else is |
| Replace.PlanDeletes | lib/client.js:1038-1041 | only the duplicate is deleted, and it is whenever the read returned it |
| Replace.PlanExtensions | lib/client.js:1038-1044 | the extensions carried over are the last duplicate copy's that has some; none when no copy has any |
| Replace.ReplaceRecord | lib/client.js:1012-1071 | the writes issued are exactly `ReplaceWrites` |
| Replace.WriteOrder | lib/client.js:1049-1071 | first the upsert, with provenance and only rewritten resources of other types; then, without provenance, the duplicate's delete and at most a re-save of the primary; only the upsert when extensions must be merged and the primary's read came back empty (the source throws there) |
| Replace.SecondReferenceSurvives | lib/client.js:1035 | a resource naming the duplicate twice is re-saved still naming it once |
| Replace.UnrelatedTextUnchanged | lib/client.js:1035 | a resource not naming the duplicate is re-saved unchanged |
| Uris.HistoryReferenceOf | lib/client.js:81-84 | for `base/type/id/_history/version` the reference is `type/id/_history/version` |
| Uris.SourceReferenceOf | lib/client.js:212-213 | for `x/_history/version` the source id is `x` |
| Uris.PageQueries | lib/client.js:338-343 | `floor(total/50)+2` links, the k-th at offset `50(k+1)`, each the link with its offset replaced; none when the link has no offset |
| Uris.SplitLinkParts | lib/client.js:339 | the split leaves a suffix that neither starts with a digit nor holds another offset |
| Uris.PageUrlSplits | lib/client.js:339-342 | a built page link splits back into the same prefix and suffix |
| Pages.AbsorbKeepsKeys | lib/client.js:355-360 | the id list stays the keys of the kept list, which only grows |
| Pages.AbsorbCovers | lib/client.js:355-360 | every absorbed resource's key ends up in the id list |
| Pages.AbsorbAddsFresh | lib/client.js:355-360 | each added resource comes from the input and its key was not there before |
| Pages.AddedKeysDistinct | lib/client.js:355-360 | no added key repeats an earlier one |
| Pages.MergePages | lib/client.js:344-362 | the merge loop yields the pages `MergedPages` defines, or nothing when it reaches an extra page without `entry` (the source throws at lib/client.js:355) |
| Pages.MergedPagesFacts | lib/client.js:344-362 | no merged list exactly when some extra page has no `entry`; otherwise the first page is kept, every page entry's `type/id` is present, and each added entry comes from a page with a new `type/id` |
| Pages.CollectCandidates | lib/client.js:516-537 | the collection loop yields the candidates `Candidates` defines |
| Pages.CandidatesFacts | lib/client.js:516-537 | every result's id is among the candidates, no id twice, and every candidate came from a result |
| Pages.BestCandidate | lib/client.js:541-553 | the comparison loop yields the choice the fold `BestUpTo` defines |
| Pages.BestIsFirstMaximum | lib/client.js:541-553 | nothing exactly when no candidate scores above 70; otherwise the first highest-scoring candidate, with its changes |
| Transactions.NormalisedIdIsReference | lib/transaction.js:120-135 | the normalised id contains `/`, a reference is left as it is, and normalising twice changes nothing |
| Transactions.SetId | lib/transaction.js:123-125 | writing an id changes only the object's id |
| Transactions.Transaction.constructor | lib/transaction.js:15-24 | an empty Bundle; with provenance, the provenance is the first entry and lists itself as `undefined/1` |
| Transactions.Transaction.AddEntry | lib/transaction.js:104-160 | exactly one entry is appended and its index returned; an id-less resource gets `type/1`; URL, method and base defaults; the provenance gets the normalised reference |
| Transactions.Transaction.AddEntries | lib/transaction.js:106-153 | an array adds its elements in order and returns their indices; each plain element gets the entry `addEntry` builds (request method, URL and base) from the id it had before the call; the provenance gains, in order, the reference of each plain element computed from its id before the call; every plain element without an id ends with `type/1`, the others keep theirs |
| Transactions.Transaction.AddSource | lib/transaction.js:79-94 | appends a POST `Binary/source` entry and points the provenance's source at it |
| Transactions.Transaction.ReplaceTransaction | lib/transaction.js:32-73 | provenance exactly when asked and no entry is a Provenance; it lists every entry's id; the source, when given, comes last |
| Transactions.Transaction.InstallBundle | lib/transaction.js:32-67 | everything before the source: the bundle, and the provenance as its last entry when one is created |
| Transactions.HasProvenanceEntry | lib/transaction.js:38-44 | true exactly when some entry has resource type `Provenance` |
| Transactions.ListResources | lib/transaction.js:50-62 | the provenance lists every entry's id, id-less resources being given `type/1` |
| Transactions.CreateTransaction | lib/transaction.js:11-13 | provenance only for `true`; the default is none |
| ProvenanceLog.Provenance.constructor | lib/provenance.js:6-28 | no resources, no source, the fixed resource type, id, agent and reason |
| ProvenanceLog.Provenance.AddSource | lib/provenance.js:30-36 | replaces the entity with the Binary source, nothing else changes |
| ProvenanceLog.Provenance.AddResource | lib/provenance.js:38-40 | appends exactly one reference at the end, nothing else changes |

## Left out

- Server calls, the `request`/`doGet` plumbing and the async callbacks of
  `search`, `create`, `update`, `transaction`, `getRecord` and `merge`:
  these are network I/O. `replace` is modelled as the ordered log of the
  writes it issues. The read results are parameters.
- The `groupSearch`/`groupGet` fan-out and the `removeMatches` callback
  chain: these are concurrency. Their results arrive as parameters.
- `deep-diff`, `JSON.stringify`/`JSON.parse`, `new Date(...)`, the clock
  (`getFormattedDate`) and `btoa` are foreign code. Differences are an
  abstract edit list, and serialised resources are abstract strings. Date
  parsing is a parameter (`None` is an invalid date). The Binary content
  is the unencoded source text.
- The field-comparison strategies of a full merge definition are not in
  the source. The clustering scorer is an abstract function parameter.
- `default_definition.searchQueryArray` and `Medication.searchQueryArray`
  read undefined names and cannot run. They are not modelled.
- Seeding.SeedMatrix: models only the matrix and `matchSet` that the
  seeding loop of `handleMerges` builds. Inside that loop
  (lib/client.js:691-695) each decision's `resource` is also pushed into
  `patientRecord` under its type; this is not modelled. A decision without
  `resource` makes `resource.resourceType` throw on its iteration; this
  is not modelled either, because decisions carry no resource here.
  Decisions of kind `mismatch` are treated like `new`: both are skipped.
- `handleMerges` after its seeding loop runs the clustering rounds (see
  `Reconciliation.Reconciler.Run`) and passes an undefined `err` to its
  callback. The callback is not modelled.
- `Provenance` fills `target` from an undeclared variable `resources`. As
  written, the constructor throws unless some other script defines that
  name. The model takes it to be an empty list separate from the
  `resources` field, so `addResource` never changes `target`.
- `ProvenanceLog.Provenance.constructor`: states `target` as empty,
  whereas the source reads whatever the undeclared `resources` holds.
- `Transactions.Transaction.AddEntries`: only flat arrays. `entryIndex`
  and `i` in `addEntry` are implicit globals that a nested array would
  overwrite.
- Resource ids are always defined strings. The branches for an
  `undefined` id in the sort comparator and in `findMatches` are not
  modelled.
- Records with equal ids keep their bundle order after the sort. The model
  sorts stably, while JavaScript leaves their order to the engine.
- `for (key in object)` visits keys in insertion order. The model uses
  that order, ignoring JavaScript's rule that array-index-like keys come
  first.
- Clustering.PassMatrix, Rounds.SettleMatrix: the matrix facts need
  `PlainIds` (no id starts with its own type). Otherwise the key looked up
  (`key/id`) differs from the key written (the id itself).
- Extensions.MergeExtensions: returns the primary's new extension list.
  The push of the new extension onto the secondary's own array (aliasing)
  is not modelled. A missing nested extension list is treated as empty,
  where JavaScript would throw.
- Extensions.MergedSourcesSorted, Extensions.MergedSourcesKeepKeys: proved
  only for complete source markers (a date that parses, plus a reference
  and a description). JavaScript `<` with `undefined` or an invalid date
  is always false, so the comparator is not transitive on other markers.
- Uris.HistoryReferenceOf, Uris.PageQueries: a location the regular
  expression does not match makes the source throw. The model returns
  `None`. Regular-expression `.` not matching a newline is not modelled.
- Pages.CollectCandidates: a query result without `entry` is skipped, as
  in the source. The full-bundle and array forms of `reconcile`'s input
  are not modelled (the bundle branch is a stub).
- Clustering.InnerStep, Clustering.InnerUpTo: their own contracts state
  only slot count, head slot, the entry's `lhs` and the flag. The count of live
  records is stated by Clustering.InnerStepProgress and
  Clustering.InnerProgress.
- Transactions.Transaction.ReplaceTransaction: every entry has a
  `resource`. When a provenance is created, an entry without one throws
  at lib/transaction.js:51-52. A bundle without `entry` throws at
  lib/transaction.js:39. Neither throw is modelled.
- Extensions.MismatchOrder: the mismatch comparator at
  lib/client.js:1228-1229 returns 1 both ways when both markers lack
  `valueString`, so it is inconsistent there and the engine's sort decides
  their order. The model fixes one outcome: neither sorts before the
  other, so the stable sort of `Sorting.SortBy` keeps their input order,
  and as they never compare equal, de-duplication keeps both.
- Scores are `real`, not IEEE doubles. Rounding in the summed weights is
  not modelled.
- Util.LexLessTotal: JavaScript `<` compares strings by UTF-16 code units;
  the model compares characters.
- Records.ScoreRecord: for a pair not flagged as a mismatch the source
  calls `dict.calculateScore(proposed, original, matchMatrix,
  patientRecord)` (lib/client.js:752). The module bound to `dict` has no
  `calculateScore`, so as written that call throws a TypeError and
  `findMatches` and `reconcile` stop at their first unflagged comparison.
  The model supplies the missing scorer as the parameter `scorer`, and it
  is not passed `patientRecord` (the live, partly nulled index).
- Transactions.Transaction.InstallBundle: `this.bundle = fhirTransaction`
  (lib/transaction.js:34) makes the transaction share the caller's bundle,
  so the provenance and source entries added afterwards also appear in the
  caller's `bundle.entry`. The model copies the entry list, so that
  aliasing is not captured.
- Reconciliation.ReconcilePatient: the incoming resources arrive as a flat
  list. Recognising a string, bundle, array or single resource relies on
  `JSON.parse` and is not modelled.
