/** The writes `Client.replace` issues when a duplicate is folded into its
    primary. The duplicate is fetched with everything that refers to it.
    Each resource of another type is re-saved with its reference to the
    duplicate rewritten to the primary, in one transaction. The duplicate is
    deleted, in a second transaction issued after the first one returns. The
    server calls are recorded as an ordered log of abstract writes. */
module Replace {
  import opened Util
  import opened Records
  import opened Extensions

  /** A resource among the duplicate's includes and revincludes: its type,
      its id, its extension list and its serialised (JSON) text. */
  datatype Fetched = Fetched(resourceType: string, id: string, extension: Option<seq<Extension>>, json: string)

  /** An entry of a transaction bundle. */
  datatype Op =
    | Put(json: string)
    | Delete(resourceType: string, id: string)
    | PutPrimary(resourceType: string, id: string, extension: Option<seq<Extension>>)

  /** One `fhirClient.transaction` call: whether its bundle carries a
      provenance entry, and its entries in order. */
  datatype Write = Write(provenance: bool, ops: seq<Op>)

  /** `recordType + '/' + id`. */
  function Reference(recordType: string, id: string): string {
    recordType + "/" + id
  }

  /** A resource to re-save: neither the duplicate nor the primary, and of
      another type than theirs. */
  predicate Refers(recordType: string, primary: string, duplicate: string, e: Fetched) {
    e.id != duplicate && e.id != primary && e.resourceType != recordType
  }

  /** The duplicate itself. */
  predicate IsDuplicate(recordType: string, duplicate: string, e: Fetched) {
    e.id == duplicate && e.resourceType == recordType
  }

  /** The re-saved form: the first `recordType/duplicate` in the text
      becomes `recordType/primary`. */
  function Rewritten(recordType: string, primary: string, duplicate: string, e: Fetched): Op {
    Put(ReplaceFirst(e.json, Reference(recordType, duplicate), Reference(recordType, primary)))
  }

  /** What the `forEach` over the fetched entries collects: the upsert
      entries, the delete entries and the extensions of the last duplicate
      that has some. */
  datatype Plan = Plan(puts: seq<Op>, deletes: seq<Op>, duplicateExtensions: Option<seq<Extension>>)

  function PlanStep(recordType: string, primary: string, duplicate: string, p: Plan, e: Fetched): Plan {
    if Refers(recordType, primary, duplicate, e) then
      p.(puts := p.puts + [Rewritten(recordType, primary, duplicate, e)])
    else if IsDuplicate(recordType, duplicate, e) then
      p.(deletes := p.deletes + [Delete(e.resourceType, e.id)],
         duplicateExtensions := if e.extension.Some? then e.extension else p.duplicateExtensions)
    else p
  }

  /** The `forEach` over the first `k` entries. */
  function PlanUpTo(recordType: string, primary: string, duplicate: string, entries: seq<Fetched>, k: nat): Plan
    requires k <= |entries|
  {
    if k == 0 then Plan([], [], None)
    else PlanStep(recordType, primary, duplicate, PlanUpTo(recordType, primary, duplicate, entries, k - 1), entries[k - 1])
  }

  method PlanEntries(recordType: string, primary: string, duplicate: string, entries: seq<Fetched>) returns (plan: Plan)
    ensures plan == PlanUpTo(recordType, primary, duplicate, entries, |entries|)
  {
    var puts: seq<Op> := [];
    var deletes: seq<Op> := [];
    var withExtensions: Option<seq<Extension>> := None;
    var i := 0;
    while i < |entries|
      invariant 0 <= i <= |entries|
      invariant Plan(puts, deletes, withExtensions) == PlanUpTo(recordType, primary, duplicate, entries, i)
    {
      var e := entries[i];
      if e.id != duplicate && e.id != primary && e.resourceType != recordType {
        var text := ReplaceFirst(e.json, recordType + "/" + duplicate, recordType + "/" + primary);
        puts := puts + [Put(text)];
      } else if e.id == duplicate && e.resourceType == recordType {
        deletes := deletes + [Delete(e.resourceType, e.id)];
        if e.extension.Some? {
          withExtensions := e.extension;
        }
      }
      i := i + 1;
    }
    plan := Plan(puts, deletes, withExtensions);
  }

  /** Whether the second transaction must also re-save the primary: the
      duplicate had extensions, or a new one is given. */
  predicate MergesPrimary(plan: Plan, newExtension: Option<Extension>) {
    plan.duplicateExtensions.Some? || newExtension.Some?
  }

  /** The transactions, in the order they are issued. The upsert carries a
      provenance entry and the re-saved resources. The second one deletes
      the duplicate. When the primary must be merged it also re-saves the
      primary, the first entry `primaryRead` returned, with the merged list;
      when that read returned nothing, reading `entry[0]` throws and the
      second transaction is never issued. */
  function ReplaceWrites(recordType: string, primary: string, duplicate: string, entries: seq<Fetched>,
                         newExtension: Option<Extension>, primaryRead: seq<Fetched>, parse: DateParser): seq<Write>
  {
    var plan := PlanUpTo(recordType, primary, duplicate, entries, |entries|);
    var upsert := Write(true, plan.puts);
    if !MergesPrimary(plan, newExtension) then [upsert, Write(false, plan.deletes)]
    else if primaryRead == [] then [upsert]
    else
      var primaryRecord := primaryRead[0];
      var secondary := if plan.duplicateExtensions.Some? then plan.duplicateExtensions.value else [];
      var merged := Merged(primaryRecord.extension, secondary, newExtension, parse);
      [upsert, Write(false, plan.deletes + [PutPrimary(primaryRecord.resourceType, primaryRecord.id, merged)])]
  }

  /** `replace(recordType, primary, duplicate, callback, newExtension)`:
      `entries` is what the read of the duplicate returned and
      `primaryRead` what the read of the primary returns. The second write
      is issued whatever the first one reported. */
  method ReplaceRecord(recordType: string, primary: string, duplicate: string, entries: seq<Fetched>,
                       newExtension: Option<Extension>, primaryRead: seq<Fetched>, parse: DateParser)
    returns (log: seq<Write>)
    ensures log == ReplaceWrites(recordType, primary, duplicate, entries, newExtension, primaryRead, parse)
  {
    var plan := PlanEntries(recordType, primary, duplicate, entries);
    var upsert := Write(true, plan.puts);
    log := [upsert];
    var second: Write;
    if plan.duplicateExtensions.None? && newExtension.None? {
      second := Write(false, plan.deletes);
    } else {
      if |primaryRead| == 0 {
        // `success.entry[0].resource` throws inside the upsert's callback
        return;
      }
      var primaryRecord := primaryRead[0];
      var secondary := if plan.duplicateExtensions.Some? then plan.duplicateExtensions.value else [];
      var merged := MergeExtensions(primaryRecord.extension, secondary, newExtension, parse);
      second := Write(false, plan.deletes + [PutPrimary(primaryRecord.resourceType, primaryRecord.id, merged)]);
    }
    log := log + [second];
    assert log == [upsert, second];
  }

  // ---------------------------------------------------------------------
  // What the plan holds

  /** Every resource to re-save is re-saved, rewritten, and every upsert
      entry comes from such a resource. */
  lemma {:induction false} PlanPuts(recordType: string, primary: string, duplicate: string, entries: seq<Fetched>, k: nat)
    requires k <= |entries|
    ensures var p := PlanUpTo(recordType, primary, duplicate, entries, k);
      && (forall i :: 0 <= i < k && Refers(recordType, primary, duplicate, entries[i]) ==>
            Rewritten(recordType, primary, duplicate, entries[i]) in p.puts)
      && (forall op :: op in p.puts ==>
            exists i :: 0 <= i < k && Refers(recordType, primary, duplicate, entries[i]) && op == Rewritten(recordType, primary, duplicate, entries[i]))
    decreases k
  {
    if k > 0 {
      PlanPuts(recordType, primary, duplicate, entries, k - 1);
    }
  }

  /** Only the duplicate is deleted, and it is deleted whenever the read
      returned it. */
  lemma {:induction false} PlanDeletes(recordType: string, primary: string, duplicate: string, entries: seq<Fetched>, k: nat)
    requires k <= |entries|
    ensures var p := PlanUpTo(recordType, primary, duplicate, entries, k);
      && (forall op :: op in p.deletes ==> op == Delete(recordType, duplicate))
      && (p.deletes != [] <==> exists i :: 0 <= i < k && IsDuplicate(recordType, duplicate, entries[i]))
    decreases k
  {
    if k > 0 {
      PlanDeletes(recordType, primary, duplicate, entries, k - 1);
    }
  }

  /** The extensions carried over are those of the last copy of the
      duplicate that has any; none when no copy has any. */
  lemma {:induction false} PlanExtensions(recordType: string, primary: string, duplicate: string, entries: seq<Fetched>, k: nat)
    requires k <= |entries|
    ensures var p := PlanUpTo(recordType, primary, duplicate, entries, k);
      && (p.duplicateExtensions.None? <==>
            forall i :: 0 <= i < k && IsDuplicate(recordType, duplicate, entries[i]) ==> entries[i].extension.None?)
      && (forall i :: 0 <= i < k && IsDuplicate(recordType, duplicate, entries[i]) && entries[i].extension.Some?
            && (forall j :: i < j < k && IsDuplicate(recordType, duplicate, entries[j]) ==> entries[j].extension.None?)
            ==> p.duplicateExtensions == entries[i].extension)
    decreases k
  {
    if k > 0 {
      PlanExtensions(recordType, primary, duplicate, entries, k - 1);
    }
  }

  /** The upsert is the first write and the only one with a provenance
      entry; it holds nothing but re-saved resources, never a resource of
      the record's own type. The delete write comes second and last; it is
      missing exactly when the primary must be merged and its read returned
      nothing. */
  lemma WriteOrder(recordType: string, primary: string, duplicate: string, entries: seq<Fetched>,
                   newExtension: Option<Extension>, primaryRead: seq<Fetched>, parse: DateParser)
    ensures var log := ReplaceWrites(recordType, primary, duplicate, entries, newExtension, primaryRead, parse);
      var plan := PlanUpTo(recordType, primary, duplicate, entries, |entries|);
      && |log| == (if MergesPrimary(plan, newExtension) && primaryRead == [] then 1 else 2)
      && log[0].provenance && (|log| == 2 ==> !log[1].provenance)
      && (forall op :: op in log[0].ops ==> op.Put?)
      && (forall op :: op in log[0].ops ==>
            exists e :: e in entries && e.resourceType != recordType && op == Rewritten(recordType, primary, duplicate, e))
      && (|log| == 2 ==> forall i :: 0 <= i < |entries| && IsDuplicate(recordType, duplicate, entries[i]) ==> Delete(recordType, duplicate) in log[1].ops)
      && (|log| == 2 ==> forall op :: op in log[1].ops ==> op == Delete(recordType, duplicate) || op.PutPrimary?)
  {
    var k := |entries|;
    PlanPuts(recordType, primary, duplicate, entries, k);
    PlanDeletes(recordType, primary, duplicate, entries, k);
    var p := PlanUpTo(recordType, primary, duplicate, entries, k);
    var log := ReplaceWrites(recordType, primary, duplicate, entries, newExtension, primaryRead, parse);
    forall op | op in log[0].ops
      ensures exists e :: e in entries && e.resourceType != recordType && op == Rewritten(recordType, primary, duplicate, e)
    {
      var i :| 0 <= i < k && Refers(recordType, primary, duplicate, entries[i]) && op == Rewritten(recordType, primary, duplicate, entries[i]);
      assert entries[i] in entries;
    }
    if |log| == 2 {
      forall i | 0 <= i < k && IsDuplicate(recordType, duplicate, entries[i])
        ensures Delete(recordType, duplicate) in log[1].ops
      {
        assert p.deletes != [] && p.deletes[0] in p.deletes;
        assert log[1].ops[0] == p.deletes[0];
      }
    }
  }

  /** Only the first reference to the duplicate is rewritten: a resource
      whose text names the duplicate twice is re-saved still naming it
      once. */
  lemma SecondReferenceSurvives(recordType: string, primary: string, duplicate: string, e: Fetched, sep: string)
    requires e.json == Reference(recordType, duplicate) + sep + Reference(recordType, duplicate)
    ensures Rewritten(recordType, primary, duplicate, e).json == Reference(recordType, primary) + sep + Reference(recordType, duplicate)
    ensures Contains(Rewritten(recordType, primary, duplicate, e).json, Reference(recordType, duplicate))
  {
    ReplaceFirstLeavesSecondOccurrence(Reference(recordType, duplicate), sep, Reference(recordType, primary));
  }

  /** A resource that does not name the duplicate is re-saved unchanged. */
  lemma UnrelatedTextUnchanged(recordType: string, primary: string, duplicate: string, e: Fetched)
    requires !Contains(e.json, Reference(recordType, duplicate))
    ensures Rewritten(recordType, primary, duplicate, e).json == e.json
  {
    ReplaceFirstWithoutOccurrence(e.json, Reference(recordType, duplicate), Reference(recordType, primary));
  }
}
