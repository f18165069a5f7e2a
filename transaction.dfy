/** The transaction builder: a FHIR `Bundle` whose `entry` list grows one
    entry at a time, with an optional provenance that lists the reference of
    every resource added after it. */
module Transactions {
  import opened Util
  import opened ProvenanceLog

  const DefaultBase: string := "http://localhost:8080/fhir"

  /** What a resource carries besides its type and id. The base64 text a
      Binary holds is represented by the source text it encodes. */
  datatype Body = Opaque(json: string) | Binary(contentType: string, source: string)

  /** A FHIR resource object. Only its `id` is ever written in place. */
  class FhirObject {
    const resourceType: Option<string>
    var id: Option<string>
    const body: Body

    constructor (resourceType: Option<string>, id: Option<string>, body: Body)
      ensures this.resourceType == resourceType && this.id == id && this.body == body
    {
      this.resourceType := resourceType;
      this.id := id;
      this.body := body;
    }
  }

  /** An object added as a resource: a FHIR object, or the `Provenance`
      accumulator itself, which has no `resourceType` property of its own. */
  datatype Resource = Fhir(obj: FhirObject) | Prov(p: Provenance)

  function ObjectOf(r: Resource): object {
    if r.Fhir? then r.obj else r.p
  }

  function TypeOf(r: Resource): Option<string> {
    if r.Fhir? then r.obj.resourceType else None
  }

  function IdOf(r: Resource): Option<string>
    reads ObjectOf(r)
  {
    if r.Fhir? then r.obj.id else r.p.id
  }

  datatype Request = Request(httpMethod: string, url: Option<string>)

  /** A bundle entry. Entries built here have no `resourceType` of their own
      and always carry a request and a base; entries that arrive already
      built may look like anything. */
  datatype Entry = Entry(resourceType: Option<string>, resource: Resource, transaction: Option<Request>, base: Option<string>)

  datatype Bundle = Bundle(resourceType: Option<string>, entry: seq<Entry>)

  /** An argument of `addEntry` that is not an array: an object with a
      `resource` field (an entry already), or a plain resource. */
  datatype Addend = Wrapped(e: Entry) | Plain(r: Resource)

  function AddendObjects(a: Addend): set<object> {
    if a.Plain? then {ObjectOf(a.r)} else {}
  }

  /** The reference `addEntry` uses for a plain resource: `type/1` when it
      has no id, the id itself when it already holds a `/`, else `type/id`.
      An `undefined` type reads as "undefined". */
  function NormalisedId(rType: Option<string>, id: Option<string>): string {
    if id.None? then Show(rType) + "/1"
    else if Contains(id.value, "/") then id.value
    else Show(rType) + "/" + id.value
  }

  /** A normalised id is a reference (it holds a `/`), a reference is left as
      it is, and normalising twice changes nothing. */
  lemma NormalisedIdIsReference(rType: Option<string>, id: Option<string>)
    ensures Contains(NormalisedId(rType, id), "/")
    ensures id.Some? && Contains(id.value, "/") ==> NormalisedId(rType, id) == id.value
    ensures NormalisedId(rType, Some(NormalisedId(rType, id))) == NormalisedId(rType, id)
  {
    var t := Show(rType);
    if id.None? {
      assert OccursAt(t + "/1", "/", |t|);
    } else if !Contains(id.value, "/") {
      assert OccursAt(t + "/" + id.value, "/", |t|);
    }
  }

  /** The request URL when none is given: the resource type for a POST, the
      reference for anything else, including a call with no method at all. */
  function EntryUrl(rType: Option<string>, reference: string, httpMethod: Option<string>, url: Option<string>): Option<string> {
    if url.Some? then url
    else if httpMethod == Some("POST") then rType
    else Some(reference)
  }

  /** The entry built for a plain resource. */
  function BuiltEntry(r: Resource, reference: string, httpMethod: Option<string>, url: Option<string>, base: Option<string>): Entry {
    Entry(None, r, Some(Request(httpMethod.GetOr("POST"), EntryUrl(TypeOf(r), reference, httpMethod, url))), Some(base.GetOr(DefaultBase)))
  }

  /** Writes `id` into a resource object, and nothing else. */
  method SetId(r: Resource, id: string)
    modifies ObjectOf(r)
    ensures IdOf(r) == Some(id)
    ensures r.Prov? ==> r.p.resources == old(r.p.resources) && r.p.provenanceObject == old(r.p.provenanceObject)
  {
    if r.Fhir? {
      r.obj.id := Some(id);
    } else {
      r.p.id := Some(id);
    }
  }

  /** The reference `addEntry` reports for one element: the normalised id
      of a plain resource, nothing for an entry already built. */
  function AddedRef(a: Addend): Option<string>
    reads AddendObjects(a)
  {
    if a.Wrapped? then None else Some(NormalisedId(TypeOf(a.r), IdOf(a.r)))
  }

  /** The references an array of elements reports, in order. */
  function AddedRefs(adds: seq<Addend>): (refs: seq<Option<string>>)
    reads set k | 0 <= k < |adds| && adds[k].Plain? :: ObjectOf(adds[k].r)
    ensures |refs| == |adds|
  {
    if adds == [] then [] else AddedRefs(adds[..|adds| - 1]) + [AddedRef(adds[|adds| - 1])]
  }

  lemma {:induction false} AddedRefsAt(adds: seq<Addend>, k: nat)
    requires k < |adds|
    ensures AddedRefs(adds)[k] == AddedRef(adds[k])
    decreases |adds|
  {
    if k < |adds| - 1 {
      AddedRefsAt(adds[..|adds| - 1], k);
    }
  }

  /** The reference reported for an element whose id was `id`. */
  function RefFrom(a: Addend, id: Option<string>): Option<string> {
    if a.Wrapped? then None else Some(NormalisedId(TypeOf(a.r), id))
  }

  /** The ids of the plain elements, `None` for the others. */
  function IdsOf(adds: seq<Addend>): (ids: seq<Option<string>>)
    reads set k | 0 <= k < |adds| && adds[k].Plain? :: ObjectOf(adds[k].r)
    ensures |ids| == |adds|
    ensures forall k :: 0 <= k < |adds| ==> ids[k] == if adds[k].Plain? then IdOf(adds[k].r) else None
  {
    if adds == [] then [] else IdsOf(adds[..|adds| - 1]) + [if adds[|adds| - 1].Plain? then IdOf(adds[|adds| - 1].r) else None]
  }

  /** Every plain element's id is as `IdNormalised` says, the first `i`
      elements having been added. */
  ghost predicate IdsSoFar(adds: seq<Addend>, ids0: seq<Option<string>>, i: nat)
    requires |ids0| == |adds|
    reads set k | 0 <= k < |adds| && adds[k].Plain? :: ObjectOf(adds[k].r)
  {
    forall k :: 0 <= k < |adds| && adds[k].Plain? ==> IdNormalised(adds[k].r, ids0[k], IdOf(adds[k].r), k < i)
  }

  /** The entry `addEntry` builds for element `a` when its id was `id`: a
      wrapped entry as given, a plain resource in an entry of its own. */
  function ElementEntry(a: Addend, id: Option<string>, httpMethod: Option<string>, url: Option<string>, base: Option<string>): Entry {
    if a.Wrapped? then a.e else BuiltEntry(a.r, NormalisedId(TypeOf(a.r), id), httpMethod, url, base)
  }

  /** The entries after `AddEntries` has added `i` elements to `before`,
      each built from the id its element had when the call began. */
  ghost predicate EntriesSoFar(adds: seq<Addend>, ids0: seq<Option<string>>, httpMethod: Option<string>, url: Option<string>,
                               base: Option<string>, before: seq<Entry>, entry: seq<Entry>, i: nat) {
    && i <= |adds| == |ids0| && |entry| == |before| + i && entry[..|before|] == before
    && forall k :: 0 <= k < i ==> entry[|before| + k] == ElementEntry(adds[k], ids0[k], httpMethod, url, base)
  }

  lemma EntriesStep(adds: seq<Addend>, ids0: seq<Option<string>>, httpMethod: Option<string>, url: Option<string>,
                    base: Option<string>, before: seq<Entry>, prev: seq<Entry>, entry: seq<Entry>, i: nat)
    requires i < |adds| && EntriesSoFar(adds, ids0, httpMethod, url, base, before, prev, i)
    requires entry == prev + [ElementEntry(adds[i], ids0[i], httpMethod, url, base)]
    ensures EntriesSoFar(adds, ids0, httpMethod, url, base, before, entry, i + 1)
  {
    assert entry[..|before|] == prev[..|before|];
    forall j | 0 <= j < |prev|
      ensures entry[j] == prev[j]
    {
      assert entry[..|prev|][j] == entry[j];
    }
  }

  /** The id of a plain element during `AddEntries`: untouched or already
      given `type/1`, and the latter for sure once the element is added. */
  ghost predicate IdNormalised(r: Resource, before: Option<string>, now: Option<string>, added: bool) {
    if before.Some? then now == before
    else if added then now == Some(NormalisedId(TypeOf(r), None))
    else now == None || now == Some(NormalisedId(TypeOf(r), None))
  }

  class Transaction {
    /** `bundle.resourceType` and `bundle.entry`. */
    var bundleType: Option<string>
    var entry: seq<Entry>
    /** `null` when the transaction has no provenance (`undefined`). */
    var provenance: Provenance?

    /** The provenance, when there is one, holds one reference per entry. */
    predicate Valid()
      reads this, provenance
    {
      provenance != null ==> provenance.Valid() && |provenance.resources| == |entry|
    }

    /** `new Transaction(createProvenance)`. With a provenance, the
        accumulator is added as the first entry: having neither a
        `resourceType` nor an `id`, it is given the id "undefined/1", which
        is also its request URL, and it lists itself. */
    constructor (createProvenance: bool)
      ensures Valid()
      ensures bundleType == Some("Bundle")
      ensures !createProvenance ==> provenance == null && entry == []
      ensures createProvenance ==>
        && provenance != null && fresh(provenance)
        && entry == [Entry(None, Prov(provenance), Some(Request("POST", Some("undefined/1"))), Some(DefaultBase))]
        && provenance.resources == [Some("undefined/1")]
        && provenance.id == Some("undefined/1")
        && provenance.provenanceObject.entity == None
    {
      bundleType := Some("Bundle");
      entry := [];
      provenance := null;
      new;
      if createProvenance {
        var p := new Provenance();
        provenance := p;
        assert NormalisedId(None, None) == "undefined/1";
        var _ := AddEntry(Plain(Prov(p)), None, None, None);
      }
    }

    /** `addEntry(fhirObject, method, url, base)` for one object: appends
        exactly one entry, reports one reference to the provenance, and
        returns the new entry's index. A plain resource without an id gets
        `type/1` written into it; an id without `/` is prefixed with the type
        for the URL and the provenance only. */
    method AddEntry(add: Addend, httpMethod: Option<string>, url: Option<string>, base: Option<string>) returns (index: nat)
      requires Valid()
      modifies this, provenance, AddendObjects(add)
      ensures Valid()
      ensures provenance == old(provenance) && bundleType == old(bundleType)
      ensures index == old(|entry|) && |entry| == index + 1
      ensures add.Wrapped? ==> entry == old(entry) + [add.e]
      ensures add.Wrapped? && provenance != null ==>
        provenance.resources == old(provenance.resources) + [None]
      ensures add.Plain? ==>
        var reference := NormalisedId(TypeOf(add.r), old(IdOf(add.r)));
        && entry == old(entry) + [BuiltEntry(add.r, reference, httpMethod, url, base)]
        && IdOf(add.r) == (if old(IdOf(add.r)).None? then Some(reference) else old(IdOf(add.r)))
        && (provenance != null ==> provenance.resources == old(provenance.resources) + [Some(reference)])
      ensures provenance != null ==>
        provenance.provenanceObject == old(provenance.provenanceObject)
      ensures provenance != null && !(add.Plain? && add.r == Prov(provenance)) ==> provenance.id == old(provenance.id)
    {
      if add.Wrapped? {
        entry := entry + [add.e];
        if provenance != null {
          // the reference is the function's hoisted, never assigned `id`
          provenance.AddResource(None);
        }
      } else {
        var r := add.r;
        var rType := TypeOf(r);
        var id: string;
        if IdOf(r).None? {
          id := Show(rType) + "/1";
          SetId(r, id);
        } else {
          id := IdOf(r).value;
          if IndexOf(id, "/") < 0 {
            id := Show(rType) + "/" + id;
          }
        }
        var u := url;
        if u.None? {
          if httpMethod == Some("POST") {
            u := rType;
          } else {
            u := Some(id);
          }
        }
        entry := entry + [Entry(None, r, Some(Request(if httpMethod.None? then "POST" else httpMethod.value, u)), Some(if base.None? then DefaultBase else base.value))];
        if provenance != null {
          provenance.AddResource(Some(id));
        }
      }
      index := |entry| - 1;
    }

    /** `addEntry` with an array: the elements are added in order and their
        indices returned. The provenance gets one reference per element: the
        normalised id of a plain resource as it was before the call (an
        object listed twice keeps the reference it got first, since a
        normalised id normalises to itself), nothing for a wrapped entry. A
        plain resource without an id ends with `type/1`. Nested arrays are not
        modelled. */
    method AddEntries(adds: seq<Addend>, httpMethod: Option<string>, url: Option<string>, base: Option<string>) returns (indices: seq<nat>)
      requires Valid()
      modifies this, provenance, set k | 0 <= k < |adds| && adds[k].Plain? :: ObjectOf(adds[k].r)
      ensures Valid()
      ensures provenance == old(provenance) && bundleType == old(bundleType)
      ensures |entry| == old(|entry|) + |adds| && entry[..old(|entry|)] == old(entry)
      ensures |indices| == |adds|
      ensures forall k :: 0 <= k < |adds| ==> indices[k] == old(|entry|) + k
      ensures forall k :: 0 <= k < |adds| ==>
        if adds[k].Wrapped? then entry[old(|entry|) + k] == adds[k].e
        else entry[old(|entry|) + k] == BuiltEntry(adds[k].r, NormalisedId(TypeOf(adds[k].r), old(IdOf(adds[k].r))), httpMethod, url, base)
      ensures provenance != null ==> provenance.resources == old(provenance.resources) + old(AddedRefs(adds))
      ensures forall k :: 0 <= k < |adds| && adds[k].Plain? ==>
        IdOf(adds[k].r) == (if old(IdOf(adds[k].r)).None? then Some(NormalisedId(TypeOf(adds[k].r), None)) else old(IdOf(adds[k].r)))
    {
      indices := [];
      ghost var before := entry;
      ghost var ids0 := IdsOf(adds);
      ghost var refs := AddedRefs(adds);
      ghost var listed := if provenance != null then provenance.resources else [];
      forall k | 0 <= k < |adds|
        ensures refs[k] == RefFrom(adds[k], ids0[k])
      {
        AddedRefsAt(adds, k);
      }
      var i := 0;
      while i < |adds|
        invariant 0 <= i <= |adds|
        invariant provenance == old(provenance) && bundleType == old(bundleType)
        invariant Adding(adds, httpMethod, url, base, before, listed, refs, ids0, i)
        invariant |indices| == i
        invariant forall k :: 0 <= k < i ==> indices[k] == |before| + k
      {
        var index := AddNext(adds, i, httpMethod, url, base, before, listed, refs, ids0);
        indices := indices + [index];
        i := i + 1;
      }
    }

    /** The state of `AddEntries` after `i` elements: the entries laid out,
        one reference per element reported, the ids written. */
    ghost predicate Adding(adds: seq<Addend>, httpMethod: Option<string>, url: Option<string>, base: Option<string>,
                           before: seq<Entry>, listed: seq<Option<string>>, refs: seq<Option<string>>,
                           ids0: seq<Option<string>>, i: nat)
      requires |ids0| == |adds|
      reads this, provenance, set k | 0 <= k < |adds| && adds[k].Plain? :: ObjectOf(adds[k].r)
    {
      && Valid()
      && EntriesSoFar(adds, ids0, httpMethod, url, base, before, entry, i)
      && i <= |refs| && (provenance != null ==> provenance.resources == listed + refs[..i])
      && IdsSoFar(adds, ids0, i)
    }

    /** One element of `AddEntries`: the entry, the reference it reports
        (computed from the id the element had when the array call began) and
        the ids written so far. */
    method AddNext(adds: seq<Addend>, i: nat, httpMethod: Option<string>, url: Option<string>, base: Option<string>,
                   ghost before: seq<Entry>, ghost listed: seq<Option<string>>, ghost refs: seq<Option<string>>,
                   ghost ids0: seq<Option<string>>) returns (index: nat)
      requires i < |adds| && |ids0| == |adds| && |refs| == |adds|
      requires refs[i] == RefFrom(adds[i], ids0[i])
      requires Adding(adds, httpMethod, url, base, before, listed, refs, ids0, i)
      modifies this, provenance, AddendObjects(adds[i])
      ensures provenance == old(provenance) && bundleType == old(bundleType)
      ensures index == |before| + i
      ensures Adding(adds, httpMethod, url, base, before, listed, refs, ids0, i + 1)
    {
      var r := adds[i];
      if r.Plain? {
        NormalisedIdIsReference(TypeOf(r.r), ids0[i]);
        assert IdNormalised(r.r, ids0[i], IdOf(r.r), false);
        assert NormalisedId(TypeOf(r.r), IdOf(r.r)) == NormalisedId(TypeOf(r.r), ids0[i]);
      }
      ghost var prev := entry;
      label pre:
      index := AddEntry(r, httpMethod, url, base);
      assert entry == prev + [ElementEntry(r, ids0[i], httpMethod, url, base)];
      EntriesStep(adds, ids0, httpMethod, url, base, before, prev, entry, i);
      assert refs[..i + 1] == refs[..i] + [refs[i]];
      forall k | 0 <= k < |adds| && adds[k].Plain?
        ensures IdNormalised(adds[k].r, ids0[k], IdOf(adds[k].r), k < i + 1)
      {
        assert IdNormalised(adds[k].r, ids0[k], old@pre(IdOf(adds[k].r)), k < i);
        if r.Plain? && ObjectOf(adds[k].r) == ObjectOf(r.r) {
          assert adds[k].r == r.r;
        } else {
          assert IdOf(adds[k].r) == old@pre(IdOf(adds[k].r));
        }
      }
    }

    /** `addSource(source)`: a POST of a Binary with id `Binary/source`,
        which also becomes the provenance's source entity. */
    method AddSource(source: string) returns (index: nat)
      requires Valid()
      modifies this, provenance
      ensures Valid()
      ensures provenance == old(provenance) && bundleType == old(bundleType)
      ensures index == old(|entry|) && |entry| == index + 1 && entry[..index] == old(entry)
      ensures entry[index].resource.Fhir?
      ensures var b := entry[index].resource.obj;
        && fresh(b)
        && b.resourceType == Some("Binary") && b.id == Some("Binary/source") && b.body == Binary("text/plain", source)
      ensures entry[index].transaction == Some(Request("POST", Some("Binary")))
      ensures entry[index].base == Some(DefaultBase)
      ensures provenance != null ==>
        && provenance.provenanceObject.entity == Some(Entity("source", "Binary", "Binary/source"))
        && provenance.resources == old(provenance.resources) + [Some("Binary/source")]
        && provenance.id == old(provenance.id)
    {
      var binary := new FhirObject(Some("Binary"), Some("Binary/source"), Binary("text/plain", source));
      if provenance != null {
        provenance.AddSource("Binary/source");
      }
      assert OccursAt("Binary/source", "/", 6);
      index := AddEntry(Plain(Fhir(binary)), Some("POST"), None, None);
    }

    /** `replaceTransaction(fhirTransaction, source, createProvenance)`. A
        provenance is created only when asked for and when no entry carries
        `resourceType` "Provenance" (the entry itself, not its resource);
        otherwise the transaction is left without one. A new provenance lists
        every entry's resource id, writing `type/1` into resources that have
        none, and is then added as an entry of its own. With a source, its
        Binary entry is added last and its index returned. */
    method ReplaceTransaction(bundle: Bundle, source: Option<string>, createProvenance: bool) returns (sourceIndex: Option<nat>)
      requires Valid()
      modifies this, set k | 0 <= k < |bundle.entry| :: ObjectOf(bundle.entry[k].resource)
      ensures Valid()
      ensures bundleType == bundle.resourceType
      ensures provenance != null <==>
        createProvenance && forall k :: 0 <= k < |bundle.entry| ==> bundle.entry[k].resourceType != Some("Provenance")
      ensures |entry| == |bundle.entry| + (if provenance != null then 1 else 0) + (if source.Some? then 1 else 0)
      ensures entry[..|bundle.entry|] == bundle.entry
      ensures provenance != null ==>
        && fresh(provenance)
        && entry[|bundle.entry|].resource == Prov(provenance)
        && (forall k :: 0 <= k < |bundle.entry| ==>
              IdOf(bundle.entry[k].resource).Some? && provenance.resources[k] == IdOf(bundle.entry[k].resource))
      ensures forall k :: 0 <= k < |bundle.entry| ==>
        IdOf(bundle.entry[k].resource) == old(IdOf(bundle.entry[k].resource)) ||
        (provenance != null && old(IdOf(bundle.entry[k].resource)).None? &&
         IdOf(bundle.entry[k].resource) == Some(Show(TypeOf(bundle.entry[k].resource)) + "/1"))
      ensures sourceIndex == (if source.Some? then Some(|entry| - 1) else None)
      ensures source.Some? ==>
        entry[|entry| - 1].resource.Fhir? && entry[|entry| - 1].transaction == Some(Request("POST", Some("Binary")))
      ensures source.Some? && provenance != null ==>
        provenance.provenanceObject.entity == Some(Entity("source", "Binary", "Binary/source"))
    {
      InstallBundle(bundle, createProvenance);
      if source.Some? {
        ghost var before := entry;
        var index := AddSource(source.value);
        assert entry[..|bundle.entry|] == before[..|bundle.entry|];
        sourceIndex := Some(index);
      } else {
        sourceIndex := None;
      }
    }

    /** Everything `replaceTransaction` does before it adds the source. */
    method InstallBundle(bundle: Bundle, createProvenance: bool)
      modifies this, set k | 0 <= k < |bundle.entry| :: ObjectOf(bundle.entry[k].resource)
      ensures Valid()
      ensures bundleType == bundle.resourceType
      ensures provenance != null <==>
        createProvenance && forall k :: 0 <= k < |bundle.entry| ==> bundle.entry[k].resourceType != Some("Provenance")
      ensures entry == bundle.entry + (if provenance != null then [Entry(None, Prov(provenance), Some(Request("POST", Some("undefined/1"))), Some(DefaultBase))] else [])
      ensures provenance != null ==>
        && fresh(provenance)
        && provenance.provenanceObject.entity == None
        && (forall k :: 0 <= k < |bundle.entry| ==>
              IdOf(bundle.entry[k].resource).Some? && provenance.resources[k] == IdOf(bundle.entry[k].resource))
      ensures forall k :: 0 <= k < |bundle.entry| ==>
        IdOf(bundle.entry[k].resource) == old(IdOf(bundle.entry[k].resource)) ||
        (provenance != null && old(IdOf(bundle.entry[k].resource)).None? &&
         IdOf(bundle.entry[k].resource) == Some(Show(TypeOf(bundle.entry[k].resource)) + "/1"))
    {
      bundleType := bundle.resourceType;
      entry := bundle.entry;
      provenance := null;
      var found := HasProvenanceEntry(bundle.entry);
      if createProvenance && !found {
        var p := new Provenance();
        ListResources(p, bundle.entry);
        provenance := p;
        assert NormalisedId(None, None) == "undefined/1";
        var _ := AddEntry(Plain(Prov(p)), None, None, None);
      }
    }
  }

  /** Whether some entry itself (not its resource) has `resourceType`
      "Provenance". */
  method HasProvenanceEntry(entries: seq<Entry>) returns (found: bool)
    ensures found <==> exists k :: 0 <= k < |entries| && entries[k].resourceType == Some("Provenance")
  {
    found := false;
    var i := 0;
    while i < |entries|
      invariant 0 <= i <= |entries|
      invariant found <==> exists k :: 0 <= k < i && entries[k].resourceType == Some("Provenance")
    {
      if entries[i].resourceType == Some("Provenance") {
        found := true;
      }
      i := i + 1;
    }
  }

  /** The loop of `replaceTransaction` that fills a new provenance: one
      reference per entry, in order, writing `type/1` into a resource that
      has no id. */
  method ListResources(p: Provenance, entries: seq<Entry>)
    requires p.Valid() && p.resources == []
    requires forall k :: 0 <= k < |entries| ==> ObjectOf(entries[k].resource) != p
    modifies p, set k | 0 <= k < |entries| :: ObjectOf(entries[k].resource)
    ensures p.Valid() && |p.resources| == |entries|
    ensures p.provenanceObject == old(p.provenanceObject) && p.id == old(p.id)
    ensures forall k :: 0 <= k < |entries| ==>
      IdOf(entries[k].resource).Some? && p.resources[k] == IdOf(entries[k].resource)
    ensures forall k :: 0 <= k < |entries| ==>
      IdOf(entries[k].resource) == old(IdOf(entries[k].resource)) ||
      (old(IdOf(entries[k].resource)).None? && IdOf(entries[k].resource) == Some(Show(TypeOf(entries[k].resource)) + "/1"))
  {
    var i := 0;
    while i < |entries|
      invariant 0 <= i <= |entries|
      invariant p.Valid() && |p.resources| == i
      invariant p.provenanceObject == old(p.provenanceObject) && p.id == old(p.id)
      invariant forall k :: 0 <= k < i ==>
        IdOf(entries[k].resource).Some? && p.resources[k] == IdOf(entries[k].resource)
      invariant forall k :: 0 <= k < |entries| ==>
        IdOf(entries[k].resource) == old(IdOf(entries[k].resource)) ||
        (old(IdOf(entries[k].resource)).None? && IdOf(entries[k].resource) == Some(Show(TypeOf(entries[k].resource)) + "/1"))
    {
      var r := entries[i].resource;
      var id: string;
      if IdOf(r).None? {
        id := Show(TypeOf(r)) + "/1";
        SetId(r, id);
      } else {
        id := IdOf(r).value;
      }
      p.AddResource(Some(id));
      i := i + 1;
    }
  }

  /** `createTransaction(createProvenance)`: an absent argument means no
      provenance. */
  method CreateTransaction(createProvenance: Option<bool>) returns (t: Transaction)
    ensures fresh(t) && t.Valid()
    ensures t.provenance != null <==> createProvenance == Some(true)
    ensures createProvenance != Some(true) ==> t.entry == []
    ensures createProvenance == Some(true) ==> |t.entry| == 1 && t.entry[0].resource == Prov(t.provenance)
  {
    t := new Transaction(if createProvenance.None? then false else createProvenance.value);
  }
}
