/** The provenance accumulator: a FHIR Provenance resource naming the Data
    Reconciliation Engine as the agent, the source document it read, and a
    growing list of references to the resources a transaction writes. */
module ProvenanceLog {
  import opened Util

  datatype CodedValue = CodedValue(system: string, code: string)

  datatype Agent = Agent(role: CodedValue, agentType: CodedValue, referenceUri: string, display: string)

  /** `{role, type, reference}`: the source the provenance points at. */
  datatype Entity = Entity(role: string, entityType: string, reference: string)

  /** The FHIR resource held in `provenanceObject`. Its `target` is a
      separate list from the `resources` field, so `addResource` never
      reaches it. */
  datatype ProvenanceObject = ProvenanceObject(
    resourceType: string,
    id: string,
    target: seq<Option<string>>,
    agent: seq<Agent>,
    reason: string,
    entity: Option<Entity>)

  /** The single agent: the engine acting as a derivation device. */
  const EngineAgent: Agent := Agent(
    CodedValue("http://hl7.org/fhir/provenance-participant-role", "derivation"),
    CodedValue("http://hl7.org/fhir/provenance-participant-type", "device"),
    "http://amida-tech.com/fhir/dre",
    "Data Reconciliation Engine")

  /** The parts of the Provenance resource that never change. */
  predicate FixedParts(o: ProvenanceObject) {
    && o.resourceType == "Provenance"
    && o.id == "Provenance/1"
    && o.agent == [EngineAgent]
    && o.reason == "update from DRE"
  }

  class Provenance {
    /** The `{reference: id}` objects collected so far; `None` is an
        `undefined` reference. */
    var resources: seq<Option<string>>
    var provenanceObject: ProvenanceObject
    /** The `id` property of the JavaScript object itself (not of
        `provenanceObject`): absent at first, written when the object is
        added to a transaction as if it were a resource. */
    var id: Option<string>

    predicate Valid()
      reads this
    {
      FixedParts(provenanceObject)
    }

    /** `new Provenance()`: no resources, no source yet. The constructor
        reads `target` from a variable `resources` it never declares; the
        model takes that to be an empty list of its own. */
    constructor ()
      ensures Valid()
      ensures resources == []
      ensures provenanceObject.target == []
      ensures provenanceObject.entity == None
      ensures id == None
    {
      resources := [];
      provenanceObject := ProvenanceObject("Provenance", "Provenance/1", [], [EngineAgent], "update from DRE", None);
      id := None;
    }

    /** `addSource(sourceId)`: replaces the entity, whatever it was. */
    method AddSource(sourceId: string)
      requires Valid()
      modifies this
      ensures Valid()
      ensures provenanceObject == old(provenanceObject).(entity := Some(Entity("source", "Binary", sourceId)))
      ensures resources == old(resources) && id == old(id)
    {
      provenanceObject := provenanceObject.(entity := Some(Entity("source", "Binary", sourceId)));
    }

    /** `addResource(resourceId)`: appends one reference at the end. */
    method AddResource(resourceId: Option<string>)
      requires Valid()
      modifies this
      ensures Valid()
      ensures resources == old(resources) + [resourceId]
      ensures provenanceObject == old(provenanceObject) && id == old(id)
    {
      resources := resources + [resourceId];
    }
  }
}
