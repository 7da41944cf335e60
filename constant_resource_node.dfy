/** A mapping node that always stands for one fixed IRI (ConstantResourceNode). */
module ConstantResource {
  import opened Support

  /** The discriminant this node kind is serialized under, and what getNodeType answers. */
  const NodeTypeName: string := "resource"

  /** What createResources returns: null when normalizing the IRI against the base added nothing,
      otherwise exactly the values it added. In this model only the IRI and the base take part:
      that the node's other context does not influence normalizeResource is assumed. */
  function ConstantResources(baseIri: JString, iri: JString, normalize: (JString, JString) -> seq<RdfValue>)
    : (r: Option<seq<RdfValue>>)
    ensures r.None? <==> normalize(baseIri, iri) == []
    ensures r.Some? ==> r.value == normalize(baseIri, iri) && |r.value| > 0
  {
    var listResources: seq<RdfValue> := [];
    NullIfEmpty(listResources + normalize(baseIri, iri))
  }

  /** The generator calls writeNode makes: the node type, then the IRI. */
  function ConstantFields(iri: JString): seq<JsonEvent>
  {
    [StringField("nodeType", Some(NodeTypeName)), StringField("value", iri)]
  }

  /** Reads a constant resource node back: its fields are exactly a "resource" node type and a value. */
  function ReadConstantFields(evs: seq<JsonEvent>): Option<JString>
  {
    if |evs| == 2 && evs[0] == StringField("nodeType", Some(NodeTypeName))
       && evs[1].StringField? && evs[1].name == "value"
    then Some(evs[1].value)
    else None
  }

  /** Reading the two fields back gives the stored IRI, and nothing else reads as this node kind
      unless it has that exact shape. */
  lemma ReadConstantFieldsInvertsConstantFields(iri: JString, evs: seq<JsonEvent>)
    ensures ReadConstantFields(ConstantFields(iri)) == Some(iri)
    ensures ReadConstantFields(evs) == Some(iri) <==> evs == ConstantFields(iri)
  {
  }

  class ConstantResourceNode {
    const iri: JString
    /** The context createResources stores: the base IRI (a ParsedIRI), the value factory,
        the repository connection and the project. */
    var baseIri: JString
    var factory: Handle
    var connection: Handle
    var project: Handle

    /** spaceStrip is Util.toSpaceStrippedString. */
    constructor (iri: JString, spaceStrip: JString -> JString)
      ensures this.iri == spaceStrip(iri)
    {
      this.iri := spaceStrip(iri);
      baseIri := None;
      factory, connection, project := NullHandle, NullHandle, NullHandle;
    }

    function GetNodeName(): JString
    {
      iri
    }

    function GetIri(): JString
    {
      iri
    }

    function GetNodeType(): string
    {
      NodeTypeName
    }

    /** normalize gives what normalizeResource appends to the list it is handed, from the base IRI
        just stored and the node's IRI. */
    method CreateResources(baseIri: JString, factory: Handle, connection: Handle, project: Handle,
                           normalize: (JString, JString) -> seq<RdfValue>)
      returns (r: Option<seq<RdfValue>>)
      modifies this
      ensures this.baseIri == baseIri && this.factory == factory
      ensures this.connection == connection && this.project == project
      ensures r == ConstantResources(baseIri, iri, normalize)
    {
      this.baseIri := baseIri;
      this.factory := factory;
      this.connection := connection;
      this.project := project;
      var listResources: seq<RdfValue> := [];
      listResources := listResources + normalize(this.baseIri, iri);
      if listResources == [] {
        r := None;
      } else {
        r := Some(listResources);
      }
    }

    method WriteNode(writer: JsonGenerator)
      modifies writer
      ensures writer.events == old(writer.events) + ConstantFields(iri)
    {
      writer.WriteStringField("nodeType", Some(NodeTypeName));
      writer.WriteStringField("value", iri);
    }
  }

  /** The name, the IRI and the written value of a constant node are all the stripped IRI it was built from. */
  method ConstantNodeShowsStrippedIri(iri: JString, spaceStrip: JString -> JString)
    returns (name: JString, storedIri: JString, value: JString, nodeType: string)
    ensures name == spaceStrip(iri) && storedIri == spaceStrip(iri) && value == spaceStrip(iri)
    ensures nodeType == "resource"
  {
    var node := new ConstantResourceNode(iri, spaceStrip);
    var writer := new JsonGenerator();
    node.WriteNode(writer);
    var read := ReadConstantFields(writer.events);
    ReadConstantFieldsInvertsConstantFields(node.iri, writer.events);
    name := node.GetNodeName();
    storedIri := node.GetIri();
    value := read.value;
    nodeType := node.GetNodeType();
  }
}
