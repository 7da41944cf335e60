/** Values shared by the node, visitor and vocabulary modules. */
module Support {

  datatype Option<+T> = None | Some(value: T)

  datatype Result<+T, +E> = Success(value: T) | Failure(error: E)

  /** A Java String reference: None stands for null. */
  type JString = Option<string>

  /** How Java's string concatenation renders a possibly null String. */
  function Render(s: JString): string
  {
    match s
    case None => "null"
    case Some(t) => t
  }

  /** A reference to a collaborator object (factory, connection, project) that the model does not look into. */
  datatype Handle = NullHandle | Handle(id: nat)

  /** An RDF value as rdf4j's Value: an IRI, a blank node or a literal. */
  datatype RdfValue =
    | Iri(iri: string)
    | BlankNode(id: string)
    | Literal(lexical: string, datatypeIri: Option<string>, language: Option<string>)

  datatype Statement = Statement(subject: RdfValue, predicateValue: RdfValue, objectValue: RdfValue)

  /** A vocabulary: a prefix bound to a namespace. */
  datatype Vocabulary = Vocabulary(prefix: string, namespace: string)

  /** The list a resource node hands back: null instead of an empty list. */
  function NullIfEmpty<T>(s: seq<T>): (r: Option<seq<T>>)
    ensures r.None? <==> s == []
    ensures r.Some? ==> r.value == s && |r.value| > 0
  {
    if s == [] then None else Some(s)
  }

  /** One call made on a Jackson JsonGenerator while a node writes itself. */
  datatype JsonEvent =
    | StringField(name: string, value: JString)
    | ObjectFieldStart(name: string)
    | EndObject

  /** A Jackson JsonGenerator, seen as the log of the calls made on it. */
  class JsonGenerator {
    var events: seq<JsonEvent>

    constructor ()
      ensures events == []
    {
      events := [];
    }

    method WriteStringField(name: string, value: JString)
      modifies this
      ensures events == old(events) + [StringField(name, value)]
    {
      events := events + [StringField(name, value)];
    }

    method WriteObjectFieldStart(name: string)
      modifies this
      ensures events == old(events) + [ObjectFieldStart(name)]
    {
      events := events + [ObjectFieldStart(name)];
    }

    method WriteEndObject()
      modifies this
      ensures events == old(events) + [EndObject]
    {
      events := events + [EndObject];
    }
  }
}
