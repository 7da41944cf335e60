/** A mapping node whose IRIs are computed from a cell by an expression (CellResourceNode). */
module CellResource {
  import opened Support

  /** The discriminant this node kind is serialized under. */
  const NodeTypeName: string := "cell-as-resource"

  /** Util.NodeType. Its members are not part of this model, so a node type is an opaque tag. */
  datatype NodeType = NodeType(tag: nat)

  /** The objects Util.evaluateExpression can return: null, an error marker
      (what ExpressionUtils.isError recognizes), a Java array, or any other (scalar) object. */
  datatype ExprValue =
    | NullResult
    | ErrorMarker(message: string)
    | ArrayResult(elements: seq<ExprValue>)
    | ScalarResult(repr: string)

  /** An evaluation either throws ParsingException or returns an object. */
  datatype Evaluation = ParsingFault | Evaluated(result: ExprValue)

  /** The JSON names (Util.gstrPrefix, Util.gstrValueSource, ...) and the two fixed values
      Util.gstrGREL and Util.gstrIRI, which are not part of this model. */
  datatype JsonNames = JsonNames(
    prefix: string, valueSource: string, source: string, columnName: string,
    expression: string, language: string, grel: string, code: string,
    valueType: string, typeName: string, iri: string)

  /** True when the evaluation yields nothing to normalize. */
  predicate Unusable(e: Evaluation)
  {
    e.ParsingFault? || e.result.NullResult? || e.result.ErrorMarker?
  }

  /** Arrays.asList(results) with results statically typed Object: a list of one element, the result itself. */
  function AsList(results: ExprValue): seq<ExprValue>
  {
    [results]
  }

  function CallsOver(prefix: JString, objects: seq<ExprValue>): seq<(JString, ExprValue)>
  {
    if objects == [] then [] else [(prefix, objects[0])] + CallsOver(prefix, objects[1..])
  }

  /** The arguments of the normalizeResource calls that createRowResources makes, in order. */
  function NormalizeCalls(e: Evaluation, prefix: JString): (calls: seq<(JString, ExprValue)>)
    ensures forall c :: c in calls ==> c.0 == prefix
    ensures calls == [] <==> Unusable(e)
    ensures !Unusable(e) ==> calls == [(prefix, e.result)]
  {
    if Unusable(e) then []
    else if e.result.ArrayResult? then
      assert CallsOver(prefix, AsList(e.result)[1..]) == [];
      CallsOver(prefix, AsList(e.result))
    else [(prefix, e.result)]
  }

  /** The values a sequence of normalizeResource calls appends, one call after the other. */
  function Appended(calls: seq<(JString, ExprValue)>, normalize: (JString, ExprValue) -> seq<RdfValue>): seq<RdfValue>
  {
    if calls == [] then [] else normalize(calls[0].0, calls[0].1) + Appended(calls[1..], normalize)
  }

  lemma {:induction false} AppendedConcat(a: seq<(JString, ExprValue)>, b: seq<(JString, ExprValue)>,
                                          normalize: (JString, ExprValue) -> seq<RdfValue>)
    ensures Appended(a + b, normalize) == Appended(a, normalize) + Appended(b, normalize)
  {
    if a == [] {
      assert a + b == b;
    } else {
      assert (a + b)[1..] == a[1..] + b;
      AppendedConcat(a[1..], b, normalize);
    }
  }

  lemma AppendedSingle(prefix: JString, v: ExprValue, normalize: (JString, ExprValue) -> seq<RdfValue>)
    ensures Appended([(prefix, v)], normalize) == normalize(prefix, v)
  {
    assert [(prefix, v)][1..] == [];
    assert Appended([(prefix, v)], normalize) == normalize(prefix, v) + Appended([], normalize);
  }

  /** What listValues holds after createRowResources: null or a non-empty list, null whenever the
      evaluation faulted, returned null or an error marker, and otherwise what normalizeResource
      produced from the prefix and the whole result, array or not. */
  function RowResources(e: Evaluation, prefix: JString, normalize: (JString, ExprValue) -> seq<RdfValue>)
    : (r: Option<seq<RdfValue>>)
    ensures r.None? || |r.value| > 0
    ensures Unusable(e) ==> r.None?
    ensures !Unusable(e) ==> r == NullIfEmpty(normalize(prefix, e.result))
  {
    var calls := NormalizeCalls(e, prefix);
    var appended := Appended(calls, normalize);
    assert !Unusable(e) ==> appended == normalize(prefix, e.result) by {
      if !Unusable(e) {
        assert calls == [(prefix, e.result)];
        assert calls[1..] == [];
        assert Appended(calls[1..], normalize) == [];
        assert appended == normalize(calls[0].0, calls[0].1) + Appended(calls[1..], normalize);
      }
    }
    NullIfEmpty(appended)
  }

  /** True when writeNode leaves the expression out: it is null or the identity "value". */
  predicate OmitsExpression(expression: JString)
  {
    expression.None? || expression.value == "value"
  }

  /** True when writeNode writes the column name inside the value source. */
  predicate ShowsColumn(columnName: JString, isIndex: bool)
  {
    !(isIndex || columnName.None?)
  }

  function ValueTypeFields(names: JsonNames): seq<JsonEvent>
  {
    [ObjectFieldStart(names.valueType), StringField(names.typeName, Some(names.iri)), EndObject]
  }

  function PrefixFields(names: JsonNames, prefix: JString): seq<JsonEvent>
  {
    if prefix.Some? then [StringField(names.prefix, prefix)] else []
  }

  function SourceFields(names: JsonNames, source: JString, columnName: JString, isIndex: bool): seq<JsonEvent>
  {
    [ObjectFieldStart(names.valueSource), StringField(names.source, source)]
    + (if ShowsColumn(columnName, isIndex) then [StringField(names.columnName, columnName)] else [])
    + [EndObject]
  }

  function ExpressionFields(names: JsonNames, expression: JString): seq<JsonEvent>
  {
    if OmitsExpression(expression) then []
    else [ObjectFieldStart(names.expression), StringField(names.language, Some(names.grel)),
          StringField(names.code, expression), EndObject]
  }

  lemma ConcatAssociates(s: seq<JsonEvent>, a: seq<JsonEvent>, b: seq<JsonEvent>, c: seq<JsonEvent>, d: seq<JsonEvent>)
    ensures s + a + b + c + d == s + (a + b + c + d)
  {
  }

  /** The generator calls writeNode makes: prefix, value source, expression, value type. */
  function CellFields(names: JsonNames, prefix: JString, source: JString, columnName: JString,
                      isIndex: bool, expression: JString): (r: seq<JsonEvent>)
    ensures |r| == 6 + (if prefix.Some? then 1 else 0) + (if ShowsColumn(columnName, isIndex) then 1 else 0)
                     + (if OmitsExpression(expression) then 0 else 4)
    ensures r[0].StringField? <==> prefix.Some?
    ensures prefix.Some? ==> r[0] == StringField(names.prefix, prefix)
    ensures r[|r| - 3..] == ValueTypeFields(names)
  {
    PrefixFields(names, prefix) + SourceFields(names, source, columnName, isIndex)
    + ExpressionFields(names, expression) + ValueTypeFields(names)
  }

  /** The attributes a reader recovers from a cell node's fields. */
  datatype CellJson = CellJson(prefix: JString, source: JString, columnName: JString, expression: JString)

  /** Reads the fields of a cell node back, in the order writeNode writes them. */
  function ReadCellFields(names: JsonNames, evs: seq<JsonEvent>): Option<CellJson>
  {
    var hasPrefix := |evs| > 0 && evs[0].StringField? && evs[0].name == names.prefix;
    var prefix := if hasPrefix then evs[0].value else None;
    var i := if hasPrefix then 1 else 0;
    if |evs| < i + 3 || evs[i] != ObjectFieldStart(names.valueSource)
       || !evs[i + 1].StringField? || evs[i + 1].name != names.source
    then None
    else
      var source := evs[i + 1].value;
      var hasColumn := evs[i + 2].StringField? && evs[i + 2].name == names.columnName;
      var column := if hasColumn then evs[i + 2].value else None;
      var j := if hasColumn then i + 3 else i + 2;
      if |evs| <= j || evs[j] != EndObject then None
      else
        var rest := evs[j + 1..];
        if rest == ValueTypeFields(names) then Some(CellJson(prefix, source, column, None))
        else if |rest| == 7 && rest[0] == ObjectFieldStart(names.expression)
                && rest[1] == StringField(names.language, Some(names.grel))
                && rest[2].StringField? && rest[2].name == names.code
                && rest[3] == EndObject && rest[4..] == ValueTypeFields(names)
        then Some(CellJson(prefix, source, column, rest[2].value))
        else None
  }

  /** Reading the fields back recovers the prefix and the source, the column name unless the node is
      an index node, and the expression unless it is null or "value". */
  lemma ReadCellFieldsInvertsCellFields(names: JsonNames, prefix: JString, source: JString,
                                        columnName: JString, isIndex: bool, expression: JString)
    ensures ReadCellFields(names, CellFields(names, prefix, source, columnName, isIndex, expression))
            == Some(CellJson(prefix, source,
                             if isIndex then None else columnName,
                             if OmitsExpression(expression) then None else expression))
  {
    var p := PrefixFields(names, prefix);
    var c := if ShowsColumn(columnName, isIndex) then [StringField(names.columnName, columnName)] else [];
    var x := ExpressionFields(names, expression);
    var evs := CellFields(names, prefix, source, columnName, isIndex, expression);
    var i := |p|;
    var j := i + 2 + |c|;
    assert evs == p + [ObjectFieldStart(names.valueSource), StringField(names.source, source)] + c
                  + [EndObject] + x + ValueTypeFields(names);
    assert evs[i] == ObjectFieldStart(names.valueSource);
    assert evs[i + 1] == StringField(names.source, source);
    assert evs[j] == EndObject;
    assert evs[j + 1..] == x + ValueTypeFields(names);
  }

  /** The text getNodeName shows before the column slot. */
  function NameHead(prefix: JString): string
  {
    "Cell IRI: <" + Render(prefix) + ":["
  }

  /** The text getNodeName shows after the column slot. */
  function NameTail(expression: JString, subType: JString): string
  {
    "] (" + Render(subType) + ") on [" + Render(expression) + "]>"
  }

  /** getNodeName's text for a node whose type name (Util.toNodeTypeString) is subType. */
  function CellNodeName(prefix: JString, columnName: JString, expression: JString, isIndex: bool,
                        subType: JString): string
  {
    NameHead(prefix) + (if isIndex then "Index#" else Render(columnName)) + NameTail(expression, subType)
  }

  lemma SandwichInjective(head: string, a: string, b: string, tail: string)
    ensures head + a + tail == head + b + tail <==> a == b
  {
    if head + a + tail == head + b + tail {
      assert |a| == |b|;
      assert a == (head + a + tail)[|head|..|head| + |a|];
      assert b == (head + b + tail)[|head|..|head| + |b|];
    }
  }

  /** An index node's name never shows its column: it reads as a column node on a column "Index#". */
  lemma IndexNodeNameHidesColumn(prefix: JString, columnName: JString, expression: JString, subType: JString)
    ensures CellNodeName(prefix, columnName, expression, true, subType)
            == CellNodeName(prefix, Some("Index#"), expression, false, subType)
  {
  }

  /** A column node's name shows its column: two such names agree exactly when the columns render alike. */
  lemma ColumnNodeNameShowsColumn(prefix: JString, column1: JString, column2: JString,
                                  expression: JString, subType: JString)
    ensures CellNodeName(prefix, column1, expression, false, subType)
            == CellNodeName(prefix, column2, expression, false, subType)
            <==> Render(column1) == Render(column2)
  {
    SandwichInjective(NameHead(prefix), Render(column1), Render(column2), NameTail(expression, subType));
  }

  class CellResourceNode {
    const columnName: JString
    const prefix: JString
    const expression: JString
    const isIndex: bool
    const nodeType: NodeType
    /** The values computed for the current row; null when there are none. */
    var listValues: Option<seq<RdfValue>>

    /** spaceStrip is Util.toSpaceStrippedString; only the prefix goes through it. */
    constructor (columnName: JString, prefix: JString, expression: JString, isIndex: bool,
                 nodeType: NodeType, spaceStrip: JString -> JString)
      ensures this.columnName == columnName && this.prefix == spaceStrip(prefix)
      ensures this.expression == expression && this.isIndex == isIndex && this.nodeType == nodeType
      ensures listValues == None
    {
      this.columnName := columnName;
      this.prefix := spaceStrip(prefix);
      this.expression := expression;
      this.isIndex := isIndex;
      this.nodeType := nodeType;
      listValues := None;
    }

    function GetNodeType(): string
    {
      NodeTypeName
    }

    /** typeName is Util.toNodeTypeString. */
    function GetNodeName(typeName: NodeType -> JString): string
    {
      CellNodeName(prefix, columnName, expression, isIndex, typeName(nodeType))
    }

    /** evaluate is Util.evaluateExpression, bound to the project and the current row; normalize gives
        what one normalizeResource call appends to listValues. The ghost result lists the
        normalizeResource calls made. */
    method CreateRowResources(evaluate: (JString, JString) -> Evaluation,
                              normalize: (JString, ExprValue) -> seq<RdfValue>)
      returns (ghost calls: seq<(JString, ExprValue)>)
      modifies this
      ensures calls == NormalizeCalls(evaluate(expression, columnName), prefix)
      ensures listValues == RowResources(evaluate(expression, columnName), prefix, normalize)
    {
      listValues := None;
      calls := [];
      var results := evaluate(expression, columnName);
      if results.ParsingFault? {
        return;
      }
      var value := results.result;
      if value.NullResult? || value.ErrorMarker? {
        return;
      }
      var list: seq<RdfValue> := [];
      if value.ArrayResult? {
        var listResult := AsList(value);
        for k := 0 to |listResult|
          invariant calls == CallsOver(prefix, listResult[..k])
          invariant list == Appended(calls, normalize)
        {
          AppendedConcat(calls, [(prefix, listResult[k])], normalize);
          assert listResult[..k + 1] == [listResult[0]];
          list := list + normalize(prefix, listResult[k]);
          calls := calls + [(prefix, listResult[k])];
        }
        assert listResult[..|listResult|] == listResult;
        assert calls == [(prefix, value)];
        AppendedSingle(prefix, value, normalize);
      } else {
        AppendedSingle(prefix, value, normalize);
        list := list + normalize(prefix, value);
        calls := calls + [(prefix, value)];
      }
      assert !Unusable(results) && list == normalize(prefix, results.result);
      listValues := Some(list);
      if list == [] {
        listValues := None;
      }
      assert listValues == NullIfEmpty(list);
    }

    /** sourceName is Util.toNodeSourceString. */
    method WriteNode(writer: JsonGenerator, names: JsonNames, sourceName: NodeType -> JString)
      modifies writer
      ensures writer.events
              == old(writer.events) + CellFields(names, prefix, sourceName(nodeType), columnName, isIndex, expression)
    {
      ghost var start := writer.events;
      WritePrefix(writer, names);
      WriteSource(writer, names, sourceName(nodeType));
      WriteExpression(writer, names);
      WriteValueType(writer, names);
      ConcatAssociates(start, PrefixFields(names, prefix), SourceFields(names, sourceName(nodeType), columnName, isIndex),
                       ExpressionFields(names, expression), ValueTypeFields(names));
    }

    method WritePrefix(writer: JsonGenerator, names: JsonNames)
      modifies writer
      ensures writer.events == old(writer.events) + PrefixFields(names, prefix)
    {
      if prefix.Some? {
        writer.WriteStringField(names.prefix, prefix);
      }
    }

    method WriteSource(writer: JsonGenerator, names: JsonNames, source: JString)
      modifies writer
      ensures writer.events == old(writer.events) + SourceFields(names, source, columnName, isIndex)
    {
      writer.WriteObjectFieldStart(names.valueSource);
      writer.WriteStringField(names.source, source);
      if ShowsColumn(columnName, isIndex) {
        writer.WriteStringField(names.columnName, columnName);
      }
      writer.WriteEndObject();
    }

    method WriteExpression(writer: JsonGenerator, names: JsonNames)
      modifies writer
      ensures writer.events == old(writer.events) + ExpressionFields(names, expression)
    {
      if !OmitsExpression(expression) {
        writer.WriteObjectFieldStart(names.expression);
        writer.WriteStringField(names.language, Some(names.grel));
        writer.WriteStringField(names.code, expression);
        writer.WriteEndObject();
      }
    }

    method WriteValueType(writer: JsonGenerator, names: JsonNames)
      modifies writer
      ensures writer.events == old(writer.events) + ValueTypeFields(names)
    {
      writer.WriteObjectFieldStart(names.valueType);
      writer.WriteStringField(names.typeName, Some(names.iri));
      writer.WriteEndObject();
    }
  }
}
