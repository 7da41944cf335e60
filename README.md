# rdf-transform export core, modelled in Dafny

This project models four pieces of the RDF export path of the rdf-transform OpenRefine extension and proves properties about them:

- **The cell-derived IRI node** (`CellResourceNode`, module `CellResource`).
  - For each row, `createRowResources` evaluates the node's expression and absorbs a parse fault, a null result or an error marker as "no values".
  - Otherwise it normalizes the result into resources and turns an empty list into null.
  - `writeNode` serializes the node with exact field-presence rules, and `getNodeName` is a fixed string format.
- **The constant IRI node** (`ConstantResourceNode`, module `ConstantResource`).
  - It stores a whitespace-stripped IRI.
  - `createResources` normalizes only that IRI, returning null instead of an empty list.
  - `writeNode` writes two fields.
- **The export visitor** (`RDFVisitor`, module `Visitor`), modelled as a state machine over an in-memory repository.
  - The repository is a namespace table (a map), a statement collection (a multiset), the writer's log (a sequence) and an open/closed connection.
  - The constructor seeds the namespaces.
  - `start` drains the namespaces to the writer.
  - `flushStatements` drains the statements and only then clears them.
  - `end` closes the connection if it is open.
  - Faults are a schedule parameter: the repository or the writer fails at a given step.
- **The predefined vocabulary manager** (`PredefinedVocabularyManager`, module `Vocabularies`).
  - Its constructor loads the saved vocabularies file when it exists and is not empty. Otherwise it reads the bundled `prefix namespace [fetchURL]` list line by line and saves the result.
  - Java's `String.split("\\s+")` is modelled on its own, in module `WhitespaceSplit`, with these rules:
    - a line without whitespace splits into itself (the empty line too);
    - a leading whitespace run gives a leading empty token;
    - trailing empty tokens are dropped.

Collaborators whose code is not part of this model become function-typed parameters. Each names what it stands for; none is given a body:

| parameter | stands for |
|---|---|
| `evaluate` | `Util.evaluateExpression` |
| `normalize` | what `ResourceNode.normalizeResource` appends |
| `spaceStrip` | `Util.toSpaceStrippedString` |
| `typeName` / `sourceName` | `Util.toNodeTypeString` / `Util.toNodeSourceString` |
| `imports` | whether `importAndIndexVocabulary` succeeds |
| `vocabJson` | what `Vocabulary.write` produces |

More modelling choices:
- The `Util.gstr*` JSON keys are a record of abstract strings (`JsonNames`).
- A Java `String` that may be null is `Option<string>`, and `Render` gives the `"null"` that string concatenation prints.
- A Jackson `JsonGenerator` is the log of calls made on it.

The array branch of `createRowResources` does not normalize each element. It iterates `Arrays.asList(results)` with `results` typed `Object`, which is a one-element list holding the whole array, so `NormalizeCalls` makes exactly one call, on the whole result.

A property of the code as written is proved rather than assumed away. `write` saves the vocabularies as a JSON *array* under `"prefixes"`, while `load` only iterates the fields of an *object*. So a file saved by the manager loads back with no vocabulary at all, whatever `Vocabulary.write` produces. `SavedDocumentLoadsNothing` and `RestartAfterSeedLoadsNothing` state this.

## Model

| member | source | states |
|---|---|---|
| `CellResource.NormalizeCalls` | src/main/java/com/google/refine/rdf/model/CellResourceNode.java:83-112 | normalizeResource is never called after a parse fault, a null result or an error marker; otherwise it is called exactly once, with the stored prefix and the whole result (an array included) |
| `CellResource.RowResources` | src/main/java/com/google/refine/rdf/model/CellResourceNode.java:81-116 | the row's values are null or a non-empty list, never an empty one; null for an unusable evaluation; otherwise exactly what normalization appended, or null if it appended nothing |
| `CellResource.CellResourceNode.CreateRowResources` | src/main/java/com/google/refine/rdf/model/CellResourceNode.java:78-117 | the reset, the evaluation and the loop leave listValues equal to RowResources, and the normalizeResource calls made are NormalizeCalls |
| `CellResource.CellResourceNode.constructor` | src/main/java/com/google/refine/rdf/model/CellResourceNode.java:32-39 | only the prefix is space-stripped; column name, expression, index flag and node type are stored unchanged; no values yet |
| `CellResource.CellFields` | src/main/java/com/google/refine/rdf/model/CellResourceNode.java:120-148 | the number of fields written follows the presence rules; the first call is a prefix field exactly when the prefix is non-null; the value-type object with the IRI type always comes last |
| `CellResource.ReadCellFieldsInvertsCellFields` | src/main/java/com/google/refine/rdf/model/CellResourceNode.java:123-147 | reading back what writeNode wrote gives the prefix, the source type, the column name unless the node is an index node, and the expression unless it is null or "value" |
| `CellResource.CellResourceNode.WriteNode` | src/main/java/com/google/refine/rdf/model/CellResourceNode.java:120-148 | the generator receives exactly CellFields after what it held: prefix, value source, expression, value type, in that order |
| `CellResource.IndexNodeNameHidesColumn` | src/main/java/com/google/refine/rdf/model/CellResourceNode.java:46-52 | an index node's name shows "Index#" and does not depend on the column name |
| `CellResource.ColumnNodeNameShowsColumn` | src/main/java/com/google/refine/rdf/model/CellResourceNode.java:46-52 | for column nodes with the same prefix, expression and sub-type, two names are equal exactly when the rendered column names are equal |
| `ConstantResource.ConstantResources` | src/main/java/com/google/refine/rdf/ConstantResourceNode.java:62-66 | null exactly when normalizing the IRI added nothing; otherwise exactly what normalization added to the fresh list for the node's IRI against the base IRI |
| `ConstantResource.ConstantResourceNode.CreateResources` | src/main/java/com/google/refine/rdf/ConstantResourceNode.java:54-67 | the four context fields are overwritten with the arguments, and the returned list is ConstantResources of the new base and the stored IRI |
| `ConstantResource.ConstantResourceNode.constructor` | src/main/java/com/google/refine/rdf/ConstantResourceNode.java:30-32 | the IRI is stored space-stripped |
| `ConstantResource.ConstantResourceNode.WriteNode` | src/main/java/com/google/refine/rdf/ConstantResourceNode.java:70-73 | exactly two fields are written: nodeType "resource", then value with the stored IRI |
| `ConstantResource.ReadConstantFieldsInvertsConstantFields` | src/main/java/com/google/refine/rdf/ConstantResourceNode.java:70-73 | reading the two fields back gives the stored IRI, and only that exact field sequence reads as this IRI |
| `ConstantResource.ConstantNodeShowsStrippedIri` | src/main/java/com/google/refine/rdf/ConstantResourceNode.java:30-51 | a node's name, its serialized value and its IRI are all the stripped IRI it was built from, and its node type is "resource" |
| `Visitor.SeededBinding` | src/main/java/com/google/refine/rdf/model/operation/RDFVisitor.java:47-56 | after seeding, a prefix is bound exactly when some vocabulary declares it, or when it is "" and the base IRI is non-empty; it is bound to the last such vocabulary's namespace, else to the base IRI |
| `Visitor.RdfVisitor.constructor` | src/main/java/com/google/refine/rdf/model/operation/RDFVisitor.java:34-57 | the seeding loop leaves the namespace table equal to Seeded; no statements, nothing written, the connection open |
| `Visitor.RdfVisitor.Start` | src/main/java/com/google/refine/rdf/model/operation/RDFVisitor.java:69-93 | each namespace is handed to the writer at most once, with its own name, and every one is handed over when nothing fails; a repository fault is rethrown and a writer fault is logged and swallowed; statements and namespaces are unchanged |
| `Visitor.RdfVisitor.FlushStatements` | src/main/java/com/google/refine/rdf/model/operation/RDFVisitor.java:111-132 | every stored statement is handed to the writer and the store is then empty; on a fault the writer saw only a part and the statements are not cleared; the namespaces are never changed |
| `Visitor.RdfVisitor.End` | src/main/java/com/google/refine/rdf/model/operation/RDFVisitor.java:95-109 | the connection is closed only if it was open, so it is closed at most once however often end runs |
| `Visitor.NamespacesOnlyExport` | src/main/java/com/google/refine/rdf/model/operation/RDFVisitor.java:47-93 | with a base IRI, one prefix and no rows, the writer receives exactly the two namespace calls |
| `WhitespaceSplit.SplitOfJoin` | src/main/java/com/google/refine/rdf/model/vocab/PredefinedVocabularyManager.java:94 | words without whitespace joined by whitespace runs split back into exactly those words (an empty first word included), provided the later words are non-empty |
| `WhitespaceSplit.SplitOfJoinWithTrailing` | src/main/java/com/google/refine/rdf/model/vocab/PredefinedVocabularyManager.java:94 | a trailing whitespace run adds no token: words joined by whitespace runs and followed by one split back into exactly those words |
| `WhitespaceSplit.SplitShape` | src/main/java/com/google/refine/rdf/model/vocab/PredefinedVocabularyManager.java:94 | every token contains no whitespace, and every token after the first is non-empty |
| `WhitespaceSplit.SplitOfBlank` | src/main/java/com/google/refine/rdf/model/vocab/PredefinedVocabularyManager.java:94-98 | a line made only of whitespace yields no token |
| `Vocabularies.ParseLine` | src/main/java/com/google/refine/rdf/model/vocab/PredefinedVocabularyManager.java:94-106 | a line is skipped exactly when it has fewer than two tokens; otherwise its prefix has no whitespace, its namespace and fetch URL are non-empty words, and the fetch URL is the namespace when there is no third token |
| `Vocabularies.ParseLineOfFields` | src/main/java/com/google/refine/rdf/model/vocab/PredefinedVocabularyManager.java:94-106 | a line of words parses into prefix = first word, namespace = second, fetch URL = third or else second; further words are ignored |
| `Vocabularies.ParseLineOfFieldsWithTrailing` | src/main/java/com/google/refine/rdf/model/vocab/PredefinedVocabularyManager.java:94-106 | a line of fields followed by trailing whitespace parses like the line without it: with two words the fetch URL is the namespace |
| `Vocabularies.ParseLineOfIndentedLine` | src/main/java/com/google/refine/rdf/model/vocab/PredefinedVocabularyManager.java:94-102 | a line starting with whitespace gets the prefix "" and its first word as namespace |
| `Vocabularies.ShortLinesAreSkipped` | src/main/java/com/google/refine/rdf/model/vocab/PredefinedVocabularyManager.java:94-98 | an empty line, a blank line and a line holding one word (with or without trailing whitespace) are skipped |
| `Vocabularies.ImportedAppend` | src/main/java/com/google/refine/rdf/model/vocab/PredefinedVocabularyManager.java:92-124 | the vocabularies of two consecutive parts of the list are those of the first part followed by those of the second: each line is handled on its own, and order is kept |
| `Vocabularies.ImportedMembers` | src/main/java/com/google/refine/rdf/model/vocab/PredefinedVocabularyManager.java:109-122 | a vocabulary is in the list exactly when some line parses to its prefix and namespace and that line's import succeeds |
| `Vocabularies.ImportedLength` | src/main/java/com/google/refine/rdf/model/vocab/PredefinedVocabularyManager.java:92-124 | the list never holds more vocabularies than there are lines |
| `Vocabularies.PredefinedVocabularyManager.AddPredefinedVocabularies` | src/main/java/com/google/refine/rdf/model/vocab/PredefinedVocabularyManager.java:77-127 | a missing resource fails with an IOException before anything is added; otherwise the loop appends exactly Imported of the lines to the existing list |
| `Vocabularies.FieldsVocabulariesAt` | src/main/java/com/google/refine/rdf/model/vocab/PredefinedVocabularyManager.java:182-187 | one vocabulary per field, the i-th from the i-th field: the key as prefix, the value's text as namespace |
| `Vocabularies.Loaded` | src/main/java/com/google/refine/rdf/model/vocab/PredefinedVocabularyManager.java:177-188 | loading fails with a null dereference exactly when the document has no "prefixes" member |
| `Vocabularies.LoadedObjectFields` | src/main/java/com/google/refine/rdf/model/vocab/PredefinedVocabularyManager.java:181-187 | when "prefixes" is an object, wherever it sits among the document's members, loading succeeds and yields one vocabulary per field, in document order |
| `Vocabularies.PredefinedVocabularyManager.Load` | src/main/java/com/google/refine/rdf/model/vocab/PredefinedVocabularyManager.java:177-188 | the field loop appends exactly Loaded's vocabularies, or nothing when the document has no "prefixes" member |
| `Vocabularies.VocabularyItems` | src/main/java/com/google/refine/rdf/model/vocab/PredefinedVocabularyManager.java:194-196 | write emits one JSON item per vocabulary, the i-th for the i-th vocabulary |
| `Vocabularies.SavedDocumentLoadsNothing` | src/main/java/com/google/refine/rdf/model/vocab/PredefinedVocabularyManager.java:177-200 | a document written by write loads back without error and with no vocabulary |
| `Vocabularies.PredefinedVocabularyManager.Save` | src/main/java/com/google/refine/rdf/model/vocab/PredefinedVocabularyManager.java:143-164 | the saved file becomes the written document, or stays as it was when writing the temporary file fails; the vocabularies are unchanged |
| `Vocabularies.PredefinedVocabularyManager.ReconstructVocabulariesFromFile` | src/main/java/com/google/refine/rdf/model/vocab/PredefinedVocabularyManager.java:133-141 | the file counts as not found exactly when it is absent or empty; otherwise it is loaded, and a file that does not parse is an IOException |
| `Vocabularies.Startup` | src/main/java/com/google/refine/rdf/model/vocab/PredefinedVocabularyManager.java:42-68 | a saved file that loads gives its vocabularies and stays as it is; a parsed file without "prefixes" fails with the null dereference and one that does not parse with an IOException; with no saved file, a missing bundled list fails, and otherwise the imported vocabularies of the bundled list are taken and saved (the file is left as it was when the write fails) |
| `Vocabularies.StartupPrefersSavedFile` | src/main/java/com/google/refine/rdf/model/vocab/PredefinedVocabularyManager.java:46-49 | when a saved file exists, the bundled list, the imports and the save play no part in the outcome |
| `Vocabularies.RestartAfterSeedLoadsNothing` | src/main/java/com/google/refine/rdf/model/vocab/PredefinedVocabularyManager.java:42-68 | a first start without a saved file seeds the imported vocabularies and saves them, and a second start from that saved file comes up with no vocabulary |
| `Vocabularies.PredefinedVocabularyManager.Open` | src/main/java/com/google/refine/rdf/model/vocab/PredefinedVocabularyManager.java:42-68 | the constructor's steps fail or succeed as Startup says, and a built manager holds Startup's vocabularies and saved file |

## Left out

- `NamespacesGetDefaultCommand` is not part of this model. It is servlet plumbing around the vocabulary searcher and a JSON generator.
- `ResourceNode.normalizeResource`, `Util.evaluateExpression`, `ExpressionUtils.isError`, `Util.toSpaceStrippedString`, `Util.toNodeTypeString`, `Util.toNodeSourceString`, the `Util.gstr*` keys and `Vocabulary.write` are abstract parameters; their code is not part of this model. rdf4j's IRI parsing is not modelled either.
- `CellResource.CellResourceNode.CreateRowResources`: only a `ParsingException` from the evaluator is modelled (as `ParsingFault`); any other exception escapes in the source with `listValues` already reset to null, and that outcome is not modelled.
- `CellResource.CellResourceNode.CreateRowResources`: normalizeResource is modelled as a function of the prefix and the value. Its dependence on the node's other state (base IRI, factory, project) is folded into the parameter. An exception escaping from it is not modelled.
- `ConstantResource.ConstantResourceNode.CreateResources`: normalizeResource is modelled as a function of the base IRI and the IRI; that the factory, connection and project stored just before it runs do not influence it is assumed, since its code is not part of this model.
- The Jackson getters of `CellResourceNode` (`getColumnName`, `getPrefix`, `getExpression`) and the getters of `ConstantResourceNode` only return stored fields. The constructors' contracts and `ConstantNodeShowsStrippedIri` cover them.
- `Visitor.RdfVisitor.Start`: the order in which the repository lists namespaces is unspecified, and no order is claimed.
- `Visitor.RdfVisitor.constructor`: these failure paths are not modelled:
  - faults while creating and initializing the repository and its connection;
  - the null dereference a null base IRI would raise.
- `Visitor.RdfVisitor.End`: a fault raised while closing the connection is not modelled.
- A `RepositoryException` from `clear()` at the end of `flushStatements` is covered by the fault schedule: a store fault at the step after the last statement hands everything over, clears nothing and is thrown, as that failure would.
- Faults raised while closing the iterators in `start` and `flushStatements` are not modelled.
- `Visitor.RdfVisitor.Start` and `Visitor.RdfVisitor.FlushStatements` do not require an open connection: a call after `end`, which rdf4j refuses, is represented by a store fault at step 0 in the fault schedule.
- `buildModel` is abstract in the source. `AddStatement` stands in for the way a visitor fills the store, and like an rdf4j repository it holds each statement at most once.
- `Vocabularies.ImportedAppend`: whether an import succeeds is assumed to depend only on the line's prefix, namespace and fetch URL; the searcher's own state (what it fetched and indexed for earlier lines) is not modelled, and that is why one line's outcome does not depend on the lines around it.
- The vocabulary searcher is only an import oracle:
  - what `importAndIndexVocabulary` does to the search index is not modelled;
  - the final `update()` call is not modelled.
- Closing the reader and `IOException`s raised while reading lines are not modelled. The bundled list is a sequence of lines, and `None` stands for a missing resource stream.
- These file-system details are not modelled:
  - the temporary, old and final file rename protocol of `save`;
  - `saveToFile`'s stream handling;
  - Jackson's parsing.
  The saved file is one of four states: absent, empty, unparsable, or a parsed JSON tree whose objects have one field per key, as Jackson's `ObjectNode` holds them (for a key repeated in the text, Jackson keeps the last value). The `Json` type itself does not enforce distinct keys; on a tree with a repeated key, `Member` would take the first field of that name, which is not what Jackson does.
- A saved file that exists but is unreadable is not modelled.
- Logging and the verbosity and debug flags are not modelled.
- The default constructor of `PredefinedVocabularyManager` (no working directory) is not modelled. Neither is the getter `getPredefinedVocabularies`.
