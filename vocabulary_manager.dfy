/** The predefined vocabulary manager: seeding vocabularies from the bundled list of prefixes,
    saving them in the working directory, and loading them back (PredefinedVocabularyManager). */
module Vocabularies {
  import opened Support
  import opened WhitespaceSplit

  /** One usable line of the bundled list: a prefix, its namespace and the URL to fetch it from. */
  datatype Entry = Entry(prefix: string, namespace: string, fetchUrl: string)

  /** The exceptions the manager's constructor lets escape. */
  datatype ManagerError =
    | MissingResource   // IOException: the bundled list is not on the class path
    | MalformedFile     // IOException: Jackson cannot parse the saved file
    | MissingPrefixes   // null dereference: the saved document has no "prefixes" member

  /** A Jackson JsonNode tree. An object keeps its fields in document order. Jackson's ObjectNode
      holds one field per key (a key repeated in the text keeps its last value); trees are taken
      in that form, and the type does not enforce it. */
  datatype Json =
    | JText(text: string)
    | JNumber(repr: string)
    | JBool(b: bool)
    | JNull
    | JArray(items: seq<Json>)
    | JObject(fields: seq<(string, Json)>)

  /** The saved file vocabularies_meta.json in the working directory, as Jackson would read it. */
  datatype VocabFile =
    | Absent              // the file does not exist
    | ZeroLength          // the file exists but is empty
    | Garbled             // the file exists, but readTree fails on it
    | Parsed(root: Json)  // readTree yields this tree

  /** What a manager holds once built: its vocabulary list and the saved file. */
  datatype ManagerState = ManagerState(vocabularies: seq<Vocabulary>, file: VocabFile)

  // ---------------------------------------------------------------------------------------------
  // The bundled list: one line per vocabulary, "prefix namespace [fetchURL]"
  // ---------------------------------------------------------------------------------------------

  /** A line split on whitespace runs: fewer than two tokens and the line is skipped; otherwise
      token 0 is the prefix, token 1 the namespace and token 2, when present, the fetch URL, which
      defaults to the namespace. Further tokens are ignored. */
  function ParseLine(line: string): (r: Option<Entry>)
    ensures r.None? <==> |Split(line)| < 2
    ensures r.Some? ==> IsWord(r.value.prefix)
    ensures r.Some? ==> IsWord(r.value.namespace) && r.value.namespace != ""
    ensures r.Some? ==> IsWord(r.value.fetchUrl) && r.value.fetchUrl != ""
    ensures r.Some? && |Split(line)| == 2 ==> r.value.fetchUrl == r.value.namespace
  {
    var tokens := Split(line);
    SplitShape(line);
    if |tokens| < 2 then None
    else
      var fetchUrl := if |tokens| < 3 then tokens[1] else tokens[2];
      Some(Entry(tokens[0], tokens[1], fetchUrl))
  }

  /** A line whose fields are words joined by whitespace runs parses into those fields: the first
      word is the prefix, the second the namespace, the third (or else the second) the fetch URL. */
  lemma ParseLineOfFields(words: seq<string>, seps: seq<string>)
    requires |words| >= 2 && |words| == |seps| + 1
    requires forall i :: 0 <= i < |words| ==> IsWord(words[i])
    requires forall i :: 0 <= i < |seps| ==> IsSeparator(seps[i])
    requires forall i :: 0 < i < |words| ==> words[i] != ""
    ensures ParseLine(Join(words, seps))
            == Some(Entry(words[0], words[1], if |words| == 2 then words[1] else words[2]))
  {
    SplitOfJoin(words, seps);
  }

  /** Trailing whitespace changes nothing: split drops the empty token after it, so a line of
      fields followed by a whitespace run parses like the line without it. */
  lemma ParseLineOfFieldsWithTrailing(words: seq<string>, seps: seq<string>, trailing: string)
    requires |words| >= 2 && |words| == |seps| + 1
    requires forall i :: 0 <= i < |words| ==> IsWord(words[i])
    requires forall i :: 0 <= i < |seps| ==> IsSeparator(seps[i])
    requires forall i :: 0 < i < |words| ==> words[i] != ""
    requires IsSeparator(trailing)
    ensures ParseLine(Join(words, seps) + trailing)
            == Some(Entry(words[0], words[1], if |words| == 2 then words[1] else words[2]))
  {
    SplitOfJoinWithTrailing(words, seps, trailing);
  }

  /** A line that starts with whitespace keeps a leading empty token: its prefix is "" and its
      namespace is its first word. */
  lemma ParseLineOfIndentedLine(indent: string, words: seq<string>, seps: seq<string>)
    requires IsSeparator(indent)
    requires |words| >= 1 && |words| == |seps| + 1
    requires forall i :: 0 <= i < |words| ==> IsWord(words[i]) && words[i] != ""
    requires forall i :: 0 <= i < |seps| ==> IsSeparator(seps[i])
    ensures ParseLine(indent + Join(words, seps)).Some?
    ensures ParseLine(indent + Join(words, seps)).value.prefix == ""
    ensures ParseLine(indent + Join(words, seps)).value.namespace == words[0]
  {
    IndentedLineFields(indent, words, seps);
    ParseLineOfFields([""] + words, [indent] + seps);
  }

  /** An indented line is an empty first word followed by the line's own words. */
  lemma IndentedLineFields(indent: string, words: seq<string>, seps: seq<string>)
    requires IsSeparator(indent)
    requires |words| >= 1 && |words| == |seps| + 1
    requires forall i :: 0 <= i < |words| ==> IsWord(words[i]) && words[i] != ""
    requires forall i :: 0 <= i < |seps| ==> IsSeparator(seps[i])
    ensures Join([""] + words, [indent] + seps) == indent + Join(words, seps)
    ensures forall i :: 0 <= i < |[""] + words| ==> IsWord(([""] + words)[i])
    ensures forall i :: 0 <= i < |[indent] + seps| ==> IsSeparator(([indent] + seps)[i])
    ensures forall i :: 0 < i < |[""] + words| ==> ([""] + words)[i] != ""
  {
    var ws := [""] + words;
    var ss := [indent] + seps;
    assert ws[1..] == words && ss[1..] == seps;
    assert Join(ws, ss) == "" + indent + Join(words, seps);
    assert "" + indent + Join(words, seps) == indent + Join(words, seps);
    forall i | 0 <= i < |ws| ensures IsWord(ws[i]) {
      if i > 0 { assert ws[i] == words[i - 1]; }
    }
    forall i | 0 <= i < |ss| ensures IsSeparator(ss[i]) {
      if i > 0 { assert ss[i] == seps[i - 1]; }
    }
  }

  /** An empty line, a line of whitespace only and a line holding a single word are all skipped. */
  lemma ShortLinesAreSkipped(word: string, trailing: string)
    requires IsWord(word)
    requires trailing == "" || IsSeparator(trailing)
    ensures ParseLine(word + trailing).None?
    ensures trailing != "" ==> ParseLine(trailing).None?
  {
    if trailing == "" {
      assert word + trailing == Join([word], []);
      SplitOfJoin([word], []);
    } else {
      SplitOfBlank(trailing);
      assert WordLength(word + trailing) == |word| by {
        WordLengthOfWord(word, trailing);
      }
      DropShape(word, trailing);
    }
  }

  /** A word followed by a whitespace run splits into that word alone. */
  lemma DropShape(word: string, trailing: string)
    requires IsWord(word) && IsSeparator(trailing)
    ensures |Split(word + trailing)| < 2
  {
    var s := word + trailing;
    WordLengthOfWord(word, trailing);
    assert s[..|word|] == word;
    var rest := s[|word|..];
    assert rest == trailing;
    RunLengthOfSeparator(trailing, []);
    assert trailing + [] == trailing;
    assert rest[RunLength(rest)..] == [];
    assert Pieces([]) == [[]];
    assert Pieces(s) == [word, []];
  }

  /** What one line contributes: its vocabulary, when it parses and its import succeeds.
      imports(prefix, namespace, fetchUrl) stands for importAndIndexVocabulary not throwing. */
  function LineVocabulary(line: string, imports: (string, string, string) -> bool): seq<Vocabulary>
  {
    match ParseLine(line)
    case None => []
    case Some(e) => if imports(e.prefix, e.namespace, e.fetchUrl) then [Vocabulary(e.prefix, e.namespace)] else []
  }

  /** What a list of lines contributes, line by line, in the lines' order. */
  function Contributions(lines: seq<string>, contribution: string -> seq<Vocabulary>): seq<Vocabulary>
  {
    if lines == [] then []
    else Contributions(lines[..|lines| - 1], contribution) + contribution(lines[|lines| - 1])
  }

  /** The vocabularies the bundled list yields, one per imported line, in the lines' order. */
  function Imported(lines: seq<string>, imports: (string, string, string) -> bool): seq<Vocabulary>
  {
    Contributions(lines, line => LineVocabulary(line, imports))
  }

  /** Reading two parts of the list one after the other yields their vocabularies one after the
      other: a line's outcome does not depend on the lines around it, and order is kept. */
  lemma ImportedAppend(a: seq<string>, b: seq<string>, imports: (string, string, string) -> bool)
    ensures Imported(a + b, imports) == Imported(a, imports) + Imported(b, imports)
  {
    ContributionsAppend(a, b, line => LineVocabulary(line, imports));
  }

  lemma {:induction false} ContributionsAppend(a: seq<string>, b: seq<string>, f: string -> seq<Vocabulary>)
    ensures Contributions(a + b, f) == Contributions(a, f) + Contributions(b, f)
    decreases |b|
  {
    if b == [] {
      assert a + b == a;
    } else {
      var b' := b[..|b| - 1];
      assert (a + b)[..|a + b| - 1] == a + b';
      assert (a + b)[|a + b| - 1] == b[|b| - 1];
      ContributionsAppend(a, b', f);
    }
  }

  /** A vocabulary is in the list exactly when some line parses into its prefix and namespace and
      that line's import succeeds. */
  lemma ImportedMembers(lines: seq<string>, imports: (string, string, string) -> bool, v: Vocabulary)
    ensures v in Imported(lines, imports) <==>
            exists i :: 0 <= i < |lines| && v in LineVocabulary(lines[i], imports)
  {
    var f := line => LineVocabulary(line, imports);
    ContributionMembers(lines, f, v);
    assert forall i :: 0 <= i < |lines| ==> f(lines[i]) == LineVocabulary(lines[i], imports);
  }

  lemma {:induction false} ContributionMembers(lines: seq<string>, f: string -> seq<Vocabulary>, v: Vocabulary)
    ensures v in Contributions(lines, f) <==> exists i :: 0 <= i < |lines| && v in f(lines[i])
  {
    if lines != [] {
      var init := lines[..|lines| - 1];
      ContributionMembers(init, f, v);
      if v in Contributions(init, f) {
        var k :| 0 <= k < |init| && v in f(init[k]);
        assert init[k] == lines[k];
      } else if v !in f(lines[|lines| - 1]) {
        forall i | 0 <= i < |lines| ensures v !in f(lines[i]) {
          if i < |init| {
            assert init[i] == lines[i];
          }
        }
      }
    }
  }

  /** Every imported vocabulary comes from a line of its own. */
  lemma ImportedLength(lines: seq<string>, imports: (string, string, string) -> bool)
    ensures |Imported(lines, imports)| <= |lines|
  {
    var f := line => LineVocabulary(line, imports);
    forall line ensures |f(line)| <= 1 {
    }
    ContributionsLength(lines, f);
  }

  lemma {:induction false} ContributionsLength(lines: seq<string>, f: string -> seq<Vocabulary>)
    requires forall line :: |f(line)| <= 1
    ensures |Contributions(lines, f)| <= |lines|
  {
    if lines != [] {
      ContributionsLength(lines[..|lines| - 1], f);
    }
  }

  /** One more line adds that line's vocabulary, if any, at the end. */
  lemma ImportedStep(lines: seq<string>, i: nat, imports: (string, string, string) -> bool)
    requires i < |lines|
    ensures Imported(lines[..i + 1], imports) == Imported(lines[..i], imports) + LineVocabulary(lines[i], imports)
  {
    assert lines[..i + 1][..i] == lines[..i];
    assert lines[..i + 1][i] == lines[i];
  }

  // ---------------------------------------------------------------------------------------------
  // The saved file: what save writes and what load reads
  // ---------------------------------------------------------------------------------------------

  /** Jackson's JsonNode.asText: the text of a text node, the representation of a number or a
      boolean, "null" for a null node, and "" for an array or an object. */
  function AsText(j: Json): (t: string)
    ensures j.JText? ==> t == j.text
    ensures j.JArray? || j.JObject? ==> t == ""
  {
    match j
    case JText(text) => text
    case JNumber(repr) => repr
    case JBool(b) => if b then "true" else "false"
    case JNull => "null"
    case JArray(_) => ""
    case JObject(_) => ""
  }

  /** JsonNode.get(name): the value of the field of that name of an object; null (None) when
      there is none, or when the node is not an object. */
  function Member(j: Json, name: string): (r: Option<Json>)
    ensures r.Some? ==> j.JObject? && exists i :: 0 <= i < |j.fields| && j.fields[i] == (name, r.value)
    ensures j.JObject? && (forall i :: 0 <= i < |j.fields| ==> j.fields[i].0 != name) ==> r.None?
  {
    if j.JObject? then FieldValue(j.fields, name) else None
  }

  /** The value of the first field named name. */
  function FieldValue(fields: seq<(string, Json)>, name: string): (r: Option<Json>)
    ensures r.Some? ==> exists i :: 0 <= i < |fields| && fields[i] == (name, r.value)
    ensures (forall i :: 0 <= i < |fields| ==> fields[i].0 != name) ==> r.None?
  {
    if fields == [] then None
    else if fields[0].0 == name then
      assert fields[0] == (name, fields[0].1);
      Some(fields[0].1)
    else
      var r := FieldValue(fields[1..], name);
      assert r.Some? ==> exists i :: 0 <= i < |fields| && fields[i] == (name, r.value) by {
        if r.Some? {
          var k :| 0 <= k < |fields[1..]| && fields[1..][k] == (name, r.value);
          assert fields[k + 1] == (name, r.value);
        }
      }
      assert (forall i :: 0 <= i < |fields| ==> fields[i].0 != name) ==> r.None? by {
        if forall i :: 0 <= i < |fields| ==> fields[i].0 != name {
          forall i | 0 <= i < |fields[1..]| ensures fields[1..][i].0 != name {
            assert fields[1..][i] == fields[i + 1];
          }
        }
      }
      r
  }

  /** What iterating the fields of a node adds: one vocabulary per field of an object, the key as
      the prefix and the value's text as the namespace; nothing for any other node. */
  function FieldVocabularies(prefixes: Json): seq<Vocabulary>
  {
    if prefixes.JObject? then FieldsVocabularies(prefixes.fields) else []
  }

  function FieldsVocabularies(fields: seq<(string, Json)>): seq<Vocabulary>
  {
    if fields == [] then []
    else FieldsVocabularies(fields[..|fields| - 1])
         + [Vocabulary(fields[|fields| - 1].0, AsText(fields[|fields| - 1].1))]
  }

  /** Field by field: the i-th vocabulary loaded comes from the i-th field of the object. */
  lemma {:induction false} FieldsVocabulariesAt(fields: seq<(string, Json)>)
    ensures |FieldsVocabularies(fields)| == |fields|
    ensures forall i :: 0 <= i < |fields| ==>
              FieldsVocabularies(fields)[i] == Vocabulary(fields[i].0, AsText(fields[i].1))
  {
    if fields != [] {
      var init := fields[..|fields| - 1];
      FieldsVocabulariesAt(init);
      assert forall i :: 0 <= i < |init| ==> init[i] == fields[i];
    }
  }

  /** What load adds for a parsed document: a null dereference when the document has no
      "prefixes" member, otherwise the vocabularies of that member's fields. */
  function Loaded(root: Json): (r: Result<seq<Vocabulary>, ManagerError>)
    ensures r.Failure? <==> Member(root, "prefixes").None?
    ensures r.Failure? ==> r.error == MissingPrefixes
  {
    match Member(root, "prefixes")
    case None => Failure(MissingPrefixes)
    case Some(prefixes) => Success(FieldVocabularies(prefixes))
  }

  /** Loading a document whose "prefixes" member is an object loads its fields in document order. */
  lemma LoadedObjectFields(fields: seq<(string, Json)>, others: seq<(string, Json)>, after: seq<(string, Json)>)
    requires forall i :: 0 <= i < |others| ==> others[i].0 != "prefixes"
    ensures Loaded(JObject(others + [("prefixes", JObject(fields))] + after)) == Success(FieldsVocabularies(fields))
    ensures |Loaded(JObject(others + [("prefixes", JObject(fields))] + after)).value| == |fields|
    ensures forall i :: 0 <= i < |fields| ==>
              Loaded(JObject(others + [("prefixes", JObject(fields))] + after)).value[i]
              == Vocabulary(fields[i].0, AsText(fields[i].1))
  {
    SkipOthers(others, ("prefixes", JObject(fields)), after);
    FieldsVocabulariesAt(fields);
  }

  /** get(name) finds the first field of that name, wherever it sits among the members. */
  lemma {:induction false} SkipOthers(others: seq<(string, Json)>, field: (string, Json), after: seq<(string, Json)>)
    requires forall i :: 0 <= i < |others| ==> others[i].0 != field.0
    ensures Member(JObject(others + [field] + after), field.0) == Some(field.1)
  {
    if others == [] {
      assert others + [field] + after == [field] + after;
    } else {
      assert (others + [field] + after)[1..] == others[1..] + [field] + after;
      assert (others + [field] + after)[0] == others[0];
      SkipOthers(others[1..], field, after);
    }
  }

  /** The JSON Vocabulary.write produces for each vocabulary, in list order. */
  function VocabularyItems(vs: seq<Vocabulary>, vocabJson: Vocabulary -> Json): (items: seq<Json>)
    ensures |items| == |vs|
    ensures forall i :: 0 <= i < |vs| ==> items[i] == vocabJson(vs[i])
  {
    if vs == [] then [] else VocabularyItems(vs[..|vs| - 1], vocabJson) + [vocabJson(vs[|vs| - 1])]
  }

  /** What write produces: an object whose "prefixes" member is an ARRAY of the vocabularies. */
  function SavedDocument(vs: seq<Vocabulary>, vocabJson: Vocabulary -> Json): Json
  {
    JObject([("prefixes", JArray(VocabularyItems(vs, vocabJson)))])
  }

  /** write puts the vocabularies in an array while load only iterates an object's fields, so a
      document the manager saved loads back without error but with no vocabulary at all, however
      many it held and whatever Vocabulary.write produces. */
  lemma SavedDocumentLoadsNothing(vs: seq<Vocabulary>, vocabJson: Vocabulary -> Json)
    ensures Loaded(SavedDocument(vs, vocabJson)) == Success([])
  {
  }

  /** What save leaves in the working directory: the written document, or the old file when
      writing the temporary file fails (the failure is logged, not thrown). */
  function AfterSave(file: VocabFile, vs: seq<Vocabulary>, vocabJson: Vocabulary -> Json, writeFails: bool): VocabFile
  {
    if writeFails then file else Parsed(SavedDocument(vs, vocabJson))
  }

  /** The constructor's outcome: load the saved file when it exists and is not empty (its errors
      escape); otherwise read the bundled list (a missing list escapes as an IOException) and save. */
  function Startup(file: VocabFile, resource: Option<seq<string>>, imports: (string, string, string) -> bool,
                   vocabJson: Vocabulary -> Json, writeFails: bool): (r: Result<ManagerState, ManagerError>)
    ensures file.Parsed? && Loaded(file.root).Success? ==> r == Success(ManagerState(Loaded(file.root).value, file))
    ensures file.Parsed? && Loaded(file.root).Failure? ==> r == Failure(MissingPrefixes)
    ensures file.Garbled? ==> r == Failure(MalformedFile)
    ensures (file.Absent? || file.ZeroLength?) && resource.None? ==> r == Failure(MissingResource)
    ensures (file.Absent? || file.ZeroLength?) && resource.Some? ==>
              r == Success(ManagerState(Imported(resource.value, imports),
                                        AfterSave(file, Imported(resource.value, imports), vocabJson, writeFails)))
  {
    match file
    case Parsed(root) =>
      (match Loaded(root)
       case Failure(e) => Failure(e)
       case Success(vs) => Success(ManagerState(vs, file)))
    case Garbled => Failure(MalformedFile)
    case _ =>
      (match resource
       case None => Failure(MissingResource)
       case Some(lines) =>
         var vs := Imported(lines, imports);
         Success(ManagerState(vs, AfterSave(file, vs, vocabJson, writeFails))))
  }

  /** When a saved file exists, the bundled list, the imports and the save are not consulted. */
  lemma StartupPrefersSavedFile(root: Json, resource1: Option<seq<string>>, resource2: Option<seq<string>>,
                                imports1: (string, string, string) -> bool, imports2: (string, string, string) -> bool,
                                vocabJson: Vocabulary -> Json, writeFails1: bool, writeFails2: bool)
    ensures Startup(Parsed(root), resource1, imports1, vocabJson, writeFails1)
            == Startup(Parsed(root), resource2, imports2, vocabJson, writeFails2)
  {
  }

  /** With no saved file, a first start seeds the vocabularies from the bundled list and saves
      them; but a second start from the file it saved comes up with no vocabulary. */
  lemma RestartAfterSeedLoadsNothing(file: VocabFile, lines: seq<string>, imports: (string, string, string) -> bool,
                                     vocabJson: Vocabulary -> Json, resource: Option<seq<string>>)
    requires file.Absent? || file.ZeroLength?
    ensures Startup(file, Some(lines), imports, vocabJson, false).Success?
    ensures Startup(file, Some(lines), imports, vocabJson, false).value.vocabularies == Imported(lines, imports)
    ensures Startup(Startup(file, Some(lines), imports, vocabJson, false).value.file,
                    resource, imports, vocabJson, false).Success?
    ensures Startup(Startup(file, Some(lines), imports, vocabJson, false).value.file,
                    resource, imports, vocabJson, false).value.vocabularies == []
  {
    SavedDocumentLoadsNothing(Imported(lines, imports), vocabJson);
  }

  // ---------------------------------------------------------------------------------------------
  // The manager object
  // ---------------------------------------------------------------------------------------------

  class PredefinedVocabularyManager {
    var predefinedVocabularies: seq<Vocabulary>
    /** The working directory's vocabularies_meta.json. */
    var savedFile: VocabFile

    constructor Empty(file: VocabFile)
      ensures predefinedVocabularies == [] && savedFile == file
    {
      predefinedVocabularies := [];
      savedFile := file;
    }

    /** Reads the bundled list line by line (resource is None when the stream is missing) and
        appends the vocabulary of every line that parses and imports. */
    method AddPredefinedVocabularies(resource: Option<seq<string>>, imports: (string, string, string) -> bool)
      returns (error: Option<ManagerError>)
      modifies this
      ensures resource.None? ==> error == Some(MissingResource) && predefinedVocabularies == old(predefinedVocabularies)
      ensures resource.Some? ==> error.None?
      ensures resource.Some? ==> predefinedVocabularies == old(predefinedVocabularies) + Imported(resource.value, imports)
      ensures savedFile == old(savedFile)
    {
      if resource.None? {
        return Some(MissingResource);
      }
      var lines := resource.value;
      var i := 0;
      while i < |lines|
        invariant 0 <= i <= |lines|
        invariant predefinedVocabularies == old(predefinedVocabularies) + Imported(lines[..i], imports)
        invariant savedFile == old(savedFile)
      {
        ImportedStep(lines, i, imports);
        var tokens := Split(lines[i]);
        if |tokens| < 2 {
          assert LineVocabulary(lines[i], imports) == [];
        } else {
          var prefix := tokens[0];
          var namespace := tokens[1];
          var fetchUrl;
          if |tokens| < 3 {
            fetchUrl := namespace;
          } else {
            fetchUrl := tokens[2];
          }
          assert ParseLine(lines[i]) == Some(Entry(prefix, namespace, fetchUrl));
          if imports(prefix, namespace, fetchUrl) {
            predefinedVocabularies := predefinedVocabularies + [Vocabulary(prefix, namespace)];
          }
        }
        i := i + 1;
      }
      assert lines[..i] == lines;
      return None;
    }

    /** Appends one vocabulary per field of the saved document's "prefixes" member. */
    method Load(root: Json) returns (error: Option<ManagerError>)
      modifies this
      ensures Loaded(root).Failure? ==> error == Some(Loaded(root).error) && predefinedVocabularies == old(predefinedVocabularies)
      ensures Loaded(root).Success? ==> error.None? && predefinedVocabularies == old(predefinedVocabularies) + Loaded(root).value
      ensures savedFile == old(savedFile)
    {
      var prefixes := Member(root, "prefixes");
      if prefixes.None? {
        return Some(MissingPrefixes);
      }
      var fields := if prefixes.value.JObject? then prefixes.value.fields else [];
      assert FieldVocabularies(prefixes.value) == FieldsVocabularies(fields);
      var i := 0;
      while i < |fields|
        invariant 0 <= i <= |fields|
        invariant predefinedVocabularies == old(predefinedVocabularies) + FieldsVocabularies(fields[..i])
        invariant savedFile == old(savedFile)
      {
        assert fields[..i + 1][..i] == fields[..i];
        predefinedVocabularies := predefinedVocabularies + [Vocabulary(fields[i].0, AsText(fields[i].1))];
        i := i + 1;
      }
      assert fields[..i] == fields;
      return None;
    }

    /** Loads the saved file when it exists and is not empty; notFound reports the other case,
        which the constructor catches as FileNotFoundException. */
    method ReconstructVocabulariesFromFile() returns (notFound: bool, error: Option<ManagerError>)
      modifies this
      ensures notFound <==> savedFile.Absent? || savedFile.ZeroLength?
      ensures notFound ==> error.None? && predefinedVocabularies == old(predefinedVocabularies)
      ensures savedFile.Garbled? ==> error == Some(MalformedFile) && predefinedVocabularies == old(predefinedVocabularies)
      ensures savedFile.Parsed? && Loaded(savedFile.root).Failure? ==>
                error == Some(Loaded(savedFile.root).error) && predefinedVocabularies == old(predefinedVocabularies)
      ensures savedFile.Parsed? && Loaded(savedFile.root).Success? ==>
                error.None? && predefinedVocabularies == old(predefinedVocabularies) + Loaded(savedFile.root).value
      ensures savedFile == old(savedFile)
    {
      notFound, error := false, None;
      match savedFile
      case Absent => notFound := true;
      case ZeroLength => notFound := true;
      case Garbled => error := Some(MalformedFile);
      case Parsed(root) => error := Load(root);
    }

    /** Writes the vocabularies through a temporary file, which replaces the saved file; when
        writing fails the failure is logged and the saved file is left alone. */
    method Save(vocabJson: Vocabulary -> Json, writeFails: bool)
      modifies this
      ensures savedFile == AfterSave(old(savedFile), predefinedVocabularies, vocabJson, writeFails)
      ensures predefinedVocabularies == old(predefinedVocabularies)
    {
      if writeFails {
        return;
      }
      var items: seq<Json> := [];
      for i := 0 to |predefinedVocabularies|
        invariant items == VocabularyItems(predefinedVocabularies[..i], vocabJson)
      {
        assert predefinedVocabularies[..i + 1][..i] == predefinedVocabularies[..i];
        items := items + [vocabJson(predefinedVocabularies[i])];
      }
      assert predefinedVocabularies[..|predefinedVocabularies|] == predefinedVocabularies;
      savedFile := Parsed(JObject([("prefixes", JArray(items))]));
    }

    /** The constructor: load from the saved file, or else seed from the bundled list and save.
        A failure escapes as the constructor's exception, and no manager is built. */
    static method Open(file: VocabFile, resource: Option<seq<string>>, imports: (string, string, string) -> bool,
                       vocabJson: Vocabulary -> Json, writeFails: bool)
      returns (r: Result<PredefinedVocabularyManager, ManagerError>)
      ensures r.Failure? <==> Startup(file, resource, imports, vocabJson, writeFails).Failure?
      ensures r.Failure? ==> r.error == Startup(file, resource, imports, vocabJson, writeFails).error
      ensures r.Success? ==> fresh(r.value)
      ensures r.Success? ==> r.value.predefinedVocabularies == Startup(file, resource, imports, vocabJson, writeFails).value.vocabularies
      ensures r.Success? ==> r.value.savedFile == Startup(file, resource, imports, vocabJson, writeFails).value.file
    {
      var m := new PredefinedVocabularyManager.Empty(file);
      var notFound, error := m.ReconstructVocabulariesFromFile();
      if !notFound {
        if error.Some? {
          return Failure(error.value);
        }
        return Success(m);
      }
      error := m.AddPredefinedVocabularies(resource, imports);
      if error.Some? {
        return Failure(error.value);
      }
      m.Save(vocabJson, writeFails);
      return Success(m);
    }
  }
}
