/** The export visitor (RDFVisitor): an in-memory store seeded with namespaces, drained to an RDF writer. */
module Visitor {
  import opened Support

  /** One call on the rdf4j RDFWriter. */
  datatype WriterEvent = HandleNamespace(prefix: string, name: string) | HandleStatement(statement: Statement)

  /** Which collaborator throws: the repository (RepositoryException) or the writer (RDFHandlerException). */
  datatype Cause = RepositoryFault | HandlerFault

  /** A fault schedule for one drain: the store fails when asked for the item at position step
      (asking once more after the last item included), or the writer rejects the item at position step.
      For flushStatements, StoreFaultAt(n) with n the number of statements also stands for clear()
      failing: everything was handed over, nothing is cleared, and the fault is thrown. */
  datatype Fault = NoFault | StoreFaultAt(step: nat) | WriterFaultAt(step: nat)

  /** How a call ends: normally, normally after logging a swallowed fault, or by throwing. */
  datatype Outcome = Normal | Logged(cause: Cause) | Threw(cause: Cause)

  /** Where a fault schedule interrupts a drain of n items: how many items were handed over first,
      and which collaborator failed. */
  function Interruption(fault: Fault, n: nat): (r: Option<(nat, Cause)>)
    ensures r.Some? ==> r.value.0 <= n
  {
    match fault
    case NoFault => None
    case StoreFaultAt(k) => if k <= n then Some((k, RepositoryFault)) else None
    case WriterFaultAt(k) => if k < n then Some((k, HandlerFault)) else None
  }

  /** The number of items a drain of n items hands over under a fault schedule. */
  function HandedOver(fault: Fault, n: nat): nat
  {
    match Interruption(fault, n)
    case None => n
    case Some((k, _)) => k
  }

  /** The namespace table after the constructor: the base IRI under "" when it is non-empty,
      then every vocabulary in order, a later prefix replacing an earlier binding. */
  function Seeded(baseIri: string, vocabularies: seq<Vocabulary>): map<string, string>
    decreases |vocabularies|
  {
    if vocabularies == [] then (if baseIri == "" then map[] else map["" := baseIri])
    else
      var last := vocabularies[|vocabularies| - 1];
      Seeded(baseIri, vocabularies[..|vocabularies| - 1])[last.prefix := last.namespace]
  }

  /** The position of the last vocabulary with the given prefix, or -1 when there is none. */
  function LastWithPrefix(vocabularies: seq<Vocabulary>, prefix: string): (k: int)
    ensures -1 <= k < |vocabularies|
    ensures k >= 0 ==> vocabularies[k].prefix == prefix
    ensures forall i :: k < i < |vocabularies| ==> vocabularies[i].prefix != prefix
  {
    if vocabularies == [] then -1
    else if vocabularies[|vocabularies| - 1].prefix == prefix then |vocabularies| - 1
    else LastWithPrefix(vocabularies[..|vocabularies| - 1], prefix)
  }

  /** A prefix is bound after seeding exactly when it is "" with a non-empty base IRI or some
      vocabulary declares it; it is bound to the namespace of the last such vocabulary, and to the
      base IRI only when no vocabulary declares it. */
  lemma {:induction false} SeededBinding(baseIri: string, vocabularies: seq<Vocabulary>, prefix: string)
    ensures var k := LastWithPrefix(vocabularies, prefix);
            && (prefix in Seeded(baseIri, vocabularies) <==> k >= 0 || (prefix == "" && baseIri != ""))
            && (k >= 0 ==> Seeded(baseIri, vocabularies)[prefix] == vocabularies[k].namespace)
            && (k < 0 && prefix == "" && baseIri != "" ==> Seeded(baseIri, vocabularies)[prefix] == baseIri)
    decreases |vocabularies|
  {
    if vocabularies != [] {
      SeededBinding(baseIri, vocabularies[..|vocabularies| - 1], prefix);
    }
  }

  /** The writer calls announcing the given prefixes, in order. */
  function Announced(order: seq<string>, namespaces: map<string, string>): seq<WriterEvent>
    requires forall p :: p in order ==> p in namespaces
  {
    if order == [] then []
    else [HandleNamespace(order[0], namespaces[order[0]])] + Announced(order[1..], namespaces)
  }

  lemma {:induction false} AnnouncedSnoc(order: seq<string>, p: string, namespaces: map<string, string>)
    requires forall q :: q in order ==> q in namespaces
    requires p in namespaces
    ensures Announced(order + [p], namespaces) == Announced(order, namespaces) + [HandleNamespace(p, namespaces[p])]
  {
    if order == [] {
      assert order + [p] == [p];
    } else {
      assert (order + [p])[1..] == order[1..] + [p];
      AnnouncedSnoc(order[1..], p, namespaces);
    }
  }

  /** The writer calls handing over the given statements, in order. */
  function Handed(order: seq<Statement>): seq<WriterEvent>
  {
    if order == [] then [] else [HandleStatement(order[0])] + Handed(order[1..])
  }

  lemma {:induction false} HandedSnoc(order: seq<Statement>, st: Statement)
    ensures Handed(order + [st]) == Handed(order) + [HandleStatement(st)]
  {
    if order == [] {
      assert order + [st] == [st];
    } else {
      assert (order + [st])[1..] == order[1..] + [st];
      HandedSnoc(order[1..], st);
    }
  }

  predicate Distinct<T(==)>(s: seq<T>)
  {
    forall i, j :: 0 <= i < j < |s| ==> s[i] != s[j]
  }

  class RdfVisitor {
    /** The repository's namespace table. */
    var namespaces: map<string, string>
    /** The repository's statements; the store holds each statement at most once. */
    var statements: multiset<Statement>
    /** Every call made on the writer, in order. */
    var written: seq<WriterEvent>
    /** Whether the repository connection is open, and how often it was closed. */
    var open: bool
    var closes: nat

    /** The connection is open until its one and only close, and no statement is stored twice. */
    ghost predicate Valid()
      reads this
    {
      closes <= 1 && (open <==> closes == 0) && forall st :: statements[st] <= 1
    }

    /** baseIri is RDFTransform.getBaseIRIAsString, vocabularies is RDFTransform.getPrefixes in collection order. */
    constructor (baseIri: string, vocabularies: seq<Vocabulary>)
      ensures Valid() && open
      ensures namespaces == Seeded(baseIri, vocabularies)
      ensures statements == multiset{} && written == []
    {
      namespaces := map[];
      statements := multiset{};
      written := [];
      open := true;
      closes := 0;
      new;
      if baseIri != "" {
        namespaces := namespaces["" := baseIri];
      }
      for i := 0 to |vocabularies|
        invariant namespaces == Seeded(baseIri, vocabularies[..i])
        invariant Valid() && open && statements == multiset{} && written == []
      {
        assert vocabularies[..i + 1][..i] == vocabularies[..i];
        namespaces := namespaces[vocabularies[i].prefix := vocabularies[i].namespace];
      }
      assert vocabularies[..|vocabularies|] == vocabularies;
    }

    /** The store's add, through which a visitor's buildModel fills the repository; adding a
        statement already stored changes nothing. */
    method AddStatement(st: Statement)
      requires Valid()
      modifies this
      ensures Valid() && statements == old(statements)[st := 1]
      ensures namespaces == old(namespaces) && written == old(written)
      ensures open == old(open) && closes == old(closes)
    {
      statements := statements[st := 1];
    }

    /** Hands every namespace to the writer once, in the store's (unspecified) order. The ghost
        result is that order. A writer fault is logged and swallowed; a store fault is rethrown. */
    method Start(fault: Fault) returns (outcome: Outcome, ghost order: seq<string>)
      requires Valid()
      modifies this
      ensures Valid() && namespaces == old(namespaces) && statements == old(statements)
      ensures open == old(open) && closes == old(closes)
      ensures Distinct(order) && forall p :: p in order ==> p in namespaces
      ensures written == old(written) + Announced(order, namespaces)
      ensures |order| == HandedOver(fault, |namespaces.Keys|)
      ensures outcome == match Interruption(fault, |namespaces.Keys|)
                         case None => Normal
                         case Some((_, RepositoryFault)) => Threw(RepositoryFault)
                         case Some((_, HandlerFault)) => Logged(HandlerFault)
      ensures outcome.Normal? ==> forall p :: p in namespaces ==> p in order
    {
      var remaining := namespaces.Keys;
      var handed := 0;
      order := [];
      while remaining != {}
        invariant handed == |order|
        invariant remaining <= namespaces.Keys
        invariant forall p :: p in order ==> p in namespaces && p !in remaining
        invariant forall p :: p in namespaces ==> p in order || p in remaining
        invariant Distinct(order)
        invariant |order| + |remaining| == |namespaces.Keys|
        invariant Interruption(fault, |namespaces.Keys|).Some? ==> |order| <= Interruption(fault, |namespaces.Keys|).value.0
        invariant written == old(written) + Announced(order, namespaces)
        invariant namespaces == old(namespaces) && statements == old(statements)
        invariant open == old(open) && closes == old(closes)
        decreases remaining
      {
        if fault == StoreFaultAt(handed) {
          outcome := Threw(RepositoryFault);
          return;
        }
        var p :| p in remaining;
        if fault == WriterFaultAt(handed) {
          outcome := Logged(HandlerFault);
          return;
        }
        AnnouncedSnoc(order, p, namespaces);
        written := written + [HandleNamespace(p, namespaces[p])];
        order := order + [p];
        handed := handed + 1;
        remaining := remaining - {p};
      }
      if fault == StoreFaultAt(handed) {
        outcome := Threw(RepositoryFault);
      } else {
        outcome := Normal;
      }
    }

    /** Hands every stored statement to the writer, then clears the statements; any fault
        propagates, and then nothing is cleared. The ghost result is the order of hand-over. */
    method FlushStatements(fault: Fault) returns (outcome: Outcome, ghost order: seq<Statement>)
      requires Valid()
      modifies this
      ensures Valid() && namespaces == old(namespaces)
      ensures open == old(open) && closes == old(closes)
      ensures written == old(written) + Handed(order)
      ensures multiset(order) <= old(statements)
      ensures |order| == HandedOver(fault, |old(statements)|)
      ensures outcome == match Interruption(fault, |old(statements)|)
                         case None => Normal
                         case Some((_, cause)) => Threw(cause)
      ensures outcome.Normal? ==> multiset(order) == old(statements) && statements == multiset{}
      ensures !outcome.Normal? ==> statements == old(statements)
    {
      var rest := statements;
      var handed := 0;
      order := [];
      while rest != multiset{}
        invariant handed == |order|
        invariant multiset(order) + rest == statements
        invariant Interruption(fault, |statements|).Some? ==> |order| <= Interruption(fault, |statements|).value.0
        invariant written == old(written) + Handed(order)
        invariant namespaces == old(namespaces) && statements == old(statements)
        invariant open == old(open) && closes == old(closes)
        decreases |rest|
      {
        if fault == StoreFaultAt(handed) {
          outcome := Threw(RepositoryFault);
          return;
        }
        var st :| st in rest;
        if fault == WriterFaultAt(handed) {
          outcome := Threw(HandlerFault);
          return;
        }
        HandedSnoc(order, st);
        written := written + [HandleStatement(st)];
        order := order + [st];
        handed := handed + 1;
        rest := rest - multiset{st};
      }
      if fault == StoreFaultAt(handed) {
        outcome := Threw(RepositoryFault);
        return;
      }
      statements := multiset{};
      outcome := Normal;
    }

    /** Closes the connection when it is open; otherwise does nothing. */
    method End()
      requires Valid()
      modifies this
      ensures Valid() && !open
      ensures closes == old(closes) + (if old(open) then 1 else 0)
      ensures namespaces == old(namespaces) && statements == old(statements) && written == old(written)
    {
      if open {
        open := false;
        closes := closes + 1;
      }
    }
  }

  /** An export with a base IRI, one prefix and no rows: the writer sees exactly the two
      namespaces, in some order, and no statement. */
  method NamespacesOnlyExport() returns (log: seq<WriterEvent>)
    ensures |log| == 2
    ensures multiset(log) == multiset{HandleNamespace("", "http://ex.org/"), HandleNamespace("ex", "http://ex.org/ns#")}
  {
    var visitor := new RdfVisitor("http://ex.org/", [Vocabulary("ex", "http://ex.org/ns#")]);
    var started;
    ghost var announced;
    started, announced := visitor.Start(NoFault);
    var flushed;
    ghost var handed;
    flushed, handed := visitor.FlushStatements(NoFault);
    visitor.End();
    log := visitor.written;
    ghost var ns := visitor.namespaces;
    assert ns == map["" := "http://ex.org/", "ex" := "http://ex.org/ns#"];
    assert handed == [] by {
      assert multiset(handed) == multiset{};
    }
    assert "" in announced && "ex" in announced;
    assert |ns.Keys| == 2 by {
      assert ns.Keys == {"", "ex"};
    }
    assert announced == ["", "ex"] || announced == ["ex", ""];
    assert log == Announced(announced, ns);
    var a := HandleNamespace("", "http://ex.org/");
    var b := HandleNamespace("ex", "http://ex.org/ns#");
    if announced == ["", "ex"] {
      assert Announced(announced[1..], ns) == [b] + Announced([], ns);
      assert log == [a, b];
    } else {
      assert Announced(announced[1..], ns) == [a] + Announced([], ns);
      assert log == [b, a];
    }
  }
}
