/** The registry checks as the program runs them: one pass after another over a shared list of problems. */
module Validator {
  import opened CycleFinder
  import opened Registry
  import Collections

  /** A pass kept every earlier problem and added exactly these. */
  ghost predicate Added(before: seq<Problem>, after: seq<Problem>, faults: iset<Problem>) {
    before <= after && forall problem :: problem in after <==> problem in before || problem in faults
  }

  ghost function FieldFaultsOf(artifacts: seq<Artifact>, upTo: nat): iset<Problem>
    requires upTo <= |artifacts|
  {
    iset k: nat, problem | k < upTo && problem in FieldFaults(artifacts[k], k, IndexOf(artifacts[..k])) :: problem
  }

  ghost function DocumentFaultsOf(artifacts: seq<Artifact>, upTo: nat, library: Library): iset<Problem>
    requires upTo <= |artifacts|
  {
    iset k: nat, problem
      | k < upTo && problem in DocumentFaults(artifacts[k], k, DocumentsOf(artifacts[..k], library), library)
      :: problem
  }

  /** What the first `k` artifacts get reported on their own account. */
  ghost function OwnFaultsOf(artifacts: seq<Artifact>, upTo: nat, library: Library): iset<Problem>
    requires upTo <= |artifacts|
  {
    FieldFaultsOf(artifacts, upTo) + DocumentFaultsOf(artifacts, upTo, library)
  }

  lemma NoFaultsYet(artifacts: seq<Artifact>, library: Library)
    ensures OwnFaultsOf(artifacts, 0, library) == iset{}
    ensures IndexOf(artifacts[..0]) == map[] && DocumentsOf(artifacts[..0], library) == {}
  {
  }

  ghost function DependencyFaultsAt(artifact: Artifact, upTo: nat, index: Index): iset<Problem>
    requires upTo <= |Dependencies(artifact)|
  {
    iset at: nat, problem | at < upTo && FilledText(artifact.id) && DependencyFault(artifact, at, index, problem) :: problem
  }

  ghost function DependencyFaultsIn(artifact: Artifact, index: Index): iset<Problem> {
    iset problem | DependenciesFault(artifact, index, problem)
  }

  ghost function DependencyFaultsOf(artifacts: seq<Artifact>, upTo: nat, index: Index): iset<Problem>
    requires upTo <= |artifacts|
  {
    iset k: nat, problem | k < upTo && problem in DependencyFaultsIn(artifacts[k], index) :: problem
  }

  ghost function FamilyFaultsOf(artifacts: seq<Artifact>, upTo: nat, index: Index): iset<Problem>
    requires upTo <= |artifacts|
  {
    iset k: nat, problem | k < upTo && FamilyFault(artifacts[k], index, problem) :: problem
  }

  ghost function SuccessorFaultsOf(artifacts: seq<Artifact>, upTo: nat, index: Index): iset<Problem>
    requires upTo <= |artifacts|
  {
    iset k: nat, problem | k < upTo && SuccessorFault(artifacts[k], index, problem) :: problem
  }

  lemma FieldFaultsGrow(artifacts: seq<Artifact>, k: nat)
    requires k < |artifacts|
    ensures FieldFaultsOf(artifacts, k + 1)
      == FieldFaultsOf(artifacts, k) + FieldFaults(artifacts[k], k, IndexOf(artifacts[..k]))
  {
  }

  lemma DocumentFaultsGrow(artifacts: seq<Artifact>, k: nat, library: Library)
    requires k < |artifacts|
    ensures DocumentFaultsOf(artifacts, k + 1, library)
      == DocumentFaultsOf(artifacts, k, library)
        + DocumentFaults(artifacts[k], k, DocumentsOf(artifacts[..k], library), library)
  {
  }

  /** Two kinds of faults found together, pass by pass. */
  lemma PairsAdd(
      a: seq<Problem>, b: seq<Problem>, c: seq<Problem>, first: iset<Problem>, second: iset<Problem>,
      third: iset<Problem>, fourth: iset<Problem>)
    requires Added(a, b, first + second) && Added(b, c, third + fourth)
    ensures Added(a, c, (first + third) + (second + fourth))
  {
  }

  /** Both kinds, after one artifact more. */
  lemma FaultsOfNext(
      artifacts: seq<Artifact>, k: nat, library: Library, start: seq<Problem>, before: seq<Problem>,
      after: seq<Problem>)
    requires k < |artifacts|
    requires Added(start, before, FieldFaultsOf(artifacts, k) + DocumentFaultsOf(artifacts, k, library))
    requires Added(
      before, after,
      FieldFaults(artifacts[k], k, IndexOf(artifacts[..k]))
      + DocumentFaults(artifacts[k], k, DocumentsOf(artifacts[..k], library), library))
    ensures Added(start, after, FieldFaultsOf(artifacts, k + 1) + DocumentFaultsOf(artifacts, k + 1, library))
  {
    FieldFaultsGrow(artifacts, k);
    DocumentFaultsGrow(artifacts, k, library);
    PairsAdd(
      start, before, after, FieldFaultsOf(artifacts, k), DocumentFaultsOf(artifacts, k, library),
      FieldFaults(artifacts[k], k, IndexOf(artifacts[..k])),
      DocumentFaults(artifacts[k], k, DocumentsOf(artifacts[..k], library), library));
  }

  lemma NextArtifact(artifacts: seq<Artifact>, k: nat, library: Library)
    requires k < |artifacts|
    ensures IndexOf(artifacts[..k + 1]) == Indexed(IndexOf(artifacts[..k]), artifacts[k])
    ensures DocumentsOf(artifacts[..k + 1], library) == Recorded(DocumentsOf(artifacts[..k], library), artifacts[k], library)
  {
    assert artifacts[..k + 1][..k] == artifacts[..k];
  }

  lemma DependencyFaultsGrow(artifacts: seq<Artifact>, k: nat, index: Index)
    requires k < |artifacts|
    ensures DependencyFaultsOf(artifacts, k + 1, index)
      == DependencyFaultsOf(artifacts, k, index) + DependencyFaultsIn(artifacts[k], index)
  {
  }

  lemma FamilyFaultsGrow(artifacts: seq<Artifact>, k: nat, index: Index)
    requires k < |artifacts|
    ensures FamilyFaultsOf(artifacts, k + 1, index)
      == FamilyFaultsOf(artifacts, k, index) + iset problem | FamilyFault(artifacts[k], index, problem)
  {
  }

  lemma SuccessorFaultsGrow(artifacts: seq<Artifact>, k: nat, index: Index)
    requires k < |artifacts|
    ensures SuccessorFaultsOf(artifacts, k + 1, index)
      == SuccessorFaultsOf(artifacts, k, index) + iset problem | SuccessorFault(artifacts[k], index, problem)
  {
  }

  lemma PassesAdd(a: seq<Problem>, b: seq<Problem>, c: seq<Problem>, first: iset<Problem>, second: iset<Problem>)
    requires Added(a, b, first) && Added(b, c, second)
    ensures Added(a, c, first + second)
  {
  }

  ghost predicate Clean(artifacts: seq<Artifact>, library: Library) {
    var index, n := IndexOf(artifacts), |artifacts|;
    && FieldFaultsOf(artifacts, n) == iset{} && DocumentFaultsOf(artifacts, n, library) == iset{}
    && DependencyFaultsOf(artifacts, n, index) == iset{}
    && Acyclic(DependencyGraph(index))
    && FamilyFaultsOf(artifacts, n, index) == iset{} && SuccessorFaultsOf(artifacts, n, index) == iset{}
  }

  /** A problem some pass would report of this registry. */
  ghost predicate Real(artifacts: seq<Artifact>, library: Library, problem: Problem) {
    var index, n := IndexOf(artifacts), |artifacts|;
    || problem in FieldFaultsOf(artifacts, n) || problem in DocumentFaultsOf(artifacts, n, library)
    || problem in DependencyFaultsOf(artifacts, n, index)
    || CycleFault(index, problem)
    || problem in FamilyFaultsOf(artifacts, n, index) || problem in SuccessorFaultsOf(artifacts, n, index)
  }

  lemma AddedNothing(before: seq<Problem>, after: seq<Problem>, faults: iset<Problem>)
    requires Added(before, after, faults)
    ensures after == [] <==> before == [] && faults == iset{}
  {
    if after == [] {
      forall problem ensures problem !in faults {
        assert problem !in after;
      }
    } else {
      assert after[0] in before || after[0] in faults;
    }
  }

  lemma NothingFound(
      before: seq<Problem>, after: seq<Problem>, end: seq<Problem>, acyclic: bool,
      fields: iset<Problem>, links: iset<Problem>, families: iset<Problem>, successors: iset<Problem>)
    requires Added([], before, fields + links) && Added(after, end, families + successors)
    requires after == [] <==> before == [] && acyclic
    ensures end == [] <==>
      fields == iset{} && links == iset{} && acyclic && families == iset{} && successors == iset{}
  {
    AddedNothing([], before, fields + links);
    AddedNothing(after, end, families + successors);
    EmptyUnion(fields, links);
    EmptyUnion(families, successors);
  }

  lemma EmptyUnion(a: iset<Problem>, b: iset<Problem>)
    ensures a + b == iset{} <==> a == iset{} && b == iset{}
  {
    if a + b == iset{} {
      forall problem ensures problem !in a && problem !in b {
        assert problem !in a + b;
      }
    }
  }

  class RegistryValidator {
    var errors: seq<Problem>
    var index: Index
    var order: seq<string>
    var documents: set<string>
    const library: Library

    constructor (library: Library)
      ensures errors == [] && index == map[] && order == [] && documents == {} && this.library == library
    {
      errors, index, order, documents := [], map[], [], {};
      this.library := library;
    }

    /** The index keeps its insertion order, as the source's dictionary does. */
    ghost predicate Ordered() reads this {
      forall id :: id in index <==> id in order
    }

    method Check(bad: bool, problem: Problem)
      modifies this`errors
      ensures Added(old(errors), errors, When(bad, problem))
    {
      if bad {
        errors := errors + [problem];
      }
    }

    method ReportFieldErrors(artifact: Artifact, position: nat)
      modifies this`errors
      ensures Added(old(errors), errors, ShapeFaults(artifact, position))
    {
      Check(artifact.kind.Absent? || artifact.id.Absent? || artifact.state.Absent? || artifact.document.Absent?
            || artifact.dependsOn.Absent?, MissingFields(position));
      Check(artifact.unknownFields != {}, UnknownFields(position));
    }

    method ValidateValues(artifact: Artifact, position: nat)
      modifies this`errors
      ensures Added(old(errors), errors, ValueFaults(artifact, position))
    {
      var subject := LabelOf(artifact, position);
      Check(!FilledText(artifact.id), BadId(position));
      Check(artifact.kind !in TYPES, BadType(subject));
      Check(artifact.state !in STATES, BadState(subject));
      Check(!IdentifierList(artifact.dependsOn), BadDependencies(subject));
      Check(!artifact.supersededBy.Absent? && !FilledText(artifact.supersededBy), BadSuccessor(subject));
    }

    /** The first artifact to claim an identifier keeps it. */
    method RecordIdentity(artifact: Artifact)
      requires Ordered()
      modifies this`errors, this`index, this`order
      ensures Ordered() && index == Indexed(old(index), artifact)
      ensures Added(old(errors), errors, IdentityFaults(artifact, old(index)))
    {
      if !FilledText(artifact.id) {
        return;
      }
      if artifact.id.text in index {
        errors := errors + [DuplicateId(artifact.id.text)];
        return;
      }
      index, order := index[artifact.id.text := artifact], order + [artifact.id.text];
    }

    /** A document's normal form is remembered even when it is a repetition or names no file. */
    method RecordDocument(artifact: Artifact, position: nat)
      modifies this`errors, this`documents
      ensures documents == Recorded(old(documents), artifact, library)
      ensures Added(old(errors), errors, DocumentFaults(artifact, position, old(documents), library))
    {
      if !FilledText(artifact.document) {
        return;
      }
      var subject, document := LabelOf(artifact, position), artifact.document.text;
      if library.escapes(document) {
        errors := errors + [EscapingDocument(subject)];
        return;
      }
      if !library.markdown(document) {
        errors := errors + [NotMarkdown(subject)];
        return;
      }
      var normal := library.normal(document);
      Check(normal in documents, DuplicateDocument(document));
      documents := documents + {normal};
      Check(!library.present(document), MissingDocument(subject, document));
    }

    method ValidateFields(artifact: Artifact, position: nat)
      requires Ordered()
      modifies this`errors, this`index, this`order
      ensures Ordered() && index == Indexed(old(index), artifact)
      ensures Added(old(errors), errors, FieldFaults(artifact, position, old(index)))
    {
      ReportFieldErrors(artifact, position);
      ValidateValues(artifact, position);
      RecordIdentity(artifact);
      Check(!FilledText(artifact.document), BadDocument(LabelOf(artifact, position)));
    }

    method ValidateArtifact(artifact: Artifact, position: nat)
      requires Ordered()
      modifies this
      ensures Ordered() && index == Indexed(old(index), artifact)
      ensures documents == Recorded(old(documents), artifact, library)
      ensures Added(
        old(errors), errors,
        FieldFaults(artifact, position, old(index)) + DocumentFaults(artifact, position, old(documents), library))
    {
      ValidateFields(artifact, position);
      ghost var before := errors;
      RecordDocument(artifact, position);
      PassesAdd(
        old(errors), before, errors, FieldFaults(artifact, position, old(index)),
        DocumentFaults(artifact, position, old(documents), library));
    }

    /** What the first `k` artifacts left in the index, among the documents and on the list. */
    ghost predicate Checked(artifacts: seq<Artifact>, k: nat, start: seq<Problem>)
      requires k <= |artifacts|
      reads this
    {
      && Ordered() && index == IndexOf(artifacts[..k]) && documents == DocumentsOf(artifacts[..k], library)
      && Added(start, errors, OwnFaultsOf(artifacts, k, library))
    }

    lemma NothingChecked(artifacts: seq<Artifact>)
      requires index == map[] && documents == {} && Ordered()
      ensures Checked(artifacts, 0, errors)
    {
      NoFaultsYet(artifacts, library);
    }

    method ValidateNext(artifacts: seq<Artifact>, k: nat, ghost start: seq<Problem>)
      requires k < |artifacts| && Checked(artifacts, k, start)
      modifies this
      ensures Checked(artifacts, k + 1, start)
    {
      ghost var before := errors;
      ValidateArtifact(artifacts[k], k);
      NextArtifact(artifacts, k, library);
      FaultsOfNext(artifacts, k, library, start, before, errors);
    }

    method ValidateArtifacts(artifacts: seq<Artifact>)
      requires index == map[] && documents == {} && Ordered()
      modifies this
      ensures Ordered() && index == IndexOf(artifacts)
      ensures Added(old(errors), errors, OwnFaultsOf(artifacts, |artifacts|, library))
    {
      var k := 0;
      NothingChecked(artifacts);
      while k < |artifacts|
        invariant 0 <= k <= |artifacts| && Checked(artifacts, k, old(errors))
      {
        ValidateNext(artifacts, k, old(errors));
        k := k + 1;
      }
      Collections.WholeSlice(artifacts);
    }

    /** One artifact's dependencies in order, remembering which were seen. */
    method ValidateDependencies(artifact: Artifact)
      modifies this`errors
      ensures Added(old(errors), errors, DependencyFaultsIn(artifact, index))
    {
      if !FilledText(artifact.id) || !IdentifierList(artifact.dependsOn) {
        return;
      }
      var dependencies := Dependencies(artifact);
      var seen: set<string>, at := {}, 0;
      while at < |dependencies|
        invariant 0 <= at <= |dependencies|
        invariant forall id :: id in seen <==> id in dependencies[..at]
        invariant Added(old(errors), errors, DependencyFaultsAt(artifact, at, index))
      {
        ValidateDependency(artifact, at, seen);
        seen := seen + {dependencies[at]};
        at := at + 1;
      }
    }

    method ValidateDependency(artifact: Artifact, at: nat, seen: set<string>)
      requires FilledText(artifact.id) && at < |Dependencies(artifact)|
      requires forall id :: id in seen <==> id in Dependencies(artifact)[..at]
      modifies this`errors
      ensures Added(old(errors), errors, iset problem | DependencyFault(artifact, at, index, problem))
    {
      var id, other := artifact.id.text, Dependencies(artifact)[at];
      Check(other in seen, DuplicateDependency(id, other));
      if other == id {
        Check(true, SelfDependency(id));
      } else if other !in index {
        Check(true, UnknownDependency(id, other));
      } else {
        Check(artifact.state == ACTIVE && index[other].state == RETIRED, RetiredDependency(id, other));
      }
    }

    method ValidateAllDependencies(artifacts: seq<Artifact>)
      modifies this`errors
      ensures Added(old(errors), errors, DependencyFaultsOf(artifacts, |artifacts|, index))
    {
      var k := 0;
      while k < |artifacts|
        invariant 0 <= k <= |artifacts|
        invariant Added(old(errors), errors, DependencyFaultsOf(artifacts, k, index))
      {
        ghost var before := errors;
        ValidateDependencies(artifacts[k]);
        DependencyFaultsGrow(artifacts, k, index);
        PassesAdd(
          old(errors), before, errors, DependencyFaultsOf(artifacts, k, index),
          DependencyFaultsIn(artifacts[k], index));
        k := k + 1;
      }
    }

    /** One problem, naming a real cycle, exactly when the known dependencies are cyclic. */
    method ValidateCycles()
      requires Ordered()
      modifies this`errors
      ensures errors == old(errors) <==> Acyclic(DependencyGraph(index))
      ensures errors == old(errors) ||
        exists path :: errors == old(errors) + [DependencyCycle(path)] && SimpleCycle(DependencyGraph(index), path)
          && |path| >= 2 && path[0] == path[|path| - 1] && NoRepeats(path[1..])
    {
      var cycle := FirstCycle(DependencyGraph(index), order);
      if |cycle| > 0 {
        errors := errors + [DependencyCycle(cycle)];
      }
    }

    method ValidateFamily(artifact: Artifact)
      modifies this`errors
      ensures Added(old(errors), errors, iset problem | FamilyFault(artifact, index, problem))
    {
      if artifact.kind == SPECIFICATION {
        var families := Families(KnownDependencies(artifact, index), index);
        if FilledText(artifact.id) && |families| != 1 {
          errors := errors + [FamilyCount(artifact.id.text)];
        }
      }
    }

    method ValidateFamilyLinks(artifacts: seq<Artifact>)
      modifies this`errors
      ensures Added(old(errors), errors, FamilyFaultsOf(artifacts, |artifacts|, index))
    {
      var k := 0;
      while k < |artifacts|
        invariant 0 <= k <= |artifacts|
        invariant Added(old(errors), errors, FamilyFaultsOf(artifacts, k, index))
      {
        ghost var before := errors;
        ValidateFamily(artifacts[k]);
        FamilyFaultsGrow(artifacts, k, index);
        PassesAdd(
          old(errors), before, errors, FamilyFaultsOf(artifacts, k, index),
          iset problem | FamilyFault(artifacts[k], index, problem));
        k := k + 1;
      }
    }

    method ValidateSuccessor(artifact: Artifact)
      modifies this`errors
      ensures Added(old(errors), errors, iset problem | SuccessorFault(artifact, index, problem))
    {
      if !FilledText(artifact.id) || !FilledText(artifact.supersededBy) {
        return;
      }
      var id, other := artifact.id.text, artifact.supersededBy.text;
      if artifact.state != RETIRED {
        errors := errors + [NotRetired(id)];
        return;
      }
      if other == id {
        errors := errors + [SelfSuccessor(id)];
        return;
      }
      if other !in index {
        errors := errors + [UnknownSuccessor(id, other)];
        return;
      }
      Check(index[other].kind != artifact.kind, SuccessorType(id, other));
      Check(index[other].state != ACTIVE, SuccessorState(id, other));
    }

    method ValidateSupersession(artifacts: seq<Artifact>)
      modifies this`errors
      ensures Added(old(errors), errors, SuccessorFaultsOf(artifacts, |artifacts|, index))
    {
      var k := 0;
      while k < |artifacts|
        invariant 0 <= k <= |artifacts|
        invariant Added(old(errors), errors, SuccessorFaultsOf(artifacts, k, index))
      {
        ghost var before := errors;
        if !artifacts[k].supersededBy.Absent? {
          ValidateSuccessor(artifacts[k]);
        }
        SuccessorFaultsGrow(artifacts, k, index);
        PassesAdd(
          old(errors), before, errors, SuccessorFaultsOf(artifacts, k, index),
          iset problem | SuccessorFault(artifacts[k], index, problem));
        k := k + 1;
      }
    }

    /** Every pass in turn. Nothing is reported exactly when nothing is wrong, and each report is real. */
    method Validate(artifacts: seq<Artifact>)
      requires errors == [] && index == map[] && documents == {} && Ordered()
      modifies this
      ensures errors == [] <==> Clean(artifacts, library)
      ensures forall problem :: problem in errors ==> Real(artifacts, library, problem)
      ensures forall problem :: Real(artifacts, library, problem) && !problem.DependencyCycle? ==> problem in errors
    {
      ValidateArtifacts(artifacts);
      ValidateAllDependencies(artifacts);
      ghost var before := errors;
      ValidateCycles();
      ghost var after := errors;
      assert forall problem :: problem in after ==> problem in before || CycleFault(index, problem);
      assert after == [] <==> before == [] && Acyclic(DependencyGraph(index));
      ValidateFamilyLinks(artifacts);
      ValidateSupersession(artifacts);
      ghost var n := |artifacts|;
      NothingFound(
        before, after, errors, Acyclic(DependencyGraph(index)),
        OwnFaultsOf(artifacts, n, library),
        DependencyFaultsOf(artifacts, n, index), FamilyFaultsOf(artifacts, n, index),
        SuccessorFaultsOf(artifacts, n, index));
      EmptyUnion(FieldFaultsOf(artifacts, n), DocumentFaultsOf(artifacts, n, library));
    }
  }
}
