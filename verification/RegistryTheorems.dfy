/** What an empty problem list says about a registry, with no index and no pass in sight. */
module RegistryTheorems {
  import opened CycleFinder
  import opened Registry
  import opened Validator
  import opened Texts

  predicate Bears(artifact: Artifact, id: string) {
    artifact.id == Text(id)
  }

  ghost predicate DependsOn(artifacts: seq<Artifact>, a: string, b: string) {
    exists k :: 0 <= k < |artifacts| && Bears(artifacts[k], a) && b in Dependencies(artifacts[k])
  }

  ghost predicate Chain(artifacts: seq<Artifact>, path: seq<string>) {
    forall i: nat :: i + 1 < |path| ==> LinkedAt(artifacts, path, i)
  }

  ghost predicate LinkedAt(artifacts: seq<Artifact>, path: seq<string>, i: nat)
    requires i + 1 < |path|
  {
    DependsOn(artifacts, path[i], path[i + 1])
  }

  /** A text with something in it besides white space. */
  predicate Says(value: Value) {
    value.Text? && exists i :: 0 <= i < |value.text| && !IsSpace(value.text[i])
  }

  /** Nothing unknown in it, and every field of the right kind and filled in. */
  predicate WellShaped(artifact: Artifact) {
    && artifact.unknownFields == {} && Says(artifact.id) && Says(artifact.document)
    && artifact.kind in {Text("decision"), Text("family"), Text("specification")}
    && artifact.state in {Text("active"), Text("retired")}
    && artifact.dependsOn.Items?
    && (forall i :: 0 <= i < |artifact.dependsOn.items| ==> Says(artifact.dependsOn.items[i]))
    && (artifact.supersededBy.Absent? || Says(artifact.supersededBy))
  }

  /** Each dependency is listed once, names another artifact, and is not retired under an active one. */
  ghost predicate WellLinked(artifacts: seq<Artifact>, artifact: Artifact) {
    var ids := Dependencies(artifact);
    && (forall i, j :: 0 <= i < j < |ids| ==> ids[i] != ids[j])
    && (forall id :: id in ids ==> !Bears(artifact, id) && exists k :: 0 <= k < |artifacts| && Bears(artifacts[k], id))
    && (artifact.state == ACTIVE ==>
          forall id, k :: id in ids && 0 <= k < |artifacts| && Bears(artifacts[k], id) ==> artifacts[k].state == ACTIVE)
  }

  /** Exactly one of an artifact's dependencies is a family. */
  ghost predicate OneFamily(artifacts: seq<Artifact>, artifact: Artifact) {
    exists id :: FamilyOf(artifacts, artifact, id) && forall other :: FamilyOf(artifacts, artifact, other) ==> other == id
  }

  ghost predicate FamilyOf(artifacts: seq<Artifact>, artifact: Artifact, id: string) {
    id in Dependencies(artifact) && NamesFamily(artifacts, id)
  }

  ghost predicate NamesFamily(artifacts: seq<Artifact>, id: string) {
    exists k :: 0 <= k < |artifacts| && Bears(artifacts[k], id) && artifacts[k].kind == FAMILY
  }

  /** Supersession takes one hop: from a retired artifact to an active one of its type that names no other. */
  ghost predicate WellSuperseded(artifacts: seq<Artifact>, artifact: Artifact) {
    artifact.supersededBy.Absent? ||
    (artifact.state == RETIRED &&
     exists k :: 0 <= k < |artifacts| && artifacts[k].id == artifact.supersededBy
       && artifacts[k] != artifact && artifacts[k].kind == artifact.kind && artifacts[k].state == ACTIVE
       && artifacts[k].supersededBy.Absent?)
  }

  /** No chain of dependencies, however long, returns to where it began. */
  ghost predicate Returnless(artifacts: seq<Artifact>) {
    forall path :: |path| >= 2 && Chain(artifacts, path) ==> path[0] != path[|path| - 1]
  }

  /** Artifacts are well shaped, told apart by their identifiers, and linked to ones that are there. */
  ghost predicate Orderly(artifacts: seq<Artifact>) {
    && (forall k :: 0 <= k < |artifacts| ==> WellShaped(artifacts[k]) && WellLinked(artifacts, artifacts[k]))
    && (forall i, j :: 0 <= i < j < |artifacts| ==> artifacts[i].id != artifacts[j].id)
  }

  /** Each names a Markdown file of the repository that is there, and no two name the same one. */
  ghost predicate WellDocumented(artifacts: seq<Artifact>, library: Library) {
    && (forall k :: 0 <= k < |artifacts| ==>
          && Says(artifacts[k].document) && !library.escapes(artifacts[k].document.text)
          && library.markdown(artifacts[k].document.text) && library.present(artifacts[k].document.text))
    && (forall i, j :: 0 <= i < j < |artifacts| ==>
          library.normal(artifacts[i].document.text) != library.normal(artifacts[j].document.text))
  }

  /** A registry in good order, said of its artifacts and their files alone. */
  ghost predicate WellFormed(artifacts: seq<Artifact>, library: Library) {
    && Orderly(artifacts) && WellDocumented(artifacts, library)
    && (forall k :: 0 <= k < |artifacts| && artifacts[k].kind == SPECIFICATION ==> OneFamily(artifacts, artifacts[k]))
    && (forall k :: 0 <= k < |artifacts| ==> WellSuperseded(artifacts, artifacts[k]))
    && Returnless(artifacts)
  }

  // ----- the index is the registry -------------------------------------------------------------

  /** Every artifact is well shaped and is the one its identifier finds, and the index holds nothing else. */
  ghost predicate Tied(artifacts: seq<Artifact>, index: Index) {
    && (forall k :: 0 <= k < |artifacts| ==>
          WellShaped(artifacts[k]) && artifacts[k].id.text in index && index[artifacts[k].id.text] == artifacts[k])
    && (forall id :: id in index ==> index[id] in artifacts && Bears(index[id], id))
  }

  /** No pass after the first has anything to report. */
  ghost predicate Faultless(artifacts: seq<Artifact>, index: Index) {
    && (forall k, problem :: 0 <= k < |artifacts| ==> !DependenciesFault(artifacts[k], index, problem))
    && (forall k, problem :: 0 <= k < |artifacts| ==> !FamilyFault(artifacts[k], index, problem))
    && (forall k, problem :: 0 <= k < |artifacts| ==> !SuccessorFault(artifacts[k], index, problem))
    && Acyclic(DependencyGraph(index))
  }

  lemma {:induction false} IndexHas(artifacts: seq<Artifact>, k: nat)
    requires k < |artifacts| && FilledText(artifacts[k].id)
    ensures artifacts[k].id.text in IndexOf(artifacts)
  {
    var n := |artifacts| - 1;
    if k < n {
      IndexHas(artifacts[..n], k);
    }
  }

  lemma NoFieldFault(artifacts: seq<Artifact>, k: nat, problem: Problem)
    requires FieldFaultsOf(artifacts, |artifacts|) == iset{} && k < |artifacts|
    ensures problem !in FieldFaults(artifacts[k], k, IndexOf(artifacts[..k]))
  {
    assert problem !in FieldFaultsOf(artifacts, |artifacts|);
  }

  lemma FieldsAreFine(artifacts: seq<Artifact>, k: nat)
    requires FieldFaultsOf(artifacts, |artifacts|) == iset{} && k < |artifacts|
    ensures WellShaped(artifacts[k]) && artifacts[k].id.text !in IndexOf(artifacts[..k])
  {
    var subject := LabelOf(artifacts[k], k);
    NoFieldFault(artifacts, k, UnknownFields(k));
    NoFieldFault(artifacts, k, BadId(k));
    NoFieldFault(artifacts, k, BadType(subject));
    NoFieldFault(artifacts, k, BadState(subject));
    NoFieldFault(artifacts, k, BadDependencies(subject));
    NoFieldFault(artifacts, k, BadSuccessor(subject));
    NoFieldFault(artifacts, k, BadDocument(subject));
    if FilledText(artifacts[k].id) {
      NoFieldFault(artifacts, k, DuplicateId(artifacts[k].id.text));
    }
  }

  lemma NoDocumentFault(artifacts: seq<Artifact>, library: Library, k: nat, problem: Problem)
    requires DocumentFaultsOf(artifacts, |artifacts|, library) == iset{} && k < |artifacts|
    ensures problem !in DocumentFaults(artifacts[k], k, DocumentsOf(artifacts[..k], library), library)
  {
    assert problem !in DocumentFaultsOf(artifacts, |artifacts|, library);
  }

  lemma DocumentIsFine(artifacts: seq<Artifact>, library: Library, k: nat)
    requires DocumentFaultsOf(artifacts, |artifacts|, library) == iset{} && k < |artifacts|
    requires FilledText(artifacts[k].document)
    ensures Recordable(artifacts[k], library) && library.present(artifacts[k].document.text)
    ensures library.normal(artifacts[k].document.text) !in DocumentsOf(artifacts[..k], library)
  {
    var subject, document := LabelOf(artifacts[k], k), artifacts[k].document.text;
    NoDocumentFault(artifacts, library, k, EscapingDocument(subject));
    NoDocumentFault(artifacts, library, k, NotMarkdown(subject));
    NoDocumentFault(artifacts, library, k, DuplicateDocument(document));
    NoDocumentFault(artifacts, library, k, MissingDocument(subject, document));
  }

  lemma CleanIsWellDocumented(artifacts: seq<Artifact>, library: Library)
    requires DocumentFaultsOf(artifacts, |artifacts|, library) == iset{}
    requires forall k :: 0 <= k < |artifacts| ==> FilledText(artifacts[k].document)
    ensures WellDocumented(artifacts, library)
  {
    forall k: nat | k < |artifacts|
      ensures Recordable(artifacts[k], library) && library.present(artifacts[k].document.text)
    {
      DocumentIsFine(artifacts, library, k);
    }
    forall i: nat, j: nat | i < j < |artifacts|
      ensures library.normal(artifacts[i].document.text) != library.normal(artifacts[j].document.text)
    {
      DocumentIsFine(artifacts, library, i);
      DocumentIsFine(artifacts, library, j);
      assert artifacts[..j][i] == artifacts[i];
    }
  }

  lemma NoDuplicates(artifacts: seq<Artifact>, i: nat, j: nat)
    requires FieldFaultsOf(artifacts, |artifacts|) == iset{} && i < j < |artifacts|
    ensures artifacts[i].id != artifacts[j].id
  {
    FieldsAreFine(artifacts, i);
    FieldsAreFine(artifacts, j);
    IndexHas(artifacts[..j], i);
  }

  lemma CleanIsTied(artifacts: seq<Artifact>)
    requires FieldFaultsOf(artifacts, |artifacts|) == iset{}
    ensures Tied(artifacts, IndexOf(artifacts))
  {
    var index := IndexOf(artifacts);
    forall k | 0 <= k < |artifacts|
      ensures WellShaped(artifacts[k]) && artifacts[k].id.text in index && index[artifacts[k].id.text] == artifacts[k]
    {
      FieldsAreFine(artifacts, k);
      IndexHas(artifacts, k);
      var j :| 0 <= j < |artifacts| && artifacts[j] == index[artifacts[k].id.text];
      if j < k {
        NoDuplicates(artifacts, j, k);
      } else if k < j {
        NoDuplicates(artifacts, k, j);
      }
    }
  }

  lemma NoDependencyFault(artifacts: seq<Artifact>, index: Index, k: nat, problem: Problem)
    requires k < |artifacts| && DependencyFaultsOf(artifacts, |artifacts|, index) == iset{}
    ensures !DependenciesFault(artifacts[k], index, problem)
  {
    assert problem !in DependencyFaultsOf(artifacts, |artifacts|, index);
    assert problem !in DependencyFaultsIn(artifacts[k], index);
  }

  lemma CleanIsFaultless(artifacts: seq<Artifact>, library: Library)
    requires Clean(artifacts, library)
    ensures Faultless(artifacts, IndexOf(artifacts))
  {
    var index, n := IndexOf(artifacts), |artifacts|;
    forall k, problem | 0 <= k < n
      ensures !DependenciesFault(artifacts[k], index, problem)
      ensures !FamilyFault(artifacts[k], index, problem) && !SuccessorFault(artifacts[k], index, problem)
    {
      NoDependencyFault(artifacts, index, k, problem);
      assert problem !in FamilyFaultsOf(artifacts, n, index) && problem !in SuccessorFaultsOf(artifacts, n, index);
    }
  }

  // ----- what a clean registry is --------------------------------------------------------------

  /** A dependency that is new in its list, another artifact's, known, and not retired under an active one. */
  predicate FineLink(artifact: Artifact, at: nat, index: Index)
    requires at < |Dependencies(artifact)|
  {
    var other := Dependencies(artifact)[at];
    && other !in Dependencies(artifact)[..at] && !Bears(artifact, other) && other in index
    && !(artifact.state == ACTIVE && index[other].state == RETIRED)
  }

  lemma DependenciesAreFine(artifacts: seq<Artifact>, index: Index, k: nat, at: nat)
    requires Tied(artifacts, index) && Faultless(artifacts, index)
    requires k < |artifacts| && at < |Dependencies(artifacts[k])|
    ensures FineLink(artifacts[k], at, index)
  {
    var artifact := artifacts[k];
    var id, other := artifact.id.text, Dependencies(artifact)[at];
    assert forall problem :: DependencyFault(artifact, at, index, problem) ==> DependenciesFault(artifact, index, problem);
    assert !DependencyFault(artifact, at, index, DuplicateDependency(id, other));
    assert !DependencyFault(artifact, at, index, SelfDependency(id));
    assert !DependencyFault(artifact, at, index, UnknownDependency(id, other));
    assert !DependencyFault(artifact, at, index, RetiredDependency(id, other));
  }

  lemma FaultlessIsWellLinked(artifacts: seq<Artifact>, index: Index, k: nat)
    requires Tied(artifacts, index) && Faultless(artifacts, index) && k < |artifacts|
    ensures WellLinked(artifacts, artifacts[k])
    ensures forall id :: id in Dependencies(artifacts[k]) ==> id in index
  {
    var artifact, ids := artifacts[k], Dependencies(artifacts[k]);
    forall i, j | 0 <= i < j < |ids| ensures ids[i] != ids[j] {
      DependenciesAreFine(artifacts, index, k, j);
    }
    forall id | id in ids
      ensures id in index && !Bears(artifact, id) && exists m :: 0 <= m < |artifacts| && Bears(artifacts[m], id)
      ensures forall m :: 0 <= m < |artifacts| && Bears(artifacts[m], id) && artifact.state == ACTIVE ==>
        artifacts[m].state == ACTIVE
    {
      var at: nat :| at < |ids| && ids[at] == id;
      DependenciesAreFine(artifacts, index, k, at);
      var m: nat :| m < |artifacts| && artifacts[m] == index[id];
    }
  }

  /** A link of the registry is an edge of the graph the finder searched. */
  lemma LinksAreEdges(artifacts: seq<Artifact>, index: Index, a: string, b: string)
    requires Tied(artifacts, index) && Faultless(artifacts, index) && DependsOn(artifacts, a, b)
    ensures Edge(DependencyGraph(index), a, b)
  {
    var k: nat :| k < |artifacts| && Bears(artifacts[k], a) && b in Dependencies(artifacts[k]);
    FaultlessIsWellLinked(artifacts, index, k);
  }

  lemma FaultlessIsAcyclic(artifacts: seq<Artifact>, index: Index, path: seq<string>)
    requires Tied(artifacts, index) && Faultless(artifacts, index) && Chain(artifacts, path) && |path| >= 2
    ensures path[0] != path[|path| - 1]
  {
    var graph := DependencyGraph(index);
    forall i: nat | i < |path| ensures EdgeAt(graph, path, i) {
      if i + 1 < |path| {
        assert LinkedAt(artifacts, path, i);
        LinksAreEdges(artifacts, index, path[i], path[i + 1]);
      }
    }
    assert !ClosedWalk(graph, path);
  }

  lemma {:induction false} FamiliesAreTheFamilies(ids: seq<string>, index: Index, id: string)
    requires forall i :: i in ids ==> i in index
    ensures id in Families(ids, index) <==> id in ids && index[id].kind == FAMILY
  {
    if ids == [] {
    } else {
      FamiliesAreTheFamilies(ids[1..], index, id);
    }
  }

  lemma NamesAreIndexed(artifacts: seq<Artifact>, index: Index, id: string)
    requires Tied(artifacts, index) && id in index
    ensures NamesFamily(artifacts, id) <==> index[id].kind == FAMILY
  {
    var m: nat :| m < |artifacts| && artifacts[m] == index[id];
  }

  lemma FaultlessHasOneFamily(artifacts: seq<Artifact>, index: Index, k: nat)
    requires Tied(artifacts, index) && Faultless(artifacts, index)
    requires k < |artifacts| && artifacts[k].kind == SPECIFICATION
    ensures OneFamily(artifacts, artifacts[k])
  {
    var ids := Dependencies(artifacts[k]);
    FaultlessIsWellLinked(artifacts, index, k);
    var families := Families(ids, index);
    assert !FamilyFault(artifacts[k], index, FamilyCount(artifacts[k].id.text));
    assert families == [families[0]];
    forall other ensures FamilyOf(artifacts, artifacts[k], other) <==> other == families[0] {
      FamiliesAreTheFamilies(ids, index, other);
      if other in ids {
        NamesAreIndexed(artifacts, index, other);
      }
    }
    assert FamilyOf(artifacts, artifacts[k], families[0]);
  }

  lemma SuccessorsAreFine(artifact: Artifact, index: Index)
    requires FilledText(artifact.id) && FilledText(artifact.supersededBy)
    requires forall problem :: !SuccessorFault(artifact, index, problem)
    ensures artifact.state == RETIRED && artifact.id != artifact.supersededBy
    ensures var other := artifact.supersededBy.text;
            other in index && index[other].kind == artifact.kind && index[other].state == ACTIVE
  {
    var id, other := artifact.id.text, artifact.supersededBy.text;
    assert !SuccessorFault(artifact, index, NotRetired(id));
    assert !SuccessorFault(artifact, index, SelfSuccessor(id));
    assert !SuccessorFault(artifact, index, UnknownSuccessor(id, other));
    assert !SuccessorFault(artifact, index, SuccessorType(id, other));
    assert !SuccessorFault(artifact, index, SuccessorState(id, other));
  }

  lemma FaultlessIsWellSuperseded(artifacts: seq<Artifact>, index: Index, k: nat)
    requires Tied(artifacts, index) && Faultless(artifacts, index) && k < |artifacts|
    ensures WellSuperseded(artifacts, artifacts[k])
  {
    var artifact := artifacts[k];
    if !artifact.supersededBy.Absent? {
      SuccessorsAreFine(artifact, index);
      var m: nat :| m < |artifacts| && artifacts[m] == index[artifact.supersededBy.text];
      if !artifacts[m].supersededBy.Absent? {
        SuccessorsAreFine(artifacts[m], index);
      }
    }
  }

  /** An empty problem list means the registry is in good order. */
  lemma CleanIsWellFormed(artifacts: seq<Artifact>, library: Library)
    requires Clean(artifacts, library)
    ensures WellFormed(artifacts, library)
  {
    var index := IndexOf(artifacts);
    CleanIsTied(artifacts);
    CleanIsFaultless(artifacts, library);
    CleanIsWellDocumented(artifacts, library);
    forall k: nat | k < |artifacts|
      ensures WellLinked(artifacts, artifacts[k]) && WellSuperseded(artifacts, artifacts[k])
      ensures artifacts[k].kind == SPECIFICATION ==> OneFamily(artifacts, artifacts[k])
    {
      FaultlessIsWellLinked(artifacts, index, k);
      FaultlessIsWellSuperseded(artifacts, index, k);
      if artifacts[k].kind == SPECIFICATION {
        FaultlessHasOneFamily(artifacts, index, k);
      }
    }
    forall i: nat, j: nat | i < j < |artifacts| ensures artifacts[i].id != artifacts[j].id {
      NoDuplicates(artifacts, i, j);
    }
    forall path | |path| >= 2 && Chain(artifacts, path) ensures path[0] != path[|path| - 1] {
      FaultlessIsAcyclic(artifacts, index, path);
    }
  }

  // ----- and a registry in good order is clean -------------------------------------------------

  lemma OrderlyIdsAreNew(artifacts: seq<Artifact>, k: nat)
    requires Orderly(artifacts) && k < |artifacts|
    ensures artifacts[k].id.text !in IndexOf(artifacts[..k])
  {
    var before := artifacts[..k];
    assert forall id :: id in IndexOf(before) ==> IndexOf(before)[id] in before;
  }

  lemma ShapedHasNoFault(artifact: Artifact, position: nat, before: Index)
    requires WellShaped(artifact) && artifact.id.text !in before
    ensures FieldFaults(artifact, position, before) == iset{}
  {
  }

  lemma OrderlyHasNoFieldFaults(artifacts: seq<Artifact>)
    requires Orderly(artifacts)
    ensures FieldFaultsOf(artifacts, |artifacts|) == iset{}
  {
    forall k: nat | k < |artifacts| ensures FieldFaults(artifacts[k], k, IndexOf(artifacts[..k])) == iset{} {
      OrderlyIdsAreNew(artifacts, k);
      ShapedHasNoFault(artifacts[k], k, IndexOf(artifacts[..k]));
    }
  }

  lemma DocumentedHasNoFault(artifacts: seq<Artifact>, library: Library, k: nat)
    requires WellDocumented(artifacts, library) && k < |artifacts|
    ensures DocumentFaults(artifacts[k], k, DocumentsOf(artifacts[..k], library), library) == iset{}
  {
    assert forall i :: 0 <= i < k ==> artifacts[..k][i] == artifacts[i];
  }

  lemma WellDocumentedHasNoFaults(artifacts: seq<Artifact>, library: Library)
    requires WellDocumented(artifacts, library)
    ensures DocumentFaultsOf(artifacts, |artifacts|, library) == iset{}
  {
    forall k: nat | k < |artifacts|
      ensures DocumentFaults(artifacts[k], k, DocumentsOf(artifacts[..k], library), library) == iset{}
    {
      DocumentedHasNoFault(artifacts, library, k);
    }
  }

  lemma BearerIsIndexed(artifacts: seq<Artifact>, index: Index, id: string, m: nat)
    requires Tied(artifacts, index) && m < |artifacts| && Bears(artifacts[m], id)
    ensures id in index && index[id] == artifacts[m]
  {
  }

  lemma FineLinkHasNoFault(artifact: Artifact, at: nat, index: Index, problem: Problem)
    requires FilledText(artifact.id) && at < |Dependencies(artifact)| && FineLink(artifact, at, index)
    ensures !DependencyFault(artifact, at, index, problem)
  {
  }

  lemma LinkedIsFine(artifacts: seq<Artifact>, index: Index, artifact: Artifact, at: nat)
    requires Tied(artifacts, index) && WellLinked(artifacts, artifact) && at < |Dependencies(artifact)|
    ensures FineLink(artifact, at, index)
  {
    var other := Dependencies(artifact)[at];
    assert other in Dependencies(artifact);
    var m: nat :| m < |artifacts| && Bears(artifacts[m], other);
    BearerIsIndexed(artifacts, index, other, m);
  }

  lemma OrderlyHasNoDependencyFaults(artifacts: seq<Artifact>, index: Index, k: nat, problem: Problem)
    requires Orderly(artifacts) && Tied(artifacts, index) && k < |artifacts|
    ensures !DependenciesFault(artifacts[k], index, problem)
  {
    forall at: nat | at < |Dependencies(artifacts[k])| ensures !DependencyFault(artifacts[k], at, index, problem) {
      LinkedIsFine(artifacts, index, artifacts[k], at);
      FineLinkHasNoFault(artifacts[k], at, index, problem);
    }
  }

  lemma LinkedNamesAreIndexed(artifacts: seq<Artifact>, index: Index, k: nat, id: string)
    requires Orderly(artifacts) && Tied(artifacts, index) && k < |artifacts| && id in Dependencies(artifacts[k])
    ensures id in index
  {
    assert WellLinked(artifacts, artifacts[k]);
    var m: nat :| m < |artifacts| && Bears(artifacts[m], id);
  }

  /** A list without repeats in which one name is a family, and no other is, has one family. */
  lemma {:induction false} OneFamilyIsListedOnce(ids: seq<string>, index: Index, family: string)
    requires forall i :: i in ids ==> i in index
    requires forall i, j :: 0 <= i < j < |ids| ==> ids[i] != ids[j]
    requires forall i :: i in ids && index[i].kind == FAMILY ==> i == family
    ensures |Families(ids, index)| == if family in ids && index[family].kind == FAMILY then 1 else 0
  {
    if ids == [] {
    } else {
      OneFamilyIsListedOnce(ids[1..], index, family);
    }
  }

  lemma WellFormedHasNoFamilyFault(artifacts: seq<Artifact>, index: Index, k: nat, problem: Problem)
    requires Orderly(artifacts) && Tied(artifacts, index) && k < |artifacts|
    requires artifacts[k].kind == SPECIFICATION ==> OneFamily(artifacts, artifacts[k])
    ensures !FamilyFault(artifacts[k], index, problem)
  {
    var ids := Dependencies(artifacts[k]);
    forall id | id in ids ensures id in index && (NamesFamily(artifacts, id) <==> index[id].kind == FAMILY) {
      LinkedNamesAreIndexed(artifacts, index, k, id);
      NamesAreIndexed(artifacts, index, id);
    }
    if artifacts[k].kind == SPECIFICATION {
      assert WellLinked(artifacts, artifacts[k]);
      var family :| FamilyOf(artifacts, artifacts[k], family)
        && forall other :: FamilyOf(artifacts, artifacts[k], other) ==> other == family;
      forall id | id in ids && index[id].kind == FAMILY ensures id == family {
        assert FamilyOf(artifacts, artifacts[k], id);
      }
      OneFamilyIsListedOnce(ids, index, family);
    }
  }

  lemma WellSupersededHasNoFault(artifacts: seq<Artifact>, index: Index, k: nat, problem: Problem)
    requires Tied(artifacts, index) && k < |artifacts| && WellSuperseded(artifacts, artifacts[k])
    ensures !SuccessorFault(artifacts[k], index, problem)
  {
    if !artifacts[k].supersededBy.Absent? {
      var m: nat :| m < |artifacts| && artifacts[m].id == artifacts[k].supersededBy
        && artifacts[m] != artifacts[k] && artifacts[m].kind == artifacts[k].kind && artifacts[m].state == ACTIVE
        && artifacts[m].supersededBy.Absent?;
      assert index[artifacts[k].supersededBy.text] == artifacts[m];
    }
  }

  lemma ReturnlessIsAcyclic(artifacts: seq<Artifact>, index: Index)
    requires Tied(artifacts, index) && Returnless(artifacts)
    ensures Acyclic(DependencyGraph(index))
  {
    var graph := DependencyGraph(index);
    forall path ensures !ClosedWalk(graph, path) {
      if Walk(graph, path) {
        forall i: nat | i + 1 < |path| ensures LinkedAt(artifacts, path, i) {
          assert EdgeAt(graph, path, i);
          var k: nat :| k < |artifacts| && artifacts[k] == index[path[i]];
        }
        assert Chain(artifacts, path);
      }
    }
  }

  /** No false alarm: a registry in good order gets an empty problem list. */
  lemma WellFormedIsClean(artifacts: seq<Artifact>, library: Library)
    requires WellFormed(artifacts, library)
    ensures Clean(artifacts, library)
  {
    var index := IndexOf(artifacts);
    WellDocumentedHasNoFaults(artifacts, library);
    OrderlyHasNoFieldFaults(artifacts);
    CleanIsTied(artifacts);
    ReturnlessIsAcyclic(artifacts, index);
    forall k: nat, problem | k < |artifacts|
      ensures !DependenciesFault(artifacts[k], index, problem)
      ensures !FamilyFault(artifacts[k], index, problem) && !SuccessorFault(artifacts[k], index, problem)
    {
      OrderlyHasNoDependencyFaults(artifacts, index, k, problem);
      WellFormedHasNoFamilyFault(artifacts, index, k, problem);
      WellSupersededHasNoFault(artifacts, index, k, problem);
    }
  }

  // ----- reachability --------------------------------------------------------------------------

  ghost predicate IsActive(artifacts: seq<Artifact>, id: string) {
    exists k :: 0 <= k < |artifacts| && Bears(artifacts[k], id) && artifacts[k].state == ACTIVE
  }

  lemma ActiveNeighbour(artifacts: seq<Artifact>, a: string, b: string)
    requires Orderly(artifacts) && IsActive(artifacts, a) && DependsOn(artifacts, a, b)
    ensures IsActive(artifacts, b)
  {
    var from: nat :| from < |artifacts| && Bears(artifacts[from], a) && b in Dependencies(artifacts[from]);
    assert WellLinked(artifacts, artifacts[from]);
    var next: nat :| next < |artifacts| && Bears(artifacts[next], b);
  }

  lemma {:induction false} ActiveAlong(artifacts: seq<Artifact>, path: seq<string>, n: nat)
    requires forall a, b :: IsActive(artifacts, a) && DependsOn(artifacts, a, b) ==> IsActive(artifacts, b)
    requires Chain(artifacts, path) && n < |path| && IsActive(artifacts, path[0])
    ensures IsActive(artifacts, path[n])
  {
    if n == 0 {
    } else {
      ActiveAlong(artifacts, path, n - 1);
      assert LinkedAt(artifacts, path, n - 1);
    }
  }

  lemma TheBearerIsActive(artifacts: seq<Artifact>, id: string, k: nat)
    requires Orderly(artifacts) && IsActive(artifacts, id) && k < |artifacts| && Bears(artifacts[k], id)
    ensures artifacts[k].state == ACTIVE
  {
    var m: nat :| m < |artifacts| && Bears(artifacts[m], id) && artifacts[m].state == ACTIVE;
    assert m < k || k < m || m == k;
  }

  lemma ActiveIsClosed(artifacts: seq<Artifact>)
    requires Orderly(artifacts)
    ensures forall a, b :: IsActive(artifacts, a) && DependsOn(artifacts, a, b) ==> IsActive(artifacts, b)
  {
    forall a, b | IsActive(artifacts, a) && DependsOn(artifacts, a, b) ensures IsActive(artifacts, b) {
      ActiveNeighbour(artifacts, a, b);
    }
  }

  /** Only active artifacts can be reached from an active one, however long the chain. */
  lemma ActiveReachesOnlyActive(artifacts: seq<Artifact>, path: seq<string>, k: nat)
    requires Orderly(artifacts) && Chain(artifacts, path) && path != [] && IsActive(artifacts, path[0])
    requires k < |artifacts| && Bears(artifacts[k], path[|path| - 1])
    ensures artifacts[k].state == ACTIVE
  {
    ActiveIsClosed(artifacts);
    ActiveAlong(artifacts, path, |path| - 1);
    TheBearerIsActive(artifacts, path[|path| - 1], k);
  }
}
