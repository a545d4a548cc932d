/** The governance registry's artifacts as parsed, and what makes a registry well formed. */
module Registry {
  import opened CycleFinder
  import opened Texts

  /** A parsed field value: absent, text, a list, or anything else. */
  datatype Value = Absent | Text(text: string) | Items(items: seq<Value>) | Other

  datatype Artifact = Artifact(
    kind: Value, id: Value, state: Value, document: Value, dependsOn: Value, supersededBy: Value,
    unknownFields: set<string>)

  datatype Label = Named(id: string) | At(position: nat)

  datatype Problem =
    | MissingFields(position: nat)
    | UnknownFields(position: nat)
    | BadId(position: nat)
    | BadType(subject: Label)
    | BadState(subject: Label)
    | BadDependencies(subject: Label)
    | BadSuccessor(subject: Label)
    | BadDocument(subject: Label)
    | EscapingDocument(subject: Label)
    | NotMarkdown(subject: Label)
    | DuplicateDocument(document: string)
    | MissingDocument(subject: Label, document: string)
    | DuplicateId(id: string)
    | DuplicateDependency(id: string, other: string)
    | SelfDependency(id: string)
    | UnknownDependency(id: string, other: string)
    | RetiredDependency(id: string, other: string)
    | DependencyCycle(path: seq<string>)
    | FamilyCount(id: string)
    | NotRetired(id: string)
    | SelfSuccessor(id: string)
    | UnknownSuccessor(id: string, other: string)
    | SuccessorType(id: string, other: string)
    | SuccessorState(id: string, other: string)

  type Index = map<string, Artifact>

  /**
   * How the repository reads a document's path: whether it leaves the repository or is absolute, whether
   * it is Markdown, its normal form, and whether a file is there.
   */
  datatype Library = Library(
    escapes: string -> bool, markdown: string -> bool, normal: string -> string, present: string -> bool)

  const ACTIVE := Text("active")
  const RETIRED := Text("retired")
  const FAMILY := Text("family")
  const SPECIFICATION := Text("specification")
  const TYPES := {Text("decision"), FAMILY, SPECIFICATION}
  const STATES := {ACTIVE, RETIRED}

  predicate FilledText(value: Value) {
    value.Text? && !IsBlank(value.text)
  }

  predicate IdentifierList(value: Value) {
    value.Items? && forall i :: 0 <= i < |value.items| ==> FilledText(value.items[i])
  }

  /** The identifiers an artifact lists, or none when the field is not a list of identifiers. */
  function Dependencies(artifact: Artifact): (ids: seq<string>)
    ensures IdentifierList(artifact.dependsOn) ==>
      |ids| == |artifact.dependsOn.items| && forall i :: 0 <= i < |ids| ==> Text(ids[i]) == artifact.dependsOn.items[i]
    ensures !IdentifierList(artifact.dependsOn) ==> ids == []
  {
    if IdentifierList(artifact.dependsOn)
    then seq(|artifact.dependsOn.items|, i requires 0 <= i < |artifact.dependsOn.items| => artifact.dependsOn.items[i].text)
    else []
  }

  function LabelOf(artifact: Artifact, position: nat): Label {
    if FilledText(artifact.id) then Named(artifact.id.text) else At(position)
  }

  /** The artifacts by identifier; the first of two with one identifier keeps it. */
  function IndexOf(artifacts: seq<Artifact>): (index: Index)
    ensures forall id :: id in index ==> index[id] in artifacts && index[id].id == Text(id) && FilledText(Text(id))
  {
    if artifacts == [] then map[] else
      var last := artifacts[|artifacts| - 1];
      var before := IndexOf(artifacts[..|artifacts| - 1]);
      Indexed(before, last)
  }

  function Indexed(before: Index, artifact: Artifact): Index {
    if FilledText(artifact.id) && artifact.id.text !in before then before[artifact.id.text := artifact] else before
  }

  // ----- what each check reports ---------------------------------------------------------------

  ghost function When(bad: bool, problem: Problem): iset<Problem> {
    if bad then iset{problem} else iset{}
  }

  /** What is wrong with the set of fields one artifact has. */
  ghost function ShapeFaults(artifact: Artifact, position: nat): iset<Problem> {
    When(artifact.kind.Absent? || artifact.id.Absent? || artifact.state.Absent? || artifact.document.Absent?
         || artifact.dependsOn.Absent?, MissingFields(position))
    + When(artifact.unknownFields != {}, UnknownFields(position))
  }

  /** What is wrong with the values of those fields. */
  ghost function ValueFaults(artifact: Artifact, position: nat): iset<Problem> {
    var subject := LabelOf(artifact, position);
    When(!FilledText(artifact.id), BadId(position))
    + When(artifact.kind !in TYPES, BadType(subject))
    + When(artifact.state !in STATES, BadState(subject))
    + When(!IdentifierList(artifact.dependsOn), BadDependencies(subject))
    + When(!artifact.supersededBy.Absent? && !FilledText(artifact.supersededBy), BadSuccessor(subject))
  }

  /** What is wrong with its identity, given the artifacts before it. */
  ghost function IdentityFaults(artifact: Artifact, before: Index): iset<Problem> {
    if FilledText(artifact.id) then When(artifact.id.text in before, DuplicateId(artifact.id.text)) else iset{}
  }

  ghost function FieldFaults(artifact: Artifact, position: nat, before: Index): iset<Problem> {
    ShapeFaults(artifact, position) + ValueFaults(artifact, position) + IdentityFaults(artifact, before)
    + When(!FilledText(artifact.document), BadDocument(LabelOf(artifact, position)))
  }

  /** The artifact names a document the registry can hold on to. */
  predicate Recordable(artifact: Artifact, library: Library) {
    && FilledText(artifact.document)
    && !library.escapes(artifact.document.text) && library.markdown(artifact.document.text)
  }

  /** The normal forms of the documents named so far. */
  function DocumentsOf(artifacts: seq<Artifact>, library: Library): (documents: set<string>)
    ensures forall k :: 0 <= k < |artifacts| && Recordable(artifacts[k], library) ==>
      library.normal(artifacts[k].document.text) in documents
    ensures forall document :: document in documents ==>
      exists k :: 0 <= k < |artifacts| && Recordable(artifacts[k], library)
        && library.normal(artifacts[k].document.text) == document
  {
    if artifacts == [] then {} else
      Recorded(DocumentsOf(artifacts[..|artifacts| - 1], library), artifacts[|artifacts| - 1], library)
  }

  function Recorded(documents: set<string>, artifact: Artifact, library: Library): set<string> {
    if Recordable(artifact, library) then documents + {library.normal(artifact.document.text)} else documents
  }

  /** What is wrong with the document it names, given those named before it. */
  ghost function DocumentFaults(
      artifact: Artifact, position: nat, documents: set<string>, library: Library): iset<Problem>
  {
    if !FilledText(artifact.document) then iset{}
    else
      var subject, document := LabelOf(artifact, position), artifact.document.text;
      if library.escapes(document) then iset{EscapingDocument(subject)}
      else if !library.markdown(document) then iset{NotMarkdown(subject)}
      else
        When(library.normal(document) in documents, DuplicateDocument(document))
        + When(!library.present(document), MissingDocument(subject, document))
  }

  /** What is wrong with an artifact's `at`-th dependency. */
  predicate DependencyFault(artifact: Artifact, at: nat, index: Index, problem: Problem)
    requires FilledText(artifact.id) && at < |Dependencies(artifact)|
  {
    var id, dependencies := artifact.id.text, Dependencies(artifact);
    var other := dependencies[at];
    match problem
    case DuplicateDependency(i, o) => i == id && o == other && other in dependencies[..at]
    case SelfDependency(i) => i == id && other == id
    case UnknownDependency(i, o) => i == id && o == other && other != id && other !in index
    case RetiredDependency(i, o) => i == id && o == other && other != id && other in index
      && artifact.state == ACTIVE && index[other].state == RETIRED
    case _ => false
  }

  ghost predicate DependenciesFault(artifact: Artifact, index: Index, problem: Problem) {
    && FilledText(artifact.id)
    && exists at: nat :: at < |Dependencies(artifact)| && DependencyFault(artifact, at, index, problem)
  }

  function KnownDependencies(artifact: Artifact, index: Index): seq<string> {
    Known(Dependencies(artifact), index)
  }

  function Known(ids: seq<string>, index: Index): (known: seq<string>)
    ensures forall id :: id in known <==> id in ids && id in index
    ensures (forall id :: id in ids ==> id in index) ==> known == ids
  {
    if ids == [] then [] else (if ids[0] in index then [ids[0]] else []) + Known(ids[1..], index)
  }

  function Families(ids: seq<string>, index: Index): (families: seq<string>)
    requires forall id :: id in ids ==> id in index
  {
    if ids == [] then []
    else (if index[ids[0]].kind == FAMILY then [ids[0]] else []) + Families(ids[1..], index)
  }

  predicate FamilyFault(artifact: Artifact, index: Index, problem: Problem) {
    && artifact.kind == SPECIFICATION && FilledText(artifact.id)
    && |Families(KnownDependencies(artifact, index), index)| != 1
    && problem == FamilyCount(artifact.id.text)
  }

  predicate SuccessorFault(artifact: Artifact, index: Index, problem: Problem) {
    && FilledText(artifact.id) && FilledText(artifact.supersededBy)
    && var id, other := artifact.id.text, artifact.supersededBy.text;
       if artifact.state != RETIRED then problem == NotRetired(id)
       else if other == id then problem == SelfSuccessor(id)
       else if other !in index then problem == UnknownSuccessor(id, other)
       else
         || (index[other].kind != artifact.kind && problem == SuccessorType(id, other))
         || (index[other].state != ACTIVE && problem == SuccessorState(id, other))
  }

  function DependencyGraph(index: Index): Graph {
    map id | id in index :: KnownDependencies(index[id], index)
  }

  predicate CycleFault(index: Index, problem: Problem) {
    problem.DependencyCycle? && SimpleCycle(DependencyGraph(index), problem.path)
  }
}
