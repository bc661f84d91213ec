/**
 * The documentation-comment rules of the current `DocumentationAnalyzer`: required
 * tags, unsupported tags, the `[Documentation]` link on task members, and comments that
 * do not parse. Every report is placed at the declaration's first location.
 */
module DocumentationAnalyzer {
  import opened Wrappers
  import opened Strings
  import opened Diagnostics
  import opened Xml
  import opened Symbols
  import opened TaskMethods
  import opened Linq

  /** Tags every public declaration must have. */
  const RequiredTagsForPublic: seq<string> := ["summary"]

  /** Tags a public property must also have (checked before the general ones). */
  const RequiredTagsForProperties: seq<string> := ["example"]

  /** The attribute text meaning "the element itself, whatever its attributes". */
  const AnyAttribute := "<ANY>"

  /** An unsupported tag, and the attribute that makes it unsupported. */
  datatype UnsupportedTag = UnsupportedTag(tag: string, attribute: string)

  const UnsupportedTagsWithAttributes: seq<UnsupportedTag> := [
    UnsupportedTag("see", "cref"),
    UnsupportedTag("seealso", "cref"),
    UnsupportedTag("cref", AnyAttribute)
  ]

  /** The text a task member's documentation must mention. */
  const DocumentationMarker := "[Documentation]"

  /** The kind of declaration being documented. */
  datatype DeclKind = ClassDecl | MethodDecl | PropertyDecl

  /** The required tags for a kind, in the order they are checked. */
  function RequiredTagsFor(kind: DeclKind): seq<string>
  {
    (if kind == PropertyDecl then RequiredTagsForProperties else []) + RequiredTagsForPublic
  }

  /** What is reported, before it is placed at a location. */
  datatype Report = Report(rule: Rule, args: seq<string>)

  /** `RequiredTagsMissing(tag)` for each tag. */
  function TagReports(tags: seq<string>): (r: seq<Report>)
    ensures |r| == |tags|
    ensures forall i :: 0 <= i < |tags| ==> r[i] == Report(RequiredTagsMissing, [tags[i]])
  {
    if tags == [] then [] else [Report(RequiredTagsMissing, [tags[0]])] + TagReports(tags[1..])
  }

  /** `RequiredTagsMissing(tag)` for each tag no element is named after. */
  function MissingTagReports(tags: seq<string>, root: Node): seq<Report>
  {
    if tags == []
    then []
    else
      (if HasElement(root, tags[0]) then [] else [Report(RequiredTagsMissing, [tags[0]])])
      + MissingTagReports(tags[1..], root)
  }

  /** The document uses the entry: any element with the tag for `<ANY>`, else one carrying the attribute. */
  predicate Uses(root: Node, entry: UnsupportedTag)
  {
    (entry.attribute == AnyAttribute && HasElement(root, entry.tag))
    || (entry.attribute != AnyAttribute && HasElementWithAttribute(root, entry.tag, entry.attribute))
  }

  /** `UnsupportedTagsUsed(tag, attribute)` when the document uses the entry. */
  function EntryReports(entry: UnsupportedTag, root: Node): seq<Report>
  {
    if Uses(root, entry) then [Report(UnsupportedTagsUsed, [entry.tag, entry.attribute])] else []
  }

  /** `UnsupportedTagsUsed(tag, attribute)` for each entry the document uses. */
  function UnsupportedReports(table: seq<UnsupportedTag>, root: Node): seq<Report>
  {
    if table == []
    then []
    else
      EntryReports(table[0], root) + UnsupportedReports(table[1..], root)
  }

  /** The link check: a task member whose elements never mention the marker. */
  function LinkReports(root: Node, checkForDocumentationLink: bool): seq<Report>
  {
    if checkForDocumentationLink && !SomeElementMentions(root, DocumentationMarker)
    then [Report(DocumentationLinkMissing, [])] else []
  }

  /**
   * Everything `ValidateXml` reports, in order: for a blank comment the required tags and
   * nothing else; for one that does not parse `DocumentationInvalid` alone; otherwise the
   * missing required tags, the unsupported tags used and the link check.
   */
  function Reports(docs: Docs, kind: DeclKind, checkForDocumentationLink: bool): seq<Report>
  {
    if IsNullOrWhiteSpace(docs.xml) then TagReports(RequiredTagsFor(kind))
    else if docs.tree.None? then [Report(DocumentationInvalid, [])]
    else
      MissingTagReports(RequiredTagsFor(kind), docs.tree.value)
      + UnsupportedReports(UnsupportedTagsWithAttributes, docs.tree.value)
      + LinkReports(docs.tree.value, checkForDocumentationLink)
  }

  /**
   * `Locations.First()` on a declaration without locations throws; the handler calls it
   * again and throws out of the callback.
   */
  datatype Crash = NoLocations

  /** The reports placed at the first location; a crash when there is none and something is reported. */
  function Located(reports: seq<Report>, locations: seq<Loc>): (r: Result<seq<Diagnostic>, Crash>)
    ensures r.Failure? <==> |locations| == 0 && |reports| > 0
    ensures r.Success? ==> |r.value| == |reports|
    ensures r.Success? ==> forall i :: 0 <= i < |reports| ==>
      r.value[i] == Diagnostic(reports[i].rule, At(locations[0]), reports[i].args)
  {
    if reports == [] then Success([])
    else if locations == [] then Failure(NoLocations)
    else
      var rest := Located(reports[1..], locations);
      Success([Diagnostic(reports[0].rule, At(locations[0]), reports[0].args)] + rest.value)
  }

  // ---------------------------------------------------------------------------
  // What is reported

  /** A blank or absent comment: the required tags of the kind, `example` first for a property. */
  lemma BlankDocs(docs: Docs, kind: DeclKind, checkForDocumentationLink: bool)
    requires IsNullOrWhiteSpace(docs.xml)
    ensures Reports(docs, kind, checkForDocumentationLink) ==
      if kind == PropertyDecl then [Report(RequiredTagsMissing, ["example"]), Report(RequiredTagsMissing, ["summary"])]
      else [Report(RequiredTagsMissing, ["summary"])]
  {
  }

  /** A comment that does not parse gives exactly one `DocumentationInvalid`. */
  lemma UnparseableDocs(docs: Docs, kind: DeclKind, checkForDocumentationLink: bool)
    requires !IsNullOrWhiteSpace(docs.xml) && docs.tree.None?
    ensures Reports(docs, kind, checkForDocumentationLink) == [Report(DocumentationInvalid, [])]
  {
  }

  lemma {:induction false} MissingTagReportsSpec(tags: seq<string>, root: Node)
    ensures forall r :: r in MissingTagReports(tags, root) <==>
      exists t :: t in tags && !HasElement(root, t) && r == Report(RequiredTagsMissing, [t])
  {
    if tags != [] {
      MissingTagReportsSpec(tags[1..], root);
      forall t | t in tags ensures t == tags[0] || t in tags[1..] {
      }
    }
  }

  lemma {:induction false} UnsupportedReportsRule(table: seq<UnsupportedTag>, root: Node)
    ensures forall r :: r in UnsupportedReports(table, root) ==> r.rule == UnsupportedTagsUsed
  {
    if table != [] {
      UnsupportedReportsRule(table[1..], root);
    }
  }

  /**
   * In a parsed comment a tag is reported missing exactly when the kind requires it and
   * no element at any depth has its name.
   */
  lemma RequiredTagReportedIff(docs: Docs, kind: DeclKind, checkForDocumentationLink: bool, tag: string)
    requires !IsNullOrWhiteSpace(docs.xml) && docs.tree.Some?
    ensures Report(RequiredTagsMissing, [tag]) in Reports(docs, kind, checkForDocumentationLink) <==>
      tag in RequiredTagsFor(kind) && !HasElement(docs.tree.value, tag)
  {
    var root := docs.tree.value;
    MissingTagReportsSpec(RequiredTagsFor(kind), root);
    UnsupportedReportsRule(UnsupportedTagsWithAttributes, root);
  }

  /** How many reports of a sequence name the entry. */
  function CountEntry(reports: seq<Report>, entry: UnsupportedTag): nat
  {
    |Where(reports, (r: Report) => r == Report(UnsupportedTagsUsed, [entry.tag, entry.attribute]))|
  }

  /** In a table of distinct entries, an entry is reported once when the document uses it, never otherwise. */
  lemma {:induction false} UnsupportedReportedOnce(table: seq<UnsupportedTag>, root: Node, entry: UnsupportedTag)
    requires forall i, j :: 0 <= i < j < |table| ==> table[i] != table[j]
    ensures CountEntry(UnsupportedReports(table, root), entry) == if entry in table && Uses(root, entry) then 1 else 0
  {
    if table != [] {
      var p := (r: Report) => r == Report(UnsupportedTagsUsed, [entry.tag, entry.attribute]);
      var head := EntryReports(table[0], root);
      WhereConcat(head, UnsupportedReports(table[1..], root), p);
      UnsupportedReportedOnce(table[1..], root, entry);
      if head != [] {
        assert [head[0].args[0], head[0].args[1]] == head[0].args;
        assert p(head[0]) <==> table[0] == entry;
        assert Where(head, p) == if p(head[0]) then [head[0]] else [] by {
          assert head[1..] == [];
        }
      }
      if entry == table[0] {
        assert entry !in table[1..];
      }
    }
  }

  /** A sequence without `UnsupportedTagsUsed` reports names no entry. */
  lemma {:induction false} NoEntryReports(reports: seq<Report>, entry: UnsupportedTag)
    requires forall r :: r in reports ==> r.rule != UnsupportedTagsUsed
    ensures CountEntry(reports, entry) == 0
  {
    if reports != [] {
      NoEntryReports(reports[1..], entry);
    }
  }

  lemma UnsupportedTableDistinct()
    ensures forall i, j :: 0 <= i < j < |UnsupportedTagsWithAttributes| ==>
      UnsupportedTagsWithAttributes[i] != UnsupportedTagsWithAttributes[j]
  {
    assert "see" != "seealso" && "see" != "cref" && "seealso" != "cref" by {
      assert |"see"| != |"seealso"| && |"see"| != |"cref"| && |"seealso"| != |"cref"|;
    }
  }

  /** Of the whole comment: each unsupported entry is reported at most once, exactly when used. */
  lemma UnsupportedTagReportedOnce(docs: Docs, kind: DeclKind, checkForDocumentationLink: bool, entry: UnsupportedTag)
    requires !IsNullOrWhiteSpace(docs.xml) && docs.tree.Some?
    ensures CountEntry(Reports(docs, kind, checkForDocumentationLink), entry) ==
      if entry in UnsupportedTagsWithAttributes && Uses(docs.tree.value, entry) then 1 else 0
  {
    var root := docs.tree.value;
    var p := (r: Report) => r == Report(UnsupportedTagsUsed, [entry.tag, entry.attribute]);
    var a := MissingTagReports(RequiredTagsFor(kind), root);
    var b := UnsupportedReports(UnsupportedTagsWithAttributes, root);
    var c := LinkReports(root, checkForDocumentationLink);
    assert Reports(docs, kind, checkForDocumentationLink) == a + b + c;
    MissingTagReportsSpec(RequiredTagsFor(kind), root);
    WhereConcat(a + b, c, p);
    WhereConcat(a, b, p);
    NoEntryReports(a, entry);
    NoEntryReports(c, entry);
    UnsupportedTableDistinct();
    UnsupportedReportedOnce(UnsupportedTagsWithAttributes, root, entry);
  }

  /**
   * The link check reads every element's text; for a root element that is the same as
   * looking for the marker in the whole text.
   */
  lemma LinkReportedIff(docs: Docs, kind: DeclKind, checkForDocumentationLink: bool)
    requires !IsNullOrWhiteSpace(docs.xml) && docs.tree.Some? && docs.tree.value.Element?
    ensures Report(DocumentationLinkMissing, []) in Reports(docs, kind, checkForDocumentationLink) <==>
      checkForDocumentationLink && !Contains(Value(docs.tree.value), DocumentationMarker)
  {
    var root := docs.tree.value;
    MentionsIffRootMentions(root, DocumentationMarker);
    MissingTagReportsSpec(RequiredTagsFor(kind), root);
    UnsupportedReportsRule(UnsupportedTagsWithAttributes, root);
  }

  // ---------------------------------------------------------------------------
  // The callbacks

  /** `ValidateXml`. */
  method ValidateXml(docs: Docs, kind: DeclKind, locations: seq<Loc>, checkForDocumentationLink: bool)
    returns (r: Result<seq<Diagnostic>, Crash>)
    ensures r == Located(Reports(docs, kind, checkForDocumentationLink), locations)
  {
    var reports: seq<Report>;
    if IsNullOrWhiteSpace(docs.xml) {
      reports := TagReports(RequiredTagsFor(kind));
    } else if docs.tree.None? {
      reports := [Report(DocumentationInvalid, [])];
    } else {
      var root := docs.tree.value;
      var missing := CheckRequiredTags(RequiredTagsFor(kind), root);
      var unsupported := CheckUnsupportedTags(UnsupportedTagsWithAttributes, root);
      reports := missing + unsupported;
      if checkForDocumentationLink && !SomeElementMentions(root, DocumentationMarker) {
        reports := reports + [Report(DocumentationLinkMissing, [])];
      }
      assert reports == missing + unsupported + LinkReports(root, checkForDocumentationLink);
    }
    assert reports == Reports(docs, kind, checkForDocumentationLink);
    r := Locate(reports, locations);
  }

  /** The loop over the required tags. */
  method CheckRequiredTags(tags: seq<string>, root: Node) returns (reports: seq<Report>)
    ensures reports == MissingTagReports(tags, root)
  {
    reports := [];
    for i := 0 to |tags|
      invariant reports + MissingTagReports(tags[i..], root) == MissingTagReports(tags, root)
    {
      assert tags[i..][1..] == tags[i + 1..];
      var missing := [];
      if !HasElement(root, tags[i]) {
        missing := [Report(RequiredTagsMissing, [tags[i]])];
      }
      AppendStep(reports, missing, MissingTagReports(tags[i + 1..], root));
      reports := reports + missing;
    }
  }

  lemma UnsupportedReportsStep(table: seq<UnsupportedTag>, i: nat, root: Node)
    requires i < |table|
    ensures UnsupportedReports(table[i..], root) == EntryReports(table[i], root) + UnsupportedReports(table[i + 1..], root)
  {
    assert table[i..][1..] == table[i + 1..];
  }

  /** The loop over the unsupported tags. */
  method CheckUnsupportedTags(table: seq<UnsupportedTag>, root: Node) returns (reports: seq<Report>)
    ensures reports == UnsupportedReports(table, root)
  {
    reports := [];
    for i := 0 to |table|
      invariant reports + UnsupportedReports(table[i..], root) == UnsupportedReports(table, root)
    {
      UnsupportedReportsStep(table, i, root);
      var entry := [];
      if Uses(root, table[i]) {
        entry := [Report(UnsupportedTagsUsed, [table[i].tag, table[i].attribute])];
      }
      assert entry == EntryReports(table[i], root);
      AppendStep(reports, entry, UnsupportedReports(table[i + 1..], root));
      reports := reports + entry;
    }
  }

  /** Reporting each at `Locations.First()`, which throws when there is none. */
  method Locate(reports: seq<Report>, locations: seq<Loc>) returns (r: Result<seq<Diagnostic>, Crash>)
    ensures r == Located(reports, locations)
  {
    var diags := [];
    for i := 0 to |reports|
      invariant |locations| > 0 || i == 0
      invariant |diags| == i
      invariant forall j :: 0 <= j < i ==> diags[j] == Diagnostic(reports[j].rule, At(locations[0]), reports[j].args)
    {
      if |locations| == 0 {
        return Failure(NoLocations);
      }
      diags := diags + [Diagnostic(reports[i].rule, At(locations[0]), reports[i].args)];
    }
    if |reports| > 0 {
      assert diags == Located(reports, locations).value;
    }
    r := Success(diags);
  }

  /** `AnalyzeClassDocumentation`: public classes only, never with the link check. */
  method AnalyzeClassDocumentation(ty: TypeDecl) returns (r: Result<seq<Diagnostic>, Crash>)
    ensures !ty.isPublic ==> r == Success([])
    ensures ty.isPublic ==> r == Located(Reports(ty.docs, ClassDecl, false), ty.locations)
  {
    if !ty.isPublic {
      return Success([]);
    }
    r := ValidateXml(ty.docs, ClassDecl, ty.locations, false);
  }

  /** A documented member: a method or a property declaration. */
  datatype Member = MethodMember(m: Method) | PropertyMember(p: Property)
  {
    function Kind(): DeclKind { if MethodMember? then MethodDecl else PropertyDecl }
    function IsPublic(): bool { if MethodMember? then m.isPublic else p.isPublic }
    function DisplayString(): string { if MethodMember? then m.displayString else p.displayString }
    function MemberDocs(): Docs { if MethodMember? then m.docs else p.docs }
    function Locations(): seq<Loc> { if MethodMember? then m.locations else p.locations }
  }

  /** The member's display string starts with some registered path. */
  predicate IsTaskMember(member: Member, registry: seq<TaskMethod>)
  {
    exists t :: t in registry && StartsWith(member.DisplayString(), t.path)
  }

  /** `AnalyzeMemberDocumentation`: public members only; the link check for task members. */
  method AnalyzeMemberDocumentation(member: Member, registry: seq<TaskMethod>) returns (r: Result<seq<Diagnostic>, Crash>)
    ensures !member.IsPublic() ==> r == Success([])
    ensures member.IsPublic() ==>
      r == Located(Reports(member.MemberDocs(), member.Kind(), IsTaskMember(member, registry)), member.Locations())
  {
    if !member.IsPublic() {
      return Success([]);
    }
    var isTaskMethod := IsTaskMember(member, registry);
    r := ValidateXml(member.MemberDocs(), member.Kind(), member.Locations(), isTaskMethod);
  }

  /** A declaration node a registered callback receives. */
  datatype DeclNode = ClassNode(ty: TypeDecl) | MemberNode(member: Member)

  /** What the callback registered for the node's kind gives for it. */
  function NodeReports(node: DeclNode, registry: seq<TaskMethod>): Result<seq<Diagnostic>, Crash>
  {
    match node
      case ClassNode(ty) =>
        if ty.isPublic then Located(Reports(ty.docs, ClassDecl, false), ty.locations) else Success([])
      case MemberNode(member) =>
        if member.IsPublic()
        then Located(Reports(member.MemberDocs(), member.Kind(), IsTaskMember(member, registry)), member.Locations())
        else Success([])
  }

  /**
   * `AssignTaskMethods` succeeds: the first syntax tree exists (`registry.Some?`) and the
   * options give at least one task method (a `null` list counts as `[]`).
   */
  predicate Registers(registry: Option<seq<TaskMethod>>)
  {
    registry.Some? && |registry.value| > 0
  }

  /**
   * `RegisterActions`: without task methods no callback is registered and nothing is
   * reported; otherwise each node gets its own callback's outcome, a throwing callback
   * affecting only its own node.
   */
  method Analyze(registry: Option<seq<TaskMethod>>, nodes: seq<DeclNode>)
    returns (outcomes: seq<Result<seq<Diagnostic>, Crash>>)
    ensures !Registers(registry) ==> outcomes == []
    ensures Registers(registry) ==>
      |outcomes| == |nodes| && forall i :: 0 <= i < |nodes| ==> outcomes[i] == NodeReports(nodes[i], registry.value)
  {
    outcomes := [];
    if !Registers(registry) {
      return;
    }
    var taskMethods := registry.value;
    for i := 0 to |nodes|
      invariant |outcomes| == i
      invariant forall j :: 0 <= j < i ==> outcomes[j] == NodeReports(nodes[j], taskMethods)
    {
      var outcome;
      match nodes[i] {
        case ClassNode(ty) =>
          outcome := AnalyzeClassDocumentation(ty);
        case MemberNode(member) =>
          outcome := AnalyzeMemberDocumentation(member, taskMethods);
      }
      outcomes := outcomes + [outcome];
    }
  }

  /**
   * Once the callbacks are registered, a public class without a comment gets
   * `RequiredTagsMissing(summary)` at its first location; without task methods `Analyze`
   * reports nothing for it.
   */
  lemma UndocumentedPublicClassReported(ty: TypeDecl, registry: seq<TaskMethod>)
    requires ty.isPublic && ty.locations != [] && IsNullOrWhiteSpace(ty.docs.xml)
    ensures NodeReports(ClassNode(ty), registry) == Success([Diagnostic(RequiredTagsMissing, At(ty.locations[0]), ["summary"])])
  {
    var r := Located(Reports(ty.docs, ClassDecl, false), ty.locations);
    assert r.Success? && r.value == [Diagnostic(RequiredTagsMissing, At(ty.locations[0]), ["summary"])];
    assert NodeReports(ClassNode(ty), registry) == r;
  }

  /** A class is never reported for a missing link, whatever its comment. */
  lemma ClassNeverLinkChecked(docs: Docs)
    ensures Report(DocumentationLinkMissing, []) !in Reports(docs, ClassDecl, false)
  {
    if !IsNullOrWhiteSpace(docs.xml) && docs.tree.Some? {
      MissingTagReportsSpec(RequiredTagsFor(ClassDecl), docs.tree.value);
      UnsupportedReportsRule(UnsupportedTagsWithAttributes, docs.tree.value);
    }
  }
}
