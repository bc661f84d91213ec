/**
 * The three older, method-centric naming analyzers. Each visits a method, finds its task
 * in the registry and reports, in this order, a misnamed method, a misnamed containing
 * type and, when the task has no vendor, the names of the containing namespace's
 * declarations. They differ in how a missing registry is handled, in the key a method is
 * matched by, and in whether a syntax reference that is not a namespace declaration
 * skips that reference or ends the analysis.
 */
module LegacyNameAnalyzers {
  import opened Wrappers
  import opened Diagnostics
  import opened Symbols
  import opened TaskMethods
  import opened Linq
  import opened NameAnalyzer

  /** A visited method, its containing type and the declarations of its containing namespace. */
  datatype MethodContext = MethodContext(m: Method, containingType: TypeDecl, namespaceDeclarations: seq<SyntaxRef>)

  /** The name locations of the namespace declarations that come before the first other syntax. */
  function LeadingNamespaceNameLocations(refs: seq<SyntaxRef>): seq<Loc>
  {
    if refs == [] || refs[0].OtherSyntax? then [] else [refs[0].nameLocation] + LeadingNamespaceNameLocations(refs[1..])
  }

  /** Where the namespace reports go: every declaration's name, or only those before the first other syntax. */
  function NamespaceLocations(refs: seq<SyntaxRef>, stopAtOther: bool): seq<Loc>
  {
    if stopAtOther then LeadingNamespaceNameLocations(refs) else NamespaceNameLocations(refs)
  }

  /** A `MethodName(action)` at each location of a method not named after the task's action. */
  function ActionReports(c: MethodContext, t: TaskMethod): seq<Diagnostic>
  {
    if t.action.Some? && c.m.name != t.action.value then ReportAt(MethodName, c.m.locations, [t.action.value]) else []
  }

  /** A `TypeName(system)` at each location of a containing type not named after the task's system. */
  function SystemReports(c: MethodContext, t: TaskMethod): seq<Diagnostic>
  {
    if t.system.Some? && c.containingType.name != t.system.value
    then ReportAt(TypeName, c.containingType.locations, [t.system.value]) else []
  }

  /** Without a vendor, a `NamespaceFormat` at each namespace declaration name that is visited. */
  function VendorReports(c: MethodContext, t: TaskMethod, stopAtOther: bool): seq<Diagnostic>
  {
    if t.vendor.None? then ReportAt(NamespaceFormat, NamespaceLocations(c.namespaceDeclarations, stopAtOther), []) else []
  }

  /** What one method of task `t` is reported for. */
  function TaskNameReports(c: MethodContext, t: TaskMethod, stopAtOther: bool): seq<Diagnostic>
  {
    ActionReports(c, t) + SystemReports(c, t) + VendorReports(c, t, stopAtOther)
  }

  /** The three reporting loops shared by the older analyzers. */
  method ReportTaskNames(c: MethodContext, t: TaskMethod, stopAtOther: bool) returns (diags: seq<Diagnostic>)
    ensures diags == TaskNameReports(c, t, stopAtOther)
  {
    var methodReports := [];
    if t.action.Some? && c.m.name != t.action.value {
      methodReports := ReportEach(MethodName, c.m.locations, [t.action.value]);
      assert methodReports == ReportAt(MethodName, c.m.locations, [t.action.value]);
    }
    var typeReports := [];
    if t.system.Some? && c.containingType.name != t.system.value {
      typeReports := ReportEach(TypeName, c.containingType.locations, [t.system.value]);
      assert typeReports == ReportAt(TypeName, c.containingType.locations, [t.system.value]);
    }
    var namespaceReports := [];
    if t.vendor.None? {
      if stopAtOther {
        namespaceReports := ReportLeadingNamespaces(c.namespaceDeclarations);
      } else {
        namespaceReports := ReportNamespaceNames(c.namespaceDeclarations);
      }
    }
    diags := methodReports + typeReports + namespaceReports;
  }

  /** The namespace loop of `NamingAnalyzer.cs`: the first other syntax ends the analysis with `return`. */
  method ReportLeadingNamespaces(refs: seq<SyntaxRef>) returns (diags: seq<Diagnostic>)
    ensures diags == ReportAt(NamespaceFormat, LeadingNamespaceNameLocations(refs), [])
  {
    diags := [];
    ghost var locs := [];
    for i := 0 to |refs|
      invariant LeadingNamespaceNameLocations(refs) == locs + LeadingNamespaceNameLocations(refs[i..])
      invariant diags == ReportAt(NamespaceFormat, locs, [])
    {
      LeadingStep(refs, i);
      match refs[i] {
        case OtherSyntax =>
          assert LeadingNamespaceNameLocations(refs) == locs + [];
          return;
        case NamespaceDeclaration(l) =>
          AppendStep(locs, [l], LeadingNamespaceNameLocations(refs[i + 1..]));
          ReportAtSnoc(NamespaceFormat, locs, l, []);
          locs := locs + [l];
          diags := diags + [Diagnostic(NamespaceFormat, At(l), [])];
      }
    }
    assert LeadingNamespaceNameLocations(refs) == locs + [];
  }

  lemma LeadingStep(refs: seq<SyntaxRef>, i: nat)
    requires i < |refs|
    ensures LeadingNamespaceNameLocations(refs[i..]) ==
      if refs[i].OtherSyntax? then [] else [refs[i].nameLocation] + LeadingNamespaceNameLocations(refs[i + 1..])
  {
    assert refs[i..][1..] == refs[i + 1..];
  }

  /** The leading locations are a prefix of all the name locations, and all of them when there is no other syntax. */
  lemma {:induction false} LeadingIsPrefix(refs: seq<SyntaxRef>)
    ensures var lead := LeadingNamespaceNameLocations(refs);
      |lead| <= |NamespaceNameLocations(refs)| && NamespaceNameLocations(refs)[..|lead|] == lead
    ensures OtherSyntax !in refs ==> LeadingNamespaceNameLocations(refs) == NamespaceNameLocations(refs)
  {
    if refs != [] {
      LeadingIsPrefix(refs[1..]);
      if refs[0].NamespaceDeclaration? {
        assert OtherSyntax in refs ==> OtherSyntax in refs[1..];
      }
    }
  }

  /** Correct names: a method named after the action, in a type named after the system, of a task with a vendor. */
  lemma CorrectNamesAreClean(c: MethodContext, t: TaskMethod, stopAtOther: bool)
    requires t.HasComponents() && c.m.name == t.action.value && c.containingType.name == t.system.value
    ensures TaskNameReports(c, t, stopAtOther) == []
  {
  }

  /** Only a missing vendor leads to namespace reports; system and action do not matter for it. */
  lemma NamespaceReportedIffNoVendor(c: MethodContext, t: TaskMethod, stopAtOther: bool)
    requires |NamespaceLocations(c.namespaceDeclarations, stopAtOther)| > 0
    ensures CountRule(TaskNameReports(c, t, stopAtOther), NamespaceFormat) == 0 <==> t.vendor.Some?
  {
    var action, system, vendor := ActionReports(c, t), SystemReports(c, t), VendorReports(c, t, stopAtOther);
    CountRuleConcat(action + system, vendor, NamespaceFormat);
    CountRuleConcat(action, system, NamespaceFormat);
    if t.action.Some? {
      CountReportAt(MethodName, c.m.locations, [t.action.value], NamespaceFormat);
    }
    assert CountRule(action, NamespaceFormat) == 0;
    if t.system.Some? {
      CountReportAt(TypeName, c.containingType.locations, [t.system.value], NamespaceFormat);
    }
    assert CountRule(system, NamespaceFormat) == 0;
    CountReportAt(NamespaceFormat, NamespaceLocations(c.namespaceDeclarations, stopAtOther), [], NamespaceFormat);
    assert CountRule(vendor, NamespaceFormat) == 0 <==> t.vendor.Some?;
  }

  /**
   * Stopping differs from skipping: behind an other syntax reference a namespace
   * declaration is reported only when skipping.
   */
  lemma StopDiffersFromSkip(l: Loc)
    ensures NamespaceLocations([OtherSyntax, NamespaceDeclaration(l)], false) == [l]
    ensures NamespaceLocations([OtherSyntax, NamespaceDeclaration(l)], true) == []
  {
    assert [OtherSyntax, NamespaceDeclaration(l)][1..] == [NamespaceDeclaration(l)];
  }

  // ---------------------------------------------------------------------------
  // The three callbacks

  /** A registry that is not there makes `FirstOrDefault` throw. */
  datatype Crash = NullRegistry

  /** Reports for a method of the `NameAnalyzer/NameAnalyzer.cs` revision. */
  function MetadataCheckingReports(c: MethodContext, registry: Option<seq<TaskMethod>>): seq<Diagnostic>
  {
    if registry.None? || |registry.value| == 0 then [Diagnostic(MetadataMissing, NoLocation, [])]
    else
      var t := FindByReference(registry.value, c.m.referenceString);
      if t.None? then [] else TaskNameReports(c, t.value, false)
  }

  /**
   * The `NameAnalyzer/NameAnalyzer.cs` revision: without a registry, or with an empty one,
   * one location-less `MetadataMissing` per method; methods are matched by reference
   * string, and other syntax is skipped.
   */
  method AnalyzeWithMetadataCheck(c: MethodContext, registry: Option<seq<TaskMethod>>) returns (diags: seq<Diagnostic>)
    ensures diags == MetadataCheckingReports(c, registry)
  {
    if registry.None? || |registry.value| == 0 {
      return [Diagnostic(MetadataMissing, NoLocation, [])];
    }
    var t := FindByReference(registry.value, c.m.referenceString);
    if t.None? {
      return [];
    }
    diags := ReportTaskNames(c, t.value, false);
  }

  /** Reports for the `NameAnalyzer.cs` (`stopAtOther` false, key the reference string) and `NamingAnalyzer.cs` revisions. */
  function KeyedReports(c: MethodContext, key: string, registry: Option<seq<TaskMethod>>, stopAtOther: bool)
    : Result<seq<Diagnostic>, Crash>
  {
    if registry.None? then Failure(NullRegistry)
    else
      var t := FindByReference(registry.value, key);
      if t.None? then Success([]) else Success(TaskNameReports(c, t.value, stopAtOther))
  }

  /** The `NameAnalyzer.cs` revision: matched by reference string, other syntax skipped. */
  method AnalyzeByReference(c: MethodContext, registry: Option<seq<TaskMethod>>) returns (r: Result<seq<Diagnostic>, Crash>)
    ensures r == KeyedReports(c, c.m.referenceString, registry, false)
  {
    r := AnalyzeKeyed(c, c.m.referenceString, registry, false);
  }

  /**
   * The `NamingAnalyzer.cs` revision: matched by `ToDisplayString(TaskMethodFormat)`,
   * given as `display`; the analysis ends at the first other syntax.
   */
  method AnalyzeByDisplayString(c: MethodContext, display: string, registry: Option<seq<TaskMethod>>)
    returns (r: Result<seq<Diagnostic>, Crash>)
    ensures r == KeyedReports(c, display, registry, true)
  {
    r := AnalyzeKeyed(c, display, registry, true);
  }

  method AnalyzeKeyed(c: MethodContext, key: string, registry: Option<seq<TaskMethod>>, stopAtOther: bool)
    returns (r: Result<seq<Diagnostic>, Crash>)
    ensures r == KeyedReports(c, key, registry, stopAtOther)
  {
    if registry.None? {
      return Failure(NullRegistry);
    }
    var t := FindByReference(registry.value, key);
    if t.None? {
      return Success([]);
    }
    var diags := ReportTaskNames(c, t.value, stopAtOther);
    r := Success(diags);
  }

  /** A method no registered path matches is reported for nothing by any revision (given a non-empty registry). */
  lemma UnmatchedMethodIsClean(c: MethodContext, key: string, registry: seq<TaskMethod>, stopAtOther: bool)
    requires |registry| > 0 && forall t :: t in registry ==> t.path != key
    ensures key == c.m.referenceString ==> MetadataCheckingReports(c, Some(registry)) == []
    ensures KeyedReports(c, key, Some(registry), stopAtOther) == Success([])
  {
  }

  /** The task found is the first whose path is the key; later ones with the same path are ignored. */
  lemma FirstTaskDecides(c: MethodContext, key: string, registry: seq<TaskMethod>, k: nat, stopAtOther: bool)
    requires k < |registry| && registry[k].path == key
    requires forall i :: 0 <= i < k ==> registry[i].path != key
    ensures KeyedReports(c, key, Some(registry), stopAtOther) == Success(TaskNameReports(c, registry[k], stopAtOther))
  {
    FirstOrDefaultIsFirst(registry, (t: TaskMethod) => t.path == key, k);
  }
}
