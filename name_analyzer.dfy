/**
 * The naming convention of the current `NameAnalyzer`: a task method is named after the
 * action, its type after the system, and its namespace must allow vendor, system and
 * action to be read from the task path. Each symbol the compiler visits is handled by
 * its own callback.
 */
module NameAnalyzer {
  import opened Wrappers
  import opened Diagnostics
  import opened Symbols
  import opened TaskMethods
  import opened Linq

  /** `FirstOrDefault(t => t.Path == reference)`. */
  function FindByReference(registry: seq<TaskMethod>, reference: string): Option<TaskMethod>
  {
    FirstOrDefault(registry, (t: TaskMethod) => t.path == reference)
  }

  /** Some method of the type is the task's method. */
  predicate DeclaresTask(t: TaskMethod, ty: TypeDecl)
  {
    exists m :: m in ty.methods && t.path == m.referenceString
  }

  /** Some type directly in the namespace declares the task. */
  predicate NamespaceDeclaresTask(t: TaskMethod, ns: Namespace)
  {
    exists ty :: ty in ns.types && DeclaresTask(t, ty)
  }

  /** The action the method should be named, when it is named otherwise. */
  function WrongAction(m: Method, registry: seq<TaskMethod>): Option<string>
  {
    var t := FindByReference(registry, m.referenceString);
    if t.None? || t.value.action.None? || m.name == t.value.action.value then None else t.value.action
  }

  /** The system the type should be named, when it is named otherwise. */
  function WrongSystem(ty: TypeDecl, registry: seq<TaskMethod>): Option<string>
  {
    var t := FirstOrDefault(registry, (t: TaskMethod) => DeclaresTask(t, ty));
    if t.None? || t.value.system.None? || ty.name == t.value.system.value then None else t.value.system
  }

  /** The name locations of the namespace declarations among the syntax references. */
  function NamespaceNameLocations(refs: seq<SyntaxRef>): (locs: seq<Loc>)
    ensures |locs| <= |refs|
    ensures forall l :: l in locs <==> NamespaceDeclaration(l) in refs
  {
    if refs == [] then []
    else
      (match refs[0] case NamespaceDeclaration(l) => [l] case OtherSyntax => [])
      + NamespaceNameLocations(refs[1..])
  }

  /** `AnalyzeMethods`: a `MethodName(action)` at each location of a misnamed task method. */
  method AnalyzeMethods(m: Method, registry: seq<TaskMethod>) returns (diags: seq<Diagnostic>)
    ensures WrongAction(m, registry).None? ==> diags == []
    ensures WrongAction(m, registry).Some? ==>
      diags == ReportAt(MethodName, m.locations, [WrongAction(m, registry).value])
  {
    var taskMethod := FindByReference(registry, m.referenceString);
    if taskMethod.None? || taskMethod.value.action.None? || m.name == taskMethod.value.action.value {
      return [];
    }
    diags := ReportEach(MethodName, m.locations, [taskMethod.value.action.value]);
  }

  /** `AnalyzeNamedType`: a `TypeName(system)` at each location of a misnamed task type. */
  method AnalyzeNamedType(ty: TypeDecl, registry: seq<TaskMethod>) returns (diags: seq<Diagnostic>)
    ensures WrongSystem(ty, registry).None? ==> diags == []
    ensures WrongSystem(ty, registry).Some? ==>
      diags == ReportAt(TypeName, ty.locations, [WrongSystem(ty, registry).value])
  {
    var taskMethod := FirstOrDefault(registry, (t: TaskMethod) => DeclaresTask(t, ty));
    if taskMethod.None? || taskMethod.value.system.None? || ty.name == taskMethod.value.system.value {
      return [];
    }
    diags := ReportEach(TypeName, ty.locations, [taskMethod.value.system.value]);
  }

  /** A callback that threw: Roslyn reports the exception instead, and nothing of the callback's own. */
  datatype Crash = NullReference

  /**
   * `AnalyzeNamespace`: when the task declared by a type of the namespace lacks a
   * component, a `NamespaceFormat` at the name of each namespace declaration of the
   * containing namespace. The global namespace has no containing namespace, so reaching
   * the loop there throws.
   */
  method AnalyzeNamespace(ns: Namespace, registry: seq<TaskMethod>) returns (r: Result<seq<Diagnostic>, Crash>)
    ensures var t := FirstOrDefault(registry, (t: TaskMethod) => NamespaceDeclaresTask(t, ns));
      if t.None? || t.value.HasComponents() then r == Success([])
      else if ns.containingDeclarations.None? then r == Failure(NullReference)
      else r == Success(ReportAt(NamespaceFormat, NamespaceNameLocations(ns.containingDeclarations.value), []))
  {
    var taskMethod := FirstOrDefault(registry, (t: TaskMethod) => NamespaceDeclaresTask(t, ns));
    if taskMethod.None? || taskMethod.value.HasComponents() {
      return Success([]);
    }
    if ns.containingDeclarations.None? {
      return Failure(NullReference);
    }
    var diags := ReportNamespaceNames(ns.containingDeclarations.value);
    return Success(diags);
  }

  /** The namespace loop: a `NamespaceFormat` at each namespace declaration's name, other syntax skipped with `continue`. */
  method ReportNamespaceNames(refs: seq<SyntaxRef>) returns (diags: seq<Diagnostic>)
    ensures diags == ReportAt(NamespaceFormat, NamespaceNameLocations(refs), [])
  {
    diags := [];
    ghost var locs := [];
    for i := 0 to |refs|
      invariant locs == NamespaceNameLocations(refs[..i])
      invariant diags == ReportAt(NamespaceFormat, locs, [])
    {
      NamespaceNameLocationsStep(refs, i);
      match refs[i] {
        case OtherSyntax =>
          continue;
        case NamespaceDeclaration(l) =>
          ReportAtSnoc(NamespaceFormat, locs, l, []);
          locs := locs + [l];
          diags := diags + [Diagnostic(NamespaceFormat, At(l), [])];
      }
    }
    assert refs[..|refs|] == refs;
  }

  lemma NamespaceNameLocationsStep(refs: seq<SyntaxRef>, i: nat)
    requires i < |refs|
    ensures NamespaceNameLocations(refs[..i + 1]) ==
      NamespaceNameLocations(refs[..i]) + (if refs[i].NamespaceDeclaration? then [refs[i].nameLocation] else [])
  {
    assert refs[..i + 1] == refs[..i] + [refs[i]];
    NamespaceNameLocationsConcat(refs[..i], [refs[i]]);
  }

  lemma ReportAtSnoc(rule: Rule, locs: seq<Loc>, l: Loc, args: seq<string>)
    ensures ReportAt(rule, locs + [l], args) == ReportAt(rule, locs, args) + [Diagnostic(rule, At(l), args)]
  {
    ReportAtConcat(rule, locs, [l], args);
  }

  lemma {:induction false} NamespaceNameLocationsConcat(a: seq<SyntaxRef>, b: seq<SyntaxRef>)
    ensures NamespaceNameLocations(a + b) == NamespaceNameLocations(a) + NamespaceNameLocations(b)
  {
    if a == [] {
      assert a + b == b;
    } else {
      assert (a + b)[1..] == a[1..] + b;
      NamespaceNameLocationsConcat(a[1..], b);
    }
  }

  lemma ReportAtConcat(rule: Rule, a: seq<Loc>, b: seq<Loc>, args: seq<string>)
    ensures ReportAt(rule, a + b, args) == ReportAt(rule, a, args) + ReportAt(rule, b, args)
  {
  }

  /** A symbol the compiler hands to one of the callbacks. */
  datatype Symbol = MethodSymbol(m: Method) | NamedTypeSymbol(ty: TypeDecl) | NamespaceSymbol(ns: Namespace)

  /** What one callback reports (nothing for one that threw). */
  function SymbolReports(s: Symbol, registry: seq<TaskMethod>): seq<Diagnostic>
  {
    match s
      case MethodSymbol(m) =>
        if WrongAction(m, registry).None? then [] else ReportAt(MethodName, m.locations, [WrongAction(m, registry).value])
      case NamedTypeSymbol(ty) =>
        if WrongSystem(ty, registry).None? then [] else ReportAt(TypeName, ty.locations, [WrongSystem(ty, registry).value])
      case NamespaceSymbol(ns) =>
        var t := FirstOrDefault(registry, (t: TaskMethod) => NamespaceDeclaresTask(t, ns));
        if t.None? || t.value.HasComponents() || ns.containingDeclarations.None? then []
        else ReportAt(NamespaceFormat, NamespaceNameLocations(ns.containingDeclarations.value), [])
  }

  function AllReports(symbols: seq<Symbol>, registry: seq<TaskMethod>): seq<Diagnostic>
  {
    if symbols == [] then [] else SymbolReports(symbols[0], registry) + AllReports(symbols[1..], registry)
  }

  /**
   * `RegisterActions` and the callbacks: no rule runs without a registry; otherwise each
   * visited symbol is handled by the callback for its kind.
   */
  method Analyze(registry: Option<seq<TaskMethod>>, symbols: seq<Symbol>) returns (diags: seq<Diagnostic>)
    ensures registry.None? ==> diags == []
    ensures registry.Some? ==> diags == AllReports(symbols, registry.value)
  {
    diags := [];
    if registry.None? {
      return;
    }
    var taskMethods := registry.value;
    for i := 0 to |symbols|
      invariant diags + AllReports(symbols[i..], taskMethods) == AllReports(symbols, taskMethods)
    {
      assert symbols[i..][1..] == symbols[i + 1..];
      var reports := AnalyzeSymbol(symbols[i], taskMethods);
      AppendStep(diags, reports, AllReports(symbols[i + 1..], taskMethods));
      diags := diags + reports;
    }
  }

  /** The callback registered for the symbol's kind. */
  method AnalyzeSymbol(s: Symbol, registry: seq<TaskMethod>) returns (reports: seq<Diagnostic>)
    ensures reports == SymbolReports(s, registry)
  {
    match s {
      case MethodSymbol(m) =>
        reports := AnalyzeMethods(m, registry);
      case NamedTypeSymbol(ty) =>
        reports := AnalyzeNamedType(ty, registry);
      case NamespaceSymbol(ns) =>
        var r := AnalyzeNamespace(ns, registry);
        reports := if r.Success? then r.value else [];
    }
  }

  /**
   * Tasks are checked independently: registering more tasks after those of a method, or
   * before them when their paths differ from the method's, leaves its reports unchanged.
   */
  lemma {:induction false} OtherTasksDoNotAffectMethod(m: Method, registry: seq<TaskMethod>, others: seq<TaskMethod>)
    requires forall t :: t in others ==> t.path != m.referenceString
    ensures WrongAction(m, others + registry) == WrongAction(m, registry)
    ensures FindByReference(registry, m.referenceString).Some? ==>
      WrongAction(m, registry + others) == WrongAction(m, registry)
  {
    var p := (t: TaskMethod) => t.path == m.referenceString;
    FirstOrDefaultConcat(others, registry, p);
    FirstOrDefaultConcat(registry, others, p);
  }

  /** The same for types: tasks no method of the type declares do not change its reports. */
  lemma {:induction false} OtherTasksDoNotAffectType(ty: TypeDecl, registry: seq<TaskMethod>, others: seq<TaskMethod>)
    requires forall t :: t in others ==> !DeclaresTask(t, ty)
    ensures WrongSystem(ty, others + registry) == WrongSystem(ty, registry)
    ensures WrongSystem(ty, registry + others) == WrongSystem(ty, registry)
  {
    var p := (t: TaskMethod) => DeclaresTask(t, ty);
    FirstOrDefaultConcat(others, registry, p);
    FirstOrDefaultConcat(registry, others, p);
  }

  /**
   * Correct names give nothing: a method named after its task's action, in a type named
   * after the system, in a namespace whose task has all components, whatever tasks follow
   * it in the registry and whatever tasks precede it that no type of the namespace declares.
   */
  lemma {:induction false} CorrectNamesAreClean(registry: seq<TaskMethod>, k: nat, m: Method, ty: TypeDecl, ns: Namespace)
    requires k < |registry| && registry[k].HasComponents() && m.referenceString == registry[k].path
    requires m.name == registry[k].action.value && ty.name == registry[k].system.value
    requires m in ty.methods && ty in ns.types
    requires forall i :: 0 <= i < k ==> !NamespaceDeclaresTask(registry[i], ns)
    ensures AllReports([MethodSymbol(m), NamedTypeSymbol(ty), NamespaceSymbol(ns)], registry) == []
  {
    var t := registry[k];
    var s := [MethodSymbol(m), NamedTypeSymbol(ty), NamespaceSymbol(ns)];
    FirstOrDefaultIsFirst(registry, (t: TaskMethod) => t.path == m.referenceString, k);
    assert DeclaresTask(t, ty);
    FirstOrDefaultIsFirst(registry, (t: TaskMethod) => DeclaresTask(t, ty), k);
    assert NamespaceDeclaresTask(t, ns);
    FirstOrDefaultIsFirst(registry, (t: TaskMethod) => NamespaceDeclaresTask(t, ns), k);
    assert SymbolReports(s[0], registry) == [];
    assert SymbolReports(s[1], registry) == [];
    assert SymbolReports(s[2], registry) == [];
    assert AllReports(s[2..], registry) == SymbolReports(s[2], registry) + AllReports(s[3..], registry);
    assert AllReports(s[1..], registry) == SymbolReports(s[1], registry) + AllReports(s[2..], registry);
    assert AllReports(s, registry) == SymbolReports(s[0], registry) + AllReports(s[1..], registry);
    assert s[3..] == [];
  }
}
