/**
 * The older `ParametersAnalyzer`, which works on class declaration syntax: the task is
 * found through its system name and action, types are compared as written, and the
 * `PropertyTab` attribute is recognised by its written name. Class, method and parameter
 * names are compared as written (`Identifier()`, keeping a verbatim `@`). The `TypeDecl`
 * a callback receives stands for one class declaration node: its `methods` are the
 * members written in that declaration, which for a partial class is one of its parts.
 */
module LegacyParametersAnalyzer {
  import opened Wrappers
  import opened Diagnostics
  import opened Symbols
  import opened TaskMethods
  import opened Linq
  import opened ParameterOrder
  import opened ParametersAnalyzer

  /** The older table: only `Options` and `CancellationToken` are required. */
  const LegacyExpectedParameters: seq<ExpectedParameter> := [
    ExpectedParameter("Input", "input", false, true),
    ExpectedParameter("Connection", "connection", false, true),
    ExpectedParameter("Options", "options", true, true),
    ExpectedParameter("CancellationToken", "cancellationToken", true, false)
  ]

  lemma LegacyTableFacts()
    ensures Distinct(Types(LegacyExpectedParameters))
    ensures forall e :: e in LegacyExpectedParameters ==>
      (e.required <==> e.typeName == "Options" || e.typeName == "CancellationToken")
    ensures forall e :: e in LegacyExpectedParameters ==> (e.isProperty <==> e.typeName != "CancellationToken")
  {
  }

  /** `parameter.Type?.ToString()`: the written type, `None` when it is omitted. */
  function TypeText(p: Parameter): Option<string>
  {
    if p.typeSyntax.Some? then Some(p.typeSyntax.value.text) else None
  }

  /** Some parameter is written with the type. */
  predicate HasParameterWritten(parameters: seq<Parameter>, t: string)
  {
    exists p :: p in parameters && TypeText(p) == Some(t)
  }

  /** An attribute written `PropertyTab`. */
  predicate HasPropertyTab(p: Parameter)
  {
    "PropertyTab" in p.attributeNames
  }

  /** The method declarations of a class declaration, in order. */
  function DeclaredMethods(ty: TypeDecl): (ms: seq<Method>)
    ensures forall m :: m in ms ==> m.syntax.Some? && m.syntax.value.MethodDeclaration?
  {
    Where(ty.methods, (m: Method) => m.syntax.Some? && m.syntax.value.MethodDeclaration?)
  }

  /** `Where(p => p.Required).Except(found)`, with types compared as written. */
  function MissingWritten(table: seq<ExpectedParameter>, parameters: seq<Parameter>, at: Location): seq<Diagnostic>
  {
    if table == []
    then []
    else
      (if table[0].required && !HasParameterWritten(parameters, table[0].typeName)
       then [Diagnostic(RequiredParameter, at, [table[0].typeName])] else [])
      + MissingWritten(table[1..], parameters, at)
  }

  lemma {:induction false} MissingWrittenSpec(table: seq<ExpectedParameter>, parameters: seq<Parameter>, at: Location)
    ensures forall d :: d in MissingWritten(table, parameters, at) <==>
      exists e :: e in table && e.required && !HasParameterWritten(parameters, e.typeName)
        && d == Diagnostic(RequiredParameter, at, [e.typeName])
  {
    if table != [] {
      MissingWrittenSpec(table[1..], parameters, at);
      forall e | e in table
        ensures e == table[0] || e in table[1..]
      {
      }
    }
  }

  /** A parameter's key in the ordering scan: the table index of its written type, if any. */
  function WrittenKey(table: seq<ExpectedParameter>, p: Parameter): Option<nat>
  {
    if TypeText(p).None? then None else Position(Types(table), TypeText(p).value)
  }

  function WrittenKeys(table: seq<ExpectedParameter>, parameters: seq<Parameter>): (keys: seq<Option<nat>>)
    ensures |keys| == |parameters|
    ensures forall i :: 0 <= i < |parameters| ==> keys[i] == WrittenKey(table, parameters[i])
  {
    if parameters == [] then [] else [WrittenKey(table, parameters[0])] + WrittenKeys(table, parameters[1..])
  }

  /**
   * One parameter: nothing without a written type; an unknown type and nothing else;
   * otherwise a wrong name, a missing `PropertyTab` on a property and the order
   * diagnostic when this parameter is the first to break the order.
   */
  function WrittenParameterReports(table: seq<ExpectedParameter>, p: Parameter, at: Location, firstBreak: bool)
    : seq<Diagnostic>
  {
    if TypeText(p).None? then []
    else
      var t := TypeText(p).value;
      match FirstOrDefault(table, (ep: ExpectedParameter) => ep.typeName == t)
        case None => [Diagnostic(ParameterUnknown, At(p.identifierLocation), [t])]
        case Some(ep) =>
          EntryChecks(p, ep) + (if firstBreak then [Diagnostic(ParametersOrder, at, [])] else [])
  }

  /** The name check, then the `PropertyTab` check of a property entry. */
  function EntryChecks(p: Parameter, ep: ExpectedParameter): seq<Diagnostic>
  {
    (if p.Identifier() != ep.name then [Diagnostic(ParameterName, At(p.identifierLocation), [ep.name])] else [])
    + (if ep.isProperty && !HasPropertyTab(p)
       then [Diagnostic(ParameterPropertyTabAttribute, At(p.identifierLocation), [])] else [])
  }

  function WrittenParametersReports(table: seq<ExpectedParameter>, parameters: seq<Parameter>, at: Location, n: nat)
    : seq<Diagnostic>
    requires n <= |parameters|
  {
    if n == 0 then
      []
    else
      WrittenParametersReports(table, parameters, at, n - 1)
      + WrittenParameterReports(table, parameters[n - 1], at, IsFirstBreak(WrittenKeys(table, parameters), n - 1))
  }

  /** The task whose system is the class name; `None` when there is none. */
  function TaskOfClass(ty: TypeDecl, registry: seq<TaskMethod>): Option<TaskMethod>
  {
    FirstOrDefault(registry, (t: TaskMethod) => t.system == Some(ty.Identifier()))
  }

  /** The first method declaration named after the task's action. */
  function ActionMethod(ty: TypeDecl, t: TaskMethod): Option<Method>
  {
    FirstOrDefault(DeclaredMethods(ty), (m: Method) => t.action == Some(m.Identifier()))
  }

  /** Everything reported for a class declaration. */
  function ClassReports(table: seq<ExpectedParameter>, ty: TypeDecl, registry: Option<seq<TaskMethod>>): seq<Diagnostic>
  {
    if registry.None? || |registry.value| == 0 then [Diagnostic(MetadataMissing, NoLocation, [])]
    else
      var t := TaskOfClass(ty, registry.value);
      if t.None? then []
      else
        var m := ActionMethod(ty, t.value);
        if m.None? then []
        else
          var at := At(m.value.syntax.value.identifierLocation);
          MissingWritten(table, m.value.parameters, at)
          + WrittenParametersReports(table, m.value.parameters, at, |m.value.parameters|)
  }

  // ---------------------------------------------------------------------------
  // Properties

  /** Without a registry, or with an empty one, each class gets one location-less `MetadataMissing` and nothing else. */
  lemma NoRegistryMetadataMissing(table: seq<ExpectedParameter>, ty: TypeDecl, registry: Option<seq<TaskMethod>>)
    requires registry.None? || registry == Some([])
    ensures ClassReports(table, ty, registry) == [Diagnostic(MetadataMissing, NoLocation, [])]
  {
  }

  /** A class no task names as its system gets nothing. */
  lemma ClassWithoutTaskIsClean(table: seq<ExpectedParameter>, ty: TypeDecl, registry: seq<TaskMethod>)
    requires |registry| > 0 && forall t :: t in registry ==> t.system != Some(ty.Identifier())
    ensures ClassReports(table, ty, Some(registry)) == []
  {
  }

  /** The first task naming the class decides: when no method declaration has its action, nothing is reported. */
  lemma ClassWithoutActionIsClean(table: seq<ExpectedParameter>, ty: TypeDecl, registry: seq<TaskMethod>, k: nat)
    requires k < |registry| && registry[k].system == Some(ty.Identifier())
    requires forall i :: 0 <= i < k ==> registry[i].system != Some(ty.Identifier())
    requires forall m :: m in DeclaredMethods(ty) ==> registry[k].action != Some(m.Identifier())
    ensures ClassReports(table, ty, Some(registry)) == []
  {
    FirstOrDefaultIsFirst(registry, (t: TaskMethod) => t.system == Some(ty.Identifier()), k);
  }

  /** A class declared `@Name` is not the class of a task whose system is `Name`: it gets nothing. */
  lemma VerbatimClassIsNotMatched(table: seq<ExpectedParameter>, ty: TypeDecl, registry: seq<TaskMethod>)
    requires |registry| > 0 && ty.verbatim
    requires forall t :: t in registry ==> t.system.None? || t.system == Some(ty.name)
    ensures ClassReports(table, ty, Some(registry)) == []
  {
    ClassWithoutTaskIsClean(table, ty, registry);
  }

  /**
   * The name check compares the identifier as written: a parameter `Input @input` is reported
   * for its name, although its symbol name is the expected `input`.
   */
  lemma VerbatimParameterNameReported(p: Parameter, at: Location, firstBreak: bool)
    requires TypeText(p) == Some("Input") && p.name == "input" && p.verbatim
    ensures Diagnostic(ParameterName, At(p.identifierLocation), ["input"])
      in WrittenParameterReports(LegacyExpectedParameters, p, at, firstBreak)
  {
  }

  /** A parameter without a written type is reported for nothing and takes no part in the scan. */
  lemma UntypedParameterSkipped(table: seq<ExpectedParameter>, p: Parameter, at: Location, firstBreak: bool)
    requires p.typeSyntax.None?
    ensures WrittenParameterReports(table, p, at, firstBreak) == []
    ensures WrittenKey(table, p).None?
  {
  }

  /** A parameter written with an unknown type is reported as unknown, once, and for nothing else. */
  lemma UnknownWrittenTypeOnlyUnknown(table: seq<ExpectedParameter>, p: Parameter, t: string, at: Location,
                                      firstBreak: bool)
    requires TypeText(p) == Some(t) && forall e :: e in table ==> e.typeName != t
    ensures WrittenParameterReports(table, p, at, firstBreak) == [Diagnostic(ParameterUnknown, At(p.identifierLocation), [t])]
    ensures WrittenKey(table, p).None?
  {
    MatchAtPosition(table, t);
  }

  lemma WrittenOrderReportOfParameter(table: seq<ExpectedParameter>, p: Parameter, at: Location, firstBreak: bool)
    requires firstBreak ==> WrittenKey(table, p).Some?
    ensures CountRule(WrittenParameterReports(table, p, at, firstBreak), ParametersOrder) == if firstBreak then 1 else 0
  {
    if TypeText(p).Some? {
      var t := TypeText(p).value;
      MatchAtPosition(table, t);
      match FirstOrDefault(table, (ep: ExpectedParameter) => ep.typeName == t)
        case None =>
        case Some(ep) =>
          var order := Diagnostic(ParametersOrder, at, []);
          var orderReport := if firstBreak then [order] else [];
          var nameReport := if p.Identifier() != ep.name then [Diagnostic(ParameterName, At(p.identifierLocation), [ep.name])] else [];
          var tabReport := if ep.isProperty && !HasPropertyTab(p)
            then [Diagnostic(ParameterPropertyTabAttribute, At(p.identifierLocation), [])] else [];
          assert WrittenParameterReports(table, p, at, firstBreak) == nameReport + tabReport + orderReport;
          CountRuleConcat(nameReport + tabReport, orderReport, ParametersOrder);
          CountRuleConcat(nameReport, tabReport, ParametersOrder);
          if nameReport != [] {
            CountRuleSingle(nameReport[0], ParametersOrder);
          }
          if tabReport != [] {
            CountRuleSingle(tabReport[0], ParametersOrder);
          }
          CountRuleSingle(order, ParametersOrder);
    }
  }

  /** At most one `ParametersOrder` per method, exactly when the written types break the table order. */
  lemma {:induction false} WrittenOrderReportedOnce(table: seq<ExpectedParameter>, parameters: seq<Parameter>,
                                                    at: Location, n: nat)
    requires n <= |parameters|
    ensures CountRule(WrittenParametersReports(table, parameters, at, n), ParametersOrder) ==
      if InOrderUpTo(WrittenKeys(table, parameters), n) then 0 else 1
  {
    if n > 0 {
      var keys := WrittenKeys(table, parameters);
      WrittenOrderReportedOnce(table, parameters, at, n - 1);
      InOrderStep(keys, n - 1);
      WrittenOrderReportOfParameter(table, parameters[n - 1], at, IsFirstBreak(keys, n - 1));
      CountRuleConcat(WrittenParametersReports(table, parameters, at, n - 1),
                      WrittenParameterReports(table, parameters[n - 1], at, IsFirstBreak(keys, n - 1)),
                      ParametersOrder);
    }
  }

  // ---------------------------------------------------------------------------
  // The callback

  /** `AnalyzeParameters` of the older analyzer, over its own table. */
  method AnalyzeClassDeclaration(ty: TypeDecl, registry: Option<seq<TaskMethod>>) returns (diags: seq<Diagnostic>)
    ensures diags == ClassReports(LegacyExpectedParameters, ty, registry)
  {
    LegacyTableFacts();
    diags := AnalyzeClass(LegacyExpectedParameters, ty, registry);
  }

  method AnalyzeClass(table: seq<ExpectedParameter>, ty: TypeDecl, registry: Option<seq<TaskMethod>>)
    returns (diags: seq<Diagnostic>)
    requires Distinct(Types(table))
    ensures diags == ClassReports(table, ty, registry)
  {
    if registry.None? || |registry.value| == 0 {
      return [Diagnostic(MetadataMissing, NoLocation, [])];
    }
    diags := [];
    var t := TaskOfClass(ty, registry.value);
    if t.None? {
      return;
    }
    var m := ActionMethod(ty, t.value);
    if m.None? {
      return;
    }
    var parameters := m.value.parameters;
    var at := At(m.value.syntax.value.identifierLocation);
    var missing := ReportMissingWritten(table, parameters, at);
    var reports := ReportWrittenParameters(table, parameters, at);
    diags := missing + reports;
  }

  method ReportMissingWritten(table: seq<ExpectedParameter>, parameters: seq<Parameter>, at: Location)
    returns (diags: seq<Diagnostic>)
    ensures diags == MissingWritten(table, parameters, at)
  {
    diags := [];
    for i := 0 to |table|
      invariant diags + MissingWritten(table[i..], parameters, at) == MissingWritten(table, parameters, at)
    {
      assert table[i..][1..] == table[i + 1..];
      var ep := table[i];
      var missing := [];
      if ep.required && !HasParameterWritten(parameters, ep.typeName) {
        missing := [Diagnostic(RequiredParameter, at, [ep.typeName])];
      }
      AppendStep(diags, missing, MissingWritten(table[i + 1..], parameters, at));
      diags := diags + missing;
    }
  }

  /** The parameter loop, with the same `orderIndex`/`orderHandled` scan as the current analyzer. */
  method ReportWrittenParameters(table: seq<ExpectedParameter>, parameters: seq<Parameter>, at: Location)
    returns (diags: seq<Diagnostic>)
    requires Distinct(Types(table))
    ensures diags == WrittenParametersReports(table, parameters, at, |parameters|)
  {
    ghost var keys := WrittenKeys(table, parameters);
    var orderIndex := 0;
    var orderHandled := false;
    diags := [];
    for i := 0 to |parameters|
      invariant diags == WrittenParametersReports(table, parameters, at, i)
      invariant !orderHandled ==> InOrderUpTo(keys, i) && orderIndex == Bound(keys, i)
      invariant orderHandled ==> !InOrderUpTo(keys, i)
    {
      var reports;
      reports, orderIndex, orderHandled := CheckWrittenParameter(table, parameters[i], at, orderIndex, orderHandled, keys, i);
      diags := diags + reports;
    }
  }

  method CheckWrittenParameter(table: seq<ExpectedParameter>, p: Parameter, at: Location,
                               orderIndex: nat, orderHandled: bool, ghost keys: seq<Option<nat>>, ghost i: nat)
    returns (reports: seq<Diagnostic>, orderIndex': nat, orderHandled': bool)
    requires Distinct(Types(table))
    requires i < |keys| && keys[i] == WrittenKey(table, p)
    requires !orderHandled ==> InOrderUpTo(keys, i) && orderIndex == Bound(keys, i)
    requires orderHandled ==> !InOrderUpTo(keys, i)
    ensures reports == WrittenParameterReports(table, p, at, IsFirstBreak(keys, i))
    ensures !orderHandled' ==> InOrderUpTo(keys, i + 1) && orderIndex' == Bound(keys, i + 1)
    ensures orderHandled' ==> !InOrderUpTo(keys, i + 1)
  {
    InOrderStep(keys, i);
    reports, orderIndex', orderHandled' := [], orderIndex, orderHandled;
    if keys[i].None? {
      assert !Breaks(keys, i);
    }
    var parameterType := TypeText(p);
    if parameterType.None? {
      return;
    }
    MatchAtPosition(table, parameterType.value);
    var matched := FirstOrDefault(table, (ep: ExpectedParameter) => ep.typeName == parameterType.value);
    if matched.None? {
      reports := [Diagnostic(ParameterUnknown, At(p.identifierLocation), [parameterType.value])];
      return;
    }
    var ep := matched.value;
    var checks := [];
    if p.Identifier() != ep.name {
      checks := checks + [Diagnostic(ParameterName, At(p.identifierLocation), [ep.name])];
    }
    if ep.isProperty && !HasPropertyTab(p) {
      checks := checks + [Diagnostic(ParameterPropertyTabAttribute, At(p.identifierLocation), [])];
    }
    assert checks == EntryChecks(p, ep);
    var breaks;
    breaks, orderIndex', orderHandled' := ScanOrder(table, parameterType.value, orderIndex, orderHandled, keys, i);
    var order := [];
    if breaks {
      order := [Diagnostic(ParametersOrder, at, [])];
    }
    reports := checks + order;
  }
}
