/**
 * The oldest analyzer, `TaskMethodAnalyzer`: on each class declaration named after a
 * task's system it checks the action method for overloads, the required parameters,
 * each parameter's written type and name, deprecated types and the `PropertyTab`
 * attribute. It has no ordering check. As in `LegacyParametersAnalyzer`, names are
 * compared as written and the `TypeDecl` is one class declaration node.
 */
module TaskMethodAnalyzer {
  import opened Wrappers
  import opened Diagnostics
  import opened Symbols
  import opened TaskMethods
  import opened Linq
  import opened LegacyParametersAnalyzer

  /** An entry of this analyzer's table. */
  datatype TaskParameter = TaskParameter(typeName: string, name: string, required: bool)

  const TaskParameters: seq<TaskParameter> := [
    TaskParameter("Input", "input", true),
    TaskParameter("Connection", "connection", false),
    TaskParameter("Options", "options", false),
    TaskParameter("CancellationToken", "cancellationToken", true)
  ]

  const DeprecatedParameterTypes: seq<string> := ["Source", "Destination"]

  /** `Where` on the registry the options give throws when they give none. */
  datatype Crash = NullRegistry

  /** Some parameter is written with the entry's type or carries its name. */
  predicate Satisfies(parameters: seq<Parameter>, e: TaskParameter)
  {
    exists p :: p in parameters && (TypeText(p) == Some(e.typeName) || p.Identifier() == e.name)
  }

  /** `TaskMethodRequiredParameter(type)` at the method for each required entry no parameter satisfies. */
  function RequiredReports(table: seq<TaskParameter>, parameters: seq<Parameter>, at: Location): seq<Diagnostic>
  {
    if table == [] then [] else RequiredReport(table[0], parameters, at) + RequiredReports(table[1..], parameters, at)
  }

  function RequiredReport(e: TaskParameter, parameters: seq<Parameter>, at: Location): seq<Diagnostic>
  {
    if e.required && !Satisfies(parameters, e) then [Diagnostic(TaskMethodRequiredParameter, at, [e.typeName])] else []
  }

  /** The entry for a parameter: the first with its type or its name. */
  function EntryFor(table: seq<TaskParameter>, t: string, name: string): Option<TaskParameter>
  {
    FirstOrDefault(table, (e: TaskParameter) => t == e.typeName || name == e.name)
  }

  /** What one parameter is reported for; a parameter without a written type is skipped. */
  function ParameterReports(table: seq<TaskParameter>, p: Parameter): seq<Diagnostic>
  {
    if p.typeSyntax.None? then []
    else
      var t := p.typeSyntax.value.text;
      var typeAt := At(p.typeSyntax.value.location);
      var nameAt := At(p.identifierLocation);
      var e := EntryFor(table, t, p.Identifier());
      (if e.Some? then
         (if t != e.value.typeName then [Diagnostic(TaskMethodParameterType, typeAt, [e.value.typeName])] else [])
         + (if p.Identifier() != e.value.name then [Diagnostic(TaskMethodParameterName, nameAt, [e.value.name])] else [])
       else if t in DeprecatedParameterTypes then [Diagnostic(TaskMethodDeprecatedParameter, typeAt, [t])]
       else [Diagnostic(TaskMethodUnrecognizedParameter, typeAt, [t])])
      + (if t == "CancellationToken" || HasPropertyTab(p) then []
         else [Diagnostic(TaskMethodPropertyTabAttribute, nameAt, [])])
  }

  function ParametersReports(table: seq<TaskParameter>, parameters: seq<Parameter>): seq<Diagnostic>
  {
    if parameters == []
    then []
    else
      ParametersReports(table, parameters[..|parameters| - 1])
      + ParameterReports(table, parameters[|parameters| - 1])
  }

  /** The identifier location of a method declaration. */
  function IdentifierAt(m: Method): Location
    requires m.syntax.Some? && m.syntax.value.MethodDeclaration?
  {
    At(m.syntax.value.identifierLocation)
  }

  /** `TaskMethodOverloaded` at each method of the action's name. */
  function OverloadReports(ms: seq<Method>): (r: seq<Diagnostic>)
    requires forall m :: m in ms ==> m.syntax.Some? && m.syntax.value.MethodDeclaration?
    ensures |r| == |ms|
    ensures forall i :: 0 <= i < |ms| ==> r[i] == Diagnostic(TaskMethodOverloaded, IdentifierAt(ms[i]), [])
  {
    if ms == [] then [] else [Diagnostic(TaskMethodOverloaded, IdentifierAt(ms[0]), [])] + OverloadReports(ms[1..])
  }

  /** The action of the first task whose system is the class name. */
  function TaskAction(ty: TypeDecl, registry: seq<TaskMethod>): Option<string>
  {
    var t := FirstOrDefault(Where(registry, (t: TaskMethod) => t.system == Some(ty.Identifier())), (t: TaskMethod) => true);
    if t.None? then None else t.value.action
  }

  /** The method declarations named after the action. */
  function ActionMethods(ty: TypeDecl, action: string): (ms: seq<Method>)
    ensures forall m :: m in ms ==> m.syntax.Some? && m.syntax.value.MethodDeclaration?
  {
    Where(DeclaredMethods(ty), (m: Method) => m.Identifier() == action)
  }

  /** Everything `AnalyzeSyntax` reports for a class declaration. */
  function ClassReports(table: seq<TaskParameter>, ty: TypeDecl, registry: Option<seq<TaskMethod>>)
    : Result<seq<Diagnostic>, Crash>
  {
    if registry.None? then Failure(NullRegistry)
    else
      var action := TaskAction(ty, registry.value);
      if action.None? then Success([])
      else
        var ms := ActionMethods(ty, action.value);
        if |ms| == 0 then Success([])
        else if |ms| > 1 then Success(OverloadReports(ms))
        else
          Success(RequiredReports(table, ms[0].parameters, IdentifierAt(ms[0]))
                  + ParametersReports(table, ms[0].parameters))
  }

  // ---------------------------------------------------------------------------
  // Properties

  /** Without a registry the callback throws. */
  lemma NullRegistryCrashes(table: seq<TaskParameter>, ty: TypeDecl)
    ensures ClassReports(table, ty, None) == Failure(NullRegistry)
  {
  }

  /** A task without an action, or a class without the action method, gets nothing. */
  lemma NoActionMethodIsClean(table: seq<TaskParameter>, ty: TypeDecl, registry: seq<TaskMethod>)
    requires TaskAction(ty, registry).None? || |ActionMethods(ty, TaskAction(ty, registry).value)| == 0
    ensures ClassReports(table, ty, Some(registry)) == Success([])
  {
  }

  /** Overloads: every method of the action's name is reported as overloaded, and nothing else is checked. */
  lemma OverloadsAllReported(table: seq<TaskParameter>, ty: TypeDecl, registry: seq<TaskMethod>)
    requires TaskAction(ty, registry).Some?
    requires |ActionMethods(ty, TaskAction(ty, registry).value)| > 1
    ensures var ms := ActionMethods(ty, TaskAction(ty, registry).value);
      var r := ClassReports(table, ty, Some(registry));
      r.Success? && |r.value| == |ms|
      && forall i :: 0 <= i < |ms| ==> r.value[i] == Diagnostic(TaskMethodOverloaded, IdentifierAt(ms[i]), [])
  {
  }

  /** A class declared `@Name` is not the class of a task whose system is `Name`: it gets nothing. */
  lemma VerbatimClassIsNotMatched(table: seq<TaskParameter>, ty: TypeDecl, registry: seq<TaskMethod>)
    requires ty.verbatim
    requires forall t :: t in registry ==> t.system.None? || t.system == Some(ty.name)
    ensures ClassReports(table, ty, Some(registry)) == Success([])
  {
  }

  /**
   * The name check compares the identifier as written: a parameter `Input @input` is reported
   * for its name, although its symbol name is the expected `input`.
   */
  lemma VerbatimParameterNameReported(p: Parameter)
    requires p.typeSyntax.Some? && p.typeSyntax.value.text == "Input" && p.name == "input" && p.verbatim
    ensures Diagnostic(TaskMethodParameterName, At(p.identifierLocation), ["input"]) in ParameterReports(TaskParameters, p)
  {
  }

  /** A required entry is reported exactly when no parameter is written with its type or carries its name. */
  lemma {:induction false} RequiredReportsSpec(table: seq<TaskParameter>, parameters: seq<Parameter>, at: Location)
    ensures forall d :: d in RequiredReports(table, parameters, at) <==>
      exists e :: e in table && e.required && !Satisfies(parameters, e)
        && d == Diagnostic(TaskMethodRequiredParameter, at, [e.typeName])
  {
    if table != [] {
      RequiredReportsSpec(table[1..], parameters, at);
      forall e | e in table
        ensures e == table[0] || e in table[1..]
      {
      }
    }
  }

  /** In this table `Input` and `CancellationToken` are the required entries. */
  lemma TaskTableRequired()
    ensures forall e :: e in TaskParameters ==> (e.required <==> e.typeName == "Input" || e.typeName == "CancellationToken")
  {
  }

  /**
   * A parameter matched to an entry is reported for a different type and for a different
   * name (one of the two always agrees), then for a missing `PropertyTab` unless written
   * `CancellationToken`.
   */
  lemma MatchedParameterReports(table: seq<TaskParameter>, p: Parameter)
    requires p.typeSyntax.Some? && EntryFor(table, p.typeSyntax.value.text, p.Identifier()).Some?
    ensures var t := p.typeSyntax.value.text;
      var e := EntryFor(table, t, p.Identifier()).value;
      (t == e.typeName || p.Identifier() == e.name)
      && ParameterReports(table, p) ==
        (if t != e.typeName then [Diagnostic(TaskMethodParameterType, At(p.typeSyntax.value.location), [e.typeName])] else [])
        + (if p.Identifier() != e.name then [Diagnostic(TaskMethodParameterName, At(p.identifierLocation), [e.name])] else [])
        + (if t == "CancellationToken" || HasPropertyTab(p) then [] else [Diagnostic(TaskMethodPropertyTabAttribute, At(p.identifierLocation), [])])
  {
  }

  /**
   * A parameter matching no entry by type or name is reported deprecated when written
   * `Source` or `Destination`, unrecognised otherwise.
   */
  lemma UnmatchedParameterReports(table: seq<TaskParameter>, p: Parameter)
    requires p.typeSyntax.Some?
    requires forall e :: e in table ==> p.typeSyntax.value.text != e.typeName && p.Identifier() != e.name
    ensures var t := p.typeSyntax.value.text;
      var rule := if t == "Source" || t == "Destination" then TaskMethodDeprecatedParameter else TaskMethodUnrecognizedParameter;
      ParameterReports(table, p)[0] == Diagnostic(rule, At(p.typeSyntax.value.location), [t])
  {
  }

  /** Every written parameter but a `CancellationToken` needs `PropertyTab`, unrecognised ones included. */
  lemma PropertyTabRequiredIff(table: seq<TaskParameter>, p: Parameter)
    requires p.typeSyntax.Some?
    ensures Diagnostic(TaskMethodPropertyTabAttribute, At(p.identifierLocation), []) in ParameterReports(table, p)
      <==> p.typeSyntax.value.text != "CancellationToken" && !HasPropertyTab(p)
  {
  }

  // ---------------------------------------------------------------------------
  // The callback

  method AnalyzeSyntax(ty: TypeDecl, registry: Option<seq<TaskMethod>>) returns (r: Result<seq<Diagnostic>, Crash>)
    ensures r == ClassReports(TaskParameters, ty, registry)
  {
    r := AnalyzeClass(TaskParameters, ty, registry);
  }

  method AnalyzeClass(table: seq<TaskParameter>, ty: TypeDecl, registry: Option<seq<TaskMethod>>)
    returns (r: Result<seq<Diagnostic>, Crash>)
    ensures r == ClassReports(table, ty, registry)
  {
    if registry.None? {
      return Failure(NullRegistry);
    }
    var action := TaskAction(ty, registry.value);
    if action.None? {
      return Success([]);
    }
    var ms := ActionMethods(ty, action.value);
    if |ms| == 0 {
      return Success([]);
    }
    if |ms| > 1 {
      var diags := ReportOverloads(ms);
      return Success(diags);
    }
    var m := ms[0];
    var at := IdentifierAt(m);
    var required := ReportRequired(table, m.parameters, at);
    var reports := ReportParameters(table, m.parameters);
    r := Success(required + reports);
  }

  /** The overload loop. */
  method ReportOverloads(ms: seq<Method>) returns (diags: seq<Diagnostic>)
    requires forall m :: m in ms ==> m.syntax.Some? && m.syntax.value.MethodDeclaration?
    ensures diags == OverloadReports(ms)
  {
    diags := [];
    for i := 0 to |ms|
      invariant diags == OverloadReports(ms[..i])
    {
      OverloadReportsSnoc(ms, i);
      diags := diags + [Diagnostic(TaskMethodOverloaded, IdentifierAt(ms[i]), [])];
    }
    assert ms[..|ms|] == ms;
  }

  lemma OverloadReportsSnoc(ms: seq<Method>, i: nat)
    requires i < |ms| && forall m :: m in ms ==> m.syntax.Some? && m.syntax.value.MethodDeclaration?
    ensures OverloadReports(ms[..i + 1]) == OverloadReports(ms[..i]) + [Diagnostic(TaskMethodOverloaded, IdentifierAt(ms[i]), [])]
  {
  }

  lemma RequiredReportsStep(table: seq<TaskParameter>, parameters: seq<Parameter>, at: Location, i: nat)
    requires i < |table|
    ensures RequiredReports(table[i..], parameters, at) ==
      RequiredReport(table[i], parameters, at) + RequiredReports(table[i + 1..], parameters, at)
  {
    assert table[i..][1..] == table[i + 1..];
  }

  method ReportRequired(table: seq<TaskParameter>, parameters: seq<Parameter>, at: Location)
    returns (diags: seq<Diagnostic>)
    ensures diags == RequiredReports(table, parameters, at)
  {
    diags := [];
    for i := 0 to |table|
      invariant diags + RequiredReports(table[i..], parameters, at) == RequiredReports(table, parameters, at)
    {
      RequiredReportsStep(table, parameters, at, i);
      var missing := [];
      if table[i].required && !Satisfies(parameters, table[i]) {
        missing := [Diagnostic(TaskMethodRequiredParameter, at, [table[i].typeName])];
      }
      assert missing == RequiredReport(table[i], parameters, at);
      AppendStep(diags, missing, RequiredReports(table[i + 1..], parameters, at));
      diags := diags + missing;
    }
  }

  method ReportParameters(table: seq<TaskParameter>, parameters: seq<Parameter>) returns (diags: seq<Diagnostic>)
    ensures diags == ParametersReports(table, parameters)
  {
    diags := [];
    for i := 0 to |parameters|
      invariant diags == ParametersReports(table, parameters[..i])
    {
      assert parameters[..i + 1][..i] == parameters[..i];
      var reports := CheckParameter(table, parameters[i]);
      diags := diags + reports;
    }
    assert parameters[..|parameters|] == parameters;
  }

  /** One round of the parameter loop, reassigning and reporting its `diagnostic` local. */
  method CheckParameter(table: seq<TaskParameter>, p: Parameter) returns (reports: seq<Diagnostic>)
    ensures reports == ParameterReports(table, p)
  {
    reports := [];
    if p.typeSyntax.None? {
      return;
    }
    var t := p.typeSyntax.value.text;
    var name := p.Identifier();
    var expected := EntryFor(table, t, name);
    if expected.Some? {
      if t != expected.value.typeName {
        reports := reports + [Diagnostic(TaskMethodParameterType, At(p.typeSyntax.value.location), [expected.value.typeName])];
      }
      if name != expected.value.name {
        reports := reports + [Diagnostic(TaskMethodParameterName, At(p.identifierLocation), [expected.value.name])];
      }
    } else if t in DeprecatedParameterTypes {
      reports := reports + [Diagnostic(TaskMethodDeprecatedParameter, At(p.typeSyntax.value.location), [t])];
    } else {
      reports := reports + [Diagnostic(TaskMethodUnrecognizedParameter, At(p.typeSyntax.value.location), [t])];
    }
    if t == "CancellationToken" || HasPropertyTab(p) {
      return;
    }
    reports := reports + [Diagnostic(TaskMethodPropertyTabAttribute, At(p.identifierLocation), [])];
  }
}
