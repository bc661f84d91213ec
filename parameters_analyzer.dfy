/**
 * The parameter contract of a task method: the required parameter types, canonical
 * names, the `PropertyTab` attribute on property parameters and the order of the
 * parameters, as the current `ParametersAnalyzer` checks them for each method
 * declaration.
 */
module ParametersAnalyzer {
  import opened Wrappers
  import opened Diagnostics
  import opened Symbols
  import opened TaskMethods
  import opened Linq
  import opened ParameterOrder

  /** An entry of the expected-parameter table. */
  datatype ExpectedParameter = ExpectedParameter(typeName: string, name: string, required: bool, isProperty: bool)

  /** The table, in the required order. */
  const ExpectedParameters: seq<ExpectedParameter> := [
    ExpectedParameter("Input", "input", true, true),
    ExpectedParameter("Connection", "connection", false, true),
    ExpectedParameter("Options", "options", true, true),
    ExpectedParameter("CancellationToken", "cancellationToken", true, false)
  ]

  /** The type names of a table, in order. */
  function Types(table: seq<ExpectedParameter>): (types: seq<string>)
    ensures |types| == |table|
    ensures forall i :: 0 <= i < |table| ==> types[i] == table[i].typeName
  {
    if table == [] then [] else [table[0].typeName] + Types(table[1..])
  }

  /**
   * The table lists each type once; `Input`, `Options` and `CancellationToken` are
   * required, and every entry but `CancellationToken` is a property.
   */
  lemma ExpectedTableFacts()
    ensures Distinct(Types(ExpectedParameters))
    ensures forall e :: e in ExpectedParameters ==>
      (e.required <==> e.typeName == "Input" || e.typeName == "Options" || e.typeName == "CancellationToken")
    ensures forall e :: e in ExpectedParameters ==> (e.isProperty <==> e.typeName != "CancellationToken")
  {
  }

  /** `FirstOrDefault(ep => ep.Type == t)`: the entry found is the one at the type's position. */
  lemma {:induction false} MatchAtPosition(table: seq<ExpectedParameter>, t: string)
    ensures var pos := Position(Types(table), t);
      FirstOrDefault(table, (ep: ExpectedParameter) => ep.typeName == t) ==
        if pos.Some? then Some(table[pos.value]) else None
  {
    var p := (ep: ExpectedParameter) => ep.typeName == t;
    var pos := Position(Types(table), t);
    if pos.Some? {
      FirstOrDefaultIsFirst(table, p, pos.value);
    }
  }

  /** The table entry for a parameter's type name, if any. */
  function Match(table: seq<ExpectedParameter>, p: Parameter): Option<ExpectedParameter>
  {
    FirstOrDefault(table, (ep: ExpectedParameter) => ep.typeName == p.typeRef.name)
  }

  /** Some parameter has the type name. */
  predicate HasParameterOfType(parameters: seq<Parameter>, t: string)
  {
    exists p :: p in parameters && p.typeRef.name == t
  }

  /**
   * `Where(p => p.Required).Except(found)`: one `RequiredParameter(type)` at the method for
   * each required entry that no parameter has, in table order.
   */
  function MissingReports(table: seq<ExpectedParameter>, parameters: seq<Parameter>, at: Location): seq<Diagnostic>
  {
    if table == [] then []
    else
      (if table[0].required && !HasParameterOfType(parameters, table[0].typeName)
       then [Diagnostic(RequiredParameter, at, [table[0].typeName])] else [])
      + MissingReports(table[1..], parameters, at)
  }

  /** The missing-parameter reports are exactly those for required types no parameter has. */
  lemma {:induction false} MissingReportsSpec(table: seq<ExpectedParameter>, parameters: seq<Parameter>, at: Location)
    ensures forall d :: d in MissingReports(table, parameters, at) <==>
      exists e :: e in table && e.required && !HasParameterOfType(parameters, e.typeName)
        && d == Diagnostic(RequiredParameter, at, [e.typeName])
  {
    if table != [] {
      MissingReportsSpec(table[1..], parameters, at);
      forall e | e in table
        ensures e == table[0] || e in table[1..]
      {
      }
    }
  }

  /** For a table of distinct types, a required type gets exactly one report when missing, none otherwise. */
  lemma {:induction false} MissingReportedOnce(table: seq<ExpectedParameter>, parameters: seq<Parameter>,
                                               at: Location, t: string)
    requires Distinct(Types(table))
    ensures CountRule(MissingReports(table, parameters, at), RequiredParameter) <= |table|
    ensures |Where(MissingReports(table, parameters, at), (d: Diagnostic) => d.args == [t])| ==
      if (exists e :: e in table && e.required && e.typeName == t) && !HasParameterOfType(parameters, t) then 1 else 0
  {
    if table != [] {
      assert Distinct(Types(table[1..])) by {
        assert forall i :: 0 <= i < |table| - 1 ==> Types(table[1..])[i] == Types(table)[i + 1];
      }
      MissingReportedOnce(table[1..], parameters, at, t);
      var p := (d: Diagnostic) => d.args == [t];
      var head := if table[0].required && !HasParameterOfType(parameters, table[0].typeName)
                  then [Diagnostic(RequiredParameter, at, [table[0].typeName])] else [];
      WhereConcat(head, MissingReports(table[1..], parameters, at), p);
      CountRuleConcat(head, MissingReports(table[1..], parameters, at), RequiredParameter);
      if table[0].typeName == t {
        forall e | e in table[1..] ensures e.typeName != t {
          var k :| 0 <= k < |table[1..]| && table[1..][k] == e;
          assert Types(table)[0] != Types(table)[k + 1];
        }
      } else {
        if exists e :: e in table && e.required && e.typeName == t {
          var e :| e in table && e.required && e.typeName == t;
          assert e in table[1..];
        }
      }
    }
  }

  /**
   * The key of a parameter in the ordering scan: the table index of its entry, or `None`
   * when it takes no part (an unknown type, or a property parameter while the
   * `PropertyTabAttribute` type cannot be resolved, which skips the rest of its checks).
   */
  function Key(table: seq<ExpectedParameter>, p: Parameter, tab: Option<SymbolId>): Option<nat>
  {
    match Position(Types(table), p.typeRef.name)
      case None => None
      case Some(k) => if table[k].isProperty && tab.None? then None else Some(k)
  }

  function Keys(table: seq<ExpectedParameter>, parameters: seq<Parameter>, tab: Option<SymbolId>): (keys: seq<Option<nat>>)
    ensures |keys| == |parameters|
    ensures forall i :: 0 <= i < |parameters| ==> keys[i] == Key(table, parameters[i], tab)
  {
    if parameters == [] then [] else [Key(table, parameters[0], tab)] + Keys(table, parameters[1..], tab)
  }

  /**
   * What one parameter is reported for: an unknown type and nothing else; otherwise a
   * wrong name, then (unless a property parameter meets an unresolved attribute type) a
   * missing `PropertyTab` attribute and the order diagnostic when this parameter is the
   * first to break the order.
   */
  function ParameterReports(table: seq<ExpectedParameter>, p: Parameter, tab: Option<SymbolId>, at: Location,
                            firstBreak: bool): seq<Diagnostic>
  {
    match Match(table, p)
      case None => [Diagnostic(ParameterUnknown, FirstLocation(p.locations), [p.typeRef.name])]
      case Some(ep) =>
        (if p.name != ep.name then [Diagnostic(ParameterName, FirstLocation(p.locations), [ep.name])] else [])
        + (if ep.isProperty && tab.None? then []
           else
             (if ep.isProperty && Some(tab.value) !in p.attributeClasses
              then [Diagnostic(ParameterPropertyTabAttribute, FirstLocation(p.locations), [])] else [])
             + (if firstBreak then [Diagnostic(ParametersOrder, at, [])] else []))
  }

  /** The reports of the first `n` parameters, in order. */
  function ParametersReports(table: seq<ExpectedParameter>, parameters: seq<Parameter>, tab: Option<SymbolId>,
                             at: Location, n: nat): seq<Diagnostic>
    requires n <= |parameters|
  {
    if n == 0 then
      []
    else
      ParametersReports(table, parameters, tab, at, n - 1)
      + ParameterReports(table, parameters[n - 1], tab, at, IsFirstBreak(Keys(table, parameters, tab), n - 1))
  }

  /** A method is checked when its reference string is a registered path. */
  predicate IsTaskMethod(m: Method, registry: seq<TaskMethod>)
  {
    exists t :: t in registry && t.path == m.referenceString
  }

  /** Everything reported for a method declaration. */
  function Expected(table: seq<ExpectedParameter>, m: Method, registry: seq<TaskMethod>, compilation: Compilation)
    : seq<Diagnostic>
  {
    if !IsTaskMethod(m, registry) then []
    else
      MissingReports(table, m.parameters, FirstLocation(m.locations))
      + ParametersReports(table, m.parameters, compilation.propertyTabAttribute, FirstLocation(m.locations),
                          |m.parameters|)
  }

  /** A parameter whose key takes part in the scan has a table entry and is not skipped. */
  lemma KeyedParameterIsMatched(table: seq<ExpectedParameter>, p: Parameter, tab: Option<SymbolId>)
    requires Key(table, p, tab).Some?
    ensures Match(table, p) == Some(table[Key(table, p, tab).value])
    ensures !(table[Key(table, p, tab).value].isProperty && tab.None?)
  {
    MatchAtPosition(table, p.typeRef.name);
  }

  /** One parameter's reports carry the order diagnostic exactly when it is the first break. */
  lemma OrderReportOfParameter(table: seq<ExpectedParameter>, p: Parameter, tab: Option<SymbolId>, at: Location,
                               firstBreak: bool)
    requires firstBreak ==> Key(table, p, tab).Some?
    ensures CountRule(ParameterReports(table, p, tab, at, firstBreak), ParametersOrder) == if firstBreak then 1 else 0
  {
    if firstBreak {
      KeyedParameterIsMatched(table, p, tab);
    }
    var r := ParameterReports(table, p, tab, at, firstBreak);
    var ds := [Diagnostic(ParametersOrder, at, [])];
    match Match(table, p)
      case None =>
      case Some(ep) =>
        var nameReport := if p.name != ep.name then [Diagnostic(ParameterName, FirstLocation(p.locations), [ep.name])] else [];
        if !(ep.isProperty && tab.None?) {
          var tabReport := if ep.isProperty && Some(tab.value) !in p.attributeClasses
            then [Diagnostic(ParameterPropertyTabAttribute, FirstLocation(p.locations), [])] else [];
          var orderReport := if firstBreak then ds else [];
          assert r == nameReport + (tabReport + orderReport);
          CountRuleConcat(nameReport, tabReport + orderReport, ParametersOrder);
          CountRuleConcat(tabReport, orderReport, ParametersOrder);
          if nameReport != [] {
            CountRuleSingle(nameReport[0], ParametersOrder);
          }
          if tabReport != [] {
            CountRuleSingle(tabReport[0], ParametersOrder);
          }
          CountRuleSingle(ds[0], ParametersOrder);
        }
  }

  /**
   * At most one `ParametersOrder` per method: exactly one when some parameter breaks the
   * order of the table indices, none when they strictly increase.
   */
  lemma {:induction false} OrderReportedOnce(table: seq<ExpectedParameter>, parameters: seq<Parameter>,
                                             tab: Option<SymbolId>, at: Location, n: nat)
    requires n <= |parameters|
    ensures CountRule(ParametersReports(table, parameters, tab, at, n), ParametersOrder) ==
      if InOrderUpTo(Keys(table, parameters, tab), n) then 0 else 1
  {
    if n > 0 {
      var keys := Keys(table, parameters, tab);
      OrderReportedOnce(table, parameters, tab, at, n - 1);
      InOrderStep(keys, n - 1);
      OrderReportOfParameter(table, parameters[n - 1], tab, at, IsFirstBreak(keys, n - 1));
      CountRuleConcat(ParametersReports(table, parameters, tab, at, n - 1),
                      ParameterReports(table, parameters[n - 1], tab, at, IsFirstBreak(keys, n - 1)),
                      ParametersOrder);
    }
  }

  /** A parameter of an unknown type is reported as unknown and for nothing else, and takes no part in the scan. */
  lemma UnknownParameterOnlyUnknown(table: seq<ExpectedParameter>, p: Parameter, tab: Option<SymbolId>,
                                    at: Location, firstBreak: bool)
    requires forall e :: e in table ==> e.typeName != p.typeRef.name
    ensures ParameterReports(table, p, tab, at, firstBreak) ==
      [Diagnostic(ParameterUnknown, FirstLocation(p.locations), [p.typeRef.name])]
    ensures Key(table, p, tab).None?
  {
    MatchAtPosition(table, p.typeRef.name);
  }

  /**
   * When the `PropertyTabAttribute` type cannot be resolved, a property parameter is
   * checked for its name only: no attribute check, and it takes no part in the scan.
   */
  lemma UnresolvedTabSkipsPropertyParameter(table: seq<ExpectedParameter>, p: Parameter, at: Location,
                                            firstBreak: bool)
    requires Match(table, p).Some? && Match(table, p).value.isProperty
    ensures var ep := Match(table, p).value;
      ParameterReports(table, p, None, at, firstBreak) ==
        if p.name != ep.name then [Diagnostic(ParameterName, FirstLocation(p.locations), [ep.name])] else []
    ensures Key(table, p, None).None?
  {
    MatchAtPosition(table, p.typeRef.name);
  }

  /** In a table of distinct types, an entry's type is found at the entry's own index. */
  lemma PositionOfEntry(table: seq<ExpectedParameter>, k: nat)
    requires Distinct(Types(table)) && k < |table|
    ensures Position(Types(table), table[k].typeName) == Some(k)
  {
    IndexFromDistinct(Types(table), k, table[k].typeName);
    assert Types(table)[k] == table[k].typeName;
  }

  /** A parameter conforming to entry `k`: its type, its canonical name and, for a property, the attribute. */
  predicate Conforms(table: seq<ExpectedParameter>, p: Parameter, tab: SymbolId, k: nat)
  {
    k < |table| && p.typeRef.name == table[k].typeName && p.name == table[k].name
    && (table[k].isProperty ==> Some(tab) in p.attributeClasses)
  }

  /** A conforming parameter is keyed by its entry's index and, unless it breaks the order, reported for nothing. */
  lemma ConformingParameterIsClean(table: seq<ExpectedParameter>, p: Parameter, tab: SymbolId, at: Location, k: nat)
    requires Distinct(Types(table)) && Conforms(table, p, tab, k)
    ensures Key(table, p, Some(tab)) == Some(k)
    ensures ParameterReports(table, p, Some(tab), at, false) == []
  {
    PositionOfEntry(table, k);
    MatchAtPosition(table, p.typeRef.name);
  }

  /** Each parameter conforms to its own entry, and the entries are taken in strictly increasing order. */
  predicate ConformInOrder(table: seq<ExpectedParameter>, parameters: seq<Parameter>, tab: SymbolId, positions: seq<nat>)
  {
    |parameters| == |positions|
    && (forall i, j :: 0 <= i < j < |positions| ==> positions[i] < positions[j])
    && (forall i :: 0 <= i < |parameters| ==> Conforms(table, parameters[i], tab, positions[i]))
  }

  /**
   * Parameters that conform to table entries taken in strictly increasing order are
   * reported for nothing, and the scan finds no break.
   */
  lemma {:induction false} ConformingParametersAreClean(table: seq<ExpectedParameter>, parameters: seq<Parameter>,
                                                        tab: SymbolId, at: Location, positions: seq<nat>, n: nat)
    requires Distinct(Types(table))
    requires n <= |parameters| && ConformInOrder(table, parameters, tab, positions)
    ensures ParametersReports(table, parameters, Some(tab), at, n) == []
    ensures InOrderUpTo(Keys(table, parameters, Some(tab)), n)
  {
    if n > 0 {
      ConformingParametersAreClean(table, parameters, tab, at, positions, n - 1);
      var keys := Keys(table, parameters, Some(tab));
      forall i | 0 <= i < n
        ensures keys[i] == Some(positions[i])
      {
        ConformingParameterIsClean(table, parameters[i], tab, at, positions[i]);
      }
      InOrderStep(keys, n - 1);
      assert !Breaks(keys, n - 1);
      ConformingParameterIsClean(table, parameters[n - 1], tab, at, positions[n - 1]);
    }
  }

  /** With every required type covered, no required-parameter report is made. */
  lemma {:induction false} CoveredRequiredNotReported(table: seq<ExpectedParameter>, parameters: seq<Parameter>,
                                                      at: Location)
    requires forall e :: e in table && e.required ==> HasParameterOfType(parameters, e.typeName)
    ensures MissingReports(table, parameters, at) == []
  {
    if table != [] {
      assert table[0] in table;
      CoveredRequiredNotReported(table[1..], parameters, at);
    }
  }

  /**
   * A task method whose parameters conform to table entries in table order and cover
   * every required type is reported for nothing (with `Input`, `Options` and
   * `CancellationToken` in that order, the canonical signature).
   */
  lemma ConformingMethodIsClean(table: seq<ExpectedParameter>, m: Method, registry: seq<TaskMethod>,
                                compilation: Compilation, positions: seq<nat>)
    requires Distinct(Types(table)) && compilation.propertyTabAttribute.Some?
    requires ConformInOrder(table, m.parameters, compilation.propertyTabAttribute.value, positions)
    requires forall e :: e in table && e.required ==> HasParameterOfType(m.parameters, e.typeName)
    ensures Expected(table, m, registry, compilation) == []
  {
    var tab := compilation.propertyTabAttribute.value;
    var at := FirstLocation(m.locations);
    ConformingParametersAreClean(table, m.parameters, tab, at, positions, |m.parameters|);
    CoveredRequiredNotReported(table, m.parameters, at);
    assert MissingReports(table, m.parameters, at) + ParametersReports(table, m.parameters, Some(tab), at, |m.parameters|) == [];
  }

  /**
   * With an empty registry, which is what the analyzer's own `TaskMethods` always holds
   * since it never assigns it, no method is checked.
   */
  lemma EmptyRegistryReportsNothing(table: seq<ExpectedParameter>, m: Method, compilation: Compilation)
    ensures !IsTaskMethod(m, [])
    ensures Expected(table, m, [], compilation) == []
  {
  }

  /**
   * Once the method is registered, a task method without parameters is reported for each
   * required type, `Input`, `Options` and `CancellationToken` in table order, at the method.
   */
  lemma RegisteredBareMethodIsReported(m: Method, registry: seq<TaskMethod>, compilation: Compilation)
    requires IsTaskMethod(m, registry) && m.parameters == []
    ensures Expected(ExpectedParameters, m, registry, compilation) ==
      [Diagnostic(RequiredParameter, FirstLocation(m.locations), ["Input"]),
       Diagnostic(RequiredParameter, FirstLocation(m.locations), ["Options"]),
       Diagnostic(RequiredParameter, FirstLocation(m.locations), ["CancellationToken"])]
  {
    var at := FirstLocation(m.locations);
    var t := ExpectedParameters;
    assert t[1..][1..][1..][1..] == [];
    assert MissingReports(t[1..][1..][1..], [], at) == [Diagnostic(RequiredParameter, at, ["CancellationToken"])];
    assert MissingReports(t[1..][1..], [], at) == [Diagnostic(RequiredParameter, at, ["Options"]), Diagnostic(RequiredParameter, at, ["CancellationToken"])];
    assert MissingReports(t[1..], [], at) == MissingReports(t[1..][1..], [], at);
  }

  /** The analyzer's callback for a method declaration, over its own table. */
  method AnalyzeMethodDeclaration(m: Method, registry: seq<TaskMethod>, compilation: Compilation)
    returns (diags: seq<Diagnostic>)
    ensures diags == Expected(ExpectedParameters, m, registry, compilation)
  {
    ExpectedTableFacts();
    diags := AnalyzeParameters(ExpectedParameters, m, registry, compilation);
  }

  /**
   * `AnalyzeParameters`: the required-type loop, then the per-parameter loop with the
   * ordering scan, over a table of distinct types (`ExpectedParameters` in the analyzer).
   */
  method AnalyzeParameters(table: seq<ExpectedParameter>, m: Method, registry: seq<TaskMethod>,
                           compilation: Compilation)
    returns (diags: seq<Diagnostic>)
    requires Distinct(Types(table))
    ensures diags == Expected(table, m, registry, compilation)
  {
    diags := [];
    if !IsTaskMethod(m, registry) {
      return;
    }
    var parameters := m.parameters;
    var at := FirstLocation(m.locations);
    var missing := ReportMissingParameters(table, parameters, at);

    var reports := ReportParameters(table, parameters, compilation.propertyTabAttribute, at);
    diags := missing + reports;
  }

  /** The loop over the parameters, carrying the ordering scan's `orderIndex` and `orderHandled`. */
  method ReportParameters(table: seq<ExpectedParameter>, parameters: seq<Parameter>, tab: Option<SymbolId>,
                          at: Location)
    returns (diags: seq<Diagnostic>)
    requires Distinct(Types(table))
    ensures diags == ParametersReports(table, parameters, tab, at, |parameters|)
  {
    ghost var keys := Keys(table, parameters, tab);
    var orderIndex := 0;
    var orderHandled := false;
    diags := [];
    for i := 0 to |parameters|
      invariant diags == ParametersReports(table, parameters, tab, at, i)
      invariant !orderHandled ==> InOrderUpTo(keys, i) && orderIndex == Bound(keys, i)
      invariant orderHandled ==> !InOrderUpTo(keys, i)
    {
      var reports;
      reports, orderIndex, orderHandled :=
        CheckParameter(table, parameters[i], tab, at, orderIndex, orderHandled, keys, i);
      diags := diags + reports;
    }
  }

  /** The loop over the table: a report for each required type without a parameter. */
  method ReportMissingParameters(table: seq<ExpectedParameter>, parameters: seq<Parameter>, at: Location)
    returns (diags: seq<Diagnostic>)
    ensures diags == MissingReports(table, parameters, at)
  {
    diags := [];
    for i := 0 to |table|
      invariant diags + MissingReports(table[i..], parameters, at) == MissingReports(table, parameters, at)
    {
      assert table[i..][1..] == table[i + 1..];
      var ep := table[i];
      var missing := [];
      if ep.required && !HasParameterOfType(parameters, ep.typeName) {
        missing := [Diagnostic(RequiredParameter, at, [ep.typeName])];
      }
      AppendStep(diags, missing, MissingReports(table[i + 1..], parameters, at));
      diags := diags + missing;
    }
  }

  /**
   * One round of the parameter loop, with the scan state (`orderIndex`, `orderHandled`)
   * carried in and out; `keys` and `i` say where in the whole scan the round is.
   */
  method CheckParameter(table: seq<ExpectedParameter>, p: Parameter, tab: Option<SymbolId>, at: Location,
                        orderIndex: nat, orderHandled: bool, ghost keys: seq<Option<nat>>, ghost i: nat)
    returns (reports: seq<Diagnostic>, orderIndex': nat, orderHandled': bool)
    requires Distinct(Types(table))
    requires i < |keys| && keys[i] == Key(table, p, tab)
    requires !orderHandled ==> InOrderUpTo(keys, i) && orderIndex == Bound(keys, i)
    requires orderHandled ==> !InOrderUpTo(keys, i)
    ensures reports == ParameterReports(table, p, tab, at, IsFirstBreak(keys, i))
    ensures !orderHandled' ==> InOrderUpTo(keys, i + 1) && orderIndex' == Bound(keys, i + 1)
    ensures orderHandled' ==> !InOrderUpTo(keys, i + 1)
  {
    InOrderStep(keys, i);
    MatchAtPosition(table, p.typeRef.name);
    reports, orderIndex', orderHandled' := [], orderIndex, orderHandled;
    if keys[i].None? {
      assert !Breaks(keys, i);
    }
    var matched := Match(table, p);
    if matched.None? {
      reports := [Diagnostic(ParameterUnknown, FirstLocation(p.locations), [p.typeRef.name])];
      return;
    }
    var ep := matched.value;
    var nameCheck := [];
    if p.name != ep.name {
      nameCheck := [Diagnostic(ParameterName, FirstLocation(p.locations), [ep.name])];
    }
    var tabCheck := [];
    if ep.isProperty {
      if tab.None? {
        reports := nameCheck;
        return;
      }
      if Some(tab.value) !in p.attributeClasses {
        tabCheck := [Diagnostic(ParameterPropertyTabAttribute, FirstLocation(p.locations), [])];
      }
    }
    var breaks;
    breaks, orderIndex', orderHandled' := ScanOrder(table, p.typeRef.name, orderIndex, orderHandled, keys, i);
    var order := [];
    if breaks {
      order := [Diagnostic(ParametersOrder, at, [])];
    }
    reports := nameCheck + (tabCheck + order);
  }

  /**
   * The ordering step for a parameter that takes part in the scan: while the scan runs,
   * look for the type from `orderIndex` on; not finding it is the first break and ends
   * the scan.
   */
  method ScanOrder(table: seq<ExpectedParameter>, typeName: string, orderIndex: nat, orderHandled: bool,
                   ghost keys: seq<Option<nat>>, ghost i: nat)
    returns (breaks: bool, orderIndex': nat, orderHandled': bool)
    requires Distinct(Types(table))
    requires i < |keys| && keys[i].Some? && keys[i] == Position(Types(table), typeName)
    requires !orderHandled ==> InOrderUpTo(keys, i) && orderIndex == Bound(keys, i)
    requires orderHandled ==> !InOrderUpTo(keys, i)
    ensures breaks == IsFirstBreak(keys, i)
    ensures !orderHandled' ==> InOrderUpTo(keys, i + 1) && orderIndex' == Bound(keys, i + 1)
    ensures orderHandled' ==> !InOrderUpTo(keys, i + 1)
  {
    InOrderStep(keys, i);
    breaks, orderIndex', orderHandled' := false, orderIndex, orderHandled;
    if !orderHandled {
      var types := Types(table);
      IndexFromDistinct(types, orderIndex, typeName);
      BreaksIffBelowBound(keys, i);
      var ordered := IndexFrom(types, orderIndex, typeName);
      if ordered.None? {
        breaks := true;
        orderHandled' := true;
      } else {
        orderIndex' := ordered.value + 1;
      }
    }
  }
}
