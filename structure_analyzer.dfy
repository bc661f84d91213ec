/**
 * The structure of a task as the current `StructureAnalyzer` checks it: static classes
 * and methods, no overloads, a `Result` or `Task<Result>` return type and the result
 * properties the task's category requires. Two sets created per compilation remember
 * which diagnostics were already reported, so each is reported at most once however
 * often the callbacks run.
 *
 * The state is modelled twice: as a value (`ReportState`) with a pure step function
 * per operation, and as the `Analyzer` class whose methods change their fields in place
 * and are proved to take the state to the step function's result.
 */
module StructureAnalyzer {
  import opened Wrappers
  import opened Strings
  import opened Diagnostics
  import opened Symbols
  import opened TaskMethods
  import opened TypeSymbols
  import opened Linq

  /** A key of one of the two sets, as recorded for each reported diagnostic. */
  datatype Key =
    | SymbolKey(id: SymbolId, ruleId: string)
    | PropertyKey(id: SymbolId, ruleId: string, property: string)

  /**
   * The two sets, the diagnostics reported so far and, for each of them, the key that
   * admitted it.
   */
  datatype ReportState = ReportState(
    reportedDiagnostics: set<(SymbolId, string)>,
    reportedMissingProperties: set<(SymbolId, string, string)>,
    reported: seq<Diagnostic>,
    log: seq<Key>)

  /** The state a compilation starts with. */
  const Initial := ReportState({}, {}, [], [])

  /** The key is in its set. */
  predicate Recorded(st: ReportState, k: Key)
  {
    match k
      case SymbolKey(id, r) => (id, r) in st.reportedDiagnostics
      case PropertyKey(id, r, p) => (id, r, p) in st.reportedMissingProperties
  }

  /**
   * The key could have admitted the diagnostic: a (symbol, rule id) key admits a diagnostic
   * of that rule, a (method, rule id, property) key admits only `ReturnTypeMissingProperties`
   * naming that property.
   */
  predicate Admits(k: Key, d: Diagnostic)
  {
    match k
      case SymbolKey(_, r) => d.rule.Id() == r
      case PropertyKey(_, r, p) =>
        r == ReturnTypeMissingProperties.Id() && d.rule == ReturnTypeMissingProperties && d.args == [p]
  }

  /**
   * The invariant: every reported diagnostic was admitted by its own key, no key admitted
   * two diagnostics, and every admitting key is recorded.
   */
  predicate Valid(st: ReportState)
  {
    |st.log| == |st.reported|
    && (forall i :: 0 <= i < |st.log| ==> Admits(st.log[i], st.reported[i]))
    && (forall i, j :: 0 <= i < j < |st.log| ==> st.log[i] != st.log[j])
    && (forall i :: 0 <= i < |st.log| ==> Recorded(st, st.log[i]))
  }

  /** Both sets only grow and the reports are only appended to. */
  predicate Grows(st: ReportState, st': ReportState)
  {
    st.reportedDiagnostics <= st'.reportedDiagnostics
    && st.reportedMissingProperties <= st'.reportedMissingProperties
    && |st.reported| <= |st'.reported| && st'.reported[..|st.reported|] == st.reported
    && |st.log| <= |st'.log| && st'.log[..|st.log|] == st.log
  }

  /** `ReportOnce`'s location: the identifier of a class or method declaration, else the node. */
  function DeclarationReportLocation(syntax: Option<DeclSyntax>): Location
  {
    if syntax.None? then NoLocation else At(DeclarationLocation(syntax.value))
  }

  /** `ReportOnce`: report unless the (symbol, rule id) key was seen; the key is added either way. */
  function ReportOnceStep(st: ReportState, rule: Rule, id: SymbolId, syntax: Option<DeclSyntax>,
                          args: seq<string>): ReportState
  {
    if (id, rule.Id()) in st.reportedDiagnostics then st
    else ReportState(st.reportedDiagnostics + {(id, rule.Id())}, st.reportedMissingProperties,
                     st.reported + [Diagnostic(rule, DeclarationReportLocation(syntax), args)],
                     st.log + [SymbolKey(id, rule.Id())])
  }

  /**
   * `ReportMissingProperty`'s location: the return type of a method declaration, else the
   * declaring node, else the method's first location (`NoLocation` when it has none).
   */
  function MissingPropertyLocation(m: Method): Location
  {
    match m.syntax
      case Some(MethodDeclaration(_, returnType)) => At(returnType)
      case Some(s) => At(DeclarationLocation(s))
      case None => FirstLocation(m.locations)
  }

  /**
   * `ReportMissingProperty`: the (method, "FT0011", property) key is added first; the
   * diagnostic is then reported only when a location is found.
   */
  function ReportMissingPropertyStep(st: ReportState, m: Method, property: string): ReportState
  {
    var key := (m.id, ReturnTypeMissingProperties.Id(), property);
    if key in st.reportedMissingProperties then st
    else if MissingPropertyLocation(m) == NoLocation then
      st.(reportedMissingProperties := st.reportedMissingProperties + {key})
    else
      ReportState(st.reportedDiagnostics, st.reportedMissingProperties + {key},
                  st.reported + [Diagnostic(ReturnTypeMissingProperties, MissingPropertyLocation(m), [property])],
                  st.log + [PropertyKey(m.id, ReturnTypeMissingProperties.Id(), property)])
  }

  /** The properties a task's `Result` must have, by category, in the order they are checked. */
  function RequiredProperties(category: TaskCategory): seq<string>
  {
    ["Success", "Error"] +
    match category
      case Generic => []
      case Database => ["Data"]
      case Http => ["Body", "StatusCode"]
      case Converter => ["TargetFormat"]
      case File => ["FilePath"]
  }

  /** The required properties the result type lacks, in order. */
  function MissingProperties(category: TaskCategory, result: TypeRef): seq<string>
  {
    Where(RequiredProperties(category), (p: string) => p !in result.propertyNames)
  }

  /** `ReportMissingProperty` for each of the properties, in order. */
  function ReportMissingPropertiesStep(st: ReportState, m: Method, properties: seq<string>): ReportState
    decreases |properties|
  {
    if properties == [] then st
    else ReportMissingPropertiesStep(ReportMissingPropertyStep(st, m, properties[0]), m, properties[1..])
  }

  /** `CheckRequiredProperties`: each required property the result type lacks. */
  function CheckRequiredPropertiesStep(st: ReportState, m: Method, result: TypeRef, category: TaskCategory)
    : ReportState
  {
    ReportMissingPropertiesStep(st, m, MissingProperties(category, result))
  }

  /** Some registered path contains the type's name. */
  predicate NamesTaskType(ty: TypeDecl, registry: seq<TaskMethod>)
  {
    exists t :: t in registry && Contains(t.path, ty.name)
  }

  /** `AnalyzeClass`: a non-static type whose name occurs in some task path must be static. */
  function AnalyzeClassStep(st: ReportState, ty: TypeDecl, registry: seq<TaskMethod>): ReportState
  {
    if NamesTaskType(ty, registry) && !ty.isStatic then ReportOnceStep(st, ClassShouldBeStatic, ty.id, ty.syntax, [ty.name])
    else st
  }

  /** The text of `ReturnTypeIncorrect`'s argument. */
  const ExpectedReturnTypes := "Result or Task<Result>"

  /** The method is the first of several methods of its type with its name. */
  predicate IsFirstOverload(m: Method, containing: TypeDecl)
  {
    var overloads := MethodsNamed(containing.methods, m.name);
    |overloads| > 1 && overloads[0].id == m.id
  }

  /**
   * `AnalyzeMethod`: for a task method, the static check, the overload check, then either
   * the return-type diagnostic or the required-property checks on the `Result` type.
   */
  function AnalyzeMethodStep(st: ReportState, m: Method, containing: TypeDecl, registry: seq<TaskMethod>,
                             compilation: Compilation): ReportState
  {
    if FirstOrDefault(registry, (t: TaskMethod) => t.path == m.referenceString).None? then st
    else
      var st1 := if !m.isStatic then ReportOnceStep(st, MethodShouldBeStatic, m.id, m.syntax, [m.name]) else st;
      var st2 := if IsFirstOverload(m, containing)
                 then ReportOnceStep(st1, MethodOverloadNotAllowed, m.id, m.syntax, [m.name]) else st1;
      if !IsValidTaskReturnType(m.returnType, compilation)
      then ReportOnceStep(st2, ReturnTypeIncorrect, m.id, m.syntax, [ExpectedReturnTypes])
      else CheckRequiredPropertiesStep(st2, m, ResultType(m.returnType, compilation), m.category)
  }

  /** Reporting one more property after a list is reporting the longer list. */
  lemma {:induction false} ReportMissingPropertiesSnoc(st: ReportState, m: Method, properties: seq<string>,
                                                       property: string)
    ensures ReportMissingPropertiesStep(st, m, properties + [property])
      == ReportMissingPropertyStep(ReportMissingPropertiesStep(st, m, properties), m, property)
    decreases |properties|
  {
    if properties == [] {
      assert properties + [property] == [property];
    } else {
      assert (properties + [property])[1..] == properties[1..] + [property];
      ReportMissingPropertiesSnoc(ReportMissingPropertyStep(st, m, properties[0]), m, properties[1..], property);
    }
  }

  /** The properties of a list that are missing from the names: each one in turn. */
  function Lacking(p: string, names: seq<string>): seq<string>
  {
    if p !in names then [p] else []
  }

  /** Reporting two lists one after the other is reporting their concatenation. */
  lemma {:induction false} ReportMissingPropertiesConcat(st: ReportState, m: Method, a: seq<string>, b: seq<string>)
    ensures ReportMissingPropertiesStep(st, m, a + b)
      == ReportMissingPropertiesStep(ReportMissingPropertiesStep(st, m, a), m, b)
    decreases |a|
  {
    if a == [] {
      assert a + b == b;
    } else {
      assert (a + b)[1..] == a[1..] + b;
      ReportMissingPropertiesConcat(ReportMissingPropertyStep(st, m, a[0]), m, a[1..], b);
    }
  }

  /** Proof helper, no source counterpart: filtering a one-element list is the single `HasProperty` check. */
  lemma WhereSingleton(x: string, names: seq<string>)
    ensures Where([x], (s: string) => s !in names) == Lacking(x, names)
  {
    assert [x][1..] == [];
  }

  /** Walking the table is the chain of checks: the two general properties, then the category's own. */
  lemma MissingPropertiesChain(category: TaskCategory, result: TypeRef)
    ensures var names := result.propertyNames;
      MissingProperties(category, result) ==
        Lacking("Success", names) + Lacking("Error", names) +
        match category
          case Generic => []
          case Database => Lacking("Data", names)
          case Http => Lacking("Body", names) + Lacking("StatusCode", names)
          case Converter => Lacking("TargetFormat", names)
          case File => Lacking("FilePath", names)
  {
    var names := result.propertyNames;
    var p := (s: string) => s !in names;
    var rest := match category
      case Generic => []
      case Database => ["Data"]
      case Http => ["Body", "StatusCode"]
      case Converter => ["TargetFormat"]
      case File => ["FilePath"];
    assert RequiredProperties(category) == ["Success"] + ["Error"] + rest;
    WhereConcat(["Success"] + ["Error"], rest, p);
    WhereConcat(["Success"], ["Error"], p);
    WhereSingleton("Success", names);
    WhereSingleton("Error", names);
    match category {
      case Generic =>
      case Database => WhereSingleton("Data", names);
      case Http =>
        assert rest == ["Body"] + ["StatusCode"];
        WhereConcat(["Body"], ["StatusCode"], p);
        WhereSingleton("Body", names);
        WhereSingleton("StatusCode", names);
      case Converter => WhereSingleton("TargetFormat", names);
      case File => WhereSingleton("FilePath", names);
    }
  }

  // ---------------------------------------------------------------------------
  // Properties of the steps

  lemma InitialValid()
    ensures Valid(Initial)
  {
  }

  /** `ReportOnce` keeps the invariant, grows the state and records its key. */
  lemma {:induction false} ReportOnceSpec(st: ReportState, rule: Rule, id: SymbolId, syntax: Option<DeclSyntax>,
                                          args: seq<string>)
    requires Valid(st)
    ensures var st' := ReportOnceStep(st, rule, id, syntax, args);
      Valid(st') && Grows(st, st') && Recorded(st', SymbolKey(id, rule.Id()))
  {
    var k := SymbolKey(id, rule.Id());
    if !Recorded(st, k) {
      var st' := ReportOnceStep(st, rule, id, syntax, args);
      forall i | 0 <= i < |st.log| ensures st.log[i] != k {
        assert Recorded(st, st.log[i]);
      }
      forall i | 0 <= i < |st'.log| ensures Recorded(st', st'.log[i]) {
        if i < |st.log| {
          assert Recorded(st, st.log[i]);
        }
      }
    }
  }

  /** `ReportMissingProperty` keeps the invariant, grows the state and records its key. */
  lemma {:induction false} ReportMissingPropertySpec(st: ReportState, m: Method, property: string)
    requires Valid(st)
    ensures var st' := ReportMissingPropertyStep(st, m, property);
      Valid(st') && Grows(st, st') && Recorded(st', PropertyKey(m.id, ReturnTypeMissingProperties.Id(), property))
  {
    var k := PropertyKey(m.id, ReturnTypeMissingProperties.Id(), property);
    var st' := ReportMissingPropertyStep(st, m, property);
    if !Recorded(st, k) {
      forall i | 0 <= i < |st.log| ensures st.log[i] != k {
        assert Recorded(st, st.log[i]);
      }
      forall i | 0 <= i < |st'.log| ensures Recorded(st', st'.log[i]) {
        if i < |st.log| {
          assert Recorded(st, st.log[i]);
        }
      }
    }
  }

  lemma GrowsTransitive(a: ReportState, b: ReportState, c: ReportState)
    requires Grows(a, b) && Grows(b, c)
    ensures Grows(a, c)
  {
    assert c.reported[..|a.reported|] == c.reported[..|b.reported|][..|a.reported|];
    assert c.log[..|a.log|] == c.log[..|b.log|][..|a.log|];
  }

  lemma GrowsKeepsRecorded(a: ReportState, b: ReportState, k: Key)
    requires Grows(a, b) && Recorded(a, k)
    ensures Recorded(b, k)
  {
  }

  /** Reporting a list of missing properties keeps the invariant and records every one. */
  lemma {:induction false} ReportMissingPropertiesSpec(st: ReportState, m: Method, properties: seq<string>)
    requires Valid(st)
    decreases |properties|
    ensures var st' := ReportMissingPropertiesStep(st, m, properties);
      Valid(st') && Grows(st, st')
      && forall p :: p in properties ==> Recorded(st', PropertyKey(m.id, ReturnTypeMissingProperties.Id(), p))
  {
    if properties != [] {
      var st1 := ReportMissingPropertyStep(st, m, properties[0]);
      ReportMissingPropertySpec(st, m, properties[0]);
      ReportMissingPropertiesSpec(st1, m, properties[1..]);
      var st' := ReportMissingPropertiesStep(st1, m, properties[1..]);
      GrowsTransitive(st, st1, st');
      GrowsKeepsRecorded(st1, st', PropertyKey(m.id, ReturnTypeMissingProperties.Id(), properties[0]));
      forall p | p in properties
        ensures Recorded(st', PropertyKey(m.id, ReturnTypeMissingProperties.Id(), p))
      {
        if p != properties[0] {
          assert p in properties[1..];
        }
      }
    }
  }

  /** Once all the properties are recorded, reporting them again changes nothing. */
  lemma {:induction false} ReportMissingPropertiesRecorded(st: ReportState, m: Method, properties: seq<string>)
    requires forall p :: p in properties ==> Recorded(st, PropertyKey(m.id, ReturnTypeMissingProperties.Id(), p))
    decreases |properties|
    ensures ReportMissingPropertiesStep(st, m, properties) == st
  {
    if properties != [] {
      assert properties[0] in properties;
      ReportMissingPropertiesRecorded(st, m, properties[1..]);
    }
  }

  /** Every callback keeps the invariant: no key ever admits two diagnostics. */
  lemma AnalyzeClassValid(st: ReportState, ty: TypeDecl, registry: seq<TaskMethod>)
    requires Valid(st)
    ensures Valid(AnalyzeClassStep(st, ty, registry)) && Grows(st, AnalyzeClassStep(st, ty, registry))
  {
    ReportOnceSpec(st, ClassShouldBeStatic, ty.id, ty.syntax, [ty.name]);
  }

  lemma {:induction false} AnalyzeMethodValid(st: ReportState, m: Method, containing: TypeDecl,
                                              registry: seq<TaskMethod>, compilation: Compilation)
    requires Valid(st)
    ensures var st' := AnalyzeMethodStep(st, m, containing, registry, compilation);
      Valid(st') && Grows(st, st')
  {
    if FirstOrDefault(registry, (t: TaskMethod) => t.path == m.referenceString).Some? {
      var st1 := if !m.isStatic then ReportOnceStep(st, MethodShouldBeStatic, m.id, m.syntax, [m.name]) else st;
      ReportOnceSpec(st, MethodShouldBeStatic, m.id, m.syntax, [m.name]);
      var st2 := if IsFirstOverload(m, containing)
                 then ReportOnceStep(st1, MethodOverloadNotAllowed, m.id, m.syntax, [m.name]) else st1;
      ReportOnceSpec(st1, MethodOverloadNotAllowed, m.id, m.syntax, [m.name]);
      GrowsTransitive(st, st1, st2);
      if !IsValidTaskReturnType(m.returnType, compilation) {
        ReportOnceSpec(st2, ReturnTypeIncorrect, m.id, m.syntax, [ExpectedReturnTypes]);
        GrowsTransitive(st, st2, ReportOnceStep(st2, ReturnTypeIncorrect, m.id, m.syntax, [ExpectedReturnTypes]));
      } else {
        var result := ResultType(m.returnType, compilation);
        ReportMissingPropertiesSpec(st2, m, MissingProperties(m.category, result));
        GrowsTransitive(st, st2, CheckRequiredPropertiesStep(st2, m, result, m.category));
      }
    }
  }

  /**
   * Once the class callback has run for a type, running it again for that type at any
   * later point of the compilation reports nothing new.
   */
  lemma AnalyzeClassIdempotent(st: ReportState, ty: TypeDecl, registry: seq<TaskMethod>, later: ReportState)
    requires Valid(st)
    requires Grows(AnalyzeClassStep(st, ty, registry), later)
    ensures AnalyzeClassStep(later, ty, registry) == later
  {
    ReportOnceSpec(st, ClassShouldBeStatic, ty.id, ty.syntax, [ty.name]);
    if NamesTaskType(ty, registry) && !ty.isStatic {
      GrowsKeepsRecorded(AnalyzeClassStep(st, ty, registry), later, SymbolKey(ty.id, ClassShouldBeStatic.Id()));
    }
  }

  /**
   * Once the method callback has run for a method, running it again for that method at
   * any later point reports nothing new: every key the first run tried is recorded by
   * then, dropped missing properties included.
   */
  lemma {:induction false} AnalyzeMethodIdempotent(st: ReportState, m: Method, containing: TypeDecl,
                                                   registry: seq<TaskMethod>, compilation: Compilation,
                                                   later: ReportState)
    requires Valid(st)
    requires Grows(AnalyzeMethodStep(st, m, containing, registry, compilation), later)
    ensures AnalyzeMethodStep(later, m, containing, registry, compilation) == later
  {
    if FirstOrDefault(registry, (t: TaskMethod) => t.path == m.referenceString).Some? {
      var kStatic := SymbolKey(m.id, MethodShouldBeStatic.Id());
      var kOverload := SymbolKey(m.id, MethodOverloadNotAllowed.Id());
      var kReturn := SymbolKey(m.id, ReturnTypeIncorrect.Id());
      var st1 := if !m.isStatic then ReportOnceStep(st, MethodShouldBeStatic, m.id, m.syntax, [m.name]) else st;
      ReportOnceSpec(st, MethodShouldBeStatic, m.id, m.syntax, [m.name]);
      var st2 := if IsFirstOverload(m, containing)
                 then ReportOnceStep(st1, MethodOverloadNotAllowed, m.id, m.syntax, [m.name]) else st1;
      ReportOnceSpec(st1, MethodOverloadNotAllowed, m.id, m.syntax, [m.name]);
      var st' := AnalyzeMethodStep(st, m, containing, registry, compilation);
      var st2' := if IsFirstOverload(m, containing)
                  then ReportOnceStep(later, MethodOverloadNotAllowed, m.id, m.syntax, [m.name]) else later;
      if !IsValidTaskReturnType(m.returnType, compilation) {
        ReportOnceSpec(st2, ReturnTypeIncorrect, m.id, m.syntax, [ExpectedReturnTypes]);
        GrowsTransitive(st2, st', later);
        if !m.isStatic { GrowsKeepsRecorded(st1, st2, kStatic); GrowsKeepsRecorded(st2, later, kStatic); }
        if IsFirstOverload(m, containing) { GrowsKeepsRecorded(st2, later, kOverload); }
        GrowsKeepsRecorded(st', later, kReturn);
      } else {
        var result := ResultType(m.returnType, compilation);
        var missing := MissingProperties(m.category, result);
        ReportMissingPropertiesSpec(st2, m, missing);
        GrowsTransitive(st2, st', later);
        if !m.isStatic { GrowsKeepsRecorded(st1, st2, kStatic); GrowsKeepsRecorded(st2, later, kStatic); }
        if IsFirstOverload(m, containing) { GrowsKeepsRecorded(st2, later, kOverload); }
        forall p | p in missing
          ensures Recorded(later, PropertyKey(m.id, ReturnTypeMissingProperties.Id(), p))
        {
          GrowsKeepsRecorded(st', later, PropertyKey(m.id, ReturnTypeMissingProperties.Id(), p));
        }
        ReportMissingPropertiesRecorded(st2', m, missing);
      }
    }
  }

  /**
   * A missing property of a method with no location is never reported: its key is
   * recorded without a diagnostic, and from then on no callback for that method retries it.
   */
  lemma DroppedPropertyNeverRetried(st: ReportState, m: Method, property: string, later: ReportState, m': Method)
    requires m.syntax.None? && m.locations == []
    requires Grows(ReportMissingPropertyStep(st, m, property), later) && m'.id == m.id
    ensures ReportMissingPropertyStep(st, m, property).reported == st.reported
    ensures ReportMissingPropertyStep(later, m', property) == later
  {
  }

  /** The required properties per category, each checked once. */
  lemma RequiredPropertiesByCategory(category: TaskCategory)
    ensures |RequiredProperties(category)| >= 2
    ensures RequiredProperties(category)[..2] == ["Success", "Error"]
    ensures "Data" in RequiredProperties(category) <==> category == Database
    ensures ("Body" in RequiredProperties(category) <==> category == Http)
      && ("StatusCode" in RequiredProperties(category) <==> category == Http)
    ensures "TargetFormat" in RequiredProperties(category) <==> category == Converter
    ensures "FilePath" in RequiredProperties(category) <==> category == File
    ensures category == Generic ==> RequiredProperties(category) == ["Success", "Error"]
  {
  }

  /** An invalid return type gets its diagnostic and no property check. */
  lemma InvalidReturnTypeSkipsProperties(st: ReportState, m: Method, containing: TypeDecl,
                                         registry: seq<TaskMethod>, compilation: Compilation)
    requires !IsValidTaskReturnType(m.returnType, compilation)
    ensures AnalyzeMethodStep(st, m, containing, registry, compilation).reportedMissingProperties
      == st.reportedMissingProperties
  {
  }

  // ---------------------------------------------------------------------------
  // All the callbacks of a compilation

  /** One symbol callback: a named type, or a method with its containing type. */
  datatype Callback = ClassCallback(ty: TypeDecl) | MethodCallback(m: Method, containing: TypeDecl)

  function CallbackStep(st: ReportState, c: Callback, registry: seq<TaskMethod>, compilation: Compilation)
    : ReportState
  {
    match c
      case ClassCallback(ty) => AnalyzeClassStep(st, ty, registry)
      case MethodCallback(m, containing) => AnalyzeMethodStep(st, m, containing, registry, compilation)
  }

  /** The callbacks of a compilation, in the order the host runs them, over the shared sets. */
  function Run(st: ReportState, callbacks: seq<Callback>, registry: seq<TaskMethod>, compilation: Compilation)
    : ReportState
    decreases |callbacks|
  {
    if callbacks == [] then st
    else Run(CallbackStep(st, callbacks[0], registry, compilation), callbacks[1..], registry, compilation)
  }

  lemma CallbackValid(st: ReportState, c: Callback, registry: seq<TaskMethod>, compilation: Compilation)
    requires Valid(st)
    ensures Valid(CallbackStep(st, c, registry, compilation)) && Grows(st, CallbackStep(st, c, registry, compilation))
  {
    match c {
      case ClassCallback(ty) => AnalyzeClassValid(st, ty, registry);
      case MethodCallback(m, containing) => AnalyzeMethodValid(st, m, containing, registry, compilation);
    }
  }

  /** Any sequence of callbacks keeps the invariant and only grows the state. */
  lemma {:induction false} RunValid(st: ReportState, callbacks: seq<Callback>, registry: seq<TaskMethod>,
                                    compilation: Compilation)
    requires Valid(st)
    decreases |callbacks|
    ensures Valid(Run(st, callbacks, registry, compilation)) && Grows(st, Run(st, callbacks, registry, compilation))
  {
    if callbacks != [] {
      var st1 := CallbackStep(st, callbacks[0], registry, compilation);
      CallbackValid(st, callbacks[0], registry, compilation);
      RunValid(st1, callbacks[1..], registry, compilation);
      GrowsTransitive(st, st1, Run(st1, callbacks[1..], registry, compilation));
    }
  }

  /**
   * However many callbacks a compilation runs, in whatever order: every diagnostic reported
   * was admitted by a recorded key of its own rule (and, for a missing property, of its
   * property), and no two diagnostics were admitted by the same key.
   */
  lemma ReportedAtMostOnce(callbacks: seq<Callback>, registry: seq<TaskMethod>, compilation: Compilation)
    ensures var st := Run(Initial, callbacks, registry, compilation);
      |st.log| == |st.reported|
      && (forall i :: 0 <= i < |st.reported| ==> Admits(st.log[i], st.reported[i]) && Recorded(st, st.log[i]))
      && (forall i, j :: 0 <= i < j < |st.reported| ==> st.log[i] != st.log[j])
  {
    RunValid(Initial, callbacks, registry, compilation);
  }

  /** Once a sequence of callbacks has run, running it again at any later point changes nothing. */
  lemma {:induction false} RunAgainChangesNothing(st: ReportState, callbacks: seq<Callback>,
                                                  registry: seq<TaskMethod>, compilation: Compilation,
                                                  later: ReportState)
    requires Valid(st) && Grows(Run(st, callbacks, registry, compilation), later)
    decreases |callbacks|
    ensures Run(later, callbacks, registry, compilation) == later
  {
    if callbacks != [] {
      var st1 := CallbackStep(st, callbacks[0], registry, compilation);
      CallbackValid(st, callbacks[0], registry, compilation);
      RunValid(st1, callbacks[1..], registry, compilation);
      GrowsTransitive(st1, Run(st1, callbacks[1..], registry, compilation), later);
      match callbacks[0] {
        case ClassCallback(ty) => AnalyzeClassIdempotent(st, ty, registry, later);
        case MethodCallback(m, containing) => AnalyzeMethodIdempotent(st, m, containing, registry, compilation, later);
      }
      RunAgainChangesNothing(st1, callbacks[1..], registry, compilation, later);
    }
  }

  /** Running all the callbacks of a compilation a second time reports nothing new. */
  lemma RunTwice(callbacks: seq<Callback>, registry: seq<TaskMethod>, compilation: Compilation)
    ensures var st := Run(Initial, callbacks, registry, compilation);
      Run(st, callbacks, registry, compilation) == st
  {
    var st := Run(Initial, callbacks, registry, compilation);
    assert st.reported[..|st.reported|] == st.reported && st.log[..|st.log|] == st.log;
    RunAgainChangesNothing(Initial, callbacks, registry, compilation, st);
  }

  /**
   * As written, the analyzer's `TaskMethods` list is never assigned and stays empty: with an
   * empty registry no callback reports or records anything.
   */
  lemma {:induction false} EmptyRegistryChangesNothing(st: ReportState, callbacks: seq<Callback>,
                                                       compilation: Compilation)
    decreases |callbacks|
    ensures Run(st, callbacks, [], compilation) == st
  {
    if callbacks != [] {
      EmptyRegistryChangesNothing(st, callbacks[1..], compilation);
    }
  }

  /**
   * With the registry supplied, a registered method that is not static gets
   * `MethodShouldBeStatic` as the compilation's first report.
   */
  lemma RegisteredMethodIsChecked(m: Method, containing: TypeDecl, registry: seq<TaskMethod>,
                                  compilation: Compilation)
    requires exists t :: t in registry && t.path == m.referenceString
    requires !m.isStatic
    ensures var st := AnalyzeMethodStep(Initial, m, containing, registry, compilation);
      |st.reported| > 0 && st.reported[0] == Diagnostic(MethodShouldBeStatic, DeclarationReportLocation(m.syntax), [m.name])
  {
    var st1 := ReportOnceStep(Initial, MethodShouldBeStatic, m.id, m.syntax, [m.name]);
    InitialValid();
    ReportOnceSpec(Initial, MethodShouldBeStatic, m.id, m.syntax, [m.name]);
    var st2 := if IsFirstOverload(m, containing)
               then ReportOnceStep(st1, MethodOverloadNotAllowed, m.id, m.syntax, [m.name]) else st1;
    ReportOnceSpec(st1, MethodOverloadNotAllowed, m.id, m.syntax, [m.name]);
    if !IsValidTaskReturnType(m.returnType, compilation) {
      ReportOnceSpec(st2, ReturnTypeIncorrect, m.id, m.syntax, [ExpectedReturnTypes]);
    } else {
      ReportMissingPropertiesSpec(st2, m, MissingProperties(m.category, ResultType(m.returnType, compilation)));
    }
  }

  // ---------------------------------------------------------------------------
  // The analyzer object

  /** The per-compilation state of the analyzer; its methods are the callbacks. */
  class Analyzer {
    var reportedDiagnostics: set<(SymbolId, string)>
    var reportedMissingProperties: set<(SymbolId, string, string)>
    var reported: seq<Diagnostic>
    ghost var log: seq<Key>

    ghost function State(): ReportState
      reads this
    {
      ReportState(reportedDiagnostics, reportedMissingProperties, reported, log)
    }

    /** `RegisterActions`: the two sets are created empty. */
    constructor ()
      ensures State() == Initial
    {
      reportedDiagnostics := {};
      reportedMissingProperties := {};
      reported := [];
      log := [];
    }

    method ReportOnce(rule: Rule, id: SymbolId, syntax: Option<DeclSyntax>, args: seq<string>)
      modifies this
      ensures State() == ReportOnceStep(old(State()), rule, id, syntax, args)
    {
      var key := (id, rule.Id());
      if key in reportedDiagnostics {
        return;
      }
      reportedDiagnostics := reportedDiagnostics + {key};
      var location := NoLocation;
      if syntax.Some? {
        location := At(DeclarationLocation(syntax.value));
      }
      reported := reported + [Diagnostic(rule, location, args)];
      log := log + [SymbolKey(id, rule.Id())];
    }

    method ReportMissingProperty(m: Method, property: string)
      modifies this
      ensures State() == ReportMissingPropertyStep(old(State()), m, property)
    {
      var key := (m.id, ReturnTypeMissingProperties.Id(), property);
      if key in reportedMissingProperties {
        return;
      }
      reportedMissingProperties := reportedMissingProperties + {key};
      var location := NoLocation;
      if m.syntax.Some? {
        match m.syntax.value {
          case MethodDeclaration(_, returnType) => location := At(returnType);
          case ClassDeclaration(l) => location := At(l);
          case OtherDeclaration(l) => location := At(l);
        }
      }
      if location == NoLocation {
        location := FirstLocation(m.locations);
      }
      if location != NoLocation {
        reported := reported + [Diagnostic(ReturnTypeMissingProperties, location, [property])];
        log := log + [PropertyKey(m.id, ReturnTypeMissingProperties.Id(), property)];
      }
    }

    /** `if (!HasProperty(name)) ReportMissingProperty(...)`. */
    method ReportIfLacking(m: Method, names: seq<string>, property: string)
      modifies this
      ensures State() == ReportMissingPropertiesStep(old(State()), m, Lacking(property, names))
    {
      if property !in names {
        ReportMissingProperty(m, property);
      }
    }

    /** The chain of checks of the source, proved equal to walking the category's table. */
    method CheckRequiredProperties(m: Method, result: TypeRef, category: TaskCategory)
      modifies this
      ensures State() == CheckRequiredPropertiesStep(old(State()), m, result, category)
    {
      ghost var st := State();
      var names := result.propertyNames;
      MissingPropertiesChain(category, result);
      ReportIfLacking(m, names, "Success");
      ReportIfLacking(m, names, "Error");
      ReportMissingPropertiesConcat(st, m, Lacking("Success", names), Lacking("Error", names));
      ghost var general := Lacking("Success", names) + Lacking("Error", names);
      ghost var mid := State();
      ghost var own: seq<string> := [];
      match category {
        case Database =>
          ReportIfLacking(m, names, "Data");
          own := Lacking("Data", names);
        case Http =>
          ReportIfLacking(m, names, "Body");
          ReportIfLacking(m, names, "StatusCode");
          ReportMissingPropertiesConcat(mid, m, Lacking("Body", names), Lacking("StatusCode", names));
          own := Lacking("Body", names) + Lacking("StatusCode", names);
        case Converter =>
          ReportIfLacking(m, names, "TargetFormat");
          own := Lacking("TargetFormat", names);
        case File =>
          ReportIfLacking(m, names, "FilePath");
          own := Lacking("FilePath", names);
        case Generic =>
      }
      ReportMissingPropertiesConcat(st, m, general, own);
    }

    method AnalyzeClass(ty: TypeDecl, registry: seq<TaskMethod>)
      modifies this
      ensures State() == AnalyzeClassStep(old(State()), ty, registry)
    {
      if !NamesTaskType(ty, registry) {
        return;
      }
      if !ty.isStatic {
        ReportOnce(ClassShouldBeStatic, ty.id, ty.syntax, [ty.name]);
      }
    }

    method AnalyzeMethod(m: Method, containing: TypeDecl, registry: seq<TaskMethod>, compilation: Compilation)
      modifies this
      ensures State() == AnalyzeMethodStep(old(State()), m, containing, registry, compilation)
    {
      var taskMethod := FirstOrDefault(registry, (t: TaskMethod) => t.path == m.referenceString);
      if taskMethod.None? {
        return;
      }
      if !m.isStatic {
        ReportOnce(MethodShouldBeStatic, m.id, m.syntax, [m.name]);
      }
      var overloads := MethodsNamed(containing.methods, m.name);
      if |overloads| > 1 && overloads[0].id == m.id {
        ReportOnce(MethodOverloadNotAllowed, m.id, m.syntax, [m.name]);
      }
      if !IsValidTaskReturnType(m.returnType, compilation) {
        ReportOnce(ReturnTypeIncorrect, m.id, m.syntax, [ExpectedReturnTypes]);
      } else {
        var result := if m.returnType.name == "Result" then m.returnType else m.returnType.typeArguments[0];
        CheckRequiredProperties(m, result, m.category);
      }
    }
  }
}
