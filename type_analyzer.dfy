/**
 * The property rules of `TypeAnalyzer`: the `Options` type of a task must declare
 * `ThrowErrorOnFailure` (default `true`) and `ErrorMessageOnFailure` (default `""`), and the
 * `Input` type of a converter must declare the property its converter types name.
 */
module TypeAnalyzer {
  import opened Wrappers
  import opened Diagnostics
  import opened Symbols
  import opened TaskMethods
  import opened AnalyzerOptions
  import opened Linq

  // ---------------------------------------------------------------------------
  // Choosing the registry

  /**
   * The first syntax tree whose options give a non-empty registry (`FirstOrDefault(t =>
   * t?.Any() == true)`); the first exception met on the way ends the search.
   */
  function SelectRegistry(perTree: seq<Result<Option<seq<TaskMethod>>, RegistryError>>): (r: Result<Option<seq<TaskMethod>>, RegistryError>)
    ensures r.Success? && r.value.Some? ==> |r.value.value| > 0 && Success(r.value) in perTree
    ensures r.Failure? ==> Failure(r.error) in perTree
  {
    if perTree == [] then Success(None)
    else if perTree[0].Failure? then Failure(perTree[0].error)
    else if perTree[0].value.Some? && |perTree[0].value.value| > 0 then perTree[0]
    else SelectRegistry(perTree[1..])
  }

  /** A tree's options give no registry, or an empty one. */
  predicate NoTasks(t: Result<Option<seq<TaskMethod>>, RegistryError>)
  {
    t.Success? && (t.value.None? || |t.value.value| == 0)
  }

  /** The registry chosen is the one of the first tree that is not `NoTasks`, or none when there is none. */
  lemma {:induction false} SelectRegistryIsFirst(perTree: seq<Result<Option<seq<TaskMethod>>, RegistryError>>, k: nat)
    requires k <= |perTree|
    requires forall i :: 0 <= i < k ==> NoTasks(perTree[i])
    requires k < |perTree| ==> !NoTasks(perTree[k])
    ensures k == |perTree| ==> SelectRegistry(perTree) == Success(None)
    ensures k < |perTree| ==> SelectRegistry(perTree) == perTree[k]
  {
    if k > 0 {
      SelectRegistryIsFirst(perTree[1..], k - 1);
    }
  }

  // ---------------------------------------------------------------------------
  // Which types are analysed, on behalf of which task

  /** A task method and its category, as stored for a type. */
  datatype Use = Use(taskMethod: TaskMethod, category: TaskCategory)

  /** One `(Type, TaskMethod, Category)` triple of the `SelectMany` pipeline. */
  datatype Triple = Triple(typeId: SymbolId, use: Use)

  /** The named types among the parameter types, then the return type when it is named. */
  function MethodTypes(m: Method): (ts: seq<TypeRef>)
    ensures forall t :: t in ts <==> t.isNamed && (t == m.returnType || exists p :: p in m.parameters && p.typeRef == t)
  {
    ParameterTypes(m.parameters) + (if m.returnType.isNamed then [m.returnType] else [])
  }

  function ParameterTypes(ps: seq<Parameter>): (ts: seq<TypeRef>)
    ensures forall t :: t in ts <==> t.isNamed && exists p :: p in ps && p.typeRef == t
  {
    if ps == [] then []
    else (if ps[0].typeRef.isNamed then [ps[0].typeRef] else []) + ParameterTypes(ps[1..])
  }

  /** One triple per type, all for the same use. */
  function TriplesFor(ts: seq<TypeRef>, use: Use): (r: seq<Triple>)
    ensures |r| == |ts|
    ensures forall i :: 0 <= i < |ts| ==> r[i] == Triple(ts[i].id, use)
  {
    if ts == [] then [] else [Triple(ts[0].id, use)] + TriplesFor(ts[1..], use)
  }

  /** The triples of one method: none unless its reference string is a registered path. */
  function MethodTriples(m: Method, registry: seq<TaskMethod>): seq<Triple>
  {
    var t := FirstOrDefault(registry, (t: TaskMethod) => t.path == m.referenceString);
    if t.None? then [] else TriplesFor(MethodTypes(m), Use(t.value, m.category))
  }

  function MethodsTriples(ms: seq<Method>, registry: seq<TaskMethod>): seq<Triple>
  {
    if ms == [] then [] else MethodTriples(ms[0], registry) + MethodsTriples(ms[1..], registry)
  }

  function TypesTriples(types: seq<TypeDecl>, registry: seq<TaskMethod>): seq<Triple>
  {
    if types == [] then [] else MethodsTriples(types[0].methods, registry) + TypesTriples(types[1..], registry)
  }

  /** The uses recorded for one type, in pipeline order. */
  function UsesOf(triples: seq<Triple>, id: SymbolId): seq<Use>
  {
    if triples == []
    then []
    else
      UsesOf(triples[..|triples| - 1], id)
      + (if triples[|triples| - 1].typeId == id then [triples[|triples| - 1].use] else [])
  }

  /** `GroupBy(x => x.Type)` followed by `ToImmutableDictionary`. */
  function GroupBy(triples: seq<Triple>): map<SymbolId, seq<Use>>
  {
    if triples == [] then map[]
    else
      var g := GroupBy(triples[..|triples| - 1]);
      var last := triples[|triples| - 1];
      g[last.typeId := (if last.typeId in g then g[last.typeId] else []) + [last.use]]
  }

  /** Some triple is for the type. */
  predicate Records(triples: seq<Triple>, id: SymbolId)
  {
    exists i :: 0 <= i < |triples| && triples[i].typeId == id
  }

  /** A type is a key exactly when some triple names it, and its group is its uses in order. */
  lemma {:induction false} GroupBySpec(triples: seq<Triple>)
    ensures forall id :: id in GroupBy(triples) <==> Records(triples, id)
    ensures forall id :: id in GroupBy(triples) ==> GroupBy(triples)[id] == UsesOf(triples, id)
    ensures forall id :: id !in GroupBy(triples) ==> UsesOf(triples, id) == []
  {
    if triples != [] {
      var init := triples[..|triples| - 1];
      GroupBySpec(init);
      forall id ensures Records(triples, id) <==> Records(init, id) || triples[|triples| - 1].typeId == id
      {
        if Records(triples, id) {
          var i :| 0 <= i < |triples| && triples[i].typeId == id;
          if i < |init| {
            assert init[i].typeId == id;
          }
        }
        if Records(init, id) {
          var i :| 0 <= i < |init| && init[i].typeId == id;
          assert triples[i].typeId == id;
        }
      }
    }
  }

  /** A use is recorded for a type exactly when a triple pairs them. */
  lemma {:induction false} UsesOfSpec(triples: seq<Triple>, id: SymbolId)
    ensures forall u :: u in UsesOf(triples, id) <==> Triple(id, u) in triples
  {
    if triples != [] {
      var init := triples[..|triples| - 1];
      UsesOfSpec(init, id);
      assert triples == init + [triples[|triples| - 1]];
    }
  }

  /** `FindTypesForAnalysis` as the source writes it: only the types declared directly in the global namespace. */
  function FindTypesForAnalysis(comp: Compilation, registry: seq<TaskMethod>): map<SymbolId, seq<Use>>
  {
    GroupBy(TypesTriples(comp.globalNamespace.types, registry))
  }

  /** The types of a namespace and of all the namespaces below it, outermost first. */
  function AllTypes(ns: Namespace): seq<TypeDecl>
  {
    ns.types + AllTypesOf(ns.namespaces)
  }

  function AllTypesOf(nss: seq<Namespace>): seq<TypeDecl>
  {
    if nss == [] then [] else AllTypes(nss[0]) + AllTypesOf(nss[1..])
  }

  /** The lookup `FindTypesForAnalysis` evidently intends: the types of every namespace of the compilation. */
  function FindTypesInAllNamespaces(comp: Compilation, registry: seq<TaskMethod>): map<SymbolId, seq<Use>>
  {
    GroupBy(TypesTriples(AllTypes(comp.globalNamespace), registry))
  }

  lemma {:induction false} TriplesForSpec(ts: seq<TypeRef>, use: Use, t: TypeRef)
    requires t in ts
    ensures Triple(t.id, use) in TriplesFor(ts, use)
  {
    var i :| 0 <= i < |ts| && ts[i] == t;
    assert TriplesFor(ts, use)[i] == Triple(t.id, use);
  }

  lemma {:induction false} MethodsTriplesSpec(ms: seq<Method>, registry: seq<TaskMethod>, m: Method, x: Triple)
    requires m in ms && x in MethodTriples(m, registry)
    ensures x in MethodsTriples(ms, registry)
  {
    if ms[0] != m {
      MethodsTriplesSpec(ms[1..], registry, m, x);
    }
  }

  lemma {:induction false} TypesTriplesSpec(types: seq<TypeDecl>, registry: seq<TaskMethod>, ty: TypeDecl, x: Triple)
    requires ty in types && x in MethodsTriples(ty.methods, registry)
    ensures x in TypesTriples(types, registry)
  {
    if types[0] != ty {
      TypesTriplesSpec(types[1..], registry, ty, x);
    }
  }

  lemma {:induction false} AllTypesSpec(ns: Namespace, ty: TypeDecl)
    requires ty in ns.types || exists child :: child in ns.namespaces && ty in AllTypes(child)
    ensures ty in AllTypes(ns)
  {
    if ty !in ns.types {
      var child :| child in ns.namespaces && ty in AllTypes(child);
      AllTypesOfSpec(ns.namespaces, child, ty);
    }
  }

  lemma {:induction false} AllTypesOfSpec(nss: seq<Namespace>, child: Namespace, ty: TypeDecl)
    requires child in nss && ty in AllTypes(child)
    ensures ty in AllTypesOf(nss)
  {
    if nss[0] != child {
      AllTypesOfSpec(nss[1..], child, ty);
    }
  }

  /**
   * The intended lookup finds every task's types: for a type declared in any namespace, a
   * method of it whose reference string is the path of the first matching registered task,
   * and a named parameter or return type of that method, the type is analysed for that
   * task and that method's category.
   */
  lemma TaskTypesAreFound(comp: Compilation, registry: seq<TaskMethod>, ty: TypeDecl, m: Method, t: TypeRef, k: nat)
    requires ty in AllTypes(comp.globalNamespace) && m in ty.methods && t in MethodTypes(m)
    requires k < |registry| && registry[k].path == m.referenceString
    requires forall i :: 0 <= i < k ==> registry[i].path != m.referenceString
    ensures t.id in FindTypesInAllNamespaces(comp, registry)
    ensures Use(registry[k], m.category) in FindTypesInAllNamespaces(comp, registry)[t.id]
  {
    var triples := TypesTriples(AllTypes(comp.globalNamespace), registry);
    var x := Triple(t.id, Use(registry[k], m.category));
    FirstOrDefaultIsFirst(registry, (r: TaskMethod) => r.path == m.referenceString, k);
    TriplesForSpec(MethodTypes(m), Use(registry[k], m.category), t);
    MethodsTriplesSpec(ty.methods, registry, m, x);
    TypesTriplesSpec(AllTypes(comp.globalNamespace), registry, ty, x);
    GroupBySpec(triples);
    UsesOfSpec(triples, t.id);
    var i :| 0 <= i < |triples| && triples[i] == x;
    assert triples[i].typeId == t.id;
  }

  /** Some registered task has the method's reference string as its path. */
  predicate Registered(registry: seq<TaskMethod>, m: Method)
  {
    exists r :: r in registry && r.path == m.referenceString
  }

  /** A named parameter or return type of a registered method of one of the types. */
  predicate IsTaskType(types: seq<TypeDecl>, registry: seq<TaskMethod>, id: SymbolId)
  {
    exists ty, m, t :: ty in types && m in ty.methods && t in MethodTypes(m) && t.id == id && Registered(registry, m)
  }

  lemma {:induction false} MethodTriplesFrom(m: Method, registry: seq<TaskMethod>, x: Triple)
    requires x in MethodTriples(m, registry)
    ensures Registered(registry, m)
    ensures exists t :: t in MethodTypes(m) && t.id == x.typeId
  {
    var r := FirstOrDefault(registry, (t: TaskMethod) => t.path == m.referenceString);
    assert r.Some?;
    var ts := MethodTypes(m);
    var i :| 0 <= i < |TriplesFor(ts, Use(r.value, m.category))| && TriplesFor(ts, Use(r.value, m.category))[i] == x;
    assert ts[i] in ts && ts[i].id == x.typeId;
  }

  lemma {:induction false} MethodsTriplesFrom(ms: seq<Method>, registry: seq<TaskMethod>, x: Triple)
    requires x in MethodsTriples(ms, registry)
    ensures exists m :: m in ms && x in MethodTriples(m, registry)
  {
    if x !in MethodTriples(ms[0], registry) {
      MethodsTriplesFrom(ms[1..], registry, x);
      var m :| m in ms[1..] && x in MethodTriples(m, registry);
      assert m in ms;
    }
  }

  lemma {:induction false} TypesTriplesFrom(types: seq<TypeDecl>, registry: seq<TaskMethod>, x: Triple)
    requires x in TypesTriples(types, registry)
    ensures exists ty :: ty in types && x in MethodsTriples(ty.methods, registry)
  {
    if x !in MethodsTriples(types[0].methods, registry) {
      TypesTriplesFrom(types[1..], registry, x);
      var ty :| ty in types[1..] && x in MethodsTriples(ty.methods, registry);
      assert ty in types;
    }
  }

  /**
   * The lookup over a list of types finds exactly the named parameter and return types of
   * the registered methods of those types: nothing else, and none of them missed.
   */
  lemma FoundTypesIff(types: seq<TypeDecl>, registry: seq<TaskMethod>, id: SymbolId)
    ensures id in GroupBy(TypesTriples(types, registry)) <==> IsTaskType(types, registry, id)
  {
    var triples := TypesTriples(types, registry);
    GroupBySpec(triples);
    if id in GroupBy(triples) {
      var i :| 0 <= i < |triples| && triples[i].typeId == id;
      var x := triples[i];
      TypesTriplesFrom(types, registry, x);
      var ty :| ty in types && x in MethodsTriples(ty.methods, registry);
      MethodsTriplesFrom(ty.methods, registry, x);
      var m :| m in ty.methods && x in MethodTriples(m, registry);
      MethodTriplesFrom(m, registry, x);
      var t :| t in MethodTypes(m) && t.id == x.typeId;
      assert ty in types && m in ty.methods && t in MethodTypes(m) && t.id == id && Registered(registry, m);
    }
    if IsTaskType(types, registry, id) {
      var ty, m, t :| ty in types && m in ty.methods && t in MethodTypes(m) && t.id == id && Registered(registry, m);
      var r := FirstOrDefault(registry, (t: TaskMethod) => t.path == m.referenceString);
      var x := Triple(t.id, Use(r.value, m.category));
      TriplesForSpec(MethodTypes(m), Use(r.value, m.category), t);
      MethodsTriplesSpec(ty.methods, registry, m, x);
      TypesTriplesSpec(types, registry, ty, x);
      var i :| 0 <= i < |triples| && triples[i] == x;
      assert triples[i].typeId == id;
    }
  }

  /** As written, the types analysed are those of the registered methods of the global namespace's own types. */
  lemma FindTypesForAnalysisIff(comp: Compilation, registry: seq<TaskMethod>, id: SymbolId)
    ensures id in FindTypesForAnalysis(comp, registry) <==> IsTaskType(comp.globalNamespace.types, registry, id)
  {
    FoundTypesIff(comp.globalNamespace.types, registry, id);
  }

  /** As intended, the types analysed are those of the registered methods of every namespace's types. */
  lemma FindTypesInAllNamespacesIff(comp: Compilation, registry: seq<TaskMethod>, id: SymbolId)
    ensures id in FindTypesInAllNamespaces(comp, registry) <==> IsTaskType(AllTypes(comp.globalNamespace), registry, id)
  {
    FoundTypesIff(AllTypes(comp.globalNamespace), registry, id);
  }

  // ---------------------------------------------------------------------------
  // The checks

  const ThrowErrorOnFailure := "ThrowErrorOnFailure"
  const ErrorMessageOnFailure := "ErrorMessageOnFailure"

  /** Some property has the name (`HasProperty`). */
  predicate HasProperty(properties: seq<Property>, name: string)
  {
    exists p :: p in properties && p.name == name
  }

  /** `CheckDefaultValue`: a default that is given must be `true` for the flag and `""` for the message. */
  function DefaultValueReports(p: Property): seq<Diagnostic>
  {
    if p.defaultValue.None? then []
    else
      var d := p.defaultValue.value;
      if p.name == ThrowErrorOnFailure && d.value != BoolConst(true) then
        [Diagnostic(IncorrectPropertyDefaultValue, At(d.location), [p.name, "true"])]
      else if p.name == ErrorMessageOnFailure && d.value != StringConst("") then
        [Diagnostic(IncorrectPropertyDefaultValue, At(d.location), [p.name, "\"\""])]
      else []
  }

  /** One required property of `Options`: reported missing, or else the first of that name has its default checked. */
  function OptionReports(ty: TypeDecl, name: string): seq<Diagnostic>
  {
    var p := FirstOrDefault(ty.properties, (p: Property) => p.name == name);
    if p.None? then [Diagnostic(RequiredPropertyMissing, FirstLocation(ty.locations), [ty.name, name])]
    else DefaultValueReports(p.value)
  }

  /**
   * `CheckRequiredProperties` for one use. `from` is what `GetConverterTypes` gives for the
   * task's `From` property.
   */
  function RequiredPropertyReports(ty: TypeDecl, category: TaskCategory, from: Option<string>): seq<Diagnostic>
  {
    if ty.name == "Input" && category == Converter then
      if from.Some? && !HasProperty(ty.properties, from.value)
      then [Diagnostic(RequiredPropertyMissing, FirstLocation(ty.locations), [from.value])]
      else []
    else if ty.name == "Options" then
      OptionReports(ty, ThrowErrorOnFailure) + OptionReports(ty, ErrorMessageOnFailure)
    else []
  }

  lemma NamesDiffer()
    ensures ThrowErrorOnFailure != ErrorMessageOnFailure
  {
    assert ThrowErrorOnFailure[0] != ErrorMessageOnFailure[0];
  }

  /** The flag's default is accepted exactly when it is absent or `true`. */
  lemma ThrowErrorDefaultIff(p: Property)
    requires p.name == ThrowErrorOnFailure
    ensures DefaultValueReports(p) == [] <==> p.defaultValue.None? || p.defaultValue.value.value == BoolConst(true)
  {
  }

  /** The message's default is accepted exactly when it is absent or the empty string (not `null`). */
  lemma ErrorMessageDefaultIff(p: Property)
    requires p.name == ErrorMessageOnFailure
    ensures DefaultValueReports(p) == [] <==> p.defaultValue.None? || p.defaultValue.value.value == StringConst("")
  {
    NamesDiffer();
  }

  /** Defaults of other properties are never checked. */
  lemma OtherDefaultsUnchecked(p: Property)
    requires p.name != ThrowErrorOnFailure && p.name != ErrorMessageOnFailure
    ensures DefaultValueReports(p) == []
  {
  }

  /** An `Options` property is reported missing exactly when no property has its name. */
  lemma OptionMissingIff(ty: TypeDecl, name: string)
    ensures Diagnostic(RequiredPropertyMissing, FirstLocation(ty.locations), [ty.name, name]) in OptionReports(ty, name)
      <==> !HasProperty(ty.properties, name)
    ensures |OptionReports(ty, name)| <= 1
  {
    var p := FirstOrDefault(ty.properties, (p: Property) => p.name == name);
    if p.Some? {
      assert p.value in ty.properties;
    }
  }

  /** The property checked is the first with the name, even when a later one has a correct default. */
  lemma OptionChecksFirst(ty: TypeDecl, name: string, k: nat)
    requires k < |ty.properties| && ty.properties[k].name == name
    requires forall i :: 0 <= i < k ==> ty.properties[i].name != name
    ensures OptionReports(ty, name) == DefaultValueReports(ty.properties[k])
  {
    FirstOrDefaultIsFirst(ty.properties, (p: Property) => p.name == name, k);
  }

  /** An `Input` type of a converter is reported exactly when the `From` property is known and missing. */
  lemma ConverterInputIff(ty: TypeDecl, from: Option<string>)
    requires ty.name == "Input"
    ensures RequiredPropertyReports(ty, Converter, from) != [] <==> from.Some? && !HasProperty(ty.properties, from.value)
  {
  }

  /** Only `Options` types and the `Input` types of converters are checked. */
  lemma OtherTypesUnchecked(ty: TypeDecl, category: TaskCategory, from: Option<string>)
    requires ty.name != "Options" && (ty.name != "Input" || category != Converter)
    ensures RequiredPropertyReports(ty, category, from) == []
  {
  }

  // ---------------------------------------------------------------------------
  // The symbol callback

  /** The reports for a type, one `CheckRequiredProperties` per recorded use, in order. */
  function NamedTypeReports(ty: TypeDecl, uses: seq<Use>, converterFrom: TaskMethod -> Option<string>): seq<Diagnostic>
  {
    if uses == [] then []
    else
      NamedTypeReports(ty, uses[..|uses| - 1], converterFrom)
      + RequiredPropertyReports(ty, uses[|uses| - 1].category, converterFrom(uses[|uses| - 1].taskMethod))
  }

  /**
   * `AnalyzeNamedTypes`: nothing for a type without recorded uses; otherwise the checks of
   * every use, with nothing merged between uses.
   */
  method AnalyzeNamedType(ty: TypeDecl, types: map<SymbolId, seq<Use>>, converterFrom: TaskMethod -> Option<string>)
    returns (diags: seq<Diagnostic>)
    ensures ty.id !in types ==> diags == []
    ensures ty.id in types ==> diags == NamedTypeReports(ty, types[ty.id], converterFrom)
  {
    diags := [];
    if ty.id !in types {
      return;
    }
    var uses := types[ty.id];
    for i := 0 to |uses|
      invariant diags == NamedTypeReports(ty, uses[..i], converterFrom)
    {
      assert uses[..i + 1][..i] == uses[..i];
      diags := diags + RequiredPropertyReports(ty, uses[i].category, converterFrom(uses[i].taskMethod));
    }
    assert uses[..|uses|] == uses;
  }

  /** A type shared by several tasks of the same kind is reported once per task. */
  lemma {:induction false} ReportsRepeatPerUse(ty: TypeDecl, uses: seq<Use>, converterFrom: TaskMethod -> Option<string>, rule: Rule)
    requires ty.name == "Options"
    ensures CountRule(NamedTypeReports(ty, uses, converterFrom), rule) ==
      |uses| * CountRule(RequiredPropertyReports(ty, Generic, None), rule)
  {
    if uses != [] {
      var last := uses[|uses| - 1];
      var c := CountRule(RequiredPropertyReports(ty, Generic, None), rule);
      ReportsRepeatPerUse(ty, uses[..|uses| - 1], converterFrom, rule);
      assert RequiredPropertyReports(ty, last.category, converterFrom(last.taskMethod)) == RequiredPropertyReports(ty, Generic, None) by {
        assert ty.name != "Input" by {
          assert |ty.name| != |"Input"|;
        }
      }
      CountRuleConcat(NamedTypeReports(ty, uses[..|uses| - 1], converterFrom), RequiredPropertyReports(ty, Generic, None), rule);
      assert (|uses| - 1) * c + c == |uses| * c;
    }
  }

  /** The whole analyzer over the named-type symbols of a compilation. */
  function Reports(perTree: seq<Result<Option<seq<TaskMethod>>, RegistryError>>, comp: Compilation,
                   symbols: seq<TypeDecl>, converterFrom: TaskMethod -> Option<string>): seq<Diagnostic>
    requires SelectRegistry(perTree).Success? && SelectRegistry(perTree).value.Some?
  {
    var types := FindTypesForAnalysis(comp, SelectRegistry(perTree).value.value);
    SymbolsReports(symbols, types, converterFrom)
  }

  function SymbolsReports(symbols: seq<TypeDecl>, types: map<SymbolId, seq<Use>>, converterFrom: TaskMethod -> Option<string>)
    : seq<Diagnostic>
  {
    if symbols == [] then []
    else
      SymbolsReports(symbols[..|symbols| - 1], types, converterFrom)
      + (var ty := symbols[|symbols| - 1];
         if ty.id in types then NamedTypeReports(ty, types[ty.id], converterFrom) else [])
  }

  /**
   * `RegisterActions` and the callbacks: an exception while choosing the registry ends the
   * analysis; no registry registers nothing; otherwise each named type is analysed.
   */
  method Analyze(perTree: seq<Result<Option<seq<TaskMethod>>, RegistryError>>, comp: Compilation,
                 symbols: seq<TypeDecl>, converterFrom: TaskMethod -> Option<string>)
    returns (r: Result<seq<Diagnostic>, RegistryError>)
    ensures SelectRegistry(perTree).Failure? ==> r == Failure(SelectRegistry(perTree).error)
    ensures SelectRegistry(perTree) == Success(None) ==> r == Success([])
    ensures SelectRegistry(perTree).Success? && SelectRegistry(perTree).value.Some? ==>
      r == Success(Reports(perTree, comp, symbols, converterFrom))
  {
    var registry := SelectRegistry(perTree);
    if registry.Failure? {
      return Failure(registry.error);
    }
    if registry.value.None? {
      return Success([]);
    }
    var types := FindTypesForAnalysis(comp, registry.value.value);
    var diags := [];
    for i := 0 to |symbols|
      invariant diags == SymbolsReports(symbols[..i], types, converterFrom)
    {
      assert symbols[..i + 1][..i] == symbols[..i];
      var reports := AnalyzeNamedType(symbols[i], types, converterFrom);
      diags := diags + reports;
    }
    assert symbols[..|symbols|] == symbols;
    r := Success(diags);
  }

  /** The whole analyzer as intended, with the lookup over every namespace. */
  function IntendedReports(perTree: seq<Result<Option<seq<TaskMethod>>, RegistryError>>, comp: Compilation,
                           symbols: seq<TypeDecl>, converterFrom: TaskMethod -> Option<string>): seq<Diagnostic>
    requires SelectRegistry(perTree).Success? && SelectRegistry(perTree).value.Some?
  {
    var types := FindTypesInAllNamespaces(comp, SelectRegistry(perTree).value.value);
    SymbolsReports(symbols, types, converterFrom)
  }

  // ---------------------------------------------------------------------------
  // A task inside a namespace

  /** `Echo.Execute(Options options)` of a task `N.Echo`, returning a `Result`. */
  const EchoOptions := TypeRef(2, "Options", true, 2, [], [])
  const EchoResult := TypeRef(3, "Result", true, 3, [], [])
  const EchoExecute := Method(1, "Execute", false, true, true, "N.Echo.Execute", "N.Echo.Execute(N.Options)",
    [Parameter("options", false, EchoOptions, None, [], [], [], 0)], EchoResult, Generic, Docs(None, None), [], None)
  const Echo := TypeDecl(4, "Echo", false, true, true, [EchoExecute], [], Docs(None, None), [], None)
  /** The `Options` class itself, declaring neither required property. */
  const EchoOptionsDecl := TypeDecl(2, "Options", false, false, true, [], [], Docs(None, None), [], None)
  /** `N.Echo` declared in namespace `N`, nothing in the global namespace itself. */
  const EchoCompilation := Compilation(None, None, Namespace([], [Namespace([Echo], [], [], None)], [], None))
  const EchoRegistry := [TaskMethod("N.Echo.Execute", None, None, None)]

  lemma EchoLookups()
    ensures FindTypesForAnalysis(EchoCompilation, EchoRegistry) == map[]
    ensures FindTypesInAllNamespaces(EchoCompilation, EchoRegistry) ==
      map[2 := [Use(EchoRegistry[0], Generic)], 3 := [Use(EchoRegistry[0], Generic)]]
  {
    var inner := Namespace([Echo], [], [], None);
    var u := Use(EchoRegistry[0], Generic);
    assert ParameterTypes(EchoExecute.parameters) == [EchoOptions];
    assert MethodTypes(EchoExecute) == [EchoOptions, EchoResult];
    assert FirstOrDefault(EchoRegistry, (t: TaskMethod) => t.path == EchoExecute.referenceString) == Some(EchoRegistry[0]);
    assert MethodTriples(EchoExecute, EchoRegistry) == [Triple(2, u), Triple(3, u)];
    assert [inner][1..] == [];
    assert AllTypes(inner) == [Echo] + [] + [];
    assert AllTypesOf([inner]) == [Echo];
    assert AllTypes(EchoCompilation.globalNamespace) == [Echo];
    var triples := [Triple(2, u), Triple(3, u)];
    assert [EchoExecute][1..] == [] && [Echo][1..] == [];
    assert MethodsTriples([EchoExecute], EchoRegistry) == triples + [];
    assert TypesTriples([Echo], EchoRegistry) == triples + [];
    assert triples + [] == triples;
    assert TypesTriples(AllTypes(EchoCompilation.globalNamespace), EchoRegistry) == triples;
    GroupByTwo(Triple(2, u), Triple(3, u));
  }

  lemma GroupByTwo(x: Triple, y: Triple)
    requires x.typeId != y.typeId
    ensures GroupBy([x, y]) == map[x.typeId := [x.use], y.typeId := [y.use]]
  {
    var empty: seq<Triple> := [];
    var noUses: seq<Use> := [];
    assert [x, y][..1] == [x] && [x][..0] == empty;
    assert noUses + [x.use] == [x.use] && noUses + [y.use] == [y.use];
    assert GroupBy([x]) == map[x.typeId := [x.use]];
  }

  /**
   * As written, a task declared inside a namespace, which is where task classes live,
   * contributes nothing: its `Options` type, which lacks both required properties, draws no
   * report, where the intended lookup reports both missing properties.
   */
  lemma NamespacedTaskIsMissed()
    ensures var perTree := [Success(Some(EchoRegistry))];
      var noFrom := (t: TaskMethod) => None;
      SelectRegistry(perTree) == Success(Some(EchoRegistry))
      && Reports(perTree, EchoCompilation, [EchoOptionsDecl], noFrom) == []
      && IntendedReports(perTree, EchoCompilation, [EchoOptionsDecl], noFrom) ==
        [Diagnostic(RequiredPropertyMissing, NoLocation, ["Options", ThrowErrorOnFailure]),
         Diagnostic(RequiredPropertyMissing, NoLocation, ["Options", ErrorMessageOnFailure])]
  {
    var perTree: seq<Result<Option<seq<TaskMethod>>, RegistryError>> := [Success(Some(EchoRegistry))];
    var noFrom := (t: TaskMethod) => None;
    var u := Use(EchoRegistry[0], Generic);
    EchoLookups();
    NamesDiffer();
    var symbols := [EchoOptionsDecl];
    var none: seq<TypeDecl> := [];
    assert symbols[..0] == none;
    assert [u][..0] == [];
    assert NamedTypeReports(EchoOptionsDecl, [u], noFrom) == RequiredPropertyReports(EchoOptionsDecl, Generic, None);
    assert SymbolsReports(symbols, map[], noFrom) == [];
    var all := FindTypesInAllNamespaces(EchoCompilation, EchoRegistry);
    assert SymbolsReports(symbols, all, noFrom) == NamedTypeReports(EchoOptionsDecl, all[2], noFrom);
  }
}
