# FrendsTaskAnalyzers in Dafny

A model of the Roslyn analyzers that check Frends task projects. A Frends task is a
public static method registered by its dotted path (`Vendor.System.Action.Class.Method`)
in a task registry. The registry comes from the `frends_task_analyzers.task_methods`
option or from the `Tasks` array of the `FrendsTaskMetadata.json` side-car.

For every registered method, the analyzers are meant to report rule violations:
- naming of namespaces, types and methods against the vendor, system and action of the path;
- structure: static class and method, no overloads, a `Result` return type with the
  properties the task category requires;
- the parameters `input`, `options` and `cancellationToken`: presence, names,
  `[PropertyTab]`, unknown extras and order;
- the XML documentation comment: tags, a documentation link, valid XML;
- the defaults of well-known option properties, and the converter input type.

The model covers the current analyzers under `Analyzers/`, and also the older generations
still in the repository:
- `NameAnalyzer/`, `NameAnalyzer.cs` and `NamingAnalyzer.cs`;
- `ParametersAnalyzer/`;
- `TaskMethodAnalyzer.cs`.

The Roslyn symbol and syntax model is reduced to datatypes. Their attributes are what the
analyzers read: names, static and public flags, locations, parameters, return types,
documentation XML and declared defaults.

Each analyzer callback is modelled as a function or method from those inputs to the
sequence of diagnostics it reports, in reporting order. A diagnostic is modelled as rule,
location and message arguments. Loops that report while iterating are methods. Each such
method is proved equal to a specification function, and the properties are proved as
lemmas about those functions.

`StructureAnalyzer` keeps two hash sets across callbacks. It is a class whose fields are
those sets and the report log. Its methods are proved to match pure step functions. Lemmas
about any sequence of callbacks show that each diagnostic is admitted by a key of its own,
that no key admits two, and that running the callbacks again reports nothing new.

`StructureAnalyzer` reads the `TaskMethods` list of its own instance, which starts empty
and which it never assigns, so as written it reports nothing (see "## Findings"). The current
`ParametersAnalyzer` never assigns the `TaskMethods` it reads in its own file. Its base
class is `BaseAnalyzer/BaseAnalyzer.cs`, the one that declares the `AdditionalDiagnostics` it
overrides. There the field is a nullable list with no initial value. The base assigns it
(`BaseAnalyzer/BaseAnalyzer.cs` lines 26-31) only in a compilation action, which runs at the
end of a compilation, after the syntax-node callbacks. So the guard
`TaskMethods?.Any(...) != true` sees `null`, and rejects every method, during the first
compilation an analyzer instance handles. In a later compilation on the same instance it
sees the registry of the previous compilation. The model passes the registry as an input,
the evident intent. It proves the first-compilation behaviour with the empty registry,
which for `ParametersAnalyzer` stands for that `null`.

Modules, one per file:
- `Wrappers`, `Strings`, `Linq`: option and result types, the .NET string operations, and
  the LINQ queries used;
- `Diagnostics`: rules, locations and diagnostics;
- `Symbols`, `Xml`: the declaration model and the documentation XML;
- `TaskMethods`, `TypeSymbols`, `AnalyzerOptions`: `TaskMethod.Parse`,
  `IsValidTaskReturnType` and the registry assembly;
- `ParameterOrder`: the ordering scan shared by both parameter analyzers;
- one module per analyzer.

## Model

| member | source | states |
|---|---|---|
| Strings.Split | FrendsTaskAnalyzers/FrendsTaskAnalyzers/Models/TaskMethod.cs:26 | `string.Split(char)` always yields at least one piece |
| Strings.SplitCount | FrendsTaskAnalyzers/FrendsTaskAnalyzers/Models/TaskMethod.cs:26-27 | a split has one more piece than there are separators, so the path's part count is its dot count plus one |
| Strings.SplitPiecesFree | FrendsTaskAnalyzers/FrendsTaskAnalyzers/Models/TaskMethod.cs:46-48 | no piece of a split contains the separator, so vendor, system and action are dot-free |
| Strings.SplitJoin | FrendsTaskAnalyzers/FrendsTaskAnalyzers/Models/TaskMethod.cs:26 | joining the pieces with the separator gives back the original string |
| Strings.SplitAfterPiece | FrendsTaskAnalyzers/FrendsTaskAnalyzers/Models/TaskMethod.cs:26 | a separator-free prefix followed by the separator is the first piece, and the rest splits on its own |
| Linq.FirstOrDefault | FrendsTaskAnalyzers/FrendsTaskAnalyzers/Analyzers/NameAnalyzer/NameAnalyzer.cs:39 | `FirstOrDefault(p)` finds an element of the sequence that satisfies `p`, and finds nothing exactly when no element does |
| Linq.FirstOrDefaultIsFirst | FrendsTaskAnalyzers/FrendsTaskAnalyzers/Analyzers/NameAnalyzer/NameAnalyzer.cs:39 | the element found is the one at the least index that satisfies `p` |
| Linq.FirstOrDefaultConcat | FrendsTaskAnalyzers/FrendsTaskAnalyzers/Analyzers/NameAnalyzer/NameAnalyzer.cs:39 | over a concatenation, the first part decides whenever it has a match |
| Linq.Where | FrendsTaskAnalyzers/FrendsTaskAnalyzers/Extensions/AnalyzerOptionsExtensions.cs:78 | `Where` keeps exactly the elements that satisfy the predicate, and never adds any |
| Linq.WhereConcat | FrendsTaskAnalyzers/FrendsTaskAnalyzers/Extensions/AnalyzerOptionsExtensions.cs:78 | `Where` distributes over concatenation, so order is kept |
| Diagnostics.FirstLocation | FrendsTaskAnalyzers/FrendsTaskAnalyzers/Analyzers/StructureAnalyzer/StructureAnalyzer.cs:114-115 | `Locations.FirstOrDefault()` is `Location.None` exactly for an empty list, and otherwise the first location |
| Diagnostics.ReportAt | FrendsTaskAnalyzers/FrendsTaskAnalyzers/Analyzers/NameAnalyzer/NameAnalyzer.cs:73-80 | reporting a rule at each location gives one diagnostic per location, in order, all with the same arguments |
| Diagnostics.CountReportAt | FrendsTaskAnalyzers/FrendsTaskAnalyzers/Analyzers/NameAnalyzer/NameAnalyzer.cs:73-80 | reporting at each location gives as many diagnostics of that rule as there are locations, and none of any other rule |
| Diagnostics.ReportEach | FrendsTaskAnalyzers/FrendsTaskAnalyzers/NameAnalyzer.cs:66-73 | the `foreach` over `Locations` reports the rule once at each location, in order |
| TaskMethods.Parse | FrendsTaskAnalyzers/FrendsTaskAnalyzers/Models/TaskMethod.cs:24-50 | a parsed task method keeps its path, and has either all three components or none; each `ArgumentException` names the argument it rejects |
| TaskMethods.ParseRejectsPathIff | FrendsTaskAnalyzers/FrendsTaskAnalyzers/Models/TaskMethod.cs:26-30 | the path is rejected exactly when it is empty, starts or ends with a dot, or has fewer than three parts, whatever the root namespace |
| TaskMethods.ParseRejectsRootIff | FrendsTaskAnalyzers/FrendsTaskAnalyzers/Models/TaskMethod.cs:32-34 | for a well-shaped path, parsing fails exactly when a root namespace is given that starts or ends with a dot, and then the error names that root namespace |
| TaskMethods.ShortPathHasNoComponents | FrendsTaskAnalyzers/FrendsTaskAnalyzers/Models/TaskMethod.cs:36-37 | a valid path of three or four parts is accepted with no vendor, system or action |
| TaskMethods.LongPathComponents | FrendsTaskAnalyzers/FrendsTaskAnalyzers/Models/TaskMethod.cs:46-49 | a path of five or more parts outside the root namespace yields its first three parts as vendor, system and action |
| TaskMethods.RootedPathComponentsIff | FrendsTaskAnalyzers/FrendsTaskAnalyzers/Models/TaskMethod.cs:39-44 | a path of five or more parts under the root namespace has components exactly when the root namespace has three parts |
| TaskMethods.ComponentsSpellPath | FrendsTaskAnalyzers/FrendsTaskAnalyzers/Models/TaskMethod.cs:46-49 | whenever components are set, they are dot-free and the path starts with `vendor.system.action.` |
| TaskMethods.ComponentsFromSegments | FrendsTaskAnalyzers/FrendsTaskAnalyzers/Models/TaskMethod.cs:24-50 | the converse: `v.s.a.tail`, with dot-free non-empty `v`, `s`, `a` and a tail of two or more parts, parses to exactly those components, with no root namespace or with `v.s.a` as root |
| TaskMethods.ThreeSegmentRoot | FrendsTaskAnalyzers/FrendsTaskAnalyzers/Models/TaskMethod.cs:32-42 | a root namespace `v.s.a` of dot-free segments passes the root check and counts three parts |
| Symbols.IdentifierText | FrendsTaskAnalyzers/FrendsTaskAnalyzers/TaskMethodAnalyzer.cs:100 | the identifier text the syntax analyzers compare is the symbol name, with a leading `@` exactly for a verbatim identifier, so a verbatim identifier never equals its symbol name |
| TypeSymbols.IsValidTaskReturnType | FrendsTaskAnalyzers/FrendsTaskAnalyzers/Extensions/TypeSymbolExtensions.cs:8-17 | a return type is valid when it is named `Result`, or when it is a named type whose original definition is the resolved `Task<T>` and whose first type argument is named `Result`; the cases are proved in the lemmas below |
| TypeSymbols.ResultType | FrendsTaskAnalyzers/FrendsTaskAnalyzers/Extensions/TypeSymbolExtensions.cs:8-17 | inside a valid return type, the type whose properties are checked is named `Result`: the type itself, or the argument of `Task<>` |
| TypeSymbols.ResultIsValid | FrendsTaskAnalyzers/FrendsTaskAnalyzers/Extensions/TypeSymbolExtensions.cs:10 | any type named `Result` is valid, whatever its namespace |
| TypeSymbols.TaskOfResultIsValid | FrendsTaskAnalyzers/FrendsTaskAnalyzers/Extensions/TypeSymbolExtensions.cs:12-16 | `Task<Result>` is valid, and its `Result` argument is the checked type |
| TypeSymbols.InvalidReturnTypes | FrendsTaskAnalyzers/FrendsTaskAnalyzers/Extensions/TypeSymbolExtensions.cs:12-16 | a type is invalid when it is not named `Result` and is not a named type, is non-generic, not from `Task<T>` (or `Task<T>` cannot be resolved), or has a first argument of another name |
| AnalyzerOptions.ParseTaskMethods | FrendsTaskAnalyzers/FrendsTaskAnalyzers/Extensions/AnalyzerOptionsExtensions.cs:73-79 | a successful parse yields no more task methods than there were entries |
| AnalyzerOptions.ParseTaskMethodsSpec | FrendsTaskAnalyzers/FrendsTaskAnalyzers/Extensions/AnalyzerOptionsExtensions.cs:73-79 | the call succeeds exactly when every entry can be read and every non-blank one parses; the list is then the non-blank entries, in order, each parsed against the same root namespace |
| AnalyzerOptions.FromConfig | FrendsTaskAnalyzers/FrendsTaskAnalyzers/Extensions/AnalyzerOptionsExtensions.cs:60-71 | a missing or blank option gives `null`; any other value gives a non-null list or an exception |
| AnalyzerOptions.ConfigEntries | FrendsTaskAnalyzers/FrendsTaskAnalyzers/Extensions/AnalyzerOptionsExtensions.cs:70 | each `;`-separated piece becomes one readable, non-null entry, in order |
| AnalyzerOptions.ConfigCandidates | FrendsTaskAnalyzers/FrendsTaskAnalyzers/Extensions/AnalyzerOptionsExtensions.cs:70-78 | the pieces that reach `Parse` are exactly the non-blank pieces, in order |
| AnalyzerOptions.ConfigRegistry | FrendsTaskAnalyzers/FrendsTaskAnalyzers/Extensions/AnalyzerOptionsExtensions.cs:67-70 | a non-blank option value succeeds exactly when every non-blank piece parses, and yields those pieces' task methods in order |
| AnalyzerOptions.Member | FrendsTaskAnalyzers/FrendsTaskAnalyzers/Extensions/AnalyzerOptionsExtensions.cs:51-55 | `TryGetProperty`: the value of the last member with the name, if any (`MemberSpec`) |
| AnalyzerOptions.MemberSpec | FrendsTaskAnalyzers/FrendsTaskAnalyzers/Extensions/AnalyzerOptionsExtensions.cs:51-55 | a property lookup succeeds exactly when some member has the name, and returns the value of the last such member |
| AnalyzerOptions.TaskMethodOf | FrendsTaskAnalyzers/FrendsTaskAnalyzers/Extensions/AnalyzerOptionsExtensions.cs:55 | a string read from an element is the value of its `TaskMethod` member; an element that is not an object raises an exception |
| AnalyzerOptions.JsonEntries | FrendsTaskAnalyzers/FrendsTaskAnalyzers/Extensions/AnalyzerOptionsExtensions.cs:54-55 | the `Select` maps each array element, in order, to its entry |
| AnalyzerOptions.TasksArray | FrendsTaskAnalyzers/FrendsTaskAnalyzers/Extensions/AnalyzerOptionsExtensions.cs:51-52 | the root object's `Tasks` member when it is an array; any other value, or none, gives no array, so the side-car yields `null` (`FromJson`) |
| AnalyzerOptions.FromJson | FrendsTaskAnalyzers/FrendsTaskAnalyzers/Extensions/AnalyzerOptionsExtensions.cs:37-58 | no side-car file gives `null`; text that is not JSON raises an exception; an object without a `Tasks` array gives `null` |
| AnalyzerOptions.JsonRegistry | FrendsTaskAnalyzers/FrendsTaskAnalyzers/Extensions/AnalyzerOptionsExtensions.cs:51-57 | for a `Tasks` array, the registry succeeds exactly when every element reads and every non-blank `TaskMethod` parses, and lists those in array order |
| AnalyzerOptions.GetTaskMethods | FrendsTaskAnalyzers/FrendsTaskAnalyzers/Extensions/AnalyzerOptionsExtensions.cs:21-35 | an exception from the config channel is never masked by the side-car |
| AnalyzerOptions.ConfigTakesPrecedence | FrendsTaskAnalyzers/FrendsTaskAnalyzers/Extensions/AnalyzerOptionsExtensions.cs:28-29 | a non-blank config value decides the result on its own, whatever the side-car holds |
| AnalyzerOptions.BlankConfigFallsBack | FrendsTaskAnalyzers/FrendsTaskAnalyzers/Extensions/AnalyzerOptionsExtensions.cs:31-32 | without a non-blank config value, the side-car decides the result |
| AnalyzerOptions.NothingConfigured | FrendsTaskAnalyzers/FrendsTaskAnalyzers/Extensions/AnalyzerOptionsExtensions.cs:34 | with neither a config value nor a side-car, the registry is `null` |
| NameAnalyzer.FindByReference | FrendsTaskAnalyzers/FrendsTaskAnalyzers/Analyzers/NameAnalyzer/NameAnalyzer.cs:39 | the first registered task whose path is the method's reference string (`Linq.FirstOrDefaultIsFirst`) |
| NameAnalyzer.WrongAction | FrendsTaskAnalyzers/FrendsTaskAnalyzers/Analyzers/NameAnalyzer/NameAnalyzer.cs:39-40 | the action the method should be named after, present only when the method's task has an action and the method has another name (`AnalyzeMethods`) |
| NameAnalyzer.WrongSystem | FrendsTaskAnalyzers/FrendsTaskAnalyzers/Analyzers/NameAnalyzer/NameAnalyzer.cs:52-54 | the system the type should be named after: that of the first task declared by one of the type's methods, present only when it has a system and the type has another name (`AnalyzeNamedType`) |
| NameAnalyzer.NamespaceNameLocations | FrendsTaskAnalyzers/FrendsTaskAnalyzers/Analyzers/NameAnalyzer/NameAnalyzer.cs:73-78 | a location is taken exactly for each syntax reference that is a namespace declaration, so there are never more locations than references |
| NameAnalyzer.AnalyzeMethods | FrendsTaskAnalyzers/FrendsTaskAnalyzers/Analyzers/NameAnalyzer/NameAnalyzer.cs:35-46 | nothing is reported unless the method's task has an action the method is not named after; then a `MethodName` carrying the action is reported at every location of the method |
| NameAnalyzer.AnalyzeNamedType | FrendsTaskAnalyzers/FrendsTaskAnalyzers/Analyzers/NameAnalyzer/NameAnalyzer.cs:48-60 | nothing is reported unless the first task declared by one of the type's methods has a system the type is not named after; then a `TypeName` carrying the system is reported at every location of the type |
| NameAnalyzer.AnalyzeNamespace | FrendsTaskAnalyzers/FrendsTaskAnalyzers/Analyzers/NameAnalyzer/NameAnalyzer.cs:62-81 | nothing is reported unless the first task declared by a type of the namespace lacks a component; then a `NamespaceFormat` goes to the name of each declaration of the containing namespace, and the global namespace throws |
| NameAnalyzer.ReportNamespaceNames | FrendsTaskAnalyzers/FrendsTaskAnalyzers/Analyzers/NameAnalyzer/NameAnalyzer.cs:73-80 | the loop reports a `NamespaceFormat` at the name of each namespace declaration, in order, and skips other syntax |
| NameAnalyzer.Analyze | FrendsTaskAnalyzers/FrendsTaskAnalyzers/Analyzers/NameAnalyzer/NameAnalyzer.cs:17-33 | no rule runs without a registry; otherwise every visited symbol gets exactly what its own callback reports, in visiting order (a callback that throws reports nothing) |
| NameAnalyzer.AnalyzeSymbol | FrendsTaskAnalyzers/FrendsTaskAnalyzers/Analyzers/NameAnalyzer/NameAnalyzer.cs:25-32 | a method, named type or namespace is sent to the callback registered for its kind |
| NameAnalyzer.OtherTasksDoNotAffectMethod | FrendsTaskAnalyzers/FrendsTaskAnalyzers/Analyzers/NameAnalyzer/NameAnalyzer.cs:39-40 | adding tasks with other paths ahead of a method's task, or any tasks behind it, does not change what the method is reported for |
| NameAnalyzer.OtherTasksDoNotAffectType | FrendsTaskAnalyzers/FrendsTaskAnalyzers/Analyzers/NameAnalyzer/NameAnalyzer.cs:52-54 | tasks that no method of a type declares, added ahead or behind, do not change what the type is reported for |
| NameAnalyzer.CorrectNamesAreClean | FrendsTaskAnalyzers/FrendsTaskAnalyzers/Analyzers/NameAnalyzer/NameAnalyzer.cs:35-81 | a registered task with all components, a method named after its action, in a type named after its system, in a namespace: none of the three is reported, whatever tasks follow it in the registry and whatever tasks precede it that no type of the namespace declares |
| LegacyNameAnalyzers.ReportTaskNames | FrendsTaskAnalyzers/FrendsTaskAnalyzers/NameAnalyzer/NameAnalyzer.cs:51-81 | the three loops report the misnamed method, then the misnamed type, then (without a vendor) the namespace declaration names, in that order |
| LegacyNameAnalyzers.ReportLeadingNamespaces | FrendsTaskAnalyzers/FrendsTaskAnalyzers/NamingAnalyzer.cs:90-102 | the namespace loop reports a `NamespaceFormat` at each declaration name before the first other syntax, where `return` ends the analysis |
| LegacyNameAnalyzers.LeadingIsPrefix | FrendsTaskAnalyzers/FrendsTaskAnalyzers/NamingAnalyzer.cs:90-102 | the names reported when stopping are a prefix of those reported when skipping, and the two agree when every reference is a namespace declaration |
| LegacyNameAnalyzers.CorrectNamesAreClean | FrendsTaskAnalyzers/FrendsTaskAnalyzers/NameAnalyzer/NameAnalyzer.cs:51-81 | a method named after the action, in a type named after the system, of a task with all components, is reported for nothing |
| LegacyNameAnalyzers.NamespaceReportedIffNoVendor | FrendsTaskAnalyzers/FrendsTaskAnalyzers/NameAnalyzer/NameAnalyzer.cs:69-81 | when there is a namespace name to report at, a `NamespaceFormat` is reported exactly when the task has no vendor, whatever its system and action |
| LegacyNameAnalyzers.StopDiffersFromSkip | FrendsTaskAnalyzers/FrendsTaskAnalyzers/NamingAnalyzer.cs:95-96 | a namespace declaration behind an other syntax reference is reported by the revision that skips and not by the one that stops |
| LegacyNameAnalyzers.AnalyzeWithMetadataCheck | FrendsTaskAnalyzers/FrendsTaskAnalyzers/NameAnalyzer/NameAnalyzer.cs:37-82 | a missing or empty registry gives one location-less `MetadataMissing` per method; otherwise the method's task, found by reference string, is checked with other syntax skipped, and an unmatched method gives nothing |
| LegacyNameAnalyzers.AnalyzeByReference | FrendsTaskAnalyzers/FrendsTaskAnalyzers/NameAnalyzer.cs:57-97 | a missing registry throws; otherwise the method's task, found by reference string, is checked with other syntax skipped |
| LegacyNameAnalyzers.AnalyzeByDisplayString | FrendsTaskAnalyzers/FrendsTaskAnalyzers/NamingAnalyzer.cs:58-103 | a missing registry throws; otherwise the task found by the method's display string is checked, and the namespace loop stops at the first other syntax |
| LegacyNameAnalyzers.AnalyzeKeyed | FrendsTaskAnalyzers/FrendsTaskAnalyzers/NameAnalyzer.cs:60-97 | the shared body of both revisions: a throw without a registry, nothing when no path equals the key, else the task's name reports |
| LegacyNameAnalyzers.UnmatchedMethodIsClean | FrendsTaskAnalyzers/FrendsTaskAnalyzers/NameAnalyzer.cs:62-64 | a method whose key no registered path equals is reported for nothing by any revision, given a non-empty registry |
| LegacyNameAnalyzers.FirstTaskDecides | FrendsTaskAnalyzers/FrendsTaskAnalyzers/NamingAnalyzer.cs:68-70 | the first task whose path equals the key decides the reports, and later duplicates are ignored |
| StructureAnalyzer.MissingPropertiesChain | FrendsTaskAnalyzers/FrendsTaskAnalyzers/Analyzers/StructureAnalyzer/StructureAnalyzer.cs:140-176 | the chain of `HasProperty` checks and the category `switch` reports exactly the required properties the result type lacks: `Success`, `Error`, then the category's own, in that order |
| StructureAnalyzer.RequiredPropertiesByCategory | FrendsTaskAnalyzers/FrendsTaskAnalyzers/Analyzers/StructureAnalyzer/StructureAnalyzer.cs:143-175 | every category requires `Success` and `Error` first; `Data` only for database tasks, `Body` and `StatusCode` only for HTTP tasks, `TargetFormat` only for converters, `FilePath` only for file tasks, and nothing more for generic tasks |
| StructureAnalyzer.InitialValid | FrendsTaskAnalyzers/FrendsTaskAnalyzers/Analyzers/StructureAnalyzer/StructureAnalyzer.cs:27-28 | the two sets created per compilation start empty, and the invariant holds |
| StructureAnalyzer.ReportOnceStep | FrendsTaskAnalyzers/FrendsTaskAnalyzers/Analyzers/StructureAnalyzer/StructureAnalyzer.cs:107-131 | `ReportOnce` on values: unless its (symbol, rule id) key is already in the set, the key is added and one diagnostic is reported at the declaration's identifier, or at `Location.None` without syntax (properties in `ReportOnceSpec`) |
| StructureAnalyzer.ReportMissingPropertyStep | FrendsTaskAnalyzers/FrendsTaskAnalyzers/Analyzers/StructureAnalyzer/StructureAnalyzer.cs:178-209 | `ReportMissingProperty` on values: the (method, `FT0011`, property) key is added first, then the diagnostic is reported at the first location found, or dropped (properties in `ReportMissingPropertySpec`) |
| StructureAnalyzer.AnalyzeClassStep | FrendsTaskAnalyzers/FrendsTaskAnalyzers/Analyzers/StructureAnalyzer/StructureAnalyzer.cs:43-56 | `AnalyzeClass` on values: `ClassShouldBeStatic` once for a non-static type whose name occurs in a task path |
| StructureAnalyzer.AnalyzeMethodStep | FrendsTaskAnalyzers/FrendsTaskAnalyzers/Analyzers/StructureAnalyzer/StructureAnalyzer.cs:58-105 | `AnalyzeMethod` on values: nothing for an unregistered method; otherwise the static check, the overload check, then either `ReturnTypeIncorrect` or the required-property checks on the `Result` type |
| StructureAnalyzer.ReportOnceSpec | FrendsTaskAnalyzers/FrendsTaskAnalyzers/Analyzers/StructureAnalyzer/StructureAnalyzer.cs:107-131 | `ReportOnce` keeps the invariant (each diagnostic reported is admitted by the key logged with it: a key of its own rule id, and for a property key also of its property; no key is logged twice; every logged key is in its set), only grows the sets and the reports, and records its (symbol, rule id) key |
| StructureAnalyzer.ReportMissingPropertySpec | FrendsTaskAnalyzers/FrendsTaskAnalyzers/Analyzers/StructureAnalyzer/StructureAnalyzer.cs:178-209 | `ReportMissingProperty` keeps the same invariant, only grows the state, and records its (method, `FT0011`, property) key even when no diagnostic is reported |
| StructureAnalyzer.ReportMissingPropertiesSpec | FrendsTaskAnalyzers/FrendsTaskAnalyzers/Analyzers/StructureAnalyzer/StructureAnalyzer.cs:140-176 | reporting a list of missing properties keeps the invariant and records the key of every property in the list |
| StructureAnalyzer.ReportMissingPropertiesRecorded | FrendsTaskAnalyzers/FrendsTaskAnalyzers/Analyzers/StructureAnalyzer/StructureAnalyzer.cs:184-186 | once every property's key is recorded, reporting those properties again changes nothing |
| StructureAnalyzer.AnalyzeClassValid | FrendsTaskAnalyzers/FrendsTaskAnalyzers/Analyzers/StructureAnalyzer/StructureAnalyzer.cs:43-56 | the class callback keeps the invariant and only grows the state |
| StructureAnalyzer.AnalyzeMethodValid | FrendsTaskAnalyzers/FrendsTaskAnalyzers/Analyzers/StructureAnalyzer/StructureAnalyzer.cs:58-105 | the method callback keeps the invariant (each report admitted by its own logged key, no key logged twice, every logged key recorded) and only grows the state |
| StructureAnalyzer.AnalyzeClassIdempotent | FrendsTaskAnalyzers/FrendsTaskAnalyzers/Analyzers/StructureAnalyzer/StructureAnalyzer.cs:43-56 | at any point after the class callback has run on a type, running it again on that type changes nothing |
| StructureAnalyzer.AnalyzeMethodIdempotent | FrendsTaskAnalyzers/FrendsTaskAnalyzers/Analyzers/StructureAnalyzer/StructureAnalyzer.cs:58-105 | at any point after the method callback has run on a method, running it again on that method changes nothing, dropped missing properties included |
| StructureAnalyzer.DroppedPropertyNeverRetried | FrendsTaskAnalyzers/FrendsTaskAnalyzers/Analyzers/StructureAnalyzer/StructureAnalyzer.cs:203-208 | a missing property of a method with no syntax and no location is not reported, and its recorded key stops every later callback for that method from reporting it |
| StructureAnalyzer.InvalidReturnTypeSkipsProperties | FrendsTaskAnalyzers/FrendsTaskAnalyzers/Analyzers/StructureAnalyzer/StructureAnalyzer.cs:91-104 | an invalid return type gets `ReturnTypeIncorrect` and leaves the missing-property set untouched: no property is checked |
| StructureAnalyzer.Run | FrendsTaskAnalyzers/FrendsTaskAnalyzers/Analyzers/StructureAnalyzer/StructureAnalyzer.cs:25-41 | the symbol callbacks of one compilation, class and method ones in any order, applied in turn to the sets created at compilation start |
| StructureAnalyzer.RunValid | FrendsTaskAnalyzers/FrendsTaskAnalyzers/Analyzers/StructureAnalyzer/StructureAnalyzer.cs:25-41 | any sequence of callbacks keeps the invariant and only grows the state |
| StructureAnalyzer.ReportedAtMostOnce | FrendsTaskAnalyzers/FrendsTaskAnalyzers/Analyzers/StructureAnalyzer/StructureAnalyzer.cs:25-41 | from the empty sets, whatever callbacks run: every diagnostic reported was admitted by a recorded key of its own rule (and of its property for a missing property), and no key admitted two diagnostics |
| StructureAnalyzer.RunAgainChangesNothing | FrendsTaskAnalyzers/FrendsTaskAnalyzers/Analyzers/StructureAnalyzer/StructureAnalyzer.cs:25-41 | at any point after a sequence of callbacks has run, running the same sequence again changes nothing |
| StructureAnalyzer.RunTwice | FrendsTaskAnalyzers/FrendsTaskAnalyzers/Analyzers/StructureAnalyzer/StructureAnalyzer.cs:25-41 | running all the callbacks of a compilation a second time reports and records nothing new |
| StructureAnalyzer.EmptyRegistryChangesNothing | FrendsTaskAnalyzers/FrendsTaskAnalyzers/Analyzers/StructureAnalyzer/StructureAnalyzer.cs:30-40 | with the empty registry the analyzer holds as written, no sequence of callbacks reports or records anything |
| StructureAnalyzer.RegisteredMethodIsChecked | FrendsTaskAnalyzers/FrendsTaskAnalyzers/Analyzers/StructureAnalyzer/StructureAnalyzer.cs:66-79 | with the registry supplied, a registered method that is not static gets `MethodShouldBeStatic` at its identifier, with its name, as the first report |
| StructureAnalyzer.Analyzer.constructor | FrendsTaskAnalyzers/FrendsTaskAnalyzers/Analyzers/StructureAnalyzer/StructureAnalyzer.cs:25-28 | a new analyzer starts with both sets and the report log empty |
| StructureAnalyzer.Analyzer.ReportOnce | FrendsTaskAnalyzers/FrendsTaskAnalyzers/Analyzers/StructureAnalyzer/StructureAnalyzer.cs:107-131 | updates the sets and the reports in place exactly as the `ReportOnce` step does: report at the declaration's identifier, or at `Location.None` without syntax, unless the key was already present |
| StructureAnalyzer.Analyzer.ReportMissingProperty | FrendsTaskAnalyzers/FrendsTaskAnalyzers/Analyzers/StructureAnalyzer/StructureAnalyzer.cs:178-209 | updates the state in place exactly as the `ReportMissingProperty` step does: add the key first, then report at the return type, else the declaring node, else the first location, and drop the report when there is none |
| StructureAnalyzer.Analyzer.ReportIfLacking | FrendsTaskAnalyzers/FrendsTaskAnalyzers/Analyzers/StructureAnalyzer/StructureAnalyzer.cs:143-144 | `if (!HasProperty(name)) ReportMissingProperty(...)` is reporting the property when it is lacking |
| StructureAnalyzer.Analyzer.CheckRequiredProperties | FrendsTaskAnalyzers/FrendsTaskAnalyzers/Analyzers/StructureAnalyzer/StructureAnalyzer.cs:133-176 | the written chain of checks takes the state where reporting every missing required property, in table order, takes it |
| StructureAnalyzer.Analyzer.AnalyzeClass | FrendsTaskAnalyzers/FrendsTaskAnalyzers/Analyzers/StructureAnalyzer/StructureAnalyzer.cs:43-56 | a non-static type whose name occurs in some task path gets `ClassShouldBeStatic` once; any other type changes nothing |
| StructureAnalyzer.Analyzer.AnalyzeMethod | FrendsTaskAnalyzers/FrendsTaskAnalyzers/Analyzers/StructureAnalyzer/StructureAnalyzer.cs:58-105 | for a registered method: `MethodShouldBeStatic` if not static, `MethodOverloadNotAllowed` on the first of several same-named methods, then `ReturnTypeIncorrect` or the property checks on the `Result` type; an unregistered method changes nothing |
| ParameterOrder.IndexFrom | FrendsTaskAnalyzers/FrendsTaskAnalyzers/Analyzers/ParametersAnalyzer/ParametersAnalyzer.cs:110-111 | `Skip(from).FirstOrDefault` finds the least index at or after `from` holding the type, and finds nothing exactly when no such index holds it |
| ParameterOrder.IndexFromDistinct | FrendsTaskAnalyzers/FrendsTaskAnalyzers/Analyzers/ParametersAnalyzer/ParametersAnalyzer.cs:110-121 | in a table of distinct types, searching from `from` finds the type exactly when its table position is at or after `from`, and then finds that position |
| ParameterOrder.BoundIsMax | FrendsTaskAnalyzers/FrendsTaskAnalyzers/Analyzers/ParametersAnalyzer/ParametersAnalyzer.cs:121 | the scan's `orderIndex` is one past the largest table index accepted so far: above every earlier key and reached by one of them |
| ParameterOrder.BreaksIffBelowBound | FrendsTaskAnalyzers/FrendsTaskAnalyzers/Analyzers/ParametersAnalyzer/ParametersAnalyzer.cs:110-118 | a parameter breaks the order exactly when its table index lies below the scan's `orderIndex` |
| ParameterOrder.InOrderIffIncreasing | FrendsTaskAnalyzers/FrendsTaskAnalyzers/Analyzers/ParametersAnalyzer/ParametersAnalyzer.cs:107-123 | no parameter breaks the order exactly when the table indices of the parameters taking part strictly increase |
| ParameterOrder.FirstBreakUnique | FrendsTaskAnalyzers/FrendsTaskAnalyzers/Analyzers/ParametersAnalyzer/ParametersAnalyzer.cs:112-118 | at most one parameter is the first to break the order |
| ParameterOrder.InOrderStep | FrendsTaskAnalyzers/FrendsTaskAnalyzers/Analyzers/ParametersAnalyzer/ParametersAnalyzer.cs:108-123 | after one more parameter the scan is still in order exactly when it was and this parameter does not break it |
| ParametersAnalyzer.Types | FrendsTaskAnalyzers/FrendsTaskAnalyzers/Analyzers/ParametersAnalyzer/ParametersAnalyzer.cs:23-29 | the type names of the table, one per entry, in order |
| ParametersAnalyzer.ExpectedTableFacts | FrendsTaskAnalyzers/FrendsTaskAnalyzers/Analyzers/ParametersAnalyzer/ParametersAnalyzer.cs:23-29 | the table lists each type once; `Input`, `Options` and `CancellationToken` are the required entries, and every entry except `CancellationToken` is a property |
| ParametersAnalyzer.MatchAtPosition | FrendsTaskAnalyzers/FrendsTaskAnalyzers/Analyzers/ParametersAnalyzer/ParametersAnalyzer.cs:63-64 | `FirstOrDefault(ep => ep.Type == t)` finds the entry at the type's table position, and nothing when the type is not listed |
| ParametersAnalyzer.MissingReportsSpec | FrendsTaskAnalyzers/FrendsTaskAnalyzers/Analyzers/ParametersAnalyzer/ParametersAnalyzer.cs:45-54 | a `RequiredParameter` is reported exactly for the required entries whose type no parameter has, at the method's first location, with the type as argument |
| ParametersAnalyzer.MissingReportedOnce | FrendsTaskAnalyzers/FrendsTaskAnalyzers/Analyzers/ParametersAnalyzer/ParametersAnalyzer.cs:45-54 | with distinct table types, a required type is reported once when missing and never otherwise, and there are never more reports than entries |
| ParametersAnalyzer.Keys | FrendsTaskAnalyzers/FrendsTaskAnalyzers/Analyzers/ParametersAnalyzer/ParametersAnalyzer.cs:61-123 | each parameter's key in the ordering scan is its own entry's position, one key per parameter |
| ParametersAnalyzer.KeyedParameterIsMatched | FrendsTaskAnalyzers/FrendsTaskAnalyzers/Analyzers/ParametersAnalyzer/ParametersAnalyzer.cs:63-88 | a parameter that takes part in the scan has a table entry, and its check was not cut short by the unresolved-attribute `continue` |
| ParametersAnalyzer.OrderReportOfParameter | FrendsTaskAnalyzers/FrendsTaskAnalyzers/Analyzers/ParametersAnalyzer/ParametersAnalyzer.cs:107-118 | one parameter's reports carry a `ParametersOrder` exactly when it is the first to break the order |
| ParametersAnalyzer.OrderReportedOnce | FrendsTaskAnalyzers/FrendsTaskAnalyzers/Analyzers/ParametersAnalyzer/ParametersAnalyzer.cs:107-123 | a method gets exactly one `ParametersOrder` when some parameter breaks the order of table indices, and none when they strictly increase |
| ParametersAnalyzer.UnknownParameterOnlyUnknown | FrendsTaskAnalyzers/FrendsTaskAnalyzers/Analyzers/ParametersAnalyzer/ParametersAnalyzer.cs:63-74 | a parameter of a type not in the table gets exactly one `ParameterUnknown` carrying its type name, and takes no part in the scan |
| ParametersAnalyzer.UnresolvedTabSkipsPropertyParameter | FrendsTaskAnalyzers/FrendsTaskAnalyzers/Analyzers/ParametersAnalyzer/ParametersAnalyzer.cs:86-88 | when `PropertyTabAttribute` cannot be resolved, a property parameter is checked for its name only and takes no part in the scan |
| ParametersAnalyzer.PositionOfEntry | FrendsTaskAnalyzers/FrendsTaskAnalyzers/Analyzers/ParametersAnalyzer/ParametersAnalyzer.cs:23-29 | in a table of distinct types, each entry's type is found at the entry's own index |
| ParametersAnalyzer.ConformingParameterIsClean | FrendsTaskAnalyzers/FrendsTaskAnalyzers/Analyzers/ParametersAnalyzer/ParametersAnalyzer.cs:63-105 | a parameter with its entry's type and name, and the attribute when it is a property, is keyed by its entry and reported for nothing unless it breaks the order |
| ParametersAnalyzer.ConformingParametersAreClean | FrendsTaskAnalyzers/FrendsTaskAnalyzers/Analyzers/ParametersAnalyzer/ParametersAnalyzer.cs:61-124 | parameters that conform to entries taken in strictly increasing table order are reported for nothing, and the scan finds no break |
| ParametersAnalyzer.CoveredRequiredNotReported | FrendsTaskAnalyzers/FrendsTaskAnalyzers/Analyzers/ParametersAnalyzer/ParametersAnalyzer.cs:45-54 | when every required type has a parameter, no `RequiredParameter` is reported |
| ParametersAnalyzer.ConformingMethodIsClean | FrendsTaskAnalyzers/FrendsTaskAnalyzers/Analyzers/ParametersAnalyzer/ParametersAnalyzer.cs:34-125 | a task method whose parameters conform to entries in table order and cover every required type, such as `(Input input, Options options, CancellationToken cancellationToken)`, is reported for nothing |
| ParametersAnalyzer.EmptyRegistryReportsNothing | FrendsTaskAnalyzers/FrendsTaskAnalyzers/Analyzers/ParametersAnalyzer/ParametersAnalyzer.cs:31-40 | with the empty registry, standing for the `null` the analyzer holds during its first compilation, no method is a task method and nothing is reported |
| ParametersAnalyzer.RegisteredBareMethodIsReported | FrendsTaskAnalyzers/FrendsTaskAnalyzers/Analyzers/ParametersAnalyzer/ParametersAnalyzer.cs:40-54 | with the registry supplied, a registered method without parameters gets `RequiredParameter` for `Input`, `Options` and `CancellationToken`, in that order, at the method |
| ParametersAnalyzer.AnalyzeMethodDeclaration | FrendsTaskAnalyzers/FrendsTaskAnalyzers/Analyzers/ParametersAnalyzer/ParametersAnalyzer.cs:31-40 | the callback reports exactly the specification over the analyzer's own table: nothing for a method that is not registered |
| ParametersAnalyzer.AnalyzeParameters | FrendsTaskAnalyzers/FrendsTaskAnalyzers/Analyzers/ParametersAnalyzer/ParametersAnalyzer.cs:34-125 | the missing-type loop and then the parameter loop together report exactly the specified diagnostics, in order |
| ParametersAnalyzer.ReportParameters | FrendsTaskAnalyzers/FrendsTaskAnalyzers/Analyzers/ParametersAnalyzer/ParametersAnalyzer.cs:59-124 | the parameter loop, carrying `orderIndex` and `orderHandled`, reports each parameter's diagnostics in order, with the order diagnostic on the first parameter that breaks the order |
| ParametersAnalyzer.ReportMissingParameters | FrendsTaskAnalyzers/FrendsTaskAnalyzers/Analyzers/ParametersAnalyzer/ParametersAnalyzer.cs:45-54 | the loop over the table reports the missing required types in table order |
| ParametersAnalyzer.CheckParameter | FrendsTaskAnalyzers/FrendsTaskAnalyzers/Analyzers/ParametersAnalyzer/ParametersAnalyzer.cs:63-123 | one round of the loop reports the unknown type, or the wrong name, the missing attribute and the order break, and advances the scan state to match the next prefix of parameters |
| ParametersAnalyzer.ScanOrder | FrendsTaskAnalyzers/FrendsTaskAnalyzers/Analyzers/ParametersAnalyzer/ParametersAnalyzer.cs:107-123 | the order step flags exactly the first break, and the new `orderIndex` and `orderHandled` describe the scan after this parameter |
| LegacyParametersAnalyzer.LegacyTableFacts | FrendsTaskAnalyzers/FrendsTaskAnalyzers/ParametersAnalyzer/ParametersAnalyzer.cs:25-31 | the older table lists each type once; only `Options` and `CancellationToken` are required, and every entry except `CancellationToken` is a property |
| LegacyParametersAnalyzer.DeclaredMethods | FrendsTaskAnalyzers/FrendsTaskAnalyzers/ParametersAnalyzer/ParametersAnalyzer.cs:62 | `Members.OfType<MethodDeclarationSyntax>()` keeps only the members declared by method syntax |
| LegacyParametersAnalyzer.MissingWrittenSpec | FrendsTaskAnalyzers/FrendsTaskAnalyzers/ParametersAnalyzer/ParametersAnalyzer.cs:67-77 | a `RequiredParameter` is reported exactly for the required entries whose type is written on no parameter, at the method's identifier |
| LegacyParametersAnalyzer.WrittenKeys | FrendsTaskAnalyzers/FrendsTaskAnalyzers/ParametersAnalyzer/ParametersAnalyzer.cs:81-137 | each parameter's key in the ordering scan is the table position of its written type, one key per parameter |
| LegacyParametersAnalyzer.NoRegistryMetadataMissing | FrendsTaskAnalyzers/FrendsTaskAnalyzers/ParametersAnalyzer/ParametersAnalyzer.cs:53-57 | without a registry, or with an empty one, each class declaration gets one location-less `MetadataMissing` and nothing else |
| LegacyParametersAnalyzer.ClassWithoutTaskIsClean | FrendsTaskAnalyzers/FrendsTaskAnalyzers/ParametersAnalyzer/ParametersAnalyzer.cs:59-60 | a class that no task names as its system gets nothing |
| LegacyParametersAnalyzer.ClassWithoutActionIsClean | FrendsTaskAnalyzers/FrendsTaskAnalyzers/ParametersAnalyzer/ParametersAnalyzer.cs:59-64 | the first task naming the class decides, and when no method declaration has its action nothing is reported |
| LegacyParametersAnalyzer.VerbatimClassIsNotMatched | FrendsTaskAnalyzers/FrendsTaskAnalyzers/ParametersAnalyzer/ParametersAnalyzer.cs:59-60 | the system is compared with the class identifier as written: a class declared `@Echo` gets nothing from tasks whose system is `Echo` |
| LegacyParametersAnalyzer.VerbatimParameterNameReported | FrendsTaskAnalyzers/FrendsTaskAnalyzers/ParametersAnalyzer/ParametersAnalyzer.cs:97-104 | the name check compares the identifier as written: a parameter `Input @input` is reported `ParameterName` with `input` at its identifier |
| LegacyParametersAnalyzer.UntypedParameterSkipped | FrendsTaskAnalyzers/FrendsTaskAnalyzers/ParametersAnalyzer/ParametersAnalyzer.cs:83-84 | a parameter written without a type is reported for nothing and takes no part in the scan |
| LegacyParametersAnalyzer.UnknownWrittenTypeOnlyUnknown | FrendsTaskAnalyzers/FrendsTaskAnalyzers/ParametersAnalyzer/ParametersAnalyzer.cs:85-96 | a parameter written with a type that is not in the table gets exactly one `ParameterUnknown` at its identifier, and takes no part in the scan |
| LegacyParametersAnalyzer.WrittenOrderReportOfParameter | FrendsTaskAnalyzers/FrendsTaskAnalyzers/ParametersAnalyzer/ParametersAnalyzer.cs:121-132 | one parameter's reports carry a `ParametersOrder` exactly when it is the first to break the order |
| LegacyParametersAnalyzer.WrittenOrderReportedOnce | FrendsTaskAnalyzers/FrendsTaskAnalyzers/ParametersAnalyzer/ParametersAnalyzer.cs:79-138 | a method gets exactly one `ParametersOrder` when its written types break the table order, and none otherwise |
| LegacyParametersAnalyzer.AnalyzeClassDeclaration | FrendsTaskAnalyzers/FrendsTaskAnalyzers/ParametersAnalyzer/ParametersAnalyzer.cs:40-48 | the callback for a class declaration reports exactly the specification over the older table |
| LegacyParametersAnalyzer.AnalyzeClass | FrendsTaskAnalyzers/FrendsTaskAnalyzers/ParametersAnalyzer/ParametersAnalyzer.cs:50-139 | the metadata check, the task and method lookups, the missing-type loop and the parameter loop report exactly the specified diagnostics, in order |
| LegacyParametersAnalyzer.ReportMissingWritten | FrendsTaskAnalyzers/FrendsTaskAnalyzers/ParametersAnalyzer/ParametersAnalyzer.cs:67-77 | the loop over the table reports the missing written types in table order |
| LegacyParametersAnalyzer.ReportWrittenParameters | FrendsTaskAnalyzers/FrendsTaskAnalyzers/ParametersAnalyzer/ParametersAnalyzer.cs:79-138 | the parameter loop reports each parameter's diagnostics in order, with the order diagnostic on the first parameter that breaks the order |
| LegacyParametersAnalyzer.CheckWrittenParameter | FrendsTaskAnalyzers/FrendsTaskAnalyzers/ParametersAnalyzer/ParametersAnalyzer.cs:83-137 | one round of the loop reports what its parameter is specified to get, and advances the scan state to match the next prefix of parameters |
| DocumentationAnalyzer.Reports | FrendsTaskAnalyzers/FrendsTaskAnalyzers/Analyzers/DocumentationAnalyzer/DocumentationAnalyzer.cs:57-168 | everything `ValidateXml` reports, in order: for a blank comment the required tags alone; for one that does not parse `DocumentationInvalid` alone; otherwise the missing required tags, the unsupported tags used and the link check (`BlankDocs`, `UnparseableDocs`, `ValidateXml`) |
| DocumentationAnalyzer.TagReports | FrendsTaskAnalyzers/FrendsTaskAnalyzers/Analyzers/DocumentationAnalyzer/DocumentationAnalyzer.cs:63-91 | a blank comment gets one `RequiredTagsMissing` per required tag, in order |
| DocumentationAnalyzer.Located | FrendsTaskAnalyzers/FrendsTaskAnalyzers/Analyzers/DocumentationAnalyzer/DocumentationAnalyzer.cs:72-166 | reports are placed at the first location, one diagnostic each; the callback throws exactly when there is something to report and no location, since the `catch` calls `Locations.First()` again |
| DocumentationAnalyzer.BlankDocs | FrendsTaskAnalyzers/FrendsTaskAnalyzers/Analyzers/DocumentationAnalyzer/DocumentationAnalyzer.cs:63-91 | a missing or blank comment gets `example` then `summary` for a property, and `summary` alone otherwise, and nothing else |
| DocumentationAnalyzer.UnparseableDocs | FrendsTaskAnalyzers/FrendsTaskAnalyzers/Analyzers/DocumentationAnalyzer/DocumentationAnalyzer.cs:93-166 | a comment that does not parse gets exactly one `DocumentationInvalid` |
| DocumentationAnalyzer.MissingTagReportsSpec | FrendsTaskAnalyzers/FrendsTaskAnalyzers/Analyzers/DocumentationAnalyzer/DocumentationAnalyzer.cs:96-125 | a tag is reported missing exactly when it is listed and no element of the comment, at any depth, has its name |
| DocumentationAnalyzer.UnsupportedReportsRule | FrendsTaskAnalyzers/FrendsTaskAnalyzers/Analyzers/DocumentationAnalyzer/DocumentationAnalyzer.cs:128-145 | the unsupported-tag loop reports only `UnsupportedTagsUsed` |
| DocumentationAnalyzer.RequiredTagReportedIff | FrendsTaskAnalyzers/FrendsTaskAnalyzers/Analyzers/DocumentationAnalyzer/DocumentationAnalyzer.cs:96-125 | in a parsed comment, a tag is reported missing exactly when the declaration kind requires it (`example` only for properties, `summary` always) and no element has its name |
| DocumentationAnalyzer.UnsupportedReportedOnce | FrendsTaskAnalyzers/FrendsTaskAnalyzers/Analyzers/DocumentationAnalyzer/DocumentationAnalyzer.cs:128-145 | with distinct table entries, an entry is reported once when the comment uses it and never otherwise |
| DocumentationAnalyzer.NoEntryReports | FrendsTaskAnalyzers/FrendsTaskAnalyzers/Analyzers/DocumentationAnalyzer/DocumentationAnalyzer.cs:96-157 | the required-tag and link reports never name an unsupported entry |
| DocumentationAnalyzer.UnsupportedTableDistinct | FrendsTaskAnalyzers/FrendsTaskAnalyzers/Analyzers/DocumentationAnalyzer/DocumentationAnalyzer.cs:26-28 | the unsupported-tag table (`see`/`cref`, `seealso`/`cref`, `cref`/`<ANY>`) has distinct entries |
| DocumentationAnalyzer.UnsupportedTagReportedOnce | FrendsTaskAnalyzers/FrendsTaskAnalyzers/Analyzers/DocumentationAnalyzer/DocumentationAnalyzer.cs:128-145 | over the whole parsed comment, each unsupported entry is reported at most once, and exactly when used: `cref` as any element, `see` and `seealso` only when they carry a `cref` attribute |
| DocumentationAnalyzer.LinkReportedIff | FrendsTaskAnalyzers/FrendsTaskAnalyzers/Analyzers/DocumentationAnalyzer/DocumentationAnalyzer.cs:147-157 | `DocumentationLinkMissing` is reported exactly when the link is checked and the comment's text nowhere contains `[Documentation]` |
| DocumentationAnalyzer.ValidateXml | FrendsTaskAnalyzers/FrendsTaskAnalyzers/Analyzers/DocumentationAnalyzer/DocumentationAnalyzer.cs:57-168 | the handler reports exactly the specified reports at the first location, or throws as `Located` states |
| DocumentationAnalyzer.CheckRequiredTags | FrendsTaskAnalyzers/FrendsTaskAnalyzers/Analyzers/DocumentationAnalyzer/DocumentationAnalyzer.cs:113-125 | the loop over the required tags reports each missing one, in order |
| DocumentationAnalyzer.CheckUnsupportedTags | FrendsTaskAnalyzers/FrendsTaskAnalyzers/Analyzers/DocumentationAnalyzer/DocumentationAnalyzer.cs:128-145 | the loop over the table reports each entry the comment uses, in table order |
| DocumentationAnalyzer.Locate | FrendsTaskAnalyzers/FrendsTaskAnalyzers/Analyzers/DocumentationAnalyzer/DocumentationAnalyzer.cs:136-143 | each report is created at `Locations.First()`, which throws when there are no locations |
| DocumentationAnalyzer.AnalyzeClassDocumentation | FrendsTaskAnalyzers/FrendsTaskAnalyzers/Analyzers/DocumentationAnalyzer/DocumentationAnalyzer.cs:38-45 | a non-public class gets nothing; a public class is validated without the link check |
| DocumentationAnalyzer.AnalyzeMemberDocumentation | FrendsTaskAnalyzers/FrendsTaskAnalyzers/Analyzers/DocumentationAnalyzer/DocumentationAnalyzer.cs:47-55 | a non-public member gets nothing; a public method or property is validated, with the link check exactly when its display string starts with some registered path |
| DocumentationAnalyzer.ClassNeverLinkChecked | FrendsTaskAnalyzers/FrendsTaskAnalyzers/Analyzers/DocumentationAnalyzer/DocumentationAnalyzer.cs:44 | a class is never reported for a missing documentation link, whatever its comment |
| DocumentationAnalyzer.Analyze | FrendsTaskAnalyzers/FrendsTaskAnalyzers/Analyzers/DocumentationAnalyzer/DocumentationAnalyzer.cs:30-36 | without task methods (`AssignTaskMethods` false: no syntax tree, or an empty or `null` list), no callback is registered and nothing is reported; otherwise each class, method and property node gets its own callback's outcome, in order |
| DocumentationAnalyzer.UndocumentedPublicClassReported | FrendsTaskAnalyzers/FrendsTaskAnalyzers/Analyzers/DocumentationAnalyzer/DocumentationAnalyzer.cs:38-45 | once registered, a public class with no comment gets exactly `RequiredTagsMissing(summary)` at its first location, which the gate in `Analyze` suppresses when there are no task methods |
| TypeAnalyzer.SelectRegistry | FrendsTaskAnalyzers/FrendsTaskAnalyzers/Analyzers/TypeAnalyzer/TypeAnalyzer.cs:27-29 | the registry chosen is a non-empty one that some syntax tree gives, and an exception comes from some tree's options |
| TypeAnalyzer.SelectRegistryIsFirst | FrendsTaskAnalyzers/FrendsTaskAnalyzers/Analyzers/TypeAnalyzer/TypeAnalyzer.cs:27-30 | the registry is that of the first tree whose options give a non-empty list, or an exception raised before it; with no such tree there is none and nothing is registered |
| TypeAnalyzer.MethodTypes | FrendsTaskAnalyzers/FrendsTaskAnalyzers/Analyzers/TypeAnalyzer/TypeAnalyzer.cs:51-53 | the types recorded for a task method are exactly its named parameter types and its named return type |
| TypeAnalyzer.ParameterTypes | FrendsTaskAnalyzers/FrendsTaskAnalyzers/Analyzers/TypeAnalyzer/TypeAnalyzer.cs:51 | `Select(p => p.Type).OfType<INamedTypeSymbol>()` keeps exactly the named parameter types |
| TypeAnalyzer.TriplesFor | FrendsTaskAnalyzers/FrendsTaskAnalyzers/Analyzers/TypeAnalyzer/TypeAnalyzer.cs:55 | one (type, task method, category) triple per recorded type, all for the same task |
| TypeAnalyzer.GroupBySpec | FrendsTaskAnalyzers/FrendsTaskAnalyzers/Analyzers/TypeAnalyzer/TypeAnalyzer.cs:57-61 | a type is a key of the dictionary exactly when some triple names it, and its value lists that type's (task method, category) pairs in pipeline order |
| TypeAnalyzer.UsesOfSpec | FrendsTaskAnalyzers/FrendsTaskAnalyzers/Analyzers/TypeAnalyzer/TypeAnalyzer.cs:57-60 | a pair is listed for a type exactly when a triple joins them |
| TypeAnalyzer.FindTypesForAnalysis | FrendsTaskAnalyzers/FrendsTaskAnalyzers/Analyzers/TypeAnalyzer/TypeAnalyzer.cs:38-61 | the lookup as written: the named parameter and return types of the registered methods of the types declared directly in the global namespace, each with its uses in pipeline order; its keys are characterised by `FindTypesForAnalysisIff` |
| TypeAnalyzer.FindTypesInAllNamespaces | FrendsTaskAnalyzers/FrendsTaskAnalyzers/Analyzers/TypeAnalyzer/TypeAnalyzer.cs:38-61 | the lookup as evidently intended, over the types of every namespace of the compilation; its keys are characterised by `FindTypesInAllNamespacesIff` |
| TypeAnalyzer.FoundTypesIff | FrendsTaskAnalyzers/FrendsTaskAnalyzers/Analyzers/TypeAnalyzer/TypeAnalyzer.cs:43-57 | over any list of types, a type is a key exactly when it is a named parameter or return type of a method of one of those types whose reference string is a registered path |
| TypeAnalyzer.FindTypesForAnalysisIff | FrendsTaskAnalyzers/FrendsTaskAnalyzers/Analyzers/TypeAnalyzer/TypeAnalyzer.cs:39-57 | as written, a type is analysed exactly when it is a named parameter or return type of a registered method of a type declared directly in the global namespace |
| TypeAnalyzer.FindTypesInAllNamespacesIff | FrendsTaskAnalyzers/FrendsTaskAnalyzers/Analyzers/TypeAnalyzer/TypeAnalyzer.cs:39-57 | as intended, a type is analysed exactly when it is a named parameter or return type of a registered method of a type declared in any namespace |
| TypeAnalyzer.TaskTypesAreFound | FrendsTaskAnalyzers/FrendsTaskAnalyzers/Analyzers/TypeAnalyzer/TypeAnalyzer.cs:39-61 | with every namespace searched, each named parameter or return type of a method whose reference string is a registered path is analysed, and its uses include the first matching task with the method's category |
| TypeAnalyzer.NamespacedTaskIsMissed | FrendsTaskAnalyzers/FrendsTaskAnalyzers/Analyzers/TypeAnalyzer/TypeAnalyzer.cs:38-43 | as written, for a task `N.Echo.Execute(Options)` declared in namespace `N` and an `Options` type with neither required property, the analyzer reports nothing, while the intended lookup reports both missing properties |
| TypeAnalyzer.EchoLookups | FrendsTaskAnalyzers/FrendsTaskAnalyzers/Analyzers/TypeAnalyzer/TypeAnalyzer.cs:38-61 | for that task, the lookup as written finds no type, and the intended one finds `Options` and `Result`, each with one use of the generic category |
| TypeAnalyzer.ThrowErrorDefaultIff | FrendsTaskAnalyzers/FrendsTaskAnalyzers/Analyzers/TypeAnalyzer/TypeAnalyzer.cs:157-168 | a `ThrowErrorOnFailure` default is accepted exactly when there is none or it is `true` |
| TypeAnalyzer.ErrorMessageDefaultIff | FrendsTaskAnalyzers/FrendsTaskAnalyzers/Analyzers/TypeAnalyzer/TypeAnalyzer.cs:157-173 | an `ErrorMessageOnFailure` default is accepted exactly when there is none or it is `""`; a `null` default is reported |
| TypeAnalyzer.OtherDefaultsUnchecked | FrendsTaskAnalyzers/FrendsTaskAnalyzers/Analyzers/TypeAnalyzer/TypeAnalyzer.cs:162-174 | the defaults of any other property are never checked |
| TypeAnalyzer.OptionMissingIff | FrendsTaskAnalyzers/FrendsTaskAnalyzers/Analyzers/TypeAnalyzer/TypeAnalyzer.cs:135-146 | each required `Options` property is reported missing, carrying the type and property names, exactly when no property has its name, and it gives at most one diagnostic |
| TypeAnalyzer.OptionChecksFirst | FrendsTaskAnalyzers/FrendsTaskAnalyzers/Analyzers/TypeAnalyzer/TypeAnalyzer.cs:139-146 | the property whose default is checked is the first with the name |
| TypeAnalyzer.ConverterInputIff | FrendsTaskAnalyzers/FrendsTaskAnalyzers/Analyzers/TypeAnalyzer/TypeAnalyzer.cs:124-132 | a converter's `Input` type is reported exactly when the task's converter types give a `From` name that no property has |
| TypeAnalyzer.OtherTypesUnchecked | FrendsTaskAnalyzers/FrendsTaskAnalyzers/Analyzers/TypeAnalyzer/TypeAnalyzer.cs:122-150 | types other than `Options` and a converter's `Input` are never reported |
| TypeAnalyzer.DefaultValueReports | FrendsTaskAnalyzers/FrendsTaskAnalyzers/Analyzers/TypeAnalyzer/TypeAnalyzer.cs:153-175 | `CheckDefaultValue`: no report without a declared default; otherwise an `IncorrectPropertyDefaultValue` at the default for a flag that is not `true` or a message that is not `""`; proved by the two default lemmas above |
| TypeAnalyzer.OptionReports | FrendsTaskAnalyzers/FrendsTaskAnalyzers/Analyzers/TypeAnalyzer/TypeAnalyzer.cs:135-146 | one required `Options` property: `RequiredPropertyMissing` with the type and property names when it is absent, or else the default check of the first property of that name (`OptionMissingIff`, `OptionChecksFirst`) |
| TypeAnalyzer.RequiredPropertyReports | FrendsTaskAnalyzers/FrendsTaskAnalyzers/Analyzers/TypeAnalyzer/TypeAnalyzer.cs:113-151 | `CheckRequiredProperties` for one use: the converter `Input` check, the two `Options` properties in order, and nothing for any other type (`ConverterInputIff`, `OtherTypesUnchecked`) |
| TypeAnalyzer.AnalyzeNamedType | FrendsTaskAnalyzers/FrendsTaskAnalyzers/Analyzers/TypeAnalyzer/TypeAnalyzer.cs:63-74 | a named type without an entry gets nothing; otherwise the required-property checks run once for each recorded (task method, category) pair, in order |
| TypeAnalyzer.ReportsRepeatPerUse | FrendsTaskAnalyzers/FrendsTaskAnalyzers/Analyzers/TypeAnalyzer/TypeAnalyzer.cs:70-73 | an `Options` type shared by several tasks gets each of its reports once per task, since nothing is merged between pairs |
| TypeAnalyzer.Reports | FrendsTaskAnalyzers/FrendsTaskAnalyzers/Analyzers/TypeAnalyzer/TypeAnalyzer.cs:25-74 | with a registry chosen, the reports of the named-type callbacks in symbol order, each type checked once per use recorded by the lookup as written |
| TypeAnalyzer.IntendedReports | FrendsTaskAnalyzers/FrendsTaskAnalyzers/Analyzers/TypeAnalyzer/TypeAnalyzer.cs:25-74 | the same reports over the intended lookup of every namespace |
| TypeAnalyzer.Analyze | FrendsTaskAnalyzers/FrendsTaskAnalyzers/Analyzers/TypeAnalyzer/TypeAnalyzer.cs:25-36 | an exception while choosing the registry ends the analysis with it; no non-empty registry registers nothing; otherwise the result is `Reports`, over the lookup as written |
| TaskMethodAnalyzer.OverloadReports | FrendsTaskAnalyzers/FrendsTaskAnalyzers/TaskMethodAnalyzer.cs:65-71 | one `TaskMethodOverloaded` at the identifier of each method of the action's name, in order |
| TaskMethodAnalyzer.ActionMethods | FrendsTaskAnalyzers/FrendsTaskAnalyzers/TaskMethodAnalyzer.cs:59-60 | the methods matched to the action are all method declarations |
| TaskMethodAnalyzer.NullRegistryCrashes | FrendsTaskAnalyzers/FrendsTaskAnalyzers/TaskMethodAnalyzer.cs:48-50 | when the options give no registry, filtering it throws |
| TaskMethodAnalyzer.NoActionMethodIsClean | FrendsTaskAnalyzers/FrendsTaskAnalyzers/TaskMethodAnalyzer.cs:55-63 | a class with no task of its name, a task without an action, or no method of the action's name gets nothing |
| TaskMethodAnalyzer.OverloadsAllReported | FrendsTaskAnalyzers/FrendsTaskAnalyzers/TaskMethodAnalyzer.cs:65-74 | several methods of the action's name: each is reported overloaded and nothing else is checked |
| TaskMethodAnalyzer.RequiredReportsSpec | FrendsTaskAnalyzers/FrendsTaskAnalyzers/TaskMethodAnalyzer.cs:79-90 | a required entry is reported at the method exactly when no parameter is written with its type or carries its name |
| TaskMethodAnalyzer.TaskTableRequired | FrendsTaskAnalyzers/FrendsTaskAnalyzers/TaskMethodAnalyzer.cs:14-20 | `Input` and `CancellationToken` are the required entries of the table |
| TaskMethodAnalyzer.MatchedParameterReports | FrendsTaskAnalyzers/FrendsTaskAnalyzers/TaskMethodAnalyzer.cs:102-118 | a parameter matched to an entry by type or name is reported for the other that differs, then for a missing `PropertyTab` unless written `CancellationToken` |
| TaskMethodAnalyzer.UnmatchedParameterReports | FrendsTaskAnalyzers/FrendsTaskAnalyzers/TaskMethodAnalyzer.cs:120-131 | a parameter matching no entry is reported deprecated when written `Source` or `Destination`, unrecognised otherwise |
| TaskMethodAnalyzer.PropertyTabRequiredIff | FrendsTaskAnalyzers/FrendsTaskAnalyzers/TaskMethodAnalyzer.cs:133-140 | a written parameter is reported for `PropertyTab` exactly when it is not written `CancellationToken` and has no attribute of that name |
| TaskMethodAnalyzer.VerbatimClassIsNotMatched | FrendsTaskAnalyzers/FrendsTaskAnalyzers/TaskMethodAnalyzer.cs:48-57 | the system is compared with the class identifier as written: a class declared `@Echo` gets nothing from tasks whose system is `Echo` |
| TaskMethodAnalyzer.VerbatimParameterNameReported | FrendsTaskAnalyzers/FrendsTaskAnalyzers/TaskMethodAnalyzer.cs:98-117 | the name check compares the identifier as written: a parameter `Input @input` is reported `TaskMethodParameterName` with `input` at its identifier |
| TaskMethodAnalyzer.AnalyzeSyntax | FrendsTaskAnalyzers/FrendsTaskAnalyzers/TaskMethodAnalyzer.cs:43-144 | the callback reports what the class-level specification gives for this analyzer's table |
| TaskMethodAnalyzer.AnalyzeClass | FrendsTaskAnalyzers/FrendsTaskAnalyzers/TaskMethodAnalyzer.cs:48-90 | the class analysis equals its specification for any table: crash, nothing, the overloads, or the required then the parameter reports |
| TaskMethodAnalyzer.ReportOverloads | FrendsTaskAnalyzers/FrendsTaskAnalyzers/TaskMethodAnalyzer.cs:67-71 | the overload loop yields the overload reports |
| TaskMethodAnalyzer.ReportRequired | FrendsTaskAnalyzers/FrendsTaskAnalyzers/TaskMethodAnalyzer.cs:81-90 | the required-parameter loop yields the required reports in table order |
| TaskMethodAnalyzer.ReportParameters | FrendsTaskAnalyzers/FrendsTaskAnalyzers/TaskMethodAnalyzer.cs:92-141 | the parameter loop yields each parameter's reports, in parameter order |
| TaskMethodAnalyzer.CheckParameter | FrendsTaskAnalyzers/FrendsTaskAnalyzers/TaskMethodAnalyzer.cs:94-140 | one round of the parameter loop yields that parameter's reports |

## Left out

- Roslyn host plumbing: `Initialize`, `RegisterActions`, the symbol and syntax-node registrations, `SupportedDiagnostics`, the base analyzers in `FrendsTaskAnalyzers/FrendsTaskAnalyzers/Analyzers/BaseAnalyzer.cs` and `FrendsTaskAnalyzers/FrendsTaskAnalyzers/BaseAnalyzer/BaseAnalyzer.cs`, and `ConfigurationAnalyzer`, whose one report depends on when compilation actions run. Each analysis instead takes the registry as a parameter.
- How each analyzer obtains its registry (`AssignTaskMethods` and the lookup on the first syntax tree). The registry is an input. Each analyzer instance has its own `TaskMethods` field. `StructureAnalyzer` derives from `Analyzers/BaseAnalyzer.cs`, where the field is initialised to `[]`, and never assigns it. The current `ParametersAnalyzer` overrides `AdditionalDiagnostics`, which only `BaseAnalyzer/BaseAnalyzer.cs` declares, so that file is its base. Its nullable field is assigned only by the base's compilation action (`BaseAnalyzer/BaseAnalyzer.cs` lines 26-31), which runs after the syntax-node callbacks. The callbacks therefore see `null` in an instance's first compilation and a stale registry, from the previous compilation, afterwards (see "## Findings"). `ParametersAnalyzer.EmptyRegistryReportsNothing` stands for the first-compilation case, with the empty registry in place of `null`. The stale-registry case is not modelled, since the model has no sequence of compilations. Where an analyzer guards a `null` registry, the model passes a sequence, and a `null` list behaves like an empty one.
- Concurrency: concurrent execution is enabled, but the model runs the callbacks as one sequential pass, in any order (`StructureAnalyzer.Run`). Races on the non-thread-safe sets of `StructureAnalyzer` are not modelled.
- Roslyn semantic queries are given attributes of the declaration model, not computed. These are `ToReferenceString`, `ToDisplayString` (and its `TaskMethodFormat`), `GetDeclaredSymbol`, `Locations`, syntax spans and `GetDefaultValue`.
- `GetTaskCategory` and `TaskMethod.GetConverterTypes` are defined outside the modelled files. The category is an input enumeration. The converter types are an input function giving the optional `From` name, the only part the type checks use.
- `XDocument.Parse`, `JsonDocument.Parse` and the additional-file reading are library calls. Their results are inputs: a parsed tree or "unparseable", and an optional list of optional strings for the `Tasks` array.
- `StartsWith` and `Contains` on strings are modelled as ordinal comparisons. The culture-sensitive overload `StartsWith(string)` can differ for non-ASCII text.
- The unsupported-tag table is an `ImmutableDictionary`, whose enumeration order is hash-based. The model reports its entries in the order they are written (`see`, `seealso`, `cref`).
- The `ExposedThirdPartyType` descriptor has no implementation in the modelled code, so it is not modelled.
- TypeAnalyzer's `AnalyzeMethods` is never registered (its registration is commented out), so it is not modelled.
- The rule descriptor files hold only constants (ids, titles, messages, severities). The model keeps a rule datatype with the ids.
- The `ExpectedParameter` records are folded into each analyzer's table datatype.
- Cancellation tokens passed through to Roslyn are not modelled.
- The samples, the template task and the test project are not part of this model. Where a test expects behaviour the code does not have, the model follows the code. Documentation cases 1, 2, 4 and 6 expect `example` on classes and a link check on classes. Type cases 5-11 expect the third-party type check.
- LegacyParametersAnalyzer.DeclaredMethods: the class declaration's `methods` are given as those written in that declaration. For a partial class the model does not relate its parts to each other or to the merged symbol; the same holds for `TaskMethodAnalyzer.ActionMethods`.
- Symbols.IdentifierText: `Identifier.Text` is the name with `@` for a verbatim identifier; an identifier written with Unicode escapes (`\u0041`) keeps the escapes in its text, which the model does not represent.
- StructureAnalyzer.Analyzer.ReportMissingProperty: a method whose declaring syntax is recorded as a class declaration (Roslyn never produces one) is reported at that declaration's identifier, not at the whole node.

## Findings

| source | as written | input that shows it | evidently intended | confidence | as-written member | corrected member |
|---|---|---|---|---|---|---|
| FrendsTaskAnalyzers/FrendsTaskAnalyzers/Analyzers/TypeAnalyzer/TypeAnalyzer.cs:39-43 | `FindTypesForAnalysis` takes only the named types declared directly in the global namespace (`GlobalNamespace.GetMembers().OfType<INamedTypeSymbol>()`), so a task method declared inside any namespace contributes no types | a class `Echo` in namespace `N` with a method `Execute(Options options)` whose reference string `N.Echo.Execute` is registered: as written, nothing is analysed and the missing `ThrowErrorOnFailure`/`ErrorMessageOnFailure` on `Options` go unreported (the type test cases declare their tasks in namespaces and expect those reports) | the types of every namespace, nested ones included, are searched (`FindTypesInAllNamespaces`, `IntendedReports`); `Analyze` itself follows the code | not executed | TypeAnalyzer.NamespacedTaskIsMissed | TypeAnalyzer.FindTypesInAllNamespacesIff |
| FrendsTaskAnalyzers/FrendsTaskAnalyzers/Analyzers/StructureAnalyzer/StructureAnalyzer.cs:25-41 | `RegisterActions` passes the analyzer's own `TaskMethods` to the callbacks but never calls `AssignTaskMethods`, so the list keeps its initial value `[]` (`Analyzers/BaseAnalyzer.cs` line 11) and every callback returns at its registry lookup | any compilation with a registered task method that is not static: as written, no `MethodShouldBeStatic` is reported | the registry is assigned from the options at compilation start, as `DocumentationAnalyzer` does, and the registered methods are checked | not executed | StructureAnalyzer.EmptyRegistryChangesNothing | StructureAnalyzer.RegisteredMethodIsChecked |
| FrendsTaskAnalyzers/FrendsTaskAnalyzers/Analyzers/ParametersAnalyzer/ParametersAnalyzer.cs:31-40 | `RegisterActions` only registers the syntax-node callback, and nothing in the file assigns `TaskMethods`. The base assigns it only in a compilation action (`BaseAnalyzer/BaseAnalyzer.cs` lines 26-31), which runs after the syntax-node callbacks. So in an analyzer instance's first compilation the field is `null`, and the `TaskMethods?.Any(...) != true` guard rejects every method. Later compilations see the previous compilation's registry | a registered method without parameters, in the first compilation an analyzer instance handles: as written nothing is reported, instead of `RequiredParameter` for `Input`, `Options` and `CancellationToken` | the registry is assigned from the options at compilation start and each registered method's parameters are checked | not executed | ParametersAnalyzer.EmptyRegistryReportsNothing | ParametersAnalyzer.RegisteredBareMethodIsReported |
