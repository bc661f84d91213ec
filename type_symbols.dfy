/**
 * `IsValidTaskReturnType`: a task returns `Result` or `Task<Result>`.
 */
module TypeSymbols {
  import opened Wrappers
  import opened Symbols

  /**
   * A type named `Result` (in any namespace), or a named type constructed from the
   * compilation's `System.Threading.Tasks.Task`1` whose first type argument is named `Result`.
   */
  predicate IsValidTaskReturnType(t: TypeRef, compilation: Compilation)
  {
    t.name == "Result"
    || (t.isNamed && compilation.genericTask == Some(t.originalDefinition)
        && |t.typeArguments| > 0 && t.typeArguments[0].name == "Result")
  }

  /** The `Result` type inside a valid return type: the type itself, or the `Task`'s argument. */
  function ResultType(t: TypeRef, compilation: Compilation): (r: TypeRef)
    requires IsValidTaskReturnType(t, compilation)
    ensures r.name == "Result"
    ensures t.name != "Result" ==> r == t.typeArguments[0]
  {
    if t.name == "Result" then t else t.typeArguments[0]
  }

  /** The name alone decides for a type named `Result`, whatever its namespace or arguments. */
  lemma ResultIsValid(t: TypeRef, compilation: Compilation)
    requires t.name == "Result"
    ensures IsValidTaskReturnType(t, compilation)
    ensures ResultType(t, compilation) == t
  {
  }

  /** `Task<Result>` is valid, and its `Result` argument is the type whose properties are checked. */
  lemma TaskOfResultIsValid(task: SymbolId, t: TypeRef, result: TypeRef, compilation: Compilation)
    requires compilation.genericTask == Some(task)
    requires t == TypeRef(t.id, "Task", true, task, [result], t.propertyNames) && result.name == "Result"
    ensures IsValidTaskReturnType(t, compilation)
    ensures ResultType(t, compilation) == result
  {
  }

  /**
   * Invalid: a type not named `Result` that is not a named type (an array, a type parameter),
   * a non-generic type not named `Result` (such as `string`), a generic type other
   * than `Task`1` even of `Result`, `Task` of anything else, and any `Task` when `Task`1`
   * cannot be resolved.
   */
  lemma InvalidReturnTypes(t: TypeRef, compilation: Compilation)
    requires t.name != "Result"
    requires !t.isNamed
      || |t.typeArguments| == 0
      || compilation.genericTask != Some(t.originalDefinition)
      || t.typeArguments[0].name != "Result"
    ensures !IsValidTaskReturnType(t, compilation)
  {
  }
}
