/**
 * Assembling the task-method registry from the analyzer options: the `;`-separated
 * config value, or else the `Tasks` array of the JSON side-car file.
 */
module AnalyzerOptions {
  import opened Wrappers
  import opened Strings
  import opened TaskMethods

  /** A JSON value as a parsed `JsonDocument` exposes it; objects keep their members in order. */
  datatype Json =
    | JNull
    | JBool(b: bool)
    | JNumber(n: int)
    | JString(s: string)
    | JArray(items: seq<Json>)
    | JObject(members: seq<(string, Json)>)

  /** The exceptions registry assembly lets through. */
  datatype RegistryError =
    | ParseFailed(cause: ParseError)   // `TaskMethod.Parse` threw `ArgumentException`
    | MalformedJson                    // `JsonDocument.Parse` threw `JsonException`
    | NotAnObject                      // `TryGetProperty` on a value that is not an object
    | NotAString                       // `GetString` on a value that is neither a string nor null

  /**
   * What the options provide: the `build_property.rootnamespace` global option, the
   * `frends_task_analyzers.task_methods` option of the syntax tree, and the
   * `FrendsTaskMetadata.json` additional file (`None` when absent, `Some(None)` when its text
   * is not JSON).
   */
  datatype Options = Options(
    rootNamespace: Option<string>,
    taskMethodsConfig: Option<string>,
    metadataFile: Option<Option<Json>>)

  /** One entry to register: read successfully (possibly `null`), or the exception reading it raised. */
  type Entry = Result<Option<string>, RegistryError>

  /**
   * `ParseTaskMethods`: the lazy `Select`/`Where` pipeline. Entries are taken one at a time;
   * the first exception, from reading an entry or from parsing it, ends the whole call.
   * Null and blank entries are dropped.
   */
  function ParseTaskMethods(items: seq<Entry>, rootNamespace: Option<string>): (r: Result<seq<TaskMethod>, RegistryError>)
    ensures r.Success? ==> |r.value| <= |items|
  {
    if items == [] then Success([])
    else if items[0].Failure? then Failure(items[0].error)
    else if IsNullOrWhiteSpace(items[0].value) then ParseTaskMethods(items[1..], rootNamespace)
    else
      var first := Parse(items[0].value.value, rootNamespace);
      if first.Failure? then Failure(ParseFailed(first.error))
      else
        var rest := ParseTaskMethods(items[1..], rootNamespace);
        if rest.Failure? then rest else Success([first.value] + rest.value)
  }

  /** The strings of the entries that are read, present and not blank, in order. */
  function Candidates(items: seq<Entry>): seq<string>
  {
    if items == [] then []
    else
      (if items[0].Success? && !IsNullOrWhiteSpace(items[0].value) then [items[0].value.value] else [])
      + Candidates(items[1..])
  }

  /** Every entry could be read. */
  predicate AllRead(items: seq<Entry>)
  {
    forall i :: 0 <= i < |items| ==> items[i].Success?
  }

  /** Every candidate parses against the root namespace. */
  predicate AllParse(candidates: seq<string>, rootNamespace: Option<string>)
  {
    forall k :: 0 <= k < |candidates| ==> Parse(candidates[k], rootNamespace).Success?
  }

  /**
   * The registry is exactly the candidates, in order, each parsed against the same root
   * namespace; and one unreadable entry or one unparsable candidate fails the whole call.
   */
  lemma {:induction false} ParseTaskMethodsSpec(items: seq<Entry>, rootNamespace: Option<string>)
    ensures var r := ParseTaskMethods(items, rootNamespace);
      r.Success? <==> AllRead(items) && AllParse(Candidates(items), rootNamespace)
    ensures var r := ParseTaskMethods(items, rootNamespace);
      var c := Candidates(items);
      r.Success? ==>
        |r.value| == |c| && forall k :: 0 <= k < |c| ==> r.value[k] == Parse(c[k], rootNamespace).value
  {
    if items != [] {
      var tail := items[1..];
      ParseTaskMethodsSpec(tail, rootNamespace);
      AllReadCons(items);
      if items[0].Success? && !IsNullOrWhiteSpace(items[0].value) {
        var s := items[0].value.value;
        assert Candidates(items) == [s] + Candidates(tail);
        AllParseCons(s, Candidates(tail), rootNamespace);
      } else if items[0].Success? {
        assert Candidates(items) == Candidates(tail);
      }
    }
  }

  lemma AllReadCons(items: seq<Entry>)
    requires items != []
    ensures AllRead(items) <==> items[0].Success? && AllRead(items[1..])
  {
    if items[0].Success? && AllRead(items[1..]) {
      forall i | 0 < i < |items| ensures items[i].Success? {
        assert items[i] == items[1..][i - 1];
      }
    }
  }

  lemma AllParseCons(s: string, c: seq<string>, rootNamespace: Option<string>)
    ensures AllParse([s] + c, rootNamespace) <==> Parse(s, rootNamespace).Success? && AllParse(c, rootNamespace)
  {
    var sc := [s] + c;
    if AllParse(sc, rootNamespace) {
      assert sc[0] == s;
      forall k | 0 <= k < |c| ensures Parse(c[k], rootNamespace).Success? {
        assert c[k] == sc[k + 1];
      }
    }
  }

  /**
   * `TaskMethodsFromConfig`: `null` when the option is missing or blank; otherwise the
   * `;`-separated pieces. The result is non-null even when every piece is blank.
   */
  function FromConfig(config: Option<string>, rootNamespace: Option<string>): (r: Result<Option<seq<TaskMethod>>, RegistryError>)
    ensures IsNullOrWhiteSpace(config) ==> r == Success(None)
    ensures !IsNullOrWhiteSpace(config) ==> r.Failure? || r.value.Some?
  {
    if IsNullOrWhiteSpace(config) then Success(None)
    else
      var r := ParseTaskMethods(ConfigEntries(Split(config.value, ';')), rootNamespace);
      if r.Failure? then Failure(r.error) else Success(Some(r.value))
  }

  /** Each piece of the config value, read as a present string. */
  function ConfigEntries(pieces: seq<string>): (items: seq<Entry>)
    ensures |items| == |pieces|
    ensures forall i :: 0 <= i < |pieces| ==> items[i] == Success(Some(pieces[i]))
  {
    if pieces == [] then [] else [Success(Some(pieces[0]))] + ConfigEntries(pieces[1..])
  }

  /** The non-blank strings of a sequence, in order. */
  function NonBlank(pieces: seq<string>): seq<string>
  {
    if pieces == [] then []
    else (if IsBlank(pieces[0]) then [] else [pieces[0]]) + NonBlank(pieces[1..])
  }

  lemma {:induction false} ConfigCandidates(pieces: seq<string>)
    ensures Candidates(ConfigEntries(pieces)) == NonBlank(pieces)
  {
    if pieces != [] {
      ConfigCandidates(pieces[1..]);
      assert ConfigEntries(pieces)[1..] == ConfigEntries(pieces[1..]);
    }
  }

  /**
   * A non-blank config value yields the non-blank `;`-separated pieces, in input order, each
   * parsed against the root namespace; any piece that does not parse fails the call.
   */
  lemma ConfigRegistry(config: string, rootNamespace: Option<string>)
    requires !IsBlank(config)
    ensures var pieces := NonBlank(Split(config, ';'));
      var r := FromConfig(Some(config), rootNamespace);
      (r.Success? <==> AllParse(pieces, rootNamespace))
      && (r.Success? ==>
            |r.value.value| == |pieces|
            && forall k :: 0 <= k < |pieces| ==> r.value.value[k] == Parse(pieces[k], rootNamespace).value)
  {
    var items := ConfigEntries(Split(config, ';'));
    ConfigCandidates(Split(config, ';'));
    ParseTaskMethodsSpec(items, rootNamespace);
  }

  /** The last member with the given name: `TryGetProperty` matches the last duplicate. */
  function Member(members: seq<(string, Json)>, name: string): Option<Json>
  {
    if members == [] then None
    else
      var later := Member(members[1..], name);
      if later.Some? then later
      else if members[0].0 == name then Some(members[0].1)
      else None
  }

  /** `Member` finds a value exactly when some member has the name, and the value is the last such member's. */
  lemma {:induction false} MemberSpec(members: seq<(string, Json)>, name: string)
    ensures Member(members, name).Some? <==> exists i :: 0 <= i < |members| && members[i].0 == name
    ensures Member(members, name).Some? ==>
      exists i :: 0 <= i < |members| && members[i] == (name, Member(members, name).value)
        && forall j :: i < j < |members| ==> members[j].0 != name
  {
    if members != [] {
      var tail := members[1..];
      MemberSpec(tail, name);
      if Member(tail, name).Some? {
        var i :| 0 <= i < |tail| && tail[i] == (name, Member(tail, name).value)
          && forall j :: i < j < |tail| ==> tail[j].0 != name;
        assert members[i + 1] == tail[i];
        forall j | i + 1 < j < |members| ensures members[j].0 != name {
          assert members[j] == tail[j - 1];
        }
      } else {
        forall j | 0 < j < |members| ensures members[j].0 != name {
          assert members[j] == tail[j - 1];
        }
      }
    }
  }

  /**
   * The `Select` step over one element of `Tasks`: the string value of its `TaskMethod`
   * member, `null` when the member is missing or null.
   */
  function TaskMethodOf(e: Json): (r: Entry)
    ensures r.Success? && r.value.Some? ==> e.JObject? && Member(e.members, "TaskMethod") == Some(JString(r.value.value))
    ensures !e.JObject? ==> r == Failure(NotAnObject)
  {
    if !e.JObject? then Failure(NotAnObject)
    else match Member(e.members, "TaskMethod")
      case None => Success(None)
      case Some(JNull) => Success(None)
      case Some(JString(s)) => Success(Some(s))
      case Some(_) => Failure(NotAString)
  }

  function JsonEntries(es: seq<Json>): (items: seq<Entry>)
    ensures |items| == |es|
    ensures forall i :: 0 <= i < |es| ==> items[i] == TaskMethodOf(es[i])
  {
    if es == [] then [] else [TaskMethodOf(es[0])] + JsonEntries(es[1..])
  }

  /** The `Tasks` array of the side-car's root object, if it has one. */
  function TasksArray(root: Json): Option<seq<Json>>
    requires root.JObject?
  {
    match Member(root.members, "Tasks")
      case Some(JArray(items)) => Some(items)
      case _ => None
  }

  /**
   * `TaskMethodsFromJsonFile`: `null` without the file or without a `Tasks` array;
   * otherwise the entries of the array.
   */
  function FromJson(file: Option<Option<Json>>, rootNamespace: Option<string>): (r: Result<Option<seq<TaskMethod>>, RegistryError>)
    ensures file.None? ==> r == Success(None)
    ensures file == Some(None) ==> r == Failure(MalformedJson)
    ensures (file.Some? && file.value.Some? && file.value.value.JObject? && TasksArray(file.value.value).None?)
      ==> r == Success(None)
  {
    if file.None? then Success(None)
    else if file.value.None? then Failure(MalformedJson)
    else
      var root := file.value.value;
      if !root.JObject? then Failure(NotAnObject)
      else match TasksArray(root)
        case None => Success(None)
        case Some(tasks) =>
          var r := ParseTaskMethods(JsonEntries(tasks), rootNamespace);
          if r.Failure? then Failure(r.error) else Success(Some(r.value))
  }

  /**
   * With a `Tasks` array, entries that are objects without a string `TaskMethod`, or with a
   * blank one, are dropped and the remaining ones are parsed in array order.
   */
  lemma JsonRegistry(tasks: seq<Json>, rootNamespace: Option<string>)
    ensures var items := JsonEntries(tasks);
      var c := Candidates(items);
      var r := ParseTaskMethods(items, rootNamespace);
      (r.Success? <==> AllRead(items) && AllParse(c, rootNamespace))
      && (r.Success? ==> |r.value| == |c| && forall k :: 0 <= k < |c| ==> r.value[k] == Parse(c[k], rootNamespace).value)
  {
    ParseTaskMethodsSpec(JsonEntries(tasks), rootNamespace);
  }

  /** `GetTaskMethods`: the config channel when it gives a list, else the JSON side-car. */
  function GetTaskMethods(options: Options): (r: Result<Option<seq<TaskMethod>>, RegistryError>)
    ensures FromConfig(options.taskMethodsConfig, options.rootNamespace).Failure? ==> r.Failure?
  {
    var config := FromConfig(options.taskMethodsConfig, options.rootNamespace);
    if config.Failure? then config
    else if config.value.Some? then config
    else FromJson(options.metadataFile, options.rootNamespace)
  }

  /** A present, non-blank config value decides the result, whatever the side-car holds. */
  lemma {:induction false} ConfigTakesPrecedence(rootNamespace: Option<string>, config: string, file: Option<Option<Json>>)
    requires !IsBlank(config)
    ensures GetTaskMethods(Options(rootNamespace, Some(config), file)) == FromConfig(Some(config), rootNamespace)
    ensures GetTaskMethods(Options(rootNamespace, Some(config), file)).Failure?
      || GetTaskMethods(Options(rootNamespace, Some(config), file)).value.Some?
  {
  }

  /** Without a usable config value the side-car decides the result. */
  lemma {:induction false} BlankConfigFallsBack(options: Options)
    requires IsNullOrWhiteSpace(options.taskMethodsConfig)
    ensures GetTaskMethods(options) == FromJson(options.metadataFile, options.rootNamespace)
  {
  }

  /** No config value and no side-car: the registry is `null`. */
  lemma {:induction false} NothingConfigured(rootNamespace: Option<string>)
    ensures GetTaskMethods(Options(rootNamespace, None, None)) == Success(None)
  {
  }
}
