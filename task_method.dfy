/**
 * A registered task method: its dotted path and, when the path's shape allows it,
 * the vendor, system and action taken from the first three segments.
 */
module TaskMethods {
  import opened Wrappers
  import opened Strings

  /** `TaskMethod`: `None` components stand for the C# `null`s. */
  datatype TaskMethod = TaskMethod(
    path: string,
    vendor: Option<string>,
    system: Option<string>,
    action: Option<string>)
  {
    /** Vendor, system and action are all known. */
    predicate HasComponents()
    {
      vendor.Some? && system.Some? && action.Some?
    }

    /** Vendor, system and action are all unknown. */
    predicate NoComponents()
    {
      vendor.None? && system.None? && action.None?
    }
  }

  /** The `ArgumentException`s `Parse` throws, with the offending argument. */
  datatype ParseError = InvalidPath(path: string) | InvalidRootNamespace(rootNamespace: string)

  /** The number of dot-separated segments of a path. */
  function SegmentCount(s: string): nat
  {
    CountChar(s, '.') + 1
  }

  /** A path that is non-empty, has no dot at either end and has at least three segments. */
  predicate WellShapedPath(path: string)
  {
    |path| > 0 && path[0] != '.' && path[|path| - 1] != '.' && SegmentCount(path) >= 3
  }

  /** A root namespace that has no dot at either end (the empty string qualifies). */
  predicate WellShapedRoot(root: string)
  {
    |root| == 0 || (root[0] != '.' && root[|root| - 1] != '.')
  }

  /** The path lies inside a non-empty root namespace (`path` starts with `root + "."`). */
  predicate UnderRoot(path: string, rootNamespace: Option<string>)
  {
    !IsNullOrEmpty(rootNamespace) && StartsWith(path, rootNamespace.value + ".")
  }

  /**
   * `TaskMethod.Parse`. Components are taken from segments 0, 1 and 2 when the path has at
   * least five segments, unless the path lies under a root namespace that does not itself
   * have exactly three segments.
   */
  function Parse(path: string, rootNamespace: Option<string>): (r: Result<TaskMethod, ParseError>)
    ensures r.Success? ==> r.value.path == path
    ensures r.Success? ==> r.value.HasComponents() || r.value.NoComponents()
    ensures r.Failure? && r.error.InvalidPath? ==> r.error.path == path
    ensures r.Failure? && r.error.InvalidRootNamespace? ==>
      rootNamespace == Some(r.error.rootNamespace)
  {
    var parts := Split(path, '.');
    if StartsWith(path, ".") || EndsWith(path, ".") || |parts| < 3 then
      Failure(InvalidPath(path))
    else if rootNamespace.Some? && (StartsWith(rootNamespace.value, ".") || EndsWith(rootNamespace.value, ".")) then
      Failure(InvalidRootNamespace(rootNamespace.value))
    else if |parts| < 5 then
      Success(TaskMethod(path, None, None, None))
    else if UnderRoot(path, rootNamespace) && CountChar(rootNamespace.value, '.') + 1 != 3 then
      Success(TaskMethod(path, None, None, None))
    else
      Success(TaskMethod(path, Some(parts[0]), Some(parts[1]), Some(parts[2])))
  }

  lemma StartsWithDot(s: string)
    ensures StartsWith(s, ".") <==> |s| > 0 && s[0] == '.'
  {
    if |s| > 0 && s[0] == '.' {
      assert s[..1] == ".";
    }
  }

  lemma EndsWithDot(s: string)
    ensures EndsWith(s, ".") <==> |s| > 0 && s[|s| - 1] == '.'
  {
    if |s| > 0 && s[|s| - 1] == '.' {
      assert s[|s| - 1..] == ".";
    }
  }

  /** The path check: parsing rejects the path exactly when it is not well shaped. */
  lemma {:induction false} ParseRejectsPathIff(path: string, rootNamespace: Option<string>)
    ensures Parse(path, rootNamespace) == Failure(InvalidPath(path)) <==> !WellShapedPath(path)
  {
    SplitCount(path, '.');
    StartsWithDot(path);
    EndsWithDot(path);
  }

  /**
   * The root-namespace check comes second: a well-shaped path with a root namespace that
   * has a dot at either end is rejected because of the root, and only then.
   */
  lemma {:induction false} ParseRejectsRootIff(path: string, rootNamespace: Option<string>)
    requires WellShapedPath(path)
    ensures Parse(path, rootNamespace).Failure? <==>
      rootNamespace.Some? && !WellShapedRoot(rootNamespace.value)
    ensures Parse(path, rootNamespace).Failure? ==>
      Parse(path, rootNamespace).error == InvalidRootNamespace(rootNamespace.value)
  {
    SplitCount(path, '.');
    StartsWithDot(path);
    EndsWithDot(path);
    if rootNamespace.Some? {
      StartsWithDot(rootNamespace.value);
      EndsWithDot(rootNamespace.value);
    }
  }

  /** Three or four segments: the path is accepted but yields no components, whatever the root. */
  lemma {:induction false} ShortPathHasNoComponents(path: string, rootNamespace: Option<string>)
    requires WellShapedPath(path) && SegmentCount(path) < 5
    requires rootNamespace.None? || WellShapedRoot(rootNamespace.value)
    ensures Parse(path, rootNamespace).Success?
    ensures Parse(path, rootNamespace).value.NoComponents()
  {
    ParseRejectsRootIff(path, rootNamespace);
    SplitCount(path, '.');
  }

  /**
   * Five or more segments outside any root namespace: the components are the first three
   * dot-separated segments.
   */
  lemma {:induction false} LongPathComponents(path: string, rootNamespace: Option<string>)
    requires WellShapedPath(path) && SegmentCount(path) >= 5
    requires rootNamespace.None? || WellShapedRoot(rootNamespace.value)
    requires !UnderRoot(path, rootNamespace)
    ensures Parse(path, rootNamespace).Success?
    ensures var parts := Split(path, '.');
      Parse(path, rootNamespace).value == TaskMethod(path, Some(parts[0]), Some(parts[1]), Some(parts[2]))
  {
    ParseRejectsRootIff(path, rootNamespace);
    SplitCount(path, '.');
  }

  /**
   * Five or more segments inside a root namespace: the components are set exactly when the
   * root namespace has three segments.
   */
  lemma {:induction false} RootedPathComponentsIff(path: string, rootNamespace: Option<string>)
    requires WellShapedPath(path) && SegmentCount(path) >= 5
    requires rootNamespace.None? || WellShapedRoot(rootNamespace.value)
    requires UnderRoot(path, rootNamespace)
    ensures Parse(path, rootNamespace).Success?
    ensures Parse(path, rootNamespace).value.HasComponents() <==> SegmentCount(rootNamespace.value) == 3
  {
    ParseRejectsRootIff(path, rootNamespace);
    SplitCount(path, '.');
  }

  /** `Join` of at least two pieces peels off the first one. */
  lemma JoinCons(parts: seq<string>, c: char)
    requires |parts| >= 2
    ensures Join(parts, c) == parts[0] + [c] + Join(parts[1..], c)
  {
  }

  /**
   * Whenever components are set, they are dot-free and the path is spelled
   * `vendor.system.action.` followed by more segments.
   */
  lemma {:induction false} ComponentsSpellPath(path: string, rootNamespace: Option<string>)
    requires Parse(path, rootNamespace).Success? && Parse(path, rootNamespace).value.HasComponents()
    ensures var t := Parse(path, rootNamespace).value;
      '.' !in t.vendor.value && '.' !in t.system.value && '.' !in t.action.value
      && StartsWith(path, t.vendor.value + "." + t.system.value + "." + t.action.value + ".")
  {
    var parts := Split(path, '.');
    SplitPiecesFree(path, '.');
    SplitJoin(path, '.');
    assert |parts| >= 5;
    JoinCons(parts, '.');
    JoinCons(parts[1..], '.');
    JoinCons(parts[2..], '.');
    assert parts[1..][1..] == parts[2..];
    assert parts[2..][1..] == parts[3..];
    var prefix := parts[0] + "." + parts[1] + "." + parts[2] + ".";
    assert path == prefix + Join(parts[3..], '.');
    assert path[..|prefix|] == prefix;
  }

  /** A non-empty string without dots. */
  predicate Segment(s: string)
  {
    |s| > 0 && '.' !in s
  }

  /**
   * The converse of `ComponentsSpellPath`: a path `vendor.system.action.tail` with a tail of
   * at least two segments yields exactly those components, with no root namespace or with
   * `vendor.system.action` as the root namespace.
   */
  lemma {:induction false} ComponentsFromSegments(v: string, s: string, a: string, tail: string,
                                                  rootNamespace: Option<string>)
    requires Segment(v) && Segment(s) && Segment(a)
    requires |tail| > 0 && tail[|tail| - 1] != '.' && CountChar(tail, '.') >= 1
    requires rootNamespace == None || rootNamespace == Some(v + "." + s + "." + a)
    ensures var path := v + "." + s + "." + a + "." + tail;
      Parse(path, rootNamespace) == Success(TaskMethod(path, Some(v), Some(s), Some(a)))
  {
    var path := v + "." + s + "." + a + "." + tail;
    assert path == v + "." + (s + "." + (a + "." + tail));
    SplitAfterPiece(a, '.', tail);
    SplitAfterPiece(s, '.', a + "." + tail);
    SplitAfterPiece(v, '.', s + "." + (a + "." + tail));
    SplitCount(tail, '.');
    var parts := Split(path, '.');
    assert parts == [v, s, a] + Split(tail, '.');
    StartsWithDot(path);
    EndsWithDot(path);
    assert path[0] == v[0];
    assert path[|path| - 1] == tail[|tail| - 1];
    if rootNamespace.Some? {
      ThreeSegmentRoot(v, s, a);
    }
  }

  /** `vendor.system.action` is a root namespace of three segments with no dot at either end. */
  lemma ThreeSegmentRoot(v: string, s: string, a: string)
    requires Segment(v) && Segment(s) && Segment(a)
    ensures var root := v + "." + s + "." + a;
      !StartsWith(root, ".") && !EndsWith(root, ".") && CountChar(root, '.') == 2
  {
    var root := v + "." + s + "." + a;
    StartsWithDot(root);
    EndsWithDot(root);
    assert root[0] == v[0];
    assert root[|root| - 1] == a[|a| - 1];
    CountCharAbsent(v, '.');
    CountCharAbsent(s, '.');
    CountCharAbsent(a, '.');
    CountCharConcat(v + "." + s + ".", a, '.');
    CountCharConcat(v + "." + s, ".", '.');
    CountCharConcat(v + ".", s, '.');
    CountCharConcat(v, ".", '.');
  }
}
