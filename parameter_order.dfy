/**
 * The ordering scan of the parameter analyzers. Each parameter that takes part in the
 * scan is keyed by the table index of its expected entry; the scan keeps the index just
 * past the last accepted entry and looks for the parameter's entry from there on. The
 * first parameter whose entry is not found there breaks the order and ends the scan.
 */
module ParameterOrder {
  import opened Wrappers

  /**
   * `Skip(from).FirstOrDefault(ep => ep.Type == t)` followed by `IndexOf`: the index of the
   * first entry at or after `from` with the type.
   */
  function IndexFrom(types: seq<string>, from: nat, t: string): (r: Option<nat>)
    decreases |types| - from
    ensures r.Some? ==> from <= r.value < |types| && types[r.value] == t
    ensures r.Some? ==> forall k :: from <= k < r.value ==> types[k] != t
    ensures r.None? <==> forall k :: from <= k < |types| ==> types[k] != t
  {
    if from >= |types| then None
    else if types[from] == t then Some(from)
    else IndexFrom(types, from + 1, t)
  }

  /** The table lists every type once. */
  predicate Distinct(types: seq<string>)
  {
    forall i, j :: 0 <= i < j < |types| ==> types[i] != types[j]
  }

  /** The index of the entry with the type: the whole table searched from the start. */
  function Position(types: seq<string>, t: string): Option<nat>
  {
    IndexFrom(types, 0, t)
  }

  /**
   * With a table of distinct types, searching from `from` finds the type exactly when its
   * position is at or after `from`, and then finds that position.
   */
  lemma {:induction false} IndexFromDistinct(types: seq<string>, from: nat, t: string)
    requires Distinct(types)
    ensures IndexFrom(types, from, t) ==
      if Position(types, t).Some? && Position(types, t).value >= from then Position(types, t) else None
  {
    var p := Position(types, t);
    var r := IndexFrom(types, from, t);
    if r.Some? {
      assert p.Some? && types[p.value] == t;
      assert p.value == r.value;
    } else if p.Some? {
      assert p.value < from;
    }
  }

  /**
   * Parameter `j` breaks the order: it takes part in the scan and some earlier parameter
   * that also takes part has an index at least as large (a repeated type included).
   */
  predicate Breaks(keys: seq<Option<nat>>, j: nat)
    requires j < |keys|
  {
    keys[j].Some? && exists i :: 0 <= i < j && keys[i].Some? && keys[i].value >= keys[j].value
  }

  /** No parameter before `n` breaks the order. */
  predicate InOrderUpTo(keys: seq<Option<nat>>, n: nat)
    requires n <= |keys|
  {
    forall j :: 0 <= j < n ==> !Breaks(keys, j)
  }

  /** Parameter `j` is the first to break the order: the one the scan reports. */
  predicate IsFirstBreak(keys: seq<Option<nat>>, j: nat)
    requires j < |keys|
  {
    Breaks(keys, j) && InOrderUpTo(keys, j)
  }

  /** One past the largest index among the first `n` keys that take part; 0 if none does. */
  function Bound(keys: seq<Option<nat>>, n: nat): nat
    requires n <= |keys|
  {
    if n == 0 then 0
    else if keys[n - 1].Some? && keys[n - 1].value + 1 > Bound(keys, n - 1) then keys[n - 1].value + 1
    else Bound(keys, n - 1)
  }

  /** `Bound` is a strict upper bound of every earlier key, and reached by one of them. */
  lemma {:induction false} BoundIsMax(keys: seq<Option<nat>>, n: nat)
    requires n <= |keys|
    ensures forall i :: 0 <= i < n && keys[i].Some? ==> keys[i].value < Bound(keys, n)
    ensures Bound(keys, n) > 0 ==>
      exists i :: 0 <= i < n && keys[i].Some? && keys[i].value + 1 == Bound(keys, n)
  {
    if n > 0 {
      BoundIsMax(keys, n - 1);
    }
  }

  /** A key breaks the order exactly when it lies below the bound of the keys before it. */
  lemma BreaksIffBelowBound(keys: seq<Option<nat>>, j: nat)
    requires j < |keys| && keys[j].Some?
    ensures Breaks(keys, j) <==> keys[j].value < Bound(keys, j)
  {
    BoundIsMax(keys, j);
  }

  /** Before the first break the keys taking part strictly increase, which is what the scan checks. */
  lemma InOrderIffIncreasing(keys: seq<Option<nat>>, n: nat)
    requires n <= |keys|
    ensures InOrderUpTo(keys, n) <==>
      forall i, j :: 0 <= i < j < n && keys[i].Some? && keys[j].Some? ==> keys[i].value < keys[j].value
  {
    if !InOrderUpTo(keys, n) {
      var j :| 0 <= j < n && Breaks(keys, j);
      var i :| 0 <= i < j && keys[i].Some? && keys[i].value >= keys[j].value;
      assert !(keys[i].value < keys[j].value);
    } else {
      forall i, j | 0 <= i < j < n && keys[i].Some? && keys[j].Some?
        ensures keys[i].value < keys[j].value
      {
        assert !Breaks(keys, j);
      }
    }
  }

  /** At most one parameter is the first to break the order. */
  lemma FirstBreakUnique(keys: seq<Option<nat>>, j1: nat, j2: nat)
    requires j1 < |keys| && j2 < |keys|
    requires IsFirstBreak(keys, j1) && IsFirstBreak(keys, j2)
    ensures j1 == j2
  {
  }

  /** The state of the scan after parameter `n`: still scanning with the bound, or stopped. */
  lemma {:induction false} InOrderStep(keys: seq<Option<nat>>, n: nat)
    requires n < |keys|
    ensures InOrderUpTo(keys, n + 1) <==> InOrderUpTo(keys, n) && !Breaks(keys, n)
  {
  }
}
