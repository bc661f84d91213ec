/**
 * The LINQ queries the analyzers build their lookups from.
 */
module Linq {
  import opened Wrappers

  /** `FirstOrDefault(p)`: the first element satisfying `p`, or `null`. */
  function FirstOrDefault<T(!new)>(s: seq<T>, p: T -> bool): (r: Option<T>)
    ensures r.Some? ==> r.value in s && p(r.value)
    ensures r.None? <==> forall x :: x in s ==> !p(x)
  {
    if s == [] then None else if p(s[0]) then Some(s[0]) else FirstOrDefault(s[1..], p)
  }

  /** The element found is the one at the least index satisfying `p`. */
  lemma {:induction false} FirstOrDefaultIsFirst<T(!new)>(s: seq<T>, p: T -> bool, k: nat)
    requires k < |s| && p(s[k])
    requires forall j :: 0 <= j < k ==> !p(s[j])
    ensures FirstOrDefault(s, p) == Some(s[k])
  {
    if k > 0 {
      assert !p(s[0]);
      FirstOrDefaultIsFirst(s[1..], p, k - 1);
    }
  }

  /** Searching a concatenation: the first part decides when it has a match. */
  lemma {:induction false} FirstOrDefaultConcat<T(!new)>(a: seq<T>, b: seq<T>, p: T -> bool)
    ensures FirstOrDefault(a + b, p) == if FirstOrDefault(a, p).Some? then FirstOrDefault(a, p) else FirstOrDefault(b, p)
  {
    if a == [] {
      assert a + b == b;
    } else {
      assert (a + b)[1..] == a[1..] + b;
      FirstOrDefaultConcat(a[1..], b, p);
    }
  }

  /** The elements satisfying `p`, in order (`Where`). */
  function Where<T(!new)>(s: seq<T>, p: T -> bool): (r: seq<T>)
    ensures |r| <= |s|
    ensures forall x :: x in r <==> x in s && p(x)
  {
    if s == [] then [] else (if p(s[0]) then [s[0]] else []) + Where(s[1..], p)
  }

  /** `Where` over a concatenation. */
  lemma {:induction false} WhereConcat<T(!new)>(a: seq<T>, b: seq<T>, p: T -> bool)
    ensures Where(a + b, p) == Where(a, p) + Where(b, p)
  {
    if a == [] {
      assert a + b == b;
    } else {
      assert (a + b)[1..] == a[1..] + b;
      WhereConcat(a[1..], b, p);
    }
  }

  /** Proof helper, no source counterpart: appending one step's output to what is done, ahead of the rest, regroups the same sequence. */
  lemma AppendStep<T>(done: seq<T>, step: seq<T>, rest: seq<T>)
    ensures done + (step + rest) == done + step + rest
  {
  }
}
