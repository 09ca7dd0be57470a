/** Order-preserving filtering of sequences, as `Array.prototype.filter` does it. */
module Seqs {
  import opened Wrappers

  /** `a` is obtained from `b` by deleting some elements, keeping the rest in order. */
  ghost predicate IsSubsequence<T>(a: seq<T>, b: seq<T>)
    decreases |b|
  {
    if |a| == 0 then true
    else if |b| == 0 then false
    else (a[0] == b[0] && IsSubsequence(a[1..], b[1..])) || IsSubsequence(a, b[1..])
  }

  /** The elements of `s` satisfying `p`, in their original order and multiplicity. */
  function Filter<T(==,!new)>(s: seq<T>, p: T -> bool): (r: seq<T>)
    ensures forall x :: x in r <==> x in s && p(x)
    ensures forall x :: multiset(r)[x] == if p(x) then multiset(s)[x] else 0
    ensures IsSubsequence(r, s)
    ensures |r| <= |s|
  {
    if |s| == 0 then []
    else
      var rest := Filter(s[1..], p);
      assert s == [s[0]] + s[1..];
      if p(s[0]) then
        assert ([s[0]] + rest)[1..] == rest;
        [s[0]] + rest
      else rest
  }

  /** The elements of `s` on which `f` yields a value. */
  function Defined<T, U>(f: T -> Option<U>): T -> bool
  {
    x => f(x).Some?
  }

  /**
   * The values `f` yields on the elements of `s`, in order, skipping the
   * elements on which it yields none: the `i`-th value comes from the
   * `i`-th element that has one.
   */
  function Collect<T(==,!new), U>(s: seq<T>, f: T -> Option<U>): (r: seq<U>)
    ensures |r| == |Filter(s, Defined(f))|
    ensures forall i :: 0 <= i < |r| ==> f(Filter(s, Defined(f))[i]) == Some(r[i])
  {
    if |s| == 0 then []
    else
      var rest := Collect(s[1..], f);
      var tail := Filter(s[1..], Defined(f));
      assert s == [s[0]] + s[1..];
      match f(s[0])
      case None =>
        assert Filter(s, Defined(f)) == tail;
        rest
      case Some(v) =>
        assert Filter(s, Defined(f)) == [s[0]] + tail;
        [v] + rest
  }
}
