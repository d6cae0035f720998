/** Order-preserving selection from a sequence, used wherever the source filters a slice. */
module Seqs {
  import opened Wrappers

  /** The elements of `s` that satisfy `p`, in their original order. */
  function Filter<T>(s: seq<T>, p: T -> bool): (r: seq<T>)
    ensures |r| <= |s|
    ensures forall k | 0 <= k < |r| :: p(r[k])
  {
    if s == [] then [] else (if p(s[0]) then [s[0]] else []) + Filter(s[1..], p)
  }

  lemma {:induction false} FilterMembership<T>(s: seq<T>, p: T -> bool, x: T)
    ensures x in Filter(s, p) <==> x in s && p(x)
  {
    if s != [] {
      FilterMembership(s[1..], p, x);
      assert s == [s[0]] + s[1..];
    }
  }

  lemma {:induction false} FilterAppend<T>(a: seq<T>, b: seq<T>, p: T -> bool)
    ensures Filter(a + b, p) == Filter(a, p) + Filter(b, p)
  {
    if a == [] {
      assert a + b == b;
    } else {
      assert (a + b)[1..] == a[1..] + b;
      FilterAppend(a[1..], b, p);
    }
  }

  /** The first element of `s` that satisfies `p`. */
  function FindFirst<T(==)>(s: seq<T>, p: T -> bool): (r: Option<T>)
    ensures r.None? <==> forall k | 0 <= k < |s| :: !p(s[k])
    ensures r.Some? ==> exists k | 0 <= k < |s| :: s[k] == r.value && p(s[k]) && forall j | 0 <= j < k :: !p(s[j])
  {
    if s == [] then None
    else if p(s[0]) then Some(s[0])
    else
      var r := FindFirst(s[1..], p);
      if r.Some? then
        var k :| 0 <= k < |s[1..]| && s[1..][k] == r.value && p(s[1..][k]) && forall j | 0 <= j < k :: !p(s[1..][j]);
        assert s[k + 1] == r.value;
        assert forall j | 1 <= j < k + 1 :: s[j] == s[1..][j - 1];
        r
      else
        assert forall k | 1 <= k < |s| :: s[k] == s[1..][k - 1];
        r
  }

  /** The first match, when there is one, is the head of the filtered sequence. */
  lemma {:induction false} FindFirstIsHeadOfFilter<T>(s: seq<T>, p: T -> bool)
    ensures FindFirst(s, p) == (if Filter(s, p) == [] then None else Some(Filter(s, p)[0]))
  {
    if s != [] && !p(s[0]) {
      FindFirstIsHeadOfFilter(s[1..], p);
    }
  }

  /** The results of `f` on each element, concatenated in order. */
  function FlatMap<T, U>(s: seq<T>, f: T -> seq<U>): seq<U> {
    if s == [] then [] else FlatMap(s[..|s| - 1], f) + f(s[|s| - 1])
  }

  lemma {:induction false} FlatMapMembership<T, U>(s: seq<T>, f: T -> seq<U>, u: U)
    ensures u in FlatMap(s, f) <==> exists k | 0 <= k < |s| :: u in f(s[k])
  {
    if s != [] {
      var n := |s| - 1;
      FlatMapMembership(s[..n], f, u);
      assert forall k | 0 <= k < n :: s[..n][k] == s[k];
    }
  }

  /** Appending the next element of `s` to `a + s[..i]` gives `a + s[..i + 1]`. */
  lemma PrefixStep<T>(a: seq<T>, s: seq<T>, i: int)
    requires 0 <= i < |s|
    ensures a + s[..i] + [s[i]] == a + s[..i + 1]
  {
    assert s[..i + 1] == s[..i] + [s[i]];
  }
}
