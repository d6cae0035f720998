/** Option and Result values standing in for Go's nil pointers and (value, error) pairs. */
module Wrappers {

  datatype Option<+T> = None | Some(value: T)

  datatype Result<+T, +E> = Ok(value: T) | Err(error: E)

  /** The first present value of a sequence of optional errors (Go's `errs[0]`). */
  function FirstSome<T(==)>(s: seq<Option<T>>): (r: Option<T>)
    ensures r.None? <==> forall k | 0 <= k < |s| :: s[k].None?
    ensures r.Some? ==> exists k | 0 <= k < |s| :: s[k] == r && forall j | 0 <= j < k :: s[j].None?
  {
    if s == [] then None
    else if s[0].Some? then s[0]
    else
      var r := FirstSome(s[1..]);
      assert forall k | 1 <= k < |s| :: s[k] == s[1..][k - 1];
      if r.Some? then
        var k :| 0 <= k < |s[1..]| && s[1..][k] == r && forall j | 0 <= j < k :: s[1..][j].None?;
        assert s[k + 1] == r;
        r
      else r
  }
}
