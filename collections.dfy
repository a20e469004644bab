/** Swift's throwing `map` and `compactMap` over arrays, as total functions on sequences: the
    first element whose transform throws decides the error. */
module Collections {
  import opened Wrappers

  /** A non-empty sequence is its prefix followed by its last element. */
  lemma SplitLast<T>(xs: seq<T>)
    requires |xs| > 0
    ensures xs == xs[..|xs| - 1] + [xs[|xs| - 1]]
  {
  }

  /** `try xs.map(f)`. */
  function MapAll<A, B(==), E(==)>(xs: seq<A>, f: A --> Result<B, E>): (r: Result<seq<B>, E>)
    requires forall x :: x in xs ==> f.requires(x)
    ensures r.Ok? <==> forall i :: 0 <= i < |xs| ==> f(xs[i]).Ok?
    ensures r.Ok? ==> |r.value| == |xs| && forall i :: 0 <= i < |xs| ==> r.value[i] == f(xs[i]).value
    ensures r.Err? ==> exists i :: 0 <= i < |xs| && f(xs[i]) == Err(r.error) && forall j :: 0 <= j < i ==> f(xs[j]).Ok?
  {
    if |xs| == 0 then Ok([])
    else
      match f(xs[0])
      case Err(e) => Err(e)
      case Ok(y) =>
        var rest := MapAll(xs[1..], f);
        assert forall i :: 1 <= i < |xs| ==> xs[1..][i - 1] == xs[i];
        if rest.Err? then
          var k :| 0 <= k < |xs[1..]| && f(xs[1..][k]) == Err(rest.error) && forall j :: 0 <= j < k ==> f(xs[1..][j]).Ok?;
          assert f(xs[k + 1]) == Err(rest.error) && forall j :: 0 <= j < k + 1 ==> f(xs[j]).Ok?;
          Err(rest.error)
        else
          Ok([y] + rest.value)
  }

  /** `try xs.compactMap(f)` where `f` answers `None` for the elements it drops. */
  function Gather<A, B(==), E(==)>(xs: seq<A>, f: A --> Result<Option<B>, E>): (r: Result<seq<B>, E>)
    requires forall x :: x in xs ==> f.requires(x)
    ensures r.Ok? <==> forall i :: 0 <= i < |xs| ==> f(xs[i]).Ok?
    ensures r.Ok? ==> |r.value| <= |xs|
    ensures r.Ok? ==> forall i :: 0 <= i < |xs| && f(xs[i]).value.Some? ==> f(xs[i]).value.value in r.value
    ensures r.Ok? ==> forall k :: 0 <= k < |r.value| ==> exists i :: 0 <= i < |xs| && f(xs[i]) == Ok(Some(r.value[k]))
    ensures r.Err? ==> exists i :: 0 <= i < |xs| && f(xs[i]) == Err(r.error) && forall j :: 0 <= j < i ==> f(xs[j]).Ok?
  {
    if |xs| == 0 then Ok([])
    else
      match f(xs[0])
      case Err(e) => Err(e)
      case Ok(y) =>
        var rest := Gather(xs[1..], f);
        assert forall i :: 1 <= i < |xs| ==> xs[1..][i - 1] == xs[i];
        if rest.Err? then
          var k :| 0 <= k < |xs[1..]| && f(xs[1..][k]) == Err(rest.error) && forall j :: 0 <= j < k ==> f(xs[1..][j]).Ok?;
          assert f(xs[k + 1]) == Err(rest.error) && forall j :: 0 <= j < k + 1 ==> f(xs[j]).Ok?;
          Err(rest.error)
        else
          var r := (if y.Some? then [y.value] else []) + rest.value;
          assert forall k :: 0 <= k < |r| ==> exists i :: 0 <= i < |xs| && f(xs[i]) == Ok(Some(r[k])) by {
            forall k | 0 <= k < |r| ensures exists i :: 0 <= i < |xs| && f(xs[i]) == Ok(Some(r[k])) {
              if y.Some? && k == 0 {
                assert f(xs[0]) == Ok(Some(r[k]));
              } else {
                var k' := if y.Some? then k - 1 else k;
                assert r[k] == rest.value[k'];
                var i :| 0 <= i < |xs[1..]| && f(xs[1..][i]) == Ok(Some(rest.value[k']));
                assert f(xs[i + 1]) == Ok(Some(r[k]));
              }
            }
          }
          assert forall i :: 0 <= i < |xs| && f(xs[i]).value.Some? ==> f(xs[i]).value.value in r by {
            forall i | 0 <= i < |xs| && f(xs[i]).value.Some? ensures f(xs[i]).value.value in r {
              if i > 0 { assert xs[1..][i - 1] == xs[i]; }
            }
          }
          Ok(r)
  }

  /** `first(where:)`: the earliest element that satisfies `p`, or none when no element does. */
  function FirstWhere<T(==)>(xs: seq<T>, p: T -> bool): (r: Option<T>)
    ensures r.None? <==> forall i :: 0 <= i < |xs| ==> !p(xs[i])
    ensures r.Some? ==> exists i :: 0 <= i < |xs| && xs[i] == r.value && p(xs[i]) && forall j :: 0 <= j < i ==> !p(xs[j])
  {
    if |xs| == 0 then None
    else if p(xs[0]) then Some(xs[0])
    else
      var rest := FirstWhere(xs[1..], p);
      assert forall i :: 1 <= i < |xs| ==> xs[1..][i - 1] == xs[i];
      if rest.Some? then
        var k :| 0 <= k < |xs[1..]| && xs[1..][k] == rest.value && p(xs[1..][k]) && forall j :: 0 <= j < k ==> !p(xs[1..][j]);
        assert xs[k + 1] == rest.value && forall j :: 0 <= j < k + 1 ==> !p(xs[j]);
        rest
      else
        rest
  }

  /** The element `first(where:)` finds is the one at the least index that satisfies `p`. */
  lemma FirstWhereIsLeast<T>(xs: seq<T>, p: T -> bool, i: nat)
    requires i < |xs| && p(xs[i])
    requires forall j :: 0 <= j < i ==> !p(xs[j])
    ensures FirstWhere(xs, p) == Some(xs[i])
  {
    var r := FirstWhere(xs, p);
    var k :| 0 <= k < |xs| && xs[k] == r.value && p(xs[k]) && forall j :: 0 <= j < k ==> !p(xs[j]);
    assert k == i;
  }
}
