/** `Sequence.dictionary(key:value:)`: a dictionary built by assigning `value(e)` at `key(e)` for
    every element `e` in order, so a later element overwrites an earlier one with the same key. */
module Dictionaries {

  /** The dictionary after the loop has visited every element of `xs`. */
  function Dictionary<T, K(==), V>(xs: seq<T>, key: T -> K, value: T -> V): (m: map<K, V>)
    ensures m.Keys == set i | 0 <= i < |xs| :: key(xs[i])
    ensures |m| <= |xs|
  {
    if |xs| == 0 then map[]
    else
      var init := xs[..|xs| - 1];
      var last := xs[|xs| - 1];
      var m0 := Dictionary(init, key, value);
      var m := m0[key(last) := value(last)];
      assert xs == init + [last];
      KeysOfSnoc(init, last, key);
      assert m.Keys == m0.Keys + {key(last)};
      assert |m0.Keys + {key(last)}| <= |m0.Keys| + 1;
      m
  }

  /** The keys of the elements with one more appended: the old ones and the new one's. */
  lemma KeysOfSnoc<T, K>(init: seq<T>, last: T, key: T -> K)
    ensures (set i | 0 <= i < |init + [last]| :: key((init + [last])[i]))
            == (set i | 0 <= i < |init| :: key(init[i])) + {key(last)}
  {
    var xs := init + [last];
    forall i | 0 <= i < |init| ensures xs[i] == init[i] { }
    assert xs[|init|] == last;
  }

  /** The entry for a key holds the value of the LAST element with that key. */
  lemma {:induction false} LastWins<T, K, V>(xs: seq<T>, key: T -> K, value: T -> V, i: nat)
    requires i < |xs|
    requires forall j :: i < j < |xs| ==> key(xs[j]) != key(xs[i])
    ensures key(xs[i]) in Dictionary(xs, key, value)
    ensures Dictionary(xs, key, value)[key(xs[i])] == value(xs[i])
  {
    if i < |xs| - 1 {
      var init := xs[..|xs| - 1];
      assert forall j :: i < j < |init| ==> init[j] == xs[j];
      LastWins(init, key, value, i);
      assert init[i] == xs[i];
    }
  }

  /** With distinct keys nothing is overwritten: one entry per element. */
  lemma {:induction false} DistinctKeysKeepEverything<T, K, V>(xs: seq<T>, key: T -> K, value: T -> V)
    requires forall i, j :: 0 <= i < j < |xs| ==> key(xs[i]) != key(xs[j])
    ensures |Dictionary(xs, key, value)| == |xs|
  {
    if |xs| > 0 {
      var init := xs[..|xs| - 1];
      var last := xs[|xs| - 1];
      assert forall i, j :: 0 <= i < j < |init| ==> init[i] == xs[i] && init[j] == xs[j];
      DistinctKeysKeepEverything(init, key, value);
      var m0 := Dictionary(init, key, value);
      assert forall i :: 0 <= i < |init| ==> key(init[i]) != key(last);
      assert key(last) !in m0;
      assert m0[key(last) := value(last)].Keys == m0.Keys + {key(last)};
    }
  }

  /** Every entry comes from an element: its key is that element's key and its value that
      element's value. */
  lemma {:induction false} EntriesComeFromElements<T, K, V>(xs: seq<T>, key: T -> K, value: T -> V, k: K)
    requires k in Dictionary(xs, key, value)
    ensures exists i :: 0 <= i < |xs| && key(xs[i]) == k && Dictionary(xs, key, value)[k] == value(xs[i])
  {
    var init := xs[..|xs| - 1];
    var last := xs[|xs| - 1];
    if key(last) != k {
      EntriesComeFromElements(init, key, value, k);
      var i :| 0 <= i < |init| && key(init[i]) == k && Dictionary(init, key, value)[k] == value(init[i]);
      assert init[i] == xs[i];
    }
  }

  /** The `for element in self` loop. */
  method BuildDictionary<T, K(==), V>(xs: seq<T>, key: T -> K, value: T -> V) returns (result: map<K, V>)
    ensures result == Dictionary(xs, key, value)
  {
    result := map[];
    for i := 0 to |xs|
      invariant result == Dictionary(xs[..i], key, value)
    {
      assert xs[..i + 1][..i] == xs[..i];
      result := result[key(xs[i]) := value(xs[i])];
    }
    assert xs[..|xs|] == xs;
  }
}
