/** `filterMap(list, func)` of index.js: apply `func` to every element, then keep the
    results that are truthy, in input order. What "truthy" means depends on the result
    type, so it is passed in as `truthy`. */
module FilterMapping {

  function FilterMap<T, U>(list: seq<T>, f: T --> U, truthy: U -> bool): (kept: seq<U>)
    requires forall x :: x in list ==> f.requires(x)
    ensures |kept| <= |list|
    ensures forall k :: 0 <= k < |kept| ==> truthy(kept[k])
  {
    if list == [] then []
    else
      var rest := FilterMap(list[1..], f, truthy);
      if truthy(f(list[0])) then [f(list[0])] + rest else rest
  }

  /** The indices of the elements whose image is truthy, in increasing order. */
  ghost function KeptIndices<T, U>(list: seq<T>, f: T --> U, truthy: U -> bool): seq<nat>
    requires forall x :: x in list ==> f.requires(x)
  {
    if list == [] then []
    else
      var rest := Shifted(KeptIndices(list[1..], f, truthy));
      if truthy(f(list[0])) then [0] + rest else rest
  }

  ghost function Shifted(s: seq<nat>): seq<nat>
  {
    seq(|s|, k requires 0 <= k < |s| => s[k] + 1)
  }

  /** The result is exactly the truthy images, in input order: the k-th kept value is the
      image of the k-th selected element, the selected indices increase, and an element
      is selected exactly when its image is truthy. */
  lemma FilterMapSelects<T, U>(list: seq<T>, f: T --> U, truthy: U -> bool)
    requires forall x :: x in list ==> f.requires(x)
    ensures |KeptIndices(list, f, truthy)| == |FilterMap(list, f, truthy)|
    ensures forall k :: 0 <= k < |KeptIndices(list, f, truthy)| ==>
      KeptIndices(list, f, truthy)[k] < |list| &&
      FilterMap(list, f, truthy)[k] == f(list[KeptIndices(list, f, truthy)[k]])
    ensures forall k, l :: 0 <= k < l < |KeptIndices(list, f, truthy)| ==>
      KeptIndices(list, f, truthy)[k] < KeptIndices(list, f, truthy)[l]
    ensures forall i :: 0 <= i < |list| ==>
      (i in KeptIndices(list, f, truthy) <==> truthy(f(list[i])))
  {
    KeptValues(list, f, truthy);
    KeptIndicesIncrease(list, f, truthy);
    KeptIndicesExact(list, f, truthy);
  }

  lemma {:induction false} KeptValues<T, U>(list: seq<T>, f: T --> U, truthy: U -> bool)
    requires forall x :: x in list ==> f.requires(x)
    ensures |KeptIndices(list, f, truthy)| == |FilterMap(list, f, truthy)|
    ensures forall k :: 0 <= k < |KeptIndices(list, f, truthy)| ==>
      KeptIndices(list, f, truthy)[k] < |list| &&
      FilterMap(list, f, truthy)[k] == f(list[KeptIndices(list, f, truthy)[k]])
  {
    if list != [] {
      var tail := list[1..];
      KeptValues(tail, f, truthy);
      var r, rest := KeptIndices(tail, f, truthy), FilterMap(tail, f, truthy);
      var sr := Shifted(r);
      forall k | 0 <= k < |sr|
        ensures sr[k] < |list| && rest[k] == f(list[sr[k]])
      {
        assert list[sr[k]] == tail[r[k]];
      }
    }
  }

  lemma {:induction false} KeptIndicesIncrease<T, U>(list: seq<T>, f: T --> U, truthy: U -> bool)
    requires forall x :: x in list ==> f.requires(x)
    ensures forall k :: 0 <= k < |KeptIndices(list, f, truthy)| ==> KeptIndices(list, f, truthy)[k] < |list|
    ensures forall k, l :: 0 <= k < l < |KeptIndices(list, f, truthy)| ==>
      KeptIndices(list, f, truthy)[k] < KeptIndices(list, f, truthy)[l]
  {
    if list != [] {
      KeptIndicesIncrease(list[1..], f, truthy);
    }
  }

  lemma {:induction false} KeptIndicesExact<T, U>(list: seq<T>, f: T --> U, truthy: U -> bool)
    requires forall x :: x in list ==> f.requires(x)
    ensures forall i :: 0 <= i < |list| ==>
      (i in KeptIndices(list, f, truthy) <==> truthy(f(list[i])))
  {
    if list != [] {
      var tail := list[1..];
      KeptIndicesExact(tail, f, truthy);
      var r := KeptIndices(tail, f, truthy);
      var sr := Shifted(r);
      forall i | 1 <= i < |list|
        ensures (i in sr <==> i - 1 in r) && list[i] == tail[i - 1]
      {
        if i in sr {
          var k :| 0 <= k < |sr| && sr[k] == i;
          assert r[k] == i - 1;
        }
        if i - 1 in r {
          var k :| 0 <= k < |r| && r[k] == i - 1;
          assert sr[k] == i;
        }
      }
      assert 0 !in sr;
    }
  }

  /** Filtering a concatenation filters each part: order is kept across the whole list. */
  lemma {:induction false} FilterMapAppend<T, U>(a: seq<T>, b: seq<T>, f: T --> U, truthy: U -> bool)
    requires forall x :: x in a + b ==> f.requires(x)
    ensures FilterMap(a + b, f, truthy) == FilterMap(a, f, truthy) + FilterMap(b, f, truthy)
  {
    if a != [] {
      assert (a + b)[1..] == a[1..] + b;
      FilterMapAppend(a[1..], b, f, truthy);
    } else {
      assert a + b == b;
    }
  }
}
