/** Python list comprehensions with an `if` clause: keeping the elements a condition
    accepts, in order. */
module Filters {

  /** The elements of `s` that `keep` accepts, in order (a comprehension's `if` clause). */
  function Filter<T>(s: seq<T>, keep: T -> bool): (r: seq<T>)
    ensures |r| <= |s|
    ensures forall x :: x in r ==> x in s && keep(x)
  {
    if s == [] then []
    else Filter(s[..|s| - 1], keep) + (if keep(s[|s| - 1]) then [s[|s| - 1]] else [])
  }

  /** The positions of the elements of `s` that `keep` accepts, in increasing order. */
  function KeptIndices<T>(s: seq<T>, keep: T -> bool): seq<nat> {
    if s == [] then []
    else KeptIndices(s[..|s| - 1], keep) + (if keep(s[|s| - 1]) then [|s| - 1] else [])
  }

  predicate StrictlyIncreasing(idx: seq<nat>) {
    forall i, j :: 0 <= i < j < |idx| ==> idx[i] < idx[j]
  }

  lemma {:induction false} KeptIndicesBounded<T>(s: seq<T>, keep: T -> bool)
    ensures |Filter(s, keep)| == |KeptIndices(s, keep)|
    ensures forall i :: 0 <= i < |KeptIndices(s, keep)| ==> KeptIndices(s, keep)[i] < |s|
    ensures StrictlyIncreasing(KeptIndices(s, keep))
  {
    if s != [] {
      KeptIndicesBounded(s[..|s| - 1], keep);
    }
  }

  lemma {:induction false} FilterAtKeptIndices<T>(s: seq<T>, keep: T -> bool)
    ensures |Filter(s, keep)| == |KeptIndices(s, keep)|
    ensures forall i :: 0 <= i < |KeptIndices(s, keep)| ==>
      KeptIndices(s, keep)[i] < |s| && Filter(s, keep)[i] == s[KeptIndices(s, keep)[i]]
  {
    KeptIndicesBounded(s, keep);
    if s != [] {
      var init := s[..|s| - 1];
      FilterAtKeptIndices(init, keep);
      var idx := KeptIndices(s, keep);
      forall i | 0 <= i < |idx| ensures Filter(s, keep)[i] == s[idx[i]] {
        if i < |KeptIndices(init, keep)| {
          assert init[idx[i]] == s[idx[i]];
        }
      }
    }
  }

  lemma {:induction false} KeptIndicesExact<T>(s: seq<T>, keep: T -> bool)
    ensures forall j :: 0 <= j < |s| ==> (j in KeptIndices(s, keep) <==> keep(s[j]))
  {
    if s != [] {
      var init := s[..|s| - 1];
      KeptIndicesExact(init, keep);
      KeptIndicesBounded(init, keep);
      forall j | 0 <= j < |init| ensures j in KeptIndices(s, keep) <==> keep(s[j]) {
        assert init[j] == s[j];
      }
    }
  }

  /** A filter keeps exactly the accepted elements, each once and in their original order:
      its result is `s` read at a strictly increasing list of positions, and a position is
      in that list exactly when `keep` accepts the element there. */
  lemma FilterKeepsAcceptedInOrder<T>(s: seq<T>, keep: T -> bool)
    ensures |Filter(s, keep)| == |KeptIndices(s, keep)|
    ensures StrictlyIncreasing(KeptIndices(s, keep))
    ensures forall i :: 0 <= i < |KeptIndices(s, keep)| ==>
      KeptIndices(s, keep)[i] < |s| && Filter(s, keep)[i] == s[KeptIndices(s, keep)[i]]
    ensures forall j :: 0 <= j < |s| ==> (j in KeptIndices(s, keep) <==> keep(s[j]))
  {
    KeptIndicesBounded(s, keep);
    FilterAtKeptIndices(s, keep);
    KeptIndicesExact(s, keep);
  }

  /** Filtering a concatenation filters each part. */
  lemma {:induction false} FilterAppend<T>(a: seq<T>, b: seq<T>, keep: T -> bool)
    ensures Filter(a + b, keep) == Filter(a, keep) + Filter(b, keep)
  {
    if b != [] {
      var init := b[..|b| - 1];
      assert (a + b)[..|a + b| - 1] == a + init;
      assert (a + b)[|a + b| - 1] == b[|b| - 1];
      FilterAppend(a, init, keep);
    } else {
      assert a + b == a;
    }
  }

  /** Filtering `[x] + s`: `x` first when accepted, then the filtered rest. */
  lemma FilterCons<T>(x: T, s: seq<T>, keep: T -> bool)
    ensures Filter([x] + s, keep) == (if keep(x) then [x] else []) + Filter(s, keep)
  {
    var one, head := [x], if keep(x) then [x] else [];
    assert Filter(one, keep) == head by {
      assert one[..|one| - 1] == [] && one[|one| - 1] == x;
      assert Filter(one[..|one| - 1], keep) == [];
      assert [] + head == head;
    }
    FilterAppend(one, s, keep);
  }

  /** The first element a filter keeps: nothing is kept exactly when nothing is accepted,
      and otherwise the first kept element is the element at the first accepted position. */
  lemma FilterFirst<T>(s: seq<T>, keep: T -> bool)
    ensures Filter(s, keep) == [] <==> forall j :: 0 <= j < |s| ==> !keep(s[j])
    ensures Filter(s, keep) != [] ==>
      exists k :: 0 <= k < |s| && keep(s[k]) && (forall j :: 0 <= j < k ==> !keep(s[j])) &&
        Filter(s, keep)[0] == s[k]
  {
    FilterKeepsAcceptedInOrder(s, keep);
    var idx := KeptIndices(s, keep);
    if idx != [] {
      var k := idx[0];
      assert k in idx;
      assert forall m :: 0 <= m < |idx| ==> k <= idx[m];
      forall j | 0 <= j < k ensures !keep(s[j]) {
        assert j !in idx;
      }
    } else {
      forall j | 0 <= j < |s| ensures !keep(s[j]) {
        assert j !in idx;
      }
    }
  }
}
