/** Sequence helpers shared by the game model: the `Array.prototype.filter`
    that the source uses to prune dead projectiles and enemies. */
module Seqs {

  /** The elements of `s` for which `keep` holds, in their original order. */
  function Filter<T>(s: seq<T>, keep: T -> bool): (r: seq<T>)
    ensures |r| <= |s|
    ensures forall i :: 0 <= i < |r| ==> r[i] in s && keep(r[i])
    ensures forall i :: 0 <= i < |s| && keep(s[i]) ==> s[i] in r
  {
    if |s| == 0 then []
    else if keep(s[0]) then [s[0]] + Filter(s[1..], keep)
    else Filter(s[1..], keep)
  }

  /** Two filters agree when the kept elements correspond position by
      position and are equal wherever they are kept. */
  lemma {:induction false} FilterPointwise<T>(a: seq<T>, b: seq<T>, ka: T -> bool, kb: T -> bool)
    requires |a| == |b|
    requires forall i :: 0 <= i < |a| ==> (ka(a[i]) <==> kb(b[i]))
    requires forall i :: 0 <= i < |a| && ka(a[i]) ==> a[i] == b[i]
    ensures Filter(a, ka) == Filter(b, kb)
    decreases |a|
  {
    if |a| > 0 {
      assert ka(a[0]) <==> kb(b[0]);
      FilterPointwise(a[1..], b[1..], ka, kb);
    }
  }

  /** Filtering a concatenation filters each part: with `FilterSingleton`
      this fixes the result as the input with the failing positions removed,
      the kept elements in their original order. */
  lemma {:induction false} FilterAppend<T>(a: seq<T>, b: seq<T>, keep: T -> bool)
    ensures Filter(a + b, keep) == Filter(a, keep) + Filter(b, keep)
    decreases |a|
  {
    if |a| > 0 {
      assert (a + b)[1..] == a[1..] + b;
      FilterAppend(a[1..], b, keep);
    } else {
      assert a + b == b;
    }
  }

  lemma FilterSingleton<T>(x: T, keep: T -> bool)
    ensures Filter([x], keep) == if keep(x) then [x] else []
  {
  }

  /** Every kept element appears as often as in the input; every other
      element not at all. */
  lemma {:induction false} FilterMultiset<T>(s: seq<T>, keep: T -> bool)
    ensures forall x :: multiset(Filter(s, keep))[x] == if keep(x) then multiset(s)[x] else 0
    decreases |s|
  {
    if |s| > 0 {
      FilterMultiset(s[1..], keep);
      assert s == [s[0]] + s[1..];
      assert multiset(s) == multiset{s[0]} + multiset(s[1..]);
    }
  }
}
