/** Sequences that another sequence was filtered into. */
module Sequences {
  /** `ix` lists, in increasing order, exactly the places at which `keep` holds. */
  ghost predicate Picks<T>(xs: seq<T>, keep: T -> bool, ix: seq<int>) {
    Keeps(xs, keep, ix) && Increasing(ix) && Covers(xs, keep, ix)
  }

  ghost predicate Keeps<T>(xs: seq<T>, keep: T -> bool, ix: seq<int>) {
    forall k :: 0 <= k < |ix| ==> 0 <= ix[k] < |xs| && keep(xs[ix[k]])
  }

  ghost predicate Increasing(ix: seq<int>) {
    forall j, k :: 0 <= j < k < |ix| ==> ix[j] < ix[k]
  }

  ghost predicate Covers<T>(xs: seq<T>, keep: T -> bool, ix: seq<int>) {
    forall i :: 0 <= i < |xs| && keep(xs[i]) ==> i in ix
  }

  ghost predicate Maps<T, U>(xs: seq<T>, f: T -> U, ix: seq<int>, ys: seq<U>) {
    |ys| == |ix| && forall k :: 0 <= k < |ix| ==> 0 <= ix[k] < |xs| && ys[k] == f(xs[ix[k]])
  }

  /** `ys` holds what `f` makes of the kept elements of `xs`, in their order. */
  ghost predicate Filtered<T, U>(xs: seq<T>, keep: T -> bool, f: T -> U, ys: seq<U>) {
    exists ix: seq<int> :: Picks(xs, keep, ix) && Maps(xs, f, ix, ys)
  }

  /** For filters that change nothing. */
  function Itself<T>(x: T): T { x }

  lemma FilteredNothing<T, U>(keep: T -> bool, f: T -> U)
    ensures Filtered([], keep, f, [])
  {
    assert Picks([], keep, []) && Maps([], f, [], []);
  }

  lemma PicksAppend<T>(xs: seq<T>, keep: T -> bool, ix: seq<int>, x: T)
    requires Picks(xs, keep, ix)
    ensures keep(x) ==> Picks(xs + [x], keep, ix + [|xs|])
    ensures !keep(x) ==> Picks(xs + [x], keep, ix)
  {
    var all := xs + [x];
    forall i | 0 <= i < |all| && keep(all[i]) ensures i in ix + [|xs|] && (i < |xs| ==> i in ix) {
      assert i < |xs| ==> all[i] == xs[i] && i in ix;
    }
  }

  lemma MapsAppend<T, U>(xs: seq<T>, f: T -> U, ix: seq<int>, ys: seq<U>, x: T)
    requires Maps(xs, f, ix, ys)
    ensures Maps(xs + [x], f, ix + [|xs|], ys + [f(x)]) && Maps(xs + [x], f, ix, ys)
  {
  }

  /** One more element at the end. */
  lemma FilteredAppend<T, U>(xs: seq<T>, keep: T -> bool, f: T -> U, ys: seq<U>, x: T)
    requires Filtered(xs, keep, f, ys)
    ensures keep(x) ==> Filtered(xs + [x], keep, f, ys + [f(x)])
    ensures !keep(x) ==> Filtered(xs + [x], keep, f, ys)
  {
    var ix :| Picks(xs, keep, ix) && Maps(xs, f, ix, ys);
    PicksAppend(xs, keep, ix, x);
    MapsAppend(xs, f, ix, ys, x);
  }

  lemma InitLast<T>(xs: seq<T>)
    requires xs != []
    ensures xs[..|xs| - 1] + [xs[|xs| - 1]] == xs
  {
  }

  function Shifted(ix: seq<int>): (r: seq<int>)
    ensures |r| == |ix| && forall k :: 0 <= k < |ix| ==> r[k] == ix[k] + 1
  {
    seq(|ix|, k requires 0 <= k < |ix| => ix[k] + 1)
  }

  lemma ShiftedHas(ix: seq<int>, i: int)
    ensures i in Shifted(ix) <==> i - 1 in ix
  {
    if i - 1 in ix {
      var k :| 0 <= k < |ix| && ix[k] == i - 1;
      assert Shifted(ix)[k] == i;
    }
  }

  lemma KeepsShift<T>(xs: seq<T>, keep: T -> bool, ix: seq<int>, x: T)
    requires Keeps(xs, keep, ix)
    ensures Keeps([x] + xs, keep, Shifted(ix))
    ensures keep(x) ==> Keeps([x] + xs, keep, [0] + Shifted(ix))
  {
    forall k | 0 <= k < |ix| ensures ([x] + xs)[ix[k] + 1] == xs[ix[k]] {
    }
  }

  lemma CoversShift<T>(xs: seq<T>, keep: T -> bool, ix: seq<int>, x: T)
    requires Covers(xs, keep, ix)
    ensures !keep(x) ==> Covers([x] + xs, keep, Shifted(ix))
    ensures Covers([x] + xs, keep, [0] + Shifted(ix))
  {
    forall i | 0 < i < |[x] + xs| && keep(([x] + xs)[i]) ensures i in Shifted(ix) {
      assert ([x] + xs)[i] == xs[i - 1];
      ShiftedHas(ix, i);
    }
    assert 0 in [0] + Shifted(ix);
  }

  lemma IncreasingShift(ix: seq<int>)
    requires Increasing(ix) && forall k :: 0 <= k < |ix| ==> 0 <= ix[k]
    ensures Increasing(Shifted(ix)) && Increasing([0] + Shifted(ix))
  {
    var r := [0] + Shifted(ix);
    forall j, k | 0 <= j < k < |r| ensures r[j] < r[k] {
      assert r[k] == ix[k - 1] + 1;
      assert j > 0 ==> r[j] == ix[j - 1] + 1;
    }
  }

  lemma PicksPrepend<T>(xs: seq<T>, keep: T -> bool, ix: seq<int>, x: T)
    requires Picks(xs, keep, ix)
    ensures keep(x) ==> Picks([x] + xs, keep, [0] + Shifted(ix))
    ensures !keep(x) ==> Picks([x] + xs, keep, Shifted(ix))
  {
    KeepsShift(xs, keep, ix, x);
    CoversShift(xs, keep, ix, x);
    IncreasingShift(ix);
  }

  lemma MapsPrepend<T, U>(xs: seq<T>, f: T -> U, ix: seq<int>, ys: seq<U>, x: T)
    requires Maps(xs, f, ix, ys)
    ensures Maps([x] + xs, f, [0] + Shifted(ix), [f(x)] + ys) && Maps([x] + xs, f, Shifted(ix), ys)
  {
    forall k | 0 <= k < |ix| ensures ([x] + xs)[ix[k] + 1] == xs[ix[k]] {
    }
  }

  /** One more element in front. */
  lemma FilteredPrepend<T, U>(xs: seq<T>, keep: T -> bool, f: T -> U, ys: seq<U>, x: T)
    requires Filtered(xs, keep, f, ys)
    ensures keep(x) ==> Filtered([x] + xs, keep, f, [f(x)] + ys)
    ensures !keep(x) ==> Filtered([x] + xs, keep, f, ys)
  {
    var ix :| Picks(xs, keep, ix) && Maps(xs, f, ix, ys);
    PicksPrepend(xs, keep, ix, x);
    MapsPrepend(xs, f, ix, ys, x);
  }
}
