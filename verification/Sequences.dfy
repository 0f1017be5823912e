/** Which elements of a list another list keeps. */
module Sequences {

  /** Element `i` of `ys` is the one of `xs` at position `at[i]`, which is one to keep. */
  ghost predicate KeptHere<T>(xs: seq<T>, ys: seq<T>, at: seq<nat>, keep: T -> bool, i: nat)
    requires i < |at| == |ys|
  {
    at[i] < |xs| && xs[at[i]] == ys[i] && keep(ys[i])
  }

  /** `ys` holds the elements of `xs` at the positions `at`, in order, and these are all the positions of
      elements to keep. */
  ghost predicate KeptAt<T>(xs: seq<T>, ys: seq<T>, at: seq<nat>, keep: T -> bool) {
    && |at| == |ys|
    && (forall i: nat :: i < |at| ==> KeptHere(xs, ys, at, keep, i))
    && (forall i, j :: 0 <= i < j < |at| ==> at[i] < at[j])
    && (forall k: nat {:trigger keep(xs[k])} :: k < |xs| && keep(xs[k]) ==> k in at)
  }

  ghost predicate Kept<T>(xs: seq<T>, ys: seq<T>, keep: T -> bool) {
    exists at: seq<nat> :: KeptAt(xs, ys, at, keep)
  }

  lemma KeptNone<T>(keep: T -> bool)
    ensures Kept([], [], keep)
  {
    assert KeptAt([], [], [], keep);
  }

  lemma KeptSnoc<T>(xs: seq<T>, ys: seq<T>, keep: T -> bool, x: T)
    requires Kept(xs, ys, keep)
    ensures Kept(xs + [x], if keep(x) then ys + [x] else ys, keep)
  {
    var at: seq<nat> :| KeptAt(xs, ys, at, keep);
    var all, kept := xs + [x], if keep(x) then ys + [x] else ys;
    var now := if keep(x) then at + [|xs|] else at;
    forall i: nat | i < |now| ensures KeptHere(all, kept, now, keep, i) {
      if i < |at| { assert KeptHere(xs, ys, at, keep, i); }
    }
    forall i, j | 0 <= i < j < |now| ensures now[i] < now[j] {
      assert KeptHere(xs, ys, at, keep, i);
    }
    forall k: nat | k < |all| && keep(all[k]) ensures k in now {
      if k < |xs| { assert keep(xs[k]); } else { assert now[|at|] == k; }
    }
    assert KeptAt(all, kept, now, keep);
  }

  lemma KeptElems<T>(xs: seq<T>, ys: seq<T>, keep: T -> bool, y: T)
    requires Kept(xs, ys, keep)
    ensures y in ys <==> y in xs && keep(y)
  {
    var at: seq<nat> :| KeptAt(xs, ys, at, keep);
    if y in ys {
      var i: nat :| i < |ys| && ys[i] == y;
      assert KeptHere(xs, ys, at, keep, i);
    }
    if y in xs && keep(y) {
      var k: nat :| k < |xs| && xs[k] == y;
      assert keep(xs[k]);
      var i: nat :| i < |at| && at[i] == k;
      assert KeptHere(xs, ys, at, keep, i);
    }
  }
}
