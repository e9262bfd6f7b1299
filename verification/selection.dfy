/** Keeping the elements of a sequence that satisfy a predicate, in order: what a
    boolean mask does to the rows of a data frame. */
module Selection {

  function Select<T>(xs: seq<T>, keep: T -> bool): (r: seq<T>)
    ensures |r| <= |xs|
    ensures forall x :: x in r ==> keep(x)
  {
    if |xs| == 0 then [] else (if keep(xs[0]) then [xs[0]] else []) + Select(xs[1..], keep)
  }

  /** An element is selected exactly when it is present and satisfies the predicate. */
  lemma {:induction false} SelectMembers<T>(xs: seq<T>, keep: T -> bool, x: T)
    ensures x in Select(xs, keep) <==> x in xs && keep(x)
  {
    if |xs| > 0 {
      SelectMembers(xs[1..], keep, x);
      assert x in xs <==> x == xs[0] || x in xs[1..];
    }
  }

  /** Selection goes element by element: it distributes over concatenation, so the
      selected elements keep their relative order. */
  lemma {:induction false} SelectAppend<T>(a: seq<T>, b: seq<T>, keep: T -> bool)
    ensures Select(a + b, keep) == Select(a, keep) + Select(b, keep)
  {
    if |a| == 0 {
      assert a + b == b;
    } else {
      assert (a + b)[0] == a[0];
      assert (a + b)[1..] == a[1..] + b;
      SelectAppend(a[1..], b, keep);
    }
  }

  /** Selecting from one more element adds it exactly when it satisfies the predicate. */
  lemma SelectSnoc<T>(xs: seq<T>, keep: T -> bool, i: nat)
    requires i < |xs|
    ensures Select(xs[..i + 1], keep) == Select(xs[..i], keep) + (if keep(xs[i]) then [xs[i]] else [])
  {
    SelectAppend(xs[..i], [xs[i]], keep);
    assert [xs[i]][1..] == [];
    assert xs[..i + 1] == xs[..i] + [xs[i]];
  }

  /** The positions at which the predicate holds, in increasing order: the true entries
      of a boolean mask. */
  function KeptPositions<T>(xs: seq<T>, keep: T -> bool): (ps: seq<nat>)
    ensures forall k :: 0 <= k < |ps| ==> ps[k] < |xs| && keep(xs[ps[k]])
    ensures forall k, l :: 0 <= k < l < |ps| ==> ps[k] < ps[l]
    ensures forall i :: 0 <= i < |xs| && keep(xs[i]) ==> i in ps
  {
    if |xs| == 0 then []
    else
      var n := |xs| - 1;
      var ps := KeptPositions(xs[..n], keep);
      assert forall k :: 0 <= k < |ps| ==> xs[ps[k]] == xs[..n][ps[k]];
      assert forall i :: 0 <= i < n ==> xs[i] == xs[..n][i];
      if keep(xs[n]) then ps + [n] else ps
  }

  /** Selection takes exactly the elements at the kept positions, in that order, once
      each: it neither reorders nor merges equal elements. */
  lemma {:induction false} SelectAtPositions<T>(xs: seq<T>, keep: T -> bool)
    ensures |Select(xs, keep)| == |KeptPositions(xs, keep)|
    ensures forall k :: 0 <= k < |Select(xs, keep)| ==> Select(xs, keep)[k] == xs[KeptPositions(xs, keep)[k]]
  {
    if |xs| > 0 {
      var n := |xs| - 1;
      var pre := xs[..n];
      SelectAtPositions(pre, keep);
      SelectSnoc(xs, keep, n);
      assert xs[..n + 1] == xs;
      var ps, sel := KeptPositions(pre, keep), Select(pre, keep);
      forall k | 0 <= k < |sel| ensures sel[k] == xs[ps[k]] {
        assert pre[ps[k]] == xs[ps[k]];
      }
      if keep(xs[n]) {
        assert KeptPositions(xs, keep) == ps + [n];
        assert Select(xs, keep) == sel + [xs[n]];
      } else {
        assert KeptPositions(xs, keep) == ps;
        assert Select(xs, keep) == sel;
      }
    }
  }

  /** When every element satisfies the predicate, nothing is removed. */
  lemma {:induction false} SelectAll<T>(xs: seq<T>, keep: T -> bool)
    requires forall i :: 0 <= i < |xs| ==> keep(xs[i])
    ensures Select(xs, keep) == xs
  {
    if |xs| > 0 {
      SelectAll(xs[1..], keep);
      assert xs == [xs[0]] + xs[1..];
    }
  }
}
