/** Splitting a list into its maximal runs of equal key, and what a coarser key changes. */
module Grouping {
  function Flatten<T>(groups: seq<seq<T>>): seq<T>
  {
    if groups == [] then [] else groups[0] + Flatten(groups[1..])
  }

  lemma {:induction false} FlattenAppend<T>(a: seq<seq<T>>, b: seq<seq<T>>)
    ensures Flatten(a + b) == Flatten(a) + Flatten(b)
  {
    if a == [] {
      assert a + b == b;
    } else {
      assert (a + b)[1..] == a[1..] + b;
      FlattenAppend(a[1..], b);
    }
  }

  /** How many elements from the front on have the first element's key. */
  function RunLength<T, K(==)>(xs: seq<T>, key: T -> K): (n: nat)
    requires xs != []
    ensures 0 < n <= |xs|
    ensures forall i :: 0 <= i < n ==> key(xs[i]) == key(xs[0])
    ensures n < |xs| ==> key(xs[n]) != key(xs[0])
  {
    if |xs| > 1 && key(xs[1]) == key(xs[0]) then
      var m := RunLength(xs[1..], key);
      assert forall i :: 1 <= i < m + 1 ==> xs[i] == xs[1..][i - 1];
      m + 1
    else 1
  }

  function Runs<T, K(==)>(xs: seq<T>, key: T -> K): seq<seq<T>>
    decreases |xs|
  {
    if xs == [] then []
    else
      var n := RunLength(xs, key);
      [xs[..n]] + Runs(xs[n..], key)
  }

  predicate Uniform<T, K(==)>(group: seq<T>, key: T -> K)
  {
    group != [] && forall i :: 0 <= i < |group| ==> key(group[i]) == key(group[0])
  }

  /** A split of xs into non-empty groups of one key each, where neighbours differ. */
  predicate MaximalSplit<T(==), K(==)>(groups: seq<seq<T>>, xs: seq<T>, key: T -> K)
  {
    && Flatten(groups) == xs
    && (forall i :: 0 <= i < |groups| ==> Uniform(groups[i], key))
    && (forall i :: 0 < i < |groups| ==> key(groups[i - 1][0]) != key(groups[i][0]))
  }

  lemma {:induction false} RunsSplit<T, K>(xs: seq<T>, key: T -> K)
    ensures MaximalSplit(Runs(xs, key), xs, key)
    ensures xs != [] ==> Runs(xs, key) != [] && Runs(xs, key)[0][0] == xs[0]
    decreases |xs|
  {
    if xs != [] {
      var n := RunLength(xs, key);
      RunsSplit(xs[n..], key);
      assert xs == xs[..n] + xs[n..];
      var groups, tail := Runs(xs, key), Runs(xs[n..], key);
      assert groups[1..] == tail;
      forall i | 0 <= i < |groups|
        ensures Uniform(groups[i], key)
      {
        if i > 0 {
          assert groups[i] == tail[i - 1];
        }
      }
      forall i | 0 < i < |groups|
        ensures key(groups[i - 1][0]) != key(groups[i][0])
      {
        if i > 1 {
          assert groups[i] == tail[i - 1] && groups[i - 1] == tail[i - 2];
        } else {
          assert groups[1] == tail[0] && n < |xs|;
        }
      }
    }
  }

  lemma SplitTail<T, K>(groups: seq<seq<T>>, xs: seq<T>, key: T -> K)
    requires groups != [] && MaximalSplit(groups, xs, key)
    ensures xs != [] && RunLength(xs, key) == |groups[0]|
    ensures xs[..|groups[0]|] == groups[0]
    ensures MaximalSplit(groups[1..], xs[|groups[0]|..], key)
  {
    var n := |groups[0]|;
    assert Uniform(groups[0], key);
    assert xs == groups[0] + Flatten(groups[1..]);
    assert xs[..n] == groups[0] && xs[n..] == Flatten(groups[1..]);
    forall i | 0 <= i < |groups[1..]|
      ensures Uniform(groups[1..][i], key)
    {
      assert Uniform(groups[i + 1], key);
    }
    forall i | 0 <= i < n
      ensures key(xs[i]) == key(xs[0])
    {
      assert xs[i] == groups[0][i];
    }
    if |groups| > 1 {
      assert Uniform(groups[1], key);
      assert xs[n] == groups[1..][0][0] == groups[1][0];
      assert key(groups[0][0]) != key(groups[1][0]);
    }
    RunLengthIs(xs, key, n);
  }

  lemma {:induction false} RunLengthIs<T, K>(xs: seq<T>, key: T -> K, n: nat)
    requires 0 < n <= |xs|
    requires forall i :: 0 <= i < n ==> key(xs[i]) == key(xs[0])
    requires n < |xs| ==> key(xs[n]) != key(xs[0])
    ensures RunLength(xs, key) == n
  {
  }

  /** The maximal runs are the one and only maximal split. */
  lemma {:induction false} SplitIsUnique<T, K>(groups: seq<seq<T>>, xs: seq<T>, key: T -> K)
    ensures MaximalSplit(groups, xs, key) <==> groups == Runs(xs, key)
    decreases |groups|
  {
    RunsSplit(xs, key);
    if MaximalSplit(groups, xs, key) && groups != [] {
      SplitTail(groups, xs, key);
      SplitIsUnique(groups[1..], xs[|groups[0]|..], key);
      assert groups == [groups[0]] + groups[1..];
    }
  }

  /** One more maximal run after the first i elements, the two-index scan's step. */
  lemma {:induction false} RunsStep<T, K>(xs: seq<T>, i: nat, key: T -> K)
    requires i < |xs|
    ensures Runs(xs[i..], key) == [xs[i..i + RunLength(xs[i..], key)]] + Runs(xs[i + RunLength(xs[i..], key)..], key)
  {
    var n := RunLength(xs[i..], key);
    assert xs[i..][..n] == xs[i..i + n] && xs[i..][n..] == xs[i + n..];
  }

  // ---------- coarser keys ----------

  /** A group's key after normalisation, taken from its head. */
  function HeadKey<T, K, L>(norm: K -> L, key: T -> K, default: L): seq<T> -> L
  {
    (group: seq<T>) => if group == [] then default else norm(key(group[0]))
  }

  function Coarse<T, K, L>(norm: K -> L, key: T -> K): T -> L
  {
    (x: T) => norm(key(x))
  }

  function FlattenEach<T>(groups: seq<seq<seq<T>>>): (r: seq<seq<T>>)
    ensures |r| == |groups|
    ensures forall i :: 0 <= i < |groups| ==> r[i] == Flatten(groups[i])
  {
    if groups == [] then [] else [Flatten(groups[0])] + FlattenEach(groups[1..])
  }

  lemma {:induction false} FlattenTwice<T>(groups: seq<seq<seq<T>>>)
    ensures Flatten(FlattenEach(groups)) == Flatten(Flatten(groups))
  {
    if groups != [] {
      FlattenTwice(groups[1..]);
      FlattenAppend(groups[0], Flatten(groups[1..]));
    }
  }

  lemma {:induction false} FlattenUniform<T, L>(groups: seq<seq<T>>, k: T -> L, want: L)
    requires groups != []
    requires forall g <- groups :: g != [] && forall i :: 0 <= i < |g| ==> k(g[i]) == want
    ensures Flatten(groups) != [] && Flatten(groups)[0] == groups[0][0]
    ensures forall i :: 0 <= i < |Flatten(groups)| ==> k(Flatten(groups)[i]) == want
  {
    assert groups[0] in groups;
    if |groups| > 1 {
      assert forall g <- groups[1..] :: g in groups;
      FlattenUniform(groups[1..], k, want);
    }
  }

  /** Grouping by a normalised key merges neighbouring groups and never splits one: it
      is the grouping of the fine groups by their normalised heads. */
  lemma Coarsening<T, K, L>(xs: seq<T>, key: T -> K, norm: K -> L, default: L)
    ensures Runs(xs, Coarse(norm, key)) == FlattenEach(Runs(Runs(xs, key), HeadKey(norm, key, default)))
  {
    var fine := Runs(xs, key);
    var head := HeadKey(norm, key, default);
    var merged := Runs(fine, head);
    var coarse := FlattenEach(merged);
    var k := Coarse(norm, key);
    RunsSplit(xs, key);
    RunsSplit(fine, head);
    hide Runs, MaximalSplit;
    MergedSplit(xs, fine, merged, key, norm, default);
    SplitIsUnique(coarse, xs, k);
  }

  lemma MergedSplit<T, K, L>(xs: seq<T>, fine: seq<seq<T>>, merged: seq<seq<seq<T>>>,
                             key: T -> K, norm: K -> L, default: L)
    requires MaximalSplit(fine, xs, key) && MaximalSplit(merged, fine, HeadKey(norm, key, default))
    ensures MaximalSplit(FlattenEach(merged), xs, Coarse(norm, key))
  {
    FlattenTwice(merged);
    hide Flatten, Uniform;
    var coarse, k := FlattenEach(merged), Coarse(norm, key);
    forall i | 0 <= i < |merged|
      ensures Uniform(coarse[i], k) && coarse[i] != []
    {
      MergedUniform(xs, fine, merged, key, norm, default, i);
    }
    forall i | 0 < i < |coarse|
      ensures k(coarse[i - 1][0]) != k(coarse[i][0])
    {
      NeighboursDiffer(xs, fine, merged, key, norm, default, i);
    }
  }

  lemma NeighboursDiffer<T, K, L>(xs: seq<T>, fine: seq<seq<T>>, merged: seq<seq<seq<T>>>,
                                  key: T -> K, norm: K -> L, default: L, i: nat)
    requires MaximalSplit(fine, xs, key) && MaximalSplit(merged, fine, HeadKey(norm, key, default))
    requires 0 < i < |merged|
    ensures var coarse, k := FlattenEach(merged), Coarse(norm, key);
            coarse[i] != [] && coarse[i - 1] != [] && k(coarse[i - 1][0]) != k(coarse[i][0])
  {
    MergedUniform(xs, fine, merged, key, norm, default, i);
    MergedUniform(xs, fine, merged, key, norm, default, i - 1);
    hide Flatten;
    var head := HeadKey(norm, key, default);
    assert head(merged[i - 1][0]) != head(merged[i][0]);
  }

  lemma {:induction false} InFlatten<T>(groups: seq<seq<T>>, i: nat, x: T)
    requires i < |groups| && x in groups[i]
    ensures x in Flatten(groups)
  {
    if i > 0 {
      InFlatten(groups[1..], i - 1, x);
    }
  }

  lemma MergedUniform<T, K, L>(xs: seq<T>, fine: seq<seq<T>>, merged: seq<seq<seq<T>>>,
                                           key: T -> K, norm: K -> L, default: L, i: nat)
    requires MaximalSplit(fine, xs, key) && MaximalSplit(merged, fine, HeadKey(norm, key, default)) && i < |merged|
    ensures merged[i] != [] && merged[i][0] != [] && Uniform(Flatten(merged[i]), Coarse(norm, key))
    ensures Flatten(merged[i])[0] == merged[i][0][0]
  {
    var head, k := HeadKey(norm, key, default), Coarse(norm, key);
    var bunch := merged[i];
    assert Uniform(bunch, head);
    var want := head(bunch[0]);
    forall g | g in bunch
      ensures g != [] && forall j :: 0 <= j < |g| ==> k(g[j]) == want
    {
      InFlatten(merged, i, g);
      var p :| 0 <= p < |fine| && fine[p] == g;
      assert Uniform(fine[p], key);
      var q :| 0 <= q < |bunch| && bunch[q] == g;
      assert head(bunch[q]) == want;
    }
    FlattenUniform(bunch, k, want);
  }

  /** No two neighbours have different keys that normalise to the same. */
  predicate NormKeepsNeighboursApart<T, K(==), L(==)>(xs: seq<T>, key: T -> K, norm: K -> L)
  {
    forall i :: 0 < i < |xs| && norm(key(xs[i - 1])) == norm(key(xs[i])) ==> key(xs[i - 1]) == key(xs[i])
  }

  /** The two groupings coincide exactly when normalising merges no neighbours. */
  lemma {:induction false} GroupingsCoincide<T, K, L>(xs: seq<T>, key: T -> K, norm: K -> L)
    ensures Runs(xs, key) == Runs(xs, Coarse(norm, key)) <==> NormKeepsNeighboursApart(xs, key, norm)
    decreases |xs|
  {
    if xs != [] {
      var k := Coarse(norm, key);
      var n, m := RunLength(xs, key), RunLength(xs, k);
      GroupingsCoincide(xs[n..], key, norm);
      ApartTail(xs, key, norm);
      assert Runs(xs, key) == [xs[..n]] + Runs(xs[n..], key) && Runs(xs, k) == [xs[..m]] + Runs(xs[m..], k);
      hide RunLength, Runs;
      if NormKeepsNeighboursApart(xs, key, norm) {
        assert key(xs[n - 1]) == key(xs[0]);
        RunLengthIs(xs, k, n);
      }
      if Runs(xs, key) == Runs(xs, k) {
        assert Runs(xs, key)[0] == xs[..n] && Runs(xs, k)[0] == xs[..m];
        assert n == m;
        assert Runs(xs, key)[1..] == Runs(xs[n..], key) && Runs(xs, k)[1..] == Runs(xs[n..], k);
        assert n < |xs| ==> k(xs[n]) != k(xs[0]) && k(xs[n - 1]) == k(xs[0]);
      }
    }
  }

  /** Neighbours inside the first run agree, so what matters is its end and the rest. */
  lemma ApartTail<T, K, L>(xs: seq<T>, key: T -> K, norm: K -> L)
    requires xs != []
    ensures var n := RunLength(xs, key);
            NormKeepsNeighboursApart(xs, key, norm) <==>
              && (n < |xs| ==> norm(key(xs[n - 1])) != norm(key(xs[n])))
              && NormKeepsNeighboursApart(xs[n..], key, norm)
  {
    var n := RunLength(xs, key);
    var tail := xs[n..];
    assert key(xs[n - 1]) == key(xs[0]);
    hide RunLength;
    if NormKeepsNeighboursApart(xs, key, norm) {
      forall i | 0 < i < |tail| && norm(key(tail[i - 1])) == norm(key(tail[i]))
        ensures key(tail[i - 1]) == key(tail[i])
      {
        assert tail[i] == xs[n + i] && tail[i - 1] == xs[n + i - 1];
      }
    }
    if NormKeepsNeighboursApart(tail, key, norm) && (n < |xs| ==> norm(key(xs[n - 1])) != norm(key(xs[n]))) {
      forall i | 0 < i < |xs| && norm(key(xs[i - 1])) == norm(key(xs[i]))
        ensures key(xs[i - 1]) == key(xs[i])
      {
        if i > n {
          assert tail[i - n] == xs[i] && tail[i - n - 1] == xs[i - 1];
        }
      }
    }
  }
}
