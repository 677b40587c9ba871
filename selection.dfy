/**
 * Walking a sequence in order: keeping what a per-item decision yields (the
 * shape of the candidate loop) and re-keying pairs into a map (the shape of
 * the matrix loop), each stated once for any decision or key function so that
 * the order and last-write facts are proved without looking inside it.
 */
module Selection {
  import opened Wrappers

  /** The values `f` yields, in the order of the items that yield them. */
  function FilterMap<A, B>(xs: seq<A>, f: A -> Option<B>): (ys: seq<B>)
    ensures |ys| <= |xs|
  {
    if xs == [] then []
    else
      var last := f(xs[|xs| - 1]);
      FilterMap(xs[..|xs| - 1], f) + (if last.Some? then [last.value] else [])
  }

  /** The positions of the items `f` yields a value for, in increasing order. */
  function Picked<A, B>(xs: seq<A>, f: A -> Option<B>): (idx: seq<nat>)
    ensures forall k :: 0 <= k < |idx| ==> idx[k] < |xs| && f(xs[idx[k]]).Some?
    ensures forall k, k' :: 0 <= k < k' < |idx| ==> idx[k] < idx[k']
    ensures forall i :: 0 <= i < |xs| && f(xs[i]).Some? ==> i in idx
  {
    if xs == [] then []
    else
      var n := |xs| - 1;
      var prefix := Picked(xs[..n], f);
      assert forall i :: 0 <= i < n ==> xs[..n][i] == xs[i];
      if f(xs[n]).Some? then prefix + [n] else prefix
  }

  /** The k-th kept value is what `f` yields for the k-th picked item. */
  lemma {:induction false} FilterMapPicked<A, B>(xs: seq<A>, f: A -> Option<B>)
    ensures |FilterMap(xs, f)| == |Picked(xs, f)|
    ensures forall k :: 0 <= k < |Picked(xs, f)| ==>
              f(xs[Picked(xs, f)[k]]) == Some(FilterMap(xs, f)[k])
  {
    if xs != [] {
      var n := |xs| - 1;
      FilterMapPicked(xs[..n], f);
      assert forall i :: 0 <= i < n ==> xs[..n][i] == xs[i];
    }
  }

  /** Items are decided independently: filtering a concatenation concatenates the results. */
  lemma {:induction false} FilterMapAppend<A, B>(xs: seq<A>, ys: seq<A>, f: A -> Option<B>)
    ensures FilterMap(xs + ys, f) == FilterMap(xs, f) + FilterMap(ys, f)
  {
    if ys == [] {
      assert xs + ys == xs;
    } else {
      var n := |ys| - 1;
      assert (xs + ys)[..|xs + ys| - 1] == xs + ys[..n];
      assert (xs + ys)[|xs + ys| - 1] == ys[n];
      FilterMapAppend(xs, ys[..n], f);
    }
  }

  /** The map built by inserting each pair under `f` of its key, in order, a later pair overwriting an earlier one. */
  function Rekeyed<K, V>(entries: seq<(K, V)>, f: K -> K): map<K, V> {
    if entries == [] then map[]
    else
      var last := entries[|entries| - 1];
      Rekeyed(entries[..|entries| - 1], f)[f(last.0) := last.1]
  }

  /** The keys of the re-keyed map are exactly the images of the entries' keys. */
  lemma {:induction false} RekeyedKeySet<K, V>(entries: seq<(K, V)>, f: K -> K, k: K)
    ensures k in Rekeyed(entries, f) <==> exists i :: 0 <= i < |entries| && f(entries[i].0) == k
  {
    if entries != [] {
      var n := |entries| - 1;
      var init := entries[..n];
      RekeyedKeySet(init, f, k);
      if k in Rekeyed(entries, f) && f(entries[n].0) != k {
        var i :| 0 <= i < n && f(init[i].0) == k;
        assert init[i] == entries[i];
      }
      if k !in Rekeyed(entries, f) {
        forall i | 0 <= i < |entries| ensures f(entries[i].0) != k {
          if i < n { assert init[i] == entries[i]; }
        }
      }
    }
  }

  /** Last write wins: a key holds the value of the last entry whose key maps to it. */
  lemma {:induction false} RekeyedLastWriteWins<K, V>(entries: seq<(K, V)>, f: K -> K, i: nat)
    requires i < |entries|
    requires forall j :: i < j < |entries| ==> f(entries[j].0) != f(entries[i].0)
    ensures f(entries[i].0) in Rekeyed(entries, f)
    ensures Rekeyed(entries, f)[f(entries[i].0)] == entries[i].1
  {
    var n := |entries| - 1;
    if i < n {
      var init := entries[..n];
      assert init[i] == entries[i];
      forall j | i < j < |init| ensures f(init[j].0) != f(init[i].0) {
        assert init[j] == entries[j];
      }
      RekeyedLastWriteWins(init, f, i);
    }
  }
}
