/** The least-recently-used cache: a list from oldest to newest and an index into it. */
module LruCache {
  import opened Common

  predicate Distinct<K(==), V>(items: seq<(K, V)>) {
    forall i, j {:trigger items[i], items[j]} :: 0 <= i < j < |items| ==> items[i].0 != items[j].0
  }

  function Without<K(==), V>(items: seq<(K, V)>, k: K): seq<(K, V)> {
    if items == [] then []
    else if items[0].0 == k then Without(items[1..], k)
    else [items[0]] + Without(items[1..], k)
  }

  function Find<K(==), V>(items: seq<(K, V)>, k: K): Option<V> {
    if items == [] then None
    else if items[0].0 == k then Some(items[0].1)
    else Find(items[1..], k)
  }

  lemma {:induction false} FindIn<K, V>(items: seq<(K, V)>, k: K)
    ensures Find(items, k).Some? <==> exists i {:trigger items[i]} :: 0 <= i < |items| && items[i].0 == k
    ensures Find(items, k).Some? ==> (k, Find(items, k).value) in items
  {
    if items != [] && items[0].0 != k {
      FindIn(items[1..], k);
      if Find(items[1..], k).Some? {
        assert (k, Find(items[1..], k).value) in items[1..];
      }
      assert forall i :: 0 < i < |items| ==> items[i] == items[1..][i - 1];
    } else if items != [] {
      assert items[0] in items;
    }
  }

  lemma {:induction false} WithoutIn<K, V>(items: seq<(K, V)>, k: K, x: (K, V))
    ensures x in Without(items, k) <==> x in items && x.0 != k
  {
    if items != [] {
      WithoutIn(items[1..], k, x);
      assert items == [items[0]] + items[1..];
    }
  }

  lemma {:induction false} WithoutDistinct<K, V>(items: seq<(K, V)>, k: K)
    requires Distinct(items)
    ensures Distinct(Without(items, k))
  {
    if items != [] {
      WithoutDistinct(items[1..], k);
      var rest := Without(items[1..], k);
      if items[0].0 != k {
        forall j | 0 <= j < |rest| ensures rest[j].0 != items[0].0 {
          WithoutIn(items[1..], k, rest[j]);
        }
      }
    }
  }

  lemma {:induction false} WithoutAbsent<K, V>(items: seq<(K, V)>, k: K)
    requires Find(items, k).None?
    ensures Without(items, k) == items
  {
    if items != [] { WithoutAbsent(items[1..], k); }
  }

  /** What an entry put at the newest end does to look-ups. */
  lemma {:induction false} FindAppend<K, V>(a: seq<(K, V)>, b: seq<(K, V)>, k: K)
    ensures Find(a + b, k) == if Find(a, k).Some? then Find(a, k) else Find(b, k)
  {
    if a == [] {
      assert a + b == b;
    } else {
      assert (a + b)[1..] == a[1..] + b;
      FindAppend(a[1..], b, k);
    }
  }

  lemma {:induction false} FindWithout<K, V>(items: seq<(K, V)>, p: K, k: K)
    ensures Find(Without(items, p), k) == if k == p then None else Find(items, k)
  {
    if items != [] { FindWithout(items[1..], p, k); }
  }

  /** Moving an entry to the newest end, with a value. */
  function Newest<K(==), V>(items: seq<(K, V)>, k: K, v: V): seq<(K, V)> { Without(items, k) + [(k, v)] }

  lemma NewestFinds<K, V>(items: seq<(K, V)>, p: K, v: V, k: K)
    ensures Find(Newest(items, p, v), k) == if k == p then Some(v) else Find(items, k)
  {
    FindAppend(Without(items, p), [(p, v)], k);
    FindWithout(items, p, k);
    assert Find([(p, v)], k) == if k == p then Some(v) else None;
  }

  lemma NewestDistinct<K, V>(items: seq<(K, V)>, k: K, v: V)
    requires Distinct(items)
    ensures Distinct(Newest(items, k, v))
  {
    WithoutDistinct(items, k);
    var rest := Without(items, k);
    forall i | 0 <= i < |rest| ensures rest[i].0 != k { WithoutIn(items, k, rest[i]); }
  }

  /** The newest entries, at most n of them unless n is not positive. */
  function Newer<T>(items: seq<T>, n: int): seq<T> { if 0 < n < |items| then items[|items| - n..] else items }

  // ---------------------------------------------------------------- the list, spelled out

  ghost predicate Lacks<K, V>(items: seq<(K, V)>, k: K) { forall i :: 0 <= i < |items| ==> items[i].0 != k }

  /** The entry of the key is taken out, the others stay in order. */
  ghost predicate TakenOut<K, V>(before: seq<(K, V)>, k: K, after: seq<(K, V)>) {
    && (Lacks(before, k) ==> after == before)
    && forall i :: 0 <= i < |before| && before[i].0 == k ==> after == before[..i] + before[i + 1..]
  }

  /** The entry of the key becomes the last, the others stay in order. */
  ghost predicate MovedLast<K, V>(before: seq<(K, V)>, k: K, v: V, after: seq<(K, V)>) {
    after != [] && after[|after| - 1] == (k, v) && TakenOut(before, k, after[..|after| - 1])
  }

  /** What a look-up finds. */
  ghost predicate FoundAs<K, V>(items: seq<(K, V)>, k: K, r: Option<V>) {
    if r.Some? then (k, r.value) in items else Lacks(items, k)
  }

  lemma {:induction false} WithoutAt<K, V>(items: seq<(K, V)>, k: K, i: nat)
    requires Distinct(items) && i < |items| && items[i].0 == k
    ensures Without(items, k) == items[..i] + items[i + 1..]
  {
    if i == 0 {
      FindIn(items[1..], k);
      WithoutAbsent(items[1..], k);
    } else {
      WithoutAt(items[1..], k, i - 1);
      assert items[..i] == [items[0]] + items[1..][..i - 1] && items[1..][i..] == items[i + 1..];
    }
  }

  lemma WithoutIs<K, V>(items: seq<(K, V)>, k: K)
    requires Distinct(items)
    ensures TakenOut(items, k, Without(items, k))
  {
    FindIn(items, k);
    if Find(items, k).None? { WithoutAbsent(items, k); }
    forall i | 0 <= i < |items| && items[i].0 == k ensures Without(items, k) == items[..i] + items[i + 1..] {
      WithoutAt(items, k, i);
    }
  }

  lemma NewestIs<K, V>(items: seq<(K, V)>, k: K, v: V)
    requires Distinct(items)
    ensures MovedLast(items, k, v, Newest(items, k, v))
  {
    WithoutIs(items, k);
    assert Newest(items, k, v)[..|Newest(items, k, v)| - 1] == Without(items, k);
  }

  /** The index finds what a search of the list would. */
  ghost predicate Indexed<K(!new), V>(items: seq<(K, V)>, index: map<K, V>) {
    forall k {:trigger k in index} {:trigger Find(items, k)} ::
      Find(items, k) == if k in index then Some(index[k]) else None
  }

  lemma NewestIndexed<K(!new), V>(items: seq<(K, V)>, index: map<K, V>, k: K, v: V)
    requires Distinct(items) && Indexed(items, index)
    ensures Distinct(Newest(items, k, v)) && Indexed(Newest(items, k, v), index[k := v])
  {
    NewestDistinct(items, k, v);
    forall x { NewestFinds(items, k, v, x); }
  }

  lemma WithoutIndexed<K(!new), V>(items: seq<(K, V)>, index: map<K, V>, k: K)
    requires Distinct(items) && Indexed(items, index)
    ensures Distinct(Without(items, k)) && Indexed(Without(items, k), index - {k})
  {
    WithoutDistinct(items, k);
    forall x { FindWithout(items, k, x); }
  }

  lemma OldestIndexed<K(!new), V>(items: seq<(K, V)>, index: map<K, V>)
    requires items != [] && Distinct(items) && Indexed(items, index)
    ensures Distinct(items[1..]) && Indexed(items[1..], index - {items[0].0})
  {
    FindIn(items[1..], items[0].0);
    forall x { FindAppend([items[0]], items[1..], x); }
    assert items == [items[0]] + items[1..];
  }

  class Cache<K(!new, ==), V(==)> {
    const maxEntries: int
    var items: seq<(K, V)>
    var index: map<K, V>

    ghost predicate Valid()
      reads this
    {
      Distinct(items) && Indexed(items, index)
    }

    constructor (maxEntries: int)
      ensures Valid() && items == [] && this.maxEntries == maxEntries
    {
      this.maxEntries, items, index := maxEntries, [], map[];
    }

    /** The entry becomes the newest; the oldest beyond the limit are dropped. */
    method Add(k: K, v: V)
      requires Valid()
      modifies this
      ensures Valid() && items == Newer(Newest(old(items), k, v), maxEntries)
      ensures exists all ::
        MovedLast(old(items), k, v, all) && items == if 0 < maxEntries < |all| then all[|all| - maxEntries..] else all
    {
      NewestIs(items, k, v);
      NewestIndexed(items, index, k, v);
      items, index := Newest(items, k, v), index[k := v];
      ghost var all := items;
      assert items == all[0..];
      while maxEntries > 0 && |items| > maxEntries
        invariant Valid() && |items| <= |all| && items == all[|all| - |items|..]
        invariant |items| < |all| ==> 0 < maxEntries <= |items|
        decreases |items|
      {
        var _, _ := RemoveOldest();
      }
    }

    method RemoveOldest() returns (k: K, v: V)
      requires Valid() && items != []
      modifies this
      ensures Valid() && (k, v) == old(items)[0] && items == old(items)[1..]
    {
      OldestIndexed(items, index);
      k, v := items[0].0, items[0].1;
      items, index := items[1..], index - {k};
    }

    /** A hit becomes the newest. */
    method Get(k: K) returns (r: Option<V>)
      requires Valid()
      modifies this
      ensures Valid() && r == Find(old(items), k)
      ensures items == if r.Some? then Newest(old(items), k, r.value) else old(items)
      ensures FoundAs(old(items), k, r) && (r.Some? ==> MovedLast(old(items), k, r.value, items))
    {
      FindIn(items, k);
      if k !in index { return None; }
      r := Some(index[k]);
      NewestIs(items, k, index[k]);
      NewestIndexed(items, index, k, index[k]);
      assert index[k := index[k]] == index;
      items := Newest(items, k, index[k]);
    }

    method Remove(k: K) returns (r: Option<V>)
      requires Valid()
      modifies this
      ensures Valid() && r == Find(old(items), k) && items == Without(old(items), k)
      ensures FoundAs(old(items), k, r) && TakenOut(old(items), k, items)
    {
      FindIn(items, k);
      WithoutIs(items, k);
      if k !in index {
        WithoutAbsent(items, k);
        return None;
      }
      WithoutIndexed(items, index, k);
      r := Some(index[k]);
      items, index := Without(items, k), index - {k};
    }
  }
}
