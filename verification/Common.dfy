/** Small vocabulary shared by every module. */
module Common {

  datatype Option<+T> = None | Some(value: T)

  type Byte = x: int | 0 <= x < 256
  type Bytes = seq<Byte>

  const TWO24: nat := 0x100_0000
  const TWO32: nat := 0x1_0000_0000
  const TWO63: nat := 0x8000_0000_0000_0000
  const TWO64: nat := 0x1_0000_0000_0000_0000

  /** The limits on chunks and xorbs. */
  const MAX_CHUNK_SIZE: nat := 131072
  const MAX_CHUNKS: nat := 8192
  const MAX_XORB_SIZE: nat := 64 * 1024 * 1024

  /** The size of the pooled buffer every chunk passes through. */
  const BUFFER_SIZE: nat := MAX_CHUNK_SIZE + 8

  function Min(a: int, b: int): int { if a < b then a else b }

  function Max(a: int, b: int): int { if a < b then b else a }

  /** The concatenation of a sequence of sequences. */
  function Flatten<T>(parts: seq<seq<T>>): seq<T> {
    if parts == [] then [] else parts[0] + Flatten(parts[1..])
  }

  lemma {:induction false} FlattenAppend<T>(a: seq<seq<T>>, b: seq<seq<T>>)
    ensures Flatten(a + b) == Flatten(a) + Flatten(b)
  {
    if a == [] {
      assert a + b == b;
    } else {
      assert (a + b)[1..] == a[1..] + b;
      FlattenAppend(a[1..], b);
    }
  }

  lemma FlattenSnoc<T>(a: seq<seq<T>>, x: seq<T>)
    ensures Flatten(a + [x]) == Flatten(a) + x
  {
    FlattenAppend(a, [x]);
    assert Flatten([x]) == x + Flatten([]);
  }

  /** The parts with an item added to the last of them. */
  function AppendLast<T>(parts: seq<seq<T>>, x: T): (r: seq<seq<T>>)
    requires parts != []
    ensures |r| == |parts|
  {
    parts[..|parts| - 1] + [parts[|parts| - 1] + [x]]
  }

  lemma LastGrows<T>(parts: seq<seq<T>>, init: seq<seq<T>>, last: seq<T>, x: T)
    requires parts == init + [last]
    ensures Flatten(init + [last + [x]]) == Flatten(parts) + [x]
  {
    FlattenSnoc(init, last);
    FlattenSnoc(init, last + [x]);
  }

  lemma AppendLastFlat<T>(parts: seq<seq<T>>, x: T)
    requires parts != []
    ensures Flatten(AppendLast(parts, x)) == Flatten(parts) + [x]
  {
    var k := |parts| - 1;
    assert parts == parts[..k] + [parts[k]];
    LastGrows(parts, parts[..k], parts[k], x);
  }

  function Sum(s: seq<nat>): nat {
    if s == [] then 0 else s[0] + Sum(s[1..])
  }

  lemma {:induction false} SumAppend(a: seq<nat>, b: seq<nat>)
    ensures Sum(a + b) == Sum(a) + Sum(b)
  {
    if a == [] {
      assert a + b == b;
    } else {
      assert (a + b)[1..] == a[1..] + b;
      SumAppend(a[1..], b);
    }
  }

  function Lengths<T>(parts: seq<seq<T>>): (r: seq<nat>)
    ensures |r| == |parts|
    ensures forall i :: 0 <= i < |parts| ==> r[i] == |parts[i]|
  {
    if parts == [] then [] else [|parts[0]|] + Lengths(parts[1..])
  }

  lemma {:induction false} FlattenLength<T>(parts: seq<seq<T>>)
    ensures |Flatten(parts)| == Sum(Lengths(parts))
  {
    if parts != [] {
      FlattenLength(parts[1..]);
    }
  }

  // ---------------------------------------------------------------- runs of step systems

  /** The state before step i of a run that starts in first. */
  function Before<S, L>(first: S, trace: seq<(L, S)>, i: nat): S
    requires i <= |trace|
  {
    if i == 0 then first else trace[i - 1].1
  }

  /** A run: the steps taken from a first state and the states they lead to. */
  ghost predicate Run<S(!new), L(!new)>(next: (S, L, S) -> bool, first: S, trace: seq<(L, S)>) {
    forall i {:trigger trace[i]} :: 0 <= i < |trace| ==> next(Before(first, trace, i), trace[i].0, trace[i].1)
  }

  /** What every step keeps holds throughout every run. */
  lemma {:induction false} RunKeeps<S(!new), L(!new)>(next: (S, L, S) -> bool, good: S -> bool, first: S,
                                      trace: seq<(L, S)>, i: nat)
    requires Run(next, first, trace) && i <= |trace| && good(first)
    requires forall s, l, t {:trigger next(s, l, t)} :: good(s) && next(s, l, t) ==> good(t)
    ensures good(Before(first, trace, i))
  {
    if i > 0 {
      RunKeeps(next, good, first, trace, i - 1);
      assert next(Before(first, trace, i - 1), trace[i - 1].0, trace[i - 1].1);
    }
  }

  /** How many of the first i steps of a run count. */
  function CountSteps<S, L>(counts: L -> bool, trace: seq<(L, S)>, i: nat): nat
    requires i <= |trace|
  {
    if i == 0 then 0 else CountSteps(counts, trace, i - 1) + if counts(trace[i - 1].0) then 1 else 0
  }

  lemma {:induction false} CountAll<S, L>(counts: L -> bool, trace: seq<(L, S)>, i: nat)
    requires i <= |trace| && forall l :: counts(l)
    ensures CountSteps(counts, trace, i) == i
  {
    if i > 0 { CountAll(counts, trace, i - 1); }
  }

  /** Steps that each use up some of a measure are no more than it. */
  lemma {:induction false} CountBound<S(!new), L(!new)>(next: (S, L, S) -> bool, good: S -> bool, measure: S -> int,
                                        counts: L -> bool,
                                                        first: S, trace: seq<(L, S)>, i: nat)
    requires Run(next, first, trace) && i <= |trace| && good(first)
    requires forall s, l, t {:trigger next(s, l, t)} :: good(s) && next(s, l, t) ==>
      good(t) && measure(t) + (if counts(l) then 1 else 0) <= measure(s)
    ensures good(Before(first, trace, i)) && CountSteps(counts, trace, i)
      + measure(Before(first, trace, i)) <= measure(first)
  {
    if i > 0 {
      CountBound(next, good, measure, counts, first, trace, i - 1);
      assert next(Before(first, trace, i - 1), trace[i - 1].0, trace[i - 1].1);
    }
  }

  function Listing<T>(item: nat -> T, n: nat): (r: seq<T>)
    ensures |r| == n && forall i :: 0 <= i < n ==> r[i] == item(i)
  {
    if n == 0 then [] else Listing(item, n - 1) + [item(n - 1)]
  }

  /** Steps listed one after the other make a run. */
  lemma ListedRun<S(!new), L(!new)>(next: (S, L, S) -> bool, first: S, listed: nat -> (L, S), n: nat)
    requires n > 0 ==> next(first, listed(0).0, listed(0).1)
    requires forall k: nat {:trigger listed(k)} :: 0 < k < n ==> next(listed(k - 1).1, listed(k).0, listed(k).1)
    ensures Run(next, first, Listing(listed, n))
  {
    var trace := Listing(listed, n);
    forall i | 0 <= i < n ensures next(Before(first, trace, i), trace[i].0, trace[i].1) {
      assert trace[i] == listed(i);
    }
  }
}
