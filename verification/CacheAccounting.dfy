/** What the cache manager tracks, and what each of its operations does to it. */
module CacheAccounting {
  import opened Common
  import opened LruCache

  type Path = string

  datatype Entry = Entry(size: nat, refs: nat)

  type Items = seq<(Path, Entry)>

  /** Tracked entries from the oldest to the newest, their total size, the verified names, and the pause of eviction. */
  datatype State = State(items: Items, total: int, verified: set<Path>, paused: bool)

  function Sizes(items: Items): nat { if items == [] then 0 else items[0].1.size + Sizes(items[1..]) }

  /** The total is the sum of the sizes of distinct entries. */
  ghost predicate Balanced(s: State) { Distinct(s.items) && s.total == Sizes(s.items) }

  lemma {:induction false} SizesAppend(a: Items, b: Items)
    ensures Sizes(a + b) == Sizes(a) + Sizes(b)
  {
    if a == [] {
      assert a + b == b;
    } else {
      assert (a + b)[1..] == a[1..] + b;
      SizesAppend(a[1..], b);
    }
  }

  function SizeOf(e: Option<Entry>): nat { if e.Some? then e.value.size else 0 }

  lemma {:induction false} SizesWithout(items: Items, p: Path)
    requires Distinct(items)
    ensures Sizes(Without(items, p)) + SizeOf(Find(items, p)) == Sizes(items)
  {
    if items != [] {
      if items[0].0 == p {
        FindIn(items[1..], p);
        WithoutAbsent(items[1..], p);
      } else {
        SizesWithout(items[1..], p);
      }
    }
  }

  lemma SizesNewest(items: Items, p: Path, e: Entry)
    requires Distinct(items)
    ensures Sizes(Newest(items, p, e)) == Sizes(items) - SizeOf(Find(items, p)) + e.size
  {
    SizesWithout(items, p);
    SizesAppend(Without(items, p), [(p, e)]);
    assert Sizes([(p, e)]) == e.size + Sizes([]);
  }

  /** Two lists with no key in common. */
  lemma DistinctAppend(a: Items, b: Items)
    requires Distinct(a) && Distinct(b) && forall p :: Find(a, p).None? || Find(b, p).None?
    ensures Distinct(a + b)
  {
    forall i, j | 0 <= i < |a| && 0 <= j < |b| ensures a[i].0 != b[j].0 {
      FindIn(a, a[i].0);
      FindIn(b, b[j].0);
    }
  }

  lemma DistinctCons(x: (Path, Entry), rest: Items)
    requires Distinct(rest) && Find(rest, x.0).None?
    ensures Distinct([x] + rest)
  {
    FindIn(rest, x.0);
  }

  // ---------------------------------------------------------------- eviction

  /** Nobody here uses the entry and its file can be removed. */
  predicate Evictable(x: (Path, Entry), removable: set<Path>) { x.1.refs == 0 && x.0 in removable }

  function Stuck(items: Items, removable: set<Path>): Items {
    if items == [] then []
    else (if Evictable(items[0], removable) then [] else [items[0]]) + Stuck(items[1..], removable)
  }

  function Freed(items: Items, removable: set<Path>): nat {
    if items == [] then 0
    else (if Evictable(items[0], removable) then items[0].1.size else 0) + Freed(items[1..], removable)
  }

  function Gone(items: Items, removable: set<Path>): set<Path> { set x | x in items && Evictable(x, removable) :: x.0 }

  /** Popping the n oldest is just enough: after any fewer the total is still over capacity, after n it is not, unless
      nothing is left. */
  ghost predicate JustEnough(items: Items, total: int, capacity: int, removable: set<Path>, n: nat) {
    && n <= |items|
    && (forall m: nat {:trigger items[..m]} :: m < n ==> total - Freed(items[..m], removable) > capacity)
    && (n < |items| ==> total - Freed(items[..n], removable) <= capacity)
  }

  /** How many entries that takes. */
  function Popped(items: Items, total: int, capacity: int, removable: set<Path>): (n: nat)
    ensures n <= |items|
  {
    if total <= capacity || items == [] then 0
    else 1 + Popped(items[1..], if Evictable(items[0], removable) then total - items[0].1.size
      else total, capacity, removable)
  }

  lemma FreedNext(items: Items, removable: set<Path>, m: nat)
    requires 0 < m <= |items|
    ensures Freed(items[..m], removable) == (if Evictable(items[0], removable) then items[0].1.size else 0)
      + Freed(items[1..][..m - 1], removable)
  {
    assert items[..m][1..] == items[1..][..m - 1];
  }

  lemma {:induction false} PoppedIsEnough(items: Items, total: int, capacity: int, removable: set<Path>)
    ensures JustEnough(items, total, capacity, removable, Popped(items, total, capacity, removable))
  {
    if total > capacity && items != [] {
      var rest := if Evictable(items[0], removable) then total - items[0].1.size else total;
      PoppedIsEnough(items[1..], rest, capacity, removable);
      var n := Popped(items, total, capacity, removable);
      forall m: nat | m < n ensures total - Freed(items[..m], removable) > capacity {
        if m > 0 { FreedNext(items, removable, m); }
      }
      FreedNext(items, removable, n);
    }
  }

  /** There is only one such number, so eviction pops exactly the entries it needs. */
  lemma JustEnoughUnique(items: Items, total: int, capacity: int, removable: set<Path>, n: nat, m: nat)
    requires JustEnough(items, total, capacity, removable, n) && JustEnough(items, total, capacity, removable, m)
    ensures n == m
  {
  }

  function Evicted(s: State, capacity: int, removable: set<Path>): State {
    if capacity <= 0 then s
    else
      var n := Popped(s.items, s.total, capacity, removable);
      var total := s.total - Freed(s.items[..n], removable);
      State(s.items[n..] + Stuck(s.items[..n], removable), total, s.verified - Gone(s.items[..n], removable),
        total > capacity)
  }

  lemma {:induction false} StuckIs(items: Items, removable: set<Path>, p: Path)
    requires Distinct(items)
    ensures Find(Stuck(items, removable), p) == if Find(items, p).Some? &&
      Evictable((p, Find(items, p).value), removable) then None else Find(items, p)
    ensures Sizes(Stuck(items, removable)) + Freed(items, removable) == Sizes(items)
  {
    if items != [] {
      StuckIs(items[1..], removable, p);
      FindIn(items[1..], items[0].0);
      if Evictable(items[0], removable) {
        if p == items[0].0 { assert Find(items[1..], p).None?; }
        assert Stuck(items, removable) == Stuck(items[1..], removable);
      } else {
        var rest := Stuck(items[1..], removable);
        assert Stuck(items, removable) == [items[0]] + rest;
        assert ([items[0]] + rest)[1..] == rest;
      }
    }
  }

  lemma {:induction false} StuckIn(items: Items, removable: set<Path>, x: (Path, Entry))
    ensures x in Stuck(items, removable) <==> x in items && !Evictable(x, removable)
  {
    if items != [] {
      StuckIn(items[1..], removable, x);
      assert items == [items[0]] + items[1..];
    }
  }

  lemma {:induction false} StuckDistinct(items: Items, removable: set<Path>)
    requires Distinct(items)
    ensures Distinct(Stuck(items, removable))
  {
    if items != [] {
      StuckDistinct(items[1..], removable);
      var rest := Stuck(items[1..], removable);
      forall j | 0 <= j < |rest| ensures rest[j].0 != items[0].0 { StuckIn(items[1..], removable, rest[j]); }
    }
  }

  /** A look-up after eviction: only evictable entries among those popped are gone. */
  lemma EvictedFinds(s: State, capacity: int, removable: set<Path>, p: Path)
    requires Balanced(s)
    ensures var e, f := Find(s.items, p), Find(Evicted(s, capacity, removable).items, p);
      f == e || (f.None? && e.Some? && Evictable((p, e.value), removable))
  {
    if capacity > 0 {
      var n := Popped(s.items, s.total, capacity, removable);
      var popped, rest := s.items[..n], s.items[n..];
      assert s.items == popped + rest;
      FindAppend(popped, rest, p);
      FindAppend(rest, Stuck(popped, removable), p);
      StuckIs(popped, removable, p);
      OneSide(popped, rest, p);
    }
  }

  /** A path is on one side of a cut only. */
  lemma OneSide(a: Items, b: Items, p: Path)
    requires Distinct(a + b)
    ensures Find(a, p).None? || Find(b, p).None?
  {
    FindIn(a, p);
    FindIn(b, p);
    forall i, j | 0 <= i < |a| && 0 <= j < |b| ensures a[i].0 != b[j].0 {
      assert (a + b)[i] == a[i] && (a + b)[|a| + j] == b[j];
    }
  }

  lemma EvictedBalanced(s: State, capacity: int, removable: set<Path>)
    requires Balanced(s)
    ensures Balanced(Evicted(s, capacity, removable))
  {
    if capacity > 0 {
      var n := Popped(s.items, s.total, capacity, removable);
      PartitionSizes(s.items, n, removable);
      PartitionDistinct(s.items, n, removable);
    }
  }

  /** What is evicted of the first n entries and what stays add up. */
  lemma PartitionSizes(items: Items, n: nat, removable: set<Path>)
    requires n <= |items| && Distinct(items)
    ensures Sizes(items[n..] + Stuck(items[..n], removable)) == Sizes(items) - Freed(items[..n], removable)
  {
    var popped, rest := items[..n], items[n..];
    assert items == popped + rest;
    SizesAppend(popped, rest);
    SizesAppend(rest, Stuck(popped, removable));
    StuckIs(popped, removable, "");
  }

  lemma PartitionDistinct(items: Items, n: nat, removable: set<Path>)
    requires n <= |items| && Distinct(items)
    ensures Distinct(items[n..] + Stuck(items[..n], removable))
  {
    var popped, rest := items[..n], items[n..];
    assert items == popped + rest;
    StuckDistinct(popped, removable);
    forall p ensures Find(rest, p).None? || Find(Stuck(popped, removable), p).None? {
      OneSide(popped, rest, p);
      StuckIs(popped, removable, p);
    }
    DistinctAppend(rest, Stuck(popped, removable));
  }

  /** Eviction ends at or under capacity, or with nothing left that could be evicted; it pauses exactly in the second
      case. */
  lemma EvictedEnds(s: State, capacity: int, removable: set<Path>)
    requires Balanced(s) && capacity > 0
    ensures var r := Evicted(s, capacity, removable);
      && (r.total <= capacity || forall x :: x in r.items ==> !Evictable(x, removable))
      && r.paused == (r.total > capacity)
      && (r.total > capacity ==> forall x :: x in r.items <==> x in s.items && !Evictable(x, removable))
  {
    var n := Popped(s.items, s.total, capacity, removable);
    PoppedIsEnough(s.items, s.total, capacity, removable);
    if n == |s.items| {
      assert s.items[..n] == s.items && s.items[n..] == [];
      forall x ensures x in Stuck(s.items, removable) <==>
        x in s.items && !Evictable(x, removable) { StuckIn(s.items, removable, x); }
    }
  }

  // ---------------------------------------------------------------- eviction, spelled out

  /** Entry i is no longer tracked. */
  ghost predicate IsGone(s: State, r: State, i: nat)
    requires i < |s.items|
  {
    s.items[i] !in r.items
  }

  /** Only unused entries with removable files go, the oldest first; after the last of them the total is within the
      capacity or nothing more can go, and before it the total was not. */
  ghost predicate EvictsOldest(s: State, capacity: int, removable: set<Path>, r: State) {
    && (forall x :: x in r.items ==> x in s.items)
    && (forall i :: 0 <= i < |s.items| && IsGone(s, r, i) ==> s.items[i].1.refs == 0 && s.items[i].0 in removable)
    && (forall i, j :: 0 <= i < j < |s.items| && IsGone(s, r, j) ==>
      IsGone(s, r, i) || s.items[i].1.refs > 0 || s.items[i].0 !in removable)
    && (r.total <= capacity || forall x :: x in r.items ==> x.1.refs > 0 || x.0 !in removable)
    && (forall i :: LastGone(s, r, i) ==> r.total + s.items[i].1.size > capacity)
    && (forall p :: p in r.verified <==> p in s.verified && !NameGone(s, r, p))
    && r.total == Sizes(r.items) && r.paused == (r.total > capacity)
  }

  ghost predicate NameGone(s: State, r: State, p: Path) {
    exists i :: 0 <= i < |s.items| && IsGone(s, r, i) && s.items[i].0 == p
  }

  ghost predicate LastGone(s: State, r: State, i: int) {
    0 <= i < |s.items| && IsGone(s, r, i) && forall j :: i < j < |s.items| ==> !IsGone(s, r, j)
  }

  /** Exactly the evictable ones among the popped are gone. */
  lemma GoneIs(s: State, capacity: int, removable: set<Path>, i: nat)
    requires Balanced(s) && capacity > 0 && i < |s.items|
    ensures IsGone(s, Evicted(s, capacity, removable), i) <==>
      i < Popped(s.items, s.total, capacity, removable) && Evictable(s.items[i], removable)
  {
    var n, x := Popped(s.items, s.total, capacity, removable), s.items[i];
    var popped, rest := s.items[..n], s.items[n..];
    StuckIn(popped, removable, x);
    if i < n {
      assert popped[i] == x;
      assert forall j :: 0 <= j < |rest| ==> rest[j] == s.items[n + j];
      assert x !in rest;
    } else {
      assert rest[i - n] == x;
    }
  }

  lemma {:induction false} FreedAppend(a: Items, b: Items, removable: set<Path>)
    ensures Freed(a + b, removable) == Freed(a, removable) + Freed(b, removable)
  {
    if a == [] {
      assert a + b == b;
    } else {
      assert (a + b)[1..] == a[1..] + b;
      FreedAppend(a[1..], b, removable);
    }
  }

  lemma {:induction false} FreedNone(items: Items, removable: set<Path>)
    requires forall i :: 0 <= i < |items| ==> !Evictable(items[i], removable)
    ensures Freed(items, removable) == 0
  {
    if items != [] { FreedNone(items[1..], removable); }
  }

  /** The last one to go was needed. */
  lemma LastNeeded(s: State, capacity: int, removable: set<Path>, i: nat)
    requires Balanced(s) && capacity > 0 && LastGone(s, Evicted(s, capacity, removable), i)
    ensures Evicted(s, capacity, removable).total + s.items[i].1.size > capacity
  {
    var n := Popped(s.items, s.total, capacity, removable);
    GoneIs(s, capacity, removable, i);
    PoppedIsEnough(s.items, s.total, capacity, removable);
    var a, b := s.items[..i], s.items[i + 1..n];
    assert s.items[..n] == a + ([s.items[i]] + b) && [s.items[i]][1..] == [];
    FreedAppend(a, [s.items[i]] + b, removable);
    FreedAppend([s.items[i]], b, removable);
    assert Freed([s.items[i]], removable) == s.items[i].1.size + Freed([], removable);
    forall j | 0 <= j < |b| ensures !Evictable(b[j], removable) { GoneIs(s, capacity, removable, i + 1 + j); }
    FreedNone(b, removable);
  }

  lemma EvictedIs(s: State, capacity: int, removable: set<Path>)
    requires Balanced(s) && capacity > 0
    ensures EvictsOldest(s, capacity, removable, Evicted(s, capacity, removable))
  {
    var r := Evicted(s, capacity, removable);
    forall i | 0 <= i < |s.items| ensures IsGone(s, r, i) <==>
      i < Popped(s.items, s.total, capacity, removable) && Evictable(s.items[i], removable)
    {
      GoneIs(s, capacity, removable, i);
    }
    forall i | LastGone(s, r, i) ensures r.total + s.items[i].1.size > capacity {
      LastNeeded(s, capacity, removable, i);
    }
    EvictedEnds(s, capacity, removable);
    EvictedBalanced(s, capacity, removable);
    VerifiedLeft(s, capacity, removable);
    StillTracked(s, capacity, removable);
  }

  lemma StillTracked(s: State, capacity: int, removable: set<Path>)
    requires capacity > 0
    ensures forall x :: x in Evicted(s, capacity, removable).items ==> x in s.items
  {
    var n := Popped(s.items, s.total, capacity, removable);
    forall x | x in Evicted(s, capacity, removable).items ensures x in s.items {
      StuckIn(s.items[..n], removable, x);
    }
  }

  lemma VerifiedLeft(s: State, capacity: int, removable: set<Path>)
    requires Balanced(s) && capacity > 0
    ensures var r := Evicted(s, capacity, removable);
      forall p :: p in r.verified <==> p in s.verified && !NameGone(s, r, p)
  {
    var r, n := Evicted(s, capacity, removable), Popped(s.items, s.total, capacity, removable);
    forall p ensures p in Gone(s.items[..n], removable) <==> NameGone(s, r, p) {
      if p in Gone(s.items[..n], removable) {
        var x :| x in s.items[..n] && Evictable(x, removable) && x.0 == p;
        var i :| 0 <= i < n && s.items[i] == x;
        GoneIs(s, capacity, removable, i);
      }
      if i :| 0 <= i < |s.items| && IsGone(s, r, i) && s.items[i].0 == p {
        GoneIs(s, capacity, removable, i);
        assert s.items[i] in s.items[..n];
      }
    }
  }

  // ---------------------------------------------------------------- re-reading the directory

  type Found = seq<(Path, nat)>

  /** Tracked entries that are still on disk, in the same order, with the sizes found there. */
  function Refreshed(items: Items, found: Found): Items {
    if items == [] then []
    else
      var d := Find(found, items[0].0);
      (if d.Some? then [(items[0].0, Entry(d.value, items[0].1.refs))] else []) + Refreshed(items[1..], found)
  }

  /** Files nobody tracked yet, in the order they were found. */
  function Adopted(found: Found, items: Items): Items {
    if found == [] then []
    else
      (if Find(items, found[0].0).None? then [(found[0].0, Entry(found[0].1, 0))] else [])
      + Adopted(found[1..], items)
  }

  function Vanished(items: Items, found: Found): set<Path> { set x | x in items && Find(found, x.0).None? :: x.0 }

  function Reconciled(s: State, found: Found): State {
    var items := Refreshed(s.items, found) + Adopted(found, s.items);
    State(items, Sizes(items), s.verified - Vanished(s.items, found), s.paused)
  }

  lemma {:induction false} RefreshedFinds(items: Items, found: Found, p: Path)
    ensures Find(Refreshed(items, found), p) ==
      if Find(found, p).Some? && Find(items, p).Some? then Some(Entry(Find(found, p).value, Find(items, p).value.refs))
        else None
  {
    if items != [] {
      RefreshedFinds(items[1..], found, p);
      var d := Find(found, items[0].0);
      var head: Items := if d.Some? then [(items[0].0, Entry(d.value, items[0].1.refs))] else [];
      FindAppend(head, Refreshed(items[1..], found), p);
      assert Refreshed(items, found) == head + Refreshed(items[1..], found);
    }
  }

  lemma {:induction false} AdoptedFinds(found: Found, items: Items, p: Path)
    ensures Find(Adopted(found, items), p) == if Find(items, p).None? &&
      Find(found, p).Some? then Some(Entry(Find(found, p).value, 0)) else None
  {
    if found != [] {
      AdoptedFinds(found[1..], items, p);
      var head: Items := if Find(items, found[0].0).None? then [(found[0].0, Entry(found[0].1, 0))] else [];
      FindAppend(head, Adopted(found[1..], items), p);
      assert Adopted(found, items) == head + Adopted(found[1..], items);
    }
  }

  /** Afterwards exactly what is on disk is tracked, at its size there; uses already counted stay counted. */
  lemma ReconciledFinds(s: State, found: Found, p: Path)
    ensures Find(Reconciled(s, found).items, p) ==
      if Find(found, p).None? then None
      else Some(Entry(Find(found, p).value, if Find(s.items, p).Some? then Find(s.items, p).value.refs else 0))
  {
    RefreshedFinds(s.items, found, p);
    AdoptedFinds(found, s.items, p);
    FindAppend(Refreshed(s.items, found), Adopted(found, s.items), p);
  }

  lemma {:induction false} RefreshedDistinct(items: Items, found: Found)
    requires Distinct(items)
    ensures Distinct(Refreshed(items, found))
  {
    if items != [] {
      RefreshedDistinct(items[1..], found);
      var d := Find(found, items[0].0);
      if d.Some? {
        FindIn(items[1..], items[0].0);
        RefreshedFinds(items[1..], found, items[0].0);
        DistinctCons((items[0].0, Entry(d.value, items[0].1.refs)), Refreshed(items[1..], found));
      } else {
        assert Refreshed(items, found) == Refreshed(items[1..], found);
      }
    }
  }

  lemma {:induction false} AdoptedDistinct(found: Found, items: Items)
    requires Distinct(found)
    ensures Distinct(Adopted(found, items))
  {
    if found != [] {
      AdoptedDistinct(found[1..], items);
      if Find(items, found[0].0).None? {
        FindIn(found[1..], found[0].0);
        AdoptedFinds(found[1..], items, found[0].0);
        DistinctCons((found[0].0, Entry(found[0].1, 0)), Adopted(found[1..], items));
      } else {
        assert Adopted(found, items) == Adopted(found[1..], items);
      }
    }
  }

  lemma ReconciledBalanced(s: State, found: Found)
    requires Balanced(s) && Distinct(found)
    ensures Balanced(Reconciled(s, found))
  {
    RefreshedDistinct(s.items, found);
    AdoptedDistinct(found, s.items);
    forall p ensures Find(Refreshed(s.items, found), p).None? || Find(Adopted(found, s.items), p).None? {
      RefreshedFinds(s.items, found, p);
      AdoptedFinds(found, s.items, p);
    }
    DistinctAppend(Refreshed(s.items, found), Adopted(found, s.items));
  }

  // ---------------------------------------------------------------- use and release

  /** One more use, at the newest end, with the size the file has now. */
  function Acquired(s: State, p: Path, size: nat): State {
    var e := Find(s.items, p);
    s.(items := Newest(s.items, p, Entry(size, if e.Some? then e.value.refs + 1 else 1)),
      total := s.total + size - SizeOf(e))
  }

  /** One use less; the last one ends the pause of eviction. */
  function Released(s: State, p: Path): State {
    var e := Find(s.items, p);
    if e.None? then s
    else if e.value.refs == 0 then s.(items := Newest(s.items, p, e.value))
    else s.(items := Newest(s.items, p, Entry(e.value.size, e.value.refs - 1)), paused := s.paused && e.value.refs > 1)
  }

  /** A look at an entry makes it the newest. */
  function Touched(s: State, p: Path): State {
    var e := Find(s.items, p);
    if e.None? then s else s.(items := Newest(s.items, p, e.value))
  }

  function Forgotten(s: State, p: Path): State {
    s.(items := Without(s.items, p), total := s.total - SizeOf(Find(s.items, p)), verified := s.verified - {p})
  }

  // ---------------------------------------------------------------- runs

  /** The manager's critical sections; eviction is told which files can be removed, a scan what it found. */
  datatype Step = Acquire(path: Path, size: nat) | Release(path: Path) | Touch(path: Path) | Forget(path: Path)
    | Evict(removable: set<Path>) | Reconcile(found: Found)

  function Apply(capacity: int, s: State, step: Step): State {
    match step
    case Acquire(p, size) => Acquired(s, p, size)
    case Release(p) => Released(s, p)
    case Touch(p) => Touched(s, p)
    case Forget(p) => Forgotten(s, p)
    case Evict(removable) => Evicted(s, capacity, removable)
    case Reconcile(found) => Reconciled(s, found)
  }

  predicate Next(capacity: int, s: State, step: Step, t: State) {
    (step.Reconcile? ==> Distinct(step.found)) && t == Apply(capacity, s, step)
  }

  lemma StepKeepsBalance(capacity: int, s: State, step: Step, t: State)
    requires Balanced(s) && Next(capacity, s, step, t)
    ensures Balanced(t)
  {
    match step {
      case Acquire(p, size) =>
        var e := Find(s.items, p);
        SizesNewest(s.items, p, Entry(size, if e.Some? then e.value.refs + 1 else 1));
        NewestDistinct(s.items, p, Entry(size, if e.Some? then e.value.refs + 1 else 1));
      case Release(p) =>
        var e := Find(s.items, p);
        if e.Some? {
          var after := if e.value.refs == 0 then e.value else Entry(e.value.size, e.value.refs - 1);
          SizesNewest(s.items, p, after);
          NewestDistinct(s.items, p, after);
        }
      case Touch(p) =>
        var e := Find(s.items, p);
        if e.Some? {
          SizesNewest(s.items, p, e.value);
          NewestDistinct(s.items, p, e.value);
        }
      case Forget(p) =>
        SizesWithout(s.items, p);
        WithoutDistinct(s.items, p);
      case Evict(removable) => EvictedBalanced(s, capacity, removable);
      case Reconcile(found) => ReconciledBalanced(s, found);
    }
  }

  /** A run of the manager from a first state. */
  ghost predicate Managed(capacity: int, first: State, trace: seq<(Step, State)>) {
    forall j: nat {:trigger Next(capacity, Before(first, trace, j), trace[j].0, trace[j].1)} :: j < |trace| ==>
      Next(capacity, Before(first, trace, j), trace[j].0, trace[j].1)
  }

  /** In every run, at every point, the total is the sum of the tracked sizes. */
  lemma {:induction false} RunsStayBalanced(capacity: int, first: State, trace: seq<(Step, State)>, i: nat)
    requires Balanced(first) && Managed(capacity, first, trace) && i <= |trace|
    ensures Balanced(Before(first, trace, i))
  {
    if i > 0 {
      RunsStayBalanced(capacity, first, trace, i - 1);
      StepKeepsBalance(capacity, Before(first, trace, i - 1), trace[i - 1].0, trace[i - 1].1);
    }
  }

  function Refs(s: State, p: Path): nat { if Find(s.items, p).Some? then Find(s.items, p).value.refs else 0 }

  /** Uses of p taken and not given back in the first i steps. */
  function Outstanding(trace: seq<(Step, State)>, p: Path, i: nat): int
    requires i <= |trace|
  {
    if i == 0 then 0
    else Outstanding(trace, p, i - 1) + Uses(trace[i - 1].0, p)
  }

  /** How many more uses of p are out after a step. */
  function Uses(step: Step, p: Path): int {
    if step.Acquire? && step.path == p then 1 else if step.Release? && step.path == p then -1 else 0
  }

  /** What a step may do to p while uses of it are out: nobody gives back what was not taken, and its name is not
      dropped from outside. */
  predicate Fair(step: Step, p: Path, out: int) {
    match step
    case Release(q) => q == p ==> out > 0
    case Forget(q) => q == p ==> out == 0
    case Reconcile(found) => Find(found, p).None? ==> out == 0
    case _ => true
  }

  /** A step counts uses right if and only if it is fair; eviction always is. */
  lemma StepCounts(capacity: int, s: State, step: Step, t: State, p: Path, out: int)
    requires Balanced(s) && Next(capacity, s, step, t) && Refs(s, p) == out
    ensures Refs(t, p) == out + Uses(step, p) <==> Fair(step, p, out)
  {
    match step {
      case Acquire(q, size) =>
        NewestFinds(s.items, q, Entry(size, if Find(s.items, q).Some? then Find(s.items, q).value.refs + 1 else 1), p);
      case Release(q) =>
        var e := Find(s.items, q);
        if e.Some? {
          NewestFinds(s.items, q, if e.value.refs == 0 then e.value else Entry(e.value.size, e.value.refs - 1), p);
        }
      case Touch(q) =>
        if Find(s.items, q).Some? { NewestFinds(s.items, q, Find(s.items, q).value, p); }
      case Forget(q) => FindWithout(s.items, q, p);
      case Evict(removable) => EvictedFinds(s, capacity, removable, p);
      case Reconcile(found) => ReconciledFinds(s, found, p);
    }
  }

  ghost predicate RightAt(first: State, trace: seq<(Step, State)>, p: Path, k: nat)
    requires k <= |trace|
  {
    Refs(Before(first, trace, k), p) == Outstanding(trace, p, k)
  }

  /** At every point up to i, the count kept for p is the number of its uses still out. */
  ghost predicate CountsRight(first: State, trace: seq<(Step, State)>, p: Path, i: nat)
    requires i <= |trace|
  {
    forall k: nat {:trigger RightAt(first, trace, p, k)} :: k <= i ==> RightAt(first, trace, p, k)
  }

  ghost predicate FairAt(trace: seq<(Step, State)>, p: Path, j: nat)
    requires j < |trace|
  {
    Fair(trace[j].0, p, Outstanding(trace, p, j))
  }

  /** Nobody gives back a use that was not taken, and no name is dropped while uses of it are out. */
  ghost predicate FairUpTo(trace: seq<(Step, State)>, p: Path, i: nat)
    requires i <= |trace|
  {
    forall j: nat {:trigger FairAt(trace, p, j)} :: j < i ==> FairAt(trace, p, j)
  }

  lemma CountsOn(capacity: int, first: State, trace: seq<(Step, State)>, p: Path, j: nat)
    requires j < |trace| && Next(capacity, Before(first, trace, j), trace[j].0, trace[j].1)
    requires Balanced(Before(first, trace, j)) && RightAt(first, trace, p, j)
    ensures RightAt(first, trace, p, j + 1) <==> FairAt(trace, p, j)
  {
    StepCounts(capacity, Before(first, trace, j), trace[j].0, trace[j].1, p, Outstanding(trace, p, j));
  }

  /**
   * In every run, the counts kept for a file are right at every point up to i if and only if every step before i is
   * fair to it. And as long as they are, no eviction, however often and whatever else happens, drops a file in use.
   */
  lemma {:induction false} RefsCountUses(capacity: int, first: State, trace: seq<(Step, State)>, p: Path, i: nat)
    requires Balanced(first) && Refs(first, p) == 0 && Managed(capacity, first, trace) && i <= |trace|
    ensures CountsRight(first, trace, p, i) <==> FairUpTo(trace, p, i)
    ensures FairUpTo(trace, p, i) && Outstanding(trace, p, i) > 0 ==> Find(Before(first, trace, i).items, p).Some?
  {
    if i == 0 {
      assert RightAt(first, trace, p, 0);
    } else {
      RefsCountUses(capacity, first, trace, p, i - 1);
      RunsStayBalanced(capacity, first, trace, i - 1);
      assert Next(capacity, Before(first, trace, i - 1), trace[i - 1].0, trace[i - 1].1);
      assert CountsRight(first, trace, p, i) ==> CountsRight(first, trace, p, i - 1) && RightAt(first, trace, p, i - 1);
      assert FairUpTo(trace, p, i) <==> FairUpTo(trace, p, i - 1) && FairAt(trace, p, i - 1) by {
        assert FairUpTo(trace, p, i) ==> FairAt(trace, p, i - 1);
      }
      if CountsRight(first, trace, p, i - 1) {
        assert RightAt(first, trace, p, i - 1);
        CountsOn(capacity, first, trace, p, i - 1);
      }
      assert CountsRight(first, trace, p, i) <==> CountsRight(first, trace, p, i - 1) && RightAt(first, trace, p, i);
      assert CountsRight(first, trace, p, i) ==> RightAt(first, trace, p, i);
    }
  }

  /**
   * Forgetting an idle entry looks and drops in two separate critical sections. A use that begins between
   * them is dropped from the books: the file is then in use and not tracked.
   */
  lemma ForgetRaces(capacity: int, p: Path, size: nat)
    ensures var first := State([(p, Entry(size, 0))], size, {}, false);
      var touched := Touched(first, p);
      var taken := Acquired(touched, p, size);
      var trace := [(Touch(p), touched), (Acquire(p, size), taken), (Forget(p), Forgotten(taken, p))];
      && Balanced(first) && Refs(touched, p) == 0 && Managed(capacity, first, trace)
      && Outstanding(trace, p, 3) == 1 && Find(Before(first, trace, 3).items, p).None?
  {
    var first := State([(p, Entry(size, 0))], size, {}, false);
    assert first.items[1..] == [];
    var touched := Touched(first, p);
    var taken := Acquired(touched, p, size);
    var trace := [(Touch(p), touched), (Acquire(p, size), taken), (Forget(p), Forgotten(taken, p))];
    NewestFinds(first.items, p, Entry(size, 0), p);
    FindWithout(taken.items, p, p);
    assert Outstanding(trace, p, 1) == 0;
    assert Outstanding(trace, p, 2) == 1;
  }
}
