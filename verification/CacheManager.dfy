/** The manager that bounds the chunk cache: it tracks files in an LRU, counts their users and evicts. */
module CacheManager {
  import opened Common
  import opened LruCache
  import opened CacheAccounting

  // ---------------------------------------------------------------- lists taken one entry further

  lemma {:induction false} StuckSnoc(a: Items, x: (Path, Entry), removable: set<Path>)
    ensures Stuck(a + [x], removable) == Stuck(a, removable) + (if Evictable(x, removable) then [] else [x])
    ensures Freed(a + [x], removable) == Freed(a, removable) + (if Evictable(x, removable) then x.1.size else 0)
  {
    if a == [] {
      assert a + [x] == [x] && [x][1..] == [];
    } else {
      assert (a + [x])[1..] == a[1..] + [x];
      StuckSnoc(a[1..], x, removable);
    }
  }

  lemma {:induction false} RefreshedSnoc(a: Items, x: (Path, Entry), found: Found)
    ensures Refreshed(a + [x], found) == Refreshed(a, found)
      + (var d := Find(found, x.0); if d.Some? then [(x.0, Entry(d.value, x.1.refs))] else [])
  {
    if a == [] {
      assert a + [x] == [x] && [x][1..] == [];
    } else {
      assert (a + [x])[1..] == a[1..] + [x] && (a + [x])[0] == a[0];
      RefreshedSnoc(a[1..], x, found);
      var d := Find(found, a[0].0);
      var head: Items := if d.Some? then [(a[0].0, Entry(d.value, a[0].1.refs))] else [];
      assert Refreshed(a + [x], found) == head + Refreshed(a[1..] + [x], found);
      assert Refreshed(a, found) == head + Refreshed(a[1..], found);
    }
  }

  lemma {:induction false} AdoptedSnoc(a: Found, x: (Path, nat), items: Items)
    ensures Adopted(a + [x], items) == Adopted(a, items)
      + (if Find(items, x.0).None? then [(x.0, Entry(x.1, 0))] else [])
  {
    if a == [] {
      assert a + [x] == [x] && [x][1..] == [];
    } else {
      assert (a + [x])[1..] == a[1..] + [x] && (a + [x])[0] == a[0];
      AdoptedSnoc(a[1..], x, items);
      var head: Items := if Find(items, a[0].0).None? then [(a[0].0, Entry(a[0].1, 0))] else [];
      assert Adopted(a + [x], items) == head + Adopted(a[1..] + [x], items);
      assert Adopted(a, items) == head + Adopted(a[1..], items);
    }
  }

  /** The k oldest have been popped: some are gone, the others put aside. */
  ghost predicate Popping(s: State, capacity: int, removable: set<Path>, k: nat, total: int, skipped: Items,
                          verified: set<Path>) {
    && k <= |s.items|
    && total == s.total - Freed(s.items[..k], removable)
    && skipped == Stuck(s.items[..k], removable)
    && verified == s.verified - Gone(s.items[..k], removable)
    && forall m: nat {:trigger s.items[..m]} :: m < k ==> s.total - Freed(s.items[..m], removable) > capacity
  }

  lemma PopOne(s: State, capacity: int, removable: set<Path>, k: nat, total: int, skipped: Items, verified: set<Path>)
    requires Popping(s, capacity, removable, k, total, skipped, verified) && k < |s.items| && total > capacity
    ensures var x := s.items[k];
      if Evictable(x, removable)
        then Popping(s, capacity, removable, k + 1, total - x.1.size, skipped, verified - {x.0})
      else Popping(s, capacity, removable, k + 1, total, skipped + [x], verified)
  {
    var x := s.items[k];
    assert s.items[..k + 1] == s.items[..k] + [x];
    StuckSnoc(s.items[..k], x, removable);
    assert Gone(s.items[..k + 1], removable) == Gone(s.items[..k], removable)
      + (if Evictable(x, removable) then {x.0} else {});
  }

  lemma PopDone(s: State, capacity: int, removable: set<Path>, k: nat, total: int, skipped: Items, verified: set<Path>)
    requires Popping(s, capacity, removable, k, total, skipped, verified) && capacity > 0 &&
      (total <= capacity || k == |s.items|)
    ensures Evicted(s, capacity, removable) == State(s.items[k..] + skipped, total, verified, total > capacity)
  {
    PoppedIsEnough(s.items, s.total, capacity, removable);
    JustEnoughUnique(s.items, s.total, capacity, removable, k, Popped(s.items, s.total, capacity, removable));
  }

  /** Adding an entry whose name is not there puts it at the end. */
  lemma AddFresh(items: Items, x: (Path, Entry))
    requires forall i :: 0 <= i < |items| ==> items[i].0 != x.0
    ensures Newest(items, x.0, x.1) == items + [x]
  {
    FindIn(items, x.0);
    WithoutAbsent(items, x.0);
  }

  class Manager {
    const capacity: int
    const lru: Cache<Path, Entry>
    var total: int
    var verified: set<Path>
    var paused: bool

    ghost function View(): State
      reads this, lru
    {
      State(lru.items, total, verified, paused)
    }

    ghost predicate Valid()
      reads this, lru
    {
      lru.Valid() && lru.maxEntries == 0 && Balanced(View())
    }

    constructor (capacity: int)
      ensures Valid() && fresh(lru) && this.capacity == capacity && View() == State([], 0, {}, false)
    {
      this.capacity, total, verified, paused := capacity, 0, {}, false;
      lru := new Cache(0);
    }

    method Acquire(p: Path, size: nat)
      requires Valid()
      modifies this, lru
      ensures Valid() && View() == Acquired(old(View()), p, size)
    {
      StepKeepsBalance(capacity, View(), Step.Acquire(p, size), Acquired(View(), p, size));
      ghost var items := lru.items;
      var e := lru.Get(p);
      if e.Some? {
        total := total + size - e.value.size;
        Put(items, p, e.value, Entry(size, e.value.refs + 1));
      } else {
        Insert(p, Entry(size, 1));
        total := total + size;
      }
    }

    /** Changes the entry that a look-up has just made the newest. */
    method Put(ghost items: Items, p: Path, was: Entry, e: Entry)
      requires lru.Valid() && lru.maxEntries == 0 && lru.items == Newest(items, p, was)
      modifies lru
      ensures lru.Valid() && lru.items == Newest(items, p, e)
    {
      NewestTwice(items, p, was, e);
      lru.Add(p, e);
    }

    method Insert(p: Path, e: Entry)
      requires lru.Valid() && lru.maxEntries == 0
      modifies lru
      ensures lru.Valid() && lru.items == Newest(old(lru.items), p, e)
    {
      lru.Add(p, e);
    }

    method Release(p: Path)
      requires Valid()
      modifies this, lru
      ensures Valid() && View() == Released(old(View()), p)
    {
      StepKeepsBalance(capacity, View(), Step.Release(p), Released(View(), p));
      ghost var items := lru.items;
      var e := lru.Get(p);
      if e.Some? && e.value.refs > 0 {
        Put(items, p, e.value, Entry(e.value.size, e.value.refs - 1));
        if e.value.refs == 1 { paused := false; }
      }
    }

    /** Whether nobody here uses an entry, as of now. */
    method IsIdle(p: Path) returns (idle: bool)
      requires Valid()
      modifies this, lru
      ensures Valid() && View() == Touched(old(View()), p) && idle == (Refs(old(View()), p) == 0)
    {
      StepKeepsBalance(capacity, View(), Step.Touch(p), Touched(View(), p));
      var e := lru.Get(p);
      idle := e.None? || e.value.refs == 0;
    }

    /** The bookkeeping once an idle entry's file is gone. */
    method Forget(p: Path)
      requires Valid()
      modifies this, lru
      ensures Valid() && View() == Forgotten(old(View()), p)
    {
      StepKeepsBalance(capacity, View(), Step.Forget(p), Forgotten(View(), p));
      var e := lru.Remove(p);
      if e.Some? { total := total - e.value.size; }
      verified := verified - {p};
    }

    /** Puts entries back that are not tracked, as the newest. */
    method PutBack(skipped: Items)
      requires lru.Valid() && lru.maxEntries == 0 && Distinct(lru.items + skipped)
      modifies lru
      ensures lru.Valid() && lru.items == old(lru.items) + skipped
    {
      ghost var items := lru.items;
      for i := 0 to |skipped|
        invariant lru.Valid() && lru.items == items + skipped[..i]
      {
        var x := skipped[i];
        assert items + skipped == items + skipped[..i] + [x] + skipped[i + 1..];
        forall j | 0 <= j < |lru.items| ensures lru.items[j].0 != x.0 {
          assert (items + skipped)[j] == lru.items[j] && (items + skipped)[|items| + i] == x;
        }
        AddFresh(lru.items, x);
        Insert(x.0, x.1);
      }
    }

    /** Pops the oldest entries, removing those nobody uses, until the total is within capacity. */
    method EvictLocked(removable: set<Path>)
      requires Valid()
      modifies this, lru
      ensures Valid() && View() == Evicted(old(View()), capacity, removable)
      ensures if capacity > 0 then EvictsOldest(old(View()), capacity, removable, View()) else View() == old(View())
    {
      if capacity <= 0 { return; }
      ghost var s := View();
      EvictedBalanced(s, capacity, removable);
      EvictedIs(s, capacity, removable);
      var skipped: Items := [];
      ghost var k := 0;
      assert s.items[..0] == [];
      while total > capacity && lru.items != []
        invariant lru.Valid() && Popping(s, capacity, removable, k, total, skipped, verified) &&
          lru.items == s.items[k..]
        decreases |lru.items|
      {
        PopOne(s, capacity, removable, k, total, skipped, verified);
        var p, e := lru.RemoveOldest();
        if e.refs > 0 || p !in removable {
          skipped := skipped + [(p, e)];
        } else {
          verified := verified - {p};
          total := total - e.size;
        }
        k := k + 1;
      }
      PopDone(s, capacity, removable, k, total, skipped, verified);
      PutBack(skipped);
      paused := total > capacity;
    }

    method PopAll() returns (tracked: Items)
      requires lru.Valid()
      modifies lru
      ensures lru.Valid() && lru.items == [] && tracked == old(lru.items)
    {
      ghost var items := lru.items;
      tracked := [];
      while lru.items != []
        invariant lru.Valid() && tracked + lru.items == items
        decreases |lru.items|
      {
        var p, e := lru.RemoveOldest();
        tracked := tracked + [(p, e)];
      }
    }

    /** Takes every entry out and puts back those still on disk, oldest first, at the size they have there. */
    method Refresh(found: Found) returns (kept: set<Path>)
      requires Valid()
      modifies this, lru
      ensures lru.Valid() && paused == old(paused) && lru.items == Refreshed(old(lru.items), found) &&
        total == Sizes(lru.items)
      ensures verified == old(verified) - Vanished(old(lru.items), found)
      ensures forall p :: p in kept <==> Find(old(lru.items), p).Some? && Find(found, p).Some?
    {
      var tracked := PopAll();
      total, kept := 0, {};
      assert tracked[..0] == [];
      for i := 0 to |tracked|
        invariant lru.Valid() && paused == old(paused)
        invariant Rebuilt(tracked[..i], found, old(verified), lru.items, total, verified, kept)
      {
        var x := tracked[i];
        RebuildOne(tracked, i, found, old(verified), lru.items, total, verified, kept);
        var d := Find(found, x.0);
        if d.Some? {
          Insert(x.0, Entry(d.value, x.1.refs));
          total := total + d.value;
          kept := kept + {x.0};
        } else {
          verified := verified - {x.0};
        }
      }
      assert tracked[..|tracked|] == tracked;
    }

    /** Adopts the files not tracked yet, in the order of the list. */
    method Adopt(found: Found, kept: set<Path>, ghost items: Items)
      requires lru.Valid() && lru.maxEntries == 0 && lru.items == Refreshed(items, found) && total == Sizes(lru.items)
      requires Distinct(found) && forall p :: p in kept <==> Find(items, p).Some? && Find(found, p).Some?
      modifies `total, lru
      ensures lru.Valid() && lru.items == Refreshed(items, found) + Adopted(found, items) && total == Sizes(lru.items)
    {
      assert found[..0] == [];
      for i := 0 to |found|
        invariant lru.Valid() && Adopting(items, found, i, lru.items, total)
      {
        var x := found[i];
        AdoptOne(items, found, i, lru.items, total);
        if x.0 !in kept {
          Insert(x.0, Entry(x.1, 0));
          total := total + x.1;
        }
      }
      assert found[..|found|] == found;
    }

    method ReconcileLocked(found: Found)
      requires Valid() && Distinct(found)
      modifies this, lru
      ensures Valid() && View() == Reconciled(old(View()), found)
    {
      ReconciledBalanced(View(), found);
      ghost var items := lru.items;
      var kept := Refresh(found);
      Adopt(found, kept, items);
    }

    /**
     * Runs once the total reaches capacity, unless a recent attempt has just failed. A scan that is due
     * comes first, so that what other processes wrote is counted.
     */
    method EvaluateLocked(recent: bool, scan: Option<Found>, removable: set<Path>)
      requires Valid() && (scan.Some? ==> Distinct(scan.value))
      modifies this, lru
      ensures Valid()
      ensures var s := old(View());
        if capacity <= 0 || s.total < capacity || (s.paused && recent) then View() == s
        else View() == Evicted(if scan.Some? then Reconciled(s, scan.value) else s, capacity, removable)
    {
      if capacity <= 0 || total < capacity { return; }
      if paused && recent { return; }
      if scan.Some? { ReconcileLocked(scan.value); }
      EvictLocked(removable);
    }
  }

  /** The state of the rebuild once these tracked entries have been looked at. */
  ghost predicate Rebuilt(tracked: Items, found: Found, was: set<Path>, items: Items, total: int, verified: set<Path>,
                          kept: set<Path>) {
    && items == Refreshed(tracked, found) && total == Sizes(items)
    && verified == was - Vanished(tracked, found)
    && forall p :: p in kept <==> Find(tracked, p).Some? && Find(found, p).Some?
  }

  lemma FindSnoc(items: Items, x: (Path, Entry), p: Path)
    ensures Find(items + [x], p).Some? <==> Find(items, p).Some? || p == x.0
  {
    FindAppend(items, [x], p);
    assert Find([x], p) == if p == x.0 then Some(x.1) else None;
  }

  lemma RebuildOne(tracked: Items, i: nat, found: Found, was: set<Path>, items: Items, total: int, verified: set<Path>,
                   kept: set<Path>)
    requires i < |tracked| && Distinct(tracked) && Rebuilt(tracked[..i], found, was, items, total, verified, kept)
    ensures var x, d := tracked[i], Find(found, tracked[i].0);
      if d.Some? then Rebuilt(tracked[..i + 1], found, was, Newest(items, x.0, Entry(d.value, x.1.refs)),
        total + d.value, verified, kept + {x.0})
      else Rebuilt(tracked[..i + 1], found, was, items, total, verified - {x.0}, kept)
  {
    var x, d := tracked[i], Find(found, tracked[i].0);
    assert tracked[..i + 1] == tracked[..i] + [x];
    RefreshedSnoc(tracked[..i], x, found);
    assert Vanished(tracked[..i + 1], found) == Vanished(tracked[..i], found) + (if d.None? then {x.0} else {});
    forall p ensures Find(tracked[..i + 1], p).Some? <==>
      Find(tracked[..i], p).Some? || p == x.0 { FindSnoc(tracked[..i], x, p); }
    if d.Some? {
      var e := Entry(d.value, x.1.refs);
      FindIn(tracked[..i], x.0);
      RefreshedFinds(tracked[..i], found, x.0);
      WithoutAbsent(items, x.0);
      SizesSnoc(items, (x.0, e));
    }
  }

  lemma SizesSnoc(items: Items, x: (Path, Entry))
    ensures Sizes(items + [x]) == Sizes(items) + x.1.size
  {
    SizesAppend(items, [x]);
    assert Sizes([x]) == x.1.size + Sizes([]);
  }

  /** The list once the first i found files have been looked at. */
  ghost predicate Adopting(tracked: Items, found: Found, i: nat, items: Items, total: int) {
    i <= |found| && items == Refreshed(tracked, found) + Adopted(found[..i], tracked) && total == Sizes(items)
  }

  lemma AdoptOne(tracked: Items, found: Found, i: nat, items: Items, total: int)
    requires i < |found| && Distinct(found) && Adopting(tracked, found, i, items, total)
    ensures var x := found[i];
      && Find(found, x.0).Some?
      && if Find(tracked, x.0).None?
        then Adopting(tracked, found, i + 1, Newest(items, x.0, Entry(x.1, 0)), total + x.1)
        else Adopting(tracked, found, i + 1, items, total)
  {
    var x := found[i];
    assert found[..i + 1] == found[..i] + [x];
    AdoptedSnoc(found[..i], x, tracked);
    FindIn(found, x.0);
    if Find(tracked, x.0).None? {
      FindIn(found[..i], x.0);
      RefreshedFinds(tracked, found, x.0);
      AdoptedFinds(found[..i], tracked, x.0);
      FindAppend(Refreshed(tracked, found), Adopted(found[..i], tracked), x.0);
      WithoutAbsent(items, x.0);
      SizesSnoc(items, (x.0, Entry(x.1, 0)));
      assert items + [(x.0, Entry(x.1, 0))] == Refreshed(tracked, found) + Adopted(found[..i + 1], tracked);
    }
  }

  lemma NewestTwice(items: Items, p: Path, was: Entry, e: Entry)
    ensures Newest(Newest(items, p, was), p, e) == Newest(items, p, e)
  {
    WithoutAppend(Without(items, p), [(p, was)], p);
    FindWithout(items, p, p);
    WithoutAbsent(Without(items, p), p);
    assert Without([(p, was)], p) == Without<Path, Entry>([], p) by { assert [(p, was)][1..] == []; }
  }

  lemma {:induction false} WithoutAppend(a: Items, b: Items, p: Path)
    ensures Without(a + b, p) == Without(a, p) + Without(b, p)
  {
    if a == [] {
      assert a + b == b;
    } else {
      assert (a + b)[1..] == a[1..] + b;
      WithoutAppend(a[1..], b, p);
    }
  }
}
