/** Whole passes of the collector: bounded steps, the unbounded sweep, dry runs, and arbitrary runs of a store. */
module Sweep {
  import opened Common
  import opened HashText
  import opened ShardFormat
  import opened Store
  import opened Backend
  import opened Gc

  ghost function ToSet<T>(s: seq<T>): set<T> { set x | x in s }

  ghost predicate Distinct<T>(s: seq<T>) { forall i, j :: 0 <= i < j < |s| ==> s[i] != s[j] }

  lemma {:induction false} DistinctSize<T>(s: seq<T>)
    requires Distinct(s)
    ensures |ToSet(s)| == |s|
  {
    if s != [] {
      var init := s[..|s| - 1];
      DistinctSize(init);
      assert s == init + [s[|s| - 1]];
      assert ToSet(s) == ToSet(init) + {s[|s| - 1]};
    }
  }

  // ---------------------------------------------------------------- marking

  /** The shards some anchoring name points at. */
  method MarkAnchors(st: Storage, a: Anchor) returns (refs: set<Digest>)
    ensures forall h :: h in refs <==> Anchored(st.o, a, h)
  {
    var fileRefs, shaRefs: set<Digest> := {}, {};
    var todo := st.o.index.Keys;
    while todo != {}
      invariant todo <= st.o.index.Keys
      invariant forall h :: h in fileRefs <==> exists k :: k !in todo && k.FileKey? && Points(st.o, k, h)
      decreases |todo|
    {
      var k :| k in todo;
      if k.FileKey? {
        assert Points(st.o, k, st.o.index[k]);
        fileRefs := fileRefs + {st.o.index[k]};
      }
      todo := todo - {k};
    }
    if a != AnchorFiles {
      todo := st.o.index.Keys;
      while todo != {}
        invariant todo <= st.o.index.Keys
        invariant forall h :: h in shaRefs <==> exists k ::
          k !in todo && k.ShaKey? && k.d != ZERO_DIGEST && Points(st.o, k, h)
        decreases |todo|
      {
        var k :| k in todo;
        if k.ShaKey? && k.d != ZERO_DIGEST {
          assert Points(st.o, k, st.o.index[k]);
          shaRefs := shaRefs + {st.o.index[k]};
        }
        todo := todo - {k};
      }
    }
    refs := (if a != AnchorSha256 then fileRefs else {}) + shaRefs;
    forall h ensures h in refs <==> Anchored(st.o, a, h) {
      AnchoredBy(st.o, a, h);
      if h in fileRefs { var k: Key :| k.FileKey? && Points(st.o, k, h); assert Points(st.o, FileKey(k.d), h); }
      if h in shaRefs {
        var k: Key :| k.ShaKey? && k.d != ZERO_DIGEST && Points(st.o, k, h);
        assert Points(st.o, ShaKey(k.d), h);
      }
    }
  }

  /** The queue of dead shards, in the order of the walk. */
  method ListDead(st: Storage, a: Anchor, cutoff: int, refs: set<Digest>) returns (dead: seq<Digest>)
    requires forall h :: h in refs <==> Anchored(st.o, a, h)
    ensures Distinct(dead) && ToSet(dead) == DeadShards(st.o, a, cutoff)
    ensures forall h :: h in dead <==> h in st.o.shards && h !in refs && st.o.shards[h].modTime < cutoff
  {
    dead := [];
    var todo := st.o.shards.Keys;
    while todo != {}
      invariant todo <= st.o.shards.Keys && Distinct(dead)
      invariant forall h :: h in dead <==> h !in todo && Dead(st.o, a, cutoff, h)
      decreases |todo|
    {
      var h :| h in todo;
      if h !in refs && st.o.shards[h].modTime < cutoff { dead := dead + [h]; }
      todo := todo - {h};
    }
  }

  method MarkShardXorbs(sh: Shard, marked: set<Digest>) returns (r: set<Digest>)
    ensures forall x :: x in r <==> x in marked || RefersTo(sh, x)
  {
    r := marked;
    for f := 0 to |sh.files|
      invariant forall x :: x in r <==> x in marked || exists g, t ::
        0 <= g < f && 0 <= t < |sh.files[g].entries| && sh.files[g].entries[t].xorb == x
    {
      ghost var before := r;
      for t := 0 to |sh.files[f].entries|
        invariant forall x :: x in r <==> x in before || exists u :: 0 <= u < t && sh.files[f].entries[u].xorb == x
      {
        r := r + {sh.files[f].entries[t].xorb};
      }
    }
    ghost var before := r;
    for b := 0 to |sh.cas|
      invariant forall x :: x in r <==> x in before || exists c :: 0 <= c < b && sh.cas[c].hash == x
    {
      r := r + {sh.cas[b].hash};
    }
  }

  /** Every readable stored shard outside skip shields its xorbs. */
  method MarkXorbs(st: Storage, bad: set<Digest>, skip: set<Digest>)
    returns (unreadable: set<Digest>, marked: set<Digest>)
    ensures forall h :: h in unreadable <==> h in st.o.shards && h !in skip && h in bad
    ensures forall x :: x in marked <==> Referenced(st.o, skip + bad, x)
  {
    unreadable, marked := {}, {};
    var todo := st.o.shards.Keys;
    while todo != {}
      invariant todo <= st.o.shards.Keys
      invariant forall h :: h in unreadable <==> h in st.o.shards && h !in todo && h !in skip && h in bad
      invariant forall x :: x in marked <==> exists h ::
        h in st.o.shards && h !in todo && h !in skip + bad && RefersTo(st.o.shards[h].value, x)
      decreases |todo|
    {
      var h :| h in todo;
      if h !in skip {
        if h in bad { unreadable := unreadable + {h}; } else { marked := MarkShardXorbs(st.o.shards[h].value, marked); }
      }
      todo := todo - {h};
    }
  }

  method ListGarbage(st: Storage, marked: set<Digest>, cutoff: int) returns (dead: seq<Digest>)
    ensures Distinct(dead)
    ensures forall x :: x in dead <==> x in st.o.xorbs && st.o.xorbs[x].modTime < cutoff && x !in marked
  {
    dead := [];
    var todo := st.o.xorbs.Keys;
    while todo != {}
      invariant todo <= st.o.xorbs.Keys && Distinct(dead)
      invariant forall x :: x in dead <==>
        x in st.o.xorbs && x !in todo && st.o.xorbs[x].modTime < cutoff && x !in marked
      decreases |todo|
    {
      var x :| x in todo;
      if x !in marked && st.o.xorbs[x].modTime < cutoff { dead := dead + [x]; }
      todo := todo - {x};
    }
  }

  // ---------------------------------------------------------------- draining the queues

  /** Whether a step's bounds are spent; with a wall-clock budget that may be the case as soon as anything was swept. */
  method Exhausted(maxDeletes: int, budget: bool, count: nat) returns (b: bool)
    ensures b ==> count > 0
    ensures maxDeletes > 0 && count >= maxDeletes ==> b
    ensures maxDeletes <= 0 && !budget ==> !b
  {
    var expired: bool := *;
    b := (maxDeletes > 0 && count >= maxDeletes) || (budget && count > 0 && expired);
  }

  /** Deletes the shards of the queue until it is empty or the bounds are spent. */
  method DrainShards(st: Storage, a: Anchor, cutoff: int, bad: set<Digest>, dead: seq<Digest>, maxDeletes: int,
                     budget: bool)
    returns (swept: seq<Digest>, unreadable: set<Digest>, rest: seq<Digest>)
    requires st.Valid() && Distinct(dead) && ToSet(dead) == DeadShards(st.o, a, cutoff)
    modifies st
    ensures st.Valid() && old(st.trace) <= st.trace
    ensures Distinct(swept) && ToSet(swept) <= SweepableShards(old(st.o), a, cutoff, bad)
    ensures st.o == Without(old(st.o), ToSet(swept))
    ensures rest == [] ==> ToSet(swept) == SweepableShards(old(st.o), a, cutoff, bad)
    ensures unreadable <= bad && unreadable <= old(st.o).shards.Keys
    ensures rest == [] ==> unreadable == DeadShards(old(st.o), a, cutoff) * bad
    ensures rest != [] ==> swept != []
    ensures maxDeletes > 0 ==> |swept| <= maxDeletes
    ensures maxDeletes <= 0 && !budget ==> rest == []
  {
    swept, unreadable, rest := [], {}, dead;
    ghost var o0 := st.o;
    NothingSwept(o0);
    while rest != []
      invariant st.Valid() && old(st.trace) <= st.trace
      invariant Draining(o0, a, cutoff, bad, swept, unreadable, rest)
      invariant st.o == Without(o0, ToSet(swept))
      invariant maxDeletes > 0 ==> |swept| <= maxDeletes
      decreases |rest|
    {
      var stop := Exhausted(maxDeletes, budget, |swept|);
      if stop { return; }
      var h := rest[0];
      SweepableAfter(o0, a, cutoff, bad, ToSet(swept));
      assert h in ToSet(rest) && h !in ToSet(swept);
      var gone, unread := SweepShard(st, a, bad, h);
      WithoutTwice(o0, ToSet(swept), {h});
      DrainedOne(o0, a, cutoff, bad, swept, unreadable, rest, gone, unread);
      if gone { swept := swept + [h]; }
      if unread { unreadable := unreadable + {h}; }
      rest := rest[1..];
    }
  }

  /** What has been swept and found unreadable, and what is left of the queue. */
  ghost predicate Draining(o: Objects, a: Anchor, cutoff: int, bad: set<Digest>, swept: seq<Digest>,
                           unreadable: set<Digest>, rest: seq<Digest>)
  {
    && Distinct(rest) && ToSet(rest) !! ToSet(swept) && ToSet(rest) <= DeadShards(o, a, cutoff)
    && Distinct(swept) && ToSet(swept) <= SweepableShards(o, a, cutoff, bad)
    && SweepableShards(o, a, cutoff, bad) <= ToSet(swept) + ToSet(rest)
    && unreadable <= DeadShards(o, a, cutoff) * bad <= unreadable + ToSet(rest)
  }

  lemma DrainedOne(o: Objects, a: Anchor, cutoff: int, bad: set<Digest>, swept: seq<Digest>,
                   unreadable: set<Digest>, rest: seq<Digest>, gone: bool, unread: bool)
    requires Draining(o, a, cutoff, bad, swept, unreadable, rest) && rest != []
    requires gone <==> rest[0] in SweepableShards(o, a, cutoff, bad)
    requires unread <==> rest[0] in DeadShards(o, a, cutoff) * bad
    ensures ToSet(swept + [rest[0]]) == ToSet(swept) + {rest[0]}
    ensures Draining(o, a, cutoff, bad, if gone then swept + [rest[0]] else swept,
      if unread then unreadable + {rest[0]} else unreadable, rest[1..])
  {
    var h := rest[0];
    assert rest == [h] + rest[1..];
    assert ToSet(rest) == {h} + ToSet(rest[1..]) && h !in ToSet(rest[1..]);
    assert ToSet(swept + [h]) == ToSet(swept) + {h};
  }

  lemma DropOneMore(o: Objects, swept: seq<Digest>, x: Digest)
    ensures o.(xorbs := o.xorbs - ToSet(swept)).(xorbs := o.xorbs - ToSet(swept) - {x}) ==
      o.(xorbs := o.xorbs - ToSet(swept + [x]))
  {
    assert ToSet(swept + [x]) == ToSet(swept) + {x};
    assert o.xorbs - ToSet(swept) - {x} == o.xorbs - ToSet(swept + [x]);
  }

  /** Deletes the xorbs of the queue until it is empty or the bounds, of which count is used up, are spent. */
  method DrainXorbs(st: Storage, dead: seq<Digest>, count: nat, maxDeletes: int, budget: bool)
    returns (swept: seq<Digest>, rest: seq<Digest>)
    requires st.Valid() && Distinct(dead)
    requires forall x :: x in dead ==> x in st.o.xorbs && !Referenced(st.o, {}, x)
    requires maxDeletes > 0 ==> count <= maxDeletes
    modifies st
    ensures st.Valid() && old(st.trace) <= st.trace
    ensures dead == swept + rest && st.o == old(st.o).(xorbs := old(st.o).xorbs - ToSet(swept))
    ensures rest != [] ==> count + |swept| > 0
    ensures maxDeletes > 0 ==> count + |swept| <= maxDeletes
    ensures maxDeletes <= 0 && !budget ==> rest == []
  {
    swept, rest := [], dead;
    while rest != []
      invariant st.Valid() && old(st.trace) <= st.trace
      invariant dead == swept + rest && st.o == old(st.o).(xorbs := old(st.o).xorbs - ToSet(swept))
      invariant maxDeletes > 0 ==> count + |swept| <= maxDeletes
      decreases |rest|
    {
      var stop := Exhausted(maxDeletes, budget, count + |swept|);
      if stop { return; }
      var x := rest[0];
      assert x in dead;
      DropOneMore(old(st.o), swept, x);
      st.Write(DropXorb(x));
      assert dead == (swept + [x]) + rest[1..];
      swept, rest := swept + [x], rest[1..];
    }
  }

  // ---------------------------------------------------------------- what goes and what stays, spelled out

  /** A files name, or a non-zero SHA-256 name, points at the shard, as far as the mode counts either. */
  ghost predicate KeptByName(o: Objects, a: Anchor, h: Digest) {
    || (a != AnchorSha256 && exists d :: FileKey(d) in o.index && o.index[FileKey(d)] == h)
    || (a != AnchorFiles && exists d :: d != ZERO_DIGEST && ShaKey(d) in o.index && o.index[ShaKey(d)] == h)
  }

  /** In SHA-256 mode: a files name points at the shard, and one of its files has no SHA-256 or the zero one. */
  ghost predicate KeptForFile(o: Objects, a: Anchor, h: Digest)
    requires h in o.shards
  {
    && a == AnchorSha256 && (exists d :: FileKey(d) in o.index && o.index[FileKey(d)] == h)
    && exists f :: f in o.shards[h].value.files && (f.sha == None || f.sha == Some(ZERO_DIGEST))
  }

  /** Some term or block of a shard names the xorb. */
  ghost predicate Uses(sh: Shard, x: Digest) {
    || (exists b :: b in sh.cas && b.hash == x)
    || (exists f, t :: f in sh.files && t in f.entries && t.xorb == x)
  }

  /** Everything in b was in a, unchanged. */
  ghost predicate Within(b: Objects, a: Objects) {
    && (forall h :: h in b.shards ==> h in a.shards && b.shards[h] == a.shards[h])
    && (forall x :: x in b.xorbs ==> x in a.xorbs && b.xorbs[x] == a.xorbs[x])
    && (forall k :: k in b.index ==> k in a.index && b.index[k] == a.index[k])
  }

  /** What was written at or after the cutoff is still there, with every name that points at it. */
  ghost predicate YoungStay(a: Objects, b: Objects, cutoff: int) {
    && (forall h :: h in a.shards && a.shards[h].modTime >= cutoff ==> h in b.shards && b.shards[h] == a.shards[h])
    && (forall x :: x in a.xorbs && a.xorbs[x].modTime >= cutoff ==> x in b.xorbs && b.xorbs[x] == a.xorbs[x])
    && (forall k :: k in a.index && a.index[k] in a.shards && a.shards[a.index[k]].modTime >= cutoff ==>
      k in b.index && b.index[k] == a.index[k])
  }

  /** A shard stays if and only if it is young, kept by a name or for a file, or unreadable. */
  ghost predicate ShardsCollected(o: Objects, after: Objects, a: Anchor, cutoff: int, bad: set<Digest>) {
    forall h :: h in o.shards ==> (h in after.shards <==>
      o.shards[h].modTime >= cutoff || KeptByName(o, a, h) || KeptForFile(o, a, h) || h in bad)
  }

  /** A name stays if and only if the shard it points at does. */
  ghost predicate NamesCollected(o: Objects, after: Objects) {
    forall k :: k in o.index && o.index[k] in o.shards ==> (k in after.index <==> o.index[k] in after.shards)
  }

  /** A xorb stays if and only if it is young, some shard that stays uses it, or one that stays is unreadable. */
  ghost predicate XorbsCollected(o: Objects, after: Objects, cutoff: int, bad: set<Digest>) {
    forall x :: x in o.xorbs ==> (x in after.xorbs <==>
      || o.xorbs[x].modTime >= cutoff
      || (exists h :: h in after.shards && Uses(after.shards[h].value, x))
      || exists h :: h in after.shards && h in bad)
  }

  lemma NamesAnchor(o: Objects, a: Anchor, h: Digest)
    ensures Anchored(o, a, h) <==> KeptByName(o, a, h)
    ensures h in o.shards ==> (Spared(o, a, h) <==> KeptForFile(o, a, h))
  {
    AnchoredBy(o, a, h);
    assert FileReferenced(o, h) <==> exists d :: FileKey(d) in o.index && o.index[FileKey(d)] == h by {
      if d :| FileKey(d) in o.index && o.index[FileKey(d)] == h { assert Points(o, FileKey(d), h); }
    }
    assert ShaReferenced(o, h) <==> exists d :: d != ZERO_DIGEST && ShaKey(d) in o.index && o.index[ShaKey(d)] == h by {
      if d :| d != ZERO_DIGEST && ShaKey(d) in o.index && o.index[ShaKey(d)] == h { assert Points(o, ShaKey(d), h); }
    }
    if h in o.shards { FileLacksSha(o.shards[h].value); }
  }

  lemma FileLacksSha(sh: Shard)
    ensures Unanchorable(sh) <==> exists f :: f in sh.files && (f.sha == None || f.sha == Some(ZERO_DIGEST))
  {
    if i :| 0 <= i < |sh.files| && (sh.files[i].sha.None? || sh.files[i].sha == Some(ZERO_DIGEST)) {
      assert sh.files[i] in sh.files;
    }
  }

  lemma UsesRefers(sh: Shard, x: Digest)
    ensures RefersTo(sh, x) <==> Uses(sh, x)
  {
    if b :| 0 <= b < |sh.cas| && sh.cas[b].hash == x { assert sh.cas[b] in sh.cas; }
    if f, t :| 0 <= f < |sh.files| && 0 <= t < |sh.files[f].entries| && sh.files[f].entries[t].xorb == x {
      assert sh.files[f] in sh.files && sh.files[f].entries[t] in sh.files[f].entries;
    }
    if f, t :| f in sh.files && t in f.entries && t.xorb == x {
      var i :| 0 <= i < |sh.files| && sh.files[i] == f;
      var j :| 0 <= j < |f.entries| && f.entries[j] == t;
      assert sh.files[i].entries[j].xorb == x;
    }
  }

  /** The collected store, spelled out. */
  lemma CollectedIs(o: Objects, a: Anchor, cutoff: int, bad: set<Digest>)
    ensures var after := Collected(o, a, cutoff, bad);
      && Within(after, o) && YoungStay(o, after, cutoff) && ShardsCollected(o, after, a, cutoff, bad)
      && NamesCollected(o, after) && XorbsCollected(o, after, cutoff, bad)
  {
    var after := Collected(o, a, cutoff, bad);
    forall h | h in o.shards ensures h in after.shards <==>
      o.shards[h].modTime >= cutoff || KeptByName(o, a, h) || KeptForFile(o, a, h) || h in bad {
      NamesAnchor(o, a, h);
    }
    XorbsAre(o, a, cutoff, bad);
  }

  lemma XorbsAre(o: Objects, a: Anchor, cutoff: int, bad: set<Digest>)
    ensures XorbsCollected(o, Collected(o, a, cutoff, bad), cutoff, bad)
  {
    var after, o1 := Collected(o, a, cutoff, bad), Without(o, SweepableShards(o, a, cutoff, bad));
    assert after.shards == o1.shards;
    forall x | x in o.xorbs ensures x in after.xorbs <==>
      || o.xorbs[x].modTime >= cutoff
      || (exists h :: h in after.shards && Uses(after.shards[h].value, x))
      || exists h :: h in after.shards && h in bad
    {
      assert Referenced(o1, {}, x) <==> exists h :: h in after.shards && Uses(after.shards[h].value, x) by {
        forall h | h in o1.shards ensures RefersTo(o1.shards[h].value, x) <==> Uses(o1.shards[h].value, x) {
          UsesRefers(o1.shards[h].value, x);
        }
        if h :| h in after.shards && Uses(after.shards[h].value, x) { assert h !in {}; }
      }
    }
  }

  /** Whatever lies between a store and what is collected of it keeps what is young. */
  lemma YoungBetween(o: Objects, mid: Objects, a: Anchor, cutoff: int, bad: set<Digest>)
    requires Within(mid, o) && Collected(mid, a, cutoff, bad) == Collected(o, a, cutoff, bad)
    ensures YoungStay(o, mid, cutoff)
  {
    CollectedIs(o, a, cutoff, bad);
    CollectedIs(mid, a, cutoff, bad);
  }

  // ---------------------------------------------------------------- passes

  ghost function ObjectCount(o: Objects): nat { |o.shards| + |o.xorbs| }

  /** One stateless pass, bounded by maxDeletes (when positive) and possibly by a wall-clock budget. */
  method SweepStep(st: Storage, a: Anchor, cutoff: int, bad: set<Digest>, maxDeletes: int, budget: bool)
    returns (r: SweepResult)
    requires st.Valid()
    modifies st
    ensures st.Valid() && old(st.trace) <= st.trace
    ensures r.done ==> st.o == Collected(old(st.o), a, cutoff, bad)
    ensures !r.done ==> ObjectCount(st.o) < ObjectCount(old(st.o))
    ensures Collected(st.o, a, cutoff, bad) == Collected(old(st.o), a, cutoff, bad)
    ensures ToSet(r.sweptShards) == old(st.o).shards.Keys - st.o.shards.Keys &&
      st.o.shards.Keys <= old(st.o).shards.Keys
    ensures ToSet(r.sweptXorbs) == old(st.o).xorbs.Keys - st.o.xorbs.Keys && st.o.xorbs.Keys <= old(st.o).xorbs.Keys
    ensures maxDeletes > 0 ==> |r.sweptShards| + |r.sweptXorbs| <= maxDeletes
    ensures maxDeletes <= 0 && !budget ==> r.done
    ensures r.done && r.unreadable != {} ==> r.sweptXorbs == []
    ensures r.dangling == {}
    ensures Within(st.o, old(st.o)) && YoungStay(old(st.o), st.o, cutoff)
    ensures forall h :: h in old(st.o).shards && h !in st.o.shards ==>
      old(st.o).shards[h].modTime < cutoff && h !in bad && !KeptByName(old(st.o), a, h) && !KeptForFile(old(st.o), a, h)
    ensures forall x :: x in old(st.o).xorbs && x !in st.o.xorbs ==>
      old(st.o).xorbs[x].modTime < cutoff && forall h :: h in st.o.shards ==> !Uses(st.o.shards[h].value, x)
  {
    r := SweepPass(st, a, cutoff, bad, maxDeletes, budget);
    YoungBetween(old(st.o), st.o, a, cutoff, bad);
    GoneFor(old(st.o), st.o, a, cutoff, bad);
  }

  /** What is gone between a store and what is collected of it, is gone for a reason. */
  lemma GoneFor(o: Objects, mid: Objects, a: Anchor, cutoff: int, bad: set<Digest>)
    requires Within(mid, o) && Collected(mid, a, cutoff, bad) == Collected(o, a, cutoff, bad)
    requires mid.xorbs == o.xorbs || mid.shards == Collected(o, a, cutoff, bad).shards
    ensures forall h :: h in o.shards && h !in mid.shards ==>
      o.shards[h].modTime < cutoff && h !in bad && !KeptByName(o, a, h) && !KeptForFile(o, a, h)
    ensures forall x :: x in o.xorbs && x !in mid.xorbs ==>
      o.xorbs[x].modTime < cutoff && forall h :: h in mid.shards ==> !Uses(mid.shards[h].value, x)
  {
    CollectedIs(o, a, cutoff, bad);
    CollectedIs(mid, a, cutoff, bad);
  }

  method SweepPass(st: Storage, a: Anchor, cutoff: int, bad: set<Digest>, maxDeletes: int, budget: bool)
    returns (r: SweepResult)
    requires st.Valid()
    modifies st
    ensures st.Valid() && old(st.trace) <= st.trace
    ensures r.done ==> st.o == Collected(old(st.o), a, cutoff, bad)
    ensures !r.done ==> ObjectCount(st.o) < ObjectCount(old(st.o))
    ensures Collected(st.o, a, cutoff, bad) == Collected(old(st.o), a, cutoff, bad)
    ensures ToSet(r.sweptShards) == old(st.o).shards.Keys - st.o.shards.Keys &&
      st.o.shards.Keys <= old(st.o).shards.Keys
    ensures ToSet(r.sweptXorbs) == old(st.o).xorbs.Keys - st.o.xorbs.Keys && st.o.xorbs.Keys <= old(st.o).xorbs.Keys
    ensures maxDeletes > 0 ==> |r.sweptShards| + |r.sweptXorbs| <= maxDeletes
    ensures maxDeletes <= 0 && !budget ==> r.done
    ensures r.done && r.unreadable != {} ==> r.sweptXorbs == []
    ensures r.dangling == {}
    ensures Within(st.o, old(st.o))
    ensures st.o.xorbs == old(st.o).xorbs || st.o.shards == Collected(old(st.o), a, cutoff, bad).shards
  {
    ghost var o0 := st.o;
    var dangling := Dangling(st, a);
    var shards, unreadable, rest := SweepDeadShards(st, a, cutoff, bad, maxDeletes, budget);
    ghost var o1 := st.o;
    if rest != [] {
      return SweepResult(shards, [], unreadable, dangling, false, |rest|, 0);
    }
    var stop := Exhausted(maxDeletes, budget, |shards|);
    if stop {
      return SweepResult(shards, [], unreadable, dangling, false, 0, 0);
    }
    var xorbs, left;
    xorbs, left, unreadable := SweepGarbage(st, a, cutoff, bad, unreadable, |shards|, maxDeletes, budget);
    XorbsGone(o1, xorbs);
    return SweepResult(shards, xorbs, unreadable, dangling, left == [], 0, |left|);
  }

  /** The first half of a pass: marks, lists the dead shards and sweeps them. */
  method SweepDeadShards(st: Storage, a: Anchor, cutoff: int, bad: set<Digest>, maxDeletes: int, budget: bool)
    returns (shards: seq<Digest>, unreadable: set<Digest>, rest: seq<Digest>)
    requires st.Valid()
    modifies st
    ensures st.Valid() && old(st.trace) <= st.trace
    ensures ToSet(shards) == old(st.o).shards.Keys - st.o.shards.Keys && st.o.shards.Keys <= old(st.o).shards.Keys
    ensures st.o.xorbs == old(st.o).xorbs && |st.o.shards| == |old(st.o).shards| - |shards|
    ensures Within(st.o, old(st.o)) && (rest == [] ==> st.o.shards == Collected(old(st.o), a, cutoff, bad).shards)
    ensures Collected(st.o, a, cutoff, bad) == Collected(old(st.o), a, cutoff, bad)
    ensures rest == [] ==> SweepableShards(st.o, a, cutoff, bad) == {} && forall h :: h in unreadable ==>
      h in bad && h in st.o.shards
    ensures rest != [] ==> shards != []
    ensures maxDeletes > 0 ==> |shards| <= maxDeletes
    ensures maxDeletes <= 0 && !budget ==> rest == []
  {
    ghost var o0 := st.o;
    var refs := MarkAnchors(st, a);
    var dead := ListDead(st, a, cutoff, refs);
    shards, unreadable, rest := DrainShards(st, a, cutoff, bad, dead, maxDeletes, budget);
    PartialShardSweep(o0, a, cutoff, bad, ToSet(shards));
    ShardsGone(o0, shards);
    SweepableAfter(o0, a, cutoff, bad, ToSet(shards));
    DeadAndBadStay(o0, a, cutoff, bad);
  }

  /** The second half of a pass, once no shard is left to sweep: the xorbs nothing references any more go, unless some
      stored shard cannot be read. */
  method SweepGarbage(st: Storage, a: Anchor, cutoff: int, bad: set<Digest>, skip: set<Digest>, count: nat,
                      maxDeletes: int, budget: bool)
    returns (xorbs: seq<Digest>, left: seq<Digest>, unreadable: set<Digest>)
    requires st.Valid() && SweepableShards(st.o, a, cutoff, bad) == {} &&
      (forall h :: h in skip ==> h in bad && h in st.o.shards)
    requires maxDeletes > 0 ==> count <= maxDeletes
    modifies st
    ensures st.Valid() && old(st.trace) <= st.trace
    ensures st.o == old(st.o).(xorbs := old(st.o).xorbs - ToSet(xorbs)) && Distinct(xorbs) &&
      ToSet(xorbs) <= old(st.o).xorbs.Keys
    ensures left == [] ==> st.o == Collected(old(st.o), a, cutoff, bad)
    ensures Collected(st.o, a, cutoff, bad) == Collected(old(st.o), a, cutoff, bad)
    ensures left != [] ==> count + |xorbs| > 0
    ensures maxDeletes > 0 ==> count + |xorbs| <= maxDeletes
    ensures maxDeletes <= 0 && !budget ==> left == []
    ensures unreadable != {} ==> xorbs == []
  {
    ghost var o1 := st.o;
    NothingSwept(o1);
    var more, marked := MarkXorbs(st, bad, skip);
    unreadable := skip + more;
    if unreadable != {} {
      var h :| h in unreadable;
      assert h in bad && h in o1.shards;
      assert o1.xorbs - ToSet([]) == o1.xorbs;
      return [], [], unreadable;
    }
    assert !SomeUnreadable(o1, bad);
    forall x ensures x in marked <==> Referenced(o1, {}, x) {}
    var garbage := ListGarbage(st, marked, cutoff);
    assert ToSet(garbage) == Garbage(o1, {}, cutoff);
    xorbs, left := DrainXorbs(st, garbage, count, maxDeletes, budget);
    assert forall i :: 0 <= i < |xorbs| ==> xorbs[i] == garbage[i];
    PartialXorbSweep(o1, a, cutoff, bad, ToSet(xorbs));
    if left == [] { assert xorbs == garbage; }
  }

  /** Names whose shard object is missing: reported, never deleted, and never there in an intact store. */
  method Dangling(st: Storage, a: Anchor) returns (r: set<Key>)
    requires st.Valid()
    ensures r == {}
  {
    assert Integrity(st.pr, st.o);
    r := {};
    var todo := st.o.index.Keys;
    while todo != {}
      invariant todo <= st.o.index.Keys && r == {}
      decreases |todo|
    {
      var k :| k in todo;
      if (k.FileKey? || (k.ShaKey? && a != AnchorFiles && k.d != ZERO_DIGEST)) &&
        st.o.index[k] !in st.o.shards { r := r + {k}; }
      todo := todo - {k};
    }
  }

  lemma DeadAndBadStay(o: Objects, a: Anchor, cutoff: int, bad: set<Digest>)
    ensures forall h :: h in DeadShards(o, a, cutoff) * bad ==>
      h in Without(o, SweepableShards(o, a, cutoff, bad)).shards
  {}

  lemma ShardsGone(o: Objects, gone: seq<Digest>)
    requires Distinct(gone) && ToSet(gone) <= o.shards.Keys
    ensures ToSet(gone) == o.shards.Keys - Without(o, ToSet(gone)).shards.Keys
    ensures |Without(o, ToSet(gone)).shards| == |o.shards| - |gone|
  {
    DistinctSize(gone);
    var keys := Without(o, ToSet(gone)).shards.Keys;
    assert keys == o.shards.Keys - ToSet(gone);
    assert |keys| == |o.shards.Keys| - |ToSet(gone)|;
  }

  lemma XorbsGone(o: Objects, gone: seq<Digest>)
    requires Distinct(gone) && ToSet(gone) <= o.xorbs.Keys
    ensures ToSet(gone) == o.xorbs.Keys - (o.xorbs - ToSet(gone)).Keys
    ensures |o.xorbs - ToSet(gone)| == |o.xorbs| - |gone|
  {
    DistinctSize(gone);
    var keys := (o.xorbs - ToSet(gone)).Keys;
    assert keys == o.xorbs.Keys - ToSet(gone);
    assert |keys| == |o.xorbs.Keys| - |ToSet(gone)|;
  }

  /** The unbounded sweep. */
  method SweepAll(st: Storage, a: Anchor, cutoff: int, bad: set<Digest>) returns (r: SweepResult)
    requires st.Valid()
    modifies st
    ensures st.Valid() && old(st.trace) <= st.trace && r.done
    ensures st.o == Collected(old(st.o), a, cutoff, bad)
    ensures Within(st.o, old(st.o)) && YoungStay(old(st.o), st.o, cutoff)
    ensures ShardsCollected(old(st.o), st.o, a, cutoff, bad) && NamesCollected(old(st.o), st.o)
    ensures XorbsCollected(old(st.o), st.o, cutoff, bad)
  {
    r := SweepStep(st, a, cutoff, bad, 0, false);
    CollectedIs(old(st.o), a, cutoff, bad);
  }

  /** Repeating bounded steps until one is done terminates, whatever the bounds, in the state one sweep reaches. */
  method SweepBySteps(st: Storage, a: Anchor, cutoff: int, bad: set<Digest>, maxDeletes: int, budget: bool)
    requires st.Valid()
    modifies st
    ensures st.Valid() && old(st.trace) <= st.trace
    ensures st.o == Collected(old(st.o), a, cutoff, bad)
    ensures ShardsCollected(old(st.o), st.o, a, cutoff, bad) && NamesCollected(old(st.o), st.o)
    ensures XorbsCollected(old(st.o), st.o, cutoff, bad)
  {
    CollectedIs(st.o, a, cutoff, bad);
    var done := false;
    while !done
      invariant st.Valid() && old(st.trace) <= st.trace
      invariant Collected(st.o, a, cutoff, bad) == Collected(old(st.o), a, cutoff, bad)
      invariant done ==> st.o == Collected(old(st.o), a, cutoff, bad)
      decreases !done, ObjectCount(st.o)
    {
      var r := SweepStep(st, a, cutoff, bad, maxDeletes, budget);
      done := r.done;
    }
  }

  // ---------------------------------------------------------------- dry runs

  /** What a dry run reports: every dead shard, unread, and the xorbs only those shield. */
  method DryRun(st: Storage, a: Anchor, cutoff: int, bad: set<Digest>) returns (r: SweepResult)
    requires st.Valid()
    ensures ToSet(r.sweptShards) == DeadShards(st.o, a, cutoff)
    ensures ToSet(r.sweptXorbs) == DryXorbs(st.o, a, cutoff, bad)
    ensures r.done
    ensures forall h :: h in r.sweptShards <==>
      h in st.o.shards && st.o.shards[h].modTime < cutoff && !KeptByName(st.o, a, h)
    ensures forall x :: x in r.sweptXorbs <==>
      && x in st.o.xorbs && st.o.xorbs[x].modTime < cutoff
      && forall h :: h in st.o.shards && h !in r.sweptShards ==> h !in bad && !Uses(st.o.shards[h].value, x)
  {
    r := DryPass(st, a, cutoff, bad);
    forall h ensures h in r.sweptShards <==>
      h in st.o.shards && st.o.shards[h].modTime < cutoff && !KeptByName(st.o, a, h) {
      NamesAnchor(st.o, a, h);
      assert h in r.sweptShards <==> h in ToSet(r.sweptShards);
    }
    DryXorbsAre(st.o, a, cutoff, bad, r.sweptShards, r.sweptXorbs);
  }

  lemma DryXorbsAre(o: Objects, a: Anchor, cutoff: int, bad: set<Digest>, shards: seq<Digest>, xorbs: seq<Digest>)
    requires ToSet(shards) == DeadShards(o, a, cutoff) && ToSet(xorbs) == DryXorbs(o, a, cutoff, bad)
    ensures forall x :: x in xorbs <==>
      && x in o.xorbs && o.xorbs[x].modTime < cutoff
      && forall h :: h in o.shards && h !in shards ==> h !in bad && !Uses(o.shards[h].value, x)
  {
    forall h ensures h in shards <==> h in DeadShards(o, a, cutoff) {}
    forall x ensures x in xorbs <==>
      && x in o.xorbs && o.xorbs[x].modTime < cutoff
      && forall h :: h in o.shards && h !in shards ==> h !in bad && !Uses(o.shards[h].value, x)
    {
      assert x in xorbs <==> x in ToSet(xorbs);
      forall h | h in o.shards ensures RefersTo(o.shards[h].value, x) <==> Uses(o.shards[h].value, x) {
        UsesRefers(o.shards[h].value, x);
      }
    }
  }

  method DryPass(st: Storage, a: Anchor, cutoff: int, bad: set<Digest>) returns (r: SweepResult)
    requires st.Valid()
    ensures ToSet(r.sweptShards) == DeadShards(st.o, a, cutoff)
    ensures ToSet(r.sweptXorbs) == DryXorbs(st.o, a, cutoff, bad)
    ensures r.done
  {
    var refs := MarkAnchors(st, a);
    var dead := ListDead(st, a, cutoff, refs);
    var dangling := Dangling(st, a);
    var shards: seq<Digest> := [];
    var drySwept: set<Digest> := {};
    for i := 0 to |dead|
      invariant shards == dead[..i] && drySwept == ToSet(shards)
    {
      shards := shards + [dead[i]];
      drySwept := drySwept + {dead[i]};
    }
    assert drySwept == DeadShards(st.o, a, cutoff);
    var unreadable, marked := MarkXorbs(st, bad, drySwept);
    if unreadable != {} {
      return SweepResult(shards, [], unreadable, dangling, true, 0, 0);
    }
    forall x ensures x in marked <==> Referenced(st.o, drySwept, x) {}
    var garbage := ListGarbage(st, marked, cutoff);
    return SweepResult(shards, garbage, {}, dangling, true, 0, 0);
  }

  ghost function DryXorbs(o: Objects, a: Anchor, cutoff: int, bad: set<Digest>): set<Digest> {
    var dead := DeadShards(o, a, cutoff);
    if exists h :: h in bad && h in o.shards && h !in dead then {} else Garbage(o, dead, cutoff)
  }

  /** A dry run never reports less than a sweep deletes. */
  lemma DryRunIsUpperBound(o: Objects, a: Anchor, cutoff: int, bad: set<Digest>)
    ensures var after := Collected(o, a, cutoff, bad);
      && o.shards.Keys - after.shards.Keys <= DeadShards(o, a, cutoff)
      && o.xorbs.Keys - after.xorbs.Keys <= DryXorbs(o, a, cutoff, bad)
  {
    var after := Collected(o, a, cutoff, bad);
    var o1 := Without(o, SweepableShards(o, a, cutoff, bad));
    if !SomeUnreadable(o1, bad) {
      forall x | x in Garbage(o1, {}, cutoff) ensures x in Garbage(o, DeadShards(o, a, cutoff), cutoff) {
        forall h | h in o.shards && h !in DeadShards(o, a, cutoff) ensures !RefersTo(o.shards[h].value, x) {
          assert h in o1.shards && o1.shards[h] == o.shards[h] && h !in {};
        }
      }
      forall h | h in bad ensures h !in o.shards {
        assert h in o.shards ==> h in o1.shards;
      }
    }
  }

  /** It reports exactly the shards a sweep deletes if and only if no dead shard is unreadable or spared, and then
      the same xorbs too. */
  lemma DryRunIsExact(o: Objects, a: Anchor, cutoff: int, bad: set<Digest>)
    ensures var after := Collected(o, a, cutoff, bad);
      var clean := forall h :: Dead(o, a, cutoff, h) ==> h !in bad && !Spared(o, a, h);
      && (o.shards.Keys - after.shards.Keys == DeadShards(o, a, cutoff) <==> clean)
      && (clean ==> o.xorbs.Keys - after.xorbs.Keys == DryXorbs(o, a, cutoff, bad))
  {
    var after := Collected(o, a, cutoff, bad);
    var sweepable, dead := SweepableShards(o, a, cutoff, bad), DeadShards(o, a, cutoff);
    assert o.shards.Keys - after.shards.Keys == sweepable;
    var clean := forall h :: Dead(o, a, cutoff, h) ==> h !in bad && !Spared(o, a, h);
    if sweepable == dead {
      forall h | Dead(o, a, cutoff, h) ensures h !in bad && !Spared(o, a, h) { assert h in dead; }
    }
    if clean {
      assert sweepable == dead;
      var o1 := Without(o, dead);
      assert SomeUnreadable(o1, bad) <==> exists h :: h in bad && h in o.shards && h !in dead;
      forall x ensures Referenced(o1, {}, x) <==> Referenced(o, dead, x) {
        if Referenced(o, dead, x) {
          var h :| h in o.shards && h !in dead && RefersTo(o.shards[h].value, x);
          assert h in o1.shards && o1.shards[h] == o.shards[h] && h !in {};
        }
        if Referenced(o1, {}, x) {
          var h :| h in o1.shards && h !in {} && RefersTo(o1.shards[h].value, x);
          assert h in o.shards && h !in dead && o1.shards[h] == o.shards[h];
        }
      }
      assert Garbage(o1, {}, cutoff) == Garbage(o, dead, cutoff);
    }
  }

  /** A store that holds just the empty file, whose SHA-256 is the zero marker. */
  function EmptyFileStore(pr: Protocol, named: bool): Objects {
    var h := pr.shard(EMPTY_FILE);
    Objects(map[], map[h := Stored(EMPTY_FILE, 0)], if named then map[FileKey(ZERO_DIGEST) := h] else map[])
  }

  const EMPTY_FILE: Shard := Shard([FileBlock(ZERO_DIGEST, 0x4000_0000, [], [], Some(ZERO_DIGEST))], [])

  lemma EmptyFileStoreIntact(pr: Protocol, named: bool)
    ensures Integrity(pr, EmptyFileStore(pr, named))
  {
    var o := EmptyFileStore(pr, named);
    assert FileMatches(pr, EMPTY_FILE.files[0], o.xorbs);
    assert EMPTY_FILE.files[0].hash == ZERO_DIGEST;
    assert Names(EMPTY_FILE, FileKey(ZERO_DIGEST));
  }

  /** Anchored by SHA-256 names, a dry run over that store reports its shard, and a sweep spares it. */
  lemma DryRunReportsSpared(pr: Protocol)
    ensures var o := EmptyFileStore(pr, true);
      Integrity(pr, o) && o.shards != map[] && DeadShards(o, AnchorSha256, 1) == o.shards.Keys &&
        Collected(o, AnchorSha256, 1, {}) == o
  {
    EmptyFileStoreIntact(pr, true);
    var o := EmptyFileStore(pr, true);
    var h := pr.shard(EMPTY_FILE);
    assert h in o.shards.Keys;
    assert Unanchorable(o.shards[h].value) by { assert o.shards[h].value.files[0].sha == Some(ZERO_DIGEST); }
    assert Points(o, FileKey(ZERO_DIGEST), h);
    assert Spared(o, AnchorSha256, h);
    NothingCollected(o, AnchorSha256, 1, {});
  }

  /** With that shard unreadable and its name gone, a dry run reports it, and a sweep leaves it. */
  lemma DryRunReportsUnreadable(pr: Protocol)
    ensures var o := EmptyFileStore(pr, false);
      Integrity(pr, o) && o.shards != map[] && DeadShards(o, AnchorBoth, 1) == o.shards.Keys &&
        Collected(o, AnchorBoth, 1, o.shards.Keys) == o
  {
    EmptyFileStoreIntact(pr, false);
    var o := EmptyFileStore(pr, false);
    assert pr.shard(EMPTY_FILE) in o.shards.Keys;
    NothingCollected(o, AnchorBoth, 1, o.shards.Keys);
  }

  lemma NothingCollected(o: Objects, a: Anchor, cutoff: int, bad: set<Digest>)
    requires SweepableShards(o, a, cutoff, bad) == {} && o.xorbs == map[]
    ensures Collected(o, a, cutoff, bad) == o
  {
    NothingSwept(o);
  }

  /** With both anchors, or with files names only, all shards readable is enough. */
  lemma DryRunExactForFileAnchors(o: Objects, a: Anchor, cutoff: int)
    requires a != AnchorSha256
    ensures var after := Collected(o, a, cutoff, {});
      && o.shards.Keys - after.shards.Keys == DeadShards(o, a, cutoff)
      && o.xorbs.Keys - after.xorbs.Keys == DryXorbs(o, a, cutoff, {})
  {
    DryRunIsExact(o, a, cutoff, {});
  }

  // ---------------------------------------------------------------- runs

  /** The operations of a store. */
  datatype Op =
    | PutXorbOp(x: Digest, data: Bytes, now: int)
    | PutShardOp(sh: Shard, now: int)
    | UnlinkOp(d: Digest)
    | UnlinkShaOp(d: Digest)
    | SweepOp(a: Anchor, cutoff: int, bad: set<Digest>, maxDeletes: int, budget: bool)

  /** An operation that finishes, or one that a crash cuts short after some of its writes. */
  datatype Event = Finish(op: Op) | Crash(op: Op, writes: nat)

  /** What an operation makes of the store. */
  ghost predicate Effect(pr: Protocol, op: Op, a: Objects, b: Objects) {
    match op
    case PutXorbOp(x, data, now) =>
      b == if x !in a.xorbs && ValidXorb(pr, x, pr.kept(data))
        then a.(xorbs := a.xorbs[x := Stored(pr.kept(data), now)]) else a
    case PutShardOp(sh, now) =>
      if AllIndexed(a, sh) || !Acceptable(pr, sh, a.xorbs) then b == a
      else var p := Prepared(pr, sh, a.xorbs); IsCommit(a, p, pr.shard(p), now, b)
    case UnlinkOp(d) => b == a.(index := a.index - {FileKey(d)})
    case UnlinkShaOp(d) => b == if d == ZERO_DIGEST then a else a.(index := a.index - {ShaKey(d)})
    case SweepOp(anchor, cutoff, bad, _, _) =>
      && Collected(b, anchor, cutoff, bad) == Collected(a, anchor, cutoff, bad)
      && (b == Collected(a, anchor, cutoff, bad) || ObjectCount(b) < ObjectCount(a))
  }

  /** The operation finds no other shard under the name of the one it commits. */
  predicate Clear(pr: Protocol, o: Objects, op: Op) { op.PutShardOp? ==> Nameable(pr, o, op.sh) }

  /** A shard comes with right counts, as validation demands. */
  predicate Proper(op: Op) { op.PutShardOp? ==> AllCounted(op.sh) }

  /** The operation keeps integrity: if it commits a shard, its counts are right and its name is not another's. */
  predicate Safe(pr: Protocol, o: Objects, op: Op) { Proper(op) && Clear(pr, o, op) }

  method Perform(st: Storage, op: Op)
    requires st.Valid()
    modifies st
    ensures st.Traced() && old(st.trace) <= st.trace && Effect(st.pr, op, old(st.o), st.o)
    ensures Safe(st.pr, old(st.o), op) ==> st.Valid()
  {
    match op
    case PutXorbOp(x, data, now) => var _, _ := st.PutXorb(x, data, now);
    case PutShardOp(sh, now) => var _ := st.PutShard(sh, now);
    case UnlinkOp(d) => var _ := st.Unlink(d);
    case UnlinkShaOp(d) => var _, _ := st.UnlinkSha256(d);
    case SweepOp(a, cutoff, bad, maxDeletes, budget) => var _ := SweepStep(st, a, cutoff, bad, maxDeletes, budget);
  }

  /** States one change apart, with integrity in every one of them. */
  ghost predicate SafePath(pr: Protocol, path: seq<Objects>) {
    && path != []
    && (forall i {:trigger Integrity(pr, path[i])} :: 0 <= i < |path| ==> Integrity(pr, path[i]))
    && (forall i :: 0 < i < |path| ==> SingleChange(path[i - 1], path[i]))
  }

  /** The states an operation that finishes passes through. */
  ghost predicate Whole(pr: Protocol, op: Op, path: seq<Objects>) {
    SafePath(pr, path) && Effect(pr, op, path[0], path[|path| - 1])
  }

  /** A path up to the write after which it is cut. */
  function Cut(path: seq<Objects>, writes: nat): (r: seq<Objects>)
    ensures r <= path && (path != [] ==> r != [])
  {
    if writes < |path| then path[..writes + 1] else path
  }

  /** The states an event passes through; a crash leaves a part of what the operation would have. */
  ghost predicate Passes(pr: Protocol, e: Event, path: seq<Objects>) {
    && SafePath(pr, path)
    && match e
       case Finish(op) => Whole(pr, op, path)
       case Crash(op, writes) => exists full {:trigger Whole(pr, op, full)} ::
         Whole(pr, op, full) && path == Cut(full, writes)
  }

  lemma SafeFrom(st: Storage, from: nat)
    requires st.Valid() && from < |st.trace|
    ensures SafePath(st.pr, st.trace[from..])
  {
    var path := st.trace[from..];
    forall i | 0 < i < |path| ensures SingleChange(path[i - 1], path[i]) {
      assert path[i - 1] == st.trace[from + i - 1] && path[i] == st.trace[from + i];
    }
  }

  lemma SafeCut(pr: Protocol, path: seq<Objects>, writes: nat)
    requires SafePath(pr, path)
    ensures SafePath(pr, Cut(path, writes))
  {
    var part := Cut(path, writes);
    forall i | 0 < i < |part| ensures SingleChange(part[i - 1], part[i]) {
      assert part[i - 1] == path[i - 1] && part[i] == path[i];
    }
  }

  /** Performs an operation and returns the states it passes through. */
  method Trace(st: Storage, op: Op) returns (path: seq<Objects>)
    requires st.Valid() && Safe(st.pr, st.o, op)
    modifies st
    ensures st.Valid() && Whole(st.pr, op, path) && path[0] == old(st.o) && path[|path| - 1] == st.o
  {
    var from := |st.trace| - 1;
    Perform(st, op);
    SafeFrom(st, from);
    path := st.trace[from..];
    PathEnds(st.trace, from);
    WholePath(st.pr, op, path, old(st.o), st.o);
  }

  lemma PathEnds(trace: seq<Objects>, from: nat)
    requires from < |trace|
    ensures trace[from..][0] == trace[from] && trace[from..][|trace| - from - 1] == trace[|trace| - 1]
  {
  }

  lemma WholePath(pr: Protocol, op: Op, path: seq<Objects>, a: Objects, b: Objects)
    requires SafePath(pr, path) && path[0] == a && path[|path| - 1] == b && Effect(pr, op, a, b)
    ensures Whole(pr, op, path)
  {
  }

  /** One event of a run; after a crash a process starts on what the operation had written so far. */
  method Next(st: Storage, e: Event) returns (after: Storage, path: seq<Objects>)
    requires st.Valid() && Safe(st.pr, st.o, e.op)
    modifies st
    ensures after.Valid() && after.pr == st.pr && (after == st || fresh(after))
    ensures Passes(st.pr, e, path) && path[0] == old(st.o) && path[|path| - 1] == after.o
  {
    var full := Trace(st, e.op);
    if e.Crash? {
      SafeCut(st.pr, full, e.writes);
      path := Cut(full, e.writes);
      after := new Storage.Recover(st.pr, path[|path| - 1]);
    } else {
      path, after := full, st;
    }
  }

  /** Each path starts where the one before it ended, the first in an empty store. */
  ghost predicate Chained(paths: seq<seq<Objects>>) {
    && (forall i {:trigger paths[i]} :: 0 <= i < |paths| ==> paths[i] != [])
    && forall i {:trigger Start(paths, i)} :: 0 <= i < |paths| ==> paths[i][0] == Start(paths, i)
  }

  /** Where event i starts. */
  ghost function Start(paths: seq<seq<Objects>>, i: nat): Objects
    requires i <= |paths| && forall j {:trigger paths[j]} :: 0 <= j < |paths| ==> paths[j] != []
  {
    if i == 0 then EMPTY else paths[i - 1][|paths[i - 1]| - 1]
  }

  /** The paths of the first events of a run. */
  ghost predicate Runs(pr: Protocol, events: seq<Event>, paths: seq<seq<Objects>>) {
    && |paths| <= |events| && Chained(paths)
    && forall i {:trigger paths[i]} :: 0 <= i < |paths| ==> Passes(pr, events[i], paths[i])
  }

  lemma RunGrows(pr: Protocol, events: seq<Event>, paths: seq<seq<Objects>>, path: seq<Objects>)
    requires Runs(pr, events, paths) && |paths| < |events| && Passes(pr, events[|paths|], path) &&
      path[0] == Start(paths, |paths|)
    ensures Runs(pr, events, paths + [path]) && Start(paths + [path], |paths| + 1) == path[|path| - 1]
  {
    ChainGrows(paths, path);
  }

  lemma ChainGrows(paths: seq<seq<Objects>>, path: seq<Objects>)
    requires Chained(paths) && path != [] && path[0] == Start(paths, |paths|)
    ensures Chained(paths + [path]) && Start(paths + [path], |paths| + 1) == path[|path| - 1]
  {
    var all := paths + [path];
    forall i | 0 <= i < |all| ensures all[i][0] == Start(all, i) {
      if i < |paths| { assert Start(paths, i) == Start(all, i); }
    }
  }

  /** Any sequence of events, from an empty store, each finishing or cut short by a crash after which the store is
      opened again: what every one of them passes through, change by change. It goes on to the last event unless one
      commits a shard with wrong counts, which validation refuses, or whose name another stored shard already has. */
  method Run(pr: Protocol, events: seq<Event>) returns (paths: seq<seq<Objects>>)
    ensures Runs(pr, events, paths)
    ensures |paths| < |events| ==> !Safe(pr, Start(paths, |paths|), events[|paths|].op)
  {
    var st := new Storage(pr);
    paths := [];
    for n := 0 to |events|
      invariant st.pr == pr && st.Valid() && fresh(st)
      invariant |paths| == n && Runs(pr, events, paths) && Start(paths, n) == st.o
    {
      if !Safe(pr, st.o, events[n].op) { return; }
      var path;
      st, path := Next(st, events[n]);
      RunGrows(pr, events, paths, path);
      paths := paths + [path];
    }
  }
}
