/** The reference-counted cache of xorb mappings, as a step system over every interleaving of acquire, close, remove and
    eviction, with the local copies an object store keeps for it. */
module Xorbmap {
  import opened Common

  type Hash = nat
  type Token = nat

  /** A mapping of one xorb: its atomic count; the holders that may use it and those past their close; evictions that
      have left the cache but not yet dropped its hold; releases that saw zero and have yet to unmap, those that have
      yet to run the hook, how often it was unmapped and how often the hook ran. */
  datatype Mapping = Mapping(hash: Hash, refs: int, open: set<Token>, closing: set<Token>, evicting: nat,
                             toUnmap: nat, toHook: nat, unmapped: nat, hooked: nat)

  /** A fill in flight for a hash, of which there is at most one: by whom, and what it has done. */
  datatype Fill =
    | NoFill
    | Checking(who: Token)
    | Trying(who: Token, m: nat)
    | Opening(who: Token)
    | Opened(who: Token)
    | Made(who: Token, m: nat)
    | Granted(who: Token, m: nat)

  /** What belongs to a hash: the cached mapping, the fill in flight, whether the local copy exists and how many users
      it has, and the mappings whose hook has not run. */
  datatype Slot = Slot(cached: Option<nat>, fill: Fill, file: bool, live: int, unhooked: set<nat>)

  /** All mappings ever made, the slot of every hash, and the counts read by acquires about to compare and swap. */
  datatype State = State(maps: seq<Mapping>, slots: map<Hash, Slot>, loads: map<Token, (nat, int)>)

  function Tally(b: bool): nat { if b then 1 else 0 }

  function Init(hashes: set<Hash>): State { State([], map h | h in hashes :: Slot(None, NoFill, false, 0, {}), map[]) }

  datatype Step =
    | Load(t: Token, m: nat) | Swap(t: Token)
    | Close(t: Token, m: nat) | Drop(t: Token, m: nat)
    | Evict(h: Hash) | DropEvicted(m: nat)
    | Unmap(m: nat) | Hook(m: nat)
    | Begin(h: Hash, t: Token) | Miss(h: Hash) | Got(h: Hash) | Dead(h: Hash) | Hit(h: Hash)
    | OpenFails(h: Hash) | ReopenFails(h: Hash) | Open(h: Hash) | MapFails(h: Hash) | Map(h: Hash) | Add(h: Hash)
      | Finish(h: Hash)

  /** One hold fewer; the release that sees zero goes on to unmap. */
  function Dropped(m: Mapping): Mapping { m.(refs := m.refs - 1, toUnmap := m.toUnmap + Tally(m.refs - 1 == 0)) }

  /** The release hook: the last user's removes the local copy. */
  function Unused(s: Slot): Slot { if s.live - 1 > 0 then s.(live := s.live - 1) else s.(live := 0, file := false) }

  function NewMapping(h: Hash): Mapping { Mapping(h, 2, {}, {}, 0, 0, 0, 0, 0) }

  // ---------------------------------------------------------------- steps on a mapping

  /** A step of a holder, an acquire, an eviction or a release on mapping m. */
  ghost predicate MappingStep(m: Mapping, step: Step, n: Mapping, load: Option<int>) {
    match step
    case Load(_, _) => n == m
    case Swap(t) =>
      load.Some? && t !in m.open + m.closing && n == if load.value != 0 &&
      m.refs == load.value then m.(refs := m.refs + 1, open := m.open + {t}) else m
    case Close(t, _) => t in m.open && n == m.(open := m.open - {t}, closing := m.closing + {t})
    case Drop(t, _) => t in m.closing && n == Dropped(m).(closing := m.closing - {t})
    case DropEvicted(_) => m.evicting > 0 && n == Dropped(m).(evicting := m.evicting - 1)
    case Unmap(_) =>
      m.toUnmap > 0 && n == m.(toUnmap := m.toUnmap - 1, unmapped := m.unmapped + 1, toHook := m.toHook + 1)
    case _ => false
  }

  /** Which mapping such a step is on. */
  function Target(s: State, step: Step): Option<nat> {
    match step
    case Load(_, m) => Some(m)
    case Swap(t) => if t in s.loads then Some(s.loads[t].0) else None
    case Close(_, m) => Some(m)
    case Drop(_, m) => Some(m)
    case DropEvicted(m) => Some(m)
    case Unmap(m) => Some(m)
    case _ => None
  }

  /** What a mapping step does to the counts read. */
  function Loads(s: State, step: Step): map<Token, (nat, int)>
    requires Target(s, step).Some? && Target(s, step).value < |s.maps|
  {
    match step
    case Load(t, m) => s.loads[t := (m, s.maps[m].refs)]
    case Swap(t) => s.loads - {t}
    case _ => s.loads
  }

  ghost predicate HolderStep(s: State, step: Step, t: State) {
    var i := Target(s, step);
    && i.Some? && i.value < |s.maps| == |t.maps|
    && MappingStep(s.maps[i.value], step, t.maps[i.value], if step.Swap? then Some(s.loads[step.t].1) else None)
    && t == State(s.maps[i.value := t.maps[i.value]], s.slots, Loads(s, step))
  }

  // ---------------------------------------------------------------- steps on a hash

  /** The hash a step is on. */
  function HashOf(s: State, step: Step): Option<Hash> {
    match step
    case Evict(h) => Some(h)
    case Hook(m) => if m < |s.maps| then Some(s.maps[m].hash) else None
    case Begin(h, _) => Some(h)
    case Miss(h) => Some(h)
    case Got(h) => Some(h)
    case Dead(h) => Some(h)
    case Hit(h) => Some(h)
    case OpenFails(h) => Some(h)
    case ReopenFails(h) => Some(h)
    case Open(h) => Some(h)
    case MapFails(h) => Some(h)
    case Map(h) => Some(h)
    case Add(h) => Some(h)
    case Finish(h) => Some(h)
    case _ => None
  }

  ghost predicate SlotStep(s: State, step: Step, t: State) {
    var h := HashOf(s, step);
    h.Some? && h.value in s.slots &&
    var a := s.slots[h.value];
    match step
    case Evict(_) =>
      && a.cached.Some? && a.cached.value < |s.maps|
      && t == Put(s, h.value, a.(cached := None), a.cached.value,
        s.maps[a.cached.value].(evicting := s.maps[a.cached.value].evicting + 1))
    case Hook(m) =>
      s.maps[m].toHook > 0 &&
      t == Put(s, h.value, Unused(a).(unhooked := a.unhooked - {m}), m,
      s.maps[m].(toHook := s.maps[m].toHook - 1, hooked := s.maps[m].hooked + 1))
    case Begin(_, who) => a.fill.NoFill? && t == Set(s, h.value, a.(fill := Checking(who)))
    case Miss(_) => a.fill.Checking? && a.cached.None? && t == Set(s, h.value, a.(fill := Opening(a.fill.who)))
    case Got(_) =>
      a.fill.Checking? && a.cached.Some? && t == Set(s, h.value, a.(fill := Trying(a.fill.who, a.cached.value)))
    case Dead(_) =>
      a.fill.Trying? && a.fill.m < |s.maps| && s.maps[a.fill.m].refs == 0 &&
      t == Set(s, h.value, a.(fill := Opening(a.fill.who)))
    case Hit(_) =>
      && a.fill.Trying? && a.fill.m < |s.maps| && s.maps[a.fill.m].refs != 0
      && t == Put(s, h.value, a.(fill := Granted(a.fill.who, a.fill.m)), a.fill.m,
        s.maps[a.fill.m].(refs := s.maps[a.fill.m].refs + 1))
    case OpenFails(_) => a.fill.Opening? && t == Set(s, h.value, a.(fill := NoFill))
    case ReopenFails(_) => a.fill.Opening? && t == Set(s, h.value, a.(fill := NoFill, file := false))
    case Open(_) =>
      a.fill.Opening? && t == Set(s, h.value, a.(fill := Opened(a.fill.who), file := true, live := a.live + 1))
    case MapFails(_) => a.fill.Opened? && t == Set(s, h.value, Unused(a).(fill := NoFill))
    case Map(_) =>
      a.fill.Opened? && t ==
        State(s.maps + [NewMapping(h.value)],
        s.slots[h.value := a.(fill := Made(a.fill.who, |s.maps|), unhooked := a.unhooked + {|s.maps|})], s.loads)
    case Add(_) =>
      a.fill.Made? && t == Set(s, h.value, a.(fill := Granted(a.fill.who, a.fill.m), cached := Some(a.fill.m)))
    case Finish(_) =>
      && a.fill.Granted? && a.fill.m < |s.maps| && a.fill.who !in s.maps[a.fill.m].open + s.maps[a.fill.m].closing
      && t == Put(s, h.value, a.(fill := NoFill), a.fill.m,
        s.maps[a.fill.m].(open := s.maps[a.fill.m].open + {a.fill.who}))
    case _ => false
  }

  function Set(s: State, h: Hash, a: Slot): State { s.(slots := s.slots[h := a]) }

  function Put(s: State, h: Hash, a: Slot, i: nat, m: Mapping): State
    requires i < |s.maps|
  {
    State(s.maps[i := m], s.slots[h := a], s.loads)
  }

  ghost predicate Next(s: State, step: Step, t: State) { HolderStep(s, step, t) || SlotStep(s, step, t) }

  // ---------------------------------------------------------------- the invariant

  /** The holds a fill in flight has on mapping i. */
  function FillHolds(f: Fill, i: nat): nat {
    if f.Made? && f.m == i then 2 else if f.Granted? && f.m == i then 1 else 0
  }

  /** The count is the cache's hold plus the holders'; the mapping is unmapped once, only at zero, and then hooked
      once. */
  ghost predicate MappingOk(m: Mapping, i: nat, a: Slot) {
    && m.refs == |m.open| + |m.closing| + m.evicting + Tally(a.cached == Some(i)) + FillHolds(a.fill, i)
    && m.open !! m.closing
    && m.toUnmap + m.toHook + m.hooked == Tally(m.refs == 0) && m.unmapped == m.toHook + m.hooked
    && (i in a.unhooked <==> m.hooked == 0)
  }

  /** Past its check, a fill knows that nothing is cached; the local copy has one user per mapping not yet hooked, and
      one for a fill between opening and mapping. */
  ghost predicate SlotOk(a: Slot, n: nat) {
    && (a.cached.Some? ==> a.cached.value < n) && (forall i :: i in a.unhooked ==> i < n)
    && (a.fill.Trying? || a.fill.Made? || a.fill.Granted? ==> a.fill.m < n)
    && (a.fill.Opening? || a.fill.Opened? || a.fill.Made? ==> a.cached.None?)
    && (a.fill.Trying? ==> a.cached.None? || a.cached == Some(a.fill.m))
    && a.live == |a.unhooked| + Tally(a.fill.Opened?)
  }

  /** Mappings named by a slot are of its hash. */
  ghost predicate Belongs(s: State, h: Hash)
    requires h in s.slots
  {
    var a := s.slots[h];
    && (a.cached.Some? && a.cached.value < |s.maps| ==> s.maps[a.cached.value].hash == h)
    && ((a.fill.Trying? || a.fill.Made? || a.fill.Granted?) && a.fill.m < |s.maps| ==> s.maps[a.fill.m].hash == h)
    && (forall i :: i in a.unhooked && i < |s.maps| ==> s.maps[i].hash == h)
  }

  ghost predicate Inv(s: State) {
    && (forall i {:trigger s.maps[i]} :: 0 <= i < |s.maps| ==>
      s.maps[i].hash in s.slots && MappingOk(s.maps[i], i, s.slots[s.maps[i].hash]))
    && (forall h {:trigger s.slots[h]} :: h in s.slots ==> SlotOk(s.slots[h], |s.maps|) && Belongs(s, h))
  }

  lemma MappingStepOk(m: Mapping, step: Step, n: Mapping, load: Option<int>, i: nat, a: Slot)
    requires MappingOk(m, i, a) && MappingStep(m, step, n, load)
    ensures MappingOk(n, i, a) && n.hash == m.hash
    ensures m.refs == 0 ==> n.refs == 0
    ensures step.Unmap? ==> m.refs == 0 && m.unmapped == 0
  {}

  lemma HolderStepOk(s: State, step: Step, t: State)
    requires Inv(s) && HolderStep(s, step, t)
    ensures Inv(t)
  {
    var i := Target(s, step).value;
    MappingStepOk(s.maps[i], step, t.maps[i], if step.Swap? then Some(s.loads[step.t].1)
      else None, i, s.slots[s.maps[i].hash]);
    forall j | 0 <= j < |t.maps| ensures t.maps[j].hash in t.slots && MappingOk(t.maps[j], j, t.slots[t.maps[j].hash]) {
      if j != i { assert t.maps[j] == s.maps[j]; }
    }
    forall h | h in t.slots ensures SlotOk(t.slots[h], |t.maps|) && Belongs(t, h) {
      assert Belongs(s, h);
    }
  }

  /** Two slots mean the same to mapping j. */
  predicate Same(a: Slot, b: Slot, j: nat) {
    (a.cached == Some(j) <==> b.cached == Some(j)) && FillHolds(a.fill, j) == FillHolds(b.fill, j) &&
      (j in a.unhooked <==> j in b.unhooked)
  }

  /** The mappings a slot names are of its hash. */
  ghost predicate Named(a: Slot, b: Slot, i: nat) {
    && (b.cached.Some? ==> b.cached == a.cached || b.cached == Some(i))
    && (b.fill.Trying? || b.fill.Made? || b.fill.Granted? ==>
          a.cached == Some(b.fill.m) || b.fill.m == i ||
            ((a.fill.Trying? || a.fill.Made? || a.fill.Granted?) && a.fill.m == b.fill.m))
    && (forall j :: j in b.unhooked ==> j in a.unhooked || j == i)
  }

  /** Changing one slot and one of its mappings. */
  lemma PutOk(s: State, h: Hash, b: Slot, i: nat, m: Mapping)
    requires Inv(s) && h in s.slots && i < |s.maps| && s.maps[i].hash == h == m.hash
    requires SlotOk(b, |s.maps|) && MappingOk(m, i, b) && Named(s.slots[h], b, i)
    requires forall j: nat {:trigger Same(s.slots[h], b, j)} :: j < |s.maps| && j != i ==> Same(s.slots[h], b, j)
    ensures Inv(Put(s, h, b, i, m))
  {
    var t, a := Put(s, h, b, i, m), s.slots[h];
    forall j | 0 <= j < |t.maps| ensures t.maps[j].hash in t.slots && MappingOk(t.maps[j], j, t.slots[t.maps[j].hash]) {
      if j != i {
        assert t.maps[j] == s.maps[j];
        if s.maps[j].hash == h { assert Same(a, b, j); }
      }
    }
    forall g | g in t.slots ensures SlotOk(t.slots[g], |t.maps|) && Belongs(t, g) {
      assert Belongs(s, g);
      if g == h { assert SlotOk(a, |s.maps|); }
    }
  }

  lemma SetOk(s: State, h: Hash, b: Slot)
    requires Inv(s) && h in s.slots && SlotOk(b, |s.maps|)
    requires forall j: nat {:trigger Same(s.slots[h], b, j)} :: j < |s.maps| ==> Same(s.slots[h], b, j)
    requires (b.cached.Some? ==> b.cached == s.slots[h].cached) && b.unhooked == s.slots[h].unhooked
    requires b.fill.Trying? || b.fill.Made? || b.fill.Granted? ==> s.slots[h].cached == Some(b.fill.m)
    ensures Inv(Set(s, h, b))
  {
    var t, a := Set(s, h, b), s.slots[h];
    forall j | 0 <= j < |t.maps| ensures t.maps[j].hash in t.slots && MappingOk(t.maps[j], j, t.slots[t.maps[j].hash]) {
      assert t.maps[j] == s.maps[j];
      if s.maps[j].hash == h { assert Same(a, b, j); }
    }
    forall g | g in t.slots ensures SlotOk(t.slots[g], |t.maps|) && Belongs(t, g) {
      assert Belongs(s, g);
      if g == h { assert SlotOk(a, |s.maps|); }
    }
  }

  lemma EvictOk(s: State, h: Hash, t: State)
    requires Inv(s) && SlotStep(s, Evict(h), t)
    ensures Inv(t)
  {
    var a := s.slots[h];
    var i := a.cached.value;
    assert Belongs(s, h) && SlotOk(a, |s.maps|) && MappingOk(s.maps[i], i, a);
    PutOk(s, h, a.(cached := None), i, t.maps[i]);
  }

  lemma HookOk(s: State, m: nat, t: State)
    requires Inv(s) && SlotStep(s, Hook(m), t)
    ensures Inv(t)
  {
    var h := s.maps[m].hash;
    var a := s.slots[h];
    assert SlotOk(a, |s.maps|) && MappingOk(s.maps[m], m, a);
    assert m in a.unhooked;
    HookSame(a, m, |s.maps|);
    PutOk(s, h, Unused(a).(unhooked := a.unhooked - {m}), m, t.maps[m]);
  }

  lemma HookSame(a: Slot, m: nat, n: nat)
    requires SlotOk(a, n) && m in a.unhooked
    ensures var b := Unused(a).(unhooked := a.unhooked - {m});
      Named(a, b, m) && forall j: nat {:trigger Same(a, b, j)} :: j < n && j != m ==> Same(a, b, j)
  {
  }

  lemma HitOk(s: State, h: Hash, t: State)
    requires Inv(s) && SlotStep(s, Hit(h), t)
    ensures Inv(t)
  {
    var a := s.slots[h];
    var i := a.fill.m;
    assert Belongs(s, h) && SlotOk(a, |s.maps|) && MappingOk(s.maps[i], i, a);
    PutOk(s, h, a.(fill := Granted(a.fill.who, i)), i, t.maps[i]);
  }

  lemma FinishOk(s: State, h: Hash, t: State)
    requires Inv(s) && SlotStep(s, Finish(h), t)
    ensures Inv(t)
  {
    var a := s.slots[h];
    var i := a.fill.m;
    assert Belongs(s, h) && SlotOk(a, |s.maps|) && MappingOk(s.maps[i], i, a);
    FinishSame(a, i, |s.maps|);
    PutOk(s, h, a.(fill := NoFill), i, t.maps[i]);
  }

  lemma FinishSame(a: Slot, i: nat, n: nat)
    requires (a.fill.Trying? || a.fill.Made? || a.fill.Granted?) && a.fill.m == i
    ensures var b := a.(fill := NoFill);
      Named(a, b, i) && forall j: nat {:trigger Same(a, b, j)} :: j < n && j != i ==> Same(a, b, j)
  {
  }

  /** Adding to the cache overwrites nothing: the fill's check still holds. */
  lemma AddOk(s: State, h: Hash, t: State)
    requires Inv(s) && SlotStep(s, Add(h), t)
    ensures Inv(t) && s.slots[h].cached.None?
  {
    var a := s.slots[h];
    var i := a.fill.m;
    assert Belongs(s, h) && SlotOk(a, |s.maps|) && MappingOk(s.maps[i], i, a);
    PutOk(s, h, a.(fill := Granted(a.fill.who, i), cached := Some(i)), i, s.maps[i]);
    assert s.maps[i := s.maps[i]] == s.maps;
  }

  lemma MapOk(s: State, h: Hash, t: State)
    requires Inv(s) && SlotStep(s, Map(h), t)
    ensures Inv(t)
  {
    var a, n := s.slots[h], |s.maps|;
    assert SlotOk(a, n) && Belongs(s, h);
    var b := t.slots[h];
    assert n !in a.unhooked;
    forall j | 0 <= j < |t.maps| ensures t.maps[j].hash in t.slots && MappingOk(t.maps[j], j, t.slots[t.maps[j].hash]) {
      if j < n {
        assert t.maps[j] == s.maps[j];
        if s.maps[j].hash == h { assert Same(a, b, j); }
      }
    }
    forall g | g in t.slots ensures SlotOk(t.slots[g], |t.maps|) && Belongs(t, g) {
      assert SlotOk(s.slots[g], n) && Belongs(s, g);
    }
  }

  /** Steps that change only a slot. */
  lemma CheckStepOk(s: State, step: Step, t: State)
    requires Inv(s) && SlotStep(s, step, t) && (step.Begin? || step.Miss? || step.Got?)
    ensures Inv(t)
  {
    var h := HashOf(s, step).value;
    assert SlotOk(s.slots[h], |s.maps|) && Belongs(s, h);
    SetOk(s, h, t.slots[h]);
  }

  lemma DeadOk(s: State, h: Hash, t: State)
    requires Inv(s) && SlotStep(s, Dead(h), t)
    ensures Inv(t)
  {
    var a := s.slots[h];
    assert SlotOk(a, |s.maps|) && Belongs(s, h) && MappingOk(s.maps[a.fill.m], a.fill.m, a);
    SetOk(s, h, t.slots[h]);
  }

  lemma OpenStepOk(s: State, step: Step, t: State)
    requires Inv(s) && SlotStep(s, step, t) && (step.OpenFails? || step.ReopenFails? || step.Open? || step.MapFails?)
    ensures Inv(t)
  {
    var h := HashOf(s, step).value;
    assert SlotOk(s.slots[h], |s.maps|) && Belongs(s, h);
    SetOk(s, h, t.slots[h]);
  }

  lemma InvStep(s: State, step: Step, t: State)
    requires Inv(s) && Next(s, step, t)
    ensures Inv(t)
  {
    if HolderStep(s, step, t) {
      HolderStepOk(s, step, t);
    } else {
      match step {
        case Evict(h) => EvictOk(s, h, t);
        case Hook(m) => HookOk(s, m, t);
        case Hit(h) => HitOk(s, h, t);
        case Finish(h) => FinishOk(s, h, t);
        case Add(h) => AddOk(s, h, t);
        case Map(h) => MapOk(s, h, t);
        case Dead(h) => DeadOk(s, h, t);
        case Begin(_, _) => CheckStepOk(s, step, t);
        case Miss(_) => CheckStepOk(s, step, t);
        case Got(_) => CheckStepOk(s, step, t);
        case _ => OpenStepOk(s, step, t);
      }
    }
  }

  // ---------------------------------------------------------------- every run

  ghost function Steps(): (State, Step, State) -> bool { (s, step, t) => Next(s, step, t) }

  /** Every state of every run satisfies the invariant. */
  lemma RunsKeepInv(hashes: set<Hash>, trace: seq<(Step, State)>, i: nat)
    requires Run(Steps(), Init(hashes), trace) && i <= |trace|
    ensures Inv(Before(Init(hashes), trace, i))
  {
    var good := (s: State) => Inv(s);
    forall s, step, t | good(s) && Steps()(s, step, t) ensures good(t) {
      InvStep(s, step, t);
    }
    RunKeeps(Steps(), good, Init(hashes), trace, i);
  }

  /** A mapping at zero stays there and is never acquired again. */
  lemma NeverRevives(s: State, step: Step, t: State, i: nat)
    requires Inv(s) && Next(s, step, t) && i < |s.maps| && s.maps[i].refs == 0
    ensures i < |t.maps| && t.maps[i].refs == 0 && t.maps[i].open == s.maps[i].open == {}
  {
    assert MappingOk(s.maps[i], i, s.slots[s.maps[i].hash]);
    InvStep(s, step, t);
    if HolderStep(s, step, t) { HolderZero(s, step, t, i); } else { SlotZero(s, step, t, i); }
    assert MappingOk(t.maps[i], i, t.slots[t.maps[i].hash]);
  }

  lemma HolderZero(s: State, step: Step, t: State, i: nat)
    requires Inv(s) && HolderStep(s, step, t) && i < |s.maps| && s.maps[i].refs == 0
    ensures i < |t.maps| && t.maps[i].refs == 0
  {
    var k := Target(s, step).value;
    MappingStepOk(s.maps[k], step, t.maps[k], if step.Swap? then Some(s.loads[step.t].1)
      else None, k, s.slots[s.maps[k].hash]);
  }

  lemma SlotZero(s: State, step: Step, t: State, i: nat)
    requires Inv(s) && SlotStep(s, step, t) && i < |s.maps| && s.maps[i].refs == 0
    ensures i < |t.maps| && t.maps[i].refs == 0
  {}

  /** Bytes are readable while held: an open holder's mapping is still mapped. */
  lemma HeldIsMapped(s: State, i: nat, t: Token)
    requires Inv(s) && i < |s.maps| && (t in s.maps[i].open || s.slots[s.maps[i].hash].cached == Some(i))
    ensures s.maps[i].refs > 0 && s.maps[i].unmapped == 0
  {
    assert MappingOk(s.maps[i], i, s.slots[s.maps[i].hash]);
  }

  /** Unmapping happens only at zero, and only once. */
  lemma UnmapsOnce(s: State, i: nat, t: State)
    requires Inv(s) && Next(s, Unmap(i), t)
    ensures s.maps[i].refs == 0 && s.maps[i].unmapped == 0 && t.maps[i].unmapped == 1
  {
    assert MappingOk(s.maps[i], i, s.slots[s.maps[i].hash]);
  }

  // ---------------------------------------------------------------- the local copy

  /** Some mapping of the hash, other than the one a step releases, is still mapped or has its release to come. */
  ghost predicate InUse(s: State, step: Step, h: Hash) {
    exists i :: 0 <= i < |s.maps| && s.maps[i].hash == h && s.maps[i].hooked == 0 && step != Hook(i)
  }

  /** A step removes the local copy of a hash in use exactly when it is a download that renamed its file into place,
      could not open it and removed it although the copy had users. The release hook never does. */
  lemma CopyRemoval(s: State, step: Step, t: State, h: Hash)
    requires Inv(s) && SlotStep(s, step, t) && HashOf(s, step) == Some(h) && s.slots[h].file && !t.slots[h].file
    ensures InUse(s, step, h) <==> step.ReopenFails? && s.slots[h].live > 0
  {
    var a := s.slots[h];
    assert SlotOk(a, |s.maps|) && Belongs(s, h);
    forall i | 0 <= i < |s.maps| && s.maps[i].hash == h ensures i in a.unhooked <==> s.maps[i].hooked == 0 {
      assert MappingOk(s.maps[i], i, a);
    }
    if step.Hook? {
      assert MappingOk(s.maps[step.m], step.m, a);
      OnlyOne(a.unhooked, step.m);
    } else if step.ReopenFails? && a.live > 0 {
      var i :| i in a.unhooked;
      assert s.maps[i].hash == h;
    }
  }

  lemma OnlyOne(xs: set<nat>, a: nat)
    requires a in xs
    ensures |xs| <= 1 ==> forall b :: b in xs ==> b == a
  {
    assert |xs - {a}| == |xs| - 1;
  }

  /** A mapping still mapped is in use. */
  lemma MappedIsInUse(s: State, step: Step, h: Hash, i: nat)
    requires Inv(s) && i < |s.maps| && s.maps[i].hash == h && s.maps[i].unmapped == 0 &&
      (step.Hook? ==> step.m < |s.maps| && s.maps[step.m].toHook > 0)
    ensures InUse(s, step, h)
  {
    assert MappingOk(s.maps[i], i, s.slots[h]);
  }

  /** A run in which xorb 0 is read by holder 7, evicted, and downloaded again by 8, whose reopen fails: step k and the
      state it leads to. */
  function Replay(k: nat): (Step, State) {
    var m := NewMapping(0);
    var a := Slot(None, NoFill, true, 1, {0});
    var none := Slot(None, NoFill, false, 0, {});
    var alone := m.(open := {7}, refs := 1);
    if k == 0 then (Begin(0, 7), State([], map[0 := none.(fill := Checking(7))], map[]))
    else if k == 1 then (Miss(0), State([], map[0 := none.(fill := Opening(7))], map[]))
    else if k == 2 then (Open(0), State([], map[0 := none.(fill := Opened(7), file := true, live := 1)], map[]))
    else if k == 3 then (Map(0), State([m], map[0 := a.(fill := Made(7, 0))], map[]))
    else if k == 4 then (Add(0), State([m], map[0 := a.(fill := Granted(7, 0), cached := Some(0))], map[]))
    else if k == 5 then (Finish(0), State([m.(open := {7})], map[0 := a.(cached := Some(0))], map[]))
    else if k == 6 then (Evict(0), State([m.(open := {7}, evicting := 1)], map[0 := a], map[]))
    else if k == 7 then (DropEvicted(0), State([alone], map[0 := a], map[]))
    else if k == 8 then (Begin(0, 8), State([alone], map[0 := a.(fill := Checking(8))], map[]))
    else if k == 9 then (Miss(0), State([alone], map[0 := a.(fill := Opening(8))], map[]))
    else (ReopenFails(0), State([alone], map[0 := a.(file := false)], map[]))
  }

  lemma ReplayFirst()
    ensures Next(Init({0}), Replay(0).0, Replay(0).1) && Next(Replay(0).1, Replay(1).0, Replay(1).1) &&
      Next(Replay(1).1, Replay(2).0, Replay(2).1)
  {
    assert Init({0}).slots == map[0 := Slot(None, NoFill, false, 0, {})];
  }

  lemma ReplayAgain()
    ensures Next(Replay(7).1, Replay(8).0, Replay(8).1) && Next(Replay(8).1, Replay(9).0, Replay(9).1)
  {}

  lemma ReplayReopen()
    ensures Next(Replay(9).1, Replay(10).0, Replay(10).1)
  {}

  lemma ReplayAdds()
    ensures Next(Replay(3).1, Replay(4).0, Replay(4).1)
  {}

  lemma ReplayMaps()
    ensures Next(Replay(2).1, Replay(3).0, Replay(3).1)
  {
    assert [] + [NewMapping(0)] == [NewMapping(0)];
    assert {} + {0} == {0};
  }

  lemma ReplayHolds()
    ensures Next(Replay(4).1, Replay(5).0, Replay(5).1) && Next(Replay(5).1, Replay(6).0, Replay(6).1)
  {
    assert {} + {7} == {7};
  }

  lemma ReplayDrops()
    ensures Next(Replay(6).1, Replay(7).0, Replay(7).1)
  {
    var s, t := Replay(6).1, Replay(7).1;
    DropsTo(s, t, s.maps[0], t.maps[0]);
  }

  lemma DropsTo(s: State, t: State, m: Mapping, n: Mapping)
    requires s.maps == [m] && t == s.(maps := [n]) && m.evicting > 0 && n == Dropped(m).(evicting := m.evicting - 1)
    ensures HolderStep(s, DropEvicted(0), t)
  {
    assert s.maps[0 := n] == [n];
  }

  lemma ReplaySteps(k: nat)
    requires 0 < k < 11
    ensures Steps()(Replay(k - 1).1, Replay(k).0, Replay(k).1)
  {
    ReplayFirst();
    ReplayMaps();
    ReplayAdds();
    ReplayHolds();
    ReplayDrops();
    ReplayAgain();
    ReplayReopen();
    assert k == 1 || k == 2 || k == 3 || k == 4 || k == 5 || k == 6 || k == 7 || k == 8 || k == 9 || k == 10;
  }

  /** It is a run of the cache. */
  lemma ReplayIsRun()
    ensures Run(Steps(), Init({0}), Listing(Replay, 11))
  {
    ReplayFirst();
    forall k: nat | 0 < k < 11 ensures Steps()(Replay(k - 1).1, Replay(k).0, Replay(k).1) { ReplaySteps(k); }
    ListedRun(Steps(), Init({0}), Replay, 11);
  }

  /** Its last step removes the local copy while holder 7 still reads a mapping of it. */
  lemma ReplayLosesCopy()
    ensures Replay(10).0 == ReopenFails(0) && Replay(9).1.slots[0].file && !Replay(10).1.slots[0].file &&
      7 in Replay(9).1.maps[0].open
  {}
}
