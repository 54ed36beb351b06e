/** The Merkle tree with variable fan-out. The keyed hash of node inputs is a parameter; nothing is assumed about it
    beyond what a statement spells out for the inputs actually hashed. */
module Merkle {
  import opened Common
  import opened HashText

  const MEAN_BRANCHING_FACTOR: nat := 4
  const MAX_CHILDREN: nat := 9

  type U64 = x: nat | x < TWO64

  datatype Node = Node(hash: Digest, size: U64)

  type Hasher = string -> Digest

  // ---------------------------------------------------------------- node inputs

  function Line(n: Node): string { Format(n.hash) + " : " + Decimal(n.size) + "\n" }

  function Lines(ns: seq<Node>): string {
    if ns == [] then "" else Line(ns[0]) + Lines(ns[1..])
  }

  function FirstNewline(t: string): nat {
    if t == "" || t[0] == '\n' then 0 else 1 + FirstNewline(t[1..])
  }

  lemma {:induction false} NewlineAfter(x: string, r: string)
    requires forall i :: 0 <= i < |x| ==> x[i] != '\n'
    ensures FirstNewline(x + "\n" + r) == |x|
  {
    if x == "" {
      assert (x + "\n" + r)[0] == '\n';
    } else {
      assert (x + "\n" + r)[1..] == x[1..] + "\n" + r;
      NewlineAfter(x[1..], r);
    }
  }

  /** A line is read back unambiguously, whatever follows it. */
  lemma LineIsPrefixFree(a: Node, b: Node, r: string, s: string)
    requires Line(a) + r == Line(b) + s
    ensures a == b && r == s
  {
    var t := Line(a) + r;
    var x, y := Decimal(a.size), Decimal(b.size);
    assert t[..64] == Format(a.hash) && t[..64] == Format(b.hash);
    FormatInjective(a.hash, b.hash);
    assert t[67..] == x + "\n" + r && t[67..] == y + "\n" + s;
    NewlineAfter(x, r);
    NewlineAfter(y, s);
    assert t[67..][..|x|] == x && t[67..][..|y|] == y;
    DecimalRoundTrip(a.size);
    DecimalRoundTrip(b.size);
    assert t[67..][|x| + 1..] == r && t[67..][|y| + 1..] == s;
  }

  lemma LinesEmpty(ns: seq<Node>)
    ensures Lines(ns) == "" <==> ns == []
  {
    if ns != [] { assert |Line(ns[0])| > 0; }
  }

  /** The input of a node determines its children. */
  lemma {:induction false} LinesInjective(a: seq<Node>, b: seq<Node>)
    requires Lines(a) == Lines(b)
    ensures a == b
  {
    LinesEmpty(a);
    LinesEmpty(b);
    if a != [] && b != [] {
      LineIsPrefixFree(a[0], b[0], Lines(a[1..]), Lines(b[1..]));
      LinesInjective(a[1..], b[1..]);
    }
  }

  /** A line never outgrows the scratch buffer's share: 64 + 3 + 20 + 1 bytes. */
  lemma LineFits(n: Node)
    ensures |Line(n)| <= 88
  {
    PowSum(10, 10, 10);
    assert Pow(10, 5) == 100000 by {
      PowSum(10, 2, 3);
      assert Pow(10, 1) == 10 && Pow(10, 2) == 10 * Pow(10, 1) && Pow(10, 3) == 10 * Pow(10, 2);
    }
    PowSum(10, 5, 5);
    DecimalLength(n.size, 20);
  }

  // ---------------------------------------------------------------- one level

  /** A node closes a group when the last eight bytes of its hash, little-endian, are a multiple of four. */
  predicate ClosesGroup(n: Node) { LittleEndian(n.hash[24..32]) % MEAN_BRANCHING_FACTOR == 0 }

  /** How many nodes the group still open at position i takes. */
  function CutFrom(ns: seq<Node>, i: nat): (c: nat)
    requires 2 <= i <= |ns| && i <= MAX_CHILDREN
    ensures i <= c <= |ns| && c <= MAX_CHILDREN
    ensures c == |ns| || c == MAX_CHILDREN || c >= 3
    decreases |ns| - i
  {
    if i == |ns| || i == MAX_CHILDREN then i else if ClosesGroup(ns[i]) then i + 1 else CutFrom(ns, i + 1)
  }

  function NextCut(ns: seq<Node>): (c: nat)
    ensures c <= |ns| && c <= MAX_CHILDREN && (ns != [] ==> c >= 1) && (|ns| >= 3 ==> c >= 3) &&
      (|ns| <= 2 ==> c == |ns|)
  {
    if |ns| <= 2 then |ns| else CutFrom(ns, 2)
  }

  function SizeSum(ns: seq<Node>): nat {
    if ns == [] then 0 else ns[0].size + SizeSum(ns[1..])
  }

  function Merge(h: Hasher, ns: seq<Node>): Node { Node(h(Lines(ns)), SizeSum(ns) % TWO64) }

  /** The next level: every group of nodes merged into its parent. A level of length L shrinks to at least ceil(L/9)
      and at most ceil(L/3) nodes. */
  function Collapse(h: Hasher, ns: seq<Node>): (r: seq<Node>)
    ensures |ns| <= 9 * |r| && 3 * |r| <= |ns| + 2
  {
    if ns == [] then [] else [Merge(h, ns[..NextCut(ns)])] + Collapse(h, ns[NextCut(ns)..])
  }

  function Root(h: Hasher, ns: seq<Node>): Digest
    decreases |ns|
  {
    if ns == [] then ZERO_DIGEST
    else if |ns| == 1 then ns[0].hash
    else Root(h, Collapse(h, ns))
  }

  lemma {:induction false} SizeSumAppend(a: seq<Node>, b: seq<Node>)
    ensures SizeSum(a + b) == SizeSum(a) + SizeSum(b)
  {
    if a == [] {
      assert a + b == b;
    } else {
      assert (a + b)[1..] == a[1..] + b;
      SizeSumAppend(a[1..], b);
    }
  }

  lemma CollapseSize(h: Hasher, ns: seq<Node>)
    requires ns != []
    ensures SizeSum(Collapse(h, ns)) == SizeSum(ns[..NextCut(ns)]) % TWO64 + SizeSum(Collapse(h, ns[NextCut(ns)..]))
  {
    var level := Collapse(h, ns);
    assert level[1..] == Collapse(h, ns[NextCut(ns)..]);
  }

  /** Sizes add up level after level, modulo 2^64; without overflow they are conserved exactly. */
  lemma {:induction false} SizesConserved(h: Hasher, ns: seq<Node>)
    ensures SameSum(SizeSum(Collapse(h, ns)), SizeSum(ns))
  {
    if ns != [] {
      var c := NextCut(ns);
      SizesConserved(h, ns[c..]);
      SizeSumCut(ns, c);
      CollapseSize(h, ns);
      SumsAgree(SizeSum(Collapse(h, ns)), SizeSum(ns), SizeSum(ns[..c]), SizeSum(ns[c..]),
        SizeSum(Collapse(h, ns[c..])));
    }
  }

  lemma SumsAgree(x: nat, y: nat, a: nat, b: nat, b': nat)
    requires SameSum(b', b) && x == a % TWO64 + b' && y == a + b
    ensures SameSum(x, y)
  {
    ModSum(a, b, b');
  }

  lemma SizeSumCut(ns: seq<Node>, c: nat)
    requires c <= |ns|
    ensures SizeSum(ns) == SizeSum(ns[..c]) + SizeSum(ns[c..])
  {
    assert ns == ns[..c] + ns[c..];
    SizeSumAppend(ns[..c], ns[c..]);
  }

  lemma ModSum(a: nat, b: nat, b': nat)
    requires SameSum(b', b)
    ensures SameSum(a % TWO64 + b', a + b)
  {}

  /** Equal modulo 2^64, and equal outright when the second does not overflow. */
  predicate SameSum(a: nat, b: nat) { a % TWO64 == b % TWO64 && (b < TWO64 ==> a == b) }

  // ---------------------------------------------------------------- binding

  /** The inputs hashed while collapsing one level. */
  function LevelInputs(ns: seq<Node>): set<string> {
    if ns == [] then {} else {Lines(ns[..NextCut(ns)])} + LevelInputs(ns[NextCut(ns)..])
  }

  /** Every input hashed while computing the root. */
  function Inputs(h: Hasher, ns: seq<Node>): set<string>
    decreases |ns|
  {
    if |ns| <= 1 then {} else LevelInputs(ns) + Inputs(h, Collapse(h, ns))
  }

  predicate CollisionFree(h: Hasher, inputs: set<string>) {
    forall x, y :: x in inputs && y in inputs && h(x) == h(y) ==> x == y
  }

  /** No leaf carries the hash of a node input: leaf and node hashes use different keys. */
  predicate Separated(h: Hasher, leaves: seq<Node>, inputs: set<string>) {
    forall i, x :: 0 <= i < |leaves| && x in inputs ==> leaves[i].hash != h(x)
  }

  lemma {:induction false} CollapseInjective(h: Hasher, a: seq<Node>, b: seq<Node>, inputs: set<string>)
    requires LevelInputs(a) <= inputs && LevelInputs(b) <= inputs && CollisionFree(h, inputs)
    requires Collapse(h, a) == Collapse(h, b)
    ensures a == b
  {
    if a != [] && b != [] {
      var c, d := NextCut(a), NextCut(b);
      assert Collapse(h, a)[0] == Merge(h, a[..c]) && Collapse(h, b)[0] == Merge(h, b[..d]);
      assert Lines(a[..c]) in LevelInputs(a) && Lines(b[..d]) in LevelInputs(b);
      LinesInjective(a[..c], b[..d]);
      assert Collapse(h, a)[1..] == Collapse(h, a[c..]) && Collapse(h, b)[1..] == Collapse(h, b[d..]);
      CollapseInjective(h, a[c..], b[d..], inputs);
      assert a == a[..c] + a[c..] && b == b[..d] + b[d..];
    }
  }

  function Depth(h: Hasher, ns: seq<Node>): nat
    decreases |ns|
  {
    if |ns| <= 1 then 0 else 1 + Depth(h, Collapse(h, ns))
  }

  lemma SingleGroup(h: Hasher, ns: seq<Node>)
    requires |ns| >= 2 && |Collapse(h, ns)| == 1
    ensures Collapse(h, ns) == [Merge(h, ns)] && Lines(ns) in LevelInputs(ns)
  {
    var c := NextCut(ns);
    assert |Collapse(h, ns[c..])| == 0;
    assert |ns[c..]| == 0;
    assert ns[..c] == ns;
  }

  /** Trees of equal depth with equal roots have equal leaves. */
  lemma {:induction false} EqualDepthBinds(h: Hasher, a: seq<Node>, b: seq<Node>, inputs: set<string>)
    requires |a| >= 2 && |b| >= 2 && Depth(h, a) == Depth(h, b) && Root(h, a) == Root(h, b)
    requires Inputs(h, a) <= inputs && Inputs(h, b) <= inputs && CollisionFree(h, inputs)
    ensures a == b
    decreases |a|
  {
    var x, y := Collapse(h, a), Collapse(h, b);
    if |x| == 1 {
      assert |y| == 1;
      SingleGroup(h, a);
      SingleGroup(h, b);
      LinesInjective(a, b);
    } else {
      assert |y| > 1;
      EqualDepthBinds(h, x, y, inputs);
      CollapseInjective(h, a, b, inputs);
    }
  }

  /** A deeper tree with the same root would make some leaf of the other a node hash. */
  lemma {:induction false} DeeperDiffers(h: Hasher, a: seq<Node>, b: seq<Node>, inputs: set<string>)
    requires |a| >= 2 && |b| >= 2 && Depth(h, a) < Depth(h, b)
    requires Inputs(h, a) <= inputs && Inputs(h, b) <= inputs && CollisionFree(h, inputs) && Separated(h, a, inputs)
    ensures Root(h, a) != Root(h, b)
    decreases |b|
  {
    var y := Collapse(h, b);
    assert y[0].hash == h(Lines(b[..NextCut(b)])) && Lines(b[..NextCut(b)]) in inputs;
    assert Root(h, y) == Root(h, b) && Depth(h, y) >= Depth(h, a) >= 1;
    if Depth(h, y) == Depth(h, a) {
      if Root(h, a) == Root(h, y) { EqualDepthBinds(h, a, y, inputs); }
      assert a != y;
    } else {
      DeeperDiffers(h, a, y, inputs);
    }
  }

  /** The root of two or more leaves determines the whole ordered list of leaf hashes and sizes, provided the inputs
      hashed for the two trees have no collision and no leaf carries one of their hashes. */
  lemma RootBinds(h: Hasher, a: seq<Node>, b: seq<Node>)
    requires |a| >= 2 && |b| >= 2
    requires CollisionFree(h, Inputs(h, a) + Inputs(h, b))
    requires Separated(h, a, Inputs(h, a) + Inputs(h, b)) && Separated(h, b, Inputs(h, a) + Inputs(h, b))
    ensures Root(h, a) == Root(h, b) <==> a == b
  {
    var inputs := Inputs(h, a) + Inputs(h, b);
    if Root(h, a) == Root(h, b) {
      if Depth(h, a) < Depth(h, b) { DeeperDiffers(h, a, b, inputs); }
      if Depth(h, b) < Depth(h, a) { DeeperDiffers(h, b, a, inputs); }
      EqualDepthBinds(h, a, b, inputs);
    }
  }

  /** A single leaf is its own root, so its size is not bound. */
  lemma SingleLeafBindsHashOnly(h: Hasher, a: Node, b: Node)
    ensures Root(h, [a]) == Root(h, [b]) <==> a.hash == b.hash
    ensures exists c :: c != a && Root(h, [c]) == Root(h, [a])
  {
    var c := Node(a.hash, if a.size == 0 then 1 else 0);
    assert c != a && Root(h, [c]) == Root(h, [a]);
  }

  /** A single leaf is never mistaken for a larger tree. */
  lemma SingleLeafDiffers(h: Hasher, a: Node, b: seq<Node>)
    requires |b| >= 2 && Separated(h, [a], Inputs(h, b))
    ensures Root(h, [a]) != Root(h, b)
  {
    var x := RootIsNodeHash(h, b);
    assert [a][0].hash != h(x);
  }

  lemma {:induction false} RootIsNodeHash(h: Hasher, ns: seq<Node>) returns (x: string)
    requires |ns| >= 2
    ensures x in Inputs(h, ns) && Root(h, ns) == h(x)
    decreases |ns|
  {
    var y := Collapse(h, ns);
    if |y| == 1 {
      SingleGroup(h, ns);
      x := Lines(ns);
    } else {
      x := RootIsNodeHash(h, y);
    }
  }

  // ---------------------------------------------------------------- the tree, spelled out

  /** The line of a node: 64 digits, every eight bytes of the hash reversed, then the size without leading zeros. */
  predicate IsLine(t: string, n: Node) {
    && |t| > 68 && t[64..67] == " : " && t[|t| - 1] == '\n'
    && (forall s, j {:trigger n.hash[8 * s + 7 - j]} :: 0 <= s < 4 && 0 <= j < 8 ==>
      t[16 * s + 2 * j..16 * s + 2 * j + 2] ==
        ["0123456789abcdef"[n.hash[8 * s + 7 - j] / 16], "0123456789abcdef"[n.hash[8 * s + 7 - j] % 16]])
    && (forall i :: 67 <= i < |t| - 1 ==> '0' <= t[i] <= '9')
    && DecimalToNat(t[67..|t| - 1]) == n.size && (t[67] == '0' ==> |t| == 69)
  }

  lemma LineIs(n: Node)
    ensures IsLine(Line(n), n)
  {
    var t, d := Line(n), Decimal(n.size);
    assert t[67..|t| - 1] == d;
    DecimalRoundTrip(n.size);
    NoLeadingZero(n.size);
    forall s, j | 0 <= s < 4 && 0 <= j < 8
      ensures t[16 * s + 2 * j..16 * s + 2 * j + 2] ==
        ["0123456789abcdef"[n.hash[8 * s + 7 - j] / 16], "0123456789abcdef"[n.hash[8 * s + 7 - j] % 16]]
    {
      FormatAt(n.hash, s, j);
    }
  }

  lemma {:induction false} NoLeadingZero(v: nat)
    ensures Decimal(v)[0] == '0' ==> v == 0 && |Decimal(v)| == 1
  {
    if v >= 10 { NoLeadingZero(v / 10); }
  }

  ghost predicate AreLines(lines: seq<string>, ns: seq<Node>) {
    |lines| == |ns| && forall i :: 0 <= i < |ns| ==> IsLine(lines[i], ns[i])
  }

  lemma {:induction false} LinesAre(ns: seq<Node>) returns (lines: seq<string>)
    ensures AreLines(lines, ns) && Lines(ns) == Flatten(lines)
  {
    if ns == [] {
      lines := [];
    } else {
      var rest := LinesAre(ns[1..]);
      LineIs(ns[0]);
      lines := [Line(ns[0])] + rest;
    }
  }

  function Sizes(ns: seq<Node>): (r: seq<nat>)
    ensures |r| == |ns| && forall i :: 0 <= i < |ns| ==> r[i] == ns[i].size
  {
    if ns == [] then [] else [ns[0].size] + Sizes(ns[1..])
  }

  lemma {:induction false} SizeSumIs(ns: seq<Node>)
    ensures SizeSum(ns) == Sum(Sizes(ns))
  {
    if ns != [] { SizeSumIs(ns[1..]); }
  }

  /** The parent of a group hashes the children's lines one after the other and carries the sum of their sizes. */
  ghost predicate IsParent(h: Hasher, group: seq<Node>, n: Node) {
    && (exists lines :: AreLines(lines, group) && n.hash == h(Flatten(lines)))
    && n.size == Sum(Sizes(group)) % 0x1_0000_0000_0000_0000
  }

  lemma MergeIsParent(h: Hasher, group: seq<Node>)
    ensures IsParent(h, group, Merge(h, group))
  {
    var lines := LinesAre(group);
    SizeSumIs(group);
  }

  /** The group that starts a list of nodes ends behind the first node from the third on whose hash has a byte 24
      divisible by four, at the latest behind the ninth or the last. */
  predicate IsCut(ns: seq<Node>, c: nat) {
    if |ns| <= 2 then c == |ns|
    else
      && 3 <= c <= 9 && c <= |ns|
      && (forall i :: 2 <= i < c - 1 ==> ns[i].hash[24] % 4 != 0)
      && (ns[c - 1].hash[24] % 4 == 0 || c == 9 || c == |ns|)
  }

  /** Four divides 256, so only the lowest of the eight bytes decides. */
  lemma ClosesGroupIs(n: Node)
    ensures ClosesGroup(n) <==> n.hash[24] % 4 == 0
  {
    var b := n.hash[24..32];
    assert b[0] == n.hash[24] && LittleEndian(b) == b[0] + 4 * (64 * LittleEndian(b[1..]));
  }

  lemma {:induction false} CutFromIs(ns: seq<Node>, i: nat)
    requires 2 <= i <= |ns| && i <= 9 && |ns| >= 3
    requires forall j :: 2 <= j < i ==> ns[j].hash[24] % 4 != 0
    ensures IsCut(ns, CutFrom(ns, i))
    decreases |ns| - i
  {
    if i < |ns| && i < 9 {
      ClosesGroupIs(ns[i]);
      if ns[i].hash[24] % 4 != 0 { CutFromIs(ns, i + 1); }
    }
  }

  lemma NextCutIs(ns: seq<Node>)
    ensures IsCut(ns, NextCut(ns))
  {
    if |ns| >= 3 { CutFromIs(ns, 2); }
  }

  /** Group g is cut off the nodes not yet grouped and merged into its parent. */
  ghost predicate IsGroup(h: Hasher, groups: seq<seq<Node>>, above: seq<Node>, g: nat)
    requires g < |groups| == |above|
  {
    IsCut(Flatten(groups[g..]), |groups[g]|) && IsParent(h, groups[g], above[g])
  }

  /** The nodes one level up, group by group from left to right. */
  ghost predicate IsLevel(h: Hasher, ns: seq<Node>, groups: seq<seq<Node>>, above: seq<Node>) {
    Flatten(groups) == ns && |groups| == |above| && forall g :: 0 <= g < |groups| ==> IsGroup(h, groups, above, g)
  }

  lemma {:induction false} LevelIs(h: Hasher, ns: seq<Node>) returns (groups: seq<seq<Node>>)
    ensures IsLevel(h, ns, groups, Collapse(h, ns))
  {
    if ns == [] {
      groups := [];
    } else {
      var c := NextCut(ns);
      var rest := LevelIs(h, ns[c..]);
      NextCutIs(ns);
      MergeIsParent(h, ns[..c]);
      LevelGrows(h, ns, c, Merge(h, ns[..c]), rest, Collapse(h, ns[c..]));
      groups := [ns[..c]] + rest;
    }
  }

  lemma LevelGrows(h: Hasher, ns: seq<Node>, c: nat, parent: Node, rest: seq<seq<Node>>, above: seq<Node>)
    requires c <= |ns| && IsCut(ns, c) && IsParent(h, ns[..c], parent) && IsLevel(h, ns[c..], rest, above)
    ensures IsLevel(h, ns, [ns[..c]] + rest, [parent] + above)
  {
    var groups := [ns[..c]] + rest;
    assert groups[1..] == rest && groups[0..] == groups && ns[..c] + ns[c..] == ns;
    forall g | 0 <= g < |groups| ensures IsGroup(h, groups, [parent] + above, g) {
      if g > 0 {
        assert IsGroup(h, rest, above, g - 1);
        GroupMoves(h, ns[..c], parent, rest, above, g - 1);
      }
    }
  }

  lemma GroupMoves(h: Hasher, group: seq<Node>, parent: Node, rest: seq<seq<Node>>, above: seq<Node>, g: nat)
    requires g < |rest| == |above| && IsGroup(h, rest, above, g)
    ensures IsGroup(h, [group] + rest, [parent] + above, g + 1)
  {
    assert ([group] + rest)[g + 1..] == rest[g..];
  }

  ghost predicate HasLevel(h: Hasher, ns: seq<Node>, above: seq<Node>) {
    exists groups :: IsLevel(h, ns, groups, above)
  }

  /** Level upon level of at least two nodes, up to a single one. */
  ghost predicate IsTree(h: Hasher, leaves: seq<Node>, levels: seq<seq<Node>>) {
    && levels != [] && levels[0] == leaves && |levels[|levels| - 1]| == 1
    && (forall k :: 0 <= k < |levels| - 1 ==> |levels[k]| >= 2 && HasLevel(h, levels[k], levels[k + 1]))
  }

  lemma {:induction false} TreeGrows(h: Hasher, ns: seq<Node>, levels: seq<seq<Node>>)
    requires |ns| >= 2 && IsTree(h, Collapse(h, ns), levels)
    ensures IsTree(h, ns, [ns] + levels)
  {
    var groups := LevelIs(h, ns);
    var all := [ns] + levels;
    forall k | 0 <= k < |all| - 1 ensures |all[k]| >= 2 && HasLevel(h, all[k], all[k + 1]) {
      if k > 0 { assert all[k] == levels[k - 1] && all[k + 1] == levels[k]; }
    }
  }

  lemma {:induction false} RootIs(h: Hasher, leaves: seq<Node>) returns (levels: seq<seq<Node>>)
    requires leaves != []
    ensures IsTree(h, leaves, levels) && Root(h, leaves) == levels[|levels| - 1][0].hash
    decreases |leaves|
  {
    if |leaves| == 1 {
      levels := [leaves];
    } else {
      var upper := RootIs(h, Collapse(h, leaves));
      TreeGrows(h, leaves, upper);
      levels := [leaves] + upper;
    }
  }

  // ---------------------------------------------------------------- the loops

  method NextMergeCut(ns: seq<Node>) returns (c: nat)
    ensures c == NextCut(ns)
    ensures |ns| <= 2 ==> c == |ns|
    ensures |ns| >= 3 ==> 3 <= c <= Min(9, |ns|) && forall i :: 2 <= i < c - 1 ==> ns[i].hash[24] % 4 != 0
    ensures |ns| >= 3 ==> c == Min(9, |ns|) || ns[c - 1].hash[24] % 4 == 0
  {
    NextCutIs(ns);
    var n := |ns|;
    if n <= 2 { return n; }
    var end := Min(MAX_CHILDREN, n);
    var i := 2;
    while i < end
      invariant 2 <= i <= end && NextCut(ns) == CutFrom(ns, i)
    {
      if ClosesGroup(ns[i]) { return i + 1; }
      i := i + 1;
    }
    return end;
  }

  lemma {:induction false} LinesAppend(a: seq<Node>, b: seq<Node>)
    ensures Lines(a + b) == Lines(a) + Lines(b)
  {
    if a == [] {
      assert a + b == b;
    } else {
      assert (a + b)[1..] == a[1..] + b;
      LinesAppend(a[1..], b);
    }
  }

  lemma OneMoreLine(ns: seq<Node>, i: nat)
    requires i < |ns|
    ensures Lines(ns[..i + 1]) == Lines(ns[..i]) + Line(ns[i]) && SizeSum(ns[..i + 1]) == SizeSum(ns[..i]) + ns[i].size
  {
    assert ns[..i + 1] == ns[..i] + [ns[i]] && [ns[i]][1..] == [];
    LinesAppend(ns[..i], [ns[i]]);
    assert Lines([ns[i]]) == Line(ns[i]) + Lines([]);
    SizeSumAppend(ns[..i], [ns[i]]);
  }

  method MergeNodes(h: Hasher, ns: seq<Node>) returns (n: Node)
    ensures n == Merge(h, ns)
    ensures IsParent(h, ns, n)
  {
    var input := "";
    var total: U64 := 0;
    for i := 0 to |ns|
      invariant input == Lines(ns[..i]) && total == SizeSum(ns[..i]) % TWO64
    {
      OneMoreLine(ns, i);
      var line := AppendHash(input, ns[i].hash);
      line := line + " : ";
      line := line + Decimal(ns[i].size);
      line := line + "\n";
      AppendsLine(input, ns[i]);
      input := line;
      ModSum(SizeSum(ns[..i]), ns[i].size, ns[i].size);
      total := (total + ns[i].size) % TWO64;
    }
    assert ns[..|ns|] == ns;
    MergeIsParent(h, ns);
    return Node(h(input), total);
  }

  lemma AppendsLine(input: string, n: Node)
    ensures input + Format(n.hash) + " : " + Decimal(n.size) + "\n" == input + Line(n)
  {}

  /** One level: groups of nodes are merged from left to right. */
  method CollapseLevel(h: Hasher, entries: seq<Node>) returns (next: seq<Node>)
    ensures next == Collapse(h, entries)
    ensures HasLevel(h, entries, next)
  {
    ghost var groups := LevelIs(h, entries);
    next := [];
    var unread := entries;
    while unread != []
      invariant next + Collapse(h, unread) == Collapse(h, entries)
      decreases |unread|
    {
      var cut := NextMergeCut(unread);
      var merged := MergeNodes(h, unread[..cut]);
      Regroup(next, merged, Collapse(h, unread[cut..]));
      next := next + [merged];
      unread := unread[cut..];
    }
    assert next + [] == next;
  }

  lemma Regroup(a: seq<Node>, x: Node, b: seq<Node>)
    ensures a + ([x] + b) == (a + [x]) + b
  {}

  /** Collapses level by level until one node is left. */
  method ComputeRoot(h: Hasher, leaves: seq<Node>) returns (root: Digest)
    ensures root == Root(h, leaves)
    ensures leaves == [] ==> forall i :: 0 <= i < 32 ==> root[i] == 0
    ensures leaves != [] ==> exists levels: seq<seq<Node>> ::
      IsTree(h, leaves, levels) && root == levels[|levels| - 1][0].hash
  {
    if leaves == [] { return ZERO_DIGEST; }
    ghost var levels := RootIs(h, leaves);
    var entries := leaves;
    while |entries| > 1
      invariant entries != [] && Root(h, entries) == Root(h, leaves)
      decreases |entries|
    {
      entries := CollapseLevel(h, entries);
    }
    return entries[0].hash;
  }

  // ---------------------------------------------------------------- file hashes

  /** A non-empty file hashes its Merkle root once more under another key; the empty file has the zero hash. */
  function FileRoot(h: Hasher, last: Digest -> Digest, leaves: seq<Node>): Digest {
    if leaves == [] then ZERO_DIGEST else last(Root(h, leaves))
  }

  /** The hash of a file, spelled out: zeros without chunks, else the keyed hash of the top of their tree. */
  lemma FileRootIs(h: Hasher, last: Digest -> Digest, leaves: seq<Node>)
    ensures leaves == [] ==> forall i :: 0 <= i < 32 ==> FileRoot(h, last, leaves)[i] == 0
    ensures leaves != [] ==> exists levels: seq<seq<Node>> ::
      IsTree(h, leaves, levels) && FileRoot(h, last, leaves) == last(levels[|levels| - 1][0].hash)
  {
    if leaves != [] { var levels := RootIs(h, leaves); }
  }

  lemma FileRootBinds(h: Hasher, last: Digest -> Digest, a: seq<Node>, b: seq<Node>)
    requires |a| >= 2 && |b| >= 2
    requires CollisionFree(h, Inputs(h, a) + Inputs(h, b))
    requires Separated(h, a, Inputs(h, a) + Inputs(h, b)) && Separated(h, b, Inputs(h, a) + Inputs(h, b))
    requires last(Root(h, a)) == last(Root(h, b)) ==> Root(h, a) == Root(h, b)
    ensures FileRoot(h, last, a) == FileRoot(h, last, b) <==> a == b
  {
    RootBinds(h, a, b);
  }
}
