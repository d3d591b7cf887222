/**
 The Merkle tree of the provenance customs service: the root builder that duplicates the last node of
 an odd level, the proof builder that walks one index up the levels, and the verifier that folds a
 list of (sibling, side) pairs.

 Digests are terms of a free algebra. One constructor per hash prefix (0x00 leaf, 0x01 node, 0x02 empty)
 gives exactly what an ideal, domain-separated hash gives: injectivity and disjoint ranges.
 */
module MerkleTree {
  import opened Wrappers

  /** A corpus source. `None` is an absent key; `rest` stands for every further field of the record. */
  datatype Source = Source(id: Option<string>, license: Option<string>, lawfulBasis: Option<string>, rest: string)

  datatype Digest = Leaf(source: Source) | Node(left: Digest, right: Digest) | EmptyTree

  function LeafHashes(sources: seq<Source>): seq<Digest> {
    seq(|sources|, i requires 0 <= i < |sources| => Leaf(sources[i]))
  }

  lemma LeafHashesInjective(a: seq<Source>, b: seq<Source>)
    requires LeafHashes(a) == LeafHashes(b)
    ensures a == b
  {
    assert |a| == |LeafHashes(a)| && |b| == |LeafHashes(b)|;
    forall i | 0 <= i < |a|
      ensures a[i] == b[i]
    {
      assert LeafHashes(a)[i] == Leaf(a[i]) && LeafHashes(b)[i] == Leaf(b[i]);
    }
  }

  // ----- One level of the tree -----

  function Min(a: nat, b: nat): nat { if a < b then a else b }

  /** Half of n, rounded up. */
  function Half(n: nat): (m: nat)
    ensures n <= 2 * m <= n + 1
  {
    if n <= 1 then n else 1 + Half(n - 2)
  }

  /** The level above under any node function: neighbours are combined, an odd last node with itself. */
  function UpWith<T>(node: (T, T) -> T, level: seq<T>): (r: seq<T>)
    ensures |r| == Half(|level|)
  {
    if level == [] then []
    else if |level| == 1 then [node(level[0], level[0])]
    else [node(level[0], level[1])] + UpWith(node, level[2..])
  }

  lemma {:induction false} UpWithAt<T>(node: (T, T) -> T, level: seq<T>, i: nat)
    requires i < Half(|level|)
    ensures UpWith(node, level)[i] == node(level[2 * i], level[Min(2 * i + 1, |level| - 1)])
  {
    if i > 0 {
      UpWithAt(node, level[2..], i - 1);
    }
  }

  /** The source's two steps: append a copy of the last node to an odd level, then hash the pairs. */
  function PadLevel<T>(level: seq<T>): (r: seq<T>)
    ensures |r| % 2 == 0 && |r| == 2 * Half(|level|)
    ensures forall i :: 0 <= i < |r| ==> r[i] == level[Min(i, |level| - 1)]
  {
    if |level| % 2 == 1 then level + [level[|level| - 1]] else level
  }

  function PairsWith<T>(node: (T, T) -> T, level: seq<T>): (r: seq<T>)
    requires |level| % 2 == 0
  {
    seq(|level| / 2, i requires 0 <= i < |level| / 2 => node(level[2 * i], level[2 * i + 1]))
  }

  /** The two steps together are the level above. */
  lemma {:induction false} PairsOfPadded<T>(node: (T, T) -> T, level: seq<T>)
    ensures PairsWith(node, PadLevel(level)) == UpWith(node, level)
  {
    var padded := PadLevel(level);
    forall i | 0 <= i < Half(|level|)
      ensures UpWith(node, level)[i] == node(padded[2 * i], padded[2 * i + 1])
    {
      UpWithAt(node, level, i);
    }
  }

  /** The root reached by climbing level by level. */
  function ClimbWith<T>(node: (T, T) -> T, level: seq<T>): T
    requires level != []
    decreases |level|
  {
    if |level| == 1 then level[0] else ClimbWith(node, UpWith(node, level))
  }

  function RootWith<T>(node: (T, T) -> T, empty: T, leaves: seq<T>): T {
    if leaves == [] then empty else ClimbWith(node, leaves)
  }

  /** The loop of the customs service, over any kind of digest. */
  method MerkleRootWith<T>(node: (T, T) -> T, empty: T, leaves: seq<T>) returns (root: T)
    ensures root == RootWith(node, empty, leaves)
  {
    if leaves == [] {
      return empty;
    }
    var level := leaves;
    while |level| > 1
      invariant level != []
      invariant ClimbWith(node, level) == ClimbWith(node, leaves)
      decreases |level|
    {
      ghost var before := level;
      if |level| % 2 == 1 {
        level := level + [level[|level| - 1]];
      }
      assert level == PadLevel(before);
      PairsOfPadded(node, before);
      level := PairsWith(node, level);
    }
    return level[0];
  }

  /**
   The live-flight script builds the same tree with its own loop: no padding step, the odd last node is
   paired with itself, and node function, kind of digest and value for the empty list are its own.
   */
  method LiveFlightRoot<T>(node: (T, T) -> T, zero: T, leaves: seq<T>) returns (root: T)
    ensures root == RootWith(node, zero, leaves)
  {
    if leaves == [] {
      return zero;
    }
    var cur := leaves;
    while |cur| > 1
      invariant cur != []
      invariant ClimbWith(node, cur) == ClimbWith(node, leaves)
      decreases |cur|
    {
      cur := LiveFlightLevel(node, cur);
    }
    return cur[0];
  }

  method LiveFlightLevel<T>(node: (T, T) -> T, cur: seq<T>) returns (nxt: seq<T>)
    ensures nxt == UpWith(node, cur)
  {
    nxt := [];
    var i := 0;
    while i < |cur|
      invariant i == 2 * |nxt| <= |cur| + 1
      invariant forall k :: 0 <= k < |nxt| ==> nxt[k] == UpWith(node, cur)[k]
    {
      var left := cur[i];
      var right := if i + 1 < |cur| then cur[i + 1] else cur[i];
      UpWithAt(node, cur, |nxt|);
      nxt := nxt + [node(left, right)];
      i := i + 2;
    }
  }

  // ----- The tree of the customs service -----

  function Parent(a: Digest, b: Digest): Digest { Node(a, b) }

  function Up(level: seq<Digest>): (r: seq<Digest>)
    ensures |r| == Half(|level|)
  {
    UpWith(Parent, level)
  }

  lemma UpAt(level: seq<Digest>, i: nat)
    requires i < Half(|level|)
    ensures Up(level)[i] == Node(level[2 * i], level[Min(2 * i + 1, |level| - 1)])
  {
    UpWithAt(Parent, level, i);
  }

  function Climb(level: seq<Digest>): Digest
    requires level != []
  {
    ClimbWith(Parent, level)
  }

  function Root(leaves: seq<Digest>): Digest { RootWith(Parent, EmptyTree, leaves) }

  method MerkleRoot(leaves: seq<Digest>) returns (root: Digest)
    ensures root == Root(leaves)
  {
    root := MerkleRootWith(Parent, EmptyTree, leaves);
  }

  // ----- Proofs -----

  /** The source compares the side with "L" and reads every other string as "R". */
  datatype ProofStep = ProofStep(sibling: Digest, side: string)

  /** The sibling of an odd position is on its left; an even one without a right neighbour is its own. */
  function StepAt(level: seq<Digest>, index: nat): ProofStep
    requires index < 2 * Half(|level|)
  {
    if index % 2 == 1 then ProofStep(level[index - 1], "L")
    else ProofStep(level[Min(index + 1, |level| - 1)], "R")
  }

  /** The proof for a position of the padded level. */
  function ProofFor(level: seq<Digest>, index: nat): seq<ProofStep>
    requires index < 2 * Half(|level|)
    decreases |level|
  {
    if |level| == 1 then [] else [StepAt(level, index)] + ProofFor(Up(level), index / 2)
  }

  /** `index ^ 1`, for either sign. */
  function Sibling(index: int): int { if index % 2 == 0 then index + 1 else index - 1 }

  /** Python's subscript: a negative index counts from the end, anything further out raises. */
  function Subscript<T>(s: seq<T>, i: int): Option<T> {
    if 0 <= i < |s| then Some(s[i]) else if -|s| <= i < 0 then Some(s[|s| + i]) else None
  }

  function SideOf(index: int): string { if Sibling(index) < index then "L" else "R" }

  /** The loop from some level on, for any index; nothing if a subscript raises. */
  function ProofLoop(level: seq<Digest>, index: int): Option<seq<ProofStep>>
    decreases |level|
  {
    if |level| <= 1 then Some([])
    else
      match Subscript(PadLevel(level), Sibling(index))
      case None => None
      case Some(sibling) =>
        match ProofLoop(Up(level), index / 2)
        case None => None
        case Some(rest) => Some([ProofStep(sibling, SideOf(index))] + rest)
  }

  function Prepend(proof: seq<ProofStep>, rest: Option<seq<ProofStep>>): Option<seq<ProofStep>> {
    if rest.Some? then Some(proof + rest.value) else None
  }

  /** Any index may be asked for; nothing stands for the IndexError. */
  method MerkleProof(leaves: seq<Digest>, index: int) returns (r: Option<seq<ProofStep>>)
    ensures r == ProofLoop(leaves, index)
    ensures 0 <= index < |leaves| ==> r == Some(ProofFor(leaves, index))
    ensures r.None? <==> |leaves| > 1 && !(-2 * Half(|leaves|) <= index < 2 * Half(|leaves|))
  {
    ProofRaisesIff(leaves, index);
    if 0 <= index < |leaves| {
      ProofInRange(leaves, index);
    }
    var level, idx, proof := leaves, index, [];
    PrependNothing(ProofLoop(leaves, index));
    while |level| > 1
      invariant Prepend(proof, ProofLoop(level, idx)) == ProofLoop(leaves, index)
      decreases |level|
    {
      ghost var before := level;
      if |level| % 2 == 1 {
        level := level + [level[|level| - 1]];
      }
      var sib := Sibling(idx);
      var sibling := Subscript(level, sib);
      if sibling.None? {
        return None;
      }
      ProofLoopStep(before, idx, sibling.value, proof);
      proof := proof + [ProofStep(sibling.value, if sib < idx then "L" else "R")];
      PairsOfPadded(Parent, before);
      level := PairsWith(Parent, level);
      idx := idx / 2;
    }
    assert proof + [] == proof;
    return Some(proof);
  }

  lemma PrependNothing(rest: Option<seq<ProofStep>>)
    ensures Prepend([], rest) == rest
  {
    if rest.Some? {
      assert [] + rest.value == rest.value;
    }
  }

  lemma SiblingFits(h: nat, index: int)
    ensures -2 * h <= Sibling(index) < 2 * h <==> -2 * h <= index < 2 * h
    ensures 0 <= index < 2 * h ==> 0 <= Sibling(index) < 2 * h
  {
  }

  lemma SubscriptFits(level: seq<Digest>, index: int)
    requires |level| > 1
    ensures Subscript(PadLevel(level), Sibling(index)).Some? <==> -2 * Half(|level|) <= index < 2 * Half(|level|)
    ensures 0 <= index < 2 * Half(|level|) ==>
      && Subscript(PadLevel(level), Sibling(index)) == Some(StepAt(level, index).sibling)
      && SideOf(index) == StepAt(level, index).side
  {
    SiblingFits(Half(|level|), index);
  }

  lemma IndexFits(n: nat, index: int)
    requires -2 * Half(n) <= index < 2 * Half(n)
    ensures -2 * Half(Half(n)) <= index / 2 < 2 * Half(Half(n))
    ensures index >= 0 ==> index / 2 >= 0
  {
  }

  lemma ProofLoopStep(level: seq<Digest>, index: int, sibling: Digest, proof: seq<ProofStep>)
    requires |level| > 1 && Subscript(PadLevel(level), Sibling(index)) == Some(sibling)
    ensures Prepend(proof, ProofLoop(level, index))
         == Prepend(proof + [ProofStep(sibling, SideOf(index))], ProofLoop(Up(level), index / 2))
  {
    var rest := ProofLoop(Up(level), index / 2);
    if rest.Some? {
      ConcatStep(proof, ProofStep(sibling, SideOf(index)), rest.value);
    }
  }

  /** From a valid index, and from the place of the appended copy, the loop builds the proof for that position. */
  lemma {:induction false} ProofInRange(level: seq<Digest>, index: nat)
    requires index < 2 * Half(|level|)
    ensures ProofLoop(level, index) == Some(ProofFor(level, index))
    decreases |level|
  {
    if |level| > 1 {
      SubscriptFits(level, index);
      IndexFits(|level|, index);
      ProofInRange(Up(level), index / 2);
    }
  }

  /** A proof of full height comes back exactly when the index fits the padded level, from either end. */
  lemma {:induction false} ProofRaisesIff(level: seq<Digest>, index: int)
    ensures ProofLoop(level, index).Some? <==> |level| <= 1 || -2 * Half(|level|) <= index < 2 * Half(|level|)
    ensures ProofLoop(level, index).Some? ==> |ProofLoop(level, index).value| == Height(|level|)
    decreases |level|
  {
    if |level| > 1 {
      SubscriptFits(level, index);
      if -2 * Half(|level|) <= index < 2 * Half(|level|) {
        IndexFits(|level|, index);
      }
      ProofRaisesIff(Up(level), index / 2);
    }
  }

  lemma ConcatStep(a: seq<ProofStep>, x: ProofStep, b: seq<ProofStep>)
    ensures a + ([x] + b) == (a + [x]) + b
  {
  }

  function Step(h: Digest, step: ProofStep): Digest {
    if step.side == "L" then Node(step.sibling, h) else Node(h, step.sibling)
  }

  function Fold(h: Digest, proof: seq<ProofStep>): Digest
    decreases |proof|
  {
    if proof == [] then h else Fold(Step(h, proof[0]), proof[1..])
  }

  predicate Accepts(leaf: Digest, proof: seq<ProofStep>, root: Digest) {
    Fold(leaf, proof) == root
  }

  method VerifyMerkleProof(leaf: Digest, proof: seq<ProofStep>, root: Digest)
    returns (ok: bool)
    ensures ok == Accepts(leaf, proof, root)
  {
    var h := leaf;
    for i := 0 to |proof|
      invariant Fold(h, proof[i..]) == Fold(leaf, proof)
    {
      assert proof[i..][1..] == proof[i + 1..];
      h := if proof[i].side == "L" then Node(proof[i].sibling, h) else Node(h, proof[i].sibling);
    }
    return h == root;
  }

  // ----- Height -----

  function Pow2(k: nat): (r: nat)
    ensures r > 0
  {
    if k == 0 then 1 else 2 * Pow2(k - 1)
  }

  function Height(n: nat): nat { if n <= 1 then 0 else 1 + Height(Half(n)) }

  lemma {:induction false} HeightSuffices(n: nat)
    ensures n <= Pow2(Height(n))
  {
    if n > 1 {
      HeightSuffices(Half(n));
    }
  }

  lemma {:induction false} Pow2Monotone(j: nat, k: nat)
    requires j <= k
    ensures Pow2(j) <= Pow2(k)
  {
    if j < k {
      Pow2Monotone(j, k - 1);
    }
  }

  /** The padded position that a list of sides spells out, lowest bit first. */
  function Position(proof: seq<ProofStep>): (r: nat)
    ensures r < Pow2(|proof|)
  {
    if proof == [] then 0 else (if proof[0].side == "L" then 1 else 0) + 2 * Position(proof[1..])
  }

  // ----- Completeness and cost -----

  lemma StepUp(level: seq<Digest>, index: nat, k: nat)
    requires index < |level| && (index == 2 * k || index == 2 * k + 1)
    ensures k == index / 2 < |Up(level)|
    ensures Up(level)[k] == Step(level[index], StepAt(level, index))
  {
    UpAt(level, k);
  }

  /** The proof built for a leaf leads from that leaf to the root, in exactly `Height` steps. */
  lemma {:induction false} ProofLeadsToRoot(level: seq<Digest>, index: nat)
    requires index < |level|
    ensures Fold(level[index], ProofFor(level, index)) == Climb(level)
    ensures |ProofFor(level, index)| == Height(|level|)
    decreases |level|
  {
    if |level| > 1 {
      var rest := ProofFor(Up(level), index / 2);
      StepUp(level, index, index / 2);
      ProofLeadsToRoot(Up(level), index / 2);
      assert ([StepAt(level, index)] + rest)[1..] == rest;
    }
  }

  /** Its sides spell the position it was built for. */
  lemma {:induction false} ProofPosition(level: seq<Digest>, index: nat)
    requires index < |level|
    ensures Position(ProofFor(level, index)) == index
    decreases |level|
  {
    if |level| > 1 {
      StepUp(level, index, index / 2);
      ProofPosition(Up(level), index / 2);
      assert ([StepAt(level, index)] + ProofFor(Up(level), index / 2))[1..] == ProofFor(Up(level), index / 2);
    }
  }

  /** Completeness: the proof built for a leaf is accepted for it. */
  lemma MerkleCompleteness(leaves: seq<Digest>, index: nat)
    requires index < |leaves|
    ensures Accepts(leaves[index], ProofFor(leaves, index), Root(leaves))
  {
    ProofLeadsToRoot(leaves, index);
  }

  lemma {:induction false} HeightMinimal(n: nat, j: nat)
    requires n <= Pow2(j)
    ensures Height(n) <= j
    decreases n
  {
    if n > 1 {
      HeightMinimal(Half(n), j - 1);
    }
  }

  /** Cost: the length of the proof is the least k with n <= 2^k. */
  lemma ProofLength(leaves: seq<Digest>, index: nat, j: nat)
    requires index < |leaves|
    ensures |leaves| <= Pow2(|ProofFor(leaves, index)|)
    ensures |leaves| <= Pow2(j) ==> |ProofFor(leaves, index)| <= j
  {
    ProofLeadsToRoot(leaves, index);
    HeightSuffices(|leaves|);
    if |leaves| <= Pow2(j) {
      HeightMinimal(|leaves|, j);
    }
  }

  // ----- The root as a perfect tree over the padded list -----

  /** The perfect binary tree over the 2^h leaves from `off` on, built by halving from the top. */
  function Perfect(h: nat, xs: seq<Digest>, off: nat): Digest
    requires off + Pow2(h) <= |xs|
    decreases h
  {
    if h == 0 then xs[off]
    else Node(Perfect(h - 1, xs, off), Perfect(h - 1, xs, off + Pow2(h - 1)))
  }

  /** Each position stands for two below it; positions past the last one fall back on it. */
  function Spread(s: seq<nat>, last: nat): (r: seq<nat>)
    ensures |r| == 2 * |s|
    ensures forall i :: 0 <= i < |r| ==> r[i] <= last
  {
    if s == [] then [] else [Min(2 * s[0], last), Min(2 * s[0] + 1, last)] + Spread(s[1..], last)
  }

  lemma {:induction false} SpreadAt(s: seq<nat>, last: nat, k: nat)
    requires k < |s|
    ensures Spread(s, last)[2 * k] == Min(2 * s[k], last)
    ensures Spread(s, last)[2 * k + 1] == Min(2 * s[k] + 1, last)
  {
    if k > 0 {
      SpreadAt(s[1..], last, k - 1);
    }
  }

  /** For each position of the padded list, which of the n leaves it repeats. */
  function PadOrder(n: nat): (r: seq<nat>)
    requires n > 0
    ensures |r| == Pow2(Height(n))
    ensures forall i :: 0 <= i < |r| ==> r[i] < n
  {
    if n == 1 then [0] else Spread(PadOrder(Half(n)), n - 1)
  }

  function Padded(xs: seq<Digest>): (r: seq<Digest>)
    requires xs != []
    ensures |r| == Pow2(Height(|xs|))
  {
    var order := PadOrder(|xs|);
    seq(|order|, i requires 0 <= i < |order| => xs[order[i]])
  }

  lemma {:induction false} PadOrderStart(n: nat, i: nat)
    requires i < n
    ensures i < |PadOrder(n)| && PadOrder(n)[i] == i
    decreases n
  {
    HeightSuffices(n);
    if n > 1 {
      var up, k := PadOrder(Half(n)), i / 2;
      PadOrderStart(Half(n), k);
      SpreadAt(up, n - 1, k);
      assert i == 2 * k || i == 2 * k + 1;
    }
  }

  /** Padding only appends, and only repeats what is there. */
  lemma PaddedExtends(xs: seq<Digest>)
    requires xs != []
    ensures xs <= Padded(xs)
    ensures forall i :: 0 <= i < |Padded(xs)| ==> Padded(xs)[i] in xs
  {
    HeightSuffices(|xs|);
    forall i | 0 <= i < |xs|
      ensures Padded(xs)[i] == xs[i]
    {
      PadOrderStart(|xs|, i);
    }
  }

  /** Pairing neighbours and then halving from the top is halving from the top one level deeper. */
  lemma {:induction false} PerfectOfUp(h: nat, xs: seq<Digest>, off: nat)
    requires 2 * (off + Pow2(h)) <= |xs|
    ensures Perfect(h, Up(xs), off) == Perfect(h + 1, xs, 2 * off)
    decreases h
  {
    if h == 0 {
      UpAt(xs, off);
    } else {
      PerfectOfUp(h - 1, xs, off);
      PerfectOfUp(h - 1, xs, off + Pow2(h - 1));
    }
  }

  /** Position i of the padding above stands for positions 2 i and 2 i + 1 below. */
  lemma {:induction false} PadOrderBelow(n: nat, i: nat)
    requires n > 1 && i < |PadOrder(Half(n))|
    ensures |PadOrder(n)| == 2 * |PadOrder(Half(n))|
    ensures PadOrder(n)[2 * i] == 2 * PadOrder(Half(n))[i]
    ensures PadOrder(n)[2 * i + 1] == Min(2 * PadOrder(Half(n))[i] + 1, n - 1)
  {
    SpreadAt(PadOrder(Half(n)), n - 1, i);
  }

  lemma EvenUpAt(level: seq<Digest>, i: nat)
    requires 2 * i + 1 < |level|
    ensures i < |Up(level)| && Up(level)[i] == Node(level[2 * i], level[2 * i + 1])
  {
    UpAt(level, i);
  }

  lemma {:induction false} PaddedAt(xs: seq<Digest>, i: nat)
    requires xs != [] && i < |Padded(xs)|
    ensures i < |PadOrder(|xs|)| && PadOrder(|xs|)[i] < |xs| && Padded(xs)[i] == xs[PadOrder(|xs|)[i]]
  {
  }

  lemma {:induction false} OrderJoins(xs: seq<Digest>, i: nat)
    requires |xs| > 1 && i < |PadOrder(Half(|xs|))|
    ensures |PadOrder(|xs|)| == 2 * |PadOrder(Half(|xs|))|
    ensures Up(xs)[PadOrder(Half(|xs|))[i]] == Node(xs[PadOrder(|xs|)[2 * i]], xs[PadOrder(|xs|)[2 * i + 1]])
  {
    PadOrderBelow(|xs|, i);
    UpAt(xs, PadOrder(Half(|xs|))[i]);
  }

  /** Padded position i above joins the padded positions 2 i and 2 i + 1. */
  lemma {:induction false} PaddedUpAt(xs: seq<Digest>, i: nat)
    requires |xs| > 1 && 2 * i + 1 < |Padded(xs)|
    ensures Padded(Up(xs))[i] == Node(Padded(xs)[2 * i], Padded(xs)[2 * i + 1])
  {
    OrderJoins(xs, i);
    PaddedAt(Up(xs), i);
    PaddedAt(xs, 2 * i);
    PaddedAt(xs, 2 * i + 1);
  }

  /** Padding the level above is the level above the padding. */
  lemma {:induction false} PaddedUp(xs: seq<Digest>)
    requires |xs| > 1
    ensures Padded(Up(xs)) == Up(Padded(xs))
  {
    forall i | 0 <= i < |Up(Padded(xs))|
      ensures Padded(Up(xs))[i] == Up(Padded(xs))[i]
    {
      PaddedUpAt(xs, i);
      EvenUpAt(Padded(xs), i);
    }
  }

  /** The bottom-up loop computes the top-down perfect tree over the padded list. */
  lemma {:induction false} ClimbIsPerfect(xs: seq<Digest>)
    requires xs != []
    ensures Climb(xs) == Perfect(Height(|xs|), Padded(xs), 0)
    decreases |xs|
  {
    if |xs| > 1 {
      ClimbIsPerfect(Up(xs));
      PaddedUp(xs);
      PerfectOfUp(Height(Half(|xs|)), Padded(xs), 0);
    }
  }

  // ----- What the root determines -----

  predicate AllLeaves(xs: seq<Digest>) {
    forall i :: 0 <= i < |xs| ==> xs[i].Leaf?
  }

  /** Length of the left spine; in a tree over leaf hashes it is the height. */
  function Spine(d: Digest): nat {
    match d
    case Node(l, _) => 1 + Spine(l)
    case _ => 0
  }

  lemma {:induction false} SpineOfPerfect(h: nat, xs: seq<Digest>, off: nat)
    requires off + Pow2(h) <= |xs| && AllLeaves(xs)
    ensures Spine(Perfect(h, xs, off)) == h
    ensures Perfect(h, xs, off) != EmptyTree
    decreases h
  {
    if h > 0 {
      SpineOfPerfect(h - 1, xs, off);
    }
  }

  lemma {:induction false} PerfectInjective(h: nat, xs: seq<Digest>, ys: seq<Digest>, off: nat)
    requires off + Pow2(h) <= |xs| && off + Pow2(h) <= |ys|
    requires Perfect(h, xs, off) == Perfect(h, ys, off)
    ensures forall i :: off <= i < off + Pow2(h) ==> xs[i] == ys[i]
    decreases h
  {
    if h > 0 {
      PerfectInjective(h - 1, xs, ys, off);
      PerfectInjective(h - 1, xs, ys, off + Pow2(h - 1));
    }
  }

  /**
   Two non-empty lists of leaf hashes have the same root exactly when their padded lists are equal; the
   empty list shares its root with no other. Lists of one length are thus told apart completely.
   */
  lemma RootDetermines(xs: seq<Digest>, ys: seq<Digest>)
    requires AllLeaves(xs) && AllLeaves(ys) && xs != []
    ensures ys == [] ==> Root(xs) != Root(ys)
    ensures ys != [] ==> (Root(xs) == Root(ys) <==> Padded(xs) == Padded(ys))
    ensures |xs| == |ys| && Root(xs) == Root(ys) ==> xs == ys
  {
    ClimbIsPerfect(xs);
    PaddedExtends(xs);
    SpineOfPerfect(Height(|xs|), Padded(xs), 0);
    if ys != [] {
      ClimbIsPerfect(ys);
      PaddedExtends(ys);
      SpineOfPerfect(Height(|ys|), Padded(ys), 0);
      if Root(xs) == Root(ys) {
        PerfectInjective(Height(|xs|), Padded(xs), Padded(ys), 0);
      }
      if Padded(xs) == Padded(ys) {
        HeightFromPow2(Height(|xs|), Height(|ys|));
      }
    }
  }

  lemma {:induction false} HeightFromPow2(j: nat, k: nat)
    requires Pow2(j) == Pow2(k)
    ensures j == k
  {
    if j < k {
      Pow2Monotone(j, k - 1);
    } else if k < j {
      Pow2Monotone(k, j - 1);
    }
  }

  /** Lists of different lengths can share a root: duplicating the odd last leaf by hand changes nothing. */
  lemma LengthsCanCoincide(a: Source, b: Source, c: Source)
    ensures Root(LeafHashes([a, b, c])) == Root(LeafHashes([a, b, c, c]))
  {
    var xs, ys := LeafHashes([a, b, c]), LeafHashes([a, b, c, c]);
    assert PadLevel(xs) == PadLevel(ys);
    PairsOfPadded(Parent, xs);
    PairsOfPadded(Parent, ys);
  }

  // ----- Soundness -----

  lemma {:induction false} FoldSnoc(h: Digest, proof: seq<ProofStep>)
    requires proof != []
    ensures Fold(h, proof) == Step(Fold(h, proof[..|proof| - 1]), proof[|proof| - 1])
    ensures Position(proof) == Position(proof[..|proof| - 1])
                               + (if proof[|proof| - 1].side == "L" then Pow2(|proof| - 1) else 0)
    decreases |proof|
  {
    if |proof| > 1 {
      FoldSnoc(Step(h, proof[0]), proof[1..]);
      assert proof[1..][..|proof| - 2] == proof[..|proof| - 1][1..];
    }
  }

  /** A proof of full height into a perfect tree starts at the position its sides spell. */
  lemma {:induction false} FoldAtFullHeight(h: Digest, proof: seq<ProofStep>, xs: seq<Digest>, off: nat)
    requires off + Pow2(|proof|) <= |xs| && Fold(h, proof) == Perfect(|proof|, xs, off)
    ensures xs[off + Position(proof)] == h
    decreases |proof|
  {
    if proof != [] {
      var last := |proof| - 1;
      FoldSnoc(h, proof);
      FoldAtFullHeight(h, proof[..last], xs, if proof[last].side == "L" then off + Pow2(last) else off);
    }
  }

  /** Over leaf hashes no proof is longer than the tree is high, and those of full length start at a leaf hash. */
  lemma {:induction false} FoldIntoPerfect(h: Digest, proof: seq<ProofStep>, k: nat, xs: seq<Digest>, off: nat)
    requires off + Pow2(k) <= |xs| && AllLeaves(xs) && Fold(h, proof) == Perfect(k, xs, off)
    ensures |proof| <= k && (h.Leaf? <==> |proof| == k)
    ensures |proof| == k ==> xs[off + Position(proof)] == h
    decreases |proof|
  {
    if proof == [] {
      SpineOfPerfect(k, xs, off);
    } else {
      var last := |proof| - 1;
      FoldSnoc(h, proof);
      FoldIntoPerfect(h, proof[..last], k - 1, xs, if proof[last].side == "L" then off + Pow2(k - 1) else off);
    }
  }

  lemma {:induction false} PaddedIn(xs: seq<Digest>, i: nat)
    requires xs != [] && i < |Padded(xs)|
    ensures Padded(xs)[i] in xs
  {
    PaddedAt(xs, i);
  }

  lemma {:induction false} PaddedLeaves(xs: seq<Digest>)
    requires xs != [] && AllLeaves(xs)
    ensures AllLeaves(Padded(xs)) && Root(xs) == Perfect(Height(|xs|), Padded(xs), 0)
  {
    PaddedExtends(xs);
    ClimbIsPerfect(xs);
  }

  /**
   What a verifier that sees 32 bytes and no constructor can go by: an accepted proof is at most as long as the
   tree is high, and of that length exactly when it was given for one of the sealed leaves.
   */
  lemma {:induction false} LengthDecides(h: Digest, proof: seq<ProofStep>, leaves: seq<Digest>)
    requires leaves != [] && AllLeaves(leaves) && Accepts(h, proof, Root(leaves))
    ensures |proof| <= Height(|leaves|)
    ensures h in leaves <==> |proof| == Height(|leaves|)
    ensures h.Leaf? <==> |proof| == Height(|leaves|)
    ensures |proof| == Height(|leaves|) ==> Padded(leaves)[Position(proof)] == h
  {
    PaddedLeaves(leaves);
    FoldIntoPerfect(h, proof, Height(|leaves|), Padded(leaves), 0);
    if |proof| == Height(|leaves|) {
      PaddedIn(leaves, Position(proof));
    }
  }

  /**
   Soundness against arbitrary proofs: whatever siblings, sides and length a proof has, if it is accepted
   for a leaf hash then that hash is one of the sealed leaves, the one at the position its sides spell,
   and the proof is exactly as long as the tree is high.
   */
  lemma {:induction false} MerkleSoundness(leaf: Digest, proof: seq<ProofStep>, leaves: seq<Digest>)
    requires leaf.Leaf? && AllLeaves(leaves)
    requires Accepts(leaf, proof, Root(leaves))
    ensures leaves != [] && leaf in leaves
    ensures |proof| == Height(|leaves|)
    ensures Padded(leaves)[Position(proof)] == leaf
  {
    if leaves == [] {
      FoldNotEmptyTree(leaf, proof);
    } else {
      LengthDecides(leaf, proof, leaves);
    }
  }

  lemma {:induction false} FoldNotEmptyTree(h: Digest, proof: seq<ProofStep>)
    requires h != EmptyTree
    ensures Fold(h, proof) != EmptyTree
    decreases |proof|
  {
    if proof != [] {
      FoldNotEmptyTree(Step(h, proof[0]), proof[1..]);
    }
  }

  /** Proofs with the same sides that lead to one root are one proof, of one leaf. */
  lemma {:induction false} ProofUnique(h: Digest, p: seq<ProofStep>,
                                          g: Digest, q: seq<ProofStep>)
    requires |p| == |q| && forall i :: 0 <= i < |p| ==> (p[i].side == "L" <==> q[i].side == "L")
    requires Fold(h, p) == Fold(g, q)
    ensures h == g
    ensures forall i :: 0 <= i < |p| ==> p[i].sibling == q[i].sibling
    decreases |p|
  {
    if p != [] {
      ProofUnique(Step(h, p[0]), p[1..], Step(g, q[0]), q[1..]);
      forall i | 0 <= i < |p|
        ensures p[i].sibling == q[i].sibling
      {
        if i > 0 {
          assert p[i] == p[1..][i - 1] && q[i] == q[1..][i - 1];
        }
      }
    }
  }

  /** The restriction to leaf hashes matters: an inner node is accepted with a proof one step shorter. */
  lemma InnerNodesAreAcceptedToo(a: Source, b: Source, c: Source, d: Source)
    ensures Accepts(Node(Leaf(a), Leaf(b)), [ProofStep(Node(Leaf(c), Leaf(d)), "R")], Root(LeafHashes([a, b, c, d])))
  {
    var xs := LeafHashes([a, b, c, d]);
    var l1 := Up(xs);
    UpAt(xs, 0);
    UpAt(xs, 1);
    UpAt(l1, 0);
    assert Climb(l1) == Climb(Up(l1)) == Up(l1)[0];
  }

  // ----- Which negative indices count from the end -----

  /** The largest power of two that divides n. */
  function LowestBit(n: nat): (r: nat)
    requires n > 0
    ensures 0 < r <= n
  {
    if n % 2 == 1 then 1 else 2 * LowestBit(n / 2)
  }

  lemma {:induction false} LowestBitDivides(n: nat) returns (t: nat, odd: nat)
    requires n > 0
    ensures LowestBit(n) == Pow2(t) && n == Pow2(t) * odd && odd % 2 == 1
  {
    if n % 2 == 1 {
      t, odd := 0, n;
    } else {
      t, odd := LowestBitDivides(n / 2);
      t := t + 1;
    }
  }

  ghost predicate Distinct(xs: seq<Digest>) {
    forall i, j :: 0 <= i < j < |xs| ==> xs[i] != xs[j]
  }

  /** Index -k gives a proof of the leaf that is k-th from the end. */
  predicate CountsFromEnd(leaves: seq<Digest>, k: int)
    requires 1 <= k <= |leaves|
  {
    var proof := ProofLoop(leaves, -k);
    proof.Some? && Accepts(leaves[|leaves| - k], proof.value, Root(leaves))
  }

  lemma UpDistinct(level: seq<Digest>)
    requires Distinct(level)
    ensures Distinct(Up(level))
  {
    forall i, j | 0 <= i < j < |Up(level)|
      ensures Up(level)[i] != Up(level)[j]
    {
      UpAt(level, i);
      UpAt(level, j);
    }
  }

  /** What starts a proof of full height is a node of the level. */
  lemma FoldsFromLevel(h: Digest, proof: seq<ProofStep>, level: seq<Digest>)
    requires level != [] && |proof| == Height(|level|) && Fold(h, proof) == Climb(level)
    ensures h in level
  {
    ClimbIsPerfect(level);
    PaddedExtends(level);
    FoldAtFullHeight(h, proof, Padded(level), 0);
  }

  /** A node of the level above joins an even position to its right neighbour. */
  lemma UpMember(level: seq<Digest>, p: nat, b: Digest)
    requires Distinct(level) && p < |level| && Node(level[p], b) in Up(level)
    ensures p % 2 == 0 && b == level[Min(p + 1, |level| - 1)]
  {
    var i :| 0 <= i < |Up(level)| && Up(level)[i] == Node(level[p], b);
    UpAt(level, i);
  }

  /** The step the loop takes at an index that does not raise. */
  function StepFor(level: seq<Digest>, index: int): ProofStep
    requires |level| > 1 && -2 * Half(|level|) <= index < 2 * Half(|level|)
  {
    SubscriptFits(level, index);
    ProofStep(Subscript(PadLevel(level), Sibling(index)).value, SideOf(index))
  }

  lemma LoopFolds(h: Digest, level: seq<Digest>, index: int)
    requires |level| > 1 && -2 * Half(|level|) <= index < 2 * Half(|level|)
    ensures ProofLoop(level, index).Some? && ProofLoop(Up(level), index / 2).Some?
    ensures Fold(h, ProofLoop(level, index).value)
         == Fold(Step(h, StepFor(level, index)), ProofLoop(Up(level), index / 2).value)
  {
    SubscriptFits(level, index);
    ProofRaisesIff(level, index);
    var rest := ProofLoop(Up(level), index / 2).value;
    assert ([StepFor(level, index)] + rest)[1..] == rest;
  }

  lemma RootOfUp(level: seq<Digest>)
    requires |level| > 1
    ensures |Up(level)| == Half(|level|) && Up(level) != [] && Root(level) == Root(Up(level))
  {
  }

  /** If the first step leads from the k-th node from the end to the j-th above, the rest decides. */
  lemma OneLevelUp(level: seq<Digest>, above: seq<Digest>, h: Digest, k: int, j: int)
    requires |level| > 1 && above == Up(level) && 1 <= k <= |level| && 1 <= j <= |above| && -k / 2 == -j
    requires h == level[|level| - k] && Step(h, StepFor(level, -k)) == above[|above| - j]
    ensures CountsFromEnd(level, k) <==> CountsFromEnd(above, j)
  {
    RootOfUp(level);
    LoopFolds(h, level, -k);
    assert Accepts(h, ProofLoop(level, -k).value, Root(level))
      <==> Accepts(above[|above| - j], ProofLoop(above, -j).value, Root(above));
  }

  lemma EvenStep(level: seq<Digest>, k: int, j: int)
    requires |level| % 2 == 0 && 1 <= k <= |level| && 1 <= j <= |Up(level)| && -k / 2 == -j
    ensures Step(level[|level| - k], StepFor(level, -k)) == Up(level)[|Up(level)| - j]
  {
    var p := |level| - k;
    UpAt(level, |Up(level)| - j);
    assert p == 2 * (|Up(level)| - j) || p == 2 * (|Up(level)| - j) + 1;
  }

  /** On an even level what counts from the end is decided one level up. */
  lemma EvenLevel(level: seq<Digest>, k: int, j: int)
    requires |level| % 2 == 0 && 1 <= k <= |level| && j == (k + 1) / 2
    ensures j <= |Up(level)| && (CountsFromEnd(level, k) <==> CountsFromEnd(Up(level), j))
    ensures k <= LowestBit(|level|) <==> j <= LowestBit(|Up(level)|)
  {
    assert |Up(level)| == |level| / 2 && -k / 2 == -j;
    EvenStep(level, k, j);
    OneLevelUp(level, Up(level), level[|level| - k], k, j);
  }

  /** On an odd level index -1 is the copy of the last node, which is paired with the last node. */
  lemma CopyStep(level: seq<Digest>)
    requires |level| > 1 && |level| % 2 == 1
    ensures Step(level[|level| - 1], StepFor(level, -1)) == Up(level)[|Up(level)| - 1]
  {
    UpAt(level, |Up(level)| - 1);
  }

  lemma CopyLevel(level: seq<Digest>)
    requires |level| > 1 && |level| % 2 == 1
    ensures CountsFromEnd(level, 1) <==> CountsFromEnd(Up(level), 1)
  {
    CopyStep(level);
    OneLevelUp(level, Up(level), level[|level| - 1], 1, 1);
  }

  /** Every other index from the end is off by one and leads to a node that is not there. */
  lemma OffByOne(level: seq<Digest>, k: int)
    requires Distinct(level) && |level| % 2 == 1 && 2 <= k <= |level|
    ensures Step(level[|level| - k], StepFor(level, -k)) !in Up(level)
  {
    var p, step := |level| - k, StepFor(level, -k);
    if Step(level[p], step) in Up(level) {
      if step.side == "L" {
        assert step.sibling == level[p];
      }
      UpMember(level, p, if step.side == "L" then level[p] else step.sibling);
    }
  }

  lemma OddLevel(level: seq<Digest>, k: int)
    requires Distinct(level) && |level| % 2 == 1 && 2 <= k <= |level|
    ensures !CountsFromEnd(level, k)
  {
    var h, rest := level[|level| - k], ProofLoop(Up(level), -k / 2);
    LoopFolds(h, level, -k);
    if CountsFromEnd(level, k) {
      ProofRaisesIff(Up(level), -k / 2);
      FoldsFromLevel(Step(h, StepFor(level, -k)), rest.value, Up(level));
      OffByOne(level, k);
    }
  }

  /**
   Index -k counts from the end when k is at most the largest power of two that divides the number of leaves,
   and for distinct leaves only then.
   */
  lemma {:induction false} NegativeIndexIff(leaves: seq<Digest>, k: int)
    requires 1 <= k <= |leaves|
    ensures k <= LowestBit(|leaves|) ==> CountsFromEnd(leaves, k)
    ensures Distinct(leaves) ==> (CountsFromEnd(leaves, k) <==> k <= LowestBit(|leaves|))
    decreases |leaves|
  {
    if |leaves| > 1 {
      if Distinct(leaves) {
        UpDistinct(leaves);
      }
      if |leaves| % 2 == 0 {
        EvenLevel(leaves, k, (k + 1) / 2);
        NegativeIndexIff(Up(leaves), (k + 1) / 2);
      } else if k == 1 {
        CopyLevel(leaves);
        NegativeIndexIff(Up(leaves), 1);
      } else if Distinct(leaves) {
        OddLevel(leaves, k);
      }
    }
  }

  /** A corpus of n sources, no two of them alike. */
  function Numbered(n: nat): seq<Source> {
    seq(n, i requires 0 <= i < n => Source(Some(seq(i, _ => 'x')), None, None, ""))
  }

  lemma NumberedDistinct(n: nat)
    ensures Distinct(LeafHashes(Numbered(n)))
  {
    var leaves := LeafHashes(Numbered(n));
    forall i, j | 0 <= i < j < n
      ensures leaves[i] != leaves[j]
    {
      assert |leaves[i].source.id.value| == i && |leaves[j].source.id.value| == j;
    }
  }

  /** So it is safe to count back k places in every corpus of n sources exactly when k is at most that power. */
  lemma SafeToCountBackIff(n: nat, k: int)
    requires 1 <= k <= n
    ensures (forall sources: seq<Source> :: |sources| == n ==> CountsFromEnd(LeafHashes(sources), k)) <==> k <= LowestBit(n)
  {
    NumberedDistinct(n);
    NegativeIndexIff(LeafHashes(Numbered(n)), k);
    forall sources: seq<Source> | |sources| == n && k <= LowestBit(n)
      ensures CountsFromEnd(LeafHashes(sources), k)
    {
      NegativeIndexIff(LeafHashes(sources), k);
    }
  }

  /** Of three different leaves only the last one is found from the end. */
  lemma NegativeIndexMisleads(a: Source, b: Source, c: Source, k: int)
    requires a != b && b != c && a != c && 1 <= k <= 3
    ensures CountsFromEnd(LeafHashes([a, b, c]), k) <==> k == 1
  {
    NegativeIndexIff(LeafHashes([a, b, c]), k);
  }
}
