/** Claim trees: the 48-byte leaf encoding, sorted-pair hashing, the layered tree with its
    proofs, and the verifier. The hash is any function from byte strings to 32 bytes. */
module Merkle {
  import opened Bytes
  import opened Results

  type Hash = seq<byte> -> Bytes32

  datatype ClaimLeaf = ClaimLeaf(index: nat, wallet: Pubkey, lamports: nat)

  predicate Encodable(leaf: ClaimLeaf) {
    leaf.index <= U64_MAX && leaf.lamports <= U64_MAX
  }

  // ------------------------------------------------------------ leaves

  function LeafBytes(leaf: ClaimLeaf): (b: seq<byte>)
    requires Encodable(leaf)
    ensures |b| == 48
  {
    U64LE(leaf.index) + leaf.wallet.bytes + U64LE(leaf.lamports)
  }

  /** The leaf buffer as the indexer fills it; a value outside 64 bits throws. */
  method LeafBuffer(leaf: ClaimLeaf) returns (b: Option<seq<byte>>)
    ensures b == if Encodable(leaf) then Some(LeafBytes(leaf)) else None
  {
    if !Encodable(leaf) {
      return None;
    }
    Pow256Of8();
    var idx := new byte[8](_ => 0);
    WriteLE(idx, leaf.index, 8, 0);
    assert idx[..] == idx[..8] == U64LE(leaf.index);
    var lp := new byte[8](_ => 0);
    WriteLE(lp, leaf.lamports, 8, 0);
    assert lp[..] == lp[..8] == U64LE(leaf.lamports);
    return Some(idx[..] + leaf.wallet.bytes + lp[..]);
  }

  /** The leaf can be read back at the offsets at which a claim program expects its fields. */
  lemma LeafFields(leaf: ClaimLeaf)
    requires Encodable(leaf)
    ensures var b := LeafBytes(leaf);
            FromLE(b[..8]) == leaf.index && b[8..40] == leaf.wallet.bytes && FromLE(b[40..]) == leaf.lamports
  {
    var b := LeafBytes(leaf);
    assert b[..8] == U64LE(leaf.index) && b[40..] == U64LE(leaf.lamports);
  }

  lemma LeafBytesInjective(a: ClaimLeaf, b: ClaimLeaf)
    requires Encodable(a) && Encodable(b) && LeafBytes(a) == LeafBytes(b)
    ensures a == b
  {
    LeafFields(a);
    LeafFields(b);
  }

  // ------------------------------------------------------------ sorted pairs

  /** `Buffer.compare(a, b) < 0` */
  predicate Before(a: seq<byte>, b: seq<byte>) {
    b != [] && (a == [] || a[0] < b[0] || (a[0] == b[0] && Before(a[1..], b[1..])))
  }

  lemma {:induction false} BeforeIsTotal(a: seq<byte>, b: seq<byte>)
    ensures !(Before(a, b) && Before(b, a))
    ensures !Before(a, b) && !Before(b, a) ==> a == b
  {
    if a != [] && b != [] && a[0] == b[0] {
      BeforeIsTotal(a[1..], b[1..]);
      if a[1..] == b[1..] {
        assert a == [a[0]] + a[1..] && b == [b[0]] + b[1..];
      }
    }
  }

  /** At the first difference the smaller byte decides; a proper prefix comes first. */
  ghost predicate Lexicographic(a: seq<byte>, b: seq<byte>) {
    exists k: nat :: DecidedAt(a, b, k)
  }

  predicate DecidedAt(a: seq<byte>, b: seq<byte>, k: nat) {
    k <= |a| && k < |b| && a[..k] == b[..k] && (k == |a| || a[k] < b[k])
  }

  lemma {:induction false} BeforeIsLexicographic(a: seq<byte>, b: seq<byte>)
    ensures Before(a, b) <==> Lexicographic(a, b)
  {
    if a != [] && b != [] && a[0] == b[0] {
      BeforeIsLexicographic(a[1..], b[1..]);
      if Lexicographic(a[1..], b[1..]) {
        var k: nat :| DecidedAt(a[1..], b[1..], k);
        assert a[..k + 1] == [a[0]] + a[1..][..k] && b[..k + 1] == [b[0]] + b[1..][..k];
        assert DecidedAt(a, b, k + 1);
      }
      if Lexicographic(a, b) {
        var k: nat :| DecidedAt(a, b, k);
        assert a[1..][..k - 1] == a[..k][1..] && b[1..][..k - 1] == b[..k][1..];
        assert DecidedAt(a[1..], b[1..], k - 1);
      }
    } else if Before(a, b) {
      assert DecidedAt(a, b, 0);
    } else if Lexicographic(a, b) {
      var k: nat :| DecidedAt(a, b, k);
      SameFirst(a, b, k);
      assert false;
    }
  }

  lemma SameFirst(a: seq<byte>, b: seq<byte>, k: nat)
    requires DecidedAt(a, b, k)
    ensures k > 0 ==> a != [] && b != [] && a[0] == b[0]
  {
    if k > 0 {
      assert a[0] == a[..k][0] && b[0] == b[..k][0];
    }
  }

  /** The tree builder sorts its two children in place. */
  function SortedPair(left: seq<byte>, right: seq<byte>): seq<byte> {
    if Before(right, left) then right + left else left + right
  }

  /** The verifier puts the running hash first only when it is strictly smaller. */
  function Join(running: seq<byte>, sibling: seq<byte>): seq<byte> {
    if Before(running, sibling) then running + sibling else sibling + running
  }

  lemma JoinIsSortedPair(a: seq<byte>, b: seq<byte>)
    ensures Join(a, b) == SortedPair(a, b) == SortedPair(b, a)
  {
    BeforeIsTotal(a, b);
  }

  lemma SortedPairDeterminesChildren(a: Bytes32, b: Bytes32, x: Bytes32, y: seq<byte>)
    requires SortedPair(a, b) == Join(x, y)
    ensures x == a || x == b
  {
    var p, q := SortedPair(a, b), Join(x, y);
    assert |y| == 32;
    assert p[..32] == a || p[32..] == a;
    assert p[..32] == b || p[32..] == b;
    assert q[..32] == x || q[32..] == x;
    assert p[..32] == a ==> p[32..] == b;
    assert p[..32] == b ==> p[32..] == a;
  }

  // ------------------------------------------------------------ proofs

  /** The verifier's running hash after all siblings. */
  function Climb(h: Hash, node: Bytes32, proof: seq<seq<byte>>): Bytes32 {
    if proof == [] then node
    else h(Join(Climb(h, node, proof[..|proof| - 1]), proof[|proof| - 1]))
  }

  lemma {:induction false} ClimbFromFront(h: Hash, node: Bytes32, sibling: seq<byte>, rest: seq<seq<byte>>)
    ensures Climb(h, node, [sibling] + rest) == Climb(h, h(Join(node, sibling)), rest)
  {
    var proof := [sibling] + rest;
    if rest == [] {
      assert proof[..0] == [] && proof[0] == sibling;
      assert Climb(h, node, proof[..0]) == node;
    } else {
      assert proof[..|proof| - 1] == [sibling] + rest[..|rest| - 1];
      ClimbFromFront(h, node, sibling, rest[..|rest| - 1]);
    }
  }

  // ------------------------------------------------------------ trees of any shape

  datatype Tree = Tip(leaf: seq<byte>) | Fork(left: Tree, right: Tree)

  function RootOf(h: Hash, t: Tree): Bytes32 {
    match t
    case Tip(leaf) => h(leaf)
    case Fork(l, r) => h(SortedPair(RootOf(h, l), RootOf(h, r)))
  }

  /** A node hashes its two children, the lexicographically smaller one first. */
  lemma NodeHashesSmallerFirst(h: Hash, l: Tree, r: Tree)
    ensures var a, b := RootOf(h, l), RootOf(h, r);
      && (Lexicographic(a, b) ==> RootOf(h, Fork(l, r)) == RootOf(h, Fork(r, l)) == h(a + b))
      && (Lexicographic(a, b) || Lexicographic(b, a) || a == b)
  {
    var a, b := RootOf(h, l), RootOf(h, r);
    BeforeIsLexicographic(a, b);
    BeforeIsLexicographic(b, a);
    BeforeIsTotal(a, b);
  }

  function Tips(t: Tree): seq<seq<byte>> {
    match t
    case Tip(leaf) => [leaf]
    case Fork(l, r) => Tips(l) + Tips(r)
  }

  /** Everything that is hashed to build the tree. */
  ghost function TreeInputs(h: Hash, t: Tree): set<seq<byte>> {
    match t
    case Tip(leaf) => {leaf}
    case Fork(l, r) => {SortedPair(RootOf(h, l), RootOf(h, r))} + TreeInputs(h, l) + TreeInputs(h, r)
  }

  /** Everything that is hashed to check a claim. */
  ghost function ClaimInputs(h: Hash, leaf: seq<byte>, proof: seq<seq<byte>>): set<seq<byte>> {
    if proof == [] then {leaf}
    else
      var front := proof[..|proof| - 1];
      {Join(Climb(h, h(leaf), front), proof[|proof| - 1])} + ClaimInputs(h, leaf, front)
  }

  ghost predicate Collision(h: Hash, x: seq<byte>, y: seq<byte>) {
    x != y && h(x) == h(y)
  }

  /** Binding, for any tree shape and any hash: a proof that climbs to the root from a 48-byte
      leaf proves one of the tree's leaves, or exhibits a collision among what was hashed. The
      siblings may have any length but 16, which alone would make a node look like a leaf. */
  lemma {:induction false} Binding(h: Hash, t: Tree, leaf: seq<byte>, proof: seq<seq<byte>>)
    returns (x: seq<byte>, y: seq<byte>)
    requires |leaf| == 48 && forall s :: s in Tips(t) ==> |s| == 48
    requires forall s :: s in proof ==> |s| != 16
    requires Climb(h, h(leaf), proof) == RootOf(h, t)
    ensures x in TreeInputs(h, t) && y in ClaimInputs(h, leaf, proof) && h(x) == h(y)
    ensures leaf in Tips(t) || Collision(h, x, y)
    decreases t
  {
    match t
    case Tip(tip) =>
      assert tip in Tips(t);
      x := tip;
      if proof == [] {
        y := leaf;
      } else {
        y := Join(Climb(h, h(leaf), proof[..|proof| - 1]), proof[|proof| - 1]);
        assert proof[|proof| - 1] in proof;
      }
    case Fork(l, r) =>
      x := SortedPair(RootOf(h, l), RootOf(h, r));
      if proof == [] {
        y := leaf;
      } else {
        var front, sibling := proof[..|proof| - 1], proof[|proof| - 1];
        var below := Climb(h, h(leaf), front);
        y := Join(below, sibling);
        if x == y {
          SortedPairDeterminesChildren(RootOf(h, l), RootOf(h, r), below, sibling);
          if below == RootOf(h, l) {
            x, y := Binding(h, l, leaf, front);
          } else {
            x, y := Binding(h, r, leaf, front);
          }
        }
      }
  }

  // ------------------------------------------------------------ the layered tree

  /** One layer up: pairs are hashed, an odd last node is promoted unchanged. */
  function NextLayer(h: Hash, layer: seq<Bytes32>): (next: seq<Bytes32>)
    ensures |next| == (|layer| + 1) / 2
  {
    if |layer| <= 1 then layer
    else [h(SortedPair(layer[0], layer[1]))] + NextLayer(h, layer[2..])
  }

  function LayerRoot(h: Hash, layer: seq<Bytes32>): Bytes32
    requires layer != []
    decreases |layer|
  {
    if |layer| == 1 then layer[0] else LayerRoot(h, NextLayer(h, layer))
  }

  function Siblings(layer: seq<Bytes32>, i: nat): seq<Bytes32>
    requires i < |layer|
  {
    if i % 2 == 1 then [layer[i - 1]]
    else if i + 1 < |layer| then [layer[i + 1]]
    else []
  }

  function ProofFor(h: Hash, layer: seq<Bytes32>, i: nat): seq<Bytes32>
    requires i < |layer|
    decreases |layer|
  {
    if |layer| == 1 then [] else Siblings(layer, i) + ProofFor(h, NextLayer(h, layer), i / 2)
  }

  /** Neighbours are paired, from the left; the smaller hash goes first; an odd last one moves up. */
  lemma {:induction false} NextLayerPairs(h: Hash, layer: seq<Bytes32>, j: nat)
    requires j < (|layer| + 1) / 2
    ensures 2 * j + 1 == |layer| ==> NextLayer(h, layer)[j] == layer[2 * j]
    ensures 2 * j + 1 < |layer| ==>
              var a: seq<byte>, b: seq<byte> := layer[2 * j], layer[2 * j + 1];
              NextLayer(h, layer)[j] == h(if Lexicographic(a, b) then a + b else b + a)
  {
    if j > 0 {
      NextLayerPairs(h, layer[2..], j - 1);
    } else if |layer| >= 2 {
      BeforeIsLexicographic(layer[0], layer[1]);
      BeforeIsLexicographic(layer[1], layer[0]);
      BeforeIsTotal(layer[0], layer[1]);
    }
  }

  lemma {:induction false} NextLayerAt(h: Hash, layer: seq<Bytes32>, i: nat)
    requires i < |layer|
    ensures NextLayer(h, layer)[i / 2] == Climb(h, layer[i], Siblings(layer, i))
  {
    if i >= 2 {
      NextLayerAt(h, layer[2..], i - 2);
      assert Siblings(layer, i) == Siblings(layer[2..], i - 2);
      assert (i - 2) / 2 == i / 2 - 1;
    } else if |layer| >= 2 {
      JoinIsSortedPair(layer[i], layer[1 - i]);
      assert Siblings(layer, i) == [layer[1 - i]];
      ClimbOne(h, layer[i], layer[1 - i]);
    }
  }

  lemma ClimbOne(h: Hash, node: Bytes32, sibling: seq<byte>)
    ensures Climb(h, node, [sibling]) == h(Join(node, sibling))
  {
    assert [sibling][..0] == [];
  }

  /** Completeness: from every position of every layer, odd ones and single leaf included, the
      emitted proof climbs to the root. */
  lemma {:induction false} Completeness(h: Hash, layer: seq<Bytes32>, i: nat)
    requires i < |layer|
    ensures Climb(h, layer[i], ProofFor(h, layer, i)) == LayerRoot(h, layer)
    decreases |layer|
  {
    if |layer| > 1 {
      var next := NextLayer(h, layer);
      NextLayerAt(h, layer, i);
      Completeness(h, next, i / 2);
      var s, rest := Siblings(layer, i), ProofFor(h, next, i / 2);
      if s == [] {
        assert s + rest == rest;
      } else {
        ClimbOne(h, layer[i], s[0]);
        assert s == [s[0]];
        ClimbFromFront(h, layer[i], s[0], rest);
      }
    }
  }

  // ------------------------------------------------------------ layers are a tree

  function NextTrees(ts: seq<Tree>): (next: seq<Tree>)
    ensures |next| == (|ts| + 1) / 2
  {
    if |ts| <= 1 then ts else [Fork(ts[0], ts[1])] + NextTrees(ts[2..])
  }

  function TreeOf(ts: seq<Tree>): Tree
    requires ts != []
    decreases |ts|
  {
    if |ts| == 1 then ts[0] else TreeOf(NextTrees(ts))
  }

  function Roots(h: Hash, ts: seq<Tree>): seq<Bytes32> {
    seq(|ts|, i requires 0 <= i < |ts| => RootOf(h, ts[i]))
  }

  function AllTips(ts: seq<Tree>): seq<seq<byte>> {
    if ts == [] then [] else Tips(ts[0]) + AllTips(ts[1..])
  }

  lemma {:induction false} NextLayerIsNextTrees(h: Hash, ts: seq<Tree>)
    ensures Roots(h, NextTrees(ts)) == NextLayer(h, Roots(h, ts))
  {
    if |ts| >= 2 {
      hide Tips, AllTips;
      NextLayerIsNextTrees(h, ts[2..]);
      assert Roots(h, ts)[2..] == Roots(h, ts[2..]);
      var next := NextTrees(ts);
      assert next[0] == Fork(ts[0], ts[1]) && next[1..] == NextTrees(ts[2..]);
      RootsFirst(h, next);
    }
  }

  lemma RootsFirst(h: Hash, ts: seq<Tree>)
    requires ts != []
    ensures Roots(h, ts) == [RootOf(h, ts[0])] + Roots(h, ts[1..])
  {
    hide RootOf;
  }

  lemma {:induction false} NextTreesKeepTips(ts: seq<Tree>)
    ensures AllTips(NextTrees(ts)) == AllTips(ts)
  {
    if |ts| >= 2 {
      NextTreesKeepTips(ts[2..]);
      var next := NextTrees(ts);
      assert next[0] == Fork(ts[0], ts[1]) && next[1..] == NextTrees(ts[2..]);
      assert AllTips(next) == (Tips(ts[0]) + Tips(ts[1])) + AllTips(next[1..]);
      assert ts[1..][1..] == ts[2..];
      assert AllTips(ts) == Tips(ts[0]) + (Tips(ts[1]) + AllTips(ts[2..]));
    }
  }

  lemma {:induction false} LayerRootIsTreeRoot(h: Hash, ts: seq<Tree>)
    requires ts != []
    ensures LayerRoot(h, Roots(h, ts)) == RootOf(h, TreeOf(ts))
    ensures Tips(TreeOf(ts)) == AllTips(ts)
    decreases |ts|
  {
    if |ts| == 1 {
      assert AllTips(ts) == Tips(ts[0]) + AllTips(ts[1..]);
    } else {
      NextLayerIsNextTrees(h, ts);
      NextTreesKeepTips(ts);
      LayerRootIsTreeRoot(h, NextTrees(ts));
    }
  }

  function AsTips(leaves: seq<seq<byte>>): (ts: seq<Tree>)
    ensures |ts| == |leaves| && forall i :: 0 <= i < |leaves| ==> ts[i] == Tip(leaves[i])
  {
    seq(|leaves|, i requires 0 <= i < |leaves| => Tip(leaves[i]))
  }

  lemma {:induction false} TipsOfAsTips(leaves: seq<seq<byte>>)
    ensures AllTips(AsTips(leaves)) == leaves
  {
    if leaves != [] {
      assert AsTips(leaves)[1..] == AsTips(leaves[1..]);
      TipsOfAsTips(leaves[1..]);
      assert leaves == [leaves[0]] + leaves[1..];
    }
  }
}
