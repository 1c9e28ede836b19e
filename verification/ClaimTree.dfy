/** The indexer's claim tree over wallets and lamports, with hex text for the root and proofs. */
module ClaimTree {
  import opened Bytes
  import opened Results
  import opened Merkle
  import Hex

  datatype RawLeaf = RawLeaf(wallet: Pubkey, lamports: nat)

  datatype Entry = Entry(leaf: ClaimLeaf, proof: seq<string>)

  datatype BuiltTree = BuiltTree(root: string, leaves: seq<Entry>)

  /** Indices are 0..n-1 in input order. */
  function Indexed(raw: seq<RawLeaf>): (leaves: seq<ClaimLeaf>)
    ensures |leaves| == |raw|
    ensures forall i :: 0 <= i < |raw| ==> leaves[i] == ClaimLeaf(i, raw[i].wallet, raw[i].lamports)
  {
    seq(|raw|, i requires 0 <= i < |raw| => ClaimLeaf(i, raw[i].wallet, raw[i].lamports))
  }

  predicate AllEncodable(leaves: seq<ClaimLeaf>) {
    forall i :: 0 <= i < |leaves| ==> Encodable(leaves[i])
  }

  function HashLeaf(h: Hash, leaf: ClaimLeaf): Bytes32
    requires Encodable(leaf)
  {
    h(LeafBytes(leaf))
  }

  function Hashes(h: Hash, leaves: seq<ClaimLeaf>): (hashes: seq<Bytes32>)
    requires AllEncodable(leaves)
    ensures |hashes| == |leaves|
    ensures forall i :: 0 <= i < |leaves| ==> hashes[i] == h(LeafBytes(leaves[i]))
  {
    seq<Bytes32>(|leaves|, i requires 0 <= i < |leaves| => HashLeaf(h, leaves[i]))
  }

  /** The tree library finds a leaf by its hash; among equal hashes it takes the last. */
  function LookUp(hashes: seq<Bytes32>, target: Bytes32): (i: nat)
    requires target in hashes
    ensures i < |hashes| && hashes[i] == target
  {
    var last := |hashes| - 1;
    if hashes[last] == target then last else LookUp(hashes[..last], target)
  }

  function Prefixed(b: seq<byte>): string {
    "0x" + Hex.Encode(b)
  }

  function HexProof(proof: seq<Bytes32>): (text: seq<string>)
    ensures |text| == |proof|
  {
    seq(|proof|, i requires 0 <= i < |proof| => Prefixed(proof[i]))
  }

  /** An empty tree has the empty root. */
  function HexRoot(h: Hash, hashes: seq<Bytes32>): string {
    if hashes == [] then "0x" else Prefixed(LayerRoot(h, hashes))
  }

  /** None when a leaf does not fit its 64-bit fields and the encoder throws. */
  function BuildClaimTree(h: Hash, raw: seq<RawLeaf>): (t: Option<BuiltTree>)
    ensures t.Some? <==> AllEncodable(Indexed(raw))
    ensures t.Some? ==> |t.value.leaves| == |raw|
    ensures t.Some? ==> forall i :: 0 <= i < |raw| ==> t.value.leaves[i].leaf == Indexed(raw)[i]
  {
    var leaves := Indexed(raw);
    if !AllEncodable(leaves) then None else
      var hashes := Hashes(h, leaves);
      Some(BuiltTree(
        HexRoot(h, hashes),
        seq(|leaves|, i requires 0 <= i < |leaves| =>
          Entry(leaves[i], HexProof(ProofFor(h, hashes, LookUp(hashes, hashes[i])))))))
  }

  function ProofBytes(proof: seq<string>): (b: seq<seq<byte>>)
    ensures |b| == |proof|
  {
    seq(|proof|, i requires 0 <= i < |proof| => Hex.FromText(proof[i]))
  }

  /** A leaf that cannot be encoded makes the check throw, so it is not accepted. */
  predicate VerifyClaim(h: Hash, leaf: ClaimLeaf, proof: seq<string>, root: string) {
    Encodable(leaf) && Climb(h, h(LeafBytes(leaf)), ProofBytes(proof)) == Hex.FromText(root)
  }

  lemma HexProofRoundTrip(proof: seq<Bytes32>)
    ensures ProofBytes(HexProof(proof)) == proof
  {
    forall i | 0 <= i < |proof|
      ensures Hex.FromText(Prefixed(proof[i])) == proof[i]
    {
      Hex.StripEncoded(proof[i]);
    }
  }

  // ------------------------------------------------------------ completeness

  /** Every emitted proof verifies against the emitted root, for every leaf list and every hash. */
  lemma EveryProofVerifies(h: Hash, raw: seq<RawLeaf>, i: nat)
    requires BuildClaimTree(h, raw).Some? && i < |raw|
    ensures var t := BuildClaimTree(h, raw).value;
            VerifyClaim(h, t.leaves[i].leaf, t.leaves[i].proof, t.root)
  {
    var hashes := Hashes(h, Indexed(raw));
    var k := LookUp(hashes, hashes[i]);
    HexProofRoundTrip(ProofFor(h, hashes, k));
    Completeness(h, hashes, k);
    Hex.StripEncoded(LayerRoot(h, hashes));
  }

  /** The lookup by hash finds the leaf itself, even among equal wallets and amounts, unless two
      distinct leaf encodings collide. */
  lemma LookUpFindsTheLeaf(h: Hash, raw: seq<RawLeaf>, i: nat)
    requires AllEncodable(Indexed(raw)) && i < |raw|
    ensures var leaves := Indexed(raw);
            var k := LookUp(Hashes(h, leaves), Hashes(h, leaves)[i]);
            k == i || Collision(h, LeafBytes(leaves[i]), LeafBytes(leaves[k]))
  {
    var leaves := Indexed(raw);
    var k := LookUp(Hashes(h, leaves), Hashes(h, leaves)[i]);
    if k != i && LeafBytes(leaves[i]) == LeafBytes(leaves[k]) {
      LeafBytesInjective(leaves[i], leaves[k]);
      assert false;
    }
  }

  // ------------------------------------------------------------ binding

  function Encodings(leaves: seq<ClaimLeaf>): (b: seq<seq<byte>>)
    requires AllEncodable(leaves)
    ensures |b| == |leaves| && forall i :: 0 <= i < |leaves| ==> b[i] == LeafBytes(leaves[i])
  {
    seq(|leaves|, i requires 0 <= i < |leaves| => LeafBytes(leaves[i]))
  }

  ghost function AsTree(leaves: seq<ClaimLeaf>): Tree
    requires AllEncodable(leaves) && leaves != []
  {
    TreeOf(AsTips(Encodings(leaves)))
  }

  /** Everything hashed while building the tree over `raw`. */
  ghost function BuildInputs(h: Hash, raw: seq<RawLeaf>): set<seq<byte>>
    requires AllEncodable(Indexed(raw))
  {
    if raw == [] then {} else TreeInputs(h, AsTree(Indexed(raw)))
  }

  ghost function CheckInputs(h: Hash, leaf: ClaimLeaf, proof: seq<string>): set<seq<byte>>
    requires Encodable(leaf)
  {
    ClaimInputs(h, LeafBytes(leaf), ProofBytes(proof))
  }

  /** Siblings as the distributor takes them; any length but 16 bytes would do. */
  predicate SiblingsOk(proof: seq<string>) {
    forall i :: 0 <= i < |proof| ==> |Hex.FromText(proof[i])| != 16
  }

  /** Binding: whatever the verifier accepts against the root of a built tree is one of its
      leaves, index, wallet and amount, or the hash inputs at hand contain a collision. */
  lemma AcceptedClaimIsALeaf(h: Hash, raw: seq<RawLeaf>, leaf: ClaimLeaf, proof: seq<string>)
    returns (x: seq<byte>, y: seq<byte>)
    requires BuildClaimTree(h, raw).Some? && SiblingsOk(proof)
    requires VerifyClaim(h, leaf, proof, BuildClaimTree(h, raw).value.root)
    ensures raw != [] && x in BuildInputs(h, raw) && y in CheckInputs(h, leaf, proof)
    ensures leaf in Indexed(raw) || Collision(h, x, y)
  {
    RootOfNothing(h);
    hide BuildClaimTree, Hex.FromText;
    RootOfBuiltTree(h, raw);
    x, y := BindingOverLeaves(h, Indexed(raw), leaf, ProofBytes(proof));
  }

  /** The root of the empty tree is the empty string of bytes, which no hash equals. */
  lemma RootOfNothing(h: Hash)
    ensures BuildClaimTree(h, []).Some? && Hex.FromText(BuildClaimTree(h, []).value.root) == []
  {
    assert Hex.FromText("0x") == [];
  }

  lemma BindingOverLeaves(h: Hash, leaves: seq<ClaimLeaf>, leaf: ClaimLeaf, proof: seq<seq<byte>>)
    returns (x: seq<byte>, y: seq<byte>)
    requires AllEncodable(leaves) && leaves != [] && Encodable(leaf)
    requires Tips(AsTree(leaves)) == Encodings(leaves)
    requires forall i :: 0 <= i < |proof| ==> |proof[i]| != 16
    requires Climb(h, h(LeafBytes(leaf)), proof) == RootOf(h, AsTree(leaves))
    ensures x in TreeInputs(h, AsTree(leaves)) && y in ClaimInputs(h, LeafBytes(leaf), proof)
    ensures leaf in leaves || Collision(h, x, y)
  {
    EncodingIsOfALeaf(leaves);
    x, y := Binding(h, AsTree(leaves), LeafBytes(leaf), proof);
    if LeafBytes(leaf) in Encodings(leaves) {
      EncodedLeafIsALeaf(leaves, leaf);
    }
  }

  lemma EncodedLeafIsALeaf(leaves: seq<ClaimLeaf>, leaf: ClaimLeaf)
    requires AllEncodable(leaves) && Encodable(leaf) && LeafBytes(leaf) in Encodings(leaves)
    ensures leaf in leaves
  {
    var i :| 0 <= i < |leaves| && Encodings(leaves)[i] == LeafBytes(leaf);
    LeafBytesInjective(leaf, leaves[i]);
    assert leaves[i] in leaves;
  }

  lemma EncodingIsOfALeaf(leaves: seq<ClaimLeaf>)
    requires AllEncodable(leaves)
    ensures forall b :: b in Encodings(leaves) ==> |b| == 48
  {
  }

  lemma RootOfBuiltTree(h: Hash, raw: seq<RawLeaf>)
    requires AllEncodable(Indexed(raw)) && raw != []
    ensures Hex.FromText(BuildClaimTree(h, raw).value.root) == RootOf(h, AsTree(Indexed(raw)))
    ensures Tips(AsTree(Indexed(raw))) == Encodings(Indexed(raw))
  {
    var leaves := Indexed(raw);
    assert Roots(h, AsTips(Encodings(leaves))) == Hashes(h, leaves);
    LayerRootIsTreeRoot(h, AsTips(Encodings(leaves)));
    TipsOfAsTips(Encodings(leaves));
    Hex.StripEncoded(LayerRoot(h, Hashes(h, leaves)));
  }
}
