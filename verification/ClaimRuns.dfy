/** Claiming from a published distributor: whatever anybody attempts, payments stay within the
    funding, go to the published leaves only, and no cap ever stands in the way of one. */
module ClaimRuns {
  import opened Bytes
  import opened Results
  import opened Merkle
  import opened ClaimTree
  import opened Storage
  import opened Epoch
  import opened SaberCodec
  import opened SaberBundle
  import Decimal
  import Hex

  /** The deployed distributor with the wSOL account that it pays from. */
  datatype Distributor = Distributor(
    root: seq<byte>, maxTotalClaim: nat, maxNumNodes: nat,
    funds: nat, totalClaimed: nat, numClaimed: nat, claimed: set<nat>)

  datatype Attempt = Attempt(index: u64, claimant: Pubkey, amount: u64, proof: seq<Bytes32>)

  function LeafOfAttempt(a: Attempt): (leaf: ClaimLeaf)
    ensures Encodable(leaf)
  {
    ClaimLeaf(a.index, a.claimant, a.amount)
  }

  /** The on-chain proof check against a root. */
  function Verifier(h: Hash, root: seq<byte>): Attempt -> bool {
    (a: Attempt) => Climb(h, h(LeafBytes(LeafOfAttempt(a))), a.proof) == root
  }

  /** The distributor pays an unclaimed index whose proof verifies, within both caps. */
  predicate Pays(verifies: Attempt -> bool, d: Distributor, a: Attempt) {
    && a.index !in d.claimed
    && verifies(a)
    && d.totalClaimed + a.amount <= d.maxTotalClaim
    && d.numClaimed + 1 <= d.maxNumNodes
    && a.amount <= d.funds
  }

  function Claimed(verifies: Attempt -> bool, d: Distributor, a: Attempt): Distributor {
    if !Pays(verifies, d, a) then d
    else d.(funds := d.funds - a.amount, totalClaimed := d.totalClaimed + a.amount,
            numClaimed := d.numClaimed + 1, claimed := d.claimed + {a.index})
  }

  function AfterAttempts(verifies: Attempt -> bool, d: Distributor, attempts: seq<Attempt>): Distributor
    decreases attempts
  {
    if attempts == [] then d else AfterAttempts(verifies, Claimed(verifies, d, attempts[0]), attempts[1..])
  }

  function Payments(verifies: Attempt -> bool, d: Distributor, attempts: seq<Attempt>): seq<Attempt>
    decreases attempts
  {
    if attempts == [] then []
    else (if Pays(verifies, d, attempts[0]) then [attempts[0]] else [])
         + Payments(verifies, Claimed(verifies, d, attempts[0]), attempts[1..])
  }

  /** The hash shows no collision between building the tree and checking this attempt. */
  ghost predicate NoCollision(h: Hash, raw: seq<RawLeaf>, a: Attempt)
    requires AllEncodable(Indexed(raw))
  {
    forall x, y :: x in BuildInputs(h, raw) && y in ClaimInputs(h, LeafBytes(LeafOfAttempt(a)), a.proof)
      ==> !Collision(h, x, y)
  }

  ghost predicate CollisionFree(h: Hash, raw: seq<RawLeaf>, attempts: seq<Attempt>)
    requires AllEncodable(Indexed(raw))
  {
    forall i :: 0 <= i < |attempts| ==> NoCollision(h, raw, attempts[i])
  }

  // ------------------------------------------------------------ sums over claimed indices

  function PaidSum(raw: seq<RawLeaf>, paid: set<nat>): nat {
    if raw == [] then 0
    else PaidSum(raw[..|raw| - 1], paid) + if |raw| - 1 in paid then raw[|raw| - 1].lamports else 0
  }

  lemma {:induction false} PaidSumAdd(raw: seq<RawLeaf>, paid: set<nat>, i: nat)
    requires i !in paid
    ensures PaidSum(raw, paid + {i}) == PaidSum(raw, paid) + if i < |raw| then raw[i].lamports else 0
  {
    if raw != [] {
      PaidSumAdd(raw[..|raw| - 1], paid, i);
    }
  }

  lemma {:induction false} PaidSumBound(raw: seq<RawLeaf>, paid: set<nat>)
    ensures PaidSum(raw, paid) <= Sum(raw)
    ensures forall i :: 0 <= i < |raw| && i !in paid ==> PaidSum(raw, paid) + raw[i].lamports <= Sum(raw)
  {
    if raw != [] {
      PaidSumBound(raw[..|raw| - 1], paid);
    }
  }

  lemma {:induction false} BoundedSet(s: set<nat>, n: nat)
    requires forall i :: i in s ==> i < n
    ensures |s| <= n
  {
    if n > 0 {
      BoundedSet(s - {n - 1}, n - 1);
    }
  }

  // ------------------------------------------------------------ the invariant

  ghost predicate Funded(raw: seq<RawLeaf>, d: Distributor) {
    && d.maxTotalClaim == Sum(raw) && d.maxNumNodes == |raw|
    && d.funds + d.totalClaimed == Sum(raw)
    && (forall i :: i in d.claimed ==> i < |raw|)
    && d.totalClaimed == PaidSum(raw, d.claimed)
    && d.numClaimed == |d.claimed|
  }

  /** The attempt asks for a published leaf: its index, its wallet, its amount. */
  predicate Published(raw: seq<RawLeaf>, a: Attempt) {
    a.index < |raw| && raw[a.index] == RawLeaf(a.claimant, a.amount)
  }

  ghost predicate Sound(verifies: Attempt -> bool, raw: seq<RawLeaf>, attempts: seq<Attempt>) {
    forall i :: 0 <= i < |attempts| && verifies(attempts[i]) ==> Published(raw, attempts[i])
  }

  ghost predicate Exact(raw: seq<RawLeaf>, payments: seq<Attempt>) {
    && (forall i :: 0 <= i < |payments| ==> Published(raw, payments[i]))
    && (forall i, j :: 0 <= i < j < |payments| ==> payments[i].index != payments[j].index)
  }

  lemma OneAttempt(verifies: Attempt -> bool, raw: seq<RawLeaf>, d: Distributor, a: Attempt)
    requires Funded(raw, d) && (verifies(a) ==> Published(raw, a))
    ensures Funded(raw, Claimed(verifies, d, a))
  {
    if Pays(verifies, d, a) {
      PaidSumAdd(raw, d.claimed, a.index);
    }
  }

  /** Every sequence of attempts keeps the distributor funded, and pays only published leaves,
      each index at most once, with exactly its amount to exactly its wallet. */
  lemma {:induction false} EveryRunIsFunded(verifies: Attempt -> bool, raw: seq<RawLeaf>, d: Distributor,
                                            attempts: seq<Attempt>)
    requires Funded(raw, d) && Sound(verifies, raw, attempts)
    ensures Funded(raw, AfterAttempts(verifies, d, attempts))
    ensures Exact(raw, Payments(verifies, d, attempts))
    ensures forall p :: p in Payments(verifies, d, attempts) ==> p.index !in d.claimed
    decreases attempts
  {
    if attempts != [] {
      var a, rest := attempts[0], attempts[1..];
      OneAttempt(verifies, raw, d, a);
      EveryRunIsFunded(verifies, raw, Claimed(verifies, d, a), rest);
      var later := Payments(verifies, Claimed(verifies, d, a), rest);
      assert forall i :: 0 <= i < |later| ==> later[i] in later;
      if Pays(verifies, d, a) {
        assert Payments(verifies, d, attempts) == [a] + later;
      } else {
        assert Payments(verifies, d, attempts) == later;
      }
    }
  }

  /** No cap and no lack of funds ever blocks a published leaf that is still unclaimed. */
  lemma UnclaimedLeafIsPayable(verifies: Attempt -> bool, raw: seq<RawLeaf>, d: Distributor, a: Attempt)
    requires Funded(raw, d) && Published(raw, a) && verifies(a) && a.index !in d.claimed
    ensures Pays(verifies, d, a)
  {
    PaidSumBound(raw, d.claimed);
    BoundedSet(d.claimed + {a.index}, |raw|);
  }

  /** Without collisions, the proof check lets nothing but published leaves through. */
  lemma VerifierIsSound(h: Hash, raw: seq<RawLeaf>, attempts: seq<Attempt>)
    requires AllEncodable(Indexed(raw)) && raw != [] && CollisionFree(h, raw, attempts)
    ensures Sound(Verifier(h, LayerRoot(h, Hashes(h, Indexed(raw)))), raw, attempts)
  {
    var root := LayerRoot(h, Hashes(h, Indexed(raw)));
    hide LayerRoot, Hashes, NoCollision, Climb, LeafBytes, Published;
    forall i | 0 <= i < |attempts| && Verifier(h, root)(attempts[i])
      ensures Published(raw, attempts[i])
    {
      AcceptedAttempt(h, raw, attempts[i]);
    }
  }

  lemma AcceptedAttempt(h: Hash, raw: seq<RawLeaf>, a: Attempt)
    requires AllEncodable(Indexed(raw)) && raw != [] && NoCollision(h, raw, a)
    requires Verifier(h, LayerRoot(h, Hashes(h, Indexed(raw))))(a)
    ensures Published(raw, a)
  {
    RootOfTree(h, raw);
    hide LayerRoot, Hashes, AsTree, Tips, RootOf, Encodings, LeafBytes, Climb, ClaimInputs, TreeInputs, Published,
         NoCollision, Collision;
    var x, y := BindingOverLeaves(h, Indexed(raw), LeafOfAttempt(a), a.proof);
    NotColliding(h, raw, a, x, y);
    LeafIsPublished(raw, a);
  }

  lemma NotColliding(h: Hash, raw: seq<RawLeaf>, a: Attempt, x: seq<byte>, y: seq<byte>)
    requires AllEncodable(Indexed(raw)) && raw != [] && NoCollision(h, raw, a)
    requires x in TreeInputs(h, AsTree(Indexed(raw)))
    requires y in ClaimInputs(h, LeafBytes(LeafOfAttempt(a)), a.proof)
    ensures !Collision(h, x, y)
  {
    hide TreeInputs, ClaimInputs, LeafBytes, AsTree;
  }

  lemma LeafIsPublished(raw: seq<RawLeaf>, a: Attempt)
    requires LeafOfAttempt(a) in Indexed(raw)
    ensures Published(raw, a)
  {
  }

  lemma RootOfTree(h: Hash, raw: seq<RawLeaf>)
    requires AllEncodable(Indexed(raw)) && raw != []
    ensures LayerRoot(h, Hashes(h, Indexed(raw))) == RootOf(h, AsTree(Indexed(raw)))
    ensures Tips(AsTree(Indexed(raw))) == Encodings(Indexed(raw))
  {
    RootOfBuiltTree(h, raw);
    Hex.StripEncoded(LayerRoot(h, Hashes(h, Indexed(raw))));
  }

  // ------------------------------------------------------------ from the published bundle

  /** What executing the bundle leaves on chain. */
  function Deploy(addr: Addresses, b: Bundle): Option<Distributor> {
    if !FundsItsDistributor(addr, b) then None
    else match ReadNewDistributor(b.ixs[3].data)
      case None => None
      case Some(args) =>
        if args.maxTotalClaim < 0 || args.maxNumNodes < 0 then None
        else Some(Distributor(args.root, args.maxTotalClaim, args.maxNumNodes, b.ixs[1].lamports, 0, 0, {}))
  }

  lemma {:induction false} PaidSumOfNobody(raw: seq<RawLeaf>)
    ensures PaidSum(raw, {}) == 0
  {
    if raw != [] {
      PaidSumOfNobody(raw[..|raw| - 1]);
    }
  }

  lemma FreshDistributorIsFunded(raw: seq<RawLeaf>, root: seq<byte>)
    ensures Funded(raw, Distributor(root, Sum(raw), |raw|, Sum(raw), 0, 0, {}))
  {
    PaidSumOfNobody(raw);
  }

  /** The distributor deployed from the bundle of a built epoch starts fully funded under the
      tree's root. */
  lemma DeployedIsFunded(h: Hash, addr: Addresses, vaultPda: Pubkey, base: Pubkey, e: EpochResult, raw: seq<RawLeaf>)
    requires Built(h, e, raw) && !Skips(e) && BuildBundle(addr, vaultPda, base, e).Some?
    ensures raw != [] && AllEncodable(Indexed(raw))
    ensures Deploy(addr, BuildBundle(addr, vaultPda, base, e).value)
         == Some(Distributor(LayerRoot(h, Hashes(h, Indexed(raw))), Sum(raw), |raw|, Sum(raw), 0, 0, {}))
  {
    CapsMatchTheTree(h, addr, vaultPda, base, e, raw);
    hide BuildBundle, LayerRoot, Hashes, Deploy;
    DeployOfCaps(addr, vaultPda, base, BuildBundle(addr, vaultPda, base, e).value,
                 LayerRoot(h, Hashes(h, Indexed(raw))), Sum(raw), |raw|);
  }

  lemma DeployOfCaps(addr: Addresses, payer: Pubkey, base: Pubkey, b: Bundle,
                     root: seq<byte>, total: nat, nodes: nat)
    requires CarriesCaps(addr, payer, base, b, root, total, nodes)
    ensures Deploy(addr, b) == Some(Distributor(root, total, nodes, total, 0, 0, {}))
  {
    hide ReadNewDistributor;
  }

  /** End to end, for the distributor that the bundle of a built epoch deploys: any attempts pay
      at most `totalLamports` in all, each published index at most once with exactly its leaf's
      amount to its wallet, and nothing blocks a published leaf that is still unclaimed. */
  lemma PublishedClaimsAreFullyFunded(h: Hash, addr: Addresses, vaultPda: Pubkey, base: Pubkey,
                                      e: EpochResult, raw: seq<RawLeaf>, attempts: seq<Attempt>)
    requires Built(h, e, raw) && !Skips(e) && BuildBundle(addr, vaultPda, base, e).Some?
    requires CollisionFree(h, raw, attempts)
    ensures PaysInFull(h, addr, BuildBundle(addr, vaultPda, base, e).value, e, raw, attempts)
  {
    DeployedIsFunded(h, addr, vaultPda, base, e, raw);
    BuiltNumbers(h, e, raw);
    var d0 := Deploy(addr, BuildBundle(addr, vaultPda, base, e).value).value;
    var v := Verifier(h, d0.root);
    FreshDistributorIsFunded(raw, d0.root);
    VerifierIsSound(h, raw, attempts);
    EveryRunIsFunded(v, raw, d0, attempts);
    var d := AfterAttempts(v, d0, attempts);
    forall i | 0 <= i < |raw| && i !in d.claimed ensures ServedClaimPays(h, e, d0.root, d, raw[i].wallet) {
      ServedClaimIsPayable(h, e, raw, d, i);
    }
  }

  /** The distributor deployed from `b`, after `attempts`: what was paid and what is left are the
      record's total, only leaves were paid, exactly and once, and each unclaimed one still can be. */
  ghost predicate PaysInFull(h: Hash, addr: Addresses, b: Bundle, e: EpochResult, raw: seq<RawLeaf>,
                             attempts: seq<Attempt>) {
    && Deploy(addr, b).Some? && Decimal.AllDigits(e.totalLamports)
    && var d0 := Deploy(addr, b).value;
    && var d := AfterAttempts(Verifier(h, d0.root), d0, attempts);
    && d.totalClaimed <= Decimal.Value(e.totalLamports)
    && d.funds + d.totalClaimed == d0.funds == Decimal.Value(e.totalLamports)
    && Exact(raw, Payments(Verifier(h, d0.root), d0, attempts))
    && forall i :: 0 <= i < |raw| && i !in d.claimed ==> ServedClaimPays(h, e, d0.root, d, raw[i].wallet)
  }

  /** The claim instruction that a wallet makes from its entry in the record goes through. */
  ghost predicate ServedClaimPays(h: Hash, e: EpochResult, root: seq<byte>, d: Distributor, w: Pubkey) {
    && w in e.claims && Decimal.AllDigits(e.claims[w].lamports)
    && var c := e.claims[w];
    && var proof := ProofToBytes(AsText(c.proof));
    && c.index <= U64_MAX && Decimal.Value(c.lamports) <= U64_MAX && proof.Some?
    && Pays(Verifier(h, root), d, Attempt(c.index, w, Decimal.Value(c.lamports), proof.value))
  }

  function AsText(proof: seq<string>): (entries: seq<ProofEntry>)
    ensures |entries| == |proof| && forall k :: 0 <= k < |proof| ==> entries[k] == Text(proof[k])
  {
    seq(|proof|, k requires 0 <= k < |proof| => Text(proof[k]))
  }

  lemma ServedClaimIsPayable(h: Hash, e: EpochResult, raw: seq<RawLeaf>, d: Distributor, i: nat)
    requires Built(h, e, raw) && raw != [] && Funded(raw, d)
    requires i < |raw| && i !in d.claimed
    ensures ServedClaimPays(h, e, LayerRoot(h, Hashes(h, Indexed(raw))), d, raw[i].wallet)
  {
    var root := LayerRoot(h, Hashes(h, Indexed(raw)));
    var siblings := EmittedProof(h, raw, i);
    assert Encodable(Indexed(raw)[i]);
    var a := Attempt(i, raw[i].wallet, raw[i].lamports, siblings);
    assert LeafOfAttempt(a) == Indexed(raw)[i];
    UnclaimedLeafIsPayable(Verifier(h, root), raw, d, a);
    ClaimOfLeaf(h, e, raw, i);
  }

  lemma ClaimOfLeaf(h: Hash, e: EpochResult, raw: seq<RawLeaf>, i: nat)
    requires Built(h, e, raw) && i < |raw|
    ensures raw[i].wallet in e.claims
    ensures e.claims[raw[i].wallet] == ClaimOf(BuildClaimTree(h, raw).value.leaves[i])
  {
    ClaimsAreTheLeaves(BuildClaimTree(h, raw).value.leaves);
    assert Recorded(e.claims, BuildClaimTree(h, raw).value.leaves[i]);
  }

  /** The siblings behind the text of the i-th emitted proof; they climb to the root. */
  lemma EmittedProof(h: Hash, raw: seq<RawLeaf>, i: nat) returns (siblings: seq<Bytes32>)
    requires BuildClaimTree(h, raw).Some? && i < |raw|
    ensures ProofToBytes(AsText(BuildClaimTree(h, raw).value.leaves[i].proof)) == Some(siblings)
    ensures Climb(h, h(LeafBytes(Indexed(raw)[i])), siblings) == LayerRoot(h, Hashes(h, Indexed(raw)))
  {
    var hashes := Hashes(h, Indexed(raw));
    var k := LookUp(hashes, hashes[i]);
    siblings := ProofFor(h, hashes, k);
    Completeness(h, hashes, k);
    TextProofRoundTrip(siblings);
  }

  lemma TextProofRoundTrip(siblings: seq<Bytes32>)
    ensures ProofToBytes(AsText(HexProof(siblings))) == Some(siblings)
  {
    var proof := AsText(HexProof(siblings));
    forall k | 0 <= k < |siblings| ensures EntryBytes(proof[k]) == siblings[k] {
      Hex.StripEncoded(siblings[k]);
    }
    assert ProofToBytes(proof).value == siblings;
  }
}
