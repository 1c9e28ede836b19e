/** The bundle that publishes one epoch: fund the distributor's token account with the total and
    create the distributor with the root and both caps. */
module SaberBundle {
  import opened Bytes
  import opened Results
  import opened Merkle
  import opened ClaimTree
  import opened Storage
  import opened Epoch
  import opened SaberCodec
  import opened Sums
  import opened Reals
  import opened Rewards
  import opened Snapshot
  import Decimal
  import Hex

  datatype Ix =
    | CreateTokenAccount(payer: Pubkey, ata: Pubkey, owner: Pubkey)
    | TransferLamports(from: Pubkey, to: Pubkey, lamports: nat)
    | SyncNative(ata: Pubkey)
    | NewDistributor(base: Pubkey, payer: Pubkey, data: seq<byte>)

  datatype Bundle = Bundle(
    ixs: seq<Ix>, distributorPda: Pubkey, distributorWsolAta: Pubkey, totalLamports: nat, numNodes: nat)

  /** Address derivations, left abstract. */
  datatype Addresses = Addresses(distributorOf: Pubkey -> Pubkey, tokenAccountOf: Pubkey -> Pubkey)

  /** None when the builder throws: text that is no number, an empty pool, a root that is not 32
      bytes, or caps that do not fit the instruction. */
  function BuildBundle(addr: Addresses, vaultPda: Pubkey, base: Pubkey, e: EpochResult): Option<Bundle> {
    if !Decimal.AllDigits(e.totalLamports) then None
    else
      var total, nodes := Decimal.Value(e.totalLamports), |e.claims|;
      if total == 0 || nodes == 0 then None
      else
        var args := NewDistributorArgs(Hex.FromText(e.merkleRoot), total, nodes);
        if !NewDistributorOk(args) then None
        else
          var pda := addr.distributorOf(base);
          var ata := addr.tokenAccountOf(pda);
          Some(Bundle(
            [CreateTokenAccount(vaultPda, ata, pda),
             TransferLamports(vaultPda, ata, total),
             SyncNative(ata),
             NewDistributor(base, vaultPda, NewDistributorData(args))],
            pda, ata, total, nodes))
  }

  /** The publisher's test: skip what is already published or has nothing to pay. */
  predicate Skips(e: EpochResult) {
    e.saberDistributor.Some? || e.totalLamports == "0" || |e.claims| == 0
  }

  function RawLamports(): RawLeaf -> nat {
    (l: RawLeaf) => l.lamports
  }

  function Sum(raw: seq<RawLeaf>): nat {
    SumBy(raw, RawLamports())
  }

  lemma TotalOfEntries(entries: seq<Entry>, raw: seq<RawLeaf>)
    requires |entries| == |raw| && forall i :: 0 <= i < |raw| ==> entries[i].leaf.lamports == raw[i].lamports
    ensures TotalOf(entries) == Sum(raw)
  {
    SumByMatched(entries, raw, EntryLamports(), RawLamports());
  }

  /** What a record says about its leaves, in numbers. */
  lemma BuiltNumbers(h: Hash, e: EpochResult, raw: seq<RawLeaf>)
    requires Built(h, e, raw)
    ensures Decimal.AllDigits(e.totalLamports) && Decimal.Value(e.totalLamports) == Sum(raw)
    ensures |e.claims| == |raw|
    ensures Total(LamportsOf(e.claims)) == Sum(raw)
    ensures raw != [] ==> Hex.FromText(e.merkleRoot) == LayerRoot(h, Hashes(h, Indexed(raw)))
  {
    var entries := BuildClaimTree(h, raw).value.leaves;
    TotalOfEntries(entries, raw);
    ClaimsCountAndTotal(entries);
    if raw != [] {
      Hex.StripEncoded(LayerRoot(h, Hashes(h, Indexed(raw))));
    }
  }

  /** Run in order, the instructions open the wSOL account of the distributor that the last one
      creates, pay into it, make the payment count as tokens, and create the distributor. */
  predicate FundsItsDistributor(addr: Addresses, b: Bundle) {
    && |b.ixs| == 4 && b.ixs[3].NewDistributor? && b.ixs[1].TransferLamports?
    && var pda := addr.distributorOf(b.ixs[3].base);
    && var ata := addr.tokenAccountOf(pda);
    && var payer := b.ixs[3].payer;
    && b.ixs[0] == CreateTokenAccount(payer, ata, pda)
    && b.ixs[1].from == payer && b.ixs[1].to == ata
    && b.ixs[2] == SyncNative(ata)
    && b.distributorPda == pda && b.distributorWsolAta == ata
  }

  /** Who pays for which distributor, what is paid in, and what the distributor is created with. */
  ghost predicate CarriesCaps(addr: Addresses, payer: Pubkey, base: Pubkey, b: Bundle,
                              root: seq<byte>, total: nat, nodes: nat)
  {
    && FundsItsDistributor(addr, b)
    && b.ixs[3].payer == payer && b.ixs[3].base == base
    && b.totalLamports == total && b.numNodes == nodes
    && b.ixs[1].lamports == total
    && ReadNewDistributor(b.ixs[3].data) == Some(NewDistributorArgs(root, total, nodes))
  }

  /** The caps match the tree. An epoch that was built from `raw` and passes the skip test makes
      the builder throw exactly when the total or the leaf count exceeds 64 bits; otherwise the
      instructions fund the sum over all leaves and cap it and the leaf count, under the tree's root. */
  lemma CapsMatchTheTree(h: Hash, addr: Addresses, vaultPda: Pubkey, base: Pubkey, e: EpochResult, raw: seq<RawLeaf>)
    requires Built(h, e, raw) && !Skips(e)
    ensures raw != []
    ensures BuildBundle(addr, vaultPda, base, e).Some? <==> Sum(raw) <= U64_MAX && |raw| <= U64_MAX
    ensures BuildBundle(addr, vaultPda, base, e).Some? ==>
      CarriesCaps(addr, vaultPda, base, BuildBundle(addr, vaultPda, base, e).value,
                  LayerRoot(h, Hashes(h, Indexed(raw))), Sum(raw), |raw|)
  {
    BuiltNumbers(h, e, raw);
    assert e.totalLamports == Decimal.Print(Sum(raw)) by {
      TotalOfEntries(BuildClaimTree(h, raw).value.leaves, raw);
    }
    ZeroIsPrintedAsZero(Sum(raw));
    BundleOf(addr, vaultPda, base, e, LayerRoot(h, Hashes(h, Indexed(raw))), Sum(raw), |raw|);
  }

  lemma ZeroIsPrintedAsZero(n: nat)
    ensures Decimal.Print(n) == "0" <==> n == 0
  {
    assert Decimal.Print(0) == "0";
    Decimal.PrintInjective(n, 0);
  }

  /** The builder on a record with the given root, nonzero total and number of claims. */
  lemma BundleOf(addr: Addresses, vaultPda: Pubkey, base: Pubkey, e: EpochResult, root: Bytes32, total: nat, nodes: nat)
    requires Decimal.AllDigits(e.totalLamports) && Decimal.Value(e.totalLamports) == total > 0
    requires |e.claims| == nodes > 0 && Hex.FromText(e.merkleRoot) == root
    ensures BuildBundle(addr, vaultPda, base, e).Some? <==> total <= U64_MAX && nodes <= U64_MAX
    ensures BuildBundle(addr, vaultPda, base, e).Some? ==>
              CarriesCaps(addr, vaultPda, base, BuildBundle(addr, vaultPda, base, e).value, root, total, nodes)
  {
    var args := NewDistributorArgs(root, total, nodes);
    if NewDistributorOk(args) {
      NewDistributorRoundTrip(args);
    }
  }

  /** Market data whose pool fits in 64 bits never make the run or the builder throw: the record
      is made, and unless it is skipped its bundle is built. */
  lemma FittingPoolIsPublishable(h: Hash, pow: Power, params: RewardParams, market: Market,
                                 rows: seq<ParticipantInput>, times: Times, id: nat,
                                 addr: Addresses, vaultPda: Pubkey, base: Pubkey)
    requires PowerOk(pow) && ThresholdsOk(params) && market.solPriceUsd != 0.0 && DistinctWallets(rows)
    requires ToLamports(EpochSolPool(market.yieldfyMarketCapUsd, market.solPriceUsd, params).sol) <= U64_MAX
    requires |rows| <= U64_MAX
    ensures var r := MakeEpoch(h, pow, params, market, rows, times, id);
            r.Some? && (Skips(r.value) || BuildBundle(addr, vaultPda, base, r.value).Some?)
  {
    FittingPoolIsMade(h, pow, params, market, rows, times, id);
    var e := MakeEpoch(h, pow, params, market, rows, times, id).value;
    MadeEpochIsBuilt(h, pow, params, market, rows, times, id);
    MadeEpochIsDustBounded(h, pow, params, market, rows, times, id);
    MadeTotal(h, pow, params, market, rows, times, id, e);
    var raw := RawLeaves(Claimable(e.scores));
    assert e.poolLamports <= U64_MAX;
    hide MakeEpoch, Built, BuildBundle;
    if !Skips(e) {
      DustBoundedIsBuildable(h, addr, vaultPda, base, e, raw);
    }
  }

  /** A record within its pool can be published if that pool, and the number of claims, fit. */
  lemma DustBoundedIsBuildable(h: Hash, addr: Addresses, vaultPda: Pubkey, base: Pubkey, e: EpochResult,
                               raw: seq<RawLeaf>)
    requires Built(h, e, raw) && DustBounded(e) && !Skips(e)
    requires e.poolLamports <= U64_MAX && |raw| <= U64_MAX
    ensures BuildBundle(addr, vaultPda, base, e).Some?
  {
    hide BuildBundle;
    BuiltNumbers(h, e, raw);
    CapsMatchTheTree(h, addr, vaultPda, base, e, raw);
  }

  // ------------------------------------------------------------ the skip test is not enough

  const TWO_TO_64: real := 18446744073709551616.0

  /** Prices at which the pool is worth 2^64 lamports. */
  const HUGE_MARKET := Market(TWO_TO_64 / LAMPORTS_PER_SOL, 1.0, 1.0)

  const WHOLE_CAP := DEFAULT_REWARD_PARAMS.(distributionRatePerEpoch := 1.0)

  function TwoEqualRows(alice: Pubkey, bob: Pubkey): seq<ParticipantInput> {
    [ParticipantInput(alice, 1000.0, 1.0), ParticipantInput(bob, 1000.0, 1.0)]
  }

  lemma EqualShares(pow: Power, alice: Pubkey, bob: Pubkey)
    requires PowerOk(pow)
    ensures var pool := EpochSolPool(HUGE_MARKET.yieldfyMarketCapUsd, 1.0, WHOLE_CAP);
            var scores := DistributeEpoch(pow, TwoEqualRows(alice, bob), pool, 1.0, WHOLE_CAP);
            && |scores| == 2
            && (forall i :: 0 <= i < 2 ==>
                  IsClaimable(scores[i]) && ToLamports(scores[i].solReward) == 0x8000_0000_0000_0000)
            && scores[0].wallet == alice && scores[1].wallet == bob
  {
    var rows := TwoEqualRows(alice, bob);
    var score := ComputeScore(pow, rows[0], WHOLE_CAP);
    assert score > 0.0 by {
      DualGate(pow, rows[0], WHOLE_CAP);
    }
    var f := (p: ParticipantInput) => ComputeScore(pow, p, WHOLE_CAP);
    assert rows[..1] == [rows[0]] && [rows[0]][..0] == [];
    assert SumOf([rows[0]], f) == SumOf([rows[0]][..0], f) + score;
    assert SumOf(rows, f) == SumOf(rows[..1], f) + score == score + score;
    assert TotalScore(pow, rows, WHOLE_CAP) == SumOf(rows, f);
    HalfOf(score);
  }

  lemma HalfOf(x: real)
    requires x > 0.0
    ensures x / (x + x) == 0.5
  {
  }

  /** A market cap at which two equal holders earn 2^63 lamports each: both leaves are encodable,
      `runEpoch` stores the record, the record passes the skip test, and the builder throws. */
  lemma OversizedTotalThrows(h: Hash, pow: Power, addr: Addresses, vaultPda: Pubkey, base: Pubkey,
                             alice: Pubkey, bob: Pubkey, times: Times, id: nat)
    requires PowerOk(pow) && alice != bob
    ensures var r := MakeEpoch(h, pow, WHOLE_CAP, HUGE_MARKET, TwoEqualRows(alice, bob), times, id);
            r.Some? && !Skips(r.value) && BuildBundle(addr, vaultPda, base, r.value).None?
  {
    EqualShares(pow, alice, bob);
    var pool := EpochSolPool(HUGE_MARKET.yieldfyMarketCapUsd, 1.0, WHOLE_CAP);
    var scores := DistributeEpoch(pow, TwoEqualRows(alice, bob), pool, 1.0, WHOLE_CAP);
    BothClaim(scores);
    var raw := RawLeaves(scores);
    SumOfTwo(raw[0], raw[1]);
    assert raw == [raw[0], raw[1]];
    MadeEpochIsBuilt(h, pow, WHOLE_CAP, HUGE_MARKET, TwoEqualRows(alice, bob), times, id);
    var e := MakeEpoch(h, pow, WHOLE_CAP, HUGE_MARKET, TwoEqualRows(alice, bob), times, id).value;
    OversizedRecord(h, addr, vaultPda, base, e, raw);
  }

  lemma BothClaim(scores: seq<ParticipantScore>)
    requires |scores| == 2 && IsClaimable(scores[0]) && IsClaimable(scores[1])
    ensures Claimable(scores) == scores
  {
    assert scores[..1] == [scores[0]] && [scores[0]][..0] == [];
    assert Claimable([scores[0]]) == Claimable([scores[0]][..0]) + [scores[0]];
  }

  lemma OversizedRecord(h: Hash, addr: Addresses, vaultPda: Pubkey, base: Pubkey, e: EpochResult, raw: seq<RawLeaf>)
    requires Built(h, e, raw) && e.saberDistributor.None? && raw != [] && Sum(raw) > U64_MAX
    ensures !Skips(e) && BuildBundle(addr, vaultPda, base, e).None?
  {
    BuiltNumbers(h, e, raw);
    TotalOfEntries(BuildClaimTree(h, raw).value.leaves, raw);
    ZeroIsPrintedAsZero(Sum(raw));
    CapsMatchTheTree(h, addr, vaultPda, base, e, raw);
  }

  lemma SumOfTwo(a: RawLeaf, b: RawLeaf)
    ensures Sum([a, b]) == a.lamports + b.lamports
  {
    assert [a, b][..1] == [a] && [a][..0] == [];
    assert Sum([a]) == Sum([a][..0]) + a.lamports;
  }
}
