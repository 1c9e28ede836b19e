/** One reward epoch: snapshot, score, floor to lamports, build the claim tree, store. */
module Epoch {
  import opened Bytes
  import opened Results
  import opened Reals
  import opened Rewards
  import opened Snapshot
  import opened Merkle
  import opened ClaimTree
  import opened Storage
  import opened Sums
  import Decimal

  const LAMPORTS_PER_SOL := 1_000_000_000.0

  datatype Market = Market(yieldfyMarketCapUsd: real, solPriceUsd: real, wxrpPriceUsd: real)

  datatype Times = Times(startedAt: int, endedAt: int, slot: nat)

  function ToLamports(sol: real): int {
    (sol * LAMPORTS_PER_SOL).Floor
  }

  // ------------------------------------------------------------ from scores to leaves

  predicate IsClaimable(s: ParticipantScore) {
    s.eligible && s.solReward > 0.0
  }

  function Claimable(scores: seq<ParticipantScore>): (c: seq<ParticipantScore>)
    ensures forall i :: 0 <= i < |c| ==> IsClaimable(c[i])
  {
    if scores == [] then [] else
      var last := scores[|scores| - 1];
      Claimable(scores[..|scores| - 1]) + if IsClaimable(last) then [last] else []
  }

  /** `at` lists ascending positions, all those of claimable scores and no others. */
  ghost predicate Selects(scores: seq<ParticipantScore>, at: seq<nat>) {
    && (forall i, j :: 0 <= i < j < |at| ==> at[i] < at[j])
    && (forall k: nat :: k in at <==> k < |scores| && IsClaimable(scores[k]))
  }

  /** Exactly the claimable scores are kept, in their order, so that order decides the indices. */
  lemma {:induction false} ClaimableKeepsOrder(scores: seq<ParticipantScore>) returns (at: seq<nat>)
    ensures Selects(scores, at) && |at| == |Claimable(scores)|
    ensures forall i :: 0 <= i < |at| ==> at[i] in at && Claimable(scores)[i] == scores[at[i]]
  {
    if scores == [] {
      at := [];
    } else {
      hide Selects, IsClaimable;
      var front, last := scores[..|scores| - 1], |scores| - 1;
      var before := ClaimableKeepsOrder(front);
      at := if IsClaimable(scores[last]) then before + [last] else before;
      SelectsSnoc(scores, before);
      forall i | 0 <= i < |at| ensures at[i] in at && Claimable(scores)[i] == scores[at[i]] {
        SelectedBelow(front, before);
        if i < |before| {
          assert at[i] == before[i] && before[i] < |front|;
        }
      }
    }
  }

  lemma SelectedBelow(scores: seq<ParticipantScore>, at: seq<nat>)
    requires Selects(scores, at)
    ensures forall i :: 0 <= i < |at| ==> at[i] < |scores|
  {
    forall i | 0 <= i < |at| ensures at[i] < |scores| {
      assert at[i] in at;
    }
  }

  lemma SelectsSnoc(scores: seq<ParticipantScore>, before: seq<nat>)
    requires scores != [] && Selects(scores[..|scores| - 1], before)
    ensures Selects(scores, if IsClaimable(scores[|scores| - 1]) then before + [|scores| - 1] else before)
  {
    hide IsClaimable;
    SelectedBelow(scores[..|scores| - 1], before);
    var last := |scores| - 1;
    assert forall k: nat :: k < last ==> scores[k] == scores[..last][k];
  }

  function LeafOf(s: ParticipantScore): (l: RawLeaf)
    requires IsClaimable(s)
    ensures l == RawLeaf(s.wallet, ToLamports(s.solReward))
  {
    assert s.solReward * LAMPORTS_PER_SOL >= 0.0;
    RawLeaf(s.wallet, ToLamports(s.solReward))
  }

  function RawLeaves(c: seq<ParticipantScore>): (raw: seq<RawLeaf>)
    requires forall i :: 0 <= i < |c| ==> IsClaimable(c[i])
    ensures |raw| == |c| && forall i :: 0 <= i < |c| ==> raw[i] == LeafOf(c[i])
  {
    seq<RawLeaf>(|c|, i requires 0 <= i < |c| => LeafOf(c[i]))
  }

  // ------------------------------------------------------------ claims and total

  function ClaimOf(e: Entry): Claim {
    Claim(e.leaf.index, Decimal.Print(e.leaf.lamports), e.proof)
  }

  function ClaimsFrom(entries: seq<Entry>): map<Pubkey, Claim> {
    if entries == [] then map[] else
      var last := entries[|entries| - 1];
      ClaimsFrom(entries[..|entries| - 1])[last.leaf.wallet := ClaimOf(last)]
  }

  function EntryLamports(): Entry -> nat {
    (e: Entry) => e.leaf.lamports
  }

  function TotalOf(entries: seq<Entry>): nat {
    SumBy(entries, EntryLamports())
  }

  ghost predicate DistinctLeaves(entries: seq<Entry>) {
    forall i, j :: 0 <= i < j < |entries| ==> entries[i].leaf.wallet != entries[j].leaf.wallet
  }

  function LamportsOf(claims: map<Pubkey, Claim>): map<Pubkey, int> {
    map w | w in claims :: if Decimal.AllDigits(claims[w].lamports) then Decimal.Value(claims[w].lamports) else 0
  }

  predicate HasLeaf(entries: seq<Entry>, w: Pubkey) {
    exists i :: 0 <= i < |entries| && entries[i].leaf.wallet == w
  }

  predicate Recorded(claims: map<Pubkey, Claim>, e: Entry) {
    e.leaf.wallet in claims && claims[e.leaf.wallet] == ClaimOf(e)
  }

  /** With distinct wallets the wallet-keyed map is a bijection with the leaves: each leaf is
      found under its wallet, and there are no other keys. */
  lemma {:induction false} ClaimsAreTheLeaves(entries: seq<Entry>)
    requires DistinctLeaves(entries)
    ensures var claims := ClaimsFrom(entries);
      && (forall w :: w in claims <==> HasLeaf(entries, w))
      && (forall i :: 0 <= i < |entries| ==> Recorded(claims, entries[i]))
  {
    if entries != [] {
      var front, last := entries[..|entries| - 1], entries[|entries| - 1];
      ClaimsAreTheLeaves(front);
      forall i | 0 <= i < |front| ensures Recorded(ClaimsFrom(entries), entries[i]) {
        assert Recorded(ClaimsFrom(front), front[i]);
      }
      assert Recorded(ClaimsFrom(entries), last);
      forall w ensures HasLeaf(entries, w) <==> HasLeaf(front, w) || w == last.leaf.wallet {
        HasLeafSnoc(entries, w);
      }
    }
  }

  lemma HasLeafSnoc(entries: seq<Entry>, w: Pubkey)
    requires entries != []
    ensures HasLeaf(entries, w)
       <==> HasLeaf(entries[..|entries| - 1], w) || entries[|entries| - 1].leaf.wallet == w
  {
    var front := entries[..|entries| - 1];
    if HasLeaf(front, w) {
      var i :| 0 <= i < |front| && front[i].leaf.wallet == w;
      assert entries[i].leaf.wallet == w;
    }
    if HasLeaf(entries, w) && entries[|entries| - 1].leaf.wallet != w {
      var i :| 0 <= i < |entries| && entries[i].leaf.wallet == w;
      assert front[i].leaf.wallet == w;
    }
  }

  lemma LamportsOfUpdate(claims: map<Pubkey, Claim>, e: Entry)
    ensures LamportsOf(claims[e.leaf.wallet := ClaimOf(e)]) == LamportsOf(claims)[e.leaf.wallet := e.leaf.lamports]
  {
    assert Decimal.Value(ClaimOf(e).lamports) == e.leaf.lamports;
  }

  /** The key count is the leaf count and the amounts in the map sum to the total. */
  lemma {:induction false} ClaimsCountAndTotal(entries: seq<Entry>)
    requires DistinctLeaves(entries)
    ensures |ClaimsFrom(entries)| == |entries|
    ensures Total(LamportsOf(ClaimsFrom(entries))) == TotalOf(entries)
  {
    if entries != [] {
      var front, last := entries[..|entries| - 1], entries[|entries| - 1];
      var before, w := ClaimsFrom(front), last.leaf.wallet;
      ClaimsCountAndTotal(front);
      ClaimsAreTheLeaves(front);
      assert w !in before;
      TotalUpdate(LamportsOf(before), w, last.leaf.lamports);
      LamportsOfUpdate(before, last);
    }
  }

  // ------------------------------------------------------------ the epoch

  /** The record of an epoch from its snapshot rows. None when the run throws: no finite pool, or
      an amount that does not fit the leaf encoding. */
  function MakeEpoch(h: Hash, pow: Power, params: RewardParams, market: Market,
                     rows: seq<ParticipantInput>, times: Times, id: nat): Option<EpochResult>
  {
    if market.solPriceUsd == 0.0 then None else
      var pool := EpochSolPool(market.yieldfyMarketCapUsd, market.solPriceUsd, params);
      var scores := DistributeEpoch(pow, rows, pool, market.solPriceUsd, params);
      match BuildClaimTree(h, RawLeaves(Claimable(scores)))
      case None => None
      case Some(tree) => Some(EpochResult(
        id, times.startedAt, times.endedAt, times.slot,
        market.yieldfyMarketCapUsd, market.solPriceUsd, pool, ToLamports(pool.sol),
        tree.root, |rows|, scores, ClaimsFrom(tree.leaves), Decimal.Print(TotalOf(tree.leaves)),
        None, None, None))
  }

  /** `rows` joins the holdings and the positions found in the given accounts. */
  ghost predicate SnapshotOf(rows: seq<ParticipantInput>, tokenAccounts: seq<RawAccount>, divisor: real,
                             positionAccounts: seq<seq<byte>>, price: real)
    requires divisor > 0.0
    requires forall i :: 0 <= i < |positionAccounts| ==> |positionAccounts[i]| == POSITION_SIZE
  {
    exists holdings: Table, positions: seq<PositionRow> ::
      && Aggregates(holdings, Counted(tokenAccounts, divisor))
      && |positions| == |positionAccounts|
      && (forall i :: 0 <= i < |positions| ==> positions[i] == DecodePosition(positionAccounts[i]))
      && Joined(rows, holdings, positions, price)
  }

  /** The raw principal in a position account, of anybody or of `k`. */
  function Owed(): seq<byte> -> nat {
    (data: seq<byte>) => if |data| == POSITION_SIZE then FromLE(data[41..49]) else 0
  }

  function OwedTo(k: Pubkey): seq<byte> -> nat {
    (data: seq<byte>) => if |data| == POSITION_SIZE && data[8..40] == k.bytes then FromLE(data[41..49]) else 0
  }

  lemma OwedToOwner(positions: seq<PositionRow>, accounts: seq<seq<byte>>, k: Pubkey)
    requires |positions| == |accounts|
    requires forall i :: 0 <= i < |accounts| ==> |accounts[i]| == POSITION_SIZE
    requires forall i :: 0 <= i < |positions| ==> positions[i] == DecodePosition(accounts[i])
    ensures SumOf(AsCredits(positions), CreditTo(k)) == SumBy(accounts, OwedTo(k)) as real / 1_000_000.0
    ensures SumOf(AsCredits(positions), AmountOf()) == SumBy(accounts, Owed()) as real / 1_000_000.0
  {
    hide SumOf, SumBy, FromLE;
    var credits := AsCredits(positions);
    forall i | 0 <= i < |credits|
      ensures CreditTo(k)(credits[i]) == OwedTo(k)(accounts[i]) as real / 1_000_000.0
      ensures AmountOf()(credits[i]) == Owed()(accounts[i]) as real / 1_000_000.0
    {
      assert positions[i] == DecodePosition(accounts[i]);
    }
    SumOfQuotients(credits, accounts, CreditTo(k), OwedTo(k), 1_000_000.0);
    SumOfQuotients(credits, accounts, AmountOf(), Owed(), 1_000_000.0);
  }

  lemma PartsOfSnapshot(rows: seq<ParticipantInput>, tokenAccounts: seq<RawAccount>, divisor: real,
                        positionAccounts: seq<seq<byte>>, price: real)
    returns (holdings: Table, positions: seq<PositionRow>)
    requires divisor > 0.0
    requires forall i :: 0 <= i < |positionAccounts| ==> |positionAccounts[i]| == POSITION_SIZE
    requires SnapshotOf(rows, tokenAccounts, divisor, positionAccounts, price)
    ensures Aggregates(holdings, Counted(tokenAccounts, divisor)) && Joined(rows, holdings, positions, price)
    ensures |positions| == |positionAccounts|
    ensures forall i :: 0 <= i < |positions| ==> positions[i] == DecodePosition(positionAccounts[i])
  {
    hide Aggregates, Joined, DecodePosition;
    holdings, positions :|
      && Aggregates(holdings, Counted(tokenAccounts, divisor))
      && |positions| == |positionAccounts|
      && (forall i :: 0 <= i < |positions| ==> positions[i] == DecodePosition(positionAccounts[i]))
      && Joined(rows, holdings, positions, price);
  }

  lemma JoinedRow(rows: seq<ParticipantInput>, holdings: Table, positions: seq<PositionRow>, price: real, i: nat)
    requires Joined(rows, holdings, positions, price) && i < |rows|
    ensures rows[i].yieldfyHeld == holdings.Get(rows[i].wallet)
    ensures rows[i].vaultUsd == SumOf(AsCredits(positions), CreditTo(rows[i].wallet)) * price
  {
    hide SumOf;
  }

  lemma HeldIsRaw(rows: seq<ParticipantInput>, tokenAccounts: seq<RawAccount>, divisor: real,
                  holdings: Table, positions: seq<PositionRow>, price: real, i: nat)
    requires divisor > 0.0 && i < |rows|
    requires Aggregates(holdings, Counted(tokenAccounts, divisor)) && Joined(rows, holdings, positions, price)
    ensures rows[i].yieldfyHeld == SumBy(tokenAccounts, RawOf(rows[i].wallet)) as real / divisor
  {
    hide Aggregates, Joined, SumOf, SumBy, Counted;
    JoinedRow(rows, holdings, positions, price, i);
    AggregateAt(holdings, Counted(tokenAccounts, divisor), rows[i].wallet);
    CountedIsRaw(tokenAccounts, divisor, rows[i].wallet);
  }

  lemma UsdIsRaw(rows: seq<ParticipantInput>, holdings: Table, positions: seq<PositionRow>,
                 accounts: seq<seq<byte>>, price: real, i: nat)
    requires i < |rows| && Joined(rows, holdings, positions, price) && |positions| == |accounts|
    requires forall i :: 0 <= i < |accounts| ==> |accounts[i]| == POSITION_SIZE
    requires forall i :: 0 <= i < |positions| ==> positions[i] == DecodePosition(accounts[i])
    ensures rows[i].vaultUsd == price * (SumBy(accounts, OwedTo(rows[i].wallet)) as real / 1_000_000.0)
  {
    hide Joined, SumOf, SumBy, DecodePosition;
    var w := rows[i].wallet;
    JoinedRow(rows, holdings, positions, price, i);
    OwedToOwner(positions, accounts, w);
    SameFactor(price, rows[i].vaultUsd, SumOf(AsCredits(positions), CreditTo(w)),
               SumBy(accounts, OwedTo(w)) as real / 1_000_000.0);
  }

  /** A row in terms of the raw accounts: what the wallet's token accounts hold, in whole tokens,
      and what its position accounts are owed, in whole wXRP at the price. */
  lemma RowsAreRaw(rows: seq<ParticipantInput>, tokenAccounts: seq<RawAccount>, divisor: real,
                   positionAccounts: seq<seq<byte>>, price: real, i: nat)
    requires divisor > 0.0 && i < |rows|
    requires forall i :: 0 <= i < |positionAccounts| ==> |positionAccounts[i]| == POSITION_SIZE
    requires SnapshotOf(rows, tokenAccounts, divisor, positionAccounts, price)
    ensures rows[i].yieldfyHeld == SumBy(tokenAccounts, RawOf(rows[i].wallet)) as real / divisor
    ensures rows[i].vaultUsd == price * (SumBy(positionAccounts, OwedTo(rows[i].wallet)) as real / 1_000_000.0)
  {
    hide Aggregates, Joined, SumOf, SumBy, Counted, DecodePosition, SnapshotOf, RawOf, OwedTo;
    var holdings, positions := PartsOfSnapshot(rows, tokenAccounts, divisor, positionAccounts, price);
    HeldIsRaw(rows, tokenAccounts, divisor, holdings, positions, price, i);
    UsdIsRaw(rows, holdings, positions, positionAccounts, price, i);
  }

  lemma HeldConserves(rows: seq<ParticipantInput>, tokenAccounts: seq<RawAccount>, divisor: real,
                      holdings: Table, positions: seq<PositionRow>, price: real)
    requires divisor > 0.0
    requires Aggregates(holdings, Counted(tokenAccounts, divisor)) && Joined(rows, holdings, positions, price)
    ensures divisor * SumOf(rows, Held()) == SumBy(tokenAccounts, RawAmount()) as real
  {
    hide Aggregates, Joined, SumOf, SumBy, Counted;
    CountedIsRaw(tokenAccounts, divisor, Pubkey(seq(32, _ => 0)));
    JoinConservesHoldings(rows, holdings, Counted(tokenAccounts, divisor), positions, price);
    TimesDivisor(SumBy(tokenAccounts, RawAmount()) as real, SumOf(rows, Held()), divisor);
  }

  lemma UsdConserves(rows: seq<ParticipantInput>, holdings: Table, positions: seq<PositionRow>,
                     accounts: seq<seq<byte>>, price: real)
    requires Joined(rows, holdings, positions, price) && |positions| == |accounts|
    requires forall i :: 0 <= i < |accounts| ==> |accounts[i]| == POSITION_SIZE
    requires forall i :: 0 <= i < |positions| ==> positions[i] == DecodePosition(accounts[i])
    ensures SumOf(rows, Usd()) == price * (SumBy(accounts, Owed()) as real / 1_000_000.0)
  {
    hide Joined, SumOf, SumBy, DecodePosition;
    OwedToOwner(positions, accounts, Pubkey(seq(32, _ => 0)));
    JoinConservesValue(rows, holdings, positions, price);
    SameFactor(price, SumOf(rows, Usd()), SumOf(AsCredits(positions), AmountOf()),
               SumBy(accounts, Owed()) as real / 1_000_000.0);
  }

  /** Nothing is lost or scaled on the way: over all rows, holdings times the divisor are the raw
      balances that could be read, and the vault values are those of all raw principal. */
  lemma SnapshotConserves(rows: seq<ParticipantInput>, tokenAccounts: seq<RawAccount>, divisor: real,
                          positionAccounts: seq<seq<byte>>, price: real)
    requires divisor > 0.0
    requires forall i :: 0 <= i < |positionAccounts| ==> |positionAccounts[i]| == POSITION_SIZE
    requires SnapshotOf(rows, tokenAccounts, divisor, positionAccounts, price)
    ensures divisor * SumOf(rows, Held()) == SumBy(tokenAccounts, RawAmount()) as real
    ensures SumOf(rows, Usd()) == price * (SumBy(positionAccounts, Owed()) as real / 1_000_000.0)
  {
    hide Aggregates, Joined, SumOf, SumBy, Counted, DecodePosition, SnapshotOf, RawAmount, Owed;
    var holdings, positions := PartsOfSnapshot(rows, tokenAccounts, divisor, positionAccounts, price);
    HeldConserves(rows, tokenAccounts, divisor, holdings, positions, price);
    UsdConserves(rows, holdings, positions, positionAccounts, price);
  }

  lemma TimesDivisor(raw: real, q: real, divisor: real)
    requires divisor > 0.0 && q == raw / divisor
    ensures divisor * q == raw
  {
  }

  lemma SameFactor(price: real, total: real, x: real, y: real)
    requires total == price * x && x == y
    ensures total == price * y
  {
  }

  /** The loop over the tree's leaves that fills the claims and adds up the total. */
  method CollectClaims(leaves: seq<Entry>) returns (claims: map<Pubkey, Claim>, totalLamports: nat)
    ensures claims == ClaimsFrom(leaves) && totalLamports == TotalOf(leaves)
  {
    claims, totalLamports := map[], 0;
    for i := 0 to |leaves|
      invariant claims == ClaimsFrom(leaves[..i]) && totalLamports == TotalOf(leaves[..i])
    {
      var leaf, proof := leaves[i].leaf, leaves[i].proof;
      assert leaves[..i + 1][..i] == leaves[..i];
      claims := claims[leaf.wallet := Claim(leaf.index, Decimal.Print(leaf.lamports), proof)];
      totalLamports := totalLamports + leaf.lamports;
    }
    assert leaves[..|leaves|] == leaves;
  }

  lemma IsSnapshot(rows: seq<ParticipantInput>, tokenAccounts: seq<RawAccount>, divisor: real,
                   positionAccounts: seq<seq<byte>>, price: real, holdings: Table, positions: seq<PositionRow>)
    requires divisor > 0.0 && Aggregates(holdings, Counted(tokenAccounts, divisor))
    requires forall i :: 0 <= i < |positionAccounts| ==> |positionAccounts[i]| == POSITION_SIZE
    requires |positions| == |positionAccounts|
    requires forall i :: 0 <= i < |positions| ==> positions[i] == DecodePosition(positionAccounts[i])
    requires Joined(rows, holdings, positions, price)
    ensures SnapshotOf(rows, tokenAccounts, divisor, positionAccounts, price)
  {
  }

  /** One call is one distribution cycle; it writes exactly the epoch it returns, under the next
      free id, or throws and writes nothing. */
  method RunEpoch(storage: EpochStorage, h: Hash, pow: Power, params: RewardParams, market: Option<Market>,
                  tokenAccounts: seq<RawAccount>, divisor: real, positionAccounts: seq<seq<byte>>,
                  times: Times, names: seq<string>)
    returns (r: Option<EpochResult>, ghost rows: seq<ParticipantInput>)
    requires divisor > 0.0 && IsListing(names, storage.files)
    requires forall i :: 0 <= i < |positionAccounts| ==> |positionAccounts[i]| == POSITION_SIZE
    modifies storage
    ensures DistinctWallets(rows)
    ensures market.None? ==> r == None && rows == []
    ensures market.Some? ==>
      && SnapshotOf(rows, tokenAccounts, divisor, positionAccounts, market.value.wxrpPriceUsd)
      && r == MakeEpoch(h, pow, params, market.value, rows, times, NextEpochId(names))
    ensures storage.files == if r.Some? then Written(old(storage.files), r.value) else old(storage.files)
  {
    if market.None? {
      rows := [];
      return None, rows;
    }
    var m := market.value;
    var holdings := FetchTokenHoldings(tokenAccounts, divisor);
    var positions := FetchVaultPositions(positionAccounts);
    var participants := BuildParticipants(holdings, positions, m.wxrpPriceUsd);
    rows := participants;
    IsSnapshot(rows, tokenAccounts, divisor, positionAccounts, m.wxrpPriceUsd, holdings, positions);
    if m.solPriceUsd == 0.0 {
      return None, rows;
    }
    var pool := EpochSolPool(m.yieldfyMarketCapUsd, m.solPriceUsd, params);
    var scores := DistributeEpoch(pow, participants, pool, m.solPriceUsd, params);
    var tree := BuildClaimTree(h, RawLeaves(Claimable(scores)));
    if tree.None? {
      return None, rows;
    }
    var claims, totalLamports := CollectClaims(tree.value.leaves);
    var result := EpochResult(
      NextEpochId(names), times.startedAt, times.endedAt, times.slot,
      m.yieldfyMarketCapUsd, m.solPriceUsd, pool, ToLamports(pool.sol),
      tree.value.root, |participants|, scores, claims, Decimal.Print(totalLamports),
      None, None, None);
    storage.Write(result);
    return Some(result), rows;
  }

  // ------------------------------------------------------------ wallets stay distinct

  ghost predicate DistinctScores(scores: seq<ParticipantScore>) {
    forall i, j :: 0 <= i < j < |scores| ==> scores[i].wallet != scores[j].wallet
  }

  predicate Scored(scores: seq<ParticipantScore>, w: Pubkey) {
    exists i :: 0 <= i < |scores| && scores[i].wallet == w
  }

  /** Filtering keeps wallets distinct and invents none. */
  lemma {:induction false} ClaimableKeepsDistinct(scores: seq<ParticipantScore>)
    requires DistinctScores(scores)
    ensures DistinctScores(Claimable(scores))
    ensures forall i :: 0 <= i < |Claimable(scores)| ==> Scored(scores, Claimable(scores)[i].wallet)
  {
    if scores != [] {
      var front, last := scores[..|scores| - 1], scores[|scores| - 1];
      ClaimableKeepsDistinct(front);
      var c := Claimable(front);
      forall i | 0 <= i < |c| ensures c[i].wallet != last.wallet && Scored(scores, c[i].wallet) {
        var k :| 0 <= k < |front| && front[k].wallet == c[i].wallet;
        assert scores[k].wallet == c[i].wallet;
      }
      assert Scored(scores, last.wallet);
    }
  }

  /** What the record keeps of the run: when and at which slot, the prices it was made with, the pool
      they give, how many rows and which scores. */
  lemma RecordKeepsTheRun(h: Hash, pow: Power, params: RewardParams, market: Market,
                          rows: seq<ParticipantInput>, times: Times, id: nat, e: EpochResult)
    requires MakeEpoch(h, pow, params, market, rows, times, id) == Some(e)
    ensures e.epochId == id && e.snapshotSlot == times.slot
    ensures e.startedAt == times.startedAt && e.endedAt == times.endedAt
    ensures e.marketCapUsd == market.yieldfyMarketCapUsd && e.solPriceUsd == market.solPriceUsd != 0.0
    ensures e.pool.usd == e.marketCapUsd * params.distributionRatePerEpoch == e.pool.sol * e.solPriceUsd
    ensures e.participants == |rows| == |e.scores|
    ensures forall i :: 0 <= i < |rows| ==> e.scores[i].wallet == rows[i].wallet
    ensures e.saberDistributor.None? && e.saberDistributorBase.None? && e.saberPublishedAt.None?
  {
    hide BuildClaimTree, ClaimsFrom, Claimable, SumOf, ComputeScore;
    BackToSol(market.yieldfyMarketCapUsd * params.distributionRatePerEpoch, market.solPriceUsd);
  }

  lemma BackToSol(usd: real, price: real)
    requires price != 0.0
    ensures usd / price * price == usd
  {
  }

  /** What an epoch record says about the tree it was made from; publishing does not touch it. */
  ghost predicate Built(h: Hash, e: EpochResult, raw: seq<RawLeaf>) {
    var tree := BuildClaimTree(h, raw);
    && tree.Some?
    && DistinctLeaves(tree.value.leaves)
    && e.merkleRoot == tree.value.root
    && e.claims == ClaimsFrom(tree.value.leaves)
    && e.totalLamports == Decimal.Print(TotalOf(tree.value.leaves))
  }

  lemma MadeEpochIsBuilt(h: Hash, pow: Power, params: RewardParams, market: Market,
                         rows: seq<ParticipantInput>, times: Times, id: nat)
    requires DistinctWallets(rows) && MakeEpoch(h, pow, params, market, rows, times, id).Some?
    ensures var e := MakeEpoch(h, pow, params, market, rows, times, id).value;
            && e.epochId == id && e.saberDistributor.None?
            && Built(h, e, RawLeaves(Claimable(e.scores)))
  {
    var e := MakeEpoch(h, pow, params, market, rows, times, id).value;
    ScoresKeepDistinct(pow, rows, e.pool, market.solPriceUsd, params);
    hide DistributeEpoch;
    ClaimableKeepsDistinct(e.scores);
    DistinctLeavesOf(h, Claimable(e.scores));
    hide BuildClaimTree, Claimable, RawLeaves, DistinctLeaves, ClaimsFrom, TotalOf;
  }

  lemma ScoresKeepDistinct(pow: Power, rows: seq<ParticipantInput>, pool: Pool, price: real, params: RewardParams)
    requires DistinctWallets(rows)
    ensures DistinctScores(DistributeEpoch(pow, rows, pool, price, params))
  {
    var scores := DistributeEpoch(pow, rows, pool, price, params);
    forall i | 0 <= i < |rows| ensures scores[i].wallet == rows[i].wallet {
    }
  }

  lemma DistinctLeavesOf(h: Hash, c: seq<ParticipantScore>)
    requires DistinctScores(c) && forall i :: 0 <= i < |c| ==> IsClaimable(c[i])
    requires BuildClaimTree(h, RawLeaves(c)).Some?
    ensures DistinctLeaves(BuildClaimTree(h, RawLeaves(c)).value.leaves)
  {
    hide BuildClaimTree;
  }

  // ------------------------------------------------------------ conservation

  function Lamports(): ParticipantScore -> nat {
    (s: ParticipantScore) => if s.solReward > 0.0 then LamportsOfReward(s.solReward) else 0
  }

  function LamportsOfReward(sol: real): (n: nat)
    requires sol > 0.0
    ensures n == ToLamports(sol)
  {
    assert sol * LAMPORTS_PER_SOL >= 0.0;
    ToLamports(sol)
  }

  function RewardLamports(): ParticipantScore -> real {
    (s: ParticipantScore) => s.solReward * LAMPORTS_PER_SOL
  }

  lemma {:induction false} ClaimableKeepsTheSum(scores: seq<ParticipantScore>)
    requires forall i :: 0 <= i < |scores| && !IsClaimable(scores[i]) ==> scores[i].solReward == 0.0
    ensures SumOf(Claimable(scores), SolReward()) == SumOf(scores, SolReward())
  {
    if scores != [] {
      var front, last := scores[..|scores| - 1], scores[|scores| - 1];
      ClaimableKeepsTheSum(front);
      if IsClaimable(last) {
        assert Claimable(scores) == Claimable(front) + [last];
        assert Claimable(scores)[..|Claimable(scores)| - 1] == Claimable(front);
      } else {
        assert Claimable(scores) == Claimable(front);
      }
    }
  }

  /** As soon as anybody can claim, the claimable rewards are the whole pool. */
  lemma ClaimableIsThePool(pow: Power, params: RewardParams, rows: seq<ParticipantInput>, pool: Pool, price: real)
    requires PowerOk(pow) && ThresholdsOk(params)
    requires Claimable(DistributeEpoch(pow, rows, pool, price, params)) != []
    ensures SumOf(Claimable(DistributeEpoch(pow, rows, pool, price, params)), SolReward()) == pool.sol
  {
    var scores := DistributeEpoch(pow, rows, pool, price, params);
    forall i | 0 <= i < |rows| ensures EligiblePays(scores[i], pool.sol) {
      SharesInRange(pow, rows, pool, price, params, i);
    }
    SomeClaimable(scores, pool.sol);
    ClaimableKeepsTheSum(scores);
    SharesSumToOne(pow, rows, pool, price, params);
  }

  /** A score's reward is a positive fraction of the pool if eligible and zero otherwise. */
  predicate EligiblePays(s: ParticipantScore, sol: real) {
    && (s.eligible ==> (s.solReward > 0.0 <==> sol > 0.0))
    && (!s.eligible ==> s.solReward == 0.0)
  }

  lemma {:induction false} SomeClaimable(scores: seq<ParticipantScore>, sol: real)
    requires Claimable(scores) != []
    requires forall i :: 0 <= i < |scores| ==> EligiblePays(scores[i], sol)
    ensures sol > 0.0 && AnyEligible(scores)
  {
    var front, last := scores[..|scores| - 1], scores[|scores| - 1];
    if IsClaimable(last) {
      assert scores[|scores| - 1].eligible;
    } else {
      SomeClaimable(front, sol);
      var i :| 0 <= i < |front| && front[i].eligible;
      assert scores[i].eligible;
    }
  }

  /** Lamports are conserved up to dust: what an epoch lets be claimed never exceeds the pool in
      whole lamports and, with n >= 1 claimants, falls short of it by at most n - 1. */
  lemma LamportConservation(h: Hash, pow: Power, params: RewardParams, market: Market,
                            rows: seq<ParticipantInput>, times: Times, id: nat)
    requires PowerOk(pow) && ThresholdsOk(params)
    requires MakeEpoch(h, pow, params, market, rows, times, id).Some?
    ensures var e := MakeEpoch(h, pow, params, market, rows, times, id).value;
            var n := |Claimable(e.scores)|;
            && (n == 0 ==> e.totalLamports == "0")
            && (n > 0 ==> Decimal.Value(e.totalLamports) <= e.poolLamports <= Decimal.Value(e.totalLamports) + n - 1)
  {
    var e := MakeEpoch(h, pow, params, market, rows, times, id).value;
    var c := Claimable(e.scores);
    MadeTotal(h, pow, params, market, rows, times, id, e);
    hide MakeEpoch, DistributeEpoch, Claimable, SumOf;
    if c != [] {
      ClaimableIsThePool(pow, params, rows, e.pool, market.solPriceUsd);
      FlooredRewards(c, e.pool.sol);
    }
  }

  /** The numbers of a new record in terms of its scores. */
  lemma MadeTotal(h: Hash, pow: Power, params: RewardParams, market: Market,
                  rows: seq<ParticipantInput>, times: Times, id: nat, e: EpochResult)
    requires MakeEpoch(h, pow, params, market, rows, times, id) == Some(e)
    ensures market.solPriceUsd != 0.0
    ensures e.scores == DistributeEpoch(pow, rows, e.pool, market.solPriceUsd, params)
    ensures Decimal.AllDigits(e.totalLamports)
    ensures Decimal.Value(e.totalLamports) == SumBy(Claimable(e.scores), Lamports())
    ensures Claimable(e.scores) == [] ==> e.totalLamports == "0"
    ensures e.poolLamports == ToLamports(e.pool.sol)
  {
    hide DistributeEpoch, SumOf, BuildClaimTree;
    var c := Claimable(e.scores);
    TotalIsSumOfLamports(c, BuildClaimTree(h, RawLeaves(c)).value.leaves);
    hide SumBy;
  }

  lemma TotalIsSumOfLamports(c: seq<ParticipantScore>, entries: seq<Entry>)
    requires |entries| == |c| && forall i :: 0 <= i < |c| ==> IsClaimable(c[i])
    requires forall i :: 0 <= i < |c| ==> entries[i].leaf.lamports == ToLamports(c[i].solReward)
    ensures TotalOf(entries) == SumBy(c, Lamports())
    ensures c == [] ==> TotalOf(entries) == 0
  {
    SumByMatched(entries, c, EntryLamports(), Lamports());
  }

  lemma FlooredRewards(c: seq<ParticipantScore>, sol: real)
    requires c != [] && SumOf(c, SolReward()) == sol
    requires forall i :: 0 <= i < |c| ==> IsClaimable(c[i])
    ensures SumBy(c, Lamports()) <= ToLamports(sol) <= SumBy(c, Lamports()) + |c| - 1
  {
    SumOfScaled(c, SolReward(), RewardLamports(), LAMPORTS_PER_SOL);
    FlooredTerms(c, RewardLamports(), Lamports());
  }

  /** The record's own total and claims stay within its pool, up to less than a lamport each. */
  predicate DustBounded(e: EpochResult) {
    && Decimal.AllDigits(e.totalLamports)
    && var total := Decimal.Value(e.totalLamports);
    && (|e.claims| == 0 ==> e.totalLamports == "0")
    && (|e.claims| > 0 ==> total <= e.poolLamports <= total + |e.claims| - 1)
  }

  lemma MadeEpochIsDustBounded(h: Hash, pow: Power, params: RewardParams, market: Market,
                               rows: seq<ParticipantInput>, times: Times, id: nat)
    requires PowerOk(pow) && ThresholdsOk(params)
    requires DistinctWallets(rows) && MakeEpoch(h, pow, params, market, rows, times, id).Some?
    ensures DustBounded(MakeEpoch(h, pow, params, market, rows, times, id).value)
  {
    hide MakeEpoch, BuildClaimTree, DistributeEpoch, Claimable, ClaimsFrom;
    var e := MakeEpoch(h, pow, params, market, rows, times, id).value;
    MadeTotal(h, pow, params, market, rows, times, id, e);
    MadeEpochIsBuilt(h, pow, params, market, rows, times, id);
    LamportConservation(h, pow, params, market, rows, times, id);
    ClaimsCountAndTotal(BuildClaimTree(h, RawLeaves(Claimable(e.scores))).value.leaves);
  }

  /** A claimable reward is no larger than the pool. */
  lemma RewardWithinPool(pow: Power, params: RewardParams, rows: seq<ParticipantInput>, pool: Pool, price: real,
                         i: nat)
    requires PowerOk(pow) && ThresholdsOk(params) && i < |rows|
    requires IsClaimable(DistributeEpoch(pow, rows, pool, price, params)[i])
    ensures ToLamports(DistributeEpoch(pow, rows, pool, price, params)[i].solReward) <= ToLamports(pool.sol)
  {
    SharesInRange(pow, rows, pool, price, params, i);
    hide DistributeEpoch, ToLamports, ScoreOf, ComputeScore, SumOf, PowerOk;
    var s := DistributeEpoch(pow, rows, pool, price, params)[i];
    PartOfPool(pool.sol, s.share, s.solReward);
  }

  lemma PartOfPool(sol: real, share: real, reward: real)
    requires 0.0 <= share <= 1.0 && reward == sol * share && reward > 0.0
    ensures ToLamports(reward) <= ToLamports(sol)
  {
    SignOfProduct(sol, share);
    SignOfProduct(sol, 1.0 - share);
    assert sol * (1.0 - share) == sol - sol * share;
  }

  lemma SignOfProduct(x: real, y: real)
    requires y >= 0.0
    ensures x <= 0.0 ==> x * y <= 0.0
    ensures x >= 0.0 ==> x * y >= 0.0
  {
  }

  lemma {:induction false} ClaimableAreScores(scores: seq<ParticipantScore>)
    ensures forall s :: s in Claimable(scores) ==> s in scores && IsClaimable(s)
    ensures |Claimable(scores)| <= |scores|
  {
    if scores != [] {
      ClaimableAreScores(scores[..|scores| - 1]);
    }
  }

  /** A condition known before the run: if the pool and the number of rows fit in 64 bits, every
      leaf can be encoded and the epoch is made. */
  lemma FittingPoolIsMade(h: Hash, pow: Power, params: RewardParams, market: Market,
                          rows: seq<ParticipantInput>, times: Times, id: nat)
    requires PowerOk(pow) && ThresholdsOk(params) && market.solPriceUsd != 0.0
    requires ToLamports(EpochSolPool(market.yieldfyMarketCapUsd, market.solPriceUsd, params).sol) <= U64_MAX
    requires |rows| <= U64_MAX
    ensures MakeEpoch(h, pow, params, market, rows, times, id).Some?
    ensures |Claimable(MakeEpoch(h, pow, params, market, rows, times, id).value.scores)| <= U64_MAX
  {
    var pool := EpochSolPool(market.yieldfyMarketCapUsd, market.solPriceUsd, params);
    var scores := DistributeEpoch(pow, rows, pool, market.solPriceUsd, params);
    var c := Claimable(scores);
    ClaimableAreScores(scores);
    forall i | 0 <= i < |c| ensures Encodable(Indexed(RawLeaves(c))[i]) {
      assert c[i] in c;
      var k :| 0 <= k < |scores| && scores[k] == c[i];
      RewardWithinPool(pow, params, rows, pool, market.solPriceUsd, k);
    }
  }
}
