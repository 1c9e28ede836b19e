/** Inputs on which the intended equalities of the vault fail: one cluster, and short runs from
    before `initialize` on it. */
module VaultWitness {
  import opened Bytes
  import opened Results
  import opened Sums
  import opened Token
  import opened Attestation
  import opened VaultModel
  import opened VaultSafety
  import opened VaultEntry
  import opened VaultExit
  import opened VaultReceipts
  import opened VaultGovernance
  import VaultHoldings

  // ------------------------------------------------ one step from any state

  /** wXRP sent to the vault raises what it holds over what it owes by exactly as much. */
  lemma DonationRaisesSurplus(s: State, from: Pubkey, n: u64)
    requires Inv(s) && s.config.Some? && OthersMayDebit(s, s.wxrp, from) && n <= s.wxrp.accounts[from].amount
    ensures var o := Apply(s, MoveWxrp(from, s.pdas.vault, n), Saturating);
            o.result == Ok && Surplus(o.state) == Surplus(s) + n
  {
    TransferSound(s.wxrp, from, s.pdas.vault, n, OthersMayDebit(s, s.wxrp, from));
    EveryStepIsSafe(s, MoveWxrp(from, s.pdas.vault, n));
  }

  /** yXRP burned by its holder lowers the supply below the recorded receipts by as much. */
  lemma BurnRaisesShortfall(s: State, from: Pubkey, n: u64)
    requires Inv(s) && OthersMayDebit(s, s.yxrp, from) && n <= s.yxrp.accounts[from].amount
    ensures var o := Apply(s, BurnYxrp(from, n), Saturating);
            o.result == Ok && Shortfall(o.state) == Shortfall(s) + n
  {
    BurnSound(s.yxrp, from, n, OthersMayDebit(s, s.yxrp, from));
    EveryStepIsSafe(s, BurnYxrp(from, n));
  }

  /** A withdrawal that names the vault as its destination debits the position and pays nobody. */
  lemma PayingTheVaultRaisesSurplus(s: State, ix: WithdrawIx)
    requires Inv(s) && ApplyWithdraw(s, ix, Saturating).result == Ok && ix.userWxrp == s.pdas.vault
    ensures var t := ApplyWithdraw(s, ix, Saturating).state;
            VaultBalance(t) == VaultBalance(s) && Surplus(t) == Surplus(s) + ix.amount
  {
    hide ApplyWithdraw;
    EveryStepIsSafe(s, Withdraw(ix));
    PaysItself(s, ix);
  }

  lemma PaysItself(s: State, ix: WithdrawIx)
    requires ApplyWithdraw(s, ix, Saturating).result == Ok && ix.userWxrp == s.pdas.vault
    ensures var t := ApplyWithdraw(s, ix, Saturating).state; t.wxrp == s.wxrp && t.pdas == s.pdas
  {
  }

  // ------------------------------------------------ a cluster

  /** Alice has a wXRP account and a receipt account, Bob has a receipt account. */
  datatype Cast = Cast(
    pdas: Pdas, attestor: Pubkey, alice: Pubkey, bob: Pubkey,
    wallet: Pubkey, receipt: Pubkey, bobReceipt: Pubkey)

  predicate Distinct(c: Cast) {
    && c.alice != c.pdas.config && c.bob != c.pdas.config && c.alice != c.bob
    && c.wallet != c.pdas.vault && c.receipt != c.bobReceipt
  }

  const STAKE: u64 := 5

  function Cluster(c: Cast): State {
    State(c.pdas, None, map[],
          Ledger(STAKE + STAKE, map[c.wallet := Holding(c.alice, STAKE + STAKE)]),
          Ledger(0, map[c.receipt := Holding(c.alice, 0), c.bobReceipt := Holding(c.bob, 0)]))
  }

  function Start(c: Cast): Step {
    Initialize(InitializeIx(c.alice, c.wallet, c.receipt, c.attestor, STAKE, 100, 255))
  }

  function Attested(c: Cast): SignedAttestation {
    SignedAttestation(0, 1, seq(64, _ => 0), c.attestor)
  }

  function Staking(c: Cast, receipt: Pubkey): DepositIx {
    var pre := PreInstruction(seq(16, _ => 0), Attested(c));
    DepositIx(c.alice, c.wallet, receipt, KAMINO_PROGRAM_ID, STAKE, 1, 0, false,
              Context(IX_SYSVAR_ID, [pre], 1), 0, 255)
  }

  function Leaving(c: Cast, from: Pubkey, to: Pubkey): WithdrawIx {
    WithdrawIx(c.alice, from, to, STAKE, false, 0)
  }

  lemma ClusterIsGenesis(c: Cast)
    requires Distinct(c)
    ensures Genesis(Cluster(c))
  {
    var s := Cluster(c);
    var none: Ledger := Ledger(0, map[]);
    assert Balances(none) == map[];
    TotalUpdate(map[], c.wallet, STAKE + STAKE);
    assert Balances(s.wxrp) == map[][c.wallet := STAKE + STAKE];
    TotalUpdate(map[], c.receipt, 0);
    TotalUpdate(map[c.receipt := 0], c.bobReceipt, 0);
    assert Balances(s.yxrp) == map[c.receipt := 0][c.bobReceipt := 0];
  }

  function Begun(c: Cast): State {
    Apply(Cluster(c), Start(c), Saturating).state
  }

  lemma Beginning(c: Cast)
    requires Distinct(c)
    ensures Inv(Begun(c)) && Begun(c).config.Some? && Surplus(Begun(c)) == Shortfall(Begun(c)) == 0
    ensures OthersMayDebit(Begun(c), Begun(c).wxrp, c.wallet)
         && Begun(c).wxrp.accounts[c.wallet].amount == STAKE + STAKE
  {
    ClusterIsGenesis(c);
    GenesisInv(Cluster(c));
    EveryStepIsSafe(Cluster(c), Start(c));
  }

  lemma AttestationIsGood(c: Cast, receipt: Pubkey)
    ensures Verdict(Staking(c, receipt).ctx, c.attestor, 0, 1, 100) == Ok
  {
    var att, header := Attested(c), seq(16, _ => 0);
    assert [] + [PreInstruction(header, att)] + [] == [PreInstruction(header, att)];
    EncodingIsAccepted([], header, att, [], 1, c.attestor, 0, 1, 100);
  }

  function Staked(c: Cast, receipt: Pubkey): State {
    ApplyDeposit(Begun(c), Staking(c, receipt), Saturating).state
  }

  /** Alice's deposit goes through, into her own receipt account or Bob's. */
  lemma StakingSucceeds(c: Cast, receipt: Pubkey)
    requires Distinct(c) && (receipt == c.receipt || receipt == c.bobReceipt)
    ensures ApplyDeposit(Begun(c), Staking(c, receipt), Saturating).result == Ok
    ensures var t := Staked(c, receipt);
            && Inv(t) && t.config.Some? && t.pdas == c.pdas && Surplus(t) == Shortfall(t) == 0
            && c.alice in t.positions && t.positions[c.alice].receiptSupply == STAKE
            && receipt in t.yxrp.accounts && t.yxrp.accounts[receipt].amount == STAKE
            && t.yxrp.accounts[receipt].owner == (if receipt == c.receipt then c.alice else c.bob)
  {
    var s, ix := Begun(c), Staking(c, receipt);
    Beginning(c);
    AttestationIsGood(c, receipt);
    hide Verdict, KAMINO_PROGRAM_ID, ApplyDeposit;
    DepositSucceedsExactly(s, ix);
    DepositMovesExactly(s, ix);
    EveryStepIsSafe(s, Deposit(ix));
    assert Apply(s, Deposit(ix), Saturating) == ApplyDeposit(s, ix, Saturating);
  }

  lemma RunTwo(s: State, a: Step, b: Step)
    ensures Run(s, [a, b], Saturating) == Apply(Apply(s, a, Saturating).state, b, Saturating).state
  {
    hide Apply;
    var t := Apply(s, a, Saturating).state;
    assert [a, b][1..] == [b] && [b][1..] == [];
    assert Run(t, [b], Saturating) == Apply(t, b, Saturating).state;
  }

  lemma RunThree(s: State, a: Step, b: Step, c: Step)
    ensures Run(s, [a, b, c], Saturating)
         == Apply(Apply(Apply(s, a, Saturating).state, b, Saturating).state, c, Saturating).state
  {
    hide Apply;
    assert [a, b, c][1..] == [b, c];
    RunTwo(Apply(s, a, Saturating).state, b, c);
  }

  // ------------------------------------------------ what fails

  /** The authority is not for ever that of `initialize`: Alice hands over to Bob, who can pause
      from then on, while she no longer can. */
  lemma AuthorityChanges(c: Cast)
    requires Distinct(c)
    ensures Genesis(Cluster(c))
    ensures var t := Run(Cluster(c), [Start(c), RotateAuthority(c.alice, c.bob)], Saturating);
            && Governs(Begun(c), c.alice) && Governs(t, c.bob)
            && Apply(t, SetPaused(c.bob, true), Saturating).result == Ok
            && Apply(t, SetPaused(c.alice, true), Saturating).result == Err(BadAttestor)
  {
    ClusterIsGenesis(c);
    RunTwo(Cluster(c), Start(c), RotateAuthority(c.alice, c.bob));
    Beginning(c);
    var s := Begun(c);
    assert s.config.value.authority == c.alice;
    AdminStepIsExact(s, RotateAuthority(c.alice, c.bob));
    var t := Apply(s, RotateAuthority(c.alice, c.bob), Saturating).state;
    AdminStepIsExact(t, SetPaused(c.bob, true));
    AdminStepIsExact(t, SetPaused(c.alice, true));
  }

  /** The watcher's first equality fails after a donation. */
  lemma DonationBreaksTheFirstEquality(c: Cast)
    requires Distinct(c)
    ensures Genesis(Cluster(c))
    ensures var t := Run(Cluster(c), [Start(c), MoveWxrp(c.wallet, c.pdas.vault, STAKE)], Saturating);
            VaultBalance(t) == SumPrincipal(t) + STAKE
  {
    ClusterIsGenesis(c);
    Beginning(c);
    RunTwo(Cluster(c), Start(c), MoveWxrp(c.wallet, c.pdas.vault, STAKE));
    DonationRaisesSurplus(Begun(c), c.wallet, STAKE);
  }

  /** The second fails after a holder burns receipts. */
  lemma BurnBreaksTheSecondEquality(c: Cast)
    requires Distinct(c)
    ensures Genesis(Cluster(c))
    ensures var steps := [Start(c), Deposit(Staking(c, c.receipt)), BurnYxrp(c.receipt, STAKE)];
            var t := Run(Cluster(c), steps, Saturating);
            SumReceipts(t) == t.yxrp.supply + STAKE
  {
    ClusterIsGenesis(c);
    hide Verdict, KAMINO_PROGRAM_ID, ApplyDeposit;
    StakingSucceeds(c, c.receipt);
    RunThree(Cluster(c), Start(c), Deposit(Staking(c, c.receipt)), BurnYxrp(c.receipt, STAKE));
    BurnRaisesShortfall(Staked(c, c.receipt), c.receipt, STAKE);
  }

  /** The first also fails with deposits and withdrawals alone, by a withdrawal to the vault. */
  lemma PayingTheVaultBreaksTheFirstEquality(c: Cast)
    requires Distinct(c)
    ensures Genesis(Cluster(c))
    ensures var steps := [Start(c), Deposit(Staking(c, c.receipt)), Withdraw(Leaving(c, c.receipt, c.pdas.vault))];
            var t := Run(Cluster(c), steps, Saturating);
            VaultBalance(t) == SumPrincipal(t) + STAKE
  {
    ClusterIsGenesis(c);
    var s, ix := Staked(c, c.receipt), Leaving(c, c.receipt, c.pdas.vault);
    StakingSucceeds(c, c.receipt);
    RunThree(Cluster(c), Start(c), Deposit(Staking(c, c.receipt)), Withdraw(ix));
    hide Verdict, KAMINO_PROGRAM_ID, ApplyDeposit, ApplyWithdraw;
    WithdrawSucceedsExactly(s, ix);
    PayingTheVaultRaisesSurplus(s, ix);
  }

  /** A position and its user's receipts differ after a single deposit, into another's receipt
      account, and from there the depositor cannot withdraw what was deposited. */
  lemma DepositElsewhere(c: Cast)
    requires Distinct(c)
    ensures Genesis(Cluster(c))
    ensures var t := Run(Cluster(c), [Start(c), Deposit(Staking(c, c.bobReceipt))], Saturating);
            && Recorded(t, c.alice) == STAKE && VaultHoldings.Held(t.yxrp, c.alice) == 0
            && ApplyWithdraw(t, Undoing(Staking(c, c.bobReceipt), false, 0), Saturating).result != Ok
  {
    ClusterIsGenesis(c);
    Beginning(c);
    var s, ix := Begun(c), Staking(c, c.bobReceipt);
    StakingSucceeds(c, c.bobReceipt);
    RunTwo(Cluster(c), Start(c), Deposit(ix));
    hide Verdict, KAMINO_PROGRAM_ID, ApplyDeposit, ApplyWithdraw;
    VaultHoldings.NobodyHolds(Cluster(c), c.alice);
    VaultHoldings.ForeignDepositBreaksTheMatch(s, ix);
    DepositMovesExactly(s, ix);
    WithdrawSucceedsExactly(Staked(c, c.bobReceipt), Undoing(ix, false, 0));
  }
}
