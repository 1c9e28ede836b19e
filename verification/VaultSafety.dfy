/** Solvency over every run, exactness of the saturating bookkeeping, and the watcher's two
    aggregate checks as exact accounting identities. */
module VaultSafety {
  import opened Bytes
  import opened Results
  import opened Sums
  import opened Token
  import opened VaultModel
  import Attestation

  ghost function Principals(positions: map<Pubkey, Position>): map<Pubkey, int> {
    map u | u in positions :: positions[u].principal
  }

  ghost function Receipts(positions: map<Pubkey, Position>): map<Pubkey, int> {
    map u | u in positions :: positions[u].receiptSupply
  }

  ghost function SumPrincipal(s: State): int {
    Total(Principals(s.positions))
  }

  ghost function SumReceipts(s: State): int {
    Total(Receipts(s.positions))
  }

  function VaultBalance(s: State): int {
    BalanceOf(s.wxrp, s.pdas.vault)
  }

  ghost predicate PositionsInLockstep(positions: map<Pubkey, Position>) {
    forall u :: u in positions ==>
      positions[u].owner == u && 0 <= positions[u].principal == positions[u].receiptSupply
  }

  /** wXRP in the vault beyond what positions are owed. */
  ghost function Surplus(s: State): int {
    VaultBalance(s) - SumPrincipal(s)
  }

  /** Receipts recorded in positions beyond the yXRP that still exists. */
  ghost function Shortfall(s: State): int {
    SumReceipts(s) - s.yxrp.supply
  }

  ghost predicate Inv(s: State) {
    && Sound(s.wxrp) && Sound(s.yxrp)
    && PositionsInLockstep(s.positions)
    && Surplus(s) >= 0
    && Shortfall(s) >= 0
    && (s.config.Some? <==> s.pdas.vault in s.wxrp.accounts)
    && (s.config.Some? ==> s.wxrp.accounts[s.pdas.vault].owner == s.pdas.config)
    && (s.config.None? ==> s.positions == map[])
  }

  /** Before `initialize`: no yXRP exists and its mint authority is already the Config PDA, so
      that only the program mints it. The wXRP ledger is arbitrary. */
  ghost predicate Genesis(s: State) {
    && s.config.None? && s.positions == map[]
    && Sound(s.wxrp) && s.pdas.vault !in s.wxrp.accounts
    && Sound(s.yxrp) && s.yxrp.supply == 0
  }

  // ------------------------------------------------ what comes from outside

  /** wXRP that a step puts into the vault without crediting a position: transfers and issuance
      to the vault, and a withdrawal that names the vault itself as destination. */
  function Donated(s: State, step: Step): nat {
    if Apply(s, step, Saturating).result.Err? then 0
    else match step
      case MoveWxrp(_, to, amount) => if to == s.pdas.vault then amount else 0
      case IssueWxrp(to, amount) => if to == s.pdas.vault then amount else 0
      case Withdraw(ix) => if ix.userWxrp == s.pdas.vault then ix.amount else 0
      case _ => 0
  }

  function BurnedOutside(s: State, step: Step): nat {
    if step.BurnYxrp? && Apply(s, step, Saturating).result.Ok? then step.amount else 0
  }

  function DonatedOver(s: State, steps: seq<Step>): nat
    decreases steps
  {
    if steps == [] then 0
    else Donated(s, steps[0]) + DonatedOver(Apply(s, steps[0], Saturating).state, steps[1..])
  }

  function BurnedOver(s: State, steps: seq<Step>): nat
    decreases steps
  {
    if steps == [] then 0
    else BurnedOutside(s, steps[0]) + BurnedOver(Apply(s, steps[0], Saturating).state, steps[1..])
  }

  // ------------------------------------------------ one step

  lemma PositionUpdate(positions: map<Pubkey, Position>, u: Pubkey, p: Position)
    ensures var was := if u in positions then positions[u] else NewPosition();
            && Total(Principals(positions[u := p])) == Total(Principals(positions)) - was.principal + p.principal
            && Total(Receipts(positions[u := p])) == Total(Receipts(positions)) - was.receiptSupply + p.receiptSupply
  {
    TotalUpdate(Principals(positions), u, p.principal);
    TotalUpdate(Receipts(positions), u, p.receiptSupply);
    assert Principals(positions[u := p]) == Principals(positions)[u := p.principal];
    assert Receipts(positions[u := p]) == Receipts(positions)[u := p.receiptSupply];
  }

  /** A position never holds more than the vault, hence fits in 64 bits with room to spare. */
  lemma PositionWithinVault(s: State, u: Pubkey)
    requires Inv(s) && s.config.Some?
    ensures 0 <= PositionOf(s, u).principal == PositionOf(s, u).receiptSupply
    ensures PositionOf(s, u).principal <= SumPrincipal(s) <= VaultBalance(s) <= s.wxrp.supply <= U64_MAX
  {
    BalanceWithinSupply(s.wxrp, s.pdas.vault);
    if u in s.positions {
      TotalAtLeast(Principals(s.positions), u);
    }
  }

  /** From `s` to `o.state`, with `exact` the outcome of unbounded bookkeeping, and with the
      given amounts of wXRP coming in and yXRP going out outside the program's own flows. */
  ghost predicate SafeMove(s: State, o: Outcome, exact: Outcome, donated: int, burned: int) {
    && Inv(o.state)
    && o == exact
    && Surplus(o.state) == Surplus(s) + donated
    && Shortfall(o.state) == Shortfall(s) + burned
  }

  ghost predicate StepIsSafe(s: State, step: Step) {
    SafeMove(s, Apply(s, step, Saturating), Apply(s, step, Unbounded), Donated(s, step), BurnedOutside(s, step))
  }

  lemma MoveDepositIsSafe(s: State, ix: DepositIx)
    requires Inv(s) && s.config.Some?
    ensures SafeMove(s, MoveDeposit(s, ix, Saturating), MoveDeposit(s, ix, Unbounded), 0, 0)
  {
    hide Total, Balances;
    if MoveDeposit(s, ix, Saturating).result.Ok? {
      var auth := MayDebit(s, s.wxrp, ix.userWxrp, ix.user, ix.delegated);
      TransferSound(s.wxrp, ix.userWxrp, s.pdas.vault, ix.amount, auth);
      MintSound(s.yxrp, ix.userYxrp, ix.amount);
      CreditIsExact(s, ix);
      PositionUpdate(s.positions, ix.user, Credited(PositionOf(s, ix.user), ix, Saturating));
    }
  }

  lemma CreditIsExact(s: State, ix: DepositIx)
    requires Inv(s) && s.config.Some?
    requires ix.userWxrp in s.wxrp.accounts && ix.userWxrp != s.pdas.vault
    requires ix.amount <= s.wxrp.accounts[ix.userWxrp].amount
    ensures Credited(PositionOf(s, ix.user), ix, Saturating) == Credited(PositionOf(s, ix.user), ix, Unbounded)
  {
    TwoBalancesWithinSupply(s.wxrp, ix.userWxrp, s.pdas.vault);
    PositionWithinVault(s, ix.user);
  }

  lemma MoveWithdrawIsSafe(s: State, ix: WithdrawIx)
    requires Inv(s) && WithdrawGuard(s, ix) == Ok
    ensures SafeMove(s, MoveWithdraw(s, ix, Saturating), MoveWithdraw(s, ix, Unbounded),
                     if MoveWithdraw(s, ix, Saturating).result.Ok? && ix.userWxrp == s.pdas.vault then ix.amount else 0,
                     0)
  {
    hide Total, Balances;
    if MoveWithdraw(s, ix, Saturating).result.Ok? {
      TransferSound(s.wxrp, s.pdas.vault, ix.userWxrp, ix.amount, ConfigOwnsVault(s));
      BurnSound(s.yxrp, ix.userYxrp, ix.amount, MayDebit(s, s.yxrp, ix.userYxrp, ix.user, ix.delegated));
      DebitIsExact(s, ix);
      PositionUpdate(s.positions, ix.user, Debited(PositionOf(s, ix.user), ix, Saturating));
    }
  }

  lemma DebitIsExact(s: State, ix: WithdrawIx)
    requires Inv(s) && WithdrawGuard(s, ix) == Ok
    ensures Debited(PositionOf(s, ix.user), ix, Saturating) == Debited(PositionOf(s, ix.user), ix, Unbounded)
    ensures Debited(PositionOf(s, ix.user), ix, Saturating).principal
         == Debited(PositionOf(s, ix.user), ix, Saturating).receiptSupply >= 0
  {
    PositionWithinVault(s, ix.user);
  }

  lemma FailedMove(s: State, ix: DepositIx)
    ensures MoveDeposit(s, ix, Saturating).result != Ok ==> MoveDeposit(s, ix, Saturating).state == s
  {
  }

  lemma FailedPayout(s: State, ix: WithdrawIx)
    ensures MoveWithdraw(s, ix, Saturating).result != Ok ==> MoveWithdraw(s, ix, Saturating).state == s
  {
  }

  lemma MoveVenueIsSafe(s: State, ix: RebalanceIx)
    requires Inv(s) && s.config.Some? && ix.user in s.positions
    ensures SafeMove(s, MoveVenue(s, ix), MoveVenue(s, ix), 0, 0)
  {
    PositionUpdate(s.positions, ix.user, MoveVenue(s, ix).state.positions[ix.user]);
  }

  lemma OpenIsSound(s: State, t: Ledger, address: Pubkey, owner: Pubkey)
    requires Sound(t)
    ensures var r := Open(s, t, address, owner); r.Some? ==> Sound(r.value) && r.value.supply == t.supply
  {
    var r := Open(s, t, address, owner);
    if r.Some? {
      TotalUpdate(Balances(t), address, r.value.accounts[address].amount);
      assert Balances(r.value) == Balances(t)[address := r.value.accounts[address].amount];
    }
  }

  lemma InitializeIsSafe(s: State, ix: InitializeIx)
    requires Inv(s)
    ensures StepIsSafe(s, Initialize(ix))
  {
    if ApplyInitialize(s, ix).result.Ok? {
      TotalUpdate(Balances(s.wxrp), s.pdas.vault, 0);
      assert Balances(ApplyInitialize(s, ix).state.wxrp) == Balances(s.wxrp)[s.pdas.vault := 0];
    }
  }

  /** A change of the wXRP ledger alone is safe if the vault account only gained. */
  lemma WxrpChangeIsSafe(s: State, t: Ledger, gained: nat)
    requires Inv(s) && Sound(t)
    requires s.pdas.vault in t.accounts <==> s.pdas.vault in s.wxrp.accounts
    requires s.pdas.vault in t.accounts ==>
               t.accounts[s.pdas.vault] == Holding(s.wxrp.accounts[s.pdas.vault].owner, VaultBalance(s) + gained)
    requires s.pdas.vault !in t.accounts ==> gained == 0
    ensures SafeMove(s, Outcome(s.(wxrp := t), Ok), Outcome(s.(wxrp := t), Ok), gained, 0)
  {
  }

  lemma WxrpStepIsSafe(s: State, step: Step)
    requires Inv(s)
    requires step.OpenWxrp? || step.MoveWxrp? || step.IssueWxrp? || step.RetireWxrp?
    ensures StepIsSafe(s, step)
  {
    hide Total, Balances, PositionsInLockstep, ApplyDeposit, ApplyWithdraw, ApplyRebalance, ApplySetCap;
    match step
    case OpenWxrp(a, owner) => OpenIsSound(s, s.wxrp, a, owner);
    case MoveWxrp(from, to, n) => TransferSound(s.wxrp, from, to, n, OthersMayDebit(s, s.wxrp, from));
    case IssueWxrp(to, n) => MintSound(s.wxrp, to, n);
    case RetireWxrp(from, n) => BurnSound(s.wxrp, from, n, OthersMayDebit(s, s.wxrp, from));
    hide SafeMove, Inv, Sound;
    var o := Apply(s, step, Saturating);
    if o.result.Ok? {
      WxrpChangeIsSafe(s, o.state.wxrp, Donated(s, step));
    }
  }

  lemma YxrpStepIsSafe(s: State, step: Step)
    requires Inv(s)
    requires step.OpenYxrp? || step.MoveYxrp? || step.BurnYxrp?
    ensures StepIsSafe(s, step)
  {
    hide ApplyDeposit, ApplyWithdraw, ApplyRebalance, ApplySetCap, Total, Balances, PositionsInLockstep;
    match step
    case OpenYxrp(a, owner) => OpenIsSound(s, s.yxrp, a, owner);
    case MoveYxrp(from, to, n) => TransferSound(s.yxrp, from, to, n, OthersMayDebit(s, s.yxrp, from));
    case BurnYxrp(from, n) => BurnSound(s.yxrp, from, n, OthersMayDebit(s, s.yxrp, from));
  }

  lemma DepositIsSafe(s: State, ix: DepositIx)
    requires Inv(s)
    ensures StepIsSafe(s, Deposit(ix))
  {
    hide Attestation.Verdict, MoveDeposit, Total, Balances;
    if s.config.Some? {
      MoveDepositIsSafe(s, ix);
    }
  }

  lemma WithdrawIsSafe(s: State, ix: WithdrawIx)
    requires Inv(s)
    ensures StepIsSafe(s, Withdraw(ix))
  {
    hide MoveWithdraw, Total, Balances;
    if WithdrawGuard(s, ix) == Ok {
      MoveWithdrawIsSafe(s, ix);
    }
  }

  lemma RebalanceIsSafe(s: State, ix: RebalanceIx)
    requires Inv(s)
    ensures StepIsSafe(s, Rebalance(ix))
  {
    hide Attestation.Verdict, MoveVenue, Total, Balances;
    if s.config.Some? && ix.user in s.positions {
      MoveVenueIsSafe(s, ix);
    }
  }

  lemma AdminIsSafe(s: State, step: Step)
    requires Inv(s)
    requires step.SetPaused? || step.SetCap? || step.RotateAttestor? || step.RotateAuthority?
    ensures StepIsSafe(s, step)
  {
    hide ApplyDeposit, ApplyWithdraw, ApplyRebalance, Total, Balances, PositionsInLockstep;
  }

  /** Every step keeps the invariant, does exactly what unbounded integers would do, and moves
      surplus and shortfall only by what comes from outside the program. */
  lemma EveryStepIsSafe(s: State, step: Step)
    requires Inv(s)
    ensures StepIsSafe(s, step)
  {
    hide StepIsSafe, Inv;
    match step
    case Initialize(ix) => InitializeIsSafe(s, ix);
    case Deposit(ix) => DepositIsSafe(s, ix);
    case Withdraw(ix) => WithdrawIsSafe(s, ix);
    case Rebalance(ix) => RebalanceIsSafe(s, ix);
    case SetPaused(_, _) => AdminIsSafe(s, step);
    case SetCap(_, _, _) => AdminIsSafe(s, step);
    case RotateAttestor(_, _) => AdminIsSafe(s, step);
    case RotateAuthority(_, _) => AdminIsSafe(s, step);
    case OpenYxrp(_, _) => YxrpStepIsSafe(s, step);
    case MoveYxrp(_, _, _) => YxrpStepIsSafe(s, step);
    case BurnYxrp(_, _) => YxrpStepIsSafe(s, step);
    case _ => WxrpStepIsSafe(s, step);
  }

  // ------------------------------------------------ every run

  lemma {:induction false} RunFrom(s: State, steps: seq<Step>)
    requires Inv(s)
    ensures var t := Run(s, steps, Saturating);
            && Inv(t)
            && t == Run(s, steps, Unbounded)
            && Surplus(t) == Surplus(s) + DonatedOver(s, steps)
            && Shortfall(t) == Shortfall(s) + BurnedOver(s, steps)
    decreases steps
  {
    if steps != [] {
      EveryStepIsSafe(s, steps[0]);
      RunFrom(Apply(s, steps[0], Saturating).state, steps[1..]);
    }
  }

  lemma GenesisInv(s: State)
    requires Genesis(s)
    ensures Inv(s) && Surplus(s) == 0 && Shortfall(s) == 0
  {
  }

  /** Solvency: in every reachable state the positions' principals and receipts have one sum,
      the vault holds at least that sum, everything fits in 64 bits, and yXRP is covered. */
  lemma Solvency(s: State, steps: seq<Step>)
    requires Genesis(s)
    ensures var t := Run(s, steps, Saturating);
            && SumPrincipal(t) == SumReceipts(t)
            && t.yxrp.supply <= SumReceipts(t) <= VaultBalance(t) <= U64_MAX
  {
    GenesisInv(s);
    RunFrom(s, steps);
    var t := Run(s, steps, Saturating);
    assert Principals(t.positions) == Receipts(t.positions);
    if t.config.Some? {
      BalanceWithinSupply(t.wxrp, t.pdas.vault);
    }
  }

  /** No saturation ever happens: the program refines bookkeeping over unbounded integers. */
  lemma SaturationNeverClamps(s: State, steps: seq<Step>)
    requires Genesis(s)
    ensures Run(s, steps, Saturating) == Run(s, steps, Unbounded)
  {
    GenesisInv(s);
    RunFrom(s, steps);
  }

  /** The watcher's two equalities, after any run from genesis: the first holds exactly when no
      wXRP reached the vault from outside a deposit (a withdrawal paying the vault itself
      included), the second exactly when no yXRP was burned outside a withdrawal. */
  lemma WatcherEqualities(s: State, steps: seq<Step>)
    requires Genesis(s)
    ensures var t := Run(s, steps, Saturating);
            && VaultBalance(t) == SumPrincipal(t) + DonatedOver(s, steps)
            && SumReceipts(t) == t.yxrp.supply + BurnedOver(s, steps)
    ensures SumPrincipal(Run(s, steps, Saturating)) == VaultBalance(Run(s, steps, Saturating))
       <==> DonatedOver(s, steps) == 0
    ensures Run(s, steps, Saturating).yxrp.supply == SumReceipts(Run(s, steps, Saturating))
       <==> BurnedOver(s, steps) == 0
  {
    GenesisInv(s);
    RunFrom(s, steps);
  }
}
