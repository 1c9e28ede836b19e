/** A user's position against the yXRP that the user holds: how far the two can drift apart, and
    for which runs they stay equal. */
module VaultReceipts {
  import opened Bytes
  import opened Results
  import opened Token
  import opened VaultModel
  import opened VaultSafety

  function Recorded(s: State, u: Pubkey): int {
    PositionOf(s, u).principal
  }

  /** By how much a step that goes through raises the principal of `u` over the balance of `a`. */
  function Drift(step: Step, u: Pubkey, a: Pubkey): int {
    match step
    case Deposit(ix) => (if ix.user == u then ix.amount else 0) - (if ix.userYxrp == a then ix.amount else 0)
    case Withdraw(ix) => (if ix.userYxrp == a then ix.amount else 0) - (if ix.user == u then ix.amount else 0)
    case MoveYxrp(from, to, n) => (if from == a then n else 0) - (if to == a then n else 0)
    case BurnYxrp(from, n) => (if from == a then n else 0)
    case _ => 0
  }

  function DriftOver(s: State, steps: seq<Step>, u: Pubkey, a: Pubkey): int
    decreases steps
  {
    if steps == [] then 0
    else
      var o := Apply(s, steps[0], Saturating);
      (if o.result == Ok then Drift(steps[0], u, a) else 0) + DriftOver(o.state, steps[1..], u, a)
  }

  lemma DepositDrift(s: State, ix: DepositIx, u: Pubkey, a: Pubkey)
    requires Inv(s) && s.config.Some? && MoveDeposit(s, ix, Saturating).result == Ok
    ensures var t := MoveDeposit(s, ix, Saturating).state;
            Recorded(t, u) - BalanceOf(t.yxrp, a) == Recorded(s, u) - BalanceOf(s.yxrp, a) + Drift(Deposit(ix), u, a)
  {
    CreditIsExact(s, ix);
  }

  lemma WithdrawDrift(s: State, ix: WithdrawIx, u: Pubkey, a: Pubkey)
    requires Inv(s) && WithdrawGuard(s, ix) == Ok && MoveWithdraw(s, ix, Saturating).result == Ok
    ensures var t := MoveWithdraw(s, ix, Saturating).state;
            Recorded(t, u) - BalanceOf(t.yxrp, a) == Recorded(s, u) - BalanceOf(s.yxrp, a) + Drift(Withdraw(ix), u, a)
  {
    var p := s.positions[ix.user];
    assert 0 <= p.principal == p.receiptSupply;
  }

  ghost predicate Drifts(s: State, o: Outcome, step: Step, u: Pubkey, a: Pubkey) {
    Recorded(o.state, u) - BalanceOf(o.state.yxrp, a)
      == Recorded(s, u) - BalanceOf(s.yxrp, a) + (if o.result == Ok then Drift(step, u, a) else 0)
  }

  lemma StepDrift(s: State, step: Step, u: Pubkey, a: Pubkey)
    requires Inv(s)
    ensures Drifts(s, Apply(s, step, Saturating), step, u, a)
  {
    match step
    case Deposit(ix) => AnyDepositDrift(s, ix, u, a);
    case Withdraw(ix) => AnyWithdrawDrift(s, ix, u, a);
    case _ => OtherDrift(s, step, u, a);
  }

  lemma AnyDepositDrift(s: State, ix: DepositIx, u: Pubkey, a: Pubkey)
    requires Inv(s)
    ensures Drifts(s, ApplyDeposit(s, ix, Saturating), Deposit(ix), u, a)
  {
    hide MoveDeposit, Inv;
    if DepositGuard(s, ix) == Ok && MoveDeposit(s, ix, Saturating).result == Ok {
      DepositDrift(s, ix, u, a);
    }
    FailedMove(s, ix);
  }

  lemma AnyWithdrawDrift(s: State, ix: WithdrawIx, u: Pubkey, a: Pubkey)
    requires Inv(s)
    ensures Drifts(s, ApplyWithdraw(s, ix, Saturating), Withdraw(ix), u, a)
  {
    hide MoveWithdraw, Inv;
    if WithdrawGuard(s, ix) == Ok && MoveWithdraw(s, ix, Saturating).result == Ok {
      WithdrawDrift(s, ix, u, a);
    }
    FailedPayout(s, ix);
  }

  lemma OtherDrift(s: State, step: Step, u: Pubkey, a: Pubkey)
    requires !step.Deposit? && !step.Withdraw?
    ensures Drifts(s, Apply(s, step, Saturating), step, u, a)
  {
  }

  lemma {:induction false} DriftAddsUp(s: State, steps: seq<Step>, u: Pubkey, a: Pubkey)
    requires Inv(s)
    ensures var t := Run(s, steps, Saturating);
            Recorded(t, u) - BalanceOf(t.yxrp, a) == Recorded(s, u) - BalanceOf(s.yxrp, a) + DriftOver(s, steps, u, a)
    decreases steps
  {
    if steps != [] {
      StepDrift(s, steps[0], u, a);
      EveryStepIsSafe(s, steps[0]);
      DriftAddsUp(Apply(s, steps[0], Saturating).state, steps[1..], u, a);
    }
  }

  /** After any run, every position records as many receipts as principal, and that is the yXRP
      in an account exactly when the drift between the two adds up to nothing. */
  lemma ReceiptsEqualBalance(g: State, steps: seq<Step>, u: Pubkey, a: Pubkey)
    requires Genesis(g)
    ensures var t := Run(g, steps, Saturating);
      && PositionOf(t, u).receiptSupply == PositionOf(t, u).principal
      && (PositionOf(t, u).principal == BalanceOf(t.yxrp, a) <==> DriftOver(g, steps, u, a) == 0)
  {
    GenesisInv(g);
    RunFrom(g, steps);
    DriftAddsUp(g, steps, u, a);
    if a in g.yxrp.accounts {
      BalanceWithinSupply(g.yxrp, a);
    }
  }

  /** The step uses `a` for deposits and withdrawals of `u` and for nothing else. */
  predicate KeepsTogether(step: Step, u: Pubkey, a: Pubkey) {
    match step
    case Deposit(ix) => ix.user == u <==> ix.userYxrp == a
    case Withdraw(ix) => ix.user == u <==> ix.userYxrp == a
    case MoveYxrp(from, to, _) => from == to || (from != a && to != a)
    case BurnYxrp(from, _) => from != a
    case _ => true
  }

  /** The base units that a step moves for a position or a receipt account. */
  function Amount(step: Step): nat {
    match step
    case Deposit(ix) => ix.amount
    case Withdraw(ix) => ix.amount
    case MoveYxrp(_, _, n) => n
    case BurnYxrp(_, n) => n
    case _ => 0
  }

  predicate Matches(s: State, u: Pubkey, a: Pubkey) {
    Recorded(s, u) == BalanceOf(s.yxrp, a)
  }

  /** Whether principal and balance stay equal can be read off the next step: it must fail, move
      nothing, or use the account for that user and nothing else. */
  lemma MatchSurvivesExactly(s: State, step: Step, u: Pubkey, a: Pubkey)
    requires Inv(s) && Matches(s, u, a)
    ensures var o := Apply(s, step, Saturating);
            Matches(o.state, u, a) <==> o.result != Ok || Amount(step) == 0 || KeepsTogether(step, u, a)
  {
    hide Apply;
    StepDrift(s, step, u, a);
  }

  ghost predicate MatchesThroughout(s: State, steps: seq<Step>, u: Pubkey, a: Pubkey)
    decreases steps
  {
    Matches(s, u, a)
    && (steps == [] || MatchesThroughout(Apply(s, steps[0], Saturating).state, steps[1..], u, a))
  }

  /** Every step that goes through and moves anything uses `a` for `u` and nothing else. */
  ghost predicate AllKeepTogether(s: State, steps: seq<Step>, u: Pubkey, a: Pubkey)
    decreases steps
  {
    steps == []
    || var o := Apply(s, steps[0], Saturating);
       && (o.result != Ok || Amount(steps[0]) == 0 || KeepsTogether(steps[0], u, a))
       && AllKeepTogether(o.state, steps[1..], u, a)
  }

  lemma {:induction false} MatchFrom(s: State, steps: seq<Step>, u: Pubkey, a: Pubkey)
    requires Inv(s) && Matches(s, u, a)
    ensures MatchesThroughout(s, steps, u, a) <==> AllKeepTogether(s, steps, u, a)
    decreases steps
  {
    if steps != [] {
      hide Apply;
      MatchSurvivesExactly(s, steps[0], u, a);
      EveryStepIsSafe(s, steps[0]);
      if Matches(Apply(s, steps[0], Saturating).state, u, a) {
        MatchFrom(Apply(s, steps[0], Saturating).state, steps[1..], u, a);
      }
    }
  }

  /** Along a run from genesis the principal of `u` equals the yXRP in `a` at every point exactly
      when every step that goes through and moves anything uses `a` for `u` and nothing else. */
  lemma MatchThroughoutExactly(g: State, steps: seq<Step>, u: Pubkey, a: Pubkey)
    requires Genesis(g)
    ensures MatchesThroughout(g, steps, u, a) <==> AllKeepTogether(g, steps, u, a)
  {
    GenesisInv(g);
    if a in g.yxrp.accounts {
      BalanceWithinSupply(g.yxrp, a);
    }
    MatchFrom(g, steps, u, a);
  }

  /** Deposits alone break the equality: the receipt may be minted to any account, and a deposit
      that names another one leaves the principal ahead by its amount. */
  lemma DepositElsewhereBreaksTheMatch(s: State, ix: DepositIx, a: Pubkey)
    requires Inv(s) && Matches(s, ix.user, a)
    requires ApplyDeposit(s, ix, Saturating).result == Ok && ix.amount > 0 && ix.userYxrp != a
    ensures var t := ApplyDeposit(s, ix, Saturating).state; Recorded(t, ix.user) == BalanceOf(t.yxrp, a) + ix.amount
  {
    AnyDepositDrift(s, ix, ix.user, a);
  }

  lemma {:induction false} NoDrift(s: State, steps: seq<Step>, u: Pubkey, a: Pubkey)
    requires forall i :: 0 <= i < |steps| ==> KeepsTogether(steps[i], u, a)
    ensures DriftOver(s, steps, u, a) == 0
    decreases steps
  {
    if steps != [] {
      assert KeepsTogether(steps[0], u, a);
      NoDrift(Apply(s, steps[0], Saturating).state, steps[1..], u, a);
    }
  }

  /** While a user's deposits and withdrawals all use one receipt account and nobody else touches
      it, that account holds exactly what the position records, through every run. */
  lemma DedicatedAccountMatches(g: State, steps: seq<Step>, u: Pubkey, a: Pubkey)
    requires Genesis(g) && forall i :: 0 <= i < |steps| ==> KeepsTogether(steps[i], u, a)
    ensures var t := Run(g, steps, Saturating);
            BalanceOf(t.yxrp, a) == PositionOf(t, u).principal == PositionOf(t, u).receiptSupply
  {
    ReceiptsEqualBalance(g, steps, u, a);
    NoDrift(g, steps, u, a);
  }
}
