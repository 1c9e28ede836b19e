/** Withdrawals: exactly when they succeed, what they pay, and that everyone can leave in any
    order whatever the configuration says. */
module VaultExit {
  import opened Bytes
  import opened Results
  import opened Sums
  import opened Token
  import opened VaultModel
  import opened VaultSafety

  /** In a reachable state nothing but the caller's own claim, receipt balance and accounts
      decides a withdrawal; in particular no overflow or missing vault fund can stop it. */
  lemma WithdrawSucceedsExactly(s: State, ix: WithdrawIx)
    requires Inv(s)
    ensures ApplyWithdraw(s, ix, Saturating).result == Ok
       <==> && s.config.Some?
            && ix.user in s.positions && ix.amount <= s.positions[ix.user].receiptSupply
            && MayDebit(s, s.yxrp, ix.userYxrp, ix.user, ix.delegated)
            && ix.amount <= s.yxrp.accounts[ix.userYxrp].amount
            && ix.userWxrp in s.wxrp.accounts
  {
    if WithdrawGuard(s, ix) == Ok {
      TransferSound(s.wxrp, s.pdas.vault, ix.userWxrp, ix.amount, ConfigOwnsVault(s));
      BurnSound(s.yxrp, ix.userYxrp, ix.amount, MayDebit(s, s.yxrp, ix.userYxrp, ix.user, ix.delegated));
      PositionWithinVault(s, ix.user);
    }
  }

  /** A successful exit pays the amount asked, from the vault to the destination, burns as much
      of the receipt, debits the position as much, and touches nothing else. */
  lemma WithdrawPaysExactly(s: State, ix: WithdrawIx)
    requires Inv(s) && ApplyWithdraw(s, ix, Saturating).result == Ok && ix.userWxrp != s.pdas.vault
    ensures var t := ApplyWithdraw(s, ix, Saturating).state;
      && t.config == s.config && t.pdas == s.pdas
      && t.wxrp.supply == s.wxrp.supply && t.yxrp.supply == s.yxrp.supply - ix.amount
      && t.wxrp.accounts == s.wxrp.accounts
           [s.pdas.vault := Holding(s.pdas.config, VaultBalance(s) - ix.amount)]
           [ix.userWxrp := s.wxrp.accounts[ix.userWxrp].(amount := s.wxrp.accounts[ix.userWxrp].amount + ix.amount)]
      && t.yxrp.accounts == s.yxrp.accounts
           [ix.userYxrp := s.yxrp.accounts[ix.userYxrp].(amount := s.yxrp.accounts[ix.userYxrp].amount - ix.amount)]
      && t.positions == s.positions
           [ix.user := s.positions[ix.user].(principal := s.positions[ix.user].principal - ix.amount,
                                             receiptSupply := s.positions[ix.user].receiptSupply - ix.amount,
                                             lastUpdate := ix.time)]
  {
    var p := s.positions[ix.user];
    assert 0 <= p.principal == p.receiptSupply;
  }

  /** Pausing, caps, staleness, attestor and authority have no say in a withdrawal. */
  lemma WithdrawIgnoresConfig(s: State, ix: WithdrawIx, c: Config)
    requires s.config.Some?
    ensures var o := ApplyWithdraw(s, ix, Saturating);
            ApplyWithdraw(s.(config := Some(c)), ix, Saturating) == Outcome(o.state.(config := Some(c)), o.result)
  {
    var s' := s.(config := Some(c));
    assert WithdrawGuard(s', ix) == WithdrawGuard(s, ix);
    assert MayDebit(s', s.yxrp, ix.userYxrp, ix.user, ix.delegated)
        == MayDebit(s, s.yxrp, ix.userYxrp, ix.user, ix.delegated);
    assert ConfigOwnsVault(s') == ConfigOwnsVault(s);
  }

  // ------------------------------------------------ any set of exits, in any order

  ghost function OfUser(u: Pubkey): WithdrawIx -> nat {
    (e: WithdrawIx) => if e.user == u then e.amount else 0
  }

  ghost function FromAccount(a: Pubkey): WithdrawIx -> nat {
    (e: WithdrawIx) => if e.userYxrp == a then e.amount else 0
  }

  ghost function ToAccount(a: Pubkey): WithdrawIx -> nat {
    (e: WithdrawIx) => if e.userWxrp == a then e.amount else 0
  }

  ghost predicate CoveredExit(s: State, exits: seq<WithdrawIx>, e: WithdrawIx) {
    && e.user in s.positions
    && SumBy(exits, OfUser(e.user)) <= s.positions[e.user].receiptSupply
    && MayDebit(s, s.yxrp, e.userYxrp, e.user, e.delegated)
    && SumBy(exits, FromAccount(e.userYxrp)) <= s.yxrp.accounts[e.userYxrp].amount
    && e.userWxrp in s.wxrp.accounts && e.userWxrp != s.pdas.vault
  }

  /** Every user asks in total no more than their position records, every receipt account is
      asked for no more than it holds, and payouts go outside the vault. */
  ghost predicate Covered(s: State, exits: seq<WithdrawIx>) {
    s.config.Some? && forall i :: 0 <= i < |exits| ==> CoveredExit(s, exits, exits[i])
  }

  ghost predicate AllSucceed(s: State, exits: seq<WithdrawIx>)
    decreases exits
  {
    exits == [] ||
    var o := ApplyWithdraw(s, exits[0], Saturating);
    o.result == Ok && AllSucceed(o.state, exits[1..])
  }

  ghost function AfterExits(s: State, exits: seq<WithdrawIx>): State
    decreases exits
  {
    if exits == [] then s else AfterExits(ApplyWithdraw(s, exits[0], Saturating).state, exits[1..])
  }

  lemma SumByAtLeast(exits: seq<WithdrawIx>, i: nat, f: WithdrawIx -> nat)
    requires i < |exits|
    ensures f(exits[i]) <= SumBy(exits, f)
  {
    if i > 0 {
      SumByAtLeast(exits[1..], i - 1, f);
    }
    SumByFirst(exits, f);
  }

  /** Whoever exits first leaves the others' claims as good as before. */
  lemma FirstExit(s: State, exits: seq<WithdrawIx>)
    requires Inv(s) && Covered(s, exits) && exits != []
    ensures var o := ApplyWithdraw(s, exits[0], Saturating);
            o.result == Ok && Inv(o.state) && Covered(o.state, exits[1..])
  {
    var e := exits[0];
    assert CoveredExit(s, exits, e);
    SumByAtLeast(exits, 0, OfUser(e.user));
    SumByAtLeast(exits, 0, FromAccount(e.userYxrp));
    hide SumBy, ApplyWithdraw;
    WithdrawSucceedsExactly(s, e);
    var t := ApplyWithdraw(s, e, Saturating).state;
    EveryStepIsSafe(s, Withdraw(e));
    assert Apply(s, Withdraw(e), Saturating).state == t;
    RestIsCovered(s, exits);
  }

  lemma RestIsCovered(s: State, exits: seq<WithdrawIx>)
    requires Inv(s) && Covered(s, exits) && exits != [] && ApplyWithdraw(s, exits[0], Saturating).result == Ok
    ensures Covered(ApplyWithdraw(s, exits[0], Saturating).state, exits[1..])
  {
    hide SumBy;
    assert CoveredExit(s, exits, exits[0]);
    WithdrawPaysExactly(s, exits[0]);
    hide ApplyWithdraw;
    var t := ApplyWithdraw(s, exits[0], Saturating).state;
    forall i | 0 <= i < |exits[1..]|
      ensures CoveredExit(t, exits[1..], exits[1..][i])
    {
      assert CoveredExit(s, exits, exits[i + 1]);
      SumByFirst(exits, OfUser(exits[i + 1].user));
      SumByFirst(exits, FromAccount(exits[i + 1].userYxrp));
    }
  }

  /** What a single exit does to the balances and the positions of everybody. */
  lemma ExitEffect(s: State, e: WithdrawIx)
    requires Inv(s) && ApplyWithdraw(s, e, Saturating).result == Ok && e.userWxrp != s.pdas.vault
    ensures var t := ApplyWithdraw(s, e, Saturating).state;
      && t.pdas == s.pdas
      && (forall a :: a != s.pdas.vault ==> BalanceOf(t.wxrp, a) == BalanceOf(s.wxrp, a) + ToAccount(a)(e))
      && t.positions.Keys == s.positions.Keys
      && (forall u :: u in s.positions ==>
            t.positions[u].receiptSupply == s.positions[u].receiptSupply - OfUser(u)(e))
  {
    WithdrawPaysExactly(s, e);
  }

  /** Everyone can exit: all the withdrawals go through, every destination receives exactly
      what was withdrawn to it, every position is debited exactly what its user withdrew. */
  lemma {:induction false} EveryoneCanExit(s: State, exits: seq<WithdrawIx>)
    requires Inv(s) && Covered(s, exits)
    ensures AllSucceed(s, exits)
    ensures var t := AfterExits(s, exits);
      && Inv(t)
      && (forall a :: a != s.pdas.vault ==> BalanceOf(t.wxrp, a) == BalanceOf(s.wxrp, a) + SumBy(exits, ToAccount(a)))
      && t.positions.Keys == s.positions.Keys
      && (forall u :: u in s.positions ==>
            t.positions[u].receiptSupply == s.positions[u].receiptSupply - SumBy(exits, OfUser(u)))
    decreases exits
  {
    if exits != [] {
      FirstExit(s, exits);
      assert CoveredExit(s, exits, exits[0]);
      ExitEffect(s, exits[0]);
      EveryoneCanExit(ApplyWithdraw(s, exits[0], Saturating).state, exits[1..]);
      forall a ensures SumBy(exits, ToAccount(a)) == ToAccount(a)(exits[0]) + SumBy(exits[1..], ToAccount(a)) {
        SumByFirst(exits, ToAccount(a));
      }
      forall u ensures SumBy(exits, OfUser(u)) == OfUser(u)(exits[0]) + SumBy(exits[1..], OfUser(u)) {
        SumByFirst(exits, OfUser(u));
      }
    }
  }

  /** The order does not matter: a covered set of exits is covered in every order. */
  lemma CoverageIgnoresOrder(s: State, exits: seq<WithdrawIx>, reordered: seq<WithdrawIx>)
    requires Covered(s, exits) && multiset(exits) == multiset(reordered)
    ensures Covered(s, reordered)
  {
    forall i | 0 <= i < |reordered|
      ensures CoveredExit(s, reordered, reordered[i])
    {
      var e := reordered[i];
      assert e in multiset(exits);
      var j :| 0 <= j < |exits| && exits[j] == e;
      SumByPermuted(exits, reordered, OfUser(e.user));
      SumByPermuted(exits, reordered, FromAccount(e.userYxrp));
    }
  }

  /** From genesis, after any run, any covered exits succeed in any order. */
  lemma ExitFromAnyReachableState(g: State, steps: seq<Step>, exits: seq<WithdrawIx>, reordered: seq<WithdrawIx>)
    requires Genesis(g)
    requires Covered(Run(g, steps, Saturating), exits) && multiset(exits) == multiset(reordered)
    ensures AllSucceed(Run(g, steps, Saturating), reordered)
  {
    GenesisInv(g);
    RunFrom(g, steps);
    var s := Run(g, steps, Saturating);
    CoverageIgnoresOrder(s, exits, reordered);
    EveryoneCanExit(s, reordered);
  }

  // ------------------------------------------------ while others go on

  /** The step does not debit or hand over the receipt account of the exit, and is not another
      withdrawal of the same user. Anything else may happen, by anybody. */
  predicate LeavesAlone(step: Step, e: WithdrawIx) {
    match step
    case Withdraw(ix) => ix.user != e.user && ix.userYxrp != e.userYxrp
    case OpenYxrp(address, _) => address != e.userYxrp
    case MoveYxrp(from, _, _) => from != e.userYxrp
    case BurnYxrp(from, _) => from != e.userYxrp
    case _ => true
  }

  /** What an exit rests on is still there, and no less of it. */
  ghost predicate StillThere(s: State, t: State, e: WithdrawIx)
    requires e.user in s.positions && e.userYxrp in s.yxrp.accounts
  {
    && t.pdas == s.pdas
    && (s.config.Some? ==> t.config.Some?)
    && e.user in t.positions && t.positions[e.user].receiptSupply >= s.positions[e.user].receiptSupply
    && e.userYxrp in t.yxrp.accounts && t.yxrp.accounts[e.userYxrp].owner == s.yxrp.accounts[e.userYxrp].owner
    && t.yxrp.accounts[e.userYxrp].amount >= s.yxrp.accounts[e.userYxrp].amount
    && e.userWxrp in t.wxrp.accounts
  }

  lemma OtherDepositLeavesExit(s: State, ix: DepositIx, e: WithdrawIx)
    requires e.user in s.positions && e.userYxrp in s.yxrp.accounts && e.userWxrp in s.wxrp.accounts
    requires Inv(s) && s.config.Some?
    ensures StillThere(s, MoveDeposit(s, ix, Saturating).state, e)
  {
    if MoveDeposit(s, ix, Saturating).result == Ok {
      CreditIsExact(s, ix);
    }
  }

  lemma OtherStepLeavesExit(s: State, step: Step, e: WithdrawIx)
    requires Inv(s) && s.config.Some? && LeavesAlone(step, e)
    requires e.user in s.positions && e.userYxrp in s.yxrp.accounts && e.userWxrp in s.wxrp.accounts
    ensures StillThere(s, Apply(s, step, Saturating).state, e)
  {
    hide MoveDeposit, Inv;
    match step
    case Deposit(ix) => OtherDepositLeavesExit(s, ix, e);
    case _ =>
  }

  lemma OtherStepKeepsCoverage(s: State, step: Step, exits: seq<WithdrawIx>)
    requires Inv(s) && Covered(s, exits)
    requires forall i :: 0 <= i < |exits| ==> LeavesAlone(step, exits[i])
    ensures Inv(Apply(s, step, Saturating).state)
    ensures exits != [] ==> Covered(Apply(s, step, Saturating).state, exits)
  {
    hide Apply, LeavesAlone;
    EveryStepIsSafe(s, step);
    var t := Apply(s, step, Saturating).state;
    forall i | 0 <= i < |exits| ensures t.config.Some? && CoveredExit(t, exits, exits[i]) {
      assert CoveredExit(s, exits, exits[i]);
      OtherStepLeavesExit(s, step, exits[i]);
    }
    assert exits != [] ==> CoveredExit(t, exits, exits[0]);
  }

  datatype Action = Leave(exit: WithdrawIx) | Meanwhile(step: Step)

  /** The exits among the actions. */
  function Exits(actions: seq<Action>): seq<WithdrawIx>
    decreases actions
  {
    if actions == [] then []
    else (if actions[0].Leave? then [actions[0].exit] else []) + Exits(actions[1..])
  }

  function Act(s: State, action: Action): Outcome {
    match action
    case Leave(e) => ApplyWithdraw(s, e, Saturating)
    case Meanwhile(step) => Apply(s, step, Saturating)
  }

  /** Each step in between leaves alone the exits that are still to come. */
  ghost predicate NobodyInterferes(actions: seq<Action>)
    decreases actions
  {
    actions == []
    || (NobodyInterferes(actions[1..])
        && (actions[0].Meanwhile? ==>
              forall i :: 0 <= i < |Exits(actions[1..])| ==> LeavesAlone(actions[0].step, Exits(actions[1..])[i])))
  }

  ghost predicate PaidInFull(s: State, e: WithdrawIx) {
    var o := ApplyWithdraw(s, e, Saturating);
    o.result == Ok && BalanceOf(o.state.wxrp, e.userWxrp) == BalanceOf(s.wxrp, e.userWxrp) + e.amount
  }

  ghost predicate AllPaidInFull(s: State, actions: seq<Action>)
    decreases actions
  {
    actions == []
    || ((actions[0].Leave? ==> PaidInFull(s, actions[0].exit)) && AllPaidInFull(Act(s, actions[0]).state, actions[1..]))
  }

  /** Covered exits all go through and are paid in full whatever happens in between: deposits of
      anybody, withdrawals of others, admin steps, transfers, burns and handovers of any account
      but the receipt accounts that are still to be debited. */
  lemma {:induction false} EveryoneCanExitMeanwhile(s: State, actions: seq<Action>)
    requires Inv(s) && NobodyInterferes(actions)
    requires Exits(actions) != [] ==> Covered(s, Exits(actions))
    ensures AllPaidInFull(s, actions)
    decreases actions
  {
    if actions != [] {
      hide ApplyWithdraw, Apply, LeavesAlone, Inv, CoveredExit, SumBy;
      var rest := actions[1..];
      match actions[0] {
        case Leave(e) =>
          assert Exits(actions) == [e] + Exits(rest);
          FirstIsPaid(s, Exits(actions));
          assert Exits(actions)[1..] == Exits(rest);
        case Meanwhile(step) =>
          assert Exits(actions) == Exits(rest);
          if Exits(rest) == [] {
            StepKeepsInv(s, step);
          } else {
            OtherStepKeepsCoverage(s, step, Exits(rest));
          }
      }
      EveryoneCanExitMeanwhile(Act(s, actions[0]).state, rest);
    }
  }

  lemma StepKeepsInv(s: State, step: Step)
    requires Inv(s)
    ensures Inv(Apply(s, step, Saturating).state)
  {
    hide Apply;
    EveryStepIsSafe(s, step);
  }

  lemma FirstIsPaid(s: State, exits: seq<WithdrawIx>)
    requires Inv(s) && exits != [] && Covered(s, exits)
    ensures PaidInFull(s, exits[0])
    ensures var t := ApplyWithdraw(s, exits[0], Saturating).state; Inv(t) && Covered(t, exits[1..])
  {
    FirstExit(s, exits);
    assert CoveredExit(s, exits, exits[0]);
    hide ApplyWithdraw;
    ExitEffect(s, exits[0]);
  }
}
