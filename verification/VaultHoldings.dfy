/** A user's position against all the yXRP that the user holds, in whatever accounts. */
module VaultHoldings {
  import opened Bytes
  import opened Results
  import opened Sums
  import opened Token
  import opened VaultModel
  import opened VaultSafety

  // ------------------------------------------------ holdings of one owner

  predicate Owns(t: Ledger, u: Pubkey, a: Pubkey) {
    a in t.accounts && t.accounts[a].owner == u
  }

  ghost function HeldBy(t: Ledger, u: Pubkey): map<Pubkey, int> {
    map a | a in t.accounts :: if t.accounts[a].owner == u then t.accounts[a].amount else 0
  }

  ghost function Held(t: Ledger, u: Pubkey): int {
    Total(HeldBy(t, u))
  }

  function Part(h: Holding, u: Pubkey): int {
    if h.owner == u then h.amount else 0
  }

  lemma HeldUpdate(t: Ledger, r: Ledger, u: Pubkey, a: Pubkey, h: Holding)
    requires r.accounts == t.accounts[a := h]
    ensures Held(r, u) == Held(t, u) - (if a in t.accounts then Part(t.accounts[a], u) else 0) + Part(h, u)
  {
    TotalUpdate(HeldBy(t, u), a, Part(h, u));
    assert HeldBy(r, u) == HeldBy(t, u)[a := Part(h, u)];
  }

  lemma MintHeld(t: Ledger, to: Pubkey, n: nat, u: Pubkey)
    requires MintTo(t, to, n).Some?
    ensures Held(MintTo(t, to, n).value, u) == Held(t, u) + if Owns(t, u, to) then n else 0
  {
    hide Held;
    HeldUpdate(t, MintTo(t, to, n).value, u, to, t.accounts[to].(amount := t.accounts[to].amount + n));
  }

  lemma BurnHeld(t: Ledger, from: Pubkey, n: nat, authorised: bool, u: Pubkey)
    requires Burn(t, from, n, authorised).Some?
    ensures Held(Burn(t, from, n, authorised).value, u) == Held(t, u) - if Owns(t, u, from) then n else 0
  {
    hide Held;
    HeldUpdate(t, Burn(t, from, n, authorised).value, u, from,
               t.accounts[from].(amount := t.accounts[from].amount - n));
  }

  lemma TransferHeld(t: Ledger, from: Pubkey, to: Pubkey, n: nat, authorised: bool, u: Pubkey)
    requires Transfer(t, from, to, n, authorised).Some?
    ensures Held(Transfer(t, from, to, n, authorised).value, u)
         == Held(t, u) + (if Owns(t, u, to) then n else 0) - (if Owns(t, u, from) then n else 0)
  {
    hide Held;
    if from != to {
      var mid := SetBalance(t, from, t.accounts[from].amount - n);
      HeldUpdate(t, mid, u, from, t.accounts[from].(amount := t.accounts[from].amount - n));
      HeldUpdate(mid, Transfer(t, from, to, n, authorised).value, u, to,
                 t.accounts[to].(amount := t.accounts[to].amount + n));
    }
  }

  lemma OpenHeld(s: State, t: Ledger, a: Pubkey, owner: Pubkey, u: Pubkey)
    requires Open(s, t, a, owner).Some?
    ensures Held(Open(s, t, a, owner).value, u)
         == Held(t, u) + (if owner == u then BalanceOf(t, a) else 0) - (if Owns(t, u, a) then BalanceOf(t, a) else 0)
  {
    hide Held;
    HeldUpdate(t, Open(s, t, a, owner).value, u, a, Holding(owner, BalanceOf(t, a)));
  }

  // ------------------------------------------------ one step

  /** How far principal runs ahead of holdings. */
  ghost function Lead(s: State, u: Pubkey): int {
    PositionOf(s, u).principal - Held(s.yxrp, u)
  }

  /** The position records exactly what its user holds. */
  ghost predicate Matches(s: State, u: Pubkey) {
    Lead(s, u) == 0
  }

  /** The base units of yXRP, or of a handed over account, that a step is about. */
  function Moved(s: State, step: Step): nat {
    match step
    case Deposit(ix) => ix.amount
    case Withdraw(ix) => ix.amount
    case MoveYxrp(_, _, n) => n
    case BurnYxrp(_, n) => n
    case OpenYxrp(a, _) => BalanceOf(s.yxrp, a)
    case _ => 0
  }

  /** The user deposits into and withdraws from the user's own accounts, nobody else does, and
      otherwise nothing enters or leaves them. */
  predicate Keeps(s: State, step: Step, u: Pubkey) {
    match step
    case Deposit(ix) => ix.user == u <==> Owns(s.yxrp, u, ix.userYxrp)
    case Withdraw(ix) => ix.user == u <==> Owns(s.yxrp, u, ix.userYxrp)
    case MoveYxrp(from, to, _) => Owns(s.yxrp, u, from) <==> Owns(s.yxrp, u, to)
    case BurnYxrp(from, _) => !Owns(s.yxrp, u, from)
    case OpenYxrp(a, owner) => Owns(s.yxrp, u, a) <==> owner == u
    case _ => true
  }

  lemma DepositLead(s: State, ix: DepositIx, u: Pubkey)
    requires Inv(s) && s.config.Some? && MoveDeposit(s, ix, Saturating).result == Ok
    ensures Lead(MoveDeposit(s, ix, Saturating).state, u)
         == Lead(s, u) + (if ix.user == u then ix.amount else 0)
            - (if Owns(s.yxrp, u, ix.userYxrp) then ix.amount else 0)
  {
    hide Held, Inv;
    assert ix.userWxrp != s.pdas.vault by {
      Paying(s, ix);
    }
    CreditIsExact(s, ix);
    MintHeld(s.yxrp, ix.userYxrp, ix.amount, u);
  }

  lemma Paying(s: State, ix: DepositIx)
    requires Inv(s) && s.config.Some? && MoveDeposit(s, ix, Saturating).result == Ok
    ensures ix.userWxrp != s.pdas.vault
  {
  }

  lemma WithdrawKeeps(s: State, ix: WithdrawIx, u: Pubkey)
    requires Inv(s) && WithdrawGuard(s, ix) == Ok && MoveWithdraw(s, ix, Saturating).result == Ok && Matches(s, u)
    ensures Matches(MoveWithdraw(s, ix, Saturating).state, u)
       <==> ix.amount == 0 || (ix.user == u <==> Owns(s.yxrp, u, ix.userYxrp))
  {
    hide Held;
    PositionWithinVault(s, ix.user);
    BurnHeld(s.yxrp, ix.userYxrp, ix.amount, MayDebit(s, s.yxrp, ix.userYxrp, ix.user, ix.delegated), u);
  }

  lemma YxrpStepKeeps(s: State, step: Step, u: Pubkey)
    requires Matches(s, u) && (step.MoveYxrp? || step.BurnYxrp? || step.OpenYxrp?)
    ensures var o := Apply(s, step, Saturating);
            Matches(o.state, u) <==> o.result != Ok || Moved(s, step) == 0 || Keeps(s, step, u)
  {
    hide Held;
    if Apply(s, step, Saturating).result == Ok {
      match step
      case MoveYxrp(from, to, n) => TransferHeld(s.yxrp, from, to, n, OthersMayDebit(s, s.yxrp, from), u);
      case BurnYxrp(from, n) => BurnHeld(s.yxrp, from, n, OthersMayDebit(s, s.yxrp, from), u);
      case OpenYxrp(a, owner) => OpenHeld(s, s.yxrp, a, owner, u);
    }
  }

  lemma OtherStepKeeps(s: State, step: Step, u: Pubkey)
    requires !step.Deposit? && !step.Withdraw? && !step.MoveYxrp? && !step.BurnYxrp? && !step.OpenYxrp?
    ensures Matches(Apply(s, step, Saturating).state, u) <==> Matches(s, u)
  {
    hide Held, Attestation.Verdict;
  }

  lemma DepositStepKeeps(s: State, ix: DepositIx, u: Pubkey)
    requires Inv(s) && Matches(s, u)
    ensures Matches(ApplyDeposit(s, ix, Saturating).state, u)
       <==> ApplyDeposit(s, ix, Saturating).result != Ok || ix.amount == 0
            || (ix.user == u <==> Owns(s.yxrp, u, ix.userYxrp))
  {
    hide MoveDeposit, Inv, Lead, Attestation.Verdict;
    if DepositGuard(s, ix) == Ok && MoveDeposit(s, ix, Saturating).result == Ok {
      DepositLead(s, ix, u);
    }
    FailedMove(s, ix);
  }

  lemma WithdrawStepKeeps(s: State, ix: WithdrawIx, u: Pubkey)
    requires Inv(s) && Matches(s, u)
    ensures Matches(ApplyWithdraw(s, ix, Saturating).state, u)
       <==> ApplyWithdraw(s, ix, Saturating).result != Ok || ix.amount == 0
            || (ix.user == u <==> Owns(s.yxrp, u, ix.userYxrp))
  {
    hide MoveWithdraw, Inv, Matches;
    if WithdrawGuard(s, ix) == Ok && MoveWithdraw(s, ix, Saturating).result == Ok {
      WithdrawKeeps(s, ix, u);
    }
    FailedPayout(s, ix);
  }

  /** Whether principal and holdings stay equal can be read off the next step and who owns the
      accounts it names. */
  lemma HoldingsSurviveExactly(s: State, step: Step, u: Pubkey)
    requires Inv(s) && Matches(s, u)
    ensures var o := Apply(s, step, Saturating);
            Matches(o.state, u) <==> o.result != Ok || Moved(s, step) == 0 || Keeps(s, step, u)
  {
    hide Matches, Inv, ApplyDeposit, ApplyWithdraw;
    match step
    case Deposit(ix) => DepositStepKeeps(s, ix, u);
    case Withdraw(ix) => WithdrawStepKeeps(s, ix, u);
    case MoveYxrp(_, _, _) => YxrpStepKeeps(s, step, u);
    case BurnYxrp(_, _) => YxrpStepKeeps(s, step, u);
    case OpenYxrp(_, _) => YxrpStepKeeps(s, step, u);
    case _ => OtherStepKeeps(s, step, u);
  }

  // ------------------------------------------------ every run

  ghost predicate MatchesThroughout(s: State, steps: seq<Step>, u: Pubkey)
    decreases steps
  {
    Matches(s, u) && (steps == [] || MatchesThroughout(Apply(s, steps[0], Saturating).state, steps[1..], u))
  }

  predicate AllKeep(s: State, steps: seq<Step>, u: Pubkey)
    decreases steps
  {
    steps == []
    || var o := Apply(s, steps[0], Saturating);
       && (o.result != Ok || Moved(s, steps[0]) == 0 || Keeps(s, steps[0], u))
       && AllKeep(o.state, steps[1..], u)
  }

  lemma {:induction false} HoldingsFrom(s: State, steps: seq<Step>, u: Pubkey)
    requires Inv(s) && Matches(s, u)
    ensures MatchesThroughout(s, steps, u) <==> AllKeep(s, steps, u)
    decreases steps
  {
    if steps != [] {
      hide Apply, Matches, Moved, Keeps;
      HoldingsSurviveExactly(s, steps[0], u);
      EveryStepIsSafe(s, steps[0]);
      var t := Apply(s, steps[0], Saturating).state;
      if Matches(t, u) {
        HoldingsFrom(t, steps[1..], u);
      } else {
        assert !MatchesThroughout(t, steps[1..], u);
      }
    }
  }

  lemma {:induction false} TotalOfZeros(m: map<Pubkey, int>)
    requires forall k :: k in m ==> m[k] == 0
    ensures Total(m) == 0
    decreases |m|
  {
    if m != map[] {
      var k :| k in m;
      TotalSplit(m, k);
      TotalOfZeros(m - {k});
    }
  }

  lemma NobodyHolds(g: State, u: Pubkey)
    requires Genesis(g)
    ensures Held(g.yxrp, u) == 0
  {
    forall a | a in g.yxrp.accounts ensures g.yxrp.accounts[a].amount == 0 {
      BalanceWithinSupply(g.yxrp, a);
    }
    TotalOfZeros(HeldBy(g.yxrp, u));
  }

  /** Along a run from genesis a user's principal equals all the yXRP that the user holds, at every
      point, exactly when the user deposits into and withdraws from own accounts only, nobody else
      uses these for that, nothing is burned from them, and neither transfers nor handovers cross
      from or to them. */
  lemma HoldingsMatchExactly(g: State, steps: seq<Step>, u: Pubkey)
    requires Genesis(g)
    ensures MatchesThroughout(g, steps, u) <==> AllKeep(g, steps, u)
  {
    GenesisInv(g);
    NobodyHolds(g, u);
    HoldingsFrom(g, steps, u);
  }

  /** A deposit into an account of somebody else leaves the principal ahead by its amount. */
  lemma ForeignDepositBreaksTheMatch(s: State, ix: DepositIx)
    requires Inv(s) && ApplyDeposit(s, ix, Saturating).result == Ok
    requires !Owns(s.yxrp, ix.user, ix.userYxrp)
    ensures Lead(ApplyDeposit(s, ix, Saturating).state, ix.user) == Lead(s, ix.user) + ix.amount
  {
    hide MoveDeposit, Inv, Lead, Attestation.Verdict;
    DepositLead(s, ix, ix.user);
  }
}
