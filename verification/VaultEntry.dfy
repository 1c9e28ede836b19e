/** Deposits and rebalances: exactly when they succeed, what they change, and that a withdrawal
    undoes a deposit. */
module VaultEntry {
  import opened Bytes
  import opened Results
  import opened Sums
  import opened Token
  import opened Attestation
  import opened VaultModel
  import opened VaultSafety

  /** In a reachable state a deposit succeeds exactly when its accounts, guards and attestation
      are in order and the user's account holds the amount: neither the vault's balance nor the
      yXRP supply can overflow. */
  lemma DepositSucceedsExactly(s: State, ix: DepositIx)
    requires Inv(s)
    ensures ApplyDeposit(s, ix, Saturating).result == Ok
       <==> && s.config.Some?
            && ix.venueProgram == KAMINO_PROGRAM_ID && ix.expectedVenue == 0
            && !s.config.value.paused && ix.amount <= s.config.value.maxSingleDeposit
            && Verdict(ix.ctx, s.config.value.attestor, 0, ix.attestationSlot, s.config.value.stalenessSlots) == Ok
            && ix.userYxrp in s.yxrp.accounts
            && MayDebit(s, s.wxrp, ix.userWxrp, ix.user, ix.delegated)
            && ix.amount <= s.wxrp.accounts[ix.userWxrp].amount
  {
    hide Verdict, KAMINO_PROGRAM_ID;
    if s.config.Some? && MayDebit(s, s.wxrp, ix.userWxrp, ix.user, ix.delegated)
       && ix.amount <= s.wxrp.accounts[ix.userWxrp].amount {
      TwoBalancesWithinSupply(s.wxrp, ix.userWxrp, s.pdas.vault);
      assert Principals(s.positions) == Receipts(s.positions);
      if ix.userYxrp in s.yxrp.accounts {
        BalanceWithinSupply(s.yxrp, ix.userYxrp);
      }
    }
  }

  predicate DepositAccountsOk(s: State, ix: DepositIx) {
    && s.config.Some? && ix.userWxrp in s.wxrp.accounts && s.pdas.vault in s.wxrp.accounts
    && ix.userYxrp in s.yxrp.accounts && ix.venueProgram == KAMINO_PROGRAM_ID
  }

  /** Why a deposit is refused, in the program's order: accounts, pause, cap, venue, attestation,
      and the token program last. */
  lemma DepositRefusals(s: State, ix: DepositIx)
    ensures var o := ApplyDeposit(s, ix, Saturating);
            var accounts := DepositAccountsOk(s, ix);
            var running := accounts && !s.config.value.paused;
            var within := running && ix.amount <= s.config.value.maxSingleDeposit;
            var venue := within && ix.expectedVenue == 0;
            var v := if venue then Verdict(ix.ctx, s.config.value.attestor, 0, ix.attestationSlot,
                                           s.config.value.stalenessSlots) else Ok;
      && (o.result == Err(ConstraintViolated) <==> !accounts)
      && (o.result == Err(Paused) <==> accounts && !running)
      && (o.result == Err(CapExceeded) <==> running && !within)
      && (within && !venue ==> o.result == Err(VenueMismatch))
      && (v.Err? ==> o.result == v)
      && (venue && v == Ok && o.result != Ok ==> o.result == Err(TokenError))
      && (o.result != Ok ==> o.state == s)
  {
    VerdictErrors(ix.ctx, if s.config.Some? then s.config.value.attestor else ix.user, ix.expectedVenue,
                  ix.attestationSlot, if s.config.Some? then s.config.value.stalenessSlots else 0);
    hide Verdict, KAMINO_PROGRAM_ID;
    FailedMove(s, ix);
  }

  /** The errors of an attestation are its own. */
  lemma VerdictErrors(ctx: Context, attestor: Pubkey, venue: byte, slot: u64, staleness: u64)
    ensures Verdict(ctx, attestor, venue, slot, staleness)
         in {Ok, Err(BadAttestIx), Err(BadAttestor), Err(VenueMismatch), Err(AttestationStale)}
  {
  }

  /** Why a withdrawal is refused: accounts, then the recorded receipts, then the token program. */
  lemma WithdrawRefusals(s: State, ix: WithdrawIx)
    ensures var o := ApplyWithdraw(s, ix, Saturating);
            var accounts := s.config.Some? && ix.user in s.positions && s.positions[ix.user].owner == ix.user
                            && ix.userYxrp in s.yxrp.accounts && ix.userWxrp in s.wxrp.accounts
                            && s.pdas.vault in s.wxrp.accounts;
            var covered := accounts && ix.amount <= s.positions[ix.user].receiptSupply;
      && (o.result == Err(ConstraintViolated) <==> !accounts)
      && (o.result == Err(InsufficientBalance) <==> accounts && !covered)
      && (covered && o.result != Ok ==> o.result == Err(TokenError))
      && (o.result != Ok ==> o.state == s)
  {
  }

  /** Why a rebalance is refused: accounts, pause, the venue it is in already, the attestation. */
  lemma RebalanceRefusals(s: State, ix: RebalanceIx)
    ensures var o := ApplyRebalance(s, ix);
            var accounts := s.config.Some? && ix.user in s.positions && s.positions[ix.user].owner == ix.user;
            var running := accounts && !s.config.value.paused;
            var elsewhere := running && ix.targetVenue != s.positions[ix.user].venue;
      && (o.result == Err(ConstraintViolated) <==> !accounts)
      && (o.result == Err(Paused) <==> accounts && !running)
      && (running && !elsewhere ==> o.result == Err(VenueMismatch))
      && (elsewhere ==> o.result == Verdict(ix.ctx, s.config.value.attestor, ix.targetVenue, ix.attestationSlot,
                                            s.config.value.stalenessSlots))
  {
    VerdictErrors(ix.ctx, if s.config.Some? then s.config.value.attestor else ix.user, ix.targetVenue,
                  ix.attestationSlot, if s.config.Some? then s.config.value.stalenessSlots else 0);
    hide Verdict;
  }

  /** A successful deposit moves the amount from the user's account to the vault, mints as much
      yXRP to the receipt account, credits that user's position as much, in venue 0, and touches
      nothing else. */
  lemma DepositMovesExactly(s: State, ix: DepositIx)
    requires Inv(s) && ApplyDeposit(s, ix, Saturating).result == Ok
    ensures ix.userWxrp != s.pdas.vault
    ensures var t := ApplyDeposit(s, ix, Saturating).state;
            var p := PositionOf(s, ix.user);
      && t.config == s.config && t.pdas == s.pdas
      && t.wxrp.supply == s.wxrp.supply && t.yxrp.supply == s.yxrp.supply + ix.amount
      && t.wxrp.accounts == s.wxrp.accounts
           [ix.userWxrp := s.wxrp.accounts[ix.userWxrp].(amount := s.wxrp.accounts[ix.userWxrp].amount - ix.amount)]
           [s.pdas.vault := Holding(s.pdas.config, VaultBalance(s) + ix.amount)]
      && t.yxrp.accounts == s.yxrp.accounts
           [ix.userYxrp := s.yxrp.accounts[ix.userYxrp].(amount := s.yxrp.accounts[ix.userYxrp].amount + ix.amount)]
      && t.positions == s.positions
           [ix.user := Position(ix.user, 0, p.principal + ix.amount, p.receiptSupply + ix.amount, ix.time, ix.bump)]
  {
    hide Verdict, KAMINO_PROGRAM_ID;
    CreditIsExact(s, ix);
  }

  /** A rebalance goes through exactly for an attested other venue while the program runs, and
      changes the venue and the time of that one position: no balance, no principal. */
  lemma RebalanceChangesOnlyTheVenue(s: State, ix: RebalanceIx)
    requires Inv(s)
    ensures var o := ApplyRebalance(s, ix);
      && (o.result == Ok
          <==> && s.config.Some? && ix.user in s.positions && !s.config.value.paused
               && ix.targetVenue != s.positions[ix.user].venue
               && Verdict(ix.ctx, s.config.value.attestor, ix.targetVenue, ix.attestationSlot,
                          s.config.value.stalenessSlots) == Ok)
      && (o.result == Ok ==>
            o.state == s.(positions := s.positions
              [ix.user := s.positions[ix.user].(venue := ix.targetVenue, lastUpdate := ix.time)]))
      && (o.result != Ok ==> o.state == s)
  {
    hide Verdict;
  }

  /** The transaction that carries an attestation, with what wallets put around it. */
  function Carrying(header: seq<byte>, att: SignedAttestation, before: seq<Instruction>, after: seq<Instruction>,
                    now: u64): Context
    requires |header| == 16
  {
    Context(IX_SYSVAR_ID, before + [PreInstruction(header, att)] + after, now)
  }

  /** Deposits accept exactly the optimizer's Kamino attestations: on a running program, within the
      cap, for the venue number 0 that deposits demand. */
  lemma DepositTakesKaminoOnly(s: State, ix: DepositIx, v: Venue, header: seq<byte>, att: SignedAttestation,
                               before: seq<Instruction>, after: seq<Instruction>, now: u64)
    requires |header| == 16 && att.venueCode == VenueCode(v)
    requires forall i :: i in before ==> !IsEd25519(i)
    requires ix.ctx == Carrying(header, att, before, after, now)
    requires s.config.Some? && ix.userWxrp in s.wxrp.accounts && s.pdas.vault in s.wxrp.accounts
    requires ix.userYxrp in s.yxrp.accounts && ix.venueProgram == KAMINO_PROGRAM_ID
    ensures DepositGuard(s, ix) == Ok
       <==> && !s.config.value.paused && ix.amount <= s.config.value.maxSingleDeposit && ix.expectedVenue == 0
            && v == Kamino && |before| <= 15 && s.config.value.attestor == att.pubkey
            && ix.attestationSlot == att.slot && now <= att.slot + s.config.value.stalenessSlots
  {
    AttestedVenue(v, before, header, att, after, now, s.config.value.attestor, ix.expectedVenue,
                  ix.attestationSlot, s.config.value.stalenessSlots);
    hide Verdict, VenueCode, PreInstruction;
  }

  /** A rebalance takes the attestation of its target venue, by number, and of no other. */
  lemma RebalanceTakesItsVenueOnly(s: State, ix: RebalanceIx, v: Venue, header: seq<byte>, att: SignedAttestation,
                                   before: seq<Instruction>, after: seq<Instruction>, now: u64)
    requires |header| == 16 && att.venueCode == VenueCode(v)
    requires forall i :: i in before ==> !IsEd25519(i)
    requires ix.ctx == Carrying(header, att, before, after, now)
    requires s.config.Some? && ix.user in s.positions && s.positions[ix.user].owner == ix.user
    ensures RebalanceGuard(s, ix) == Ok
       <==> && !s.config.value.paused && ix.targetVenue != s.positions[ix.user].venue
            && ((v == Kamino && ix.targetVenue == 0) || (v == Marginfi && ix.targetVenue == 1)
                || (v == Drift && ix.targetVenue == 2) || (v == Meteora && ix.targetVenue == 3))
            && |before| <= 15 && s.config.value.attestor == att.pubkey
            && ix.attestationSlot == att.slot && now <= att.slot + s.config.value.stalenessSlots
  {
    AttestedVenue(v, before, header, att, after, now, s.config.value.attestor, ix.targetVenue,
                  ix.attestationSlot, s.config.value.stalenessSlots);
    hide Verdict, VenueCode, PreInstruction;
  }

  /** The withdrawal, by the depositor, from the account that got the receipt to the account
      that paid. */
  function Undoing(ix: DepositIx, delegated: bool, time: int): WithdrawIx {
    WithdrawIx(ix.user, ix.userYxrp, ix.userWxrp, ix.amount, delegated, time)
  }

  ghost predicate Restored(s: State, t: State, user: Pubkey) {
    && t.wxrp == s.wxrp && t.yxrp == s.yxrp
    && PositionOf(t, user).principal == PositionOf(s, user).principal
    && PositionOf(t, user).receiptSupply == PositionOf(s, user).receiptSupply
    && (forall u :: u != user ==> PositionOf(t, u) == PositionOf(s, u))
  }

  /** Withdrawing what was just deposited goes through, whatever the configuration has become,
      exactly when the depositor may debit the account that got the receipt, which need not be
      the depositor's own; it then restores both ledgers and the user's principal. */
  lemma WithdrawUndoesDeposit(s: State, ix: DepositIx, c: Config, delegated: bool, time: int)
    requires Inv(s) && ApplyDeposit(s, ix, Saturating).result == Ok
    ensures var t := ApplyDeposit(s, ix, Saturating).state.(config := Some(c));
            var o := ApplyWithdraw(t, Undoing(ix, delegated, time), Saturating);
      && (o.result == Ok <==> MayDebit(s, s.yxrp, ix.userYxrp, ix.user, delegated))
      && (if o.result == Ok then Restored(s, o.state, ix.user) else o.state == t)
  {
    hide Verdict, KAMINO_PROGRAM_ID, Total, Balances, ApplyDeposit;
    DepositorAccounts(s, ix);
    DepositMovesExactly(s, ix);
    PositionWithinVault(s, ix.user);
    BalanceWithinSupply(s.wxrp, ix.userWxrp);
    var t := ApplyDeposit(s, ix, Saturating).state.(config := Some(c));
    var w := Undoing(ix, delegated, time);
    assert WithdrawGuard(t, w) == Ok;
    var o := MoveWithdraw(t, w, Saturating);
    assert o.result == Ok <==> MayDebit(s, s.yxrp, ix.userYxrp, ix.user, delegated);
    if o.result == Ok {
      assert o.state.wxrp.accounts == s.wxrp.accounts;
      assert o.state.yxrp.accounts == s.yxrp.accounts;
    }
  }

  lemma DepositorAccounts(s: State, ix: DepositIx)
    requires Inv(s) && ApplyDeposit(s, ix, Saturating).result == Ok
    ensures s.config.Some? && ix.userWxrp in s.wxrp.accounts && ix.userYxrp in s.yxrp.accounts
    ensures ix.amount <= s.wxrp.accounts[ix.userWxrp].amount
    ensures s.pdas.vault in s.wxrp.accounts && s.wxrp.accounts[s.pdas.vault].owner == s.pdas.config
  {
    hide Verdict, KAMINO_PROGRAM_ID;
  }
}
