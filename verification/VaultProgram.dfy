/** The program's handlers as they run: each checks its accounts and guards, calls the token
    program, assigns the account fields, and commits only when it returns Ok. */
module VaultProgram {
  import opened Bytes
  import opened Results
  import opened Token
  import opened Attestation
  import M = VaultModel

  class Vault {
    const pdas: M.Pdas
    var config: Option<M.Config>
    var positions: map<Pubkey, M.Position>
    var wxrp: Ledger
    var yxrp: Ledger

    /** A cluster on which the program is deployed but not initialized. */
    constructor (pdas: M.Pdas, wxrp: Ledger, yxrp: Ledger)
      ensures State() == M.State(pdas, None, map[], wxrp, yxrp)
    {
      this.pdas := pdas;
      this.config, this.positions, this.wxrp, this.yxrp := None, map[], wxrp, yxrp;
    }

    function State(): M.State
      reads this
    {
      M.State(pdas, config, positions, wxrp, yxrp)
    }

    /** The new state and the result are those of `step` taken from the old state. */
    twostate predicate Took(step: M.Step, r: Result)
      reads this
    {
      M.Outcome(State(), r) == M.Apply(old(State()), step, M.Saturating)
    }

    method Initialize(ix: M.InitializeIx) returns (r: Result)
      modifies this
      ensures Took(M.Initialize(ix), r)
    {
      if config.Some? || pdas.vault in wxrp.accounts {
        return Err(ConstraintViolated);
      }
      config := Some(M.Config(ix.authority, ix.wxrpMint, ix.yxrpMint, ix.attestor,
                              ix.maxSingleDeposit, ix.stalenessSlots, false, ix.bump));
      wxrp := wxrp.(accounts := wxrp.accounts[pdas.vault := Holding(pdas.config, 0)]);
      return Ok;
    }

    method Deposit(ix: M.DepositIx) returns (r: Result)
      modifies this
      ensures Took(M.Deposit(ix), r)
    {
      if config.None? || ix.userWxrp !in wxrp.accounts || pdas.vault !in wxrp.accounts
         || ix.userYxrp !in yxrp.accounts || ix.venueProgram != M.KAMINO_PROGRAM_ID {
        return Err(ConstraintViolated);
      }
      var cfg := config.value;
      if cfg.paused {
        return Err(Paused);
      }
      if ix.amount > cfg.maxSingleDeposit {
        return Err(CapExceeded);
      }
      if ix.expectedVenue != 0 {
        return Err(VenueMismatch);
      }
      // 1. the optimizer's attestation
      var attested := Verify(ix.ctx, cfg.attestor, ix.expectedVenue, ix.attestationSlot, cfg.stalenessSlots);
      if attested.Err? {
        return attested;
      }
      // 2. wXRP: user to vault
      var pulled := Transfer(wxrp, ix.userWxrp, pdas.vault, ix.amount,
                             M.MayDebit(State(), wxrp, ix.userWxrp, ix.user, ix.delegated));
      if pulled.None? {
        return Err(TokenError);
      }
      // 3. the venue call does nothing; 4. mint the receipt
      var minted := MintTo(yxrp, ix.userYxrp, ix.amount);
      if minted.None? {
        return Err(TokenError);
      }
      // 5. the position
      var p := M.PositionOf(State(), ix.user);
      p := p.(owner := ix.user);
      p := p.(venue := 0);
      p := p.(principal := SaturatingAdd(p.principal, ix.amount));
      p := p.(receiptSupply := SaturatingAdd(p.receiptSupply, ix.amount));
      p := p.(lastUpdate := ix.time);
      p := p.(bump := ix.bump);
      positions, wxrp, yxrp := positions[ix.user := p], pulled.value, minted.value;
      return Ok;
    }

    method Withdraw(ix: M.WithdrawIx) returns (r: Result)
      modifies this
      ensures Took(M.Withdraw(ix), r)
    {
      if config.None? || ix.user !in positions || positions[ix.user].owner != ix.user
         || ix.userYxrp !in yxrp.accounts || ix.userWxrp !in wxrp.accounts || pdas.vault !in wxrp.accounts {
        return Err(ConstraintViolated);
      }
      if ix.amount > positions[ix.user].receiptSupply {
        return Err(InsufficientBalance);
      }
      // 1. burn the receipt
      var burned := Burn(yxrp, ix.userYxrp, ix.amount,
                         M.MayDebit(State(), yxrp, ix.userYxrp, ix.user, ix.delegated));
      if burned.None? {
        return Err(TokenError);
      }
      // 2. the venue call does nothing; 3. wXRP: vault to user, signed by the Config PDA
      var paid := Transfer(wxrp, pdas.vault, ix.userWxrp, ix.amount,
                           wxrp.accounts[pdas.vault].owner == pdas.config);
      if paid.None? {
        return Err(TokenError);
      }
      var p := positions[ix.user];
      p := p.(principal := SaturatingSub(p.principal, ix.amount));
      p := p.(receiptSupply := SaturatingSub(p.receiptSupply, ix.amount));
      p := p.(lastUpdate := ix.time);
      positions, wxrp, yxrp := positions[ix.user := p], paid.value, burned.value;
      return Ok;
    }

    method Rebalance(ix: M.RebalanceIx) returns (r: Result)
      modifies this
      ensures Took(M.Rebalance(ix), r)
    {
      if config.None? || ix.user !in positions || positions[ix.user].owner != ix.user {
        return Err(ConstraintViolated);
      }
      var cfg, p := config.value, positions[ix.user];
      if cfg.paused {
        return Err(Paused);
      }
      if ix.targetVenue == p.venue {
        return Err(VenueMismatch);
      }
      var attested := Verify(ix.ctx, cfg.attestor, ix.targetVenue, ix.attestationSlot, cfg.stalenessSlots);
      if attested.Err? {
        return attested;
      }
      p := p.(venue := ix.targetVenue);
      p := p.(lastUpdate := ix.time);
      positions := positions[ix.user := p];
      return Ok;
    }

    method SetPaused(signer: Pubkey, paused: bool) returns (r: Result)
      modifies this
      ensures Took(M.SetPaused(signer, paused), r)
    {
      r := M.AdminGate(State(), signer);
      if r.Ok? {
        config := Some(config.value.(paused := paused));
      }
    }

    method SetCap(signer: Pubkey, maxSingleDeposit: u64, stalenessSlots: u64) returns (r: Result)
      modifies this
      ensures Took(M.SetCap(signer, maxSingleDeposit, stalenessSlots), r)
    {
      r := M.AdminGate(State(), signer);
      if r.Err? {
        return;
      }
      if maxSingleDeposit == 0 {
        return Err(CapExceeded);
      }
      if stalenessSlots == 0 {
        return Err(AttestationStale);
      }
      var c := config.value;
      c := c.(maxSingleDeposit := maxSingleDeposit);
      c := c.(stalenessSlots := stalenessSlots);
      config := Some(c);
    }

    method RotateAttestor(signer: Pubkey, newAttestor: Pubkey) returns (r: Result)
      modifies this
      ensures Took(M.RotateAttestor(signer, newAttestor), r)
    {
      r := M.AdminGate(State(), signer);
      if r.Ok? {
        config := Some(config.value.(attestor := newAttestor));
      }
    }

    method RotateAuthority(signer: Pubkey, newAuthority: Pubkey) returns (r: Result)
      modifies this
      ensures Took(M.RotateAuthority(signer, newAuthority), r)
    {
      r := M.AdminGate(State(), signer);
      if r.Ok? {
        config := Some(config.value.(authority := newAuthority));
      }
    }
  }
}
