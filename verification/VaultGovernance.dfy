/** Who can change the configuration, and what a pause stops. */
module VaultGovernance {
  import opened Bytes
  import opened Results
  import opened Sums
  import opened Token
  import opened VaultModel
  import opened VaultSafety

  // ------------------------------------------------ configuration

  function SignerOf(step: Step): Option<Pubkey> {
    match step
    case SetPaused(k, _) => Some(k)
    case SetCap(k, _, _) => Some(k)
    case RotateAttestor(k, _) => Some(k)
    case RotateAuthority(k, _) => Some(k)
    case _ => None
  }

  /** The two mints and the bump stay, and only the authority in force changes the rest. */
  ghost predicate SignedChange(c: Config, d: Config, step: Step) {
    && d.wxrpMint == c.wxrpMint && d.yxrpMint == c.yxrpMint && d.bump == c.bump
    && (d != c ==> SignerOf(step) == Some(c.authority))
  }

  lemma ConfigStep(s: State, step: Step)
    requires s.config.Some?
    ensures var t := Apply(s, step, Saturating).state;
            t.config.Some? && SignedChange(s.config.value, t.config.value, step)
  {
  }

  lemma {:induction false} RunPrefix(s: State, steps: seq<Step>, i: nat)
    requires i < |steps|
    ensures Run(s, steps[..i + 1], Saturating) == Apply(Run(s, steps[..i], Saturating), steps[i], Saturating).state
    decreases steps
  {
    var next := Apply(s, steps[0], Saturating).state;
    if i == 0 {
      assert steps[..1] == [steps[0]] && steps[..0] == [];
      assert Run(next, [steps[0]][1..], Saturating) == next;
    } else {
      assert steps[..i + 1][1..] == steps[1..][..i] && steps[..i][1..] == steps[1..][..i - 1];
      RunPrefix(next, steps[1..], i - 1);
    }
  }

  /** Along every run that starts initialized, each change of the configuration is signed by
      the authority in force at that point, and mints and bump are for ever those of the start. */
  lemma {:induction false} ConfigHistory(s: State, steps: seq<Step>, i: nat)
    requires s.config.Some? && i < |steps|
    ensures var c, d := Run(s, steps[..i], Saturating).config, Run(s, steps[..i + 1], Saturating).config;
            && c.Some? && d.Some? && SignedChange(c.value, d.value, steps[i])
            && d.value.wxrpMint == s.config.value.wxrpMint
            && d.value.yxrpMint == s.config.value.yxrpMint
            && d.value.bump == s.config.value.bump
    decreases i
  {
    if i == 0 {
      assert steps[..0] == [];
    } else {
      ConfigHistory(s, steps, i - 1);
    }
    RunPrefix(s, steps, i);
    ConfigStep(Run(s, steps[..i], Saturating), steps[i]);
  }

  /** From an uninitialized program on: `initialize` succeeds once, records exactly what it was
      given with the program running, and whatever follows, the two mints and the bump stay those
      and every further `initialize` is refused. */
  lemma InitializedOnce(s: State, ix: InitializeIx, steps: seq<Step>, again: InitializeIx)
    requires ApplyInitialize(s, ix).result == Ok
    ensures s.config.None?
    ensures ApplyInitialize(s, ix).state.config
         == Some(Config(ix.authority, ix.wxrpMint, ix.yxrpMint, ix.attestor,
                        ix.maxSingleDeposit, ix.stalenessSlots, false, ix.bump))
    ensures var t := Run(ApplyInitialize(s, ix).state, steps, Saturating);
            && t.config.Some?
            && t.config.value.wxrpMint == ix.wxrpMint && t.config.value.yxrpMint == ix.yxrpMint
            && t.config.value.bump == ix.bump
            && ApplyInitialize(t, again) == Outcome(t, Err(ConstraintViolated))
  {
    var u := ApplyInitialize(s, ix).state;
    if steps != [] {
      ConfigHistory(u, steps, |steps| - 1);
      assert steps[..|steps| - 1 + 1] == steps;
    }
  }

  /** What a step writes to the configuration, and why it may be refused: strangers first, then a
      zero cap, then a zero staleness bound. */
  lemma AdminStepIsExact(s: State, step: Step)
    requires s.config.Some? && SignerOf(step).Some?
    ensures var c, o := s.config.value, Apply(s, step, Saturating);
      && o.result == (if SignerOf(step).value != c.authority then Err(BadAttestor)
                      else if step.SetCap? && step.maxSingleDeposit == 0 then Err(CapExceeded)
                      else if step.SetCap? && step.stalenessSlots == 0 then Err(AttestationStale)
                      else Ok)
      && (o.result != Ok ==> o.state == s)
      && (o.result == Ok ==>
            && o.state.config.Some? && o.state == s.(config := o.state.config)
            && var d := o.state.config.value;
            && d.paused == (if step.SetPaused? then step.paused else c.paused)
            && d.maxSingleDeposit == (if step.SetCap? then step.maxSingleDeposit else c.maxSingleDeposit)
            && d.stalenessSlots == (if step.SetCap? then step.stalenessSlots else c.stalenessSlots)
            && d.attestor == (if step.RotateAttestor? then step.newAttestor else c.attestor)
            && d.authority == (if step.RotateAuthority? then step.newAuthority else c.authority))
  {
  }

  ghost predicate Governs(s: State, k: Pubkey) {
    s.config.Some? && s.config.value.authority == k
  }

  /** `k` is the authority at every point of the run. */
  ghost predicate GovernsThroughout(s: State, steps: seq<Step>, k: Pubkey)
    decreases steps
  {
    Governs(s, k) && (steps == [] || GovernsThroughout(Apply(s, steps[0], Saturating).state, steps[1..], k))
  }

  /** The step in which `k` signs the authority away. */
  predicate HandsOver(step: Step, k: Pubkey) {
    step.RotateAuthority? && step.signer == k && step.newAuthority != k
  }

  lemma AuthorityStep(s: State, step: Step, k: Pubkey)
    requires Governs(s, k)
    ensures Governs(Apply(s, step, Saturating).state, k) <==> !HandsOver(step, k)
  {
    ConfigStep(s, step);
    if SignerOf(step).Some? {
      AdminStepIsExact(s, step);
    }
  }

  /** The authority stays the same through a whole run exactly when it never signs itself away:
      whether it does can be read off the steps, and nobody else's steps matter. */
  lemma {:induction false} AuthorityStaysExactly(s: State, steps: seq<Step>, k: Pubkey)
    requires Governs(s, k)
    ensures GovernsThroughout(s, steps, k) <==> forall i :: 0 <= i < |steps| ==> !HandsOver(steps[i], k)
    decreases steps
  {
    if steps != [] {
      hide Apply, Governs;
      var t := Apply(s, steps[0], Saturating).state;
      AuthorityStep(s, steps[0], k);
      if Governs(t, k) {
        AuthorityStaysExactly(t, steps[1..], k);
        assert forall i :: 0 < i < |steps| ==> steps[i] == steps[1..][i - 1];
        assert forall i :: 0 <= i < |steps[1..]| ==> steps[1..][i] == steps[i + 1];
      } else {
        assert !GovernsThroughout(t, steps[1..], k);
      }
    }
  }

  // ------------------------------------------------ pause

  predicate Unpauses(s: State, step: Step) {
    step.SetPaused? && !step.paused && Apply(s, step, Saturating).result == Ok
  }

  /** No step of the segment clears the pause. */
  ghost predicate StaysPaused(s: State, steps: seq<Step>)
    decreases steps
  {
    steps == [] || (!Unpauses(s, steps[0]) && StaysPaused(Apply(s, steps[0], Saturating).state, steps[1..]))
  }

  function WithdrawnIn(s: State, step: Step, user: Option<Pubkey>): nat {
    if step.Withdraw? && (user.None? || step.withdraw.user == user.value) && Apply(s, step, Saturating).result == Ok
    then step.withdraw.amount else 0
  }

  /** What `user` (or everybody, for None) withdrew over a segment. */
  function WithdrawnOver(s: State, steps: seq<Step>, user: Option<Pubkey>): nat
    decreases steps
  {
    if steps == [] then 0
    else WithdrawnIn(s, steps[0], user) + WithdrawnOver(Apply(s, steps[0], Saturating).state, steps[1..], user)
  }

  ghost predicate IsPaused(s: State) {
    s.config.Some? && s.config.value.paused
  }

  /** From `s` to `t`, venues and the set of positions stay, principals fall by `withdrawn`, and
      yXRP only disappears: `gone` of it. */
  ghost predicate OnlyExits(s: State, t: State, withdrawn: Pubkey -> nat, gone: int) {
    && IsPaused(t)
    && t.positions.Keys == s.positions.Keys
    && (forall u :: u in s.positions ==>
          && t.positions[u].venue == s.positions[u].venue
          && t.positions[u].principal == s.positions[u].principal - withdrawn(u))
    && t.yxrp.supply == s.yxrp.supply - gone
  }

  lemma PausedWithdraw(s: State, ix: WithdrawIx)
    requires Inv(s) && IsPaused(s)
    ensures OnlyExits(s, ApplyWithdraw(s, ix, Saturating).state,
                      u => WithdrawnIn(s, Withdraw(ix), Some(u)), WithdrawnIn(s, Withdraw(ix), None))
  {
    if ApplyWithdraw(s, ix, Saturating).result == Ok {
      BurnSound(s.yxrp, ix.userYxrp, ix.amount, MayDebit(s, s.yxrp, ix.userYxrp, ix.user, ix.delegated));
      assert s.positions[ix.user].principal == s.positions[ix.user].receiptSupply;
    }
  }

  lemma PausedDeposit(s: State, ix: DepositIx)
    requires IsPaused(s)
    ensures ApplyDeposit(s, ix, Saturating).result.Err? && ApplyDeposit(s, ix, Saturating).state == s
  {
  }

  lemma PausedRebalance(s: State, ix: RebalanceIx)
    requires IsPaused(s)
    ensures ApplyRebalance(s, ix).result.Err? && ApplyRebalance(s, ix).state == s
  {
  }

  /** Everything but a withdrawal leaves all positions alone while the program is paused. */
  lemma PausedOtherStep(s: State, step: Step)
    requires Inv(s) && IsPaused(s) && !Unpauses(s, step) && !step.Withdraw?
    ensures var t := Apply(s, step, Saturating).state;
            IsPaused(t) && t.positions == s.positions && t.yxrp.supply == s.yxrp.supply - BurnedOutside(s, step)
  {
    hide ApplyDeposit, ApplyRebalance, ApplyWithdraw, Total, Balances, PositionsInLockstep;
    match step
    case Deposit(ix) => PausedDeposit(s, ix);
    case Rebalance(ix) => PausedRebalance(s, ix);
    case MoveYxrp(from, to, n) => TransferSound(s.yxrp, from, to, n, OthersMayDebit(s, s.yxrp, from));
    case BurnYxrp(from, n) => BurnSound(s.yxrp, from, n, OthersMayDebit(s, s.yxrp, from));
    case _ =>
  }

  lemma PausedStep(s: State, step: Step)
    requires Inv(s) && IsPaused(s) && !Unpauses(s, step)
    ensures OnlyExits(s, Apply(s, step, Saturating).state,
                      u => WithdrawnIn(s, step, Some(u)),
                      WithdrawnIn(s, step, None) + BurnedOutside(s, step))
  {
    if step.Withdraw? {
      PausedWithdraw(s, step.withdraw);
    } else {
      PausedOtherStep(s, step);
    }
  }

  /** Over a paused segment, whatever everybody does: no position appears or changes venue, each
      principal falls by exactly what its user withdrew, and the program mints no yXRP: the
      supply falls by exactly what was withdrawn and burned. */
  lemma {:induction false} PausedSegment(s: State, steps: seq<Step>)
    requires Inv(s) && IsPaused(s) && StaysPaused(s, steps)
    ensures OnlyExits(s, Run(s, steps, Saturating),
                      u => WithdrawnOver(s, steps, Some(u)),
                      WithdrawnOver(s, steps, None) + BurnedOver(s, steps))
    decreases steps
  {
    if steps != [] {
      PausedStep(s, steps[0]);
      EveryStepIsSafe(s, steps[0]);
      PausedSegment(Apply(s, steps[0], Saturating).state, steps[1..]);
    }
  }
}
