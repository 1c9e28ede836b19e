/** The vault program as a transition function: its eight instructions and the token
    operations anybody else can perform around it. A failed instruction changes nothing. */
module VaultModel {
  import opened Bytes
  import opened Results
  import opened Token
  import opened Attestation

  /** KLend2g3cP87fffoy8q1mQqGKjrxjC8boSyAYavgmjD */
  const KAMINO_PROGRAM_ID: Pubkey := Pubkey([
    4, 178, 172, 177, 18, 88, 204, 227, 104, 44, 65, 139, 168, 114, 255, 61,
    249, 17, 2, 113, 47, 21, 175, 18, 182, 190, 105, 179, 67, 91, 0, 8])

  datatype Config = Config(
    authority: Pubkey,
    wxrpMint: Pubkey,
    yxrpMint: Pubkey,
    attestor: Pubkey,
    maxSingleDeposit: u64,
    stalenessSlots: u64,
    paused: bool,
    bump: byte)

  datatype Position = Position(
    owner: Pubkey,
    venue: byte,
    principal: int,
    receiptSupply: int,
    lastUpdate: int,
    bump: byte)

  /** The program-derived addresses of the Config account and of the wXRP vault. */
  datatype Pdas = Pdas(config: Pubkey, vault: Pubkey)

  /** Positions are keyed by user, as their addresses are derived from the user's key. The two
      ledgers are those of the mints that Config names. */
  datatype State = State(
    pdas: Pdas,
    config: Option<Config>,
    positions: map<Pubkey, Position>,
    wxrp: Ledger,
    yxrp: Ledger)

  datatype DepositIx = DepositIx(
    user: Pubkey, userWxrp: Pubkey, userYxrp: Pubkey, venueProgram: Pubkey,
    amount: u64, attestationSlot: u64, expectedVenue: byte,
    delegated: bool, ctx: Context, time: int, bump: byte)

  datatype WithdrawIx = WithdrawIx(
    user: Pubkey, userYxrp: Pubkey, userWxrp: Pubkey, amount: u64, delegated: bool, time: int)

  datatype RebalanceIx = RebalanceIx(
    user: Pubkey, targetVenue: byte, attestationSlot: u64, ctx: Context, time: int)

  datatype InitializeIx = InitializeIx(
    authority: Pubkey, wxrpMint: Pubkey, yxrpMint: Pubkey,
    attestor: Pubkey, maxSingleDeposit: u64, stalenessSlots: u64, bump: byte)

  /** `delegated` says that the token program accepts the signer as a delegate. */
  datatype Step =
    | Initialize(init: InitializeIx)
    | Deposit(deposit: DepositIx)
    | Withdraw(withdraw: WithdrawIx)
    | Rebalance(rebalance: RebalanceIx)
    | SetPaused(signer: Pubkey, paused: bool)
    | SetCap(signer: Pubkey, maxSingleDeposit: u64, stalenessSlots: u64)
    | RotateAttestor(signer: Pubkey, newAttestor: Pubkey)
    | RotateAuthority(signer: Pubkey, newAuthority: Pubkey)
    // what others do with the two tokens
    | OpenWxrp(address: Pubkey, owner: Pubkey)
    | OpenYxrp(address: Pubkey, owner: Pubkey)
    | MoveWxrp(from: Pubkey, to: Pubkey, amount: u64)
    | MoveYxrp(from: Pubkey, to: Pubkey, amount: u64)
    | IssueWxrp(to: Pubkey, amount: u64)
    | RetireWxrp(from: Pubkey, amount: u64)
    | BurnYxrp(from: Pubkey, amount: u64)

  datatype Outcome = Outcome(state: State, result: Result)

  /** The program's saturating arithmetic, and the unbounded bookkeeping it stands for. */
  datatype Arithmetic = Saturating | Unbounded

  function Add(arith: Arithmetic, a: int, b: nat): int {
    if arith.Saturating? then SaturatingAdd(a, b) else a + b
  }

  function Sub(arith: Arithmetic, a: int, b: nat): int {
    if arith.Saturating? then SaturatingSub(a, b) else a - b
  }

  function Fail(s: State, e: Error): Outcome {
    Outcome(s, Err(e))
  }

  /** Only the Config PDA signs for what it owns, and it signs for nothing but payouts. */
  predicate MayDebit(s: State, t: Ledger, a: Pubkey, signer: Pubkey, delegated: bool) {
    a in t.accounts && t.accounts[a].owner != s.pdas.config && (t.accounts[a].owner == signer || delegated)
  }

  function NewPosition(): Position {
    Position(Pubkey(seq(32, _ => 0)), 0, 0, 0, 0, 0)
  }

  function PositionOf(s: State, user: Pubkey): Position {
    if user in s.positions then s.positions[user] else NewPosition()
  }

  function ApplyInitialize(s: State, ix: InitializeIx): Outcome {
    if s.config.Some? || s.pdas.vault in s.wxrp.accounts then Fail(s, ConstraintViolated)
    else
      var c := Config(ix.authority, ix.wxrpMint, ix.yxrpMint, ix.attestor,
                      ix.maxSingleDeposit, ix.stalenessSlots, false, ix.bump);
      var w := s.wxrp.(accounts := s.wxrp.accounts[s.pdas.vault := Holding(s.pdas.config, 0)]);
      Outcome(s.(config := Some(c), wxrp := w), Ok)
  }

  /** The checks a deposit makes before any token moves, in the program's order. */
  function DepositGuard(s: State, ix: DepositIx): Result {
    if s.config.None? || ix.userWxrp !in s.wxrp.accounts || s.pdas.vault !in s.wxrp.accounts
       || ix.userYxrp !in s.yxrp.accounts || ix.venueProgram != KAMINO_PROGRAM_ID
    then Err(ConstraintViolated)
    else
      var c := s.config.value;
      if c.paused then Err(Paused)
      else if ix.amount > c.maxSingleDeposit then Err(CapExceeded)
      else if ix.expectedVenue != 0 then Err(VenueMismatch)
      else Verdict(ix.ctx, c.attestor, ix.expectedVenue, ix.attestationSlot, c.stalenessSlots)
  }

  function Credited(p: Position, ix: DepositIx, arith: Arithmetic): Position {
    Position(ix.user, 0, Add(arith, p.principal, ix.amount), Add(arith, p.receiptSupply, ix.amount), ix.time, ix.bump)
  }

  /** Pull wXRP, mint the receipt one to one, credit the position. */
  function MoveDeposit(s: State, ix: DepositIx, arith: Arithmetic): Outcome {
    var pulled := Transfer(s.wxrp, ix.userWxrp, s.pdas.vault, ix.amount,
                           MayDebit(s, s.wxrp, ix.userWxrp, ix.user, ix.delegated));
    var minted := MintTo(s.yxrp, ix.userYxrp, ix.amount);
    if pulled.None? || minted.None? then Fail(s, TokenError)
    else
      var p := Credited(PositionOf(s, ix.user), ix, arith);
      Outcome(s.(positions := s.positions[ix.user := p], wxrp := pulled.value, yxrp := minted.value), Ok)
  }

  function ApplyDeposit(s: State, ix: DepositIx, arith: Arithmetic): Outcome {
    var guard := DepositGuard(s, ix);
    if guard.Err? then Fail(s, guard.error) else MoveDeposit(s, ix, arith)
  }

  function WithdrawGuard(s: State, ix: WithdrawIx): Result {
    if s.config.None? || ix.user !in s.positions || s.positions[ix.user].owner != ix.user
       || ix.userYxrp !in s.yxrp.accounts || ix.userWxrp !in s.wxrp.accounts || s.pdas.vault !in s.wxrp.accounts
    then Err(ConstraintViolated)
    else if ix.amount > s.positions[ix.user].receiptSupply then Err(InsufficientBalance)
    else Ok
  }

  function Debited(p: Position, ix: WithdrawIx, arith: Arithmetic): Position {
    p.(principal := Sub(arith, p.principal, ix.amount),
       receiptSupply := Sub(arith, p.receiptSupply, ix.amount), lastUpdate := ix.time)
  }

  /** The Config PDA signs the payout of the vault that it owns. */
  predicate ConfigOwnsVault(s: State) {
    s.pdas.vault in s.wxrp.accounts && s.wxrp.accounts[s.pdas.vault].owner == s.pdas.config
  }

  /** Burn the receipt, pay wXRP out of the vault, debit the position. */
  function MoveWithdraw(s: State, ix: WithdrawIx, arith: Arithmetic): Outcome {
    var burned := Burn(s.yxrp, ix.userYxrp, ix.amount, MayDebit(s, s.yxrp, ix.userYxrp, ix.user, ix.delegated));
    var paid := Transfer(s.wxrp, s.pdas.vault, ix.userWxrp, ix.amount, ConfigOwnsVault(s));
    if burned.None? || paid.None? then Fail(s, TokenError)
    else
      var p := Debited(PositionOf(s, ix.user), ix, arith);
      Outcome(s.(positions := s.positions[ix.user := p], wxrp := paid.value, yxrp := burned.value), Ok)
  }

  function ApplyWithdraw(s: State, ix: WithdrawIx, arith: Arithmetic): Outcome {
    var guard := WithdrawGuard(s, ix);
    if guard.Err? then Fail(s, guard.error) else MoveWithdraw(s, ix, arith)
  }

  function RebalanceGuard(s: State, ix: RebalanceIx): Result {
    if s.config.None? || ix.user !in s.positions || s.positions[ix.user].owner != ix.user
    then Err(ConstraintViolated)
    else
      var c := s.config.value;
      if c.paused then Err(Paused)
      else if ix.targetVenue == s.positions[ix.user].venue then Err(VenueMismatch)
      else Verdict(ix.ctx, c.attestor, ix.targetVenue, ix.attestationSlot, c.stalenessSlots)
  }

  function MoveVenue(s: State, ix: RebalanceIx): Outcome {
    var p := PositionOf(s, ix.user).(venue := ix.targetVenue, lastUpdate := ix.time);
    Outcome(s.(positions := s.positions[ix.user := p]), Ok)
  }

  function ApplyRebalance(s: State, ix: RebalanceIx): Outcome {
    var guard := RebalanceGuard(s, ix);
    if guard.Err? then Fail(s, guard.error) else MoveVenue(s, ix)
  }

  /** The account constraint in front of every admin instruction. */
  function AdminGate(s: State, signer: Pubkey): Result {
    if s.config.None? then Err(ConstraintViolated)
    else if s.config.value.authority != signer then Err(BadAttestor)
    else Ok
  }

  function ApplyAdmin(s: State, signer: Pubkey, change: Config -> Config): Outcome {
    var gate := AdminGate(s, signer);
    if gate.Err? then Fail(s, gate.error) else Outcome(s.(config := Some(change(s.config.value))), Ok)
  }

  function ApplySetCap(s: State, signer: Pubkey, cap: u64, staleness: u64): Outcome {
    var gate := AdminGate(s, signer);
    if gate.Err? then Fail(s, gate.error)
    else if cap == 0 then Fail(s, CapExceeded)
    else if staleness == 0 then Fail(s, AttestationStale)
    else Outcome(s.(config := Some(s.config.value.(maxSingleDeposit := cap, stalenessSlots := staleness))), Ok)
  }

  /** Opens a token account or hands an existing one to another owner. */
  function Open(s: State, t: Ledger, address: Pubkey, owner: Pubkey): Option<Ledger> {
    if address == s.pdas.vault then None
    else if address !in t.accounts then Some(t.(accounts := t.accounts[address := Holding(owner, 0)]))
    else if t.accounts[address].owner == s.pdas.config then None
    else Some(t.(accounts := t.accounts[address := t.accounts[address].(owner := owner)]))
  }

  function WithWxrp(s: State, t: Option<Ledger>): Outcome {
    if t.None? then Fail(s, TokenError) else Outcome(s.(wxrp := t.value), Ok)
  }

  function WithYxrp(s: State, t: Option<Ledger>): Outcome {
    if t.None? then Fail(s, TokenError) else Outcome(s.(yxrp := t.value), Ok)
  }

  /** Anybody may move, retire or burn what the Config PDA does not own. */
  predicate OthersMayDebit(s: State, t: Ledger, a: Pubkey) {
    a in t.accounts && t.accounts[a].owner != s.pdas.config
  }

  function Apply(s: State, step: Step, arith: Arithmetic): Outcome {
    match step
    case Initialize(ix) => ApplyInitialize(s, ix)
    case Deposit(ix) => ApplyDeposit(s, ix, arith)
    case Withdraw(ix) => ApplyWithdraw(s, ix, arith)
    case Rebalance(ix) => ApplyRebalance(s, ix)
    case SetPaused(signer, paused) => ApplyAdmin(s, signer, (c: Config) => c.(paused := paused))
    case SetCap(signer, cap, staleness) => ApplySetCap(s, signer, cap, staleness)
    case RotateAttestor(signer, k) => ApplyAdmin(s, signer, (c: Config) => c.(attestor := k))
    case RotateAuthority(signer, k) => ApplyAdmin(s, signer, (c: Config) => c.(authority := k))
    case OpenWxrp(address, owner) => WithWxrp(s, Open(s, s.wxrp, address, owner))
    case OpenYxrp(address, owner) => WithYxrp(s, Open(s, s.yxrp, address, owner))
    case MoveWxrp(from, to, amount) => WithWxrp(s, Transfer(s.wxrp, from, to, amount, OthersMayDebit(s, s.wxrp, from)))
    case MoveYxrp(from, to, amount) => WithYxrp(s, Transfer(s.yxrp, from, to, amount, OthersMayDebit(s, s.yxrp, from)))
    case IssueWxrp(to, amount) => WithWxrp(s, MintTo(s.wxrp, to, amount))
    case RetireWxrp(from, amount) => WithWxrp(s, Burn(s.wxrp, from, amount, OthersMayDebit(s, s.wxrp, from)))
    case BurnYxrp(from, amount) => WithYxrp(s, Burn(s.yxrp, from, amount, OthersMayDebit(s, s.yxrp, from)))
  }

  /** A run is any sequence of steps, by anybody, in any order. */
  function Run(s: State, steps: seq<Step>, arith: Arithmetic): State
    decreases steps
  {
    if steps == [] then s else Run(Apply(s, steps[0], arith).state, steps[1..], arith)
  }
}
