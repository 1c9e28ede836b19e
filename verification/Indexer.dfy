/** The rewards server as a state machine over its epoch directory and counters: running epochs,
    publishing them, and serving claims. */
module Indexer {
  import opened Bytes
  import opened Results
  import opened Rewards
  import opened Snapshot
  import opened Merkle
  import opened Storage
  import opened Epoch
  import opened SaberBundle
  import opened SaberPublisher

  datatype Setup = Setup(h: Hash, pow: Power, params: RewardParams, minIntervalMs: int, publisherOn: bool)

  /** The files are on disk, the two counters belong to the process and start at zero. */
  datatype State = State(files: Directory, epochCount: nat, publishCount: nat)

  datatype RunInputs = RunInputs(
    market: Option<Market>, rows: seq<ParticipantInput>, times: Times, now: int, names: seq<string>)

  datatype Event =
    | RunEpochCall(run: RunInputs)
    | PublishCall(id: Option<nat>, env: PublishEnv)
    | Restart

  datatype Reply =
    | TooRecent
    | Failed
    | Ran(epochId: nat)
    | NotConfigured
    | NoSuchEpoch
    | Publishing(result: PublishResult)
    | Restarted

  /** The interval guard looks at `latest.json`. */
  predicate RefusesRun(files: Directory, now: int, minIntervalMs: int) {
    LATEST in files && now - files[LATEST].endedAt < minIntervalMs
  }

  function RunResult(setup: Setup, run: RunInputs): Option<EpochResult> {
    if run.market.None? then None
    else MakeEpoch(setup.h, setup.pow, setup.params, run.market.value, run.rows, run.times, NextEpochId(run.names))
  }

  function RunStep(setup: Setup, s: State, run: RunInputs): (State, Reply) {
    if RefusesRun(s.files, run.now, setup.minIntervalMs) then (s, TooRecent)
    else match RunResult(setup, run)
      case None => (s, Failed)
      case Some(e) => (State(Written(s.files, e), s.epochCount + 1, s.publishCount), Ran(e.epochId))
  }

  function Target(files: Directory, id: Option<nat>): Option<EpochResult> {
    Lookup(files, if id.Some? then FileName(id.value) else LATEST)
  }

  function PublishStep(setup: Setup, s: State, id: Option<nat>, env: PublishEnv): (State, Reply) {
    if !setup.publisherOn then (s, NotConfigured)
    else match Target(s.files, id)
      case None => (s, NoSuchEpoch)
      case Some(e) =>
        if GoesThrough(e, env)
        then (State(Written(s.files, WithSaber(e, env)), s.epochCount, s.publishCount + 1),
              Publishing(ResultOf(e, env)))
        else (s, Publishing(ResultOf(e, env)))
  }

  function Step(setup: Setup, s: State, ev: Event): (State, Reply) {
    match ev
    case RunEpochCall(run) => RunStep(setup, s, run)
    case PublishCall(id, env) => PublishStep(setup, s, id, env)
    case Restart => (State(s.files, 0, 0), Restarted)
  }

  // ------------------------------------------------------------ the handlers

  /** Only the reply for the latest epoch says where it was published. */
  datatype ClaimReply =
    | LatestClaim(epochId: nat, merkleRoot: string, saberDistributor: Option<Pubkey>, wallet: Pubkey, claim: Claim)
    | EpochClaim(epochId: nat, merkleRoot: string, wallet: Pubkey, claim: Claim)

  function Answer(e: EpochResult, wallet: Pubkey, latest: bool): ClaimReply
    requires wallet in e.claims
  {
    if latest then LatestClaim(e.epochId, e.merkleRoot, e.saberDistributor, wallet, e.claims[wallet])
    else EpochClaim(e.epochId, e.merkleRoot, wallet, e.claims[wallet])
  }

  /** What a wallet is told about the epoch of the given id, or about the latest. */
  function Serve(files: Directory, id: Option<nat>, wallet: Pubkey): Option<ClaimReply> {
    match Target(files, id)
    case None => None
    case Some(e) => if wallet in e.claims then Some(Answer(e, wallet, id.None?)) else None
  }

  lemma NobodyTwice()
    ensures DistinctWallets([])
  {
  }

  class Server {
    const setup: Setup
    const storage: EpochStorage
    var epochCount: nat
    var publishCount: nat

    constructor (setup: Setup, storage: EpochStorage)
      ensures this.setup == setup && this.storage == storage
      ensures forall s: State :: s.files == storage.files ==> (Now(), Restarted) == Step(setup, s, Restart)
    {
      this.setup, this.storage, epochCount, publishCount := setup, storage, 0, 0;
    }

    function Now(): State
      reads this, storage
    {
      State(storage.files, epochCount, publishCount)
    }

    /** POST /admin/run-epoch */
    method RunEpochHandler(market: Option<Market>, tokenAccounts: seq<RawAccount>, divisor: real,
                           positionAccounts: seq<seq<byte>>, times: Times, now: int, names: seq<string>)
      returns (reply: Reply, ghost rows: seq<ParticipantInput>)
      requires divisor > 0.0 && IsListing(names, storage.files)
      requires forall i :: 0 <= i < |positionAccounts| ==> |positionAccounts[i]| == POSITION_SIZE
      modifies this, storage
      ensures (Now(), reply) == Step(setup, old(Now()), RunEpochCall(RunInputs(market, rows, times, now, names)))
      ensures DistinctWallets(rows)
      ensures reply.Ran? ==>
        market.Some? && SnapshotOf(rows, tokenAccounts, divisor, positionAccounts, market.value.wxrpPriceUsd)
    {
      hide MakeEpoch, SnapshotOf, DistinctWallets, IsListing;
      rows := [];
      NobodyTwice();
      var last := storage.ReadLatest();
      if last.Some? && now - last.value.endedAt < setup.minIntervalMs {
        return TooRecent, rows;
      }
      var result: Option<EpochResult>;
      result, rows := RunEpoch(storage, setup.h, setup.pow, setup.params, market,
                               tokenAccounts, divisor, positionAccounts, times, names);
      if result.None? {
        return Failed, rows;
      }
      epochCount := epochCount + 1;
      return Ran(result.value.epochId), rows;
    }

    /** POST /admin/publish-epoch/:id? */
    method PublishHandler(id: Option<nat>, env: PublishEnv) returns (reply: Reply)
      modifies this, storage
      ensures (Now(), reply) == Step(setup, old(Now()), PublishCall(id, env))
    {
      hide BuildBundle;
      if !setup.publisherOn {
        return NotConfigured;
      }
      var epoch: Option<EpochResult>;
      if id.Some? {
        epoch := storage.Read(id.value);
      } else {
        epoch := storage.ReadLatest();
      }
      if epoch.None? {
        return NoSuchEpoch;
      }
      var result, _ := PublishEpochToSaber(storage, epoch.value, env);
      if result.Proposed? {
        publishCount := publishCount + 1;
      }
      return Publishing(result);
    }

    /** GET /claim/:wallet and GET /claim/:wallet/:epochId */
    method ClaimHandler(wallet: Pubkey, id: Option<nat>) returns (reply: Option<ClaimReply>)
      ensures reply == Serve(storage.files, id, wallet)
    {
      var epoch: Option<EpochResult>;
      if id.Some? {
        epoch := storage.Read(id.value);
      } else {
        epoch := storage.ReadLatest();
      }
      if epoch.None? || wallet !in epoch.value.claims {
        return None;
      }
      var e := epoch.value;
      if id.Some? {
        return Some(EpochClaim(e.epochId, e.merkleRoot, wallet, e.claims[wallet]));
      }
      return Some(LatestClaim(e.epochId, e.merkleRoot, e.saberDistributor, wallet, e.claims[wallet]));
    }
  }
}
