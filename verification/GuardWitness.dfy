/** Two distributions within one interval: run epoch 0, wait out the interval, run epoch 1, publish
    epoch 0, and run again one millisecond later. */
module GuardWitness {
  import opened Bytes
  import opened Results
  import opened Rewards
  import opened Merkle
  import opened Storage
  import opened Epoch
  import opened SaberBundle
  import opened SaberPublisher
  import opened Indexer
  import opened IndexerSafety
  import opened RunGuard
  import Decimal

  /** A pool of 13.5 SOL. */
  const MARKET := Market(20_000.0, 1.0, 1.0)

  function Holder(alice: Pubkey): seq<ParticipantInput> {
    [ParticipantInput(alice, 1000.0, 1.0)]
  }

  lemma HolderCanClaim(pow: Power, alice: Pubkey)
    requires PowerOk(pow)
    ensures ThresholdsOk(DEFAULT_REWARD_PARAMS)
    ensures var pool := EpochSolPool(20_000.0, 1.0, DEFAULT_REWARD_PARAMS);
            && ToLamports(pool.sol) == 13_500_000_000
            && |Claimable(DistributeEpoch(pow, Holder(alice), pool, 1.0, DEFAULT_REWARD_PARAMS))| == 1
  {
    var rows, params := Holder(alice), DEFAULT_REWARD_PARAMS;
    var pool := EpochSolPool(20_000.0, 1.0, params);
    var scores := DistributeEpoch(pow, rows, pool, 1.0, params);
    DualGate(pow, rows[0], params);
    SharesInRange(pow, rows, pool, 1.0, params, 0);
    assert scores == [scores[0]] && IsClaimable(scores[0]);
    assert scores[..0] == [];
    assert Claimable(scores) == Claimable(scores[..0]) + [scores[0]];
  }

  /** With one holder the record is made, is not skipped and can be published. */
  lemma HolderIsPublishable(h: Hash, pow: Power, alice: Pubkey, times: Times, id: nat, env: PublishEnv)
    requires PowerOk(pow) && env.submitted && env.confirmed
    ensures var r := MakeEpoch(h, pow, DEFAULT_REWARD_PARAMS, MARKET, Holder(alice), times, id);
            r.Some? && r.value.endedAt == times.endedAt && r.value.epochId == id && GoesThrough(r.value, env)
  {
    var params, rows := DEFAULT_REWARD_PARAMS, Holder(alice);
    HolderCanClaim(pow, alice);
    FittingPoolIsPublishable(h, pow, params, MARKET, rows, times, id, env.addr, env.vaultPda, env.ephemeralBase);
    var e := MakeEpoch(h, pow, params, MARKET, rows, times, id).value;
    MadeEpochIsBuilt(h, pow, params, MARKET, rows, times, id);
    MadeTotal(h, pow, params, MARKET, rows, times, id, e);
    LamportConservation(h, pow, params, MARKET, rows, times, id);
    BuiltNumbers(h, e, RawLeaves(Claimable(e.scores)));
    hide Built, DistributeEpoch, Claimable, BuildBundle, EpochSolPool, ClaimsFrom, TotalOf;
    assert e.totalLamports != "0" by {
      assert Decimal.Value(Decimal.Print(0)) == 0 && Decimal.Print(0) == "0";
    }
  }

  // ------------------------------------------------------------ the calls

  function WithInterval(h: Hash, pow: Power, interval: int): Setup {
    Setup(h, pow, DEFAULT_REWARD_PARAMS, interval, true)
  }

  /** A run that begins and ends at `now`, over a directory with these names. */
  function RunAt(alice: Pubkey, now: int, names: seq<string>): RunInputs {
    RunInputs(Some(MARKET), Holder(alice), Times(now, now, 0), now, names)
  }

  /** The names in a directory of n epochs. */
  function NamesOf(n: nat): seq<string> {
    if n == 0 then [] else seq(n, i requires 0 <= i < n => FileName(i)) + [LATEST]
  }

  lemma NamesAreListing(files: Directory, n: nat)
    requires Regular(files, n)
    ensures IsListing(NamesOf(n), files)
  {
    var names := NamesOf(n);
    hide FileName;
    forall i, j | 0 <= i < j < |names| ensures names[i] != names[j] {
      NamesDiffer(i, if j < n then j else i);
    }
    forall name ensures name in names <==> name in files {
      NameIsListed(files, n, name);
    }
  }

  lemma NameIsListed(files: Directory, n: nat, name: string)
    requires Regular(files, n)
    ensures name in NamesOf(n) <==> name in files
  {
    hide FileName;
    var names := NamesOf(n);
    if name in files && name != LATEST {
      var i :| 0 <= i < n && name == FileName(i);
      assert names[i] == name;
    }
    if name in files && name == LATEST {
      NotLatest(files, n);
      assert names[n] == LATEST;
    }
  }

  lemma NotLatest(files: Directory, n: nat)
    requires Regular(files, n) && LATEST in files
    ensures n > 0
  {
    assert !IsEpochName(LATEST, 0);
  }

  /** `t` is the store `s` of n epochs with one more, ended at `now`, that can be published. */
  ghost predicate Grew(setup: Setup, s: State, n: nat, t: State, now: int, env: PublishEnv) {
    && Inv(setup, t.files, n + 1) && LATEST in t.files && FileName(n) in t.files
    && t.files[LATEST].endedAt == t.files[FileName(n)].endedAt == now
    && GoesThrough(t.files[FileName(n)], env)
    && (forall i :: 0 <= i < n && FileName(i) in s.files ==>
          FileName(i) in t.files && t.files[FileName(i)] == s.files[FileName(i)])
  }

  /** A run on a store of n epochs whose last record ended long enough ago adds epoch n. */
  lemma RunGoesThrough(setup: Setup, s: State, n: nat, alice: Pubkey, now: int, env: PublishEnv)
    requires PowerOk(setup.pow) && setup.params == DEFAULT_REWARD_PARAMS && env.submitted && env.confirmed
    requires Inv(setup, s.files, n) && !RefusesRun(s.files, now, setup.minIntervalMs)
    ensures var run := RunAt(alice, now, NamesOf(n));
            var (t, reply) := RunStep(setup, s, run);
            Possible(s, RunEpochCall(run)) && reply == Ran(n) && Grew(setup, s, n, t, now, env)
  {
    hide RunAt, NamesOf, Regular, Grew, GoesThrough, Genuine, RunResult, RunStep;
    var run := RunAt(alice, now, NamesOf(n));
    RunIsMade(setup, s, n, alice, now, env);
    var (t, reply) := RunStep(setup, s, run);
    RunWrites(setup, s, run);
    RunKeepsInv(setup, s, n, run);
    WrittenGrew(setup, s, n, t, RunResult(setup, run).value, env);
  }

  lemma RunIsMade(setup: Setup, s: State, n: nat, alice: Pubkey, now: int, env: PublishEnv)
    requires PowerOk(setup.pow) && setup.params == DEFAULT_REWARD_PARAMS && env.submitted && env.confirmed
    requires Inv(setup, s.files, n)
    ensures var run := RunAt(alice, now, NamesOf(n));
            var r := RunResult(setup, run);
            && Possible(s, RunEpochCall(run)) && run.now == now
            && r.Some? && r.value.epochId == n && r.value.endedAt == now && GoesThrough(r.value, env)
  {
    hide NamesOf, Regular, Genuine, MakeEpoch, GoesThrough, IsListing;
    NamesAreListing(s.files, n);
    ListingOfRegular(s.files, n, NamesOf(n));
    HolderIsPublishable(setup.h, setup.pow, alice, Times(now, now, 0), n, env);
  }

  lemma RunWrites(setup: Setup, s: State, run: RunInputs)
    requires !RefusesRun(s.files, run.now, setup.minIntervalMs) && RunResult(setup, run).Some?
    ensures var (t, reply) := RunStep(setup, s, run);
            var e := RunResult(setup, run).value;
            reply == Ran(e.epochId) && t.files == Written(s.files, e)
  {
    hide RunResult;
  }

  lemma WrittenGrew(setup: Setup, s: State, n: nat, t: State, e: EpochResult, env: PublishEnv)
    requires t.files == Written(s.files, e) && e.epochId == n && GoesThrough(e, env) && Inv(setup, t.files, n + 1)
    ensures Grew(setup, s, n, t, e.endedAt, env)
  {
    hide GoesThrough, Inv, FileName;
    forall i | 0 <= i < n + 1 ensures FileName(i) == FileName(n) <==> i == n
                              ensures FileName(i) != LATEST {
      NamesDiffer(i, n);
    }
  }

  function FirstRun(alice: Pubkey): Event {
    RunEpochCall(RunAt(alice, 0, NamesOf(0)))
  }

  function SecondRun(alice: Pubkey, interval: int): Event {
    RunEpochCall(RunAt(alice, interval, NamesOf(1)))
  }

  function ThirdRun(alice: Pubkey, interval: int): Event {
    RunEpochCall(RunAt(alice, interval + 1, NamesOf(2)))
  }

  /** Epoch 1 ended one millisecond before the third run, which goes through all the same. */
  ghost predicate RunsAgain(setup: Setup, s: State, alice: Pubkey, interval: int) {
    && Inv(setup, s.files, 2) && FileName(1) in s.files && Newest(s.files, 2).endedAt == interval
    && Possible(s, ThirdRun(alice, interval))
    && Step(setup, s, ThirdRun(alice, interval)).1 == Ran(2)
  }

  /** The promise fails in a reachable store, and the guard lets a run through within a
      millisecond of the last: one holder, two runs an interval apart, and the first published. */
  lemma DoubleDistribution(h: Hash, pow: Power, alice: Pubkey, env: PublishEnv, interval: int)
    requires PowerOk(pow) && env.submitted && env.confirmed && interval > 1
    ensures var setup := WithInterval(h, pow, interval);
            var events := [FirstRun(alice), SecondRun(alice, interval), PublishCall(Some(0), env)];
            && AllPossible(setup, EMPTY_STORE, events)
            && RunsAgain(setup, After(setup, EMPTY_STORE, events), alice, interval)
  {
    var setup := WithInterval(h, pow, interval);
    var s0 := EMPTY_STORE;
    EmptyDirectoryIsFine(setup);
    hide RunStep, PublishStep, Genuine, GoesThrough, FileName, Possible, RunAt, NamesOf, Regular;
    RunGoesThrough(setup, s0, 0, alice, 0, env);
    var s1 := Step(setup, s0, FirstRun(alice)).0;
    RunGoesThrough(setup, s1, 1, alice, interval, env);
    var s2 := Step(setup, s1, SecondRun(alice, interval)).0;
    PublishFirst(setup, s2, env);
    var s3 := Step(setup, s2, PublishCall(Some(0), env)).0;
    RunGoesThrough(setup, s3, 2, alice, interval + 1, env);
    PublishIsPossible(s2, Some(0), env);
    ThreeCalls(setup, s0, FirstRun(alice), SecondRun(alice, interval), PublishCall(Some(0), env));
  }

  lemma PublishIsPossible(s: State, id: Option<nat>, env: PublishEnv)
    ensures Possible(s, PublishCall(id, env))
  {
  }

  /** Publishing epoch 0 of two makes it the latest record and leaves epoch 1 as it was. */
  lemma PublishFirst(setup: Setup, s: State, env: PublishEnv)
    requires Inv(setup, s.files, 2) && setup.publisherOn && GoesThrough(s.files[FileName(0)], env)
    ensures var t := PublishStep(setup, s, Some(0), env).0;
            && Inv(setup, t.files, 2) && FileName(1) in t.files
            && t.files[LATEST].endedAt == s.files[FileName(0)].endedAt
            && Newest(t.files, 2) == Newest(s.files, 2)
  {
    hide GoesThrough, Genuine, FileName;
    PublishKeepsInv(setup, s, 2, Some(0), env);
    assert FileName(0) in s.files && s.files[FileName(0)].epochId == 0;
    NamesDiffer(0, 1);
  }

  lemma ThreeCalls(setup: Setup, s: State, a: Event, b: Event, c: Event)
    ensures var t := Step(setup, s, a).0;
            var u := Step(setup, t, b).0;
            && After(setup, s, [a, b, c]) == Step(setup, u, c).0
            && (Possible(s, a) && Possible(t, b) && Possible(u, c) ==> AllPossible(setup, s, [a, b, c]))
  {
    hide Step, Possible;
    var t := Step(setup, s, a).0;
    var u := Step(setup, t, b).0;
    assert [a, b, c][1..] == [b, c] && [b, c][1..] == [c] && [c][1..] == [];
    assert After(setup, u, [c]) == Step(setup, u, c).0;
    assert After(setup, t, [b, c]) == After(setup, u, [c]);
    assert Possible(u, c) ==> AllPossible(setup, u, [c]);
    assert Possible(t, b) && Possible(u, c) ==> AllPossible(setup, t, [b, c]);
  }
}
