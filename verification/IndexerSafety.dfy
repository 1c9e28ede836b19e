/** What the rewards server's epoch store keeps through every run of its handlers, and what that
    gives to claimants. */
module IndexerSafety {
  import opened Bytes
  import opened Results
  import opened Rewards
  import opened Snapshot
  import opened Merkle
  import opened ClaimTree
  import opened Storage
  import opened Epoch
  import opened SaberBundle
  import opened SaberPublisher
  import opened Indexer
  import Decimal
  import ClaimRuns

  const EMPTY_STORE := State(map[], 0, 0)

  // ------------------------------------------------------------ the invariant

  /** Scoring as the proofs about it need it. */
  ghost predicate SetupOk(setup: Setup) {
    PowerOk(setup.pow) && ThresholdsOk(setup.params)
  }

  /** Made by a run from a real tree, paying no more than its pool; the three saber fields are
      set together. */
  ghost predicate Genuine(setup: Setup, e: EpochResult) {
    && (exists raw :: Built(setup.h, e, raw))
    && (SetupOk(setup) ==> DustBounded(e))
    && (e.saberDistributor.Some? <==> e.saberDistributorBase.Some?)
    && (e.saberDistributor.Some? <==> e.saberPublishedAt.Some?)
  }

  predicate IsPublished(files: Directory, id: nat) {
    FileName(id) in files && files[FileName(id)].saberDistributor.Some?
  }

  function CountPublished(files: Directory, n: nat): nat {
    if n == 0 then 0
    else CountPublished(files, n - 1)
         + if IsPublished(files, n - 1) then 1 else 0
  }

  /** The files are exactly n genuine epochs, whatever the counters say. */
  ghost predicate Inv(setup: Setup, files: Directory, n: nat) {
    && Regular(files, n)
    && (forall i :: 0 <= i < n ==> Genuine(setup, files[FileName(i)]))
  }

  /** A call as the environment can make it: the names are a listing of the directory and the
      rows come from a snapshot, hence one per wallet. */
  ghost predicate Possible(s: State, ev: Event) {
    ev.RunEpochCall? ==> IsListing(ev.run.names, s.files) && DistinctWallets(ev.run.rows)
  }

  /** Only the saber fields differ, and they are now set. */
  ghost predicate OnlyPublished(e: EpochResult, f: EpochResult) {
    && e.saberDistributor.None? && f.saberDistributor.Some?
    && f == e.(saberDistributor := f.saberDistributor, saberDistributorBase := f.saberDistributorBase,
               saberPublishedAt := f.saberPublishedAt)
  }

  /** Epochs are never lost or overwritten; at most, an unpublished one became published. */
  ghost predicate Evolves(before: Directory, n: nat, after: Directory, m: nat) {
    && n <= m
    && forall i :: 0 <= i < n ==>
         && FileName(i) in before && FileName(i) in after
         && (after[FileName(i)] == before[FileName(i)] || OnlyPublished(before[FileName(i)], after[FileName(i)]))
  }

  /** The counters went up by what was added and what was published. */
  ghost predicate Counted(s: State, n: nat, t: State, m: nat) {
    && t.epochCount + n == s.epochCount + m
    && t.publishCount + CountPublished(s.files, n) == s.publishCount + CountPublished(t.files, m)
  }

  ghost predicate GoodStep(setup: Setup, s: State, n: nat, t: State, m: nat) {
    Inv(setup, t.files, m) && Evolves(s.files, n, t.files, m)
  }

  lemma NamesDiffer(i: nat, j: nat)
    ensures FileName(i) == FileName(j) <==> i == j
    ensures FileName(i) != LATEST
  {
    NameRoundTrip(i);
    NameRoundTrip(j);
  }

  lemma {:induction false} CountAfterWrite(files: Directory, e: EpochResult, n: nat)
    ensures CountPublished(Written(files, e), n) ==
              CountPublished(files, n)
              + (if e.epochId < n && e.saberDistributor.Some? then 1 else 0)
              - (if e.epochId < n && IsPublished(files, e.epochId) then 1 else 0)
  {
    hide FileName;
    if n > 0 {
      CountAfterWrite(files, e, n - 1);
      NamesDiffer(n - 1, e.epochId);
    }
  }

  /** Writing a record under an old id or the next one keeps the directory regular. */
  lemma WriteKeepsRegular(files: Directory, n: nat, e: EpochResult, m: nat)
    requires Regular(files, n) && e.epochId <= n
    requires m == if e.epochId == n then n + 1 else n
    ensures Regular(Written(files, e), m)
    ensures forall i :: 0 <= i < n && i != e.epochId ==> Written(files, e)[FileName(i)] == files[FileName(i)]
    ensures Written(files, e)[FileName(e.epochId)] == e
  {
    hide FileName;
    var w := Written(files, e);
    NamesDiffer(e.epochId, e.epochId);
    forall i | 0 <= i < m ensures FileName(i) in w && w[FileName(i)].epochId == i {
      NamesDiffer(i, e.epochId);
    }
    forall i | 0 <= i < n && i != e.epochId ensures w[FileName(i)] == files[FileName(i)] {
      NamesDiffer(i, e.epochId);
    }
    forall name | name in w ensures name == LATEST || IsEpochName(name, m) {
      if name in files && name != LATEST {
        var i :| 0 <= i < n && name == FileName(i);
        assert IsEpochName(name, m);
      }
    }
  }

  lemma NothingHappened(setup: Setup, s: State, n: nat)
    requires Inv(setup, s.files, n)
    ensures Evolves(s.files, n, s.files, n) && Counted(s, n, s, n)
  {
  }

  lemma RunKeepsInv(setup: Setup, s: State, n: nat, run: RunInputs)
    requires Inv(setup, s.files, n) && Possible(s, RunEpochCall(run))
    ensures var (t, reply) := RunStep(setup, s, run);
            GoodStep(setup, s, n, t, n + Added(reply)) && Counted(s, n, t, n + Added(reply))
  {
    hide RunResult, Genuine, Evolves, Counted, Regular, IsListing, DistinctWallets;
    var r := RunResult(setup, run);
    if !RefusesRun(s.files, run.now, setup.minIntervalMs) && r.Some? {
      ListingOfRegular(s.files, n, run.names);
      MadeIsGenuine(setup, run, n);
      FreshEpoch(setup, s, n, r.value);
    } else {
      NothingHappened(setup, s, n);
    }
  }

  lemma MadeIsGenuine(setup: Setup, run: RunInputs, n: nat)
    requires RunResult(setup, run).Some? && NextEpochId(run.names) == n && DistinctWallets(run.rows)
    ensures var e := RunResult(setup, run).value;
            e.epochId == n && e.saberDistributor.None? && Genuine(setup, e)
  {
    MadeEpochIsBuilt(setup.h, setup.pow, setup.params, run.market.value, run.rows, run.times, n);
    if SetupOk(setup) {
      MadeEpochIsDustBounded(setup.h, setup.pow, setup.params, run.market.value, run.rows, run.times, n);
    }
  }

  lemma FreshEpoch(setup: Setup, s: State, n: nat, e: EpochResult)
    requires Inv(setup, s.files, n) && e.epochId == n && Genuine(setup, e) && e.saberDistributor.None?
    ensures var t := State(Written(s.files, e), s.epochCount + 1, s.publishCount);
            GoodStep(setup, s, n, t, n + 1) && Counted(s, n, t, n + 1)
  {
    hide Genuine, FileName, Written;
    WriteKeepsRegular(s.files, n, e, n + 1);
    CountAfterWrite(s.files, e, n);
    assert Written(s.files, e)[FileName(n)] == e;
  }

  lemma PublishKeepsInv(setup: Setup, s: State, n: nat, id: Option<nat>, env: PublishEnv)
    requires Inv(setup, s.files, n)
    ensures var t := PublishStep(setup, s, id, env).0; GoodStep(setup, s, n, t, n) && Counted(s, n, t, n)
  {
    hide Genuine, FileName, GoesThrough, WithSaber;
    var target := Target(s.files, id);
    if setup.publisherOn && target.Some? && GoesThrough(target.value, env) {
      WentThrough(target.value, env);
      TargetIsStored(setup, s.files, n, id);
      Republished(setup, s, n, target.value, env);
    }
  }

  lemma WentThrough(e: EpochResult, env: PublishEnv)
    requires GoesThrough(e, env)
    ensures e.saberDistributor.None?
  {
  }

  lemma TargetIsStored(setup: Setup, files: Directory, n: nat, id: Option<nat>)
    requires Inv(setup, files, n) && Target(files, id).Some?
    ensures var e := Target(files, id).value;
            e.epochId < n && files[FileName(e.epochId)] == e && Genuine(setup, e)
  {
    if id.Some? {
      var name := FileName(id.value);
      NamesDiffer(id.value, id.value);
      var i :| 0 <= i < n && name == FileName(i);
    } else {
      assert n == 0 ==> !IsEpochName(LATEST, 0);
    }
  }

  lemma Republished(setup: Setup, s: State, n: nat, e: EpochResult, env: PublishEnv)
    requires Inv(setup, s.files, n) && e.epochId < n && s.files[FileName(e.epochId)] == e && Genuine(setup, e)
    requires e.saberDistributor.None?
    ensures var t := State(Written(s.files, WithSaber(e, env)), s.epochCount, s.publishCount + 1);
            GoodStep(setup, s, n, t, n) && Counted(s, n, t, n)
  {
    hide Genuine, FileName, Written;
    var f := WithSaber(e, env);
    WriteKeepsRegular(s.files, n, f, n);
    CountAfterWrite(s.files, f, n);
    StillGenuine(setup, e, env);
    assert OnlyPublished(e, f);
  }

  lemma StillGenuine(setup: Setup, e: EpochResult, env: PublishEnv)
    requires Genuine(setup, e)
    ensures Genuine(setup, WithSaber(e, env))
  {
    var raw :| Built(setup.h, e, raw);
    assert Built(setup.h, WithSaber(e, env), raw);
  }

  // ------------------------------------------------------------ every run

  function After(setup: Setup, s: State, events: seq<Event>): State
    decreases events
  {
    if events == [] then s else After(setup, Step(setup, s, events[0]).0, events[1..])
  }

  function Added(reply: Reply): nat {
    if reply.Ran? then 1 else 0
  }

  /** How many epochs a run of the server adds. */
  function AddedOver(setup: Setup, s: State, events: seq<Event>): nat
    decreases events
  {
    if events == [] then 0
    else Added(Step(setup, s, events[0]).1) + AddedOver(setup, Step(setup, s, events[0]).0, events[1..])
  }

  ghost predicate AllPossible(setup: Setup, s: State, events: seq<Event>)
    decreases events
  {
    events == [] || (Possible(s, events[0]) && AllPossible(setup, Step(setup, s, events[0]).0, events[1..]))
  }

  lemma EvolvesTransitive(a: Directory, n: nat, b: Directory, m: nat, c: Directory, k: nat)
    requires Evolves(a, n, b, m) && Evolves(b, m, c, k)
    ensures Evolves(a, n, c, k)
  {
  }

  lemma CountedTransitive(s: State, n: nat, t: State, m: nat, u: State, k: nat)
    requires Counted(s, n, t, m) && Counted(t, m, u, k)
    ensures Counted(s, n, u, k)
  {
  }

  lemma StepKeepsInv(setup: Setup, s: State, n: nat, ev: Event)
    requires Inv(setup, s.files, n) && Possible(s, ev)
    ensures var (t, reply) := Step(setup, s, ev);
            && GoodStep(setup, s, n, t, n + Added(reply))
            && (ev != Restart ==> Counted(s, n, t, n + Added(reply)))
  {
    hide RunStep, PublishStep, Inv, Evolves, Counted, Possible;
    match ev
    case RunEpochCall(run) => RunKeepsInv(setup, s, n, run);
    case PublishCall(id, env) =>
      PublishKeepsInv(setup, s, n, id, env);
      PublishAddsNothing(setup, s, id, env);
    case Restart => NothingHappened(setup, s, n);
  }

  lemma PublishAddsNothing(setup: Setup, s: State, id: Option<nat>, env: PublishEnv)
    ensures Added(PublishStep(setup, s, id, env).1) == 0
  {
  }

  /** Any interleaving of calls and restarts, from any store of n epochs, keeps the ids exactly
      0..m-1 with m grown by the runs that went through, keeps `latest.json` a copy of the file of
      its own id, and changes a stored epoch at most once, by setting its saber fields. Between
      restarts the counters follow: they rise by the epochs added and the epochs published. */
  lemma {:induction false} EveryRunKeepsTheStore(setup: Setup, s: State, n: nat, events: seq<Event>)
    requires Inv(setup, s.files, n) && AllPossible(setup, s, events)
    ensures var t, m := After(setup, s, events), n + AddedOver(setup, s, events);
            && Inv(setup, t.files, m) && Evolves(s.files, n, t.files, m)
            && (Restart !in events ==> Counted(s, n, t, m))
    decreases events
  {
    hide Step, Inv, Possible, Added, Evolves, Counted;
    if events == [] {
      NothingHappened(setup, s, n);
    } else {
      StepKeepsInv(setup, s, n, events[0]);
      var (t, reply) := Step(setup, s, events[0]);
      var m := n + Added(reply);
      EveryRunKeepsTheStore(setup, t, m, events[1..]);
      var u, k := After(setup, t, events[1..]), m + AddedOver(setup, t, events[1..]);
      assert u == After(setup, s, events) && k == n + AddedOver(setup, s, events);
      EvolvesTransitive(s.files, n, t.files, m, u.files, k);
      if Restart !in events {
        assert events[0] in events && forall ev :: ev in events[1..] ==> ev in events;
        CountedTransitive(s, n, t, m, u, k);
      }
    }
  }

  lemma EmptyDirectoryIsFine(setup: Setup)
    ensures Inv(setup, EMPTY_STORE.files, 0)
  {
  }

  /** The number of epochs that a run from nothing has stored. */
  function Stored(setup: Setup, events: seq<Event>): nat {
    AddedOver(setup, EMPTY_STORE, events)
  }

  lemma ReachableStore(setup: Setup, events: seq<Event>)
    requires AllPossible(setup, EMPTY_STORE, events)
    ensures Inv(setup, After(setup, EMPTY_STORE, events).files, Stored(setup, events))
  {
    EmptyDirectoryIsFine(setup);
    hide Inv, After, AddedOver, AllPossible, Evolves, Counted;
    EveryRunKeepsTheStore(setup, EMPTY_STORE, 0, events);
    assert 0 + AddedOver(setup, EMPTY_STORE, events) == Stored(setup, events);
  }

  /** What a caller is told, and when nothing is changed. */
  lemma RepliesAreExact(setup: Setup, s: State, ev: Event)
    ensures var (t, reply) := Step(setup, s, ev);
      match ev
      case RunEpochCall(run) =>
        var refused, made := RefusesRun(s.files, run.now, setup.minIntervalMs), RunResult(setup, run);
        && (reply == TooRecent <==> refused)
        && (reply == Failed <==> !refused && made.None?)
        && (reply.Ran? <==> !refused && made.Some?)
        && (reply.Ran? ==> reply.epochId == made.value.epochId)
        && (!reply.Ran? ==> t == s)
      case PublishCall(id, env) =>
        var target := Target(s.files, id);
        && (reply == NotConfigured <==> !setup.publisherOn)
        && (reply == NoSuchEpoch <==> setup.publisherOn && target.None?)
        && (reply.Publishing? <==> setup.publisherOn && target.Some?)
        && (reply.Publishing? ==> reply.result == ResultOf(target.value, env))
        && (t != s ==> reply.Publishing? && reply.result.Proposed?)
      case Restart => t == State(s.files, 0, 0) && reply == Restarted
  {
    hide MakeEpoch, BuildBundle;
    if ev.PublishCall? && Target(s.files, ev.id).Some? {
      ResultIsExact(Target(s.files, ev.id).value, ev.env);
    }
  }

  // ------------------------------------------------------------ claims

  /** The reply about epoch `id` is about that epoch: a wallet gets one exactly when epoch `id` is
      stored and has a claim of that wallet, and it is that claim, with that record's id and root.
      The reply without an id is about the record last written, and names its distributor. */
  lemma ServesTheEpochAskedFor(files: Directory, n: nat, id: nat, wallet: Pubkey)
    requires Regular(files, n)
    ensures Serve(files, Some(id), wallet)
         == if id < n && wallet in files[FileName(id)].claims
            then Some(EpochClaim(id, files[FileName(id)].merkleRoot, wallet, files[FileName(id)].claims[wallet]))
            else None
    ensures Serve(files, None, wallet)
         == if n > 0 && wallet in files[LATEST].claims
            then Some(LatestClaim(files[LATEST].epochId, files[LATEST].merkleRoot, files[LATEST].saberDistributor,
                                  wallet, files[LATEST].claims[wallet]))
            else None
  {
    hide FileName;
    NamesDiffer(id, id);
    if FileName(id) in files {
      var i :| 0 <= i < n && FileName(id) == FileName(i);
      NamesDiffer(id, i);
    }
    if LATEST in files {
      NamesDiffer(0, 0);
      assert !IsEpochName(LATEST, 0);
    }
  }

  /** In every reachable store a request for any epoch is answered from that epoch's own file, and
      the request without an id from the file of the epoch that the reply names. */
  lemma ServesTheEpochAskedForAfter(setup: Setup, events: seq<Event>, id: nat, wallet: Pubkey)
    requires AllPossible(setup, EMPTY_STORE, events)
    ensures var files := After(setup, EMPTY_STORE, events).files;
            var named, latest := Serve(files, Some(id), wallet), Serve(files, None, wallet);
      && (named.Some? <==> id < Stored(setup, events)
                           && FileName(id) in files && wallet in files[FileName(id)].claims)
      && (named.Some? ==> named.value.EpochClaim? && named.value.epochId == id && named.value.wallet == wallet)
      && (latest.Some? ==>
            && latest.value.LatestClaim? && FileName(latest.value.epochId) in files
            && latest.value.saberDistributor == files[FileName(latest.value.epochId)].saberDistributor
            && var again := Serve(files, Some(latest.value.epochId), wallet);
               again == Some(EpochClaim(latest.value.epochId, latest.value.merkleRoot, wallet, latest.value.claim)))
  {
    hide Genuine, FileName, After, AllPossible, Serve;
    ReachableStore(setup, events);
    var files, n := After(setup, EMPTY_STORE, events).files, Stored(setup, events);
    ServesTheEpochAskedFor(files, n, id, wallet);
    if n > 0 {
      ServesTheEpochAskedFor(files, n, files[LATEST].epochId, wallet);
    }
  }

  /** Served claims always check out: after any calls and restarts from an empty directory, every
      claim that the server returns verifies, with its stored index and amount, against the root
      returned. */
  lemma ServedClaimsVerify(setup: Setup, events: seq<Event>, id: Option<nat>, wallet: Pubkey)
    requires AllPossible(setup, EMPTY_STORE, events)
    ensures var reply := Serve(After(setup, EMPTY_STORE, events).files, id, wallet);
            reply.Some? ==>
              && Decimal.AllDigits(reply.value.claim.lamports)
              && VerifyClaim(setup.h,
                             ClaimLeaf(reply.value.claim.index, wallet, Decimal.Value(reply.value.claim.lamports)),
                             reply.value.claim.proof, reply.value.merkleRoot)
  {
    var files := After(setup, EMPTY_STORE, events).files;
    ReachableStore(setup, events);
    if Serve(files, id, wallet).Some? {
      TargetIsStored(setup, files, Stored(setup, events), id);
      var e := Target(files, id).value;
      var raw := LeavesOf(setup, e);
      StoredClaimVerifies(setup.h, e, raw, wallet);
    }
  }

  lemma StoredClaimVerifies(h: Hash, e: EpochResult, raw: seq<RawLeaf>, wallet: Pubkey)
    requires Built(h, e, raw) && wallet in e.claims
    ensures Decimal.AllDigits(e.claims[wallet].lamports)
    ensures VerifyClaim(h, ClaimLeaf(e.claims[wallet].index, wallet, Decimal.Value(e.claims[wallet].lamports)),
                        e.claims[wallet].proof, e.merkleRoot)
  {
    var entries := BuildClaimTree(h, raw).value.leaves;
    ClaimsAreTheLeaves(entries);
    assert HasLeaf(entries, wallet);
    var i :| 0 <= i < |entries| && entries[i].leaf.wallet == wallet;
    assert Recorded(e.claims, entries[i]);
    EveryProofVerifies(h, raw, i);
  }

  lemma LeavesOf(setup: Setup, e: EpochResult) returns (raw: seq<RawLeaf>)
    requires Genuine(setup, e)
    ensures Built(setup.h, e, raw)
  {
    raw :| Built(setup.h, e, raw);
  }

  /** In every reachable store no record lets more be claimed than its pool, nor falls short of
      it by a lamport per claim. */
  lemma EveryRecordIsDustBounded(setup: Setup, events: seq<Event>, i: nat)
    requires SetupOk(setup) && AllPossible(setup, EMPTY_STORE, events) && i < Stored(setup, events)
    ensures var files := After(setup, EMPTY_STORE, events).files;
            FileName(i) in files && files[FileName(i)].epochId == i && DustBounded(files[FileName(i)])
  {
    ReachableStore(setup, events);
  }

  /** From an empty directory to the last claim: whenever, after any calls and restarts, a
      publication goes through, the record published was made from some list of leaves, its total
      is within its pool, and the distributor that its bundle deploys pays, whatever is attempted,
      at most that total, each of those leaves at most once and exactly, and never refuses one
      that is still unclaimed. */
  lemma PublicationsAreFullyFunded(setup: Setup, events: seq<Event>, id: Option<nat>, env: PublishEnv,
                                   attempts: seq<ClaimRuns.Attempt>)
    returns (raw: seq<RawLeaf>)
    requires AllPossible(setup, EMPTY_STORE, events)
    requires var target := Target(After(setup, EMPTY_STORE, events).files, id);
             target.Some? && GoesThrough(target.value, env)
    ensures var e := Target(After(setup, EMPTY_STORE, events).files, id).value;
            var bundle := BuildBundle(env.addr, env.vaultPda, env.ephemeralBase, e).value;
            && Built(setup.h, e, raw)
            && (SetupOk(setup) ==> bundle.totalLamports <= e.poolLamports)
            && (ClaimRuns.CollisionFree(setup.h, raw, attempts) ==>
                  ClaimRuns.PaysInFull(setup.h, env.addr, bundle, e, raw, attempts))
  {
    hide Genuine, BuildBundle, ClaimRuns.PaysInFull;
    ReachableStore(setup, events);
    var files := After(setup, EMPTY_STORE, events).files;
    TargetIsStored(setup, files, Stored(setup, events), id);
    var e := Target(files, id).value;
    raw := LeavesOf(setup, e);
    if SetupOk(setup) {
      BundleWithinPool(setup, e, raw, env);
    }
    if ClaimRuns.CollisionFree(setup.h, raw, attempts) {
      ClaimRuns.PublishedClaimsAreFullyFunded(setup.h, env.addr, env.vaultPda, env.ephemeralBase, e, raw, attempts);
    }
  }

  lemma BundleWithinPool(setup: Setup, e: EpochResult, raw: seq<RawLeaf>, env: PublishEnv)
    requires SetupOk(setup) && Genuine(setup, e) && Built(setup.h, e, raw) && GoesThrough(e, env)
    ensures BuildBundle(env.addr, env.vaultPda, env.ephemeralBase, e).value.totalLamports <= e.poolLamports
  {
    hide BuildBundle;
    BuiltNumbers(setup.h, e, raw);
    CapsMatchTheTree(setup.h, env.addr, env.vaultPda, env.ephemeralBase, e, raw);
  }
}
