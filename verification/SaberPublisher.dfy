/** Publishing one stored epoch: skip rules, the bundle, and a single update of its saber fields. */
module SaberPublisher {
  import opened Bytes
  import opened Results
  import opened Storage
  import opened SaberBundle

  /** What publishing gets from outside: derived addresses, the Squads vault and ephemeral signer,
      whether the calls up to sending the transaction returned, so that the proposal is on chain,
      whether the calls that wait for its confirmation returned as well, and the clock. */
  datatype PublishEnv = PublishEnv(
    addr: Addresses, vaultPda: Pubkey, ephemeralBase: Pubkey, submitted: bool, confirmed: bool, now: int)

  datatype PublishResult =
    | AlreadyPublished
    | EmptyPool
    | Threw
    | Proposed(saberDistributor: Pubkey, saberDistributorBase: Pubkey)

  function WithSaber(e: EpochResult, env: PublishEnv): EpochResult {
    e.(saberDistributor := Some(env.addr.distributorOf(env.ephemeralBase)),
       saberDistributorBase := Some(env.ephemeralBase),
       saberPublishedAt := Some(env.now))
  }

  /** A proposal reaches the chain exactly when the record is not skipped, the bundle can be built
      and the transaction is sent. */
  predicate Submits(e: EpochResult, env: PublishEnv) {
    !Skips(e) && env.submitted && BuildBundle(env.addr, env.vaultPda, env.ephemeralBase, e).Some?
  }

  /** The publication goes through if its confirmation arrives, too. */
  predicate GoesThrough(e: EpochResult, env: PublishEnv) {
    Submits(e, env) && env.confirmed
  }

  function ResultOf(e: EpochResult, env: PublishEnv): PublishResult {
    if e.saberDistributor.Some? then AlreadyPublished
    else if Skips(e) then EmptyPool
    else if !GoesThrough(e, env) then Threw
    else Proposed(env.addr.distributorOf(env.ephemeralBase), env.ephemeralBase)
  }

  /** The stored record and the reply name the distributor that the proposed bundle creates and the
      base it is derived from, and nothing else in the record changes. */
  lemma RecordNamesTheBundle(e: EpochResult, env: PublishEnv)
    requires GoesThrough(e, env)
    ensures var b := BuildBundle(env.addr, env.vaultPda, env.ephemeralBase, e).value;
            var f := WithSaber(e, env);
      && |b.ixs| == 4 && b.ixs[3].NewDistributor?
      && f.saberDistributor == Some(b.distributorPda) && f.saberDistributorBase == Some(b.ixs[3].base)
      && f.saberPublishedAt == Some(env.now)
      && ResultOf(e, env) == Proposed(b.distributorPda, b.ixs[3].base)
      && e == f.(saberDistributor := e.saberDistributor, saberDistributorBase := e.saberDistributorBase,
                 saberPublishedAt := e.saberPublishedAt)
  {
  }

  /** Which of the four answers a call gets. */
  lemma ResultIsExact(e: EpochResult, env: PublishEnv)
    ensures var r := ResultOf(e, env);
      && (r == AlreadyPublished <==> e.saberDistributor.Some?)
      && (r == EmptyPool <==> e.saberDistributor.None? && (e.totalLamports == "0" || e.claims == map[]))
      && (r.Proposed? <==> GoesThrough(e, env))
      && (r == Threw <==> !Skips(e) && !GoesThrough(e, env))
  {
    assert |e.claims| == 0 <==> e.claims == map[];
  }

  /** `onChain` is the bundle proposed. It is on chain already when waiting for the confirmation
      throws, and the record is then not written. */
  method PublishEpochToSaber(storage: EpochStorage, epoch: EpochResult, env: PublishEnv)
    returns (r: PublishResult, onChain: Option<Bundle>)
    modifies storage
    ensures r == ResultOf(epoch, env)
    ensures onChain == if Submits(epoch, env) then BuildBundle(env.addr, env.vaultPda, env.ephemeralBase, epoch)
                       else None
    ensures storage.files == if GoesThrough(epoch, env) then Written(old(storage.files), WithSaber(epoch, env))
                             else old(storage.files)
  {
    if epoch.saberDistributor.Some? {
      return AlreadyPublished, None;
    }
    if epoch.totalLamports == "0" || |epoch.claims| == 0 {
      return EmptyPool, None;
    }
    var bundle := BuildBundle(env.addr, env.vaultPda, env.ephemeralBase, epoch);
    if bundle.None? || !env.submitted {
      return Threw, None;
    }
    if !env.confirmed {
      return Threw, bundle;
    }
    var updated := epoch.(saberDistributor := Some(bundle.value.distributorPda));
    updated := updated.(saberDistributorBase := Some(env.ephemeralBase));
    updated := updated.(saberPublishedAt := Some(env.now));
    storage.Write(updated);
    return Proposed(bundle.value.distributorPda, env.ephemeralBase), bundle;
  }
}
