/** What a published record in the store says about the distributor deployed for it. */
module PublishedRecords {
  import opened Bytes
  import opened Results
  import opened Storage
  import opened SaberBundle
  import opened SaberPublisher
  import opened Indexer
  import opened IndexerSafety

  /** The call is a publication that goes through and leaves `f` in the store. */
  predicate Confirms(setup: Setup, s: State, ev: Event, f: EpochResult) {
    && ev.PublishCall? && setup.publisherOn
    && var target := Target(s.files, ev.id);
    && target.Some? && GoesThrough(target.value, ev.env) && f == WithSaber(target.value, ev.env)
  }

  lemma StepConfirms(setup: Setup, s: State, n: nat, ev: Event, i: nat)
    requires Inv(setup, s.files, n) && Possible(s, ev)
    requires !IsPublished(s.files, i) && IsPublished(Step(setup, s, ev).0.files, i)
    ensures Confirms(setup, s, ev, Step(setup, s, ev).0.files[FileName(i)])
  {
    match ev
    case RunEpochCall(run) =>
      RunAddsUnpublished(setup, s, n, run, i);
      assert false;
    case PublishCall(id, env) => PublishConfirms(setup, s, n, id, env, i);
    case Restart =>
  }

  lemma RunAddsUnpublished(setup: Setup, s: State, n: nat, run: RunInputs, i: nat)
    requires Inv(setup, s.files, n) && Possible(s, RunEpochCall(run))
    ensures IsPublished(RunStep(setup, s, run).0.files, i) ==> IsPublished(s.files, i)
  {
    hide Genuine, FileName;
    if RunStep(setup, s, run).1.Ran? {
      ListingOfRegular(s.files, n, run.names);
      MadeIsGenuine(setup, run, n);
      NamesDiffer(n, i);
      NamesDiffer(i, i);
    }
  }

  lemma PublishConfirms(setup: Setup, s: State, n: nat, id: Option<nat>, env: PublishEnv, i: nat)
    requires Inv(setup, s.files, n)
    requires !IsPublished(s.files, i) && IsPublished(PublishStep(setup, s, id, env).0.files, i)
    ensures Confirms(setup, s, PublishCall(id, env), PublishStep(setup, s, id, env).0.files[FileName(i)])
  {
    hide Genuine, FileName, GoesThrough, WithSaber;
    var target := Target(s.files, id);
    if setup.publisherOn && target.Some? && GoesThrough(target.value, env) {
      TargetIsStored(setup, s.files, n, id);
      SameId(target.value, env);
      NamesDiffer(target.value.epochId, i);
      NamesDiffer(i, i);
    }
  }

  lemma SameId(e: EpochResult, env: PublishEnv)
    ensures WithSaber(e, env).epochId == e.epochId
  {
  }

  /** A record once published stays as it is. */
  lemma PublishedStays(setup: Setup, s: State, n: nat, events: seq<Event>, i: nat)
    requires Inv(setup, s.files, n) && AllPossible(setup, s, events) && IsPublished(s.files, i)
    ensures var t := After(setup, s, events);
            FileName(i) in t.files && t.files[FileName(i)] == s.files[FileName(i)]
  {
    hide Genuine, FileName, After, AddedOver, AllPossible, Regular, Evolves, Counted;
    EveryRunKeepsTheStore(setup, s, n, events);
    StoredId(s.files, n, i);
    EvolutionKeeps(s.files, n, After(setup, s, events).files, n + AddedOver(setup, s, events), i);
  }

  lemma EvolutionKeeps(before: Directory, n: nat, after: Directory, m: nat, i: nat)
    requires Evolves(before, n, after, m) && i < n && IsPublished(before, i)
    ensures FileName(i) in after && after[FileName(i)] == before[FileName(i)]
  {
    hide FileName;
  }

  lemma StoredId(files: Directory, n: nat, i: nat)
    requires Regular(files, n) && FileName(i) in files
    ensures i < n
  {
    NamesDiffer(i, i);
    var j :| 0 <= j < n && FileName(i) == FileName(j);
    NamesDiffer(i, j);
  }

  /** Behind every record that a run leaves published there is one of its publication calls that
      went through: the record names the distributor and the base of the bundle deployed by that
      call, and carries the root, the claims and the total that the bundle was made from. */
  lemma {:induction false} PublishedRecordsNameTheirDistributor(setup: Setup, s: State, n: nat,
                                                                events: seq<Event>, i: nat)
    returns (id: Option<nat>, env: PublishEnv, e: EpochResult)
    requires Inv(setup, s.files, n) && AllPossible(setup, s, events)
    requires !IsPublished(s.files, i) && IsPublished(After(setup, s, events).files, i)
    ensures PublishCall(id, env) in events && GoesThrough(e, env)
    ensures var f := After(setup, s, events).files[FileName(i)];
            var b := BuildBundle(env.addr, env.vaultPda, env.ephemeralBase, e).value;
      && |b.ixs| == 4 && b.ixs[3].NewDistributor?
      && f.saberDistributor == Some(b.distributorPda) && f.saberDistributorBase == Some(b.ixs[3].base)
      && f.merkleRoot == e.merkleRoot && f.claims == e.claims && f.totalLamports == e.totalLamports
    decreases events
  {
    hide Step, Inv, IsPublished, Possible, GoesThrough, BuildBundle, WithSaber, FileName;
    if events == [] {
      assert false;
    }
    StepKeepsInv(setup, s, n, events[0]);
    var (t, reply) := Step(setup, s, events[0]);
    if IsPublished(t.files, i) {
      StepConfirms(setup, s, n, events[0], i);
      PublishedStays(setup, t, n + Added(reply), events[1..], i);
      id, env := events[0].id, events[0].env;
      e := Target(s.files, id).value;
      RecordNamesTheBundle(e, env);
    } else {
      id, env, e := PublishedRecordsNameTheirDistributor(setup, t, n + Added(reply), events[1..], i);
    }
  }
}
