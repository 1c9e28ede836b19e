/** How many proposals reach the chain for one epoch. A publication that is sent but not confirmed
    leaves the record unpublished, and the next call proposes a second distributor. */
module ProposalRuns {
  import opened Bytes
  import opened Results
  import opened Rewards
  import opened Merkle
  import opened Storage
  import opened SaberBundle
  import opened SaberPublisher
  import opened Indexer
  import opened IndexerSafety
  import opened GuardWitness

  /** The call puts a proposal for epoch `i` on chain. */
  predicate Proposes(setup: Setup, s: State, ev: Event, i: nat) {
    && ev.PublishCall? && setup.publisherOn
    && var target := Target(s.files, ev.id);
    && target.Some? && target.value.epochId == i && Submits(target.value, ev.env)
  }

  function One(p: bool): nat {
    if p then 1 else 0
  }

  function ProposalsOver(setup: Setup, s: State, events: seq<Event>, i: nat): nat
    decreases events
  {
    if events == [] then 0
    else One(Proposes(setup, s, events[0], i)) + ProposalsOver(setup, Step(setup, s, events[0]).0, events[1..], i)
  }

  /** Those of them whose confirmation did not arrive. */
  function UnconfirmedOver(setup: Setup, s: State, events: seq<Event>, i: nat): nat
    decreases events
  {
    if events == [] then 0
    else One(Proposes(setup, s, events[0], i) && !events[0].env.confirmed)
         + UnconfirmedOver(setup, Step(setup, s, events[0]).0, events[1..], i)
  }

  lemma PublishFlips(setup: Setup, s: State, n: nat, id: Option<nat>, env: PublishEnv, i: nat)
    requires Inv(setup, s.files, n)
    ensures One(Proposes(setup, s, PublishCall(id, env), i) && env.confirmed) + One(IsPublished(s.files, i))
         == One(IsPublished(PublishStep(setup, s, id, env).0.files, i))
  {
    hide Genuine, FileName, Submits;
    var target := Target(s.files, id);
    if setup.publisherOn && target.Some? && GoesThrough(target.value, env) {
      WentThrough(target.value, env);
      TargetIsStored(setup, s.files, n, id);
      NamesDiffer(target.value.epochId, i);
      NamesDiffer(i, i);
    }
  }

  lemma RunPublishesNothing(setup: Setup, s: State, n: nat, run: RunInputs, i: nat)
    requires Inv(setup, s.files, n) && Possible(s, RunEpochCall(run))
    ensures IsPublished(RunStep(setup, s, run).0.files, i) <==> IsPublished(s.files, i)
  {
    hide Genuine, FileName;
    if RunStep(setup, s, run).1.Ran? {
      ListingOfRegular(s.files, n, run.names);
      MadeIsGenuine(setup, run, n);
      NamesDiffer(n, i);
      NamesDiffer(i, i);
      NotYetStored(s.files, n);
    }
  }

  lemma NotYetStored(files: Directory, n: nat)
    requires Regular(files, n)
    ensures FileName(n) !in files
  {
    NamesDiffer(n, n);
    if FileName(n) in files {
      var i :| 0 <= i < n && FileName(n) == FileName(i);
      NamesDiffer(n, i);
    }
  }

  /** A call confirms a proposal for an epoch exactly when it makes it published. */
  lemma StepFlips(setup: Setup, s: State, n: nat, ev: Event, i: nat)
    requires Inv(setup, s.files, n) && Possible(s, ev)
    ensures One(Proposes(setup, s, ev, i) && ev.env.confirmed) + One(IsPublished(s.files, i))
         == One(IsPublished(Step(setup, s, ev).0.files, i))
  {
    hide RunStep, PublishStep, Inv, Possible, IsPublished;
    match ev
    case RunEpochCall(run) => RunPublishesNothing(setup, s, n, run, i);
    case PublishCall(id, env) => PublishFlips(setup, s, n, id, env, i);
    case Restart =>
  }

  /** Over a run, the proposals of an epoch are the unconfirmed ones, plus one if it became
      published. */
  lemma {:induction false} ProposalsCounted(setup: Setup, s: State, n: nat, events: seq<Event>, i: nat)
    requires Inv(setup, s.files, n) && AllPossible(setup, s, events)
    ensures ProposalsOver(setup, s, events, i) + One(IsPublished(s.files, i))
         == UnconfirmedOver(setup, s, events, i) + One(IsPublished(After(setup, s, events).files, i))
    decreases events
  {
    hide Step, Inv, Possible, Proposes, IsPublished, Added;
    if events != [] {
      StepFlips(setup, s, n, events[0], i);
      StepKeepsInv(setup, s, n, events[0]);
      var (t, reply) := Step(setup, s, events[0]);
      ProposalsCounted(setup, t, n + Added(reply), events[1..], i);
    }
  }

  /** From an empty directory an epoch gets at most one proposal exactly when none of its proposals
      stays unconfirmed, or a single one does and the epoch is never published. */
  lemma AtMostOneProposal(setup: Setup, events: seq<Event>, i: nat)
    requires AllPossible(setup, EMPTY_STORE, events)
    ensures ProposalsOver(setup, EMPTY_STORE, events, i) <= 1
       <==> var unconfirmed := UnconfirmedOver(setup, EMPTY_STORE, events, i);
            || unconfirmed == 0
            || (unconfirmed == 1 && !IsPublished(After(setup, EMPTY_STORE, events).files, i))
  {
    EmptyDirectoryIsFine(setup);
    ProposalsCounted(setup, EMPTY_STORE, 0, events, i);
  }

  // ------------------------------------------------------------ two proposals

  /** Publishing epoch 0 again after its confirmation was lost proposes it a second time. */
  lemma TwoProposals(h: Hash, pow: Power, alice: Pubkey, env: PublishEnv, interval: int)
    requires PowerOk(pow) && env.submitted && env.confirmed
    ensures var setup := WithInterval(h, pow, interval);
            var events := [FirstRun(alice), PublishCall(Some(0), env.(confirmed := false)), PublishCall(Some(0), env)];
            && AllPossible(setup, EMPTY_STORE, events)
            && ProposalsOver(setup, EMPTY_STORE, events, 0) == 2
            && IsPublished(After(setup, EMPTY_STORE, events).files, 0)
  {
    var setup := WithInterval(h, pow, interval);
    var s0 := EMPTY_STORE;
    EmptyDirectoryIsFine(setup);
    var lost, found := PublishCall(Some(0), env.(confirmed := false)), PublishCall(Some(0), env);
    hide RunStep, Genuine, Submits, FileName, Possible, RunAt, NamesOf, Regular;
    RunGoesThrough(setup, s0, 0, alice, 0, env);
    var s1 := Step(setup, s0, FirstRun(alice)).0;
    LostThenFound(setup, s1, env);
    PublishIsPossible(s1, Some(0), env.(confirmed := false));
    PublishIsPossible(s1, Some(0), env);
    ThreeCalls(setup, s0, FirstRun(alice), lost, found);
    ThreeCounts(setup, s0, FirstRun(alice), lost, found, 0);
  }

  lemma LostThenFound(setup: Setup, s: State, env: PublishEnv)
    requires Inv(setup, s.files, 1) && setup.publisherOn && FileName(0) in s.files
    requires GoesThrough(s.files[FileName(0)], env)
    ensures var lost, found := PublishCall(Some(0), env.(confirmed := false)), PublishCall(Some(0), env);
            && Proposes(setup, s, lost, 0) && Step(setup, s, lost).0 == s
            && Proposes(setup, s, found, 0) && IsPublished(Step(setup, s, found).0.files, 0)
  {
    hide Inv, FileName, Submits, Regular, Genuine, WithSaber;
    IdOfFirst(setup, s);
    StillSubmits(s.files[FileName(0)], env);
    NamesDiffer(0, 0);
    SaberIsSet(s.files[FileName(0)], env);
  }

  lemma IdOfFirst(setup: Setup, s: State)
    requires Inv(setup, s.files, 1)
    ensures FileName(0) in s.files && s.files[FileName(0)].epochId == 0
  {
    hide FileName, Genuine;
  }

  lemma StillSubmits(e: EpochResult, env: PublishEnv)
    ensures Submits(e, env) <==> Submits(e, env.(confirmed := false))
  {
    hide BuildBundle;
  }

  lemma SaberIsSet(e: EpochResult, env: PublishEnv)
    ensures WithSaber(e, env).epochId == e.epochId && WithSaber(e, env).saberDistributor.Some?
  {
  }

  lemma ThreeCounts(setup: Setup, s: State, a: Event, b: Event, c: Event, i: nat)
    requires a.RunEpochCall?
    ensures var t := Step(setup, s, a).0;
            var u := Step(setup, t, b).0;
            ProposalsOver(setup, s, [a, b, c], i) == One(Proposes(setup, t, b, i)) + One(Proposes(setup, u, c, i))
  {
    hide Step;
    var t := Step(setup, s, a).0;
    var u := Step(setup, t, b).0;
    assert !Proposes(setup, s, a, i);
    hide Proposes;
    assert [a, b, c][1..] == [b, c] && [b, c][1..] == [c] && [c][1..] == [];
    assert ProposalsOver(setup, u, [c], i) == One(Proposes(setup, u, c, i));
    assert ProposalsOver(setup, t, [b, c], i) == One(Proposes(setup, t, b, i)) + ProposalsOver(setup, u, [c], i);
  }
}
