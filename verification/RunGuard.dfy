/** The guard of `/admin/run-epoch` against the promise made for it: no run while the newest epoch
    is younger than the interval. When it is kept, and how publishing breaks it. */
module RunGuard {
  import opened Results
  import opened Storage
  import opened Epoch
  import opened SaberPublisher
  import opened Indexer
  import opened IndexerSafety

  function Newest(files: Directory, n: nat): EpochResult
    requires n > 0 && FileName(n - 1) in files
  {
    files[FileName(n - 1)]
  }

  /** Whenever the newest epoch is younger than the interval, a run is refused. */
  ghost predicate PromiseKept(setup: Setup, files: Directory, n: nat) {
    n > 0 ==> FileName(n - 1) in files && forall now: int ::
      now - Newest(files, n).endedAt < setup.minIntervalMs ==> RefusesRun(files, now, setup.minIntervalMs)
  }

  /** The record last written did not end before the newest epoch. */
  predicate LatestIsNewest(files: Directory, n: nat) {
    n > 0 ==> LATEST in files && FileName(n - 1) in files && files[LATEST].endedAt >= Newest(files, n).endedAt
  }

  /** In every store the promise is kept exactly when the record last written, which is what the
      guard reads, did not end before the newest epoch. */
  lemma PromiseKeptExactly(setup: Setup, files: Directory, n: nat)
    requires Inv(setup, files, n)
    ensures PromiseKept(setup, files, n) <==> LatestIsNewest(files, n)
  {
    hide Genuine, FileName;
    if n > 0 {
      var now := Newest(files, n).endedAt + setup.minIntervalMs - 1;
      assert now - Newest(files, n).endedAt < setup.minIntervalMs;
      assert RefusesRun(files, now, setup.minIntervalMs) <==> LatestIsNewest(files, n);
    }
  }

  // ------------------------------------------------------------ one call

  /** After a run, the next one is refused exactly until the interval has passed since its end. */
  lemma RunningMovesTheGuard(setup: Setup, s: State, run: RunInputs, now: int)
    requires RunStep(setup, s, run).1.Ran?
    ensures RefusesRun(RunStep(setup, s, run).0.files, now, setup.minIntervalMs)
       <==> now - run.times.endedAt < setup.minIntervalMs
  {
  }

  // ------------------------------------------------------------ over runs

  /** A publication that goes through for an epoch that ended before the newest. */
  predicate PublishesEarlier(setup: Setup, files: Directory, n: nat, ev: Event) {
    && ev.PublishCall? && setup.publisherOn && n > 0 && FileName(n - 1) in files
    && Target(files, ev.id).Some? && GoesThrough(Target(files, ev.id).value, ev.env)
    && Target(files, ev.id).value.endedAt < Newest(files, n).endedAt
  }

  lemma RunMakesNewest(setup: Setup, s: State, n: nat, run: RunInputs)
    requires Inv(setup, s.files, n) && Possible(s, RunEpochCall(run)) && LatestIsNewest(s.files, n)
    requires Inv(setup, RunStep(setup, s, run).0.files, n + Added(RunStep(setup, s, run).1))
    ensures LatestIsNewest(RunStep(setup, s, run).0.files, n + Added(RunStep(setup, s, run).1))
  {
    hide Genuine, FileName, MakeEpoch;
    var r := RunResult(setup, run);
    if RunStep(setup, s, run).1.Ran? {
      RunWritesNext(setup, s, n, run);
    }
  }

  lemma RunWritesNext(setup: Setup, s: State, n: nat, run: RunInputs)
    requires Inv(setup, s.files, n) && Possible(s, RunEpochCall(run)) && RunStep(setup, s, run).1.Ran?
    ensures var t := RunStep(setup, s, run).0;
            && LATEST in t.files && FileName(n) in t.files
            && t.files[LATEST] == t.files[FileName(n)] == RunResult(setup, run).value
            && t.files[LATEST].endedAt == run.times.endedAt
  {
    ListingOfRegular(s.files, n, run.names);
    NamesDiffer(n, n);
  }

  lemma PublishMovesLatest(setup: Setup, s: State, n: nat, id: Option<nat>, env: PublishEnv)
    requires Inv(setup, s.files, n) && LatestIsNewest(s.files, n)
    requires Inv(setup, PublishStep(setup, s, id, env).0.files, n)
    ensures LatestIsNewest(PublishStep(setup, s, id, env).0.files, n)
       <==> !PublishesEarlier(setup, s.files, n, PublishCall(id, env))
  {
    hide Genuine, FileName, GoesThrough;
    var target := Target(s.files, id);
    if setup.publisherOn && target.Some? && GoesThrough(target.value, env) {
      TargetIsStored(setup, s.files, n, id);
      NamesDiffer(n - 1, target.value.epochId);
    }
  }

  /** A call keeps the latest record the newest unless it publishes one that ended earlier. */
  lemma StepKeepsLatest(setup: Setup, s: State, n: nat, ev: Event)
    requires Inv(setup, s.files, n) && Possible(s, ev) && LatestIsNewest(s.files, n)
    ensures var (t, reply) := Step(setup, s, ev);
            && Inv(setup, t.files, n + Added(reply))
            && (LatestIsNewest(t.files, n + Added(reply)) <==> !PublishesEarlier(setup, s.files, n, ev))
  {
    hide RunStep, PublishStep, Genuine, FileName, Regular;
    StepKeepsInv(setup, s, n, ev);
    match ev
    case RunEpochCall(run) => RunMakesNewest(setup, s, n, run);
    case PublishCall(id, env) =>
      PublishAddsNothing(setup, s, id, env);
      PublishMovesLatest(setup, s, n, id, env);
    case Restart =>
  }

  ghost predicate KeptThroughout(setup: Setup, s: State, n: nat, events: seq<Event>)
    decreases events
  {
    && PromiseKept(setup, s.files, n)
    && (events == [] ||
        var (t, reply) := Step(setup, s, events[0]);
        KeptThroughout(setup, t, n + Added(reply), events[1..]))
  }

  predicate NeverPublishesEarlier(setup: Setup, s: State, n: nat, events: seq<Event>)
    decreases events
  {
    events == [] ||
    (!PublishesEarlier(setup, s.files, n, events[0])
     && var (t, reply) := Step(setup, s, events[0]);
        NeverPublishesEarlier(setup, t, n + Added(reply), events[1..]))
  }

  /** Along a run of the server the promise holds at every point exactly when no publication goes
      through for an epoch that ended before the newest. */
  lemma {:induction false} PromiseOverRuns(setup: Setup, s: State, n: nat, events: seq<Event>)
    requires Inv(setup, s.files, n) && AllPossible(setup, s, events) && LatestIsNewest(s.files, n)
    ensures KeptThroughout(setup, s, n, events) <==> NeverPublishesEarlier(setup, s, n, events)
    decreases events
  {
    hide Step, Genuine, FileName, Regular, PromiseKept, LatestIsNewest, PublishesEarlier, Possible, Added;
    PromiseKeptExactly(setup, s.files, n);
    if events != [] {
      var (t, reply) := Step(setup, s, events[0]);
      StepKeepsLatest(setup, s, n, events[0]);
      if LatestIsNewest(t.files, n + Added(reply)) {
        PromiseOverRuns(setup, t, n + Added(reply), events[1..]);
      } else {
        AlreadyBroken(setup, t, n + Added(reply), events[1..]);
      }
    }
  }

  lemma AlreadyBroken(setup: Setup, s: State, n: nat, events: seq<Event>)
    requires Inv(setup, s.files, n) && AllPossible(setup, s, events) && !LatestIsNewest(s.files, n)
    ensures !KeptThroughout(setup, s, n, events)
  {
    hide Step, Genuine, FileName, Regular, PromiseKept, LatestIsNewest, Possible, Added;
    PromiseKeptExactly(setup, s.files, n);
  }
}
