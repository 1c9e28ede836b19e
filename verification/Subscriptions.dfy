/** The webhook subscription stores: in memory, and in Redis as a set of ids plus one key per
    subscription. Run one call after the other both are the same map; `SubscriptionRuns` treats
    interleaved calls. JSON text of a subscription is identified with the subscription. */
module Subscriptions {
  import opened Results

  datatype Subscription = Subscription(
    id: string, url: string, secret: string, events: seq<string>, createdAt: string)

  type Contents = m: map<string, Subscription> | forall id :: id in m ==> m[id].id == id

  ghost predicate DistinctIds(r: seq<Subscription>) {
    forall i, j :: 0 <= i < j < |r| ==> r[i].id != r[j].id
  }

  /** `r` lists exactly the subscriptions of `m`, each once, in some order. */
  ghost predicate Lists(r: seq<Subscription>, m: map<string, Subscription>) {
    && DistinctIds(r)
    && (forall s :: s in r <==> s.id in m && m[s.id] == s)
  }

  /** Two listings of the same map differ only in their order. */
  lemma ListingsAgreeUpToOrder(a: seq<Subscription>, b: seq<Subscription>, m: map<string, Subscription>)
    requires Lists(a, m) && Lists(b, m)
    ensures multiset(a) == multiset(b)
  {
    forall x ensures multiset(a)[x] == multiset(b)[x] {
      Occurrences(a, x);
      Occurrences(b, x);
      assert x in a <==> x in b;
    }
  }

  lemma {:induction false} Occurrences(r: seq<Subscription>, x: Subscription)
    requires DistinctIds(r)
    ensures multiset(r)[x] == if x in r then 1 else 0
  {
    if r != [] {
      assert r == [r[0]] + r[1..];
      Occurrences(r[1..], x);
    }
  }

  lemma NothingListed(m: map<string, Subscription>)
    ensures Lists([], m - m.Keys)
  {
  }

  /** Taking one more id from those not yet listed. */
  lemma OneMoreListed(r: seq<Subscription>, m: map<string, Subscription>, rest: set<string>, id: string)
    requires id in rest && rest <= m.Keys && m[id].id == id && Lists(r, m - rest)
    ensures Lists(r + [m[id]], m - (rest - {id}))
  {
    assert forall i :: 0 <= i < |r| ==> r[i] in r;
  }

  function Lookup(m: map<string, Subscription>, id: string): Option<Subscription> {
    if id in m then Some(m[id]) else None
  }

  class MemorySubscriptionStore {
    var subs: Contents

    constructor ()
      ensures subs == map[]
    {
      subs := map[];
    }

    method List() returns (r: seq<Subscription>)
      ensures Lists(r, subs)
    {
      hide Lists;
      r := [];
      var rest := subs.Keys;
      NothingListed(subs);
      while rest != {}
        invariant rest <= subs.Keys
        invariant Lists(r, subs - rest)
        decreases |rest|
      {
        var id :| id in rest;
        OneMoreListed(r, subs, rest, id);
        r, rest := r + [subs[id]], rest - {id};
      }
      assert subs - {} == subs;
    }

    method Get(id: string) returns (r: Option<Subscription>)
      ensures r == Lookup(subs, id)
    {
      if id in subs {
        return Some(subs[id]);
      }
      return None;
    }

    method Save(sub: Subscription)
      modifies this
      ensures subs == old(subs)[sub.id := sub]
    {
      subs := subs[sub.id := sub];
    }

    method Delete(id: string) returns (existed: bool)
      modifies this
      ensures subs == old(subs) - {id} && existed == (id in old(subs))
    {
      existed := id in subs;
      subs := subs - {id};
    }
  }

  class RedisSubscriptionStore {
    var keys: map<string, Subscription>
    var ids: set<string>

    /** Between calls the set and the keys agree. */
    ghost predicate Valid()
      reads this
    {
      ids == keys.Keys && forall id :: id in keys ==> keys[id].id == id
    }

    constructor ()
      ensures Valid() && keys == map[]
    {
      keys, ids := map[], {};
    }

    method List() returns (r: seq<Subscription>)
      requires Valid()
      ensures Lists(r, keys)
    {
      hide Lists;
      r := [];
      var rest := ids;  // SMEMBERS
      NothingListed(keys);
      while rest != {}
        invariant rest <= ids
        invariant Lists(r, keys - rest)
        decreases |rest|
      {
        var id :| id in rest;
        var sub := Get(id);
        OneMoreListed(r, keys, rest, id);
        if sub.Some? {
          r := r + [sub.value];
        }
        rest := rest - {id};
      }
      assert keys - {} == keys;
    }

    method Get(id: string) returns (r: Option<Subscription>)
      ensures r == Lookup(keys, id)
    {
      if id in keys {
        return Some(keys[id]);
      }
      return None;
    }

    method Save(sub: Subscription)
      requires Valid()
      modifies this
      ensures Valid() && keys == old(keys)[sub.id := sub]
    {
      keys := keys[sub.id := sub];  // SET
      ids := ids + {sub.id};        // SADD
    }

    method Delete(id: string) returns (existed: bool)
      requires Valid()
      modifies this
      ensures Valid() && keys == old(keys) - {id} && existed == (id in old(keys))
    {
      var removed := if id in ids then 1 else 0;
      ids := ids - {id};            // SREM
      var delCount := if id in keys then 1 else 0;
      keys := keys - {id};          // DEL
      return removed > 0 || delCount > 0;
    }
  }
}

/** Interleaved use of the Redis store: every command of every call is a step of its own. */
module SubscriptionRuns {
  import opened Results
  import opened Subscriptions

  /** A call in progress. A listing remembers which saves had finished when it began. */
  datatype Task =
    | Saving(sub: Subscription, setDone: bool, addDone: bool)
    | Deleting(id: string)
    | Listing(expected: set<string>, members: Option<set<string>>, got: map<string, Option<Subscription>>)

  /** The two Redis structures, the calls in progress, and the history: what was ever given to
      `save`, which saves have finished, and for which ids a delete was issued. */
  datatype State = State(
    keys: map<string, Subscription>, ids: set<string>, tasks: map<nat, Task>,
    saved: map<string, Subscription>, finished: set<string>, deleted: set<string>)

  const INITIAL := State(map[], {}, map[], map[], {}, {})

  datatype Step =
    | BeginSave(t: nat, sub: Subscription)
    | Set(t: nat)
    | SAdd(t: nat)
    | EndSave(t: nat)
    | BeginDelete(t: nat, id: string)
    | SRem(t: nat)
    | Del(t: nat)
    | BeginList(t: nat)
    | SMembers(t: nat)
    | GetOne(t: nat, id: string)

  /** A step that is not enabled changes nothing. Ids are fresh, as the service draws them. */
  function Next(s: State, step: Step): State {
    match step
    case BeginSave(t, sub) =>
      if t in s.tasks || sub.id in s.saved then s
      else s.(tasks := s.tasks[t := Saving(sub, false, false)], saved := s.saved[sub.id := sub])
    case Set(t) =>
      if t !in s.tasks || !s.tasks[t].Saving? || s.tasks[t].setDone then s
      else
        var sub := s.tasks[t].sub;
        s.(keys := s.keys[sub.id := sub], tasks := s.tasks[t := s.tasks[t].(setDone := true)])
    case SAdd(t) =>
      if t !in s.tasks || !s.tasks[t].Saving? || s.tasks[t].addDone then s
      else s.(ids := s.ids + {s.tasks[t].sub.id}, tasks := s.tasks[t := s.tasks[t].(addDone := true)])
    case EndSave(t) =>
      if t !in s.tasks || !s.tasks[t].Saving? || !s.tasks[t].setDone || !s.tasks[t].addDone then s
      else s.(finished := s.finished + {s.tasks[t].sub.id}, tasks := s.tasks - {t})
    case BeginDelete(t, id) =>
      if t in s.tasks then s
      else s.(tasks := s.tasks[t := Deleting(id)], deleted := s.deleted + {id})
    case SRem(t) =>
      if t !in s.tasks || !s.tasks[t].Deleting? then s else s.(ids := s.ids - {s.tasks[t].id})
    case Del(t) =>
      if t !in s.tasks || !s.tasks[t].Deleting? then s else s.(keys := s.keys - {s.tasks[t].id})
    case BeginList(t) =>
      if t in s.tasks then s else s.(tasks := s.tasks[t := Listing(s.finished, None, map[])])
    case SMembers(t) =>
      if t !in s.tasks || !s.tasks[t].Listing? || s.tasks[t].members.Some? then s
      else s.(tasks := s.tasks[t := s.tasks[t].(members := Some(s.ids))])
    case GetOne(t, id) =>
      if t !in s.tasks || !s.tasks[t].Listing? || s.tasks[t].members.None?
         || id !in s.tasks[t].members.value || id in s.tasks[t].got then s
      else s.(tasks := s.tasks[t := s.tasks[t].(got := s.tasks[t].got[id := Lookup(s.keys, id)])])
  }

  function Run(s: State, steps: seq<Step>): State
    decreases steps
  {
    if steps == [] then s else Run(Next(s, steps[0]), steps[1..])
  }

  /** The listing has asked for every member; its result is the non-null answers. */
  predicate Complete(task: Task) {
    task.Listing? && task.members.Some? && task.got.Keys == task.members.value
  }

  /** The answers in the order of `order`, nulls dropped. */
  function Answers(got: map<string, Option<Subscription>>, order: seq<string>): seq<Subscription> {
    if order == [] then []
    else
      (if order[0] in got && got[order[0]].Some? then [got[order[0]].value] else [])
      + Answers(got, order[1..])
  }

  // ------------------------------------------------------------ invariant

  ghost predicate TaskOk(s: State, task: Task) {
    match task
    case Saving(sub, setDone, addDone) =>
      && sub.id in s.saved && s.saved[sub.id] == sub
      && (setDone && sub.id !in s.deleted ==> sub.id in s.keys)
      && (addDone && sub.id !in s.deleted ==> sub.id in s.ids)
    case Deleting(id) => id in s.deleted
    case Listing(expected, members, got) =>
      && expected <= s.finished
      && (members.Some? ==> forall id :: id in expected && id !in s.deleted ==> id in members.value)
      && (members.None? ==> got == map[])
      && (forall id :: id in got && got[id].Some? ==> id in s.saved && got[id].value == s.saved[id])
      && (forall id :: id in got && got[id].None? && id in expected ==> id in s.deleted)
  }

  ghost predicate Inv(s: State) {
    && (forall id :: id in s.saved ==> s.saved[id].id == id)
    && (forall id :: id in s.keys ==> id in s.saved && s.keys[id] == s.saved[id])
    && (forall id :: id in s.finished ==> id in s.saved)
    && (forall id :: id in s.finished && id !in s.deleted ==> id in s.keys && id in s.ids)
    && (forall t :: t in s.tasks ==> TaskOk(s, s.tasks[t]))
  }

  /** The history only grows, and nothing disappears that nobody asked to delete. */
  ghost predicate Grows(s: State, t: State) {
    && s.finished <= t.finished && s.deleted <= t.deleted
    && (forall id :: id in s.saved ==> id in t.saved && t.saved[id] == s.saved[id])
    && (forall id :: id in s.keys && id !in t.deleted ==> id in t.keys)
    && (forall id :: id in s.ids && id !in t.deleted ==> id in t.ids)
  }

  lemma GrowthKeepsTask(s: State, t: State, task: Task)
    requires TaskOk(s, task) && Grows(s, t)
    ensures TaskOk(t, task)
  {
  }

  lemma StepGrows(s: State, step: Step)
    requires Inv(s)
    ensures Grows(s, Next(s, step))
    ensures forall t :: t in Next(s, step).tasks && t != step.t ==> t in s.tasks && Next(s, step).tasks[t] == s.tasks[t]
  {
  }

  /** The call that took the step is left in order, too. */
  lemma OwnTaskOk(s: State, step: Step)
    requires Inv(s)
    ensures step.t in Next(s, step).tasks ==> TaskOk(Next(s, step), Next(s, step).tasks[step.t])
  {
    var t := step.t;
    if t in s.tasks {
      assert TaskOk(s, s.tasks[t]);
    }
  }

  lemma StoreOk(s: State, step: Step)
    requires Inv(s)
    ensures var n := Next(s, step);
      && (forall id :: id in n.saved ==> n.saved[id].id == id)
      && (forall id :: id in n.keys ==> id in n.saved && n.keys[id] == n.saved[id])
      && (forall id :: id in n.finished ==> id in n.saved)
      && (forall id :: id in n.finished && id !in n.deleted ==> id in n.keys && id in n.ids)
  {
    if step.t in s.tasks {
      assert TaskOk(s, s.tasks[step.t]);
    }
  }

  lemma StepKeepsInv(s: State, step: Step)
    requires Inv(s)
    ensures Inv(Next(s, step))
  {
    StoreOk(s, step);
    OwnTaskOk(s, step);
    StepGrows(s, step);
    hide Next, TaskOk, Grows;
    var n := Next(s, step);
    forall t | t in n.tasks && t != step.t ensures TaskOk(n, n.tasks[t]) {
      GrowthKeepsTask(s, n, s.tasks[t]);
    }
  }

  lemma {:induction false} RunKeepsInv(s: State, steps: seq<Step>)
    requires Inv(s)
    ensures Inv(Run(s, steps))
    decreases steps
  {
    if steps != [] {
      StepKeepsInv(s, steps[0]);
      RunKeepsInv(Next(s, steps[0]), steps[1..]);
    }
  }

  lemma AnswersFacts(got: map<string, Option<Subscription>>, order: seq<string>)
    requires forall i, j :: 0 <= i < j < |order| ==> order[i] != order[j]
    requires forall id :: id in got && got[id].Some? ==> got[id].value.id == id
    ensures var r := Answers(got, order);
      && DistinctIds(r)
      && (forall x :: x in r <==> x.id in order && x.id in got && got[x.id] == Some(x))
  {
    AnswersMembers(got, order);
    AnswersDistinct(got, order);
  }

  lemma {:induction false} AnswersMembers(got: map<string, Option<Subscription>>, order: seq<string>)
    requires forall id :: id in got && got[id].Some? ==> got[id].value.id == id
    ensures forall x :: x in Answers(got, order) <==> x.id in order && x.id in got && got[x.id] == Some(x)
  {
    if order != [] {
      AnswersMembers(got, order[1..]);
      assert forall id :: id in order <==> id == order[0] || id in order[1..];
    }
  }

  lemma {:induction false} AnswersDistinct(got: map<string, Option<Subscription>>, order: seq<string>)
    requires forall i, j :: 0 <= i < j < |order| ==> order[i] != order[j]
    requires forall id :: id in got && got[id].Some? ==> got[id].value.id == id
    ensures DistinctIds(Answers(got, order))
  {
    if order != [] {
      AnswersDistinct(got, order[1..]);
      AnswersMembers(got, order[1..]);
      assert order[0] !in order[1..];
      if order[0] in got && got[order[0]].Some? {
        FirstDistinct(got[order[0]].value, Answers(got, order[1..]));
      }
    }
  }

  lemma FirstDistinct(x: Subscription, rest: seq<Subscription>)
    requires DistinctIds(rest) && forall y :: y in rest ==> y.id != x.id
    ensures DistinctIds([x] + rest)
  {
  }

  lemma {:induction false} RunConcat(s: State, a: seq<Step>, b: seq<Step>)
    ensures Run(s, a + b) == Run(Run(s, a), b)
    decreases a
  {
    if a == [] {
      assert a + b == b;
    } else {
      assert (a + b)[1..] == a[1..] + b;
      RunConcat(Next(s, a[0]), a[1..], b);
    }
  }

  /** A listing in progress keeps what it expects. */
  lemma {:induction false} ExpectationStays(s: State, steps: seq<Step>, t: nat)
    requires t in s.tasks && s.tasks[t].Listing?
    ensures var n := Run(s, steps); t in n.tasks && n.tasks[t].Listing? && n.tasks[t].expected == s.tasks[t].expected
    decreases steps
  {
    if steps != [] {
      ExpectationStays(Next(s, steps[0]), steps[1..], t);
    }
  }

  /** Under every interleaving of commands, once a listing that began after `before` has all its
      answers, then for whatever order Redis returned the members in, its result has no duplicate,
      contains only records that were saved, and contains every subscription whose save had
      finished before the listing began and that nobody asked to delete. */
  lemma ListingUnderInterleaving(before: seq<Step>, t: nat, after: seq<Step>, order: seq<string>)
    requires t !in Run(INITIAL, before).tasks
    requires var s := Run(INITIAL, before + ([BeginList(t)] + after));
             t in s.tasks && Complete(s.tasks[t])
             && (forall i, j :: 0 <= i < j < |order| ==> order[i] != order[j])
             && (forall id :: id in order <==> id in s.tasks[t].members.value)
    ensures var s := Run(INITIAL, before + ([BeginList(t)] + after));
            var r := Answers(s.tasks[t].got, order);
      && DistinctIds(r)
      && (forall x :: x in r ==> x.id in s.saved && s.saved[x.id] == x)
      && (forall id :: id in Run(INITIAL, before).finished && id !in s.deleted ==>
            id in s.saved && s.saved[id] in r)
  {
    hide Answers, DistinctIds, Complete, TaskOk;
    var mid := Run(INITIAL, before);
    RunKeepsInv(INITIAL, before + ([BeginList(t)] + after));
    BegunListing(before, t, after);
    hide Run, Inv;
    ResultOfListing(Run(INITIAL, before + ([BeginList(t)] + after)), t, order);
  }

  lemma BegunListing(before: seq<Step>, t: nat, after: seq<Step>)
    requires t !in Run(INITIAL, before).tasks
    ensures var s := Run(INITIAL, before + ([BeginList(t)] + after));
            t in s.tasks && s.tasks[t].Listing? && s.tasks[t].expected == Run(INITIAL, before).finished
  {
    var mid := Run(INITIAL, before);
    RunConcat(INITIAL, before, [BeginList(t)] + after);
    assert ([BeginList(t)] + after)[1..] == after;
    ExpectationStays(Next(mid, BeginList(t)), after, t);
  }

  lemma ResultOfListing(s: State, t: nat, order: seq<string>)
    requires Inv(s) && t in s.tasks && Complete(s.tasks[t])
    requires forall i, j :: 0 <= i < j < |order| ==> order[i] != order[j]
    requires forall id :: id in order <==> id in s.tasks[t].members.value
    ensures var r := Answers(s.tasks[t].got, order);
      && DistinctIds(r)
      && (forall x :: x in r ==> x.id in s.saved && s.saved[x.id] == x)
      && (forall id :: id in s.tasks[t].expected && id !in s.deleted ==> id in s.saved && s.saved[id] in r)
  {
    assert TaskOk(s, s.tasks[t]);
    AnswersFacts(s.tasks[t].got, order);
  }

  // ------------------------------------------------------------ deletion

  /** The save of `id` is over, and as ids are fresh there will be no other. */
  ghost predicate Settled(s: State, id: string) {
    id in s.saved && forall t :: t in s.tasks && s.tasks[t].Saving? ==> s.tasks[t].sub.id != id
  }

  ghost predicate NotInSet(s: State, id: string) {
    Settled(s, id) && id !in s.ids
  }

  ghost predicate NoKey(s: State, id: string) {
    Settled(s, id) && id !in s.keys
  }

  lemma SettledStays(s: State, step: Step, id: string)
    requires Settled(s, id)
    ensures Settled(Next(s, step), id)
    ensures id !in s.ids ==> id !in Next(s, step).ids
    ensures id !in s.keys ==> id !in Next(s, step).keys
  {
  }

  /** SREM takes the id out of the set for good, DEL removes its key for good. */
  lemma {:induction false} RemovedForGood(s: State, steps: seq<Step>, t: nat, id: string)
    requires Settled(s, id) && t in s.tasks && s.tasks[t] == Deleting(id)
    ensures var n := Run(s, steps);
      && Settled(n, id)
      && (id !in s.ids || SRem(t) in steps ==> NotInSet(n, id))
      && (id !in s.keys || Del(t) in steps ==> NoKey(n, id))
    decreases steps
  {
    if steps != [] {
      SettledStays(s, steps[0], id);
      DeletingStays(s, steps[0], t, id);
      assert forall x :: x in steps <==> x == steps[0] || x in steps[1..];
      hide Settled;
      RemovedForGood(Next(s, steps[0]), steps[1..], t, id);
    }
  }

  lemma DeletingStays(s: State, step: Step, t: nat, id: string)
    requires t in s.tasks && s.tasks[t] == Deleting(id)
    ensures var n := Next(s, step);
            && t in n.tasks && n.tasks[t] == Deleting(id)
            && (step == SRem(t) ==> id !in n.ids) && (step == Del(t) ==> id !in n.keys)
  {
  }

  /** A listing under way that has not been answered about `id`, over a store without it. */
  ghost predicate Blind(s: State, l: nat, id: string) {
    && NoKey(s, id) && l in s.tasks && s.tasks[l].Listing?
    && (id in s.tasks[l].got ==> s.tasks[l].got[id].None?)
  }

  lemma BlindStays(s: State, step: Step, l: nat, id: string)
    requires Blind(s, l, id)
    ensures Blind(Next(s, step), l, id)
  {
    SettledStays(s, step, id);
  }

  lemma {:induction false} BlindForGood(s: State, steps: seq<Step>, l: nat, id: string)
    requires Blind(s, l, id)
    ensures Blind(Run(s, steps), l, id)
    decreases steps
  {
    if steps != [] {
      hide Next;
      BlindStays(s, steps[0], l, id);
      BlindForGood(Next(s, steps[0]), steps[1..], l, id);
    }
  }

  /** A deleted subscription is gone: once its save was over and both commands of a delete have
      run, in whatever order and among whatever other commands, it is in neither structure for
      ever, and a listing begun from then on does not return it. */
  lemma DeletedIsGone(s: State, t: nat, id: string, before: seq<Step>, l: nat, after: seq<Step>, order: seq<string>)
    requires Inv(s) && Settled(s, id) && t in s.tasks && s.tasks[t] == Deleting(id)
    requires SRem(t) in before && Del(t) in before && l !in Run(s, before).tasks
    ensures var n := Run(Next(Run(s, before), BeginList(l)), after);
      && id !in n.ids && id !in n.keys
      && l in n.tasks && n.tasks[l].Listing?
      && (forall x :: x in Answers(n.tasks[l].got, order) ==> x.id != id)
  {
    var m := Run(s, before);
    RemovedForGood(s, before, t, id);
    var b := Next(m, BeginList(l));
    SettledStays(m, BeginList(l), id);
    assert Blind(b, l, id);
    BlindForGood(b, after, l, id);
    StaysOut(b, after, id);
    RunKeepsInv(s, before);
    StepKeepsInv(m, BeginList(l));
    RunKeepsInv(b, after);
    NotAnswered(Run(b, after), l, id, order);
  }

  lemma {:induction false} StaysOut(s: State, steps: seq<Step>, id: string)
    requires NotInSet(s, id)
    ensures NotInSet(Run(s, steps), id)
    decreases steps
  {
    if steps != [] {
      SettledStays(s, steps[0], id);
      StaysOut(Next(s, steps[0]), steps[1..], id);
    }
  }

  lemma NotAnswered(s: State, l: nat, id: string, order: seq<string>)
    requires Inv(s) && Blind(s, l, id)
    ensures forall x :: x in Answers(s.tasks[l].got, order) ==> x.id != id
  {
    assert TaskOk(s, s.tasks[l]);
    AnswersMembers(s.tasks[l].got, order);
  }

  /** Between the end of a save and the first delete, nothing else has to be known: a finished save
      is over. */
  lemma {:induction false} FinishedIsSettled(steps: seq<Step>, id: string)
    requires id in Run(INITIAL, steps).finished
    ensures Settled(Run(INITIAL, steps), id)
  {
    OneSaverEach(INITIAL, steps);
  }

  /** No two calls save the same id, and none saves one that is finished. */
  ghost predicate OneSaver(s: State) {
    && (forall t :: t in s.tasks && s.tasks[t].Saving? ==>
          s.tasks[t].sub.id in s.saved && s.tasks[t].sub.id !in s.finished)
    && (forall t, u :: t in s.tasks && u in s.tasks && t != u && s.tasks[t].Saving? && s.tasks[u].Saving? ==>
          s.tasks[t].sub.id != s.tasks[u].sub.id)
    && s.finished <= s.saved.Keys
  }

  lemma OneSaverStep(s: State, step: Step)
    requires OneSaver(s)
    ensures OneSaver(Next(s, step))
  {
  }

  lemma {:induction false} OneSaverEach(s: State, steps: seq<Step>)
    requires OneSaver(s)
    ensures OneSaver(Run(s, steps))
    decreases steps
  {
    if steps != [] {
      OneSaverStep(s, steps[0]);
      OneSaverEach(Next(s, steps[0]), steps[1..]);
    }
  }
}
