/** Hooks whose target is absent outlive their plan: hk_runtime_drain_pending retries them. */
module DeferredQueue {
  import opened Options
  import opened Mutations
  import opened Routing
  import opened Hooks
  import opened PlanRules
  import opened PrepareRules
  import opened CommitRules

  // ---- hooks that outlive their plan ----

  ghost predicate Queued(h: Hook, engines: seq<Engine>, nextId: nat, dispatched: set<nat>) {
    h.outcome.Pending? && h.prepared.None? && Matched(h, engines) && h.id < nextId && h.id !in dispatched
  }

  ghost predicate Queue(pending: seq<Hook>, engines: seq<Engine>, nextId: nat, dispatched: set<nat>) {
    && (forall i :: 0 <= i < |pending| ==> Queued(pending[i], engines, nextId, dispatched))
    && (forall i, j :: 0 <= i < j < |pending| ==> pending[i].id != pending[j].id)
  }

  /** The hooks of two lists are different hooks. */
  ghost predicate Strangers(hooks: seq<Hook>, others: seq<Hook>) {
    forall i, j :: 0 <= i < |hooks| && 0 <= j < |others| ==> hooks[i].id != others[j].id
  }

  /** What is known of a retried hook: it waits on, or it has been tried once and for all. */
  ghost predicate Retried(before: Hook, h: Hook, chains: map<Key, seq<Link>>) {
    && h.id == before.id && h.spec == before.spec && Declared(h)
    && h.outcome in {Pending, FailedSafe, Conflict, Active, FailedPartial, FailedUnknown}
    && (h.outcome.Active? ==> h.spec.key in chains && Link(h.spec.replacement, h.original) in chains[h.spec.key])
  }

  ghost predicate Grows(chains: map<Key, seq<Link>>, chains': map<Key, seq<Link>>) {
    forall key :: key in chains ==> key in chains' && chains[key] <= chains'[key]
  }

  lemma RetriedStays(before: Hook, h: Hook, chains: map<Key, seq<Link>>, chains': map<Key, seq<Link>>)
    requires Retried(before, h, chains) && Grows(chains, chains')
    ensures Retried(before, h, chains')
  {
    if h.outcome.Active? {
      var links, links' := chains[h.spec.key], chains'[h.spec.key];
      var i :| 0 <= i < |links| && links[i] == Link(h.spec.replacement, h.original);
      assert links'[i] == links[i];
    }
  }

  // The first of the hooks still to be retried is kept, or leaves having been dispatched at most.
  lemma QueueNext(keep: seq<Hook>, rest: seq<Hook>, h: Hook, engines: seq<Engine>, nextId: nat, dispatched: set<nat>,
                  dispatched': set<nat>)
    requires rest != [] && Queue(keep + rest, engines, nextId, dispatched) && dispatched' <= dispatched + {rest[0].id}
    ensures Queued(rest[0], engines, nextId, dispatched)
    ensures Queue(keep + rest[1..], engines, nextId, dispatched')
    ensures h.id == rest[0].id && Queued(h, engines, nextId, dispatched') && dispatched' == dispatched ==>
              Queue(keep + [h] + rest[1..], engines, nextId, dispatched')
  {
    hide Violates;
    var all := keep + rest;
    var less, more := keep + rest[1..], keep + [h] + rest[1..];
    assert all[|keep|] == rest[0];
    forall i | 0 <= i < |less|
      ensures less[i] == all[if i < |keep| then i else i + 1] && less[i].id != rest[0].id
    {
    }
    forall i | 0 <= i < |more|
      ensures more[i] == if i == |keep| then h else all[i]
    {
    }
  }

  lemma ExtendedGrows(chains: map<Key, seq<Link>>, h: Hook)
    ensures var chains' := Extended(chains, h);
            Grows(chains, chains') && h.spec.key in chains' && Link(h.spec.replacement, h.original) in chains'[h.spec.key]
  {
    var links := Extended(chains, h)[h.spec.key];
    assert links[|links| - 1] == Link(h.spec.replacement, h.original);
  }

  /** One call, which changes nothing else but perhaps the image catalog. */
  predicate Told(w: World, w': World, call: Asked) {
    w' == w.(log := w.log + [call], generation := w'.generation)
  }

  /** A retried hook prepares, and if that works commits at once. */
  ghost predicate RetryHeard(before: Hook, h: Hook, engine: Engine, w: World, w': World, a: PrepareAnswer) {
    var tried, call := before.(prepareEffects := a.effects), PrepareAsked(before.id, a);
    match Settled(engine.candidate.caps, a)
    case NotApplicable => h == tried && Told(w, w', call)
    case PrepareFailed => h == tried.(outcome := FailedSafe) && Told(w, w', call)
    case PrepareOk => exists mid, done, c :: RetryCommitted(tried.(prepared := a.handle), h, engine, w, mid, w', call, done, c)
  }

  ghost predicate RetryCommitted(taken: Hook, h: Hook, engine: Engine, w: World, mid: World, w': World, call: Asked, done: Hook,
                                 c: CommitAnswer)
  {
    && Told(w, mid, call) && CommitHeard(taken, done, engine.candidate.caps, mid, w', c) && Answerable(engine.verifies, c)
    && h == done.(prepared := None)
  }

  ghost predicate RetryStep(before: Hook, h: Hook, engines: seq<Engine>, w: World, w': World) {
    && before.engine.Some? && before.engine.value < |engines|
    && exists a :: RetryHeard(before, h, engines[before.engine.value], w, w', a)
  }

  /** The queue is retried in its order, each hook on what the ones before it left. */
  ghost predicate DrainRun(pending: seq<Hook>, results: seq<Hook>, worlds: seq<World>, engines: seq<Engine>) {
    && |results| <= |pending| && |worlds| == |results| + 1
    && forall i :: 0 <= i < |results| ==> RetryStep(pending[i], results[i], engines, worlds[i], worlds[i + 1])
  }

  lemma DrainRunStarts(pending: seq<Hook>, w: World, engines: seq<Engine>)
    ensures DrainRun(pending, [], [w], engines)
  {
  }

  lemma DrainRunMore(pending: seq<Hook>, results: seq<Hook>, worlds: seq<World>, engines: seq<Engine>, h: Hook, w: World)
    requires DrainRun(pending, results, worlds, engines) && |results| < |pending|
    requires RetryStep(pending[|results|], h, engines, worlds[|results|], w)
    ensures DrainRun(pending, results + [h], worlds + [w], engines)
  {
    hide RetryStep;
  }

  /** Retries every queued hook. One whose target is still absent stays queued; any other leaves,
      tried at most once, with every prepared state given back. Order, dependencies and domains
      play no part any more. */
  method Drain(runtime: Runtime) returns (results: seq<Hook>, ghost worlds: seq<World>)
    requires runtime.Valid() && Queue(runtime.pending, runtime.engines, runtime.nextId, runtime.dispatched)
    modifies runtime`pending, runtime`generation, runtime`log, runtime`nextHandle, runtime`outstanding, runtime`freed, runtime`dispatched,
             runtime`ledger, runtime`chains
    ensures runtime.Valid() && Queue(runtime.pending, runtime.engines, runtime.nextId, runtime.dispatched)
    ensures runtime.outstanding == old(runtime.outstanding)
    ensures |results| == |old(runtime.pending)|
    ensures forall i :: 0 <= i < |results| ==> Retried(old(runtime.pending)[i], results[i], runtime.chains)
    ensures runtime.pending == Waiters(results)
    ensures runtime.dispatched <= old(runtime.dispatched) + Ids(old(runtime.pending))
    ensures DrainRun(old(runtime.pending), results, worlds, runtime.engines)
    ensures worlds[0] == old(runtime.Now()) && worlds[|results|] == runtime.Now()
  {
    hide Runtime.LedgerValid, Runtime.LogValid, Runtime.StatesValid, Draining, Retried, Grows, RetryStep, Queued;
    var pending := runtime.pending;
    results, worlds := [], [runtime.Now()];
    var keep: seq<Hook> := [];
    ghost var was := runtime.dispatched;
    DrainingStarts(pending, runtime.Now(), runtime.engines, runtime.nextId);
    for i := 0 to |pending|
      invariant runtime.Valid() && runtime.outstanding == old(runtime.outstanding) && |results| == i
      invariant Draining(pending, keep, results, worlds, runtime.Now(), runtime.engines, runtime.nextId, was)
      invariant worlds != [] && worlds[0] == old(runtime.Now())
    {
      ghost var w := runtime.Now();
      NextQueued(pending, keep, results, worlds, w, runtime.engines, runtime.nextId, was);
      var h := Retry(runtime, pending[i]);
      DrainedOne(pending, keep, results, worlds, w, h, runtime.Now(), runtime.engines, runtime.nextId, was);
      results, worlds := results + [h], worlds + [runtime.Now()];
      if h.outcome.Pending? {
        keep := keep + [h];
      }
    }
    DrainingEnds(pending, keep, results, worlds, runtime.Now(), runtime.engines, runtime.nextId, was);
    runtime.SetPending(keep);
  }

  /** The first hooks have been retried; those that wait on are kept in front of the rest. */
  ghost predicate Draining(pending: seq<Hook>, keep: seq<Hook>, results: seq<Hook>, worlds: seq<World>, w: World,
                           engines: seq<Engine>, nextId: nat, was: set<nat>)
  {
    && |results| <= |pending| && keep == Waiters(results)
    && (forall j :: 0 <= j < |results| ==> Retried(pending[j], results[j], w.chains))
    && Queue(keep + pending[|results|..], engines, nextId, w.dispatched)
    && w.dispatched <= was + Ids(pending[..|results|])
    && DrainRun(pending, results, worlds, engines) && worlds[|results|] == w
  }

  lemma DrainingStarts(pending: seq<Hook>, w: World, engines: seq<Engine>, nextId: nat)
    requires Queue(pending, engines, nextId, w.dispatched)
    ensures Draining(pending, [], [], [w], w, engines, nextId, w.dispatched)
  {
    hide Queue, DrainRun;
    DrainRunStarts(pending, w, engines);
    assert [] + pending[0..] == pending;
    NoWaiters();
  }

  lemma NextQueued(pending: seq<Hook>, keep: seq<Hook>, results: seq<Hook>, worlds: seq<World>, w: World, engines: seq<Engine>,
                   nextId: nat, was: set<nat>)
    requires Draining(pending, keep, results, worlds, w, engines, nextId, was) && |results| < |pending|
    ensures Queued(pending[|results|], engines, nextId, w.dispatched)
  {
    hide Queue, Queued, Retried, Waiters, DrainRun;
    QueueNext(keep, pending[|results|..], pending[|results|], engines, nextId, w.dispatched, w.dispatched);
  }

  lemma DrainedOne(pending: seq<Hook>, keep: seq<Hook>, results: seq<Hook>, worlds: seq<World>, w: World, h: Hook, w': World,
                   engines: seq<Engine>, nextId: nat, was: set<nat>)
    requires Draining(pending, keep, results, worlds, w, engines, nextId, was) && |results| < |pending|
    requires var before := pending[|results|];
             && h.id == before.id && Retried(before, h, w'.chains) && Grows(w.chains, w'.chains)
             && (h.outcome.Pending? ==> Queued(h, engines, nextId, w'.dispatched) && w'.dispatched == w.dispatched)
             && w'.dispatched <= w.dispatched + {before.id} && RetryStep(before, h, engines, w, w')
    ensures Draining(pending, if h.outcome.Pending? then keep + [h] else keep, results + [h], worlds + [w'], w', engines, nextId, was)
  {
    hide Queue, Queued, Retried, Waiters, DrainRun, Grows, Ids, RetryStep;
    var i := |results|;
    IdsMore(pending, i);
    QueueNext(keep, pending[i..], h, engines, nextId, w.dispatched, w'.dispatched);
    assert pending[i..][1..] == pending[i + 1..] && keep + [h] + pending[i + 1..] == (keep + [h]) + pending[i + 1..];
    forall j | 0 <= j < i
      ensures Retried(pending[j], results[j], w'.chains)
    {
      RetriedStays(pending[j], results[j], w.chains, w'.chains);
    }
    DrainRunLength(pending, results, worlds, engines);
    DrainRunMore(pending, results, worlds, engines, h, w');
    WaitersMore(results, h);
  }

  lemma DrainRunLength(pending: seq<Hook>, results: seq<Hook>, worlds: seq<World>, engines: seq<Engine>)
    requires DrainRun(pending, results, worlds, engines)
    ensures |worlds| == |results| + 1
  {
  }

  lemma DrainingEnds(pending: seq<Hook>, keep: seq<Hook>, results: seq<Hook>, worlds: seq<World>, w: World, engines: seq<Engine>,
                     nextId: nat, was: set<nat>)
    requires Draining(pending, keep, results, worlds, w, engines, nextId, was) && |results| == |pending|
    ensures keep == Waiters(results) && Queue(keep, engines, nextId, w.dispatched)
    ensures forall j :: 0 <= j < |results| ==> Retried(pending[j], results[j], w.chains)
    ensures w.dispatched <= was + Ids(pending)
    ensures DrainRun(pending, results, worlds, engines) && |worlds| == |results| + 1 && worlds[|results|] == w
  {
    hide Queue, Retried, Waiters, Ids;
    assert keep + pending[|pending|..] == keep && pending[..|pending|] == pending;
  }

  function Waiters(results: seq<Hook>): seq<Hook> {
    if results == [] then []
    else Waiters(results[..|results| - 1]) + (if results[|results| - 1].outcome.Pending? then [results[|results| - 1]] else [])
  }

  lemma NoWaiters()
    ensures Waiters([]) == []
  {
  }

  lemma WaitersMore(results: seq<Hook>, h: Hook)
    ensures Waiters(results + [h]) == if h.outcome.Pending? then Waiters(results) + [h] else Waiters(results)
  {
    assert (results + [h])[..|results|] == results;
  }

  /** One retry goes the way a first attempt goes. */
  method Retry(runtime: Runtime, before: Hook) returns (h: Hook)
    requires runtime.Valid() && Queued(before, runtime.engines, runtime.nextId, runtime.dispatched)
    modifies runtime`generation, runtime`log, runtime`nextHandle, runtime`outstanding, runtime`freed, runtime`dispatched,
             runtime`ledger, runtime`chains
    ensures runtime.Valid() && runtime.outstanding == old(runtime.outstanding)
    ensures h.id == before.id && Retried(before, h, runtime.chains) && Grows(old(runtime.chains), runtime.chains)
    ensures h.outcome.Pending? ==>
              Queued(h, runtime.engines, runtime.nextId, runtime.dispatched) && runtime.dispatched == old(runtime.dispatched)
    ensures old(runtime.dispatched) <= runtime.dispatched <= old(runtime.dispatched) + {before.id}
    ensures RetryStep(before, h, runtime.engines, old(runtime.Now()), runtime.Now())
  {
    hide Runtime.LedgerValid, Runtime.LogValid, Runtime.StatesValid, CommitsTo, Violates, Extended, CommitHeard;
    ghost var w, engine := runtime.Now(), runtime.engines[before.engine.value];
    var a := runtime.AskPrepare(before);
    ghost var mid := runtime.Now();
    h := before.(prepareEffects := a.effects);
    var result := Settled(runtime.CapsOf(before), a);
    if result.NotApplicable? {
      assert RetryHeard(before, h, engine, w, mid, a);
      return;
    }
    if !result.PrepareOk? {
      h := h.(outcome := FailedSafe);
      assert RetryHeard(before, h, engine, w, mid, a);
    } else {
      var taken := h.(prepared := a.handle);
      ghost var caps, owner := runtime.CapsOf(taken), runtime.OwnerOf(taken.spec.key);
      ghost var asked, ledger, chains := runtime.dispatched, runtime.ledger, runtime.chains;
      var reply: CommitAnswer := *;
      var done, answer := CommitHook(runtime, taken, reply);
      CommitsFacts(taken, done, caps, owner, answer, asked, runtime.dispatched, ledger, runtime.ledger, chains, runtime.chains);
      ExtendedGrows(chains, done);
      h := done.(prepared := None);
      assert RetryCommitted(taken, h, engine, w, mid, runtime.Now(), PrepareAsked(before.id, a), done, answer);
      assert RetryHeard(before, h, engine, w, runtime.Now(), a);
    }
    if a.handle.Some? {
      runtime.Release(a.handle.value);
    }
  }

  /** The waiting hooks that the process takes over, when its queue will have them. */
  function Moving(hooks: seq<Hook>, adopted: seq<bool>): seq<Hook>
    requires |hooks| == |adopted|
  {
    if hooks == [] then []
    else
      var n := |hooks| - 1;
      Moving(hooks[..n], adopted[..n]) + if hooks[n].outcome.Pending? && adopted[n] then [hooks[n]] else []
  }

  /** Exactly the waiting hooks that are taken over, in their order. */
  lemma {:induction false} MovingExactly(hooks: seq<Hook>, adopted: seq<bool>) returns (idx: seq<nat>)
    requires |hooks| == |adopted|
    ensures forall i, j :: 0 <= i < j < |idx| ==> idx[i] < idx[j]
    ensures forall k :: k in idx <==> 0 <= k < |hooks| && hooks[k].outcome == Pending && adopted[k]
    ensures |Moving(hooks, adopted)| == |idx| && forall i :: 0 <= i < |idx| ==> idx[i] < |hooks| && Moving(hooks, adopted)[i] == hooks[idx[i]]
  {
    if hooks == [] {
      idx := [];
    } else {
      var n := |hooks| - 1;
      idx := MovingExactly(hooks[..n], adopted[..n]);
      forall i | 0 <= i < |idx|
        ensures idx[i] < n
      {
        assert idx[i] in idx;
      }
      if hooks[n].outcome == Pending && adopted[n] {
        idx := idx + [n];
      }
    }
  }

  lemma NoneMoving(hooks: seq<Hook>)
    ensures Moving(hooks[..0], []) == []
  {
  }

  lemma MovingMore(hooks: seq<Hook>, adopted: seq<bool>, taken: bool)
    requires |adopted| < |hooks|
    ensures var i := |adopted|;
            Moving(hooks[..i + 1], adopted + [taken]) ==
            Moving(hooks[..i], adopted) + if hooks[i].outcome.Pending? && taken then [hooks[i]] else []
  {
    var i := |adopted|;
    assert hooks[..i + 1][..i] == hooks[..i] && (adopted + [taken])[..i] == adopted;
  }

  lemma DrainedSame(hooks: seq<Hook>, pending: seq<Hook>, pending': seq<Hook>, results: seq<Hook>, chains: map<Key, seq<Link>>,
                    dispatched: set<nat>, dispatched': set<nat>)
    requires Strangers(hooks, pending) && Undispatched(hooks, dispatched) && |results| == |pending|
    requires forall i :: 0 <= i < |results| ==> Retried(pending[i], results[i], chains)
    requires pending' == Waiters(results) && dispatched' <= dispatched + Ids(pending)
    ensures Strangers(hooks, pending') && Undispatched(hooks, dispatched')
  {
    WaitersFrom(results);
    forall i, j | 0 <= i < |hooks| && 0 <= j < |pending'|
      ensures hooks[i].id != pending'[j].id
    {
      assert pending'[j] in Waiters(results) && pending'[j] in results;
      var k :| 0 <= k < |results| && results[k] == pending'[j];
      assert Retried(pending[k], results[k], chains);
    }
  }

  lemma {:induction false} WaitersFrom(results: seq<Hook>)
    ensures forall h :: h in Waiters(results) ==> h in results
  {
    if results == [] {
    } else {
      WaitersFrom(results[..|results| - 1]);
    }
  }
}
