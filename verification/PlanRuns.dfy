/** Whole runs: what every sequence of calls on a plan keeps. */
module PlanRuns {
  import opened Options
  import opened Mutations
  import opened Routing
  import opened CommitOrder
  import opened Hooks
  import opened PlanRules
  import opened PrepareRules
  import opened PrepareGroups
  import opened CommitRules
  import opened CommitGroups
  import opened DeferredQueue
  import opened Plans
  import opened CommitAccounts
  import PrepareAccounts
  import CommitDomains

  /** A plan some of whose hooks failed may be committed again: nobody is asked, nothing changes,
      and the plan counts as committed. */
  method CommitAgain(plan: Plan, ghost others: set<Handle>)
    requires plan.Valid() && Custody(plan.hooks, plan.runtime.outstanding, others)
    requires plan.state.PartialPlan? && forall i :: 0 <= i < |plan.hooks| ==> !plan.hooks[i].outcome.Prepared?
    modifies plan, plan.runtime
    ensures plan.state.CommittedPlan? && plan.hooks == old(plan.hooks)
    ensures plan.runtime.dispatched <= old(plan.runtime.dispatched)
  {
    ghost var was := plan.hooks;
    hide Violates, Custody, Shape, Supported, Undispatched, Runtime.LedgerValid, Runtime.LogValid, Runtime.StatesValid, Linked,
      EnteredRightly;
    var status, checks, order, scenes, at := plan.Commit(others);
    forall j | 0 <= j < |was|
      ensures plan.hooks[j] == was[j]
    {
      assert Committing(was[j], plan.hooks[j]);
    }
  }

  /** Committing, with the calls it made: each hook that was prepared is accounted for by the one
      call made for it, or was refused without one. */
  method CommitAccounted(plan: Plan, ghost others: set<Handle>) returns (status: Status, ghost calls: seq<Asked>)
    requires plan.Valid() && Custody(plan.hooks, plan.runtime.outstanding, others)
    modifies plan, plan.runtime
    ensures plan.Valid() && Custody(plan.hooks, plan.runtime.outstanding, others)
    ensures status == if old(plan.state) in {PreparedPlan, PartialPlan} then Ok else InvalidState
    ensures status.Ok? ==>
              && plan.runtime.log == old(plan.runtime.log) + calls
              && AllAccounted(old(plan.hooks), plan.hooks, calls, plan.runtime.engines)
  {
    hide Violates, Custody, Supported, Undispatched, Runtime.LedgerValid, Runtime.LogValid, Runtime.StatesValid, Linked,
      EnteredRightly, CommitUnderway, CommitRun, AllAccounted, Greedy, Topological, Injective, WellPlaced;
    ghost var was, domains := plan.hooks, plan.domains;
    ghost var checks, order, scenes, at;
    status, checks, order, scenes, at := plan.Commit(others);
    calls := [];
    if status.Ok? {
      OrderOfPrepared(was, domains, order);
      ghost var last := Last(order, scenes, at, plan.runtime.engines);
      calls := EveryOutcomeHasItsCall(order, scenes, at, plan.runtime.engines, last);
    }
  }

  /** Preparing, told from the hooks before and after and the calls in between: a domain that asks for
      all of its mandatory members is prepared together or not at all, and nothing else holds a hook
      back but that its turn came after the image catalog had changed. */
  method PrepareAccounted(plan: Plan, ghost others: set<Handle>) returns (status: Status, ghost stands: seq<Stand>, ghost at: seq<nat>)
    requires plan.Valid() && Custody(plan.hooks, plan.runtime.outstanding, others + plan.runtime.stranded)
    modifies plan, plan.runtime
    ensures plan.Valid() && Custody(plan.hooks, plan.runtime.outstanding, others + plan.runtime.stranded)
    ensures status == if old(plan.state).AnalyzedPlan? then Ok else InvalidState
    ensures status.Ok? ==> |plan.hooks| == |old(plan.hooks)|
    ensures status.Ok? ==>
              forall d :: 0 <= d < |plan.domains| && plan.domains[d].allMandatoryPrepared ==>
                DomainOutcome(old(plan.hooks), plan.hooks, plan.runtime.log, |old(plan.runtime.log)|, stands, at, d)
    ensures status.Ok? ==>
              forall j :: 0 <= j < |plan.hooks| && old(plan.hooks)[j].outcome.Analyzed? &&
                          PrepareAccounts.Loose(old(plan.hooks)[j], plan.domains) ==>
                if plan.hooks[j].outcome.StalePlan? then PrepareAccounts.ReachedStale(stands, at, j)
                else PrepareAccounts.AskedFor(plan.runtime.log, |old(plan.runtime.log)|, old(plan.hooks)[j].id)
  {
    hide Violates, Custody, Supported, Undispatched, Runtime.LedgerValid, Runtime.LogValid, Runtime.StatesValid, WellPlaced,
      PrepareRun, Underway, AllOrNothing, SomeAttempted, PrepareAccounts.AskedFor, PrepareAccounts.ReachedStale;
    ghost var was, from, domains, nextId := plan.hooks, |plan.runtime.log|, plan.domains, plan.runtime.nextId;
    status, stands, at := plan.Prepare(others);
    if status.Ok? {
      FreshHooks(was, |domains|, plan.runtime.engines, nextId);
      PrepareAccounts.RunShape(domains, OpenGates(was, domains), stands, at, plan.runtime.engines);
      PreparedTogether(was, plan.hooks, domains, stands, at, plan.runtime.engines, plan.runtime.log, from);
    }
  }

  lemma FreshHooks(hooks: seq<Hook>, domains: nat, engines: seq<Engine>, nextId: nat)
    requires Shape(hooks, domains, engines, nextId)
    requires forall i :: 0 <= i < |hooks| ==> hooks[i].outcome in {Outcome.Analyzed, NoRoute}
    ensures PrepareAccounts.Fresh(hooks)
  {
    OwnIds(hooks, domains, engines, nextId);
  }

  lemma OwnIds(hooks: seq<Hook>, domains: nat, engines: seq<Engine>, nextId: nat)
    requires Shape(hooks, domains, engines, nextId)
    ensures DistinctIds(hooks)
  {
    forall i, j | 0 <= i < j < |hooks|
      ensures hooks[i].id != hooks[j].id
    {
      assert Distinct(hooks[i], hooks[j]);
    }
  }

  lemma RunShape(order: seq<nat>, scenes: seq<Scene>, at: seq<nat>, engines: seq<Engine>)
    requires CommitRun(order, scenes, at, engines)
    ensures |at| == |scenes| > 0 && at[0] == 0
  {
  }

  /** If a mandatory member had no route, or ends refused or stale, no member ends prepared; if one had
      no route, no engine is asked for any of them; and if neither is so, each routed member was reached
      stale or its engine was asked. */
  ghost predicate DomainOutcome(before: seq<Hook>, after: seq<Hook>, log: seq<Asked>, from: nat, stands: seq<Stand>, at: seq<nat>,
                                d: nat)
  {
    var routeless := PrepareAccounts.MandatoryIn(before, d, {NoRoute});
    var lost := PrepareAccounts.MandatoryIn(after, d, {FailedSafe, StalePlan});
    |before| == |after| && forall j :: 0 <= j < |before| && before[j].spec.domain == Some(d) ==>
      && (routeless || lost ==> !after[j].outcome.Prepared?)
      && (routeless ==> !PrepareAccounts.AskedFor(log, from, before[j].id))
      && (!routeless && !lost && before[j].outcome.Analyzed? ==>
           if after[j].outcome.StalePlan? then PrepareAccounts.ReachedStale(stands, at, j)
           else PrepareAccounts.AskedFor(log, from, before[j].id))
  }

  lemma PreparedTogether(before: seq<Hook>, after: seq<Hook>, domains: seq<Domain>, stands: seq<Stand>, at: seq<nat>,
                         engines: seq<Engine>, log: seq<Asked>, from: nat)
    requires PrepareRun(domains, OpenGates(before, domains), stands, at, engines) && PrepareAccounts.Fresh(before)
    requires stands[0].hooks == before && |stands[0].tripped| == |domains| && |stands[0].log| == from
    requires |stands| == |at| > 0 && at[|at| - 1] == |after| && stands[|at| - 1].hooks == after && stands[|at| - 1].log == log
    ensures |before| == |after|
    ensures forall d :: 0 <= d < |domains| && domains[d].allMandatoryPrepared ==>
              DomainOutcome(before, after, log, from, stands, at, d)
    ensures forall j :: 0 <= j < |before| && before[j].outcome.Analyzed? && PrepareAccounts.Loose(before[j], domains) ==>
              if after[j].outcome.StalePlan? then PrepareAccounts.ReachedStale(stands, at, j)
              else PrepareAccounts.AskedFor(log, from, before[j].id)
  {
    hide PrepareRun, PrepareAccounts.AskedFor, PrepareAccounts.ReachedStale, PrepareAccounts.MandatoryIn;
    PrepareAccounts.LooseRun(before, stands, at, |at| - 1, domains, OpenGates(before, domains), engines);
    hide OpenGates;
    forall d | 0 <= d < |domains| && domains[d].allMandatoryPrepared
      ensures DomainOutcome(before, after, log, from, stands, at, d)
    {
      PrepareAccounts.DomainTogether(before, domains, stands, at, engines, d);
    }
    forall j | 0 <= j < |before| && before[j].outcome.Analyzed? && PrepareAccounts.Loose(before[j], domains)
      ensures if after[j].outcome.StalePlan? then PrepareAccounts.ReachedStale(stands, at, j)
              else PrepareAccounts.AskedFor(log, from, before[j].id)
    {
      PrepareAccounts.LooseAsked(before, domains, stands, at, engines, j);
    }
  }

  /** Committing, told from the hooks when it began and from the moment each domain was entered: every
      prepared hook has its turn, alone or in a group, unless its domain was not complete then; no hook
      of such a domain is asked for. */
  method CommitDomainwise(plan: Plan, ghost others: set<Handle>)
    returns (status: Status, ghost order: seq<nat>, ghost scenes: seq<Scene>, ghost at: seq<nat>)
    requires plan.Valid() && Custody(plan.hooks, plan.runtime.outstanding, others)
    modifies plan, plan.runtime
    ensures plan.Valid() && Custody(plan.hooks, plan.runtime.outstanding, others)
    ensures status == if old(plan.state) in {PreparedPlan, PartialPlan} then Ok else InvalidState
    ensures status.Ok? ==>
              && CommitDomains.Runs(order, scenes, at, plan.runtime.engines)
              && scenes[0].hooks == old(plan.hooks) && scenes[0].world.dispatched == old(plan.runtime.dispatched)
              && scenes[|at| - 1].hooks == plan.hooks && scenes[|at| - 1].world.dispatched == plan.runtime.dispatched
    ensures status.Ok? ==>
              && |plan.hooks| == |old(plan.hooks)|
              && forall j :: 0 <= j < |plan.hooks| && old(plan.hooks)[j].outcome.Prepared? ==>
                   TurnOrRefusal(plan.runtime.engines, order, scenes, at, j)
    ensures status.Ok? ==>
              forall j: nat :: DispatchedMember(plan.hooks, j, old(plan.runtime.dispatched), plan.runtime.dispatched) ==>
                MandatoryPrepared(old(plan.hooks), plan.hooks[j].spec.domain.value)
  {
    hide Violates, Custody, Supported, Undispatched, Runtime.LedgerValid, Runtime.LogValid, Runtime.StatesValid, Linked,
      EnteredRightly, CommitUnderway, CommitRun, Greedy, Topological, Injective, WellPlaced, Orders, TurnOrRefusal;
    ghost var was, domains, dispatched := plan.hooks, plan.domains, plan.runtime.dispatched;
    WaitingUndispatched(was, dispatched);
    OwnIds(was, |domains|, plan.runtime.engines, plan.runtime.nextId);
    ghost var checks;
    status, checks, order, scenes, at := plan.Commit(others);
    if status.Ok? {
      OrderOfPrepared(was, domains, order);
      RunShape(order, scenes, at, plan.runtime.engines);
      EveryTurn(order, scenes, at, plan.runtime.engines);
    }
  }

  lemma WaitingUndispatched(hooks: seq<Hook>, dispatched: set<nat>)
    requires Undispatched(hooks, dispatched)
    ensures forall i :: 0 <= i < |hooks| && hooks[i].outcome.Prepared? ==> hooks[i].id !in dispatched
  {
  }

  /** The hook at `j` belongs to a domain and was dispatched meanwhile. */
  predicate DispatchedMember(hooks: seq<Hook>, j: nat, was: set<nat>, now: set<nat>) {
    j < |hooks| && hooks[j].spec.domain.Some? && hooks[j].id in now && hooks[j].id !in was
  }

  predicate MandatoryPrepared(hooks: seq<Hook>, d: nat) {
    forall i :: 0 <= i < |hooks| && hooks[i].spec.domain == Some(d) && hooks[i].spec.mandatory ==> hooks[i].outcome.Prepared?
  }

  /** What committing makes of a prepared hook. */
  ghost predicate TurnOrRefusal(engines: seq<Engine>, order: seq<nat>, scenes: seq<Scene>, at: seq<nat>, j: nat) {
    && |at| == |scenes| > 0 && j < |scenes[0].hooks| == |scenes[|at| - 1].hooks|
    && var h := scenes[0].hooks[j];
       if h.spec.domain == None then
         CommitDomains.HadTurn(order, scenes, at, engines, j) || CommitDomains.HadGroup(order, scenes, at, engines, j)
       else exists w: nat :: EnteredAt(engines, order, scenes, at, j, w)
  }

  /** The domain of the hook at `j` was entered in wave `w`, its members being as when the commit began. */
  ghost predicate EnteredAt(engines: seq<Engine>, order: seq<nat>, scenes: seq<Scene>, at: seq<nat>, j: nat, w: nat) {
    && w + 1 < |at| == |scenes| && j < |scenes[0].hooks| == |scenes[w].hooks| == |scenes[|at| - 1].hooks|
    && var domain := scenes[0].hooks[j].spec.domain;
       && domain.Some?
       && (forall i :: 0 <= i < |scenes[0].hooks| && scenes[0].hooks[i].spec.domain == domain ==>
             scenes[w].hooks[i] == scenes[0].hooks[i])
       && if CommitDomains.Complete(scenes[w], domain.value) then CommitDomains.HadTurn(order, scenes, at, engines, j)
          else CommitDomains.Unasked(scenes[0].hooks[j], scenes[|at| - 1].hooks[j], scenes[0].world.dispatched,
                                     scenes[|at| - 1].world.dispatched, scenes[w].world.generation)
  }

  lemma EveryTurn(order: seq<nat>, scenes: seq<Scene>, at: seq<nat>, engines: seq<Engine>)
    requires CommitDomains.Runs(order, scenes, at, engines)
    ensures |scenes[0].hooks| == |scenes[|at| - 1].hooks|
    ensures forall j :: 0 <= j < |scenes[0].hooks| && scenes[0].hooks[j].outcome.Prepared? ==>
              TurnOrRefusal(engines, order, scenes, at, j)
    ensures var s, t := scenes[0], scenes[|at| - 1];
            forall j: nat :: DispatchedMember(t.hooks, j, s.world.dispatched, t.world.dispatched) ==>
              MandatoryPrepared(s.hooks, t.hooks[j].spec.domain.value)
  {
    hide CommitRun, CommitDomains.HadTurn, CommitDomains.HadGroup, CommitDomains.Complete, CommitDomains.Unasked, Orders, Injective;
    var last := |at| - 1;
    CommitDomains.SameRequests(order, scenes, at, engines, last);
    forall j | 0 <= j < |scenes[0].hooks| && scenes[0].hooks[j].outcome.Prepared?
      ensures TurnOrRefusal(engines, order, scenes, at, j)
    {
      if scenes[0].hooks[j].spec.domain == None {
        CommitDomains.LooseExactly(order, scenes, at, engines, j);
      } else {
        var w := CommitDomains.DomainExactly(order, scenes, at, engines, scenes[0].hooks[j].spec.domain.value, j);
        assert EnteredAt(engines, order, scenes, at, j, w);
      }
    }
    forall j: nat | DispatchedMember(scenes[last].hooks, j, scenes[0].world.dispatched, scenes[last].world.dispatched)
      ensures MandatoryPrepared(scenes[0].hooks, scenes[last].hooks[j].spec.domain.value)
    {
      var w := CommitDomains.DispatchedTogether(order, scenes, at, engines, scenes[last].hooks[j].spec.domain.value, j);
    }
  }

  lemma Last(order: seq<nat>, scenes: seq<Scene>, at: seq<nat>, engines: seq<Engine>) returns (last: nat)
    requires CommitRun(order, scenes, at, engines)
    ensures |at| == |scenes| == last + 1
  {
    last := |at| - 1;
  }

  // ---- whole runs ----

  datatype Call = CallDefine(domain: Domain) | CallAdd(spec: Spec) | CallAnalyze | CallPrepare | CallCommit | CallDrain

  /** What every sequence of calls keeps, whatever the engines answer: the plan and the queue stay
      well-formed, no hook is dispatched twice, and no prepared state is released twice. When the
      plan is released, every state that was not somebody else's has been released exactly if no
      refused group came with one; those are the only ones left. */
  method Run(plan: Plan, calls: seq<Call>, ghost others: set<Handle>)
    requires plan.Valid() && Custody(plan.hooks, plan.runtime.outstanding, others + plan.runtime.stranded)
    requires Together(plan.hooks, plan.runtime.pending, plan.runtime.engines, plan.runtime.nextId, plan.runtime.dispatched)
    modifies plan, plan.runtime
    ensures plan.Valid() && plan.hooks == []
    ensures plan.runtime.outstanding == others + StrandedBy(plan.runtime.log)
    ensures (forall h :: h in HandedOver(plan.runtime.log) && h !in others ==> h in plan.runtime.freed) <==>
            (forall k :: 0 <= k < |plan.runtime.log| && RefusedGroup(plan.runtime.log[k]) ==> Claimed(plan.runtime.log[k]) <= others)
    ensures NoRepeats(plan.runtime.freed) && forall h :: h in plan.runtime.freed ==> h !in plan.runtime.outstanding
    ensures Queue(plan.runtime.pending, plan.runtime.engines, plan.runtime.nextId, plan.runtime.dispatched)
    ensures NoRepeats(Dispatches(plan.runtime.log))
  {
    hide Plan.Valid, Custody, Together;
    var runtime := plan.runtime;
    for i := 0 to |calls|
      invariant plan.Valid() && Custody(plan.hooks, runtime.outstanding, others + runtime.stranded)
      invariant Together(plan.hooks, runtime.pending, runtime.engines, runtime.nextId, runtime.dispatched)
    {
      RunOne(plan, calls[i], others);
    }
    Finish(plan, others);
  }

  method Finish(plan: Plan, ghost others: set<Handle>)
    requires plan.Valid() && Custody(plan.hooks, plan.runtime.outstanding, others + plan.runtime.stranded)
    requires Together(plan.hooks, plan.runtime.pending, plan.runtime.engines, plan.runtime.nextId, plan.runtime.dispatched)
    modifies plan, plan.runtime
    ensures plan.Valid() && plan.hooks == []
    ensures plan.runtime.outstanding == others + StrandedBy(plan.runtime.log)
    ensures (forall h :: h in HandedOver(plan.runtime.log) && h !in others ==> h in plan.runtime.freed) <==>
            (forall k :: 0 <= k < |plan.runtime.log| && RefusedGroup(plan.runtime.log[k]) ==> Claimed(plan.runtime.log[k]) <= others)
    ensures NoRepeats(plan.runtime.freed) && forall h :: h in plan.runtime.freed ==> h !in plan.runtime.outstanding
    ensures Queue(plan.runtime.pending, plan.runtime.engines, plan.runtime.nextId, plan.runtime.dispatched)
    ensures NoRepeats(Dispatches(plan.runtime.log))
  {
    hide Custody, Queue, NoRepeats, Runtime.LedgerValid, Shape, Supported, Undispatched, StrandedBy, HandedOver;
    ghost var adopted := plan.Release(others);
    StrandedExactly(plan.runtime.log, others);
  }

  ghost predicate Together(hooks: seq<Hook>, pending: seq<Hook>, engines: seq<Engine>, nextId: nat, dispatched: set<nat>) {
    Queue(pending, engines, nextId, dispatched) && Strangers(hooks, pending)
  }

  method RunOne(plan: Plan, call: Call, ghost others: set<Handle>)
    requires plan.Valid() && Custody(plan.hooks, plan.runtime.outstanding, others + plan.runtime.stranded)
    requires Together(plan.hooks, plan.runtime.pending, plan.runtime.engines, plan.runtime.nextId, plan.runtime.dispatched)
    modifies plan, plan.runtime
    ensures plan.Valid() && Custody(plan.hooks, plan.runtime.outstanding, others + plan.runtime.stranded)
    ensures Together(plan.hooks, plan.runtime.pending, plan.runtime.engines, plan.runtime.nextId, plan.runtime.dispatched)
  {
    hide Violates, Custody, Shape, Supported, Undispatched, Runtime.LedgerValid, Runtime.LogValid, Runtime.StatesValid,
      AllOrNothing, Underway, Linked, EnteredRightly, Queue, CommitUnderway, Routed, Retried, PreparedIds, Ids;
    ghost var was, asked, queue := plan.hooks, plan.runtime.dispatched, plan.runtime.pending;
    ghost var ids := plan.runtime.nextId;
    match call
    case CallDefine(domain) =>
      var status := plan.DefineDomain(domain);
    case CallAdd(spec) =>
      var status := plan.AddHook(spec);
      AddedOne(was, plan.hooks, plan.runtime.outstanding, others + plan.runtime.stranded, queue, plan.runtime.engines, ids,
               plan.runtime.nextId, asked);
    case CallAnalyze =>
      var status, calls := plan.Analyze();
      AnalyzedSame(was, plan.hooks, plan.runtime.outstanding, others + plan.runtime.stranded, queue);
    case CallPrepare =>
      var status, stands, at := plan.Prepare(others);
      PreparedSame(was, plan.hooks, queue);
    case CallCommit =>
      var status, checks, order, scenes, at := plan.Commit(others + plan.runtime.stranded);
      CommittedSame(was, plan.hooks, queue, plan.runtime.engines, plan.runtime.nextId, asked, plan.runtime.dispatched);
    case CallDrain =>
      var results, worlds := Drain(plan.runtime);
      DrainedSame(was, queue, plan.runtime.pending, results, plan.runtime.chains, asked, plan.runtime.dispatched);
  }

  lemma AddedOne(was: seq<Hook>, hooks: seq<Hook>, outstanding: set<Handle>, others: set<Handle>, pending: seq<Hook>,
                 engines: seq<Engine>, ids: nat, ids': nat, dispatched: set<nat>)
    requires Custody(was, outstanding, others) && Together(was, pending, engines, ids, dispatched) && ids <= ids'
    requires hooks == was || exists h :: hooks == was + [h] && h.prepared.None? && h.id == ids
    ensures Custody(hooks, outstanding, others) && Together(hooks, pending, engines, ids', dispatched)
  {
    hide Violates;
    forall j | 0 <= j < |pending|
      ensures Queued(pending[j], engines, ids', dispatched) && pending[j].id < ids
    {
      assert Queued(pending[j], engines, ids, dispatched);
    }
    forall h | h in outstanding
      ensures h in others || HeldIn(hooks, h)
    {
      if h !in others {
        var i :| 0 <= i < |was| && was[i].prepared == Some(h);
        assert hooks[i].prepared == Some(h);
      }
    }
  }

  lemma AnalyzedSame(was: seq<Hook>, hooks: seq<Hook>, outstanding: set<Handle>, others: set<Handle>, pending: seq<Hook>)
    requires Custody(was, outstanding, others) && Strangers(was, pending)
    requires hooks == was ||
             exists engines, platform, calls :: Routed(was, hooks, |hooks|, engines, platform, calls)
    ensures Custody(hooks, outstanding, others) && Strangers(hooks, pending)
  {
    forall j | 0 <= j < |hooks|
      ensures hooks[j].id == was[j].id && hooks[j].prepared == was[j].prepared
    {
      assert hooks == was || RoutedHook(was[j], hooks[j]);
    }
    CustodySame(was, hooks, outstanding, others);
  }

  lemma PreparedSame(was: seq<Hook>, hooks: seq<Hook>, pending: seq<Hook>)
    requires Strangers(was, pending) && (hooks == was || Underway(was, hooks, |hooks|))
    ensures Strangers(hooks, pending)
  {
    forall j | 0 <= j < |hooks|
      ensures hooks[j].id == was[j].id
    {
      assert hooks == was || Progressed(was[j], hooks[j], j < |hooks|);
    }
  }

  lemma CommittedSame(was: seq<Hook>, hooks: seq<Hook>, pending: seq<Hook>, engines: seq<Engine>, nextId: nat,
                      dispatched: set<nat>, dispatched': set<nat>)
    requires Together(was, pending, engines, nextId, dispatched)
    requires (hooks == was && dispatched' == dispatched) || (CommitUnderway(was, hooks) && dispatched' <= dispatched + PreparedIds(was))
    ensures Together(hooks, pending, engines, nextId, dispatched')
  {
    hide Violates;
    forall j | 0 <= j < |hooks|
      ensures hooks[j].id == was[j].id
    {
      assert hooks == was || Committing(was[j], hooks[j]);
    }
    forall j | 0 <= j < |pending|
      ensures Queued(pending[j], engines, nextId, dispatched')
    {
      assert Queued(pending[j], engines, nextId, dispatched);
    }
  }
}
