/** The life of a plan: src/core/HKPlan.c. What a plan is made of, what every step keeps, and how
    hooks enter a plan and are routed. */
module PlanRules {
  import opened Options
  import opened Mutations
  import opened Routing
  import opened Hooks

  datatype PlanState = DraftPlan | AnalyzedPlan | PreparedPlan | CommittedPlan | PartialPlan | FailedPlan

  datatype Status = Ok | InvalidArgument | InvalidState | NotAvailable

  const CALLABLE_CONTINUATION: nat := 2

  const Failing: set<Outcome> := {FailedSafe, StalePlan}

  // ---- what plans keep ----

  /** The engine analysis chose, and the effects it declared then: none that the request forbids. */
  ghost predicate Matched(h: Hook, engines: seq<Engine>) {
    && h.engine.Some? && h.engine.value < |engines|
    && h.declaredPrepare == engines[h.engine.value].candidate.caps.prepareEffects
    && h.declaredCommit == engines[h.engine.value].candidate.caps.commitEffects
    && !Violates(h.declaredPrepare + h.declaredCommit, EffectiveConstraints(h.spec.request))
  }

  /** Observed effects of a prepared or active hook are declared ones. */
  predicate Declared(h: Hook) {
    && (h.outcome in {Outcome.Prepared, Active} ==> h.prepareEffects <= h.declaredPrepare)
    && (h.outcome.Active? ==> h.commitEffects <= h.declaredCommit)
  }

  ghost predicate WellPlaced(h: Hook, i: nat, domains: nat, engines: seq<Engine>, nextId: nat) {
    && h.id < nextId
    && (h.spec.domain.Some? ==> h.spec.domain.value < domains)
    && (forall d :: d in h.spec.after ==> d < i)
    && (h.engine.Some? ==> Matched(h, engines))
    && (h.outcome in {Outcome.Analyzed, Outcome.Prepared, Pending, Active} ==> h.engine.Some?)
    && (h.outcome.Pending? ==> h.prepared.None?)
    && Declared(h)
  }

  predicate Distinct(g: Hook, h: Hook) {
    g.id != h.id && g.spec.key != h.spec.key && g.spec.stableId != h.spec.stableId
  }

  ghost predicate Shape(hooks: seq<Hook>, domains: nat, engines: seq<Engine>, nextId: nat) {
    && (forall i :: 0 <= i < |hooks| ==> WellPlaced(hooks[i], i, domains, engines, nextId))
    && (forall i, j :: 0 <= i < j < |hooks| ==> Distinct(hooks[i], hooks[j]))
  }

  /** Active hooks rest on active ones. */
  ghost predicate Supported(hooks: seq<Hook>) {
    forall i, d :: 0 <= i < |hooks| && d in hooks[i].spec.after && d < |hooks| && hooks[i].outcome.Active? ==> hooks[d].outcome.Active?
  }

  /** Hooks that may still be committed have not been. */
  ghost predicate Undispatched(hooks: seq<Hook>, dispatched: set<nat>) {
    forall i :: 0 <= i < |hooks| && hooks[i].outcome in {Unanalyzed, Outcome.Analyzed, NoRoute, Outcome.Prepared, Pending} ==>
      hooks[i].id !in dispatched
  }

  predicate SameRequest(g: Hook, h: Hook) {
    && g.spec == h.spec && g.id == h.id && g.engine == h.engine && g.generation == h.generation
    && g.declaredPrepare == h.declaredPrepare && g.declaredCommit == h.declaredCommit
  }

  predicate Member(h: Hook, d: nat) { h.spec.domain == Some(d) }

  ghost predicate NonePrepared(hooks: seq<Hook>, d: nat) {
    forall i :: 0 <= i < |hooks| && Member(hooks[i], d) ==> !hooks[i].outcome.Prepared?
  }

  // ---- adding hooks ----

  predicate WellFormed(hooks: seq<Hook>, domains: nat, spec: Spec) {
    && (spec.request.kind.MemoryPatch? ==> spec.expectsBytes)
    && !(spec.request.original == CALLABLE_CONTINUATION && spec.continuationForbidden)
    && (forall i :: 0 <= i < |hooks| ==> hooks[i].spec.stableId != spec.stableId)
    && (spec.domain.Some? ==> spec.domain.value < domains)
    && (forall d :: d in spec.after ==> d < |hooks|)
  }

  predicate Addable(hooks: seq<Hook>, domains: nat, spec: Spec) {
    && WellFormed(hooks, domains, spec) && !spec.request.kind.SwiftVtable?
    && forall i :: 0 <= i < |hooks| ==> hooks[i].spec.key != spec.key
  }

  /** What may be added: a patch with the bytes it expects, no callable original where continuations are
      forbidden, no Swift vtable, a name and a target of its own, and only domains and hooks there are. */
  lemma AddableExactly(hooks: seq<Hook>, domains: nat, spec: Spec)
    ensures Addable(hooks, domains, spec) <==>
            && spec.request.kind != SwiftVtable
            && (spec.request.kind == MemoryPatch ==> spec.expectsBytes)
            && (spec.request.original == 2 ==> !spec.continuationForbidden)
            && (forall h :: h in hooks ==> h.spec.stableId != spec.stableId && h.spec.key != spec.key)
            && (spec.domain == None || spec.domain.value < domains)
            && (forall d :: d in spec.after ==> d < |hooks|)
  {
    assert forall i :: 0 <= i < |hooks| ==> hooks[i] in hooks;
  }

  lemma ShapeGrows(hooks: seq<Hook>, domains: nat, domains': nat, engines: seq<Engine>, nextId: nat, nextId': nat)
    requires Shape(hooks, domains, engines, nextId) && domains <= domains' && nextId <= nextId'
    ensures Shape(hooks, domains', engines, nextId')
  {
    hide Violates;
    forall i | 0 <= i < |hooks|
      ensures WellPlaced(hooks[i], i, domains', engines, nextId')
    {
      assert WellPlaced(hooks[i], i, domains, engines, nextId);
    }
  }

  lemma ShapeMore(hooks: seq<Hook>, h: Hook, domains: nat, engines: seq<Engine>, nextId: nat)
    requires Shape(hooks, domains, engines, nextId) && WellPlaced(h, |hooks|, domains, engines, nextId)
    requires forall i :: 0 <= i < |hooks| ==> Distinct(hooks[i], h)
    ensures Shape(hooks + [h], domains, engines, nextId)
  {
  }

  // ---- analyzing ----

  /** A hook as its analysis leaves it, with the engine that was chosen. */
  function AnalyzedAs(h: Hook, best: Option<nat>, engines: seq<Engine>, generation: nat): (out: Hook)
    requires best.Some? ==> best.value < |engines|
    ensures out.id == h.id && out.spec == h.spec && out.prepared == h.prepared
    ensures out.outcome == if best.Some? then Outcome.Analyzed else NoRoute
  {
    h.(outcome := if best.Some? then Outcome.Analyzed else NoRoute, engine := best, generation := generation,
       declaredPrepare := if best.Some? then engines[best.value].candidate.caps.prepareEffects else {},
       declaredCommit := if best.Some? then engines[best.value].candidate.caps.commitEffects else {})
  }

  /** The hook got the best engine among what the engines said when it was analyzed. */
  ghost predicate RoutedBy(before: Hook, h: Hook, engines: seq<Engine>, platform: Platform, call: Asked) {
    && call.CandidatesAsked? && Candidates(engines, call.candidates)
    && Chosen(call.candidates, before.spec.request, platform, h.engine)
    && h == AnalyzedAs(before, h.engine, engines, h.generation)
  }

  predicate RoutedHook(before: Hook, h: Hook) {
    && h.id == before.id && h.spec == before.spec && h.prepared == before.prepared
    && h.outcome in {Outcome.Analyzed, NoRoute} && (h.outcome.Analyzed? <==> h.engine.Some?)
  }

  /** The first `n` hooks have been routed, each by one call. */
  ghost predicate Routed(start: seq<Hook>, hooks: seq<Hook>, n: nat, engines: seq<Engine>, platform: Platform, calls: seq<Asked>) {
    && |start| == |hooks| && |calls| == n
    && forall j :: 0 <= j < |hooks| ==>
         if j < n then RoutedHook(start[j], hooks[j]) && RoutedBy(start[j], hooks[j], engines, platform, calls[j])
         else hooks[j] == start[j]
  }

  lemma RoutedNext(start: seq<Hook>, hooks: seq<Hook>, n: nat, engines: seq<Engine>, platform: Platform, calls: seq<Asked>,
                   h: Hook, call: Asked)
    requires Routed(start, hooks, n, engines, platform, calls) && n < |hooks|
    requires RoutedHook(hooks[n], h) && RoutedBy(hooks[n], h, engines, platform, call)
    ensures Routed(start, hooks[n := h], n + 1, engines, platform, calls + [call])
  {
    hide RoutedBy, RoutedHook;
  }

  lemma ChosenFits(candidates: seq<Candidate>, request: Request, platform: Platform, best: Option<nat>)
    requires Chosen(candidates, request, platform, best)
    ensures best.Some? ==> best.value < |candidates| && Eligible(candidates[best.value], request, platform)
  {
    hide Eligible, Better;
  }

  /** What the engines said and what was asked for leave no choice of route. */
  lemma RoutingIsDetermined(before: Hook, g: Hook, h: Hook, engines: seq<Engine>, platform: Platform, call: Asked)
    requires RoutedBy(before, g, engines, platform, call) && RoutedBy(before, h, engines, platform, call)
    requires g.generation == h.generation
    ensures g == h
  {
    hide Chosen;
    ChosenOnce(call.candidates, before.spec.request, platform, g.engine, h.engine);
  }

  lemma ShapeOne(hooks: seq<Hook>, i: nat, h: Hook, domains: nat, engines: seq<Engine>, nextId: nat)
    requires Shape(hooks, domains, engines, nextId) && i < |hooks| && WellPlaced(h, i, domains, engines, nextId)
    requires h.id == hooks[i].id && h.spec == hooks[i].spec
    ensures Shape(hooks[i := h], domains, engines, nextId)
  {
    hide Violates;
    var after := hooks[i := h];
    forall j, k | 0 <= j < k < |hooks|
      ensures Distinct(after[j], after[k])
    {
      assert Distinct(hooks[j], hooks[k]);
    }
  }

  lemma Placed(hooks: seq<Hook>, i: nat, domains: nat, engines: seq<Engine>, nextId: nat)
    requires Shape(hooks, domains, engines, nextId) && i < |hooks|
    ensures WellPlaced(hooks[i], i, domains, engines, nextId)
  {
  }

  /** An active hook observed, in both phases together, no effect its request forbids. */
  lemma ActiveHonorsConstraints(h: Hook, i: nat, domains: nat, engines: seq<Engine>, nextId: nat)
    requires WellPlaced(h, i, domains, engines, nextId) && h.outcome.Active?
    ensures !Violates(h.prepareEffects + h.commitEffects, EffectiveConstraints(h.spec.request))
  {
    if Violates(h.prepareEffects + h.commitEffects, EffectiveConstraints(h.spec.request)) {
      MoreEffects(h.prepareEffects + h.commitEffects, h.declaredPrepare + h.declaredCommit, EffectiveConstraints(h.spec.request));
    }
  }

  // ---- custody over a step ----

  lemma CustodySame(start: seq<Hook>, hooks: seq<Hook>, outstanding: set<Handle>, others: set<Handle>)
    requires Custody(start, outstanding, others) && |start| == |hooks|
    requires forall j :: 0 <= j < |hooks| ==> hooks[j].prepared == start[j].prepared
    ensures Custody(hooks, outstanding, others)
  {
    forall h | h in outstanding
      ensures h in others || HeldIn(hooks, h)
    {
      if h !in others {
        var i :| 0 <= i < |start| && start[i].prepared == Some(h);
        assert hooks[i].prepared == Some(h);
      }
    }
  }

  lemma NothingHeld(hooks: seq<Hook>, outstanding: set<Handle>, others: set<Handle>)
    requires Custody(hooks, outstanding, others) && forall i :: 0 <= i < |hooks| ==> hooks[i].prepared.None?
    ensures outstanding == others
  {
    forall h | h in outstanding
      ensures h in others
    {
      assert !HeldIn(hooks, h);
    }
  }
}
