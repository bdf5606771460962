/** A plan and its operations: analyzed, prepared and committed once each way. */
module Plans {
  import opened Options
  import opened Mutations
  import opened Routing
  import opened CommitOrder
  import opened Hooks
  import opened PlanRules
  import opened PrepareRules
  import opened PrepareGroups
  import opened CommitRules
  import opened CommitGroups
  import opened DeferredQueue

  class Plan {
    const runtime: Runtime
    var state: PlanState
    var domains: seq<Domain>
    var hooks: seq<Hook>

    ghost predicate Valid()
      reads this, runtime
    {
      && runtime.Valid()
      && Shape(hooks, |domains|, runtime.engines, runtime.nextId)
      && Supported(hooks) && Undispatched(hooks, runtime.dispatched)
      && (state.DraftPlan? ==> forall i :: 0 <= i < |hooks| ==> hooks[i].outcome.Unanalyzed? && hooks[i].prepared.None?)
      && (state.AnalyzedPlan? ==> forall i :: 0 <= i < |hooks| ==>
            hooks[i].outcome in {Outcome.Analyzed, NoRoute} && hooks[i].prepared.None?)
      && (!state.DraftPlan? && !state.AnalyzedPlan? ==> forall i :: 0 <= i < |hooks| ==>
            hooks[i].outcome !in {Unanalyzed, Outcome.Analyzed})
    }

    constructor (runtime: Runtime)
      requires runtime.Valid()
      ensures Valid() && this.runtime == runtime && state.DraftPlan? && hooks == [] && domains == []
    {
      this.runtime, state, domains, hooks := runtime, DraftPlan, [], [];
    }

    // ---- describing a plan ----

    method DefineDomain(spec: Domain) returns (status: Status)
      requires Valid()
      modifies this`domains
      ensures Valid()
      ensures status.Ok? <==> old(state).DraftPlan? && forall d :: d in old(domains) ==> d.id != spec.id
      ensures domains == if status.Ok? then old(domains) + [spec] else old(domains)
    {
      if !state.DraftPlan? {
        return InvalidState;
      }
      if exists i :: 0 <= i < |domains| && domains[i].id == spec.id {
        return InvalidArgument;
      }
      ShapeGrows(hooks, |domains|, |domains| + 1, runtime.engines, runtime.nextId, runtime.nextId);
      domains := domains + [spec];
      status := Ok;
    }

    /** Dependencies can only name hooks already added, so they never form a cycle; two hooks of a
        plan never have the same target. */
    method AddHook(spec: Spec) returns (status: Status)
      requires Valid()
      modifies this`hooks, runtime`nextId
      ensures Valid()
      ensures status.Ok? <==> old(state).DraftPlan? && Addable(old(hooks), |domains|, spec)
      ensures status.Ok? ==>
                exists h :: hooks == old(hooks) + [h] && h.spec == spec && h.outcome.Unanalyzed? && h.prepared.None? &&
                            h.id == old(runtime.nextId)
      ensures !status.Ok? ==> hooks == old(hooks)
      ensures old(runtime.nextId) <= runtime.nextId
    {
      hide Violates;
      if !state.DraftPlan? {
        return InvalidState;
      }
      if !WellFormed(hooks, |domains|, spec) {
        return InvalidArgument;
      }
      if spec.request.kind.SwiftVtable? {
        return NotAvailable;
      }
      if exists i :: 0 <= i < |hooks| && hooks[i].spec.key == spec.key {
        return InvalidArgument;
      }
      var id := runtime.NewId();
      var h := Hook(id, spec, None, Unanalyzed, Unmutated, 0, None, false, 0, {}, {}, {}, {});
      ShapeGrows(hooks, |domains|, |domains|, runtime.engines, old(runtime.nextId), runtime.nextId);
      ShapeMore(hooks, h, |domains|, runtime.engines, runtime.nextId);
      hooks := hooks + [h];
      status := Ok;
    }

    // ---- analyzing ----

    /** Routes every hook. A route is always to an engine whose declared effects, in both phases,
        the request permits. */
    method Analyze() returns (status: Status, ghost calls: seq<Asked>)
      requires Valid()
      modifies this`hooks, this`state, runtime`generation, runtime`log
      ensures Valid()
      ensures status == if old(state).DraftPlan? then Ok else InvalidState
      ensures runtime.log == old(runtime.log) + calls
      ensures if status.Ok? then
                state.AnalyzedPlan? && Routed(old(hooks), hooks, |hooks|, runtime.engines, runtime.platform, calls)
              else state == old(state) && hooks == old(hooks) && calls == []
    {
      hide Violates, RoutedBy, Runtime.LedgerValid, Runtime.LogValid, Runtime.StatesValid;
      calls := [];
      if !state.DraftPlan? {
        return InvalidState, calls;
      }
      ghost var start := hooks;
      for i := 0 to |hooks|
        invariant runtime.Valid() && Routed(start, hooks, i, runtime.engines, runtime.platform, calls)
        invariant Shape(hooks, |domains|, runtime.engines, runtime.nextId)
        invariant runtime.log == old(runtime.log) + calls
      {
        ghost var before := hooks;
        ghost var call := AnalyzeOne(i);
        RoutedNext(start, before, i, runtime.engines, runtime.platform, calls, hooks[i], call);
        calls := calls + [call];
      }
      state := AnalyzedPlan;
      status := Ok;
    }

    method AnalyzeOne(i: nat) returns (ghost call: Asked)
      requires runtime.Valid() && Shape(hooks, |domains|, runtime.engines, runtime.nextId)
      requires i < |hooks| && hooks[i].outcome.Unanalyzed? && hooks[i].prepared.None?
      modifies this`hooks, runtime`generation, runtime`log
      ensures runtime.Valid() && Shape(hooks, |domains|, runtime.engines, runtime.nextId)
      ensures |hooks| == |old(hooks)| && hooks == old(hooks)[i := hooks[i]]
      ensures RoutedHook(old(hooks)[i], hooks[i]) && runtime.log == old(runtime.log) + [call]
      ensures RoutedBy(old(hooks)[i], hooks[i], runtime.engines, runtime.platform, call)
      ensures hooks[i].generation == if hooks[i].engine.Some? then runtime.generation else old(runtime.generation)
    {
      hide Violates, Eligible, Better, Shape, EffectiveConstraints, Runtime.LedgerValid, Runtime.LogValid, Runtime.StatesValid,
        Chosen;
      var h := hooks[i];
      Placed(hooks, i, |domains|, runtime.engines, runtime.nextId);
      var before := runtime.generation;
      var candidates := runtime.AskCandidates();
      call := CandidatesAsked(candidates);
      var best := Route(candidates, h.spec.request, runtime.platform);
      ChosenFits(candidates, h.spec.request, runtime.platform, best);
      if best.Some? {
        var caps := candidates[best.value].caps;
        h := h.(outcome := Outcome.Analyzed, engine := best, generation := runtime.generation,
                declaredPrepare := caps.prepareEffects, declaredCommit := caps.commitEffects);
        RouteHonorsConstraints(candidates[best.value], h.spec.request, runtime.platform, caps.prepareEffects + caps.commitEffects);
      } else {
        h := h.(outcome := NoRoute, engine := None, generation := before, declaredPrepare := {}, declaredCommit := {});
      }
      ShapeOne(hooks, i, h, |domains|, runtime.engines, runtime.nextId);
      hooks := hooks[i := h];
    }

    // ---- prepared states ----

    method ReleasePrepared(i: nat, ghost others: set<Handle>)
      requires runtime.stranded <= others
      requires runtime.Valid() && i < |hooks| && Custody(hooks, runtime.outstanding, others)
      modifies this`hooks, runtime`outstanding, runtime`freed
      ensures hooks == old(hooks)[i := old(hooks)[i].(prepared := None)]
      ensures Custody(hooks, runtime.outstanding, others)
      ensures runtime.Valid()
    {
      if hooks[i].prepared.Some? {
        Relinquish(hooks, runtime.outstanding, others, i, hooks[i].(prepared := None));
        runtime.Release(hooks[i].prepared.value);
        hooks := hooks[i := hooks[i].(prepared := None)];
      }
    }

    /** Carries one engine answer into the hook. A state that came with it is kept if the hook
        ends prepared, and released otherwise. */
    method Conclude(i: nat, a: PrepareAnswer, ghost others: set<Handle>)
      requires runtime.stranded <= others
      requires runtime.Valid() && i < |hooks| && hooks[i].engine.Some? && hooks[i].engine.value < |runtime.engines|
      requires hooks[i].prepared == a.handle && Custody(hooks, runtime.outstanding, others)
      modifies this`hooks, runtime`outstanding, runtime`freed
      ensures hooks == old(hooks)[i := Attempted(old(hooks)[i], runtime.CapsOf(old(hooks)[i]), a)]
      ensures Custody(hooks, runtime.outstanding, others)
      ensures runtime.Valid()
    {
      hide Custody;
      var caps := runtime.CapsOf(hooks[i]);
      var result := a.result;
      if result.PrepareOk? && !a.inspected {
        ReleasePrepared(i, others);
        result := PrepareFailed;
      }
      if !(a.effects <= caps.prepareEffects) {
        if result.PrepareOk? {
          ReleasePrepared(i, others);
        }
        result := PrepareFailed;
      }
      if !result.PrepareOk? {
        ReleasePrepared(i, others);
      }
      var h := hooks[i].(outcome := PreparedOutcome(result, hooks[i].spec.deferred), prepareEffects := a.effects);
      Unchanged(hooks, runtime.outstanding, others, i, h);
      hooks := hooks[i := h];
    }

    /** The answer's state, so far one of `others`, becomes the hook's, and the answer is recorded. */
    method Take(i: nat, a: PrepareAnswer, ghost others: set<Handle>, ghost less: set<Handle>)
      requires runtime.stranded <= less
      requires runtime.Valid() && i < |hooks| && hooks[i].engine.Some? && hooks[i].engine.value < |runtime.engines|
      requires hooks[i].prepared.None? && Custody(hooks, runtime.outstanding, others)
      requires if a.handle.Some? then a.handle.value in others && less == others - {a.handle.value} else less == others
      modifies this`hooks, runtime`outstanding, runtime`freed
      ensures runtime.Valid() && Custody(hooks, runtime.outstanding, less)
      ensures hooks == old(hooks)[i := Attempted(old(hooks)[i], runtime.CapsOf(old(hooks)[i]), a)]
    {
      hide Custody;
      if a.handle.Some? {
        Adopt(hooks, runtime.outstanding, others, i, hooks[i].(prepared := a.handle));
        hooks := hooks[i := hooks[i].(prepared := a.handle)];
      }
      Conclude(i, a, less);
    }

    ghost function Standing(tripped: seq<bool>): Stand
      reads this, runtime
    {
      Stand(hooks, tripped, runtime.log, runtime.generation)
    }

    method PrepareOne(i: nat, ghost others: set<Handle>) returns (ghost a: PrepareAnswer)
      requires runtime.stranded <= others
      requires runtime.Valid() && i < |hooks| && hooks[i].engine.Some? && hooks[i].engine.value < |runtime.engines|
      requires Custody(hooks, runtime.outstanding, others)
      modifies this`hooks, runtime`outstanding, runtime`freed, runtime`generation, runtime`log, runtime`nextHandle
      ensures runtime.Valid() && Custody(hooks, runtime.outstanding, others)
      ensures hooks == old(hooks)[i := Attempted(old(hooks)[i], runtime.CapsOf(old(hooks)[i]), a)]
      ensures runtime.log == old(runtime.log) + [PrepareAsked(old(hooks)[i].id, a)]
    {
      hide Custody;
      ReleasePrepared(i, others);
      ghost var before := runtime.outstanding;
      var answer := runtime.AskPrepare(hooks[i]);
      a := answer;
      if answer.handle.Some? {
        Handed(hooks, before, others, answer.handle.value);
        Take(i, answer, others + {answer.handle.value}, others);
      } else {
        Take(i, answer, others, others);
      }
    }

    /** Once a mandatory member fails, its domain's prepared members are refused too. */
    method TripDomain(d: nat, ghost others: set<Handle>) returns (released: nat)
      requires runtime.stranded <= others
      requires runtime.Valid() && Custody(hooks, runtime.outstanding, others)
      modifies this`hooks, runtime`outstanding, runtime`freed
      ensures runtime.Valid() && Trips(old(hooks), hooks, d, |hooks|) && Custody(hooks, runtime.outstanding, others)
      ensures Count(hooks, {Outcome.Prepared}) + released == Count(old(hooks), {Outcome.Prepared})
      ensures Count(hooks, Failing) == Count(old(hooks), Failing) + released
    {
      hide Custody, Count;
      released := 0;
      for i := 0 to |hooks|
        invariant runtime.Valid() && Trips(old(hooks), hooks, d, i) && Custody(hooks, runtime.outstanding, others)
        invariant Count(hooks, {Outcome.Prepared}) + released == Count(old(hooks), {Outcome.Prepared})
        invariant Count(hooks, Failing) == Count(old(hooks), Failing) + released
      {
        if Member(hooks[i], d) && hooks[i].outcome.Prepared? {
          ghost var was := hooks;
          ReleasePrepared(i, others);
          var h := Refused(hooks[i]);
          CountUpdate(was, i, h, {Outcome.Prepared});
          CountUpdate(was, i, h, Failing);
          Unchanged(hooks, runtime.outstanding, others, i, h);
          hooks := hooks[i := h];
          assert hooks == was[i := h];
          released := released + 1;
        }
      }
    }

    // ---- preparing in groups ----

    /** A run of ungated hooks for one grouping engine. Only the hooks after the first are checked
        for being current. */
    method PrepareGroupCount(start: nat) returns (n: nat)
      requires start < |hooks| && Shape(hooks, |domains|, runtime.engines, runtime.nextId)
      ensures n == 0 || (1 < n && start + n <= |hooks|)
      ensures forall j :: start <= j < start + n ==>
                hooks[j].outcome.Analyzed? && hooks[j].spec.domain.None? && hooks[j].engine == hooks[start].engine
      ensures forall j :: start < j < start + n ==> hooks[j].generation == runtime.generation
      ensures n > 0 <==> Groups(hooks, start, runtime.generation, runtime.engines)
      ensures n > 0 ==> Spans(hooks, start, n, runtime.generation)
    {
      var first := hooks[start];
      assert WellPlaced(first, start, |domains|, runtime.engines, runtime.nextId);
      if !first.outcome.Analyzed? || first.spec.domain.Some? ||
         !(runtime.engines[first.engine.value].groupsPrepare && runtime.CapsOf(first).grouping) {
        return 0;
      }
      n := 1;
      while start + n < |hooks|
        invariant 1 <= n <= |hooks| - start
        invariant forall j :: start <= j < start + n ==>
                    hooks[j].outcome.Analyzed? && hooks[j].spec.domain.None? && hooks[j].engine == first.engine
        invariant forall j :: start < j < start + n ==> hooks[j].generation == runtime.generation
        decreases |hooks| - n
      {
        var h := hooks[start + n];
        if !h.outcome.Analyzed? || h.spec.domain.Some? || h.engine != first.engine || h.generation != runtime.generation {
          break;
        }
        n := n + 1;
      }
      if n == 1 {
        return 0;
      }
    }

    /** One engine call for the whole run; each answer is then taken on its own, and all of them
        as failures if the engine refused the group. */
    method PrepareGroup(start: nat, n: nat, ghost others: set<Handle>)
      returns (prepared: nat, failed: nat, ghost answers: seq<PrepareAnswer>, ghost accepted: bool, ghost given: seq<PrepareAnswer>)
      requires runtime.Valid() && start + n <= |hooks| && Custody(hooks, runtime.outstanding, others + runtime.stranded)
      requires forall j :: start <= j < start + n ==>
                 hooks[j].outcome.Analyzed? && hooks[j].prepared.None? && Matched(hooks[j], runtime.engines)
      modifies this`hooks, runtime`outstanding, runtime`stranded, runtime`freed, runtime`generation, runtime`log, runtime`nextHandle
      ensures runtime.Valid() && Custody(hooks, runtime.outstanding, others + runtime.stranded)
      ensures |answers| == n && Taken(runtime.engines, old(hooks), hooks, start, answers)
      ensures |given| == n && answers == Answered(accepted, given)
      ensures runtime.log == old(runtime.log) + [GroupPrepareAsked(IdsInOrder(old(hooks)[start..start + n]), accepted, given)]
      ensures Count(hooks, {Outcome.Prepared}) == Count(old(hooks), {Outcome.Prepared}) + prepared
      ensures Count(hooks, Failing) == Count(old(hooks), Failing) + failed
    {
      hide Custody, Count, Attempted, Claims, Runtime.LedgerValid, Runtime.LogValid, Runtime.StatesValid, Taken, Violates;
      var ok, each := runtime.AskPrepareGroup(hooks[start..start + n]);
      accepted, given := ok, each;
      Distributed(hooks, old(runtime.outstanding), others, old(runtime.stranded), ok, each);
      var kept := Answered(ok, each);
      ghost var apart := others + runtime.stranded;
      prepared, failed, answers := 0, 0, [];
      NothingTaken(runtime.engines, hooks, start);
      for k := 0 to n
        invariant runtime.Valid() && |answers| == k && |hooks| == |old(hooks)|
        invariant answers == kept[..k] && apart == others + runtime.stranded
        invariant runtime.log == old(runtime.log) + [GroupPrepareAsked(IdsInOrder(old(hooks)[start..start + n]), ok, each)]
        invariant Custody(hooks, runtime.outstanding, apart + Claims(kept[k..]))
        invariant Taken(runtime.engines, old(hooks), hooks, start, answers)
        invariant Count(hooks, {Outcome.Prepared}) == Count(old(hooks), {Outcome.Prepared}) + prepared
        invariant Count(hooks, Failing) == Count(old(hooks), Failing) + failed
      {
        var i := start + k;
        ghost var was := hooks;
        var a := kept[k];
        TakenNext(runtime.engines, old(hooks), hooks, start, answers, a);
        OneClaim(kept, k, apart);
        Take(i, a, apart + Claims(kept[k..]), apart + Claims(kept[k + 1..]));
        answers := answers + [a];
        Counted(was, i, hooks[i]);
        if hooks[i].outcome.Prepared? {
          prepared := prepared + 1;
        } else if hooks[i].outcome.FailedSafe? {
          failed := failed + 1;
        }
      }
      NothingLeft(kept[n..], apart);
      assert kept[..n] == kept;
    }

    // ---- preparing a plan ----

    /** A mandatory failure just recorded for hook `i` trips its domain, unless the domain's gate
        was shut from the start. */
    method TripOnFailure(i: nat, gateOk: seq<bool>, tripped: seq<bool>, prepared: nat, failed: nat,
                         ghost start: seq<Hook>, ghost was: seq<Hook>, ghost others: set<Handle>)
      returns (tripped': seq<bool>, prepared': nat, failed': nat)
      requires runtime.stranded <= others
      requires runtime.Valid() && Custody(hooks, runtime.outstanding, others)
      requires |gateOk| == |tripped| == |domains|
      requires Gated(start, was, domains, gateOk, tripped)
      requires i < |was| == |hooks| && hooks == was[i := hooks[i]] && SameRequest(was[i], hooks[i])
      requires hooks[i].spec.domain.Some? ==>
                 && hooks[i].spec.domain.value < |domains|
                 && (hooks[i].outcome.Prepared? ==> gateOk[hooks[i].spec.domain.value] && !tripped[hooks[i].spec.domain.value])
      requires Underway(start, hooks, i + 1) && Tally(hooks, prepared, failed)
      requires forall j :: 0 <= j < |start| ==> start[j].outcome in {Outcome.Analyzed, NoRoute}
      modifies this`hooks, runtime`outstanding, runtime`freed
      ensures runtime.Valid() && Custody(hooks, runtime.outstanding, others)
      ensures |hooks| == |old(hooks)| && |tripped'| == |domains| && Gated(start, hooks, domains, gateOk, tripped')
      ensures Underway(start, hooks, i + 1) && Tally(hooks, prepared', failed')
      ensures SomeAttempted(start, hooks) <==> old(SomeAttempted(start, hooks))
      ensures Settles(domains, gateOk, old(hooks), i, tripped, hooks, tripped')
    {
      hide Custody, Gated, Underway, Count, SomeAttempted, Runtime.LedgerValid, Runtime.LogValid, Runtime.StatesValid;
      tripped', prepared', failed' := tripped, prepared, failed;
      var h := hooks[i];
      if h.outcome in Failing && h.spec.domain.Some? && gateOk[h.spec.domain.value] &&
         domains[h.spec.domain.value].allMandatoryPrepared && h.spec.mandatory {
        var released := TripDomain(h.spec.domain.value, others);
        GatedTrip(start, was, domains, gateOk, tripped, i, h, hooks);
        TrippedStays(start, old(hooks), hooks, h.spec.domain.value, i + 1);
        tripped' := tripped[h.spec.domain.value := true];
        prepared', failed' := prepared - released, failed + released;
      } else {
        GatedOne(start, was, domains, gateOk, tripped, i, h);
      }
    }

    /** A single hook: stale ones are refused unattempted, gated ones without asking an engine. */
    method PrepareNext(i: nat, gateOk: seq<bool>, tripped: seq<bool>, attempted: nat, prepared: nat, failed: nat,
                       ghost start: seq<Hook>, ghost others: set<Handle>)
      returns (tripped': seq<bool>, attempted': nat, prepared': nat, failed': nat)
      requires runtime.stranded <= others
      requires runtime.Valid() && Custody(hooks, runtime.outstanding, others)
      requires |gateOk| == |tripped| == |domains|
      requires Gated(start, hooks, domains, gateOk, tripped) && Underway(start, hooks, i) && Tally(hooks, prepared, failed)
      requires forall j :: 0 <= j < |start| ==> start[j].outcome in {Outcome.Analyzed, NoRoute} && start[j].prepared.None?
      requires i < |hooks| && hooks[i].outcome.Analyzed?
      requires WellPlaced(hooks[i], i, |domains|, runtime.engines, runtime.nextId)
      requires attempted > 0 <==> SomeAttempted(start, hooks)
      modifies this`hooks, runtime`outstanding, runtime`freed, runtime`generation, runtime`log, runtime`nextHandle
      ensures runtime.Valid() && Custody(hooks, runtime.outstanding, others)
      ensures |hooks| == |old(hooks)| && |tripped'| == |domains| && Gated(start, hooks, domains, gateOk, tripped')
      ensures Underway(start, hooks, i + 1) && Tally(hooks, prepared', failed')
      ensures attempted' > 0 <==> SomeAttempted(start, hooks)
      ensures PrepareStep(domains, gateOk, old(Standing(tripped)), Standing(tripped'), i, runtime.engines)
    {
      hide Custody, Gated, Underway, Count, SomeAttempted, Runtime.LedgerValid, Runtime.LogValid, Runtime.StatesValid,
        Attempted, Settles;
      tripped', attempted', prepared', failed' := tripped, attempted, prepared, failed;
      ghost var was := hooks;
      var h := hooks[i];
      StillAsStarted(start, hooks, i);
      if h.generation != runtime.generation {
        h := h.(outcome := StalePlan);
        ConcludedOne(start, hooks, i, h);
        Counted(hooks, i, h);
        Unchanged(hooks, runtime.outstanding, others, i, h);
        hooks := hooks[i := h];
        tripped', prepared', failed' := TripOnFailure(i, gateOk, tripped, prepared, failed + 1, start, was, others);
        return;
      }
      attempted' := attempted + 1;
      if h.spec.domain.Some? && (!gateOk[h.spec.domain.value] || tripped[h.spec.domain.value]) {
        h := h.(outcome := FailedSafe);
        ConcludedOne(start, hooks, i, h);
        Counted(hooks, i, h);
        Unchanged(hooks, runtime.outstanding, others, i, h);
        GatedOne(start, hooks, domains, gateOk, tripped, i, h);
        hooks := hooks[i := h];
        failed' := failed + 1;
        return;
      }
      ghost var a := PrepareOne(i, others);
      h := hooks[i];
      ConcludedOne(start, was, i, h);
      Counted(was, i, h);
      if h.outcome.Prepared? {
        prepared' := prepared + 1;
      } else if h.outcome.FailedSafe? {
        failed' := failed + 1;
      }
      tripped', prepared', failed' := TripOnFailure(i, gateOk, tripped, prepared', failed', start, was, others);
      assert PrepareHeard(domains, gateOk, old(Standing(tripped)), Standing(tripped'), i, runtime.engines, a);
    }

    method Gates() returns (gateOk: seq<bool>)
      ensures gateOk == OpenGates(hooks, domains)
    {
      gateOk := [];
      for d := 0 to |domains|
        invariant |gateOk| == d && forall e :: 0 <= e < d ==> gateOk[e] == GateSatisfied(hooks, domains, e)
      {
        gateOk := gateOk + [GateSatisfied(hooks, domains, d)];
      }
    }

    /** The hook at `i`, or the group that starts there. */
    method PrepareWave(i: nat, gateOk: seq<bool>, tripped: seq<bool>, attempted: nat, prepared: nat, failed: nat,
                       ghost start: seq<Hook>, ghost others: set<Handle>)
      returns (n: nat, tripped': seq<bool>, attempted': nat, prepared': nat, failed': nat)
      requires runtime.Valid() && Custody(hooks, runtime.outstanding, others + runtime.stranded)
      requires |gateOk| == |tripped| == |domains|
      requires Gated(start, hooks, domains, gateOk, tripped) && Underway(start, hooks, i) && Tally(hooks, prepared, failed)
      requires forall j :: 0 <= j < |start| ==> start[j].outcome in {Outcome.Analyzed, NoRoute} && start[j].prepared.None?
      requires i < |hooks| && Shape(start, |domains|, runtime.engines, runtime.nextId)
      requires attempted > 0 <==> SomeAttempted(start, hooks)
      modifies this`hooks, runtime`outstanding, runtime`stranded, runtime`freed, runtime`generation, runtime`log, runtime`nextHandle
      ensures runtime.Valid() && Custody(hooks, runtime.outstanding, others + runtime.stranded)
      ensures |hooks| == |old(hooks)| && 0 < n && i + n <= |hooks|
      ensures |tripped'| == |domains| && Gated(start, hooks, domains, gateOk, tripped')
      ensures Underway(start, hooks, i + n) && Tally(hooks, prepared', failed')
      ensures attempted' > 0 <==> SomeAttempted(start, hooks)
      ensures PrepareWaveStep(domains, gateOk, old(Standing(tripped)), Standing(tripped'), i, n, runtime.engines)
    {
      hide Custody, Gated, Underway, Count, SomeAttempted, Runtime.LedgerValid, Runtime.LogValid, Runtime.StatesValid,
        Attempted, AllOrNothing, Shape, PrepareStep, Spans;
      n, tripped', attempted', prepared', failed' := 1, tripped, attempted, prepared, failed;
      StillAsStarted(start, hooks, i);
      Placed(start, i, |domains|, runtime.engines, runtime.nextId);
      if !hooks[i].outcome.Analyzed? {
        Skipped(start, hooks, i);
        return;
      }
      UnderwayShape(start, hooks, i, |domains|, runtime.engines, runtime.nextId);
      var count := PrepareGroupCount(i);
      if count > 1 {
        ghost var was := hooks;
        UnderwayEngines(start, hooks, i, count, |domains|, runtime.engines, runtime.nextId);
        var p, f, answers, accepted, given := PrepareGroup(i, count, others);
        assert GroupHeard(old(Standing(tripped)), Standing(tripped), i, count, runtime.engines, accepted, given);
        GroupConcluded(runtime.engines, start, was, hooks, domains, gateOk, tripped, i, answers);
        n, attempted', prepared', failed' := count, attempted + count, prepared + p, failed + f;
      } else {
        tripped', attempted', prepared', failed' := PrepareNext(i, gateOk, tripped, attempted, prepared, failed, start,
                                                               others + runtime.stranded);
      }
    }

    /** Asks for every routed hook. Domains that ask for it are all or nothing, every prepared
        state is accounted for, and the plan is prepared exactly when nothing failed. */
    method Prepare(ghost others: set<Handle>) returns (status: Status, ghost stands: seq<Stand>, ghost at: seq<nat>)
      requires Valid() && Custody(hooks, runtime.outstanding, others + runtime.stranded)
      modifies this`hooks, this`state, runtime`outstanding, runtime`stranded, runtime`freed, runtime`generation, runtime`log,
               runtime`nextHandle
      ensures Valid() && Custody(hooks, runtime.outstanding, others + runtime.stranded)
      ensures status == if old(state).AnalyzedPlan? then Ok else InvalidState
      ensures status.InvalidState? ==> state == old(state) && hooks == old(hooks)
      ensures status.Ok? ==> Underway(old(hooks), hooks, |hooks|) && AllOrNothing(old(hooks), hooks, domains)
      ensures status.Ok? ==>
                && (state.PreparedPlan? <==> forall i :: 0 <= i < |hooks| ==> hooks[i].outcome !in Failing)
                && (state.FailedPlan? <==>
                      && !state.PreparedPlan? && SomeAttempted(old(hooks), hooks)
                      && forall i :: 0 <= i < |hooks| ==> hooks[i].outcome !in {Outcome.Prepared})
                && state in {PreparedPlan, FailedPlan, PartialPlan}
      ensures status.Ok? ==>
                && PrepareRun(domains, OpenGates(old(hooks), domains), stands, at, runtime.engines)
                && stands[0] == old(Standing(Untripped(domains)))
                && at[|at| - 1] == |hooks| && stands[|at| - 1] == Standing(stands[|at| - 1].tripped)
    {
      hide Custody, Gated, Underway, Count, SomeAttempted, Runtime.LedgerValid, Runtime.LogValid, Runtime.StatesValid,
        Attempted, AllOrNothing, Shape, Supported, Undispatched, PrepareWaveStep, PrepareRun;
      stands, at := [], [];
      if !state.AnalyzedPlan? {
        return InvalidState, stands, at;
      }
      ghost var start := hooks;
      var gateOk := Gates();
      var tripped := Untripped(domains);
      var attempted, prepared, failed := 0, 0, 0;
      Starting(start, domains, gateOk, tripped);
      var i, n := 0, 0;
      stands, at := [Standing(tripped)], [0];
      RunStarts(domains, gateOk, Standing(tripped), runtime.engines);
      while i < |hooks|
        invariant i <= |hooks| == |start| && runtime.Valid() && Custody(hooks, runtime.outstanding, others + runtime.stranded)
        invariant |tripped| == |domains| && Gated(start, hooks, domains, gateOk, tripped)
        invariant Underway(start, hooks, i) && Tally(hooks, prepared, failed)
        invariant attempted > 0 <==> SomeAttempted(start, hooks)
        invariant |stands| == |at| > 0 && at[|at| - 1] == i && stands[|at| - 1] == Standing(tripped)
        invariant stands[0] == old(Standing(Untripped(domains))) && PrepareRun(domains, gateOk, stands, at, runtime.engines)
        decreases |start| - i
      {
        n, tripped, attempted, prepared, failed := PrepareWave(i, gateOk, tripped, attempted, prepared, failed, start, others);
        PrepareRunMore(domains, gateOk, stands, at, runtime.engines, Standing(tripped), n);
        i := i + n;
        stands, at := stands + [Standing(tripped)], at + [i];
      }
      Finished(start, hooks, domains, gateOk, tripped, runtime.engines, runtime.nextId, runtime.dispatched);
      CountZero(hooks, {Outcome.Prepared});
      CountZero(hooks, Failing);
      state := if failed == 0 then PreparedPlan else if prepared == 0 && attempted > 0 then FailedPlan else PartialPlan;
      status := Ok;
    }

    // ---- committing ----

    ghost predicate InDomains()
      reads this
    {
      forall i :: 0 <= i < |hooks| && hooks[i].spec.domain.Some? ==> hooks[i].spec.domain.value < |domains|
    }

    ghost function Here(): Scene
      reads this, runtime
    {
      Scene(hooks, runtime.Now())
    }

    method CommitOne(i: nat) returns (ghost a: CommitAnswer)
      requires runtime.Valid() && i < |hooks| && Matched(hooks[i], runtime.engines)
      requires hooks[i].id < runtime.nextId && hooks[i].id !in runtime.dispatched
      modifies this`hooks, runtime`generation, runtime`log, runtime`dispatched, runtime`ledger, runtime`chains
      ensures runtime.Valid() && |hooks| == |old(hooks)| && hooks == old(hooks)[i := hooks[i]]
      ensures CommitsTo(old(hooks)[i], hooks[i], runtime.CapsOf(old(hooks)[i]), old(runtime.OwnerOf(hooks[i].spec.key)), a,
                        old(runtime.dispatched), runtime.dispatched, old(runtime.ledger), runtime.ledger,
                        old(runtime.chains), runtime.chains)
      ensures CommitHeardAt(old(Here()), Here(), i, runtime.engines, a)
    {
      hide CommitsTo, Runtime.LedgerValid, Runtime.LogValid, Runtime.StatesValid, CommitHeard;
      var done;
      var reply: CommitAnswer := *;
      done, a := CommitHook(runtime, hooks[i], reply);
      hooks := hooks[i := done];
    }

    /** Refuses what is left of a domain whose preflight failed. */
    method MarkDomain(d: nat, ghost start: seq<Hook>, attempted: nat, active: nat, failed: nat) returns (blocked: nat)
      requires CommitUnderway(start, hooks) && CommitTally(start, hooks, attempted, active, failed)
      modifies this`hooks
      ensures Marks(old(hooks), hooks, d, runtime.generation, |old(hooks)|)
      ensures CommitTally(start, hooks, attempted + blocked, active, failed + blocked)
      ensures blocked > 0 <==> !NonePrepared(old(hooks), d)
    {
      hide Moved;
      blocked := 0;
      for j := 0 to |hooks|
        invariant Marks(old(hooks), hooks, d, runtime.generation, j)
        invariant CommitTally(start, hooks, attempted + blocked, active, failed + blocked)
        invariant blocked > 0 <==> exists i :: 0 <= i < j && Member(old(hooks)[i], d) && old(hooks)[i].outcome.Prepared?
      {
        if Member(hooks[j], d) && hooks[j].outcome.Prepared? {
          assert Committing(start[j], old(hooks)[j]);
          TallyOne(start, hooks, j, Marked(hooks[j], runtime.generation), attempted + blocked, active, failed + blocked, true);
          hooks := hooks[j := Marked(hooks[j], runtime.generation)];
          blocked := blocked + 1;
        }
      }
    }

    /** The first visit to a domain decides whether any of its members is tried. */
    method EnterDomain(d: nat, order: seq<nat>, k: nat, attempted: nat, active: nat, failed: nat,
                       ghost start: seq<Hook>, ghost checks: map<nat, Check>, ghost was: set<nat>)
      returns (entered: bool, attempted': nat, failed': nat, ghost checks': map<nat, Check>)
      requires Stage(start, hooks, order, k, checks, was, runtime.dispatched, |domains|, runtime.engines, runtime.nextId)
      requires CommitTally(start, hooks, attempted, active, failed) && OnlySeen(start, order, k, checks)
      requires k < |order| && order[k] < |hooks| && hooks[order[k]].outcome.Prepared? && Member(hooks[order[k]], d)
      modifies this`hooks
      ensures CommitTally(start, hooks, attempted', active, failed')
      ensures forall e :: e in checks' ==> e in checks || e == d
      ensures |hooks| == |old(hooks)| && forall j :: 0 <= j < |hooks| ==> hooks[j] == old(hooks)[j] || !hooks[j].outcome.Active?
      ensures entered <==> Seen(start, order, k, d) || Preflight(old(hooks), d, runtime.generation)
      ensures !entered ==> Marks(old(hooks), hooks, d, runtime.generation, |old(hooks)|)
      ensures if entered then attempted' == attempted else attempted' > attempted
      ensures if entered then
                && hooks == old(hooks) && d in checks' && Preflight(checks'[d].hooks, d, checks'[d].generation)
                && Stage(start, hooks, order, k, checks', was, runtime.dispatched, |domains|, runtime.engines, runtime.nextId)
              else
                Stage(start, hooks, order, k + 1, checks', was, runtime.dispatched, |domains|, runtime.engines, runtime.nextId)
    {
      hide Shape, Supported, Undispatched, Preflight, CommitTally, CommitUnderway, Checked, Orders, PreparedIds, OnlySeen, Past,
        Marks;
      entered, attempted', failed', checks' := true, attempted, failed, checks;
      VisitedSame(start, hooks, order, k);
      var seen := false;
      for l := 0 to k
        invariant seen <==> Seen(start, order, l, d)
      {
        if Member(hooks[order[l]], d) {
          seen := true;
        }
      }
      if seen {
        VisitedDomain(start, hooks, order, k, checks, was, runtime.dispatched, d);
      } else {
        NotSeen(start, order, k, checks, d);
        checks' := checks[d := Check(hooks, runtime.generation)];
        if !Preflight(hooks, d, runtime.generation) {
          var blocked := MarkDomain(d, start, attempted, active, failed);
          Enter(start, old(hooks), hooks, order, k, checks, was, runtime.dispatched, d, runtime.generation);
          MarkedStays(start, old(hooks), hooks, d, runtime.generation, |domains|, runtime.engines, runtime.nextId, runtime.dispatched);
          MarkedPast(old(hooks), hooks, order, k, d, runtime.generation, order[k]);
          StageSkip(start, hooks, order, k, checks', was, runtime.dispatched, |domains|, runtime.engines, runtime.nextId);
          entered, attempted', failed' := false, attempted + blocked, failed + blocked;
        } else {
          Enter(start, hooks, hooks, order, k, checks, was, runtime.dispatched, d, runtime.generation);
        }
      }
    }

    /** The hook at position `k`, on its own. */
    method CommitNext(order: seq<nat>, k: nat, attempted: nat, active: nat, failed: nat,
                      ghost start: seq<Hook>, ghost checks: map<nat, Check>, ghost was: set<nat>)
      returns (attempted': nat, active': nat, failed': nat, ghost checks': map<nat, Check>)
      requires runtime.Valid()
      requires Stage(start, hooks, order, k, checks, was, runtime.dispatched, |domains|, runtime.engines, runtime.nextId)
      requires CommitTally(start, hooks, attempted, active, failed) && OnlySeen(start, order, k, checks)
      requires k < |order| && order[k] < |hooks| && Linked(start, hooks, runtime.chains)
      modifies this`hooks, runtime`generation, runtime`log, runtime`dispatched, runtime`ledger, runtime`chains
      ensures runtime.Valid()
      ensures Stage(start, hooks, order, k + 1, checks', was, runtime.dispatched, |domains|, runtime.engines, runtime.nextId)
      ensures CommitTally(start, hooks, attempted', active', failed') && OnlySeen(start, order, k + 1, checks')
      ensures Linked(start, hooks, runtime.chains)
      ensures CommitStep(start, old(Here()), Here(), order, k, runtime.engines)
      ensures var s := old(Here());
              && attempted' >= attempted
              && (!GroupsCommit(s, order, k, runtime.engines) ==> (attempted' > attempted <==> Attempts(start, s, order, k, runtime.engines)))
    {
      hide Stage, CommitTally, OnlySeen, Linked, Runtime.LedgerValid, Runtime.LogValid, Runtime.StatesValid, Preflight, Checked,
        CurrentStep, Seen, Marks, GroupsCommit;
      attempted', active', failed', checks' := attempted, active, failed, checks;
      var i := order[k];
      if !hooks[i].outcome.Prepared? {
        StageSkip(start, hooks, order, k, checks, was, runtime.dispatched, |domains|, runtime.engines, runtime.nextId);
        StillSeen(start, order, k, checks, checks);
        return;
      }
      StageHook(start, hooks, order, k, checks, was, runtime.dispatched, |domains|, runtime.engines, runtime.nextId);
      if hooks[i].spec.domain.Some? {
        var entered;
        entered, attempted', failed', checks' := EnterDomain(hooks[i].spec.domain.value, order, k, attempted, active, failed,
                                                             start, checks, was);
        StillSeen(start, order, k, checks, checks');
        if !entered {
          LinkedStays(start, old(hooks), hooks, runtime.chains);
          return;
        }
      } else {
        StillSeen(start, order, k, checks, checks);
      }
      attempted', active', failed' := CommitCurrent(order, k, attempted', active', failed', start, checks', was);
    }

    /** Of a hook whose domain has been entered: whether it is current and what it waits for is
        active decides whether the engine is asked. */
    method CommitCurrent(order: seq<nat>, k: nat, attempted: nat, active: nat, failed: nat,
                         ghost start: seq<Hook>, ghost checks: map<nat, Check>, ghost was: set<nat>)
      returns (attempted': nat, active': nat, failed': nat)
      requires runtime.Valid()
      requires Stage(start, hooks, order, k, checks, was, runtime.dispatched, |domains|, runtime.engines, runtime.nextId)
      requires CommitTally(start, hooks, attempted, active, failed) && Linked(start, hooks, runtime.chains)
      requires k < |order| && order[k] < |hooks| && hooks[order[k]].outcome.Prepared?
      requires hooks[order[k]].spec.domain.Some? ==>
                 var d := hooks[order[k]].spec.domain.value; d in checks && Preflight(checks[d].hooks, d, checks[d].generation)
      modifies this`hooks, runtime`generation, runtime`log, runtime`dispatched, runtime`ledger, runtime`chains
      ensures runtime.Valid()
      ensures Stage(start, hooks, order, k + 1, checks, was, runtime.dispatched, |domains|, runtime.engines, runtime.nextId)
      ensures CommitTally(start, hooks, attempted', active', failed') && Linked(start, hooks, runtime.chains)
      ensures CurrentStep(old(Here()), Here(), order[k], runtime.engines)
      ensures attempted' == if old(hooks[order[k]].generation == runtime.generation) then attempted + 1 else attempted
    {
      hide Stage, CommitTally, Linked, Runtime.LedgerValid, Runtime.LogValid, Runtime.StatesValid, Preflight, Violates,
        Committed, Extended, CommitHeardAt;
      attempted', active', failed' := attempted, active, failed;
      var i := order[k];
      StageHook(start, hooks, order, k, checks, was, runtime.dispatched, |domains|, runtime.engines, runtime.nextId);
      var h := hooks[i];
      if h.generation != runtime.generation {
        h := h.(outcome := StalePlan);
        EndedOne(start, hooks, order, k, checks, was, runtime.dispatched, h, |domains|, runtime.engines, runtime.nextId,
                 attempted', active', failed', false, runtime.chains);
        hooks := hooks[i := h];
        failed' := failed' + 1;
        return;
      }
      if !DependenciesActive(hooks, h) {
        h := Marked(h, runtime.generation);
        EndedOne(start, hooks, order, k, checks, was, runtime.dispatched, h, |domains|, runtime.engines, runtime.nextId,
                 attempted', active', failed', true, runtime.chains);
        hooks := hooks[i := h];
        attempted', failed' := attempted' + 1, failed' + 1;
        return;
      }
      ghost var before, asked := hooks, runtime.dispatched;
      ghost var chains := runtime.chains;
      ghost var caps, owner := runtime.CapsOf(h), runtime.OwnerOf(h.spec.key);
      ghost var a := CommitOne(i);
      CommittedEnds(h, caps, owner, a);
      StageOne(start, before, order, k, checks, was, asked, runtime.dispatched, hooks[i], |domains|, runtime.engines, runtime.nextId);
      TallyOne(start, before, i, hooks[i], attempted', active', failed', true);
      LinkedOne(start, before, i, hooks[i], chains, runtime.chains);
      attempted' := attempted' + 1;
      if hooks[i].outcome.Active? {
        active' := active' + 1;
      } else {
        failed' := failed' + 1;
      }
    }

    // ---- committing in groups ----

    method CommitGroupCount(order: seq<nat>, at: nat) returns (n: nat)
      requires at < |order| && Shape(hooks, |domains|, runtime.engines, runtime.nextId)
      requires forall l :: 0 <= l < |order| ==> order[l] < |hooks|
      ensures n == 0 || 1 < n
      ensures Groupable(hooks, order, at, n, runtime.ledger)
      ensures forall l :: at <= l < at + n ==> hooks[order[l]].engine == hooks[order[at]].engine
      ensures forall l :: at < l < at + n ==> hooks[order[l]].generation == runtime.generation
      ensures n > 0 <==> GroupsCommit(Here(), order, at, runtime.engines)
      ensures n > 0 ==> SpansCommit(Here(), order, at, n)
    {
      hide Violates;
      var first := hooks[order[at]];
      assert WellPlaced(first, order[at], |domains|, runtime.engines, runtime.nextId);
      if !first.outcome.Prepared? || first.spec.domain.Some? || first.spec.after != [] ||
         !(runtime.engines[first.engine.value].groupsCommit && runtime.CapsOf(first).grouping) ||
         first.spec.key in runtime.ledger {
        return 0;
      }
      n := 1;
      while at + n < |order|
        invariant 1 <= n <= |order| - at
        invariant Groupable(hooks, order, at, n, runtime.ledger)
        invariant forall l :: at <= l < at + n ==> hooks[order[l]].engine == first.engine
        invariant forall l :: at < l < at + n ==> hooks[order[l]].generation == runtime.generation
        decreases |order| - n
      {
        var h := hooks[order[at + n]];
        if !h.outcome.Prepared? || h.spec.domain.Some? || h.spec.after != [] || h.engine != first.engine ||
           h.generation != runtime.generation || h.spec.key in runtime.ledger {
          break;
        }
        n := n + 1;
      }
      if n == 1 {
        return 0;
      }
    }

    /** One engine call for the run; then each operation is concluded on its own. */
    method CommitGroup(order: seq<nat>, at: nat, n: nat, attempted: nat, active: nat, failed: nat,
                       ghost start: seq<Hook>, ghost checks: map<nat, Check>, ghost was: set<nat>)
      returns (attempted': nat, active': nat, failed': nat)
      requires runtime.Valid()
      requires Stage(start, hooks, order, at, checks, was, runtime.dispatched, |domains|, runtime.engines, runtime.nextId)
      requires CommitTally(start, hooks, attempted, active, failed) && Linked(start, hooks, runtime.chains)
      requires 0 < n && Groupable(hooks, order, at, n, runtime.ledger) && Injective(order)
      modifies this`hooks, runtime`generation, runtime`log, runtime`dispatched, runtime`ledger, runtime`chains
      ensures runtime.Valid()
      ensures Stage(start, hooks, order, at + n, checks, was, runtime.dispatched, |domains|, runtime.engines, runtime.nextId)
      ensures CommitTally(start, hooks, attempted', active', failed') && Linked(start, hooks, runtime.chains)
      ensures GroupCommitStep(old(Here()), Here(), order, at, n, runtime.engines) && attempted' == attempted + n
    {
      hide Stage, CommitTally, Linked, Runtime.LedgerValid, Runtime.LogValid, Runtime.StatesValid, Violates, Waiting, Apart,
        Injective, Ids, IdsInOrder, GroupOne, CompensationFailed, Concludes;
      ghost var group := GroupHooks(start, hooks, order, at, n, checks, was, runtime.dispatched, |domains|, runtime.engines,
                                    runtime.nextId, runtime.ledger);
      ApartIds(group);
      WaitingOne(hooks, order, at, group, 0, runtime.ledger);
      ghost var asked := runtime.dispatched;
      var reply := runtime.AskCommitGroup(runtime.engines[hooks[order[at]].engine.value],
                                                                        Gather(hooks, order, at, n));
      var cleared := CompensationFailed(runtime.engines[hooks[order[at]].engine.value], reply);
      ghost var mids;
      attempted', active', failed', mids := ConcludeGroup(order, at, n, reply, cleared, attempted, active,
                                                          failed, start, checks, was, asked, group);
      assert GroupCommitHeard(old(Here()), Here(), order, at, n, runtime.engines, reply, mids);
    }

    method ConcludeGroup(order: seq<nat>, at: nat, n: nat, reply: GroupReply,
                         cleared: bool, attempted: nat, active: nat, failed: nat, ghost start: seq<Hook>,
                         ghost checks: map<nat, Check>, ghost was: set<nat>, ghost asked: set<nat>, ghost group: seq<Hook>)
      returns (attempted': nat, active': nat, failed': nat, ghost mids: seq<Scene>)
      requires runtime.Valid() && |reply.answers| == |group| == n && at + n <= |order|
      requires runtime.dispatched == if reply.revalidated then asked + Ids(group) else asked
      requires Stage(start, hooks, order, at, checks, was, asked, |domains|, runtime.engines, runtime.nextId)
      requires CommitTally(start, hooks, attempted, active, failed) && Linked(start, hooks, runtime.chains)
      requires Waiting(hooks, order, at, group, 0, runtime.ledger) && Apart(group) && Injective(order)
      modifies this`hooks, runtime`ledger, runtime`chains
      ensures runtime.Valid()
      ensures Stage(start, hooks, order, at + n, checks, was, runtime.dispatched, |domains|, runtime.engines, runtime.nextId)
      ensures CommitTally(start, hooks, attempted', active', failed') && Linked(start, hooks, runtime.chains)
      ensures |mids| == n + 1 && mids[0] == old(Here()) && mids[n] == Here()
      ensures forall l :: 0 <= l < n ==> Concludes(mids, l, order, at, runtime.engines, reply, cleared)
      ensures attempted' == attempted + n
    {
      hide Stage, CommitTally, Linked, Runtime.LedgerValid, Runtime.LogValid, Runtime.StatesValid, Violates, Waiting, Apart,
        Injective, Ids, GroupOne, Concludes;
      attempted', active', failed' := attempted, active, failed;
      mids := [Here()];
      ghost var upTo := asked;
      NoIds(group);
      for l := 0 to n
        invariant runtime.Valid()
        invariant upTo == if reply.revalidated then asked + Ids(group[..l]) else asked
        invariant Stage(start, hooks, order, at + l, checks, was, upTo, |domains|, runtime.engines, runtime.nextId)
        invariant CommitTally(start, hooks, attempted', active', failed') && Linked(start, hooks, runtime.chains)
        invariant Waiting(hooks, order, at, group, l, runtime.ledger)
        invariant |mids| == l + 1 && mids[l] == Here() && mids[0] == old(Here()) && attempted' == attempted + l
        invariant forall m :: 0 <= m < l ==> Concludes(mids, m, order, at, runtime.engines, reply, cleared)
      {
        var a := GroupReport(reply, l);
        ghost var before, ledger := hooks, runtime.ledger;
        WaitingOne(hooks, order, at, group, l, runtime.ledger);
        IdsMore(group, l);
        ghost var next := if reply.revalidated then asked + Ids(group[..l + 1]) else asked;
        attempted', active', failed' := ConcludeInGroup(order, at + l, a, TakenAsRestored(reply, l, cleared),
                                                        attempted', active', failed', start, checks, was, upTo, next);
        WaitingNext(before, hooks, order, at, group, l, ledger, runtime.ledger);
        upTo := next;
        ConcludesMore(mids, Here(), order, at, runtime.engines, reply, cleared);
        mids := mids + [Here()];
      }
      AllIds(group);
    }

    method ConcludeInGroup(order: seq<nat>, k: nat, a: CommitAnswer, compensated: bool, attempted: nat, active: nat, failed: nat,
                           ghost start: seq<Hook>, ghost checks: map<nat, Check>, ghost was: set<nat>,
                           ghost dispatched: set<nat>, ghost dispatched': set<nat>)
      returns (attempted': nat, active': nat, failed': nat)
      requires runtime.Valid()
      requires Stage(start, hooks, order, k, checks, was, dispatched, |domains|, runtime.engines, runtime.nextId)
      requires CommitTally(start, hooks, attempted, active, failed) && Linked(start, hooks, runtime.chains)
      requires Groupable(hooks, order, k, 1, runtime.ledger) && dispatched' <= dispatched + {hooks[order[k]].id}
      modifies this`hooks, runtime`ledger, runtime`chains
      ensures runtime.Valid()
      ensures Stage(start, hooks, order, k + 1, checks, was, dispatched', |domains|, runtime.engines, runtime.nextId)
      ensures CommitTally(start, hooks, attempted', active', failed') && Linked(start, hooks, runtime.chains)
      ensures |hooks| == |old(hooks)| && hooks == old(hooks)[order[k] := hooks[order[k]]]
      ensures forall key :: key in runtime.ledger ==> key in old(runtime.ledger) || key == old(hooks)[order[k]].spec.key
      ensures GroupOne(old(Here()), Here(), order[k], runtime.engines, compensated, a) && attempted' == attempted + 1
    {
      hide Stage, CommitTally, Linked, Runtime.LedgerValid, Runtime.LogValid, Runtime.StatesValid, Violates, GroupCommitted,
        Committed;
      StageHook(start, hooks, order, k, checks, was, dispatched, |domains|, runtime.engines, runtime.nextId);
      var h := hooks[order[k]];
      var caps := runtime.CapsOf(h);
      var done := GroupCommitted(h, caps, compensated, a);
      GroupEnds(h, caps, compensated, a);
      StageOne(start, hooks, order, k, checks, was, dispatched, dispatched', done, |domains|, runtime.engines, runtime.nextId);
      TallyOne(start, hooks, order[k], done, attempted, active, failed, true);
      ghost var chains := runtime.chains;
      if GroupRecords(caps, compensated, a) {
        runtime.RecordOwner(h.spec.key, caps.id, h.spec.replacement, a.published);
      }
      LinkedGroup(start, hooks, order[k], done, chains, runtime.chains, a.published);
      hooks := hooks[order[k] := done];
      attempted' := attempted + 1;
      active' := if done.outcome.Active? then active + 1 else active;
      failed' := if done.outcome.Active? then failed else failed + 1;
    }

    // ---- committing a plan ----

    /** Commits what is prepared, in order. Afterwards nothing is prepared any more; what is active
        rests on active hooks; each engine was asked at most once per hook, and for a domain's
        members only after its preflight had passed. The plan is committed exactly when all that
        was prepared is active, so committing it again asks nobody and succeeds. */
    method Commit(ghost others: set<Handle>)
      returns (status: Status, ghost checks: map<nat, Check>, ghost order: seq<nat>, ghost scenes: seq<Scene>, ghost at: seq<nat>)
      requires Valid() && Custody(hooks, runtime.outstanding, others)
      modifies this`hooks, this`state, runtime`generation, runtime`log, runtime`dispatched, runtime`ledger, runtime`chains
      ensures Valid() && Custody(hooks, runtime.outstanding, others)
      ensures status == if old(state) in {PreparedPlan, PartialPlan} then Ok else InvalidState
      ensures status.InvalidState? ==> state == old(state) && hooks == old(hooks) && runtime.dispatched == old(runtime.dispatched)
      ensures status.Ok? ==>
                && CommitUnderway(old(hooks), hooks) && (forall i :: 0 <= i < |hooks| ==> !hooks[i].outcome.Prepared?)
                && runtime.dispatched <= old(runtime.dispatched) + PreparedIds(old(hooks))
                && Linked(old(hooks), hooks, runtime.chains)
                && EnteredRightly(hooks, checks, old(runtime.dispatched), runtime.dispatched)
                && (forall d, j :: d in checks && 0 <= j < |hooks| && Member(hooks[j], d) ==>
                      |checks[d].hooks| == |hooks| && checks[d].hooks[j] == old(hooks)[j])
      ensures status.Ok? ==>
                && state in {CommittedPlan, FailedPlan, PartialPlan}
                && (state.CommittedPlan? <==> AllActive(old(hooks), hooks))
                && (state.FailedPlan? <==>
                      !AllActive(old(hooks), hooks) && NoneActive(old(hooks), hooks) && SomeTried(order, scenes, at, runtime.engines))
      ensures status.Ok? ==>
                && old(InDomains()) && Topological(old(Slots(hooks, domains)), order) && Greedy(old(Slots(hooks, domains)), order)
                && CommitRun(order, scenes, at, runtime.engines) && scenes[0] == old(Here())
                && at[|at| - 1] == |order| && scenes[|at| - 1] == Here()
    {
      hide Shape, Supported, Undispatched, Stage, CommitTally, Linked, OnlySeen, Custody, Runtime.LedgerValid, Runtime.LogValid,
        Runtime.StatesValid, Moved, Slots, Orders, Injective, CommitWaveStep, CommitRun, Topological, Greedy, Attempts,
        SomeTried;
      checks, order, scenes, at := map[], [], [], [];
      if !state.PreparedPlan? && !state.PartialPlan? {
        return InvalidState, checks, order, scenes, at;
      }
      ghost var start, was := hooks, runtime.dispatched;
      SlotsBackward(hooks, domains, runtime.engines, runtime.nextId);
      var sequence := BuildCommitOrder(Slots(hooks, domains));
      order, scenes, at := sequence, [Here()], [0];
      OrderOfPrepared(hooks, domains, order);
      CommitRunStarts(order, Here(), runtime.engines);
      var attempted, active, failed := 0, 0, 0;
      StageStart(start, order, was, domains, runtime.engines, runtime.nextId);
      var k := 0;
      while k < |sequence|
        invariant k <= |order| && runtime.Valid() && order == sequence
        invariant Stage(start, hooks, order, k, checks, was, runtime.dispatched, |domains|, runtime.engines, runtime.nextId)
        invariant CommitTally(start, hooks, attempted, active, failed) && OnlySeen(start, order, k, checks)
        invariant Linked(start, hooks, runtime.chains)
        invariant |scenes| == |at| > 0 && at[|at| - 1] == k && scenes[|at| - 1] == Here()
        invariant scenes[0] == old(Here()) && CommitRun(order, scenes, at, runtime.engines)
        invariant attempted > 0 <==> SomeTried(order, scenes, at, runtime.engines)
      {
        var n;
        n, attempted, active, failed, checks := CommitWave(sequence, k, attempted, active, failed, start, checks, was);
        CommitRunMore(order, scenes, at, runtime.engines, Here(), n);
        TriedMore(order, scenes, at, runtime.engines, Here(), k + n);
        k := k + n;
        scenes, at := scenes + [Here()], at + [k];
      }
      StageEnd(start, hooks, order, checks, was, runtime.dispatched, |domains|, runtime.engines, runtime.nextId,
               attempted, active, failed, runtime.outstanding, others);
      state := if failed == 0 then CommittedPlan else if active == 0 && attempted > 0 then FailedPlan else PartialPlan;
      status := Ok;
    }

    /** The hook at position `k`, or the group that starts there. */
    method CommitWave(order: seq<nat>, k: nat, attempted: nat, active: nat, failed: nat,
                      ghost start: seq<Hook>, ghost checks: map<nat, Check>, ghost was: set<nat>)
      returns (n: nat, attempted': nat, active': nat, failed': nat, ghost checks': map<nat, Check>)
      requires runtime.Valid()
      requires Stage(start, hooks, order, k, checks, was, runtime.dispatched, |domains|, runtime.engines, runtime.nextId)
      requires CommitTally(start, hooks, attempted, active, failed) && OnlySeen(start, order, k, checks)
      requires k < |order| && Linked(start, hooks, runtime.chains) && Injective(order)
      modifies this`hooks, runtime`generation, runtime`log, runtime`dispatched, runtime`ledger, runtime`chains
      ensures runtime.Valid() && 0 < n && k + n <= |order|
      ensures Stage(start, hooks, order, k + n, checks', was, runtime.dispatched, |domains|, runtime.engines, runtime.nextId)
      ensures CommitTally(start, hooks, attempted', active', failed') && OnlySeen(start, order, k + n, checks')
      ensures Linked(start, hooks, runtime.chains)
      ensures CommitWaveStep(start, old(Here()), Here(), order, k, n, runtime.engines)
      ensures attempted' >= attempted && (attempted' > attempted <==> Attempts(start, old(Here()), order, k, runtime.engines))
    {
      hide Shape, Supported, Undispatched, Stage, CommitTally, Linked, OnlySeen, Runtime.LedgerValid, Runtime.LogValid,
        Runtime.StatesValid, Injective, CommitStep, GroupCommitStep, SpansCommit, FirstVisit, Preflight;
      StageBounds(start, hooks, order, k, checks, was, runtime.dispatched, |domains|, runtime.engines, runtime.nextId);
      n, checks' := 1, checks;
      var count := CommitGroupCount(order, k);
      if count > 1 {
        StillSeenMany(start, order, k, checks, count);
        attempted', active', failed' := CommitGroup(order, k, count, attempted, active, failed, start, checks, was);
        n := count;
      } else {
        attempted', active', failed', checks' := CommitNext(order, k, attempted, active, failed, start, checks, was);
      }
    }

    // ---- releasing a plan ----

    /** Every prepared state goes back, and hooks still waiting for their target move to the
        process, unless its queue cannot take them. */
    method Release(ghost others: set<Handle>) returns (ghost adopted: seq<bool>)
      requires Valid() && Custody(hooks, runtime.outstanding, others + runtime.stranded)
      requires Queue(runtime.pending, runtime.engines, runtime.nextId, runtime.dispatched) && Strangers(hooks, runtime.pending)
      modifies this`hooks, runtime`pending, runtime`outstanding, runtime`freed
      ensures Valid() && hooks == [] && runtime.outstanding == others + runtime.stranded
      ensures Queue(runtime.pending, runtime.engines, runtime.nextId, runtime.dispatched)
      ensures |adopted| == |old(hooks)| && runtime.pending == old(runtime.pending) + Moving(old(hooks), adopted)
    {
      hide Runtime.LedgerValid, Runtime.LogValid, Runtime.StatesValid, Custody, Violates, Moving;
      adopted := [];
      NoneMoving(hooks);
      var i := 0;
      while i < |hooks|
        invariant i <= |hooks| == |old(hooks)| && runtime.Valid() && Custody(hooks, runtime.outstanding, others + runtime.stranded)
        invariant forall j :: 0 <= j < |hooks| ==> hooks[j] == if j < i then old(hooks)[j].(prepared := None) else old(hooks)[j]
        invariant Queue(runtime.pending, runtime.engines, runtime.nextId, runtime.dispatched)
        invariant |adopted| == i && runtime.pending == old(runtime.pending) + Moving(old(hooks)[..i], adopted)
        invariant Strangers(hooks[i..], runtime.pending)
      {
        assert WellPlaced(old(hooks)[i], i, |domains|, runtime.engines, runtime.nextId);
        forall j | i < j < |hooks|
          ensures hooks[i].id != hooks[j].id
        {
          assert Distinct(old(hooks)[i], old(hooks)[j]);
        }
        var taken: bool := *;
        MovingMore(old(hooks), adopted, taken);
        adopted := adopted + [taken];
        if hooks[i].outcome.Pending? && taken {
          runtime.SetPending(runtime.pending + [hooks[i]]);
        } else {
          ReleasePrepared(i, others + runtime.stranded);
        }
        i := i + 1;
      }
      NothingHeld(hooks, runtime.outstanding, others + runtime.stranded);
      assert old(hooks)[..|hooks|] == old(hooks);
      hooks := [];
    }
  }
}
