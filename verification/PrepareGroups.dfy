/** Preparing a run of hooks with one engine call, and the whole preparation loop. */
module PrepareGroups {
  import opened Options
  import opened Mutations
  import opened Routing
  import opened Hooks
  import opened PlanRules
  import opened PrepareRules

  /** The run of hooks from `start` has been concluded with `answers`, one each. */
  ghost predicate Taken(engines: seq<Engine>, before: seq<Hook>, after: seq<Hook>, start: nat, answers: seq<PrepareAnswer>) {
    && |before| == |after| && start + |answers| <= |before|
    && forall j :: 0 <= j < |before| ==>
         after[j] == if start <= j < start + |answers| then AttemptedIn(engines, before[j], answers[j - start]) else before[j]
  }

  lemma NothingTaken(engines: seq<Engine>, hooks: seq<Hook>, start: nat)
    requires start <= |hooks|
    ensures Taken(engines, hooks, hooks, start, [])
  {
  }

  lemma TakenNext(engines: seq<Engine>, before: seq<Hook>, after: seq<Hook>, start: nat, answers: seq<PrepareAnswer>, a: PrepareAnswer)
    requires Taken(engines, before, after, start, answers) && start + |answers| < |before|
    ensures var i := start + |answers|;
            && after[i] == before[i]
            && Taken(engines, before, after[i := AttemptedIn(engines, after[i], a)], start, answers + [a])
  {
  }

  predicate LeadsGroup(h: Hook, engines: seq<Engine>) {
    && h.outcome.Analyzed? && h.spec.domain.None? && h.engine.Some? && h.engine.value < |engines|
    && engines[h.engine.value].groupsPrepare && engines[h.engine.value].candidate.caps.grouping
  }

  predicate JoinsGroup(first: Hook, h: Hook, generation: nat) {
    h.outcome.Analyzed? && h.spec.domain.None? && h.engine == first.engine && h.generation == generation
  }

  /** The run of hooks from `start` that go together, as long as can be. */
  predicate Spans(hooks: seq<Hook>, start: nat, n: nat, generation: nat) {
    && 0 < n && start + n <= |hooks|
    && (forall j :: start < j < start + n ==> JoinsGroup(hooks[start], hooks[j], generation))
    && (start + n < |hooks| ==> !JoinsGroup(hooks[start], hooks[start + n], generation))
  }

  predicate Groups(hooks: seq<Hook>, start: nat, generation: nat, engines: seq<Engine>) {
    start + 1 < |hooks| && LeadsGroup(hooks[start], engines) && JoinsGroup(hooks[start], hooks[start + 1], generation)
  }

  /** An engine that refuses the group has failed all of it, and the states it handed over all the
      same are cleared before any hook gets to hold one. */
  function Answered(accepted: bool, given: seq<PrepareAnswer>): (answers: seq<PrepareAnswer>)
    ensures |answers| == |given|
  {
    seq(|given|, k requires 0 <= k < |given| =>
      if accepted then given[k] else given[k].(result := PrepareFailed, handle := None))
  }

  ghost predicate GroupHeard(s: Stand, t: Stand, i: nat, n: nat, engines: seq<Engine>, accepted: bool, given: seq<PrepareAnswer>) {
    && |given| == n && i + n <= |s.hooks| && t.tripped == s.tripped
    && t.log == s.log + [GroupPrepareAsked(IdsInOrder(s.hooks[i..i + n]), accepted, given)]
    && Taken(engines, s.hooks, t.hooks, i, Answered(accepted, given))
  }

  /** The hook at `i`, or the longest group that starts there. */
  ghost predicate PrepareWaveStep(domains: seq<Domain>, gateOk: seq<bool>, s: Stand, t: Stand, i: nat, n: nat, engines: seq<Engine>) {
    i < |s.hooks| &&
    if !s.hooks[i].outcome.Analyzed? then n == 1 && t == s
    else if Groups(s.hooks, i, s.generation, engines) then
      Spans(s.hooks, i, n, s.generation) && exists accepted, given :: GroupHeard(s, t, i, n, engines, accepted, given)
    else n == 1 && PrepareStep(domains, gateOk, s, t, i, engines)
  }

  /** A hook analyzed before the image catalog last changed is not attempted, unless it leads a
      group: then its engine is asked for it all the same. */
  lemma StaleAttemptedExactly(domains: seq<Domain>, gateOk: seq<bool>, s: Stand, t: Stand, i: nat, n: nat, engines: seq<Engine>)
    requires PrepareWaveStep(domains, gateOk, s, t, i, n, engines)
    requires s.hooks[i].outcome.Analyzed? && s.hooks[i].generation != s.generation
    ensures t.log != s.log <==> Groups(s.hooks, i, s.generation, engines)
    ensures t.log != s.log ==>
              && |t.log| == |s.log| + 1 && t.log[..|s.log|] == s.log && t.log[|s.log|].GroupPrepareAsked?
              && t.log[|s.log|].ids != [] && t.log[|s.log|].ids[0] == s.hooks[i].id
  {
    hide Settles, Taken;
    if Groups(s.hooks, i, s.generation, engines) {
      var accepted, given :| GroupHeard(s, t, i, n, engines, accepted, given);
      assert t.log[|s.log|] == GroupPrepareAsked(IdsInOrder(s.hooks[i..i + n]), accepted, given);
    }
  }

  /** The whole loop: wave after wave from the first hook to the last. */
  ghost predicate PrepareRun(domains: seq<Domain>, gateOk: seq<bool>, stands: seq<Stand>, at: seq<nat>, engines: seq<Engine>) {
    && |stands| == |at| > 0 && at[0] == 0 && (forall d :: 0 <= d < |stands[0].tripped| ==> !stands[0].tripped[d])
    && forall w :: 0 < w < |at| ==>
         at[w - 1] < at[w] && PrepareWaveStep(domains, gateOk, stands[w - 1], stands[w], at[w - 1], at[w] - at[w - 1], engines)
  }

  lemma RunStarts(domains: seq<Domain>, gateOk: seq<bool>, s: Stand, engines: seq<Engine>)
    requires forall d :: 0 <= d < |s.tripped| ==> !s.tripped[d]
    ensures PrepareRun(domains, gateOk, [s], [0], engines)
  {
  }

  lemma PrepareRunMore(domains: seq<Domain>, gateOk: seq<bool>, stands: seq<Stand>, at: seq<nat>, engines: seq<Engine>,
                       t: Stand, n: nat)
    requires PrepareRun(domains, gateOk, stands, at, engines) && 0 < n
    requires PrepareWaveStep(domains, gateOk, stands[|at| - 1], t, at[|at| - 1], n, engines)
    ensures PrepareRun(domains, gateOk, stands + [t], at + [at[|at| - 1] + n], engines)
  {
    hide PrepareWaveStep;
  }

  lemma UnderwayEngines(start: seq<Hook>, hooks: seq<Hook>, i: nat, n: nat, domains: nat, engines: seq<Engine>, nextId: nat)
    requires Underway(start, hooks, i) && Shape(hooks, domains, engines, nextId) && i + n <= |hooks|
    requires forall j :: 0 <= j < |start| ==> start[j].prepared.None?
    requires forall j :: i <= j < i + n ==> hooks[j].outcome.Analyzed?
    ensures forall j :: i <= j < i + n ==> hooks[j].prepared.None? && Matched(hooks[j], engines)
  {
    forall j | i <= j < i + n
      ensures hooks[j].prepared.None? && Matched(hooks[j], engines)
    {
      assert Progressed(start[j], hooks[j], j < i) && WellPlaced(hooks[j], j, domains, engines, nextId);
    }
  }

  lemma GroupConcluded(engines: seq<Engine>, start: seq<Hook>, was: seq<Hook>, hooks: seq<Hook>, domains: seq<Domain>,
                       gateOk: seq<bool>, tripped: seq<bool>, i: nat, answers: seq<PrepareAnswer>)
    requires Underway(start, was, i) && Gated(start, was, domains, gateOk, tripped)
    requires Taken(engines, was, hooks, i, answers) && 0 < |answers|
    requires forall j :: i <= j < i + |answers| ==>
               was[j].outcome.Analyzed? && was[j].spec.domain.None? && Matched(was[j], engines)
    ensures Underway(start, hooks, i + |answers|) && Gated(start, hooks, domains, gateOk, tripped) && SomeAttempted(start, hooks)
  {
    hide Attempted, Violates;
    forall j | 0 <= j < |hooks|
      ensures Progressed(start[j], hooks[j], j < i + |answers|) && SameRequest(was[j], hooks[j])
      ensures hooks[j] == was[j] || hooks[j].spec.domain.None?
    {
      assert Progressed(start[j], was[j], j < i);
    }
    assert Progressed(start[i], was[i], false);
    assert start[i].outcome.Analyzed? && hooks[i].outcome in Concluded;
  }

  /** Any group may be refused with states handed over all the same: then no hook of it holds one,
      and they are stranded. */
  lemma RefusedGroupStrands(domains: seq<Domain>, gateOk: seq<bool>, s: Stand, i: nat, n: nat, engines: seq<Engine>,
                            given: seq<PrepareAnswer>)
    returns (t: Stand)
    requires i < |s.hooks| && s.hooks[i].outcome.Analyzed? && Groups(s.hooks, i, s.generation, engines)
    requires Spans(s.hooks, i, n, s.generation) && |given| == n
    ensures PrepareWaveStep(domains, gateOk, s, t, i, n, engines)
    ensures StrandedBy(t.log) == StrandedBy(s.log) + Claims(given)
    ensures forall j :: i <= j < i + n ==> t.hooks[j].prepared.None? && t.hooks[j].outcome.FailedSafe?
    ensures forall j :: 0 <= j < |t.hooks| && !(i <= j < i + n) ==> t.hooks[j] == s.hooks[j]
  {
    hide Claims, IdsInOrder, AttemptedIn, Settles, PrepareStep;
    var answers := Answered(false, given);
    var after := seq(|s.hooks|, j requires 0 <= j < |s.hooks| =>
      if i <= j < i + n then AttemptedIn(engines, s.hooks[j], answers[j - i]) else s.hooks[j]);
    var call := GroupPrepareAsked(IdsInOrder(s.hooks[i..i + n]), false, given);
    t := s.(hooks := after, log := s.log + [call]);
    HandedMore(s.log, call);
    assert GroupHeard(s, t, i, n, engines, false, given);
    forall j | i <= j < i + n
      ensures t.hooks[j].prepared.None? && t.hooks[j].outcome.FailedSafe?
    {
      assert s.hooks[j].engine == s.hooks[i].engine;
      FailedOne(engines, s.hooks[j], answers[j - i]);
    }
  }

  lemma FailedOne(engines: seq<Engine>, h: Hook, a: PrepareAnswer)
    requires h.engine.Some? && h.engine.value < |engines| && a.result.PrepareFailed?
    ensures AttemptedIn(engines, h, a).prepared.None? && AttemptedIn(engines, h, a).outcome.FailedSafe?
  {
  }

  // ---- sharing out what a group hands over ----

  lemma Distributed(hooks: seq<Hook>, outstanding: set<Handle>, others: set<Handle>, stranded: set<Handle>,
                    accepted: bool, given: seq<PrepareAnswer>)
    requires Custody(hooks, outstanding, others + stranded) && outstanding !! Claims(given) && EachItsOwn(given)
    ensures var stranded' := stranded + if accepted then {} else Claims(given);
            var kept := Answered(accepted, given);
            && Custody(hooks, outstanding + Claims(given), others + stranded' + Claims(kept[0..]))
            && others + stranded' !! Claims(kept) && EachItsOwn(kept)
  {
    var kept := Answered(accepted, given);
    assert kept[0..] == kept;
    if accepted {
      assert kept == given;
    } else {
      assert Claims(kept) == {};
    }
  }

  lemma NothingLeft(given: seq<PrepareAnswer>, others: set<Handle>)
    requires given == []
    ensures others + Claims(given) == others
  {
  }

  lemma OneClaim(given: seq<PrepareAnswer>, k: nat, others: set<Handle>)
    requires k < |given| && others !! Claims(given) && EachItsOwn(given)
    ensures given[k].handle.None? ==> Claims(given[k..]) == Claims(given[k + 1..])
    ensures var h := given[k].handle; h.Some? ==>
              h.value in Claims(given[k..]) && others + Claims(given[k..]) - {h.value} == others + Claims(given[k + 1..])
  {
    var tail := given[k + 1..];
    assert given[k..] == [given[k]] + tail;
    FirstClaim(given[k], tail);
    if given[k].handle.Some? {
      assert given[k].handle.value in Claims(given);
    }
  }

  lemma FirstClaim(a: PrepareAnswer, tail: seq<PrepareAnswer>)
    ensures Claims([a] + tail) == Claims(tail) + (if a.handle.Some? then {a.handle.value} else {})
  {
    forall h | h in Claims(tail) + (if a.handle.Some? then {a.handle.value} else {})
      ensures h in Claims([a] + tail)
    {
      if h in Claims(tail) {
        var i :| 0 <= i < |tail| && tail[i].handle == Some(h);
        assert ([a] + tail)[i + 1].handle == Some(h);
      } else {
        assert ([a] + tail)[0].handle == Some(h);
      }
    }
  }
}
