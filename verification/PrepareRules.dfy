/** Preparing the hooks of a plan, one after the other: what the loop of hk_plan_prepare does at
    each of them, and what it has done so far. Every engine call takes whatever answer comes. */
module PrepareRules {
  import opened Options
  import opened Mutations
  import opened Routing
  import opened Hooks
  import opened PlanRules

  // ---- the preparation gate ----

  /** Every mandatory member found a route, where the domain asks for that. */
  predicate GateSatisfied(hooks: seq<Hook>, domains: seq<Domain>, d: nat)
    requires d < |domains|
  {
    domains[d].allMandatoryPrepared ==>
      forall i :: 0 <= i < |hooks| && Member(hooks[i], d) && hooks[i].spec.mandatory ==> hooks[i].outcome.Analyzed?
  }

  ghost predicate NoMandatoryFailed(hooks: seq<Hook>, d: nat) {
    forall i :: 0 <= i < |hooks| && Member(hooks[i], d) && hooks[i].spec.mandatory ==> hooks[i].outcome !in Failing
  }

  /** If a mandatory member had no route, or its preparation failed or was stale, no member is
      left prepared. */
  ghost predicate AllOrNothing(start: seq<Hook>, hooks: seq<Hook>, domains: seq<Domain>) {
    forall d :: 0 <= d < |domains| && domains[d].allMandatoryPrepared ==>
      (GateSatisfied(start, domains, d) && NoMandatoryFailed(hooks, d)) || NonePrepared(hooks, d)
  }

  // What the loop knows of each domain.
  ghost predicate Gated(start: seq<Hook>, hooks: seq<Hook>, domains: seq<Domain>, gateOk: seq<bool>, tripped: seq<bool>) {
    && |gateOk| == |domains| && |tripped| == |domains|
    && forall d :: 0 <= d < |domains| ==>
         && gateOk[d] == GateSatisfied(start, domains, d)
         && (!domains[d].allMandatoryPrepared ==> !tripped[d])
         && (!gateOk[d] || tripped[d] ==> NonePrepared(hooks, d))
         && (domains[d].allMandatoryPrepared && gateOk[d] && !tripped[d] ==> NoMandatoryFailed(hooks, d))
  }

  /** A hook as an attempt to prepare it leaves it. */
  function Attempted(h: Hook, caps: Caps, a: PrepareAnswer): (out: Hook)
    ensures out.outcome in {Outcome.Prepared, FailedSafe, Pending, NoRoute}
    ensures SameRequest(h, out) && (out.prepared.Some? ==> out.outcome.Prepared?)
    ensures out.outcome.Prepared? ==> out.prepareEffects <= caps.prepareEffects
  {
    var r := Settled(caps, a);
    h.(outcome := PreparedOutcome(r, h.spec.deferred), prepareEffects := a.effects,
       prepared := if r.PrepareOk? then a.handle else None)
  }

  function AttemptedIn(engines: seq<Engine>, h: Hook, a: PrepareAnswer): Hook {
    if h.engine.Some? && h.engine.value < |engines| then Attempted(h, engines[h.engine.value].candidate.caps, a) else h
  }

  function Refused(h: Hook): Hook {
    h.(outcome := FailedSafe, mutation := Unmutated, prepared := None)
  }

  /** The members of a domain that had been prepared are refused, and only those. */
  ghost predicate Trips(before: seq<Hook>, after: seq<Hook>, d: nat, n: nat) {
    && |before| == |after|
    && forall i :: 0 <= i < |before| ==>
         after[i] == if i < n && Member(before[i], d) && before[i].outcome.Prepared? then Refused(before[i]) else before[i]
  }

  // ---- what the preparation loop has done so far ----

  const Concluded: set<Outcome> := {Outcome.Prepared, Pending, NoRoute, FailedSafe, StalePlan}

  predicate Progressed(before: Hook, h: Hook, done: bool) {
    && SameRequest(before, h)
    && (!done || before.outcome.NoRoute? ==> h == before)
    && (done && before.outcome.Analyzed? ==> h.outcome in Concluded)
    && (h.prepared.Some? ==> h.outcome.Prepared?)
    && Declared(h)
  }

  /** The first `n` hooks are concluded, the others are as they were. */
  ghost predicate Underway(start: seq<Hook>, hooks: seq<Hook>, n: nat) {
    |start| == |hooks| && forall j :: 0 <= j < |hooks| ==> Progressed(start[j], hooks[j], j < n)
  }

  predicate Tally(hooks: seq<Hook>, prepared: nat, failed: nat) {
    prepared == Count(hooks, {Outcome.Prepared}) && failed == Count(hooks, Failing)
  }

  ghost predicate SomeAttempted(start: seq<Hook>, hooks: seq<Hook>) {
    exists j :: 0 <= j < |start| && j < |hooks| && start[j].outcome.Analyzed? && hooks[j].outcome in Concluded && !hooks[j].outcome.StalePlan?
  }

  lemma ConcludedOne(start: seq<Hook>, hooks: seq<Hook>, i: nat, h: Hook)
    requires Underway(start, hooks, i) && i < |hooks| && start[i].outcome.Analyzed?
    requires SameRequest(start[i], h) && h.outcome in Concluded && (h.prepared.Some? ==> h.outcome.Prepared?) && Declared(h)
    ensures Underway(start, hooks[i := h], i + 1)
    ensures SomeAttempted(start, hooks[i := h]) <==> SomeAttempted(start, hooks) || !h.outcome.StalePlan?
  {
    if SomeAttempted(start, hooks) {
      var j :| 0 <= j < |start| && start[j].outcome.Analyzed? && hooks[j].outcome in Concluded && !hooks[j].outcome.StalePlan?;
      assert hooks[i := h][j] == hooks[j];
    }
    if !h.outcome.StalePlan? {
      assert hooks[i := h][i] == h;
    }
  }

  lemma TrippedStays(start: seq<Hook>, hooks: seq<Hook>, after: seq<Hook>, d: nat, n: nat)
    requires Underway(start, hooks, n) && Trips(hooks, after, d, |hooks|)
    requires forall j :: 0 <= j < |start| ==> start[j].outcome in {Outcome.Analyzed, NoRoute}
    ensures Underway(start, after, n)
    ensures SomeAttempted(start, after) <==> SomeAttempted(start, hooks)
  {
    forall j | 0 <= j < |hooks|
      ensures Progressed(start[j], after[j], j < n)
    {
      assert Progressed(start[j], hooks[j], j < n);
    }
    if SomeAttempted(start, hooks) {
      var j :| 0 <= j < |start| && start[j].outcome.Analyzed? && hooks[j].outcome in Concluded && !hooks[j].outcome.StalePlan?;
      assert after[j].outcome in Concluded && !after[j].outcome.StalePlan?;
    }
  }

  // An attempt that respects the gate of its domain keeps what is known of the domains.
  lemma GatedOne(start: seq<Hook>, hooks: seq<Hook>, domains: seq<Domain>, gateOk: seq<bool>, tripped: seq<bool>, i: nat, h: Hook)
    requires Gated(start, hooks, domains, gateOk, tripped) && i < |hooks| && SameRequest(hooks[i], h)
    requires h.spec.domain.Some? ==>
               var d := h.spec.domain.value;
               && d < |domains|
               && (h.outcome.Prepared? ==> gateOk[d] && !tripped[d])
               && (h.outcome in Failing && h.spec.mandatory && domains[d].allMandatoryPrepared ==> !gateOk[d] || tripped[d])
    ensures Gated(start, hooks[i := h], domains, gateOk, tripped)
  {
  }

  // A mandatory failure refuses the rest of its domain.
  lemma GatedTrip(start: seq<Hook>, hooks: seq<Hook>, domains: seq<Domain>, gateOk: seq<bool>, tripped: seq<bool>, i: nat,
                  h: Hook, after: seq<Hook>)
    requires Gated(start, hooks, domains, gateOk, tripped) && i < |hooks| && SameRequest(hooks[i], h)
    requires h.spec.domain.Some? && h.spec.domain.value < |domains| && domains[h.spec.domain.value].allMandatoryPrepared
    requires h.outcome in Failing && Trips(hooks[i := h], after, h.spec.domain.value, |hooks|)
    ensures Gated(start, after, domains, gateOk, tripped[h.spec.domain.value := true])
  {
    var d := h.spec.domain.value;
    forall e | 0 <= e < |domains|
      ensures (!gateOk[e] || tripped[d := true][e] ==> NonePrepared(after, e))
      ensures domains[e].allMandatoryPrepared && gateOk[e] && !tripped[d := true][e] ==> NoMandatoryFailed(after, e)
    {
      if e != d {
        forall j | 0 <= j < |after| && Member(after[j], e)
          ensures after[j] == hooks[j]
        {
        }
      }
    }
  }

  /** The gates as they are before the loop starts. */
  function OpenGates(hooks: seq<Hook>, domains: seq<Domain>): (gateOk: seq<bool>)
    ensures |gateOk| == |domains| && forall d :: 0 <= d < |domains| ==> gateOk[d] == GateSatisfied(hooks, domains, d)
  {
    seq(|domains|, d requires 0 <= d < |domains| => GateSatisfied(hooks, domains, d))
  }

  function Untripped(domains: seq<Domain>): seq<bool> { seq(|domains|, _ => false) }

  // ---- the preparation loop, step by step ----

  /** Where the loop stands: which domains have been tripped, and every call made so far. */
  datatype Stand = Stand(hooks: seq<Hook>, tripped: seq<bool>, log: seq<Asked>, generation: nat)

  /** A mandatory member's failure counts against its domain, unless the gate was shut anyway. */
  predicate TripsDomain(h: Hook, domains: seq<Domain>, gateOk: seq<bool>) {
    && h.outcome in Failing && h.spec.mandatory && h.spec.domain.Some?
    && h.spec.domain.value < |domains| && h.spec.domain.value < |gateOk|
    && gateOk[h.spec.domain.value] && domains[h.spec.domain.value].allMandatoryPrepared
  }

  ghost predicate Settles(domains: seq<Domain>, gateOk: seq<bool>, before: seq<Hook>, i: nat, tripped: seq<bool>,
                          after: seq<Hook>, tripped': seq<bool>)
  {
    i < |before| &&
    if TripsDomain(before[i], domains, gateOk) then
      var d := before[i].spec.domain.value;
      d < |tripped| && tripped' == tripped[d := true] && Trips(before, after, d, |before|)
    else after == before && tripped' == tripped
  }

  predicate Blocked(h: Hook, gateOk: seq<bool>, tripped: seq<bool>) {
    h.spec.domain.Some? && h.spec.domain.value < |gateOk| && h.spec.domain.value < |tripped| &&
    (!gateOk[h.spec.domain.value] || tripped[h.spec.domain.value])
  }

  /** One hook: a stale one is refused without being attempted, a blocked one without asking, and
      any other becomes what the engine's answer makes of it. */
  ghost predicate PrepareStep(domains: seq<Domain>, gateOk: seq<bool>, s: Stand, t: Stand, i: nat, engines: seq<Engine>) {
    i < |s.hooks| &&
    var h := s.hooks[i];
    if h.generation != s.generation then
      t.log == s.log && t.generation == s.generation &&
      Settles(domains, gateOk, s.hooks[i := h.(outcome := StalePlan)], i, s.tripped, t.hooks, t.tripped)
    else if Blocked(h, gateOk, s.tripped) then
      t == s.(hooks := s.hooks[i := h.(outcome := FailedSafe)])
    else
      exists a :: PrepareHeard(domains, gateOk, s, t, i, engines, a)
  }

  ghost predicate PrepareHeard(domains: seq<Domain>, gateOk: seq<bool>, s: Stand, t: Stand, i: nat, engines: seq<Engine>,
                               a: PrepareAnswer)
  {
    && i < |s.hooks| && t.log == s.log + [PrepareAsked(s.hooks[i].id, a)]
    && Settles(domains, gateOk, s.hooks[i := AttemptedIn(engines, s.hooks[i], a)], i, s.tripped, t.hooks, t.tripped)
  }

  // ---- before, between and after ----

  lemma Starting(start: seq<Hook>, domains: seq<Domain>, gateOk: seq<bool>, tripped: seq<bool>)
    requires forall j :: 0 <= j < |start| ==> start[j].outcome in {Outcome.Analyzed, NoRoute} && start[j].prepared.None?
    requires |gateOk| == |tripped| == |domains|
    requires forall d :: 0 <= d < |domains| ==> gateOk[d] == GateSatisfied(start, domains, d) && !tripped[d]
    ensures Gated(start, start, domains, gateOk, tripped) && Underway(start, start, 0) && Tally(start, 0, 0)
    ensures !SomeAttempted(start, start)
  {
    CountZero(start, {Outcome.Prepared});
    CountZero(start, Failing);
  }

  lemma Skipped(start: seq<Hook>, hooks: seq<Hook>, i: nat)
    requires Underway(start, hooks, i) && i < |hooks| && !start[i].outcome.Analyzed?
    ensures Underway(start, hooks, i + 1)
  {
    forall j | 0 <= j < |hooks|
      ensures Progressed(start[j], hooks[j], j < i + 1)
    {
      assert Progressed(start[j], hooks[j], j < i);
    }
  }

  lemma UnderwayShape(start: seq<Hook>, hooks: seq<Hook>, n: nat, domains: nat, engines: seq<Engine>, nextId: nat)
    requires Underway(start, hooks, n) && Shape(start, domains, engines, nextId)
    requires forall j :: 0 <= j < |start| ==> start[j].outcome in {Outcome.Analyzed, NoRoute}
    ensures Shape(hooks, domains, engines, nextId)
  {
    forall j | 0 <= j < |hooks|
      ensures WellPlaced(hooks[j], j, domains, engines, nextId)
    {
      assert Progressed(start[j], hooks[j], j < n) && WellPlaced(start[j], j, domains, engines, nextId);
    }
    forall j, k | 0 <= j < k < |hooks|
      ensures Distinct(hooks[j], hooks[k])
    {
      assert Progressed(start[j], hooks[j], j < n) && Progressed(start[k], hooks[k], k < n) && Distinct(start[j], start[k]);
    }
  }

  lemma Finished(start: seq<Hook>, hooks: seq<Hook>, domains: seq<Domain>, gateOk: seq<bool>, tripped: seq<bool>,
                 engines: seq<Engine>, nextId: nat, dispatched: set<nat>)
    requires Underway(start, hooks, |hooks|) && Gated(start, hooks, domains, gateOk, tripped)
    requires Shape(start, |domains|, engines, nextId) && Undispatched(start, dispatched)
    requires forall j :: 0 <= j < |start| ==> start[j].outcome in {Outcome.Analyzed, NoRoute}
    ensures AllOrNothing(start, hooks, domains)
    ensures Shape(hooks, |domains|, engines, nextId) && Supported(hooks) && Undispatched(hooks, dispatched)
    ensures forall j :: 0 <= j < |hooks| ==> hooks[j].outcome in Concluded
  {
    UnderwayShape(start, hooks, |hooks|, |domains|, engines, nextId);
    forall j | 0 <= j < |hooks|
      ensures Progressed(start[j], hooks[j], true)
    {
      assert Progressed(start[j], hooks[j], j < |hooks|);
    }
  }

  lemma StillAsStarted(start: seq<Hook>, hooks: seq<Hook>, i: nat)
    requires Underway(start, hooks, i) && i < |hooks|
    ensures |start| == |hooks| && hooks[i] == start[i]
  {
    assert Progressed(start[i], hooks[i], false);
  }

  lemma Counted(hooks: seq<Hook>, i: nat, h: Hook)
    requires i < |hooks| && hooks[i].outcome.Analyzed?
    ensures Count(hooks[i := h], {Outcome.Prepared}) == Count(hooks, {Outcome.Prepared}) + (if h.outcome.Prepared? then 1 else 0)
    ensures Count(hooks[i := h], Failing) == Count(hooks, Failing) + (if h.outcome in Failing then 1 else 0)
  {
    CountUpdate(hooks, i, h, {Outcome.Prepared});
    CountUpdate(hooks, i, h, Failing);
  }

  lemma Handed(hooks: seq<Hook>, outstanding: set<Handle>, others: set<Handle>, h: Handle)
    requires Custody(hooks, outstanding, others) && h !in outstanding
    ensures Custody(hooks, outstanding + {h}, others + {h}) && others + {h} - {h} == others
  {
  }
}
