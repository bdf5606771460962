/** What the preparation of a plan comes to for a domain that asks for all of its mandatory members,
    told from the hooks before and after and the calls in between. */
module PrepareAccounts {
  import opened Options
  import opened Mutations
  import opened Routing
  import opened Hooks
  import opened PlanRules
  import opened PrepareRules
  import opened PrepareGroups

  /** The call asks an engine to prepare this hook. */
  predicate Concerns(call: Asked, id: nat) {
    match call
    case PrepareAsked(asked, _) => asked == id
    case GroupPrepareAsked(ids, _, _) => id in ids
    case _ => false
  }

  ghost predicate AskedFor(log: seq<Asked>, from: nat, id: nat) {
    exists c :: from <= c < |log| && Concerns(log[c], id)
  }

  /** The hook at `j` was reached after the image catalog had changed since it was analyzed. */
  ghost predicate ReachedStale(stands: seq<Stand>, at: seq<nat>, j: nat) {
    exists w :: 0 <= w < |at| && w < |stands| && at[w] == j && j < |stands[w].hooks| &&
      stands[w].generation != stands[w].hooks[j].generation
  }

  ghost predicate MandatoryIn(hooks: seq<Hook>, d: nat, outcomes: set<Outcome>) {
    exists j :: 0 <= j < |hooks| && hooks[j].spec.domain == Some(d) && hooks[j].spec.mandatory && hooks[j].outcome in outcomes
  }

  // ---- one wave ----

  /** What is known of domain `d` with `k` hooks behind. */
  ghost predicate Known(start: seq<Hook>, stands: seq<Stand>, at: seq<nat>, s: Stand, k: nat, from: nat, d: nat, gate: bool) {
    && |s.hooks| == |start| && d < |s.tripped| && from <= |s.log|
    && (forall j :: 0 <= j < |start| ==> SameRequest(start[j], s.hooks[j]))
    && (forall j :: k <= j < |start| ==> s.hooks[j] == start[j])
    && (!gate || s.tripped[d] ==> forall j :: 0 <= j < |start| && Member(start[j], d) ==> !s.hooks[j].outcome.Prepared?)
    && (!gate ==> forall j :: 0 <= j < |start| && Member(start[j], d) ==> !AskedFor(s.log, from, start[j].id))
    && (gate ==> (s.tripped[d] <==> MandatoryIn(s.hooks, d, {FailedSafe, StalePlan})))
    && (gate && !s.tripped[d] ==> forall j :: 0 <= j < k && j < |start| && Member(start[j], d) ==>
          ReachedOrAsked(start, stands, at, s, from, j))
  }

  /** The hook had no route, was reached stale, or its engine was asked for it. */
  ghost predicate ReachedOrAsked(start: seq<Hook>, stands: seq<Stand>, at: seq<nat>, s: Stand, from: nat, j: nat) {
    && j < |start| && j < |s.hooks|
    && (start[j].outcome.Analyzed? ==>
         if s.hooks[j].outcome.StalePlan? then ReachedStale(stands, at, j) else AskedFor(s.log, from, start[j].id))
  }

  lemma MoreLog(log: seq<Asked>, log': seq<Asked>, from: nat, id: nat)
    requires |log| <= |log'| && log'[..|log|] == log && from <= |log|
    ensures AskedFor(log, from, id) ==> AskedFor(log', from, id)
    ensures !AskedFor(log, from, id) && (forall c :: |log| <= c < |log'| ==> !Concerns(log'[c], id)) ==> !AskedFor(log', from, id)
  {
    hide Concerns;
    if AskedFor(log, from, id) {
      var c :| from <= c < |log| && Concerns(log[c], id);
      assert log'[c] == log[c];
    }
    if AskedFor(log', from, id) && forall c :: |log| <= c < |log'| ==> !Concerns(log'[c], id) {
      var c :| from <= c < |log'| && Concerns(log'[c], id);
      assert log[c] == log'[c];
    }
  }

  /** What a run starts from: routed or routeless hooks under ids of their own. */
  ghost predicate Fresh(start: seq<Hook>) {
    && (forall j :: 0 <= j < |start| ==> start[j].outcome in {Outcome.Analyzed, NoRoute})
    && (forall i, j :: 0 <= i < j < |start| ==> start[i].id != start[j].id)
  }

  lemma SameMandatory(before: seq<Hook>, after: seq<Hook>, d: nat, outcomes: set<Outcome>)
    requires |before| == |after| && forall j :: 0 <= j < |before| ==> before[j].spec == after[j].spec
    requires forall j :: 0 <= j < |before| && Member(before[j], d) ==> after[j] == before[j]
    ensures MandatoryIn(before, d, outcomes) <==> MandatoryIn(after, d, outcomes)
  {
    if MandatoryIn(before, d, outcomes) {
      var j :| 0 <= j < |before| && before[j].spec.domain == Some(d) && before[j].spec.mandatory && before[j].outcome in outcomes;
      assert after[j] == before[j];
    }
    if MandatoryIn(after, d, outcomes) {
      var j :| 0 <= j < |after| && after[j].spec.domain == Some(d) && after[j].spec.mandatory && after[j].outcome in outcomes;
      assert Member(before[j], d);
    }
  }

  // A wave that reaches no member leaves what is known as it was.
  lemma KnownElsewhere(start: seq<Hook>, stands: seq<Stand>, at: seq<nat>, s: Stand, t: Stand, k: nat, n: nat, from: nat,
                       d: nat, gate: bool)
    requires Known(start, stands, at, s, k, from, d, gate) && |t.hooks| == |start| && d < |t.tripped|
    requires forall j :: 0 <= j < |start| ==> SameRequest(s.hooks[j], t.hooks[j])
    requires forall j :: k + n <= j < |start| ==> t.hooks[j] == s.hooks[j]
    requires forall j :: 0 <= j < |start| && Member(start[j], d) ==> t.hooks[j] == s.hooks[j]
    requires forall j :: k <= j < k + n && j < |start| ==> !Member(start[j], d)
    requires t.tripped[d] == s.tripped[d] && |s.log| <= |t.log| && t.log[..|s.log|] == s.log
    requires forall j, c :: 0 <= j < |start| && Member(start[j], d) && |s.log| <= c < |t.log| ==> !Concerns(t.log[c], start[j].id)
    ensures Known(start, stands, at, t, k + n, from, d, gate)
  {
    hide Concerns, ReachedStale, AskedFor;
    SameMandatory(s.hooks, t.hooks, d, {FailedSafe, StalePlan});
    forall j | 0 <= j < |start|
      ensures AskedFor(s.log, from, start[j].id) ==> AskedFor(t.log, from, start[j].id)
      ensures Member(start[j], d) && !AskedFor(s.log, from, start[j].id) ==> !AskedFor(t.log, from, start[j].id)
    {
      MoreLog(s.log, t.log, from, start[j].id);
    }
    forall j | 0 <= j < k + n && j < |start| && Member(start[j], d) && gate && !t.tripped[d]
      ensures ReachedOrAsked(start, stands, at, t, from, j)
    {
      assert ReachedOrAsked(start, stands, at, s, from, j);
    }
  }

  // A group is made of hooks that belong to no domain.
  lemma KnownGroup(start: seq<Hook>, stands: seq<Stand>, at: seq<nat>, s: Stand, t: Stand, k: nat, n: nat, from: nat,
                   d: nat, gate: bool, engines: seq<Engine>)
    requires Known(start, stands, at, s, k, from, d, gate) && Fresh(start) && k < |start|
    requires Groups(s.hooks, k, s.generation, engines) && Spans(s.hooks, k, n, s.generation)
    requires exists accepted, given :: GroupHeard(s, t, k, n, engines, accepted, given)
    ensures Known(start, stands, at, t, k + n, from, d, gate)
  {
    hide Known, Attempted, IdsInOrder;
    var accepted, given :| GroupHeard(s, t, k, n, engines, accepted, given);
    KnownShape(start, stands, at, s, k, from, d, gate);
    forall j | k <= j < k + n
      ensures s.hooks[j].spec.domain.None?
    {
      assert j == k || JoinsGroup(s.hooks[k], s.hooks[j], s.generation);
    }
    forall j, c | 0 <= j < |start| && Member(start[j], d) && |s.log| <= c < |t.log|
      ensures !Concerns(t.log[c], start[j].id)
    {
      OthersInGroup(start, s.hooks, k, n, j);
    }
    KnownElsewhere(start, stands, at, s, t, k, n, from, d, gate);
  }

  lemma KnownShape(start: seq<Hook>, stands: seq<Stand>, at: seq<nat>, s: Stand, k: nat, from: nat, d: nat, gate: bool)
    requires Known(start, stands, at, s, k, from, d, gate)
    ensures |s.hooks| == |start| && d < |s.tripped| && from <= |s.log|
    ensures forall j :: 0 <= j < |start| ==> SameRequest(start[j], s.hooks[j])
    ensures forall j :: k <= j < |start| ==> s.hooks[j] == start[j]
  {
  }

  lemma OthersInGroup(start: seq<Hook>, hooks: seq<Hook>, k: nat, n: nat, j: nat)
    requires Fresh(start) && |hooks| == |start| && k + n <= |hooks| && j < |start|
    requires forall i :: 0 <= i < |start| ==> hooks[i].id == start[i].id
    requires !(k <= j < k + n)
    ensures start[j].id !in IdsInOrder(hooks[k..k + n])
  {
    var ids := IdsInOrder(hooks[k..k + n]);
    forall l | 0 <= l < |ids|
      ensures ids[l] != start[j].id
    {
      assert hooks[k..k + n][l] == hooks[k + l];
      assert if j < k + l then start[j].id != start[k + l].id else start[k + l].id != start[j].id;
    }
  }

  // ---- a single hook ----

  // A hook of another domain, or of none, may trip only its own.
  lemma KnownOther(start: seq<Hook>, stands: seq<Stand>, at: seq<nat>, s: Stand, t: Stand, k: nat, from: nat, d: nat, gate: bool,
                   domains: seq<Domain>, gateOk: seq<bool>, engines: seq<Engine>)
    requires Known(start, stands, at, s, k, from, d, gate) && Fresh(start) && k < |start| && !Member(start[k], d)
    requires PrepareStep(domains, gateOk, s, t, k, engines) && |domains| == |gateOk| == |s.tripped|
    ensures Known(start, stands, at, t, k + 1, from, d, gate)
  {
    hide Known, Attempted;
    KnownShape(start, stands, at, s, k, from, d, gate);
    forall j | 0 <= j < |start| && Member(start[j], d)
      ensures start[j].id != start[k].id
    {
      assert if j < k then start[j].id != start[k].id else start[k].id != start[j].id;
    }
    KnownElsewhere(start, stands, at, s, t, k, 1, from, d, gate);
  }

  // What a hook of the domain becomes, before its domain is looked at.
  ghost predicate Becomes(stands: seq<Stand>, at: seq<nat>, s: Stand, t: Stand, k: nat, h: Hook, from: nat) {
    && k < |s.hooks| && SameRequest(s.hooks[k], h) && |s.log| <= |t.log| && t.log[..|s.log|] == s.log
    && (forall c, id :: |s.log| <= c < |t.log| && id != h.id ==> !Concerns(t.log[c], id))
    && if h.outcome.StalePlan? then ReachedStale(stands, at, k) && t.log == s.log else AskedFor(t.log, from, h.id)
  }

  lemma KnownOutcome(start: seq<Hook>, stands: seq<Stand>, at: seq<nat>, s: Stand, t: Stand, k: nat, from: nat, d: nat,
                     gate: bool, domains: seq<Domain>, gateOk: seq<bool>, h: Hook)
    requires Known(start, stands, at, s, k, from, d, gate) && Fresh(start) && k < |start| && Member(start[k], d)
    requires d < |domains| == |gateOk| == |s.tripped| && domains[d].allMandatoryPrepared && gateOk[d] == gate
    requires Becomes(stands, at, s, t, k, h, from)
    requires h.outcome.StalePlan? || (gate && !s.tripped[d])
    requires Settles(domains, gateOk, s.hooks[k := h], k, s.tripped, t.hooks, t.tripped)
    requires h.outcome.Prepared? ==> gate && !s.tripped[d]
    ensures Known(start, stands, at, t, k + 1, from, d, gate)
  {
    hide Concerns, ReachedStale, AskedFor;
    var mid := s.hooks[k := h];
    forall j | 0 <= j < |start|
      ensures AskedFor(s.log, from, start[j].id) ==> AskedFor(t.log, from, start[j].id)
      ensures j != k && !AskedFor(s.log, from, start[j].id) ==> !AskedFor(t.log, from, start[j].id)
    {
      assert j < k ==> start[j].id != start[k].id;
      assert k < j ==> start[k].id != start[j].id;
      MoreLog(s.log, t.log, from, start[j].id);
    }
    MandatoryStep(s.hooks, mid, k, d);
    if TripsDomain(h, domains, gateOk) {
      assert t.hooks[k] == h;
    }
    forall j | 0 <= j < k + 1 && Member(start[j], d) && gate && !t.tripped[d]
      ensures ReachedOrAsked(start, stands, at, t, from, j)
    {
      if j < k {
        assert ReachedOrAsked(start, stands, at, s, from, j);
      }
    }
  }

  lemma MandatoryStep(before: seq<Hook>, after: seq<Hook>, k: nat, d: nat)
    requires k < |before| == |after| && after == before[k := after[k]] && before[k].spec == after[k].spec && Member(before[k], d)
    requires before[k].outcome !in {FailedSafe, StalePlan}
    ensures MandatoryIn(after, d, {FailedSafe, StalePlan}) <==>
            MandatoryIn(before, d, {FailedSafe, StalePlan}) || (after[k].spec.mandatory && after[k].outcome in {FailedSafe, StalePlan})
  {
    if MandatoryIn(before, d, {FailedSafe, StalePlan}) {
      var j :| 0 <= j < |before| && before[j].spec.domain == Some(d) && before[j].spec.mandatory &&
               before[j].outcome in {FailedSafe, StalePlan};
      assert after[j] == before[j];
    }
    if MandatoryIn(after, d, {FailedSafe, StalePlan}) {
      var j :| 0 <= j < |after| && after[j].spec.domain == Some(d) && after[j].spec.mandatory &&
               after[j].outcome in {FailedSafe, StalePlan};
      assert j != k ==> before[j] == after[j];
    }
  }

  // A hook behind a shut gate, or after the domain was tripped, is refused without a call.
  lemma KnownBlocked(start: seq<Hook>, stands: seq<Stand>, at: seq<nat>, s: Stand, t: Stand, k: nat, from: nat, d: nat,
                     gate: bool)
    requires Known(start, stands, at, s, k, from, d, gate) && k < |start| && Member(start[k], d)
    requires start[k].outcome in {Outcome.Analyzed, NoRoute} && (!gate || s.tripped[d])
    requires t == s.(hooks := s.hooks[k := s.hooks[k].(outcome := FailedSafe)])
    ensures Known(start, stands, at, t, k + 1, from, d, gate)
  {
    hide Concerns, ReachedStale, AskedFor;
    MandatoryStep(s.hooks, t.hooks, k, d);
  }

  lemma KnownMember(start: seq<Hook>, stands: seq<Stand>, at: seq<nat>, s: Stand, t: Stand, w: nat, from: nat, d: nat,
                    gate: bool, domains: seq<Domain>, gateOk: seq<bool>, engines: seq<Engine>)
    requires w < |at| && w < |stands| && stands[w] == s
    requires Known(start, stands, at, s, at[w], from, d, gate) && Fresh(start) && at[w] < |start| && Member(start[at[w]], d)
    requires d < |domains| == |gateOk| == |s.tripped| && domains[d].allMandatoryPrepared && gateOk[d] == gate
    requires PrepareStep(domains, gateOk, s, t, at[w], engines)
    ensures Known(start, stands, at, t, at[w] + 1, from, d, gate)
  {
    hide Known, Settles, Attempted, AskedFor;
    var k := at[w];
    var was := s.hooks[k];
    KnownShape(start, stands, at, s, k, from, d, gate);
    if was.generation != s.generation {
      assert ReachedStale(stands, at, k);
      KnownOutcome(start, stands, at, s, t, k, from, d, gate, domains, gateOk, was.(outcome := StalePlan));
    } else if Blocked(was, gateOk, s.tripped) {
      KnownBlocked(start, stands, at, s, t, k, from, d, gate);
    } else {
      var a :| PrepareHeard(domains, gateOk, s, t, k, engines, a);
      AskedNow(s.log, was.id, a, from);
      KnownOutcome(start, stands, at, s, t, k, from, d, gate, domains, gateOk, AttemptedIn(engines, was, a));
    }
  }

  lemma AskedNow(log: seq<Asked>, id: nat, a: PrepareAnswer, from: nat)
    requires from <= |log|
    ensures AskedFor(log + [PrepareAsked(id, a)], from, id)
  {
    assert Concerns((log + [PrepareAsked(id, a)])[|log|], id);
  }

  lemma KnownWave(start: seq<Hook>, stands: seq<Stand>, at: seq<nat>, w: nat, from: nat, d: nat, gate: bool,
                  domains: seq<Domain>, gateOk: seq<bool>, engines: seq<Engine>)
    requires w + 1 < |at| == |stands| && at[w] < at[w + 1]
    requires Known(start, stands, at, stands[w], at[w], from, d, gate) && Fresh(start)
    requires d < |domains| == |gateOk| == |stands[w].tripped| && domains[d].allMandatoryPrepared && gateOk[d] == gate
    requires PrepareWaveStep(domains, gateOk, stands[w], stands[w + 1], at[w], at[w + 1] - at[w], engines)
    ensures Known(start, stands, at, stands[w + 1], at[w + 1], from, d, gate)
    ensures |stands[w + 1].tripped| == |domains|
  {
    hide Known, PrepareStep, Groups, Spans, GroupHeard;
    var s, t, k := stands[w], stands[w + 1], at[w];
    KnownShape(start, stands, at, s, k, from, d, gate);
    SameTripped(domains, gateOk, s, t, k, at[w + 1] - k, engines);
    if !s.hooks[k].outcome.Analyzed? {
      KnownSkip(start, stands, at, s, k, from, d, gate);
    } else if Groups(s.hooks, k, s.generation, engines) {
      KnownGroup(start, stands, at, s, t, k, at[w + 1] - k, from, d, gate, engines);
    } else if Member(start[k], d) {
      KnownMember(start, stands, at, s, t, w, from, d, gate, domains, gateOk, engines);
    } else {
      KnownOther(start, stands, at, s, t, k, from, d, gate, domains, gateOk, engines);
    }
  }

  lemma SameTripped(domains: seq<Domain>, gateOk: seq<bool>, s: Stand, t: Stand, k: nat, n: nat, engines: seq<Engine>)
    requires PrepareWaveStep(domains, gateOk, s, t, k, n, engines)
    ensures |t.tripped| == |s.tripped|
  {
    hide Attempted, Trips, Taken, Groups, Spans;
  }

  lemma KnownSkip(start: seq<Hook>, stands: seq<Stand>, at: seq<nat>, s: Stand, k: nat, from: nat, d: nat, gate: bool)
    requires Known(start, stands, at, s, k, from, d, gate) && k < |start| && !s.hooks[k].outcome.Analyzed?
    ensures Known(start, stands, at, s, k + 1, from, d, gate)
  {
    hide Concerns, ReachedStale, AskedFor;
    assert start[k] == s.hooks[k];
  }

  lemma {:induction false} KnownRun(start: seq<Hook>, stands: seq<Stand>, at: seq<nat>, w: nat, d: nat, gate: bool,
                                    domains: seq<Domain>, gateOk: seq<bool>, engines: seq<Engine>)
    requires PrepareRun(domains, gateOk, stands, at, engines) && w < |at| && stands[0].hooks == start && Fresh(start)
    requires d < |domains| == |gateOk| == |stands[0].tripped| && domains[d].allMandatoryPrepared && gateOk[d] == gate
    ensures Known(start, stands, at, stands[w], at[w], |stands[0].log|, d, gate) && |stands[w].tripped| == |domains|
  {
    hide PrepareWaveStep, Concerns;
    if w > 0 {
      hide Known;
      KnownRun(start, stands, at, w - 1, d, gate, domains, gateOk, engines);
      assert PrepareWaveStep(domains, gateOk, stands[w - 1], stands[w], at[w - 1], at[w] - at[w - 1], engines);
      KnownWave(start, stands, at, w - 1, |stands[0].log|, d, gate, domains, gateOk, engines);
    }
  }

  // ---- what preparing comes to ----

  /** For a domain that asks for all of its mandatory members. If one of them had no route, or ends
      refused or stale, no member ends prepared; if one had no route, no engine is asked for any
      member. If each had a route and none ends so, then every routed member whose turn came while
      the image catalog was as analyzed was asked for. */
  lemma DomainTogether(start: seq<Hook>, domains: seq<Domain>, stands: seq<Stand>, at: seq<nat>, engines: seq<Engine>, d: nat)
    requires PrepareRun(domains, OpenGates(start, domains), stands, at, engines)
    requires stands[0].hooks == start && |stands[0].tripped| == |domains| && at[|at| - 1] == |start| && Fresh(start)
    requires d < |domains| && domains[d].allMandatoryPrepared
    ensures var s, from := stands[|at| - 1], |stands[0].log|;
            && |s.hooks| == |start|
            && (MandatoryIn(start, d, {NoRoute}) || MandatoryIn(s.hooks, d, {FailedSafe, StalePlan}) ==>
                 forall j :: 0 <= j < |start| && start[j].spec.domain == Some(d) ==> !s.hooks[j].outcome.Prepared?)
            && (MandatoryIn(start, d, {NoRoute}) ==>
                 forall j :: 0 <= j < |start| && start[j].spec.domain == Some(d) ==> !AskedFor(s.log, from, start[j].id))
            && (!MandatoryIn(start, d, {NoRoute}) && !MandatoryIn(s.hooks, d, {FailedSafe, StalePlan}) ==>
                 forall j :: 0 <= j < |start| && start[j].spec.domain == Some(d) && start[j].outcome.Analyzed? ==>
                   if s.hooks[j].outcome.StalePlan? then ReachedStale(stands, at, j) else AskedFor(s.log, from, start[j].id))
  {
    hide PrepareRun, AskedFor, ReachedStale, GateSatisfied;
    var gate := OpenGates(start, domains)[d];
    GateExactly(start, domains, d);
    var last := |at| - 1;
    RunShape(domains, OpenGates(start, domains), stands, at, engines);
    KnownRun(start, stands, at, last, d, gate, domains, OpenGates(start, domains), engines);
    var s := stands[last];
    forall j | 0 <= j < |start| && start[j].spec.domain == Some(d)
      ensures Member(start[j], d)
      ensures gate && !s.tripped[d] ==> ReachedOrAsked(start, stands, at, s, |stands[0].log|, j)
    {
    }
  }

  lemma RunShape(domains: seq<Domain>, gateOk: seq<bool>, stands: seq<Stand>, at: seq<nat>, engines: seq<Engine>)
    requires PrepareRun(domains, gateOk, stands, at, engines)
    ensures |stands| == |at| > 0
  {
  }

  // The gate is shut exactly by a mandatory member without a route.
  lemma GateExactly(start: seq<Hook>, domains: seq<Domain>, d: nat)
    requires d < |domains| && domains[d].allMandatoryPrepared && Fresh(start)
    ensures GateSatisfied(start, domains, d) <==> !MandatoryIn(start, d, {NoRoute})
  {
    if MandatoryIn(start, d, {NoRoute}) {
      var j :| 0 <= j < |start| && start[j].spec.domain == Some(d) && start[j].spec.mandatory && start[j].outcome in {NoRoute};
      assert Member(start[j], d);
    }
  }

  // ---- hooks that no domain holds back ----

  /** The hook belongs to no domain, or to one that does not ask for its mandatory members. */
  predicate Loose(h: Hook, domains: seq<Domain>) {
    h.spec.domain.Some? ==> h.spec.domain.value < |domains| && !domains[h.spec.domain.value].allMandatoryPrepared
  }

  ghost predicate LooseKnown(start: seq<Hook>, stands: seq<Stand>, at: seq<nat>, s: Stand, k: nat, from: nat, domains: seq<Domain>) {
    && |s.hooks| == |start| && |s.tripped| == |domains| && from <= |s.log|
    && (forall j :: k <= j < |start| ==> s.hooks[j] == start[j])
    && (forall j :: 0 <= j < |start| ==> SameRequest(start[j], s.hooks[j]))
    && (forall d :: 0 <= d < |domains| && !domains[d].allMandatoryPrepared ==> !s.tripped[d])
    && (forall j :: 0 <= j < k && j < |start| && Loose(start[j], domains) ==> ReachedOrAsked(start, stands, at, s, from, j))
  }

  ghost predicate StillOpen(domains: seq<Domain>, gateOk: seq<bool>) {
    |gateOk| == |domains| && forall d :: 0 <= d < |domains| && !domains[d].allMandatoryPrepared ==> gateOk[d]
  }

  // What a wave has to show of the loose hooks.
  lemma LooseMore(start: seq<Hook>, stands: seq<Stand>, at: seq<nat>, s: Stand, t: Stand, k: nat, n: nat, from: nat,
                  domains: seq<Domain>)
    requires LooseKnown(start, stands, at, s, k, from, domains) && |t.hooks| == |start| && |t.tripped| == |domains|
    requires forall j :: k + n <= j < |start| ==> t.hooks[j] == s.hooks[j]
    requires forall j :: 0 <= j < |start| ==> SameRequest(s.hooks[j], t.hooks[j])
    requires forall j :: 0 <= j < k && j < |start| && Loose(start[j], domains) ==> t.hooks[j] == s.hooks[j]
    requires forall d :: 0 <= d < |domains| && !domains[d].allMandatoryPrepared ==> t.tripped[d] == s.tripped[d]
    requires |s.log| <= |t.log| && t.log[..|s.log|] == s.log
    requires forall j :: k <= j < k + n && j < |start| && Loose(start[j], domains) ==> ReachedOrAsked(start, stands, at, t, from, j)
    ensures LooseKnown(start, stands, at, t, k + n, from, domains)
  {
    hide AskedFor, ReachedStale, Loose;
    forall j | 0 <= j < k + n && j < |start| && Loose(start[j], domains)
      ensures ReachedOrAsked(start, stands, at, t, from, j)
    {
      if j < k {
        assert ReachedOrAsked(start, stands, at, s, from, j);
        MoreLog(s.log, t.log, from, start[j].id);
      }
    }
  }

  lemma LooseShape(start: seq<Hook>, stands: seq<Stand>, at: seq<nat>, s: Stand, k: nat, from: nat, domains: seq<Domain>)
    requires LooseKnown(start, stands, at, s, k, from, domains)
    ensures |s.hooks| == |start| && |s.tripped| == |domains| && from <= |s.log|
    ensures forall j :: k <= j < |start| ==> s.hooks[j] == start[j]
    ensures forall j :: 0 <= j < |start| ==> SameRequest(start[j], s.hooks[j])
    ensures forall d :: 0 <= d < |domains| && !domains[d].allMandatoryPrepared ==> !s.tripped[d]
  {
  }

  lemma LooseGroup(start: seq<Hook>, stands: seq<Stand>, at: seq<nat>, s: Stand, t: Stand, k: nat, n: nat, from: nat,
                   domains: seq<Domain>, engines: seq<Engine>)
    requires LooseKnown(start, stands, at, s, k, from, domains) && k < |start|
    requires Groups(s.hooks, k, s.generation, engines) && Spans(s.hooks, k, n, s.generation)
    requires exists accepted, given :: GroupHeard(s, t, k, n, engines, accepted, given)
    ensures LooseKnown(start, stands, at, t, k + n, from, domains)
  {
    hide LooseKnown, Attempted, IdsInOrder, Loose;
    var accepted, given :| GroupHeard(s, t, k, n, engines, accepted, given);
    LooseShape(start, stands, at, s, k, from, domains);
    forall j | k <= j < k + n
      ensures ReachedOrAsked(start, stands, at, t, from, j)
    {
      assert j == k || JoinsGroup(s.hooks[k], s.hooks[j], s.generation);
      AskedTogether(s, t, k, n, accepted, given, from, j);
    }
    LooseMore(start, stands, at, s, t, k, n, from, domains);
  }

  lemma AskedTogether(s: Stand, t: Stand, k: nat, n: nat, accepted: bool, given: seq<PrepareAnswer>, from: nat, j: nat)
    requires k + n <= |s.hooks| && k <= j < k + n && from <= |s.log|
    requires t.log == s.log + [GroupPrepareAsked(IdsInOrder(s.hooks[k..k + n]), accepted, given)]
    ensures AskedFor(t.log, from, s.hooks[j].id)
  {
    var ids := IdsInOrder(s.hooks[k..k + n]);
    assert ids[j - k] == s.hooks[k..k + n][j - k].id;
    assert Concerns(t.log[|s.log|], s.hooks[j].id);
  }

  // A step touches no other loose hook, and trips no domain that does not ask for it.
  lemma LooseStep(domains: seq<Domain>, gateOk: seq<bool>, s: Stand, t: Stand, k: nat, engines: seq<Engine>)
    requires PrepareStep(domains, gateOk, s, t, k, engines) && StillOpen(domains, gateOk) && |s.tripped| == |domains|
    requires s.hooks[k].outcome.Analyzed?
    requires forall d :: 0 <= d < |domains| && !domains[d].allMandatoryPrepared ==> !s.tripped[d]
    ensures |t.hooks| == |s.hooks| && |t.tripped| == |domains| && |s.log| <= |t.log| && t.log[..|s.log|] == s.log
    ensures forall j :: k < j < |s.hooks| && !s.hooks[j].outcome.Prepared? ==> t.hooks[j] == s.hooks[j]
    ensures forall j :: 0 <= j < |s.hooks| ==> SameRequest(s.hooks[j], t.hooks[j])
    ensures forall j :: 0 <= j < k && Loose(s.hooks[j], domains) ==> t.hooks[j] == s.hooks[j]
    ensures forall d :: 0 <= d < |domains| && !domains[d].allMandatoryPrepared ==> t.tripped[d] == s.tripped[d]
    ensures Loose(s.hooks[k], domains) ==> !Blocked(s.hooks[k], gateOk, s.tripped)
    ensures Loose(s.hooks[k], domains) && t.hooks[k].outcome.StalePlan? ==> s.hooks[k].generation != s.generation
    ensures Loose(s.hooks[k], domains) && s.hooks[k].generation != s.generation ==> t.hooks[k].outcome.StalePlan?
  {
    hide Settled, PreparedOutcome;
  }

  lemma LooseSingle(start: seq<Hook>, stands: seq<Stand>, at: seq<nat>, s: Stand, t: Stand, w: nat, from: nat,
                    domains: seq<Domain>, gateOk: seq<bool>, engines: seq<Engine>)
    requires w < |at| && w < |stands| && stands[w] == s && at[w] < |start| && Fresh(start)
    requires LooseKnown(start, stands, at, s, at[w], from, domains) && StillOpen(domains, gateOk) && s.hooks[at[w]].outcome.Analyzed?
    requires PrepareStep(domains, gateOk, s, t, at[w], engines)
    ensures LooseKnown(start, stands, at, t, at[w] + 1, from, domains)
  {
    hide LooseKnown, Attempted, AskedFor;
    var k := at[w];
    var was := s.hooks[k];
    LooseShape(start, stands, at, s, k, from, domains);
    LooseStep(domains, gateOk, s, t, k, engines);
    if was.generation != s.generation {
      assert ReachedStale(stands, at, k);
    } else if !Blocked(was, gateOk, s.tripped) {
      var a :| PrepareHeard(domains, gateOk, s, t, k, engines, a);
      AskedNow(s.log, was.id, a, from);
    }
    hide ReachedStale, PrepareStep, Trips, Settles;
    LooseMore(start, stands, at, s, t, k, 1, from, domains);
  }

  lemma {:induction false} LooseRun(start: seq<Hook>, stands: seq<Stand>, at: seq<nat>, w: nat, domains: seq<Domain>,
                                    gateOk: seq<bool>, engines: seq<Engine>)
    requires PrepareRun(domains, gateOk, stands, at, engines) && w < |at| && stands[0].hooks == start
    requires |stands[0].tripped| == |domains| && StillOpen(domains, gateOk) && Fresh(start)
    ensures LooseKnown(start, stands, at, stands[w], at[w], |stands[0].log|, domains)
  {
    hide PrepareWaveStep;
    if w > 0 {
      hide LooseKnown;
      LooseRun(start, stands, at, w - 1, domains, gateOk, engines);
      assert PrepareWaveStep(domains, gateOk, stands[w - 1], stands[w], at[w - 1], at[w] - at[w - 1], engines);
      LooseWave(start, stands, at, w - 1, |stands[0].log|, domains, gateOk, engines);
    }
  }

  lemma LooseWave(start: seq<Hook>, stands: seq<Stand>, at: seq<nat>, w: nat, from: nat, domains: seq<Domain>,
                  gateOk: seq<bool>, engines: seq<Engine>)
    requires w + 1 < |at| == |stands| && at[w] < at[w + 1] && Fresh(start)
    requires LooseKnown(start, stands, at, stands[w], at[w], from, domains) && StillOpen(domains, gateOk)
    requires PrepareWaveStep(domains, gateOk, stands[w], stands[w + 1], at[w], at[w + 1] - at[w], engines)
    ensures LooseKnown(start, stands, at, stands[w + 1], at[w + 1], from, domains)
  {
    hide LooseKnown, PrepareStep, Groups, Spans, GroupHeard, ReachedStale, AskedFor;
    var s, t, k := stands[w], stands[w + 1], at[w];
    LooseShape(start, stands, at, s, k, from, domains);
    if !s.hooks[k].outcome.Analyzed? {
      LooseMore(start, stands, at, s, t, k, 1, from, domains);
    } else if Groups(s.hooks, k, s.generation, engines) {
      LooseGroup(start, stands, at, s, t, k, at[w + 1] - k, from, domains, engines);
    } else {
      LooseSingle(start, stands, at, s, t, w, from, domains, gateOk, engines);
    }
  }

  /** No other routed hook is held back: each was reached after the image catalog had changed, or
      its engine was asked. */
  lemma LooseAsked(start: seq<Hook>, domains: seq<Domain>, stands: seq<Stand>, at: seq<nat>, engines: seq<Engine>, j: nat)
    requires PrepareRun(domains, OpenGates(start, domains), stands, at, engines)
    requires stands[0].hooks == start && |stands[0].tripped| == |domains| && at[|at| - 1] == |start| && Fresh(start)
    requires j < |start| && start[j].outcome.Analyzed?
    requires start[j].spec.domain.None? ||
             (start[j].spec.domain.value < |domains| && !domains[start[j].spec.domain.value].allMandatoryPrepared)
    ensures var s := stands[|at| - 1];
            && |s.hooks| == |start|
            && if s.hooks[j].outcome.StalePlan? then ReachedStale(stands, at, j)
               else AskedFor(s.log, |stands[0].log|, start[j].id)
  {
    hide PrepareRun, AskedFor, ReachedStale;
    var last := |at| - 1;
    RunShape(domains, OpenGates(start, domains), stands, at, engines);
    LooseRun(start, stands, at, last, domains, OpenGates(start, domains), engines);
    assert Loose(start[j], domains);
  }

  // ---- groups ----

  /** A hook that may be prepared in one call with others. */
  predicate Joinable(h: Hook, engine: nat) {
    h.outcome.Analyzed? && h.spec.domain == None && h.engine == Some(engine)
  }

  ghost predicate Led(hooks: seq<Hook>, i: nat, e: nat, engines: seq<Engine>, generation: nat) {
    && i + 1 < |hooks| && e < |engines| && engines[e].groupsPrepare && engines[e].candidate.caps.grouping
    && Joinable(hooks[i], e) && Joinable(hooks[i + 1], e) && hooks[i + 1].generation == generation
  }

  /** A wave is a group exactly if its first two hooks may go into one call and the second is current;
      then it is made of as many such hooks as follow one another, and makes one call for them. */
  lemma GroupsExactly(domains: seq<Domain>, gateOk: seq<bool>, s: Stand, t: Stand, i: nat, n: nat, engines: seq<Engine>)
    requires PrepareWaveStep(domains, gateOk, s, t, i, n, engines) && s.hooks[i].outcome.Analyzed?
    ensures n > 1 <==> exists e: nat :: Led(s.hooks, i, e, engines, s.generation)
    ensures n > 1 ==>
              && s.hooks[i].engine.Some? && i + n <= |s.hooks| && Joinable(s.hooks[i], s.hooks[i].engine.value)
              && (forall j :: i < j < i + n ==>
                    Joinable(s.hooks[j], s.hooks[i].engine.value) && s.hooks[j].generation == s.generation)
              && (i + n < |s.hooks| ==>
                    !(Joinable(s.hooks[i + n], s.hooks[i].engine.value) && s.hooks[i + n].generation == s.generation))
              && |t.log| == |s.log| + 1 && t.log[..|s.log|] == s.log && t.log[|s.log|].GroupPrepareAsked?
              && |t.log[|s.log|].ids| == n && forall j :: 0 <= j < n ==> t.log[|s.log|].ids[j] == s.hooks[i + j].id
  {
    hide Taken, PrepareStep;
    if Groups(s.hooks, i, s.generation, engines) {
      var accepted, given :| GroupHeard(s, t, i, n, engines, accepted, given);
      assert t.log[|s.log|] == GroupPrepareAsked(IdsInOrder(s.hooks[i..i + n]), accepted, given);
      forall j | i < j < i + n
        ensures Joinable(s.hooks[j], s.hooks[i].engine.value) && s.hooks[j].generation == s.generation
      {
        assert JoinsGroup(s.hooks[i], s.hooks[j], s.generation);
      }
      assert Led(s.hooks, i, s.hooks[i].engine.value, engines, s.generation);
    }
  }

  /** What an engine's answer makes of a hook, alone or in a group that is not refused. */
  lemma AttemptExactly(h: Hook, caps: Caps, a: PrepareAnswer)
    ensures var out, declared := Attempted(h, caps, a), a.effects <= caps.prepareEffects;
            && (out.outcome.Prepared? <==> declared && a.result.PrepareOk? && a.inspected)
            && (out.outcome.Pending? <==> declared && a.result.NotApplicable? && h.spec.deferred)
            && (out.outcome.NoRoute? <==> declared && a.result.NotApplicable? && !h.spec.deferred)
            && (out.outcome.FailedSafe? <==> !declared || a.result.PrepareFailed? || (a.result.PrepareOk? && !a.inspected))
            && out.prepared == if out.outcome.Prepared? then a.handle else None
  {
  }
}
