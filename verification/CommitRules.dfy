/** Committing the hooks of a plan: what the loop of hk_plan_commit does at each hook, and what it
    maintains. */
module CommitRules {
  import opened Options
  import opened Mutations
  import opened Routing
  import opened CommitOrder
  import opened Hooks
  import opened PlanRules

  // ---- committing ----

  const Ended: set<Outcome> := {Active, FailedSafe, FailedPartial, FailedUnknown, Conflict, StalePlan, Compensated}

  /** A hook as an attempt to commit it leaves it. */
  function Committed(h: Hook, caps: Caps, owner: Option<Owner>, a: CommitAnswer): Hook {
    var m := Verdict(caps, owner, a);
    h.(outcome := CommittedOutcome(m), mutation := m, commitEffects := a.effects,
       verified := m.Complete? && a.verification.Verified?,
       original := if m.Complete? then a.published else 0)
  }

  /** What an engine's answer makes of a hook that is committed alone. */
  lemma CommittedExactly(h: Hook, caps: Caps, owner: Option<Owner>, a: CommitAnswer)
    ensures var out, declared := Committed(h, caps, owner, a), a.effects <= caps.commitEffects;
            && (out.outcome.Active? <==>
                 && a.mutation.Complete? && declared && !a.recordFailed && !a.verification.VerifyFailed?
                 && (owner.Some? ==> a.published == owner.value.head))
            && (out.outcome.FailedSafe? <==> a.mutation.Unmutated? && declared)
            && (out.outcome.FailedPartial? <==> a.mutation.Partial? && declared)
            && out.outcome in {Active, FailedSafe, FailedPartial, FailedUnknown}
            && out.original == (if out.outcome.Active? then a.published else 0)
            && (out.verified <==> out.outcome.Active? && a.verification.Verified?)
            && out.commitEffects == a.effects
  {
  }

  /** A target that is owned can only be taken further by the engine that owns it. */
  predicate Chainable(caps: Caps, kind: TargetKind, owner: Option<Owner>) {
    owner.None? || (kind in caps.chainable && caps.id == owner.value.engine)
  }

  predicate ReadyForDomain(hooks: seq<Hook>, h: Hook, d: nat) {
    forall e :: e in h.spec.after && e < |hooks| ==>
      hooks[e].outcome.Active? || (Member(hooks[e], d) && hooks[e].outcome.Prepared?)
  }

  /** Every mandatory member is prepared, current, and waits for nothing outside the domain. */
  predicate Preflight(hooks: seq<Hook>, d: nat, generation: nat) {
    forall i :: 0 <= i < |hooks| && Member(hooks[i], d) && hooks[i].spec.mandatory ==>
      hooks[i].outcome.Prepared? && hooks[i].generation == generation && ReadyForDomain(hooks, hooks[i], d)
  }

  predicate DependenciesActive(hooks: seq<Hook>, h: Hook) {
    forall e :: e in h.spec.after && e < |hooks| ==> hooks[e].outcome.Active?
  }

  /** The plan as a domain was about to be entered. */
  datatype Check = Check(hooks: seq<Hook>, generation: nat)

  predicate Committing(before: Hook, h: Hook) {
    && SameRequest(before, h) && h.prepared == before.prepared && Declared(h)
    && (h.outcome.Prepared? || !before.outcome.Prepared? ==> h == before)
    && (before.outcome.Prepared? && !h.outcome.Prepared? ==> h.outcome in Ended)
  }

  /** Hooks that were not prepared are as they were; of the others some have ended. */
  ghost predicate CommitUnderway(start: seq<Hook>, hooks: seq<Hook>) {
    |start| == |hooks| && forall j :: 0 <= j < |hooks| ==> Committing(start[j], hooks[j])
  }

  ghost predicate Orders(start: seq<Hook>, order: seq<nat>) {
    && (forall l :: 0 <= l < |order| ==> order[l] < |start| && start[order[l]].outcome.Prepared?)
    && (forall j :: 0 <= j < |start| && start[j].outcome.Prepared? ==> j in order)
  }

  ghost predicate Past(hooks: seq<Hook>, order: seq<nat>, k: nat) {
    k <= |order| && forall l :: 0 <= l < k ==> order[l] < |hooks| && !hooks[order[l]].outcome.Prepared?
  }

  /** What is known of the domains entered so far. None was entered unless its preflight had
      passed on members nothing had touched yet. */
  ghost predicate Checked(start: seq<Hook>, hooks: seq<Hook>, order: seq<nat>, k: nat, checks: map<nat, Check>,
                          was: set<nat>, dispatched: set<nat>)
  {
    && (forall l :: 0 <= l < k && l < |order| && order[l] < |start| && start[order[l]].spec.domain.Some? ==>
          start[order[l]].spec.domain.value in checks)
    && (forall d :: d in checks ==>
          && |checks[d].hooks| == |start|
          && (forall j :: 0 <= j < |start| && Member(start[j], d) ==> checks[d].hooks[j] == start[j])
          && (!Preflight(checks[d].hooks, d, checks[d].generation) ==> NonePrepared(hooks, d)))
    && (forall j, d :: 0 <= j < |hooks| && j < |start| && Member(start[j], d) && d !in checks ==> hooks[j] == start[j])
    && EnteredRightly(hooks, checks, was, dispatched)
  }

  /** Whatever was dispatched meanwhile belongs to no domain, or to one whose preflight passed. */
  ghost predicate EnteredRightly(hooks: seq<Hook>, checks: map<nat, Check>, was: set<nat>, dispatched: set<nat>) {
    forall j, d :: 0 <= j < |hooks| && Member(hooks[j], d) && hooks[j].id in dispatched && hooks[j].id !in was ==>
      d in checks && Preflight(checks[d].hooks, d, checks[d].generation)
  }

  lemma EndsOne(start: seq<Hook>, hooks: seq<Hook>, i: nat, h: Hook, domains: nat, engines: seq<Engine>, nextId: nat,
                dispatched: set<nat>, dispatched': set<nat>)
    requires CommitUnderway(start, hooks) && Shape(hooks, domains, engines, nextId) && Supported(hooks)
    requires Undispatched(hooks, dispatched) && i < |hooks| && hooks[i].outcome.Prepared?
    requires SameRequest(hooks[i], h) && h.prepared == hooks[i].prepared && Declared(h) && h.outcome in Ended
    requires h.outcome.Active? ==> DependenciesActive(hooks, h)
    requires dispatched' <= dispatched + {h.id}
    ensures CommitUnderway(start, hooks[i := h]) && Shape(hooks[i := h], domains, engines, nextId)
    ensures Supported(hooks[i := h]) && Undispatched(hooks[i := h], dispatched')
  {
    hide Violates;
    assert Committing(start[i], hooks[i]) && WellPlaced(hooks[i], i, domains, engines, nextId);
    var after := hooks[i := h];
    forall j | 0 <= j < |hooks|
      ensures WellPlaced(after[j], j, domains, engines, nextId)
    {
      assert WellPlaced(hooks[j], j, domains, engines, nextId);
    }
    forall j, k | 0 <= j < k < |hooks|
      ensures Distinct(after[j], after[k])
    {
      assert Distinct(hooks[j], hooks[k]);
    }
    forall j | 0 <= j < |hooks| && j != i
      ensures hooks[j].id != h.id
    {
      assert if i < j then Distinct(hooks[i], hooks[j]) else Distinct(hooks[j], hooks[i]);
    }
  }

  // A dispatched member's domain had passed its preflight.
  lemma CheckedOne(start: seq<Hook>, hooks: seq<Hook>, order: seq<nat>, k: nat, checks: map<nat, Check>, was: set<nat>,
                   dispatched: set<nat>, dispatched': set<nat>, h: Hook, domains: nat, engines: seq<Engine>, nextId: nat)
    requires Checked(start, hooks, order, k, checks, was, dispatched) && Shape(hooks, domains, engines, nextId)
    requires CommitUnderway(start, hooks) && k < |order| && order[k] < |hooks|
    requires SameRequest(hooks[order[k]], h) && !h.outcome.Prepared?
    requires dispatched' <= dispatched + {h.id}
    requires h.spec.domain.Some? ==>
               var d := h.spec.domain.value; d in checks && Preflight(checks[d].hooks, d, checks[d].generation)
    ensures Checked(start, hooks[order[k] := h], order, k + 1, checks, was, dispatched')
  {
    hide Violates, Preflight;
    var i := order[k];
    assert Committing(start[i], hooks[i]);
    forall j | 0 <= j < |hooks| && j != i
      ensures hooks[j].id != h.id
    {
      assert if i < j then Distinct(hooks[i], hooks[j]) else Distinct(hooks[j], hooks[i]);
    }
    forall j | 0 <= j < |hooks|
      ensures SameRequest(start[j], hooks[j])
    {
      assert Committing(start[j], hooks[j]);
    }
  }

  lemma PastOne(hooks: seq<Hook>, order: seq<nat>, k: nat, h: Hook)
    requires Past(hooks, order, k) && k < |order| && order[k] < |hooks| && !h.outcome.Prepared?
    ensures Past(hooks[order[k] := h], order, k + 1)
  {
  }

  predicate Seen(start: seq<Hook>, order: seq<nat>, k: nat, d: nat) {
    exists l :: 0 <= l < k && l < |order| && order[l] < |start| && Member(start[order[l]], d)
  }

  ghost predicate OnlySeen(start: seq<Hook>, order: seq<nat>, k: nat, checks: map<nat, Check>) {
    forall d :: d in checks ==> Seen(start, order, k, d)
  }

  function Marked(h: Hook, generation: nat): Hook {
    h.(outcome := if h.generation != generation then StalePlan else FailedSafe, mutation := Unmutated)
  }

  /** The prepared members of a domain whose preflight failed are refused before any is tried. */
  ghost predicate Marks(before: seq<Hook>, after: seq<Hook>, d: nat, generation: nat, n: nat) {
    && |before| == |after|
    && forall j :: 0 <= j < |before| ==>
         after[j] == if j < n && Member(before[j], d) && before[j].outcome.Prepared? then Marked(before[j], generation) else before[j]
  }

  lemma MarkedStays(start: seq<Hook>, hooks: seq<Hook>, after: seq<Hook>, d: nat, generation: nat, domains: nat,
                    engines: seq<Engine>, nextId: nat, dispatched: set<nat>)
    requires CommitUnderway(start, hooks) && Shape(hooks, domains, engines, nextId) && Supported(hooks)
    requires Undispatched(hooks, dispatched) && Marks(hooks, after, d, generation, |hooks|)
    ensures CommitUnderway(start, after) && Shape(after, domains, engines, nextId) && Supported(after)
    ensures Undispatched(after, dispatched)
  {
    hide Violates;
    forall j | 0 <= j < |hooks|
      ensures Committing(start[j], after[j]) && WellPlaced(after[j], j, domains, engines, nextId)
    {
      assert Committing(start[j], hooks[j]) && WellPlaced(hooks[j], j, domains, engines, nextId);
    }
    forall j, k | 0 <= j < k < |hooks|
      ensures Distinct(after[j], after[k])
    {
      assert Distinct(hooks[j], hooks[k]);
    }
  }

  /** Entering a domain nothing of which has been visited: its preflight passes, or none of its
      members is left to be tried. */
  lemma Enter(start: seq<Hook>, hooks: seq<Hook>, after: seq<Hook>, order: seq<nat>, k: nat, checks: map<nat, Check>,
              was: set<nat>, dispatched: set<nat>, d: nat, generation: nat)
    requires Checked(start, hooks, order, k, checks, was, dispatched) && CommitUnderway(start, hooks) && d !in checks
    requires if Preflight(hooks, d, generation) then after == hooks else Marks(hooks, after, d, generation, |hooks|)
    ensures Checked(start, after, order, k, checks[d := Check(hooks, generation)], was, dispatched)
  {
    hide Violates, Preflight;
    forall j | 0 <= j < |hooks|
      ensures SameRequest(start[j], hooks[j]) && SameRequest(hooks[j], after[j])
    {
      assert Committing(start[j], hooks[j]);
    }
  }

  // ---- the commit loop, step by step ----

  /** Where the loop stands. */
  datatype Scene = Scene(hooks: seq<Hook>, world: World)

  function OwnerIn(ledger: map<Key, Owner>, key: Key): Option<Owner> {
    if key in ledger then Some(ledger[key]) else None
  }

  /** A target owned by somebody who cannot be chained to makes a conflict and nobody is asked;
      otherwise the hook becomes what the engine's answer makes of it, and the target's head moves
      exactly when the hook ends active. */
  ghost predicate CommitHeard(h: Hook, done: Hook, caps: Caps, w: World, w': World, a: CommitAnswer) {
    var owner := OwnerIn(w.ledger, h.spec.key);
    && CommitsTo(h, done, caps, owner, a, w.dispatched, w'.dispatched, w.ledger, w'.ledger, w.chains, w'.chains)
    && if Chainable(caps, h.spec.request.kind, owner) then w'.log == w.log + [CommitAsked(h.id, a)]
       else w'.log == w.log && w'.generation == w.generation
  }

  ghost predicate CommitHeardAt(s: Scene, t: Scene, i: nat, engines: seq<Engine>, a: CommitAnswer) {
    && i < |s.hooks| == |t.hooks| && t.hooks == s.hooks[i := t.hooks[i]]
    && s.hooks[i].engine.Some? && s.hooks[i].engine.value < |engines|
    && CommitHeard(s.hooks[i], t.hooks[i], engines[s.hooks[i].engine.value].candidate.caps, s.world, t.world, a)
    && Answerable(engines[s.hooks[i].engine.value].verifies, a)
  }

  /** A hook whose domain lets it: a stale one is refused without being attempted, one that waits
      for an inactive hook without asking. */
  ghost predicate CurrentStep(s: Scene, t: Scene, i: nat, engines: seq<Engine>) {
    i < |s.hooks| &&
    var h := s.hooks[i];
    if h.generation != s.world.generation then t == s.(hooks := s.hooks[i := h.(outcome := StalePlan)])
    else if !DependenciesActive(s.hooks, h) then t == s.(hooks := s.hooks[i := Marked(h, s.world.generation)])
    else exists a :: CommitHeardAt(s, t, i, engines, a)
  }

  predicate FirstVisit(start: seq<Hook>, order: seq<nat>, k: nat, h: Hook) {
    h.spec.domain.Some? && !Seen(start, order, k, h.spec.domain.value)
  }

  /** The hook at position `k`: passed over if it is settled, refused with its domain if that is
      entered here and must not be. */
  ghost predicate CommitStep(start: seq<Hook>, s: Scene, t: Scene, order: seq<nat>, k: nat, engines: seq<Engine>) {
    k < |order| && order[k] < |s.hooks| &&
    var h := s.hooks[order[k]];
    if !h.outcome.Prepared? then t == s
    else if FirstVisit(start, order, k, h) && !Preflight(s.hooks, h.spec.domain.value, s.world.generation) then
      t.world == s.world && Marks(s.hooks, t.hooks, h.spec.domain.value, s.world.generation, |s.hooks|)
    else CurrentStep(s, t, order[k], engines)
  }

  /** How many of the hooks that were prepared now have one of these outcomes. */
  function Moved(start: seq<Hook>, hooks: seq<Hook>, outcomes: set<Outcome>, n: nat): nat
    requires n <= |start| && n <= |hooks|
  {
    if n == 0 then 0
    else Moved(start, hooks, outcomes, n - 1) +
         (if start[n - 1].outcome.Prepared? && hooks[n - 1].outcome in outcomes then 1 else 0)
  }

  lemma {:induction false} MovedOne(start: seq<Hook>, hooks: seq<Hook>, i: nat, h: Hook, outcomes: set<Outcome>, n: nat)
    requires i < |hooks| == |start| && n <= |start| && start[i].outcome.Prepared? && hooks[i].outcome !in outcomes
    ensures Moved(start, hooks[i := h], outcomes, n) ==
            Moved(start, hooks, outcomes, n) + (if i < n && h.outcome in outcomes then 1 else 0)
  {
    if n == 0 {
    } else {
      MovedOne(start, hooks, i, h, outcomes, n - 1);
    }
  }

  lemma {:induction false} MovedNone(start: seq<Hook>, hooks: seq<Hook>, outcomes: set<Outcome>, n: nat)
    requires n <= |hooks| == |start|
    ensures Moved(start, hooks, outcomes, n) == 0 <==>
            forall j :: 0 <= j < n && start[j].outcome.Prepared? ==> hooks[j].outcome !in outcomes
  {
    if n == 0 {
    } else {
      MovedNone(start, hooks, outcomes, n - 1);
    }
  }

  const Lost: set<Outcome> := {FailedSafe, FailedPartial, FailedUnknown, Conflict, StalePlan, Compensated}

  ghost predicate CommitTally(start: seq<Hook>, hooks: seq<Hook>, attempted: nat, active: nat, failed: nat) {
    && |hooks| == |start|
    && active == Moved(start, hooks, {Active}, |start|) && failed == Moved(start, hooks, Lost, |start|)
    && (attempted == 0 ==> forall j :: 0 <= j < |start| && start[j].outcome.Prepared? ==> hooks[j].outcome in {Outcome.Prepared, StalePlan})
  }

  lemma TallyOne(start: seq<Hook>, hooks: seq<Hook>, i: nat, h: Hook, attempted: nat, active: nat, failed: nat, tried: bool)
    requires CommitTally(start, hooks, attempted, active, failed) && i < |hooks|
    requires start[i].outcome.Prepared? && hooks[i].outcome.Prepared? && h.outcome in Ended
    requires !tried ==> h.outcome.StalePlan?
    ensures CommitTally(start, hooks[i := h], if tried then attempted + 1 else attempted,
                        if h.outcome.Active? then active + 1 else active, if h.outcome.Active? then failed else failed + 1)
  {
    MovedOne(start, hooks, i, h, {Active}, |start|);
    MovedOne(start, hooks, i, h, Lost, |start|);
  }

  /** Everything the commit loop maintains, with `k` hooks of the order behind it. */
  ghost predicate Stage(start: seq<Hook>, hooks: seq<Hook>, order: seq<nat>, k: nat, checks: map<nat, Check>, was: set<nat>,
                        dispatched: set<nat>, domains: nat, engines: seq<Engine>, nextId: nat)
  {
    && CommitUnderway(start, hooks) && Shape(hooks, domains, engines, nextId) && Supported(hooks)
    && Undispatched(hooks, dispatched) && Orders(start, order) && Past(hooks, order, k)
    && Checked(start, hooks, order, k, checks, was, dispatched)
    && dispatched <= was + PreparedIds(start)
  }

  function PreparedIds(hooks: seq<Hook>): set<nat> {
    set i | 0 <= i < |hooks| && hooks[i].outcome.Prepared? :: hooks[i].id
  }

  lemma StageOne(start: seq<Hook>, hooks: seq<Hook>, order: seq<nat>, k: nat, checks: map<nat, Check>, was: set<nat>,
                 dispatched: set<nat>, dispatched': set<nat>, h: Hook, domains: nat, engines: seq<Engine>, nextId: nat)
    requires Stage(start, hooks, order, k, checks, was, dispatched, domains, engines, nextId)
    requires k < |order| && order[k] < |hooks| && hooks[order[k]].outcome.Prepared?
    requires SameRequest(hooks[order[k]], h) && h.prepared == hooks[order[k]].prepared && Declared(h) && h.outcome in Ended
    requires h.outcome.Active? ==> DependenciesActive(hooks, h)
    requires dispatched' <= dispatched + {h.id}
    requires h.spec.domain.Some? ==>
               var d := h.spec.domain.value; d in checks && Preflight(checks[d].hooks, d, checks[d].generation)
    ensures Stage(start, hooks[order[k] := h], order, k + 1, checks, was, dispatched', domains, engines, nextId)
  {
    StartedPrepared(start, hooks, order[k]);
    hide CommitUnderway, Shape, Supported, Undispatched, Orders, Past, Checked, Preflight, DependenciesActive, PreparedIds;
    EndsOne(start, hooks, order[k], h, domains, engines, nextId, dispatched, dispatched');
    CheckedOne(start, hooks, order, k, checks, was, dispatched, dispatched', h, domains, engines, nextId);
    PastOne(hooks, order, k, h);
  }

  lemma StillSeen(start: seq<Hook>, order: seq<nat>, k: nat, checks: map<nat, Check>, checks': map<nat, Check>)
    requires OnlySeen(start, order, k, checks)
    requires forall d :: d in checks' ==> d in checks || (k < |order| && order[k] < |start| && Member(start[order[k]], d))
    ensures OnlySeen(start, order, k + 1, checks')
  {
    forall d | d in checks'
      ensures Seen(start, order, k + 1, d)
    {
      if d in checks {
        assert Seen(start, order, k, d);
      }
    }
  }

  lemma StartedPrepared(start: seq<Hook>, hooks: seq<Hook>, i: nat)
    requires CommitUnderway(start, hooks) && i < |hooks| && hooks[i].outcome.Prepared?
    ensures hooks[i].id in PreparedIds(start)
  {
    assert Committing(start[i], hooks[i]);
  }

  // A hook that was refused with its domain, or otherwise ended, is passed over.
  lemma StageSkip(start: seq<Hook>, hooks: seq<Hook>, order: seq<nat>, k: nat, checks: map<nat, Check>, was: set<nat>,
                  dispatched: set<nat>, domains: nat, engines: seq<Engine>, nextId: nat)
    requires Stage(start, hooks, order, k, checks, was, dispatched, domains, engines, nextId)
    requires k < |order| && order[k] < |hooks| && !hooks[order[k]].outcome.Prepared?
    ensures Stage(start, hooks, order, k + 1, checks, was, dispatched, domains, engines, nextId)
  {
    assert Committing(start[order[k]], hooks[order[k]]);
  }

  lemma VisitedSame(start: seq<Hook>, hooks: seq<Hook>, order: seq<nat>, k: nat)
    requires CommitUnderway(start, hooks) && Past(hooks, order, k)
    ensures |start| == |hooks| && forall j :: 0 <= j < |hooks| ==> hooks[j].spec == start[j].spec
    ensures k <= |order| && forall l :: 0 <= l < k ==> order[l] < |hooks|
  {
    forall j | 0 <= j < |hooks|
      ensures hooks[j].spec == start[j].spec
    {
      assert Committing(start[j], hooks[j]);
    }
  }

  lemma NotSeen(start: seq<Hook>, order: seq<nat>, k: nat, checks: map<nat, Check>, d: nat)
    requires OnlySeen(start, order, k, checks) && !Seen(start, order, k, d)
    ensures d !in checks
  {
  }

  // A member still prepared in a domain that was visited: the domain had been entered.
  lemma VisitedDomain(start: seq<Hook>, hooks: seq<Hook>, order: seq<nat>, k: nat, checks: map<nat, Check>, was: set<nat>,
                      dispatched: set<nat>, d: nat)
    requires Checked(start, hooks, order, k, checks, was, dispatched) && Seen(start, order, k, d)
    requires exists i :: 0 <= i < |hooks| && Member(hooks[i], d) && hooks[i].outcome.Prepared?
    ensures d in checks && Preflight(checks[d].hooks, d, checks[d].generation)
  {
    hide Preflight;
    assert !NonePrepared(hooks, d);
  }

  lemma MarkedPast(hooks: seq<Hook>, after: seq<Hook>, order: seq<nat>, k: nat, d: nat, generation: nat, i: nat)
    requires Marks(hooks, after, d, generation, |hooks|) && Past(hooks, order, k)
    requires i < |hooks| && Member(hooks[i], d)
    ensures Past(after, order, k) && |after| == |hooks| && !after[i].outcome.Prepared?
    ensures forall j :: 0 <= j < |hooks| ==> after[j] == hooks[j] || !after[j].outcome.Active?
  {
  }

  /** A new head on its target's chain. */
  function Extended(chains: map<Key, seq<Link>>, h: Hook): map<Key, seq<Link>> {
    chains[h.spec.key := (if h.spec.key in chains then chains[h.spec.key] else []) + [Link(h.spec.replacement, h.original)]]
  }

  /** The chain of its target records what every newly active hook installed over what. */
  ghost predicate Linked(start: seq<Hook>, hooks: seq<Hook>, chains: map<Key, seq<Link>>) {
    forall j :: 0 <= j < |hooks| && j < |start| && start[j].outcome.Prepared? && hooks[j].outcome.Active? ==>
      hooks[j].spec.key in chains && Link(hooks[j].spec.replacement, hooks[j].original) in chains[hooks[j].spec.key]
  }

  lemma LinkedStays(start: seq<Hook>, before: seq<Hook>, after: seq<Hook>, chains: map<Key, seq<Link>>)
    requires Linked(start, before, chains) && |before| == |after|
    requires forall j :: 0 <= j < |after| ==> after[j] == before[j] || !after[j].outcome.Active?
    ensures Linked(start, after, chains)
  {
  }

  lemma LinkedOne(start: seq<Hook>, hooks: seq<Hook>, i: nat, h: Hook, chains: map<Key, seq<Link>>, chains': map<Key, seq<Link>>)
    requires Linked(start, hooks, chains) && i < |hooks| && hooks[i].spec == h.spec
    requires chains' == if h.outcome.Active? then Extended(chains, h) else chains
    ensures Linked(start, hooks[i := h], chains')
  {
    if h.outcome.Active? {
      var links := chains'[h.spec.key];
      assert links[|links| - 1] == Link(h.spec.replacement, h.original);
    }
  }

  lemma CommittedEnds(h: Hook, caps: Caps, owner: Option<Owner>, a: CommitAnswer)
    ensures var out := Committed(h, caps, owner, a);
            && out.outcome in Ended && SameRequest(h, out) && out.prepared == h.prepared
            && (out.outcome.Active? ==> out.commitEffects <= caps.commitEffects)
            && out.prepareEffects == h.prepareEffects
  {
  }

  // What a hook that is still to be visited is known to be.
  lemma StageHook(start: seq<Hook>, hooks: seq<Hook>, order: seq<nat>, k: nat, checks: map<nat, Check>, was: set<nat>,
                  dispatched: set<nat>, domains: nat, engines: seq<Engine>, nextId: nat)
    requires Stage(start, hooks, order, k, checks, was, dispatched, domains, engines, nextId)
    requires k < |order| && order[k] < |hooks| && hooks[order[k]].outcome.Prepared?
    ensures var h := hooks[order[k]];
            && |start| == |hooks| && start[order[k]] == h && WellPlaced(h, order[k], domains, engines, nextId)
            && h.id !in dispatched && (h.spec.domain.Some? ==> Member(h, h.spec.domain.value))
  {
    assert Committing(start[order[k]], hooks[order[k]]);
  }

  // A hook that ends without an engine having been asked.
  lemma EndedOne(start: seq<Hook>, hooks: seq<Hook>, order: seq<nat>, k: nat, checks: map<nat, Check>, was: set<nat>,
                 dispatched: set<nat>, h: Hook, domains: nat, engines: seq<Engine>, nextId: nat,
                 attempted: nat, active: nat, failed: nat, tried: bool, chains: map<Key, seq<Link>>)
    requires Stage(start, hooks, order, k, checks, was, dispatched, domains, engines, nextId)
    requires CommitTally(start, hooks, attempted, active, failed) && Linked(start, hooks, chains)
    requires k < |order| && order[k] < |hooks| && hooks[order[k]].outcome.Prepared? && start[order[k]].outcome.Prepared?
    requires SameRequest(hooks[order[k]], h) && h.prepared == hooks[order[k]].prepared && h.outcome in {StalePlan, FailedSafe}
    requires !tried ==> h.outcome.StalePlan?
    requires h.spec.domain.Some? ==>
               var d := h.spec.domain.value; d in checks && Preflight(checks[d].hooks, d, checks[d].generation)
    ensures Stage(start, hooks[order[k] := h], order, k + 1, checks, was, dispatched, domains, engines, nextId)
    ensures CommitTally(start, hooks[order[k] := h], if tried then attempted + 1 else attempted, active, failed + 1)
    ensures Linked(start, hooks[order[k] := h], chains)
  {
    hide Stage, CommitTally, Preflight, Linked;
    StageOne(start, hooks, order, k, checks, was, dispatched, dispatched, h, domains, engines, nextId);
    TallyOne(start, hooks, order[k], h, attempted, active, failed, tried);
    LinkedOne(start, hooks, order[k], h, chains, chains);
  }

  // ---- committing one hook ----

  /** How a single commit ends: refused as a conflict without asking, or as the engine's answer
      has it; the target's head moves exactly when the hook ends active. */
  ghost predicate CommitsTo(h: Hook, done: Hook, caps: Caps, owner: Option<Owner>, a: CommitAnswer,
                            dispatched: set<nat>, dispatched': set<nat>, ledger: map<Key, Owner>, ledger': map<Key, Owner>,
                            chains: map<Key, seq<Link>>, chains': map<Key, seq<Link>>)
  {
    if !Chainable(caps, h.spec.request.kind, owner) then
      && done == h.(outcome := Conflict, mutation := Unmutated)
      && dispatched' == dispatched && ledger' == ledger && chains' == chains
    else
      && done == Committed(h, caps, owner, a) && dispatched' == dispatched + {h.id}
      && if done.outcome.Active? then
           && chains' == Extended(chains, done) && (owner.Some? ==> done.original == owner.value.head)
           && ledger' == ledger[h.spec.key := Owner(if owner.Some? then owner.value.engine else caps.id, h.spec.replacement, done.original)]
         else
           ledger' == ledger && chains' == chains
  }

  /** Commits one hook; if its engine is asked, it replies as given. */
  method CommitHook(runtime: Runtime, h: Hook, reply: CommitAnswer) returns (done: Hook, ghost a: CommitAnswer)
    requires runtime.Valid() && Matched(h, runtime.engines) && h.id < runtime.nextId && h.id !in runtime.dispatched
    modifies runtime`generation, runtime`log, runtime`dispatched, runtime`ledger, runtime`chains
    ensures runtime.Valid()
    ensures CommitsTo(h, done, runtime.CapsOf(h), old(runtime.OwnerOf(h.spec.key)), a, old(runtime.dispatched), runtime.dispatched,
                      old(runtime.ledger), runtime.ledger, old(runtime.chains), runtime.chains)
    ensures CommitHeard(h, done, runtime.CapsOf(h), old(runtime.Now()), runtime.Now(), a)
    ensures a == Heard(runtime.engines[h.engine.value].verifies, reply)
  {
    var caps, owner := runtime.CapsOf(h), runtime.OwnerOf(h.spec.key);
    a := Heard(runtime.engines[h.engine.value].verifies, reply);
    if !Chainable(caps, h.spec.request.kind, owner) {
      done := h.(outcome := Conflict, mutation := Unmutated);
      return;
    }
    var answer := runtime.AskCommit(h, reply);
    done := Committed(h, caps, owner, answer);
    if done.mutation.Complete? {
      VerdictIsHonest(caps, owner, answer);
      runtime.RecordOwner(h.spec.key, caps.id, h.spec.replacement, answer.published);
    }
  }

  lemma CommitsFacts(h: Hook, done: Hook, caps: Caps, owner: Option<Owner>, a: CommitAnswer,
                     dispatched: set<nat>, dispatched': set<nat>, ledger: map<Key, Owner>, ledger': map<Key, Owner>,
                     chains: map<Key, seq<Link>>, chains': map<Key, seq<Link>>)
    requires CommitsTo(h, done, caps, owner, a, dispatched, dispatched', ledger, ledger', chains, chains')
    ensures SameRequest(h, done) && done.prepared == h.prepared && done.prepareEffects == h.prepareEffects
    ensures done.outcome in {FailedSafe, Conflict, Active, FailedPartial, FailedUnknown}
    ensures done.outcome.Active? ==> done.commitEffects <= caps.commitEffects
    ensures dispatched <= dispatched' <= dispatched + {h.id}
    ensures chains' == if done.outcome.Active? then Extended(chains, done) else chains
  {
  }

  // ---- before and after the loop ----

  function Slots(hooks: seq<Hook>, domains: seq<Domain>): (slots: seq<Slot>)
    requires forall i :: 0 <= i < |hooks| && hooks[i].spec.domain.Some? ==> hooks[i].spec.domain.value < |domains|
    ensures |slots| == |hooks|
    ensures forall i :: 0 <= i < |hooks| ==> slots[i].prepared == hooks[i].outcome.Prepared? && slots[i].after == hooks[i].spec.after
  {
    seq(|hooks|, i requires 0 <= i < |hooks| =>
      Slot(hooks[i].outcome.Prepared?, if hooks[i].spec.domain.Some? then domains[hooks[i].spec.domain.value].order else 0,
           hooks[i].spec.commitOrder, hooks[i].spec.after))
  }

  lemma SlotsBackward(hooks: seq<Hook>, domains: seq<Domain>, engines: seq<Engine>, nextId: nat)
    requires Shape(hooks, |domains|, engines, nextId)
    ensures forall i :: 0 <= i < |hooks| && hooks[i].spec.domain.Some? ==> hooks[i].spec.domain.value < |domains|
    ensures Backward(Slots(hooks, domains))
  {
    hide Violates;
    forall i | 0 <= i < |hooks|
      ensures WellPlaced(hooks[i], i, |domains|, engines, nextId)
    {
    }
  }

  ghost predicate Injective(order: seq<nat>) {
    forall k, l :: 0 <= k < l < |order| ==> order[k] != order[l]
  }

  lemma OrderOfPrepared(hooks: seq<Hook>, domains: seq<Domain>, order: seq<nat>)
    requires forall i :: 0 <= i < |hooks| && hooks[i].spec.domain.Some? ==> hooks[i].spec.domain.value < |domains|
    requires Topological(Slots(hooks, domains), order)
    ensures Orders(hooks, order) && Injective(order)
  {
    var slots := Slots(hooks, domains);
    forall l | 0 <= l < |order|
      ensures order[l] < |hooks| && hooks[order[l]].outcome.Prepared? && order[l] !in order[..l]
    {
      assert ReadyAt(slots, order, l);
    }
    forall k, l | 0 <= k < l < |order|
      ensures order[k] != order[l]
    {
      assert order[..l][k] == order[k];
    }
  }

  lemma StageStart(start: seq<Hook>, order: seq<nat>, was: set<nat>, domains: seq<Domain>, engines: seq<Engine>, nextId: nat)
    requires Shape(start, |domains|, engines, nextId) && Supported(start) && Undispatched(start, was) && Orders(start, order)
    ensures Stage(start, start, order, 0, map[], was, was, |domains|, engines, nextId)
    ensures CommitTally(start, start, 0, 0, 0) && OnlySeen(start, order, 0, map[]) && Linked(start, start, map[])
    ensures forall chains :: Linked(start, start, chains)
  {
    hide Violates;
    MovedNone(start, start, {Active}, |start|);
    MovedNone(start, start, Lost, |start|);
    forall j | 0 <= j < |start|
      ensures Committing(start[j], start[j])
    {
      assert WellPlaced(start[j], j, |domains|, engines, nextId);
    }
  }

  ghost predicate AllActive(start: seq<Hook>, hooks: seq<Hook>) {
    forall j :: 0 <= j < |start| && j < |hooks| && start[j].outcome.Prepared? ==> hooks[j].outcome.Active?
  }

  ghost predicate NoneActive(start: seq<Hook>, hooks: seq<Hook>) {
    forall j :: 0 <= j < |start| && j < |hooks| && start[j].outcome.Prepared? ==> !hooks[j].outcome.Active?
  }

  lemma StageEnd(start: seq<Hook>, hooks: seq<Hook>, order: seq<nat>, checks: map<nat, Check>, was: set<nat>,
                 dispatched: set<nat>, domains: nat, engines: seq<Engine>, nextId: nat, attempted: nat, active: nat, failed: nat,
                 outstanding: set<Handle>, others: set<Handle>)
    requires Stage(start, hooks, order, |order|, checks, was, dispatched, domains, engines, nextId)
    requires CommitTally(start, hooks, attempted, active, failed) && Custody(start, outstanding, others)
    requires forall i :: 0 <= i < |start| ==> start[i].outcome !in {Unanalyzed, Outcome.Analyzed}
    ensures Shape(hooks, domains, engines, nextId) && Supported(hooks) && Undispatched(hooks, dispatched)
    ensures CommitUnderway(start, hooks) && forall i :: 0 <= i < |hooks| ==> !hooks[i].outcome.Prepared?
    ensures forall i :: 0 <= i < |hooks| ==> hooks[i].outcome !in {Unanalyzed, Outcome.Analyzed}
    ensures dispatched <= was + PreparedIds(start) && EnteredRightly(hooks, checks, was, dispatched)
    ensures forall d, j :: d in checks && 0 <= j < |hooks| && Member(hooks[j], d) ==>
              |checks[d].hooks| == |hooks| && checks[d].hooks[j] == start[j]
    ensures failed == 0 <==> AllActive(start, hooks)
    ensures active == 0 <==> NoneActive(start, hooks)
    ensures Custody(hooks, outstanding, others)
  {
    hide Shape, Supported, Undispatched, PreparedIds, EnteredRightly, Preflight, CommitTally, AllActive, NoneActive, Custody;
    forall j | 0 <= j < |hooks|
      ensures Committing(start[j], hooks[j]) && !hooks[j].outcome.Prepared?
    {
      assert Committing(start[j], hooks[j]);
      if start[j].outcome.Prepared? {
        var l :| 0 <= l < |order| && order[l] == j;
      }
    }
    TallyEnd(start, hooks, attempted, active, failed);
    CustodySame(start, hooks, outstanding, others);
  }

  lemma TallyEnd(start: seq<Hook>, hooks: seq<Hook>, attempted: nat, active: nat, failed: nat)
    requires CommitTally(start, hooks, attempted, active, failed)
    requires forall j :: 0 <= j < |start| && start[j].outcome.Prepared? ==> hooks[j].outcome in Ended
    ensures failed == 0 <==> AllActive(start, hooks)
    ensures active == 0 <==> NoneActive(start, hooks)
  {
    MovedNone(start, hooks, {Active}, |start|);
    MovedNone(start, hooks, Lost, |start|);
  }

  lemma StageBounds(start: seq<Hook>, hooks: seq<Hook>, order: seq<nat>, k: nat, checks: map<nat, Check>, was: set<nat>,
                    dispatched: set<nat>, domains: nat, engines: seq<Engine>, nextId: nat)
    requires Stage(start, hooks, order, k, checks, was, dispatched, domains, engines, nextId)
    ensures Shape(hooks, domains, engines, nextId) && forall l :: 0 <= l < |order| ==> order[l] < |hooks|
  {
  }

  lemma StillSeenMany(start: seq<Hook>, order: seq<nat>, k: nat, checks: map<nat, Check>, n: nat)
    requires OnlySeen(start, order, k, checks)
    ensures OnlySeen(start, order, k + n, checks)
  {
    forall d | d in checks
      ensures Seen(start, order, k + n, d)
    {
      assert Seen(start, order, k, d);
    }
  }
}
