/** What a commit comes to for a domain, told from the hooks as they were when the commit began,
    from the moment the domain was entered, and from the calls that were made. */
module CommitDomains {
  import opened Options
  import opened Mutations
  import opened Routing
  import opened Hooks
  import opened CommitOrder
  import opened PlanRules
  import opened CommitRules
  import opened CommitGroups
  import opened CommitAccounts

  // ---- one wave ----

  /** It is the turn of the hook at `j`. */
  ghost predicate Turn(order: seq<nat>, k: nat, n: nat, j: nat) {
    exists l :: k <= l < k + n && l < |order| && order[l] == j
  }

  /** The hook at `j` is refused with its domain, which the hook at position `k` was the first of. */
  ghost predicate RefusedWith(start: seq<Hook>, s: Scene, order: seq<nat>, k: nat, j: nat) {
    && k < |order| && order[k] < |s.hooks| && j < |s.hooks|
    && s.hooks[order[k]].outcome.Prepared? && FirstVisit(start, order, k, s.hooks[order[k]])
    && s.hooks[j].spec.domain == s.hooks[order[k]].spec.domain
    && !Preflight(s.hooks, s.hooks[j].spec.domain.value, s.world.generation)
  }

  /** What a wave may touch: settled hooks stay as they are, and of the others only those whose turn
      it is, or whose domain is refused, change. */
  ghost predicate Framed(start: seq<Hook>, s: Scene, t: Scene, order: seq<nat>, k: nat, n: nat) {
    && |t.hooks| == |s.hooks| && 0 < n && k + n <= |order|
    && (forall j :: 0 <= j < |s.hooks| ==> SameRequest(s.hooks[j], t.hooks[j]))
    && (forall j :: 0 <= j < |s.hooks| && !s.hooks[j].outcome.Prepared? ==> t.hooks[j] == s.hooks[j])
    && (forall j :: 0 <= j < |s.hooks| && t.hooks[j] != s.hooks[j] ==>
          Turn(order, k, n, j) || RefusedWith(start, s, order, k, j))
    && (forall id :: id in t.world.dispatched && id !in s.world.dispatched ==>
          exists j :: 0 <= j < |s.hooks| && Turn(order, k, n, j) && s.hooks[j].id == id && s.hooks[j].outcome.Prepared?)
  }

  lemma TurnNow(order: seq<nat>, k: nat)
    requires k < |order|
    ensures Turn(order, k, 1, order[k])
  {
  }

  lemma SingleFramed(start: seq<Hook>, s: Scene, t: Scene, order: seq<nat>, k: nat, engines: seq<Engine>)
    requires CommitStep(start, s, t, order, k, engines)
    ensures Framed(start, s, t, order, k, 1)
  {
    hide Preflight, Seen, Turn, DependenciesActive, CommitHeardAt;
    TurnNow(order, k);
    var h := s.hooks[order[k]];
    if !h.outcome.Prepared? {
    } else if FirstVisit(start, order, k, h) && !Preflight(s.hooks, h.spec.domain.value, s.world.generation) {
    } else if h.generation == s.world.generation && DependenciesActive(s.hooks, h) {
      var a :| CommitHeardAt(s, t, order[k], engines, a);
      HeardFrame(s, t, order[k], engines, a);
    }
  }

  lemma HeardFrame(s: Scene, t: Scene, i: nat, engines: seq<Engine>, a: CommitAnswer)
    requires CommitHeardAt(s, t, i, engines, a)
    ensures i < |s.hooks| == |t.hooks| && t.hooks == s.hooks[i := t.hooks[i]] && SameRequest(s.hooks[i], t.hooks[i])
    ensures s.world.dispatched <= t.world.dispatched <= s.world.dispatched + {s.hooks[i].id}
  {
    hide Committed, Chainable, Extended;
    var h, done := s.hooks[i], t.hooks[i];
    CommittedEnds(h, engines[h.engine.value].candidate.caps, OwnerIn(s.world.ledger, h.spec.key), a);
  }

  lemma GroupFramed(start: seq<Hook>, s: Scene, t: Scene, order: seq<nat>, k: nat, n: nat, engines: seq<Engine>)
    requires GroupsCommit(s, order, k, engines) && SpansCommit(s, order, k, n) && GroupCommitStep(s, t, order, k, n, engines)
    requires Injective(order)
    ensures Framed(start, s, t, order, k, n)
  {
    hide GroupOne, CompensationFailed, GroupCommitted, GroupReport, Concludes, GroupAnswerable, TakenAsRestored;
    var reply, mids :|
      GroupCommitHeard(s, t, order, k, n, engines, reply, mids);
    var engine := engines[s.hooks[order[k]].engine.value];
    var cleared := CompensationFailed(engine, reply);
    var span := order[k..k + n];
    GroupUnfolds(mids, span, order, k, engines, reply, cleared, n);
    LogKept(mids, order, k, engines, reply, cleared, n);
    GroupMembers(s, t, order, k, n, engines, reply, cleared, span);
    NewlyAsked(s, t, order, k, n);
  }

  lemma GroupMembers(s: Scene, t: Scene, order: seq<nat>, k: nat, n: nat, engines: seq<Engine>, reply: GroupReply,
                     cleared: bool, span: seq<nat>)
    requires k + n <= |order| && span == order[k..k + n] && n <= |reply.answers|
    requires GroupConcludedTo(s.hooks, t.hooks, span, n, engines, reply, cleared)
    ensures forall j :: 0 <= j < |s.hooks| ==>
              SameRequest(s.hooks[j], t.hooks[j]) && (t.hooks[j] != s.hooks[j] ==> Turn(order, k, n, j))
  {
    hide Turn, GroupCommitted, GroupReport, TakenAsRestored;
    assert span[..n] == span;
    forall j | 0 <= j < |s.hooks| && j in span
      ensures SameRequest(s.hooks[j], t.hooks[j]) && Turn(order, k, n, j)
    {
      var l :| 0 <= l < n && span[l] == j;
      assert ConcludedAs(s.hooks, t.hooks, span[l], engines, reply, cleared, l);
      GroupEnds(s.hooks[j], engines[s.hooks[j].engine.value].candidate.caps, TakenAsRestored(reply, l, cleared),
                GroupReport(reply, l));
      TurnAt(order, k, n, l);
    }
  }

  lemma TurnAt(order: seq<nat>, k: nat, n: nat, l: nat)
    requires l < n && k + n <= |order|
    ensures Turn(order, k, n, order[k + l])
  {
  }

  lemma NewlyAsked(s: Scene, t: Scene, order: seq<nat>, k: nat, n: nat)
    requires k + n <= |order| && forall l :: k <= l < k + n ==> order[l] < |s.hooks| && s.hooks[order[l]].outcome.Prepared?
    requires t.world.dispatched <= s.world.dispatched + Ids(Gather(s.hooks, order, k, n))
    ensures forall id :: id in t.world.dispatched && id !in s.world.dispatched ==>
              exists j :: 0 <= j < |s.hooks| && Turn(order, k, n, j) && s.hooks[j].id == id && s.hooks[j].outcome.Prepared?
  {
    hide Turn;
    var group := Gather(s.hooks, order, k, n);
    forall id | id in t.world.dispatched && id !in s.world.dispatched
      ensures exists j :: 0 <= j < |s.hooks| && Turn(order, k, n, j) && s.hooks[j].id == id && s.hooks[j].outcome.Prepared?
    {
      var l :| 0 <= l < |group| && group[l].id == id;
      TurnAt(order, k, n, l);
      assert s.hooks[order[k + l]].id == id;
    }
  }

  lemma WaveFramed(order: seq<nat>, scenes: seq<Scene>, at: seq<nat>, engines: seq<Engine>, w: nat)
    requires CommitRun(order, scenes, at, engines) && w + 1 < |at| && Injective(order)
    ensures Framed(scenes[0].hooks, scenes[w], scenes[w + 1], order, at[w], at[w + 1] - at[w])
  {
    hide CommitStep, GroupCommitStep, GroupsCommit, SpansCommit, Framed;
    var k, n := at[w], at[w + 1] - at[w];
    assert CommitWaveStep(scenes[0].hooks, scenes[w], scenes[w + 1], order, k, n, engines);
    if GroupsCommit(scenes[w], order, k, engines) {
      GroupFramed(scenes[0].hooks, scenes[w], scenes[w + 1], order, k, n, engines);
    } else {
      SingleFramed(scenes[0].hooks, scenes[w], scenes[w + 1], order, k, engines);
    }
  }

  // ---- over waves ----

  lemma {:induction false} SameRequests(order: seq<nat>, scenes: seq<Scene>, at: seq<nat>, engines: seq<Engine>, w: nat)
    requires CommitRun(order, scenes, at, engines) && w < |at| && Injective(order)
    ensures |scenes[w].hooks| == |scenes[0].hooks|
    ensures forall j :: 0 <= j < |scenes[0].hooks| ==> SameRequest(scenes[0].hooks[j], scenes[w].hooks[j])
  {
    hide CommitWaveStep;
    if w > 0 {
      SameRequests(order, scenes, at, engines, w - 1);
      WaveFramed(order, scenes, at, engines, w - 1);
    }
  }

  /** What is settled stays settled. */
  lemma {:induction false} Stays(order: seq<nat>, scenes: seq<Scene>, at: seq<nat>, engines: seq<Engine>, v: nat, w: nat, j: nat)
    requires CommitRun(order, scenes, at, engines) && v <= w < |at| && Injective(order) && DistinctIds(scenes[0].hooks)
    requires j < |scenes[v].hooks| && !scenes[v].hooks[j].outcome.Prepared?
    ensures |scenes[w].hooks| == |scenes[v].hooks| && scenes[w].hooks[j] == scenes[v].hooks[j]
    ensures scenes[v].hooks[j].id !in scenes[v].world.dispatched ==> scenes[v].hooks[j].id !in scenes[w].world.dispatched
  {
    hide CommitWaveStep;
    SameRequests(order, scenes, at, engines, v);
    if v < w {
      Stays(order, scenes, at, engines, v, w - 1, j);
      WaveFramed(order, scenes, at, engines, w - 1);
      SameRequests(order, scenes, at, engines, w - 1);
      NotAskedFor(scenes[0].hooks, scenes[w - 1], scenes[w], order, at[w - 1], at[w] - at[w - 1], j);
    }
  }

  lemma NotAskedFor(start: seq<Hook>, s: Scene, t: Scene, order: seq<nat>, k: nat, n: nat, j: nat)
    requires Framed(start, s, t, order, k, n) && DistinctIds(start) && |start| == |s.hooks| && j < |start|
    requires forall i :: 0 <= i < |start| ==> s.hooks[i].id == start[i].id
    requires !s.hooks[j].outcome.Prepared? || !Turn(order, k, n, j)
    ensures s.hooks[j].id !in s.world.dispatched ==> s.hooks[j].id !in t.world.dispatched
  {
    hide Turn, RefusedWith;
    forall i | 0 <= i < |s.hooks| && s.hooks[i].id == s.hooks[j].id
      ensures i == j
    {
      OwnIds(start, i, j);
    }
  }

  lemma OwnIds(start: seq<Hook>, i: nat, j: nat)
    requires DistinctIds(start) && i < |start| && j < |start| && start[i].id == start[j].id
    ensures i == j
  {
  }

  /** Until its turn a hook is as it was, unless its domain is refused. */
  lemma {:induction false} Waits(order: seq<nat>, scenes: seq<Scene>, at: seq<nat>, engines: seq<Engine>, w: nat, p: nat)
    requires CommitRun(order, scenes, at, engines) && w < |at| && at[w] <= p < |order| && order[p] < |scenes[0].hooks|
    requires Injective(order) && DistinctIds(scenes[0].hooks)
    requires forall v :: 0 <= v < w ==> !RefusedWith(scenes[0].hooks, scenes[v], order, at[v], order[p])
    ensures |scenes[w].hooks| == |scenes[0].hooks| && scenes[w].hooks[order[p]] == scenes[0].hooks[order[p]]
    ensures scenes[0].hooks[order[p]].id !in scenes[0].world.dispatched ==>
              scenes[0].hooks[order[p]].id !in scenes[w].world.dispatched
  {
    hide CommitWaveStep;
    var j := order[p];
    if w > 0 {
      hide RefusedWith;
      Waits(order, scenes, at, engines, w - 1, p);
      WaveFramed(order, scenes, at, engines, w - 1);
      SameRequests(order, scenes, at, engines, w - 1);
      NoTurn(order, at[w - 1], at[w] - at[w - 1], p);
      NotAskedFor(scenes[0].hooks, scenes[w - 1], scenes[w], order, at[w - 1], at[w] - at[w - 1], j);
    }
  }

  lemma NoTurn(order: seq<nat>, k: nat, n: nat, p: nat)
    requires k + n <= p < |order| && Injective(order)
    ensures !Turn(order, k, n, order[p])
  {
  }

  /** The wave a position falls in. */
  lemma {:induction false} FindWave(at: seq<nat>, p: nat, last: nat) returns (w: nat)
    requires last < |at| && at[0] <= p < at[last]
    ensures w < last && at[w] <= p < at[w + 1]
  {
    w := last - 1;
    if at[w] > p {
      w := FindWave(at, p, w);
    }
  }

  /** Only a domain's first hook can have it refused. */
  lemma RefusedFirst(start: seq<Hook>, s: Scene, order: seq<nat>, k: nat, j: nat, d: nat, first: nat)
    requires RefusedWith(start, s, order, k, j) && |start| == |s.hooks| && SameRequest(start[j], s.hooks[j])
    requires SameRequest(start[order[k]], s.hooks[order[k]])
    requires start[j].spec.domain == Some(d) && first < |order| && order[first] < |start| && Member(start[order[first]], d)
    requires forall l :: 0 <= l < first && order[l] < |start| ==> !Member(start[order[l]], d)
    ensures k == first
  {
    hide Preflight;
    SeenBy(start, order, k, first, d);
  }

  lemma SeenBy(start: seq<Hook>, order: seq<nat>, k: nat, l: nat, d: nat)
    requires l < |order| && order[l] < |start| && Member(start[order[l]], d)
    ensures l < k ==> Seen(start, order, k, d)
  {
  }

  // A hook of a domain has its wave to itself.
  lemma Alone(order: seq<nat>, scenes: seq<Scene>, at: seq<nat>, engines: seq<Engine>, w: nat, p: nat)
    requires CommitRun(order, scenes, at, engines) && w + 1 < |at| && at[w] <= p < at[w + 1] && p < |order|
    requires order[p] < |scenes[w].hooks| && scenes[w].hooks[order[p]].spec.domain.Some?
    ensures at[w] == p && at[w + 1] == p + 1 && CommitStep(scenes[0].hooks, scenes[w], scenes[w + 1], order, p, engines)
  {
    hide CommitStep, GroupCommitStep;
    var k, n := at[w], at[w + 1] - at[w];
    assert CommitWaveStep(scenes[0].hooks, scenes[w], scenes[w + 1], order, k, n, engines);
    GroupLoose(scenes[w], order, k, n, engines, p);
  }

  lemma GroupLoose(s: Scene, order: seq<nat>, k: nat, n: nat, engines: seq<Engine>, p: nat)
    requires k <= p < k + n && p < |order| && order[p] < |s.hooks|
    ensures GroupsCommit(s, order, k, engines) && SpansCommit(s, order, k, n) ==> s.hooks[order[p]].spec.domain.None?
  {
  }

  // ---- a domain ----

  /** Every mandatory member is prepared and current, and what it waits for is active or a prepared
      member too. */
  ghost predicate Complete(s: Scene, d: nat) {
    forall i :: 0 <= i < |s.hooks| && s.hooks[i].spec.domain == Some(d) && s.hooks[i].spec.mandatory ==>
      && s.hooks[i].outcome.Prepared? && s.hooks[i].generation == s.world.generation
      && forall e :: e in s.hooks[i].spec.after && e < |s.hooks| ==>
           s.hooks[e].outcome.Active? || (s.hooks[e].outcome.Prepared? && s.hooks[e].spec.domain == Some(d))
  }

  lemma PreflightExactly(s: Scene, d: nat)
    ensures Preflight(s.hooks, d, s.world.generation) <==> Complete(s, d)
  {
    if Preflight(s.hooks, d, s.world.generation) {
      forall i | 0 <= i < |s.hooks| && s.hooks[i].spec.domain == Some(d) && s.hooks[i].spec.mandatory
        ensures s.hooks[i].outcome.Prepared? && s.hooks[i].generation == s.world.generation && ReadyForDomain(s.hooks, s.hooks[i], d)
      {
        assert Member(s.hooks[i], d);
      }
    }
  }

  /** What its turn makes of a hook that was prepared: refused as stale, refused because something it
      waits for is not active, refused as a conflict with a target's owner, or as its engine answers. */
  ghost predicate HasTurn(h: Hook, s: Scene, t: Scene, j: nat, engines: seq<Engine>) {
    && j < |s.hooks| == |t.hooks| && s.hooks[j] == h && h.outcome.Prepared?
    && if h.generation != s.world.generation then
         t.hooks[j].outcome.StalePlan? && t.world == s.world
       else if exists e :: e in h.spec.after && e < |s.hooks| && !s.hooks[e].outcome.Active? then
         t.hooks[j].outcome.FailedSafe? && t.world == s.world
       else
         && h.engine.Some? && h.engine.value < |engines|
         && var caps := engines[h.engine.value].candidate.caps;
            if h.spec.key in s.world.ledger &&
               !(h.spec.request.kind in caps.chainable && s.world.ledger[h.spec.key].engine == caps.id)
            then t.hooks[j].outcome.Conflict? && t.world == s.world
            else t.world.dispatched == s.world.dispatched + {h.id} && exists a :: t.world.log == s.world.log + [CommitAsked(h.id, a)]
  }

  lemma CurrentTurn(s: Scene, t: Scene, j: nat, engines: seq<Engine>)
    requires CurrentStep(s, t, j, engines) && s.hooks[j].outcome.Prepared?
    ensures HasTurn(s.hooks[j], s, t, j, engines) && !t.hooks[j].outcome.Prepared?
  {
    hide CommitHeardAt;
    var h := s.hooks[j];
    if h.generation == s.world.generation && DependenciesActive(s.hooks, h) {
      var a :| CommitHeardAt(s, t, j, engines, a);
      HeardTurn(s, t, j, engines, a);
    }
  }

  lemma HeardTurn(s: Scene, t: Scene, j: nat, engines: seq<Engine>, a: CommitAnswer)
    requires CommitHeardAt(s, t, j, engines, a)
    ensures |s.hooks| == |t.hooks| && !t.hooks[j].outcome.Prepared? && s.hooks[j].engine.Some? && s.hooks[j].engine.value < |engines|
    ensures var h := s.hooks[j];
            var caps := engines[h.engine.value].candidate.caps;
            if h.spec.key in s.world.ledger &&
               !(h.spec.request.kind in caps.chainable && s.world.ledger[h.spec.key].engine == caps.id)
            then t.hooks[j].outcome.Conflict? && t.world == s.world
            else t.world.dispatched == s.world.dispatched + {h.id} && t.world.log == s.world.log + [CommitAsked(h.id, a)]
  {
    hide Committed, Extended;
    var h := s.hooks[j];
    CommittedEnds(h, engines[h.engine.value].candidate.caps, OwnerIn(s.world.ledger, h.spec.key), a);
  }

  /** The hook came to its turn as it was when the commit began, and what its turn made of it is
      what it is in the end. */
  ghost predicate HadTurn(order: seq<nat>, scenes: seq<Scene>, at: seq<nat>, engines: seq<Engine>, j: nat) {
    exists w :: 0 <= w < |at| - 1 && w + 1 < |scenes| && at[w] < |order| && order[at[w]] == j &&
      TurnTaken(scenes, w, engines, j)
  }

  ghost predicate TurnTaken(scenes: seq<Scene>, w: nat, engines: seq<Engine>, j: nat) {
    && w + 1 < |scenes| && j < |scenes[0].hooks| && j < |scenes[w + 1].hooks| && j < |scenes[|scenes| - 1].hooks|
    && HasTurn(scenes[0].hooks[j], scenes[w], scenes[w + 1], j, engines)
    && scenes[|scenes| - 1].hooks[j] == scenes[w + 1].hooks[j]
  }

  /** The hook was refused without its engine being asked. */
  predicate Unasked(before: Hook, after: Hook, was: set<nat>, now: set<nat>, generation: nat) {
    && (if before.outcome.Prepared? then
          after == before.(outcome := if before.generation != generation then StalePlan else FailedSafe, mutation := Unmutated)
        else after == before)
    && (before.id in now ==> before.id in was)
  }

  /** Everything about a run and the order it follows. */
  ghost predicate Runs(order: seq<nat>, scenes: seq<Scene>, at: seq<nat>, engines: seq<Engine>) {
    && CommitRun(order, scenes, at, engines) && |at| == |scenes| > 0 && at[0] == 0 && at[|at| - 1] == |order|
    && Injective(order) && DistinctIds(scenes[0].hooks) && Orders(scenes[0].hooks, order)
    && (forall j :: 0 <= j < |scenes[0].hooks| && scenes[0].hooks[j].outcome.Prepared? ==>
          scenes[0].hooks[j].id !in scenes[0].world.dispatched)
  }

  predicate FirstOf(start: seq<Hook>, order: seq<nat>, first: nat, d: nat) {
    && first < |order| && order[first] < |start| && Member(start[order[first]], d)
    && forall l :: 0 <= l < first && order[l] < |start| ==> !Member(start[order[l]], d)
  }

  lemma FindFirst(start: seq<Hook>, order: seq<nat>, d: nat, j: nat) returns (first: nat)
    requires Orders(start, order) && j < |start| && Member(start[j], d) && start[j].outcome.Prepared?
    ensures FirstOf(start, order, first, d)
  {
    var p :| 0 <= p < |order| && order[p] == j;
    first := 0;
    while !Member(start[order[first]], d)
      invariant first <= p && forall l :: 0 <= l < first ==> !Member(start[order[l]], d)
      decreases p - first
    {
      first := first + 1;
    }
  }

  // No wave but the one at `first` can refuse the domain.
  lemma NotRefusedBefore(order: seq<nat>, scenes: seq<Scene>, at: seq<nat>, engines: seq<Engine>, v: nat, j: nat, d: nat, first: nat)
    requires Runs(order, scenes, at, engines) && v + 1 < |at| && j < |scenes[0].hooks| && Member(scenes[0].hooks[j], d)
    requires FirstOf(scenes[0].hooks, order, first, d) && at[v] != first
    ensures !RefusedWith(scenes[0].hooks, scenes[v], order, at[v], j)
  {
    hide CommitRun, Preflight, RefusedWith, FirstVisit;
    SameRequests(order, scenes, at, engines, v);
    if RefusedWith(scenes[0].hooks, scenes[v], order, at[v], j) {
      RefusedInside(scenes[0].hooks, scenes[v], order, at[v], j);
      RefusedFirst(scenes[0].hooks, scenes[v], order, at[v], j, d, first);
    }
  }

  lemma RefusedInside(start: seq<Hook>, s: Scene, order: seq<nat>, k: nat, j: nat)
    requires RefusedWith(start, s, order, k, j)
    ensures k < |order| && order[k] < |s.hooks|
  {
  }

  // Waves come in the order of their positions.
  lemma {:induction false} Rising(order: seq<nat>, scenes: seq<Scene>, at: seq<nat>, engines: seq<Engine>, v: nat, w: nat)
    requires CommitRun(order, scenes, at, engines) && v <= w < |at|
    ensures at[v] <= at[w] && (v < w ==> at[v] < at[w])
  {
    hide CommitWaveStep;
    if v < w {
      Rising(order, scenes, at, engines, v, w - 1);
      assert at[w - 1] < at[w];
    }
  }

  // The wave in which the first prepared member of a domain has its turn, and what its members are then.
  lemma Entering(order: seq<nat>, scenes: seq<Scene>, at: seq<nat>, engines: seq<Engine>, d: nat, first: nat) returns (w: nat)
    requires Runs(order, scenes, at, engines) && FirstOf(scenes[0].hooks, order, first, d)
    ensures w + 1 < |at| && at[w] == first && |scenes[w].hooks| == |scenes[0].hooks|
    ensures CommitStep(scenes[0].hooks, scenes[w], scenes[w + 1], order, first, engines)
    ensures forall j :: 0 <= j < |scenes[0].hooks| && Member(scenes[0].hooks[j], d) ==>
              && scenes[w].hooks[j] == scenes[0].hooks[j]
              && (scenes[0].hooks[j].id in scenes[w].world.dispatched ==> scenes[0].hooks[j].id in scenes[0].world.dispatched)
  {
    hide CommitRun, CommitStep;
    w := FindWave(at, first, |at| - 1);
    SameRequests(order, scenes, at, engines, w);
    Alone(order, scenes, at, engines, w, first);
    forall j | 0 <= j < |scenes[0].hooks| && Member(scenes[0].hooks[j], d)
      ensures scenes[w].hooks[j] == scenes[0].hooks[j]
      ensures scenes[0].hooks[j].id in scenes[w].world.dispatched ==> scenes[0].hooks[j].id in scenes[0].world.dispatched
    {
      MemberWaits(order, scenes, at, engines, d, first, w, j);
    }
  }

  lemma MemberWaits(order: seq<nat>, scenes: seq<Scene>, at: seq<nat>, engines: seq<Engine>, d: nat, first: nat, w: nat, j: nat)
    requires Runs(order, scenes, at, engines) && FirstOf(scenes[0].hooks, order, first, d)
    requires w + 1 < |at| && at[w] == first && j < |scenes[0].hooks| && Member(scenes[0].hooks[j], d)
    ensures |scenes[w].hooks| == |scenes[0].hooks| && scenes[w].hooks[j] == scenes[0].hooks[j]
    ensures scenes[0].hooks[j].id in scenes[w].world.dispatched ==> scenes[0].hooks[j].id in scenes[0].world.dispatched
  {
    hide CommitRun, RefusedWith;
    if scenes[0].hooks[j].outcome.Prepared? {
      var p :| 0 <= p < |order| && order[p] == j;
      forall v | 0 <= v < w
        ensures !RefusedWith(scenes[0].hooks, scenes[v], order, at[v], j)
      {
        Rising(order, scenes, at, engines, v, w);
        NotRefusedBefore(order, scenes, at, engines, v, j, d, first);
      }
      Waits(order, scenes, at, engines, w, p);
    } else {
      Stays(order, scenes, at, engines, 0, w, j);
    }
  }

  // In a domain that was entered, every prepared member has its turn.
  lemma MemberTurn(order: seq<nat>, scenes: seq<Scene>, at: seq<nat>, engines: seq<Engine>, d: nat, first: nat, w: nat, j: nat)
    requires Runs(order, scenes, at, engines) && FirstOf(scenes[0].hooks, order, first, d)
    requires w + 1 < |at| && at[w] == first && Preflight(scenes[w].hooks, d, scenes[w].world.generation)
    requires j < |scenes[0].hooks| && Member(scenes[0].hooks[j], d) && scenes[0].hooks[j].outcome.Prepared?
    ensures HadTurn(order, scenes, at, engines, j)
  {
    hide CommitRun, RefusedWith, CommitStep, CurrentStep, HasTurn, Preflight;
    var p :| 0 <= p < |order| && order[p] == j;
    var u := FindWave(at, p, |at| - 1);
    NeverRefused(order, scenes, at, engines, d, first, w, j);
    Waits(order, scenes, at, engines, u, p);
    Alone(order, scenes, at, engines, u, p);
    TurnIsOwn(order, scenes, at, engines, d, first, w, u, p);
    CurrentTurn(scenes[u], scenes[u + 1], j, engines);
    SameRequests(order, scenes, at, engines, u + 1);
    Stays(order, scenes, at, engines, u + 1, |at| - 1, j);
    assert TurnTaken(scenes, u, engines, j);
  }

  lemma NeverRefused(order: seq<nat>, scenes: seq<Scene>, at: seq<nat>, engines: seq<Engine>, d: nat, first: nat, w: nat, j: nat)
    requires Runs(order, scenes, at, engines) && FirstOf(scenes[0].hooks, order, first, d)
    requires w + 1 < |at| && at[w] == first && Preflight(scenes[w].hooks, d, scenes[w].world.generation)
    requires j < |scenes[0].hooks| && Member(scenes[0].hooks[j], d)
    ensures forall v :: 0 <= v < |at| - 1 ==> !RefusedWith(scenes[0].hooks, scenes[v], order, at[v], j)
  {
    hide CommitRun, Preflight, FirstVisit;
    forall v | 0 <= v < |at| - 1
      ensures !RefusedWith(scenes[0].hooks, scenes[v], order, at[v], j)
    {
      if v == w {
        SameRequests(order, scenes, at, engines, w);
      } else {
        hide RefusedWith;
        if v < w {
          Rising(order, scenes, at, engines, v, w);
        } else {
          Rising(order, scenes, at, engines, w, v);
        }
        NotRefusedBefore(order, scenes, at, engines, v, j, d, first);
      }
    }
  }

  lemma TurnIsOwn(order: seq<nat>, scenes: seq<Scene>, at: seq<nat>, engines: seq<Engine>, d: nat, first: nat, w: nat, u: nat, p: nat)
    requires Runs(order, scenes, at, engines) && FirstOf(scenes[0].hooks, order, first, d)
    requires w + 1 < |at| && at[w] == first && Preflight(scenes[w].hooks, d, scenes[w].world.generation)
    requires u + 1 < |at| && at[u] == p < |order| && order[p] < |scenes[0].hooks| && Member(scenes[0].hooks[order[p]], d)
    requires |scenes[u].hooks| == |scenes[0].hooks| && scenes[u].hooks[order[p]] == scenes[0].hooks[order[p]]
    requires scenes[0].hooks[order[p]].outcome.Prepared?
    requires CommitStep(scenes[0].hooks, scenes[u], scenes[u + 1], order, p, engines)
    ensures CurrentStep(scenes[u], scenes[u + 1], order[p], engines)
  {
    hide CommitRun, CurrentStep, Preflight, Seen;
    if u < w {
      Rising(order, scenes, at, engines, u, w);
    } else if w < u {
      Rising(order, scenes, at, engines, w, u);
      SeenBy(scenes[0].hooks, order, p, first, d);
    }
  }

  /** For a domain with a prepared member. Nothing touches its members until the first of them has its
      turn. If by then the domain is complete, every prepared member has its own turn; if not, none is
      asked for, and every prepared one is refused, a stale one as stale. */
  lemma DomainExactly(order: seq<nat>, scenes: seq<Scene>, at: seq<nat>, engines: seq<Engine>, d: nat, j0: nat) returns (w: nat)
    requires Runs(order, scenes, at, engines)
    requires j0 < |scenes[0].hooks| && Member(scenes[0].hooks[j0], d) && scenes[0].hooks[j0].outcome.Prepared?
    ensures w + 1 < |at| && |scenes[w].hooks| == |scenes[0].hooks| == |scenes[|at| - 1].hooks|
    ensures forall j :: 0 <= j < |scenes[0].hooks| && Member(scenes[0].hooks[j], d) ==> scenes[w].hooks[j] == scenes[0].hooks[j]
    ensures Complete(scenes[w], d) ==>
              forall j :: 0 <= j < |scenes[0].hooks| && Member(scenes[0].hooks[j], d) && scenes[0].hooks[j].outcome.Prepared? ==>
                HadTurn(order, scenes, at, engines, j)
    ensures !Complete(scenes[w], d) ==>
              forall j :: 0 <= j < |scenes[0].hooks| && Member(scenes[0].hooks[j], d) ==>
                Unasked(scenes[0].hooks[j], scenes[|at| - 1].hooks[j], scenes[0].world.dispatched,
                        scenes[|at| - 1].world.dispatched, scenes[w].world.generation)
  {
    hide CommitRun, CommitStep, HadTurn, Complete, Preflight, Unasked;
    var first := FindFirst(scenes[0].hooks, order, d, j0);
    w := Entering(order, scenes, at, engines, d, first);
    PreflightExactly(scenes[w], d);
    SameRequests(order, scenes, at, engines, |at| - 1);
    forall j | 0 <= j < |scenes[0].hooks| && Member(scenes[0].hooks[j], d)
      ensures Complete(scenes[w], d) && scenes[0].hooks[j].outcome.Prepared? ==> HadTurn(order, scenes, at, engines, j)
      ensures !Complete(scenes[w], d) ==>
                Unasked(scenes[0].hooks[j], scenes[|at| - 1].hooks[j], scenes[0].world.dispatched,
                        scenes[|at| - 1].world.dispatched, scenes[w].world.generation)
    {
      if Complete(scenes[w], d) {
        if scenes[0].hooks[j].outcome.Prepared? {
          MemberTurn(order, scenes, at, engines, d, first, w, j);
        }
      } else {
        MemberRefused(order, scenes, at, engines, d, first, w, j);
      }
    }
  }

  lemma MemberRefused(order: seq<nat>, scenes: seq<Scene>, at: seq<nat>, engines: seq<Engine>, d: nat, first: nat, w: nat, j: nat)
    requires Runs(order, scenes, at, engines) && FirstOf(scenes[0].hooks, order, first, d)
    requires w + 1 < |at| && at[w] == first && |scenes[w].hooks| == |scenes[0].hooks| == |scenes[|at| - 1].hooks|
    requires !Preflight(scenes[w].hooks, d, scenes[w].world.generation)
    requires scenes[w].hooks[order[first]] == scenes[0].hooks[order[first]]
    requires CommitStep(scenes[0].hooks, scenes[w], scenes[w + 1], order, first, engines)
    requires j < |scenes[0].hooks| && Member(scenes[0].hooks[j], d) && scenes[w].hooks[j] == scenes[0].hooks[j]
    requires scenes[0].hooks[j].id in scenes[w].world.dispatched ==> scenes[0].hooks[j].id in scenes[0].world.dispatched
    ensures Unasked(scenes[0].hooks[j], scenes[|at| - 1].hooks[j], scenes[0].world.dispatched,
                    scenes[|at| - 1].world.dispatched, scenes[w].world.generation)
  {
    hide CommitRun, CurrentStep, Preflight;
    MarkedOne(order, scenes, at, engines, d, first, w, j);
    Stays(order, scenes, at, engines, w + 1, |at| - 1, j);
  }

  lemma MarkedOne(order: seq<nat>, scenes: seq<Scene>, at: seq<nat>, engines: seq<Engine>, d: nat, first: nat, w: nat, j: nat)
    requires Runs(order, scenes, at, engines) && FirstOf(scenes[0].hooks, order, first, d)
    requires w + 1 < |at| && at[w] == first && |scenes[w].hooks| == |scenes[0].hooks|
    requires !Preflight(scenes[w].hooks, d, scenes[w].world.generation)
    requires scenes[w].hooks[order[first]] == scenes[0].hooks[order[first]]
    requires CommitStep(scenes[0].hooks, scenes[w], scenes[w + 1], order, first, engines)
    requires j < |scenes[0].hooks| && Member(scenes[0].hooks[j], d) && scenes[w].hooks[j] == scenes[0].hooks[j]
    ensures |scenes[w + 1].hooks| == |scenes[w].hooks| && scenes[w + 1].world == scenes[w].world
    ensures scenes[w + 1].hooks[j] ==
            if scenes[w].hooks[j].outcome.Prepared? then Marked(scenes[w].hooks[j], scenes[w].world.generation)
            else scenes[w].hooks[j]
  {
    hide CommitRun, CurrentStep, Preflight;
  }

  /** If a member of a domain was dispatched, every mandatory member had been prepared when the commit
      began; and when the domain was entered each was current and waited for nothing but active hooks
      and prepared members. */
  lemma DispatchedTogether(order: seq<nat>, scenes: seq<Scene>, at: seq<nat>, engines: seq<Engine>, d: nat, j: nat) returns (w: nat)
    requires Runs(order, scenes, at, engines) && j < |scenes[0].hooks| && Member(scenes[0].hooks[j], d)
    requires scenes[0].hooks[j].id in scenes[|at| - 1].world.dispatched && scenes[0].hooks[j].id !in scenes[0].world.dispatched
    ensures w + 1 < |at| && Complete(scenes[w], d)
    ensures forall i :: 0 <= i < |scenes[0].hooks| && Member(scenes[0].hooks[i], d) && scenes[0].hooks[i].spec.mandatory ==>
              scenes[0].hooks[i].outcome.Prepared? && i < |scenes[w].hooks| && scenes[w].hooks[i] == scenes[0].hooks[i]
  {
    hide CommitRun, HadTurn;
    if !scenes[0].hooks[j].outcome.Prepared? {
      Stays(order, scenes, at, engines, 0, |at| - 1, j);
    }
    w := DomainExactly(order, scenes, at, engines, d, j);
  }

  // ---- hooks of no domain ----

  /** A hook that may go into one call with others: prepared, of no domain, waiting for nothing, on a
      target nobody owns, for this engine. */
  predicate Joinable(h: Hook, engine: nat, ledger: map<Key, Owner>) {
    h.outcome.Prepared? && h.spec.domain == None && h.spec.after == [] && h.spec.key !in ledger && h.engine == Some(engine)
  }

  /** Positions `k` to `k + n` go into one call: joinable hooks of one engine that commits groups, all
      but the first current, and as many as follow one another. */
  ghost predicate Together(s: Scene, t: Scene, order: seq<nat>, k: nat, n: nat, engines: seq<Engine>) {
    && 2 <= n && k + n <= |order| && (forall l :: 0 <= l < |order| ==> order[l] < |s.hooks|)
    && s.hooks[order[k]].engine.Some?
    && var e := s.hooks[order[k]].engine.value;
       && e < |engines| && engines[e].groupsCommit && engines[e].candidate.caps.grouping
       && (forall l :: k <= l < k + n ==> Joinable(s.hooks[order[l]], e, s.world.ledger))
       && (forall l :: k < l < k + n ==> s.hooks[order[l]].generation == s.world.generation)
       && (k + n < |order| ==> !(Joinable(s.hooks[order[k + n]], e, s.world.ledger) &&
                                 s.hooks[order[k + n]].generation == s.world.generation))
       && exists reply, ids :: OneGroupCall(s, t, order, k, n, reply, ids)
  }

  ghost predicate OneGroupCall(s: Scene, t: Scene, order: seq<nat>, k: nat, n: nat, reply: GroupReply, ids: seq<nat>) {
    && t.world.log == s.world.log + [GroupCommitAsked(ids, reply)]
    && |ids| == n && k + n <= |order| && forall l :: 0 <= l < n ==> order[k + l] < |s.hooks| && ids[l] == s.hooks[order[k + l]].id
  }

  lemma GroupTogether(s: Scene, t: Scene, order: seq<nat>, k: nat, n: nat, engines: seq<Engine>)
    requires GroupsCommit(s, order, k, engines) && SpansCommit(s, order, k, n) && GroupCommitStep(s, t, order, k, n, engines)
    ensures Together(s, t, order, k, n, engines)
  {
    hide GroupOne, CompensationFailed, Concludes, GroupAnswerable;
    var reply, mids :|
      GroupCommitHeard(s, t, order, k, n, engines, reply, mids);
    LogKept(mids, order, k, engines, reply, CompensationFailed(engines[s.hooks[order[k]].engine.value], reply), n);
    assert OneGroupCall(s, t, order, k, n, reply, IdsInOrder(Gather(s.hooks, order, k, n)));
    forall l | k <= l < k + n
      ensures Joinable(s.hooks[order[l]], s.hooks[order[k]].engine.value, s.world.ledger)
    {
      assert l == k || JoinsCommit(s.hooks[order[k]], s.hooks[order[l]], s.world.generation, s.world.ledger);
    }
  }

  /** The hook came, as it was when the commit began, to the turn of its group. */
  ghost predicate HadGroup(order: seq<nat>, scenes: seq<Scene>, at: seq<nat>, engines: seq<Engine>, j: nat) {
    exists w :: 0 <= w < |at| - 1 && w + 1 < |scenes| && GroupTaken(order, scenes, at, engines, w, j)
  }

  ghost predicate GroupTaken(order: seq<nat>, scenes: seq<Scene>, at: seq<nat>, engines: seq<Engine>, w: nat, j: nat) {
    && w + 1 < |at| && w + 1 < |scenes| && at[w] < at[w + 1] && Turn(order, at[w], at[w + 1] - at[w], j)
    && j < |scenes[0].hooks| && j < |scenes[w].hooks| && scenes[w].hooks[j] == scenes[0].hooks[j]
    && Together(scenes[w], scenes[w + 1], order, at[w], at[w + 1] - at[w], engines)
  }

  /** A prepared hook of no domain has a turn of its own, or goes into a call with others. */
  lemma LooseExactly(order: seq<nat>, scenes: seq<Scene>, at: seq<nat>, engines: seq<Engine>, j: nat)
    requires Runs(order, scenes, at, engines)
    requires j < |scenes[0].hooks| && scenes[0].hooks[j].spec.domain == None && scenes[0].hooks[j].outcome.Prepared?
    ensures HadTurn(order, scenes, at, engines, j) || HadGroup(order, scenes, at, engines, j)
  {
    hide CommitRun, RefusedWith, CommitStep, CurrentStep, HasTurn, GroupsCommit, SpansCommit, GroupCommitStep, Together;
    var p :| 0 <= p < |order| && order[p] == j;
    var u := FindWave(at, p, |at| - 1);
    forall v | 0 <= v < u
      ensures !RefusedWith(scenes[0].hooks, scenes[v], order, at[v], j)
    {
      SameRequests(order, scenes, at, engines, v);
      NoDomainRefused(scenes[0].hooks, scenes[v], order, at[v], j);
    }
    Waits(order, scenes, at, engines, u, p);
    var n := WaveAt(order, scenes, at, engines, u);
    if GroupsCommit(scenes[u], order, at[u], engines) {
      GroupTogether(scenes[u], scenes[u + 1], order, at[u], n, engines);
      TurnAt(order, at[u], n, p - at[u]);
      assert GroupTaken(order, scenes, at, engines, u, j);
    } else {
      OwnStep(scenes[0].hooks, scenes[u], scenes[u + 1], order, p, engines);
      CurrentTurn(scenes[u], scenes[u + 1], j, engines);
      SameRequests(order, scenes, at, engines, u + 1);
      Stays(order, scenes, at, engines, u + 1, |at| - 1, j);
      assert TurnTaken(scenes, u, engines, j);
    }
  }

  lemma WaveAt(order: seq<nat>, scenes: seq<Scene>, at: seq<nat>, engines: seq<Engine>, u: nat) returns (n: nat)
    requires CommitRun(order, scenes, at, engines) && u + 1 < |at|
    ensures at[u] + n == at[u + 1] && 0 < n
    ensures if GroupsCommit(scenes[u], order, at[u], engines) then
              && SpansCommit(scenes[u], order, at[u], n)
              && GroupCommitStep(scenes[u], scenes[u + 1], order, at[u], n, engines)
              && at[u] + n <= |order|
            else n == 1 && CommitStep(scenes[0].hooks, scenes[u], scenes[u + 1], order, at[u], engines)
  {
    hide GroupsCommit, GroupCommitStep, CommitStep;
    n := at[u + 1] - at[u];
    assert CommitWaveStep(scenes[0].hooks, scenes[u], scenes[u + 1], order, at[u], n, engines);
  }

  lemma NoDomainRefused(start: seq<Hook>, s: Scene, order: seq<nat>, k: nat, j: nat)
    requires j < |s.hooks| && s.hooks[j].spec.domain == None
    ensures !RefusedWith(start, s, order, k, j)
  {
    hide Preflight, Seen;
  }

  lemma OwnStep(start: seq<Hook>, s: Scene, t: Scene, order: seq<nat>, p: nat, engines: seq<Engine>)
    requires CommitStep(start, s, t, order, p, engines) && s.hooks[order[p]].spec.domain == None && s.hooks[order[p]].outcome.Prepared?
    ensures CurrentStep(s, t, order[p], engines)
  {
    hide CurrentStep, Preflight, Seen;
  }

  /** A wave is a group exactly if its first two hooks may go into one call and the second is current. */
  lemma GroupsExactly(s: Scene, order: seq<nat>, k: nat, engines: seq<Engine>)
    requires k + 1 < |order| && order[k] < |s.hooks| && order[k + 1] < |s.hooks|
    ensures GroupsCommit(s, order, k, engines) <==>
            exists e: nat ::
              && e < |engines| && engines[e].groupsCommit && engines[e].candidate.caps.grouping
              && Joinable(s.hooks[order[k]], e, s.world.ledger) && Joinable(s.hooks[order[k + 1]], e, s.world.ledger)
              && s.hooks[order[k + 1]].generation == s.world.generation
  {
    if GroupsCommit(s, order, k, engines) {
      var e := s.hooks[order[k]].engine.value;
      assert Joinable(s.hooks[order[k]], e, s.world.ledger);
    }
  }

  // ---- in what order ----

  function OrderOf(h: Hook, domains: seq<Domain>): nat {
    if h.spec.domain.Some? && h.spec.domain.value < |domains| then domains[h.spec.domain.value].order else 0
  }

  /** Prepared hooks have their turns after those they name; two that name none have theirs by the order
      of their domains, a hook of none counting as 0, then by their own, then as they were added. */
  lemma TurnsInOrder(hooks: seq<Hook>, domains: seq<Domain>, order: seq<nat>, i: nat, j: nat) returns (k: nat, l: nat)
    requires forall h :: 0 <= h < |hooks| && hooks[h].spec.domain.Some? ==> hooks[h].spec.domain.value < |domains|
    requires Topological(Slots(hooks, domains), order) && Greedy(Slots(hooks, domains), order)
    requires i < |hooks| && j < |hooks| && hooks[i].outcome.Prepared? && hooks[j].outcome.Prepared?
    requires i in hooks[j].spec.after ||
             (hooks[i].spec.after == [] && hooks[j].spec.after == [] &&
              (OrderOf(hooks[i], domains) < OrderOf(hooks[j], domains) ||
               (OrderOf(hooks[i], domains) == OrderOf(hooks[j], domains) &&
                (hooks[i].spec.commitOrder < hooks[j].spec.commitOrder ||
                 (hooks[i].spec.commitOrder == hooks[j].spec.commitOrder && i < j)))))
    ensures k < l < |order| && order[k] == i && order[l] == j
  {
    hide Topological, Greedy;
    if i in hooks[j].spec.after {
      k, l := NamedFirst(Slots(hooks, domains), order, j, i);
    } else {
      k, l := IndependentInOrder(Slots(hooks, domains), order, i, j);
    }
  }
}
