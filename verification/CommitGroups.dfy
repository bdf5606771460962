/** Committing a run of hooks with one engine call, and the whole commit loop. */
module CommitGroups {
  import opened Options
  import opened Mutations
  import opened Routing
  import opened Hooks
  import opened PlanRules
  import opened CommitRules

  // ---- committing in groups ----

  /** What a group call reports for one of its operations: nothing if it did not revalidate,
      nothing reliable if the callback failed. */
  function GroupReport(reply: GroupReply, l: nat): CommitAnswer
    requires l < |reply.answers|
  {
    var a := reply.answers[l];
    a.(mutation := if !reply.revalidated then Unmutated else if !reply.committed then Unknown else a.mutation)
  }

  /** In a group, ownership is recorded on the strength of the write alone; verification comes
      after. */
  function GroupRecords(caps: Caps, compensated: bool, a: CommitAnswer): bool {
    Written(caps, None, a).Complete? && !compensated
  }

  function GroupCommitted(h: Hook, caps: Caps, compensated: bool, a: CommitAnswer): Hook {
    var done := Committed(h, caps, None, a);
    if compensated then done.(outcome := Compensated, original := 0) else done
  }

  /** So a group, unlike a single hook, moves a target's head without its hook ending active
      exactly when the verifier objects. */
  lemma GroupMovesHeadFirst(h: Hook, caps: Caps, compensated: bool, a: CommitAnswer)
    ensures GroupCommitted(h, caps, compensated, a).outcome.Active? ==> GroupRecords(caps, compensated, a)
    ensures GroupRecords(caps, compensated, a) && !GroupCommitted(h, caps, compensated, a).outcome.Active? <==>
            GroupRecords(caps, compensated, a) && a.verification.VerifyFailed?
  {
  }

  /** What a group call's reply makes of one of its hooks: compensated where the engine says so, its artifact
      was recorded and the callback did not fail; otherwise what was written, if the group revalidated and
      its commit was reported to have gone through. */
  lemma GroupExactly(h: Hook, caps: Caps, reply: GroupReply, l: nat, cleared: bool)
    requires l < |reply.answers|
    ensures var a := reply.answers[l];
            var out := GroupCommitted(h, caps, TakenAsRestored(reply, l, cleared), GroupReport(reply, l));
            var declared, restored := a.effects <= caps.commitEffects, a.compensated && !a.recordFailed && !cleared;
            && (out.outcome.Compensated? <==> restored)
            && (out.outcome.Active? <==>
                 && !restored && reply.revalidated && reply.committed && a.mutation.Complete? && declared
                 && !a.recordFailed && !a.verification.VerifyFailed?)
            && (out.outcome.FailedSafe? <==>
                 !restored && declared && (!reply.revalidated || (reply.committed && a.mutation.Unmutated?)))
            && (out.outcome.FailedPartial? <==>
                 !restored && declared && reply.revalidated && reply.committed && a.mutation.Partial?)
            && out.outcome in {Compensated, Active, FailedSafe, FailedPartial, FailedUnknown}
            && out.original == (if out.outcome.Active? then a.published else 0)
  {
  }

  /** The compensation callback is called, and fails, exactly if the engine has one and is certified for it,
      the group revalidated, and its commit did not go through or left an operation in part, unknown, or, of
      a group that is verified as one, written but not verified. */
  lemma CompensationExactly(engine: Engine, reply: GroupReply)
    ensures CompensationFailed(engine, reply) <==>
            && engine.compensates && engine.candidate.caps.compensation && !reply.compensationOk && reply.revalidated
            && (reply.committed ==> exists a :: a in reply.answers && Troubled(a, engine.verifiesGroup))
  {
    if reply.committed {
      if a :| a in reply.answers && Troubled(a, engine.verifiesGroup) {
        var i :| 0 <= i < |reply.answers| && reply.answers[i] == a;
      }
      if i: nat :| i < |reply.answers| && Troubled(reply.answers[i], engine.verifiesGroup) {
        assert reply.answers[i] in reply.answers;
      }
    }
  }

  predicate Troubled(a: CommitAnswer, verified: bool) {
    a.mutation in {Partial, Unknown} || (verified && a.mutation == Complete && a.verification != Verified)
  }

  /** Recording in a group, and concluding, one operation. */
  ghost predicate GroupOne(s: Scene, t: Scene, i: nat, engines: seq<Engine>, compensated: bool, a: CommitAnswer) {
    && i < |s.hooks| && s.hooks[i].engine.Some? && s.hooks[i].engine.value < |engines|
    && t.world.log == s.world.log && t.world.dispatched == s.world.dispatched && t.world.generation == s.world.generation
    && var h, caps := s.hooks[i], engines[s.hooks[i].engine.value].candidate.caps;
       t.hooks == s.hooks[i := GroupCommitted(h, caps, compensated, a)] &&
       if GroupRecords(caps, compensated, a) then
         && t.world.chains == Extended(s.world.chains, h.(original := a.published))
         && t.world.ledger == s.world.ledger[h.spec.key :=
              Owner(if h.spec.key in s.world.ledger then s.world.ledger[h.spec.key].engine else caps.id, h.spec.replacement, a.published)]
       else t.world.chains == s.world.chains && t.world.ledger == s.world.ledger
  }

  predicate Compensates(engine: Engine, reply: GroupReply) {
    NeedsCompensation(reply, engine.verifiesGroup) && engine.compensates && engine.candidate.caps.compensation
  }

  /** The compensation callback was called and failed: no operation then counts as compensated. */
  predicate CompensationFailed(engine: Engine, reply: GroupReply) {
    Compensates(engine, reply) && !reply.compensationOk
  }

  /** Whether the core takes an operation of a group as restored. */
  predicate TakenAsRestored(reply: GroupReply, l: nat, cleared: bool)
    requires l < |reply.answers|
  {
    !cleared && reply.answers[l].compensated && !reply.answers[l].recordFailed
  }

  /** One call for the group, and then its operations one after the other. */
  ghost predicate GroupCommitHeard(s: Scene, t: Scene, order: seq<nat>, at: nat, n: nat, engines: seq<Engine>,
                                   reply: GroupReply, mids: seq<Scene>)
  {
    && at + n <= |order| && (forall l :: at <= l < at + n ==> order[l] < |s.hooks|)
    && 0 < n && s.hooks[order[at]].engine.Some? && s.hooks[order[at]].engine.value < |engines|
    && |reply.answers| == n && |mids| == n + 1 && mids[n] == t && mids[0].hooks == s.hooks
    && GroupAsked(s.world, mids[0].world, Gather(s.hooks, order, at, n), reply)
    && GroupAnswerable(engines[s.hooks[order[at]].engine.value], reply)
    && var cleared := CompensationFailed(engines[s.hooks[order[at]].engine.value], reply);
       forall l :: 0 <= l < n ==> Concludes(mids, l, order, at, engines, reply, cleared)
  }

  /** A group is verified by one call, or its hooks one by one. */
  predicate GroupAnswerable(engine: Engine, reply: GroupReply) {
    forall l :: 0 <= l < |reply.answers| ==> Answerable(engine.verifies || engine.verifiesGroup, reply.answers[l])
  }

  ghost predicate GroupAsked(w: World, w': World, group: seq<Hook>, reply: GroupReply) {
    && w'.ledger == w.ledger && w'.chains == w.chains
    && w'.log == w.log + [GroupCommitAsked(IdsInOrder(group), reply)]
    && w'.dispatched == if reply.revalidated then w.dispatched + Ids(group) else w.dispatched
  }

  ghost predicate Concludes(mids: seq<Scene>, l: nat, order: seq<nat>, at: nat, engines: seq<Engine>, reply: GroupReply,
                            cleared: bool)
  {
    && l + 1 < |mids| && l < |reply.answers| && at + l < |order|
    && GroupOne(mids[l], mids[l + 1], order[at + l], engines, TakenAsRestored(reply, l, cleared),
                GroupReport(reply, l))
  }

  lemma ConcludesMore(mids: seq<Scene>, t: Scene, order: seq<nat>, at: nat, engines: seq<Engine>, reply: GroupReply,
                      cleared: bool)
    requires 0 < |mids| <= |reply.answers| && at + |mids| <= |order|
    requires forall l :: 0 <= l < |mids| - 1 ==> Concludes(mids, l, order, at, engines, reply, cleared)
    requires var l := |mids| - 1;
             GroupOne(mids[l], t, order[at + l], engines, TakenAsRestored(reply, l, cleared),
                      GroupReport(reply, l))
    ensures forall l :: 0 <= l < |mids| ==> Concludes(mids + [t], l, order, at, engines, reply, cleared)
  {
    hide GroupOne;
    forall l | 0 <= l < |mids|
      ensures Concludes(mids + [t], l, order, at, engines, reply, cleared)
    {
      if l < |mids| - 1 {
        assert Concludes(mids, l, order, at, engines, reply, cleared);
      }
    }
  }

  predicate NeedsCompensation(reply: GroupReply, verifies: bool) {
    if reply.revalidated && reply.committed then
      exists i :: 0 <= i < |reply.answers| &&
        (reply.answers[i].mutation.Partial? || reply.answers[i].mutation.Unknown? ||
         (verifies && reply.answers[i].mutation.Complete? && !reply.answers[i].verification.Verified?))
    else reply.revalidated
  }

  /** Prepared hooks without domain, dependencies or owner: the only ones that may be grouped. */
  ghost predicate Groupable(hooks: seq<Hook>, order: seq<nat>, at: nat, n: nat, ledger: map<Key, Owner>) {
    at + n <= |order| && forall l :: at <= l < at + n ==>
      && order[l] < |hooks|
      && var h := hooks[order[l]];
         h.outcome.Prepared? && h.spec.domain.None? && h.spec.after == [] && h.spec.key !in ledger
  }

  function Gather(hooks: seq<Hook>, order: seq<nat>, at: nat, n: nat): (group: seq<Hook>)
    requires at + n <= |order| && forall l :: at <= l < at + n ==> order[l] < |hooks|
    ensures |group| == n && forall l :: 0 <= l < n ==> group[l] == hooks[order[at + l]]
  {
    seq(n, l requires 0 <= l < n => hooks[order[at + l]])
  }

  /** The hooks of a group that are still to be concluded, from its `l`-th on. */
  ghost predicate Waiting(hooks: seq<Hook>, order: seq<nat>, at: nat, group: seq<Hook>, l: nat, ledger: map<Key, Owner>) {
    at + |group| <= |order| && forall m :: l <= m < |group| ==> WaitingAt(hooks, order[at + m], group[m], ledger)
  }

  predicate WaitingAt(hooks: seq<Hook>, i: nat, h: Hook, ledger: map<Key, Owner>) {
    i < |hooks| && hooks[i] == h && h.outcome.Prepared? && h.spec.domain.None? && h.spec.after == [] && h.spec.key !in ledger
  }

  ghost predicate Apart(group: seq<Hook>) {
    forall l, m :: 0 <= l < m < |group| ==> group[l].id != group[m].id && group[l].spec.key != group[m].spec.key
  }

  lemma WaitingNext(hooks: seq<Hook>, after: seq<Hook>, order: seq<nat>, at: nat, group: seq<Hook>, l: nat,
                    ledger: map<Key, Owner>, ledger': map<Key, Owner>)
    requires Waiting(hooks, order, at, group, l, ledger) && Apart(group) && Injective(order) && l < |group|
    requires order[at + l] < |hooks| == |after| && after == hooks[order[at + l] := after[order[at + l]]]
    requires forall key :: key in ledger' ==> key in ledger || key == group[l].spec.key
    ensures Waiting(after, order, at, group, l + 1, ledger')
  {
    forall m | l + 1 <= m < |group|
      ensures WaitingAt(after, order[at + m], group[m], ledger')
    {
      assert WaitingAt(hooks, order[at + m], group[m], ledger);
      assert order[at + l] != order[at + m] && group[l].spec.key != group[m].spec.key;
    }
  }

  lemma WaitingOne(hooks: seq<Hook>, order: seq<nat>, at: nat, group: seq<Hook>, l: nat, ledger: map<Key, Owner>)
    requires Waiting(hooks, order, at, group, l, ledger) && l < |group|
    ensures Groupable(hooks, order, at + l, 1, ledger) && hooks[order[at + l]] == group[l]
  {
    assert WaitingAt(hooks, order[at + l], group[l], ledger);
  }

  lemma GroupHooks(start: seq<Hook>, hooks: seq<Hook>, order: seq<nat>, at: nat, n: nat, checks: map<nat, Check>, was: set<nat>,
                   dispatched: set<nat>, domains: nat, engines: seq<Engine>, nextId: nat, ledger: map<Key, Owner>)
    returns (group: seq<Hook>)
    requires Stage(start, hooks, order, at, checks, was, dispatched, domains, engines, nextId) && Injective(order)
    requires Groupable(hooks, order, at, n, ledger)
    ensures group == Gather(hooks, order, at, n) && Waiting(hooks, order, at, group, 0, ledger) && Apart(group)
    ensures forall l :: 0 <= l < n ==> group[l].id !in dispatched && group[l].id < nextId && Matched(group[l], engines)
  {
    hide Violates;
    group := Gather(hooks, order, at, n);
    forall l | 0 <= l < n
      ensures group[l].id !in dispatched && group[l].id < nextId && Matched(group[l], engines)
    {
      assert WellPlaced(hooks[order[at + l]], order[at + l], domains, engines, nextId);
    }
    forall l, m | 0 <= l < m < n
      ensures group[l].id != group[m].id && group[l].spec.key != group[m].spec.key
    {
      var i, j := order[at + l], order[at + m];
      assert if i < j then Distinct(hooks[i], hooks[j]) else Distinct(hooks[j], hooks[i]);
    }
  }

  lemma ApartIds(group: seq<Hook>)
    requires Apart(group)
    ensures forall i, j :: 0 <= i < j < |group| ==> group[i].id != group[j].id
  {
  }

  lemma NoIds(group: seq<Hook>)
    ensures Ids(group[..0]) == {}
  {
  }

  lemma AllIds(group: seq<Hook>)
    ensures Ids(group[..|group|]) == Ids(group)
  {
    assert group[..|group|] == group;
  }

  lemma GroupEnds(h: Hook, caps: Caps, compensated: bool, a: CommitAnswer)
    ensures var out := GroupCommitted(h, caps, compensated, a);
            && out.outcome in Ended && SameRequest(h, out) && out.prepared == h.prepared
            && (out.outcome.Active? ==>
                  out.commitEffects <= caps.commitEffects && GroupRecords(caps, compensated, a) && out.original == a.published)
            && out.prepareEffects == h.prepareEffects
  {
  }

  lemma LinkedGroup(start: seq<Hook>, hooks: seq<Hook>, i: nat, h: Hook, chains: map<Key, seq<Link>>, chains': map<Key, seq<Link>>,
                    published: Pointer)
    requires Linked(start, hooks, chains) && i < |hooks| && hooks[i].spec == h.spec
    requires chains' == chains || chains' == Extended(chains, h.(original := published))
    requires h.outcome.Active? ==> chains' == Extended(chains, h) && h.original == published
    ensures Linked(start, hooks[i := h], chains')
  {
    if chains' != chains {
      var links := chains'[h.spec.key];
      assert links[|links| - 1] == Link(h.spec.replacement, published);
    }
  }

  predicate LeadsCommit(h: Hook, engines: seq<Engine>, ledger: map<Key, Owner>) {
    && h.outcome.Prepared? && h.spec.domain.None? && h.spec.after == [] && h.spec.key !in ledger
    && h.engine.Some? && h.engine.value < |engines|
    && engines[h.engine.value].groupsCommit && engines[h.engine.value].candidate.caps.grouping
  }

  predicate JoinsCommit(first: Hook, h: Hook, generation: nat, ledger: map<Key, Owner>) {
    && h.outcome.Prepared? && h.spec.domain.None? && h.spec.after == [] && h.spec.key !in ledger
    && h.engine == first.engine && h.generation == generation
  }

  predicate GroupsCommit(s: Scene, order: seq<nat>, at: nat, engines: seq<Engine>) {
    && at + 1 < |order| && order[at] < |s.hooks| && order[at + 1] < |s.hooks|
    && LeadsCommit(s.hooks[order[at]], engines, s.world.ledger)
    && JoinsCommit(s.hooks[order[at]], s.hooks[order[at + 1]], s.world.generation, s.world.ledger)
  }

  /** The run of positions from `at` that go together, as long as can be. */
  predicate SpansCommit(s: Scene, order: seq<nat>, at: nat, n: nat) {
    && 0 < n && at + n <= |order| && (forall l :: 0 <= l < |order| ==> order[l] < |s.hooks|)
    && (forall l :: at < l < at + n ==> JoinsCommit(s.hooks[order[at]], s.hooks[order[l]], s.world.generation, s.world.ledger))
    && (at + n < |order| ==> !JoinsCommit(s.hooks[order[at]], s.hooks[order[at + n]], s.world.generation, s.world.ledger))
  }

  ghost predicate GroupCommitStep(s: Scene, t: Scene, order: seq<nat>, at: nat, n: nat, engines: seq<Engine>) {
    exists reply, mids :: GroupCommitHeard(s, t, order, at, n, engines, reply, mids)
  }

  /** The hook at position `k`, or the longest group that starts there. */
  ghost predicate CommitWaveStep(start: seq<Hook>, s: Scene, t: Scene, order: seq<nat>, k: nat, n: nat, engines: seq<Engine>) {
    if GroupsCommit(s, order, k, engines) then SpansCommit(s, order, k, n) && GroupCommitStep(s, t, order, k, n, engines)
    else n == 1 && CommitStep(start, s, t, order, k, engines)
  }

  /** A prepared hook that has become stale is not committed, unless it leads a group: then its
      engine is asked for it all the same. */
  lemma StaleDispatchedExactly(start: seq<Hook>, s: Scene, t: Scene, order: seq<nat>, k: nat, n: nat, engines: seq<Engine>)
    requires CommitWaveStep(start, s, t, order, k, n, engines) && k < |order| && order[k] < |s.hooks|
    requires s.hooks[order[k]].outcome.Prepared? && s.hooks[order[k]].generation != s.world.generation
    ensures t.world.log != s.world.log <==> GroupsCommit(s, order, k, engines)
    ensures t.world.log != s.world.log ==>
              && |t.world.log| == |s.world.log| + 1 && t.world.log[..|s.world.log|] == s.world.log
              && t.world.log[|s.world.log|].GroupCommitAsked?
              && t.world.log[|s.world.log|].ids != [] && t.world.log[|s.world.log|].ids[0] == s.hooks[order[k]].id
  {
    hide GroupsCommit, Marks, Preflight, GroupOne, CompensationFailed;
    if GroupsCommit(s, order, k, engines) {
      var reply, mids :|
        GroupCommitHeard(s, t, order, k, n, engines, reply, mids);
      LogKept(mids, order, k, engines, reply, CompensationFailed(engines[s.hooks[order[k]].engine.value], reply), n);
      assert t.world.log[|s.world.log|].ids[0] == Gather(s.hooks, order, k, n)[0].id;
    }
  }

  // Concluding the operations of a group makes no further calls.
  lemma {:induction false} LogKept(mids: seq<Scene>, order: seq<nat>, at: nat, engines: seq<Engine>, reply: GroupReply,
                                   cleared: bool, n: nat)
    requires n < |mids| && forall l :: 0 <= l < n ==> Concludes(mids, l, order, at, engines, reply, cleared)
    ensures mids[n].world.log == mids[0].world.log && mids[n].world.dispatched == mids[0].world.dispatched
  {
    if n > 0 {
      LogKept(mids, order, at, engines, reply, cleared, n - 1);
      assert Concludes(mids, n - 1, order, at, engines, reply, cleared);
    }
  }

  /** The whole loop: wave after wave through the order. */
  ghost predicate CommitRun(order: seq<nat>, scenes: seq<Scene>, at: seq<nat>, engines: seq<Engine>) {
    && |scenes| == |at| > 0 && at[0] == 0
    && forall w :: 0 < w < |at| ==>
         at[w - 1] < at[w] && CommitWaveStep(scenes[0].hooks, scenes[w - 1], scenes[w], order, at[w - 1], at[w] - at[w - 1], engines)
  }

  /** The wave at position `k` counts as an attempt: all but settled and stale hooks do. */
  predicate Attempts(start: seq<Hook>, s: Scene, order: seq<nat>, k: nat, engines: seq<Engine>) {
    && k < |order| && order[k] < |s.hooks| && s.hooks[order[k]].outcome.Prepared?
    && var h := s.hooks[order[k]];
       || GroupsCommit(s, order, k, engines)
       || (FirstVisit(start, order, k, h) && !Preflight(s.hooks, h.spec.domain.value, s.world.generation))
       || h.generation == s.world.generation
  }

  ghost predicate SomeTried(order: seq<nat>, scenes: seq<Scene>, at: seq<nat>, engines: seq<Engine>) {
    exists w :: 0 <= w < |at| - 1 && w < |scenes| && Attempts(scenes[0].hooks, scenes[w], order, at[w], engines)
  }

  lemma TriedMore(order: seq<nat>, scenes: seq<Scene>, at: seq<nat>, engines: seq<Engine>, t: Scene, n: nat)
    requires 0 < |scenes| == |at|
    ensures SomeTried(order, scenes + [t], at + [n], engines) <==>
            SomeTried(order, scenes, at, engines) || Attempts(scenes[0].hooks, scenes[|at| - 1], order, at[|at| - 1], engines)
  {
    hide Attempts;
    var more, ends := scenes + [t], at + [n];
    if SomeTried(order, scenes, at, engines) {
      var w :| 0 <= w < |at| - 1 && w < |scenes| && Attempts(scenes[0].hooks, scenes[w], order, at[w], engines);
      assert Attempts(more[0].hooks, more[w], order, ends[w], engines);
    }
    if Attempts(scenes[0].hooks, scenes[|at| - 1], order, at[|at| - 1], engines) {
      assert Attempts(more[0].hooks, more[|at| - 1], order, ends[|at| - 1], engines);
    }
    if SomeTried(order, more, ends, engines) {
      var w :| 0 <= w < |ends| - 1 && w < |more| && Attempts(more[0].hooks, more[w], order, ends[w], engines);
      assert w < |at| - 1 ==> Attempts(scenes[0].hooks, scenes[w], order, at[w], engines);
    }
  }

  lemma CommitRunStarts(order: seq<nat>, s: Scene, engines: seq<Engine>)
    ensures CommitRun(order, [s], [0], engines) && !SomeTried(order, [s], [0], engines)
  {
  }

  lemma CommitRunMore(order: seq<nat>, scenes: seq<Scene>, at: seq<nat>, engines: seq<Engine>, t: Scene, n: nat)
    requires CommitRun(order, scenes, at, engines) && 0 < n
    requires CommitWaveStep(scenes[0].hooks, scenes[|at| - 1], t, order, at[|at| - 1], n, engines)
    ensures CommitRun(order, scenes + [t], at + [at[|at| - 1] + n], engines)
  {
    hide CommitWaveStep;
  }
}
