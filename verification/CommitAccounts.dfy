/** What a commit reports against what was done: every outcome is traced to the one call it came
    from, and from there, for engines that report honestly, to the memory of its target. */
module CommitAccounts {
  import opened Options
  import opened Mutations
  import opened Routing
  import opened Hooks
  import opened PlanRules
  import opened CommitRules
  import opened CommitGroups

  // ---- every outcome has its call ----

  predicate Concerns(call: Asked, id: nat) {
    match call
    case CommitAsked(i, _) => i == id
    case GroupCommitAsked(ids, _) => id in ids
    case _ => false
  }

  ghost predicate NoneConcerns(calls: seq<Asked>, id: nat) {
    forall p :: 0 <= p < |calls| ==> !Concerns(calls[p], id)
  }

  ghost predicate OnlyConcern(calls: seq<Asked>, p: nat, id: nat) {
    forall q :: 0 <= q < |calls| && q != p ==> !Concerns(calls[q], id)
  }

  ghost predicate SettledInGroup(before: Hook, h: Hook, engine: Engine, ids: seq<nat>, reply: GroupReply, l: nat) {
    && l < |ids| == |reply.answers| && ids[l] == before.id && GroupAnswerable(engine, reply)
    && h == GroupCommitted(before, engine.candidate.caps, TakenAsRestored(reply, l, CompensationFailed(engine, reply)),
                           GroupReport(reply, l))
  }

  ghost predicate SettledAlone(before: Hook, h: Hook, engine: Engine, owner: Option<Owner>, a: CommitAnswer) {
    Answerable(engine.verifies, a) && h == Committed(before, engine.candidate.caps, owner, a)
  }

  /** The hook is what this answer of its engine makes of it. */
  ghost predicate SettledBy(before: Hook, h: Hook, call: Asked, engines: seq<Engine>) {
    before.engine.Some? && before.engine.value < |engines| &&
    var engine := engines[before.engine.value];
    match call
    case CommitAsked(id, a) => id == before.id && exists owner :: SettledAlone(before, h, engine, owner, a)
    case GroupCommitAsked(ids, reply) => exists l :: SettledInGroup(before, h, engine, ids, reply, l)
    case _ => false
  }

  predicate RefusedUnasked(before: Hook, h: Hook) {
    && before.outcome.Prepared? && SameRequest(before, h)
    && (h.outcome.StalePlan? || (h.outcome in {FailedSafe, Conflict} && h.mutation.Unmutated?))
  }

  /** The hook is as it was or was refused, and nobody was asked; or exactly one call was for it,
      and its answer decided. */
  ghost predicate Accounted(before: Hook, h: Hook, calls: seq<Asked>, engines: seq<Engine>) {
    || (NoneConcerns(calls, before.id) && (h == before || RefusedUnasked(before, h)))
    || (before.outcome.Prepared? && h.outcome in Ended && exists p :: AnsweredAt(before, h, calls, p, engines))
  }

  ghost predicate AnsweredAt(before: Hook, h: Hook, calls: seq<Asked>, p: nat, engines: seq<Engine>) {
    p < |calls| && SettledBy(before, h, calls[p], engines) && OnlyConcern(calls, p, before.id)
  }

  ghost predicate AllAccounted(start: seq<Hook>, hooks: seq<Hook>, calls: seq<Asked>, engines: seq<Engine>) {
    |start| == |hooks| && forall j :: 0 <= j < |start| ==> Accounted(start[j], hooks[j], calls, engines)
  }

  // ---- one hook, one more call ----

  lemma StillAccounted(before: Hook, h: Hook, calls: seq<Asked>, engines: seq<Engine>, call: Asked)
    requires Accounted(before, h, calls, engines) && !Concerns(call, before.id)
    ensures Accounted(before, h, calls + [call], engines)
  {
    hide SettledBy, Concerns;
    if !(NoneConcerns(calls, before.id) && (h == before || RefusedUnasked(before, h))) {
      var p :| AnsweredAt(before, h, calls, p, engines);
      assert AnsweredAt(before, h, calls + [call], p, engines);
    }
  }

  lemma NotYetAsked(before: Hook, h: Hook, calls: seq<Asked>, engines: seq<Engine>)
    requires Accounted(before, h, calls, engines) && h.outcome.Prepared?
    ensures h == before && NoneConcerns(calls, before.id)
  {
  }

  lemma RefusedAccounted(before: Hook, h: Hook, done: Hook, calls: seq<Asked>, engines: seq<Engine>)
    requires Accounted(before, h, calls, engines) && h.outcome.Prepared? && RefusedUnasked(h, done)
    ensures Accounted(before, done, calls, engines)
  {
    NotYetAsked(before, h, calls, engines);
  }

  lemma SettledAccounted(before: Hook, h: Hook, done: Hook, calls: seq<Asked>, engines: seq<Engine>, call: Asked)
    requires Accounted(before, h, calls, engines) && h.outcome.Prepared?
    requires SettledBy(h, done, call, engines) && done.outcome in Ended
    ensures Accounted(before, done, calls + [call], engines)
  {
    NotYetAsked(before, h, calls, engines);
    hide SettledBy, Concerns;
    assert AnsweredAt(before, done, calls + [call], |calls|, engines);
  }

  ghost predicate DistinctIds(hooks: seq<Hook>) {
    forall i, j :: 0 <= i < j < |hooks| ==> hooks[i].id != hooks[j].id
  }

  // ---- one wave ----

  // A wave that makes no call.
  lemma QuietWave(start: seq<Hook>, hooks: seq<Hook>, after: seq<Hook>, calls: seq<Asked>, engines: seq<Engine>)
    requires AllAccounted(start, hooks, calls, engines) && |after| == |hooks|
    requires forall j :: 0 <= j < |hooks| ==> after[j] == hooks[j] || RefusedUnasked(hooks[j], after[j])
    ensures AllAccounted(start, after, calls, engines)
  {
    hide Accounted;
    forall j | 0 <= j < |start|
      ensures Accounted(start[j], after[j], calls, engines)
    {
      if after[j] != hooks[j] {
        RefusedAccounted(start[j], hooks[j], after[j], calls, engines);
      }
    }
  }

  // A wave that makes one call: the hooks it was for are settled by it.
  lemma LoudWave(start: seq<Hook>, hooks: seq<Hook>, after: seq<Hook>, calls: seq<Asked>, engines: seq<Engine>, call: Asked)
    requires AllAccounted(start, hooks, calls, engines) && |after| == |hooks|
    requires forall j :: 0 <= j < |hooks| ==>
               if Concerns(call, start[j].id) then
                 hooks[j].outcome.Prepared? && SettledBy(hooks[j], after[j], call, engines) && after[j].outcome in Ended
               else after[j] == hooks[j]
    ensures AllAccounted(start, after, calls + [call], engines)
  {
    hide Accounted, SettledBy, Concerns;
    forall j | 0 <= j < |start|
      ensures Accounted(start[j], after[j], calls + [call], engines)
    {
      if Concerns(call, start[j].id) {
        SettledAccounted(start[j], hooks[j], after[j], calls, engines, call);
      } else {
        StillAccounted(start[j], hooks[j], calls, engines, call);
      }
    }
  }

  // The hooks keep their identities.
  lemma SameIds(start: seq<Hook>, hooks: seq<Hook>, calls: seq<Asked>, engines: seq<Engine>)
    requires AllAccounted(start, hooks, calls, engines)
    ensures forall j :: 0 <= j < |hooks| ==> hooks[j].id == start[j].id
  {
    forall j | 0 <= j < |hooks|
      ensures hooks[j].id == start[j].id
    {
      assert Accounted(start[j], hooks[j], calls, engines);
    }
  }

  lemma MarksQuietly(before: seq<Hook>, after: seq<Hook>, d: nat, generation: nat)
    requires Marks(before, after, d, generation, |before|)
    ensures forall j :: 0 <= j < |before| ==> after[j] == before[j] || RefusedUnasked(before[j], after[j])
  {
  }

  lemma OneWave(start: seq<Hook>, s: Scene, t: Scene, order: seq<nat>, k: nat, calls: seq<Asked>, engines: seq<Engine>)
    returns (more: seq<Asked>)
    requires AllAccounted(start, s.hooks, calls, engines) && DistinctIds(start)
    requires CommitStep(start, s, t, order, k, engines)
    ensures t.world.log == s.world.log + more && AllAccounted(start, t.hooks, calls + more, engines)
  {
    hide AllAccounted, Marks, Preflight, CurrentStep, Seen;
    assert s.world.log + [] == s.world.log && calls + [] == calls;
    var h := s.hooks[order[k]];
    if !h.outcome.Prepared? {
      more := [];
    } else if FirstVisit(start, order, k, h) && !Preflight(s.hooks, h.spec.domain.value, s.world.generation) {
      MarksQuietly(s.hooks, t.hooks, h.spec.domain.value, s.world.generation);
      MarksLength(s.hooks, t.hooks, h.spec.domain.value, s.world.generation);
      QuietWave(start, s.hooks, t.hooks, calls, engines);
      more := [];
    } else {
      more := OneCurrent(start, s, t, order[k], calls, engines);
    }
  }

  lemma MarksLength(before: seq<Hook>, after: seq<Hook>, d: nat, generation: nat)
    requires Marks(before, after, d, generation, |before|)
    ensures |after| == |before|
  {
  }

  lemma OneCurrent(start: seq<Hook>, s: Scene, t: Scene, i: nat, calls: seq<Asked>, engines: seq<Engine>)
    returns (more: seq<Asked>)
    requires AllAccounted(start, s.hooks, calls, engines) && DistinctIds(start)
    requires CurrentStep(s, t, i, engines) && s.hooks[i].outcome.Prepared?
    ensures t.world.log == s.world.log + more && AllAccounted(start, t.hooks, calls + more, engines)
  {
    hide AllAccounted, DependenciesActive, CommitHeardAt;
    assert s.world.log + [] == s.world.log && calls + [] == calls;
    var h := s.hooks[i];
    more := [];
    if h.generation != s.world.generation || !DependenciesActive(s.hooks, h) {
      QuietWave(start, s.hooks, t.hooks, calls, engines);
    } else {
      var a :| CommitHeardAt(s, t, i, engines, a);
      more := OneHeard(start, s, t, i, calls, engines, a);
    }
  }

  lemma OneHeard(start: seq<Hook>, s: Scene, t: Scene, i: nat, calls: seq<Asked>, engines: seq<Engine>, a: CommitAnswer)
    returns (more: seq<Asked>)
    requires AllAccounted(start, s.hooks, calls, engines) && DistinctIds(start)
    requires i < |s.hooks| && CommitHeardAt(s, t, i, engines, a) && s.hooks[i].outcome.Prepared?
    ensures t.world.log == s.world.log + more && AllAccounted(start, t.hooks, calls + more, engines)
  {
    hide Accounted, Chainable, Committed;
    var h := s.hooks[i];
    var engine := engines[h.engine.value];
    var owner := OwnerIn(s.world.ledger, h.spec.key);
    SameIds(start, s.hooks, calls, engines);
    if Chainable(engine.candidate.caps, h.spec.request.kind, owner) {
      assert SettledAlone(h, t.hooks[i], engine, owner, a);
      CommittedEnds(h, engine.candidate.caps, owner, a);
      more := [CommitAsked(h.id, a)];
      assert SettledBy(h, t.hooks[i], more[0], engines);
      LoudWave(start, s.hooks, t.hooks, calls, engines, more[0]);
    } else {
      more := [];
      assert s.world.log + [] == s.world.log && calls + [] == calls;
      QuietWave(start, s.hooks, t.hooks, calls, engines);
    }
  }

  // ---- one group ----

  // The positions of a group: distinct ones, where the order has them.
  ghost predicate Span(span: seq<nat>, order: seq<nat>, at: nat, hooks: nat) {
    && at + |span| <= |order| && span == order[at..at + |span|] && Injective(span)
    && forall l :: 0 <= l < |span| ==> span[l] < hooks
  }

  ghost predicate ConcludedAs(before: seq<Hook>, after: seq<Hook>, i: nat, engines: seq<Engine>, reply: GroupReply,
                              cleared: bool, l: nat)
  {
    && i < |before| == |after| && l < |reply.answers| && before[i].engine.Some? && before[i].engine.value < |engines|
    && after[i] == GroupCommitted(before[i], engines[before[i].engine.value].candidate.caps,
                                  TakenAsRestored(reply, l, cleared), GroupReport(reply, l))
  }

  /** The first `n` hooks of a group have been concluded, and nothing else has changed. */
  ghost predicate GroupConcludedTo(before: seq<Hook>, after: seq<Hook>, span: seq<nat>, n: nat, engines: seq<Engine>,
                                   reply: GroupReply, cleared: bool)
  {
    && n <= |span| && |after| == |before|
    && (forall l :: 0 <= l < n ==> ConcludedAs(before, after, span[l], engines, reply, cleared, l))
    && (forall j :: 0 <= j < |before| && j !in span[..n] ==> after[j] == before[j])
  }

  // What concluding the operations one after the other makes of each hook.
  lemma {:induction false} GroupUnfolds(mids: seq<Scene>, span: seq<nat>, order: seq<nat>, at: nat, engines: seq<Engine>,
                                        reply: GroupReply, cleared: bool, n: nat)
    requires n < |mids| && n <= |span| == |reply.answers| && Span(span, order, at, |mids[0].hooks|)
    requires forall l :: 0 <= l < n ==> Concludes(mids, l, order, at, engines, reply, cleared)
    ensures GroupConcludedTo(mids[0].hooks, mids[n].hooks, span, n, engines, reply, cleared)
  {
    if n > 0 {
      GroupUnfolds(mids, span, order, at, engines, reply, cleared, n - 1);
      assert Concludes(mids, n - 1, order, at, engines, reply, cleared);
      assert order[at + n - 1] == span[n - 1];
      UnfoldOne(mids[0].hooks, mids[n - 1], mids[n], span, engines, reply, cleared, n);
    }
  }

  lemma UnfoldOne(first: seq<Hook>, s: Scene, t: Scene, span: seq<nat>, engines: seq<Engine>,
                  reply: GroupReply, cleared: bool, n: nat)
    requires 0 < n <= |span| == |reply.answers| && Injective(span) && span[n - 1] < |first|
    requires GroupConcludedTo(first, s.hooks, span, n - 1, engines, reply, cleared)
    requires GroupOne(s, t, span[n - 1], engines, TakenAsRestored(reply, n - 1, cleared), GroupReport(reply, n - 1))
    ensures GroupConcludedTo(first, t.hooks, span, n, engines, reply, cleared)
  {
    hide GroupCommitted, GroupReport, GroupRecords;
    var i := span[n - 1];
    assert span[..n] == span[..n - 1] + [i];
    forall l | 0 <= l < n
      ensures ConcludedAs(first, t.hooks, span[l], engines, reply, cleared, l)
    {
      if l < n - 1 {
        assert ConcludedAs(first, s.hooks, span[l], engines, reply, cleared, l);
        assert span[l] != i;
      }
    }
  }

  lemma GroupWave(start: seq<Hook>, s: Scene, t: Scene, order: seq<nat>, at: nat, n: nat, calls: seq<Asked>, engines: seq<Engine>)
    returns (more: seq<Asked>)
    requires AllAccounted(start, s.hooks, calls, engines) && DistinctIds(start) && Injective(order)
    requires GroupsCommit(s, order, at, engines) && SpansCommit(s, order, at, n) && GroupCommitStep(s, t, order, at, n, engines)
    ensures t.world.log == s.world.log + more && AllAccounted(start, t.hooks, calls + more, engines)
  {
    hide GroupOne, CompensationFailed, AllAccounted, GroupCommitted, GroupReport, Concludes, GroupAnswerable, GroupConcludedTo;
    var reply, mids :|
      GroupCommitHeard(s, t, order, at, n, engines, reply, mids);
    var engine := engines[s.hooks[order[at]].engine.value];
    var cleared := CompensationFailed(engine, reply);
    var span := order[at..at + n];
    GroupUnfolds(mids, span, order, at, engines, reply, cleared, n);
    LogKept(mids, order, at, engines, reply, cleared, n);
    var ids := IdsInOrder(Gather(s.hooks, order, at, n));
    more := [GroupCommitAsked(ids, reply)];
    forall l | 0 <= l < n
      ensures GroupMember(s.hooks, span[l], engines, engine) && ids[l] == s.hooks[span[l]].id
    {
      assert span[l] == order[at + l];
    }
    GroupSettles(start, s.hooks, t.hooks, span, calls, engines, engine, ids, reply);
  }

  ghost predicate GroupMember(hooks: seq<Hook>, i: nat, engines: seq<Engine>, engine: Engine) {
    && i < |hooks| && hooks[i].outcome.Prepared? && hooks[i].engine.Some? && hooks[i].engine.value < |engines|
    && engines[hooks[i].engine.value] == engine
  }

  lemma GroupSettles(start: seq<Hook>, hooks: seq<Hook>, after: seq<Hook>, span: seq<nat>, calls: seq<Asked>, engines: seq<Engine>,
                     engine: Engine, ids: seq<nat>, reply: GroupReply)
    requires AllAccounted(start, hooks, calls, engines) && DistinctIds(start) && GroupAnswerable(engine, reply)
    requires |span| == |ids| == |reply.answers| && Injective(span)
    requires forall l :: 0 <= l < |span| ==> GroupMember(hooks, span[l], engines, engine) && ids[l] == hooks[span[l]].id
    requires GroupConcludedTo(hooks, after, span, |span|, engines, reply, CompensationFailed(engine, reply))
    ensures AllAccounted(start, after, calls + [GroupCommitAsked(ids, reply)], engines)
  {
    hide Accounted, CompensationFailed, GroupCommitted, GroupReport, GroupAnswerable, SettledBy, ConcludedAs;
    var call := GroupCommitAsked(ids, reply);
    SameIds(start, hooks, calls, engines);
    assert span[..|span|] == span;
    forall l | 0 <= l < |span|
      ensures Concerns(call, start[span[l]].id)
    {
      assert ids[l] == start[span[l]].id;
    }
    forall j | 0 <= j < |hooks|
      ensures if Concerns(call, start[j].id) then
                hooks[j].outcome.Prepared? && SettledBy(hooks[j], after[j], call, engines) && after[j].outcome in Ended
              else after[j] == hooks[j]
    {
      if Concerns(call, start[j].id) {
        var l :| 0 <= l < |ids| && ids[l] == start[j].id;
        assert hooks[span[l]].id == start[j].id && start[span[l]].id == start[j].id && span[l] == j;
        SettledOne(hooks, after, j, engines, engine, ids, reply, l);
      }
    }
    LoudWave(start, hooks, after, calls, engines, call);
  }

  lemma SettledOne(before: seq<Hook>, after: seq<Hook>, i: nat, engines: seq<Engine>, engine: Engine, ids: seq<nat>,
                   reply: GroupReply, l: nat)
    requires ConcludedAs(before, after, i, engines, reply, CompensationFailed(engine, reply), l)
    requires GroupMember(before, i, engines, engine)
    requires l < |ids| == |reply.answers| && ids[l] == before[i].id && GroupAnswerable(engine, reply)
    ensures SettledBy(before[i], after[i], GroupCommitAsked(ids, reply), engines)
    ensures after[i].outcome in Ended
  {
    hide CompensationFailed, GroupReport, GroupCommitted, GroupAnswerable;
    var restored := TakenAsRestored(reply, l, CompensationFailed(engine, reply));
    GroupEnds(before[i], engine.candidate.caps, restored, GroupReport(reply, l));
    assert SettledInGroup(before[i], after[i], engine, ids, reply, l);
  }

  // ---- the whole loop ----

  lemma NothingCalled(start: seq<Hook>, engines: seq<Engine>)
    ensures AllAccounted(start, start, [], engines)
  {
    hide AnsweredAt;
  }

  /** Over a whole commit every hook is accounted for: it is as it was or was refused unasked, or
      the one call made for it decided what it is. */
  lemma {:induction false} EveryOutcomeHasItsCall(order: seq<nat>, scenes: seq<Scene>, at: seq<nat>, engines: seq<Engine>, w: nat)
    returns (calls: seq<Asked>)
    requires CommitRun(order, scenes, at, engines) && w < |scenes|
    requires DistinctIds(scenes[0].hooks) && Injective(order)
    ensures scenes[w].world.log == scenes[0].world.log + calls
    ensures AllAccounted(scenes[0].hooks, scenes[w].hooks, calls, engines)
  {
    hide AllAccounted, CommitStep, GroupCommitStep, GroupsCommit, SpansCommit;
    if w == 0 {
      NothingCalled(scenes[0].hooks, engines);
      assert scenes[0].world.log + [] == scenes[0].world.log;
      calls := [];
    } else {
      calls := EveryOutcomeHasItsCall(order, scenes, at, engines, w - 1);
      var k, n := at[w - 1], at[w] - at[w - 1];
      assert CommitWaveStep(scenes[0].hooks, scenes[w - 1], scenes[w], order, k, n, engines);
      var more: seq<Asked>;
      if GroupsCommit(scenes[w - 1], order, k, engines) {
        more := GroupWave(scenes[0].hooks, scenes[w - 1], scenes[w], order, k, n, calls, engines);
      } else {
        more := OneWave(scenes[0].hooks, scenes[w - 1], scenes[w], order, k, calls, engines);
      }
      assert scenes[0].world.log + calls + more == scenes[0].world.log + (calls + more);
      calls := calls + more;
    }
  }
}
