/** What the outcomes of a commit say of memory when every engine reports honestly. A hook's site is
    the memory its engine is to change: for each address of it, the byte that is to go there. */
module HonestEngines {
  import opened Options
  import opened Mutations
  import opened Routing
  import opened Hooks
  import opened PlanRules
  import opened CommitRules
  import opened CommitGroups
  import opened CommitAccounts

  datatype Site<!A> = Site(bytes: A -> Option<bv8>)

  type Sites<!A> = nat -> Site<A>      // by hook

  ghost predicate SameThere<A(!new)>(m: A -> bv8, n: A -> bv8, site: Site<A>) {
    forall b: A :: site.bytes(b).Some? ==> m(b) == n(b)
  }

  /** The whole replacement is in place. */
  ghost predicate InPlace<A(!new)>(m: A -> bv8, site: Site<A>) {
    forall b: A :: site.bytes(b).Some? ==> m(b) == site.bytes(b).value
  }

  /** Nothing but these hooks' sites has changed. */
  ghost predicate OnlyAt<A(!new)>(m: A -> bv8, n: A -> bv8, ids: seq<nat>, sites: Sites<A>) {
    forall b: A :: (forall i :: 0 <= i < |ids| ==> sites(ids[i]).bytes(b).None?) ==> m(b) == n(b)
  }

  /** No other hook writes where this one does. */
  ghost predicate ItsOwn<A(!new)>(id: nat, sites: Sites<A>) {
    forall i: nat, b: A :: i != id && sites(id).bytes(b).Some? ==> sites(i).bytes(b).None?
  }

  /** A report that proves no write, or a full one. */
  ghost predicate Truthful<A(!new)>(mutation: Mutation, m: A -> bv8, n: A -> bv8, site: Site<A>) {
    (mutation.Unmutated? ==> SameThere(m, n, site)) && (mutation.Complete? ==> InPlace(n, site))
  }

  /** A grouped commit from `m` to `mid`, and what its compensation makes of that: an operation
      reported as compensated is as it was, any other as the commit left it. Compensation that fails
      as a whole promises nothing of the group's sites. */
  ghost predicate TruthfulGroup<A(!new)>(ids: seq<nat>, engineOf: nat -> Engine, reply: GroupReply, m: A -> bv8, mid: A -> bv8,
                                         n: A -> bv8, sites: Sites<A>)
  {
    && |ids| == |reply.answers| && OnlyAt(m, mid, ids, sites) && OnlyAt(mid, n, ids, sites)
    && forall l :: 0 <= l < |ids| ==> TruthfulInGroup(engineOf(ids[l]), reply, l, m, mid, n, sites(ids[l]))
  }

  ghost predicate TruthfulInGroup<A(!new)>(engine: Engine, reply: GroupReply, l: nat, m: A -> bv8, mid: A -> bv8, n: A -> bv8,
                                           site: Site<A>)
  {
    && l < |reply.answers| && Truthful(GroupReport(reply, l).mutation, m, mid, site)
    && (!CompensationFailed(engine, reply) ==> SameThere(if reply.answers[l].compensated then m else mid, n, site))
  }

  /** An engine that can read back does so. */
  predicate Speaks(verifies: bool, a: CommitAnswer) {
    verifies ==> !a.verification.Unavailable?
  }

  ghost predicate Honest<A(!new)>(call: Asked, engineOf: nat -> Engine, m: A -> bv8, n: A -> bv8, sites: Sites<A>) {
    match call
    case CommitAsked(id, a) =>
      OnlyAt(m, n, [id], sites) && Truthful(a.mutation, m, n, sites(id)) && Speaks(engineOf(id).verifies, a)
    case GroupCommitAsked(ids, reply) =>
      && (exists mid :: TruthfulGroup(ids, engineOf, reply, m, mid, n, sites))
      && |ids| == |reply.answers|
      && forall l :: 0 <= l < |ids| ==> Speaks(engineOf(ids[l]).verifies || engineOf(ids[l]).verifiesGroup, reply.answers[l])
    case _ => m == n
  }

  /** Memory before, between and after the calls, which alone change it. */
  ghost predicate AllHonest<A(!new)>(calls: seq<Asked>, engineOf: nat -> Engine, mems: seq<A -> bv8>, sites: Sites<A>) {
    && |mems| == |calls| + 1
    && forall p :: 0 <= p < |calls| ==> Honest(calls[p], engineOf, mems[p], mems[p + 1], sites)
  }

  /** An engine that changes its site alone, reports that truthfully and reads back has made an
      honest call. */
  lemma HonestAlone<A(!new)>(id: nat, a: CommitAnswer, engineOf: nat -> Engine, m: A -> bv8, n: A -> bv8, sites: Sites<A>)
    requires Truthful(a.mutation, m, n, sites(id)) && Speaks(engineOf(id).verifies, a)
    requires forall b: A :: sites(id).bytes(b).None? ==> n(b) == m(b)
    ensures Honest(CommitAsked(id, a), engineOf, m, n, sites)
  {
    hide Truthful;
    forall b: A | forall i :: 0 <= i < |[id]| ==> sites([id][i]).bytes(b).None?
      ensures m(b) == n(b)
    {
      assert sites([id][0]).bytes(b).None?;
    }
  }

  // ---- what a call leaves alone ----

  lemma OthersKept<A(!new)>(call: Asked, engineOf: nat -> Engine, m: A -> bv8, n: A -> bv8, sites: Sites<A>, id: nat)
    requires Honest(call, engineOf, m, n, sites) && !Concerns(call, id) && ItsOwn(id, sites)
    ensures SameThere(m, n, sites(id))
  {
    hide TruthfulInGroup, Truthful;
    match call
    case CommitAsked(i, _) =>
      OnlyOthers(m, n, [i], sites, id);
    case GroupCommitAsked(ids, reply) =>
      var mid :| TruthfulGroup(ids, engineOf, reply, m, mid, n, sites);
      OnlyOthers(m, mid, ids, sites, id);
      OnlyOthers(mid, n, ids, sites, id);
    case _ =>
  }

  lemma OnlyOthers<A(!new)>(m: A -> bv8, n: A -> bv8, ids: seq<nat>, sites: Sites<A>, id: nat)
    requires OnlyAt(m, n, ids, sites) && id !in ids && ItsOwn(id, sites)
    ensures SameThere(m, n, sites(id))
  {
  }

  lemma {:induction false} KeptFrom<A(!new)>(calls: seq<Asked>, engineOf: nat -> Engine, mems: seq<A -> bv8>, sites: Sites<A>,
                                             id: nat, p: nat, q: nat)
    requires AllHonest(calls, engineOf, mems, sites) && ItsOwn(id, sites) && p <= q <= |calls|
    requires forall r :: p <= r < q ==> !Concerns(calls[r], id)
    ensures SameThere(mems[p], mems[q], sites(id))
    decreases q - p
  {
    hide Honest, ItsOwn, Concerns;
    if p < q {
      KeptFrom(calls, engineOf, mems, sites, id, p, q - 1);
      OthersKept(calls[q - 1], engineOf, mems[q - 1], mems[q], sites, id);
    }
  }

  // ---- what the outcome says ----

  /** Refused, whether by the core or by its engine, before anything was written; an engine's report
      of no write that came with an undeclared effect is not taken for one. */
  predicate CleanlyRefused(before: Hook, h: Hook) {
    h == before || h.outcome.StalePlan? || h.mutation.Unmutated?
  }

  ghost predicate Says<A(!new)>(before: Hook, h: Hook, engine: Engine, m: A -> bv8, n: A -> bv8, site: Site<A>) {
    && (CleanlyRefused(before, h) || h.outcome.Compensated? ==> SameThere(m, n, site))
    && (h.outcome.Active? ==>
          && InPlace(n, site) && (engine.verifies ==> h.verified)
          && (h.verified ==> engine.verifies || engine.verifiesGroup))
  }

  lemma SaysAlone<A(!new)>(before: Hook, h: Hook, engine: Engine, owner: Option<Owner>, a: CommitAnswer, m: A -> bv8, n: A -> bv8,
                           site: Site<A>)
    requires before.outcome.Prepared? && SettledAlone(before, h, engine, owner, a)
    requires Truthful(a.mutation, m, n, site) && Speaks(engine.verifies, a)
    ensures Says(before, h, engine, m, n, site)
  {
    hide SameThere, InPlace;
    VerdictIsHonest(engine.candidate.caps, owner, a);
  }

  lemma SaysInGroup<A(!new)>(before: Hook, h: Hook, engine: Engine, ids: seq<nat>, reply: GroupReply, l: nat, m: A -> bv8,
                             mid: A -> bv8, n: A -> bv8, site: Site<A>)
    requires before.outcome.Prepared? && SettledInGroup(before, h, engine, ids, reply, l)
    requires TruthfulInGroup(engine, reply, l, m, mid, n, site) && !CompensationFailed(engine, reply)
    requires Speaks(engine.verifies || engine.verifiesGroup, reply.answers[l])
    ensures Says(before, h, engine, m, n, site)
  {
    hide CompensationFailed;
    var a := GroupReport(reply, l);
    VerdictIsHonest(engine.candidate.caps, None, a);
    assert Answerable(engine.verifies || engine.verifiesGroup, reply.answers[l]);
  }

  /** The compensation of a group this hook was in was called and failed. */
  predicate Spoils(call: Asked, id: nat, engine: Engine) {
    call.GroupCommitAsked? && id in call.ids && CompensationFailed(engine, call.reply)
  }

  ghost predicate Spoilt(calls: seq<Asked>, id: nat, engine: Engine) {
    exists p :: 0 <= p < |calls| && Spoils(calls[p], id, engine)
  }

  // One hook: what its one call did to its site stays, since no other call touches that.
  lemma OutcomeTellsTheTruth<A(!new)>(before: Hook, h: Hook, calls: seq<Asked>, engines: seq<Engine>, engineOf: nat -> Engine,
                                      mems: seq<A -> bv8>, sites: Sites<A>)
    requires Accounted(before, h, calls, engines) && before.outcome.Prepared?
    requires before.engine.Some? && before.engine.value < |engines| && engineOf(before.id) == engines[before.engine.value]
    requires AllHonest(calls, engineOf, mems, sites) && ItsOwn(before.id, sites)
    requires !Spoilt(calls, before.id, engineOf(before.id))
    ensures Says(before, h, engineOf(before.id), mems[0], mems[|calls|], sites(before.id))
  {
    hide ItsOwn, Honest, SettledBy, Concerns, SameThere, InPlace;
    if NoneConcerns(calls, before.id) && (h == before || RefusedUnasked(before, h)) {
      KeptFrom(calls, engineOf, mems, sites, before.id, 0, |calls|);
    } else {
      var p: nat :| AnsweredAt(before, h, calls, p, engines);
      KeptFrom(calls, engineOf, mems, sites, before.id, 0, p);
      KeptFrom(calls, engineOf, mems, sites, before.id, p + 1, |calls|);
      SaysAt(before, h, calls[p], engines, engineOf, mems[p], mems[p + 1], sites);
      Around(before, h, engineOf(before.id), mems[0], mems[p], mems[p + 1], mems[|calls|], sites(before.id));
    }
  }

  lemma SaysAt<A(!new)>(before: Hook, h: Hook, call: Asked, engines: seq<Engine>, engineOf: nat -> Engine, m: A -> bv8, n: A -> bv8,
                        sites: Sites<A>)
    requires before.outcome.Prepared? && SettledBy(before, h, call, engines) && engineOf(before.id) == engines[before.engine.value]
    requires Honest(call, engineOf, m, n, sites) && !Spoils(call, before.id, engineOf(before.id))
    ensures Says(before, h, engineOf(before.id), m, n, sites(before.id))
  {
    hide SettledAlone, SettledInGroup, Says, Truthful, TruthfulInGroup, OnlyAt, Speaks;
    var engine := engines[before.engine.value];
    match call
    case CommitAsked(id, a) =>
      var owner :| SettledAlone(before, h, engine, owner, a);
      SaysAlone(before, h, engine, owner, a, m, n, sites(id));
    case GroupCommitAsked(ids, reply) =>
      var l: nat :| SettledInGroup(before, h, engine, ids, reply, l);
      InRange(before, h, engine, ids, reply, l);
      var mid :| TruthfulGroup(ids, engineOf, reply, m, mid, n, sites);
      SaysInGroup(before, h, engine, ids, reply, l, m, mid, n, sites(ids[l]));
  }

  lemma InRange(before: Hook, h: Hook, engine: Engine, ids: seq<nat>, reply: GroupReply, l: nat)
    requires SettledInGroup(before, h, engine, ids, reply, l)
    ensures l < |ids| == |reply.answers| && ids[l] == before.id
  {
  }

  lemma Around<A(!new)>(before: Hook, h: Hook, engine: Engine, m0: A -> bv8, m: A -> bv8, n: A -> bv8, n1: A -> bv8, site: Site<A>)
    requires SameThere(m0, m, site) && SameThere(n, n1, site) && Says(before, h, engine, m, n, site)
    ensures Says(before, h, engine, m0, n1, site)
  {
  }

  /** Prepared, by an engine there is, to change memory that no other hook changes. */
  ghost predicate OnItsOwn<A(!new)>(before: Hook, engines: seq<Engine>, engineOf: nat -> Engine, sites: Sites<A>) {
    before.outcome.Prepared? ==>
      && before.engine.Some? && before.engine.value < |engines| && engineOf(before.id) == engines[before.engine.value]
      && ItsOwn(before.id, sites)
  }

  /** Refusal is clean across the layers, and success is real. With engines that report honestly,
      every hook of a commit that was refused or compensated has its site as it was before the
      commit; every active one has its whole replacement in place, verified if its engine has a
      verifier. Only a hook of a group whose compensation failed is excepted. */
  lemma OutcomesTellTheTruth<A(!new)>(start: seq<Hook>, hooks: seq<Hook>, calls: seq<Asked>, engines: seq<Engine>,
                                      engineOf: nat -> Engine, mems: seq<A -> bv8>, sites: Sites<A>)
    requires AllAccounted(start, hooks, calls, engines) && AllHonest(calls, engineOf, mems, sites)
    requires forall j :: 0 <= j < |start| ==> OnItsOwn(start[j], engines, engineOf, sites)
    ensures forall j :: 0 <= j < |start| && start[j].outcome.Prepared? && !Spoilt(calls, start[j].id, engineOf(start[j].id)) ==>
              Says(start[j], hooks[j], engineOf(start[j].id), mems[0], mems[|calls|], sites(start[j].id))
  {
    hide Accounted, ItsOwn, Honest, Says, Spoilt;
    forall j | 0 <= j < |start| && start[j].outcome.Prepared? && !Spoilt(calls, start[j].id, engineOf(start[j].id))
      ensures Says(start[j], hooks[j], engineOf(start[j].id), mems[0], mems[|calls|], sites(start[j].id))
    {
      assert OnItsOwn(start[j], engines, engineOf, sites);
      OutcomeTellsTheTruth(start[j], hooks[j], calls, engines, engineOf, mems, sites);
    }
  }

  predicate CanCompensate(engine: Engine) { engine.compensates && engine.candidate.caps.compensation }

  /** With engines that do not compensate, that is every hook. */
  lemma WithoutCompensation<A(!new)>(start: seq<Hook>, hooks: seq<Hook>, calls: seq<Asked>, engines: seq<Engine>,
                                     engineOf: nat -> Engine, mems: seq<A -> bv8>, sites: Sites<A>)
    requires AllAccounted(start, hooks, calls, engines) && AllHonest(calls, engineOf, mems, sites)
    requires forall j :: 0 <= j < |start| ==> OnItsOwn(start[j], engines, engineOf, sites)
    requires forall j :: 0 <= j < |start| && start[j].outcome.Prepared? ==> !CanCompensate(engineOf(start[j].id))
    ensures forall j :: 0 <= j < |start| && start[j].outcome.Prepared? ==>
              Says(start[j], hooks[j], engineOf(start[j].id), mems[0], mems[|calls|], sites(start[j].id))
  {
    hide AllAccounted, AllHonest, OnItsOwn, Says, NeedsCompensation;
    OutcomesTellTheTruth(start, hooks, calls, engines, engineOf, mems, sites);
  }

  // ---- where a group can mislead ----

  /** The site's bytes changed to what they must not be. */
  function Defaced<A(!new)>(m: A -> bv8, site: Site<A>): A -> bv8 {
    b => match site.bytes(b) case Some(byte) => !byte case None => m(b)
  }

  /** A verifier that is asked after everything else accepts only what it finds in place. */
  ghost predicate ReadTruly<A(!new)>(call: Asked, engineOf: nat -> Engine, n: A -> bv8, sites: Sites<A>) {
    match call
    case CommitAsked(id, a) => a.verification.Verified? ==> InPlace(n, sites(id))
    case GroupCommitAsked(ids, reply) =>
      forall l :: 0 <= l < |ids| && l < |reply.answers| && !engineOf(ids[l]).verifiesGroup ==>
        reply.answers[l].verification.Verified? ==> InPlace(n, sites(ids[l]))
    case _ => true
  }

  ghost predicate AllReadTruly<A(!new)>(calls: seq<Asked>, engineOf: nat -> Engine, mems: seq<A -> bv8>, sites: Sites<A>) {
    |mems| == |calls| + 1 && forall p :: 0 <= p < |calls| ==> ReadTruly(calls[p], engineOf, mems[p + 1], sites)
  }

  /** Nothing is read back after the compensation: the group's verifier has spoken before. */
  predicate Blind(engine: Engine) { engine.verifiesGroup || !engine.verifies }

  lemma DefacedThere<A(!new)>(m: A -> bv8, sites: Sites<A>, id: nat, i: nat)
    requires ItsOwn(id, sites) && i != id
    ensures SameThere(m, Defaced(m, sites(id)), sites(i))
  {
    forall b: A | sites(i).bytes(b).Some?
      ensures Defaced(m, sites(id))(b) == m(b)
    {
      assert sites(id).bytes(b).None?;
    }
  }

  // Calls for other hooks do not notice.
  lemma OthersHonest<A(!new)>(call: Asked, engineOf: nat -> Engine, m: A -> bv8, n: A -> bv8, sites: Sites<A>, id: nat)
    requires Honest(call, engineOf, m, n, sites) && !Concerns(call, id) && ItsOwn(id, sites)
    ensures Honest(call, engineOf, Defaced(m, sites(id)), Defaced(n, sites(id)), sites)
    ensures ReadTruly(call, engineOf, n, sites) ==> ReadTruly(call, engineOf, Defaced(n, sites(id)), sites)
  {
    hide ItsOwn, Defaced, CompensationFailed, GroupReport, Speaks;
    var m', n' := Defaced(m, sites(id)), Defaced(n, sites(id));
    match call
    case CommitAsked(i, a) =>
      DefacedThere(m, sites, id, i);
      DefacedThere(n, sites, id, i);
      DefacedBoth(m, n, [i], sites, id);
    case GroupCommitAsked(ids, reply) =>
      var mid :| TruthfulGroup(ids, engineOf, reply, m, mid, n, sites);
      var mid' := Defaced(mid, sites(id));
      DefacedBoth(m, mid, ids, sites, id);
      DefacedBoth(mid, n, ids, sites, id);
      forall l | 0 <= l < |ids|
        ensures TruthfulInGroup(engineOf(ids[l]), reply, l, m', mid', n', sites(ids[l]))
        ensures InPlace(n, sites(ids[l])) ==> InPlace(n', sites(ids[l]))
      {
        assert TruthfulInGroup(engineOf(ids[l]), reply, l, m, mid, n, sites(ids[l]));
        DefacedThere(m, sites, id, ids[l]);
        DefacedThere(mid, sites, id, ids[l]);
        DefacedThere(n, sites, id, ids[l]);
      }
      assert TruthfulGroup(ids, engineOf, reply, m', mid', n', sites);
    case _ =>
  }

  lemma DefacedBoth<A(!new)>(m: A -> bv8, n: A -> bv8, ids: seq<nat>, sites: Sites<A>, id: nat)
    requires OnlyAt(m, n, ids, sites)
    ensures OnlyAt(Defaced(m, sites(id)), Defaced(n, sites(id)), ids, sites)
  {
  }

  // The failed compensation of its group may have left it so.
  lemma SpoilerHonest<A(!new)>(call: Asked, engineOf: nat -> Engine, m: A -> bv8, n: A -> bv8, sites: Sites<A>, id: nat)
    requires Honest(call, engineOf, m, n, sites) && Spoils(call, id, engineOf(id)) && ItsOwn(id, sites)
    ensures Honest(call, engineOf, m, Defaced(n, sites(id)), sites)
    ensures call.GroupCommitAsked?
    ensures Blind(engineOf(id)) && GroupAnswerable(engineOf(id), call.reply) && ReadTruly(call, engineOf, n, sites) ==>
              ReadTruly(call, engineOf, Defaced(n, sites(id)), sites)
  {
    hide ItsOwn, CompensationFailed, GroupReport, Speaks, Truthful;
    var ids, reply, n' := call.ids, call.reply, Defaced(n, sites(id));
    var mid :| TruthfulGroup(ids, engineOf, reply, m, mid, n, sites);
    forall b: A | forall i :: 0 <= i < |ids| ==> sites(ids[i]).bytes(b).None?
      ensures mid(b) == n'(b)
    {
      var i :| 0 <= i < |ids| && ids[i] == id;
      assert sites(ids[i]).bytes(b).None?;
    }
    hide Defaced;
    forall l | 0 <= l < |ids|
      ensures TruthfulInGroup(engineOf(ids[l]), reply, l, m, mid, n', sites(ids[l]))
      ensures ids[l] != id && InPlace(n, sites(ids[l])) ==> InPlace(n', sites(ids[l]))
    {
      assert TruthfulInGroup(engineOf(ids[l]), reply, l, m, mid, n, sites(ids[l]));
      if ids[l] != id {
        DefacedThere(n, sites, id, ids[l]);
      }
    }
    assert TruthfulGroup(ids, engineOf, reply, m, mid, n', sites);
  }

  // From a commit whose compensation failed, another one like it that leaves the site defaced.
  lemma Deface<A(!new)>(calls: seq<Asked>, p: nat, engineOf: nat -> Engine, mems: seq<A -> bv8>, sites: Sites<A>, id: nat)
    returns (later: seq<A -> bv8>)
    requires AllHonest(calls, engineOf, mems, sites) && ItsOwn(id, sites)
    requires p < |calls| && OnlyConcern(calls, p, id) && Spoils(calls[p], id, engineOf(id))
    ensures calls[p].GroupCommitAsked?
    ensures AllHonest(calls, engineOf, later, sites) && later[0] == mems[0]
    ensures later[|calls|] == Defaced(mems[|calls|], sites(id))
    ensures Blind(engineOf(id)) && GroupAnswerable(engineOf(id), calls[p].reply) && AllReadTruly(calls, engineOf, mems, sites) ==>
              AllReadTruly(calls, engineOf, later, sites)
  {
    hide Honest, ItsOwn, Concerns, Spoils, Defaced, ReadTruly, GroupAnswerable;
    later := seq(|mems|, q requires 0 <= q < |mems| => if q <= p then mems[q] else Defaced(mems[q], sites(id)));
    assert calls[p].GroupCommitAsked? by {
      SpoilerHonest(calls[p], engineOf, mems[p], mems[p + 1], sites, id);
    }
    var answerable := Blind(engineOf(id)) && GroupAnswerable(engineOf(id), calls[p].reply);
    forall q | 0 <= q < |calls|
      ensures Honest(calls[q], engineOf, later[q], later[q + 1], sites)
      ensures answerable && ReadTruly(calls[q], engineOf, mems[q + 1], sites) ==> ReadTruly(calls[q], engineOf, later[q + 1], sites)
    {
      assert Honest(calls[q], engineOf, mems[q], mems[q + 1], sites);
      if q == p {
        SpoilerHonest(calls[q], engineOf, mems[q], mems[q + 1], sites, id);
      } else if q > p {
        OthersHonest(calls[q], engineOf, mems[q], mems[q + 1], sites, id);
      }
    }
  }

  lemma NotInPlace<A(!new)>(m: A -> bv8, site: Site<A>)
    requires exists b: A :: site.bytes(b).Some?
    ensures !InPlace(Defaced(m, site), site)
  {
    var b: A :| site.bytes(b).Some?;
    OtherByte(site.bytes(b).value);
    assert Defaced(m, site)(b) == !site.bytes(b).value;
  }

  lemma OtherByte(x: bv8)
    ensures !x != x
  {
  }

  /** An active hook's replacement is in place whatever honest engines did, exactly if no group it
      was in had its compensation fail: a failed compensation may have undone it, or worse, and the
      hook stays active, even verified. */
  lemma ActiveExactly<A(!new)>(before: Hook, h: Hook, calls: seq<Asked>, engines: seq<Engine>, engineOf: nat -> Engine,
                               mems: seq<A -> bv8>, sites: Sites<A>)
    requires Accounted(before, h, calls, engines) && before.outcome.Prepared? && h.outcome.Active?
    requires OnItsOwn(before, engines, engineOf, sites) && AllHonest(calls, engineOf, mems, sites)
    requires exists b: A :: sites(before.id).bytes(b).Some?
    ensures (forall later :: AllHonest(calls, engineOf, later, sites) && later[0] == mems[0] ==>
                               InPlace(later[|calls|], sites(before.id))) <==>
            !Spoilt(calls, before.id, engineOf(before.id))
  {
    hide ItsOwn, Honest, Accounted, InPlace, Spoils, Defaced;
    var id := before.id;
    if Spoilt(calls, id, engineOf(id)) {
      var p := SpoiledAt(before, h, calls, engines, engineOf(id));
      var later := Deface(calls, p, engineOf, mems, sites, id);
      NotInPlace(mems[|calls|], sites(id));
    } else {
      forall later | AllHonest(calls, engineOf, later, sites)
        ensures InPlace(later[|calls|], sites(id))
      {
        OutcomeTellsTheTruth(before, h, calls, engines, engineOf, later, sites);
      }
    }
  }

  /** It does happen, to every engine that compensates: of two operations one is written and verified,
      the other in part, and the compensation fails. */
  lemma StaysActive(before: Hook, engine: Engine, other: nat) returns (reply: GroupReply, h: Hook)
    requires CanCompensate(engine)
    ensures CompensationFailed(engine, reply) && SettledInGroup(before, h, engine, [before.id, other], reply, 0)
    ensures h.outcome.Active? && (h.verified <==> engine.verifies || engine.verifiesGroup)
    ensures reply.answers[0].compensated
  {
    var verdict := if engine.verifies || engine.verifiesGroup then Verified else Unavailable;
    var whole := CommitAnswer(Complete, 0, false, {}, verdict, true);
    reply := GroupReply(true, true, false, [whole, whole.(mutation := Partial)]);
    assert reply.answers[1].mutation.Partial?;
    h := GroupCommitted(before, engine.candidate.caps, false, GroupReport(reply, 0));
  }

  lemma SpoiledAt(before: Hook, h: Hook, calls: seq<Asked>, engines: seq<Engine>, engine: Engine) returns (p: nat)
    requires Accounted(before, h, calls, engines) && before.outcome.Prepared? && Spoilt(calls, before.id, engine)
    requires before.engine.Some? && before.engine.value < |engines| && engine == engines[before.engine.value]
    ensures p < |calls| && OnlyConcern(calls, p, before.id) && Spoils(calls[p], before.id, engine)
    ensures calls[p].GroupCommitAsked? && SettledBy(before, h, calls[p], engines) && GroupAnswerable(engine, calls[p].reply)
  {
    hide CompensationFailed, GroupAnswerable;
    var q: nat :| q < |calls| && Spoils(calls[q], before.id, engine);
    assert Concerns(calls[q], before.id);
    p :| AnsweredAt(before, h, calls, p, engines);
    assert p == q;
  }

  /** Where verifiers tell the truth, one that is asked hook by hook comes after the compensation and
      notices. Then the exception is exactly for hooks that are verified with their group, or not at
      all. */
  lemma ActiveReadBackExactly<A(!new)>(before: Hook, h: Hook, calls: seq<Asked>, engines: seq<Engine>, engineOf: nat -> Engine,
                                       mems: seq<A -> bv8>, sites: Sites<A>)
    requires Accounted(before, h, calls, engines) && before.outcome.Prepared? && h.outcome.Active?
    requires OnItsOwn(before, engines, engineOf, sites)
    requires AllHonest(calls, engineOf, mems, sites) && AllReadTruly(calls, engineOf, mems, sites)
    requires exists b: A :: sites(before.id).bytes(b).Some?
    ensures (forall later :: AllHonest(calls, engineOf, later, sites) && AllReadTruly(calls, engineOf, later, sites)
                             && later[0] == mems[0] ==>
                               InPlace(later[|calls|], sites(before.id))) <==>
            !(Spoilt(calls, before.id, engineOf(before.id)) && Blind(engineOf(before.id)))
  {
    hide ItsOwn, Honest, ReadTruly, Accounted, InPlace, Spoils, Defaced, GroupAnswerable, Blind;
    var id := before.id;
    if Spoilt(calls, id, engineOf(id)) {
      var p := SpoiledAt(before, h, calls, engines, engineOf(id));
      if Blind(engineOf(id)) {
        var later := Deface(calls, p, engineOf, mems, sites, id);
        NotInPlace(mems[|calls|], sites(id));
      } else {
        forall later | AllHonest(calls, engineOf, later, sites) && AllReadTruly(calls, engineOf, later, sites)
          ensures InPlace(later[|calls|], sites(id))
        {
          Noticed(before, h, calls, p, engines, engineOf, later, sites);
        }
      }
    } else {
      forall later | AllHonest(calls, engineOf, later, sites)
        ensures InPlace(later[|calls|], sites(id))
      {
        OutcomeTellsTheTruth(before, h, calls, engines, engineOf, later, sites);
      }
    }
  }

  lemma Noticed<A(!new)>(before: Hook, h: Hook, calls: seq<Asked>, p: nat, engines: seq<Engine>, engineOf: nat -> Engine,
                         mems: seq<A -> bv8>, sites: Sites<A>)
    requires p < |calls| && OnlyConcern(calls, p, before.id) && SettledBy(before, h, calls[p], engines) && calls[p].GroupCommitAsked?
    requires before.outcome.Prepared? && h.outcome.Active? && OnItsOwn(before, engines, engineOf, sites)
    requires AllHonest(calls, engineOf, mems, sites) && AllReadTruly(calls, engineOf, mems, sites)
    requires !Blind(engineOf(before.id))
    ensures InPlace(mems[|calls|], sites(before.id))
  {
    hide ItsOwn, Concerns, InPlace, TruthfulGroup, SettledInGroup;
    var id, engine, ids, reply := before.id, engineOf(before.id), calls[p].ids, calls[p].reply;
    KeptFrom(calls, engineOf, mems, sites, id, p + 1, |calls|);
    assert Honest(calls[p], engineOf, mems[p], mems[p + 1], sites) && ReadTruly(calls[p], engineOf, mems[p + 1], sites);
    var l: nat :| SettledInGroup(before, h, engine, ids, reply, l);
    InRange(before, h, engine, ids, reply, l);
    Unobjected(before, h, engine, ids, reply, l);
    StillInPlace(mems[p + 1], mems[|calls|], sites(id));
  }

  lemma Unobjected(before: Hook, h: Hook, engine: Engine, ids: seq<nat>, reply: GroupReply, l: nat)
    requires SettledInGroup(before, h, engine, ids, reply, l) && h.outcome.Active?
    ensures l < |reply.answers| && !reply.answers[l].verification.VerifyFailed?
  {
    VerdictIsHonest(engine.candidate.caps, None, GroupReport(reply, l));
  }

  lemma StillInPlace<A(!new)>(m: A -> bv8, n: A -> bv8, site: Site<A>)
    requires InPlace(m, site) && SameThere(m, n, site)
    ensures InPlace(n, site)
  {
  }
}
