/** Hooks and the process they are installed in: the structures of src/core/HKPlan.c, the
    ownership ledger of src/core/HKOwnership.c, and the calls into engines, whose answers are
    arbitrary. */
module Hooks {
  import opened Options
  import opened Mutations
  import opened Routing

  type Key = seq<nat>        // the encoded target, compared byte by byte
  type Pointer = nat         // 0 is NULL
  type Handle = nat          // one prepared state an engine has handed to the core

  datatype Outcome = Unanalyzed | Analyzed | NoRoute | Prepared | Pending | Active | FailedSafe | FailedPartial
                   | FailedUnknown | Conflict | StalePlan | Compensated

  datatype Spec = Spec(stableId: string, key: Key, request: Request, expectsBytes: bool, continuationForbidden: bool,
                       domain: Option<nat>, mandatory: bool, commitOrder: nat, after: seq<nat>, deferred: bool,
                       replacement: Pointer)

  datatype Hook = Hook(id: nat, spec: Spec, engine: Option<nat>, outcome: Outcome, mutation: Mutation, generation: nat,
                       prepared: Option<Handle>, verified: bool, original: Pointer,
                       declaredPrepare: Bits, declaredCommit: Bits, prepareEffects: Bits, commitEffects: Bits)

  datatype Domain = Domain(id: string, order: nat, allMandatoryPrepared: bool)

  datatype Engine = Engine(candidate: Candidate, groupsPrepare: bool, groupsCommit: bool, verifies: bool, verifiesGroup: bool,
                           compensates: bool)

  // ---- what engines answer ----

  datatype PrepareResult = PrepareOk | PrepareFailed | NotApplicable

  /** `inspected` is false when the engine could not describe the continuation it prepared. */
  datatype PrepareAnswer = PrepareAnswer(result: PrepareResult, handle: Option<Handle>, inspected: bool, effects: Bits)

  datatype Verification = Verified | VerifyFailed | Unavailable

  datatype CommitAnswer = CommitAnswer(mutation: Mutation, published: Pointer, recordFailed: bool, effects: Bits,
                                       verification: Verification, compensated: bool)

  /** An engine without a verifier has nothing to say of what it wrote. */
  predicate Answerable(verifies: bool, a: CommitAnswer) {
    verifies || a.verification.Unavailable?
  }

  function Heard(verifies: bool, reply: CommitAnswer): (a: CommitAnswer)
    ensures Answerable(verifies, a) && a.(verification := reply.verification) == reply
    ensures Answerable(verifies, reply) ==> a == reply
  {
    if verifies then reply else reply.(verification := Unavailable)
  }

  /** What a grouped commit comes to: whether the group revalidated, what the commit callback and,
      if it is called, the compensation callback return, and what is said of each operation. */
  datatype GroupReply = GroupReply(revalidated: bool, committed: bool, compensationOk: bool, answers: seq<CommitAnswer>)

  /** One call into the engines, with its answer. */
  datatype Asked = CandidatesAsked(candidates: seq<Candidate>)
                 | PrepareAsked(id: nat, answer: PrepareAnswer)
                 | GroupPrepareAsked(ids: seq<nat>, accepted: bool, prepareAnswers: seq<PrepareAnswer>)
                 | CommitAsked(id: nat, commitAnswer: CommitAnswer)
                 | GroupCommitAsked(ids: seq<nat>, reply: GroupReply)

  /** What the core makes of a preparation: an undescribable continuation or an undeclared effect
      turns it into a failure. */
  function Settled(caps: Caps, a: PrepareAnswer): PrepareResult {
    if !(a.effects <= caps.prepareEffects) || (a.result.PrepareOk? && !a.inspected) then PrepareFailed else a.result
  }

  function PreparedOutcome(result: PrepareResult, deferred: bool): Outcome {
    match result
    case PrepareOk => Prepared
    case PrepareFailed => FailedSafe
    case NotApplicable => if deferred then Pending else NoRoute
  }

  // ---- ownership ----

  datatype Owner = Owner(engine: string, head: Pointer, predecessor: Pointer)
  datatype Link = Link(replacement: Pointer, predecessor: Pointer)

  /** Each link displaced the one before it. */
  predicate Chained(links: seq<Link>) {
    forall i :: 0 < i < |links| ==> links[i].predecessor == links[i - 1].replacement
  }

  /** What the core makes of a commit by a single hook. Nothing upgrades a report; completion
      also takes declared effects, the owned predecessor and a verifier that does not object. */
  function Written(caps: Caps, owner: Option<Owner>, a: CommitAnswer): Mutation {
    var m1 := if a.recordFailed && a.mutation.Complete? then Unknown else a.mutation;
    var m2 := if m1.Complete? && !(a.effects <= caps.commitEffects) then Unknown else m1;
    var m3 := if m2.Complete? && owner.Some? && a.published != owner.value.head then Unknown else m2;
    if a.effects <= caps.commitEffects then m3 else Unknown
  }

  function Verdict(caps: Caps, owner: Option<Owner>, a: CommitAnswer): Mutation {
    var written := Written(caps, owner, a);
    if written.Complete? && a.verification.VerifyFailed? then Unknown else written
  }

  function CommittedOutcome(m: Mutation): Outcome {
    match m
    case Complete => Active
    case Unmutated => FailedSafe
    case Partial => FailedPartial
    case Unknown => FailedUnknown
  }

  /** A hook is reported active exactly when the engine reported completion and nothing spoke
      against it, and reported untouched exactly when the engine said so without an undeclared
      effect. */
  lemma VerdictIsHonest(caps: Caps, owner: Option<Owner>, a: CommitAnswer)
    ensures Verdict(caps, owner, a).Complete? <==>
            && a.mutation.Complete? && !a.recordFailed && a.effects <= caps.commitEffects
            && (owner.Some? ==> a.published == owner.value.head) && !a.verification.VerifyFailed?
    ensures Verdict(caps, owner, a).Unmutated? <==> a.mutation.Unmutated? && a.effects <= caps.commitEffects
    ensures CommittedOutcome(Verdict(caps, owner, a)).Active? <==> Verdict(caps, owner, a).Complete?
  {
  }

  // ---- custody of prepared states ----

  predicate HeldIn(hooks: seq<Hook>, h: Handle) {
    exists i :: 0 <= i < |hooks| && hooks[i].prepared == Some(h)
  }

  /** Every state handed out and not yet released is held by exactly one hook or is one of
      `others`. */
  ghost predicate Custody(hooks: seq<Hook>, outstanding: set<Handle>, others: set<Handle>) {
    && others <= outstanding
    && (forall i :: 0 <= i < |hooks| && hooks[i].prepared.Some? ==>
         hooks[i].prepared.value in outstanding && hooks[i].prepared.value !in others)
    && (forall i, j :: 0 <= i < j < |hooks| && hooks[i].prepared.Some? ==> hooks[i].prepared != hooks[j].prepared)
    && (forall h :: h in outstanding ==> h in others || HeldIn(hooks, h))
  }

  lemma Relinquish(hooks: seq<Hook>, outstanding: set<Handle>, others: set<Handle>, i: nat, hook: Hook)
    requires Custody(hooks, outstanding, others) && i < |hooks|
    requires hooks[i].prepared.Some? && hook.prepared.None?
    ensures Custody(hooks[i := hook], outstanding - {hooks[i].prepared.value}, others)
  {
    var less := outstanding - {hooks[i].prepared.value};
    forall h | h in less
      ensures h in others || HeldIn(hooks[i := hook], h)
    {
      if h !in others {
        var j :| 0 <= j < |hooks| && hooks[j].prepared == Some(h);
        assert hooks[i := hook][j].prepared == Some(h);
      }
    }
  }

  /** A state that was another's becomes the hook's. */
  lemma Adopt(hooks: seq<Hook>, outstanding: set<Handle>, others: set<Handle>, i: nat, hook: Hook)
    requires i < |hooks| && hooks[i].prepared.None? && hook.prepared.Some?
    requires hook.prepared.value in others && Custody(hooks, outstanding, others)
    ensures Custody(hooks[i := hook], outstanding, others - {hook.prepared.value})
  {
    var less := others - {hook.prepared.value};
    forall h | h in outstanding
      ensures h in less || HeldIn(hooks[i := hook], h)
    {
      if h == hook.prepared.value {
        assert hooks[i := hook][i].prepared == Some(h);
      } else if h !in others {
        var j :| 0 <= j < |hooks| && hooks[j].prepared == Some(h);
        assert hooks[i := hook][j].prepared == Some(h);
      }
    }
  }

  lemma Unchanged(hooks: seq<Hook>, outstanding: set<Handle>, others: set<Handle>, i: nat, hook: Hook)
    requires Custody(hooks, outstanding, others) && i < |hooks| && hook.prepared == hooks[i].prepared
    ensures Custody(hooks[i := hook], outstanding, others)
  {
    forall h | h in outstanding
      ensures h in others || HeldIn(hooks[i := hook], h)
    {
      if h !in others {
        var j :| 0 <= j < |hooks| && hooks[j].prepared == Some(h);
        assert hooks[i := hook][j].prepared == Some(h);
      }
    }
  }

  function Claims(answers: seq<PrepareAnswer>): set<Handle> {
    set i | 0 <= i < |answers| && answers[i].handle.Some? :: answers[i].handle.value
  }

  lemma NoClaims()
    ensures Claims([]) == {}
  {
  }

  lemma ClaimsMore(answers: seq<PrepareAnswer>, a: PrepareAnswer)
    ensures Claims(answers + [a]) == Claims(answers) + (if a.handle.Some? then {a.handle.value} else {})
  {
    forall h | h in Claims(answers) + (if a.handle.Some? then {a.handle.value} else {})
      ensures h in Claims(answers + [a])
    {
      if h in Claims(answers) {
        var i :| 0 <= i < |answers| && answers[i].handle == Some(h);
        assert (answers + [a])[i].handle == Some(h);
      } else {
        assert (answers + [a])[|answers|].handle == Some(h);
      }
    }
  }

  /** The states an answer came with. */
  function Claimed(call: Asked): set<Handle> {
    match call
    case PrepareAsked(_, a) => if a.handle.Some? then {a.handle.value} else {}
    case GroupPrepareAsked(_, _, answers) => Claims(answers)
    case _ => {}
  }

  predicate RefusedGroup(call: Asked) { call.GroupPrepareAsked? && !call.accepted }

  /** Every state any answer came with. */
  function HandedOver(log: seq<Asked>): set<Handle> {
    if log == [] then {} else HandedOver(log[..|log| - 1]) + Claimed(log[|log| - 1])
  }

  /** The states that came with the refusal of a group: the core forgets them unread. */
  function StrandedBy(log: seq<Asked>): set<Handle> {
    if log == [] then {}
    else StrandedBy(log[..|log| - 1]) + if RefusedGroup(log[|log| - 1]) then Claimed(log[|log| - 1]) else {}
  }

  lemma HandedMore(log: seq<Asked>, call: Asked)
    ensures HandedOver(log + [call]) == HandedOver(log) + Claimed(call)
    ensures StrandedBy(log + [call]) == StrandedBy(log) + if RefusedGroup(call) then Claimed(call) else {}
  {
    assert (log + [call])[..|log|] == log;
  }

  /** Nothing is stranded but by the refusal of a group. */
  lemma {:induction false} StrandedExactly(log: seq<Asked>, others: set<Handle>)
    ensures StrandedBy(log) <= others <==>
            forall k :: 0 <= k < |log| && RefusedGroup(log[k]) ==> Claimed(log[k]) <= others
  {
    if log != [] {
      var front := log[..|log| - 1];
      StrandedExactly(front, others);
      assert forall k :: 0 <= k < |front| ==> front[k] == log[k];
    }
  }

  function Ids(hooks: seq<Hook>): set<nat> {
    set i | 0 <= i < |hooks| :: hooks[i].id
  }

  function IdsInOrder(hooks: seq<Hook>): seq<nat> {
    seq(|hooks|, i requires 0 <= i < |hooks| => hooks[i].id)
  }

  lemma IdsMore(group: seq<Hook>, l: nat)
    requires l < |group|
    ensures Ids(group[..l + 1]) == Ids(group[..l]) + {group[l].id}
  {
    forall id | id in Ids(group[..l]) + {group[l].id}
      ensures id in Ids(group[..l + 1])
    {
      if id in Ids(group[..l]) {
        var i :| 0 <= i < l && group[..l][i].id == id;
        assert group[..l + 1][i].id == id;
      } else {
        assert group[..l + 1][l].id == id;
      }
    }
  }

  // ---- counting ----

  function Count(hooks: seq<Hook>, outcomes: set<Outcome>): (n: nat)
    ensures n <= |hooks|
  {
    if hooks == [] then 0 else Count(hooks[1..], outcomes) + (if hooks[0].outcome in outcomes then 1 else 0)
  }

  lemma {:induction false} CountUpdate(hooks: seq<Hook>, i: nat, hook: Hook, outcomes: set<Outcome>)
    requires i < |hooks|
    ensures Count(hooks[i := hook], outcomes) + (if hooks[i].outcome in outcomes then 1 else 0) ==
            Count(hooks, outcomes) + (if hook.outcome in outcomes then 1 else 0)
  {
    if i == 0 {
      assert hooks[0 := hook][1..] == hooks[1..];
    } else {
      assert hooks[i := hook][1..] == hooks[1..][i - 1 := hook];
      CountUpdate(hooks[1..], i - 1, hook, outcomes);
    }
  }

  lemma {:induction false} CountZero(hooks: seq<Hook>, outcomes: set<Outcome>)
    ensures Count(hooks, outcomes) == 0 <==> forall i :: 0 <= i < |hooks| ==> hooks[i].outcome !in outcomes
  {
    if hooks == [] {
    } else {
      CountZero(hooks[1..], outcomes);
      forall i | 0 <= i < |hooks|
        ensures hooks[i] == if i == 0 then hooks[0] else hooks[1..][i - 1]
      {
      }
    }
  }

  /** The hooks an engine's commit has been asked for, call by call. */
  function Dispatches(log: seq<Asked>): seq<nat> {
    if log == [] then []
    else
      Dispatches(log[..|log| - 1]) +
      match log[|log| - 1]
      case CommitAsked(id, _) => [id]
      case GroupCommitAsked(ids, reply) => if reply.revalidated then ids else []
      case _ => []
  }

  ghost predicate NoRepeats(ids: seq<nat>) {
    forall i, j :: 0 <= i < j < |ids| ==> ids[i] != ids[j]
  }

  /** No hook has been dispatched twice, in any of the calls. */
  ghost predicate AskedOnce(log: seq<Asked>, dispatched: set<nat>) {
    NoRepeats(Dispatches(log)) && forall id :: id in dispatched <==> id in Dispatches(log)
  }

  lemma OtherCall(log: seq<Asked>, call: Asked, dispatched: set<nat>)
    requires AskedOnce(log, dispatched) && !call.CommitAsked? && (call.GroupCommitAsked? ==> !call.reply.revalidated)
    ensures AskedOnce(log + [call], dispatched)
  {
    assert (log + [call])[..|log|] == log;
    assert Dispatches(log + [call]) == Dispatches(log);
  }

  lemma DispatchOne(log: seq<Asked>, id: nat, a: CommitAnswer, dispatched: set<nat>)
    requires AskedOnce(log, dispatched) && id !in dispatched
    ensures AskedOnce(log + [CommitAsked(id, a)], dispatched + {id})
  {
    var more := log + [CommitAsked(id, a)];
    assert more[..|log|] == log;
    assert Dispatches(more) == Dispatches(log) + [id];
  }

  lemma DispatchGroup(log: seq<Asked>, hooks: seq<Hook>, reply: GroupReply, dispatched: set<nat>)
    requires AskedOnce(log, dispatched) && reply.revalidated
    requires forall i :: 0 <= i < |hooks| ==> hooks[i].id !in dispatched
    requires forall i, j :: 0 <= i < j < |hooks| ==> hooks[i].id != hooks[j].id
    ensures AskedOnce(log + [GroupCommitAsked(IdsInOrder(hooks), reply)], dispatched + Ids(hooks))
  {
    var ids := IdsInOrder(hooks);
    var more := log + [GroupCommitAsked(ids, reply)];
    assert more[..|log|] == log;
    assert Dispatches(more) == Dispatches(log) + ids;
    forall id | id in Ids(hooks)
      ensures id in ids
    {
      var i :| 0 <= i < |hooks| && hooks[i].id == id;
      assert ids[i] == id;
    }
  }

  // ---- the process ----

  /** What commits change of the process: the calls made so far, the hooks they were for, and the
      heads of the targets. */
  datatype World = World(log: seq<Asked>, dispatched: set<nat>, ledger: map<Key, Owner>, chains: map<Key, seq<Link>>,
                         generation: nat)

  /** No two answers come with the same state. */
  ghost predicate EachItsOwn(answers: seq<PrepareAnswer>) {
    forall i, j :: 0 <= i < j < |answers| && answers[i].handle.Some? ==> answers[i].handle != answers[j].handle
  }

  /** Any answers at all, the states in them new ones. */
  method NewStates(n: nat, from: Handle) returns (answers: seq<PrepareAnswer>, next: Handle)
    ensures |answers| == n && EachItsOwn(answers) && from <= next
    ensures forall h :: h in Claims(answers) ==> from <= h < next
  {
    hide Claims;
    answers, next := [], from;
    NoClaims();
    for i := 0 to n
      invariant |answers| == i && EachItsOwn(answers) && from <= next
      invariant forall j :: 0 <= j < i && answers[j].handle.Some? ==> answers[j].handle.value < next
      invariant forall h :: h in Claims(answers) ==> from <= h < next
    {
      var a: PrepareAnswer := *;
      if a.handle.Some? {
        a := a.(handle := Some(next));
        next := next + 1;
      }
      ClaimsMore(answers, a);
      answers := answers + [a];
    }
  }

  /** Discovery and analysis speak of the engines as they are registered. */
  ghost predicate Candidates(engines: seq<Engine>, candidates: seq<Candidate>) {
    && |candidates| == |engines|
    && forall i :: 0 <= i < |engines| ==>
         candidates[i].caps == engines[i].candidate.caps && candidates[i].testing == engines[i].candidate.testing
  }

  class Runtime {
    var engines: seq<Engine>
    var platform: Platform
    var generation: nat           // of the image catalog; any engine call may advance it
    var pending: seq<Hook>
    var ledger: map<Key, Owner>
    var nextId: nat
    var nextHandle: Handle
    ghost var outstanding: set<Handle>       // prepared states handed over and not released
    ghost var stranded: set<Handle>          // those of them that nobody knows of any more
    ghost var freed: seq<Handle>             // prepared states released, in that order
    ghost var dispatched: set<nat>           // hooks whose commit an engine has been asked for
    ghost var chains: map<Key, seq<Link>>    // every head a target has had
    ghost var log: seq<Asked>                // every call into an engine

    ghost function Now(): World
      reads this
    {
      World(log, dispatched, ledger, chains, generation)
    }

    /** The ledger holds the last link of each target's chain. */
    ghost predicate LedgerValid()
      reads this`ledger, this`chains
    {
      && chains.Keys == ledger.Keys
      && forall k :: k in ledger ==>
           && chains[k] != [] && Chained(chains[k])
           && chains[k][|chains[k]| - 1] == Link(ledger[k].head, ledger[k].predecessor)
    }

    ghost predicate LogValid()
      reads this`log, this`dispatched
    {
      AskedOnce(log, dispatched)
    }

    /** Every state handed over is outstanding or has been released, once. */
    ghost predicate StatesValid()
      reads this`outstanding, this`stranded, this`freed, this`log, this`nextHandle
    {
      && stranded == StrandedBy(log) && stranded <= outstanding && NoRepeats(freed)
      && (forall h :: h in HandedOver(log) <==> h in outstanding || h in freed)
      && (forall h :: h in freed ==> h !in outstanding)
      && (forall h :: h in HandedOver(log) ==> h < nextHandle)
    }

    ghost predicate Valid()
      reads this
    {
      && LedgerValid() && LogValid() && StatesValid()
      && (forall i :: 0 <= i < |engines| ==> ValidCaps(engines[i].candidate.caps))
      && (forall id :: id in dispatched ==> id < nextId)
    }

    function CapsOf(hook: Hook): Caps
      requires hook.engine.Some? && hook.engine.value < |engines|
      reads this`engines
    {
      engines[hook.engine.value].candidate.caps
    }

    function OwnerOf(key: Key): Option<Owner>
      reads this`ledger
    {
      if key in ledger then Some(ledger[key]) else None
    }

    /** What discovery and per-request analysis say is up to the engines; what they are capable of
        is not. */
    method AskCandidates() returns (candidates: seq<Candidate>)
      requires Valid()
      modifies this`generation, this`log
      ensures Valid() && Candidates(engines, candidates)
      ensures log == old(log) + [CandidatesAsked(candidates)]
    {
      hide AskedOnce, LedgerValid, HandedOver, StrandedBy, NoRepeats, ValidCaps;
      candidates := [];
      for i := 0 to |engines|
        invariant Candidates(engines[..i], candidates)
      {
        var available: bool, analysis: Option<Analysis> := *, *;
        candidates := candidates + [engines[i].candidate.(available := available, analysis := analysis)];
      }
      generation := *;
      OtherCall(log, CandidatesAsked(candidates), dispatched);
      HandedMore(log, CandidatesAsked(candidates));
      log := log + [CandidatesAsked(candidates)];
    }

    method SetPending(pending: seq<Hook>)
      requires Valid()
      modifies this`pending
      ensures Valid() && this.pending == pending
    {
      this.pending := pending;
    }

    method NewId() returns (id: nat)
      requires Valid()
      modifies this`nextId
      ensures Valid() && id == old(nextId) && nextId == id + 1
    {
      id := nextId;
      nextId := nextId + 1;
    }

    /** A preparation either hands over a new state or reserves nothing. */
    method AskPrepare(hook: Hook) returns (a: PrepareAnswer)
      requires Valid()
      modifies this`generation, this`nextHandle, this`outstanding, this`log
      ensures Valid() && log == old(log) + [PrepareAsked(hook.id, a)]
      ensures a.handle.Some? ==> a.result.PrepareOk? && a.handle.value !in old(outstanding) && a.handle.value !in stranded
      ensures outstanding == if a.handle.Some? then old(outstanding) + {a.handle.value} else old(outstanding)
    {
      hide LedgerValid, AskedOnce, HandedOver, StrandedBy, NoRepeats, ValidCaps;
      a, generation := *, *;
      a := a.(handle := if a.result.PrepareOk? && a.handle.Some? then Some(nextHandle) else None);
      var call := PrepareAsked(hook.id, a);
      OtherCall(log, call, dispatched);
      HandedMore(log, call);
      log, nextHandle, outstanding := log + [call], nextHandle + 1, outstanding + Claimed(call);
    }

    /** A group callback may hand over a state with any result, even when it refuses the group; in
        that case the core clears the state before it looks at it. */
    method AskPrepareGroup(hooks: seq<Hook>) returns (accepted: bool, answers: seq<PrepareAnswer>)
      requires Valid()
      modifies this`generation, this`nextHandle, this`outstanding, this`stranded, this`log
      ensures Valid() && |answers| == |hooks|
      ensures log == old(log) + [GroupPrepareAsked(IdsInOrder(hooks), accepted, answers)]
      ensures EachItsOwn(answers)
      ensures outstanding == old(outstanding) + Claims(answers) && old(outstanding) !! Claims(answers)
      ensures stranded == old(stranded) + if accepted then {} else Claims(answers)
    {
      hide LedgerValid, AskedOnce, HandedOver, StrandedBy, NoRepeats, IdsInOrder, Claims, EachItsOwn, ValidCaps;
      accepted, generation := *, *;
      var next;
      answers, next := NewStates(|hooks|, nextHandle);
      var call := GroupPrepareAsked(IdsInOrder(hooks), accepted, answers);
      OtherCall(log, call, dispatched);
      HandedMore(log, call);
      nextHandle, outstanding, log := next, outstanding + Claims(answers), log + [call];
      stranded := stranded + if accepted then {} else Claims(answers);
    }

    /** Each state is released once. */
    method Release(handle: Handle)
      requires Valid() && handle in outstanding && handle !in stranded
      modifies this`outstanding, this`freed
      ensures Valid() && outstanding == old(outstanding) - {handle} && freed == old(freed) + [handle]
    {
      hide LedgerValid, AskedOnce, StrandedBy, HandedOver;
      outstanding, freed := outstanding - {handle}, freed + [handle];
    }

    /** No hook's commit is asked for twice. The engine replies what it likes. */
    method AskCommit(hook: Hook, reply: CommitAnswer) returns (a: CommitAnswer)
      requires Valid() && hook.id !in dispatched && hook.id < nextId && hook.engine.Some? && hook.engine.value < |engines|
      modifies this`generation, this`dispatched, this`log
      ensures Valid() && dispatched == old(dispatched) + {hook.id}
      ensures log == old(log) + [CommitAsked(hook.id, a)] && a == Heard(engines[hook.engine.value].verifies, reply)
    {
      hide AskedOnce, LedgerValid;
      a := Heard(engines[hook.engine.value].verifies, reply);
      generation := *;
      DispatchOne(log, hook.id, a, dispatched);
      HandedMore(log, CommitAsked(hook.id, a));
      dispatched := dispatched + {hook.id};
      log := log + [CommitAsked(hook.id, a)];
    }

    /** A group is revalidated before any of it is dispatched. */
    method AskCommitGroup(engine: Engine, hooks: seq<Hook>)
      returns (reply: GroupReply)
      requires Valid() && forall i :: 0 <= i < |hooks| ==> hooks[i].id !in dispatched && hooks[i].id < nextId
      requires forall i, j :: 0 <= i < j < |hooks| ==> hooks[i].id != hooks[j].id
      modifies this`generation, this`dispatched, this`log
      ensures Valid() && |reply.answers| == |hooks|
      ensures log == old(log) + [GroupCommitAsked(IdsInOrder(hooks), reply)]
      ensures dispatched == if reply.revalidated then old(dispatched) + Ids(hooks) else old(dispatched)
      ensures forall i :: 0 <= i < |reply.answers| ==> Answerable(engine.verifies || engine.verifiesGroup, reply.answers[i])
    {
      hide AskedOnce, LedgerValid, HandedOver, StrandedBy, NoRepeats, Answerable, Heard, IdsInOrder;
      generation := *;
      var answers: seq<CommitAnswer> := [];
      for i := 0 to |hooks|
        invariant |answers| == i
        invariant forall j :: 0 <= j < i ==> Answerable(engine.verifies || engine.verifiesGroup, answers[j])
      {
        var said: CommitAnswer := *;
        answers := answers + [Heard(engine.verifies || engine.verifiesGroup, said)];
      }
      reply := *;
      reply := reply.(answers := answers);
      var call := GroupCommitAsked(IdsInOrder(hooks), reply);
      HandedMore(log, call);
      if reply.revalidated {
        DispatchGroup(log, hooks, reply, dispatched);
        dispatched := dispatched + Ids(hooks);
      } else {
        OtherCall(log, call, dispatched);
      }
      log := log + [call];
    }

    /** hk_ownership_record_locked: the new head and what it displaced. */
    method RecordOwner(key: Key, engine: string, replacement: Pointer, predecessor: Pointer)
      requires Valid()
      requires key in ledger ==> predecessor == ledger[key].head
      modifies this`ledger, this`chains
      ensures Valid()
      ensures ledger == old(ledger)[key := Owner(if key in old(ledger) then old(ledger)[key].engine else engine,
                                                 replacement, predecessor)]
      ensures chains == old(chains)[key := (if key in old(chains) then old(chains)[key] else []) + [Link(replacement, predecessor)]]
    {
      hide ValidCaps, AskedOnce, StatesValid;
      chains := chains[key := (if key in chains then chains[key] else []) + [Link(replacement, predecessor)]];
      ledger := ledger[key := Owner(if key in ledger then ledger[key].engine else engine, replacement, predecessor)];
    }
  }
}
