/** Engines under the core: one hook committed by hk_plan_commit through the memory-patch engine's
    and the relocating engine's vtables, with the memory they write. */
module EngineHooks {
  import opened Options
  import opened Mutations
  import opened Routing
  import opened Hooks
  import opened PlanRules
  import opened CommitRules
  import opened HonestEngines
  import M = MemoryEngine
  import R = RelocEngine
  import A64
  import CodeWriting

  /** What the core asks of whoever commits a hook. */
  ghost predicate Committable(runtime: Runtime, h: Hook)
    reads runtime
  {
    runtime.Valid() && Matched(h, runtime.engines) && h.id < runtime.nextId && h.id !in runtime.dispatched
  }

  predicate Asks(runtime: Runtime, h: Hook)
    requires h.engine.Some? && h.engine.value < |runtime.engines|
    reads runtime`engines, runtime`ledger
  {
    Chainable(runtime.CapsOf(h), h.spec.request.kind, runtime.OwnerOf(h.spec.key))
  }

  /** Nothing speaks against a completed write that was read back. */
  predicate Unobjectionable(runtime: Runtime, h: Hook, published: Pointer, recordFailed: bool, effects: Bits)
    requires h.engine.Some? && h.engine.value < |runtime.engines|
    reads runtime`engines, runtime`ledger
  {
    && !recordFailed && effects <= runtime.CapsOf(h).commitEffects
    && (runtime.OwnerOf(h.spec.key).Some? ==> published == runtime.OwnerOf(h.spec.key).value.head)
  }

  // ---- the memory-patch engine ----

  function PatchSite(a: nat, replacement: seq<bv8>): Site<nat> {
    Site((b: nat) => if M.InRegion(a, |replacement|, b) then Some(replacement[b - a]) else None)
  }

  /** A patch that is refused leaves memory as it was; one that ends active is all in place, over the
      bytes prepare had seen, and verified. The call that was made is an honest one. */
  method CommitPatch(runtime: Runtime, h: Hook, process: M.Process, a: nat, plan: M.Plan, replacement: seq<bv8>,
                     outcome: Mutation, after: M.Memory, published: Pointer, recordFailed: bool, effects: Bits)
    returns (done: Hook, ghost answer: CommitAnswer)
    requires Committable(runtime, h) && runtime.engines[h.engine.value].verifies
    requires M.Obeys(process.mem, a, replacement, outcome, after)
    modifies process, runtime`generation, runtime`log, runtime`dispatched, runtime`ledger, runtime`chains
    ensures runtime.Valid()
    ensures CommitHeard(h, done, runtime.CapsOf(h), old(runtime.Now()), runtime.Now(), answer)
    ensures done.mutation.Unmutated? ==> process.mem == old(process.mem)
    ensures done.outcome.Active? ==> process.mem == M.Patched(old(process.mem), a, replacement) && done.verified
    ensures done.outcome.Active? <==>
            && old(Asks(runtime, h)) && M.Unchanged(old(process.mem), a, plan, replacement) && outcome.Complete?
            && old(Unobjectionable(runtime, h, published, recordFailed, effects))
    ensures if old(Asks(runtime, h)) then Truthful(answer.mutation, old(process.mem), process.mem, PatchSite(a, replacement))
            else process.mem == old(process.mem)
    ensures forall b: nat :: PatchSite(a, replacement).bytes(b).None? ==> process.mem(b) == old(process.mem)(b)
    ensures Speaks(runtime.engines[h.engine.value].verifies, answer)
  {
    hide Runtime.LedgerValid, Runtime.LogValid, Runtime.StatesValid, CommitHeard, CommitsTo, Violates, Verdict, M.ReadBytes;
    ghost var owner, ledger, chains, asked := runtime.OwnerOf(h.spec.key), runtime.ledger, runtime.chains, runtime.dispatched;
    var m, verdict := Unmutated, VerifyFailed;
    if Asks(runtime, h) {
      m := process.Commit(a, plan, replacement, outcome, after);
      ReadsBack(old(process.mem), a, replacement);
      if M.ReadBytes(process.mem, a, |replacement|) == replacement {
        verdict := Verified;
      }
    }
    var reply := CommitAnswer(m, published, recordFailed, effects, verdict, false);
    done, answer := CommitHook(runtime, h, reply);
    Concluded(h, done, runtime.engines[h.engine.value], owner, answer, asked, runtime.dispatched, ledger, runtime.ledger, chains,
              runtime.chains);
  }

  lemma ReadsBack(m: M.Memory, a: nat, bytes: seq<bv8>)
    ensures M.ReadBytes(M.Patched(m, a, bytes), a, |bytes|) == bytes
  {
    var read := M.ReadBytes(M.Patched(m, a, bytes), a, |bytes|);
    forall i | 0 <= i < |bytes|
      ensures read[i] == bytes[i]
    {
      assert M.InRegion(a, |bytes|, a + i);
    }
  }

  // How the core concludes from an answer, or without one.
  lemma Concluded(h: Hook, done: Hook, engine: Engine, owner: Option<Owner>, a: CommitAnswer, dispatched: set<nat>,
                  dispatched': set<nat>, ledger: map<Key, Owner>, ledger': map<Key, Owner>,
                  chains: map<Key, seq<Link>>, chains': map<Key, seq<Link>>)
    requires CommitsTo(h, done, engine.candidate.caps, owner, a, dispatched, dispatched', ledger, ledger', chains, chains')
    ensures var asks, caps := Chainable(engine.candidate.caps, h.spec.request.kind, owner), engine.candidate.caps;
            && (done.mutation.Unmutated? <==> !asks || (a.mutation.Unmutated? && a.effects <= caps.commitEffects))
            && (done.outcome.Active? <==>
                  && asks && a.mutation.Complete? && !a.recordFailed && a.effects <= caps.commitEffects
                  && (owner.Some? ==> a.published == owner.value.head) && !a.verification.VerifyFailed?)
            && (done.outcome.Active? && a.verification.Verified? ==> done.verified)
  {
    VerdictIsHonest(engine.candidate.caps, owner, a);
  }

  // ---- the relocating engine ----

  /** The bytes of the entry patch. */
  ghost function EntrySite(target: A64.Addr, patch: seq<A64.Word>): Site<A64.Addr> {
    Site((b: A64.Addr) => if CodeWriting.InCode(target, patch, b) then Some(CodeWriting.WriteCode(_ => 0, target, patch)(b)) else None)
  }

  lemma Inside(m: A64.Memory, target: A64.Addr, patch: seq<A64.Word>)
    ensures InPlace(CodeWriting.WriteCode(m, target, patch), EntrySite(target, patch))
  {
    hide CodeWriting.WriteCode, CodeWriting.InCode;
    forall b: A64.Addr | CodeWriting.InCode(target, patch, b)
      ensures CodeWriting.WriteCode(m, target, patch)(b) == CodeWriting.WriteCode(_ => 0, target, patch)(b)
    {
      CodeWriting.WrittenSame(m, _ => 0, target, patch, b);
    }
  }

  lemma CodeReadsBack(m: A64.Memory, target: A64.Addr, patch: seq<A64.Word>)
    requires |patch| <= 4
    ensures R.ReadCode(CodeWriting.WriteCode(m, target, patch), target, |patch|) == patch
  {
    hide CodeWriting.WriteCode, A64.Installed, R.ReadCode, CodeWriting.At;
    R.FirstWord(target);
    CodeWriting.WritesInstall(m, target, 0, patch);
    R.ReadInstalled(CodeWriting.WriteCode(m, target, patch), target, patch);
  }

  /** A relocated hook that is refused leaves memory as it was, with its page given back if there is
      a way to; one that ends active has the whole branch over its entry, over the words that were
      relocated, and verified, and its page is published. */
  method CommitRelocated(runtime: Runtime, h: Hook, process: R.Process, plan: R.RelocPlan, outcome: Mutation,
                         after: A64.Memory, canFree: bool, published: Pointer, recordFailed: bool, effects: Bits)
    returns (done: Hook, ghost answer: CommitAnswer)
    requires Committable(runtime, h) && runtime.engines[h.engine.value].verifies
    requires process.Valid() && plan.Holds(process) && !plan.activated && |plan.patch| <= 4
    requires R.Obeys(process.mem, plan.address, plan.patch, outcome, after)
    modifies process, plan, runtime`generation, runtime`log, runtime`dispatched, runtime`ledger, runtime`chains
    ensures runtime.Valid() && process.Valid() && plan.Holds(process)
    ensures plan.address == old(plan.address) && plan.patch == old(plan.patch)
    ensures CommitHeard(h, done, runtime.CapsOf(h), old(runtime.Now()), runtime.Now(), answer)
    ensures done.mutation.Unmutated? ==> process.mem == old(process.mem) && process.published == old(process.published)
    ensures done.outcome.Active? ==>
              && process.mem == CodeWriting.WriteCode(old(process.mem), plan.address, plan.patch) && done.verified
              && plan.trampoline == old(plan.trampoline) && plan.trampoline in process.published
    ensures done.outcome.Active? <==>
            && old(Asks(runtime, h)) && outcome.Complete?
            && old(plan.captured) && R.ReadCode(old(process.mem), plan.address, |plan.patch|) == old(plan.original)
            && old(Unobjectionable(runtime, h, published, recordFailed, effects))
    ensures if old(Asks(runtime, h)) then Truthful(answer.mutation, old(process.mem), process.mem, EntrySite(plan.address, plan.patch))
            else process.mem == old(process.mem)
    ensures forall b :: EntrySite(plan.address, plan.patch).bytes(b).None? ==> process.mem(b) == old(process.mem)(b)
    ensures Speaks(runtime.engines[h.engine.value].verifies, answer)
  {
    hide Runtime.LedgerValid, Runtime.LogValid, Runtime.StatesValid, CommitHeard, CommitsTo, Violates, Verdict, R.ReadCode,
      CodeWriting.WriteCode, CodeWriting.InCode, InPlace;
    ghost var owner, ledger, chains, asked := runtime.OwnerOf(h.spec.key), runtime.ledger, runtime.chains, runtime.dispatched;
    var m, verdict := Unmutated, VerifyFailed;
    if Asks(runtime, h) {
      m := plan.Commit(process, outcome, after, canFree);
      R.WithinEntry(old(process.mem), plan.address, plan.patch, m, process.mem);
      Inside(old(process.mem), plan.address, plan.patch);
      CodeReadsBack(old(process.mem), plan.address, plan.patch);
      if R.ReadCode(process.mem, plan.address, |plan.patch|) == plan.patch {
        verdict := Verified;
      }
    }
    var reply := CommitAnswer(m, published, recordFailed, effects, verdict, false);
    done, answer := CommitHook(runtime, h, reply);
    Concluded(h, done, runtime.engines[h.engine.value], owner, answer, asked, runtime.dispatched, ledger, runtime.ledger, chains,
              runtime.chains);
  }
}
