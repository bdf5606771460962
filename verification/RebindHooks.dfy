/** The rebind engine under the core: one hook committed by hk_plan_commit through the vtable of
    src/engines/HKRebindVtable.c, with every import slot of every image it is for. */
module RebindHooks {
  import opened Options
  import opened Mutations
  import opened Routing
  import opened Hooks
  import opened PlanRules
  import opened CommitRules
  import opened HonestEngines
  import opened EngineHooks
  import Leb128
  import S = ImportSlots
  import C = RebindCommit

  function Octet(x: Leb128.Byte): bv8 { x as bv8 }

  function View(m: S.Memory): nat -> bv8 { (x: nat) => Octet(m(x)) }

  /** The bytes of the bundle's slots, each as the last slot that covers it is to have it, if every
      slot can be given a value at all. */
  ghost function BundleSite(slots: S.Slots, sites: seq<S.Site>, replacement: nat): Site<nat> {
    Site((x: nat) => if C.InSlots(sites, x) then Some(LastOctet(slots, sites, replacement, x)) else None)
  }

  function LastOctet(slots: S.Slots, sites: seq<S.Site>, replacement: nat, x: nat): bv8 {
    if !C.Representable(slots, sites, replacement) then 0
    else
      match C.LastByte(slots, sites, replacement, x)
      case None => 0
      case Some(byte) => Octet(byte)
  }

  lemma BundleInPlace(slots: S.Slots, sites: seq<S.Site>, replacement: nat)
    requires C.Representable(slots, sites, replacement)
    ensures InPlace(View(C.Rewritten(slots, sites, replacement)), BundleSite(slots, sites, replacement))
  {
    hide C.LastByte, C.Rewritten, C.InSlots, C.Replacement, Octet;
    forall x: nat | C.InSlots(sites, x)
      ensures View(C.Rewritten(slots, sites, replacement))(x) == LastOctet(slots, sites, replacement, x)
    {
      C.LastByteIn(slots, sites, replacement, x);
      C.RewrittenByte(slots, sites, replacement, x);
    }
  }

  // A commit that stays within the slots and reports as the bundle does is a truthful one.
  lemma BundleTruthful(slots: S.Slots, sites: seq<S.Site>, replacement: nat, m: Mutation, after: S.Memory)
    requires m.Unmutated? ==> after == slots.mem
    requires m.Complete? ==> C.Representable(slots, sites, replacement) && after == C.Rewritten(slots, sites, replacement)
    ensures Truthful(m, View(slots.mem), View(after), BundleSite(slots, sites, replacement))
  {
    hide C.Representable, C.Rewritten, InPlace, BundleSite;
    if m.Complete? {
      BundleInPlace(slots, sites, replacement);
    }
  }

  lemma BundleElsewhere(slots: S.Slots, sites: seq<S.Site>, replacement: nat, after: S.Memory)
    requires forall x :: !C.InSlots(sites, x) ==> after(x) == slots.mem(x)
    ensures forall x: nat :: BundleSite(slots, sites, replacement).bytes(x).None? ==> View(after)(x) == View(slots.mem)(x)
  {
    hide C.InSlots, LastOctet, Octet;
  }

  /** What the rebind engine has to find for a hook to end active. */
  ghost predicate Rebindable(slots: S.Slots, sites: seq<S.Site>, replacement: nat, owner: Option<Owner>) {
    && C.Unhindered(slots, sites, replacement, if owner.Some? then Some(owner.value.head) else None)
    && C.AllReadBack(slots.(mem := C.Rewritten(slots, sites, replacement)), sites, replacement)
  }

  /** A rebinding that is refused leaves memory as it was; one that ends active has every slot of
      every image rewritten and read back, and a target that was owned had the owner's head in every
      slot. It ends active exactly if the core asks, nothing stands in the way of any slot, every
      write completes, the slots read back and nothing else speaks against it. The call that was
      made is an honest one. */
  method CommitRebound(runtime: Runtime, h: Hook, process: C.Process, bundle: C.Bundle, replacement: nat, recordFailed: bool,
                       effects: Bits)
    returns (done: Hook, ghost answer: CommitAnswer)
    requires Committable(runtime, h) && runtime.engines[h.engine.value].verifies
    requires forall e :: 0 <= e < |bundle.plans| ==> bundle.plans[e].sites != []
    modifies process`mem, process`told, runtime`generation, runtime`log, runtime`dispatched, runtime`ledger, runtime`chains
    ensures runtime.Valid()
    ensures CommitHeard(h, done, runtime.CapsOf(h), old(runtime.Now()), runtime.Now(), answer)
    ensures done.mutation.Unmutated? ==> process.mem == old(process.mem)
    ensures var slots, sites := old(process.Slots(process.mem)), C.AllSites(bundle.plans);
            && (done.outcome.Active? ==>
                  && C.Representable(slots, sites, replacement) && process.mem == C.Rewritten(slots, sites, replacement)
                  && C.AllReadBack(process.Slots(process.mem), sites, replacement) && done.verified)
            && (done.outcome.Active? <==>
                  && old(Asks(runtime, h)) && Rebindable(slots, sites, replacement, old(runtime.OwnerOf(h.spec.key)))
                  && old(process.told) <= process.told && C.AllComplete(process.told[|old(process.told)|..])
                  && old(Unobjectionable(runtime, h, if bundle.agree then bundle.original else 0, recordFailed, effects)))
            && (if old(Asks(runtime, h)) then
                  Truthful(answer.mutation, View(slots.mem), View(process.mem), BundleSite(slots, sites, replacement))
                else process.mem == old(process.mem))
            && (forall x: nat :: BundleSite(slots, sites, replacement).bytes(x).None? ==> View(process.mem)(x) == View(slots.mem)(x))
    ensures Speaks(runtime.engines[h.engine.value].verifies, answer)
  {
    hide Runtime.LedgerValid, Runtime.LogValid, Runtime.StatesValid, CommitHeard, CommitsTo, Violates, Verdict, C.Representable,
      C.Rewritten, C.AllReadBack, C.AllComplete, C.InSlots, BundleSite, View, Truthful, C.Agrees, C.AllCurrent;
    ghost var owner, ledger, chains, asked := runtime.OwnerOf(h.spec.key), runtime.ledger, runtime.chains, runtime.dispatched;
    ghost var slots, sites := process.Slots(process.mem), C.AllSites(bundle.plans);
    var m, published, verdict := Unmutated, 0, VerifyFailed;
    if Asks(runtime, h) {
      var current := runtime.OwnerOf(h.spec.key);
      m := C.CommitBundle(process, bundle.plans, replacement, if current.Some? then Some(current.value.head) else None);
      if m.Complete? && bundle.agree {
        published := bundle.original;
      }
      var back := C.VerifyBundle(process, bundle.plans, replacement);
      if back {
        verdict := Verified;
      }
    }
    BundleTruthful(slots, sites, replacement, m, process.mem);
    BundleElsewhere(slots, sites, replacement, process.mem);
    var reply := CommitAnswer(m, published, recordFailed, effects, verdict, false);
    done, answer := CommitHook(runtime, h, reply);
    Concluded(h, done, runtime.engines[h.engine.value], owner, answer, asked, runtime.dispatched, ledger, runtime.ledger, chains,
              runtime.chains);
  }
}
