# A Dafny model of HookKit

HookKit installs hooks in three steps, analyze, prepare and commit, and promises that a refusal is
clean, that a hook reported active is active, and that the original can still be called. The model
covers the code that decides those promises and proves them for all inputs and all answers of the
parts it cannot see.

* **Moving code.** `A64` gives the instructions a prologue relocator must understand a meaning as a
  machine with registers and memory; instructions outside that set are arbitrary functions that,
  where a run comes to them, may not look at the scratch registers or at the moved code. `Relocator` is the relocator with its
  encoders on machine words, `Relocation` and `Simulation` prove that what it emits does what the
  source does, `CodeWriting` and `Trampoline` lay the trampoline out, and `RelocEngine` builds,
  publishes and frees it. `TerminalEngine` is the engine that overwrites an entry and keeps nothing.
  `Endings` says of which instructions control never comes back, and `Refusals` what both engines
  refuse in terms of what the instructions do. Where an instruction faults the machine stays.
  The encodings are those of the Arm Architecture Reference Manual (DDI 0487), sections C4.1 and
  C6.2; x16 and x17 are scratch by section 6.1.1 of AAPCS64.
* **Plans.** `Routing` chooses an engine, `CommitOrder` orders the hooks, and `Hooks` holds hooks, the
  ownership ledger and the process. `PlanRules`, `PrepareRules`, `PrepareGroups`, `CommitRules` and
  `CommitGroups` state what the loops over a plan's hooks do, one by one and in groups, with domains
  and dependencies; `DeferredQueue` retries the hooks that outlive their plan. `Plans` is the state
  machine itself, and `PlanRuns` what every sequence of calls on it keeps. Engines answer whatever
  they like; every call and its answer goes into a ghost log, and what a loop did is stated as a
  relation over that log (`PrepareRun`, `CommitRun`, `DrainRun`).
  `PrepareAccounts` and `CommitDomains` tell from the hooks and the log alone what that comes to for
  domains, for groups and for each hook's turn.
* **Across the layers.** `CommitAccounts` traces every outcome of a commit to the one call it came
  from, `HonestEngines` says what that means for memory when engines report honestly, and
  `EngineHooks` and `RebindHooks` put three of the modelled engines, with the memory they write,
  under the core.
* **Reading Mach-O metadata.** `Leb128` and `ExportTrie` look exports up; `ChainedPointers`,
  `ChainedFixups` and `ChainedImports` walk chained fixups, `ChainedListing` is what such a walk
  lists, and `ChainedEncoding` writes what it reads. ULEB128 is section 7.6 of DWARF version 5.
* **Import slots.** `ImportSlots`, `RebindCaches` and `RebindCommit`: collecting slots, the two
  caches above the walk, and rewriting slots in one image or many; `RebindWalk` puts the chained
  fixups under the caches, and `RebindEncoding` writes a whole image and says what is then prepared. `OwnershipKeys` is the canonical
  key under which a target is owned.
* **Other engines.** `StaticPool`, `MemoryEngine` and `ObjCEngine`.

Objects the source updates in place are classes, loops that move variables are methods with
invariants, and each such method is tied to a specification whose properties are proved beside it.
Writers, allocators and engines are bound by nothing but the contract their declarations state.

## What is not as one might expect

Each of these is proved, with the exact condition where there is one.

* A literal load from inside the overwritten window is accepted, although the patch changes what it
  reads; the copy gives the right value exactly if it loads into the zero register or the patch
  changes no byte of the literal (`RelocEngine.LiteralExactly`, `RelocEngine.LiteralInWindow`).
* A conditional branch with a consistency hint (BC.cond) is copied as it is, although it is relative,
  even when it leads into the window. The copy goes where the original goes exactly if it is not
  taken or has not moved (`Simulation.HintedBranchExactly`).
* When an engine refuses a group of preparations, states it handed over all the same are never
  released, although a comment says that a failed grouped callback may not strand one. Every state
  is released, once, exactly if no refused group hands one over (`PrepareGroups.RefusedGroupStrands`,
  `PlanRuns.Run`).
* When the compensation of a group is called and fails, an operation that was written in full stays
  active, even verified, whatever has become of its memory. An active hook's replacement is sure to
  be in place exactly if that did not happen to a group it was in, or if its verifier is asked on
  its own, after the compensation, and tells the truth (`HonestEngines.ActiveExactly`,
  `HonestEngines.ActiveReadBackExactly`).
* A conditional branch that is always taken (B.AL, B.NV, CBZ and TBZ of the zero register) ends a
  function as much as a B does, but the scans for terminators do not find it: they find exactly the
  other instructions that control never comes back from (`Endings.TerminatorExactly`,
  `Endings.AlwaysTakenMissed`). A patch can so run past the end of a function that ends in one.
* In a window at the very end of the address space the relocator cannot tell a branch into the window
  from one past it; anywhere else it refuses every such branch but a BC.cond
  (`Refusals.WindowBytes`, `Refusals.BranchesLeave`).
* A patched entry misses a replacement that is unaligned and within reach of a B
  (`Trampoline.EntryReaches`).
* The check that the body fits can never fail (`Trampoline.BodyFits`).
* Of a group only the hooks after the first are checked for being current: a stale hook is attempted
  and committed all the same exactly if it leads a group (`PrepareGroups.StaleAttemptedExactly`,
  `CommitGroups.StaleDispatchedExactly`).
* A group records a new owner before the verifier has spoken (`CommitGroups.GroupMovesHeadFirst`).
* A partial plan with nothing left to do, committed again, counts as committed
  (`PlanRuns.CommitAgain`).
* Two constraint bits forbid nothing (`Routing.UnenforcedConstraints`).
* The documentation has one-byte import ordinals run from -15 to 240; the reader takes all codes from
  128 on as negative (`ChainedImports.OrdinalExactly`). It also says that a link cannot fail to
  lead on; it can, by wrapping, but only in the last 16 KiB of the address space
  (`ChainedFixups.ProgressFailsByWrapping`, `ChainedFixups.WrappingLink`).
* A set of one image and the image itself are different targets
  (`OwnershipKeys.SingletonSetDiffers`).
* A symbol cache entry names neither its processor type nor the size of the image it was made for
  (`RebindCaches.OtherSliceExactly`, `RebindCaches.OtherSizeExactly`), and so a preparation can be
  answered with another slice's sites (`RebindCaches.WrongSlice`).
* An empty authenticated slot is not restored by its own original (`RebindCommit.RestoresExactly`),
  and overlapping slots trip over each other's writes unless the bytes they share stay as they are
  (`RebindCommit.OverlapExactly`).
* The static pool accepts a region that runs past the address space, although its comment says it
  does not (`StaticPool.ZeroSlotExactly`, `StaticPool.WrappedClaim`). A slot past the end can be
  claimed but not given back (`StaticPool.ClaimAndRelease`), and a region that reaches the end
  contains no address (`StaticPool.Pool.Contains`).
* An Objective-C method that was inherited is never quite restored (`ObjCEngine.RestoreExactly`).

## Model

A row that begins with "remark" records a fact that is plain from the code, and one that begins with
"witness" an input that shows a condition of another row at work.

| member | source | states |
|---|---|---|
| `Relocator.Relocate` | src/native/hk_arm64.c:360-383 | the in-place loop writes the concatenated rewrites at the front of the buffer and leaves the rest of it alone, or reports 0 for an empty run, an unmovable instruction or a buffer without room for the longest rewrite |
| `Relocator.RoomySequence` | src/native/hk_arm64.c:360-383 | with the longest rewrite's room for each instruction the relocator fails only for an unmovable instruction, more room changes nothing, and the size stays within bounds |
| `Relocator.ScanForTerminator` | src/native/hk_arm64.c:171-186 | the scan finds a terminator, plain or authenticated, exactly if the window has one; what that means for control is Endings.ScannedExactly |
| `Endings.TerminatorExactly` | src/native/hk_arm64.c:92-104 | the tables of terminators, plain and authenticated, hold exactly the words after which control is somewhere else from every state, at every place and whatever the unknown instructions do, but for conditional branches that are always taken |
| `Endings.TrapExactly` | src/native/hk_arm64.c:106-126 | the table of traps holds exactly the words that fault from every state |
| `Endings.ScannedExactly` | src/native/hk_arm64.c:171-186 | a window is found to end early exactly if control never comes back from one of its words, other than a conditional branch that is always taken |
| `Endings.AlwaysTakenMissed` | src/native/hk_arm64.c:92-104 | witness: b.al is always taken and not found |
| `Refusals.RefusedExactly` | src/native/hk_arm64.c:239-358 | an instruction cannot be moved exactly if it is a B, BL, B.cond, CBZ, CBNZ, TBZ or TBNZ whose target lies in the given bytes, or the unallocated literal load |
| `Refusals.MovableExactly` | src/native/hk_arm64.c:360-383 | a run can be moved exactly if that is so of none of its instructions, each at its own address |
| `Refusals.WindowBytes` | src/native/hk_arm64.c:360-383 | the two addresses the relocator goes by enclose every overwritten byte exactly if the window does not reach the end of the address space |
| `Relocation.DecodedB` | src/native/hk_arm64.c:14-17 | an encoded B within reach decodes to a branch by the distance asked for, rounded down to a whole instruction |
| `Relocation.NearExactly` | src/native/hk_arm64.c:213-222 | two addresses are near exactly if some word decodes to a B over the distance between them, rounded down to an instruction |
| `Relocation.RunAbsJump` | src/native/hk_arm64.c:65-79 | running the emitted absolute jump, from any address and whatever its alignment, arrives at the target with only the scratch register changed |
| `Relocation.RunLoadConst` | src/native/hk_arm64.c:81-88 | running the emitted load of a constant arrives after it with only the register changed, to the constant |
| `Simulation.SimulateOne` | src/native/hk_arm64.c:239-358 | every relocated form does what the one instruction does: same registers but x16 and x17, same memory outside the displaced and the emitted code, same exit; a call may leave a link value that only comes back to the code after the copy. Of a copied instruction it asks only that, from the state it is reached in, it sees neither scratch registers nor those bytes |
| `Simulation.Simulate` | src/native/hk_arm64.c:360-383 | for every run the relocator accepts and every placement, the emitted code reaches the state the source run reaches, falling through to its own end, or leaves where the source leaves with link values related, as long as each copied instruction, where the run comes to it, sees neither scratch registers nor the moved bytes |
| `Simulation.AfterReturn` | src/native/hk_arm64.c:269-275 | after a displaced call returns, in whatever state, the emitted code goes on simulating the rest of the run from there, from the link value it left |
| `Simulation.RunBlockSteps` | src/native/hk_arm64.c:360-383 | the source run is so many steps of the machine, no more than it has instructions |
| `Simulation.RegisterBranchMoves` | src/native/hk_arm64.c:355-357 | a register branch or NOP may be moved as long as its register is not scratch |
| `Simulation.RegisterLoadMoves` | src/native/hk_arm64.c:355-357 | a load through a register may be moved wherever it reads bytes that are not displaced, and does there what it did |
| `Simulation.PushMoves` | src/native/hk_arm64.c:355-357 | the push of a frame may be moved wherever the frame is not among the displaced bytes |
| `Simulation.PrologueMoves` | src/native/hk_arm64.c:355-383 | a prologue that pushes its frame and loads a field of its argument may be moved if both lie outside the displaced bytes and what follows may be moved from where that leads |
| `Simulation.HintedBranchExactly` | src/native/hk_arm64.c:284-293 | BC.cond is copied as it is although it is relative; the copy goes where the source goes exactly if it is not taken or has not moved |
| `CodeWriting.WritesInstall` | src/engines/HKRelocInlineEngine.c:150-166 | words written one after the other are all there afterwards |
| `CodeWriting.WritesApart` | src/engines/HKRelocInlineEngine.c:150-166 | writing one part of the page leaves the code in another part in place |
| `Trampoline.BodyFits` | src/engines/HKRelocInlineEngine.c:123-141 | for up to four displaced instructions the body and its jump back always fit, so a window is refused only for an instruction in it and the size check never fires |
| `Trampoline.LandsExactly` | src/native/hk_arm64.c:213-237 | an emitted branch goes exactly where asked if and only if it is the long form or the distance is a whole number of instructions |
| `Trampoline.EntryReaches` | src/engines/HKRelocInlineEngine.c:66-78 | a patched entry arrives at the replacement, through the thunk when that is in reach, with only x16 and x17 changed, exactly unless the replacement is unaligned and within reach of the last hop |
| `Trampoline.OriginalEntry` | src/engines/HKRelocInlineEngine.c:123-166 | entering the body behaves as the unpatched window does and then arrives at the instruction after it, or leaves where the window leaves |
| `RelocEngine.BuildBody` | src/engines/HKRelocInlineEngine.c:123-141 | the body is the relocated window followed by the jump back, or nothing exactly when the window cannot be moved, and always fits the page |
| `RelocEngine.Examine` | src/engines/HKRelocInlineEngine.c:95-141 | the verdict on a window in the order of the checks, with the body when it is accepted |
| `Refusals.JudgedExactly` | src/engines/HKRelocInlineEngine.c:95-132 | why a window is refused, by what its instructions do and in the order of the checks: a pinned byte that differs in memory, a first instruction that always faults, an instruction control never comes back from, a branch into the window |
| `Refusals.BranchesLeave` | src/engines/HKRelocInlineEngine.c:95-132 | no relative branch of an accepted window leads into the bytes that are overwritten, from whatever state it is executed |
| `Refusals.ExpectsExactly` | src/engines/HKRelocInlineEngine.c:95-100 | the pinned bytes are compared with the bytes of memory, as far as both go |
| `Refusals.RequestExactly` | src/engines/HKRelocInlineEngine.c:23-89 | which requests are well-formed, and how many instructions each displaces |
| `Refusals.UsableExactly` | src/engines/HKRelocInlineEngine.c:48-62 | an offered page is used exactly if it is aligned and 128 bytes from it lie in its mapping, a static or anonymous one within the address space |
| `RelocEngine.SameWindow` | src/engines/HKRelocInlineEngine.c:91-93 | filling a page apart from the entry does not change the window that was read |
| `RelocEngine.StillBuilt` | src/engines/HKRelocInlineEngine.c:243-309 | whatever a writer within its contract does to the entry, thunk and body stay as built |
| `RelocEngine.RelocPlan.Prepare` | src/engines/HKRelocInlineEngine.c:23-192 | the exact status for every argument, offered page, window and sealing outcome; on success the trampoline is built and only its page was written, on refusal no page is kept when there is a way to free it |
| `RelocEngine.RelocPlan.ReleaseAndFail` | src/engines/HKRelocInlineEngine.c:14-21 | every failure gives the page back when there is a way to, and reports the given status |
| `RelocEngine.RelocPlan.Commit` | src/engines/HKRelocInlineEngine.c:243-309 | the result is the writer's exactly if the entry still holds the window; a page is withdrawn exactly when nothing can have been written, otherwise it is published for good and recorded; a second commit is UNKNOWN and writes nothing |
| `RelocEngine.RelocPlan.Release` | src/engines/HKRelocInlineVtable.c:202-211 | an abandoned plan frees its page exactly if it holds one that was never published |
| `RelocEngine.Install` | src/engines/HKRelocInlineEngine.c:23-309 | after a COMPLETE commit the thunk, body and entry patch are in memory for the window that was there before, and outside the page memory is what it was with the patch written over it; NONE leaves memory outside the page as it was |
| `RelocEngine.OriginalPreserved` | src/engines/HKRelocInlineEngine.c:243-309 | calling the original through the body does what the unpatched prologue did, provided that no displaced instruction, where the run comes to it, reads or writes the displaced words or the page, looks at x16 or x17, or is a BC.cond that is taken |
| `RelocEngine.HookedFunction` | src/engines/HKRelocInlineEngine.c:23-309 | from a COMPLETE installation: whoever enters the function arrives at the replacement, exactly unless that is unaligned and in reach of the last hop, and whoever calls the published original is taken where the function would have gone before, from the same machine state |
| `RelocEngine.FrameWindow` | src/engines/HKRelocInlineEngine.c:91-141 | a window that pushes a frame and loads through an argument meets that condition whenever neither the frame nor the field is among the displaced bytes |
| `RelocEngine.LiteralExactly` | src/native/hk_arm64.c:317-353 | a relocated literal load, of any kind, gives the register what the original gave if and only if it loads into the zero register or the patch changes no byte of the literal |
| `RelocEngine.LiteralInWindow` | src/native/hk_arm64.c:317-353 | witness: a load of its own instruction word is accepted by the relocator, and the patch changes what it would read |
| `RelocEngine.Host.PrepareOne` | src/engines/HKRelocInlineVtable.c:72-140 | a plan is refused exactly if preparing refuses it or its entry patch is not one store and that is not allowed, and then its page is reclaimed; an accepted one is built for the window that was there and owns a page of its own |
| `RelocEngine.Host.CommitOne` | src/engines/HKRelocInlineVtable.c:160-182 | the result is the writer's exactly if the entry still holds the window; a refused write gives the page back when there is a way to, any other publishes it, and every live page stays published or owned by exactly one plan |
| `RelocEngine.Host.PrepareForProvider` | src/engines/HKProviderVtable.c:316-420 | for a provider only the original is built, exactly if its bound is known, covers what the request pins, the window can be moved and the provider can be activated; otherwise the page is reclaimed |
| `RelocEngine.Host.CommitByProvider` | src/engines/HKProviderVtable.c:576-666 | the provider is called exactly if the entry still holds what was inspected, the page is given up before that whatever it reports, and its failure is UNKNOWN with nothing known of memory |
| `RelocEngine.Host.ReleaseOne` | src/engines/HKRelocInlineVtable.c:202-211 | a released plan's page is freed exactly if it was never published, once |
| `RelocEngine.Host.NothingLeaked` | src/engines/HKRelocInlineVtable.c:202-211 | once every plan is released, the pages still live are exactly the published ones |
| `TerminalEngine.Prepare` | src/engines/HKInlineEngine.c:8-90 | the exact outcome in the order of the checks; the window may end in its last instruction but not before, and what is captured is the bytes read and the branch |
| `Refusals.ScreenedExactly` | src/engines/HKInlineEngine.c:8-80 | why a terminal patch is refused, by what the overwritten instructions do and in the order of the checks; control may come back from every word but the last |
| `TerminalEngine.Commit` | src/engines/HKInlineEngine.c:92-140 | the writer's result exactly if the entry still holds the bytes read; NONE changes nothing, COMPLETE has the whole branch in place, nothing outside the entry changes |
| `TerminalEngine.EntryArrives` | src/engines/HKInlineEngine.c:34-80 | a patched entry arrives at the replacement with only a scratch register changed, exactly if the replacement is aligned or out of reach of a B |
| `TerminalEngine.InstallTerminal` | src/engines/HKInlineEngine.c:8-140 | what is accepted and then completely written sends every later entry to an aligned replacement |
| `TerminalEngine.ReversalRestores` | src/engines/HKInlineEngine.c:118-136 | writing the recorded words back restores memory byte for byte |
| `Routing.ScanEffects` | src/core/HKEngineInternal.h:153-184 | the bit scan finds a violation exactly if some effect has a forbidding constraint that is set |
| `Routing.UnenforcedConstraints` | src/core/HKEngineInternal.h:153-174 | remark: the constraint bits 10 and 12 forbid no effect, so setting them excludes nothing |
| `Routing.Qualifies` | src/core/HKPlan.c:1049-1150 | the eligibility checks decide exactly the stated predicate |
| `Routing.Route` | src/core/HKPlan.c:1049-1185 | the chosen engine is eligible, none is better by preferred reach and rank, ties go to the first registered, and there is no route exactly when no engine is eligible |
| `Routing.ChosenExactly` | src/core/HKPlan.c:1049-1185 | no eligible engine has more bits of the preferred reach than the chosen one, or as many and a higher rank, or is as good and registered earlier |
| `Routing.EligibleExactly` | src/core/HKPlan.c:1049-1150 | what makes an engine eligible, condition by condition, with the effects the request rules out listed by number |
| `Routing.ReachExactly` | src/core/HKEngineInternal.h:475-560 | a reach bit counts exactly if it is declared and not taken away by the analysis; exact image scope also needs an engine that has it for the kind, a known image list and a target it can be checked for |
| `Routing.ForbidsExactly` | src/core/HKEngineInternal.h:153-169 | which effect each constraint forbids |
| `Routing.RouteHonorsConstraints` | src/core/HKEngineInternal.h:475-519 | no effect an eligible engine declares, in either phase, is one the request forbids |
| `CommitOrder.BuildCommitOrder` | src/core/HKPlan.c:1933-2026 | the order is topological over the prepared hooks and always takes the least ready one |
| `CommitOrder.LexicographicallyLeast` | src/core/HKPlan.c:1912-2026 | such an order is the lexicographically least topological order by domain order, commit order and add index |
| `CommitOrder.GreedyIsUnique` | src/core/HKPlan.c:1972-2026 | there is only one such order, so the fast path and the general selection agree |
| `CommitOrder.IndependentInOrder` | src/core/HKPlan.c:1912-1970 | hooks that wait for nothing come by the order of their domains, then by their own, then as they were added |
| `CommitOrder.NamedFirst` | src/core/HKPlan.c:1899-1910 | a prepared hook comes after every prepared one it names |
| `CommitDomains.TurnsInOrder` | src/core/HKPlan.c:1912-2026 | the same of the hooks of a plan, one without a domain counting as of order 0 |
| `CommitOrder.SomethingIsReady` | src/core/HKPlan.c:1899-1910 | while prepared hooks are left one of them is ready, as dependencies only name earlier hooks |
| `CommitOrder.AddOrder` | src/core/HKPlan.c:1972-1985 | without dependencies and with one key, add order is that order |
| `CommitOrder.Select` | src/core/HKPlan.c:1987-2026 | the general selection yields that order |
| `Hooks.VerdictIsHonest` | src/core/HKPlan.c:664-812 | a hook is active exactly if the engine reported completion and neither recording, effects, the owned predecessor nor the verifier speaks against it; it is untouched exactly if the engine said so without an undeclared effect |
| `CommitAccounts.EveryOutcomeHasItsCall` | src/core/HKPlan.c:2436-2655 | over a whole commit, in waves and groups, each hook is as it was or was refused without a call for it, or exactly one call was for it and its answer alone makes the outcome |
| `PlanRuns.CommitAccounted` | src/core/HKPlan.c:2436-2655 | committing a plan extends the record by calls that account for every hook in this way |
| `HonestEngines.OutcomesTellTheTruth` | src/core/HKPlan.c:664-812 | with engines that report honestly, after any commit every hook that was refused, stale or compensated has its target as it was before the commit, and every active one has its whole replacement in place and is verified if its engine has a verifier; excepted are only hooks of a group whose compensation callback was called and failed |
| `HonestEngines.WithoutCompensation` | src/core/HKPlan.c:2343-2353 | with engines that do not compensate there is no exception |
| `HonestEngines.HonestAlone` | src/core/HKEngineInternal.h:303-322 | an engine that changes its own target only, reports no write and a full write truthfully, and reads back has made an honest call |
| `HonestEngines.ActiveExactly` | src/core/HKPlan.c:2312-2363 | a hook that ends active has its replacement in place for every memory honest engines may leave, over the whole commit, if and only if no group it was in had its compensation called and fail; otherwise a commit with the same calls that leaves every byte of its target wrong is constructed |
| `HonestEngines.ActiveReadBackExactly` | src/core/HKPlan.c:2312-2410 | if verifiers pass only what they find in place, that holds if and only if there was no such failure or the hook is verified on its own, which is after the compensation |
| `HonestEngines.StaysActive` | src/core/HKPlan.c:2343-2410 | witness: with any engine that compensates, one operation written in full and one in part, the compensation failing, leave the first active |
| `EngineHooks.CommitPatch` | src/core/HKPlan.c:2560-2620 | a memory patch committed through the core: refused, memory is as it was; active exactly if the core asks, the region is unchanged, the writer completes and nothing speaks against it, and then the whole replacement is in place and verified; the call is an honest one |
| `EngineHooks.CommitRelocated` | src/core/HKPlan.c:2560-2620 | the same for a relocated entry patch, whose page is published if it ends active and not published by a refusal |
| `RebindHooks.CommitRebound` | src/engines/HKRebindVtable.c:303-388 | the same for a bundle of import slots over several images: active exactly if the core asks, no slot is hindered, every write completes, every slot reads back and nothing speaks against it, and then every slot holds its replacement |
| `RebindCommit.VerifyBundle` | src/engines/HKRebindVtable.c:351-388 | the verifier passes exactly if every slot of every image holds its replacement |
| `RebindCommit.DisjointReadBack` | src/engines/HKRebindVtable.c:351-388 | slots that do not overlap read back as soon as they are written |
| `Hooks.CountUpdate` | src/core/HKPlan.c:1559-1631 | replacing one hook's result moves a count by exactly that hook's part in it |
| `Hooks.Relinquish` | src/core/HKPlan.c:168-190 | a released prepared state leaves everybody else's custody intact |
| `Hooks.Adopt` | src/core/HKPlan.c:1694-1716 | a state handed over becomes exactly one hook's |
| `Hooks.DispatchGroup` | src/core/HKPlan.c:2202-2300 | a group of hooks not dispatched before keeps every hook dispatched at most once |
| `Hooks.Runtime.RecordOwner` | src/core/HKOwnership.c:326-363 | the new head links to the head before it and the key's engine stays its first |
| `Hooks.Runtime.AskCommit` | src/core/HKPlan.c:630-644 | asks for a commit only of a hook that was never dispatched, and leaves the record of it |
| `Plans.Plan.DefineDomain` | src/core/HKPlan.c:295-370 | accepted exactly in a draft and under a new name |
| `Plans.Plan.AddHook` | src/core/HKPlan.c:814-980 | accepted exactly in a draft, well-formed, of a new identifier and a new target; dependencies only name earlier hooks |
| `Plans.Plan.Analyze` | src/core/HKPlan.c:1429-1473 | every hook is routed by one call, to the best engine among the answers to that call, with the generation then current |
| `Plans.Plan.AnalyzeOne` | src/core/HKPlan.c:1049-1185 | the hook's engine is the one the router chooses from what the engines answered, with exactly that engine's declared effects |
| `PlanRules.RoutingIsDetermined` | src/core/HKPlan.c:1049-1185 | remark: what the engines said and what was asked for leave no choice: two routings on one answer are the same |
| `PlanRules.AddableExactly` | src/core/HKPlan.c:814-980 | which hooks may be added to a draft |
| `Plans.Plan.Conclude` | src/core/HKPlan.c:495-603 | an answer with an undescribed continuation or an undeclared effect is a failure; its state is kept exactly if the hook ends prepared and released otherwise |
| `Plans.Plan.TripDomain` | src/core/HKPlan.c:1525-1557 | exactly the prepared members of the domain are refused, their states released, and the counts move by their number |
| `Plans.Plan.PrepareGroupCount` | src/core/HKPlan.c:1637-1666 | the longest run of ungated hooks of one grouping engine, of which only those after the first must be current |
| `PrepareGroups.StaleAttemptedExactly` | src/core/HKPlan.c:1637-1716 | a hook analyzed before the image catalog last changed has its engine asked exactly if it leads a group, and then as the first of it |
| `Plans.Plan.PrepareGroup` | src/core/HKPlan.c:1668-1722 | one call; each hook becomes what its own answer makes of it, or a failure if the group was refused; every state handed over is in the custody of a hook or released, but for those a refused group handed over, which are stranded |
| `PrepareGroups.RefusedGroupStrands` | src/core/HKPlan.c:1692-1716 | any group may be refused with states handed over all the same: then no hook of it holds one, and all of them are stranded |
| `Plans.Plan.PrepareNext` | src/core/HKPlan.c:1796-1850 | a stale hook is refused unattempted, a gated one without asking, any other becomes what the engine answers, and a mandatory failure trips its domain exactly once its gate was open |
| `Plans.Plan.PrepareWave` | src/core/HKPlan.c:1775-1850 | skips an unrouted hook, prepares the longest group where there is one, and otherwise the single hook |
| `Plans.Plan.Prepare` | src/core/HKPlan.c:1730-1865 | the loop is exactly the waves from the first hook to the last with the calls they made; gated domains are all or nothing, on which PrepareAccounts.DomainTogether says more; the plan is prepared exactly if nothing failed and failed exactly if nothing was prepared although something was attempted; counts never underflow and every state is in custody, or stranded by a refused group |
| `PrepareAccounts.DomainTogether` | src/core/HKPlan.c:1482-1557 | for a domain that asks for all of its mandatory members: if one had no route, or ends refused or stale, no member ends prepared, and if one had no route no engine is asked for any; if each had a route and none ends so, every routed member was asked for, unless its turn came after the image catalog had changed |
| `PrepareAccounts.LooseAsked` | src/core/HKPlan.c:1730-1865 | a routed hook of no such domain is always asked for, with the same exception |
| `PrepareAccounts.GroupsExactly` | src/core/HKPlan.c:1637-1722 | hooks are prepared in one call exactly where two that belong to no domain follow each other for one engine that groups and the second is current; then as many as follow, all but the first current, named in order |
| `PrepareAccounts.AttemptExactly` | src/core/HKPlan.c:495-603 | which answer makes a hook prepared, waiting, routeless or failed, and whose state it keeps |
| `PlanRuns.PrepareAccounted` | src/core/HKPlan.c:1730-1865 | preparing a plan has the outcome for its domains and its other hooks that these state |
| `CommitRules.CommitHook` | src/core/HKPlan.c:2560-2620 | a conflict without asking if the target's owner cannot be chained to; otherwise what the answer makes of the hook, and the head moves exactly if it ends active, linked to the previous head |
| `CommitRules.CommittedExactly` | src/core/HKPlan.c:664-812 | which answer makes a hook that is committed alone active, untouched or failed, verified or not, and what is published for it |
| `CommitGroups.GroupMovesHeadFirst` | src/core/HKPlan.c:2365-2390 | remark: a group moves a head without its hook ending active exactly when the verifier objects |
| `CommitGroups.GroupExactly` | src/core/HKPlan.c:2312-2410 | which reply to a group call makes one of its hooks compensated, active, untouched or failed, and what is published for it |
| `CommitGroups.CompensationExactly` | src/core/HKPlan.c:2312-2363 | the compensation callback is called and fails exactly if there is one that is certified, the group revalidated, and its commit did not go through or left an operation in trouble |
| `Plans.Plan.MarkDomain` | src/core/HKPlan.c:2101-2140 | exactly the prepared members of the domain are refused, stale ones as stale, and some are exactly if there were any |
| `Plans.Plan.EnterDomain` | src/core/HKPlan.c:2515-2533 | a domain is entered exactly if it was visited before or its preflight passes now; otherwise its prepared members are refused |
| `Plans.Plan.CommitCurrent` | src/core/HKPlan.c:2535-2624 | a stale hook is refused unattempted, one whose dependencies are not all active without asking, any other is committed |
| `Plans.Plan.CommitNext` | src/core/HKPlan.c:2495-2624 | passes over a settled hook, refuses it with its domain, or commits it, exactly as the step relation says |
| `Plans.Plan.CommitGroupCount` | src/core/HKPlan.c:2145-2200 | the longest run of prepared, ungated, dependency-free, unowned hooks of one grouping engine, of which only those after the first must be current |
| `CommitGroups.StaleDispatchedExactly` | src/core/HKPlan.c:2145-2300 | a prepared hook that has become stale has its engine asked to commit it exactly if it leads a group, and then as the first of it |
| `Plans.Plan.CommitGroup` | src/core/HKPlan.c:2202-2434 | one call; heads are recorded on the reported write and each operation is concluded from its own answer, taken as compensated where the engine says so and the compensation callback, if called, did not fail |
| `Plans.Plan.Commit` | src/core/HKPlan.c:2436-2655 | the loop is exactly the waves through the unique least topological order with the calls they made; nothing stays prepared, active hooks rest on active ones, domain members are dispatched only after their preflight passed, of which CommitDomains.DomainExactly says what it is, active hooks are links of their target's chain, and the plan's state is exactly determined |
| `CommitDomains.DomainExactly` | src/core/HKPlan.c:2077-2140 | nothing touches the members of a domain until the first prepared one has its turn; if then every mandatory member is prepared, current and waits for nothing but active hooks and prepared members, every prepared member has its own turn; otherwise none is asked for and every prepared one is refused, a stale one as stale |
| `CommitDomains.DispatchedTogether` | src/core/HKPlan.c:2077-2096 | if a member was dispatched, every mandatory member was prepared when the commit began, and all of them were current and ready when the domain was entered |
| `CommitDomains.CurrentTurn` | src/core/HKPlan.c:2535-2624 | what a turn makes of a hook: stale, refused for an inactive dependency, a conflict with the owner of its target, or asked for |
| `CommitDomains.LooseExactly` | src/core/HKPlan.c:2495-2624 | a prepared hook of no domain has a turn of its own, or goes into one call with others like it, all but the first current |
| `CommitDomains.GroupsExactly` | src/core/HKPlan.c:2145-2200 | which hooks start a group |
| `PlanRuns.CommitDomainwise` | src/core/HKPlan.c:2436-2655 | committing a plan gives every prepared hook its turn or refuses it with its domain as these state |
| `DeferredQueue.Retry` | src/core/HKPlan.c:1264-1400 | a queued hook stays queued if its target is still absent and otherwise leaves, prepared and committed at most once, its state released |
| `DeferredQueue.Drain` | src/core/HKPlan.c:1238-1420 | the queue is retried in its order, each hook on what the ones before left; exactly the still absent ones stay queued, and no prepared state is left over |
| `Plans.Plan.Release` | src/core/HKPlan.c:262-286 | every prepared state is released, and exactly the waiting hooks the queue accepts move there in order |
| `DeferredQueue.MovingExactly` | src/core/HKPlan.c:262-286 | which hooks move to the queue: the waiting ones it accepts, in their order |
| `PlanRuns.Run` | src/core/HKPlan.c:221-2655 | over any sequence of plan and drain calls, whatever the engines answer, the invariants hold, no hook's commit is asked for twice and no prepared state is released twice; once the plan is released every state it was handed has been released if and only if no refused group handed one over, and only those are left |
| `PlanRuns.CommitAgain` | src/core/HKPlan.c:2436-2455 | committing a partial plan with nothing prepared asks nobody, changes no hook, and reports the plan committed |
| `PlanRules.ActiveHonorsConstraints` | src/core/HKPlan.c:586-626 | an active hook observed, in both phases together, no effect its request forbids |
| `Leb128.ReadUleb128` | src/resolvers/HKExportTrie.c:21-59 | the loop computes the reader's specification |
| `Leb128.ReadExactly` | src/resolvers/HKExportTrie.c:21-59 | reading accepts exactly the encodings of at most ten bytes that lie before the end and fit 64 bits, padded ones included, and gives their value |
| `Leb128.ReadSound` | src/resolvers/HKExportTrie.c:21-59 | whatever is read was an encoding of at most ten bytes before the end |
| `Leb128.RoundTrip` | src/resolvers/HKExportTrie.c:21-59 | reading undoes encoding for every 64-bit value, wherever the encoding lies |
| `ExportTrie.TerminalRoundTrip` | src/resolvers/HKExportTrie.c:63-109 | a terminal reads back as written; a re-export is recognized and not followed |
| `ExportTrie.ScanEdges` | src/resolvers/HKExportTrie.c:146-174 | the edge loop finds the first edge the rest of the name starts with, or that there is none, or that the bytes are broken |
| `ExportTrie.FindExport` | src/resolvers/HKExportTrie.c:111-182 | the lookup loop computes the recursive lookup, on any bytes, within bounds and always ending |
| `ExportTrie.WalkFinds` | src/resolvers/HKExportTrie.c:111-182 | in a radix trie the one walk finds an answer exactly if some path stores it under the name |
| `ExportTrie.WalkIsShort` | src/resolvers/HKExportTrie.c:111-182 | a walk visits at most one node more than the name has bytes |
| `ExportTrie.FindFollows` | src/resolvers/HKExportTrie.c:111-182 | on bytes that represent a trie the lookup follows the walk, and takes one longer than the cap for a cycle |
| `ExportTrie.FindIsTheMap` | src/resolvers/HKExportTrie.c:111-182 | the lookup is the map the trie stores, exactly for names whose walk stays within the cap, which every name of up to 128 bytes does |
| `ExportTrie.CycleEnds` | src/resolvers/HKExportTrie.c:121-181 | in any bytes a lookup that comes back to a node with the same of its name still to go is malformed, whatever the cap had left |
| `ExportTrie.SelfLoop` | src/resolvers/HKExportTrie.c:121-181 | witness: four bytes whose only node leads back to itself |
| `ChainedPointers.PointerRoundTrip` | src/resolvers/HKChainedFixups.c:233-278 | decoding a chain word gives back the fields that were encoded, in every supported format |
| `ChainedPointers.SplitBack` | src/resolvers/HKChainedFixups.c:8-20 | little-endian bytes read back as the number they were split from |
| `ChainedFixups.WalkChain` | src/resolvers/HKChainedFixups.c:280-330 | the loop walks a chain as the recursive walk does, on any bytes, and always ends |
| `ChainedFixups.ProgressFailsByWrapping` | src/resolvers/HKChainedFixups.c:321-327 | at a readable word the check for progress fails exactly if the link runs past the end of the address space, and never in a segment that ends 16 KiB or more before it |
| `ChainedFixups.WrappingLink` | src/resolvers/HKChainedFixups.c:321-327 | witness: a segment in the last words of the address space whose link leads back to address 0 |
| `ChainedFixups.WalkList` | src/resolvers/HKChainedFixups.c:417-443 | a page's list of starts is walked to its flagged end |
| `ChainedFixups.WalkSegment` | src/resolvers/HKChainedFixups.c:332-455 | the page loop walks a segment as the recursive walk does, every read in bounds |
| `ChainedFixups.SegmentExactly` | src/resolvers/HKChainedFixups.c:332-415 | which segments are walked, with what is read from their headers, and which have an unknown format |
| `ChainedFixups.IterateBinds` | src/resolvers/HKChainedFixups.c:457-503 | iterating the blob walks its segments in order, or refuses a table that does not fit, or an empty mapping |
| `ChainedFixups.WalkInvertsChain` | src/resolvers/HKChainedFixups.c:280-330 | walking an encoded chain shows the visitor exactly its binds, in order, with their fields, until it stops |
| `ChainedFixups.WalkInvertsPages` | src/resolvers/HKChainedFixups.c:332-455 | the same for a segment's pages, with none, one or several chains |
| `ChainedFixups.WalkInvertsImage` | src/resolvers/HKChainedFixups.c:457-503 | the same for a whole image, segment by segment |
| `ChainedListing.IterateListing` | src/resolvers/HKChainedFixups.c:280-522 | whatever the bytes are, every visitor is shown the same binds in the same order until it asks to stop |
| `ChainedEncoding.ChainEncoded` | src/resolvers/HKChainedFixups.c:280-330 | the bytes written for a chain hold that chain, wherever they are in a segment |
| `ChainedEncoding.ConsecutiveSpaced` | src/resolvers/HKChainedFixups.c:194-206 | any encodable slots, one word after the other, can be written as a chain in every format |
| `ChainedEncoding.ImageEncoded` | src/resolvers/HKChainedFixups.c:332-503 | the bytes written for an image of pages are read as that image |
| `ChainedEncoding.WriteAndIterate` | src/resolvers/HKChainedFixups.c:280-522 | iterating what was written shows exactly the binds that were written, in order |
| `ChainedFixups.WordsReadBack` | src/resolvers/HKChainedFixups.c:233-278 | an encoded chain word fits eight bytes and reads back as itself |
| `ChainedImports.ParseHeader` | src/resolvers/HKChainedFixups.c:43-94 | an accepted header keeps the import table and the pool inside the blob |
| `ChainedImports.HeaderExactly` | src/resolvers/HKChainedFixups.c:43-94 | which headers are accepted, with what is read from them, and what the others are refused for |
| `ChainedImports.ImportAt` | src/resolvers/HKChainedFixups.c:96-147 | an import is found only below the count, with its name inside the blob |
| `RebindEncoding.HeaderParsed` | src/resolvers/HKChainedFixups.c:43-94 | the header a linker writes is accepted and says where starts, imports and names are |
| `RebindEncoding.ImportRead` | src/resolvers/HKChainedFixups.c:96-147 | every import written is found under its index with its fields and its name, and none past them |
| `ChainedImports.EntryRoundTrip` | src/resolvers/HKChainedFixups.c:96-147 | reading an import entry undoes writing it, in all three formats |
| `ChainedImports.OrdinalExactly` | src/resolvers/HKChainedFixups.c:113-126 | remark: the reader's one-byte ordinals agree with the documented range exactly for codes up to 127 and above 240 |
| `ChainedImports.OrdinalMisread` | src/resolvers/HKChainedFixups.h:98-105 | remark: the 128th library is reported as ordinal -128 |
| `OwnershipKeys.CanonicalSet` | src/core/HKOwnership.c:165-218 | a set's children come out ascending, without repetition, exactly those given |
| `OwnershipKeys.CanonicalExactly` | src/core/HKOwnership.c:165-218 | two lists of children come out alike exactly if they hold the same ones |
| `OwnershipKeys.AscendingUnique` | src/core/HKOwnership.c:96-105 | an ascending list is determined by its members |
| `OwnershipKeys.Compact` | src/core/HKOwnership.c:197-210 | the in-place loop leaves the compacted children at the front of the array |
| `OwnershipKeys.CanonicalChildren` | src/core/HKOwnership.c:193-210 | sorting and compacting gives the canonical children |
| `OwnershipKeys.SelectorFirst` | src/core/HKOwnership.c:165-224 | no selector's key begins another's unless they are the same selection |
| `OwnershipKeys.SelectorKeyExactly` | src/core/HKOwnership.c:135-224 | keys are equal exactly for the same leaf, or two sets with the same leaves in any order, nesting and number |
| `OwnershipKeys.KeyedExactly` | src/core/HKOwnership.c:135-163 | a set has a key exactly if no child is missing and nothing is nested deeper than allowed |
| `OwnershipKeys.TargetKeyExactly` | src/core/HKOwnership.c:226-264 | target keys are equal exactly for equal identity fields, selectors up to what they select |
| `OwnershipKeys.EqualKeysMatchAlike` | src/core/HKImageCatalog.c:84-108 | selectors with equal keys match the same catalog entries |
| `OwnershipKeys.SingletonSetDiffers` | src/core/HKOwnership.c:165-224 | a set of one leaf matches what the leaf matches under a different key |
| `ImportSlots.CheckedAdjust` | src/engines/HKRebindEngine.c:41-55 | adding or subtracting an addend gives the exact sum or difference if it is a 64-bit address, and nothing otherwise, for every addend including the least |
| `ImportSlots.SlotReadBack` | src/engines/HKRebindEngine.c:19-23 | a slot reads back what was written to it |
| `ImportSlots.StripSigned` | src/internal/HKPointerAuth.h:32-46 | stripping a signed pointer gives the address it was signed from |
| `ImportSlots.CollectSites` | src/engines/HKRebindEngine.c:57-101 | collecting sites one by one refuses at the first failure and merges repeated slots used alike |
| `ImportSlots.ReplayIsFaithful` | src/engines/HKRebindEngine.c:494-530 | replaying the sites once kept gives, on the slots as they now are, what walking the full list again would |
| `ImportSlots.CapturedNow` | src/engines/HKRebindEngine.c:57-101 | every site of a plan is what its slot holds and is authentic |
| `ImportSlots.CaptureExactly` | src/engines/HKRebindEngine.c:57-101 | what is kept of a slot: its value and, for the original, the value less the addend as a function pointer; an empty slot only of a weak import without addend |
| `ImportSlots.AddSiteExactly` | src/engines/HKRebindEngine.c:57-101 | what one more slot makes of a plan, by what the slot holds: a repeat, a conflict, one too many, one with the wrong tag, an empty one, or a site with its value and the value less its addend |
| `ImportSlots.SitesExactly` | src/engines/HKRebindEngine.c:57-101 | once all slots are added there is one site for each address met, used as asked, with what is there |
| `RebindCaches.Caches.FindFile` | src/engines/HKRebindEngine.c:470-492 | a hit is this image's entry with what the file holds, a miss means no entry is this image's |
| `RebindCaches.Caches.InsertFile` | src/engines/HKRebindEngine.c:690-730 | the entry goes into the first empty place, or in place of the one whose turn it is, and nowhere else |
| `RebindCaches.Caches.InsertSymbol` | src/engines/HKRebindEngine.c:554-591 | the same for the symbol cache |
| `RebindCaches.Caches.Prepare` | src/engines/HKRebindEngine.c:355-793 | whatever was cached or driven out before, status and sites are those of a fresh walk on the slots as they are, of a slice of this file for some size; of the right slice and size whenever one file is not loaded at one address for two processor types and the image was always said to be of one size. Which entry is replayed, and what both caches then hold, is stated exactly |
| `RebindWalk.WalkSlice` | src/engines/HKRebindEngine.c:138-178 | collecting sites while walking a slice's chains, import by import, comes to what listing all binds first and collecting then does, with the same refusal; what is listed is RebindEncoding.ListedExactly |
| `RebindEncoding.ListedExactly` | src/engines/HKRebindEngine.c:138-178 | from the bytes to the list: of an image with given slots, imports and names, exactly the slots that bind an import bearing one of the names are listed, in order, each at base plus offset, with its authentication, the sum of both addends and the import's weakness; the list is corrupt, and ends, exactly at the first slot that binds no import or whose sum leaves 64 bits |
| `RebindEncoding.PrepareWritten` | src/engines/HKRebindEngine.c:138-178 | preparing a symbol in such an image succeeds exactly if nothing spoils the list, some slot is listed, all of them lie in the image and what they hold can be kept; the sites are those slots, each once, with what they hold; the other statuses follow in order |
| `RebindWalk.EndsAsWalked` | src/engines/HKRebindEngine.c:436-454 | a list that no bind spoils ends as the walk of the chains does |
| `RebindWalk.PrepareThrough` | src/engines/HKRebindEngine.c:355-793 | with the chained-fixups parser as the walk, preparing through the caches under those conditions is walking the slice now |
| `RebindCaches.ReplayKept` | src/engines/HKRebindEngine.c:494-530 | replaying a symbol entry gives what a fresh walk gives |
| `RebindCaches.OtherSliceExactly` | src/engines/HKRebindEngine.c:270-287 | an entry names neither processor type nor image size; for another slice or size its replay is right, whatever the slots hold, if and only if that slice's own listing ends well and comes to the same slots |
| `RebindCaches.OtherSizeExactly` | src/engines/HKRebindEngine.c:150-154 | for the same image said to be of another size, if and only if every slot listed lies within that size |
| `RebindCaches.WrongSlice` | src/engines/HKRebindEngine.c:270-287 | witness: prepared one after the other and then the second again, two slices of one file at one address: the third answer is the first slice's, although it is the second that is asked for |
| `RebindCommit.Finalize` | src/engines/HKRebindEngine.c:795-808 | the plan's original is the first site's and it agrees exactly if every site has that original |
| `RebindCommit.RestoresExactly` | src/engines/HKRebindEngine.c:956-969 | re-deriving a slot's value from its captured original restores it, for in-range addresses, exactly unless an empty slot is to be authenticated |
| `RebindCommit.DisjointSlots` | src/engines/HKRebindEngine.c:996-1061 | disjoint slots are current at their turn exactly if they were at the start, and end up with their replacements |
| `RebindCommit.Process.CommitPlan` | src/engines/HKRebindEngine.c:996-1061 | COMPLETE, with every slot rewritten, exactly if nothing hinders any slot and the writer completed every write; otherwise exactly what the writer's answers leave possible, the slots written so far holding their replacements and nothing outside the slots changed |
| `RebindCommit.FreshSites` | src/engines/HKRebindVtable.c:142-163 | dropping slots reported before keeps exactly the new ones, all distinct |
| `RebindCommit.Bundle.HasSlot` | src/engines/HKRebindVtable.c:147-156 | the search finds a slot exactly if an earlier plan has it |
| `RebindCommit.Bundle.Collect` | src/engines/HKRebindVtable.c:82-177 | the bundle grows by the new slots only, its original is the first plan's, and it agrees exactly while every plan agrees with that; agreement covers every kept site |
| `RebindCommit.CommitBundle` | src/engines/HKRebindVtable.c:303-338 | COMPLETE, with every slot of the bundle rewritten, exactly if nothing hinders any slot and every write completed; otherwise what the answers over all images leave possible |
| `RebindCommit.UnhinderedMore` | src/engines/HKRebindVtable.c:303-338 | a bundle is unhindered exactly if each plan is, on what the plans before it left |
| `RebindCommit.DisjointBundle` | src/engines/HKRebindVtable.c:303-338 | a bundle of disjoint slots is unhindered exactly if they all hold what was captured when the commit began |
| `RebindCommit.CurrentExactly` | src/engines/HKRebindEngine.c:1026-1040 | of any list of slots one is still current at its turn if and only if the last earlier write to each of its bytes puts there what was captured |
| `RebindCommit.OverlapExactly` | src/engines/HKRebindEngine.c:1026-1040 | of any two slots the second is still current once the first is written if and only if the bytes they share are replaced by themselves |
| `RebindCommit.OverlapTrips` | src/engines/HKRebindEngine.c:1026-1040 | witness: of two slots four bytes apart the second is stale once the first is written |
| `StaticPool.Pool.Init` | src/engines/HKStaticPool.c:7-24 | accepts exactly a region whose size does not overflow; where it ends is not looked at |
| `StaticPool.Pool.Claim` | src/engines/HKStaticPool.c:26-52 | takes the free slot nearest to the hint, the lowest of two as near, and nothing exactly if the size does not fit or every slot is taken |
| `StaticPool.Pool.Release` | src/engines/HKStaticPool.c:54-67 | frees exactly the slot at that address, unless that lies past the end of the address space, and ignores every other address |
| `StaticPool.Pool.FreeCount` | src/engines/HKStaticPool.c:69-80 | free and used slots add up to the pool |
| `StaticPool.Pool.Contains` | src/engines/HKStaticPool.c:82-88 | an address is inside exactly if the region ends before the address space does and the address is in some slot |
| `StaticPool.Pool.SlotsDisjoint` | src/engines/HKStaticPool.c:26-52 | two slots of a region that does not wrap share no byte |
| `StaticPool.ClaimAndRelease` | src/engines/HKStaticPool.c:26-67 | a claimed slot was not live; giving it back restores the pool if and only if the slot does not lie past the end of the address space; in a region that ends before that, zero means exactly that nothing was free or fitting |
| `StaticPool.ZeroSlotExactly` | src/engines/HKStaticPool.c:13-17 | a pool that was accepted has a slot at address zero exactly if its region runs past the address space by whole slots |
| `StaticPool.WrappedClaim` | src/engines/HKStaticPool.c:7-52 | witness: such a pool: a claim marks a slot and yet reports that there was none |
| `MemoryEngine.MaskedAgree` | src/engines/HKMemoryEngine.c:10-19 | two bytes are equal under a mask exactly if they agree in every bit it selects |
| `MemoryEngine.MaskedEqual` | src/engines/HKMemoryEngine.c:8-19 | the loop accepts exactly a region that agrees with the expected bytes in every selected bit |
| `MemoryEngine.PinnedExactly` | src/engines/HKMemoryEngine.c:8-19 | without a mask every byte counts whole; a byte under a mask of ones does too, and one under zero not at all |
| `MemoryEngine.Prepare` | src/engines/HKMemoryEngine.c:21-55 | the exact status for every request; what is captured is the region's bytes |
| `MemoryEngine.Process.Commit` | src/engines/HKMemoryEngine.c:57-111 | the writer's result exactly if the region is what was captured and the replacement covers it; NONE changes neither memory nor ledger, COMPLETE puts the replacement in place, and an artifact holds the bytes that were there |
| `MemoryEngine.ReversalRestores` | src/engines/HKMemoryEngine.c:90-108 | an artifact's bytes undo the patch byte for byte |
| `MemoryEngine.SecondPatchExactly` | src/engines/HKMemoryEngine.c:75-79 | of two patches prepared together the second still goes in after the first exactly if the first leaves their common bytes as they were |
| `MemoryEngine.PatchRegion` | src/engines/HKMemoryEngine.c:21-111 | with a writer that completes, a prepared patch goes in exactly if the region was left alone meanwhile |
| `ObjCEngine.ReplaceReaches` | src/engines/HKObjCEngine.c:148-150 | replacing a method redirects exactly the sends that go through its class |
| `ObjCEngine.ProviderIsLocal` | src/engines/HKObjCEngine.c:17-27 | looking up from the superclass answers differently exactly if the class defines the method itself |
| `ObjCEngine.Runtime.Prepare` | src/engines/HKObjCEngine.c:29-110 | the exact status for every target; what is captured is what a send would call now, and whether the method is local |
| `ObjCEngine.Runtime.Commit` | src/engines/HKObjCEngine.c:112-175 | replaces exactly if a send still calls what was captured and that is the required predecessor; what is published is what a send called, before the replacement can be reached, and every send of every class afterwards is determined |
| `ObjCEngine.Runtime.Verify` | src/engines/HKObjCVtable.c:118-142 | passes exactly if a send now calls the replacement |
| `ObjCEngine.RestoreExactly` | src/engines/HKObjCEngine.c:160-172 | putting the original back makes every send call what it did, but restores the table, and stays indistinguishable under later replacements, exactly if the method was local |
| `ObjCEngine.Chain` | src/engines/HKObjCEngine.c:29-175 | of hooks of one method with foreign replacements anywhere in between, each goes in exactly if it requires no predecessor or the one a send called just before, publishes that, and changes nothing otherwise |

## Left out

- Routing.Qualifies: discovery, per-request analysis and the platform are parameters, as they come from code outside the model.
- Plans.Plan.Commit: the artifact ledger's contents are not modelled; only which pages and patches were recorded is, in the engines.
- Plans.Plan.CommitGroup: the window between the ownership check and the group's own lock is not modelled, as calls are atomic.
- DeferredQueue.Drain: which image load triggers a drain is not modelled; it may be called at any time.
- RelocEngine.RelocPlan.Prepare: page allocation, sealing and the entry write are seams that answer at will; Mach VM calls are not part of this model.
- RelocEngine.Host.CommitByProvider: what the provider writes is any memory at all; providers that build their own original are left out.
- TerminalEngine.Prepare: the plan is a value rather than a buffer filled in place.
- MemoryEngine.Process.Commit: addresses are unbounded, as a region that exists does not wrap.
- OwnershipKeys.CanonicalChildren: the library sort is an insertion sort on values; how it moves elements in place does not show, as equal strings are the same.
- Leb128.ReadUleb128: the bitwise or of a byte into the bits below it is an addition, the two having no bit in common.
- RebindCaches.Caches.Prepare: loading and checking a file's slice is one function of the image; the seam for in-memory files and the shared-cache patch table are left out.
- ImportSlots.StripSigned: pointer authentication is the plain or the tagging variant; hardware keys are left out, and so is the blend, which is any function.
- ChainedEncoding.WriteAndIterate: writes images of one segment whose pages have at most one chain each; what is read is not limited to these. RebindEncoding writes the same images with a header and imports.
- ChainedImports.ImportAt: finding an import by candidate names is left out.
- Relative instructions of later extensions other than BC.cond, which the relocator copies as any unknown instruction: the model gives no unknown instruction its own address.
- HonestEngines.OutcomesTellTheTruth: memory changes only by the calls of the commit, each hook's target is its own, and what an engine writes elsewhere is not its target.
- EngineHooks.CommitPatch: of the engines the memory-patch, the relocating and the rebind engine are placed under the core; the others are modelled on their own.
- Signed overflow in the relocator's address arithmetic, which is modelled as wrapping.
- Out-of-memory paths: allocation succeeds, except that the queue of deferred hooks may refuse one.
- True interleaving of threads, in the caches and in the ownership ledger.
- Swift vtables, the legacy facade, Objective-C headers, reports, identifiers and error strings: they would only add easy members.
- The legacy import table path of rebinding, and the catalog's population from dyld.
