/** Choosing an engine for a hook: the predicates of src/core/HKEngineInternal.h and the router
    in src/core/HKPlan.c. Bit masks are sets of bit numbers. */
module Routing {
  import opened Options

  type Bits = set<nat>

  datatype TargetKind = Symbol | Address | ObjCMethod | MemoryPatch | SwiftVtable

  const EXACT_IMAGE_SCOPE: nat := 5
  const DYNAMIC_EXECUTABLE_MEMORY: nat := 4
  const LAST_CONTEXT: nat := 3

  datatype Caps = Caps(id: string, kinds: set<TargetKind>, reach: Bits, exactScope: set<TargetKind>, originals: Bits,
                       contexts: Bits, architectures: Bits, certified: Bits, minimumIos: nat,
                       prepareEffects: Bits, commitEffects: Bits,
                       grouping: bool, compensation: bool, chainable: set<TargetKind>)

  datatype Request = Request(kind: TargetKind, required: Bits, preferred: Bits, original: nat, constraints: Bits,
                             noDynamicMemory: bool, definedAnywhere: bool, imageRelative: bool)

  // What an engine's optional analysis callback says about one request.
  datatype Analysis = Analysis(eligible: bool, reach: Bits, rank: nat, prepareEffects: Bits, commitEffects: Bits)

  /** A registered engine: `available` is what discovery says, or true without that callback. */
  datatype Candidate = Candidate(caps: Caps, available: bool, analysis: Option<Analysis>, testing: bool)

  datatype Platform = Platform(imagesKnown: bool, context: nat, architecture: Option<nat>, ios: nat)

  // ---- constraints ----

  /** The constraint that forbids an effect. Four effects have none. */
  function ForbidBit(effect: nat): Option<nat> {
    match effect
    case 0 => Some(0)
    case 1 => Some(1)
    case 2 => Some(2)
    case 3 => Some(3)
    case 5 => Some(4)
    case 6 => Some(5)
    case 12 => Some(6)
    case 7 => Some(7)
    case 8 => Some(8)
    case 10 => Some(9)
    case 11 => Some(11)
    case 63 => Some(13)
    case _ => None
  }

  function EffectiveConstraints(request: Request): Bits {
    request.constraints + (if request.noDynamicMemory then {DYNAMIC_EXECUTABLE_MEMORY} else {})
  }

  /** Some effect is one the constraints forbid. */
  ghost predicate Violates(effects: Bits, constraints: Bits) {
    exists e :: e in effects && ForbidBit(e).Some? && ForbidBit(e).value in constraints
  }

  method ScanEffects(effects: Bits, constraints: Bits) returns (violates: bool)
    requires forall e :: e in effects ==> e < 64
    ensures violates <==> Violates(effects, constraints)
  {
    for bit: nat := 0 to 64
      invariant forall e :: e in effects && e < bit && ForbidBit(e).Some? ==> ForbidBit(e).value !in constraints
    {
      if bit in effects {
        var forbid := ForbidBit(bit);
        if forbid.Some? && forbid.value in constraints {
          return true;
        }
      }
    }
    return false;
  }

  /** Two constraints name no effect: setting them excludes no engine whatever it declares. */
  lemma UnenforcedConstraints(effects: Bits, constraints: Bits)
    ensures Violates(effects, constraints) <==> Violates(effects, constraints + {10, 12})
  {
    if Violates(effects, constraints + {10, 12}) {
      var e :| e in effects && ForbidBit(e).Some? && ForbidBit(e).value in constraints + {10, 12};
      assert ForbidBit(e).value in constraints;
    }
  }

  // ---- eligibility ----

  /** Exact image scope counts only where it can be proved for this request. */
  function EffectiveReach(caps: Caps, request: Request, platform: Platform): Bits {
    var supported :=
      && request.kind in caps.exactScope
      && platform.imagesKnown
      && (request.kind.MemoryPatch? ==> request.imageRelative)
      && (request.kind.Address? || request.kind.MemoryPatch? || request.kind.Symbol?);
    if supported then caps.reach else caps.reach - {EXACT_IMAGE_SCOPE}
  }

  function Reach(c: Candidate, request: Request, platform: Platform): Bits {
    var reach := EffectiveReach(c.caps, request, platform);
    if c.analysis.Some? && c.analysis.value.reach != {} then reach * c.analysis.value.reach else reach
  }

  predicate HonorsDefiningScope(caps: Caps, request: Request) {
    !request.kind.Symbol? || request.definedAnywhere || Symbol in caps.exactScope
  }

  predicate SupportsContext(caps: Caps, context: nat) {
    caps.contexts == {} || (context <= LAST_CONTEXT && context in caps.contexts)
  }

  predicate SupportsPlatform(c: Candidate, platform: Platform) {
    c.testing || platform.architecture.None? ||
    (platform.architecture.value in c.caps.architectures && platform.architecture.value in c.caps.certified &&
     (c.caps.minimumIos == 0 || (platform.ios != 0 && platform.ios >= c.caps.minimumIos)))
  }

  predicate Capable(caps: Caps, request: Request) {
    && request.kind in caps.kinds
    && request.required <= caps.reach
    && (caps.originals == {} || request.original in caps.originals)
  }

  predicate Answers(c: Candidate) {
    c.available &&
    (c.analysis.Some? ==>
       && c.analysis.value.eligible
       && c.analysis.value.prepareEffects <= c.caps.prepareEffects
       && c.analysis.value.commitEffects <= c.caps.commitEffects)
  }

  /** Everything a route must satisfy. */
  ghost predicate Eligible(c: Candidate, request: Request, platform: Platform) {
    && Answers(c)
    && Capable(c.caps, request)
    && !Violates(c.caps.prepareEffects + c.caps.commitEffects, EffectiveConstraints(request))
    && request.required <= Reach(c, request, platform)
    && HonorsDefiningScope(c.caps, request)
    && SupportsContext(c.caps, platform.context)
    && SupportsPlatform(c, platform)
  }

  function Preferred(c: Candidate, request: Request, platform: Platform): nat {
    |Reach(c, request, platform) * request.preferred|
  }

  function Rank(c: Candidate): nat {
    if c.analysis.Some? then c.analysis.value.rank else 0
  }

  /** More preferred reach, then a higher route rank. */
  predicate Better(c: Candidate, d: Candidate, request: Request, platform: Platform) {
    var p, q := Preferred(c, request, platform), Preferred(d, request, platform);
    p > q || (p == q && Rank(c) > Rank(d))
  }

  predicate ValidCaps(caps: Caps) {
    && (forall e :: e in caps.prepareEffects ==> e < 64)
    && (forall e :: e in caps.commitEffects ==> e < 64)
  }

  method Qualifies(c: Candidate, request: Request, platform: Platform) returns (ok: bool)
    requires ValidCaps(c.caps)
    ensures ok <==> Eligible(c, request, platform)
  {
    if !Answers(c) || !Capable(c.caps, request) {
      return false;
    }
    var constraints := EffectiveConstraints(request);
    if constraints != {} {
      var prepare := ScanEffects(c.caps.prepareEffects, constraints);
      var commit := ScanEffects(c.caps.commitEffects, constraints);
      if prepare || commit {
        return false;
      }
    }
    return
      && request.required <= Reach(c, request, platform)
      && HonorsDefiningScope(c.caps, request)
      && SupportsContext(c.caps, platform.context)
      && SupportsPlatform(c, platform);
  }

  /** The chosen engine is eligible, none is better, and of equals it was registered first; there
      is no route exactly when no engine is eligible. */
  ghost predicate Chosen(candidates: seq<Candidate>, request: Request, platform: Platform, best: Option<nat>) {
    match best
    case None => forall i :: 0 <= i < |candidates| ==> !Eligible(candidates[i], request, platform)
    case Some(b) =>
      && b < |candidates| && Eligible(candidates[b], request, platform)
      && forall i :: 0 <= i < |candidates| && Eligible(candidates[i], request, platform) ==>
           !Better(candidates[i], candidates[b], request, platform) &&
           (i < b ==> Better(candidates[b], candidates[i], request, platform))
  }

  /** There is only one such choice. */
  lemma ChosenOnce(candidates: seq<Candidate>, request: Request, platform: Platform, p: Option<nat>, q: Option<nat>)
    requires Chosen(candidates, request, platform, p) && Chosen(candidates, request, platform, q)
    ensures p == q
  {
    hide Eligible, Better;
    assert p.Some? && q.Some? ==> !Better(candidates[p.value], candidates[q.value], request, platform);
  }

  /** No eligible engine has more of the preferred reach than the chosen one, or as much and a higher
      rank; of those with as much and the same rank it was registered first. */
  lemma ChosenExactly(candidates: seq<Candidate>, request: Request, platform: Platform, b: nat, i: nat)
    requires Chosen(candidates, request, platform, Some(b)) && i < |candidates| && Eligible(candidates[i], request, platform)
    ensures b < |candidates|
    ensures var p := |Reach(candidates[b], request, platform) * request.preferred|;
            var q := |Reach(candidates[i], request, platform) * request.preferred|;
            var m := if candidates[b].analysis.None? then 0 else candidates[b].analysis.value.rank;
            var n := if candidates[i].analysis.None? then 0 else candidates[i].analysis.value.rank;
            p > q || (p == q && (m > n || (m == n && b <= i)))
  {
    hide Eligible;
  }

  /** A reach bit counts if the engine declares it and its analysis does not take it away; exact image
      scope also needs an engine that has it for the kind, a known image list, and a target it can be
      checked for. */
  lemma ReachExactly(c: Candidate, request: Request, platform: Platform, bit: nat)
    ensures bit in Reach(c, request, platform) <==>
            && bit in c.caps.reach
            && (c.analysis.Some? && c.analysis.value.reach != {} ==> bit in c.analysis.value.reach)
            && (bit == 5 ==>
                 && request.kind in c.caps.exactScope && platform.imagesKnown
                 && request.kind in {Symbol, Address, MemoryPatch} && (request.kind.MemoryPatch? ==> request.imageRelative))
  {
  }

  /** What makes an engine eligible, condition by condition. */
  lemma EligibleExactly(c: Candidate, request: Request, platform: Platform)
    ensures Eligible(c, request, platform) <==>
            && c.available
            && (c.analysis.Some? ==>
                 c.analysis.value.eligible && c.analysis.value.prepareEffects <= c.caps.prepareEffects &&
                 c.analysis.value.commitEffects <= c.caps.commitEffects)
            && request.kind in c.caps.kinds && (c.caps.originals == {} || request.original in c.caps.originals)
            && (forall e :: e in c.caps.prepareEffects || e in c.caps.commitEffects ==> !Forbidden(e, request))
            && (forall bit :: bit in request.required ==> bit in c.caps.reach && bit in Reach(c, request, platform))
            && (request.kind.Symbol? && !request.definedAnywhere ==> Symbol in c.caps.exactScope)
            && (c.caps.contexts == {} || (platform.context <= 3 && platform.context in c.caps.contexts))
            && (c.testing || platform.architecture == None ||
                (platform.architecture.value in c.caps.architectures && platform.architecture.value in c.caps.certified &&
                 (c.caps.minimumIos == 0 || (platform.ios != 0 && platform.ios >= c.caps.minimumIos))))
  {
    hide Reach;
    ForbiddenExactly(c.caps.prepareEffects + c.caps.commitEffects, request);
  }

  /** The effects a request rules out, by the constraint that names each. */
  predicate Forbidden(effect: nat, request: Request) {
    ((effect, 4) in FORBIDS && request.noDynamicMemory) ||
    exists c :: c in request.constraints && (effect, c) in FORBIDS
  }

  const FORBIDS: set<(nat, nat)> :=
    {(0, 0), (1, 1), (2, 2), (3, 3), (5, 4), (6, 5), (12, 6), (7, 7), (8, 8), (10, 9), (11, 11), (63, 13)}

  lemma ForbidsExactly(effect: nat, constraint: nat)
    ensures ForbidBit(effect) == Some(constraint) <==> (effect, constraint) in FORBIDS
  {
  }

  lemma ForbiddenExactly(effects: Bits, request: Request)
    ensures Violates(effects, EffectiveConstraints(request)) <==> exists e :: e in effects && Forbidden(e, request)
  {
    if Violates(effects, EffectiveConstraints(request)) {
      var e :| e in effects && ForbidBit(e).Some? && ForbidBit(e).value in EffectiveConstraints(request);
      ForbidsExactly(e, ForbidBit(e).value);
      assert Forbidden(e, request);
    }
    if e :| e in effects && Forbidden(e, request) {
      if (e, 4) in FORBIDS && request.noDynamicMemory {
        ForbidsExactly(e, 4);
      } else {
        var c :| c in request.constraints && (e, c) in FORBIDS;
        ForbidsExactly(e, c);
      }
      assert ForbidBit(e).value in EffectiveConstraints(request);
    }
  }

  method Route(candidates: seq<Candidate>, request: Request, platform: Platform) returns (best: Option<nat>)
    requires forall i :: 0 <= i < |candidates| ==> ValidCaps(candidates[i].caps)
    ensures Chosen(candidates, request, platform, best)
  {
    hide Eligible;
    best := None;
    for i := 0 to |candidates|
      invariant best.None? <==> forall j :: 0 <= j < i ==> !Eligible(candidates[j], request, platform)
      invariant best.Some? ==> best.value < i && Eligible(candidates[best.value], request, platform)
      invariant best.Some? ==> forall j :: 0 <= j < i && Eligible(candidates[j], request, platform) ==>
                  !Better(candidates[j], candidates[best.value], request, platform) &&
                  (j < best.value ==> Better(candidates[best.value], candidates[j], request, platform))
    {
      var ok := Qualifies(candidates[i], request, platform);
      if ok && (best.None? || Better(candidates[i], candidates[best.value], request, platform)) {
        best := Some(i);
      }
    }
  }

  lemma MoreEffects(effects: Bits, more: Bits, constraints: Bits)
    requires effects <= more && Violates(effects, constraints)
    ensures Violates(more, constraints)
  {
    var e :| e in effects && ForbidBit(e).Some? && ForbidBit(e).value in constraints;
    assert e in more;
  }

  /** Whatever declared effects a routed engine turns out to have, in either phase, none is one
      the request forbids. */
  lemma RouteHonorsConstraints(c: Candidate, request: Request, platform: Platform, observed: Bits)
    requires Eligible(c, request, platform)
    requires observed <= c.caps.prepareEffects + c.caps.commitEffects
    ensures !Violates(observed, EffectiveConstraints(request))
  {
    if Violates(observed, EffectiveConstraints(request)) {
      MoreEffects(observed, c.caps.prepareEffects + c.caps.commitEffects, EffectiveConstraints(request));
    }
  }
}
