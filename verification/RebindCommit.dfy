/** Rewriting import slots, in one image or in a bundle of them: the commit half of
    src/engines/HKRebindEngine.c and the bundles of src/engines/HKRebindVtable.c. */
module RebindCommit {
  import opened Options
  import opened Mutations
  import opened Leb128
  import opened ChainedPointers
  import opened ImportSlots

  datatype Plan = Plan(sites: seq<Site>, original: nat, agree: bool)

  ghost predicate Agrees(sites: seq<Site>, original: nat) {
    forall i :: 0 <= i < |sites| ==> sites[i].callable == original
  }

  method Finalize(sites: seq<Site>) returns (plan: Plan)
    requires sites != []
    ensures plan.sites == sites && plan.original == sites[0].callable && (plan.agree <==> Agrees(sites, plan.original))
  {
    var original, agree := sites[0].callable, true;
    var i := 1;
    while i < |sites|
      invariant 1 <= i <= |sites| && agree && Agrees(sites[..i], original)
    {
      if sites[i].callable != original {
        return Plan(sites, original, false);
      }
      assert sites[..i + 1] == sites[..i] + [sites[i]];
      i := i + 1;
    }
    assert sites[..|sites|] == sites;
    return Plan(sites, original, agree);
  }

  // ---- values ----

  /** What a slot must hold for its users to end up in the replacement. */
  function Replacement(pac: Pac, blend: (nat, nat) -> nat, site: Site, replacement: nat): Option<nat> {
    match Adjusted(Strip(pac, replacement), site.spec.addend, true)
    case None => None
    case Some(value) => Some(SignSlot(pac, blend, value, site.spec.schema, site.spec.address))
  }

  /** Deriving a slot's value from the original captured from it restores the slot, when the
      original and its base are addresses; only an empty slot that should be authenticated comes
      back as something else, a signed null. */
  lemma RestoresExactly(slots: Slots, spec: Spec, site: Site)
    requires Authentic(slots, spec) && Capture(slots, spec) == Some(site)
    requires var value := StripSlot(slots.pac, site.original, spec.schema);
             && Strip(slots.pac, value) == value
             && (site.original != 0 ==> 0 <= value - spec.addend && Strip(slots.pac, value - spec.addend) == value - spec.addend)
    ensures Replacement(slots.pac, slots.blend, site, site.callable) == Some(site.original) <==>
            !(site.original == 0 && spec.schema.authenticated && slots.pac.Tagging?)
  {
    SlotFits(slots.mem, spec.address);
    var base := if site.original == 0 then 0 else StripSlot(slots.pac, site.original, spec.schema) - spec.addend;
    StripSigned(slots.pac, Strip(slots.pac, base), 0, 0);
    StripTwice(slots.pac, base);
  }

  // ---- writing ----

  /** The memory after the first slots have been rewritten, one after the other. */
  function Rewritten(slots: Slots, sites: seq<Site>, replacement: nat): Memory
    requires forall i :: 0 <= i < |sites| ==> Replacement(slots.pac, slots.blend, sites[i], replacement).Some?
    decreases |sites|
  {
    if sites == [] then slots.mem
    else
      var last := sites[|sites| - 1];
      WriteSlot(Rewritten(slots, sites[..|sites| - 1], replacement), last.spec.address,
                Replacement(slots.pac, slots.blend, last, replacement).value)
  }

  predicate Representable(slots: Slots, sites: seq<Site>, replacement: nat) {
    forall i :: 0 <= i < |sites| ==> Replacement(slots.pac, slots.blend, sites[i], replacement).Some?
  }

  /** Each slot, when its turn comes, still holds what was captured. */
  predicate Current(slots: Slots, sites: seq<Site>, replacement: nat, i: nat)
    requires Representable(slots, sites, replacement) && i < |sites|
  {
    ReadSlot(Rewritten(slots, sites[..i], replacement), sites[i].spec.address) == sites[i].original
  }

  ghost predicate Disjoint(sites: seq<Site>) {
    forall i, j :: 0 <= i < j < |sites| ==> Apart(sites[i].spec.address, sites[j].spec.address)
  }

  predicate InSlots(sites: seq<Site>, x: nat) {
    exists i :: 0 <= i < |sites| && sites[i].spec.address <= x < sites[i].spec.address + 8
  }

  lemma {:induction false} RewrittenOutside(slots: Slots, sites: seq<Site>, replacement: nat, x: nat)
    requires Representable(slots, sites, replacement) && !InSlots(sites, x)
    ensures Rewritten(slots, sites, replacement)(x) == slots.mem(x)
    decreases |sites|
  {
    if sites != [] {
      RewrittenOutside(slots, sites[..|sites| - 1], replacement, x);
    }
  }

  lemma {:induction false} RewrittenElsewhere(slots: Slots, sites: seq<Site>, replacement: nat, b: nat)
    requires Representable(slots, sites, replacement)
    requires forall i :: 0 <= i < |sites| ==> Apart(sites[i].spec.address, b)
    ensures ReadSlot(Rewritten(slots, sites, replacement), b) == ReadSlot(slots.mem, b)
    decreases |sites|
  {
    if sites != [] {
      var front, last := sites[..|sites| - 1], sites[|sites| - 1];
      RewrittenElsewhere(slots, front, replacement, b);
      SlotElsewhere(Rewritten(slots, front, replacement), last.spec.address,
                    Replacement(slots.pac, slots.blend, last, replacement).value, b);
    }
  }

  /** Disjoint slots end up holding their replacements, and none trips over another's write: each
      is current at its turn exactly if it was at the start. */
  lemma {:induction false} DisjointSlots(slots: Slots, sites: seq<Site>, replacement: nat, i: nat)
    requires Representable(slots, sites, replacement) && Disjoint(sites) && i < |sites|
    ensures Current(slots, sites, replacement, i) <==> ReadSlot(slots.mem, sites[i].spec.address) == sites[i].original
    ensures replacement < LIMIT ==>
              ReadSlot(Rewritten(slots, sites, replacement), sites[i].spec.address) ==
              Replacement(slots.pac, slots.blend, sites[i], replacement).value
    decreases |sites|
  {
    hide ReadSlot, WriteSlot, Replacement;
    RewrittenElsewhere(slots, sites[..i], replacement, sites[i].spec.address);
    var front, last := sites[..|sites| - 1], sites[|sites| - 1];
    var before, value := Rewritten(slots, front, replacement), Replacement(slots.pac, slots.blend, last, replacement).value;
    if i == |front| {
      if replacement < LIMIT {
        ReplacementFits(slots.pac, slots.blend, last, replacement);
        SlotReadBack(before, last.spec.address, value);
      }
    } else {
      DisjointSlots(slots, front, replacement, i);
      SlotElsewhere(before, last.spec.address, value, sites[i].spec.address);
    }
  }

  lemma ReplacementFits(pac: Pac, blend: (nat, nat) -> nat, site: Site, replacement: nat)
    requires Replacement(pac, blend, site, replacement).Some?
    ensures Replacement(pac, blend, site, replacement).value < LIMIT
  {
    var value := Adjusted(Strip(pac, replacement), site.spec.addend, true).value;
    assert Strip(pac, value) < LIMIT;
    SignedFits(pac, Strip(pac, value), site.spec.schema.key, Discriminator(site.spec.schema, blend, site.spec.address));
  }

  // ---- reporting ----

  predicate AllComplete(told: seq<Mutation>) {
    forall i :: 0 <= i < |told| ==> told[i].Complete?
  }

  /** Some slot may have been touched. */
  predicate Touched(told: seq<Mutation>) {
    exists i :: 0 <= i < |told| && !told[i].Unmutated?
  }

  /** What can honestly be said of writes that were answered like this. */
  function Reported(complete: bool, told: seq<Mutation>): Mutation {
    if complete then Complete
    else if told != [] && told[|told| - 1].Unknown? then Unknown
    else if Touched(told) then Partial
    else Unmutated
  }

  /** Nothing stands in the way of any slot of the list. */
  ghost predicate Unhindered(slots: Slots, sites: seq<Site>, replacement: nat, predecessor: Option<nat>) {
    && Representable(slots, sites, replacement)
    && (predecessor.Some? ==> Agrees(sites, predecessor.value))
    && AllCurrent(slots, sites, replacement)
  }

  ghost predicate AllCurrent(slots: Slots, sites: seq<Site>, replacement: nat)
    requires Representable(slots, sites, replacement)
  {
    forall i :: 0 <= i < |sites| ==> Current(slots, sites, replacement, i)
  }

  function Torn(m: Memory, a: nat, torn: Memory): Memory {
    (x: nat) => if a <= x < a + 8 then torn(x) else m(x)
  }

  /** The slots being written, by a writer that keeps its contract: Unmutated proves no write,
      Complete wrote exactly the value, anything else stayed within the slot. */
  class Process {
    const pac: Pac
    const blend: (nat, nat) -> nat
    var mem: Memory
    ghost var told: seq<Mutation>     // every answer of the writer

    constructor (pac: Pac, blend: (nat, nat) -> nat, mem: Memory)
      ensures this.pac == pac && this.blend == blend && this.mem == mem && told == []
    {
      this.pac, this.blend, this.mem, told := pac, blend, mem, [];
    }

    function Slots(m: Memory): Slots { ImportSlots.Slots.Slots(pac, blend, m) }

    method Write(a: nat, value: nat) returns (m: Mutation)
      modifies this`mem, this`told
      ensures told == old(told) + [m]
      ensures m.Unmutated? ==> mem == old(mem)
      ensures m.Complete? ==> mem == WriteSlot(old(mem), a, value)
      ensures forall x: nat :: !(a <= x < a + 8) ==> mem(x) == old(mem)(x)
    {
      m := *;
      told := told + [m];
      if m.Complete? {
        mem := WriteSlot(mem, a, value);
      } else if !m.Unmutated? {
        var torn: Memory := *;
        mem := Torn(mem, a, torn);
      }
    }

    /** Rewrites the plan's slots in order. It is Complete exactly when nothing stood in the way of
        any slot and the writer completed every write, and otherwise reports what the writer's
        answers leave possible: Unmutated only if no slot can have been touched. */
    method CommitPlan(sites: seq<Site>, replacement: nat, predecessor: Option<nat>) returns (m: Mutation, written: nat)
      modifies this`mem, this`told
      ensures old(told) <= told && m == Reported(m.Complete?, told[|old(told)|..])
      ensures m.Complete? <==>
                sites != [] && Unhindered(Slots(old(mem)), sites, replacement, predecessor) && AllComplete(told[|old(told)|..])
      ensures m.Complete? ==> written == |sites| && mem == Rewritten(Slots(old(mem)), sites, replacement)
      ensures m.Complete? ==> |told| == |old(told)| + |sites|
      ensures m.Unmutated? ==> mem == old(mem) && written == 0
      ensures written <= |sites| && (written == 0 || Representable(Slots(old(mem)), sites, replacement))
      ensures 0 < written < |sites| ==>
                forall x :: !InSlots([sites[written]], x) ==> mem(x) == Rewritten(Slots(old(mem)), sites[..written], replacement)(x)
      ensures forall x :: !InSlots(sites, x) ==> mem(x) == old(mem)(x)
    {
      hide ReadSlot, WriteSlot, Replacement, Rewritten;
      written := 0;
      ghost var before := told;
      assert told[|before|..] == [];
      if sites == [] {
        return Unmutated, 0;
      }
      if exists i :: 0 <= i < |sites| && Replacement(pac, blend, sites[i], replacement).None? {
        return Unmutated, 0;
      }
      if predecessor.Some? && exists i :: 0 <= i < |sites| && sites[i].callable != predecessor.value {
        return Unmutated, 0;
      }
      ghost var start := Slots(mem);
      RewrittenNone(start, sites, replacement);
      for i := 0 to |sites|
        invariant written == i && mem == Rewritten(start, sites[..i], replacement)
        invariant forall j :: 0 <= j < i ==> Current(start, sites, replacement, j)
        invariant before <= told && |told| == |before| + i && AllComplete(told[|before|..])
      {
        RewrittenIn(start, sites, replacement, i);
        if ReadSlot(mem, sites[i].spec.address) != sites[i].original {
          assert !Current(start, sites, replacement, i);
          return if written == 0 then Unmutated else Partial, written;
        }
        var value := Replacement(pac, blend, sites[i], replacement).value;
        ghost var answers := told[|before|..];
        m := Write(sites[i].spec.address, value);
        assert told[|before|..] == answers + [m];
        if !m.Complete? {
          assert (answers + [m])[i] == m;
          assert i > 0 ==> (answers + [m])[0].Complete?;
          OnlySlot(sites[i]);
          return if m.Unmutated? then if written == 0 then Unmutated else Partial else if m.Partial? then Partial else Unknown, written;
        }
        written := written + 1;
        RewrittenNext(start, sites, replacement, i);
      }
      assert sites[..|sites|] == sites;
      RewrittenIn(start, sites, replacement, |sites|);
      return Complete, written;
    }

    lemma RewrittenNone(start: Slots, sites: seq<Site>, replacement: nat)
      ensures Rewritten(start, sites[..0], replacement) == start.mem
    {
    }

    lemma RewrittenNext(start: Slots, sites: seq<Site>, replacement: nat, i: nat)
      requires Representable(start, sites, replacement) && i < |sites|
      ensures Rewritten(start, sites[..i + 1], replacement) ==
              WriteSlot(Rewritten(start, sites[..i], replacement), sites[i].spec.address,
                        Replacement(start.pac, start.blend, sites[i], replacement).value)
    {
      assert sites[..i + 1][..i] == sites[..i];
    }

    lemma OnlySlot(site: Site)
      ensures forall x: nat :: InSlots([site], x) <==> site.spec.address <= x < site.spec.address + 8
    {
      forall x: nat
        ensures InSlots([site], x) <==> site.spec.address <= x < site.spec.address + 8
      {
        assert [site][0] == site;
      }
    }

    lemma RewrittenIn(start: Slots, sites: seq<Site>, replacement: nat, i: nat)
      requires Representable(start, sites, replacement) && i <= |sites|
      ensures forall x :: !InSlots(sites, x) ==> Rewritten(start, sites[..i], replacement)(x) == start.mem(x)
    {
      forall x | !InSlots(sites, x)
        ensures Rewritten(start, sites[..i], replacement)(x) == start.mem(x)
      {
        assert !InSlots(sites[..i], x);
        RewrittenOutside(start, sites[..i], replacement, x);
      }
    }
  }

  // ---- bundles ----

  function AllSites(plans: seq<Plan>): seq<Site> {
    if plans == [] then [] else AllSites(plans[..|plans| - 1]) + plans[|plans| - 1].sites
  }

  predicate Holds(sites: seq<Site>, address: nat) {
    exists i :: 0 <= i < |sites| && sites[i].spec.address == address
  }

  /** The sites whose slots are not already in `have`. */
  function Fresh(have: seq<Site>, sites: seq<Site>): seq<Site> {
    if sites == [] then []
    else
      var front, last := Fresh(have, sites[..|sites| - 1]), sites[|sites| - 1];
      if Holds(have, last.spec.address) then front else front + [last]
  }

  lemma {:induction false} FreshSites(have: seq<Site>, sites: seq<Site>)
    requires DistinctSites(have) && DistinctSites(sites)
    ensures DistinctSites(have + Fresh(have, sites))
    ensures forall s :: s in Fresh(have, sites) <==> s in sites && !Holds(have, s.spec.address)
  {
    if sites != [] {
      var front, last := sites[..|sites| - 1], sites[|sites| - 1];
      FreshSites(have, front);
      assert sites == front + [last];
      var kept := Fresh(have, front);
      forall i | 0 <= i < |kept|
        ensures kept[i].spec.address != last.spec.address
      {
        assert kept[i] in front;
      }
      if !Holds(have, last.spec.address) {
        assert have + Fresh(have, sites) == have + kept + [last];
      }
    }
  }

  /** Plans for several images, each slot in one of them only. */
  class Bundle {
    var plans: seq<Plan>
    var original: nat
    var agree: bool

    ghost predicate Valid()
      reads this
    {
      DistinctSites(AllSites(plans)) && (agree && plans != [] ==> Agrees(AllSites(plans), original))
    }

    constructor ()
      ensures Valid() && plans == [] && agree
    {
      plans, original, agree := [], 0, true;
    }

    /** One more image's plan. A slot reported by an earlier image is dropped here, so that commit
        never meets its own write; agreement covers everything that is kept. */
    method Collect(plan: Plan)
      requires Valid() && plan.sites != [] && DistinctSites(plan.sites)
      requires plan.agree <==> Agrees(plan.sites, plan.original)
      modifies this
      ensures Valid()
      ensures AllSites(plans) == AllSites(old(plans)) + Fresh(AllSites(old(plans)), plan.sites)
      ensures var kept := Fresh(AllSites(old(plans)), plan.sites);
              if kept == [] then unchanged(this)
              else
                && plans == old(plans) + [plan.(sites := kept)]
                && original == (if old(plans) == [] then plan.original else old(original))
                && (agree <==> old(agree) && plan.agree && original == plan.original)
    {
      ghost var have := AllSites(plans);
      var kept := Undup(plan.sites);
      FreshSites(have, plan.sites);
      if kept == [] {
        assert have + [] == have;
        return;
      }
      if !plan.agree {
        agree := false;
      }
      if plans == [] {
        original := plan.original;
      } else if original != plan.original {
        agree := false;
      }
      forall i | 0 <= i < |kept|
        ensures kept[i] in plan.sites
      {
        assert kept[i] in Fresh(have, plan.sites);
      }
      plans := plans + [plan.(sites := kept)];
      assert plans[..|plans| - 1] == old(plans);
    }

    method Undup(sites: seq<Site>) returns (kept: seq<Site>)
      ensures kept == Fresh(AllSites(plans), sites)
    {
      kept := [];
      for i := 0 to |sites|
        invariant kept == Fresh(AllSites(plans), sites[..i])
      {
        var duplicate := HasSlot(sites[i].spec.address);
        if !duplicate {
          kept := kept + [sites[i]];
        }
        assert sites[..i + 1][..i] == sites[..i];
      }
      assert sites[..|sites|] == sites;
    }

    method HasSlot(address: nat) returns (duplicate: bool)
      ensures duplicate <==> Holds(AllSites(plans), address)
    {
      for e := 0 to |plans|
        invariant !Holds(AllSites(plans[..e]), address)
      {
        assert plans[..e + 1][..e] == plans[..e];
        var before := AllSites(plans[..e]);
        if Holds(plans[e].sites, address) {
          HoldsMore(before, plans[e].sites, address);
          HoldsPrefix(plans, e + 1, address);
          return true;
        }
        HoldsMore(before, plans[e].sites, address);
      }
      assert plans[..|plans|] == plans;
      return false;
    }
  }

  lemma HoldsMore(a: seq<Site>, b: seq<Site>, address: nat)
    ensures Holds(a + b, address) <==> Holds(a, address) || Holds(b, address)
  {
    if Holds(a, address) {
      var i :| 0 <= i < |a| && a[i].spec.address == address;
      assert (a + b)[i].spec.address == address;
    }
    if Holds(b, address) {
      var i :| 0 <= i < |b| && b[i].spec.address == address;
      assert (a + b)[|a| + i].spec.address == address;
    }
  }

  lemma {:induction false} HoldsPrefix(plans: seq<Plan>, n: nat, address: nat)
    requires n <= |plans| && Holds(AllSites(plans[..n]), address)
    ensures Holds(AllSites(plans), address)
    decreases |plans| - n
  {
    if n == |plans| {
      assert plans[..n] == plans;
    } else {
      assert plans[..n + 1][..n] == plans[..n];
      HoldsMore(AllSites(plans[..n]), plans[n].sites, address);
      HoldsPrefix(plans, n + 1, address);
    }
  }

  // ---- committing a bundle ----

  lemma {:induction false} RewrittenMore(slots: Slots, a: seq<Site>, b: seq<Site>, replacement: nat)
    requires Representable(slots, a, replacement) && Representable(slots, b, replacement)
    ensures Representable(slots, a + b, replacement)
    ensures Rewritten(slots, a + b, replacement) ==
            Rewritten(slots.(mem := Rewritten(slots, a, replacement)), b, replacement)
    decreases |b|
  {
    hide Replacement, WriteSlot;
    if b == [] {
      assert a + b == a;
    } else {
      var front := b[..|b| - 1];
      assert (a + b)[..|a + b| - 1] == a + front && (a + b)[|a + b| - 1] == b[|b| - 1];
      RewrittenMore(slots, a, front, replacement);
    }
  }

  // Being current within a later plan is being current within the whole bundle.
  lemma CurrentMore(slots: Slots, a: seq<Site>, b: seq<Site>, replacement: nat, i: nat)
    requires Representable(slots, a, replacement) && Representable(slots, b, replacement) && i < |b|
    ensures Representable(slots, a + b, replacement)
    ensures Current(slots.(mem := Rewritten(slots, a, replacement)), b, replacement, i) <==> Current(slots, a + b, replacement, |a| + i)
  {
    hide Replacement, WriteSlot, ReadSlot, Rewritten;
    RewrittenMore(slots, a, b, replacement);
    RewrittenMore(slots, a, b[..i], replacement);
    assert (a + b)[..|a| + i] == a + b[..i] && (a + b)[|a| + i] == b[i];
  }

  lemma AllCurrentMore(slots: Slots, a: seq<Site>, b: seq<Site>, replacement: nat)
    requires Representable(slots, a, replacement) && Representable(slots, b, replacement)
    ensures Representable(slots, a + b, replacement)
    ensures AllCurrent(slots, a, replacement) && AllCurrent(slots.(mem := Rewritten(slots, a, replacement)), b, replacement) <==>
            AllCurrent(slots, a + b, replacement)
  {
    hide Current, Replacement;
    var after := slots.(mem := Rewritten(slots, a, replacement));
    RewrittenMore(slots, a, b, replacement);
    forall i | 0 <= i < |a|
      ensures Current(slots, a, replacement, i) <==> Current(slots, a + b, replacement, i)
    {
      FrontCurrent(slots, a, b, replacement, i);
    }
    forall i | 0 <= i < |b|
      ensures Current(after, b, replacement, i) <==> Current(slots, a + b, replacement, |a| + i)
    {
      CurrentMore(slots, a, b, replacement, i);
    }
    if AllCurrent(slots, a, replacement) && AllCurrent(after, b, replacement) {
      forall i | 0 <= i < |a + b|
        ensures Current(slots, a + b, replacement, i)
      {
        if i >= |a| {
          assert Current(after, b, replacement, i - |a|);
        }
      }
    }
    if AllCurrent(slots, a + b, replacement) {
      forall i | 0 <= i < |b|
        ensures Current(after, b, replacement, i)
      {
        assert Current(slots, a + b, replacement, |a| + i);
      }
    }
  }

  lemma FrontCurrent(slots: Slots, a: seq<Site>, b: seq<Site>, replacement: nat, i: nat)
    requires Representable(slots, a, replacement) && Representable(slots, a + b, replacement) && i < |a|
    ensures Current(slots, a, replacement, i) <==> Current(slots, a + b, replacement, i)
  {
    hide Replacement, ReadSlot;
    assert (a + b)[..i] == a[..i] && (a + b)[i] == a[i];
  }

  lemma RepresentableMore(slots: Slots, a: seq<Site>, b: seq<Site>, replacement: nat)
    ensures Representable(slots, a + b, replacement) <==> Representable(slots, a, replacement) && Representable(slots, b, replacement)
  {
    hide Replacement;
    var whole := a + b;
    if Representable(slots, whole, replacement) {
      forall i | 0 <= i < |a|
        ensures Replacement(slots.pac, slots.blend, a[i], replacement).Some?
      {
        assert whole[i] == a[i];
      }
      forall i | 0 <= i < |b|
        ensures Replacement(slots.pac, slots.blend, b[i], replacement).Some?
      {
        assert whole[|a| + i] == b[i];
      }
    }
  }

  lemma AgreesMore(a: seq<Site>, b: seq<Site>, original: nat)
    ensures Agrees(a + b, original) <==> Agrees(a, original) && Agrees(b, original)
  {
    var whole := a + b;
    if Agrees(whole, original) {
      forall i | 0 <= i < |a|
        ensures a[i].callable == original
      {
        assert whole[i] == a[i];
      }
      forall i | 0 <= i < |b|
        ensures b[i].callable == original
      {
        assert whole[|a| + i] == b[i];
      }
    }
  }

  lemma UnhinderedMore(slots: Slots, a: seq<Site>, b: seq<Site>, replacement: nat, predecessor: Option<nat>)
    requires Representable(slots, a, replacement)
    ensures Unhindered(slots, a, replacement, predecessor) &&
            Unhindered(slots.(mem := Rewritten(slots, a, replacement)), b, replacement, predecessor) <==>
            Unhindered(slots, a + b, replacement, predecessor)
  {
    hide Replacement, Current, Agrees, Rewritten;
    var after := slots.(mem := Rewritten(slots, a, replacement));
    assert Representable(after, b, replacement) <==> Representable(slots, b, replacement);
    RepresentableMore(slots, a, b, replacement);
    if predecessor.Some? {
      AgreesMore(a, b, predecessor.value);
    }
    if Representable(slots, b, replacement) {
      hide Representable;
      AllCurrentMore(slots, a, b, replacement);
    }
  }

  lemma NothingRewritten(slots: Slots, plans: seq<Plan>, replacement: nat, predecessor: Option<nat>)
    ensures var none := AllSites(plans[..0]);
            Unhindered(slots, none, replacement, predecessor) && Rewritten(slots, none, replacement) == slots.mem
  {
  }

  /** Commits every image's plan in turn: Complete, with every slot of the bundle rewritten, exactly
      when nothing stood in the way of any slot and the writer completed every write, and otherwise
      what the writer's answers, over all the images, leave possible. */
  method CommitBundle(process: Process, plans: seq<Plan>, replacement: nat, predecessor: Option<nat>) returns (m: Mutation)
    requires forall e :: 0 <= e < |plans| ==> plans[e].sites != []
    modifies process`mem, process`told
    ensures old(process.told) <= process.told && m == Reported(m.Complete?, process.told[|old(process.told)|..])
    ensures m.Complete? <==>
              Unhindered(process.Slots(old(process.mem)), AllSites(plans), replacement, predecessor) &&
              AllComplete(process.told[|old(process.told)|..])
    ensures m.Complete? ==> process.mem == Rewritten(process.Slots(old(process.mem)), AllSites(plans), replacement)
    ensures m.Unmutated? ==> process.mem == old(process.mem)
    ensures forall x :: !InSlots(AllSites(plans), x) ==> process.mem(x) == old(process.mem)(x)
  {
    hide Replacement, ReadSlot, WriteSlot, Current, Rewritten, AllCurrent, Agrees, InSlots;
    ghost var start, before := process.Slots(process.mem), process.told;
    assert process.told[|before|..] == [];
    NothingRewritten(start, plans, replacement, predecessor);
    var total := 0;
    for e := 0 to |plans|
      invariant Representable(start, AllSites(plans[..e]), replacement)
      invariant process.mem == Rewritten(start, AllSites(plans[..e]), replacement)
      invariant total == 0 ==> e == 0
      invariant before <= process.told && AllComplete(process.told[|before|..])
      invariant total > 0 <==> process.told != before
      invariant Unhindered(start, AllSites(plans[..e]), replacement, predecessor)
    {
      ghost var done, sites, told := AllSites(plans[..e]), plans[e].sites, process.told;
      assert plans[..e + 1][..e] == plans[..e];
      UnhinderedMore(start, done, sites, replacement, predecessor);
      AllRewrittenOutside(start, plans, e, replacement);
      var state, written := process.CommitPlan(plans[e].sites, replacement, predecessor);
      total := total + written;
      ToldMore(before, told, process.told, state);
      if !state.Complete? {
        NotUnhindered(start, plans, e + 1, replacement, predecessor);
        if state.Unknown? {
          return Unknown;
        }
        return if state.Partial? || total != 0 then Partial else Unmutated;
      }
      RewrittenMore(start, done, sites, replacement);
    }
    assert plans[..|plans|] == plans;
    AllOutside(start, AllSites(plans), replacement);
    return Complete;
  }

  // What a front of the bundle writes is within the bundle's slots, and so is what the next plan does.
  lemma AllRewrittenOutside(slots: Slots, plans: seq<Plan>, e: nat, replacement: nat)
    requires e < |plans| && Representable(slots, AllSites(plans[..e]), replacement)
    ensures forall x :: !InSlots(AllSites(plans), x) ==>
                          Rewritten(slots, AllSites(plans[..e]), replacement)(x) == slots.mem(x) && !InSlots(plans[e].sites, x)
  {
    hide Replacement, Rewritten;
    AllOutside(slots, AllSites(plans[..e]), replacement);
    SitesOfAll(plans, e);
    forall x | !InSlots(AllSites(plans), x)
      ensures !InSlots(AllSites(plans[..e]), x) && !InSlots(plans[e].sites, x)
    {
      if InSlots(AllSites(plans[..e]), x) {
        SlotsOfMore(AllSites(plans[..e]), AllSites(plans), x);
      }
      if InSlots(plans[e].sites, x) {
        SlotsOfMore(plans[e].sites, AllSites(plans), x);
      }
    }
  }

  lemma AllOutside(slots: Slots, sites: seq<Site>, replacement: nat)
    requires Representable(slots, sites, replacement)
    ensures forall x :: !InSlots(sites, x) ==> Rewritten(slots, sites, replacement)(x) == slots.mem(x)
  {
    forall x | !InSlots(sites, x)
      ensures Rewritten(slots, sites, replacement)(x) == slots.mem(x)
    {
      RewrittenOutside(slots, sites, replacement, x);
    }
  }

  lemma SlotsOfMore(some: seq<Site>, all: seq<Site>, x: nat)
    requires (forall s :: s in some ==> s in all) && InSlots(some, x)
    ensures InSlots(all, x)
  {
    var i :| 0 <= i < |some| && some[i].spec.address <= x < some[i].spec.address + 8;
    assert some[i] in all;
    var j :| 0 <= j < |all| && all[j] == some[i];
  }

  lemma {:induction false} SitesOfAll(plans: seq<Plan>, e: nat)
    requires e < |plans|
    ensures forall s :: s in AllSites(plans[..e]) || s in plans[e].sites ==> s in AllSites(plans)
    decreases |plans|
  {
    var front := plans[..|plans| - 1];
    if e == |front| {
      assert plans[..e] == front;
    } else {
      assert front[..e] == plans[..e];
      SitesOfAll(front, e);
    }
  }

  // ---- reading back ----

  predicate ReadsBack(slots: Slots, site: Site, replacement: nat) {
    Replacement(slots.pac, slots.blend, site, replacement) == Some(ReadSlot(slots.mem, site.spec.address))
  }

  ghost predicate AllReadBack(slots: Slots, sites: seq<Site>, replacement: nat) {
    forall i :: 0 <= i < |sites| ==> ReadsBack(slots, sites[i], replacement)
  }

  /** The verifier passes exactly if every slot of every image now holds its replacement. */
  method VerifyBundle(process: Process, plans: seq<Plan>, replacement: nat) returns (ok: bool)
    ensures ok <==> AllReadBack(process.Slots(process.mem), AllSites(plans), replacement)
  {
    hide ReadsBack;
    var slots := process.Slots(process.mem);
    for e := 0 to |plans|
      invariant AllReadBack(slots, AllSites(plans[..e]), replacement)
    {
      assert plans[..e + 1][..e] == plans[..e];
      SitesOfAll(plans, e);
      for j := 0 to |plans[e].sites|
        invariant AllReadBack(slots, plans[e].sites[..j], replacement)
      {
        if !ReadsBack(slots, plans[e].sites[j], replacement) {
          NotAllReadBack(slots, AllSites(plans), plans[e].sites[j], replacement);
          return false;
        }
      }
      assert plans[e].sites[..|plans[e].sites|] == plans[e].sites;
    }
    assert plans[..|plans|] == plans;
    return true;
  }

  lemma NotAllReadBack(slots: Slots, sites: seq<Site>, site: Site, replacement: nat)
    requires site in sites && !ReadsBack(slots, site, replacement)
    ensures !AllReadBack(slots, sites, replacement)
  {
  }

  /** Slots that do not overlap read back as soon as they are written. */
  lemma DisjointReadBack(slots: Slots, sites: seq<Site>, replacement: nat)
    requires Representable(slots, sites, replacement) && Disjoint(sites) && replacement < LIMIT
    ensures AllReadBack(slots.(mem := Rewritten(slots, sites, replacement)), sites, replacement)
  {
    hide Replacement, ReadSlot, WriteSlot, Current, Rewritten;
    forall i | 0 <= i < |sites|
      ensures ReadsBack(slots.(mem := Rewritten(slots, sites, replacement)), sites[i], replacement)
    {
      DisjointSlots(slots, sites, replacement, i);
    }
  }

  // What one more plan's writes add to the report on the plans before, which were completed.
  lemma ToldMore(before: seq<Mutation>, told: seq<Mutation>, now: seq<Mutation>, state: Mutation)
    requires before <= told <= now && AllComplete(told[|before|..])
    requires state == Reported(state.Complete?, now[|told|..])
    ensures state.Complete? && AllComplete(now[|told|..]) ==> AllComplete(now[|before|..])
    ensures !state.Complete? && !AllComplete(now[|told|..]) ==> !AllComplete(now[|before|..])
    ensures !state.Complete? ==>
              Reported(false, now[|before|..]) ==
              if state.Unknown? then Unknown else if state.Partial? || told != before then Partial else Unmutated
  {
    hide AllComplete, Touched;
    var first, second := told[|before|..], now[|told|..];
    assert now[|before|..] == first + second;
    ToldBoth(first, second);
  }

  lemma ToldBoth(first: seq<Mutation>, second: seq<Mutation>)
    ensures AllComplete(first + second) <==> AllComplete(first) && AllComplete(second)
    ensures Touched(first + second) <==> Touched(first) || Touched(second)
    ensures AllComplete(first) ==> (Touched(first) <==> first != []) && (first != [] ==> first[|first| - 1].Complete?)
    ensures second == [] ==> !Touched(second) && first + second == first
    ensures second != [] ==> (first + second)[|first + second| - 1] == second[|second| - 1]
  {
    var all := first + second;
    forall i | 0 <= i < |first|
      ensures all[i] == first[i]
    {
    }
    forall i | 0 <= i < |second|
      ensures all[|first| + i] == second[i]
    {
    }
    if Touched(all) {
      var i :| 0 <= i < |all| && !all[i].Unmutated?;
      assert if i < |first| then !first[i].Unmutated? else !second[i - |first|].Unmutated?;
    }
    if Touched(first) {
      var i :| 0 <= i < |first| && !first[i].Unmutated?;
      assert !all[i].Unmutated?;
    }
    if Touched(second) {
      var i :| 0 <= i < |second| && !second[i].Unmutated?;
      assert !all[|first| + i].Unmutated?;
    }
    if AllComplete(first) && first != [] {
      assert first[0].Complete?;
    }
  }

  // What hinders a front of the bundle hinders the bundle.
  lemma {:induction false} NotUnhindered(slots: Slots, plans: seq<Plan>, n: nat, replacement: nat, predecessor: Option<nat>)
    requires n <= |plans|
    ensures Unhindered(slots, AllSites(plans), replacement, predecessor) ==>
            Unhindered(slots, AllSites(plans[..n]), replacement, predecessor)
    decreases |plans| - n
  {
    hide Replacement, ReadSlot, WriteSlot;
    if n == |plans| {
      assert plans[..n] == plans;
    } else {
      NotUnhindered(slots, plans, n + 1, replacement, predecessor);
      var front, sites := AllSites(plans[..n]), plans[n].sites;
      assert plans[..n + 1][..n] == plans[..n];
      if Unhindered(slots, front + sites, replacement, predecessor) {
        assert forall i :: 0 <= i < |front| ==> (front + sites)[i] == front[i];
        UnhinderedMore(slots, front, sites, replacement, predecessor);
      }
    }
  }

  /** For a bundle of disjoint slots that means: they all still hold what was captured when the
      commit began. Then every slot ends up with its replacement. */
  lemma DisjointBundle(slots: Slots, sites: seq<Site>, replacement: nat, predecessor: Option<nat>)
    requires Representable(slots, sites, replacement) && Disjoint(sites) && replacement < LIMIT
    ensures Unhindered(slots, sites, replacement, predecessor) <==>
            && (predecessor.Some? ==> Agrees(sites, predecessor.value))
            && forall i :: 0 <= i < |sites| ==> ReadSlot(slots.mem, sites[i].spec.address) == sites[i].original
    ensures forall i :: 0 <= i < |sites| ==>
              ReadSlot(Rewritten(slots, sites, replacement), sites[i].spec.address) ==
              Replacement(slots.pac, slots.blend, sites[i], replacement).value
  {
    hide Replacement, ReadSlot, WriteSlot, Current;
    forall i | 0 <= i < |sites|
      ensures Current(slots, sites, replacement, i) <==> ReadSlot(slots.mem, sites[i].spec.address) == sites[i].original
      ensures ReadSlot(Rewritten(slots, sites, replacement), sites[i].spec.address) ==
              Replacement(slots.pac, slots.blend, sites[i], replacement).value
    {
      DisjointSlots(slots, sites, replacement, i);
    }
  }

  // ---- slots that overlap ----

  predicate InSlot(a: nat, x: nat) { a <= x < a + 8 }

  /** The byte the last of the sites that covers an address puts there. */
  function LastByte(slots: Slots, sites: seq<Site>, replacement: nat, x: nat): Option<Byte>
    requires Representable(slots, sites, replacement)
  {
    if sites == [] then None
    else
      var last := sites[|sites| - 1];
      if InSlot(last.spec.address, x) then
        Some(Split(Replacement(slots.pac, slots.blend, last, replacement).value, 8)[x - last.spec.address])
      else LastByte(slots, sites[..|sites| - 1], replacement, x)
  }

  lemma {:induction false} LastByteIn(slots: Slots, sites: seq<Site>, replacement: nat, x: nat)
    requires Representable(slots, sites, replacement)
    ensures LastByte(slots, sites, replacement, x).Some? <==> InSlots(sites, x)
    decreases |sites|
  {
    hide Replacement, Split;
    if sites != [] {
      LastByteIn(slots, sites[..|sites| - 1], replacement, x);
      assert sites == sites[..|sites| - 1] + [sites[|sites| - 1]];
    }
  }

  lemma {:induction false} RewrittenByte(slots: Slots, sites: seq<Site>, replacement: nat, x: nat)
    requires Representable(slots, sites, replacement)
    ensures Rewritten(slots, sites, replacement)(x) ==
            match LastByte(slots, sites, replacement, x) case None => slots.mem(x) case Some(byte) => byte
    decreases |sites|
  {
    hide Replacement, Split;
    if sites != [] {
      RewrittenByte(slots, sites[..|sites| - 1], replacement, x);
    }
  }

  lemma {:induction false} LittleInjective(b: Bytes, c: Bytes)
    requires |b| == |c| && Little(b) == Little(c)
    ensures b == c
  {
    if b != [] {
      assert b[0] == Little(b) % 0x100 && c[0] == Little(c) % 0x100;
      LittleInjective(b[1..], c[1..]);
      assert b == [b[0]] + b[1..] && c == [c[0]] + c[1..];
    }
  }

  lemma SlotsSame(m: Memory, n: Memory, a: nat)
    ensures ReadSlot(m, a) == ReadSlot(n, a) <==> forall x: nat :: InSlot(a, x) ==> m(x) == n(x)
  {
    var b, c := SlotBytes(m, a), SlotBytes(n, a);
    if ReadSlot(m, a) == ReadSlot(n, a) {
      LittleInjective(b, c);
      forall x: nat | InSlot(a, x)
        ensures m(x) == n(x)
      {
        assert b[x - a] == m(x) && c[x - a] == n(x);
      }
    }
    if forall x: nat :: InSlot(a, x) ==> m(x) == n(x) {
      forall i | 0 <= i < 8
        ensures b[i] == c[i]
      {
        assert InSlot(a, a + i);
      }
      assert b == c;
    }
  }

  /** A site captured from these slots is still current at its turn exactly if, of the sites before
      it, the last to cover any of its bytes puts there the byte that was captured. */
  lemma CurrentExactly(slots: Slots, sites: seq<Site>, replacement: nat, i: nat)
    requires Representable(slots, sites, replacement) && i < |sites|
    requires sites[i].original == ReadSlot(slots.mem, sites[i].spec.address)
    ensures Current(slots, sites, replacement, i) <==>
            forall x: nat :: InSlot(sites[i].spec.address, x) ==>
              Spared(slots, sites[..i], replacement, x)
  {
    hide Replacement, Split, LastByte, Rewritten;
    var now := Rewritten(slots, sites[..i], replacement);
    SlotsSame(now, slots.mem, sites[i].spec.address);
    forall x: nat
      ensures now(x) == slots.mem(x) <==> Spared(slots, sites[..i], replacement, x)
    {
      RewrittenByte(slots, sites[..i], replacement, x);
    }
  }

  predicate Spared(slots: Slots, sites: seq<Site>, replacement: nat, x: nat)
    requires Representable(slots, sites, replacement)
  {
    match LastByte(slots, sites, replacement, x) case None => true case Some(byte) => byte == slots.mem(x)
  }

  /** Of two slots, wherever they are, the second is still current once the first is written exactly
      if the bytes they share are replaced by themselves. */
  lemma OverlapExactly(slots: Slots, first: Site, second: Site, replacement: nat)
    requires Replacement(slots.pac, slots.blend, first, replacement).Some?
    requires Replacement(slots.pac, slots.blend, second, replacement).Some?
    requires second.original == ReadSlot(slots.mem, second.spec.address)
    ensures Current(slots, [first, second], replacement, 1) <==>
            var value := Replacement(slots.pac, slots.blend, first, replacement).value;
            forall x: nat :: InSlot(first.spec.address, x) && InSlot(second.spec.address, x) ==>
              Split(value, 8)[x - first.spec.address] == slots.mem(x)
  {
    hide Replacement, Split;
    assert [first, second][0] == first;
    CurrentExactly(slots, [first, second], replacement, 1);
    assert [first, second][..1] == [first];
    forall x: nat
      ensures Spared(slots, [first], replacement, x) <==>
              (InSlot(first.spec.address, x) ==>
                 Split(Replacement(slots.pac, slots.blend, first, replacement).value, 8)[x - first.spec.address] == slots.mem(x))
    {
      OnlyByte(slots, first, replacement, x);
    }
  }

  lemma OnlyByte(slots: Slots, site: Site, replacement: nat, x: nat)
    requires Representable(slots, [site], replacement) && Replacement(slots.pac, slots.blend, site, replacement).Some?
    ensures LastByte(slots, [site], replacement, x) ==
            if InSlot(site.spec.address, x) then
              Some(Split(Replacement(slots.pac, slots.blend, site, replacement).value, 8)[x - site.spec.address])
            else None
  {
    hide Replacement, Split;
    assert [site][|[site]| - 1] == site && [site][..0] == [];
    assert LastByte(slots, [], replacement, x) == None;
  }

  /** So different addresses are not enough. Of two slots four bytes apart, as a format with a stride
      of four allows, the second no longer holds what was captured once the first is written. */
  lemma OverlapTrips(pac: Pac, blend: (nat, nat) -> nat)
    requires pac.Plain?
    ensures var slots := Slots.Slots(pac, blend, (x: nat) => 0);
            var schema := Schema(false, 0, 0, false);
            var sites := [Site(Spec(0, schema, 0, true), 0, 0), Site(Spec(4, schema, 0, true), 0, 0)];
            && DistinctSites(sites) && Representable(slots, sites, BITS) && Current(slots, sites, BITS, 0)
            && !Current(slots, sites, BITS, 1)
  {
    var slots := Slots.Slots(pac, blend, (x: nat) => 0);
    var schema := Schema(false, 0, 0, false);
    var sites := [Site(Spec(0, schema, 0, true), 0, 0), Site(Spec(4, schema, 0, true), 0, 0)];
    assert sites[..0] == [] && sites[..1] == [sites[0]] && sites[..1][..0] == [];
    ZeroSlot(slots.mem, 0);
    var m := WriteSlot(slots.mem, 0, BITS);
    assert Rewritten(slots, sites[..1], BITS) == m;
    FourthByte();
    assert SlotBytes(m, 4)[0] == 1;
  }

  const BITS: nat := 0x1_0000_0000

  lemma FourthByte()
    ensures Split(BITS, 8)[4] == 1
  {
    assert Split(BITS, 8)[4] == Split(BITS / 0x100, 7)[3] == Split(BITS / 0x1_0000, 6)[2];
    assert Split(BITS / 0x1_0000, 6)[2] == Split(BITS / 0x100_0000, 5)[1] == Split(1, 4)[0];
  }
}
