/** Import slots: 64-bit words in memory, the pointer authentication they carry
    (src/internal/HKPointerAuth.h, without authentication and in its test variant), and the
    sites the rebind engine makes of them (src/engines/HKRebindEngine.c). */
module ImportSlots {
  import opened Options
  import opened Leb128
  import opened ChainedPointers

  // ---- slots in memory ----

  type Memory = nat -> Byte

  function SlotBytes(m: Memory, a: nat): Bytes {
    [m(a), m(a + 1), m(a + 2), m(a + 3), m(a + 4), m(a + 5), m(a + 6), m(a + 7)]
  }

  function ReadSlot(m: Memory, a: nat): nat { Little(SlotBytes(m, a)) }

  function WriteSlot(m: Memory, a: nat, value: nat): Memory {
    var bytes := Split(value, 8);
    (x: nat) => if a <= x < a + 8 then bytes[x - a] else m(x)
  }

  predicate Apart(a: nat, b: nat) { a + 8 <= b || b + 8 <= a }

  lemma SlotReadBack(m: Memory, a: nat, value: nat)
    requires value < LIMIT
    ensures ReadSlot(WriteSlot(m, a, value), a) == value
  {
    EightBytes();
    SplitBack(value, 8);
    assert SlotBytes(WriteSlot(m, a, value), a) == Split(value, 8);
  }

  lemma SlotElsewhere(m: Memory, a: nat, value: nat, b: nat)
    requires Apart(a, b)
    ensures ReadSlot(WriteSlot(m, a, value), b) == ReadSlot(m, b)
  {
    assert SlotBytes(WriteSlot(m, a, value), b) == SlotBytes(m, b);
  }

  lemma EightBytes()
    ensures Pow2(64) == LIMIT
  {
    Powers();
    assert Pow2(64) == 2 * Pow2(63);
  }

  lemma {:induction false} LittleFits(b: Bytes)
    ensures Little(b) < Pow2(8 * |b|)
  {
    if b != [] {
      LittleFits(b[1..]);
      EightMore(|b| - 1);
    }
  }

  lemma SlotFits(m: Memory, a: nat)
    ensures ReadSlot(m, a) < LIMIT
  {
    EightBytes();
    LittleFits(SlotBytes(m, a));
  }

  lemma ZeroSlot(m: Memory, a: nat)
    requires forall x: nat :: m(x) == 0
    ensures ReadSlot(m, a) == 0
  {
    var b := SlotBytes(m, a);
    ZeroBytes(b);
  }

  lemma {:induction false} ZeroBytes(b: Bytes)
    requires forall i :: 0 <= i < |b| ==> b[i] == 0
    ensures Little(b) == 0
  {
    if b != [] {
      ZeroBytes(b[1..]);
    }
  }

  // ---- pointer authentication ----

  const ADDRESSES: nat := 0x1_0000_0000_0000
  const TAGS: nat := 0x1_0000

  datatype Schema = Schema(authenticated: bool, key: nat, diversity: nat, addressDiversity: bool)

  /** Without authentication, or with a tag above the 48 address bits, computed by some hash. */
  datatype Pac = Plain | Tagging(hash: (nat, nat, nat) -> nat)

  function Strip(pac: Pac, value: nat): nat {
    if pac.Plain? then value else value % ADDRESSES
  }

  // A tag of zero becomes one.
  function Tag(pac: Pac, raw: nat, key: nat, discriminator: nat): (tag: nat)
    requires pac.Tagging?
    ensures 0 < tag < TAGS
    ensures pac.hash(raw, key, discriminator) % 0x1_0000 != 0 ==> tag == pac.hash(raw, key, discriminator) % 0x1_0000
  {
    var tag := pac.hash(raw, key, discriminator) % TAGS;
    if tag == 0 then 1 else tag
  }

  function Sign(pac: Pac, value: nat, key: nat, discriminator: nat): nat {
    if pac.Plain? then value
    else Strip(pac, value) + ADDRESSES * Tag(pac, Strip(pac, value), key, discriminator)
  }

  // How address and diversity blend does not matter here, only that they decide the result.
  function Discriminator(s: Schema, blend: (nat, nat) -> nat, address: nat): nat {
    if s.addressDiversity then blend(address, s.diversity) else s.diversity
  }

  function MakeCallable(pac: Pac, value: nat): nat {
    if value == 0 then 0 else Sign(pac, Strip(pac, value), 0, 0)
  }

  function StripSlot(pac: Pac, value: nat, s: Schema): nat {
    if s.authenticated then Strip(pac, value) else value
  }

  function SignSlot(pac: Pac, blend: (nat, nat) -> nat, value: nat, s: Schema, address: nat): nat {
    if s.authenticated then Sign(pac, Strip(pac, value), s.key, Discriminator(s, blend, address)) else Strip(pac, value)
  }

  predicate SlotMatches(pac: Pac, blend: (nat, nat) -> nat, value: nat, s: Schema, address: nat) {
    !s.authenticated || SignSlot(pac, blend, StripSlot(pac, value, s), s, address) == value
  }

  lemma StripTwice(pac: Pac, value: nat)
    ensures Strip(pac, Strip(pac, value)) == Strip(pac, value)
  {
  }

  lemma StripSigned(pac: Pac, value: nat, key: nat, discriminator: nat)
    ensures Strip(pac, Sign(pac, value, key, discriminator)) == Strip(pac, value)
  {
    if pac.Tagging? {
      LowBits(Strip(pac, value), Tag(pac, Strip(pac, value), key, discriminator));
    }
  }

  lemma LowBits(low: nat, high: nat)
    requires low < ADDRESSES
    ensures (low + ADDRESSES * high) % ADDRESSES == low
  {
  }

  lemma SignedFits(pac: Pac, value: nat, key: nat, discriminator: nat)
    requires value < LIMIT
    ensures Sign(pac, value, key, discriminator) < LIMIT
  {
  }

  // ---- addends ----

  /** value + addend or value - addend, where that is a 64-bit address. */
  function Adjusted(value: nat, addend: int, add: bool): Option<nat> {
    var r := if add then value + addend else value - addend;
    if 0 <= r < LIMIT then Some(r) else None
  }

  /** The comparison is on magnitudes, which never overflow. */
  method CheckedAdjust(value: nat, addend: int, add: bool) returns (r: Option<nat>)
    requires value < LIMIT
    ensures r == Adjusted(value, addend, add)
  {
    var magnitude: nat := if addend < 0 then -(addend + 1) + 1 else addend;
    if (addend >= 0) == add {
      if magnitude > LIMIT - 1 - value {
        return None;
      }
      return Some(value + magnitude);
    } else {
      if magnitude > value {
        return None;
      }
      return Some(value - magnitude);
    }
  }

  // ---- sites ----

  const MAX_SITES: nat := 32

  /** A slot to rewrite, as the image's metadata describes it. */
  datatype Spec = Spec(address: nat, schema: Schema, addend: int, weak: bool)

  /** A spec and what its slot held: `callable` is the pointer a caller of the original needs. */
  datatype Site = Site(spec: Spec, original: nat, callable: nat)

  datatype Failure = Overflow | BadSite | PacMismatch
  datatype Added = Sites(sites: seq<Site>) | Fails(failure: Failure)

  /** The process the slots are in. */
  datatype Slots = Slots(pac: Pac, blend: (nat, nat) -> nat, mem: Memory)

  predicate SameUse(a: Spec, b: Spec) { a.schema == b.schema && a.addend == b.addend }

  function Find(sites: seq<Site>, address: nat): (i: Option<nat>)
    ensures i.Some? ==> i.value < |sites| && sites[i.value].spec.address == address
    ensures i.None? ==> forall j :: 0 <= j < |sites| ==> sites[j].spec.address != address
  {
    if sites == [] then None
    else if sites[0].spec.address == address then Some(0)
    else
      match Find(sites[1..], address)
      case None => None
      case Some(i) => Some(i + 1)
  }

  /** What the slot holds now makes a site, or refuses one. */
  function Capture(slots: Slots, spec: Spec): (site: Option<Site>)
    ensures site.Some? ==> site.value.spec == spec
  {
    var held := ReadSlot(slots.mem, spec.address);
    if held == 0 then
      if spec.weak && spec.addend == 0 then Some(Site(spec, 0, 0)) else None
    else
      match Adjusted(StripSlot(slots.pac, held, spec.schema), spec.addend, false)
      case None => None
      case Some(base) => Some(Site(spec, held, MakeCallable(slots.pac, base)))
  }

  predicate Authentic(slots: Slots, spec: Spec) {
    var held := ReadSlot(slots.mem, spec.address);
    held == 0 || SlotMatches(slots.pac, slots.blend, held, spec.schema, spec.address)
  }

  /** One more slot for the plan; a slot already there is fine if it is used the same way. */
  function AddSite(slots: Slots, sites: seq<Site>, spec: Spec): Added {
    var i := Find(sites, spec.address);
    if i.Some? then
      if SameUse(sites[i.value].spec, spec) then Sites(sites) else Fails(BadSite)
    else if |sites| >= MAX_SITES then Fails(Overflow)
    else if !Authentic(slots, spec) then Fails(PacMismatch)
    else
      match Capture(slots, spec)
      case None => Fails(BadSite)
      case Some(site) => Sites(sites + [site])
  }

  function AddAll(slots: Slots, sites: seq<Site>, specs: seq<Spec>): Added
    decreases |specs|
  {
    if specs == [] then Sites(sites)
    else
      match AddSite(slots, sites, specs[0])
      case Fails(failure) => Fails(failure)
      case Sites(more) => AddAll(slots, more, specs[1..])
  }

  method CollectSites(slots: Slots, specs: seq<Spec>) returns (added: Added)
    ensures added == AddAll(slots, [], specs)
  {
    hide AddSite;
    added := Sites([]);
    assert specs[0..] == specs;
    for i := 0 to |specs|
      invariant added.Sites? && AddAll(slots, added.sites, specs[i..]) == AddAll(slots, [], specs)
    {
      assert specs[i..][1..] == specs[i + 1..];
      added := AddSite(slots, added.sites, specs[i]);
      if added.Fails? {
        return;
      }
    }
  }

  function Specs(sites: seq<Site>): (specs: seq<Spec>)
    ensures |specs| == |sites| && forall i :: 0 <= i < |sites| ==> specs[i] == sites[i].spec
  {
    seq(|sites|, i requires 0 <= i < |sites| => sites[i].spec)
  }

  ghost predicate DistinctSites(sites: seq<Site>) {
    forall i, j :: 0 <= i < j < |sites| ==> sites[i].spec.address != sites[j].spec.address
  }

  // ---- the sites of one walk serve for the next ----

  /** Collecting again from the specs of sites once collected gives what collecting again from
      all that was listed gives, whatever the slots hold by then: the same sites or the same
      refusal. */
  lemma ReplayIsFaithful(before: Slots, now: Slots, specs: seq<Spec>, sites: seq<Site>)
    requires AddAll(before, [], specs) == Sites(sites)
    ensures AddAll(now, [], Specs(sites)) == AddAll(now, [], specs)
    ensures DistinctSites(sites) && |sites| <= MAX_SITES
  {
    assert Specs(sites)[0..] == Specs(sites);
    ReplayFrom(before, now, specs, [], sites, []);
  }

  // `was` are the sites found so far then, `is` those found so far now.
  lemma {:induction false} ReplayFrom(before: Slots, now: Slots, specs: seq<Spec>, was: seq<Site>, sites: seq<Site>, now_: seq<Site>)
    requires AddAll(before, was, specs) == Sites(sites) && DistinctSites(was) && |was| <= MAX_SITES
    requires Specs(was) == Specs(now_)
    ensures was <= sites && DistinctSites(sites) && |sites| <= MAX_SITES
    ensures AddAll(now, now_, Specs(sites)[|was|..]) == AddAll(now, now_, specs)
    decreases |specs|, 1
  {
    if specs == [] {
      assert Specs(sites)[|was|..] == [];
    } else {
      var spec := specs[0];
      var more := AddSite(before, was, spec).sites;
      SameFind(was, now_, spec.address);
      if Find(was, spec.address).Some? {
        ReplayFrom(before, now, specs[1..], was, sites, now_);
      } else {
        ReplayNext(before, now, specs, was, sites, now_);
      }
    }
  }

  // A slot not met before: captured then, and now captured alike or refused.
  lemma {:induction false} ReplayNext(before: Slots, now: Slots, specs: seq<Spec>, was: seq<Site>, sites: seq<Site>, now_: seq<Site>)
    requires specs != [] && AddAll(before, was, specs) == Sites(sites) && DistinctSites(was) && |was| <= MAX_SITES
    requires Specs(was) == Specs(now_) && Find(was, specs[0].address).None?
    ensures was <= sites && DistinctSites(sites) && |sites| <= MAX_SITES
    ensures AddAll(now, now_, Specs(sites)[|was|..]) == AddAll(now, now_, specs)
    decreases |specs|, 0
  {
    hide Capture, Authentic;
    var spec := specs[0];
    var more := AddSite(before, was, spec).sites;
    SameFind(was, now_, spec.address);
    var site := more[|was|];
    var again := AddSite(now, now_, spec);
    var more' := if again.Sites? then again.sites else now_ + [site];
    assert more' == now_ + [more'[|now_|]] && more'[|now_|].spec == spec;
    assert Specs(more) == Specs(was) + [spec] && Specs(more') == Specs(now_) + [spec];
    ReplayFrom(before, now, specs[1..], more, sites, more');
    var rest := Specs(sites)[|was|..];
    assert |more| == |was| + 1 && sites[|was|] == more[|was|];
    assert rest[0] == spec;
    assert rest[1..] == Specs(sites)[|was| + 1..];
  }

  lemma SameFind(a: seq<Site>, b: seq<Site>, address: nat)
    requires Specs(a) == Specs(b)
    ensures Find(a, address) == Find(b, address)
    decreases |a|
  {
    assert |a| == |Specs(a)| && |b| == |Specs(b)|;
    if a != [] {
      assert a[0].spec == Specs(a)[0] == b[0].spec;
      assert Specs(a[1..]) == Specs(a)[1..] && Specs(b[1..]) == Specs(b)[1..];
      SameFind(a[1..], b[1..], address);
    }
  }

  /** Every site of a plan is what its slot holds. */
  lemma CapturedNow(slots: Slots, specs: seq<Spec>, sites: seq<Site>)
    requires AddAll(slots, [], specs) == Sites(sites)
    ensures forall i :: 0 <= i < |sites| ==> Capture(slots, sites[i].spec) == Some(sites[i]) && Authentic(slots, sites[i].spec)
  {
    CapturedFrom(slots, [], specs, sites);
  }

  lemma {:induction false} CapturedFrom(slots: Slots, before: seq<Site>, specs: seq<Spec>, sites: seq<Site>)
    requires AddAll(slots, before, specs) == Sites(sites)
    requires forall i :: 0 <= i < |before| ==> Capture(slots, before[i].spec) == Some(before[i]) && Authentic(slots, before[i].spec)
    ensures forall i :: 0 <= i < |sites| ==> Capture(slots, sites[i].spec) == Some(sites[i]) && Authentic(slots, sites[i].spec)
    decreases |specs|
  {
    hide Capture, Authentic;
    if specs != [] {
      CapturedFrom(slots, AddSite(slots, before, specs[0]).sites, specs[1..], sites);
    }
  }

  // ---- what becomes of one slot ----

  /** The address a slot's value stands for: an authenticated one carries a tag above 48 bits. */
  function Pointee(slots: Slots, spec: Spec): nat {
    var value := ReadSlot(slots.mem, spec.address);
    if spec.schema.authenticated && slots.pac.Tagging? then value % 0x1_0000_0000_0000 else value
  }

  /** The tag an authenticated value must carry. */
  predicate Tagged(slots: Slots, spec: Spec) {
    slots.pac.Tagging? && spec.schema.authenticated ==>
      var value, schema := ReadSlot(slots.mem, spec.address), spec.schema;
      var discriminator := if schema.addressDiversity then slots.blend(spec.address, schema.diversity) else schema.diversity;
      value == value % 0x1_0000_0000_0000 + 0x1_0000_0000_0000 * Tag(slots.pac, value % 0x1_0000_0000_0000, schema.key, discriminator)
  }

  /** What is kept of a slot: nothing to call if it is empty, which only a weak import without addend may
      be, and otherwise its value less the addend, signed again as a function pointer. */
  lemma CaptureExactly(slots: Slots, spec: Spec)
    ensures var value, original := ReadSlot(slots.mem, spec.address), Pointee(slots, spec) - spec.addend;
            Capture(slots, spec) ==
            if value == 0 then if spec.weak && spec.addend == 0 then Some(Site(spec, 0, 0)) else None
            else if !(0 <= original < 0x1_0000_0000_0000_0000) then None
            else Some(Site(spec, value, FunctionPointer(slots, original)))
  {
    hide Tag, ReadSlot;
    assert LIMIT == 0x1_0000_0000_0000_0000;
  }

  /** With the tagging variant a function pointer carries a tag for key 0 and discriminator 0. */
  function FunctionPointer(slots: Slots, original: nat): nat {
    if slots.pac.Plain? || original == 0 then original
    else
      var address := original % 0x1_0000_0000_0000;
      address + 0x1_0000_0000_0000 * Tag(slots.pac, address, 0, 0)
  }

  lemma AuthenticExactly(slots: Slots, spec: Spec)
    ensures Authentic(slots, spec) <==> ReadSlot(slots.mem, spec.address) == 0 || Tagged(slots, spec)
  {
    hide Tag, ReadSlot;
  }

  /** What one more slot makes of a plan: the first refusal that applies, or its site behind the others. */
  lemma AddSiteExactly(slots: Slots, sites: seq<Site>, spec: Spec)
    requires DistinctSites(sites)
    ensures var value, added := ReadSlot(slots.mem, spec.address), AddSite(slots, sites, spec);
            var original := Pointee(slots, spec) - spec.addend;
            if i: nat :| i < |sites| && sites[i].spec.address == spec.address then
              added == if sites[i].spec.schema == spec.schema && sites[i].spec.addend == spec.addend then Sites(sites) else Fails(BadSite)
            else if |sites| >= 32 then added == Fails(Overflow)
            else if value != 0 && !Tagged(slots, spec) then added == Fails(PacMismatch)
            else if value == 0 then
              added == if spec.weak && spec.addend == 0 then Sites(sites + [Site(spec, 0, 0)]) else Fails(BadSite)
            else if !(0 <= original < 0x1_0000_0000_0000_0000) then added == Fails(BadSite)
            else added == Sites(sites + [Site(spec, value, FunctionPointer(slots, original))])
  {
    hide ReadSlot, Capture, Authentic, Tagged, Pointee, FunctionPointer;
    CaptureExactly(slots, spec);
    AuthenticExactly(slots, spec);
  }

  /** Some site of the plan is for this slot, used in this way. */
  predicate HasSite(sites: seq<Site>, spec: Spec) {
    exists i :: 0 <= i < |sites| && sites[i].spec.address == spec.address &&
                sites[i].spec.schema == spec.schema && sites[i].spec.addend == spec.addend
  }

  lemma StillHasSite(before: seq<Site>, sites: seq<Site>, spec: Spec)
    requires before <= sites && HasSite(before, spec)
    ensures HasSite(sites, spec)
  {
    var i :| 0 <= i < |before| && before[i].spec.address == spec.address &&
             before[i].spec.schema == spec.schema && before[i].spec.addend == spec.addend;
    assert sites[i] == before[i];
  }

  /** What a plan holds once all were added: one site for each address met, with what is there. */
  lemma {:induction false} SitesExactly(slots: Slots, before: seq<Site>, specs: seq<Spec>, sites: seq<Site>)
    requires AddAll(slots, before, specs) == Sites(sites) && DistinctSites(before) && |before| <= 32
    ensures before <= sites && DistinctSites(sites) && |sites| <= 32
    ensures forall i :: 0 <= i < |sites| ==>
              if i < |before| then sites[i] == before[i]
              else sites[i].spec in specs && sites[i].original == ReadSlot(slots.mem, sites[i].spec.address)
    ensures forall spec :: spec in specs ==> HasSite(sites, spec)
    decreases |specs|
  {
    hide AddSite, ReadSlot, HasSite;
    if specs != [] {
      var spec := specs[0];
      var more := AddSite(slots, before, spec).sites;
      OneMore(slots, before, spec, more);
      SitesExactly(slots, more, specs[1..], sites);
      StillHasSite(more, sites, spec);
      assert specs == [spec] + specs[1..];
    }
  }

  lemma OneMore(slots: Slots, before: seq<Site>, spec: Spec, more: seq<Site>)
    requires AddSite(slots, before, spec) == Sites(more) && DistinctSites(before) && |before| <= 32
    ensures DistinctSites(more) && |more| <= 32 && before <= more && |more| <= |before| + 1
    ensures |more| > |before| ==> more[|before|].spec == spec && more[|before|].original == ReadSlot(slots.mem, spec.address)
    ensures HasSite(more, spec)
  {
    hide ReadSlot;
    var i := Find(before, spec.address);
    if i.Some? {
      assert more[i.value].spec.address == spec.address;
    } else {
      assert more[|before|].spec == spec;
    }
  }
}
