/** The memory-patch engine: src/engines/HKMemoryEngine.c. What the writer does is up to it, within
    its contract; what others do between the two phases is not bound at all. */
module MemoryEngine {
  import opened Mutations
  import opened Options

  type Memory = nat -> bv8

  const MAX_PATCH: nat := 256

  datatype Status = Ok | InvalidArgument | TooLarge | PreconditionFailed

  function ReadBytes(m: Memory, a: nat, n: nat): (bytes: seq<bv8>)
    ensures |bytes| == n && forall i :: 0 <= i < n ==> bytes[i] == m(a + i)
  {
    seq(n, i requires 0 <= i < n => m(a + i))
  }

  predicate InRegion(a: nat, n: nat, b: nat) { a <= b < a + n }

  /** Memory with a region replaced. */
  function Patched(m: Memory, a: nat, bytes: seq<bv8>): Memory {
    (b: nat) => if InRegion(a, |bytes|, b) then bytes[b - a] else m(b)
  }

  ghost predicate Same(m: Memory, n: Memory) {
    forall b: nat :: m(b) == n(b)
  }

  /** Nobody changed the region. */
  ghost predicate Untouched(m: Memory, n: Memory, a: nat, size: nat) {
    forall b: nat :: InRegion(a, size, b) ==> m(b) == n(b)
  }

  lemma ReadsSame(m: Memory, n: Memory, a: nat, size: nat)
    ensures ReadBytes(m, a, size) == ReadBytes(n, a, size) <==> Untouched(m, n, a, size)
  {
    var x, y := ReadBytes(m, a, size), ReadBytes(n, a, size);
    if x == y {
      forall b: nat | InRegion(a, size, b)
        ensures m(b) == n(b)
      {
        assert x[b - a] == y[b - a];
      }
    }
    if Untouched(m, n, a, size) {
      forall i | 0 <= i < size
        ensures x[i] == y[i]
      {
        assert InRegion(a, size, a + i);
      }
    }
  }

  // ---- the precondition ----

  predicate Bit(x: bv8, k: bv8)
    requires k < 8
  {
    (x >> k) & 1 == 1
  }

  /** The two bytes agree in every bit the mask selects. */
  ghost predicate AgreeUnder(x: bv8, y: bv8, mask: bv8) {
    forall k: bv8 :: k < 8 && Bit(mask, k) ==> Bit(x, k) == Bit(y, k)
  }

  lemma MaskedAgree(x: bv8, y: bv8, mask: bv8)
    ensures x & mask == y & mask <==> AgreeUnder(x, y, mask)
  {
    if AgreeUnder(x, y, mask) {
      OneBit(x, y, mask, 0);
      OneBit(x, y, mask, 1);
      OneBit(x, y, mask, 2);
      OneBit(x, y, mask, 3);
      OneBit(x, y, mask, 4);
      OneBit(x, y, mask, 5);
      OneBit(x, y, mask, 6);
      OneBit(x, y, mask, 7);
      EveryBit(x & mask, y & mask);
    }
    if x & mask == y & mask {
      forall k: bv8 | k < 8 && Bit(mask, k)
        ensures Bit(x, k) == Bit(y, k)
      {
        MaskedBit(x, y, mask, k);
      }
    }
  }

  lemma MaskedBit(x: bv8, y: bv8, mask: bv8, k: bv8)
    requires k < 8 && x & mask == y & mask && Bit(mask, k)
    ensures Bit(x, k) == Bit(y, k)
  {
    BitOfMasked(x, mask, k);
    BitOfMasked(y, mask, k);
  }

  lemma BitOfMasked(x: bv8, mask: bv8, k: bv8)
    requires k < 8
    ensures Bit(x & mask, k) <==> Bit(x, k) && Bit(mask, k)
  {
  }

  lemma OneBit(x: bv8, y: bv8, mask: bv8, k: bv8)
    requires k < 8 && AgreeUnder(x, y, mask)
    ensures Bit(x & mask, k) == Bit(y & mask, k)
  {
    BitOfMasked(x, mask, k);
    BitOfMasked(y, mask, k);
  }

  lemma EveryBit(x: bv8, y: bv8)
    requires Bit(x, 0) == Bit(y, 0) && Bit(x, 1) == Bit(y, 1) && Bit(x, 2) == Bit(y, 2) && Bit(x, 3) == Bit(y, 3)
    requires Bit(x, 4) == Bit(y, 4) && Bit(x, 5) == Bit(y, 5) && Bit(x, 6) == Bit(y, 6) && Bit(x, 7) == Bit(y, 7)
    ensures x == y
  {
  }

  method SameUnder(x: bv8, y: bv8, mask: bv8) returns (same: bool)
    ensures same <==> AgreeUnder(x, y, mask)
  {
    MaskedAgree(x, y, mask);
    return x & mask == y & mask;
  }

  function MaskAt(mask: Option<seq<bv8>>, i: nat): bv8
    requires mask.Some? ==> i < |mask.value|
  {
    if mask.Some? then mask.value[i] else 0xFF
  }

  /** Every bit a request pins is as it says. */
  ghost predicate Pinned(current: seq<bv8>, expected: seq<bv8>, mask: Option<seq<bv8>>) {
    && |current| == |expected| && (mask.Some? ==> |mask.value| == |expected|)
    && forall i :: 0 <= i < |expected| ==> AgreeUnder(current[i], expected[i], MaskAt(mask, i))
  }

  /** Without a mask every byte counts whole; under one, a byte whose mask is 0xFF does, and one whose mask
      is zero does not count at all. */
  lemma PinnedExactly(current: seq<bv8>, expected: seq<bv8>, mask: Option<seq<bv8>>, i: nat, x: bv8)
    requires |current| == |expected| && (mask.Some? ==> |mask.value| == |expected|) && i < |expected|
    ensures mask.None? ==> (Pinned(current, expected, mask) <==> current == expected)
    ensures mask.Some? && mask.value[i] == 0xFF && Pinned(current, expected, mask) ==> current[i] == expected[i]
    ensures mask.Some? && mask.value[i] == 0 ==>
              (Pinned(current, expected, mask) <==> Pinned(current[i := x], expected, mask))
  {
    hide AgreeUnder;
    forall j | 0 <= j < |expected|
      ensures MaskAt(mask, j) == 0xFF ==> (AgreeUnder(current[j], expected[j], MaskAt(mask, j)) <==> current[j] == expected[j])
    {
      MaskedAgree(current[j], expected[j], MaskAt(mask, j));
      WholeByte(current[j]);
      WholeByte(expected[j]);
    }
    if mask.Some? && mask.value[i] == 0 {
      MaskedAgree(current[i], expected[i], 0);
      MaskedAgree(x, expected[i], 0);
    }
  }

  lemma WholeByte(x: bv8)
    ensures x & 0xFF == x
  {
  }

  method MaskedEqual(current: seq<bv8>, expected: seq<bv8>, mask: Option<seq<bv8>>) returns (equal: bool)
    requires |current| == |expected| && (mask.Some? ==> |mask.value| == |expected|)
    ensures equal <==> Pinned(current, expected, mask)
  {
    hide AgreeUnder;
    for i := 0 to |current|
      invariant forall j :: 0 <= j < i ==> AgreeUnder(current[j], expected[j], MaskAt(mask, j))
    {
      var same := SameUnder(current[i], expected[i], MaskAt(mask, i));
      if !same {
        return false;
      }
    }
    return true;
  }

  // ---- the two phases ----

  /** What prepare takes away: the bytes to put back, and to compare with before the write. */
  datatype Plan = Plan(original: seq<bv8>, captured: bool)

  /** Phase one captures a region exactly when the request is well formed, not too large, and what
      it pins holds. A mask without expected bytes is not looked at. */
  method Prepare(m: Memory, a: nat, size: nat, expected: Option<seq<bv8>>, mask: Option<seq<bv8>>)
    returns (status: Status, plan: Plan)
    ensures status.Ok? <==> plan.captured
    ensures var fits := a != 0 && 0 < size <= 256 &&
                        (expected.Some? ==> |expected.value| == size && (mask.Some? ==> |mask.value| == size));
            && (status.TooLarge? <==> a != 0 && size > 256)
            && (status.InvalidArgument? <==> !fits && !status.TooLarge?)
            && (status.Ok? <==> fits && (expected.Some? ==> Pinned(ReadBytes(m, a, size), expected.value, mask)))
            && (status.PreconditionFailed? <==>
                 fits && expected.Some? && !Pinned(ReadBytes(m, a, size), expected.value, mask))
    ensures status.Ok? ==> plan.original == ReadBytes(m, a, size)
  {
    hide Pinned;
    plan := Plan([], false);
    if a == 0 || size == 0 {
      return InvalidArgument, plan;
    }
    if size > MAX_PATCH {
      return TooLarge, plan;
    }
    if expected.Some? {
      if |expected.value| != size {
        return InvalidArgument, plan;
      }
      if mask.Some? && |mask.value| != size {
        return InvalidArgument, plan;
      }
    }
    plan := Plan(ReadBytes(m, a, size), true);
    if expected.Some? {
      var equal := MaskedEqual(plan.original, expected.value, mask);
      if !equal {
        return PreconditionFailed, plan.(captured := false);
      }
    }
    return Ok, plan;
  }

  /** The writer's contract: Unmutated proves no write, Complete wrote exactly what it was given. */
  ghost predicate Obeys(before: Memory, a: nat, bytes: seq<bv8>, outcome: Mutation, after: Memory) {
    match outcome
    case Unmutated => after == before
    case Complete => after == Patched(before, a, bytes)
    case _ => forall b: nat :: !InRegion(a, |bytes|, b) ==> after(b) == before(b)
  }

  /** What is recorded of a write that may have happened. */
  datatype Artifact = Artifact(address: nat, original: seq<bv8>, committed: bool, safeToReverse: bool)

  class Process {
    var mem: Memory
    ghost var ledger: seq<Artifact>

    constructor (mem: Memory)
      ensures this.mem == mem && ledger == []
    {
      this.mem, ledger := mem, [];
    }

    /** The store; what it is asked to write is what its contract binds it to. */
    method Write(a: nat, bytes: seq<bv8>, outcome: Mutation, after: Memory)
      requires Obeys(mem, a, bytes, outcome, after)
      modifies this`mem
      ensures mem == after
    {
      mem := after;
    }

    /** Phase two. A result of Unmutated leaves memory and ledger as they were, whatever refused;
        Complete means the whole replacement is in place, over the very bytes that prepare saw. */
    method Commit(a: nat, plan: Plan, replacement: seq<bv8>, outcome: Mutation, after: Memory) returns (m: Mutation)
      requires Obeys(mem, a, replacement, outcome, after)
      modifies this
      ensures m == if plan.captured && a != 0 && |replacement| == |plan.original| &&
                      (forall i :: 0 <= i < |replacement| ==> old(mem)(a + i) == plan.original[i])
                   then outcome else Unmutated
      ensures m == if Unchanged(old(mem), a, plan, replacement) then outcome else Unmutated
      ensures m.Unmutated? ==> mem == old(mem) && ledger == old(ledger)
      ensures m.Complete? ==> mem == Patched(old(mem), a, replacement)
      ensures !m.Unmutated? ==> ledger == old(ledger) + [Artifact(a, ReadBytes(old(mem), a, |replacement|), m.Complete?, m.Complete?)]
      ensures forall b: nat :: !InRegion(a, |replacement|, b) ==> mem(b) == old(mem)(b)
    {
      if !plan.captured || a == 0 {
        return Unmutated;
      }
      if |replacement| != |plan.original| {
        return Unmutated;
      }
      if ReadBytes(mem, a, |plan.original|) != plan.original {
        return Unmutated;
      }
      Write(a, replacement, outcome, after);
      if outcome.Unmutated? {
        return Unmutated;
      }
      ledger := ledger + [Artifact(a, plan.original, outcome.Complete?, outcome.Complete?)];
      return outcome;
    }
  }

  /** The region still holds what prepare captured, and the replacement covers exactly it. */
  predicate Unchanged(m: Memory, a: nat, plan: Plan, replacement: seq<bv8>) {
    plan.captured && a != 0 && |replacement| == |plan.original| && ReadBytes(m, a, |plan.original|) == plan.original
  }

  /** An artifact's bytes undo the patch: nothing tells the memory from the one before. */
  lemma ReversalRestores(m: Memory, a: nat, replacement: seq<bv8>)
    ensures Same(Patched(Patched(m, a, replacement), a, ReadBytes(m, a, |replacement|)), m)
  {
    var bytes := ReadBytes(m, a, |replacement|);
    forall b: nat
      ensures Patched(Patched(m, a, replacement), a, bytes)(b) == m(b)
    {
      if InRegion(a, |replacement|, b) {
        assert bytes[b - a] == m(a + (b - a));
      }
    }
  }

  /** Of two patches prepared on the same memory, the second is still unchanged once the first is
      in place exactly if the first leaves the bytes they share as they were. */
  lemma SecondPatchExactly(m: Memory, a: nat, first: seq<bv8>, b: nat, second: seq<bv8>)
    requires b != 0
    ensures Unchanged(Patched(m, a, first), b, Plan(ReadBytes(m, b, |second|), true), second) <==>
            forall x: nat :: InRegion(a, |first|, x) && InRegion(b, |second|, x) ==> first[x - a] == m(x)
  {
    ReadsSame(m, Patched(m, a, first), b, |second|);
    if Untouched(m, Patched(m, a, first), b, |second|) {
      forall x: nat | InRegion(a, |first|, x) && InRegion(b, |second|, x)
        ensures first[x - a] == m(x)
      {
        assert Patched(m, a, first)(x) == m(x);
      }
    }
  }

  /** Prepare, let anything happen to the rest of memory, commit: with a writer that completes, the
      replacement goes in exactly if the region itself was left alone, and what was pinned before
      is what the artifact holds. */
  method PatchRegion(process: Process, a: nat, expected: seq<bv8>, mask: Option<seq<bv8>>, replacement: seq<bv8>,
                     meanwhile: Memory)
    returns (status: Status, m: Mutation)
    requires a != 0 && 0 < |expected| == |replacement| <= MAX_PATCH && (mask.Some? ==> |mask.value| == |expected|)
    modifies process
    ensures status.Ok? <==> Pinned(ReadBytes(old(process.mem), a, |expected|), expected, mask)
    ensures status.Ok? || status.PreconditionFailed?
    ensures m.Complete? <==> status.Ok? && Untouched(meanwhile, old(process.mem), a, |expected|)
    ensures m.Complete? ==> process.mem == Patched(meanwhile, a, replacement)
    ensures m.Complete? ==> |process.ledger| == |old(process.ledger)| + 1 &&
                            Pinned(process.ledger[|old(process.ledger)|].original, expected, mask)
    ensures !m.Complete? ==> m.Unmutated? && process.mem == meanwhile && process.ledger == old(process.ledger)
  {
    hide Pinned;
    var plan: Plan;
    ghost var was := process.mem;
    status, plan := Prepare(process.mem, a, |expected|, Some(expected), mask);
    process.mem := meanwhile;
    if status.Ok? {
      m := process.Commit(a, plan, replacement, Complete, Patched(process.mem, a, replacement));
      ReadsSame(meanwhile, was, a, |expected|);
    } else {
      m := Unmutated;
    }
  }
}
