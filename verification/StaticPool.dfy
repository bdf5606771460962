/** The fixed pool of executable slots: src/engines/HKStaticPool.c. The bitmap of used slots is a
    set of slot numbers. */
module StaticPool {
  import opened Leb128

  const MAX_SLOTS: nat := 64

  function Distance(a: nat, b: nat): nat { if a > b then a - b else b - a }

  /** As close from either side, by the length of the way between. */
  lemma DistanceExactly(a: nat, b: nat)
    ensures Distance(a, b) == Distance(b, a) && (a + Distance(a, b) == b || b + Distance(a, b) == a)
  {
  }

  /** Where slot number `i` starts, counted from the start of the region. */
  function Offset(i: nat, size: nat): nat { i * size }

  lemma OffsetsApart(i: nat, j: nat, size: nat)
    requires i < j
    ensures Offset(i, size) + size <= Offset(j, size)
  {
    assert (j - i - 1) * size >= 0;
  }

  lemma OffsetIsMultiple(i: nat, size: nat)
    requires 0 < size
    ensures Offset(i, size) % size == 0 && Offset(i, size) / size == i
  {
    Digits(0, i, size);
  }

  lemma DividesBack(offset: nat, size: nat)
    requires 0 < size && offset % size == 0
    ensures offset == Offset(offset / size, size)
  {
    var q := offset / size;
    assert offset == size * q + offset % size;
    assert size * q == q * size;
  }

  lemma NoOverflow(size: nat, count: nat)
    requires 0 < count
    ensures size > (LIMIT - 1) / count <==> Offset(count, size) >= LIMIT
  {
    var q := (LIMIT - 1) / count;
    assert q * count <= LIMIT - 1 < q * count + count;
    if size > q {
      Above(size, q, count);
    } else {
      AtMost(size, q, count);
    }
  }

  lemma Above(size: nat, q: nat, count: nat)
    requires size > q
    ensures Offset(count, size) >= q * count + count
  {
    assert (size - q - 1) * count >= 0;
  }

  lemma AtMost(size: nat, q: nat, count: nat)
    requires size <= q
    ensures Offset(count, size) <= q * count
  {
    assert (q - size) * count >= 0;
  }

  class Pool {
    var base: nat
    var slotSize: nat
    var slotCount: nat
    var used: set<nat>

    /** A pool as Init leaves it: its size fits a word, but where it ends was not looked at. */
    ghost predicate Shaped()
      reads this
    {
      && 0 < base < LIMIT && 0 < slotSize && 0 < slotCount <= MAX_SLOTS
      && Offset(slotCount, slotSize) < LIMIT
      && forall i :: i in used ==> i < slotCount
    }

    /** A pool whose region ends within the address space. */
    ghost predicate Valid()
      reads this
    {
      Shaped() && base + Offset(slotCount, slotSize) < LIMIT
    }

    function Address(i: nat): nat
      reads this`base, this`slotSize
    {
      (base + Offset(i, slotSize)) % LIMIT
    }

    /** The slots handed out and not given back. */
    ghost function Live(): set<nat>
      reads this
    {
      set i | i in used :: Address(i)
    }

    ghost predicate Taken(i: nat)
      reads this
    {
      i in used
    }

    constructor ()
      ensures base == 0 && slotCount == 0 && used == {}
    {
      base, slotSize, slotCount, used := 0, 0, 0, {};
    }

    /** What is accepted is a region whose size does not overflow; where it ends is not checked. */
    method Init(base: nat, slotSize: nat, slotCount: nat) returns (ok: bool)
      requires base < LIMIT && slotSize < LIMIT
      modifies this
      ensures ok <==> 0 < base && 0 < slotSize && 0 < slotCount <= 64 && Offset(slotCount, slotSize) < LIMIT
      ensures ok ==> Shaped() && used == {}
      ensures ok ==> this.base == base && this.slotSize == slotSize && this.slotCount == slotCount
    {
      hide Offset;
      if base == 0 || slotSize == 0 || slotCount == 0 || slotCount > MAX_SLOTS {
        return false;
      }
      NoOverflow(slotSize, slotCount);
      if slotSize > (LIMIT - 1) / slotCount {
        return false;
      }
      this.base, this.slotSize, this.slotCount, used := base, slotSize, slotCount, {};
      return true;
    }

    /** Every slot of a pool that ends within the address space lies in the region. */
    lemma InRegion(i: nat)
      requires Valid() && i < slotCount
      ensures Address(i) == base + Offset(i, slotSize)
      ensures base <= Address(i) && Address(i) + slotSize <= base + Offset(slotCount, slotSize)
    {
      hide Offset;
      OffsetsApart(i, slotCount, slotSize);
    }

    /** Two slots share no byte. */
    lemma SlotsDisjoint(i: nat, j: nat)
      requires Valid() && i < slotCount && j < slotCount && i != j
      ensures Address(i) + slotSize <= Address(j) || Address(j) + slotSize <= Address(i)
    {
      hide Offset;
      InRegion(i);
      InRegion(j);
      if i < j {
        OffsetsApart(i, j, slotSize);
      } else {
        OffsetsApart(j, i, slotSize);
      }
    }

    /** Slot `i` is free and no free slot is nearer to the hint, nor as near with a lower number. */
    ghost predicate Nearest(i: nat, near: nat, bound: nat)
      reads this
    {
      && i < bound && !Taken(i)
      && forall j: nat :: j < bound && !Taken(j) ==>
           Distance(Address(i), near) <= Distance(Address(j), near) && (j < i ==> Distance(Address(i), near) < Distance(Address(j), near))
    }

    /** The free slot nearest to the hint; no slot is marked exactly when the size does not fit or
        every slot is taken. */
    method Claim(size: nat, near: nat) returns (slot: nat, ghost index: nat)
      requires Shaped()
      modifies this`used
      ensures Shaped() && index <= slotCount
      ensures index == slotCount <==> size == 0 || size > slotSize || forall i: nat :: i < slotCount ==> i in old(used)
      ensures index == slotCount ==> slot == 0 && used == old(used)
      ensures index < slotCount ==> slot == Address(index) && used == old(used) + {index} && old(Nearest(index, near, slotCount))
    {
      hide Offset;
      index := slotCount;
      if size == 0 || size > slotSize {
        return 0, slotCount;
      }
      var best: nat, distance: nat := slotCount, 0;
      for i: nat := 0 to slotCount
        invariant best == slotCount ==> forall j: nat :: j < i ==> Taken(j)
        invariant best != slotCount ==> Nearest(best, near, i) && distance == Distance(Address(best), near)
      {
        if i !in used {
          var d := Distance(Address(i), near);
          if best == slotCount || d < distance {
            best, distance := i, d;
          }
        } else {
          assert Taken(i);
        }
      }
      index := best;
      if best == slotCount {
        assert forall j: nat :: j < slotCount && Taken(j) ==> j in old(used);
        return 0, index;
      }
      assert !Taken(best);
      slot := Address(best);
      used := used + {best};
    }

    /** Slot `i` starts before the end of the address space. */
    ghost predicate Straight(i: nat)
      reads this`base, this`slotSize
    {
      base + Offset(i, slotSize) < LIMIT
    }

    /** Takes a slot back; anything but the address of a slot is ignored, and so is that of a slot
        that lies past the end of the address space. */
    method Release(slot: nat)
      requires Shaped() && slot < LIMIT
      modifies this`used
      ensures Shaped()
      ensures forall i: nat :: i < slotCount ==> (i in used <==> i in old(used) && !(Address(i) == slot && Straight(i)))
    {
      hide Offset;
      forall i: nat | i < slotCount
        ensures Address(i) == slot && Straight(i) <==> base + Offset(i, slotSize) == slot
      {
      }
      if slot < base {
        return;
      }
      SlotAt(slot);
      var offset := slot - base;
      if offset % slotSize != 0 {
        return;
      }
      var index := offset / slotSize;
      if index >= slotCount {
        return;
      }
      used := used - {index};
    }

    /** An address is where slot `i` starts, as far as it is straight, exactly when its offset is `i`
        whole slots. */
    lemma SlotAt(slot: nat)
      requires Shaped() && slot >= base
      ensures forall i: nat :: i < slotCount ==>
                (base + Offset(i, slotSize) == slot <==> (slot - base) % slotSize == 0 && i == (slot - base) / slotSize)
    {
      hide Offset;
      forall i: nat | i < slotCount
        ensures base + Offset(i, slotSize) == slot <==> (slot - base) % slotSize == 0 && i == (slot - base) / slotSize
      {
        OffsetIsMultiple(i, slotSize);
        if (slot - base) % slotSize == 0 {
          DividesBack(slot - base, slotSize);
        }
      }
    }

    /** Even past the end of the address space no two slots start at one address. */
    lemma AddressesDiffer(i: nat, j: nat)
      requires Shaped() && i < slotCount && j < slotCount && i != j
      ensures Address(i) != Address(j)
    {
      hide Offset;
      OffsetsApart(i, slotCount, slotSize);
      OffsetsApart(j, slotCount, slotSize);
      if i < j {
        OffsetsApart(i, j, slotSize);
        Wraps(base + Offset(i, slotSize), base + Offset(j, slotSize));
      } else {
        OffsetsApart(j, i, slotSize);
        Wraps(base + Offset(j, slotSize), base + Offset(i, slotSize));
      }
    }

    /** Free and used slots make up the pool. */
    method FreeCount() returns (n: nat)
      requires Shaped()
      ensures n + |used| == slotCount
    {
      hide Offset;
      n := 0;
      ghost var taken: set<nat> := {};
      for i: nat := 0 to slotCount
        invariant taken == (set j | j in used && j < i) && n + |taken| == i
      {
        if i in used {
          taken := taken + {i};
        } else {
          n := n + 1;
        }
      }
      assert taken == used;
    }

    /** The addresses of the pool are those of its slots' bytes; a region that reaches the end of the
        address space, even if it goes no further, has none. */
    method Contains(address: nat) returns (inside: bool)
      requires Shaped()
      ensures inside <==> Valid() && exists i: nat :: i < slotCount && Address(i) <= address < Address(i) + slotSize
    {
      inside := address >= base && address < (base + slotSize * slotCount) % LIMIT;
      assert slotSize * slotCount == Offset(slotCount, slotSize);
      hide Offset;
      if Valid() {
        if inside {
          CoveredBy(address);
        } else {
          forall i: nat | i < slotCount
            ensures !(Address(i) <= address < Address(i) + slotSize)
          {
            InRegion(i);
          }
        }
      }
    }

    lemma CoveredBy(address: nat)
      requires Valid() && base <= address < base + Offset(slotCount, slotSize)
      ensures exists i: nat :: i < slotCount && Address(i) <= address < Address(i) + slotSize
    {
      hide Offset;
      var i := WholeSlots(address - base, slotSize);
      if i >= slotCount {
        if i > slotCount {
          OffsetsApart(slotCount, i, slotSize);
        }
        assert false;
      }
      InRegion(i);
    }
  }

  lemma WholeSlots(offset: nat, size: nat) returns (i: nat)
    requires 0 < size
    ensures Offset(i, size) <= offset < Offset(i, size) + size
  {
    i := offset / size;
    assert offset == size * i + offset % size;
    assert size * i == i * size;
  }

  lemma Wraps(a: nat, b: nat)
    requires a < b < a + LIMIT
    ensures a % LIMIT != b % LIMIT
  {
  }

  /** Giving a claimed slot back leaves the pool as it was exactly if the slot does not lie past the
      end of the address space, where no slot of a region that ends before it does; what was live
      stays apart from it. */
  method ClaimAndRelease(pool: Pool, size: nat, near: nat) returns (slot: nat, ghost index: nat)
    requires pool.Shaped()
    modifies pool`used
    ensures pool.used == old(pool.used) <==> index == pool.slotCount || pool.Straight(index)
    ensures old(pool.used) <= pool.used <= old(pool.used) + {index} && (pool.Valid() ==> pool.used == old(pool.used))
    ensures index < pool.slotCount ==> slot == pool.Address(index) && slot !in old(pool.Live())
    ensures pool.Valid() ==>
              (slot == 0 <==> size == 0 || size > pool.slotSize || forall i: nat :: i < pool.slotCount ==> i in old(pool.used))
  {
    hide Offset;
    forall i: nat | pool.Valid() && i < pool.slotCount
      ensures pool.Address(i) != 0 && pool.Straight(i)
    {
      pool.InRegion(i);
    }
    forall i: nat, j: nat | i < pool.slotCount && j < pool.slotCount && i != j
      ensures pool.Address(i) != pool.Address(j)
    {
      pool.AddressesDiffer(i, j);
    }
    slot, index := pool.Claim(size, near);
    if slot != 0 {
      pool.Release(slot);
    }
  }

  /** The end of the region is not checked, so a slot can lie at address zero; a claim of it marks
      the slot and yet reports that there was none. */
  method WrappedClaim() returns (pool: Pool, slot: nat)
    ensures fresh(pool) && pool.slotSize == 128 && pool.slotCount == 2
    ensures slot == 0 && pool.used == {1}
  {
    pool := new Pool();
    var ok := pool.Init(LIMIT - 128, 128, 2);
    assert pool.Address(0) == LIMIT - 128 && pool.Address(1) == 0;
    assert !pool.Taken(1) && Distance(pool.Address(1), 0) == 0;
    ghost var index: nat;
    ghost var was := pool.used;
    assert 1 !in was;
    slot, index := pool.Claim(128, 0);
  }

  /** Exactly when a pool as Init leaves it has a slot at address zero. */
  lemma ZeroSlotExactly(pool: Pool)
    requires pool.Shaped()
    ensures (exists i: nat :: i < pool.slotCount && pool.Address(i) == 0)
       <==> (pool.base + Offset(pool.slotCount, pool.slotSize) > LIMIT && (LIMIT - pool.base) % pool.slotSize == 0)
  {
    hide Offset;
    var gap := LIMIT - pool.base;
    if i: nat :| i < pool.slotCount && pool.Address(i) == 0 {
      OffsetsApart(i, pool.slotCount, pool.slotSize);
      OffsetIsMultiple(i, pool.slotSize);
    }
    if pool.base + Offset(pool.slotCount, pool.slotSize) > LIMIT && gap % pool.slotSize == 0 {
      DividesBack(gap, pool.slotSize);
      var i := gap / pool.slotSize;
      if i > pool.slotCount {
        OffsetsApart(pool.slotCount, i, pool.slotSize);
      }
      assert pool.Address(i) == 0;
    }
  }
}
