/** The canonical byte string of a hook's target, by which ownership is keyed: the first half of
    src/core/HKOwnership.c, with the selector matching of src/core/HKImageCatalog.c. */
module OwnershipKeys {
  import opened Options
  import opened Leb128
  import opened ChainedPointers

  const MAX_DEPTH: nat := 32
  const NULL_LENGTH: nat := 0xFFFF_FFFF_FFFF_FFFF

  /** An image selector. A set's children are pointers, and one may be missing. */
  datatype Selector = AnyLoaded | MainExecutable | ExactPath(path: Option<Bytes>) | ExactUuid(uuid: Bytes) | ExactHeader(header: nat)
                    | ExplicitSet(children: Selectors) | OtherKind(kind: nat)
  datatype Selectors = End | Child(selector: Selector, rest: Selectors) | Missing(rest: Selectors)

  /** What the types of the fields guarantee. */
  predicate Typed(s: Selector) {
    match s
    case ExactPath(path) => path.Some? ==> |path.value| < 0xFFFF_FFFF_FFFF_FFFF
    case ExactUuid(uuid) => |uuid| == 16
    case ExactHeader(header) => header < LIMIT
    case ExplicitSet(children) => TypedAll(children)
    case OtherKind(kind) => 5 < kind < BITS32
    case _ => true
  }

  predicate TypedAll(children: Selectors) {
    match children
    case End => true
    case Child(s, rest) => Typed(s) && TypedAll(rest)
    case Missing(rest) => TypedAll(rest)
  }

  // ---- byte strings in order ----

  /** memcmp over the common length, then the shorter first. */
  predicate Below(a: Bytes, b: Bytes) {
    b != [] && (a == [] || a[0] < b[0] || (a[0] == b[0] && Below(a[1..], b[1..])))
  }

  lemma {:induction false} BelowTotal(a: Bytes, b: Bytes)
    ensures Below(a, b) || a == b || Below(b, a)
    ensures !(Below(a, b) && Below(b, a)) && !Below(a, a)
  {
    if a != [] {
      if b != [] {
        BelowTotal(a[1..], b[1..]);
        assert a == [a[0]] + a[1..] && b == [b[0]] + b[1..];
      }
      BelowTotal(a[1..], a[1..]);
    }
  }

  lemma {:induction false} BelowTransitive(a: Bytes, b: Bytes, c: Bytes)
    requires Below(a, b) && Below(b, c)
    ensures Below(a, c)
  {
    if a != [] && a[0] == b[0] == c[0] {
      BelowTransitive(a[1..], b[1..], c[1..]);
    }
  }

  predicate Ascending(blobs: seq<Bytes>) {
    forall i, j :: 0 <= i < j < |blobs| ==> Below(blobs[i], blobs[j])
  }

  predicate Sorted(blobs: seq<Bytes>) {
    forall i, j :: 0 <= i < j < |blobs| ==> blobs[i] == blobs[j] || Below(blobs[i], blobs[j])
  }

  /** A set of byte strings has only one listing in ascending order. */
  lemma {:induction false} AscendingUnique(a: seq<Bytes>, b: seq<Bytes>)
    requires Ascending(a) && Ascending(b) && (forall x :: x in a <==> x in b)
    ensures a == b
  {
    assert (a != [] ==> a[0] in a) && (b != [] ==> b[0] in b);
    if a != [] && b != [] {
      assert a[0] in b && b[0] in a;
      BelowTotal(a[0], b[0]);
      assert a[0] == b[0];
      forall x
        ensures x in a[1..] <==> x in b[1..]
      {
        BelowTotal(a[0], a[0]);
        TailMembers(a, x);
        TailMembers(b, x);
      }
      AscendingUnique(a[1..], b[1..]);
      assert a == [a[0]] + a[1..] && b == [b[0]] + b[1..];
    }
  }

  lemma TailMembers(a: seq<Bytes>, x: Bytes)
    requires a != [] && Ascending(a)
    ensures x in a[1..] <==> x in a && x != a[0]
  {
    BelowTotal(a[0], a[0]);
    if x in a && x != a[0] {
      var i :| 0 <= i < |a| && a[i] == x;
      assert a[1..][i - 1] == x;
    }
    if x in a[1..] {
      var i :| 0 <= i < |a| - 1 && a[1..][i] == x;
      assert Below(a[0], a[i + 1]);
    }
  }

  // ---- a set's children: sort, then compact in place ----

  function Insert(blob: Bytes, sorted: seq<Bytes>): seq<Bytes> {
    if sorted == [] || !Below(sorted[0], blob) then [blob] + sorted else [sorted[0]] + Insert(blob, sorted[1..])
  }

  /** What qsort leaves; how it gets there does not show, as equal strings are the same. */
  function Sort(blobs: seq<Bytes>): seq<Bytes> {
    if blobs == [] then [] else Insert(blobs[0], Sort(blobs[1..]))
  }

  function Dedup(sorted: seq<Bytes>): seq<Bytes> {
    if |sorted| < 2 then sorted
    else if sorted[|sorted| - 2] == sorted[|sorted| - 1] then Dedup(sorted[..|sorted| - 1])
    else Dedup(sorted[..|sorted| - 1]) + [sorted[|sorted| - 1]]
  }

  function Canonical(blobs: seq<Bytes>): seq<Bytes> { Dedup(Sort(blobs)) }

  lemma {:induction false} InsertSorted(blob: Bytes, sorted: seq<Bytes>)
    requires Sorted(sorted)
    ensures Sorted(Insert(blob, sorted)) && forall x :: x in Insert(blob, sorted) <==> x == blob || x in sorted
  {
    if sorted == [] {
    } else if !Below(sorted[0], blob) {
      BelowTotal(sorted[0], blob);
      forall i | 0 <= i < |sorted|
        ensures sorted[i] == blob || Below(blob, sorted[i])
      {
        if i > 0 && sorted[0] != blob && sorted[i] != sorted[0] {
          BelowTransitive(blob, sorted[0], sorted[i]);
        }
      }
    } else {
      var rest := Insert(blob, sorted[1..]);
      InsertSorted(blob, sorted[1..]);
      forall i | 0 <= i < |rest|
        ensures rest[i] == sorted[0] || Below(sorted[0], rest[i])
      {
        assert rest[i] in rest;
        if rest[i] != blob {
          var j :| 0 <= j < |sorted| - 1 && sorted[1..][j] == rest[i];
          assert sorted[j + 1] == rest[i];
        }
      }
    }
  }

  lemma {:induction false} SortSorted(blobs: seq<Bytes>)
    ensures Sorted(Sort(blobs)) && forall x :: x in Sort(blobs) <==> x in blobs
  {
    if blobs != [] {
      SortSorted(blobs[1..]);
      InsertSorted(blobs[0], Sort(blobs[1..]));
    }
  }

  lemma {:induction false} DedupAscending(sorted: seq<Bytes>)
    requires Sorted(sorted)
    ensures Ascending(Dedup(sorted)) && (forall x :: x in Dedup(sorted) <==> x in sorted)
    ensures sorted != [] ==> Dedup(sorted) != [] && Dedup(sorted)[|Dedup(sorted)| - 1] == sorted[|sorted| - 1]
  {
    if |sorted| >= 2 {
      var front, last := sorted[..|sorted| - 1], sorted[|sorted| - 1];
      DedupAscending(front);
      assert sorted == front + [last];
      if front[|front| - 1] != last {
        forall x | x in Dedup(front)
          ensures Below(x, last)
        {
          var i :| 0 <= i < |front| && front[i] == x;
          if x != front[|front| - 1] {
            BelowTransitive(x, front[|front| - 1], last);
          }
        }
      }
    }
  }

  /** Ascending, with exactly the strings given: whatever order and however often they came. */
  lemma CanonicalSet(blobs: seq<Bytes>)
    ensures Ascending(Canonical(blobs)) && forall x :: x in Canonical(blobs) <==> x in blobs
  {
    SortSorted(blobs);
    DedupAscending(Sort(blobs));
  }

  lemma CanonicalExactly(a: seq<Bytes>, b: seq<Bytes>)
    ensures Canonical(a) == Canonical(b) <==> forall x :: x in a <==> x in b
  {
    CanonicalSet(a);
    CanonicalSet(b);
    if forall x :: x in a <==> x in b {
      AscendingUnique(Canonical(a), Canonical(b));
    }
  }

  /** The compaction loop: each string is dropped if it equals the last one kept. */
  method Compact(children: array<Bytes>) returns (unique: nat)
    modifies children
    ensures unique <= children.Length && children[..unique] == Dedup(old(children[..]))
  {
    unique := 0;
    ghost var was := children[..];
    for i := 0 to children.Length
      invariant unique <= i && forall k :: i <= k < children.Length ==> children[k] == was[k]
      invariant children[..unique] == Dedup(was[..i])
      invariant i > 0 ==> unique > 0 && children[unique - 1] == was[i - 1]
    {
      assert was[..i + 1][..i] == was[..i];
      if unique > 0 && children[unique - 1] == children[i] {
        continue;
      }
      children[unique] := children[i];
      unique := unique + 1;
    }
    assert was[..children.Length] == was;
  }

  method CanonicalChildren(blobs: seq<Bytes>) returns (unique: seq<Bytes>)
    ensures unique == Canonical(blobs)
  {
    var sorted := Sort(blobs);
    var children := new Bytes[|sorted|](i requires 0 <= i < |sorted| => sorted[i]);
    assert children[..] == sorted;
    var n := Compact(children);
    return children[..n];
  }

  // ---- keys of selectors ----

  function U32(v: nat): Bytes { Split(v, 4) }
  function U64(v: nat): Bytes { Split(v, 8) }

  function StringKey(value: Option<Bytes>): Bytes {
    if value.None? then U64(NULL_LENGTH) else U64(|value.value|) + value.value
  }

  function LeafKey(s: Selector): Bytes
    requires !s.ExplicitSet?
  {
    match s
    case AnyLoaded => U32(0)
    case MainExecutable => U32(1)
    case ExactPath(path) => U32(2) + StringKey(path)
    case ExactUuid(uuid) => U32(3) + uuid
    case ExactHeader(header) => U32(4) + U64(header)
    case OtherKind(kind) => U32(kind)
  }

  function Listed(blobs: seq<Bytes>): Bytes {
    if blobs == [] then [] else U64(|blobs[0]|) + blobs[0] + Listed(blobs[1..])
  }

  function SetKey(unique: seq<Bytes>): Bytes {
    U32(5) + U64(|unique|) + Listed(unique)
  }

  /** The leaves of a set, nested sets included, each with its key; none if a child is missing or
      nested too deep. */
  function Collect(s: Selector, depth: nat): Option<seq<Bytes>>
    decreases s, 0
  {
    if depth > MAX_DEPTH then None
    else if s.ExplicitSet? then CollectAll(s.children, depth + 1)
    else Some([LeafKey(s)])
  }

  function CollectAll(children: Selectors, depth: nat): Option<seq<Bytes>>
    decreases children, 1
  {
    match children
    case End => Some([])
    case Missing(_) => None
    case Child(s, rest) =>
      match Collect(s, depth)
      case None => None
      case Some(first) =>
        match CollectAll(rest, depth)
        case None => None
        case Some(others) => Some(first + others)
  }

  function SelectorKey(s: Selector): Option<Bytes> {
    if !s.ExplicitSet? then Some(LeafKey(s))
    else
      match Collect(s, 0)
      case None => None
      case Some(blobs) => Some(SetKey(Canonical(blobs)))
  }

  /** The leaves of a selector, whatever the nesting. */
  ghost function Leaves(s: Selector): iset<Selector>
    decreases s, 0
  {
    if s.ExplicitSet? then LeavesOf(s.children) else iset{s}
  }

  ghost function LeavesOf(children: Selectors): iset<Selector>
    decreases children, 1
  {
    match children
    case End => iset{}
    case Missing(rest) => LeavesOf(rest)
    case Child(s, rest) => Leaves(s) + LeavesOf(rest)
  }

  /** The same selection, written either way: the same leaf, or two sets of the same leaves in any
      order, nesting and number. */
  ghost predicate Same(a: Selector, b: Selector) {
    if a.ExplicitSet? && b.ExplicitSet? then Leaves(a) == Leaves(b) else a == b
  }

  // ---- reading keys back ----

  lemma Sizes()
    ensures Pow2(8) == 0x100 && Pow2(32) == BITS32 && Pow2(64) == LIMIT
  {
    hide Pow2;
    assert Pow2(8 * 0) == 1 by {
      ZeroPower();
    }
    EightMore(0);
    EightMore(1);
    EightMore(2);
    EightMore(3);
    EightMore(4);
    EightMore(5);
    EightMore(6);
    EightMore(7);
  }

  /** Two fixed-width fields at the front of equal strings are equal, and so is what follows. */
  lemma FieldFirst(v: nat, w: nat, n: nat, x: Bytes, y: Bytes)
    requires v < Pow2(8 * n) && w < Pow2(8 * n) && Split(v, n) + x == Split(w, n) + y
    ensures v == w && x == y
  {
    Front(Split(v, n), x, Split(w, n), y);
    SplitBack(v, n);
    SplitBack(w, n);
  }

  lemma Front(a: Bytes, x: Bytes, b: Bytes, y: Bytes)
    requires a + x == b + y && |a| == |b|
    ensures a == b && x == y
  {
    assert a == (a + x)[..|a|] && b == (b + y)[..|b|];
    assert x == (a + x)[|a|..] && y == (b + y)[|b|..];
  }

  lemma Regroup(a: Bytes, b: Bytes, c: Bytes, x: Bytes)
    ensures (a + b + c) + x == a + (b + (c + x)) && (a + b) + x == a + (b + x)
  {
  }

  lemma StringFirst(a: Option<Bytes>, b: Option<Bytes>, x: Bytes, y: Bytes)
    requires (a.Some? ==> |a.value| < NULL_LENGTH) && (b.Some? ==> |b.value| < NULL_LENGTH)
    requires StringKey(a) + x == StringKey(b) + y
    ensures a == b && x == y
  {
    hide Split;
    Sizes();
    var m, n := if a.Some? then |a.value| else NULL_LENGTH, if b.Some? then |b.value| else NULL_LENGTH;
    var v, w: Bytes := if a.Some? then a.value else [], if b.Some? then b.value else [];
    assert StringKey(a) == U64(m) + v && StringKey(b) == U64(n) + w;
    Regroup(U64(m), v, [], x);
    Regroup(U64(n), w, [], y);
    FieldFirst(m, n, 8, v + x, w + y);
    Front(v, x, w, y);
  }

  function Kind(s: Selector): nat {
    match s
    case AnyLoaded => 0
    case MainExecutable => 1
    case ExactPath(_) => 2
    case ExactUuid(_) => 3
    case ExactHeader(_) => 4
    case ExplicitSet(_) => 5
    case OtherKind(kind) => kind
  }

  function LeafRest(s: Selector): Bytes
    requires !s.ExplicitSet?
  {
    match s
    case ExactPath(path) => StringKey(path)
    case ExactUuid(uuid) => uuid
    case ExactHeader(header) => U64(header)
    case _ => []
  }

  lemma LeafSplit(s: Selector, x: Bytes)
    requires !s.ExplicitSet?
    ensures LeafKey(s) + x == U32(Kind(s)) + (LeafRest(s) + x)
  {
  }

  /** No leaf's key is another's, nor begins another's. */
  lemma LeafFirst(a: Selector, b: Selector, x: Bytes, y: Bytes)
    requires !a.ExplicitSet? && !b.ExplicitSet? && Typed(a) && Typed(b)
    requires LeafKey(a) + x == LeafKey(b) + y
    ensures a == b && x == y
  {
    hide Split, LeafKey;
    Sizes();
    LeafSplit(a, x);
    LeafSplit(b, y);
    FieldFirst(Kind(a), Kind(b), 4, LeafRest(a) + x, LeafRest(b) + y);
    assert [] + x == x && [] + y == y;
    match a
    case ExactPath(path) => StringFirst(path, b.path, x, y);
    case ExactUuid(uuid) => Front(uuid, x, b.uuid, y);
    case ExactHeader(header) => FieldFirst(header, b.header, 8, x, y);
    case _ =>
  }

  lemma LengthFirst(m: nat, n: nat, x: Bytes, y: Bytes)
    requires m < LIMIT && n < LIMIT && U64(m) + x == U64(n) + y
    ensures m == n && x == y
  {
    hide Split, Pow2;
    Sizes();
    FieldFirst(m, n, 8, x, y);
  }

  lemma {:induction false} ListedFirst(a: seq<Bytes>, b: seq<Bytes>, x: Bytes, y: Bytes)
    requires |a| == |b| && Listed(a) + x == Listed(b) + y
    requires (forall i :: 0 <= i < |a| ==> |a[i]| < LIMIT) && (forall i :: 0 <= i < |b| ==> |b[i]| < LIMIT)
    ensures a == b && x == y
  {
    hide U64;
    if a == [] {
      assert [] + x == x && [] + y == y;
    } else {
      var p, q := Listed(a[1..]), Listed(b[1..]);
      Regroup(U64(|a[0]|), a[0], p, x);
      Regroup(U64(|b[0]|), b[0], q, y);
      LengthFirst(|a[0]|, |b[0]|, a[0] + (p + x), b[0] + (q + y));
      Front(a[0], p + x, b[0], q + y);
      ListedFirst(a[1..], b[1..], x, y);
      assert a == [a[0]] + a[1..] && b == [b[0]] + b[1..];
    }
  }

  lemma {:induction false} ListedSizes(a: seq<Bytes>)
    ensures forall i :: 0 <= i < |a| ==> |a[i]| < |Listed(a)|
    ensures |a| <= |Listed(a)|
  {
    if a != [] {
      ListedSizes(a[1..]);
    }
  }

  // ---- keys are canonical ----

  ghost predicate HasKey(leaves: iset<Selector>, key: Bytes) {
    exists leaf :: leaf in leaves && !leaf.ExplicitSet? && LeafKey(leaf) == key
  }

  lemma {:induction false} LeavesAreLeaves(s: Selector, leaf: Selector)
    requires Typed(s) && leaf in Leaves(s)
    ensures !leaf.ExplicitSet? && Typed(leaf)
    decreases s, 0
  {
    if s.ExplicitSet? {
      LeavesOfAreLeaves(s.children, leaf);
    }
  }

  lemma {:induction false} LeavesOfAreLeaves(children: Selectors, leaf: Selector)
    requires TypedAll(children) && leaf in LeavesOf(children)
    ensures !leaf.ExplicitSet? && Typed(leaf)
    decreases children, 1
  {
    match children
    case End =>
    case Missing(rest) => LeavesOfAreLeaves(rest, leaf);
    case Child(s, rest) =>
      if leaf in Leaves(s) {
        LeavesAreLeaves(s, leaf);
      } else {
        LeavesOfAreLeaves(rest, leaf);
      }
  }

  lemma {:induction false} Collected(s: Selector, depth: nat, key: Bytes)
    requires Collect(s, depth).Some?
    ensures key in Collect(s, depth).value <==> HasKey(Leaves(s), key)
    decreases s, 0
  {
    if s.ExplicitSet? {
      CollectedAll(s.children, depth + 1, key);
    } else if key == LeafKey(s) {
      assert s in Leaves(s);
    }
  }

  lemma {:induction false} CollectedAll(children: Selectors, depth: nat, key: Bytes)
    requires CollectAll(children, depth).Some?
    ensures key in CollectAll(children, depth).value <==> HasKey(LeavesOf(children), key)
    decreases children, 1
  {
    if children.Child? {
      Collected(children.selector, depth, key);
      CollectedAll(children.rest, depth, key);
      EitherHas(Leaves(children.selector), LeavesOf(children.rest), key);
    }
  }

  lemma EitherHas(a: iset<Selector>, b: iset<Selector>, key: Bytes)
    ensures HasKey(a + b, key) <==> HasKey(a, key) || HasKey(b, key)
  {
    if HasKey(a, key) {
      var leaf :| leaf in a && !leaf.ExplicitSet? && LeafKey(leaf) == key;
      assert leaf in a + b;
    }
    if HasKey(b, key) {
      var leaf :| leaf in b && !leaf.ExplicitSet? && LeafKey(leaf) == key;
      assert leaf in a + b;
    }
  }

  /** Two sets' children come to the same keys exactly if they have the same leaves. */
  lemma SameLeaves(a: Selector, b: Selector)
    requires Typed(a) && Typed(b) && Collect(a, 0).Some? && Collect(b, 0).Some?
    ensures (forall k :: k in Collect(a, 0).value <==> k in Collect(b, 0).value) <==> Leaves(a) == Leaves(b)
  {
    hide LeafKey, Leaves, Collect;
    forall k
      ensures k in Collect(a, 0).value <==> HasKey(Leaves(a), k)
      ensures k in Collect(b, 0).value <==> HasKey(Leaves(b), k)
    {
      Collected(a, 0, k);
      Collected(b, 0, k);
    }
    if forall k :: k in Collect(a, 0).value <==> k in Collect(b, 0).value {
      forall leaf
        ensures leaf in Leaves(a) <==> leaf in Leaves(b)
      {
        if leaf in Leaves(a) {
          AlsoLeaf(a, b, leaf);
        }
        if leaf in Leaves(b) {
          AlsoLeaf(b, a, leaf);
        }
      }
    }
  }

  lemma AlsoLeaf(a: Selector, b: Selector, leaf: Selector)
    requires Typed(a) && Typed(b) && leaf in Leaves(a)
    requires forall k :: HasKey(Leaves(a), k) ==> HasKey(Leaves(b), k)
    ensures leaf in Leaves(b)
  {
    hide LeafKey, Leaves;
    LeavesAreLeaves(a, leaf);
    var k := LeafKey(leaf);
    assert HasKey(Leaves(a), k);
    var other :| other in Leaves(b) && !other.ExplicitSet? && LeafKey(other) == k;
    LeavesAreLeaves(b, other);
    LeafFirst(leaf, other, [], []);
  }

  lemma KindFirst(a: Selector, b: Selector, x: Bytes, y: Bytes)
    requires Typed(a) && Typed(b) && SelectorKey(a).Some? && SelectorKey(b).Some?
    requires SelectorKey(a).value + x == SelectorKey(b).value + y
    ensures Kind(a) == Kind(b)
  {
    hide Split, LeafKey, Collect;
    Sizes();
    var p := Tail(a, x);
    var q := Tail(b, y);
    FieldFirst(Kind(a), Kind(b), 4, p, q);
  }

  lemma Tail(s: Selector, x: Bytes) returns (rest: Bytes)
    requires Typed(s) && SelectorKey(s).Some?
    ensures SelectorKey(s).value + x == U32(Kind(s)) + rest
  {
    hide Split, LeafKey, Collect;
    if s.ExplicitSet? {
      var unique := Canonical(Collect(s, 0).value);
      rest := U64(|unique|) + Listed(unique) + x;
      assert SetKey(unique) + x == U32(5) + rest;
    } else {
      LeafSplit(s, x);
      rest := LeafRest(s) + x;
    }
  }

  /** A selector's key is the same exactly for the same selection, and never begins another's. */
  lemma SelectorFirst(a: Selector, b: Selector, x: Bytes, y: Bytes)
    requires Typed(a) && Typed(b) && SelectorKey(a).Some? && SelectorKey(b).Some?
    requires |SelectorKey(a).value| < LIMIT && |SelectorKey(b).value| < LIMIT
    requires SelectorKey(a).value + x == SelectorKey(b).value + y
    ensures Same(a, b) && x == y
  {
    hide Split, LeafKey, Collect, Canonical;
    KindFirst(a, b, x, y);
    if a.ExplicitSet? {
      var blobs, others := Collect(a, 0).value, Collect(b, 0).value;
      SetFirst(Canonical(blobs), Canonical(others), x, y);
      CanonicalExactly(blobs, others);
      SameLeaves(a, b);
    } else {
      LeafFirst(a, b, x, y);
    }
  }

  lemma SetFirst(a: seq<Bytes>, b: seq<Bytes>, x: Bytes, y: Bytes)
    requires SetKey(a) + x == SetKey(b) + y && |SetKey(a)| < LIMIT && |SetKey(b)| < LIMIT
    ensures a == b && x == y
  {
    hide U32, U64, Listed;
    ListedSizes(a);
    ListedSizes(b);
    Regroup(U32(5), U64(|a|), Listed(a), x);
    Regroup(U32(5), U64(|b|), Listed(b), y);
    Front(U32(5), U64(|a|) + (Listed(a) + x), U32(5), U64(|b|) + (Listed(b) + y));
    LengthFirst(|a|, |b|, Listed(a) + x, Listed(b) + y);
    ListedFirst(a, b, x, y);
  }

  /** Keys are equal exactly for the same selection. */
  lemma SelectorKeyExactly(a: Selector, b: Selector)
    requires Typed(a) && Typed(b) && SelectorKey(a).Some? && SelectorKey(b).Some?
    requires |SelectorKey(a).value| < LIMIT && |SelectorKey(b).value| < LIMIT
    ensures SelectorKey(a) == SelectorKey(b) <==> Same(a, b)
  {
    hide Split, LeafKey, Collect, Canonical, Leaves;
    if SelectorKey(a) == SelectorKey(b) {
      SelectorFirst(a, b, [], []);
    }
    if Same(a, b) && a.ExplicitSet? {
      SameLeaves(a, b);
      CanonicalExactly(Collect(a, 0).value, Collect(b, 0).value);
    }
  }

  // ---- what selectors match ----

  datatype Image = Image(main: bool, path: Option<Bytes>, uuid: Option<Bytes>, header: nat)

  predicate Matches(e: Image, s: Selector)
    decreases s, 0
  {
    match s
    case AnyLoaded => true
    case MainExecutable => e.main
    case ExactPath(path) => e.path.Some? && e.path == path
    case ExactUuid(uuid) => e.uuid == Some(uuid)
    case ExactHeader(header) => e.header != 0 && e.header == header
    case ExplicitSet(children) => MatchesAny(e, children)
    case OtherKind(_) => false
  }

  predicate MatchesAny(e: Image, children: Selectors)
    decreases children, 1
  {
    match children
    case End => false
    case Missing(rest) => MatchesAny(e, rest)
    case Child(s, rest) => Matches(e, s) || MatchesAny(e, rest)
  }

  ghost predicate MatchedBy(e: Image, leaves: iset<Selector>) {
    exists leaf :: leaf in leaves && Matches(e, leaf)
  }

  lemma {:induction false} MatchesItsLeaves(e: Image, s: Selector)
    ensures Matches(e, s) <==> MatchedBy(e, Leaves(s))
    decreases s, 0
  {
    if s.ExplicitSet? {
      MatchesTheirLeaves(e, s.children);
    } else {
      assert s in Leaves(s);
    }
  }

  lemma {:induction false} MatchesTheirLeaves(e: Image, children: Selectors)
    ensures MatchesAny(e, children) <==> MatchedBy(e, LeavesOf(children))
    decreases children, 1
  {
    match children
    case End =>
    case Missing(rest) => MatchesTheirLeaves(e, rest);
    case Child(s, rest) =>
      MatchesItsLeaves(e, s);
      MatchesTheirLeaves(e, rest);
      if MatchedBy(e, Leaves(s)) {
        var leaf :| leaf in Leaves(s) && Matches(e, leaf);
        assert leaf in LeavesOf(children);
      }
      if MatchedBy(e, LeavesOf(rest)) {
        var leaf :| leaf in LeavesOf(rest) && Matches(e, leaf);
        assert leaf in LeavesOf(children);
      }
  }

  /** Selectors with equal keys match the same images, whatever is loaded. */
  lemma EqualKeysMatchAlike(a: Selector, b: Selector, e: Image)
    requires Typed(a) && Typed(b) && SelectorKey(a).Some? && SelectorKey(a) == SelectorKey(b) && |SelectorKey(a).value| < LIMIT
    ensures Matches(e, a) <==> Matches(e, b)
  {
    hide LeafKey, Collect, Leaves, Matches;
    SelectorKeyExactly(a, b);
    MatchesItsLeaves(e, a);
    MatchesItsLeaves(e, b);
  }

  /** The converse fails: a set of one leaf selects what the leaf selects under another key, so
      the ledger takes them for different targets. */
  lemma SingletonSetDiffers(leaf: Selector, e: Image)
    requires !leaf.ExplicitSet? && Typed(leaf)
    ensures var s := ExplicitSet(Child(leaf, End));
            SelectorKey(s).Some? && SelectorKey(s) != SelectorKey(leaf) && (Matches(e, s) <==> Matches(e, leaf))
  {
    hide LeafKey, Canonical;
    var s := ExplicitSet(Child(leaf, End));
    assert CollectAll(End, 1).Some? && CollectAll(s.children, 1).Some?;
    assert TypedAll(End) && TypedAll(s.children) && Typed(s) && !MatchesAny(e, End);
    if SelectorKey(s) == SelectorKey(leaf) {
      KindFirst(s, leaf, [], []);
    }
  }

  // ---- keys of targets ----

  /** A pointer that is not NULL identifies by itself; otherwise a name does. */
  datatype Named = ByPointer(pointer: nat) | ByName(name: Option<Bytes>)

  datatype Target =
    | Symbol(name: Option<Bytes>, convention: nat, alias: nat, interior: bool, defining: Selector, caller: Selector)
    | Address(address: nat)      // stripped of authentication where the request permits that
    | Method(cls: Named, selector: Named, kind: nat)
    | Patch(at: nat, relative: bool, size: nat, base: Selector)

  predicate TypedName(n: Named) {
    match n
    case ByPointer(p) => 0 < p < LIMIT
    case ByName(name) => name.Some? ==> |name.value| < 0xFFFF_FFFF_FFFF_FFFF
  }

  predicate TypedTarget(t: Target) {
    match t
    case Symbol(name, convention, alias, _, defining, caller) =>
      (name.Some? ==> |name.value| < 0xFFFF_FFFF_FFFF_FFFF) && convention < BITS32 && alias < BITS32 && Typed(defining) && Typed(caller)
    case Address(address) => address < LIMIT
    case Method(cls, selector, kind) => TypedName(cls) && TypedName(selector) && kind < BITS32
    case Patch(at, _, size, base) => at < LIMIT && size < LIMIT && Typed(base)
  }

  function U8(b: bool): Bytes { [Bit(b)] }

  function NamedKey(n: Named): Bytes {
    match n
    case ByPointer(p) => U8(true) + U64(p)
    case ByName(name) => U8(false) + StringKey(name)
  }

  function KindOf(t: Target): nat {
    match t
    case Symbol(_, _, _, _, _, _) => 0
    case Address(_) => 1
    case Method(_, _, _) => 2
    case Patch(_, _, _, _) => 3
  }

  function Fields(t: Target): Option<Bytes> {
    match t
    case Symbol(name, convention, alias, interior, defining, caller) =>
      if SelectorKey(defining).None? || SelectorKey(caller).None? then None
      else Some(StringKey(name) + (U32(convention) + (U32(alias) + (U8(interior) +
                (SelectorKey(defining).value + SelectorKey(caller).value)))))
    case Address(address) => Some(U64(address))
    case Method(cls, selector, kind) => Some(NamedKey(cls) + (NamedKey(selector) + U32(kind)))
    case Patch(at, relative, size, base) =>
      if !relative then Some(U64(at) + (U8(false) + U64(size)))
      else if SelectorKey(base).None? then None
      else Some(U64(at) + (U8(true) + (U64(size) + SelectorKey(base).value)))
  }

  function TargetKey(t: Target): Option<Bytes> {
    match Fields(t)
    case None => None
    case Some(fields) => Some(U32(KindOf(t)) + fields)
  }

  /** The same target: equal identity fields, selectors up to what they select. */
  ghost predicate SameTarget(a: Target, b: Target) {
    match a
    case Symbol(name, convention, alias, interior, defining, caller) =>
      && b.Symbol? && name == b.name && convention == b.convention && alias == b.alias && interior == b.interior
      && Same(defining, b.defining) && Same(caller, b.caller)
    case Patch(at, relative, size, base) =>
      b.Patch? && at == b.at && relative == b.relative && size == b.size && (relative ==> Same(base, b.base))
    case _ => a == b
  }

  lemma FlagFirst(p: bool, q: bool, x: Bytes, y: Bytes)
    requires U8(p) + x == U8(q) + y
    ensures p == q && x == y
  {
    Front(U8(p), x, U8(q), y);
    assert U8(p)[0] == U8(q)[0];
  }

  function NamedRest(n: Named): Bytes {
    match n
    case ByPointer(p) => U64(p)
    case ByName(name) => StringKey(name)
  }

  lemma NamedSplit(n: Named, x: Bytes)
    ensures NamedKey(n) + x == U8(n.ByPointer?) + (NamedRest(n) + x)
  {
    hide U64, U8, StringKey;
  }

  lemma NamedFirst(a: Named, b: Named, x: Bytes, y: Bytes)
    requires TypedName(a) && TypedName(b) && NamedKey(a) + x == NamedKey(b) + y
    ensures a == b && x == y
  {
    hide Split, StringKey, NamedKey, U8;
    Sizes();
    NamedSplit(a, x);
    NamedSplit(b, y);
    FlagFirst(a.ByPointer?, b.ByPointer?, NamedRest(a) + x, NamedRest(b) + y);
    match a
    case ByPointer(p) => FieldFirst(p, b.pointer, 8, x, y);
    case ByName(name) => StringFirst(name, b.name, x, y);
  }

  lemma SymbolFields(a: Target, b: Target)
    requires a.Symbol? && b.Symbol? && TypedTarget(a) && TypedTarget(b) && Fields(a).Some? && Fields(a) == Fields(b)
    requires |Fields(a).value| < LIMIT
    ensures SameTarget(a, b)
  {
    hide Split, StringKey, SelectorKey, Same;
    Sizes();
    var d, e := SelectorKey(a.defining).value + SelectorKey(a.caller).value, SelectorKey(b.defining).value + SelectorKey(b.caller).value;
    StringFirst(a.name, b.name, U32(a.convention) + (U32(a.alias) + (U8(a.interior) + d)),
                U32(b.convention) + (U32(b.alias) + (U8(b.interior) + e)));
    FieldFirst(a.convention, b.convention, 4, U32(a.alias) + (U8(a.interior) + d), U32(b.alias) + (U8(b.interior) + e));
    FieldFirst(a.alias, b.alias, 4, U8(a.interior) + d, U8(b.interior) + e);
    Front(U8(a.interior), d, U8(b.interior), e);
    SelectorFirst(a.defining, b.defining, SelectorKey(a.caller).value, SelectorKey(b.caller).value);
    assert SelectorKey(a.caller).value + [] == SelectorKey(b.caller).value + [];
    SelectorFirst(a.caller, b.caller, [], []);
  }

  lemma PatchFields(a: Target, b: Target)
    requires a.Patch? && b.Patch? && TypedTarget(a) && TypedTarget(b) && Fields(a).Some? && Fields(a) == Fields(b)
    requires |Fields(a).value| < LIMIT
    ensures SameTarget(a, b)
  {
    hide Split, SelectorKey, Same;
    Sizes();
    var p := if a.relative then U64(a.size) + SelectorKey(a.base).value else U64(a.size);
    var q := if b.relative then U64(b.size) + SelectorKey(b.base).value else U64(b.size);
    FieldFirst(a.at, b.at, 8, U8(a.relative) + p, U8(b.relative) + q);
    Front(U8(a.relative), p, U8(b.relative), q);
    var k, l: Bytes := if a.relative then SelectorKey(a.base).value else [], if b.relative then SelectorKey(b.base).value else [];
    assert p == U64(a.size) + k && q == U64(b.size) + l;
    FieldFirst(a.size, b.size, 8, k, l);
    if a.relative {
      assert k + [] == l + [];
      SelectorFirst(a.base, b.base, [], []);
    }
  }

  /** Two hooks have the same key exactly if they have the same target. */
  lemma TargetKeyExactly(a: Target, b: Target)
    requires TypedTarget(a) && TypedTarget(b) && TargetKey(a).Some? && TargetKey(b).Some?
    requires |TargetKey(a).value| < LIMIT && |TargetKey(b).value| < LIMIT
    ensures TargetKey(a) == TargetKey(b) <==> SameTarget(a, b)
  {
    if TargetKey(a) == TargetKey(b) {
      SameKeySameTarget(a, b);
    }
    if SameTarget(a, b) {
      SameTargetSameKey(a, b);
    }
  }

  lemma SameKeySameTarget(a: Target, b: Target)
    requires TypedTarget(a) && TypedTarget(b) && TargetKey(a).Some? && TargetKey(a) == TargetKey(b)
    requires |TargetKey(a).value| < LIMIT
    ensures SameTarget(a, b)
  {
    hide Split, StringKey, SelectorKey, Same, NamedKey;
    Sizes();
    FieldFirst(KindOf(a), KindOf(b), 4, Fields(a).value, Fields(b).value);
    match a
    case Symbol(_, _, _, _, _, _) => SymbolFields(a, b);
    case Address(address) => SplitBack(address, 8); SplitBack(b.address, 8);
    case Method(cls, selector, kind) =>
      NamedFirst(cls, b.cls, NamedKey(selector) + U32(kind), NamedKey(b.selector) + U32(b.kind));
      NamedFirst(selector, b.selector, U32(kind), U32(b.kind));
      SplitBack(kind, 4);
      SplitBack(b.kind, 4);
    case Patch(_, _, _, _) => PatchFields(a, b);
  }

  lemma SameTargetSameKey(a: Target, b: Target)
    requires TypedTarget(a) && TypedTarget(b) && TargetKey(a).Some? && TargetKey(b).Some? && SameTarget(a, b)
    requires |TargetKey(a).value| < LIMIT && |TargetKey(b).value| < LIMIT
    ensures TargetKey(a) == TargetKey(b)
  {
    hide Split, StringKey, SelectorKey, Same, NamedKey;
    if a.Symbol? {
      SelectorKeyExactly(a.defining, b.defining);
      SelectorKeyExactly(a.caller, b.caller);
    } else if a.Patch? && a.relative {
      SelectorKeyExactly(a.base, b.base);
    }
  }

  // ---- when there is a key ----

  /** No child is missing, and nothing is nested more than thirty-two sets deep. */
  predicate Complete(s: Selector, depth: nat)
    decreases s, 0
  {
    depth <= 32 && (s.ExplicitSet? ==> CompleteAll(s.children, depth + 1))
  }

  predicate CompleteAll(children: Selectors, depth: nat)
    decreases children, 1
  {
    match children
    case End => true
    case Missing(_) => false
    case Child(s, rest) => Complete(s, depth) && CompleteAll(rest, depth)
  }

  lemma {:induction false} KeyedExactly(s: Selector, depth: nat)
    ensures Collect(s, depth).Some? <==> Complete(s, depth)
    decreases s, 0
  {
    if s.ExplicitSet? {
      KeyedAllExactly(s.children, depth + 1);
    }
  }

  lemma {:induction false} KeyedAllExactly(children: Selectors, depth: nat)
    ensures CollectAll(children, depth).Some? <==> CompleteAll(children, depth)
    decreases children, 1
  {
    if children.Child? {
      KeyedExactly(children.selector, depth);
      KeyedAllExactly(children.rest, depth);
    }
  }
}
