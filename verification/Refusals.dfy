/** What the relocating and the terminal engine refuse, told from what the displaced instructions
    do: src/native/hk_arm64.c, src/engines/HKRelocInlineEngine.c, src/engines/HKInlineEngine.c. */
module Refusals {
  import opened A64
  import opened Options
  import opened Relocator
  import opened Relocation
  import opened Simulation
  import opened CodeWriting
  import opened RelocEngine
  import opened Endings
  import opened AddressOrder
  import TerminalEngine

  // ---- single instructions ----

  /** A relative branch from `pc` into [lo, hi). BC.cond is not among those that are looked at. */
  predicate LeadsInto(w: Word, pc: Addr, lo: Addr, hi: Addr) {
    match Decode(w)
    case Branch(_, offset) => Within(Plus(pc, offset), lo, hi)
    case BranchCond(_, offset) => Within(Plus(pc, offset), lo, hi)
    case CompareBranch(_, _, _, offset) => Within(Plus(pc, offset), lo, hi)
    case TestBranch(_, _, _, offset) => Within(Plus(pc, offset), lo, hi)
    case _ => false
  }

  /** The one encoding of the literal loads that is not an instruction. */
  predicate UnallocatedLiteral(w: Word) {
    w & 0x3B000000 == 0x18000000 && w >> 30 == 3 && (w >> 26) & 1 == 1
  }

  /** An instruction is refused exactly if it branches into the bytes about to be overwritten or
      is no instruction. */
  lemma RefusedExactly(w: Word, pc: Addr, lo: Addr, hi: Addr)
    ensures RelocateOne(w, pc, lo, hi).None? <==> LeadsInto(w, pc, lo, hi) || UnallocatedLiteral(w)
  {
    hide Decode, RelocateOne, UnallocatedLiteral, RetargetBranch, Plus, Imm26, Imm21, Imm19, Imm14, BitNumber, PcRelative,
      LoadConst, AbsJump, CallVia, SetImm19, SetImm14, EncodeB, PcRelativeForm, LiteralKind, LoadFromBase, Within;
    LiteralBits(w);
    if w & 0x1F000000 == 0x10000000 {
      AddressShape(w, pc, lo, hi);
    } else if w & 0x7C000000 == 0x14000000 {
      BranchShape(w, pc, lo, hi);
      BranchTo(w & 0x80000000 != 0, Plus(pc, Imm26(w)), lo, hi);
      DecodedBranch(w);
    } else if w & 0xFF000010 == 0x54000000 {
      CondShape(w, pc, lo, hi);
      DecodedCond(w);
    } else if w & 0x7E000000 == 0x34000000 {
      CompareShape(w, pc, lo, hi);
      DecodedCompare(w);
    } else if w & 0x7E000000 == 0x36000000 {
      TestShape(w, pc, lo, hi);
      DecodedTest(w);
    } else if w & 0x3B000000 == 0x18000000 {
      LiteralRefused(w, pc, lo, hi);
    } else {
      NotRelative(w);
      VerbatimShape(w, pc, lo, hi);
    }
  }

  lemma LiteralBits(w: Word)
    ensures UnallocatedLiteral(w) ==> w & 0x3B000000 == 0x18000000
    ensures UnallocatedLiteral(w) ==> w & 0x1F000000 != 0x10000000 && w & 0x7C000000 != 0x14000000
    ensures UnallocatedLiteral(w) ==> w & 0xFF000010 != 0x54000000 && w & 0x7E000000 != 0x34000000 && w & 0x7E000000 != 0x36000000
  {
  }

  lemma NotRelative(w: Word)
    requires w & 0x1F000000 != 0x10000000 && w & 0x7C000000 != 0x14000000 && w & 0xFF000010 != 0x54000000
    requires w & 0x7E000000 != 0x34000000 && w & 0x7E000000 != 0x36000000 && w & 0x3B000000 != 0x18000000
    ensures !PcRelativeForm(w)
  {
  }

  lemma LiteralRefused(w: Word, pc: Addr, lo: Addr, hi: Addr)
    requires w & 0x3B000000 == 0x18000000
    ensures RelocateOne(w, pc, lo, hi).None? <==> UnallocatedLiteral(w)
    ensures !LeadsInto(w, pc, lo, hi)
  {
    hide Decode, RelocateOne, Plus, LoadConst, LiteralKind, LoadFromBase, Imm19;
    DecodedLiteral(w);
    TopBits(w);
    OneBit(w);
    if w >> 30 < 3 {
      LiteralShape(w, pc, lo, hi);
    } else if (w >> 26) & 1 == 0 {
      PrefetchShape(w, pc, lo, hi);
    } else {
      UnallocatedShape(w, pc, lo, hi);
    }
  }

  lemma OneBit(w: Word)
    ensures (w >> 26) & 1 == 0 || (w >> 26) & 1 == 1
  {
  }

  // ---- windows ----

  predicate Kept(w: Word, pc: Addr, lo: Addr, hi: Addr) {
    !LeadsInto(w, pc, lo, hi) && !UnallocatedLiteral(w)
  }

  /** A run can be moved exactly if none of its instructions, each at its own address, branches
      into [lo, hi) or is no instruction. */
  lemma {:induction false} MovableExactly(src: seq<Word>, pc: Addr, lo: Addr, hi: Addr)
    ensures AllMovable(src, pc, lo, hi) <==> forall i :: 0 <= i < |src| ==> Kept(src[i], After(pc, src[..i]), lo, hi)
    decreases |src|
  {
    hide RelocateOne, LeadsInto, UnallocatedLiteral, Plus, After;
    if src != [] {
      RefusedExactly(src[0], pc, lo, hi);
      MovableExactly(src[1..], Plus(pc, 4), lo, hi);
      AfterNone(pc);
      assert src[..0] == [];
      forall i | 0 <= i < |src| - 1
        ensures After(pc, src[..i + 1]) == After(Plus(pc, 4), src[1..][..i])
      {
        assert src[..i + 1][1..] == src[1..][..i];
        AfterFirst(pc, src[..i + 1]);
      }
      if forall i :: 0 <= i < |src| ==> Kept(src[i], After(pc, src[..i]), lo, hi) {
        forall i | 0 <= i < |src[1..]|
          ensures Kept(src[1..][i], After(Plus(pc, 4), src[1..][..i]), lo, hi)
        {
          assert Kept(src[i + 1], After(pc, src[..i + 1]), lo, hi);
        }
      }
      if AllMovable(src, pc, lo, hi) {
        forall i | 0 <= i < |src|
          ensures Kept(src[i], After(pc, src[..i]), lo, hi)
        {
          if i > 0 {
            assert Kept(src[1..][i - 1], After(Plus(pc, 4), src[1..][..i - 1]), lo, hi);
          }
        }
      }
    }
  }

  lemma AfterNone(pc: Addr)
    ensures After(pc, []) == pc
  {
  }

  // ---- the bytes of a window ----

  lemma WordSpan(a: Addr, b: Addr)
    requires Below(a, Plus(a, 4)) && InWord(a, b)
    ensures Span(a, b, Plus(a, 4))
  {
    Rising1(a);
    Rising2(a);
    Rising3(a);
    hide Below, Plus, Span;
    SpanSplit(a, Plus(a, 1), Plus(a, 4), b);
    SpanSplit(Plus(a, 1), Plus(a, 2), Plus(a, 4), b);
    SpanSplit(Plus(a, 2), Plus(a, 3), Plus(a, 4), b);
    SpanStart(a, Plus(a, 1));
    SpanStart(Plus(a, 1), Plus(a, 2));
    SpanStart(Plus(a, 2), Plus(a, 3));
    SpanStart(Plus(a, 3), Plus(a, 4));
  }

  // A window that does not wrap is left word by word.
  lemma FirstWordEnds(target: Addr, window: seq<Word>)
    requires 0 < |window| <= 4 && Below(target, After(target, window))
    ensures Below(target, Plus(target, 4))
    ensures |window| == 1 ==> After(target, window) == Plus(target, 4)
    ensures |window| > 1 ==>
              && After(Plus(target, 4), window[1..]) == After(target, window)
              && Below(Plus(target, 4), After(target, window))
  {
    hide Plus, Below;
    PlusPlus(target, 4, 4);
    PlusPlus(target, 8, 4);
    PlusPlus(target, 12, 4);
    NoWrap8(target);
    NoWrap12(target);
    NoWrap16(target);
    hide After;
    AfterFirst(target, window);
    AfterEnd(Plus(target, 4), window[1..]);
  }

  lemma AfterEnd(a: Addr, code: seq<Word>)
    requires |code| <= 3
    ensures After(a, code) ==
            if |code| == 0 then a else if |code| == 1 then Plus(a, 4) else if |code| == 2 then Plus(Plus(a, 4), 4)
            else Plus(Plus(Plus(a, 4), 4), 4)
  {
    hide Plus;
    AfterNone(a);
    if |code| > 0 {
      AfterFirst(a, code);
    }
    if |code| > 1 {
      AfterFirst(Plus(a, 4), code[1..]);
    }
    if |code| > 2 {
      AfterFirst(Plus(Plus(a, 4), 4), code[1..][1..]);
    }
  }

  lemma {:induction false} WindowSpan(target: Addr, window: seq<Word>, b: Addr)
    requires 0 < |window| <= 4 && Below(target, After(target, window)) && InCode(target, window, b)
    ensures Span(target, b, After(target, window))
    decreases |window|
  {
    hide Plus, InWord, Below, Span, After;
    FirstWordEnds(target, window);
    if |window| > 1 {
      SpanSplit(target, Plus(target, 4), After(target, window), b);
    }
    if InWord(target, b) {
      WordSpan(target, b);
    } else {
      WindowSpan(Plus(target, 4), window[1..], b);
    }
  }

  /** The two addresses the relocator is given enclose the displaced bytes exactly if the window
      does not reach the end of the address space. */
  lemma WindowBytes(target: Addr, window: seq<Word>)
    requires 0 < |window| <= 4
    ensures Encloses(target, window, After(target, window)) <==> target < After(target, window)
  {
    hide *;
    var end := After(target, window);
    BelowIs(target, end);
    if Below(target, end) {
      WindowEnclosed(target, window, end);
    } else {
      WindowEscapes(target, window, end);
    }
  }

  predicate Enclosed(target: Addr, window: seq<Word>, end: Addr, b: Addr) {
    InCode(target, window, b) ==> Within(b, target, end)
  }

  ghost predicate Encloses(target: Addr, window: seq<Word>, end: Addr) {
    forall b :: Enclosed(target, window, end, b)
  }

  lemma WindowEnclosed(target: Addr, window: seq<Word>, end: Addr)
    requires 0 < |window| <= 4 && end == After(target, window) && Below(target, end)
    ensures Encloses(target, window, end)
  {
    hide Below, After, InCode, Within, Span;
    forall b: Addr
      ensures Enclosed(target, window, end, b)
    {
      if InCode(target, window, b) {
        WindowSpan(target, window, b);
        SpanIs(target, b, end);
      }
    }
  }

  lemma WindowEscapes(target: Addr, window: seq<Word>, end: Addr)
    requires window != [] && !Below(target, end)
    ensures !Encloses(target, window, end)
  {
    hide InCode;
    FirstByte(target, window);
    NotInside(target, end);
    hide Below, Within;
    assert !Enclosed(target, window, end, target);
  }

  lemma NotInside(target: Addr, end: Addr)
    ensures !Below(target, end) ==> !Within(target, target, end)
  {
  }

  lemma SpanIs(a: Addr, b: Addr, c: Addr)
    ensures Span(a, b, c) <==> Within(b, a, c)
  {
    NotBelow(a, b);
    BelowIs(b, c);
    hide Below;
  }

  lemma FirstByte(target: Addr, window: seq<Word>)
    requires window != []
    ensures InCode(target, window, target)
  {
  }

  // ---- what is accepted ----

  /** The bytes of memory from `a` on. */
  function BytesAt(m: Memory, a: Addr, words: nat): (bytes: seq<bv8>)
    ensures |bytes| == 4 * words
    decreases words
  {
    if words == 0 then [] else [m(a), m(Plus(a, 1)), m(Plus(a, 2)), m(Plus(a, 3))] + BytesAt(m, Plus(a, 4), words - 1)
  }

  /** What is compared with the bytes a request pinned is what memory holds. */
  lemma {:induction false} PinnedBytes(m: Memory, a: Addr, n: nat)
    ensures BytesOf(ReadCode(m, a, n)) == BytesAt(m, a, n)
    decreases n
  {
    hide Read32, Plus, Byte0, Byte1, Byte2, Byte3;
    if n > 0 {
      PinnedBytes(m, Plus(a, 4), n - 1);
      WordBytes(m, a);
      var code := ReadCode(m, a, n);
      assert code[1..] == ReadCode(m, Plus(a, 4), n - 1);
    }
  }

  lemma WordBytes(m: Memory, a: Addr)
    ensures var w := Read32(m, a);
            Byte0(w) == m(a) && Byte1(w) == m(Plus(a, 1)) && Byte2(w) == m(Plus(a, 2)) && Byte3(w) == m(Plus(a, 3))
  {
    hide Plus;
    Parted(m(a), m(Plus(a, 1)), m(Plus(a, 2)), m(Plus(a, 3)));
  }

  lemma Parted(x0: bv8, x1: bv8, x2: bv8, x3: bv8)
    ensures var w := (x0 as bv32) | ((x1 as bv32) << 8) | ((x2 as bv32) << 16) | ((x3 as bv32) << 24);
            Byte0(w) == x0 && Byte1(w) == x1 && Byte2(w) == x2 && Byte3(w) == x3
  {
  }

  /** Where the window in memory and the pinned bytes have a byte in common, they agree. */
  ghost predicate PinHolds(m: Memory, target: Addr, n: nat, expected: Option<seq<bv8>>) {
    expected.Some? ==>
      forall k :: 0 <= k < |expected.value| && k < 4 * n ==> BytesAt(m, target, n)[k] == expected.value[k]
  }

  lemma ExpectsExactly(m: Memory, target: Addr, n: nat, expected: Option<seq<bv8>>)
    ensures Expects(ReadCode(m, target, n), expected) <==> PinHolds(m, target, n, expected)
  {
    hide BytesOf, BytesAt, ReadCode;
    PinnedBytes(m, target, n);
    if expected.Some? {
      var bytes, e := BytesAt(m, target, n), expected.value;
      var k := if |e| < 4 * n then |e| else 4 * n;
      if bytes[..k] == e[..k] {
        forall i | 0 <= i < k
          ensures bytes[i] == e[i]
        {
          assert bytes[..k][i] == e[..k][i];
        }
      }
    }
  }

  ghost predicate NeverBack(w: Word) { AlwaysJumps(w) && !AlwaysTaken(w) }

  /** Why a window is refused, in the order in which the engine looks: a byte differs from what was
      pinned, its first instruction faults from every state, control never comes back from one of
      them, or one of them branches into the bytes about to be overwritten. */
  lemma JudgedExactly(m: Memory, target: Addr, n: nat, expected: Option<seq<bv8>>)
    requires 0 < n <= 4
    ensures var window := ReadCode(m, target, n);
            Judged(window, target, expected) ==
            if !PinHolds(m, target, n, expected) then PreconditionFailed
            else if AlwaysFaults(window[0]) then TrapStub
            else if exists i :: 0 <= i < n && NeverBack(window[i]) then TargetTooShort
            else if exists i :: 0 <= i < n && !Kept(window[i], After(target, window[..i]), target, After(target, window))
            then Unrelocatable
            else Status.Ok
  {
    hide PinHolds, Expects, HasEarlyTerminator, IsTrap, AlwaysFaults, AlwaysJumps, AlwaysTaken, AllMovable, Kept, After, ReadCode;
    var window := ReadCode(m, target, n);
    ExpectsExactly(m, target, n, expected);
    TrapExactly(window[0]);
    ScannedExactly(window);
    MovableExactly(window, target, target, After(target, window));
  }

  predicate RelativeBranch(i: Insn) { i.Branch? || i.BranchCond? || i.CompareBranch? || i.TestBranch? }

  /** No relative branch of an accepted window leads into the bytes the patch overwrites, from
      whatever state it is executed where it was. */
  lemma BranchesLeave(isa: Isa, m: Memory, target: Addr, n: nat, expected: Option<seq<bv8>>, i: nat, c: Core)
    requires 0 < n <= 4 && i < n
    requires Judged(ReadCode(m, target, n), target, expected).Ok?
    requires target < After(target, ReadCode(m, target, n))
    requires RelativeBranch(Decode(ReadCode(m, target, n)[i]))
    ensures var window := ReadCode(m, target, n);
            var flow := Exec(isa, window[i], After(target, window[..i]), c).flow;
            && !flow.Fault?
            && (flow.Jump? || flow.Call? ==> !InCode(target, window, flow.to))
  {
    hide *;
    var window := ReadCode(m, target, n);
    var pc, end := After(target, window[..i]), After(target, window);
    JudgedKept(m, target, n, expected, i);
    WindowBytes(target, window);
    BranchGoes(isa, window[i], pc, c, target, end);
    var flow := Exec(isa, window[i], pc, c).flow;
    if flow.Jump? || flow.Call? {
      NotEnclosed(target, window, end, flow.to);
    }
  }

  lemma JudgedKept(m: Memory, target: Addr, n: nat, expected: Option<seq<bv8>>, i: nat)
    requires 0 < n <= 4 && i < n && Judged(ReadCode(m, target, n), target, expected).Ok?
    ensures var window := ReadCode(m, target, n);
            !LeadsInto(window[i], After(target, window[..i]), target, After(target, window))
  {
    hide PinHolds, AlwaysFaults, NeverBack, After, ReadCode, LeadsInto, UnallocatedLiteral, Judged;
    JudgedExactly(m, target, n, expected);
    var window := ReadCode(m, target, n);
    assert Kept(window[i], After(target, window[..i]), target, After(target, window));
  }

  lemma BranchGoes(isa: Isa, w: Word, pc: Addr, c: Core, lo: Addr, hi: Addr)
    requires RelativeBranch(Decode(w)) && !LeadsInto(w, pc, lo, hi)
    ensures var flow := Exec(isa, w, pc, c).flow;
            !flow.Fault? && (flow.Jump? || flow.Call? ==> !Within(flow.to, lo, hi))
  {
    hide Decode, Within, ConditionHolds, IsZero, BitSet, Load, PcRelative, Plus;
  }

  lemma NotEnclosed(target: Addr, window: seq<Word>, end: Addr, b: Addr)
    requires Encloses(target, window, end) && !Within(b, target, end)
    ensures !InCode(target, window, b)
  {
    hide InCode, Within;
    assert Enclosed(target, window, end, b);
  }

  /** The terminal engine looks at every word of its patch but the last. */
  lemma EndsInsideExactly(window: seq<Word>)
    ensures TerminalEngine.EndsInside(window) <==> exists i :: 0 <= i < |window| - 1 && NeverBack(window[i])
  {
    hide AlwaysJumps, AlwaysTaken, IsTerminator, IsAuthenticatedTerminator;
    forall i | 0 <= i < |window|
      ensures NeverBack(window[i]) <==> TerminalEngine.Ends(window[i])
    {
      TerminatorExactly(window[i]);
    }
  }

  /** What the terminal engine refuses, in the order in which it looks: control may come back from
      every word it overwrites but the last. */
  lemma ScreenedExactly(m: Memory, target: Addr, n: nat, replacement: Addr, wantsOriginal: bool, expected: Option<seq<bv8>>)
    requires n > 0
    ensures var window := ReadCode(m, target, n);
            TerminalEngine.Screened(window, target, replacement, wantsOriginal, expected) ==
            if target == 0 || replacement == 0 || (expected.Some? && !(0 < |expected.value| <= 16))
            then Some(TerminalEngine.BadArgument)
            else if wantsOriginal then Some(TerminalEngine.NeedsContinuation)
            else if target & 3 != 0 then Some(TerminalEngine.BadAlignment)
            else if !PinHolds(m, target, n, expected) then Some(TerminalEngine.Unexpected)
            else if AlwaysFaults(window[0]) then Some(TerminalEngine.Traps)
            else if exists i :: 0 <= i < n - 1 && NeverBack(window[i]) then Some(TerminalEngine.TooShort)
            else None
  {
    hide ReadCode, Expects, PinHolds, AlwaysFaults, IsTrap, TerminalEngine.EndsInside, NeverBack;
    ExpectsExactly(m, target, n, expected);
    TrapExactly(ReadCode(m, target, n)[0]);
    EndsInsideExactly(ReadCode(m, target, n));
  }

  // ---- the shape of a request ----

  /** What a request must look like, and how many instructions it displaces. */
  lemma RequestExactly(target: Addr, replacement: Addr, overwrite: nat, expected: Option<seq<bv8>>, page: Addr)
    ensures WellFormed(target, replacement, overwrite, expected) <==>
            && target != 0 && overwrite in {0, 4, 8, 12, 16} && (overwrite == 0 ==> replacement != 0)
            && (expected.Some? ==> 1 <= |expected.value| <= 16)
    ensures var n := WindowWords(target, replacement, overwrite, page);
            if overwrite == 0 then n == (if Near(target, page) || Near(target, replacement) then 1 else 4)
            else 4 * n <= overwrite < 4 * n + 4
  {
    hide Near, EncodeB, AbsJump;
  }

  /** An offered page is used exactly if it is aligned and 128 bytes from it lie in its mapping, a
      static or an anonymous one that does not reach past the address space. */
  lemma UsableExactly(page: Page)
    ensures Usable(page) <==>
            && page.kind in {StaticSection, Anonymous} && page.address != 0 && page.address & 3 == 0 && page.base != 0
            && !Below(page.address, page.base) && !Below(page.size, 128)
            && !Below(Gap(page.base, 0xFFFFFFFFFFFFFFFF), page.size)
            && !Below(Gap(128, page.size), Gap(page.base, page.address))
  {
    hide Below, Gap;
  }
}
