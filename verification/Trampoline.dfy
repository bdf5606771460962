/** The trampoline of the relocating engine: an inbound thunk that jumps to the replacement and a
    body that holds the relocated prologue and a jump back, both in one page. */
module Trampoline {
  import opened A64
  import opened Options
  import opened Relocator
  import opened Relocation
  import opened Simulation
  import opened CodeWriting

  const BODY_BYTES := 4 * MAX_RELOC_BYTES + MAX_BRANCH_BYTES
  const THUNK_WORDS: nat := 4

  // ---- the layout ----

  /** The body lives after the thunk; this, not the page, is the original's entry. */
  function Entry(page: Addr): Addr { At(page, THUNK_WORDS) }

  /** A branch to the thunk if it is within reach of a B, otherwise straight to the replacement. */
  function EntryPatch(target: Addr, replacement: Addr, page: Addr): seq<Word> {
    if BranchSize(target, page) == 4 then EmitBranch(target, page) else EmitBranch(target, replacement)
  }

  function Thunk(page: Addr, replacement: Addr): seq<Word> { EmitBranch(page, replacement) }

  /** The relocated window followed by a branch to the instruction after it. */
  function Body(target: Addr, window: seq<Word>, page: Addr): Option<seq<Word>> {
    match Relocated(window, target, BODY_BYTES)
    case None => None
    case Some(moved) => Some(moved + EmitBranch(After(Entry(page), moved), After(target, window)))
  }

  /** At most four displaced instructions always leave room for the jump back: a window is
      refused only for an instruction in it, never for want of space. */
  lemma BodyFits(target: Addr, window: seq<Word>, page: Addr)
    requires 0 < |window| <= 4
    ensures Body(target, window, page).Some? <==> AllMovable(window, target, target, After(target, window))
    ensures Body(target, window, page).Some? ==> |Body(target, window, page).value| <= PAGE_WORDS - THUNK_WORDS
  {
    hide RelocateOne, EmitBranch, At, After, AllMovable;
    RoomySequence(window, target, target, After(target, window), BODY_BYTES, 0);
  }

  // ---- branches land ----

  /** Where a branch emitted at `from` for `to` really goes. */
  function Landing(from: Addr, to: Addr): Addr {
    if Near(from, to) then Plus(from, AlignDown(Gap(from, to))) else to
  }

  lemma PlusDifference(from: Addr, to: Addr)
    ensures Plus(from, to - from) == to
  {
  }

  lemma GapBack(from: Addr, to: Addr)
    ensures Plus(from, Gap(from, to)) == to
  {
    assert Gap(from, to) == to - from;
    hide Plus, Gap;
    PlusDifference(from, to);
  }

  lemma AlignedIff(d: bv64)
    ensures AlignDown(d) == d <==> Aligned(d)
  {
  }

  /** The emitted branch goes exactly where asked, unless it is a B over a gap that is not a
      whole number of instructions. */
  lemma LandsExactly(from: Addr, to: Addr)
    ensures Landing(from, to) == to <==> !Near(from, to) || Aligned(Gap(from, to))
  {
    hide Near, AlignDown, Aligned, Gap, Plus;
    var d := Gap(from, to);
    GapBack(from, to);
    AlignedIff(d);
    if Plus(from, AlignDown(d)) == to {
      MinusPlus(from, AlignDown(d));
      MinusPlus(from, d);
    }
  }

  // Two instruction addresses are a whole number of instructions apart.
  lemma AlignedGap(from: Addr, to: Addr)
    requires Aligned(from)
    ensures Aligned(Gap(from, to)) <==> Aligned(to)
  {
  }

  lemma AlignedPlus(a: Addr, d: bv64)
    requires Aligned(a) && Aligned(d)
    ensures Aligned(Plus(a, d))
  {
  }

  lemma RunEmitted(isa: Isa, t: State, to: Addr) returns (k: nat, scratch: Reg)
    requires Installed(t.core.mem, t.pc, EmitBranch(t.pc, to))
    ensures scratch in {X16, X17}
    ensures Steps(isa, k, t).pc == Landing(t.pc, to)
    ensures Steps(isa, k, t).core == t.core || Steps(isa, k, t).core == SetX(t.core, scratch, to)
  {
    hide AlignDown, Near, Plus, Gap, EncodeB, AbsJump, Steps, Step, Read32, SetX, JumpScratch, Installed;
    scratch := X16;
    if Near(t.pc, to) {
      InstalledFirst(t.core.mem, t.pc, [EncodeB(Gap(t.pc, to))]);
      DecodedB(t.pc, to);
      StepBranch(isa, t, EncodeB(Gap(t.pc, to)), AlignDown(Gap(t.pc, to)));
      TwoSteps(isa, t);
      k := 1;
    } else {
      RunAbsJump(isa, t, to);
      Scratch(to);
      k, scratch := 2, JumpScratch(to);
    }
  }

  lemma {:induction false} AlignedAfter(a: Addr, code: seq<Word>)
    requires Aligned(a)
    ensures Aligned(After(a, code))
    decreases |code|
  {
    hide Plus, Aligned;
    if code != [] {
      Four();
      AlignedPlus(a, 4);
      AlignedAfter(Plus(a, 4), code[1..]);
    }
  }

  lemma Four()
    ensures Aligned(4)
  {
  }

  lemma AlignedAt(page: Addr, i: nat)
    requires Aligned(page) && i < PAGE_WORDS
    ensures Aligned(At(page, i))
  {
    hide Plus, Aligned, Offset;
    OffsetsAligned(i);
    AlignedPlus(page, Offset(i));
  }

  // ---- entering the hooked function ----

  /** The instruction that jumps to the replacement: in the thunk when the entry reaches it. */
  function LastHop(target: Addr, page: Addr): Addr {
    if Near(target, page) then page else target
  }

  lemma ScratchOnly(c: Core, d: Core, r: Reg, value: bv64)
    requires Agree(c, d, {X16, X17}, iset{}) && r in {X16, X17}
    ensures Agree(c, SetX(d, r, value), {X16, X17}, iset{}) && SetX(d, r, value).mem == d.mem
  {
  }

  lemma AgreeSelf(c: Core)
    ensures Agree(c, c, {X16, X17}, iset{})
  {
  }

  /** A patched entry arrives at the replacement with nothing but scratch registers changed,
      through the thunk when that is within reach; the one exception is a replacement that is
      not an instruction address and lies within reach of the last hop. */
  lemma EntryReaches(isa: Isa, c: Core, target: Addr, replacement: Addr, page: Addr) returns (k: nat)
    requires Aligned(target) && Aligned(page)
    requires Installed(c.mem, target, EntryPatch(target, replacement, page))
    requires Installed(c.mem, page, Thunk(page, replacement))
    ensures var u := Steps(isa, k, State(target, c));
            && Agree(c, u.core, {X16, X17}, iset{}) && u.core.mem == c.mem
            && (u.pc == replacement <==> !Near(LastHop(target, page), replacement) || Aligned(replacement))
  {
    hide Steps, Step, Installed, Near, EmitBranch, Agree, SetX, Aligned, Landing;
    var s := State(target, c);
    var hop := LastHop(target, page);
    AgreeSelf(c);
    LandsExactly(hop, replacement);
    AlignedGap(hop, replacement);
    if Near(target, page) {
      AlignedGap(target, page);
      LandsExactly(target, page);
      var k1, r1 := RunEmitted(isa, s, page);
      var u1 := Steps(isa, k1, s);
      ScratchOnly(c, c, r1, page);
      var k2, r2 := RunEmitted(isa, u1, replacement);
      ScratchOnly(c, u1.core, r2, replacement);
      StepsCompose(isa, k1, k2, s);
      k := k1 + k2;
    } else {
      var k1, r1 := RunEmitted(isa, s, replacement);
      ScratchOnly(c, c, r1, replacement);
      k := k1;
    }
  }

  // ---- calling the original ----

  /** Entering the body behaves as the unpatched prologue does: it leaves where the prologue
      leaves, or arrives at the instruction after the displaced ones. */
  lemma OriginalEntry(isa: Isa, target: Addr, window: seq<Word>, page: Addr, moved: seq<Word>, s: State, t: State,
                      hidden: set<Reg>, private: iset<Addr>)
    returns (k: nat, cut: nat)
    requires 0 < |window| <= 4 && Aligned(target) && Aligned(page)
    requires Relocated(window, target, BODY_BYTES) == Some(moved)
    requires s.pc == target && Installed(s.core.mem, target, window) && Covers(private, target, window)
    requires t.pc == Entry(page)
    requires var body := Body(target, window, page).value;
             Installed(t.core.mem, t.pc, body) && Covers(private, t.pc, body)
    requires Agree(s.core, t.core, hidden, private) && {X16, X17} <= hidden
    requires Admissible(isa, window, s, hidden, private)
    ensures var r, u := RunBlock(isa, |window|, s), Steps(isa, k, t);
            if r.exit.FellThrough? then
              && r.state.pc == After(target, window) && u.pc == After(target, window)
              && Agree(r.state.core, u.core, hidden, private)
            else
              Reached(window, target, After(target, window), BODY_BYTES, moved, s, t, r, u, cut, hidden, private)
  {
    hide Steps, Step, Installed, Near, EmitBranch, Agree, SetX, Aligned, Landing, RelocateOne, RelocateFrom, Covers, RunBlock,
      Admissible, At, After, X, ReturnsTo, Untouched;
    var lo, hi := target, After(target, window);
    var from := After(t.pc, moved);
    var back := EmitBranch(from, hi);
    InstalledSplit(t.core.mem, t.pc, moved, back);
    CoversSplit(private, t.pc, moved, back);
    k, cut := Simulate(isa, window, lo, hi, BODY_BYTES, moved, s, t, hidden, private);
    var r, u := RunBlock(isa, |window|, s), Steps(isa, k, t);
    if r.exit.FellThrough? {
      StaysInstalled(t.core.mem, u.core.mem, private, from, back);
      RoomySequence(window, target, lo, hi, BODY_BYTES, 0);
      AfterAt(page, THUNK_WORDS, moved);
      AlignedAt(page, THUNK_WORDS + |moved|);
      AlignedAfter(target, window);
      AlignedGap(from, hi);
      LandsExactly(from, hi);
      var more, scratch := RunEmitted(isa, u, hi);
      SetHidden(r.state.core, u.core, scratch, hi, hidden, private);
      StepsCompose(isa, k, more, t);
      k := k + more;
    }
  }
}
