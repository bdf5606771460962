/** What relocation preserves. A run of instructions and its relocated form are two places
    to execute the same code: the proof follows both machines instruction by instruction. */
module Relocation {
  import opened A64
  import opened Relocator

  // ---- decoding what the relocator encodes ----

  lemma DecodedLdrLiteral(rt: Reg)
    requires rt < 32
    ensures Decode(EncodeLdrLiteral64(rt, 8)) == LoadLiteral(X64, rt, 8)
    ensures Decode(EncodeLdrLiteral64(rt, 12)) == LoadLiteral(X64, rt, 12)
  {
  }

  lemma DecodedBranchReg(rn: Reg)
    requires rn < 32
    ensures Decode(EncodeBr(rn)) == BranchReg(false, rn)
    ensures Decode(EncodeBlr(rn)) == BranchReg(true, rn)
  {
  }

  lemma DecodedSkips()
    ensures Decode(EncodeB(12)) == Branch(false, 12)
    ensures Decode(EncodeB(20)) == Branch(false, 20)
    ensures Decode(NOP) == Nop
  {
  }

  lemma ForwardB(delta: bv64)
    requires delta < 0x8000000
    ensures Imm26(EncodeB(delta)) == AlignDown(delta)
  {
  }

  lemma BackwardB(delta: bv64)
    requires delta >= 0xFFFFFFFFF8000000
    ensures Imm26(EncodeB(delta)) == AlignDown(delta)
  {
  }

  lemma EncodedB(delta: bv64)
    ensures Decode(EncodeB(delta)) == Branch(false, Imm26(EncodeB(delta)))
  {
  }

  /** A branch within reach goes where it was asked to, rounded down to an instruction. */
  lemma DecodedB(from: Addr, to: Addr)
    requires Near(from, to)
    ensures Decode(EncodeB(Gap(from, to))) == Branch(false, AlignDown(Gap(from, to)))
  {
    NearGap(from, to);
    hide *;
    var delta := Gap(from, to);
    EncodedB(delta);
    if {
      case delta < 0x8000000 => ForwardB(delta);
      case delta >= 0xFFFFFFFFF8000000 => BackwardB(delta);
    }
  }

  lemma NearGap(from: Addr, to: Addr)
    requires Near(from, to)
    ensures Gap(from, to) < 0x8000000 || Gap(from, to) >= 0xFFFFFFFFF8000000
  {
    hide Gap;
  }

  /** "Near" is as wide as a B reaches: exactly where some word decodes to a B over the distance,
      rounded down to an instruction. */
  lemma NearExactly(from: Addr, to: Addr)
    ensures Near(from, to) <==> exists w :: Decode(w) == Branch(false, AlignDown(Gap(from, to)))
  {
    hide Decode, Near, Gap, AlignDown, EncodeB;
    if Near(from, to) {
      DecodedB(from, to);
      assert Decode(EncodeB(Gap(from, to))) == Branch(false, AlignDown(Gap(from, to)));
    }
    if w :| Decode(w) == Branch(false, AlignDown(Gap(from, to))) {
      ReachOfB(w);
      NearRounded(from, to);
    }
  }

  predicate InReach(offset: bv64) { offset >= 0xFFFFFFFFF8000000 || offset < 0x8000000 }

  lemma ReachOfB(w: Word)
    requires Decode(w).Branch?
    ensures InReach(Decode(w).offset)
  {
    OffsetOfB(w);
    hide Decode, InReach;
    ReachOf26(w);
  }

  lemma OffsetOfB(w: Word)
    requires Decode(w).Branch?
    ensures Decode(w).offset == Imm26(w)
  {
    hide Imm26, Imm21, Imm19, Imm14, BitNumber, LiteralKind;
  }

  lemma ReachOf26(w: Word)
    ensures InReach(Imm26(w))
  {
  }

  lemma NearRounded(from: Addr, to: Addr)
    requires InReach(AlignDown(Gap(from, to)))
    ensures Near(from, to)
  {
    hide Gap;
  }

  // Retargeting a conditional branch 8 bytes on keeps its test.
  lemma RetargetedCond(w: Word)
    requires w & 0xFF000010 == 0x54000000
    ensures Decode(w) == BranchCond(w & 15, Imm19(w))
    ensures Decode(SetImm19(w, 8)) == BranchCond(w & 15, 8)
  {
    KeptByImm19(w);
    DecodedCond(w);
    DecodedCond(SetImm19(w, 8));
    hide SetImm19;
  }

  lemma KeptByImm19(w: Word)
    ensures SetImm19(w, 8) & 0xFF00001F == w & 0xFF00001F
    ensures (SetImm19(w, 8) >> 5) & 0x7FFFF == 2
  {
  }

  lemma DecodedCond(w: Word)
    requires w & 0xFF000010 == 0x54000000
    ensures Decode(w) == BranchCond(w & 15, Imm19(w))
  {
    hide SignExtend;
  }

  lemma RetargetedCompare(w: Word)
    requires w & 0x7E000000 == 0x34000000
    ensures Decode(w) == CompareBranch(w & 0x80000000 != 0, w & 0x01000000 != 0, w & 31, Imm19(w))
    ensures Decode(SetImm19(w, 8)) == CompareBranch(w & 0x80000000 != 0, w & 0x01000000 != 0, w & 31, 8)
  {
    KeptByImm19(w);
    DecodedCompare(w);
    DecodedCompare(SetImm19(w, 8));
    hide SetImm19;
  }

  lemma DecodedCompare(w: Word)
    requires w & 0x7E000000 == 0x34000000
    ensures Decode(w) == CompareBranch(w & 0x80000000 != 0, w & 0x01000000 != 0, w & 31, Imm19(w))
  {
    hide SignExtend;
  }

  lemma RetargetedTest(w: Word)
    requires w & 0x7E000000 == 0x36000000
    ensures Decode(w) == TestBranch(BitNumber(w), w & 0x01000000 != 0, w & 31, Imm14(w))
    ensures Decode(SetImm14(w, 8)) == TestBranch(BitNumber(w), w & 0x01000000 != 0, w & 31, 8)
  {
    KeptByImm14(w);
    DecodedTest(w);
    DecodedTest(SetImm14(w, 8));
    hide SetImm14;
  }

  lemma KeptByImm14(w: Word)
    ensures SetImm14(w, 8) & 0xFFF8001F == w & 0xFFF8001F
    ensures BitNumber(SetImm14(w, 8)) == BitNumber(w)
    ensures (SetImm14(w, 8) >> 5) & 0x3FFF == 2
  {
  }

  lemma DecodedTest(w: Word)
    requires w & 0x7E000000 == 0x36000000
    ensures Decode(w) == TestBranch(BitNumber(w), w & 0x01000000 != 0, w & 31, Imm14(w))
  {
    hide SignExtend;
  }

  lemma QuadReads(m: Memory, a: Addr, value: bv64)
    requires Installed(m, a, Quad(value))
    ensures Read64(m, a) == value
  {
    hide Read32;
    assert Quad(value)[1..] == [Quad(value)[1]];
  }

  lemma InstalledPair(m: Memory, a: Addr, w0: Word, w1: Word, rest: seq<Word>)
    requires Installed(m, a, [w0, w1] + rest)
    ensures Read32(m, a) == w0 && Read32(m, Plus(a, 4)) == w1 && Installed(m, Plus(a, 8), rest)
  {
    hide Read32, Plus;
    PlusPlus(a, 4, 4);
    var code := [w0, w1] + rest;
    assert code[1..] == [w1] + rest && ([w1] + rest)[1..] == rest;
  }

  // ---- executing the emitted forms ----

  lemma StepLoadLiteral(isa: Isa, s: State, w: Word, rt: Reg, offset: bv64)
    requires Read32(s.core.mem, s.pc) == w && Decode(w) == LoadLiteral(X64, rt, offset)
    ensures Step(isa, s) == State(Plus(s.pc, 4), SetX(s.core, rt, Read64(s.core.mem, Plus(s.pc, offset))))
  {
    hide Decode, Read32, Read64, Plus, BitSet, IsZero, PcRelative, ConditionHolds;
  }

  lemma StepBranch(isa: Isa, s: State, w: Word, offset: bv64)
    requires Read32(s.core.mem, s.pc) == w && Decode(w) == Branch(false, offset)
    ensures Step(isa, s) == State(Plus(s.pc, offset), s.core)
  {
    hide Decode, Read32, Plus, BitSet, IsZero, PcRelative, ConditionHolds;
  }

  lemma StepBranchReg(isa: Isa, s: State, w: Word, rn: Reg)
    requires Read32(s.core.mem, s.pc) == w && Decode(w) == BranchReg(false, rn)
    ensures Step(isa, s) == State(X(s.core, rn), s.core)
  {
    hide Decode, Read32, Plus, BitSet, IsZero, PcRelative, ConditionHolds;
  }

  lemma StepCallReg(isa: Isa, s: State, w: Word, rn: Reg)
    requires Read32(s.core.mem, s.pc) == w && Decode(w) == BranchReg(true, rn)
    ensures Step(isa, s) == State(X(s.core, rn), SetX(s.core, LINK, Plus(s.pc, 4)))
  {
    hide Decode, Read32, Plus, BitSet, IsZero, PcRelative, ConditionHolds;
  }

  lemma TwoSteps(isa: Isa, s: State)
    ensures Steps(isa, 0, s) == s
    ensures Steps(isa, 1, s) == Step(isa, s)
    ensures Steps(isa, 2, s) == Step(isa, Step(isa, s))
  {
    hide Step;
    assert Steps(isa, 1, Step(isa, s)) == Steps(isa, 0, Step(isa, Step(isa, s)));
  }

  lemma ReadBack(c: Core, r: Reg, value: bv64)
    requires r != 31
    ensures X(SetX(c, r, value), r) == value
    ensures SetX(c, r, value).mem == c.mem
  {
  }

  lemma ScratchRegisters()
    ensures X16 < 31 && X17 < 31 && X16 != LINK && X17 != LINK && LINK < 31
  {
  }

  lemma Scratch(target: Addr)
    ensures JumpScratch(target) in {X16, X17} && JumpScratch(target) < 31
  {
  }

  lemma AbsJumpInstalled(m: Memory, a: Addr, target: Addr)
    requires Installed(m, a, AbsJump(target))
    ensures Read32(m, a) == EncodeLdrLiteral64(JumpScratch(target), 8)
    ensures Read32(m, Plus(a, 4)) == EncodeBr(JumpScratch(target))
    ensures Read64(m, Plus(a, 8)) == target
  {
    hide Read32, Read64, EncodeLdrLiteral64, EncodeBr, Quad, JumpScratch;
    InstalledPair(m, a, EncodeLdrLiteral64(JumpScratch(target), 8), EncodeBr(JumpScratch(target)), Quad(target));
    QuadReads(m, Plus(a, 8), target);
  }

  lemma RunAbsJump(isa: Isa, s: State, target: Addr)
    requires Installed(s.core.mem, s.pc, AbsJump(target))
    ensures Steps(isa, 2, s) == State(target, SetX(s.core, JumpScratch(target), target))
  {
    hide *;
    var r := JumpScratch(target);
    Scratch(target);
    AbsJumpInstalled(s.core.mem, s.pc, target);
    DecodedLdrLiteral(r);
    DecodedBranchReg(r);
    StepLoadLiteral(isa, s, EncodeLdrLiteral64(r, 8), r, 8);
    ReadBack(s.core, r, target);
    StepBranchReg(isa, Step(isa, s), EncodeBr(r), r);
    TwoSteps(isa, s);
  }

  lemma RunLoadConst(isa: Isa, s: State, rd: Reg, value: bv64, rest: seq<Word>)
    requires rd < 32
    requires Installed(s.core.mem, s.pc, LoadConst(rd, value) + rest)
    ensures Steps(isa, 2, s) == State(Plus(s.pc, 16), SetX(s.core, rd, value))
    ensures Installed(s.core.mem, Plus(s.pc, 16), rest)
  {
    hide *;
    LoadConstInstalled(s.core.mem, s.pc, rd, value, rest);
    DecodedLdrLiteral(rd);
    DecodedSkips();
    StepLoadLiteral(isa, s, EncodeLdrLiteral64(rd, 8), rd, 8);
    SetKeepsMemory(s.core, rd, value);
    StepBranch(isa, Step(isa, s), EncodeB(12), 12);
    PlusPlus(s.pc, 4, 12);
    TwoSteps(isa, s);
  }

  lemma SetKeepsMemory(c: Core, r: Reg, value: bv64)
    ensures SetX(c, r, value).mem == c.mem
  {
  }

  lemma LoadConstInstalled(m: Memory, a: Addr, rd: Reg, value: bv64, rest: seq<Word>)
    requires Installed(m, a, LoadConst(rd, value) + rest)
    ensures Read32(m, a) == EncodeLdrLiteral64(rd, 8)
    ensures Read32(m, Plus(a, 4)) == EncodeB(12)
    ensures Read64(m, Plus(a, 8)) == value
    ensures Installed(m, Plus(a, 16), rest)
  {
    hide Read32, Read64, EncodeLdrLiteral64, EncodeB, Quad;
    InstalledSplit(m, a, LoadConst(rd, value), rest);
    AfterFour(a, LoadConst(rd, value));
    InstalledPair(m, a, EncodeLdrLiteral64(rd, 8), EncodeB(12), Quad(value));
    QuadReads(m, Plus(a, 8), value);
  }

  // The end of a short run of emitted words.
  lemma AfterFour(a: Addr, code: seq<Word>)
    requires |code| == 4
    ensures After(a, code) == Plus(a, 16)
  {
    hide Plus;
    PlusPlus(a, 4, 4);
    PlusPlus(a, 8, 4);
    PlusPlus(a, 12, 4);
    assert After(a, code) == After(Plus(a, 4), code[1..]);
    assert After(Plus(a, 4), code[1..]) == After(Plus(a, 8), code[1..][1..]);
    assert After(Plus(a, 8), code[1..][1..]) == After(Plus(a, 12), code[1..][1..][1..]);
    assert After(Plus(a, 12), code[1..][1..][1..]) == Plus(a, 16);
  }

  lemma AfterFive(a: Addr, code: seq<Word>)
    requires |code| == 5
    ensures After(a, code) == Plus(a, 20)
  {
    hide Plus;
    AfterFour(Plus(a, 4), code[1..]);
    PlusPlus(a, 4, 16);
  }

  lemma AfterSix(a: Addr, code: seq<Word>)
    requires |code| == 6
    ensures After(a, code) == Plus(a, 24)
  {
    hide Plus;
    AfterFive(Plus(a, 4), code[1..]);
    PlusPlus(a, 4, 20);
  }

  lemma CallViaInstalled(m: Memory, a: Addr, target: Addr)
    requires Installed(m, a, CallVia(target))
    ensures Read32(m, a) == EncodeLdrLiteral64(X16, 12)
    ensures Read32(m, Plus(a, 4)) == EncodeBlr(X16)
    ensures Read32(m, Plus(a, 8)) == EncodeB(12)
    ensures Read64(m, Plus(a, 12)) == target
    ensures After(a, CallVia(target)) == Plus(Plus(a, 8), 12)
  {
    hide Plus, Read32, Read64, EncodeLdrLiteral64, EncodeB, EncodeBlr, Quad;
    var head, tail := [EncodeLdrLiteral64(X16, 12), EncodeBlr(X16)], [EncodeB(12)] + Quad(target);
    InstalledPair(m, a, EncodeLdrLiteral64(X16, 12), EncodeBlr(X16), tail) by { assert CallVia(target) == head + tail; }
    InstalledFirst(m, Plus(a, 8), tail);
    assert tail[1..] == Quad(target);
    PlusPlus(a, 8, 4);
    PlusPlus(a, 8, 12);
    QuadReads(m, Plus(a, 12), target);
    AfterFive(a, CallVia(target));
  }

  /** A relocated call arrives with the link register at the skip over its own literal. */
  lemma RunCallVia(isa: Isa, t: State, target: Addr)
    requires Installed(t.core.mem, t.pc, CallVia(target))
    ensures Steps(isa, 2, t) == State(target, SetX(SetX(t.core, X16, target), LINK, Plus(t.pc, 8)))
    ensures ReturnsTo(t.core.mem, Plus(t.pc, 8), After(t.pc, CallVia(target)))
  {
    hide *;
    CallViaInstalled(t.core.mem, t.pc, target);
    LinkReturns(t.core.mem, Plus(t.pc, 8), After(t.pc, CallVia(target)));
    ScratchRegisters();
    DecodedLdrLiteral(X16);
    DecodedBranchReg(X16);
    StepLoadLiteral(isa, t, EncodeLdrLiteral64(X16, 12), X16, 12);
    ReadBack(t.core, X16, target);
    StepCallReg(isa, Step(isa, t), EncodeBlr(X16), X16);
    PlusPlus(t.pc, 4, 4);
    TwoSteps(isa, t);
  }

  /** Returning to `link` continues at `resume`, at once or over the skip of a relocated call. */
  predicate ReturnsTo(m: Memory, link: Addr, resume: Addr) {
    link == resume || (Read32(m, link) == EncodeB(12) && Plus(link, 12) == resume)
  }

  lemma LinkReturns(m: Memory, link: Addr, resume: Addr)
    requires Read32(m, link) == EncodeB(12) && Plus(link, 12) == resume
    ensures ReturnsTo(m, link, resume)
  {
  }

  lemma Return(isa: Isa, link: Addr, resume: Addr, c: Core) returns (k: nat)
    requires ReturnsTo(c.mem, link, resume)
    ensures Steps(isa, k, State(link, c)) == State(resume, c)
  {
    hide Step, Plus, EncodeB, Read32;
    if link == resume {
      k := 0;
    } else {
      DecodedSkips();
      StepBranch(isa, State(link, c), EncodeB(12), 12);
      TwoSteps(isa, State(link, c));
      k := 1;
    }
  }

  lemma DecodedLoad(opc: bv32, simd: bool, rt: Reg)
    requires opc < 3 && rt < 32
    ensures Decode(LoadFromBase(opc, simd) | (X17 << 5) | rt) == LoadBase(LiteralKind(opc, simd), rt, X17)
  {
    if simd {
      if opc == 0 {} else if opc == 1 {} else {}
    } else {
      if opc == 0 {} else if opc == 1 {} else {}
    }
  }

  lemma StepLoadBase(isa: Isa, s: State, w: Word, kind: LoadKind, rt: Reg, rn: Reg)
    requires Read32(s.core.mem, s.pc) == w && Decode(w) == LoadBase(kind, rt, rn) && rn != 31
    ensures Step(isa, s) == State(Plus(s.pc, 4), Load(s.core, kind, rt, X(s.core, rn)))
  {
    hide Decode, Read32, Load, Plus, BitSet, IsZero, PcRelative, ConditionHolds;
  }

  lemma RunLoad(isa: Isa, t: State, target: Addr, w: Word, kind: LoadKind, rt: Reg)
    requires Decode(w) == LoadBase(kind, rt, X17)
    requires Installed(t.core.mem, t.pc, LoadConst(X17, target) + [w])
    ensures Steps(isa, 3, t) == State(Plus(t.pc, 20), Load(SetX(t.core, X17, target), kind, rt, target))
  {
    hide *;
    ScratchRegisters();
    RunLoadConst(isa, t, X17, target, [w]);
    var t2 := State(Plus(t.pc, 16), SetX(t.core, X17, target));
    LoadAt(isa, t2, w, kind, rt, target) by {
      SetKeepsMemory(t.core, X17, target);
      ReadBack(t.core, X17, target);
    }
    PlusPlus(t.pc, 16, 4);
    StepsCompose(isa, 2, 1, t);
    TwoSteps(isa, t2);
  }

  lemma LoadAt(isa: Isa, t: State, w: Word, kind: LoadKind, rt: Reg, target: Addr)
    requires Decode(w) == LoadBase(kind, rt, X17)
    requires Installed(t.core.mem, t.pc, [w]) && X(t.core, X17) == target
    ensures Step(isa, t) == State(Plus(t.pc, 4), Load(t.core, kind, rt, target))
  {
    hide *;
    ScratchRegisters();
    InstalledFirst(t.core.mem, t.pc, [w]);
    StepLoadBase(isa, t, w, kind, rt, X17);
  }

  lemma InstalledFirst(m: Memory, a: Addr, code: seq<Word>)
    requires code != [] && Installed(m, a, code)
    ensures Read32(m, a) == code[0] && Installed(m, Plus(a, 4), code[1..])
  {
  }

  lemma RunTaken(isa: Isa, t: State, w: Word, target: Addr)
    requires Installed(t.core.mem, t.pc, [w, EncodeB(20)] + AbsJump(target))
    requires Exec(isa, w, t.pc, t.core) == Effect(t.core, Jump(Plus(t.pc, 8)))
    ensures Steps(isa, 3, t) == State(target, SetX(t.core, JumpScratch(target), target))
  {
    hide *;
    InstalledPair(t.core.mem, t.pc, w, EncodeB(20), AbsJump(target));
    StepJump(isa, t, w, Plus(t.pc, 8));
    var t1 := State(Plus(t.pc, 8), t.core);
    RunAbsJump(isa, t1, target);
    TwoSteps(isa, t);
    StepsCompose(isa, 1, 2, t);
  }

  lemma RunNotTaken(isa: Isa, t: State, w: Word, target: Addr)
    requires Installed(t.core.mem, t.pc, [w, EncodeB(20)] + AbsJump(target))
    requires Exec(isa, w, t.pc, t.core) == Effect(t.core, Next)
    ensures Steps(isa, 2, t) == State(After(t.pc, [w, EncodeB(20)] + AbsJump(target)), t.core)
  {
    hide *;
    InstalledPair(t.core.mem, t.pc, w, EncodeB(20), AbsJump(target));
    StepNext(isa, t, w);
    DecodedSkips();
    StepBranch(isa, State(Plus(t.pc, 4), t.core), EncodeB(20), 20);
    PlusPlus(t.pc, 4, 20);
    TwoSteps(isa, t);
    AfterSix(t.pc, [w, EncodeB(20)] + AbsJump(target));
  }

  lemma StepJump(isa: Isa, s: State, w: Word, to: Addr)
    requires Read32(s.core.mem, s.pc) == w
    requires Exec(isa, w, s.pc, s.core) == Effect(s.core, Jump(to))
    ensures Step(isa, s) == State(to, s.core)
  {
    hide Exec, Read32;
  }

  lemma StepNext(isa: Isa, s: State, w: Word)
    requires Read32(s.core.mem, s.pc) == w
    requires Exec(isa, w, s.pc, s.core) == Effect(s.core, Next)
    ensures Step(isa, s) == State(Plus(s.pc, 4), s.core)
  {
    hide Exec, Read32;
  }
}
