/** Relocation preserves meaning: the emitted code follows the source instruction by
    instruction, up to the scratch registers and the link value of a call. */
module Simulation {
  import opened A64
  import opened Options
  import opened Relocator
  import opened Relocation

  // ---- when two machines agree ----

  /** Equal but for the registers in `hidden` and the memory in `private`, the bytes of the
      displaced and of the emitted code. */
  ghost predicate Agree(c: Core, d: Core, hidden: set<Reg>, private: iset<Addr>) {
    && c.sp == d.sp && c.nzcv == d.nzcv && c.sys == d.sys
    && (forall r :: r !in hidden ==> X(c, r) == X(d, r))
    && (forall r :: c.v(r) == d.v(r))
    && (forall a :: a !in private ==> c.mem(a) == d.mem(a))
  }

  ghost predicate Untouched(m: Memory, n: Memory, private: iset<Addr>) {
    forall a :: a in private ==> m(a) == n(a)
  }

  ghost predicate Word4(a: Addr, private: iset<Addr>) {
    a in private && Plus(a, 1) in private && Plus(a, 2) in private && Plus(a, 3) in private
  }

  ghost predicate Covers(private: iset<Addr>, a: Addr, code: seq<Word>)
    decreases |code|
  {
    code == [] || (Word4(a, private) && Covers(private, Plus(a, 4), code[1..]))
  }

  lemma {:induction false} StaysInstalled(m: Memory, n: Memory, private: iset<Addr>, a: Addr, code: seq<Word>)
    requires Installed(m, a, code) && Covers(private, a, code) && Untouched(m, n, private)
    ensures Installed(n, a, code)
    decreases |code|
  {
    if code == [] {
    } else {
      SameWord(m, n, a) by {
        assert m(a) == n(a) && m(Plus(a, 1)) == n(Plus(a, 1)) && m(Plus(a, 2)) == n(Plus(a, 2)) && m(Plus(a, 3)) == n(Plus(a, 3));
      }
      hide Read32;
      StaysInstalled(m, n, private, Plus(a, 4), code[1..]);
    }
  }

  lemma SameWord(m: Memory, n: Memory, a: Addr)
    requires m(a) == n(a) && m(Plus(a, 1)) == n(Plus(a, 1)) && m(Plus(a, 2)) == n(Plus(a, 2)) && m(Plus(a, 3)) == n(Plus(a, 3))
    ensures Read32(m, a) == Read32(n, a)
  {
  }

  // Setting a register on both sides, or a hidden one on one side, keeps agreement.
  lemma SetBoth(c: Core, d: Core, r: Reg, value: bv64, hidden: set<Reg>, private: iset<Addr>)
    requires Agree(c, d, hidden, private)
    ensures Agree(SetX(c, r, value), SetX(d, r, value), hidden, private)
  {
  }

  lemma SetHidden(c: Core, d: Core, r: Reg, value: bv64, hidden: set<Reg>, private: iset<Addr>)
    requires Agree(c, d, hidden, private) && r in hidden
    ensures Agree(c, SetX(d, r, value), hidden, private)
  {
  }

  // ---- what is asked of the instructions that move ----

  /** What an instruction that is copied verbatim does from here: it sees neither the hidden
      registers nor the private bytes, and leaves the latter alone. */
  ghost predicate IndependentAt(isa: Isa, w: Word, c: Core, hidden: set<Reg>, private: iset<Addr>) {
    && Untouched(c.mem, Exec(isa, w, 0, c).core.mem, private)
    && forall d :: Agree(c, d, hidden, private) ==> SameEffect(isa, w, c, d, hidden, private)
  }

  ghost predicate SameEffect(isa: Isa, w: Word, c: Core, d: Core, hidden: set<Reg>, private: iset<Addr>) {
    var e, f := Exec(isa, w, 0, c), Exec(isa, w, 0, d);
    e.flow == f.flow && Agree(e.core, f.core, hidden, private) && Untouched(d.mem, f.core.mem, private)
  }

  ghost predicate Outside(a: Addr, private: iset<Addr>) {
    a !in private && Plus(a, 1) !in private && Plus(a, 2) !in private && Plus(a, 3) !in private
  }

  ghost predicate LiteralOutside(kind: LoadKind, a: Addr, private: iset<Addr>) {
    && Outside(a, private)
    && (kind.X64? || kind.D64? || kind.Q128? ==> Outside(Plus(a, 4), private))
    && (kind.Q128? ==> Outside(Plus(a, 8), private) && Outside(Plus(a, 12), private))
  }

  /** From state `s`, literals are read from memory both machines share, tests look at registers
      they share, a hinted branch, which is copied although it is relative, is not taken, and
      everything else that is copied is independent of where it is. */
  ghost predicate Movable(isa: Isa, w: Word, s: State, hidden: set<Reg>, private: iset<Addr>) {
    match Decode(w)
    case PcRelAddress(_, _, _) => true
    case Branch(_, _) => true
    case BranchCond(_, _) => true
    case HintedBranch(cond, _) => !ConditionHolds(cond, s.core.nzcv)
    case PrefetchLiteral => true
    case CompareBranch(_, _, rt, _) => rt !in hidden
    case TestBranch(_, _, rt, _) => rt !in hidden
    case LoadLiteral(kind, _, offset) => LiteralOutside(kind, Plus(s.pc, offset), private)
    case _ => IndependentAt(isa, w, s.core, hidden, private)
  }

  // ---- one instruction ----

  /** Where the emitted machine `u`, started at `t` before `code`, stands when the source has
      executed one instruction to effect `e`. A call may leave a different link value, from
      which the emitted code still continues after `code`; where the source faults, the emitted
      machine has not moved either. */
  ghost predicate Matches(e: Effect, t: State, u: State, code: seq<Word>, hidden: set<Reg>, private: iset<Addr>) {
    && Untouched(t.core.mem, u.core.mem, private)
    && match e.flow
       case Next => u.pc == After(t.pc, code) && Agree(e.core, u.core, hidden, private)
       case Jump(to) => u.pc == to && Agree(e.core, u.core, hidden, private)
       case Call(to) =>
         && u.pc == to && Agree(e.core, u.core, hidden + {LINK}, private)
         && ReturnsTo(u.core.mem, X(u.core, LINK), After(t.pc, code))
       case Fault => u == t
  }

  // For each form of instruction, what it decodes to and what it is rewritten to.

  lemma Targets(w: Word, pc: Addr)
    ensures BranchTarget(pc, SignExtend((w & 0x03FFFFFF) as bv64, 26)) == Plus(pc, Imm26(w))
    ensures BranchTarget(pc, SignExtend(((w >> 5) & 0x7FFFF) as bv64, 19)) == Plus(pc, Imm19(w))
    ensures BranchTarget(pc, SignExtend(((w >> 5) & 0x3FFF) as bv64, 14)) == Plus(pc, Imm14(w))
  {
    hide SignExtend, Plus, Bytes;
  }

  lemma AddressValue(w: Word, pc: Addr)
    ensures RelocateAddress(w, pc) == LoadConst(w & 31, PcRelative(w & 0x80000000 != 0, pc, Imm21(w)))
  {
    hide SignExtend, LoadConst, AddressTarget, PcRelative;
    SameTarget(w & 0x80000000 != 0, pc, Imm21(w));
  }

  lemma SameTarget(page: bool, pc: Addr, imm: bv64)
    ensures AddressTarget(page, pc, imm) == PcRelative(page, pc, imm)
  {
  }

  lemma AddressShape(w: Word, pc: Addr, lo: Addr, hi: Addr)
    requires w & 0x1F000000 == 0x10000000
    ensures Decode(w) == PcRelAddress(w & 0x80000000 != 0, w & 31, Imm21(w)) && w & 31 < 32
    ensures RelocateOne(w, pc, lo, hi) == Some(LoadConst(w & 31, PcRelative(w & 0x80000000 != 0, pc, Imm21(w))))
  {
    AddressValue(w, pc);
    hide SignExtend, LoadConst, RelocateAddress, PcRelative, Imm21;
  }

  predicate Within(a: Addr, lo: Addr, hi: Addr) { lo <= a < hi }

  // Where a form is refused is part of its shape.
  lemma BranchShape(w: Word, pc: Addr, lo: Addr, hi: Addr)
    requires w & 0x7C000000 == 0x14000000
    ensures RelocateOne(w, pc, lo, hi) == RetargetBranch(w & 0x80000000 != 0, Plus(pc, Imm26(w)), lo, hi)
  {
    hide RelocateOne, RelocateBranch, RetargetBranch, Plus, Imm26;
    BranchDispatch(w, pc, lo, hi);
    BranchTarget26(w, pc, lo, hi);
  }

  lemma BranchDispatch(w: Word, pc: Addr, lo: Addr, hi: Addr)
    requires w & 0x7C000000 == 0x14000000
    ensures RelocateOne(w, pc, lo, hi) == RelocateBranch(w, pc, lo, hi)
  {
    hide RelocateBranch;
  }

  lemma BranchTarget26(w: Word, pc: Addr, lo: Addr, hi: Addr)
    ensures RelocateBranch(w, pc, lo, hi) == RetargetBranch(w & 0x80000000 != 0, Plus(pc, Imm26(w)), lo, hi)
  {
    hide SignExtend, RetargetBranch, Plus, Imm26, BranchTarget;
    Targets(w, pc);
  }

  lemma BranchTo(link: bool, to: Addr, lo: Addr, hi: Addr)
    ensures RetargetBranch(link, to, lo, hi) ==
            if Within(to, lo, hi) then None else if link then Some(CallVia(to)) else Some(AbsJump(to))
  {
    hide AbsJump, CallVia;
  }

  lemma DecodedBranch(w: Word)
    requires w & 0x7C000000 == 0x14000000
    ensures Decode(w) == Branch(w & 0x80000000 != 0, Imm26(w))
  {
    hide Imm26;
  }

  lemma CondShape(w: Word, pc: Addr, lo: Addr, hi: Addr)
    requires w & 0xFF000010 == 0x54000000
    ensures RelocateOne(w, pc, lo, hi) ==
            var to := Plus(pc, Imm19(w));
            if Within(to, lo, hi) then None else Some([SetImm19(w, 8), EncodeB(20)] + AbsJump(to))
  {
    Targets(w, pc);
    hide SignExtend, AbsJump, SetImm19, EncodeB, Plus, Imm19, BranchTarget;
  }

  lemma CompareShape(w: Word, pc: Addr, lo: Addr, hi: Addr)
    requires w & 0x7E000000 == 0x34000000
    ensures RelocateOne(w, pc, lo, hi) ==
            var to := Plus(pc, Imm19(w));
            if Within(to, lo, hi) then None else Some([SetImm19(w, 8), EncodeB(20)] + AbsJump(to))
  {
    Targets(w, pc);
    hide SignExtend, AbsJump, SetImm19, EncodeB, Plus, Imm19, BranchTarget;
  }

  lemma TestShape(w: Word, pc: Addr, lo: Addr, hi: Addr)
    requires w & 0x7E000000 == 0x36000000
    ensures RelocateOne(w, pc, lo, hi) ==
            var to := Plus(pc, Imm14(w));
            if Within(to, lo, hi) then None else Some([SetImm14(w, 8), EncodeB(20)] + AbsJump(to))
  {
    Targets(w, pc);
    hide SignExtend, AbsJump, SetImm14, EncodeB, Plus, Imm14, BranchTarget;
  }

  lemma LiteralShape(w: Word, pc: Addr, lo: Addr, hi: Addr)
    requires w & 0x3B000000 == 0x18000000 && w >> 30 < 3
    ensures w & 31 < 32
    ensures Decode(w) == LoadLiteral(LiteralKind(w >> 30, (w >> 26) & 1 != 0), w & 31, Imm19(w))
    ensures RelocateOne(w, pc, lo, hi) ==
            Some(LoadConst(X17, Plus(pc, Imm19(w))) + [LoadFromBase(w >> 30, (w >> 26) & 1 != 0) | (X17 << 5) | (w & 31)])
  {
    Targets(w, pc);
    hide SignExtend, LoadConst, Plus, Imm19, BranchTarget, LoadFromBase, LiteralKind;
  }

  lemma PrefetchShape(w: Word, pc: Addr, lo: Addr, hi: Addr)
    requires w & 0x3B000000 == 0x18000000 && w >> 30 == 3 && (w >> 26) & 1 == 0
    ensures Decode(w) == PrefetchLiteral
    ensures RelocateOne(w, pc, lo, hi) == Some([NOP])
  {
    hide SignExtend, LoadConst, BranchTarget;
  }

  lemma UnallocatedShape(w: Word, pc: Addr, lo: Addr, hi: Addr)
    requires w & 0x3B000000 == 0x18000000 && w >> 30 == 3 && (w >> 26) & 1 != 0
    ensures RelocateOne(w, pc, lo, hi) == None
  {
    hide SignExtend, LoadConst, BranchTarget;
  }

  predicate PcRelativeForm(w: Word) {
    w & 0x1F000000 == 0x10000000 || w & 0x7C000000 == 0x14000000 || w & 0xFF000010 == 0x54000000 ||
    w & 0x7E000000 == 0x34000000 || w & 0x7E000000 == 0x36000000 || w & 0x3B000000 == 0x18000000
  }

  lemma VerbatimShape(w: Word, pc: Addr, lo: Addr, hi: Addr)
    requires !PcRelativeForm(w)
    ensures Verbatim(Decode(w)) || Decode(w).HintedBranch?
    ensures RelocateOne(w, pc, lo, hi) == Some([w])
  {
  }

  predicate Verbatim(i: Insn) {
    i.LoadBase? || i.BranchReg? || i.Ret? || i.AuthenticatedBranch? || i.Trap? || i.Nop? || i.Other?
  }

  lemma AddressCase(isa: Isa, w: Word, s: State, t: State, code: seq<Word>, hidden: set<Reg>, private: iset<Addr>)
    returns (k: nat)
    requires w & 0x1F000000 == 0x10000000
    requires code == LoadConst(w & 31, PcRelative(w & 0x80000000 != 0, s.pc, Imm21(w)))
    requires Decode(w) == PcRelAddress(w & 0x80000000 != 0, w & 31, Imm21(w)) && w & 31 < 32
    requires Installed(t.core.mem, t.pc, code) && Agree(s.core, t.core, hidden, private)
    ensures Matches(Exec(isa, w, s.pc, s.core), t, Steps(isa, k, t), code, hidden, private)
  {
    hide Decode, Imm21, PcRelative, LoadConst, SetX, Steps, Read32, Plus, Agree;
    var value := PcRelative(w & 0x80000000 != 0, s.pc, Imm21(w));
    assert code + [] == code;
    RunLoadConst(isa, t, w & 31, value, []);
    AfterFour(t.pc, code);
    SetBoth(s.core, t.core, w & 31, value, hidden, private);
    SetKeepsMemory(t.core, w & 31, value);
    k := 2;
  }

  lemma JumpCase(isa: Isa, w: Word, s: State, t: State, code: seq<Word>, hidden: set<Reg>, private: iset<Addr>)
    returns (k: nat)
    requires Decode(w) == Branch(false, Imm26(w)) && code == AbsJump(Plus(s.pc, Imm26(w)))
    requires Installed(t.core.mem, t.pc, code) && Agree(s.core, t.core, hidden, private)
    requires {X16, X17} <= hidden
    ensures Matches(Exec(isa, w, s.pc, s.core), t, Steps(isa, k, t), code, hidden, private)
  {
    hide Decode, Imm26, AbsJump, SetX, Steps, Read32, Plus, Agree, JumpScratch;
    var to := Plus(s.pc, Imm26(w));
    RunAbsJump(isa, t, to);
    Scratch(to);
    SetHidden(s.core, t.core, JumpScratch(to), to, hidden, private);
    SetKeepsMemory(t.core, JumpScratch(to), to);
    k := 2;
  }

  lemma CallCase(isa: Isa, w: Word, s: State, t: State, code: seq<Word>, hidden: set<Reg>, private: iset<Addr>)
    returns (k: nat)
    requires Decode(w) == Branch(true, Imm26(w)) && code == CallVia(Plus(s.pc, Imm26(w)))
    requires Installed(t.core.mem, t.pc, code) && Agree(s.core, t.core, hidden, private)
    requires {X16, X17} <= hidden
    ensures Matches(Exec(isa, w, s.pc, s.core), t, Steps(isa, k, t), code, hidden, private)
  {
    hide Decode, Imm26, CallVia, SetX, Steps, Read32, Plus, Agree, X, ReturnsTo;
    var to := Plus(s.pc, Imm26(w));
    RunCallVia(isa, t, to);
    Widen(s.core, t.core, hidden, private);
    SetHidden(s.core, t.core, X16, to, hidden + {LINK}, private);
    var t1 := SetX(t.core, X16, to);
    SetHidden(s.core, t1, LINK, Plus(t.pc, 8), hidden + {LINK}, private);
    SetKeepsMemory(t.core, X16, to);
    SetKeepsMemory(t1, LINK, Plus(t.pc, 8));
    ReadBack(t1, LINK, Plus(t.pc, 8));
    k := 2;
  }

  lemma Widen(c: Core, d: Core, hidden: set<Reg>, private: iset<Addr>)
    requires Agree(c, d, hidden, private)
    ensures Agree(c, d, hidden + {LINK}, private)
  {
  }

  /** A conditional branch whose test comes out the same on both sides. */
  lemma ConditionalCase(isa: Isa, w: Word, kept: Word, s: State, t: State, to: Addr, taken: bool, code: seq<Word>,
                        hidden: set<Reg>, private: iset<Addr>)
    returns (k: nat)
    requires Exec(isa, w, s.pc, s.core) == Effect(s.core, Taken(taken, to))
    requires Exec(isa, kept, t.pc, t.core) == Effect(t.core, Taken(taken, Plus(t.pc, 8)))
    requires code == [kept, EncodeB(20)] + AbsJump(to)
    requires Installed(t.core.mem, t.pc, code) && Agree(s.core, t.core, hidden, private)
    requires {X16, X17} <= hidden
    ensures Matches(Exec(isa, w, s.pc, s.core), t, Steps(isa, k, t), code, hidden, private)
  {
    hide Exec, AbsJump, EncodeB, SetX, Steps, Read32, Plus, Agree, JumpScratch;
    if taken {
      RunTaken(isa, t, kept, to);
      Scratch(to);
      SetHidden(s.core, t.core, JumpScratch(to), to, hidden, private);
      SetKeepsMemory(t.core, JumpScratch(to), to);
      k := 3;
    } else {
      RunNotTaken(isa, t, kept, to);
      k := 2;
    }
  }

  // A load from memory both sides share.
  lemma LoadBoth(c: Core, d: Core, kind: LoadKind, rt: Reg, a: Addr, hidden: set<Reg>, private: iset<Addr>)
    requires Agree(c, d, hidden, private) && LiteralOutside(kind, a, private)
    ensures Agree(Load(c, kind, rt, a), Load(d, kind, rt, a), hidden, private)
    ensures Load(d, kind, rt, a).mem == d.mem
  {
    hide XValue, VValue, SetX, Agree, LiteralOutside;
    SameReads(c, d, kind, a, hidden, private);
    SetVBoth(c, d, rt, VValue(c.mem, kind, a), hidden, private);
    SetBoth(c, d, rt, XValue(c.mem, kind, a), hidden, private);
    SetKeepsMemory(d, rt, XValue(c.mem, kind, a));
  }

  lemma SetVBoth(c: Core, d: Core, r: Reg, value: bv128, hidden: set<Reg>, private: iset<Addr>)
    requires Agree(c, d, hidden, private)
    ensures Agree(SetV(c, r, value), SetV(d, r, value), hidden, private)
  {
  }

  lemma SameReads(c: Core, d: Core, kind: LoadKind, a: Addr, hidden: set<Reg>, private: iset<Addr>)
    requires Agree(c, d, hidden, private) && LiteralOutside(kind, a, private)
    ensures !Simd(kind) ==> XValue(c.mem, kind, a) == XValue(d.mem, kind, a)
    ensures Simd(kind) ==> VValue(c.mem, kind, a) == VValue(d.mem, kind, a)
  {
    hide Read32, Read64, Read128, Agree, Outside, SignExtend, Plus, Join32, Join64;
    SharedWord(c, d, a, hidden, private);
    if kind.X64? || kind.D64? || kind.Q128? {
      SharedWord(c, d, Plus(a, 4), hidden, private);
      Same64(c.mem, d.mem, a);
    }
    if kind.Q128? {
      SharedWord(c, d, Plus(a, 8), hidden, private);
      SharedWord(c, d, Plus(a, 12), hidden, private);
      PlusPlus(a, 8, 4);
      Same64(c.mem, d.mem, Plus(a, 8));
      Same128(c.mem, d.mem, a);
    }
  }

  lemma Same64(m: Memory, n: Memory, a: Addr)
    requires Read32(m, a) == Read32(n, a) && Read32(m, Plus(a, 4)) == Read32(n, Plus(a, 4))
    ensures Read64(m, a) == Read64(n, a)
  {
    hide Read32, Plus, Join32;
  }

  lemma Same128(m: Memory, n: Memory, a: Addr)
    requires Read64(m, a) == Read64(n, a) && Read64(m, Plus(a, 8)) == Read64(n, Plus(a, 8))
    ensures Read128(m, a) == Read128(n, a)
  {
    hide Read64, Plus, Join64;
  }

  lemma SharedWord(c: Core, d: Core, a: Addr, hidden: set<Reg>, private: iset<Addr>)
    requires Agree(c, d, hidden, private) && Outside(a, private)
    ensures Read32(c.mem, a) == Read32(d.mem, a)
  {
    hide Read32;
    SameWord(c.mem, d.mem, a);
  }

  lemma LiteralCase(isa: Isa, e: Effect, s: State, t: State, kind: LoadKind, rt: Reg, to: Addr, load: Word,
                    code: seq<Word>, hidden: set<Reg>, private: iset<Addr>)
    returns (k: nat)
    requires e == Effect(Load(s.core, kind, rt, to), Next) && Decode(load) == LoadBase(kind, rt, X17)
    requires code == LoadConst(X17, to) + [load]
    requires LiteralOutside(kind, to, private)
    requires Installed(t.core.mem, t.pc, code) && Agree(s.core, t.core, hidden, private)
    requires {X16, X17} <= hidden
    ensures Matches(e, t, Steps(isa, k, t), code, hidden, private)
  {
    hide Decode, LoadConst, SetX, Steps, Read32, Plus, Agree, Load, LiteralOutside, Installed, After;
    RunLoad(isa, t, to, load, kind, rt);
    SetHidden(s.core, t.core, X17, to, hidden, private);
    SetKeepsMemory(t.core, X17, to);
    LoadBoth(s.core, SetX(t.core, X17, to), kind, rt, to, hidden, private);
    AfterFive(t.pc, code);
    k := 3;
  }

  lemma PrefetchCase(isa: Isa, e: Effect, s: State, t: State, hidden: set<Reg>, private: iset<Addr>) returns (k: nat)
    requires e == Effect(s.core, Next)
    requires Installed(t.core.mem, t.pc, [NOP]) && Agree(s.core, t.core, hidden, private)
    ensures Matches(e, t, Steps(isa, k, t), [NOP], hidden, private)
  {
    hide Steps, Read32, Plus, Agree, Exec, Decode, Installed, After;
    InstalledFirst(t.core.mem, t.pc, [NOP]);
    ExecNop(isa, t.pc, t.core);
    StepNext(isa, t, NOP);
    TwoSteps(isa, t);
    AfterOne(t.pc, NOP);
    k := 1;
  }

  lemma ExecNop(isa: Isa, pc: Addr, c: Core)
    ensures Exec(isa, NOP, pc, c) == Effect(c, Next)
  {
    DecodedSkips();
    hide Decode, Load, X, ConditionHolds, IsZero, BitSet, PcRelative;
  }

  lemma AfterOne(a: Addr, w: Word)
    ensures After(a, [w]) == Plus(a, 4)
  {
    assert [w][1..] == [];
  }

  lemma PcIndependent(isa: Isa, w: Word, pc: Addr, c: Core)
    requires Verbatim(Decode(w))
    ensures Exec(isa, w, pc, c) == Exec(isa, w, 0, c)
  {
    hide Decode, Load, X;
  }

  lemma VerbatimCase(isa: Isa, w: Word, s: State, t: State, hidden: set<Reg>, private: iset<Addr>) returns (k: nat)
    requires Verbatim(Decode(w)) && IndependentAt(isa, w, s.core, hidden, private)
    requires Installed(t.core.mem, t.pc, [w]) && Agree(s.core, t.core, hidden, private)
    ensures Matches(Exec(isa, w, s.pc, s.core), t, Steps(isa, k, t), [w], hidden, private)
    ensures Untouched(s.core.mem, Exec(isa, w, s.pc, s.core).core.mem, private)
  {
    hide Decode, Exec, Steps, Step, Read32, Plus, Agree, X, SetX, ReturnsTo, Untouched, Installed, After;
    InstalledFirst(t.core.mem, t.pc, [w]);
    PcIndependent(isa, w, s.pc, s.core);
    PcIndependent(isa, w, t.pc, t.core);
    assert SameEffect(isa, w, s.core, t.core, hidden, private);
    var e, f := Exec(isa, w, 0, s.core), Exec(isa, w, 0, t.core);
    TwoSteps(isa, t);
    AfterOne(t.pc, w);
    StepEffect(isa, t, w, f);
    k := 1;
    if e.flow.Fault? {
      UntouchedSelf(t.core.mem, private);
    }
    if e.flow.Call? {
      CallLeavesLink(e.core, f.core, Plus(t.pc, 4), hidden, private);
    }
  }

  lemma StepEffect(isa: Isa, t: State, w: Word, f: Effect)
    requires Read32(t.core.mem, t.pc) == w && Exec(isa, w, t.pc, t.core) == f
    ensures f.flow.Next? ==> Step(isa, t) == State(Plus(t.pc, 4), f.core)
    ensures f.flow.Jump? ==> Step(isa, t) == State(f.flow.to, f.core)
    ensures f.flow.Call? ==> Step(isa, t) == State(f.flow.to, SetX(f.core, LINK, Plus(t.pc, 4)))
    ensures f.flow.Fault? ==> Step(isa, t) == t
  {
    hide Exec, Read32, SetX;
  }

  lemma CallLeavesLink(c: Core, d: Core, link: Addr, hidden: set<Reg>, private: iset<Addr>)
    requires Agree(c, d, hidden, private)
    ensures var u := SetX(d, LINK, link);
            && u.mem == d.mem && Agree(c, u, hidden + {LINK}, private)
            && ReturnsTo(u.mem, X(u, LINK), link)
  {
    hide Agree, X, SetX, ReturnsTo;
    Widen(c, d, hidden, private);
    SetHidden(c, d, LINK, link, hidden + {LINK}, private);
    SetKeepsMemory(d, LINK, link);
    ReadBack(d, LINK, link);
    ReturnsAtOnce(d.mem, link);
  }

  lemma ReturnsAtOnce(m: Memory, a: Addr)
    ensures ReturnsTo(m, a, a)
  {
  }

  // Each form against what it was rewritten to, the pieces above put together.

  lemma AddressOne(isa: Isa, w: Word, lo: Addr, hi: Addr, s: State, t: State, code: seq<Word>,
                   hidden: set<Reg>, private: iset<Addr>)
    returns (k: nat)
    requires w & 0x1F000000 == 0x10000000
    requires RelocateOne(w, s.pc, lo, hi) == Some(code)
    requires Installed(t.core.mem, t.pc, code) && Agree(s.core, t.core, hidden, private)
    ensures Follows(isa, w, s, t, k, code, hidden, private)
  {
    AddressShape(w, s.pc, lo, hi);
    hide Decode, RelocateOne, Exec, Steps, Agree, Installed, Imm21, PcRelative, LoadConst, After, Plus, Matches;
    k := AddressCase(isa, w, s, t, code, hidden, private);
    ExecAddress(isa, w, s.pc, s.core);
  }

  lemma ExecAddress(isa: Isa, w: Word, pc: Addr, c: Core)
    requires Decode(w).PcRelAddress?
    ensures Exec(isa, w, pc, c).core.mem == c.mem
  {
    hide Decode, PcRelative;
  }

  /** The emitted machine reaches in `k` steps what the source reaches in one. */
  ghost predicate Follows(isa: Isa, w: Word, s: State, t: State, k: nat, code: seq<Word>,
                          hidden: set<Reg>, private: iset<Addr>)
  {
    var e := Exec(isa, w, s.pc, s.core);
    Untouched(s.core.mem, e.core.mem, private) && Matches(e, t, Steps(isa, k, t), code, hidden, private)
  }

  lemma BranchOne(isa: Isa, w: Word, lo: Addr, hi: Addr, s: State, t: State, code: seq<Word>,
                  hidden: set<Reg>, private: iset<Addr>)
    returns (k: nat)
    requires w & 0x7C000000 == 0x14000000
    requires RelocateOne(w, s.pc, lo, hi) == Some(code)
    requires Installed(t.core.mem, t.pc, code) && Agree(s.core, t.core, hidden, private)
    requires {X16, X17} <= hidden
    ensures Follows(isa, w, s, t, k, code, hidden, private)
  {
    hide Decode, RelocateOne, RetargetBranch, Exec, Steps, Agree, Installed, Imm26, AbsJump, CallVia, After, Plus, Matches;
    BranchShape(w, s.pc, lo, hi);
    BranchTo(w & 0x80000000 != 0, Plus(s.pc, Imm26(w)), lo, hi);
    DecodedBranch(w);
    if w & 0x80000000 != 0 {
      k := CallCase(isa, w, s, t, code, hidden, private);
    } else {
      k := JumpCase(isa, w, s, t, code, hidden, private);
    }
    ExecBranch(isa, w, s.pc, s.core);
  }

  lemma ExecBranch(isa: Isa, w: Word, pc: Addr, c: Core)
    requires Decode(w).Branch?
    ensures Exec(isa, w, pc, c).core.mem == c.mem
  {
    hide Decode, Plus;
  }

  lemma SharedRegister(c: Core, d: Core, r: Reg, hidden: set<Reg>, private: iset<Addr>)
    requires Agree(c, d, hidden, private) && r !in hidden
    ensures X(c, r) == X(d, r)
  {
  }

  lemma CondOne(isa: Isa, w: Word, lo: Addr, hi: Addr, s: State, t: State, code: seq<Word>,
                hidden: set<Reg>, private: iset<Addr>)
    returns (k: nat)
    requires w & 0xFF000010 == 0x54000000
    requires RelocateOne(w, s.pc, lo, hi) == Some(code)
    requires Installed(t.core.mem, t.pc, code) && Agree(s.core, t.core, hidden, private)
    requires {X16, X17} <= hidden
    ensures Follows(isa, w, s, t, k, code, hidden, private)
  {
    CondShape(w, s.pc, lo, hi);
    RetargetedCond(w);
    hide Decode, RelocateOne, Exec, Steps, Installed, Imm19, SetImm19, AbsJump, EncodeB, After, Plus, Matches, ConditionHolds,
      X;
    ExecCond(isa, w, s.pc, s.core);
    ExecCond(isa, SetImm19(w, 8), t.pc, t.core);
    k := ConditionalCase(isa, w, SetImm19(w, 8), s, t, Plus(s.pc, Imm19(w)), ConditionHolds(w & 15, s.core.nzcv),
                         code, hidden, private);
  }

  lemma ExecCond(isa: Isa, w: Word, pc: Addr, c: Core)
    requires Decode(w).BranchCond?
    ensures var i := Decode(w);
            Exec(isa, w, pc, c) == Effect(c, Taken(ConditionHolds(i.cond, c.nzcv), Plus(pc, i.offset)))
  {
    hide Decode, Plus, ConditionHolds;
  }

  lemma CompareOne(isa: Isa, w: Word, lo: Addr, hi: Addr, s: State, t: State, code: seq<Word>,
                   hidden: set<Reg>, private: iset<Addr>)
    returns (k: nat)
    requires w & 0x7E000000 == 0x34000000 && w & 31 !in hidden
    requires RelocateOne(w, s.pc, lo, hi) == Some(code)
    requires Installed(t.core.mem, t.pc, code) && Agree(s.core, t.core, hidden, private)
    requires {X16, X17} <= hidden
    ensures Follows(isa, w, s, t, k, code, hidden, private)
  {
    CompareShape(w, s.pc, lo, hi);
    RetargetedCompare(w);
    hide *;
    k := CompareRun(isa, w, SetImm19(w, 8), s, t, w & 0x80000000 != 0, w & 0x01000000 != 0, w & 31, Imm19(w), code,
                    hidden, private);
  }

  lemma CompareRun(isa: Isa, w: Word, kept: Word, s: State, t: State, wide: bool, nonzero: bool, rt: Reg, offset: bv64,
                   code: seq<Word>, hidden: set<Reg>, private: iset<Addr>)
    returns (k: nat)
    requires Decode(w) == CompareBranch(wide, nonzero, rt, offset)
    requires Decode(kept) == CompareBranch(wide, nonzero, rt, 8)
    requires code == [kept, EncodeB(20)] + AbsJump(Plus(s.pc, offset))
    requires Installed(t.core.mem, t.pc, code) && Agree(s.core, t.core, hidden, private)
    requires {X16, X17} <= hidden && rt !in hidden
    ensures Follows(isa, w, s, t, k, code, hidden, private)
  {
    hide Decode, Exec, Steps, Installed, AbsJump, EncodeB, After, Plus, Matches, IsZero, X, Agree;
    SharedRegister(s.core, t.core, rt, hidden, private);
    ExecCompare(isa, w, s.pc, s.core, wide, nonzero, rt, offset);
    ExecCompare(isa, kept, t.pc, t.core, wide, nonzero, rt, 8);
    k := ConditionalCase(isa, w, kept, s, t, Plus(s.pc, offset), IsZero(wide, X(s.core, rt)) != nonzero,
                         code, hidden, private);
  }

  lemma ExecCompare(isa: Isa, w: Word, pc: Addr, c: Core, wide: bool, nonzero: bool, rt: Reg, offset: bv64)
    requires Decode(w) == CompareBranch(wide, nonzero, rt, offset)
    ensures Exec(isa, w, pc, c) == Effect(c, Taken(IsZero(wide, X(c, rt)) != nonzero, Plus(pc, offset)))
  {
    hide Decode, Plus, IsZero, BitSet, X;
  }

  lemma TestOne(isa: Isa, w: Word, lo: Addr, hi: Addr, s: State, t: State, code: seq<Word>,
                hidden: set<Reg>, private: iset<Addr>)
    returns (k: nat)
    requires w & 0x7E000000 == 0x36000000 && w & 31 !in hidden
    requires RelocateOne(w, s.pc, lo, hi) == Some(code)
    requires Installed(t.core.mem, t.pc, code) && Agree(s.core, t.core, hidden, private)
    requires {X16, X17} <= hidden
    ensures Follows(isa, w, s, t, k, code, hidden, private)
  {
    TestShape(w, s.pc, lo, hi);
    RetargetedTest(w);
    hide *;
    k := TestRun(isa, w, SetImm14(w, 8), s, t, BitNumber(w), w & 0x01000000 != 0, w & 31, Imm14(w), code,
                 hidden, private);
  }

  lemma TestRun(isa: Isa, w: Word, kept: Word, s: State, t: State, bit: bv64, nonzero: bool, rt: Reg, offset: bv64,
                code: seq<Word>, hidden: set<Reg>, private: iset<Addr>)
    returns (k: nat)
    requires Decode(w) == TestBranch(bit, nonzero, rt, offset)
    requires Decode(kept) == TestBranch(bit, nonzero, rt, 8)
    requires code == [kept, EncodeB(20)] + AbsJump(Plus(s.pc, offset))
    requires Installed(t.core.mem, t.pc, code) && Agree(s.core, t.core, hidden, private)
    requires {X16, X17} <= hidden && rt !in hidden
    ensures Follows(isa, w, s, t, k, code, hidden, private)
  {
    hide Decode, Exec, Steps, Installed, AbsJump, EncodeB, After, Plus, Matches, BitSet, X, Agree;
    SharedRegister(s.core, t.core, rt, hidden, private);
    ExecTest(isa, w, s.pc, s.core, bit, nonzero, rt, offset);
    ExecTest(isa, kept, t.pc, t.core, bit, nonzero, rt, 8);
    k := ConditionalCase(isa, w, kept, s, t, Plus(s.pc, offset), BitSet(X(s.core, rt), bit) == nonzero,
                         code, hidden, private);
  }

  lemma ExecTest(isa: Isa, w: Word, pc: Addr, c: Core, bit: bv64, nonzero: bool, rt: Reg, offset: bv64)
    requires Decode(w) == TestBranch(bit, nonzero, rt, offset)
    ensures Exec(isa, w, pc, c) == Effect(c, Taken(BitSet(X(c, rt), bit) == nonzero, Plus(pc, offset)))
  {
    hide Decode, Plus, IsZero, BitSet, X;
  }

  lemma PrefetchOne(isa: Isa, w: Word, lo: Addr, hi: Addr, s: State, t: State, code: seq<Word>,
                    hidden: set<Reg>, private: iset<Addr>)
    returns (k: nat)
    requires w & 0x3B000000 == 0x18000000 && w >> 30 == 3
    requires RelocateOne(w, s.pc, lo, hi) == Some(code)
    requires Installed(t.core.mem, t.pc, code) && Agree(s.core, t.core, hidden, private)
    ensures Follows(isa, w, s, t, k, code, hidden, private)
  {
    hide RelocateOne, Exec, Steps, Agree, Installed, After, Plus, Matches, Decode;
    if (w >> 26) & 1 != 0 {
      UnallocatedShape(w, s.pc, lo, hi);
    } else {
      PrefetchShape(w, s.pc, lo, hi);
      ExecPrefetch(isa, w, s.pc, s.core);
      k := PrefetchCase(isa, Exec(isa, w, s.pc, s.core), s, t, hidden, private);
    }
  }

  lemma LiteralOne(isa: Isa, w: Word, lo: Addr, hi: Addr, s: State, t: State, code: seq<Word>,
                   hidden: set<Reg>, private: iset<Addr>)
    returns (k: nat)
    requires w & 0x3B000000 == 0x18000000 && w >> 30 < 3
    requires RelocateOne(w, s.pc, lo, hi) == Some(code)
    requires Installed(t.core.mem, t.pc, code) && Agree(s.core, t.core, hidden, private)
    requires {X16, X17} <= hidden && LiteralOutside(LiteralKind(w >> 30, (w >> 26) & 1 != 0), Plus(s.pc, Imm19(w)), private)
    ensures Follows(isa, w, s, t, k, code, hidden, private)
  {
    LiteralShape(w, s.pc, lo, hi);
    DecodedLoad(w >> 30, (w >> 26) & 1 != 0, w & 31);
    hide *;
    k := LiteralRun(isa, w, LoadFromBase(w >> 30, (w >> 26) & 1 != 0) | (X17 << 5) | (w & 31), s, t,
                    LiteralKind(w >> 30, (w >> 26) & 1 != 0), w & 31, Imm19(w), code, hidden, private);
  }

  lemma LiteralRun(isa: Isa, w: Word, load: Word, s: State, t: State, kind: LoadKind, rt: Reg, offset: bv64,
                   code: seq<Word>, hidden: set<Reg>, private: iset<Addr>)
    returns (k: nat)
    requires Decode(w) == LoadLiteral(kind, rt, offset) && Decode(load) == LoadBase(kind, rt, X17)
    requires code == LoadConst(X17, Plus(s.pc, offset)) + [load]
    requires Installed(t.core.mem, t.pc, code) && Agree(s.core, t.core, hidden, private)
    requires {X16, X17} <= hidden && LiteralOutside(kind, Plus(s.pc, offset), private)
    ensures Follows(isa, w, s, t, k, code, hidden, private)
  {
    hide Decode, Exec, Steps, Installed, LoadConst, After, Plus, Matches, Agree, Load, LiteralOutside;
    ExecLiteral(isa, w, s.pc, s.core);
    k := LiteralCase(isa, Exec(isa, w, s.pc, s.core), s, t, kind, rt, Plus(s.pc, offset), load, code, hidden, private);
  }

  lemma ExecPrefetch(isa: Isa, w: Word, pc: Addr, c: Core)
    requires Decode(w).PrefetchLiteral?
    ensures Exec(isa, w, pc, c) == Effect(c, Next)
  {
    hide Decode;
  }

  lemma ExecLiteral(isa: Isa, w: Word, pc: Addr, c: Core)
    requires Decode(w).LoadLiteral?
    ensures var i := Decode(w);
            Exec(isa, w, pc, c) == Effect(Load(c, i.kind, i.rt, Plus(pc, i.offset)), Next)
    ensures Exec(isa, w, pc, c).core.mem == c.mem
  {
    hide Decode, Plus, XValue, VValue;
  }

  lemma VerbatimOne(isa: Isa, w: Word, lo: Addr, hi: Addr, s: State, t: State, code: seq<Word>,
                    hidden: set<Reg>, private: iset<Addr>)
    returns (k: nat)
    requires !PcRelativeForm(w)
    requires RelocateOne(w, s.pc, lo, hi) == Some(code)
    requires Installed(t.core.mem, t.pc, code) && Agree(s.core, t.core, hidden, private)
    requires Movable(isa, w, s, hidden, private)
    ensures Follows(isa, w, s, t, k, code, hidden, private)
  {
    hide Decode, RelocateOne, Exec, Steps, Agree, Installed, IndependentAt, After, Plus, Matches, ConditionHolds, Movable,
      PcRelativeForm, Untouched;
    VerbatimShape(w, s.pc, lo, hi);
    MovableForms(isa, w, s, hidden, private);
    if Decode(w).HintedBranch? {
      ExecHinted(isa, w, s.pc, s.core);
      ExecHinted(isa, w, t.pc, t.core);
      SameFlags(s.core, t.core, hidden, private);
      UntouchedSelf(s.core.mem, private);
      k := CopiedCase(isa, w, s, t, hidden, private);
    } else {
      k := VerbatimCase(isa, w, s, t, hidden, private);
    }
  }

  lemma UntouchedSelf(m: Memory, private: iset<Addr>)
    ensures Untouched(m, m, private)
  {
  }

  lemma MovableForms(isa: Isa, w: Word, s: State, hidden: set<Reg>, private: iset<Addr>)
    requires Movable(isa, w, s, hidden, private)
    ensures Decode(w).HintedBranch? ==> !ConditionHolds(Decode(w).cond, s.core.nzcv)
    ensures Verbatim(Decode(w)) ==> IndependentAt(isa, w, s.core, hidden, private)
  {
    hide Decode, IndependentAt, LiteralOutside, ConditionHolds, Plus;
  }

  lemma ExecHinted(isa: Isa, w: Word, pc: Addr, c: Core)
    requires Decode(w).HintedBranch?
    ensures var i := Decode(w);
            Exec(isa, w, pc, c) == Effect(c, Taken(ConditionHolds(i.cond, c.nzcv), Plus(pc, i.offset)))
  {
    hide Decode, Plus, ConditionHolds;
  }

  lemma SameFlags(c: Core, d: Core, hidden: set<Reg>, private: iset<Addr>)
    requires Agree(c, d, hidden, private)
    ensures c.nzcv == d.nzcv
  {
  }

  // A copy that does nothing on either side.
  lemma CopiedCase(isa: Isa, w: Word, s: State, t: State, hidden: set<Reg>, private: iset<Addr>) returns (k: nat)
    requires Exec(isa, w, s.pc, s.core) == Effect(s.core, Next) && Exec(isa, w, t.pc, t.core) == Effect(t.core, Next)
    requires Installed(t.core.mem, t.pc, [w]) && Agree(s.core, t.core, hidden, private)
    ensures Matches(Exec(isa, w, s.pc, s.core), t, Steps(isa, k, t), [w], hidden, private)
  {
    hide Steps, Step, Read32, Plus, Agree, Exec, Installed, After;
    InstalledFirst(t.core.mem, t.pc, [w]);
    StepEffect(isa, t, w, Effect(t.core, Next));
    TwoSteps(isa, t);
    AfterOne(t.pc, w);
    k := 1;
  }

  /** BC.cond is a relative branch, but no form the relocator knows: it is copied as it is, even
      when it leads into the window. The copy goes where the source goes exactly if it is not
      taken, or lies where the source lies. */
  lemma HintedBranchExactly(isa: Isa, w: Word, lo: Addr, hi: Addr, s: State, t: State)
    requires w & 0xFF000010 == 0x54000010 && Read32(s.core.mem, s.pc) == w && Installed(t.core.mem, t.pc, [w])
    requires s.core.nzcv == t.core.nzcv
    ensures RelocateOne(w, s.pc, lo, hi) == Some([w])
    ensures var i, e := Decode(w), Exec(isa, w, s.pc, s.core);
            && i == HintedBranch(w & 15, Imm19(w))
            && (Step(isa, t).pc == (if e.flow.Next? then Plus(t.pc, 4) else Step(isa, s).pc) <==>
                !ConditionHolds(i.cond, s.core.nzcv) || s.pc == t.pc)
  {
    HintedShape(w, s.pc, lo, hi);
    hide Decode, RelocateOne, Exec, Installed, Plus, ConditionHolds, Read32, Step, Imm19;
    InstalledFirst(t.core.mem, t.pc, [w]);
    ExecHinted(isa, w, s.pc, s.core);
    ExecHinted(isa, w, t.pc, t.core);
    StepEffect(isa, s, w, Exec(isa, w, s.pc, s.core));
    StepEffect(isa, t, w, Exec(isa, w, t.pc, t.core));
    SamePlace(s.pc, t.pc, Imm19(w));
  }

  lemma HintedShape(w: Word, pc: Addr, lo: Addr, hi: Addr)
    requires w & 0xFF000010 == 0x54000010
    ensures Decode(w) == HintedBranch(w & 15, Imm19(w)) && RelocateOne(w, pc, lo, hi) == Some([w])
  {
    hide Imm19;
  }

  lemma SamePlace(a: Addr, b: Addr, offset: bv64)
    ensures Plus(a, offset) == Plus(b, offset) <==> a == b
  {
    Flipped(a, offset);
    Flipped(b, offset);
    hide Plus, Minus;
    MinusSum(offset, a);
    MinusSum(offset, b);
  }

  lemma Flipped(a: Addr, offset: bv64)
    ensures Plus(a, offset) == offset + a
  {
  }

  function Minus(b: Addr, a: Addr): bv64 { b - a }

  lemma MinusSum(a: Addr, d: bv64)
    ensures Minus(a + d, a) == d
  {
  }

  /** Whatever the instruction, the emitted code follows it. */
  lemma SimulateOne(isa: Isa, w: Word, lo: Addr, hi: Addr, s: State, t: State, code: seq<Word>,
                    hidden: set<Reg>, private: iset<Addr>)
    returns (k: nat)
    requires RelocateOne(w, s.pc, lo, hi) == Some(code)
    requires Installed(t.core.mem, t.pc, code) && Agree(s.core, t.core, hidden, private)
    requires {X16, X17} <= hidden && Movable(isa, w, s, hidden, private)
    ensures Follows(isa, w, s, t, k, code, hidden, private)
  {
    hide RelocateOne, Installed, Agree, Follows, Decode, LiteralOutside, IndependentAt, Imm19, Imm14, BitNumber, LiteralKind,
      Movable;
    if w & 0x1F000000 == 0x10000000 {
      k := AddressOne(isa, w, lo, hi, s, t, code, hidden, private);
    } else if w & 0x7C000000 == 0x14000000 {
      k := BranchOne(isa, w, lo, hi, s, t, code, hidden, private);
    } else if w & 0xFF000010 == 0x54000000 {
      k := CondOne(isa, w, lo, hi, s, t, code, hidden, private);
    } else if w & 0x7E000000 == 0x34000000 {
      TestedRegister(isa, w, s, hidden, private);
      k := CompareOne(isa, w, lo, hi, s, t, code, hidden, private);
    } else if w & 0x7E000000 == 0x36000000 {
      TestedRegister(isa, w, s, hidden, private);
      k := TestOne(isa, w, lo, hi, s, t, code, hidden, private);
    } else if w & 0x3B000000 == 0x18000000 {
      if w >> 30 == 3 {
        k := PrefetchOne(isa, w, lo, hi, s, t, code, hidden, private);
      } else {
        TopBits(w);
        MovableLiteral(isa, w, s, lo, hi, hidden, private);
        k := LiteralOne(isa, w, lo, hi, s, t, code, hidden, private);
      }
    } else {
      k := VerbatimOne(isa, w, lo, hi, s, t, code, hidden, private);
    }
  }

  lemma TestedRegister(isa: Isa, w: Word, s: State, hidden: set<Reg>, private: iset<Addr>)
    requires w & 0x7E000000 == 0x34000000 || w & 0x7E000000 == 0x36000000
    requires Movable(isa, w, s, hidden, private)
    ensures w & 31 !in hidden
  {
    hide Decode, LiteralOutside, IndependentAt, ConditionHolds;
    if w & 0x7E000000 == 0x34000000 {
      DecodedCompare(w);
    } else {
      DecodedTest(w);
    }
  }

  lemma MovableLiteral(isa: Isa, w: Word, s: State, lo: Addr, hi: Addr, hidden: set<Reg>, private: iset<Addr>)
    requires w & 0x3B000000 == 0x18000000 && w >> 30 < 3
    requires Movable(isa, w, s, hidden, private)
    ensures LiteralOutside(LiteralKind(w >> 30, (w >> 26) & 1 != 0), Plus(s.pc, Imm19(w)), private)
  {
    hide Decode, LiteralOutside, IndependentAt, ConditionHolds, LiteralKind, Imm19, RelocateOne;
    LiteralShape(w, s.pc, lo, hi);
  }

  lemma TopBits(w: Word)
    ensures w >> 30 == 3 || w >> 30 < 3
  {
  }

  // ---- a run of instructions ----

  datatype Exit = FellThrough | Jumped | Called | Faulted
  datatype Outcome = Outcome(exit: Exit, count: nat, state: State)

  /** The machine over at most `n` consecutive instructions, until one of them branches or faults. */
  function RunBlock(isa: Isa, n: nat, s: State): Outcome {
    if n == 0 then Outcome(FellThrough, 0, s)
    else
      match Exec(isa, Read32(s.core.mem, s.pc), s.pc, s.core).flow
      case Jump(_) => Outcome(Jumped, 1, Step(isa, s))
      case Call(_) => Outcome(Called, 1, Step(isa, s))
      case Fault => Outcome(Faulted, 0, s)
      case Next =>
        var rest := RunBlock(isa, n - 1, Step(isa, s));
        rest.(count := rest.count + 1)
  }

  lemma {:induction false} RunBlockSteps(isa: Isa, n: nat, s: State)
    ensures var r := RunBlock(isa, n, s); r.count <= n && Steps(isa, r.count, s) == r.state
    ensures RunBlock(isa, n, s).exit.FellThrough? ==> RunBlock(isa, n, s).count == n
  {
    hide Exec, Step, Read32;
    if n == 0 {
    } else {
      RunBlockSteps(isa, n - 1, Step(isa, s));
      TwoSteps(isa, s);
    }
  }

  /** Every instruction that the run from `s` comes to may be moved. */
  ghost predicate Admissible(isa: Isa, src: seq<Word>, s: State, hidden: set<Reg>, private: iset<Addr>)
    decreases |src|
  {
    src == [] ||
    (Movable(isa, src[0], s, hidden, private) &&
     (Exec(isa, src[0], s.pc, s.core).flow.Next? ==> Admissible(isa, src[1..], Step(isa, s), hidden, private)))
  }

  /** Where the emitted machine `u` stands when the source run has ended with `r`: at the same
      exit with the same state; or, after a call, with a link value from which it continues
      with the relocated remainder of the run, `out[cut..]`; or before the same faulting word. */
  ghost predicate Reached(src: seq<Word>, lo: Addr, hi: Addr, room: int, out: seq<Word>, s: State, t: State,
                          r: Outcome, u: State, cut: nat, hidden: set<Reg>, private: iset<Addr>)
  {
    && Untouched(s.core.mem, r.state.core.mem, private)
    && Untouched(t.core.mem, u.core.mem, private)
    && match r.exit
       case FellThrough =>
         && r.state.pc == After(s.pc, src) && u.pc == After(t.pc, out)
         && Agree(r.state.core, u.core, hidden, private)
       case Jumped =>
         u.pc == r.state.pc && Agree(r.state.core, u.core, hidden, private)
       case Called =>
         && u.pc == r.state.pc && Agree(r.state.core, u.core, hidden + {LINK}, private)
         && 0 < r.count <= |src| && cut <= |out|
         && X(r.state.core, LINK) == After(s.pc, src[..r.count])
         && ReturnsTo(u.core.mem, X(u.core, LINK), After(t.pc, out[..cut]))
         && RelocateFrom(src[r.count..], After(s.pc, src[..r.count]), lo, hi, room - 4 * cut) == Some(out[cut..])
       case Faulted =>
         && r.count < |src| && cut < |out| && out[cut] == src[r.count]
         && r.state.pc == After(s.pc, src[..r.count]) && u.pc == After(t.pc, out[..cut])
         && Agree(r.state.core, u.core, hidden, private)
  }

  lemma {:induction false} CoversSplit(private: iset<Addr>, a: Addr, front: seq<Word>, back: seq<Word>)
    ensures Covers(private, a, front + back) <==> Covers(private, a, front) && Covers(private, After(a, front), back)
    decreases |front|
  {
    hide Word4, Plus;
    if front == [] {
      assert front + back == back;
    } else {
      assert (front + back)[1..] == front[1..] + back;
      CoversSplit(private, Plus(a, 4), front[1..], back);
    }
  }

  lemma UntouchedTwice(m: Memory, n: Memory, o: Memory, private: iset<Addr>)
    requires Untouched(m, n, private) && Untouched(n, o, private)
    ensures Untouched(m, o, private)
  {
  }

  // How a run splits at its first instruction.
  lemma FirstRelocated(src: seq<Word>, pc: Addr, lo: Addr, hi: Addr, room: int, out: seq<Word>) returns (code: seq<Word>, rest: seq<Word>)
    requires src != [] && RelocateFrom(src, pc, lo, hi, room) == Some(out)
    ensures RelocateOne(src[0], pc, lo, hi) == Some(code) && out == code + rest
    ensures RelocateFrom(src[1..], Plus(pc, 4), lo, hi, room - 4 * |code|) == Some(rest)
  {
    hide RelocateOne, Plus;
    code := RelocateOne(src[0], pc, lo, hi).value;
    rest := RelocateFrom(src[1..], Plus(pc, 4), lo, hi, room - 4 * |code|).value;
  }

  /** Relocation preserves meaning. From related states, at the start of any instruction of the
      run and of its relocation, the emitted code ends where the source run ends. */
  lemma {:induction false} Simulate(isa: Isa, src: seq<Word>, lo: Addr, hi: Addr, room: int, out: seq<Word>,
                                    s: State, t: State, hidden: set<Reg>, private: iset<Addr>)
    returns (k: nat, cut: nat)
    requires RelocateFrom(src, s.pc, lo, hi, room) == Some(out)
    requires Installed(s.core.mem, s.pc, src) && Covers(private, s.pc, src)
    requires Installed(t.core.mem, t.pc, out) && Covers(private, t.pc, out)
    requires Agree(s.core, t.core, hidden, private) && {X16, X17} <= hidden
    requires Admissible(isa, src, s, hidden, private)
    ensures Reached(src, lo, hi, room, out, s, t, RunBlock(isa, |src|, s), Steps(isa, k, t), cut, hidden, private)
    decreases |src|
  {
    hide RelocateOne, Agree, Exec, Read32, Plus, Movable, Word4, Steps, X, ReturnsTo, Matches, Untouched, Reached, RelocateFrom,
      Step;
    cut := 0;
    if src == [] {
      k := 0;
      EmptyRun(isa, lo, hi, room, out, s, t, hidden, private);
    } else {
      var w := src[0];
      InstalledFirst(s.core.mem, s.pc, src);
      var code, rest := FirstRelocated(src, s.pc, lo, hi, room, out);
      InstalledSplit(t.core.mem, t.pc, code, rest);
      k := SimulateOne(isa, w, lo, hi, s, t, code, hidden, private);
      var e := Exec(isa, w, s.pc, s.core);
      var t1 := Steps(isa, k, t);
      if e.flow.Next? {
        Continued(isa, src, code, rest, s, t, t1, hidden, private);
        var more, cut' := Simulate(isa, src[1..], lo, hi, room - 4 * |code|, rest, Step(isa, s), t1, hidden, private);
        StepsCompose(isa, k, more, t);
        Extended(src, lo, hi, room, code, rest, s, t, Step(isa, s), t1, RunBlock(isa, |src| - 1, Step(isa, s)),
                 Steps(isa, k + more, t), cut', hidden, private);
        k, cut := k + more, |code| + cut';
      } else if e.flow.Fault? {
        FaultCopied(isa, w, lo, hi, s);
        k := 0;
        StopsHere(isa, src, lo, hi, room, out, s, t, hidden, private);
      } else {
        cut := |code|;
        assert out[..cut] == code && out[cut..] == rest;
        assert src[..1] == [w];
        Ended(isa, src, lo, hi, room, out, s, t, t1, cut, hidden, private);
      }
    }
  }

  lemma EmptyRun(isa: Isa, lo: Addr, hi: Addr, room: int, out: seq<Word>, s: State, t: State,
                 hidden: set<Reg>, private: iset<Addr>)
    requires RelocateFrom([], s.pc, lo, hi, room) == Some(out) && Agree(s.core, t.core, hidden, private)
    ensures Reached([], lo, hi, room, out, s, t, RunBlock(isa, 0, s), Steps(isa, 0, t), 0, hidden, private)
  {
    hide Agree;
  }

  // After an instruction that does not branch, both machines are at the next one.
  lemma Continued(isa: Isa, src: seq<Word>, code: seq<Word>, rest: seq<Word>, s: State, t: State, t1: State,
                  hidden: set<Reg>, private: iset<Addr>)
    requires src != [] && Installed(s.core.mem, s.pc, src) && Covers(private, s.pc, src)
    requires Installed(t.core.mem, t.pc, code + rest) && Covers(private, t.pc, code + rest)
    requires var e := Exec(isa, src[0], s.pc, s.core);
             && e.flow.Next? && Untouched(s.core.mem, e.core.mem, private)
             && Matches(e, t, t1, code, hidden, private)
    ensures var s1 := Step(isa, s);
            && s1.pc == Plus(s.pc, 4) && t1.pc == After(t.pc, code)
            && Installed(s1.core.mem, s1.pc, src[1..]) && Covers(private, s1.pc, src[1..])
            && Installed(t1.core.mem, t1.pc, rest) && Covers(private, t1.pc, rest)
            && Agree(s1.core, t1.core, hidden, private)
            && Untouched(s.core.mem, s1.core.mem, private) && Untouched(t.core.mem, t1.core.mem, private)
  {
    hide Exec, Read32, Plus, Agree, X, ReturnsTo, Untouched, Word4;
    StepEffect(isa, s, src[0], Exec(isa, src[0], s.pc, s.core));
    StaysInstalled(s.core.mem, Step(isa, s).core.mem, private, s.pc, src);
    StaysInstalled(t.core.mem, t1.core.mem, private, t.pc, code + rest);
    InstalledSplit(t1.core.mem, t.pc, code, rest);
    CoversSplit(private, t.pc, code, rest);
  }

  // A run that ends at its first instruction.
  lemma Ended(isa: Isa, src: seq<Word>, lo: Addr, hi: Addr, room: int, out: seq<Word>, s: State, t: State, t1: State,
              cut: nat, hidden: set<Reg>, private: iset<Addr>)
    requires src != [] && Read32(s.core.mem, s.pc) == src[0] && cut <= |out|
    requires var e := Exec(isa, src[0], s.pc, s.core);
             && (e.flow.Jump? || e.flow.Call?) && Untouched(s.core.mem, e.core.mem, private)
             && Matches(e, t, t1, out[..cut], hidden, private)
    requires RelocateFrom(src[1..], Plus(s.pc, 4), lo, hi, room - 4 * cut) == Some(out[cut..])
    ensures Reached(src, lo, hi, room, out, s, t, RunBlock(isa, |src|, s), t1, cut, hidden, private)
  {
    hide Exec, Read32, Plus, Agree, X, SetX, ReturnsTo, Untouched, RelocateFrom, Step;
    var e := Exec(isa, src[0], s.pc, s.core);
    StepEffect(isa, s, src[0], e);
    assert RunBlock(isa, |src|, s) == Outcome(if e.flow.Call? then Called else Jumped, 1, Step(isa, s));
    if e.flow.Call? {
      assert src[..1] == [src[0]];
      AfterOne(s.pc, src[0]);
      ReadBack(e.core, LINK, Plus(s.pc, 4));
      SetKeepsMemory(e.core, LINK, Plus(s.pc, 4));
      SetLeft(e.core, t1.core, Plus(s.pc, 4), hidden, private);
    }
  }

  lemma SetLeft(c: Core, d: Core, value: bv64, hidden: set<Reg>, private: iset<Addr>)
    requires Agree(c, d, hidden + {LINK}, private)
    ensures Agree(SetX(c, LINK, value), d, hidden + {LINK}, private)
  {
  }

  // What faults is copied as it is.
  lemma FaultCopied(isa: Isa, w: Word, lo: Addr, hi: Addr, s: State)
    requires Exec(isa, w, s.pc, s.core).flow.Fault? && RelocateOne(w, s.pc, lo, hi).Some?
    ensures RelocateOne(w, s.pc, lo, hi) == Some([w])
  {
    FaultForms(isa, w, s.pc, s.core);
    hide Exec, Plus, SignExtend, Imm21, Imm26, Imm19, Imm14, BitNumber, LiteralKind;
    if PcRelativeForm(w) {
      RelativeForms(w);
      UnallocatedShape(w, s.pc, lo, hi);
    } else {
      VerbatimShape(w, s.pc, lo, hi);
    }
  }

  lemma FaultForms(isa: Isa, w: Word, pc: Addr, c: Core)
    requires Exec(isa, w, pc, c).flow.Fault?
    ensures Decode(w).Trap? || Decode(w).Other?
  {
    hide Decode, Load, PcRelative, X, ConditionHolds, IsZero, BitSet, Plus;
  }

  lemma RelativeForms(w: Word)
    requires PcRelativeForm(w) && (Decode(w).Trap? || Decode(w).Other?)
    ensures w & 0x3B000000 == 0x18000000 && w >> 30 == 3 && (w >> 26) & 1 != 0
  {
    hide Decode, RelocateOne, PcRelative, LoadConst, Imm21, Imm26, Imm19, Imm14, BitNumber, LiteralKind, LoadFromBase;
    if w & 0x1F000000 == 0x10000000 {
      AddressShape(w, 0, 0, 0);
    } else if w & 0x7C000000 == 0x14000000 {
      DecodedBranch(w);
    } else if w & 0xFF000010 == 0x54000000 {
      DecodedCond(w);
    } else if w & 0x7E000000 == 0x34000000 {
      DecodedCompare(w);
    } else if w & 0x7E000000 == 0x36000000 {
      DecodedTest(w);
    } else if w >> 30 == 3 {
      if (w >> 26) & 1 == 0 {
        PrefetchShape(w, 0, 0, 0);
      }
    } else {
      TopBits(w);
      LiteralShape(w, 0, 0, 0);
    }
  }

  // A run whose first instruction faults.
  lemma StopsHere(isa: Isa, src: seq<Word>, lo: Addr, hi: Addr, room: int, out: seq<Word>, s: State, t: State,
                  hidden: set<Reg>, private: iset<Addr>)
    requires src != [] && out != [] && out[0] == src[0] && Read32(s.core.mem, s.pc) == src[0]
    requires Exec(isa, src[0], s.pc, s.core).flow.Fault? && Agree(s.core, t.core, hidden, private)
    ensures Reached(src, lo, hi, room, out, s, t, RunBlock(isa, |src|, s), Steps(isa, 0, t), 0, hidden, private)
  {
    hide Exec, Read32, Agree, Step;
    assert RunBlock(isa, |src|, s) == Outcome(Faulted, 0, s);
  }

  // What holds of the rest of a run from its second instruction holds of the run.
  lemma Extended(src: seq<Word>, lo: Addr, hi: Addr, room: int, code: seq<Word>, rest: seq<Word>,
                 s: State, t: State, s1: State, t1: State, r: Outcome, u: State, cut: nat,
                 hidden: set<Reg>, private: iset<Addr>)
    requires src != [] && s1.pc == Plus(s.pc, 4) && t1.pc == After(t.pc, code)
    requires Untouched(s.core.mem, s1.core.mem, private) && Untouched(t.core.mem, t1.core.mem, private)
    requires Reached(src[1..], lo, hi, room - 4 * |code|, rest, s1, t1, r, u, cut, hidden, private)
    ensures Reached(src, lo, hi, room, code + rest, s, t, r.(count := r.count + 1), u, |code| + cut, hidden, private)
  {
    hide Plus, Agree, X, ReturnsTo, Untouched, RelocateFrom, After, Installed;
    if r.exit.Faulted? {
      ExtendedFault(src, lo, hi, room, code, rest, s, t, s1, t1, r, u, cut, hidden, private);
      return;
    }
    UntouchedTwice(s.core.mem, s1.core.mem, r.state.core.mem, private);
    UntouchedTwice(t.core.mem, t1.core.mem, u.core.mem, private);
    InstalledSplit(t.core.mem, t.pc, code, rest);
    AfterFirst(s.pc, src);
    if r.exit.Called? {
      AfterFirst(s.pc, src[..r.count + 1]);
      assert src[..r.count + 1][1..] == src[1..][..r.count];
      assert src[r.count + 1..] == src[1..][r.count..];
      assert (code + rest)[..|code| + cut] == code + rest[..cut];
      assert (code + rest)[|code| + cut..] == rest[cut..];
      InstalledSplit(t.core.mem, t.pc, code, rest[..cut]);
    }
  }

  lemma ExtendedFault(src: seq<Word>, lo: Addr, hi: Addr, room: int, code: seq<Word>, rest: seq<Word>,
                      s: State, t: State, s1: State, t1: State, r: Outcome, u: State, cut: nat,
                      hidden: set<Reg>, private: iset<Addr>)
    requires src != [] && s1.pc == Plus(s.pc, 4) && t1.pc == After(t.pc, code) && r.exit.Faulted?
    requires Untouched(s.core.mem, s1.core.mem, private) && Untouched(t.core.mem, t1.core.mem, private)
    requires Reached(src[1..], lo, hi, room - 4 * |code|, rest, s1, t1, r, u, cut, hidden, private)
    ensures Reached(src, lo, hi, room, code + rest, s, t, r.(count := r.count + 1), u, |code| + cut, hidden, private)
  {
    hide Plus, Agree, X, ReturnsTo, Untouched, RelocateFrom, After, Installed;
    UntouchedTwice(s.core.mem, s1.core.mem, r.state.core.mem, private);
    UntouchedTwice(t.core.mem, t1.core.mem, u.core.mem, private);
    AfterFirst(s.pc, src[..r.count + 1]);
    assert src[..r.count + 1][1..] == src[1..][..r.count];
    assert (code + rest)[..|code| + cut] == code + rest[..cut];
    InstalledSplit(t.core.mem, t.pc, code, rest[..cut]);
  }

  lemma AfterFirst(a: Addr, code: seq<Word>)
    requires code != []
    ensures After(a, code) == After(Plus(a, 4), code[1..])
  {
  }

  /** When a called function returns to its link register on both sides, the emitted code goes
      on to follow the rest of the source run; from here on the link register may differ. */
  lemma AfterReturn(isa: Isa, src: seq<Word>, lo: Addr, hi: Addr, room: int, out: seq<Word>, s: State, t: State,
                    r: Outcome, u: State, cut: nat, c: Core, d: Core, hidden: set<Reg>, private: iset<Addr>)
    returns (k: nat, cut': nat)
    requires Reached(src, lo, hi, room, out, s, t, r, u, cut, hidden, private) && r.exit.Called?
    requires Installed(s.core.mem, s.pc, src) && Covers(private, s.pc, src)
    requires Installed(t.core.mem, t.pc, out) && Covers(private, t.pc, out)
    requires X(u.core, LINK) == After(t.pc, out[..cut]) || Covers(private, X(u.core, LINK), [NOP])
    requires Agree(c, d, hidden + {LINK}, private) && {X16, X17} <= hidden
    requires Untouched(r.state.core.mem, c.mem, private) && Untouched(u.core.mem, d.mem, private)
    requires Admissible(isa, src[r.count..], State(X(r.state.core, LINK), c), hidden + {LINK}, private)
    ensures var s' := State(X(r.state.core, LINK), c);
            var t' := State(After(t.pc, out[..cut]), d);
            && Reached(src[r.count..], lo, hi, room - 4 * cut, out[cut..], s', t', RunBlock(isa, |src| - r.count, s'),
                       Steps(isa, k, State(X(u.core, LINK), d)), cut', hidden + {LINK}, private)
  {
    hide Agree, Exec, Read32, Plus, Movable, Word4, Steps, X, Matches, Untouched, RunBlock, RelocateFrom, Installed, Covers,
      After, Admissible, EncodeB;
    var s' := State(X(r.state.core, LINK), c);
    var t' := State(After(t.pc, out[..cut]), d);
    UntouchedTwice(s.core.mem, r.state.core.mem, c.mem, private);
    UntouchedTwice(t.core.mem, u.core.mem, d.mem, private);
    StaysInstalled(s.core.mem, c.mem, private, s.pc, src);
    StaysInstalled(t.core.mem, d.mem, private, t.pc, out);
    TailInstalled(c.mem, private, s.pc, src, r.count);
    TailInstalled(d.mem, private, t.pc, out, cut);
    SameReturn(u.core.mem, d.mem, X(u.core, LINK), After(t.pc, out[..cut]), private);
    var back := Return(isa, X(u.core, LINK), After(t.pc, out[..cut]), d);
    var more, cut1 := Simulate(isa, src[r.count..], lo, hi, room - 4 * cut, out[cut..], s', t', hidden + {LINK}, private);
    StepsCompose(isa, back, more, State(X(u.core, LINK), d));
    k, cut' := back + more, cut1;
  }

  lemma TailInstalled(m: Memory, private: iset<Addr>, a: Addr, code: seq<Word>, n: nat)
    requires n <= |code| && Installed(m, a, code) && Covers(private, a, code)
    ensures Installed(m, After(a, code[..n]), code[n..]) && Covers(private, After(a, code[..n]), code[n..])
  {
    hide Installed, Covers, After;
    assert code[..n] + code[n..] == code;
    InstalledSplit(m, a, code[..n], code[n..]);
    CoversSplit(private, a, code[..n], code[n..]);
  }

  lemma SameReturn(m: Memory, n: Memory, link: Addr, resume: Addr, private: iset<Addr>)
    requires ReturnsTo(m, link, resume) && Untouched(m, n, private)
    requires link == resume || Covers(private, link, [NOP])
    ensures ReturnsTo(n, link, resume)
  {
    hide Read32, Plus, EncodeB;
    if link != resume {
      SameWordIn(m, n, link, private);
    }
  }

  lemma SameWordIn(m: Memory, n: Memory, a: Addr, private: iset<Addr>)
    requires Untouched(m, n, private) && Covers(private, a, [NOP])
    ensures Read32(m, a) == Read32(n, a)
  {
    hide Read32;
    SameWord(m, n, a) by {
      assert m(a) == n(a) && m(Plus(a, 1)) == n(Plus(a, 1)) && m(Plus(a, 2)) == n(Plus(a, 2)) && m(Plus(a, 3)) == n(Plus(a, 3));
    }
  }

  // ---- what may be moved ----

  /** A register branch or a no-op may always be moved when it reads no hidden register; this
      includes BLR, whose link value the machine supplies. */
  lemma RegisterBranchMoves(isa: Isa, w: Word, s: State, hidden: set<Reg>, private: iset<Addr>)
    requires Decode(w).Nop? || (Decode(w).BranchReg? && Decode(w).rn !in hidden)
    ensures Movable(isa, w, s, hidden, private)
  {
    hide Decode, Load, PcRelative, IsZero, BitSet, ConditionHolds, Plus;
  }

  function BaseAddress(c: Core, rn: Reg): Addr { if rn == 31 then c.sp else X(c, rn) }

  /** A load through a register may be moved wherever it reads memory both machines share. */
  lemma RegisterLoadMoves(isa: Isa, w: Word, s: State, hidden: set<Reg>, private: iset<Addr>)
    requires Decode(w).LoadBase? && Decode(w).rn !in hidden
    requires LiteralOutside(Decode(w).kind, BaseAddress(s.core, Decode(w).rn), private)
    ensures Movable(isa, w, s, hidden, private)
    ensures Exec(isa, w, s.pc, s.core) ==
            Effect(Load(s.core, Decode(w).kind, Decode(w).rt, BaseAddress(s.core, Decode(w).rn)), Next)
  {
    hide Decode, Load, LiteralOutside, Agree, X, PcRelative, IsZero, BitSet, ConditionHolds, Plus;
    var kind, rt, rn := Decode(w).kind, Decode(w).rt, Decode(w).rn;
    LoadKeepsMemory(s.core, kind, rt, BaseAddress(s.core, rn));
    forall d | Agree(s.core, d, hidden, private)
      ensures SameEffect(isa, w, s.core, d, hidden, private)
    {
      SameBase(s.core, d, rn, hidden, private);
      LoadBoth(s.core, d, kind, rt, BaseAddress(s.core, rn), hidden, private);
    }
  }

  lemma LoadKeepsMemory(c: Core, kind: LoadKind, rt: Reg, a: Addr)
    ensures Load(c, kind, rt, a).mem == c.mem
  {
    hide XValue, VValue;
  }

  lemma SameBase(c: Core, d: Core, rn: Reg, hidden: set<Reg>, private: iset<Addr>)
    requires Agree(c, d, hidden, private) && rn !in hidden
    ensures BaseAddress(c, rn) == BaseAddress(d, rn)
  {
  }

  /** Storing a shared value at a shared address keeps two machines in agreement. */
  function Stored(m: Memory, a: Addr, bytes: seq<bv8>): Memory
    decreases |bytes|
  {
    if bytes == [] then m else Stored(b => if b == a then bytes[0] else m(b), Plus(a, 1), bytes[1..])
  }

  ghost predicate StoreOutside(a: Addr, n: nat, private: iset<Addr>)
    decreases n
  {
    n == 0 || (a !in private && StoreOutside(Plus(a, 1), n - 1, private))
  }

  lemma {:induction false} StoreKeeps(m: Memory, a: Addr, bytes: seq<bv8>, private: iset<Addr>)
    requires StoreOutside(a, |bytes|, private)
    ensures Untouched(m, Stored(m, a, bytes), private)
    decreases |bytes|
  {
    if bytes != [] {
      var n: Memory := b => if b == a then bytes[0] else m(b);
      StoreKeeps(n, Plus(a, 1), bytes[1..], private);
    }
  }

  lemma {:induction false} StoreBoth(m: Memory, n: Memory, a: Addr, bytes: seq<bv8>, private: iset<Addr>)
    requires forall b :: b !in private ==> m(b) == n(b)
    ensures forall b :: b !in private ==> Stored(m, a, bytes)(b) == Stored(n, a, bytes)(b)
    decreases |bytes|
  {
    if bytes != [] {
      var m1: Memory := b => if b == a then bytes[0] else m(b);
      var n1: Memory := b => if b == a then bytes[0] else n(b);
      StoreBoth(m1, n1, Plus(a, 1), bytes[1..], private);
    }
  }

  const PUSH_FRAME: Word := 0xA9BF7BFD     // STP X29, X30, [SP, #-16]!

  function QuadBytes(v: bv64): (bytes: seq<bv8>)
    ensures |bytes| == 8
  {
    [(v & 0xFF) as bv8, ((v >> 8) & 0xFF) as bv8, ((v >> 16) & 0xFF) as bv8, ((v >> 24) & 0xFF) as bv8,
     ((v >> 32) & 0xFF) as bv8, ((v >> 40) & 0xFF) as bv8, ((v >> 48) & 0xFF) as bv8, ((v >> 56) & 0xFF) as bv8]
  }

  function Pushed(c: Core): Core {
    var sp := Plus(c.sp, 0xFFFFFFFFFFFFFFF0);
    c.(sp := sp, mem := Stored(c.mem, sp, QuadBytes(X(c, 29)) + QuadBytes(X(c, 30))))
  }

  /** The usual first instruction of a function may be moved wherever its frame is memory both
      machines share. */
  lemma PushMoves(isa: Isa, s: State, hidden: set<Reg>, private: iset<Addr>)
    requires isa(PUSH_FRAME, s.core) == Effect(Pushed(s.core), Next)
    requires forall d :: Agree(s.core, d, hidden, private) ==> isa(PUSH_FRAME, d) == Effect(Pushed(d), Next)
    requires 29 !in hidden && LINK !in hidden && StoreOutside(Plus(s.core.sp, 0xFFFFFFFFFFFFFFF0), 16, private)
    ensures Movable(isa, PUSH_FRAME, s, hidden, private)
    ensures forall pc :: Exec(isa, PUSH_FRAME, pc, s.core) == Effect(Pushed(s.core), Next)
  {
    PushIsOther();
    hide Decode, Agree, QuadBytes, X, Stored, StoreOutside, Plus;
    var sp := Plus(s.core.sp, 0xFFFFFFFFFFFFFFF0);
    StoreKeeps(s.core.mem, sp, QuadBytes(X(s.core, 29)) + QuadBytes(X(s.core, 30)), private);
    forall d | Agree(s.core, d, hidden, private)
      ensures SameEffect(isa, PUSH_FRAME, s.core, d, hidden, private)
    {
      PushBoth(s.core, d, hidden, private);
    }
  }

  lemma PushIsOther()
    ensures Decode(PUSH_FRAME) == Other
  {
  }

  lemma PushBoth(c: Core, d: Core, hidden: set<Reg>, private: iset<Addr>)
    requires Agree(c, d, hidden, private) && 29 !in hidden && LINK !in hidden
    requires StoreOutside(Plus(c.sp, 0xFFFFFFFFFFFFFFF0), 16, private)
    ensures Agree(Pushed(c), Pushed(d), hidden, private) && Untouched(d.mem, Pushed(d).mem, private)
  {
    hide QuadBytes, Stored, StoreOutside, Plus;
    SharedRegister(c, d, 29, hidden, private);
    SharedRegister(c, d, LINK, hidden, private);
    var sp, frame := Plus(c.sp, 0xFFFFFFFFFFFFFFF0), QuadBytes(X(c, 29)) + QuadBytes(X(c, 30));
    StoreBoth(c.mem, d.mem, sp, frame, private);
    StoreKeeps(d.mem, sp, frame, private);
  }

  const LOAD_FIELD: Word := 0xF9400020     // LDR X0, [X1]

  /** A prologue that pushes its frame and then loads through an argument may be moved if its frame
      and the field lie outside the private bytes and the rest may be moved from where that leads. */
  lemma PrologueMoves(isa: Isa, s: State, rest: seq<Word>, private: iset<Addr>)
    requires forall c :: isa(PUSH_FRAME, c) == Effect(Pushed(c), Next)
    requires Installed(s.core.mem, s.pc, [PUSH_FRAME, LOAD_FIELD] + rest) && Covers(private, s.pc, [PUSH_FRAME, LOAD_FIELD] + rest)
    requires StoreOutside(Plus(s.core.sp, 0xFFFFFFFFFFFFFFF0), 16, private) && LiteralOutside(X64, X(s.core, 1), private)
    requires Admissible(isa, rest, Steps(isa, 2, s), {X16, X17}, private)
    ensures Admissible(isa, [PUSH_FRAME, LOAD_FIELD] + rest, s, {X16, X17}, private)
    ensures var u := Steps(isa, 2, s);
            u.pc == Plus(Plus(s.pc, 4), 4) && Installed(u.core.mem, u.pc, rest) && Covers(private, u.pc, rest)
  {
    LoadIsBase();
    hide Decode, Exec, Pushed, StoreOutside, LiteralOutside, Plus, Installed, Movable, Covers, Admissible, Step, Read32;
    var window, tail := [PUSH_FRAME, LOAD_FIELD] + rest, [LOAD_FIELD] + rest;
    assert window[1..] == tail && tail[1..] == rest && window[0] == PUSH_FRAME && tail[0] == LOAD_FIELD;
    TwoSteps(isa, s);
    PushMoves(isa, s, {X16, X17}, private);
    PushKeeps(s.core, private);
    PushedRegister(s.core, 1);
    PlainStep(isa, s, window, private);
    var s1 := Step(isa, s);
    RegisterLoadMoves(isa, LOAD_FIELD, s1, {X16, X17}, private);
    LoadKeepsMemory(s1.core, X64, 0, BaseAddress(s1.core, 1));
    PlainStep(isa, s1, tail, private);
    AdmissibleFirst(isa, tail, s1, {X16, X17}, private);
    AdmissibleFirst(isa, window, s, {X16, X17}, private);
  }

  lemma AdmissibleFirst(isa: Isa, src: seq<Word>, s: State, hidden: set<Reg>, private: iset<Addr>)
    requires src != [] && Movable(isa, src[0], s, hidden, private) && Admissible(isa, src[1..], Step(isa, s), hidden, private)
    ensures Admissible(isa, src, s, hidden, private)
  {
    hide Movable, Step, Exec;
  }

  lemma PushKeeps(c: Core, private: iset<Addr>)
    requires StoreOutside(Plus(c.sp, 0xFFFFFFFFFFFFFFF0), 16, private)
    ensures Untouched(c.mem, Pushed(c).mem, private)
  {
    hide QuadBytes, Stored, StoreOutside, Plus, X;
    StoreKeeps(c.mem, Plus(c.sp, 0xFFFFFFFFFFFFFFF0), QuadBytes(X(c, 29)) + QuadBytes(X(c, 30)), private);
  }

  // After an instruction that goes on to the next and leaves the code alone, the code is still there.
  lemma PlainStep(isa: Isa, s: State, code: seq<Word>, private: iset<Addr>)
    requires code != [] && Installed(s.core.mem, s.pc, code) && Covers(private, s.pc, code)
    requires var e := Exec(isa, code[0], s.pc, s.core); e.flow.Next? && Untouched(s.core.mem, e.core.mem, private)
    ensures var u := Step(isa, s);
            && u == State(Plus(s.pc, 4), Exec(isa, code[0], s.pc, s.core).core)
            && Installed(u.core.mem, u.pc, code[1..]) && Covers(private, u.pc, code[1..])
  {
    hide Exec, Read32, Plus, Untouched, Word4;
    StepEffect(isa, s, code[0], Exec(isa, code[0], s.pc, s.core));
    StaysInstalled(s.core.mem, Step(isa, s).core.mem, private, s.pc, code);
  }

  lemma LoadIsBase()
    ensures Decode(LOAD_FIELD) == LoadBase(X64, 0, 1)
  {
  }

  lemma PushedRegister(c: Core, r: Reg)
    ensures X(Pushed(c), r) == X(c, r)
  {
  }
}
