/** What the tables of terminators and traps in src/native/hk_arm64.c are for: which instructions
    control never comes back from, told from what the machine does with them. */
module Endings {
  import opened A64
  import opened Relocator
  import opened Relocation
  import opened Simulation

  /** Control leaves for good, whatever the state, the place and the instructions left open. */
  ghost predicate AlwaysJumps(w: Word) {
    forall isa: Isa, pc: Addr, c: Core :: Exec(isa, w, pc, c).flow.Jump?
  }

  ghost predicate AlwaysFaults(w: Word) {
    forall isa: Isa, pc: Addr, c: Core :: Exec(isa, w, pc, c).flow.Fault?
  }

  /** A conditional branch whose test cannot fail: condition AL or NV, or the zero register
      compared with zero. */
  predicate AlwaysTaken(w: Word) {
    match Decode(w)
    case BranchCond(cond, _) => cond >= 14
    case HintedBranch(cond, _) => cond >= 14
    case CompareBranch(_, nonzero, rt, _) => rt == 31 && !nonzero
    case TestBranch(_, nonzero, rt, _) => rt == 31 && !nonzero
    case _ => false
  }

  predicate Ending(i: Insn) {
    (i.Branch? && !i.link) || (i.BranchReg? && !i.link) || i.Ret? || i.AuthenticatedBranch?
  }

  lemma EndingForms(w: Word)
    ensures IsTerminator(w) || IsAuthenticatedTerminator(w) <==> Ending(Decode(w))
  {
    hide Decode, IsTerminator, IsAuthenticatedTerminator, PcRelativeForm, Imm26;
    if w & 0x7C000000 == 0x14000000 {
      DecodedBranch(w);
      BranchEnds(w);
    } else if PcRelativeForm(w) {
      RelativeStays(w);
      RelativeUnlisted(w);
    } else {
      IndirectEnds(w);
    }
  }

  lemma BranchEnds(w: Word)
    requires w & 0x7C000000 == 0x14000000
    ensures IsTerminator(w) || IsAuthenticatedTerminator(w) <==> w & 0x80000000 == 0
  {
  }

  lemma RelativeStays(w: Word)
    requires PcRelativeForm(w) && w & 0x7C000000 != 0x14000000
    ensures !Ending(Decode(w))
  {
    hide Decode, RelocateOne, PcRelative, LoadConst, Imm21, Imm19, Imm14, BitNumber, LiteralKind, LoadFromBase;
    if w & 0x1F000000 == 0x10000000 {
      AddressShape(w, 0, 0, 0);
    } else if w & 0xFF000010 == 0x54000000 {
      DecodedCond(w);
    } else if w & 0x7E000000 == 0x34000000 {
      DecodedCompare(w);
    } else if w & 0x7E000000 == 0x36000000 {
      DecodedTest(w);
    } else {
      DecodedLiteral(w);
    }
  }

  lemma DecodedLiteral(w: Word)
    requires w & 0x3B000000 == 0x18000000
    ensures Decode(w).LoadLiteral? || Decode(w).PrefetchLiteral? || Decode(w).Other?
  {
    hide Imm21, Imm26, Imm19, Imm14, BitNumber, LiteralKind;
  }

  lemma RelativeUnlisted(w: Word)
    requires PcRelativeForm(w) && w & 0x7C000000 != 0x14000000
    ensures !IsTerminator(w) && !IsAuthenticatedTerminator(w)
  {
  }

  lemma IndirectEnds(w: Word)
    requires !PcRelativeForm(w)
    ensures IsTerminator(w) || IsAuthenticatedTerminator(w) <==> Ending(Decode(w))
  {
    hide Decode, IsTerminator, IsAuthenticatedTerminator, PcRelativeForm;
    if IsTerminator(w) {
      TerminatorEnds(w);
    } else if IsAuthenticatedTerminator(w) {
      AuthenticatedEnds(w);
    } else {
      UnlistedStays(w);
    }
  }

  lemma TerminatorEnds(w: Word)
    requires IsTerminator(w) && !PcRelativeForm(w)
    ensures Ending(Decode(w))
  {
  }

  lemma AuthenticatedEnds(w: Word)
    requires IsAuthenticatedTerminator(w)
    ensures Ending(Decode(w))
  {
    hide Imm21, Imm26, Imm19, Imm14, BitNumber, LiteralKind;
  }

  lemma UnlistedStays(w: Word)
    requires !IsTerminator(w) && !IsAuthenticatedTerminator(w) && !PcRelativeForm(w)
    ensures !Ending(Decode(w))
  {
    hide Imm21, Imm26, Imm19, Imm14, BitNumber, LiteralKind;
  }

  lemma TrapForms(w: Word)
    ensures IsTrap(w) <==> Decode(w).Trap?
  {
    hide Imm21, Imm26, Imm19, Imm14, BitNumber, LiteralKind;
  }

  /** The operands of the conditional forms are in range. */
  predicate InRange(i: Insn) {
    && (i.BranchCond? ==> i.cond < 16) && (i.HintedBranch? ==> i.cond < 16)
    && (i.CompareBranch? ==> i.rt < 32)
    && (i.TestBranch? ==> i.rt < 32 && i.bit < 64)
  }

  lemma Operands(w: Word)
    ensures InRange(Decode(w))
  {
    FieldsFit(w);
    hide Imm21, Imm26, Imm19, Imm14, BitNumber, LiteralKind;
  }

  lemma FieldsFit(w: Word)
    ensures w & 15 < 16 && w & 31 < 32 && BitNumber(w) < 64
  {
  }

  // ---- a state from which a test fails ----

  function Uniform(value: bv64, nzcv: bv32): Core {
    Core(_ => value, 0, nzcv, _ => 0, [], _ => 0)
  }

  /** Flags under which a condition does not hold. */
  function Against(cond: bv32): bv32 {
    if cond == 1 || cond == 12 then 4 else if cond == 3 || cond == 9 then 2 else if cond == 5 || cond == 10 then 8
    else if cond == 7 then 1 else 0
  }

  lemma ConditionFails(cond: bv32)
    requires cond < 14
    ensures !ConditionHolds(cond, Against(cond))
  {
  }

  lemma ConditionAlways(cond: bv32, nzcv: bv32)
    requires 14 <= cond < 16
    ensures ConditionHolds(cond, nzcv)
  {
  }

  lemma OneIsNotZero(wide: bool)
    ensures !IsZero(wide, 1) && IsZero(wide, 0)
  {
  }

  lemma EveryBitSet(bit: bv64)
    requires bit < 64
    ensures BitSet(0xFFFFFFFFFFFFFFFF, bit)
  {
  }

  lemma NoBitSet(bit: bv64)
    ensures !BitSet(0, bit)
  {
  }

  function GoesOn(): Isa { (w, c) => Effect(c, Next) }

  /** A core that goes past an instruction which is not an ending. */
  lemma Passes(i: Insn, w: Word) returns (c: Core)
    requires InRange(i) && !Ending(i)
    requires i.BranchCond? || i.HintedBranch? ==> i.cond < 14
    requires i.CompareBranch? || i.TestBranch? ==> i.rt != 31 || i.nonzero
    ensures !Execute(GoesOn(), i, w, 0, c).flow.Jump?
  {
    hide ConditionHolds, IsZero, BitSet, Load, PcRelative, Plus;
    c := Uniform(0, 0);
    match i
    case BranchCond(cond, _) => c := Uniform(0, Against(cond)); ConditionFails(cond);
    case HintedBranch(cond, _) => c := Uniform(0, Against(cond)); ConditionFails(cond);
    case CompareBranch(wide, nonzero, rt, _) =>
      c := Uniform(if nonzero then 0 else 1, 0);
      OneIsNotZero(wide);
    case TestBranch(bit, nonzero, rt, _) =>
      c := Uniform(if nonzero then 0 else 0xFFFFFFFFFFFFFFFF, 0);
      EveryBitSet(bit);
      NoBitSet(bit);
    case _ =>
  }

  lemma EndingJumps(isa: Isa, i: Insn, w: Word, pc: Addr, c: Core)
    requires Ending(i)
    ensures Execute(isa, i, w, pc, c).flow.Jump?
  {
    hide ConditionHolds, IsZero, BitSet, Load, PcRelative, Plus;
  }

  lemma TakenJumps(isa: Isa, w: Word, pc: Addr, c: Core)
    requires AlwaysTaken(w)
    ensures Exec(isa, w, pc, c).flow.Jump?
  {
    Operands(w);
    hide Decode, ConditionHolds, IsZero, BitSet, Load, PcRelative, Plus;
    var i := Decode(w);
    if i.BranchCond? || i.HintedBranch? {
      ConditionAlways(i.cond, c.nzcv);
    } else if i.CompareBranch? {
      OneIsNotZero(i.wide);
    } else {
      NoBitSet(i.bit);
    }
  }

  /** The tables list exactly the instructions control never comes back from, but for the
      conditional branches that are always taken, which they do not list. */
  lemma TerminatorExactly(w: Word)
    ensures AlwaysJumps(w) <==> IsTerminator(w) || IsAuthenticatedTerminator(w) || AlwaysTaken(w)
    ensures AlwaysTaken(w) ==> !IsTerminator(w) && !IsAuthenticatedTerminator(w)
  {
    hide Decode, IsTerminator, IsAuthenticatedTerminator, Execute, Plus;
    EndingForms(w);
    Operands(w);
    var i := Decode(w);
    if Ending(i) {
      forall isa: Isa, pc: Addr, c: Core
        ensures Exec(isa, w, pc, c).flow.Jump?
      {
        EndingJumps(isa, i, w, pc, c);
      }
    } else if AlwaysTaken(w) {
      forall isa: Isa, pc: Addr, c: Core
        ensures Exec(isa, w, pc, c).flow.Jump?
      {
        TakenJumps(isa, w, pc, c);
      }
    } else {
      var c := Passes(i, w);
      assert !Exec(GoesOn(), w, 0, c).flow.Jump?;
    }
  }

  /** The traps are exactly the instructions that fault from everywhere. */
  lemma TrapExactly(w: Word)
    ensures IsTrap(w) <==> AlwaysFaults(w)
  {
    hide Decode, IsTrap, Execute, Plus;
    TrapForms(w);
    if Decode(w).Trap? {
      forall isa: Isa, pc: Addr, c: Core
        ensures Exec(isa, w, pc, c).flow.Fault?
      {
        TrapFaults(isa, w, pc, c);
      }
    } else {
      OthersGoOn(w);
      assert !Exec(GoesOn(), w, 0, Uniform(0, 0)).flow.Fault?;
    }
  }

  lemma TrapFaults(isa: Isa, w: Word, pc: Addr, c: Core)
    requires Decode(w).Trap?
    ensures Exec(isa, w, pc, c) == Effect(c, Fault)
  {
    hide Decode, ConditionHolds, IsZero, BitSet, Load, PcRelative, Plus;
  }

  lemma OthersGoOn(w: Word)
    requires !Decode(w).Trap?
    ensures !Exec(GoesOn(), w, 0, Uniform(0, 0)).flow.Fault?
  {
    hide Decode, ConditionHolds, IsZero, BitSet, Load, PcRelative, Plus;
  }

  /** A scan finds exactly the windows with an instruction control never comes back from, other
      than a conditional branch that is always taken. */
  lemma ScannedExactly(window: seq<Word>)
    ensures HasEarlyTerminator(window) <==>
            exists i :: 0 <= i < |window| && AlwaysJumps(window[i]) && !AlwaysTaken(window[i])
  {
    hide AlwaysJumps, AlwaysTaken, IsTerminator, IsAuthenticatedTerminator;
    forall i | 0 <= i < |window|
      ensures AlwaysJumps(window[i]) && !AlwaysTaken(window[i]) <==>
              IsTerminator(window[i]) || IsAuthenticatedTerminator(window[i])
    {
      TerminatorExactly(window[i]);
    }
  }

  /** Witness: b.al is always taken and not found. */
  lemma AlwaysTakenMissed()
    ensures AlwaysTaken(0x5400004E) && AlwaysJumps(0x5400004E) && !HasEarlyTerminator([0x5400004E])
  {
    TerminatorExactly(0x5400004E);
    hide Imm19;
  }
}
