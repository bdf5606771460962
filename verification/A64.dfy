/** The part of the A64 instruction set that a prologue relocator has to understand:
    the PC-relative forms it rewrites and the forms it emits. Encodings and meanings
    follow the Arm Architecture Reference Manual (DDI 0487), sections C4.1 and C6.2.
    Every other instruction is handed to `Isa`, an arbitrary transformer of the state
    that is not given the program counter. */
module A64 {
  type Word = bv32
  type Addr = bv64
  type Reg = bv32        // 0..30, and 31 for the zero register

  const X16: Reg := 16
  const X17: Reg := 17
  const LINK: Reg := 30

  type Memory = Addr -> bv8

  function Plus(a: Addr, offset: bv64): Addr { a + offset }

  function Gap(from: Addr, to: Addr): bv64 { to - from }
  function AlignDown(d: bv64): bv64 { d & !3 }
  predicate Aligned(d: bv64) { d & 3 == 0 }

  lemma PlusSum(a: Addr, i: bv64, j: bv64)
    ensures Plus(a + i, j) == Plus(a, i + j)
  {
  }

  lemma PlusPlus(a: Addr, i: bv64, j: bv64)
    ensures Plus(Plus(a, i), j) == Plus(a, i + j)
  {
    assert Plus(a, i) == a + i;
    hide Plus;
    PlusSum(a, i, j);
  }

  /** Everything but the program counter; `sys` is whatever else an instruction may depend on. */
  datatype Core = Core(x: Reg -> bv64, sp: bv64, nzcv: bv32, v: Reg -> bv128, sys: seq<bv64>, mem: Memory)

  // A fault is an exception taken instead of the instruction; what handles it is left open.
  datatype Flow = Next | Jump(to: Addr) | Call(to: Addr) | Fault
  datatype Effect = Effect(core: Core, flow: Flow)
  datatype State = State(pc: Addr, core: Core)

  /** The meaning of the instructions outside this model. */
  type Isa = (Word, Core) -> Effect

  // ---- registers and memory ----

  function X(c: Core, r: Reg): bv64 {
    if r == 31 then 0 else c.x(r)
  }

  function SetX(c: Core, r: Reg, value: bv64): Core {
    if r == 31 then c else c.(x := q => if q == r then value else c.x(q))
  }

  function SetV(c: Core, r: Reg, value: bv128): Core {
    c.(v := q => if q == r then value else c.v(q))
  }

  // Little-endian reads.
  function Read32(m: Memory, a: Addr): bv32 {
    (m(a) as bv32) | ((m(Plus(a, 1)) as bv32) << 8) |
    ((m(Plus(a, 2)) as bv32) << 16) | ((m(Plus(a, 3)) as bv32) << 24)
  }

  function Join32(low: bv32, high: bv32): bv64 { (low as bv64) | ((high as bv64) << 32) }
  function Join64(low: bv64, high: bv64): bv128 { (low as bv128) | ((high as bv128) << 64) }

  function Read64(m: Memory, a: Addr): bv64 { Join32(Read32(m, a), Read32(m, Plus(a, 4))) }
  function Read128(m: Memory, a: Addr): bv128 { Join64(Read64(m, a), Read64(m, Plus(a, 8))) }

  // ---- decoding ----

  datatype LoadKind = W32 | X64 | Signed32 | S32 | D64 | Q128

  datatype Insn =
    | PcRelAddress(page: bool, rd: Reg, imm: bv64)
    | Branch(link: bool, offset: bv64)
    | BranchCond(cond: bv32, offset: bv64)
    | HintedBranch(cond: bv32, offset: bv64)        // BC.cond
    | CompareBranch(wide: bool, nonzero: bool, rt: Reg, offset: bv64)
    | TestBranch(bit: bv64, nonzero: bool, rt: Reg, offset: bv64)
    | LoadLiteral(kind: LoadKind, rt: Reg, offset: bv64)
    | PrefetchLiteral
    | LoadBase(kind: LoadKind, rt: Reg, rn: Reg)    // unsigned-offset form, offset 0
    | BranchReg(link: bool, rn: Reg)
    | Ret(rn: Reg)
    | AuthenticatedBranch(rn: Reg)                  // BRAA, BRAB, their Z forms, RETAA and RETAB
    | Trap                                          // BRK, HLT and UDF
    | Nop
    | Other

  /** The two's complement reading of the low `bits` of `value`, as sign_extend computes it. */
  function SignExtend(value: bv64, bits: bv64): bv64
    requires 0 < bits <= 64
  {
    var mask: bv64 := if bits >= 64 then !0 else (1 << bits) - 1;
    var v := value & mask;
    var sign: bv64 := 1 << (bits - 1);
    var magnitude := (v ^ sign) - sign;
    if magnitude & sign != 0 then magnitude | !mask else magnitude & mask
  }

  // Immediates: word offsets scaled to bytes, and the byte or page offset of ADR and ADRP.
  function Bytes(words: bv64): bv64 { words * 4 }
  function Imm26(w: Word): bv64 { Bytes(SignExtend((w & 0x03FFFFFF) as bv64, 26)) }
  function Imm19(w: Word): bv64 { Bytes(SignExtend(((w >> 5) & 0x7FFFF) as bv64, 19)) }
  function Imm14(w: Word): bv64 { Bytes(SignExtend(((w >> 5) & 0x3FFF) as bv64, 14)) }
  function Imm21(w: Word): bv64 {
    SignExtend((((w >> 5) & 0x7FFFF) as bv64) << 2 | (((w >> 29) & 3) as bv64), 21)
  }

  // The bit TBZ and TBNZ look at: b5:b40.
  function BitNumber(w: Word): bv64 { (((w >> 31) << 5) | ((w >> 19) & 31)) as bv64 }

  function LiteralKind(opc: bv32, simd: bool): (kind: LoadKind)
    requires opc < 3
  {
    if simd then (if opc == 0 then S32 else if opc == 1 then D64 else Q128)
    else (if opc == 0 then W32 else if opc == 1 then X64 else Signed32)
  }

  function Decode(w: Word): Insn {
    if w & 0x1F000000 == 0x10000000 then
      PcRelAddress(w & 0x80000000 != 0, w & 31, Imm21(w))
    else if w & 0x7C000000 == 0x14000000 then
      Branch(w & 0x80000000 != 0, Imm26(w))
    else if w & 0xFF000010 == 0x54000000 then
      BranchCond(w & 15, Imm19(w))
    else if w & 0xFF000010 == 0x54000010 then
      HintedBranch(w & 15, Imm19(w))
    else if w & 0x7E000000 == 0x34000000 then
      CompareBranch(w & 0x80000000 != 0, w & 0x01000000 != 0, w & 31, Imm19(w))
    else if w & 0x7E000000 == 0x36000000 then
      TestBranch(BitNumber(w), w & 0x01000000 != 0, w & 31, Imm14(w))
    else if w & 0x3B000000 == 0x18000000 then
      if w >> 30 == 3 then
        if (w >> 26) & 1 != 0 then Other else PrefetchLiteral      // the former is unallocated
      else
        LoadLiteral(LiteralKind(w >> 30, (w >> 26) & 1 != 0), w & 31, Imm19(w))
    else if w & 0xFFFFFC1F == 0xD61F0000 then BranchReg(false, (w >> 5) & 31)
    else if w & 0xFFFFFC1F == 0xD63F0000 then BranchReg(true, (w >> 5) & 31)
    else if w & 0xFFFFFC1F == 0xD65F0000 then Ret((w >> 5) & 31)
    else if w == 0xD65F0BFF || w == 0xD65F0FFF then AuthenticatedBranch(LINK)
    else if w & 0xFFFFFC00 == 0xD71F0800 || w & 0xFFFFFC00 == 0xD71F0C00 then AuthenticatedBranch((w >> 5) & 31)
    else if w & 0xFFFFFC1F == 0xD61F081F || w & 0xFFFFFC1F == 0xD61F0C1F then AuthenticatedBranch((w >> 5) & 31)
    else if w >> 21 == 0x6A1 && w & 31 == 0 then Trap               // BRK
    else if w >> 21 == 0x6A2 && w & 31 == 0 then Trap               // HLT
    else if w >> 16 == 0 then Trap                                  // UDF
    else if w & 0xFFFFFC00 == 0xB9400000 then LoadBase(W32, w & 31, (w >> 5) & 31)
    else if w & 0xFFFFFC00 == 0xF9400000 then LoadBase(X64, w & 31, (w >> 5) & 31)
    else if w & 0xFFFFFC00 == 0xB9800000 then LoadBase(Signed32, w & 31, (w >> 5) & 31)
    else if w & 0xFFFFFC00 == 0xBD400000 then LoadBase(S32, w & 31, (w >> 5) & 31)
    else if w & 0xFFFFFC00 == 0xFD400000 then LoadBase(D64, w & 31, (w >> 5) & 31)
    else if w & 0xFFFFFC00 == 0x3DC00000 then LoadBase(Q128, w & 31, (w >> 5) & 31)
    else if w == 0xD503201F then Nop
    else Other
  }

  // ---- execution ----

  function ConditionHolds(cond: bv32, nzcv: bv32): bool {
    var n, z, c, v := nzcv & 8 != 0, nzcv & 4 != 0, nzcv & 2 != 0, nzcv & 1 != 0;
    var base :=
      if cond >> 1 == 0 then z
      else if cond >> 1 == 1 then c
      else if cond >> 1 == 2 then n
      else if cond >> 1 == 3 then v
      else if cond >> 1 == 4 then c && !z
      else if cond >> 1 == 5 then n == v
      else if cond >> 1 == 6 then n == v && !z
      else true;
    if cond & 1 == 1 && cond != 15 then !base else base
  }

  predicate Simd(kind: LoadKind) { kind.S32? || kind.D64? || kind.Q128? }

  function XValue(m: Memory, kind: LoadKind, a: Addr): bv64 {
    if kind.X64? then Read64(m, a)
    else if kind.Signed32? then SignExtend(Join32(Read32(m, a), 0), 32)
    else Join32(Read32(m, a), 0)
  }

  function VValue(m: Memory, kind: LoadKind, a: Addr): bv128 {
    if kind.Q128? then Read128(m, a) else if kind.D64? then Join64(Read64(m, a), 0) else Join64(Join32(Read32(m, a), 0), 0)
  }

  function Load(c: Core, kind: LoadKind, rt: Reg, a: Addr): Core {
    if Simd(kind) then SetV(c, rt, VValue(c.mem, kind, a)) else SetX(c, rt, XValue(c.mem, kind, a))
  }

  function PcRelative(page: bool, pc: Addr, imm: bv64): Addr {
    if page then (pc & !0xFFF) + (imm << 12) else pc + imm
  }

  function IsZero(wide: bool, value: bv64): bool {
    if wide then value == 0 else value & 0xFFFFFFFF == 0
  }

  function BitSet(value: bv64, bit: bv64): bool {
    bit < 64 && (value >> bit) & 1 != 0
  }

  function Taken(test: bool, to: Addr): Flow {
    if test then Jump(to) else Next
  }

  // Where an authenticated pointer leads is up to the machine's keys.
  function Authenticated(answer: Flow, pointer: Addr): Addr {
    if answer.Jump? then answer.to else pointer
  }

  function Execute(isa: Isa, insn: Insn, w: Word, pc: Addr, c: Core): Effect {
    match insn
    case PcRelAddress(page, rd, imm) => Effect(SetX(c, rd, PcRelative(page, pc, imm)), Next)
    case Branch(link, offset) => Effect(c, if link then Call(Plus(pc, offset)) else Jump(Plus(pc, offset)))
    case BranchCond(cond, offset) => Effect(c, Taken(ConditionHolds(cond, c.nzcv), Plus(pc, offset)))
    case HintedBranch(cond, offset) => Effect(c, Taken(ConditionHolds(cond, c.nzcv), Plus(pc, offset)))
    case CompareBranch(wide, nonzero, rt, offset) =>
      Effect(c, Taken(IsZero(wide, X(c, rt)) != nonzero, Plus(pc, offset)))
    case TestBranch(bit, nonzero, rt, offset) =>
      Effect(c, Taken(BitSet(X(c, rt), bit) == nonzero, Plus(pc, offset)))
    case LoadLiteral(kind, rt, offset) => Effect(Load(c, kind, rt, Plus(pc, offset)), Next)
    case PrefetchLiteral => Effect(c, Next)
    case LoadBase(kind, rt, rn) => Effect(Load(c, kind, rt, if rn == 31 then c.sp else X(c, rn)), Next)
    case BranchReg(link, rn) => Effect(c, if link then Call(X(c, rn)) else Jump(X(c, rn)))
    case Ret(rn) => Effect(c, Jump(X(c, rn)))
    case AuthenticatedBranch(rn) => Effect(c, Jump(Authenticated(isa(w, c).flow, X(c, rn))))
    case Trap => Effect(c, Fault)
    case Nop => Effect(c, Next)
    case Other => isa(w, c)
  }

  function Exec(isa: Isa, w: Word, pc: Addr, c: Core): Effect {
    Execute(isa, Decode(w), w, pc, c)
  }

  /** One instruction; a call leaves the address of the following one in the link register, and
      a machine that faults stays where it is. */
  function Step(isa: Isa, s: State): State {
    var e := Exec(isa, Read32(s.core.mem, s.pc), s.pc, s.core);
    match e.flow
    case Next => State(Plus(s.pc, 4), e.core)
    case Jump(to) => State(to, e.core)
    case Call(to) => State(to, SetX(e.core, LINK, Plus(s.pc, 4)))
    case Fault => s
  }

  function Steps(isa: Isa, n: nat, s: State): State {
    if n == 0 then s else Steps(isa, n - 1, Step(isa, s))
  }

  lemma {:induction false} StepsCompose(isa: Isa, m: nat, n: nat, s: State)
    ensures Steps(isa, m + n, s) == Steps(isa, n, Steps(isa, m, s))
  {
    hide Step;
    if m == 0 {
    } else {
      StepsCompose(isa, m - 1, n, Step(isa, s));
    }
  }

  // ---- code in memory ----

  /** The address after `code` when it is laid out from `a`. */
  function After(a: Addr, code: seq<Word>): Addr
    decreases |code|
  {
    if code == [] then a else After(Plus(a, 4), code[1..])
  }

  predicate Installed(m: Memory, a: Addr, code: seq<Word>)
    decreases |code|
  {
    code == [] || (Read32(m, a) == code[0] && Installed(m, Plus(a, 4), code[1..]))
  }

  lemma {:induction false} InstalledSplit(m: Memory, a: Addr, front: seq<Word>, back: seq<Word>)
    ensures After(a, front + back) == After(After(a, front), back)
    ensures Installed(m, a, front + back) <==> Installed(m, a, front) && Installed(m, After(a, front), back)
    decreases |front|
  {
    if front == [] {
      assert front + back == back;
    } else {
      assert (front + back)[1..] == front[1..] + back;
      InstalledSplit(m, Plus(a, 4), front[1..], back);
    }
  }
}
