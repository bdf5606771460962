/** Moving A64 instructions to a new address: src/native/hk_arm64.c. The encoders are
    expressions; the emitters that fill a word buffer return the words they write, and
    `Relocate` is the loop that writes them into the caller's buffer. */
module Relocator {
  import opened A64
  import opened Options

  const MAX_RELOC_BYTES := 24
  const MAX_BRANCH_BYTES := 16

  // ---- encoders ----

  const NOP: Word := 0xD503201F

  function EncodeB(delta: bv64): Word {
    0x14000000 | (((delta >> 2) & 0x03FFFFFF) as bv32)
  }

  function EncodeLdrLiteral64(rt: Reg, delta: bv64): Word {
    0x58000000 | ((((delta >> 2) & 0x7FFFF) as bv32) << 5) | (rt & 31)
  }

  function EncodeBr(rn: Reg): Word { 0xD61F0000 | ((rn & 31) << 5) }
  function EncodeBlr(rn: Reg): Word { 0xD63F0000 | ((rn & 31) << 5) }

  function SetImm19(w: Word, delta: bv64): Word {
    (w & !(0x7FFFF << 5)) | ((((delta >> 2) & 0x7FFFF) as bv32) << 5)
  }

  function SetImm14(w: Word, delta: bv64): Word {
    (w & !(0x3FFF << 5)) | ((((delta >> 2) & 0x3FFF) as bv32) << 5)
  }

  function BranchTarget(pc: Addr, words: bv64): Addr {
    Plus(pc, Bytes(words))
  }

  // ---- emitters ----

  // The two words of a 64-bit constant, low word first.
  function Quad(value: bv64): (code: seq<Word>)
    ensures |code| == 2
  {
    [(value & 0xFFFFFFFF) as bv32, (value >> 32) as bv32]
  }

  function JumpScratch(target: Addr): Reg {
    if (target >> 2) & 1 != 0 then X17 else X16
  }

  function AbsJump(target: Addr): (code: seq<Word>)
    ensures |code| == 4
  {
    [EncodeLdrLiteral64(JumpScratch(target), 8), EncodeBr(JumpScratch(target))] + Quad(target)
  }

  function LoadConst(rd: Reg, value: bv64): (code: seq<Word>)
    ensures |code| == 4
  {
    [EncodeLdrLiteral64(rd, 8), EncodeB(12)] + Quad(value)
  }

  function CallVia(target: Addr): (code: seq<Word>)
    ensures |code| == 5
  {
    [EncodeLdrLiteral64(X16, 12), EncodeBlr(X16), EncodeB(12)] + Quad(target)
  }

  // ---- branches ----

  /** A plain B reaches [-2^27, 2^27); the sign bit is bit 63 of the difference. */
  predicate Near(from: Addr, to: Addr) {
    var delta := Gap(from, to);
    delta >= 0xFFFFFFFFF8000000 || delta < 0x8000000
  }

  function BranchSize(from: Addr, to: Addr): nat {
    if Near(from, to) then 4 else MAX_BRANCH_BYTES
  }

  function EmitBranch(from: Addr, to: Addr): (code: seq<Word>)
    ensures 4 * |code| == BranchSize(from, to)
  {
    if BranchSize(from, to) == 4 then [EncodeB(Gap(from, to))] else AbsJump(to)
  }

  // ---- predicates on single instructions and windows ----

  predicate IsTerminator(w: Word) {
    w & 0xFFFFFC1F == 0xD65F0000 || w & 0xFFFFFC1F == 0xD61F0000 || w & 0xFC000000 == 0x14000000
  }

  predicate IsAuthenticatedTerminator(w: Word) {
    w == 0xD65F0BFF || w == 0xD65F0FFF ||
    w & 0xFFFFFC00 == 0xD71F0800 || w & 0xFFFFFC00 == 0xD71F0C00 ||
    w & 0xFFFFFC1F == 0xD61F081F || w & 0xFFFFFC1F == 0xD61F0C1F
  }

  predicate IsTrap(w: Word) {
    w & 0xFFE0001F == 0xD4200000 || w & 0xFFE0001F == 0xD4400000 || w & 0xFFFF0000 == 0
  }

  predicate HasEarlyTerminator(window: seq<Word>) {
    exists i :: 0 <= i < |window| && (IsTerminator(window[i]) || IsAuthenticatedTerminator(window[i]))
  }

  method ScanForTerminator(window: seq<Word>) returns (found: bool)
    ensures found == HasEarlyTerminator(window)
  {
    for i := 0 to |window|
      invariant !HasEarlyTerminator(window[..i])
    {
      if IsTerminator(window[i]) || IsAuthenticatedTerminator(window[i]) {
        return true;
      }
      assert window[..i + 1] == window[..i] + [window[i]];
    }
    assert window[..|window|] == window;
    return false;
  }

  // ---- relocation ----

  function LoadFromBase(opc: bv32, simd: bool): (w: Word)
    requires opc < 3
  {
    if simd then (if opc == 0 then 0xBD400000 else if opc == 1 then 0xFD400000 else 0x3DC00000)
    else (if opc == 0 then 0xB9400000 else if opc == 1 then 0xF9400000 else 0xB9800000)
  }

  // Each form below yields None when the instruction cannot be moved, in particular when
  // it branches into [lo, hi), the bytes about to be overwritten.

  function AddressTarget(page: bool, pc: Addr, imm: bv64): Addr {
    if page then (pc & !0xFFF) + (imm << 12) else pc + imm
  }

  function RelocateAddress(w: Word, pc: Addr): (code: seq<Word>)
    ensures |code| == 4
  {
    var immlo := ((w >> 29) & 3) as bv64;
    var immhi := ((w >> 5) & 0x7FFFF) as bv64;
    var imm := SignExtend(immhi << 2 | immlo, 21);
    LoadConst(w & 31, AddressTarget(w & 0x80000000 != 0, pc, imm))
  }

  function RelocateBranch(w: Word, pc: Addr, lo: Addr, hi: Addr): (code: Option<seq<Word>>)
    ensures code.Some? ==> 4 <= |code.value| <= 5
  {
    RetargetBranch(w & 0x80000000 != 0, BranchTarget(pc, SignExtend((w & 0x03FFFFFF) as bv64, 26)), lo, hi)
  }

  function RetargetBranch(link: bool, target: Addr, lo: Addr, hi: Addr): (code: Option<seq<Word>>)
    ensures code.Some? ==> 4 <= |code.value| <= 5
  {
    if target >= lo && target < hi then None else if link then Some(CallVia(target)) else Some(AbsJump(target))
  }

  // The test is kept and retargeted at a local absolute jump to the original target.
  function RelocateConditional(retargeted: Word, target: Addr, lo: Addr, hi: Addr): (code: Option<seq<Word>>)
    ensures code.Some? ==> |code.value| == 6
  {
    if target >= lo && target < hi then None
    else Some([retargeted, EncodeB(20)] + AbsJump(target))
  }

  function RelocateLiteral(w: Word, pc: Addr): (code: Option<seq<Word>>)
    ensures code.Some? ==> 1 <= |code.value| <= 5
  {
    var opc, simd := w >> 30, (w >> 26) & 1 != 0;
    var target := BranchTarget(pc, SignExtend(((w >> 5) & 0x7FFFF) as bv64, 19));
    if opc == 3 then (if simd then None else Some([NOP]))
    else Some(LoadConst(X17, target) + [LoadFromBase(opc, simd) | (X17 << 5) | (w & 31)])
  }

  function RelocateOne(w: Word, pc: Addr, lo: Addr, hi: Addr): (code: Option<seq<Word>>)
    ensures code.Some? ==> 0 < 4 * |code.value| <= MAX_RELOC_BYTES
  {
    if w & 0x1F000000 == 0x10000000 then
      Some(RelocateAddress(w, pc))
    else if w & 0x7C000000 == 0x14000000 then
      RelocateBranch(w, pc, lo, hi)
    else if w & 0xFF000010 == 0x54000000 || w & 0x7E000000 == 0x34000000 then
      RelocateConditional(SetImm19(w, 8), BranchTarget(pc, SignExtend(((w >> 5) & 0x7FFFF) as bv64, 19)), lo, hi)
    else if w & 0x7E000000 == 0x36000000 then
      RelocateConditional(SetImm14(w, 8), BranchTarget(pc, SignExtend(((w >> 5) & 0x3FFF) as bv64, 14)), lo, hi)
    else if w & 0x3B000000 == 0x18000000 then
      RelocateLiteral(w, pc)
    else
      Some([w])
  }

  /** The words for a run of instructions at `pc` with `room` bytes of buffer left; each
      instruction needs room for the longest rewrite, whatever its own turns out to be. */
  function RelocateFrom(src: seq<Word>, pc: Addr, lo: Addr, hi: Addr, room: int): Option<seq<Word>>
    decreases |src|
  {
    if src == [] then Some([])
    else if room < MAX_RELOC_BYTES then None
    else
      match RelocateOne(src[0], pc, lo, hi)
      case None => None
      case Some(code) =>
        match RelocateFrom(src[1..], Plus(pc, 4), lo, hi, room - 4 * |code|)
        case None => None
        case Some(rest) => Some(code + rest)
  }

  /** What the relocator as a whole produces for `src` at `pc`. */
  function Relocated(src: seq<Word>, pc: Addr, capacity: int): Option<seq<Word>> {
    if src == [] then None else RelocateFrom(src, pc, pc, After(pc, src), capacity)
  }

  method Relocate(src: seq<Word>, srcAddr: Addr, dst: array<Word>) returns (written: nat)
    modifies dst
    ensures var out := Relocated(src, srcAddr, 4 * dst.Length);
            if out.None? then written == 0
            else written == 4 * |out.value| && |out.value| <= dst.Length &&
                 dst[..|out.value|] == out.value &&
                 dst[|out.value|..] == old(dst[..])[|out.value|..]
  {
    hide RelocateOne;
    if |src| == 0 {
      return 0;
    }
    ghost var was := dst[..];
    var lo, hi, pc := srcAddr, After(srcAddr, src), srcAddr;
    var words: nat := 0;
    assert src[0..] == src && dst[..0] == [];
    assert forall code: seq<Word> :: dst[..0] + code == code;
    for i := 0 to |src|
      invariant words <= dst.Length
      invariant dst[words..] == was[words..]
      invariant Completes(src[i..], pc, lo, hi, dst[..words], 4 * dst.Length,
                          Relocated(src, srcAddr, 4 * dst.Length))
    {
      if 4 * words + MAX_RELOC_BYTES > 4 * dst.Length {
        return 0;
      }
      var code := RelocateOne(src[i], pc, lo, hi);
      if code.None? {
        return 0;
      }
      CompletesStep(src[i..], pc, lo, hi, dst[..words], 4 * dst.Length, Relocated(src, srcAddr, 4 * dst.Length));
      assert src[i..][1..] == src[i + 1..] && src[i..][0] == src[i];
      assert dst[words..][|code.value|..] == dst[words + |code.value|..];
      assert was[words..][|code.value|..] == was[words + |code.value|..];
      WriteAt(dst, words, code.value);
      pc, words := Plus(pc, 4), words + |code.value|;
    }
    return 4 * words;
  }

  // `whole` is what is already emitted followed by the relocation of what is left.
  ghost predicate Completes(left: seq<Word>, pc: Addr, lo: Addr, hi: Addr, done: seq<Word>, capacity: int,
                            whole: Option<seq<Word>>)
  {
    var rest := RelocateFrom(left, pc, lo, hi, capacity - 4 * |done|);
    if rest.None? then whole.None? else whole == Some(done + rest.value)
  }

  lemma CompletesStep(left: seq<Word>, pc: Addr, lo: Addr, hi: Addr, done: seq<Word>, capacity: int,
                      whole: Option<seq<Word>>)
    requires left != [] && capacity - 4 * |done| >= MAX_RELOC_BYTES
    requires RelocateOne(left[0], pc, lo, hi).Some?
    requires Completes(left, pc, lo, hi, done, capacity, whole)
    ensures Completes(left[1..], Plus(pc, 4), lo, hi, done + RelocateOne(left[0], pc, lo, hi).value, capacity, whole)
  {
    hide RelocateOne;
    var code := RelocateOne(left[0], pc, lo, hi).value;
    var rest := RelocateFrom(left[1..], Plus(pc, 4), lo, hi, capacity - 4 * |done + code|);
    if rest.Some? {
      assert done + (code + rest.value) == (done + code) + rest.value;
    }
  }

  method WriteAt(dst: array<Word>, at: nat, code: seq<Word>)
    requires at + |code| <= dst.Length
    modifies dst
    ensures dst[..at + |code|] == old(dst[..at]) + code
    ensures dst[at + |code|..] == old(dst[at + |code|..])
  {
    for i := 0 to |code|
      invariant dst[..at + i] == old(dst[..at]) + code[..i]
      invariant dst[at + i..] == old(dst[at + i..])
    {
      dst[at + i] := code[i];
    }
  }

  predicate AllMovable(src: seq<Word>, pc: Addr, lo: Addr, hi: Addr)
    decreases |src|
  {
    src == [] || (RelocateOne(src[0], pc, lo, hi).Some? && AllMovable(src[1..], Plus(pc, 4), lo, hi))
  }

  /** A run never overruns a buffer with the longest rewrite's room for each instruction, so
      only an unmovable instruction makes its relocation fail, and more room changes nothing. */
  lemma {:induction false} RoomySequence(src: seq<Word>, pc: Addr, lo: Addr, hi: Addr, room: int, more: nat)
    requires |src| * MAX_RELOC_BYTES <= room
    ensures var out := RelocateFrom(src, pc, lo, hi, room);
            && out == RelocateFrom(src, pc, lo, hi, room + more)
            && (out.Some? <==> AllMovable(src, pc, lo, hi))
            && (out.Some? ==> |src| <= |out.value| && 4 * |out.value| <= |src| * MAX_RELOC_BYTES)
    decreases |src|
  {
    hide RelocateOne;
    if src == [] {
    } else {
      var one := RelocateOne(src[0], pc, lo, hi);
      if one.Some? {
        RoomySequence(src[1..], Plus(pc, 4), lo, hi, room - 4 * |one.value|, more);
      }
    }
  }
}
