/** Storing code words into memory, and what that leaves alone. */
module CodeWriting {
  import opened A64
  import opened Relocator
  import opened Simulation

  // The four bytes of a word, lowest first.
  function Byte0(w: Word): bv8 { (w & 0xFF) as bv8 }
  function Byte1(w: Word): bv8 { ((w >> 8) & 0xFF) as bv8 }
  function Byte2(w: Word): bv8 { ((w >> 16) & 0xFF) as bv8 }
  function Byte3(w: Word): bv8 { ((w >> 24) & 0xFF) as bv8 }

  function WriteWord(m: Memory, a: Addr, w: Word): Memory {
    var a1, a2, a3 := Plus(a, 1), Plus(a, 2), Plus(a, 3);
    b => if b == a then Byte0(w) else if b == a1 then Byte1(w) else if b == a2 then Byte2(w)
         else if b == a3 then Byte3(w) else m(b)
  }

  function WriteCode(m: Memory, a: Addr, code: seq<Word>): Memory
    decreases |code|
  {
    if code == [] then m else WriteWord(WriteCode(m, Plus(a, 4), code[1..]), a, code[0])
  }

  predicate InWord(a: Addr, b: Addr) {
    b == a || b == Plus(a, 1) || b == Plus(a, 2) || b == Plus(a, 3)
  }

  /** `b` is one of the bytes of `code` laid out from `a`. */
  predicate InCode(a: Addr, code: seq<Word>, b: Addr)
    decreases |code|
  {
    code != [] && (InWord(a, b) || InCode(Plus(a, 4), code[1..], b))
  }

  lemma BytesBack(w: Word)
    ensures (Byte0(w) as bv32) | ((Byte1(w) as bv32) << 8) | ((Byte2(w) as bv32) << 16) | ((Byte3(w) as bv32) << 24) == w
  {
  }

  lemma FourBytes(a: Addr)
    ensures Plus(a, 1) != a && Plus(a, 2) != a && Plus(a, 3) != a
    ensures Plus(a, 2) != Plus(a, 1) && Plus(a, 3) != Plus(a, 1) && Plus(a, 3) != Plus(a, 2)
  {
  }

  lemma WordReads(m: Memory, a: Addr, w: Word)
    ensures Read32(WriteWord(m, a, w), a) == w
  {
    FourBytes(a);
    BytesBack(w);
    hide Plus;
  }

  lemma WordElsewhere(m: Memory, a: Addr, w: Word, b: Addr)
    requires !InWord(a, b)
    ensures WriteWord(m, a, w)(b) == m(b)
  {
    hide Plus;
  }

  lemma {:induction false} CodeElsewhere(m: Memory, a: Addr, code: seq<Word>, b: Addr)
    requires !InCode(a, code, b)
    ensures WriteCode(m, a, code)(b) == m(b)
    decreases |code|
  {
    hide Plus, InWord, WriteWord;
    if code == [] {
    } else {
      WordElsewhere(WriteCode(m, Plus(a, 4), code[1..]), a, code[0], b);
      CodeElsewhere(m, Plus(a, 4), code[1..], b);
    }
  }

  lemma {:induction false} SameExtent(a: Addr, code: seq<Word>, other: seq<Word>, b: Addr)
    requires |code| == |other|
    ensures InCode(a, code, b) == InCode(a, other, b)
    decreases |code|
  {
    hide Plus, InWord;
    if code != [] {
      SameExtent(Plus(a, 4), code[1..], other[1..], b);
    }
  }

  // The value of a word determines its bytes.
  lemma SameWordSameBytes(m: Memory, n: Memory, a: Addr, b: Addr)
    requires Read32(m, a) == Read32(n, a) && InWord(a, b)
    ensures m(b) == n(b)
  {
    var a1, a2, a3 := Plus(a, 1), Plus(a, 2), Plus(a, 3);
    hide Plus;
    Joined(m(a), m(a1), m(a2), m(a3), n(a), n(a1), n(a2), n(a3));
  }

  lemma Joined(x0: bv8, x1: bv8, x2: bv8, x3: bv8, y0: bv8, y1: bv8, y2: bv8, y3: bv8)
    requires (x0 as bv32) | ((x1 as bv32) << 8) | ((x2 as bv32) << 16) | ((x3 as bv32) << 24) ==
             (y0 as bv32) | ((y1 as bv32) << 8) | ((y2 as bv32) << 16) | ((y3 as bv32) << 24)
    ensures x0 == y0 && x1 == y1 && x2 == y2 && x3 == y3
  {
  }

  /** What is written does not depend on what was there; what is not written is what was there. */
  lemma {:induction false} WrittenOver(m: Memory, n: Memory, a: Addr, code: seq<Word>, b: Addr)
    requires m(b) == n(b)
    ensures WriteCode(m, a, code)(b) == WriteCode(n, a, code)(b)
    decreases |code|
  {
    hide Plus;
    if code != [] {
      WrittenOver(m, n, Plus(a, 4), code[1..], b);
    }
  }

  lemma {:induction false} WrittenSame(m: Memory, n: Memory, a: Addr, code: seq<Word>, b: Addr)
    requires InCode(a, code, b)
    ensures WriteCode(m, a, code)(b) == WriteCode(n, a, code)(b)
    decreases |code|
  {
    hide Plus;
    if !InWord(a, b) {
      WrittenSame(m, n, Plus(a, 4), code[1..], b);
    }
  }

  // ---- the words of a page ----

  const PAGE_WORDS: nat := 32

  function Offset(i: nat): bv64
    requires i <= PAGE_WORDS
  {
    if i == 0 then 0 else if i == 1 then 4 else if i == 2 then 8 else if i == 3 then 12
    else if i == 4 then 16 else if i == 5 then 20 else if i == 6 then 24 else if i == 7 then 28
    else if i == 8 then 32 else if i == 9 then 36 else if i == 10 then 40 else if i == 11 then 44
    else if i == 12 then 48 else if i == 13 then 52 else if i == 14 then 56 else if i == 15 then 60
    else if i == 16 then 64 else if i == 17 then 68 else if i == 18 then 72 else if i == 19 then 76
    else if i == 20 then 80 else if i == 21 then 84 else if i == 22 then 88 else if i == 23 then 92
    else if i == 24 then 96 else if i == 25 then 100 else if i == 26 then 104 else if i == 27 then 108
    else if i == 28 then 112 else if i == 29 then 116 else if i == 30 then 120 else if i == 31 then 124
    else 128
  }

  /** The address of word `i` of the page at `base`; index PAGE_WORDS is its end. */
  function At(base: Addr, i: nat): Addr
    requires i <= PAGE_WORDS
  {
    Plus(base, Offset(i))
  }

  lemma OffsetSteps0(i: nat)
    requires i < 11
    ensures Offset(i + 1) == Offset(i) + 4 && Offset(i) <= 124
  {
  }

  lemma OffsetSteps1(i: nat)
    requires 11 <= i < 22
    ensures Offset(i + 1) == Offset(i) + 4 && Offset(i) <= 124
  {
  }

  lemma OffsetSteps2(i: nat)
    requires 22 <= i < PAGE_WORDS
    ensures Offset(i + 1) == Offset(i) + 4 && Offset(i) <= 124
  {
  }

  lemma OffsetSteps(i: nat)
    requires i < PAGE_WORDS
    ensures Offset(i + 1) == Offset(i) + 4 && Offset(i) <= 124
  {
    hide Offset;
    if i < 11 {
      OffsetSteps0(i);
    } else if i < 22 {
      OffsetSteps1(i);
    } else {
      OffsetSteps2(i);
    }
  }

  lemma Ascends(d: bv64, e: bv64)
    requires d <= 124 && e <= 124 && d + 4 <= e
    ensures d + 4 <= e + 4
  {
  }

  lemma {:induction false} OffsetsApart(i: nat, j: nat)
    requires i < j < PAGE_WORDS
    ensures Offset(i) + 4 <= Offset(j) && Offset(j) <= 124 && Offset(i) <= 124
  {
    hide Offset;
    OffsetSteps(i);
    OffsetSteps(j - 1);
    OffsetSteps(j);
    if i + 1 < j {
      OffsetsApart(i, j - 1);
      Ascends(Offset(i), Offset(j - 1));
      assert Offset(i) + 4 <= Offset(j);
    }
  }

  ghost function CodeBytes(a: Addr, code: seq<Word>): iset<Addr> {
    iset b | InCode(a, code, b)
  }

  lemma {:induction false} CoversItself(private: iset<Addr>, a: Addr, code: seq<Word>)
    requires CodeBytes(a, code) <= private
    ensures Covers(private, a, code)
    decreases |code|
  {
    hide Plus;
    if code == [] {
    } else {
      assert forall b :: InWord(a, b) ==> b in CodeBytes(a, code);
      assert forall b :: InCode(Plus(a, 4), code[1..], b) ==> b in CodeBytes(a, code);
      CoversItself(private, Plus(a, 4), code[1..]);
    }
  }

  lemma {:induction false} OffsetsAligned(i: nat)
    requires i < PAGE_WORDS
    ensures Aligned(Offset(i))
  {
    hide Offset, Aligned;
    if i == 0 {
      OffsetZero();
    } else {
      OffsetsAligned(i - 1);
      OffsetSteps(i - 1);
      FourMore(Offset(i - 1));
    }
  }

  lemma OffsetZero()
    ensures Aligned(Offset(0))
  {
  }

  lemma FourMore(d: bv64)
    requires Aligned(d)
    ensures Aligned(d + 4)
  {
  }

  // ---- words of a page do not overlap ----

  lemma MinusPlus(a: Addr, d: bv64)
    ensures Minus(Plus(a, d), a) == d
  {
    assert Plus(a, d) == a + d;
    hide Plus, Minus;
    MinusSum(a, d);
  }

  lemma Aligned0(d: bv64)
    requires Aligned(d)
    ensures AlignDown(d) == d
  {
  }

  lemma Aligned1(d: bv64)
    requires Aligned(d)
    ensures AlignDown(d + 1) == d
  {
  }

  lemma Aligned2(d: bv64)
    requires Aligned(d)
    ensures AlignDown(d + 2) == d
  {
  }

  lemma Aligned3(d: bv64)
    requires Aligned(d)
    ensures AlignDown(d + 3) == d
  {
  }

  lemma ByteAt(base: Addr, d: bv64, k: bv64, b: Addr)
    requires b == Plus(Plus(base, d), k) && AlignDown(d + k) == d
    ensures AlignDown(Minus(b, base)) == d
  {
    hide *;
    PlusPlus(base, d, k);
    MinusPlus(base, d + k);
  }

  lemma ByteAt0(base: Addr, d: bv64, b: Addr)
    requires Aligned(d) && b == Plus(base, d)
    ensures AlignDown(Minus(b, base)) == d
  {
    Aligned0(d);
    hide *;
    MinusPlus(base, d);
  }

  lemma ByteAt1(base: Addr, d: bv64, b: Addr)
    requires Aligned(d) && b == Plus(Plus(base, d), 1)
    ensures AlignDown(Minus(b, base)) == d
  {
    Aligned1(d);
    hide *;
    ByteAt(base, d, 1, b);
  }

  lemma ByteAt2(base: Addr, d: bv64, b: Addr)
    requires Aligned(d) && b == Plus(Plus(base, d), 2)
    ensures AlignDown(Minus(b, base)) == d
  {
    Aligned2(d);
    hide *;
    ByteAt(base, d, 2, b);
  }

  lemma ByteAt3(base: Addr, d: bv64, b: Addr)
    requires Aligned(d) && b == Plus(Plus(base, d), 3)
    ensures AlignDown(Minus(b, base)) == d
  {
    Aligned3(d);
    hide *;
    ByteAt(base, d, 3, b);
  }

  // A byte of an aligned word, counted from the base, aligns down to the word.
  lemma ByteOffset(base: Addr, d: bv64, b: Addr)
    requires Aligned(d) && InWord(Plus(base, d), b)
    ensures AlignDown(Minus(b, base)) == d
  {
    hide Plus, Minus, AlignDown, Aligned;
    if {
      case b == Plus(base, d) => ByteAt0(base, d, b);
      case b == Plus(Plus(base, d), 1) => ByteAt1(base, d, b);
      case b == Plus(Plus(base, d), 2) => ByteAt2(base, d, b);
      case b == Plus(Plus(base, d), 3) => ByteAt3(base, d, b);
    }
  }

  lemma Distinct(d: bv64, e: bv64)
    requires d <= 124 && e <= 124 && d + 4 <= e
    ensures d != e
  {
  }

  lemma WordsApart(base: Addr, i: nat, j: nat, b: Addr)
    requires i < PAGE_WORDS && j < PAGE_WORDS && i != j && InWord(At(base, i), b)
    ensures !InWord(At(base, j), b)
  {
    hide Offset, Plus, InWord, AlignDown, Minus, Aligned;
    OffsetsAligned(i);
    OffsetsAligned(j);
    if i < j {
      OffsetsApart(i, j);
      Distinct(Offset(i), Offset(j));
    } else {
      OffsetsApart(j, i);
      Distinct(Offset(j), Offset(i));
    }
    ByteOffset(base, Offset(i), b);
    if InWord(At(base, j), b) {
      ByteOffset(base, Offset(j), b);
    }
  }

  lemma NextWord(base: Addr, i: nat)
    requires i < PAGE_WORDS
    ensures Plus(At(base, i), 4) == At(base, i + 1)
  {
    hide Offset, Plus;
    OffsetSteps(i);
    PlusPlus(base, Offset(i), 4);
  }

  lemma {:induction false} AfterAt(base: Addr, i: nat, code: seq<Word>)
    requires i + |code| <= PAGE_WORDS
    ensures After(At(base, i), code) == At(base, i + |code|)
    decreases |code|
  {
    hide At, Plus;
    if code != [] {
      NextWord(base, i);
      AfterAt(base, i + 1, code[1..]);
    }
  }

  /** Which word of the page a byte of the code is in. */
  lemma {:induction false} WordOf(base: Addr, i: nat, code: seq<Word>, b: Addr) returns (k: nat)
    requires i + |code| <= PAGE_WORDS && InCode(At(base, i), code, b)
    ensures i <= k < i + |code| && InWord(At(base, k), b)
    decreases |code|
  {
    hide At, Plus, InWord;
    if InWord(At(base, i), b) {
      k := i;
    } else {
      NextWord(base, i);
      k := WordOf(base, i + 1, code[1..], b);
    }
  }

  /** Code written into a page is there afterwards. */
  lemma {:induction false} WritesInstall(m: Memory, base: Addr, i: nat, code: seq<Word>)
    requires i + |code| <= PAGE_WORDS
    ensures Installed(WriteCode(m, At(base, i), code), At(base, i), code)
    decreases |code|
  {
    hide Plus, Read32, WriteWord, InWord, InCode, At;
    if code == [] {
    } else {
      var a, rest := At(base, i), code[1..];
      NextWord(base, i);
      var n := WriteCode(m, At(base, i + 1), rest);
      WritesInstall(m, base, i + 1, rest);
      var own := CodeBytes(At(base, i + 1), rest);
      forall b | b in own
        ensures n(b) == WriteWord(n, a, code[0])(b)
      {
        var k := WordOf(base, i + 1, rest, b);
        WordsApart(base, k, i, b);
        WordElsewhere(n, a, code[0], b);
      }
      CoversItself(own, At(base, i + 1), rest);
      StaysInstalled(n, WriteWord(n, a, code[0]), own, At(base, i + 1), rest);
      WordReads(n, a, code[0]);
    }
  }

  // ---- code side by side ----

  /** Writing one part of a page leaves the code in another part in place. */
  lemma WritesApart(m: Memory, base: Addr, i: nat, code: seq<Word>, j: nat, other: seq<Word>)
    requires i + |code| <= PAGE_WORDS && j + |other| <= PAGE_WORDS && (i + |code| <= j || j + |other| <= i)
    requires Installed(m, At(base, j), other)
    ensures Installed(WriteCode(m, At(base, i), code), At(base, j), other)
  {
    hide Installed, InWord, InCode, At, WriteCode;
    var own := CodeBytes(At(base, j), other);
    forall b | b in own
      ensures m(b) == WriteCode(m, At(base, i), code)(b)
    {
      var k := WordOf(base, j, other, b);
      if InCode(At(base, i), code, b) {
        var l := WordOf(base, i, code, b);
        WordsApart(base, k, l, b);
      }
      CodeElsewhere(m, At(base, i), code, b);
    }
    CoversItself(own, At(base, j), other);
    StaysInstalled(m, WriteCode(m, At(base, i), code), own, At(base, j), other);
  }
}
