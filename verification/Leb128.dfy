/** Unsigned LEB128 (section 7.6 of DWARF version 5), as hk_export_read_uleb128 reads it. */
module Leb128 {
  import opened Options

  type Byte = x: nat | x < 0x100
  type Bytes = seq<Byte>

  const LIMIT: nat := 0x1_0000_0000_0000_0000
  const MAX_BYTES: nat := 10

  /** A value read at some offset, and the offset after it. */
  datatype Read = Read(value: nat, next: nat)

  function Pow2(n: nat): (p: nat)
    ensures p >= 1
  {
    if n == 0 then 1 else 2 * Pow2(n - 1)
  }

  lemma AtLeastOne(base: nat, q: nat, p: nat)
    requires q < p
    ensures base * p >= base * q + base
  {
    var d: nat := p - q - 1;
    assert base * (q + 1 + d) == base * q + base + base * d;
  }

  lemma SameQuotient(base: nat, q: nat, r: nat, p: nat, s: nat)
    requires base * q + r == base * p + s && r < base && s < base
    ensures q == p && r == s
  {
    if q < p {
      AtLeastOne(base, q, p);
    } else if p < q {
      AtLeastOne(base, p, q);
    }
  }

  lemma DivMod(v: nat, base: nat)
    requires 0 < base
    ensures base * (v / base) + v % base == v && v % base < base
  {
  }

  /** A number below the base, and a multiple of the base above it, come apart again. */
  lemma Digits(low: nat, high: nat, base: nat)
    requires low < base
    ensures (low + base * high) % base == low && (low + base * high) / base == high
  {
    var v := low + base * high;
    DivMod(v, base);
    SameQuotient(base, v / base, v % base, high, low);
  }

  // ---- what an encoding means ----

  /** Every byte but the last has its top bit set. */
  predicate IsEncoding(b: Bytes) {
    b != [] && if b[0] < 0x80 then |b| == 1 else IsEncoding(b[1..])
  }

  /** Seven bits a byte, lowest first. */
  function Value(b: Bytes): nat {
    if b == [] then 0 else b[0] % 0x80 + 0x80 * Value(b[1..])
  }

  function Encode(v: nat): (b: Bytes)
    ensures IsEncoding(b)
  {
    if v < 0x80 then [v] else [0x80 + v % 0x80] + Encode(v / 0x80)
  }

  lemma {:induction false} EncodeValue(v: nat)
    ensures Value(Encode(v)) == v
  {
    if v < 0x80 {
      assert Encode(v)[1..] == [];
    } else {
      EncodeValue(v / 0x80);
      assert Encode(v)[1..] == Encode(v / 0x80);
    }
  }

  // ---- reading ----

  /** What reading at `offset`, with `count` bytes of the encoding and the value `sofar` behind it,
      comes to within the first `end` bytes. */
  function ReadFrom(buffer: Bytes, end: nat, offset: nat, count: nat, sofar: nat): Option<Read>
    requires end <= |buffer|
    decreases MAX_BYTES - count
  {
    if offset >= end || count >= MAX_BYTES then None
    else
      var chunk := buffer[offset] % 0x80;
      var total := sofar + chunk * Pow2(7 * count);
      if count == 9 && chunk > 1 then None
      else if buffer[offset] < 0x80 then Some(Read(total, offset + 1))
      else ReadFrom(buffer, end, offset + 1, count + 1, total)
  }

  function ReadAt(buffer: Bytes, end: nat, offset: nat): Option<Read>
    requires end <= |buffer|
  {
    ReadFrom(buffer, end, offset, 0, 0)
  }

  /** The loop. Bytes are or-ed in above all the bits so far, so or is addition. */
  method ReadUleb128(buffer: Bytes, end: nat, offset: nat) returns (read: Option<Read>)
    requires end <= |buffer|
    ensures read == ReadAt(buffer, end, offset)
  {
    hide Pow2;
    ZeroPower();
    var at: nat, count: nat, result: nat, shift: nat := offset, 0, 0, 1;
    while true
      invariant count <= MAX_BYTES && shift == Pow2(7 * count)
      invariant ReadFrom(buffer, end, at, count, result) == ReadAt(buffer, end, offset)
      decreases MAX_BYTES - count
    {
      if at >= end {
        return None;
      }
      count := count + 1;
      if count > MAX_BYTES {
        return None;
      }
      var byte := buffer[at];
      var chunk := byte % 0x80;
      at := at + 1;
      if count == MAX_BYTES && chunk > 1 {
        return None;
      }
      result := result + chunk * shift;
      if byte < 0x80 {
        return Some(Read(result, at));
      }
      SevenMore(count - 1);
      shift := shift * 0x80;
    }
  }

  lemma ZeroPower()
    ensures Pow2(7 * 0) == 1
  {
  }

  lemma SevenMore(count: nat)
    ensures Pow2(7 * (count + 1)) == 0x80 * Pow2(7 * count)
  {
    var n := 7 * count;
    assert Pow2(n + 7) == 2 * Pow2(n + 6) == 4 * Pow2(n + 5) == 8 * Pow2(n + 4) == 16 * Pow2(n + 3);
    assert Pow2(n + 3) == 2 * Pow2(n + 2) == 4 * Pow2(n + 1) == 8 * Pow2(n);
  }

  /** Reading accepts exactly the encodings of at most ten bytes that lie before `end` and whose
      value fits in 64 bits, padded ones included, and gives that value. */
  lemma ReadExactly(buffer: Bytes, end: nat, offset: nat, n: nat)
    requires end <= |buffer| && 0 < n && offset + n <= end && IsEncoding(buffer[offset..offset + n])
    ensures var v := Value(buffer[offset..offset + n]);
            ReadAt(buffer, end, offset) == if n <= MAX_BYTES && v < LIMIT then Some(Read(v, offset + n)) else None
  {
    ReadRest(buffer, end, offset, n, 0, 0);
  }

  lemma ValueStep(code: Bytes, sofar: nat, count: nat)
    requires IsEncoding(code)
    ensures var total := sofar + code[0] % 0x80 * Pow2(7 * count);
            && sofar + Value(code) * Pow2(7 * count) == total + Value(code[1..]) * Pow2(7 * (count + 1))
            && Pow2(7 * (count + 1)) == 0x80 * Pow2(7 * count)
            && (|code| == 1 ==> sofar + Value(code) * Pow2(7 * count) == total)
  {
    hide Pow2;
    SevenMore(count);
    Distribute(code[0] % 0x80, Value(code[1..]), Pow2(7 * count));
  }

  lemma {:induction false} ReadRest(buffer: Bytes, end: nat, offset: nat, n: nat, count: nat, sofar: nat)
    requires end <= |buffer| && 0 < n && offset + n <= end && IsEncoding(buffer[offset..offset + n])
    requires count <= MAX_BYTES && sofar < Pow2(7 * count)
    ensures var v := sofar + Value(buffer[offset..offset + n]) * Pow2(7 * count);
            ReadFrom(buffer, end, offset, count, sofar) ==
            if count + n <= MAX_BYTES && v < LIMIT then Some(Read(v, offset + n)) else None
    decreases n
  {
    hide Pow2;
    var code := buffer[offset..offset + n];
    var chunk := buffer[offset] % 0x80;
    var total := sofar + chunk * Pow2(7 * count);
    ValueStep(code, sofar, count);
    if count < MAX_BYTES {
      if n == 1 {
        assert code[1..] == [];
        LastByte(count, sofar, chunk, Pow2(7 * count));
      } else {
        assert code[1..] == buffer[offset + 1..offset + n];
        Below(chunk, sofar, Pow2(7 * count));
        ReadRest(buffer, end, offset + 1, n - 1, count + 1, total);
      }
    }
  }

  lemma NextTotal(buffer: Bytes, end: nat, offset: nat, count: nat, sofar: nat) returns (total: nat)
    requires end <= |buffer| && ReadFrom(buffer, end, offset, count, sofar).Some? && buffer[offset] >= 0x80
    ensures ReadFrom(buffer, end, offset, count, sofar) == ReadFrom(buffer, end, offset + 1, count + 1, total)
  {
    hide Pow2;
    total := sofar + buffer[offset] % 0x80 * Pow2(7 * count);
  }

  /** Nothing else is accepted. */
  lemma {:induction false} ReadSound(buffer: Bytes, end: nat, offset: nat, count: nat, sofar: nat)
    requires end <= |buffer| && ReadFrom(buffer, end, offset, count, sofar).Some?
    ensures var next := ReadFrom(buffer, end, offset, count, sofar).value.next;
            offset < next <= end && count + next - offset <= MAX_BYTES && IsEncoding(buffer[offset..next])
    decreases MAX_BYTES - count
  {
    hide Pow2;
    var next := ReadFrom(buffer, end, offset, count, sofar).value.next;
    if buffer[offset] < 0x80 {
      assert buffer[offset..next] == [buffer[offset]];
    } else {
      var total := NextTotal(buffer, end, offset, count, sofar);
      ReadSound(buffer, end, offset + 1, count + 1, total);
      OneMoreByte(buffer, offset, next);
    }
  }

  lemma OneMoreByte(buffer: Bytes, offset: nat, next: nat)
    requires offset + 1 < next <= |buffer| && buffer[offset] >= 0x80 && IsEncoding(buffer[offset + 1..next])
    ensures IsEncoding(buffer[offset..next])
  {
    assert buffer[offset..next][1..] == buffer[offset + 1..next];
  }

  lemma Distribute(chunk: nat, rest: nat, p: nat)
    ensures (chunk + 0x80 * rest) * p == chunk * p + rest * (0x80 * p)
  {
  }

  lemma Below(chunk: nat, sofar: nat, p: nat)
    requires sofar < p && chunk < 0x80
    ensures sofar + chunk * p < 0x80 * p
  {
    assert (0x7F - chunk) * p >= 0;
  }

  lemma Powers()
    ensures forall count :: 0 <= count < 9 ==> 0x80 * Pow2(7 * count) <= 0x8000_0000_0000_0000
    ensures Pow2(63) == 0x8000_0000_0000_0000
  {
    SevenMore(0);
    SevenMore(1);
    SevenMore(2);
    SevenMore(3);
    SevenMore(4);
    SevenMore(5);
    SevenMore(6);
    SevenMore(7);
    SevenMore(8);
    forall count | 0 <= count < 9
      ensures 0x80 * Pow2(7 * count) <= 0x8000_0000_0000_0000
    {
      if {
        case count == 0 =>
        case count == 1 =>
        case count == 2 =>
        case count == 3 =>
        case count == 4 =>
        case count == 5 =>
        case count == 6 =>
        case count == 7 =>
        case count == 8 =>
      }
    }
  }

  lemma LastByte(count: nat, sofar: nat, chunk: nat, p: nat)
    requires count < MAX_BYTES && p == Pow2(7 * count) && sofar < p && chunk < 0x80
    ensures sofar + chunk * p < LIMIT <==> count < 9 || chunk <= 1
  {
    Powers();
    if count < 9 {
      Below(chunk, sofar, p);
    } else if chunk > 1 {
      assert (chunk - 2) * p >= 0;
    }
  }

  /** Reading undoes encoding, wherever the encoding is. */
  lemma RoundTrip(front: Bytes, v: nat, back: Bytes, end: nat)
    requires v < LIMIT && |front| + |Encode(v)| <= end <= |front + Encode(v) + back|
    ensures ReadAt(front + Encode(v) + back, end, |front|) == Some(Read(v, |front| + |Encode(v)|))
  {
    var buffer := front + Encode(v) + back;
    assert buffer[|front|..|front| + |Encode(v)|] == Encode(v);
    EncodeValue(v);
    Powers();
    SevenMore(9);
    EncodeLength(v, MAX_BYTES);
    ReadExactly(buffer, end, |front|, |Encode(v)|);
  }

  lemma {:induction false} EncodeLength(v: nat, n: nat)
    requires 0 < n && v < Pow2(7 * n)
    ensures |Encode(v)| <= n
  {
    if v >= 0x80 {
      SevenMore(n - 1);
      EncodeLength(v / 0x80, n - 1);
    }
  }
}
