/** What an image imports: the metadata half of src/resolvers/HKChainedFixups.c. */
module ChainedImports {
  import opened Options
  import opened Leb128
  import opened ChainedPointers

  const HEADER: nat := 28

  datatype Status = Ok | NotFound | Malformed | UnsupportedVersion | UnsupportedFormat

  datatype ImportFormat = Plain | Addend32 | Addend64

  function ImportFormatOf(code: nat): Option<ImportFormat> {
    match code
    case 1 => Some(Plain)
    case 2 => Some(Addend32)
    case 3 => Some(Addend64)
    case _ => None
  }

  function EntrySize(f: ImportFormat): nat {
    if f.Plain? then 4 else if f.Addend32? then 8 else 16
  }

  datatype Fixups = Fixups(starts: nat, imports: nat, symbols: nat, count: nat, format: Option<ImportFormat>)
  datatype Header = Refused(status: Status) | Accepted(fixups: Fixups)

  /** An accepted header keeps the whole imports table and the symbol pool inside the blob. */
  function ParseHeader(blob: Bytes): (h: Header)
    ensures h.Accepted? ==>
              && h.fixups.starts <= |blob| && h.fixups.symbols <= |blob|
              && (h.fixups.count > 0 ==>
                    h.fixups.format.Some? && h.fixups.imports + h.fixups.count * EntrySize(h.fixups.format.value) <= |blob|)
  {
    if |blob| < HEADER then Refused(Malformed)
    else
      var starts, imports, symbols := ReadLittle(blob, 4, 4), ReadLittle(blob, 8, 4), ReadLittle(blob, 12, 4);
      var count, format := ReadLittle(blob, 16, 4), ImportFormatOf(ReadLittle(blob, 20, 4));
      if ReadLittle(blob, 0, 4) != 0 then Refused(UnsupportedVersion)
      else if ReadLittle(blob, 24, 4) != 0 then Refused(UnsupportedFormat)
      else if count > 0 && format.None? then Refused(UnsupportedFormat)
      else if starts > |blob| || imports > |blob| || symbols > |blob| then Refused(Malformed)
      else if count * (if format.Some? then EntrySize(format.value) else 0) > |blob| - imports then Refused(Malformed)
      else Accepted(Fixups(starts, imports, symbols, count, format))
  }

  /** Which headers are accepted, and what the others are refused for. */
  lemma HeaderExactly(blob: Bytes)
    requires 28 <= |blob|
    ensures var n, code := ReadLittle(blob, 16, 4), ReadLittle(blob, 20, 4);
            var starts, imports, symbols := ReadLittle(blob, 4, 4), ReadLittle(blob, 8, 4), ReadLittle(blob, 12, 4);
            var size := if code == 1 then 4 else if code == 2 then 8 else if code == 3 then 16 else 0;
            var h := ParseHeader(blob);
            && (h == Refused(UnsupportedVersion) <==> ReadLittle(blob, 0, 4) != 0)
            && (h == Refused(UnsupportedFormat) <==>
                 ReadLittle(blob, 0, 4) == 0 && (ReadLittle(blob, 24, 4) != 0 || (n > 0 && code !in {1, 2, 3})))
            && (h.Accepted? <==>
                 && ReadLittle(blob, 0, 4) == 0 && ReadLittle(blob, 24, 4) == 0 && (n > 0 ==> code in {1, 2, 3})
                 && starts <= |blob| && symbols <= |blob| && imports + n * size <= |blob|)
            && (h.Accepted? ==>
                 h.fixups.starts == starts && h.fixups.imports == imports && h.fixups.symbols == symbols && h.fixups.count == n)
  {
    hide ReadLittle;
  }

  // ---- import entries ----

  function Signed(v: nat, half: nat): int {
    if v < half then v else v - 2 * half
  }

  datatype Entry = Entry(ordinal: int, weak: bool, name: nat, addend: int)

  function DecodeEntry(b: Bytes, f: ImportFormat): Entry
    requires |b| == EntrySize(f)
  {
    if f.Addend64? then
      var word := ReadLittle(b, 0, 8);
      Entry(Signed(word % BITS16, 0x8000), word / BITS16 % 2 == 1, word / BITS32, Signed(ReadLittle(b, 8, 8), LIMIT / 2))
    else
      var word := ReadLittle(b, 0, 4);
      Entry(Signed(word % 0x100, 0x80), word / 0x100 % 2 == 1, word / 0x200,
            if f.Addend32? then Signed(ReadLittle(b, 4, 4), BITS32 / 2) else 0)
  }

  function Unsigned(v: int, half: nat): nat
    requires 0 <= v + half < 2 * half
  {
    if v < 0 then v + 2 * half else v
  }

  predicate ValidEntry(f: ImportFormat, e: Entry) {
    if f.Addend64? then
      -0x8000 <= e.ordinal < 0x8000 && e.name < BITS32 && -(LIMIT / 2) <= e.addend < LIMIT / 2
    else
      -0x80 <= e.ordinal < 0x80 && e.name < 0x80_0000 &&
      if f.Addend32? then -(BITS32 / 2) <= e.addend < BITS32 / 2 else e.addend == 0
  }

  function EncodeEntry(f: ImportFormat, e: Entry): (b: Bytes)
    requires ValidEntry(f, e)
    ensures |b| == EntrySize(f)
  {
    if f.Addend64? then
      Split(Unsigned(e.ordinal, 0x8000) + BITS16 * Bit(e.weak) + BITS32 * e.name, 8) + Split(Unsigned(e.addend, LIMIT / 2), 8)
    else
      Split(Unsigned(e.ordinal, 0x80) + 0x100 * Bit(e.weak) + 0x200 * e.name, 4) +
      if f.Addend32? then Split(Unsigned(e.addend, BITS32 / 2), 4) else []
  }

  lemma WordSizes()
    ensures Pow2(32) == BITS32 && Pow2(64) == LIMIT
  {
    hide Pow2;
    assert Pow2(8 * 0) == 1 by {
      ZeroPower();
    }
    EightMore(0);
    EightMore(1);
    EightMore(2);
    EightMore(3);
    EightMore(4);
    EightMore(5);
    EightMore(6);
    EightMore(7);
  }

  lemma ShortFields(ordinal: nat, weak: nat, name: nat)
    requires ordinal < 0x100 && weak < 2 && name < 0x80_0000
    ensures var word := ordinal + 0x100 * weak + 0x200 * name;
            word < BITS32 && word % 0x100 == ordinal && word / 0x100 % 2 == weak && word / 0x200 == name
  {
  }

  lemma LongFields(ordinal: nat, weak: nat, name: nat)
    requires ordinal < BITS16 && weak < 2 && name < BITS32
    ensures var word := ordinal + BITS16 * weak + BITS32 * name;
            word < LIMIT && word % BITS16 == ordinal && word / BITS16 % 2 == weak && word / BITS32 == name
  {
    var word := ordinal + BITS16 * weak + BITS32 * name;
    assert word == ordinal + BITS16 * (weak + BITS16 * name);
    LowHalf(ordinal, weak + BITS16 * name);
    OddOrEven(weak, name);
    TopHalf(ordinal + BITS16 * weak, name);
  }

  lemma LowHalf(low: nat, high: nat)
    requires low < BITS16
    ensures (low + BITS16 * high) % BITS16 == low && (low + BITS16 * high) / BITS16 == high
  {
    Digits(low, high, BITS16);
  }

  lemma OddOrEven(bit: nat, rest: nat)
    requires bit < 2
    ensures (bit + BITS16 * rest) % 2 == bit
  {
    Digits(bit, 0x8000 * rest, 2);
  }

  lemma TopHalf(low: nat, high: nat)
    requires low < BITS32 && high < BITS32
    ensures (low + BITS32 * high) / BITS32 == high && low + BITS32 * high < LIMIT
  {
    Digits(low, high, BITS32);
  }

  /** Reading an entry undoes writing it, in all three formats. */
  lemma EntryRoundTrip(f: ImportFormat, e: Entry)
    requires ValidEntry(f, e)
    ensures DecodeEntry(EncodeEntry(f, e), f) == e
  {
    hide Pow2, Split, Little;
    WordSizes();
    var b := EncodeEntry(f, e);
    if f.Addend64? {
      var word, addend := Unsigned(e.ordinal, 0x8000) + BITS16 * Bit(e.weak) + BITS32 * e.name, Unsigned(e.addend, LIMIT / 2);
      LongFields(Unsigned(e.ordinal, 0x8000), Bit(e.weak), e.name);
      SplitBack(word, 8);
      SplitBack(addend, 8);
      assert b[0..8] == Split(word, 8) && b[8..16] == Split(addend, 8);
    } else {
      var word := Unsigned(e.ordinal, 0x80) + 0x100 * Bit(e.weak) + 0x200 * e.name;
      ShortFields(Unsigned(e.ordinal, 0x80), Bit(e.weak), e.name);
      SplitBack(word, 4);
      assert b[0..4] == Split(word, 4);
      if f.Addend32? {
        SplitBack(Unsigned(e.addend, BITS32 / 2), 4);
        assert b[4..8] == Split(Unsigned(e.addend, BITS32 / 2), 4);
      }
    }
  }

  /** The format documents one-byte ordinals from -15 to 240, only the last fifteen codes being
      negative. The reader takes every code from 128 on as negative, so it agrees with the format
      for ordinals up to 127 and for the special ones, and for no others. */
  function DocumentedOrdinal(code: nat): int {
    if code > 240 then code - 0x100 else code
  }

  lemma OrdinalExactly(code: nat)
    requires code < 0x100
    ensures Signed(code, 0x80) == DocumentedOrdinal(code) <==> code < 0x80 || code > 240
  {
  }

  /** An image's 128th library is reported as ordinal -128. */
  lemma OrdinalMisread()
    ensures Signed(128, 0x80) == -128 && DocumentedOrdinal(128) == 128
  {
  }

  // ---- imports ----

  datatype Lookup = Failed(status: Status) | Import(index: nat, entry: Entry, name: Bytes)

  /** The string at `at` in the pool, which runs to the end of the blob; None if it does not end. */
  function PoolString(blob: Bytes, at: nat): (name: Option<Bytes>)
    ensures name.Some? ==> at + |name.value| < |blob| && name.value == blob[at..at + |name.value|] && blob[at + |name.value|] == 0
    ensures name.Some? ==> forall i :: 0 <= i < |name.value| ==> name.value[i] != 0
    decreases |blob| - at
  {
    if at >= |blob| then None
    else if blob[at] == 0 then Some([])
    else
      match PoolString(blob, at + 1)
      case None => None
      case Some(rest) => Some([blob[at]] + rest)
  }

  function ImportAt(blob: Bytes, f: Fixups, index: nat): (r: Lookup)
    requires ParseHeader(blob) == Accepted(f)
    ensures r.Import? ==> index < f.count && r.index == index && f.symbols + r.entry.name + |r.name| < |blob|
  {
    if index >= f.count then Failed(NotFound)
    else
      var size := EntrySize(f.format.value);
      EntryInside(f.imports, f.count, size, index, |blob|);
      var entry := DecodeEntry(blob[f.imports + index * size..f.imports + index * size + size], f.format.value);
      if entry.name >= |blob| - f.symbols then Failed(Malformed)
      else
        match PoolString(blob, f.symbols + entry.name)
        case None => Failed(Malformed)
        case Some(name) => Import(index, entry, name)
  }

  lemma EntryInside(imports: nat, count: nat, size: nat, index: nat, end: nat)
    requires index < count && imports + count * size <= end
    ensures imports + index * size + size <= end
  {
    assert (count - 1 - index) * size >= 0;
  }
}
