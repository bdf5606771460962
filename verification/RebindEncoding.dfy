/** Writing the fixups of an image as a linker does, and what the rebind engine then lists for a
    symbol: src/resolvers/HKChainedFixups.c and chained_bind_cb of src/engines/HKRebindEngine.c,
    from the bytes to the sites. */
module RebindEncoding {
  import opened Options
  import opened Leb128
  import opened ImportSlots
  import opened RebindCaches
  import opened RebindWalk
  import P = ChainedPointers
  import F = ChainedFixups
  import L = ChainedListing
  import I = ChainedImports
  import E = ChainedEncoding

  // ---- imports in bytes ----

  /** One import as a linker is told of it. */
  datatype Imported = Imported(ordinal: int, weak: bool, addend: int, name: Bytes)

  function EntryOf(m: Imported, name: nat): I.Entry { I.Entry(m.ordinal, m.weak, name, m.addend) }

  function NameBytes(m: Imported): (b: Bytes)
    ensures |b| == |m.name| + 1
  {
    m.name + [0]
  }

  /** The names, each ended by a zero byte. */
  function Pool(imports: seq<Imported>): Bytes {
    if imports == [] then [] else NameBytes(imports[0]) + Pool(imports[1..])
  }

  /** The imports fit the format when their names are pooled from `at` on. */
  predicate Listable(f: I.ImportFormat, imports: seq<Imported>, at: nat)
    decreases |imports|
  {
    imports == [] ||
    (I.ValidEntry(f, EntryOf(imports[0], at)) && 0 !in imports[0].name &&
     Listable(f, imports[1..], at + |imports[0].name| + 1))
  }

  function Table(f: I.ImportFormat, imports: seq<Imported>, at: nat): (b: Bytes)
    requires Listable(f, imports, at)
    decreases |imports|
  {
    if imports == [] then []
    else I.EncodeEntry(f, EntryOf(imports[0], at)) + Table(f, imports[1..], at + |imports[0].name| + 1)
  }

  lemma {:induction false} TableSize(f: I.ImportFormat, imports: seq<Imported>, at: nat)
    requires Listable(f, imports, at)
    ensures |Table(f, imports, at)| == |imports| * I.EntrySize(f)
    decreases |imports|
  {
    hide I.EncodeEntry, I.ValidEntry;
    if imports != [] {
      TableSize(f, imports[1..], at + |imports[0].name| + 1);
    }
  }

  /** Where an import's entry is, and its name. */
  lemma {:induction false} EntryIn(f: I.ImportFormat, imports: seq<Imported>, at: nat, i: nat)
    returns (offset: nat, front: Bytes, back: Bytes, named: Bytes, rest: Bytes)
    requires Listable(f, imports, at) && i < |imports|
    ensures at <= offset && I.ValidEntry(f, EntryOf(imports[i], offset)) && 0 !in imports[i].name
    ensures Table(f, imports, at) == front + I.EncodeEntry(f, EntryOf(imports[i], offset)) + back
    ensures |front| == i * I.EntrySize(f)
    ensures Pool(imports) == named + NameBytes(imports[i]) + rest && |named| == offset - at
    decreases |imports|
  {
    hide I.EncodeEntry, I.ValidEntry;
    var next := at + |imports[0].name| + 1;
    var first := I.EncodeEntry(f, EntryOf(imports[0], at));
    if i == 0 {
      offset, front, named := at, [], [];
      back, rest := Table(f, imports[1..], next), Pool(imports[1..]);
      assert [] + first + back == first + back && [] + NameBytes(imports[0]) + rest == NameBytes(imports[0]) + rest;
    } else {
      offset, front, back, named, rest := EntryIn(f, imports[1..], next, i - 1);
      var entry := I.EncodeEntry(f, EntryOf(imports[i], offset));
      assert first + (front + entry + back) == (first + front) + entry + back;
      assert NameBytes(imports[0]) + (named + NameBytes(imports[i]) + rest) ==
             (NameBytes(imports[0]) + named) + NameBytes(imports[i]) + rest;
      front, named := first + front, NameBytes(imports[0]) + named;
    }
  }

  /** A name followed by a zero byte is read as that name. */
  lemma {:induction false} NameRead(blob: Bytes, at: nat, name: Bytes)
    requires at + |name| < |blob| && blob[at..at + |name|] == name && blob[at + |name|] == 0 && 0 !in name
    ensures I.PoolString(blob, at) == Some(name)
    decreases |name|
  {
    if name != [] {
      assert blob[at] == blob[at..at + |name|][0] == name[0];
      assert blob[at + 1..at + 1 + |name[1..]|] == blob[at..at + |name|][1..];
      NameRead(blob, at + 1, name[1..]);
    }
  }

  // ---- the whole blob ----

  function CodeOf(f: I.ImportFormat): (code: nat)
    ensures I.ImportFormatOf(code) == Some(f) && code < 4
  {
    match f
    case Plain => 1
    case Addend32 => 2
    case Addend64 => 3
  }

  /** Version 0, uncompressed names: where starts, imports and names are, and how many imports. */
  function HeaderBytes(starts: nat, imports: nat, symbols: nat, count: nat, code: nat): (b: Bytes)
    ensures |b| == 28
  {
    P.Split(0, 4) + P.Split(starts, 4) + P.Split(imports, 4) + P.Split(symbols, 4) + P.Split(count, 4) + P.Split(code, 4) +
    P.Split(0, 4)
  }

  function ImportsAt(l: E.Layout): nat { 28 + |E.EncodeStarts(l)| }

  function SymbolsAt(l: E.Layout, f: I.ImportFormat, imports: seq<Imported>): nat
    requires Listable(f, imports, 0)
  {
    ImportsAt(l) + |Table(f, imports, 0)|
  }

  function Blob(l: E.Layout, f: I.ImportFormat, imports: seq<Imported>): Bytes
    requires Listable(f, imports, 0)
  {
    HeaderBytes(28, ImportsAt(l), SymbolsAt(l, f, imports), |imports|, CodeOf(f)) + E.EncodeStarts(l) + Table(f, imports, 0) +
    Pool(imports)
  }

  /** Everything fits its fields. */
  ghost predicate Writable(l: E.Layout, f: I.ImportFormat, imports: seq<Imported>) {
    E.Fitting(l) && Listable(f, imports, 0) && |Blob(l, f, imports)| < P.BITS32 && |imports| < P.BITS32
  }

  function FixupsOf(l: E.Layout, f: I.ImportFormat, imports: seq<Imported>): I.Fixups
    requires Listable(f, imports, 0)
  {
    I.Fixups(28, ImportsAt(l), SymbolsAt(l, f, imports), |imports|, Some(f))
  }

  lemma HeaderRead(a: nat, b: nat, c: nat, n: nat, code: nat, rest: Bytes)
    requires a < P.BITS32 && b < P.BITS32 && c < P.BITS32 && n < P.BITS32 && code < P.BITS32
    ensures var blob := HeaderBytes(a, b, c, n, code) + rest;
            && P.ReadLittle(blob, 0, 4) == 0 && P.ReadLittle(blob, 4, 4) == a && P.ReadLittle(blob, 8, 4) == b
            && P.ReadLittle(blob, 12, 4) == c && P.ReadLittle(blob, 16, 4) == n && P.ReadLittle(blob, 20, 4) == code
            && P.ReadLittle(blob, 24, 4) == 0
  {
    hide P.ReadLittle, P.Split, Pow2;
    E.Sizes();
    var blob := HeaderBytes(a, b, c, n, code) + rest;
    var p0, p1, p2, p3, p4, p5, p6 :=
      P.Split(0, 4), P.Split(a, 4), P.Split(b, 4), P.Split(c, 4), P.Split(n, 4), P.Split(code, 4), P.Split(0, 4);
    E.SplitRead([], 0, 4, p1 + p2 + p3 + p4 + p5 + p6 + rest);
    assert blob == [] + p0 + (p1 + p2 + p3 + p4 + p5 + p6 + rest);
    E.SplitRead(p0, a, 4, p2 + p3 + p4 + p5 + p6 + rest);
    assert blob == p0 + p1 + (p2 + p3 + p4 + p5 + p6 + rest);
    E.SplitRead(p0 + p1, b, 4, p3 + p4 + p5 + p6 + rest);
    assert blob == (p0 + p1) + p2 + (p3 + p4 + p5 + p6 + rest);
    E.SplitRead(p0 + p1 + p2, c, 4, p4 + p5 + p6 + rest);
    assert blob == (p0 + p1 + p2) + p3 + (p4 + p5 + p6 + rest);
    E.SplitRead(p0 + p1 + p2 + p3, n, 4, p5 + p6 + rest);
    assert blob == (p0 + p1 + p2 + p3) + p4 + (p5 + p6 + rest);
    E.SplitRead(p0 + p1 + p2 + p3 + p4, code, 4, p6 + rest);
    assert blob == (p0 + p1 + p2 + p3 + p4) + p5 + (p6 + rest);
    E.SplitRead(p0 + p1 + p2 + p3 + p4 + p5, 0, 4, rest);
    assert blob == (p0 + p1 + p2 + p3 + p4 + p5) + p6 + rest;
  }

  /** The header is accepted, and says where everything is. */
  lemma HeaderParsed(l: E.Layout, f: I.ImportFormat, imports: seq<Imported>)
    requires Writable(l, f, imports)
    ensures I.ParseHeader(Blob(l, f, imports)) == I.Accepted(FixupsOf(l, f, imports))
  {
    hide P.ReadLittle, P.Split, E.EncodeStarts, Table, Pool, HeaderBytes, E.Fitting, Listable, I.EntrySize;
    var a, b, c, n, code := 28, ImportsAt(l), SymbolsAt(l, f, imports), |imports|, CodeOf(f);
    var rest := E.EncodeStarts(l) + Table(f, imports, 0) + Pool(imports);
    assert Blob(l, f, imports) == HeaderBytes(a, b, c, n, code) + rest;
    HeaderRead(a, b, c, n, code, rest);
    TableSize(f, imports, 0);
  }

  predicate HasBytes(blob: Bytes, at: nat, b: Bytes) { at + |b| <= |blob| && blob[at..at + |b|] == b }

  // Where the entry and the name of an import are in the blob.
  lemma ImportPlaces(l: E.Layout, f: I.ImportFormat, imports: seq<Imported>, i: nat) returns (offset: nat, at: nat)
    requires Writable(l, f, imports) && i < |imports|
    ensures at == ImportsAt(l) + i * I.EntrySize(f)
    ensures I.ValidEntry(f, EntryOf(imports[i], offset)) && 0 !in imports[i].name
    ensures HasBytes(Blob(l, f, imports), at, I.EncodeEntry(f, EntryOf(imports[i], offset)))
    ensures HasBytes(Blob(l, f, imports), SymbolsAt(l, f, imports) + offset, NameBytes(imports[i]))
  {
    hide P.Split, E.EncodeStarts, Table, Pool, HeaderBytes, E.Fitting, Listable, I.EncodeEntry, I.ValidEntry, I.EntrySize, HasBytes,
      NameBytes;
    var front, back, named, rest;
    offset, front, back, named, rest := EntryIn(f, imports, 0, i);
    at := ImportsAt(l) + i * I.EntrySize(f);
    var head := HeaderBytes(28, ImportsAt(l), SymbolsAt(l, f, imports), |imports|, CodeOf(f)) + E.EncodeStarts(l);
    var entry := I.EncodeEntry(f, EntryOf(imports[i], offset));
    assert Blob(l, f, imports) == (head + front) + entry + (back + Pool(imports));
    Between(head + front, entry, back + Pool(imports));
    var before := head + Table(f, imports, 0) + named;
    assert Blob(l, f, imports) == before + NameBytes(imports[i]) + rest;
    Between(before, NameBytes(imports[i]), rest);
  }

  lemma Between(a: Bytes, b: Bytes, c: Bytes)
    ensures HasBytes(a + b + c, |a|, b)
  {
  }

  lemma NamedThere(blob: Bytes, at: nat, m: Imported)
    requires HasBytes(blob, at, NameBytes(m)) && 0 !in m.name
    ensures I.PoolString(blob, at) == Some(m.name) && at + |m.name| < |blob|
  {
    assert blob[at..at + |m.name|] == blob[at..at + |m.name| + 1][..|m.name|];
    assert blob[at + |m.name|] == blob[at..at + |m.name| + 1][|m.name|];
    NameRead(blob, at, m.name);
  }

  // An entry and a name in their places are found.
  lemma FoundAt(blob: Bytes, fixups: I.Fixups, i: nat, at: nat, f: I.ImportFormat, e: I.Entry, name: Bytes)
    requires I.ParseHeader(blob) == I.Accepted(fixups) && i < fixups.count && fixups.format == Some(f)
    requires I.ValidEntry(f, e) && at == fixups.imports + i * I.EntrySize(f) && HasBytes(blob, at, I.EncodeEntry(f, e))
    requires fixups.symbols + e.name < |blob| && I.PoolString(blob, fixups.symbols + e.name) == Some(name)
    ensures I.ImportAt(blob, fixups, i) == I.Import(i, e, name)
  {
    hide I.EncodeEntry, I.DecodeEntry, I.ParseHeader, I.ValidEntry, I.PoolString, I.EntrySize;
    I.EntryRoundTrip(f, e);
  }

  /** Every import is found with its fields and its name, and nothing past them. */
  lemma ImportRead(l: E.Layout, f: I.ImportFormat, imports: seq<Imported>, i: nat) returns (offset: nat)
    requires Writable(l, f, imports) && I.ParseHeader(Blob(l, f, imports)) == I.Accepted(FixupsOf(l, f, imports))
    ensures I.ImportAt(Blob(l, f, imports), FixupsOf(l, f, imports), i) ==
            if i < |imports| then I.Import(i, EntryOf(imports[i], offset), imports[i].name) else I.Failed(I.NotFound)
  {
    hide Blob, ImportsAt, SymbolsAt, E.Fitting, Listable, I.EncodeEntry, I.ParseHeader, I.ValidEntry, I.PoolString, I.EntrySize,
      HasBytes, I.ImportAt, NameBytes;
    offset := 0;
    if i < |imports| {
      var at;
      offset, at := ImportPlaces(l, f, imports, i);
      NamedThere(Blob(l, f, imports), SymbolsAt(l, f, imports) + offset, imports[i]);
      FoundAt(Blob(l, f, imports), FixupsOf(l, f, imports), i, at, f, EntryOf(imports[i], offset), imports[i].name);
    } else {
      NotFoundPast(Blob(l, f, imports), FixupsOf(l, f, imports), i);
    }
  }

  lemma NotFoundPast(blob: Bytes, fixups: I.Fixups, i: nat)
    requires I.ParseHeader(blob) == I.Accepted(fixups) && i >= fixups.count
    ensures I.ImportAt(blob, fixups, i) == I.Failed(I.NotFound)
  {
    hide I.ParseHeader;
  }

  // ---- the slots of an image ----

  /** A slot, and its offset from where the image is loaded. */
  datatype Placed = Placed(offset: nat, slot: P.Slot)

  function PlacedChain(f: P.Format, offset: nat, links: seq<F.Link>): seq<Placed>
    decreases |links|
  {
    if links == [] then []
    else [Placed(offset, links[0].slot)] + PlacedChain(f, offset + links[0].next * P.Stride(f), links[1..])
  }

  function PlacedPages(f: P.Format, pageSize: nat, base: nat, pages: seq<seq<F.Link>>): seq<Placed>
    decreases |pages|
  {
    if pages == [] then [] else PlacedChain(f, base, pages[0]) + PlacedPages(f, pageSize, base + pageSize, pages[1..])
  }

  /** Every slot of a layout, page by page and link by link. */
  function PlacedOf(l: E.Layout): seq<Placed> { PlacedPages(l.format, l.pageSize, l.start, l.pages) }

  function BindsOf(c: F.Segment, placed: seq<Placed>): seq<F.BindSite> {
    if placed == [] then [] else F.SlotSite(c, placed[0].offset, placed[0].slot) + BindsOf(c, placed[1..])
  }

  lemma {:induction false} BindsApart(c: F.Segment, first: seq<Placed>, second: seq<Placed>)
    ensures BindsOf(c, first + second) == BindsOf(c, first) + BindsOf(c, second)
  {
    hide F.SlotSite;
    if first == [] {
      assert first + second == second;
    } else {
      assert (first + second)[1..] == first[1..] + second;
      BindsApart(c, first[1..], second);
    }
  }

  lemma {:induction false} ChainPlaced(c: F.Segment, offset: nat, links: seq<F.Link>)
    ensures F.ChainBinds(c, offset, links) == BindsOf(c, PlacedChain(c.format, offset, links))
    decreases |links|
  {
    hide F.SlotSite;
    if links != [] {
      var next := offset + links[0].next * P.Stride(c.format);
      ChainPlaced(c, next, links[1..]);
      assert PlacedChain(c.format, offset, links)[1..] == PlacedChain(c.format, next, links[1..]);
    }
  }

  lemma {:induction false} PagesPlaced(s: F.Starts, page: nat, base: nat, pages: seq<seq<F.Link>>)
    requires base == s.segment.start + page * s.pageSize
    ensures F.PagesBinds(s, page, E.PagesOf(pages)) == BindsOf(s.segment, PlacedPages(s.segment.format, s.pageSize, base, pages))
    decreases |pages|
  {
    hide F.ChainBinds;
    if pages != [] {
      assert base + s.pageSize == s.segment.start + (page + 1) * s.pageSize;
      PagesPlaced(s, page + 1, base + s.pageSize, pages[1..]);
      BindsApart(s.segment, PlacedChain(s.segment.format, base, pages[0]),
                 PlacedPages(s.segment.format, s.pageSize, base + s.pageSize, pages[1..]));
      ChainPlaced(s.segment, base, pages[0]);
      assert E.PagesOf(pages)[1..] == E.PagesOf(pages[1..]);
    }
  }

  function SegmentOf(l: E.Layout): F.Segment
    requires E.Fitting(l)
  {
    E.StartsOf(l, 28).starts.segment
  }

  /** What is listed of an image is its binds, in order. */
  lemma ImageListed(l: E.Layout, head: Bytes, tail: Bytes)
    requires E.Fitting(l) && |head| == 28
    ensures L.ImageListing(head + E.EncodeStarts(l) + tail, 28, Some([E.MappingOf(l)]), E.EncodeStorage(l)) ==
            L.Listing(BindsOf(SegmentOf(l), PlacedOf(l)), F.Ok)
  {
    hide P.ReadLittle, E.EncodeStarts, E.EncodeStorage, E.Fitting, F.SegmentsHold, F.PagesBinds, F.Segments, F.Feed,
      L.SegmentsListing, F.SegmentsBinds, F.SegmentAt, PlacedPages, BindsOf;
    var blob, storage, mappings := head + E.EncodeStarts(l) + tail, E.EncodeStorage(l), Some([E.MappingOf(l)]);
    E.ImageEncoded(l, head, tail);
    var visit: F.Visitor := seen => true;
    F.WalkInvertsImage(blob, 28, 1, mappings, storage, visit, 0, [Some(E.PagesOf(l.pages))], []);
    E.OneSegment(blob, 28, mappings, storage, E.PagesOf(l.pages));
    L.SegmentsPlayed(blob, 28, 1, mappings, storage, visit, 0, []);
    var listed := L.SegmentsListing(blob, 28, 1, mappings, storage, 0);
    var binds := F.PagesBinds(E.StartsOf(l, 28).starts, 0, E.PagesOf(l.pages));
    FedAll(visit, [], listed.binds);
    FedAll(visit, [], binds);
    assert [] + listed.binds == listed.binds && [] + binds == binds;
    PagesPlaced(E.StartsOf(l, 28).starts, 0, l.start, l.pages);
    assert listed == L.Listing(binds, F.Ok);
  }

  // A visitor that never asks to stop sees everything.
  lemma {:induction false} FedAll(visit: F.Visitor, seen: seq<F.BindSite>, binds: seq<F.BindSite>)
    requires forall some :: visit(some)
    ensures F.Feed(visit, seen, binds) == F.Walked(F.Ok, seen + binds, false)
    decreases |binds|
  {
    if binds == [] {
      assert seen + binds == seen;
    } else {
      FedAll(visit, seen + [binds[0]], binds[1..]);
      assert seen + [binds[0]] + binds[1..] == seen + binds;
    }
  }

  // ---- what is listed for a symbol ----

  function AddendIn(s: P.Slot): int { if s.Bind? then s.addend else 0 }

  function SchemaIn(s: P.Slot): Schema {
    match s
    case AuthBind(_, diversity, addressDiversity, key) => Schema(true, key, diversity, addressDiversity)
    case _ => Schema(false, 0, 0, false)
  }

  /** The slot binds an import that bears one of the names. */
  predicate Bears(imports: seq<Imported>, names: seq<Bytes>, p: Placed) {
    !p.slot.Rebase? && p.slot.ordinal < |imports| && imports[p.slot.ordinal].name in names
  }

  /** The slot binds no import there is, or one that bears a name with addends whose sum leaves 64 bits. */
  predicate Spoils(imports: seq<Imported>, names: seq<Bytes>, p: Placed) {
    !p.slot.Rebase? &&
    (p.slot.ordinal >= |imports| ||
     (imports[p.slot.ordinal].name in names &&
      !(-0x8000_0000_0000_0000 <= imports[p.slot.ordinal].addend + AddendIn(p.slot) < 0x8000_0000_0000_0000)))
  }

  /** The site described by a slot and its import. */
  function Described(imports: seq<Imported>, base: nat, p: Placed): Spec
    requires !p.slot.Rebase? && p.slot.ordinal < |imports|
  {
    var m := imports[p.slot.ordinal];
    Spec(base + p.offset, SchemaIn(p.slot), m.addend + AddendIn(p.slot), m.weak)
  }

  ghost predicate Increasing(idx: seq<nat>) {
    forall i, j :: 0 <= i < j < |idx| ==> idx[i] < idx[j]
  }

  /** From the slot `from` on: `idx` are the slots that bear a name, up to the first that spoils the list. */
  ghost predicate Lists(imports: seq<Imported>, base: nat, names: seq<Bytes>, placed: seq<Placed>, from: nat, script: Script,
                        idx: seq<nat>, stop: nat)
  {
    && from <= stop <= |placed|
    && script.ending == (if stop == |placed| then Fine else Corrupt)
    && (stop < |placed| ==> Spoils(imports, names, placed[stop]))
    && (forall k :: from <= k < stop ==> !Spoils(imports, names, placed[k]))
    && Increasing(idx) && (forall k :: k in idx <==> from <= k < stop && Bears(imports, names, placed[k]))
    && |script.specs| == |idx|
    && forall i :: 0 <= i < |idx| ==>
         idx[i] < |placed| && Bears(imports, names, placed[idx[i]]) &&
         script.specs[i] == Described(imports, base, placed[idx[i]])
  }

  function SliceOf(l: E.Layout, f: I.ImportFormat, imports: seq<Imported>, base: nat): Slice
    requires E.Fitting(l) && Listable(f, imports, 0)
  {
    Slice(Blob(l, f, imports), [E.MappingOf(l)], E.EncodeStorage(l), base)
  }

  // What one slot comes to.
  lemma SlotMeans(l: E.Layout, f: I.ImportFormat, imports: seq<Imported>, base: nat, names: seq<Bytes>, p: Placed)
    requires Writable(l, f, imports) && I.ParseHeader(Blob(l, f, imports)) == I.Accepted(FixupsOf(l, f, imports))
    requires !p.slot.Rebase?
    ensures F.SlotSite(SegmentOf(l), p.offset, p.slot) != []
    ensures var b := F.SlotSite(SegmentOf(l), p.offset, p.slot)[0];
            MeaningOf(SliceOf(l, f, imports, base), FixupsOf(l, f, imports), names, b) ==
            if Spoils(imports, names, p) then Unreadable
            else if Bears(imports, names, p) then Wanted(Described(imports, base, p))
            else Meaning.Other
  {
    hide I.ParseHeader, Blob, E.Fitting, Listable, E.EncodeStorage, I.ImportAt;
    var offset := ImportRead(l, f, imports, p.slot.ordinal);
  }

  lemma {:induction false} ListsFrom(l: E.Layout, f: I.ImportFormat, imports: seq<Imported>, base: nat, names: seq<Bytes>,
                                     placed: seq<Placed>, from: nat)
    returns (idx: seq<nat>, stop: nat)
    requires Writable(l, f, imports) && I.ParseHeader(Blob(l, f, imports)) == I.Accepted(FixupsOf(l, f, imports))
    requires from <= |placed|
    ensures Lists(imports, base, names, placed, from,
                  ScriptOf(SliceOf(l, f, imports, base), FixupsOf(l, f, imports), names, BindsOf(SegmentOf(l), placed[from..]), F.Ok),
                  idx, stop)
    decreases |placed| - from
  {
    hide I.ParseHeader, Blob, E.Fitting, Listable, E.EncodeStorage, MeaningOf, F.SlotSite, SegmentOf, FixupsOf,
      Lists, Described, Bears, Spoils;
    if from == |placed| {
      idx, stop := [], from;
      ListsNothing(imports, base, names, placed);
    } else {
      idx, stop := ListsFrom(l, f, imports, base, names, placed, from + 1);
      var p, c := placed[from], SegmentOf(l);
      assert placed[from..][1..] == placed[from + 1..];
      var rest := BindsOf(c, placed[from + 1..]);
      var slice, fixups := SliceOf(l, f, imports, base), FixupsOf(l, f, imports);
      var later := ScriptOf(slice, fixups, names, rest, F.Ok);
      if p.slot.Rebase? {
        RebaseSilent(c, imports, names, p);
        assert [] + rest == rest;
        ListsOver(imports, base, names, placed, from, later, idx, stop);
      } else {
        SlotMeans(l, f, imports, base, names, p);
        var binds := F.SlotSite(c, p.offset, p.slot) + rest;
        OneSite(c, p);
        assert binds[0] == F.SlotSite(c, p.offset, p.slot)[0] && binds[1..] == rest;
        if Spoils(imports, names, p) {
          ListsStop(imports, base, names, placed, from);
          idx, stop := [], from;
        } else if Bears(imports, names, p) {
          ListsOne(imports, base, names, placed, from, later, idx, stop);
          idx := [from] + idx;
        } else {
          ListsOver(imports, base, names, placed, from, later, idx, stop);
        }
      }
    }
  }

  lemma RebaseSilent(c: F.Segment, imports: seq<Imported>, names: seq<Bytes>, p: Placed)
    requires p.slot.Rebase?
    ensures F.SlotSite(c, p.offset, p.slot) == [] && !Bears(imports, names, p) && !Spoils(imports, names, p)
  {
  }

  lemma OneSite(c: F.Segment, p: Placed)
    requires !p.slot.Rebase?
    ensures |F.SlotSite(c, p.offset, p.slot)| == 1
  {
  }

  lemma ListsNothing(imports: seq<Imported>, base: nat, names: seq<Bytes>, placed: seq<Placed>)
    ensures Lists(imports, base, names, placed, |placed|, Script([], Fine), [], |placed|)
  {
  }

  lemma ListsStop(imports: seq<Imported>, base: nat, names: seq<Bytes>, placed: seq<Placed>, from: nat)
    requires from < |placed| && Spoils(imports, names, placed[from])
    ensures Lists(imports, base, names, placed, from, Script([], Corrupt), [], from)
  {
  }

  lemma ListsOver(imports: seq<Imported>, base: nat, names: seq<Bytes>, placed: seq<Placed>, from: nat, script: Script,
                  idx: seq<nat>, stop: nat)
    requires from < |placed| && Lists(imports, base, names, placed, from + 1, script, idx, stop)
    requires !Spoils(imports, names, placed[from]) && !Bears(imports, names, placed[from])
    ensures Lists(imports, base, names, placed, from, script, idx, stop)
  {
    hide Bears, Spoils, Described;
  }

  lemma ListsOne(imports: seq<Imported>, base: nat, names: seq<Bytes>, placed: seq<Placed>, from: nat, script: Script,
                 idx: seq<nat>, stop: nat)
    requires from < |placed| && Lists(imports, base, names, placed, from + 1, script, idx, stop)
    requires !Spoils(imports, names, placed[from]) && Bears(imports, names, placed[from])
    ensures var p := placed[from];
            !p.slot.Rebase? && p.slot.ordinal < |imports| &&
            Lists(imports, base, names, placed, from, Script([Described(imports, base, p)] + script.specs, script.ending),
                  [from] + idx, stop)
  {
    BearsBind(imports, names, placed[from]);
    hide Bears, Spoils, Described;
    forall i | 0 <= i < |idx|
      ensures from < idx[i]
    {
      assert idx[i] in idx;
    }
  }

  lemma BearsBind(imports: seq<Imported>, names: seq<Bytes>, p: Placed)
    requires Bears(imports, names, p)
    ensures !p.slot.Rebase? && p.slot.ordinal < |imports|
  {
  }

  /** From the bytes a linker writes to the list. What a slice lists for a symbol is, in the order of its
      slots, exactly those that bind an import bearing one of the names: at the slot's address, with its
      authentication, the sum of both addends, and the import's weakness. The list is corrupt, and ends,
      exactly at the first slot that binds no import there is, or whose sum leaves 64 bits. */
  lemma ListedExactly(l: E.Layout, f: I.ImportFormat, imports: seq<Imported>, base: nat, names: seq<Bytes>)
    returns (idx: seq<nat>, stop: nat)
    requires Writable(l, f, imports)
    ensures Lists(imports, base, names, PlacedOf(l), 0, SliceScript(SliceOf(l, f, imports, base), names), idx, stop)
  {
    hide P.ReadLittle, E.EncodeStarts, E.EncodeStorage, E.Fitting, Table, Pool, HeaderBytes, Listable, I.ParseHeader, ScriptOf, BindsOf,
      L.ImageListing, Lists, SegmentOf, PlacedOf;
    HeaderParsed(l, f, imports);
    var head := HeaderBytes(28, ImportsAt(l), SymbolsAt(l, f, imports), |imports|, CodeOf(f));
    var tail := Table(f, imports, 0) + Pool(imports);
    assert Blob(l, f, imports) == head + E.EncodeStarts(l) + tail;
    ImageListed(l, head, tail);
    assert PlacedOf(l)[0..] == PlacedOf(l);
    idx, stop := ListsFrom(l, f, imports, base, names, PlacedOf(l), 0);
  }

  // ---- what is prepared for a symbol ----

  /** The sites of a plan are those of the slots at `idx`, each once, with what the slots hold. */
  ghost predicate SitesOf(imports: seq<Imported>, base: nat, placed: seq<Placed>, idx: seq<nat>, slots: Slots, sites: seq<Site>) {
    && DistinctSites(sites) && |sites| <= 32
    && (forall i :: 0 <= i < |sites| ==>
          sites[i].original == ReadSlot(slots.mem, sites[i].spec.address) &&
          exists k :: k in idx && IsDescribed(imports, base, placed, k, sites[i].spec))
    && forall k :: k in idx && k < |placed| && !placed[k].slot.Rebase? && placed[k].slot.ordinal < |imports| ==>
         HasSite(sites, Described(imports, base, placed[k]))
  }

  predicate IsDescribed(imports: seq<Imported>, base: nat, placed: seq<Placed>, k: nat, spec: Spec) {
    k < |placed| && !placed[k].slot.Rebase? && placed[k].slot.ordinal < |imports| && spec == Described(imports, base, placed[k])
  }

  /** Preparing a symbol in an image as it was written succeeds exactly if nothing spoils the list, some
      slot bears a name of the symbol, all such slots lie in the image, and what they hold can be kept;
      the sites are then those slots. */
  method PrepareWritten(l: E.Layout, f: I.ImportFormat, imports: seq<Imported>, base: nat, names: seq<Bytes>, size: nat, slots: Slots)
    returns (r: Result, ghost idx: seq<nat>, ghost stop: nat)
    requires Writable(l, f, imports)
    ensures var placed := PlacedOf(l);
            var listed := SliceScript(SliceOf(l, f, imports, base), names);
            && Lists(imports, base, names, placed, 0, listed, idx, stop)
            && (r.status.Ok? <==>
                 && stop == |placed| && idx != [] && AddAll(slots, [], listed.specs).Sites?
                 && forall k :: k in idx && k < |placed| ==> placed[k].offset + 8 <= size)
            && (r.status.Ok? ==> SitesOf(imports, base, placed, idx, slots, r.sites))
            && (!r.status.Ok? ==> r.sites == [])
            && (idx == [] ==> r.status == if stop == |placed| then NotFound else MalformedImage)
            && ((forall k :: k in idx && k < |placed| ==> placed[k].offset + 8 <= size) && stop == |placed| ==>
                 match AddAll(slots, [], listed.specs)
                 case Fails(Overflow) => r.status.TooManySites?
                 case Fails(PacMismatch) => r.status.PacRefused?
                 case Fails(BadSite) => r.status.MalformedImage?
                 case Sites(_) => r.status.Ok? || r.status.NotFound?)
  {
    hide P.ReadLittle, E.EncodeStarts, E.EncodeStorage, E.Fitting, Blob, Listable, I.ParseHeader, SliceScript, Lists, PlacedOf,
      AddAll, Bounded, SitesOf;
    HeaderParsed(l, f, imports);
    var slice := SliceOf(l, f, imports, base);
    r := WalkSlice(slice, names, size, slots);
    idx, stop := ListedExactly(l, f, imports, base, names);
    ghost var listed, placed := SliceScript(slice, names), PlacedOf(l);
    BoundedExactly(listed, base, size);
    Fitting(imports, base, names, placed, listed, idx, stop, size);
    if r.status.Ok? {
      SitesListed(imports, base, names, placed, listed, idx, stop, slots, r.sites);
    }
    NoSpecs(slots, listed, base, size);
    SomeSites(slots, listed.specs);
  }

  lemma Fitting(imports: seq<Imported>, base: nat, names: seq<Bytes>, placed: seq<Placed>, script: Script, idx: seq<nat>,
                stop: nat, size: nat)
    requires Lists(imports, base, names, placed, 0, script, idx, stop)
    ensures AllFit(script.specs, base, size) <==> forall k :: k in idx && k < |placed| ==> placed[k].offset + 8 <= size
    ensures script.ending == if stop == |placed| then Fine else Corrupt
    ensures |idx| == |script.specs|
  {
    hide Bears, Spoils;
    if AllFit(script.specs, base, size) {
      forall k | k in idx && k < |placed|
        ensures placed[k].offset + 8 <= size
      {
        var i :| 0 <= i < |idx| && idx[i] == k;
        assert Fits(script.specs[i], base, size);
      }
    }
    if forall k :: k in idx && k < |placed| ==> placed[k].offset + 8 <= size {
      forall i | 0 <= i < |script.specs|
        ensures Fits(script.specs[i], base, size)
      {
        assert idx[i] in idx;
      }
    }
  }

  lemma SitesListed(imports: seq<Imported>, base: nat, names: seq<Bytes>, placed: seq<Placed>, script: Script, idx: seq<nat>,
                    stop: nat, slots: Slots, sites: seq<Site>)
    requires Lists(imports, base, names, placed, 0, script, idx, stop) && AddAll(slots, [], script.specs) == Sites(sites)
    ensures SitesOf(imports, base, placed, idx, slots, sites)
  {
    hide Bears, Spoils, AddAll, HasSite;
    SitesExactly(slots, [], script.specs, sites);
    forall i | 0 <= i < |sites|
      ensures exists k :: k in idx && IsDescribed(imports, base, placed, k, sites[i].spec)
    {
      var m :| 0 <= m < |script.specs| && script.specs[m] == sites[i].spec;
      ListedOne(imports, base, names, placed, script, idx, stop, m);
      assert idx[m] in idx && IsDescribed(imports, base, placed, idx[m], sites[i].spec);
    }
    forall k | k in idx && k < |placed| && !placed[k].slot.Rebase? && placed[k].slot.ordinal < |imports|
      ensures HasSite(sites, Described(imports, base, placed[k]))
    {
      var m :| 0 <= m < |idx| && idx[m] == k;
      assert script.specs[m] in script.specs;
    }
  }

  lemma ListedOne(imports: seq<Imported>, base: nat, names: seq<Bytes>, placed: seq<Placed>, script: Script, idx: seq<nat>,
                  stop: nat, m: nat)
    requires Lists(imports, base, names, placed, 0, script, idx, stop) && m < |idx|
    ensures IsDescribed(imports, base, placed, idx[m], script.specs[m])
  {
    BearsBind(imports, names, placed[idx[m]]);
    hide Bears, Spoils;
  }

  lemma NoSpecs(slots: Slots, script: Script, base: nat, size: nat)
    ensures AddAll(slots, [], []) == Sites([])
    ensures script.specs == [] ==> Bounded(script, base, size) == script
  {
  }

  lemma SomeSites(slots: Slots, specs: seq<Spec>)
    ensures AddAll(slots, [], specs).Sites? && specs != [] ==> AddAll(slots, [], specs).sites != []
  {
    hide AddAll;
    if AddAll(slots, [], specs).Sites? && specs != [] {
      SitesExactly(slots, [], specs, AddAll(slots, [], specs).sites);
      assert specs[0] in specs;
    }
  }
}
