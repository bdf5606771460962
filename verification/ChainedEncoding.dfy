/** Writing fixup chains as a linker does: what src/resolvers/HKChainedFixups.c walks. */
module ChainedEncoding {
  import opened Options
  import opened Leb128
  import opened ChainedPointers
  import opened ChainedFixups

  // ---- numbers in bytes ----

  lemma Sizes()
    ensures Pow2(8 * 2) == 0x1_0000 && Pow2(8 * 4) == BITS32 && Pow2(8 * 8) == LIMIT
  {
    hide Pow2;
    assert Pow2(8 * 0) == 1 by {
      ZeroPower();
    }
    EightMore(0);
    EightMore(1);
    EightMore(2);
    EightMore(3);
    EightMore(4);
    EightMore(5);
    EightMore(6);
    EightMore(7);
  }

  lemma SplitRead(front: Bytes, v: nat, n: nat, back: Bytes)
    requires v < Pow2(8 * n)
    ensures ReadLittle(front + Split(v, n) + back, |front|, n) == v
  {
    var all := front + Split(v, n) + back;
    assert all[|front|..|front| + n] == Split(v, n);
    SplitBack(v, n);
  }

  function Zeros(n: nat): (b: Bytes)
    ensures |b| == n
  {
    seq(n, _ => 0)
  }

  // ---- a chain ----

  /** Every link leads to a place past the word it is in, and the last one nowhere. */
  predicate Spaced(f: Format, links: seq<Link>) {
    && links != [] && Encodable(f, links[0].slot) && links[0].next < NextLimit(f)
    && if |links| == 1 then links[0].next == 0 else links[0].next * Stride(f) >= 8 && Spaced(f, links[1..])
  }

  function EncodeChain(f: Format, links: seq<Link>): (b: Bytes)
    requires Spaced(f, links)
    ensures |b| >= 8
  {
    var l := links[0];
    var word := Split(EncodePointer(f, l.slot, l.next), 8);
    if |links| == 1 then word else word + Zeros(l.next * Stride(f) - 8) + EncodeChain(f, links[1..])
  }

  /** The bytes of a chain, wherever they are in a segment, hold that chain. */
  lemma {:induction false} ChainEncoded(c: Segment, offset: nat, links: seq<Link>, front: Bytes, back: Bytes)
    requires Spaced(c.format, links) && c.storage == front + EncodeChain(c.format, links) + back
    requires c.start <= offset && c.fileStart + (offset - c.start) == |front|
    requires var n := |EncodeChain(c.format, links)|; offset - c.start + n <= c.fileSize && offset + n <= c.end
    ensures ChainHolds(c, offset, links)
    decreases |links|
  {
    hide EncodePointer, Encodable, ReadLittle, Split, NextLimit, Pow2;
    var f, l := c.format, links[0];
    var raw := EncodePointer(f, l.slot, l.next);
    var word := Split(raw, 8);
    WordFits(f, l.slot, l.next);
    if |links| == 1 {
      SplitRead(front, raw, 8, back);
    } else {
      var gap, rest := Zeros(l.next * Stride(f) - 8), EncodeChain(f, links[1..]);
      assert c.storage == front + word + (gap + rest + back);
      SplitRead(front, raw, 8, gap + rest + back);
      assert c.storage == (front + word + gap) + rest + back;
      ChainEncoded(c, offset + l.next * Stride(f), links[1..], front + word + gap, back);
    }
  }

  lemma WordFits(f: Format, s: Slot, next: nat)
    requires Encodable(f, s) && next < NextLimit(f)
    ensures EncodePointer(f, s, next) < Pow2(8 * 8)
  {
    PayloadFits(f, s);
    Sizes();
  }

  /** Slots one word after the other, as a chain. */
  function Consecutive(f: Format, slots: seq<Slot>): (links: seq<Link>)
    ensures |links| == |slots| && forall i :: 0 <= i < |slots| ==> links[i].slot == slots[i]
  {
    seq(|slots|, i requires 0 <= i < |slots| => Link(slots[i], if i + 1 == |slots| then 0 else 8 / Stride(f)))
  }

  /** Any encodable slots can be chained, in every format. */
  lemma {:induction false} ConsecutiveSpaced(f: Format, slots: seq<Slot>)
    requires slots != [] && forall i :: 0 <= i < |slots| ==> Encodable(f, slots[i])
    ensures Spaced(f, Consecutive(f, slots)) && |EncodeChain(f, Consecutive(f, slots))| == 8 * |slots|
    decreases |slots|
  {
    hide Encodable, EncodePointer;
    var links := Consecutive(f, slots);
    OneStep(f);
    hide Stride, NextLimit;
    assert links[0].next == if |slots| == 1 then 0 else 8 / Stride(f);
    if |slots| > 1 {
      assert links[1..] == Consecutive(f, slots[1..]);
      ConsecutiveSpaced(f, slots[1..]);
    }
  }

  lemma OneStep(f: Format)
    ensures 8 / Stride(f) * Stride(f) == 8 && 0 < 8 / Stride(f) < NextLimit(f)
  {
  }

  // ---- pages ----

  /** A page has one chain from its first byte, or none. */
  predicate PageFits(f: Format, pageSize: nat, links: seq<Link>) {
    links == [] || (Spaced(f, links) && |EncodeChain(f, links)| <= pageSize)
  }

  predicate PagesFit(f: Format, pageSize: nat, pages: seq<seq<Link>>) {
    forall i :: 0 <= i < |pages| ==> PageFits(f, pageSize, pages[i])
  }

  function EncodePage(f: Format, pageSize: nat, links: seq<Link>): (b: Bytes)
    requires PageFits(f, pageSize, links)
    ensures |b| == pageSize
  {
    if links == [] then Zeros(pageSize) else EncodeChain(f, links) + Zeros(pageSize - |EncodeChain(f, links)|)
  }

  function EncodePages(f: Format, pageSize: nat, pages: seq<seq<Link>>): Bytes
    requires PagesFit(f, pageSize, pages)
  {
    if pages == [] then []
    else
      assert PagesFit(f, pageSize, pages[1..]);
      EncodePage(f, pageSize, pages[0]) + EncodePages(f, pageSize, pages[1..])
  }

  function PageTable(pages: seq<seq<Link>>): (b: Bytes)
    ensures |b| == 2 * |pages|
  {
    if pages == [] then [] else Split(if pages[0] == [] then 0xFFFF else 0, 2) + PageTable(pages[1..])
  }

  function PageOf(links: seq<Link>): PageChains { if links == [] then NoChains else Single(Run(0, links)) }

  function PagesOf(pages: seq<seq<Link>>): (chains: seq<PageChains>)
    ensures |chains| == |pages|
  {
    if pages == [] then [] else [PageOf(pages[0])] + PagesOf(pages[1..])
  }

  /** A segment that is laid out so from a page on. */
  ghost predicate LaidOut(blob: Bytes, s: Starts, page: nat, pages: seq<seq<Link>>, table: Bytes, tail: Bytes, before: Bytes) {
    var c := s.segment;
    && InBlob(blob, s) && page + |pages| == s.pageCount && PagesFit(c.format, s.pageSize, pages)
    && blob == table + PageTable(pages) + tail && |table| == s.table + 2 * page
    && c.storage == before + EncodePages(c.format, s.pageSize, pages) && |before| == c.fileStart + page * s.pageSize
    && s.pageCount * s.pageSize <= c.fileSize && c.end == c.start + s.pageCount * s.pageSize
  }

  /** It then holds these chains, page by page. */
  lemma {:induction false} PagesEncoded(blob: Bytes, s: Starts, page: nat, pages: seq<seq<Link>>, table: Bytes, tail: Bytes, before: Bytes)
    requires LaidOut(blob, s, page, pages, table, tail, before)
    ensures PagesHold(blob, s, page, PagesOf(pages))
    decreases |pages|
  {
    hide EncodePage, ChainHolds, ReadLittle, Split, PageFits, EncodePages, PageTable;
    if pages != [] {
      NextLaidOut(blob, s, page, pages, table, tail, before);
      PageEncoded(blob, s, page, pages, table, tail, before);
      PagesEncoded(blob, s, page + 1, pages[1..], table + Split(if pages[0] == [] then 0xFFFF else 0, 2), tail,
                   before + EncodePage(s.segment.format, s.pageSize, pages[0]));
    }
  }

  lemma NextLaidOut(blob: Bytes, s: Starts, page: nat, pages: seq<seq<Link>>, table: Bytes, tail: Bytes, before: Bytes)
    requires LaidOut(blob, s, page, pages, table, tail, before) && pages != []
    ensures PageFits(s.segment.format, s.pageSize, pages[0])
    ensures LaidOut(blob, s, page + 1, pages[1..], table + Split(if pages[0] == [] then 0xFFFF else 0, 2), tail,
                    before + EncodePage(s.segment.format, s.pageSize, pages[0]))
  {
    hide EncodePage, Split, PageFits, EncodePages, PageTable;
    PagesUnfold(s.segment.format, s.pageSize, pages);
    var c := s.segment;
    var entry, first := Split(if pages[0] == [] then 0xFFFF else 0, 2), EncodePage(c.format, s.pageSize, pages[0]);
    assert blob == (table + entry) + PageTable(pages[1..]) + tail;
    assert c.storage == (before + first) + EncodePages(c.format, s.pageSize, pages[1..]);
    assert (page + 1) * s.pageSize == page * s.pageSize + s.pageSize;
  }

  lemma PageEncoded(blob: Bytes, s: Starts, page: nat, pages: seq<seq<Link>>, table: Bytes, tail: Bytes, before: Bytes)
    requires LaidOut(blob, s, page, pages, table, tail, before) && pages != []
    ensures PageHolds(blob, s, page, PageOf(pages[0]))
  {
    hide ChainHolds, ReadLittle, Split, Spaced, EncodeChain, EncodePages, PageTable, Pow2;
    var start := if pages[0] == [] then 0xFFFF else 0;
    PagesUnfold(s.segment.format, s.pageSize, pages);
    Sizes();
    SplitRead(table, start, 2, PageTable(pages[1..]) + tail);
    assert blob == table + Split(start, 2) + (PageTable(pages[1..]) + tail);
    if pages[0] != [] {
      PageChain(blob, s, page, pages, table, tail, before);
      assert PageBase(s, page) + 0 == PageBase(s, page);
    }
  }

  lemma PageChain(blob: Bytes, s: Starts, page: nat, pages: seq<seq<Link>>, table: Bytes, tail: Bytes, before: Bytes)
    requires LaidOut(blob, s, page, pages, table, tail, before) && pages != [] && pages[0] != []
    ensures ChainHolds(s.segment, PageBase(s, page), pages[0])
  {
    hide ChainHolds, Spaced, EncodeChain, EncodePages, PageTable, PagesFit, Zeros, EncodePage, Split;
    var c := s.segment;
    var back := AfterChain(c.format, s.pageSize, pages);
    assert c.storage == before + EncodeChain(c.format, pages[0]) + back;
    var at, total := PagesBefore(page, s.pageCount, s.pageSize);
    ChainInPage(c, at, s.pageSize, total, pages[0], before, back);
  }

  lemma AfterChain(f: Format, pageSize: nat, pages: seq<seq<Link>>) returns (back: Bytes)
    requires PagesFit(f, pageSize, pages) && pages != [] && pages[0] != []
    ensures Spaced(f, pages[0]) && |EncodeChain(f, pages[0])| <= pageSize
    ensures EncodePages(f, pageSize, pages) == EncodeChain(f, pages[0]) + back
  {
    hide Spaced, EncodeChain, EncodePages, PagesFit, Zeros, Split, PageTable;
    PagesUnfold(f, pageSize, pages);
    back := Zeros(pageSize - |EncodeChain(f, pages[0])|) + EncodePages(f, pageSize, pages[1..]);
  }

  lemma ChainInPage(c: Segment, at: nat, size: nat, total: nat, links: seq<Link>, before: Bytes, back: Bytes)
    requires Spaced(c.format, links) && |EncodeChain(c.format, links)| <= size && at + size <= total <= c.fileSize
    requires c.storage == before + EncodeChain(c.format, links) + back
    requires |before| == c.fileStart + at && c.end == c.start + total
    ensures ChainHolds(c, c.start + at, links)
  {
    hide Spaced, EncodeChain, ChainHolds;
    ChainEncoded(c, c.start + at, links, before, back);
  }

  lemma PagesUnfold(f: Format, pageSize: nat, pages: seq<seq<Link>>)
    requires PagesFit(f, pageSize, pages) && pages != []
    ensures PagesFit(f, pageSize, pages[1..]) && PageFits(f, pageSize, pages[0])
    ensures EncodePages(f, pageSize, pages) == EncodePage(f, pageSize, pages[0]) + EncodePages(f, pageSize, pages[1..])
    ensures PageTable(pages) == Split(if pages[0] == [] then 0xFFFF else 0, 2) + PageTable(pages[1..])
  {
    hide EncodePage, Split, PageFits;
  }

  lemma PagesBefore(page: nat, count: nat, size: nat) returns (at: nat, total: nat)
    requires page < count
    ensures at == page * size && total == count * size && at + size <= total
  {
    at, total := page * size, count * size;
    var d: nat := count - page - 1;
    assert count * size == (page + 1 + d) * size == page * size + size + d * size;
  }

  // ---- an image ----

  function CodeOf(f: Format): (code: nat)
    ensures FormatOf(code) == Some(f) && code < 0x1_0000
  {
    match f
    case Arm64e => 1
    case Ptr64 => 2
    case Ptr64Offset => 6
    case Arm64eUserland => 9
    case Arm64eUserland24 => 12
  }

  /** A segment of pages, where it belongs in the image. */
  datatype Layout = Layout(format: Format, pageSize: nat, start: nat, pages: seq<seq<Link>>)

  predicate Fitting(l: Layout) {
    && 0 < l.pageSize < 0x1_0000 && |l.pages| < 0x1_0000 && l.start + |l.pages| * l.pageSize < LIMIT
    && PagesFit(l.format, l.pageSize, l.pages)
  }

  /** What goes in front of the table of pages: one segment, eight bytes on. */
  function SegmentHeader(l: Layout): (b: Bytes)
    ensures |b| == 30
  {
    Split(1, 4) + Split(8, 4) + Split(22 + 2 * |l.pages|, 4) + Split(l.pageSize, 2) + Split(CodeOf(l.format), 2) +
    Split(l.start, 8) + Split(0, 4) + Split(|l.pages|, 2)
  }

  function EncodeStarts(l: Layout): Bytes { SegmentHeader(l) + PageTable(l.pages) }

  function EncodeStorage(l: Layout): Bytes
    requires Fitting(l)
  {
    EncodePages(l.format, l.pageSize, l.pages)
  }

  function MappingOf(l: Layout): Mapping { Mapping(l.start, 0, |l.pages| * l.pageSize) }

  // The fields are read where they were put.
  lemma HeaderFields(l: Layout, blob: Bytes, head: Bytes, tail: Bytes)
    requires Fitting(l) && blob == head + EncodeStarts(l) + tail
    ensures var at := |head|;
            && |blob| == at + 30 + 2 * |l.pages| + |tail|
            && ReadLittle(blob, at, 4) == 1 && ReadLittle(blob, at + 4, 4) == 8
            && ReadLittle(blob, at + 8, 4) == 22 + 2 * |l.pages| && ReadLittle(blob, at + 12, 2) == l.pageSize
            && ReadLittle(blob, at + 14, 2) == CodeOf(l.format) && ReadLittle(blob, at + 16, 8) == l.start
            && ReadLittle(blob, at + 28, 2) == |l.pages|
  {
    hide ReadLittle, Split, Pow2, PagesFit, PageTable, FormatOf;
    Sizes();
    var code, size, rest := CodeOf(l.format), 22 + 2 * |l.pages|, PageTable(l.pages) + tail;
    var p1, p2, p3, p4 := Split(1, 4), Split(8, 4), Split(size, 4), Split(l.pageSize, 2);
    var p5, p6, p7, p8 := Split(code, 2), Split(l.start, 8), Split(0, 4), Split(|l.pages|, 2);
    SplitRead(head, 1, 4, p2 + p3 + p4 + p5 + p6 + p7 + p8 + rest);
    assert blob == head + p1 + (p2 + p3 + p4 + p5 + p6 + p7 + p8 + rest);
    SplitRead(head + p1, 8, 4, p3 + p4 + p5 + p6 + p7 + p8 + rest);
    assert blob == (head + p1) + p2 + (p3 + p4 + p5 + p6 + p7 + p8 + rest);
    SplitRead(head + p1 + p2, size, 4, p4 + p5 + p6 + p7 + p8 + rest);
    assert blob == (head + p1 + p2) + p3 + (p4 + p5 + p6 + p7 + p8 + rest);
    SplitRead(head + p1 + p2 + p3, l.pageSize, 2, p5 + p6 + p7 + p8 + rest);
    assert blob == (head + p1 + p2 + p3) + p4 + (p5 + p6 + p7 + p8 + rest);
    SplitRead(head + p1 + p2 + p3 + p4, code, 2, p6 + p7 + p8 + rest);
    assert blob == (head + p1 + p2 + p3 + p4) + p5 + (p6 + p7 + p8 + rest);
    SplitRead(head + p1 + p2 + p3 + p4 + p5, l.start, 8, p7 + p8 + rest);
    assert blob == (head + p1 + p2 + p3 + p4 + p5) + p6 + (p7 + p8 + rest);
    SplitRead(head + p1 + p2 + p3 + p4 + p5 + p6 + p7, |l.pages|, 2, rest);
    assert blob == (head + p1 + p2 + p3 + p4 + p5 + p6 + p7) + p8 + rest;
  }

  /** What is written for an image, wherever it is in its blob, is read as that image. */
  lemma ImageEncoded(l: Layout, head: Bytes, tail: Bytes)
    requires Fitting(l)
    ensures var blob, at := head + EncodeStarts(l) + tail, |head|;
            && at + 4 + 4 * 1 <= |blob| && ReadLittle(blob, at, 4) == 1
            && SegmentsHold(blob, at, 1, Some([MappingOf(l)]), EncodeStorage(l), 0, [Some(PagesOf(l.pages))])
            && StartsOf(l, at) == SegmentAt(blob, at, Some([MappingOf(l)]), EncodeStorage(l), 0)
  {
    hide ReadLittle, EncodePages, PageTable, SegmentHeader, PagesHold;
    var blob, storage := head + EncodeStarts(l) + tail, EncodeStorage(l);
    HeaderFields(l, blob, head, tail);
    var parsed := SegmentAt(blob, |head|, Some([MappingOf(l)]), storage, 0);
    assert parsed == StartsOf(l, |head|);
    assert [] + storage == storage;
    assert blob == (head + SegmentHeader(l)) + PageTable(l.pages) + tail;
    PagesEncoded(blob, parsed.starts, 0, l.pages, head + SegmentHeader(l), tail, []);
  }

  /** How the segment of a layout is walked. */
  function StartsOf(l: Layout, at: nat): Parsed
    requires Fitting(l)
  {
    var extent := |l.pages| * l.pageSize;
    Good(Starts(Segment(EncodeStorage(l), 0, extent, l.format, l.start, l.start + extent, 0), at + 8 + 22,
                2 * |l.pages|, l.pageSize, |l.pages|))
  }

  /** Iterating what was written for an image shows exactly the binds that were written, in order. */
  method WriteAndIterate(l: Layout, head: Bytes, tail: Bytes, visit: Visitor) returns (w: Walked)
    requires Fitting(l)
    ensures w == Feed(visit, [], PagesBinds(StartsOf(l, |head|).starts, 0, PagesOf(l.pages)))
  {
    hide ReadLittle, EncodeStarts, EncodePages, SegmentsHold, PagesBinds, Segments, Feed, StartsOf;
    var blob, storage, mappings := head + EncodeStarts(l) + tail, EncodeStorage(l), Some([MappingOf(l)]);
    ImageEncoded(l, head, tail);
    w := IterateBinds(blob, |head|, mappings, storage, visit);
    WalkInvertsImage(blob, |head|, 1, mappings, storage, visit, 0, [Some(PagesOf(l.pages))], []);
    OneSegment(blob, |head|, mappings, storage, PagesOf(l.pages));
  }

  lemma OneSegment(blob: Bytes, at: nat, mappings: Option<seq<Mapping>>, storage: Bytes, pages: seq<PageChains>)
    requires at + 8 <= |blob| && SegmentsHold(blob, at, 1, mappings, storage, 0, [Some(pages)])
    ensures SegmentAt(blob, at, mappings, storage, 0).Good?
    ensures SegmentsBinds(blob, at, 1, mappings, storage, 0, [Some(pages)]) ==
            PagesBinds(SegmentAt(blob, at, mappings, storage, 0).starts, 0, pages)
  {
    hide PagesBinds, PagesHold, ReadLittle, ParseSegment;
    assert [Some(pages)][1..] == [];
  }
}
