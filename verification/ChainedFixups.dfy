/** Finding every bind of an image by walking its fixup chains: the traversal half of
    src/resolvers/HKChainedFixups.c. */
module ChainedFixups {
  import opened Options
  import opened Leb128
  import opened ChainedPointers

  const SEGMENT_HEADER: nat := 22
  const START_NONE: nat := 0xFFFF
  const START_FLAG: nat := 0x8000      // of a page: its starts are a list; in the list: its end

  datatype Status = Ok | InvalidArgument | Malformed | UnsupportedFormat

  /** Where a segment's chain words are, if not at their image offsets. */
  datatype Mapping = Mapping(image: nat, file: nat, size: nat)

  /** One segment as it is walked: its words are at `fileStart` in the storage, its chains span
      image offsets from `start` to `end`. */
  datatype Segment = Segment(storage: Bytes, fileStart: nat, fileSize: nat, format: Format, start: nat, end: nat, index: nat)

  datatype BindSite = BindSite(slot: nat, ordinal: nat, segment: nat, format: Format, auth: bool, key: nat, diversity: nat,
                               addressDiversity: bool, addend: int)

  /** The visitor's answer to the last bind, given all it has been shown. */
  type Visitor = seq<BindSite> -> bool

  datatype Walked = Walked(status: Status, seen: seq<BindSite>, stopped: bool)

  // ---- one chain ----

  predicate Readable(c: Segment, offset: nat) {
    && c.start <= offset <= c.end && 8 <= c.end - offset
    && var within := offset - c.start;
       within + 8 <= c.fileSize && c.fileStart <= |c.storage| && within + 8 <= |c.storage| - c.fileStart
  }

  function Word(c: Segment, offset: nat): nat
    requires Readable(c, offset)
  {
    ReadLittle(c.storage, c.fileStart + (offset - c.start), 8)
  }

  function Site(c: Segment, offset: nat, p: Pointer): BindSite {
    BindSite(offset, p.ordinal, c.index, c.format, p.auth, p.key, p.diversity, p.addressDiversity, p.addend)
  }

  // 64-bit addition.
  function Advanced(c: Segment, offset: nat, next: nat): nat {
    (offset + next * Stride(c.format)) % LIMIT
  }

  /** The walk without its loop. A link always leads further on, or nowhere. */
  function Chain(c: Segment, visit: Visitor, offset: nat, seen: seq<BindSite>): Walked
    decreases if offset <= c.end then c.end - offset + 1 else 0
  {
    if !Readable(c, offset) then Walked(Malformed, seen, false)
    else
      var p := DecodePointer(Word(c, offset), c.format);
      var shown := if p.bind then seen + [Site(c, offset, p)] else seen;
      if p.bind && !visit(shown) then Walked(Ok, shown, true)
      else if p.next == 0 then Walked(Ok, shown, false)
      else if Advanced(c, offset, p.next) <= offset then Walked(Malformed, shown, false)
      else Chain(c, visit, Advanced(c, offset, p.next), shown)
  }

  method WalkChain(c: Segment, visit: Visitor, start: nat, before: seq<BindSite>) returns (w: Walked)
    ensures w == Chain(c, visit, start, before)
  {
    hide DecodePointer, Word, Readable;
    var offset, seen := start, before;
    while true
      invariant Chain(c, visit, offset, seen) == Chain(c, visit, start, before)
      decreases if offset <= c.end then c.end - offset + 1 else 0
    {
      if !Readable(c, offset) {
        return Walked(Malformed, seen, false);
      }
      InSpan(c, offset);
      var p := DecodePointer(Word(c, offset), c.format);
      if p.bind {
        seen := seen + [Site(c, offset, p)];
        if !visit(seen) {
          return Walked(Ok, seen, true);
        }
      }
      if p.next == 0 {
        return Walked(Ok, seen, false);
      }
      var advanced := Advanced(c, offset, p.next);
      if advanced <= offset {
        return Walked(Malformed, seen, false);
      }
      offset := advanced;
    }
  }

  lemma InSpan(c: Segment, offset: nat)
    requires Readable(c, offset)
    ensures offset <= c.end
  {
  }

  /** The check for progress can fail, but only by wrapping around the address space: never in a
      segment that ends 16 KiB or more before its end. */
  lemma ProgressFailsByWrapping(c: Segment, offset: nat)
    requires Readable(c, offset) && c.end < LIMIT
    ensures var next := DecodePointer(Word(c, offset), c.format).next;
            && (next != 0 ==> (Advanced(c, offset, next) <= offset <==> offset + next * Stride(c.format) >= LIMIT))
            && (next != 0 && c.end <= LIMIT - 0x4000 ==> Advanced(c, offset, next) > offset)
  {
    NextFits(Word(c, offset), c.format);
    var next := DecodePointer(Word(c, offset), c.format).next;
    hide DecodePointer, Word;
    var distance := next * Stride(c.format);
    assert distance < 0x4000;
    if offset + distance >= LIMIT {
      assert (offset + distance) % LIMIT == offset + distance - LIMIT;
    }
  }

  lemma NextFits(raw: nat, f: Format)
    ensures DecodePointer(raw, f).next < NextLimit(f)
  {
  }

  // One rebase in the last words of the address space, linked to the word at address 0.
  function LastSegment(): Segment {
    Segment(Split(EncodePointer(Arm64e, Rebase(0, false), 2), 8), 0, 8, Arm64e, LIMIT - 16, LIMIT - 8, 0)
  }

  /** Such a link can be read: the chain is refused at it. */
  lemma WrappingLink(visit: Visitor)
    ensures var c := LastSegment();
            && Readable(c, c.start) && DecodePointer(Word(c, c.start), c.format).next == 2
            && Advanced(c, c.start, 2) == 0 && Chain(c, visit, c.start, []) == Walked(Malformed, [], false)
  {
    hide EncodePointer, DecodePointer, Split;
    var c, raw := LastSegment(), EncodePointer(Arm64e, Rebase(0, false), 2);
    WordsReadBack(Arm64e, Rebase(0, false), 2);
    assert c.storage[0..8] == c.storage;
    assert Word(c, c.start) == raw;
    PointerRoundTrip(Arm64e, Rebase(0, false), 2);
  }

  // ---- one segment ----

  /** A segment's chain starts, as its header in the blob describes them. */
  datatype Starts = Starts(segment: Segment, table: nat, extent: nat, pageSize: nat, pageCount: nat)

  datatype Parsed = Bad(status: Status) | Good(starts: Starts)

  function ParseSegment(blob: Bytes, at: nat, storage: Bytes, mapping: Option<Mapping>, index: nat): (r: Parsed)
    ensures r.Good? ==>
              && r.starts.table + r.starts.extent <= |blob| && 2 * r.starts.pageCount <= r.starts.extent
              && r.starts.pageCount * r.starts.pageSize == r.starts.segment.end - r.starts.segment.start
              && r.starts.segment.end < LIMIT
  {
    if at > |blob| || |blob| - at < SEGMENT_HEADER then Bad(Malformed)
    else
      var declared, pageSize := ReadLittle(blob, at, 4), ReadLittle(blob, at + 4, 2);
      var format, start := FormatOf(ReadLittle(blob, at + 6, 2)), ReadLittle(blob, at + 8, 8);
      var pageCount := ReadLittle(blob, at + 20, 2);
      if pageSize == 0 then Bad(Malformed)
      else if format.None? then Bad(UnsupportedFormat)
      else if declared < SEGMENT_HEADER || declared - SEGMENT_HEADER > |blob| - at - SEGMENT_HEADER then Bad(Malformed)
      else if 2 * pageCount > declared - SEGMENT_HEADER then Bad(Malformed)
      else if mapping.Some? && mapping.value.image != start then Bad(Malformed)
      else if pageCount * pageSize > LIMIT - 1 - start then Bad(Malformed)
      else
        var fileStart := if mapping.Some? then mapping.value.file else start;
        var fileSize := if mapping.Some? then mapping.value.size
                        else |storage| - (if start <= |storage| then start else |storage|);
        Good(Starts(Segment(storage, fileStart, fileSize, format.value, start, start + pageCount * pageSize, index),
                    at + SEGMENT_HEADER, declared - SEGMENT_HEADER, pageSize, pageCount))
  }

  /** Which segments are walked: the header and its table lie in the blob, pages have a size, the format is
      known, the mapping, if any, is for this offset, and the pages end within the address space. */
  lemma SegmentExactly(blob: Bytes, at: nat, storage: Bytes, mapping: Option<Mapping>, index: nat)
    requires at + 22 <= |blob|
    ensures var declared, pageSize := ReadLittle(blob, at, 4), ReadLittle(blob, at + 4, 2);
            var known := ReadLittle(blob, at + 6, 2) in {1, 2, 6, 9, 12};
            var start, pageCount := ReadLittle(blob, at + 8, 8), ReadLittle(blob, at + 20, 2);
            var r := ParseSegment(blob, at, storage, mapping, index);
            && (r.Good? <==>
                 && pageSize != 0 && known && 22 + 2 * pageCount <= declared && at + declared <= |blob|
                 && (mapping.Some? ==> mapping.value.image == start)
                 && start + pageCount * pageSize < 0x1_0000_0000_0000_0000)
            && (r == Bad(UnsupportedFormat) <==> pageSize != 0 && !known)
            && (r.Good? ==>
                 && r.starts.table == at + 22 && r.starts.pageSize == pageSize && r.starts.pageCount == pageCount
                 && r.starts.segment.start == start && r.starts.segment.index == index && r.starts.segment.storage == storage
                 && r.starts.segment.fileStart == if mapping.Some? then mapping.value.file else start)
  {
    hide ReadLittle;
  }

  ghost predicate InBlob(blob: Bytes, s: Starts) {
    s.table + s.extent <= |blob| && 2 * s.pageCount <= s.extent
  }

  function EntryAt(blob: Bytes, s: Starts, i: nat): nat
    requires InBlob(blob, s) && 2 * i + 2 <= s.extent
  {
    ReadLittle(blob, s.table + 2 * i, 2)
  }

  function PageBase(s: Starts, page: nat): nat {
    s.segment.start + page * s.pageSize
  }

  /** The chains of a page that has several; their starts run on past the pages' own. */
  function List(blob: Bytes, s: Starts, visit: Visitor, base: nat, i: nat, seen: seq<BindSite>): Walked
    requires InBlob(blob, s)
    decreases s.extent - 2 * i
  {
    if 2 * i + 2 > s.extent then Walked(Malformed, seen, false)
    else
      var entry := EntryAt(blob, s, i);
      var w := Chain(s.segment, visit, (base + entry % START_FLAG) % LIMIT, seen);
      if !w.status.Ok? || w.stopped || entry >= START_FLAG then w else List(blob, s, visit, base, i + 1, w.seen)
  }

  function Page(blob: Bytes, s: Starts, visit: Visitor, page: nat, seen: seq<BindSite>): Walked
    requires InBlob(blob, s) && page < s.pageCount
  {
    var start := EntryAt(blob, s, page);
    if start == START_NONE then Walked(Ok, seen, false)
    else if start >= START_FLAG then List(blob, s, visit, PageBase(s, page), start - START_FLAG, seen)
    else Chain(s.segment, visit, (PageBase(s, page) + start) % LIMIT, seen)
  }

  function Pages(blob: Bytes, s: Starts, visit: Visitor, page: nat, seen: seq<BindSite>): Walked
    requires InBlob(blob, s) && page <= s.pageCount
    decreases s.pageCount - page
  {
    if page == s.pageCount then Walked(Ok, seen, false)
    else
      var w := Page(blob, s, visit, page, seen);
      if !w.status.Ok? || w.stopped then w else Pages(blob, s, visit, page + 1, w.seen)
  }

  method WalkList(blob: Bytes, s: Starts, visit: Visitor, base: nat, first: nat, before: seq<BindSite>) returns (w: Walked)
    requires InBlob(blob, s)
    ensures w == List(blob, s, visit, base, first, before)
  {
    hide Chain;
    var i, seen := first, before;
    while true
      invariant List(blob, s, visit, base, i, seen) == List(blob, s, visit, base, first, before)
      decreases s.extent - 2 * i
    {
      if 2 * i + 2 > s.extent {
        return Walked(Malformed, seen, false);
      }
      var entry := EntryAt(blob, s, i);
      w := WalkChain(s.segment, visit, (base + entry % START_FLAG) % LIMIT, seen);
      if !w.status.Ok? || w.stopped || entry >= START_FLAG {
        return;
      }
      i, seen := i + 1, w.seen;
    }
  }

  method WalkSegment(blob: Bytes, s: Starts, visit: Visitor, before: seq<BindSite>) returns (w: Walked)
    requires InBlob(blob, s)
    ensures w == Pages(blob, s, visit, 0, before)
  {
    hide Chain, List;
    w := Walked(Ok, before, false);
    for page: nat := 0 to s.pageCount
      invariant w.status.Ok? && !w.stopped
      invariant Pages(blob, s, visit, page, w.seen) == Pages(blob, s, visit, 0, before)
    {
      var start := EntryAt(blob, s, page);
      if start != START_NONE {
        if start >= START_FLAG {
          w := WalkList(blob, s, visit, PageBase(s, page), start - START_FLAG, w.seen);
        } else {
          w := WalkChain(s.segment, visit, (PageBase(s, page) + start) % LIMIT, w.seen);
        }
        if !w.status.Ok? || w.stopped {
          return;
        }
      }
    }
  }

  // ---- the image ----

  function SegmentAt(blob: Bytes, starts: nat, mappings: Option<seq<Mapping>>, storage: Bytes, i: nat): Parsed
    requires starts + 4 + 4 * i + 4 <= |blob|
  {
    var at := ReadLittle(blob, starts + 4 + 4 * i, 4);
    if mappings.Some? && i >= |mappings.value| then Bad(Malformed)
    else if at > |blob| - starts then Bad(Malformed)
    else ParseSegment(blob, starts + at, storage, if mappings.Some? then Some(mappings.value[i]) else None, i)
  }

  function Segments(blob: Bytes, starts: nat, count: nat, mappings: Option<seq<Mapping>>, storage: Bytes, visit: Visitor,
                    i: nat, seen: seq<BindSite>): Walked
    requires starts + 4 + 4 * count <= |blob| && i <= count
    decreases count - i
  {
    if i == count then Walked(Ok, seen, false)
    else if ReadLittle(blob, starts + 4 + 4 * i, 4) == 0 then Segments(blob, starts, count, mappings, storage, visit, i + 1, seen)
    else
      match SegmentAt(blob, starts, mappings, storage, i)
      case Bad(status) => Walked(status, seen, false)
      case Good(s) =>
        var w := Pages(blob, s, visit, 0, seen);
        if !w.status.Ok? || w.stopped then w else Segments(blob, starts, count, mappings, storage, visit, i + 1, w.seen)
  }

  /** Every bind of the image: with `mappings` the storage is the file, without it the loaded
      image. Whatever the bytes are, no read leaves the blob or the storage. */
  method IterateBinds(blob: Bytes, starts: nat, mappings: Option<seq<Mapping>>, storage: Bytes, visit: Visitor) returns (w: Walked)
    ensures mappings == Some([]) ==> w == Walked(InvalidArgument, [], false)
    ensures mappings != Some([]) ==>
              w == if starts + 4 <= |blob| && 4 * ReadLittle(blob, starts, 4) <= |blob| - starts - 4
                   then Segments(blob, starts, ReadLittle(blob, starts, 4), mappings, storage, visit, 0, [])
                   else Walked(Malformed, [], false)
  {
    hide Pages, ParseSegment, Little;
    if mappings == Some([]) {
      return Walked(InvalidArgument, [], false);
    }
    if starts > |blob| || |blob| - starts < 4 {
      return Walked(Malformed, [], false);
    }
    var count := ReadLittle(blob, starts, 4);
    if 4 * count > |blob| - starts - 4 {
      return Walked(Malformed, [], false);
    }
    w := Walked(Ok, [], false);
    for i: nat := 0 to count
      invariant w.status.Ok? && !w.stopped
      invariant Segments(blob, starts, count, mappings, storage, visit, i, w.seen) ==
                Segments(blob, starts, count, mappings, storage, visit, 0, [])
    {
      if ReadLittle(blob, starts + 4 + 4 * i, 4) != 0 {
        var parsed := SegmentAt(blob, starts, mappings, storage, i);
        if parsed.Bad? {
          return Walked(parsed.status, w.seen, false);
        }
        w := WalkSegment(blob, parsed.starts, visit, w.seen);
        if !w.status.Ok? || w.stopped {
          return;
        }
      }
    }
  }

  // ---- what the bytes stand for ----

  /** A visitor shown a list of binds in turn, until it asks to stop. */
  function Feed(visit: Visitor, seen: seq<BindSite>, binds: seq<BindSite>): Walked
    decreases |binds|
  {
    if binds == [] then Walked(Ok, seen, false)
    else if !visit(seen + [binds[0]]) then Walked(Ok, seen + [binds[0]], true)
    else Feed(visit, seen + [binds[0]], binds[1..])
  }

  lemma {:induction false} FeedMore(visit: Visitor, seen: seq<BindSite>, first: seq<BindSite>, second: seq<BindSite>)
    ensures var w := Feed(visit, seen, first);
            Feed(visit, seen, first + second) == if w.stopped then w else Feed(visit, w.seen, second)
    decreases |first|
  {
    if first == [] {
      assert first + second == second;
    } else {
      assert (first + second)[1..] == first[1..] + second;
      FeedMore(visit, seen + [first[0]], first[1..], second);
    }
  }

  datatype Link = Link(slot: Slot, next: nat)

  /** The words from `offset` on are this chain, each link as far from the next as it says. */
  predicate ChainHolds(c: Segment, offset: nat, links: seq<Link>)
    decreases |links|
  {
    && links != [] && Readable(c, offset)
    && Encodable(c.format, links[0].slot) && links[0].next < NextLimit(c.format)
    && Word(c, offset) == EncodePointer(c.format, links[0].slot, links[0].next)
    && (links[0].next == 0 <==> |links| == 1)
    && (|links| > 1 ==> ChainHolds(c, offset + links[0].next * Stride(c.format), links[1..]))
  }

  function SlotSite(c: Segment, offset: nat, s: Slot): seq<BindSite> {
    match s
    case Bind(ordinal, addend) => [BindSite(offset, ordinal, c.index, c.format, false, 0, 0, false, addend)]
    case AuthBind(ordinal, diversity, addressDiversity, key) =>
      [BindSite(offset, ordinal, c.index, c.format, true, key, diversity, addressDiversity, 0)]
    case Rebase(_, _) => []
  }

  /** The binds of a chain, where they are. */
  function ChainBinds(c: Segment, offset: nat, links: seq<Link>): seq<BindSite>
    decreases |links|
  {
    if links == [] then []
    else SlotSite(c, offset, links[0].slot) + ChainBinds(c, offset + links[0].next * Stride(c.format), links[1..])
  }

  /** Walking a chain shows exactly its binds, in order, with their fields. */
  lemma {:induction false} WalkInvertsChain(c: Segment, visit: Visitor, offset: nat, links: seq<Link>, seen: seq<BindSite>)
    requires ChainHolds(c, offset, links) && c.end < LIMIT
    ensures Chain(c, visit, offset, seen) == Feed(visit, seen, ChainBinds(c, offset, links))
    decreases |links|
  {
    hide Chain, Word, Encodable, EncodePointer, SlotSite, Feed;
    var l := links[0];
    var here, rest := SlotSite(c, offset, l.slot), ChainBinds(c, offset + l.next * Stride(c.format), links[1..]);
    OneLink(c, visit, offset, l, seen);
    FeedMore(visit, seen, here, rest);
    FeedSlot(visit, seen, c, offset, l.slot);
    if |links| > 1 {
      var next := offset + l.next * Stride(c.format);
      NextInSpan(c, next, links[1..]);
      WalkInvertsChain(c, visit, next, links[1..], seen + here);
    } else {
      assert rest == [] && here + rest == here;
    }
  }

  // What the walk does at one word as the linker writes it.
  lemma OneLink(c: Segment, visit: Visitor, offset: nat, l: Link, seen: seq<BindSite>)
    requires Readable(c, offset) && Encodable(c.format, l.slot) && l.next < NextLimit(c.format)
    requires Word(c, offset) == EncodePointer(c.format, l.slot, l.next)
    ensures var here, shown := SlotSite(c, offset, l.slot), seen + SlotSite(c, offset, l.slot);
            Chain(c, visit, offset, seen) ==
            if here != [] && !visit(shown) then Walked(Ok, shown, true)
            else if l.next == 0 then Walked(Ok, shown, false)
            else if Advanced(c, offset, l.next) <= offset then Walked(Malformed, shown, false)
            else Chain(c, visit, Advanced(c, offset, l.next), shown)
  {
    hide DecodePointer, EncodePointer, Word, Encodable;
    PointerRoundTrip(c.format, l.slot, l.next);
    assert l.slot.Rebase? ==> seen + [] == seen;
  }

  lemma NextInSpan(c: Segment, offset: nat, links: seq<Link>)
    requires ChainHolds(c, offset, links) && c.end < LIMIT
    ensures offset < LIMIT && offset % LIMIT == offset
  {
  }

  lemma FeedSlot(visit: Visitor, seen: seq<BindSite>, c: Segment, offset: nat, s: Slot)
    ensures var here, shown := SlotSite(c, offset, s), seen + SlotSite(c, offset, s);
            Feed(visit, seen, here) == Walked(Ok, shown, here != [] && !visit(shown))
  {
    if s.Rebase? {
      assert seen + [] == seen;
    } else {
      assert SlotSite(c, offset, s)[1..] == [];
    }
  }

  // ---- pages, segments and images of chains ----

  datatype Run = Run(start: nat, links: seq<Link>)
  datatype PageChains = NoChains | Single(run: Run) | Several(index: nat, runs: seq<Run>)

  predicate RunHolds(s: Starts, base: nat, run: Run) {
    run.start < 0x8000 && ChainHolds(s.segment, base + run.start, run.links)
  }

  /** A list of starts in the table, its last one flagged. */
  predicate ListHolds(blob: Bytes, s: Starts, base: nat, i: nat, runs: seq<Run>)
    requires InBlob(blob, s)
    decreases |runs|
  {
    && runs != [] && 2 * i + 2 <= s.extent
    && EntryAt(blob, s, i) == runs[0].start + (if |runs| == 1 then 0x8000 else 0) && RunHolds(s, base, runs[0])
    && (|runs| > 1 ==> ListHolds(blob, s, base, i + 1, runs[1..]))
  }

  predicate PageHolds(blob: Bytes, s: Starts, page: nat, p: PageChains)
    requires InBlob(blob, s) && page < s.pageCount
  {
    match p
    case NoChains => EntryAt(blob, s, page) == 0xFFFF
    case Single(run) => EntryAt(blob, s, page) == run.start && RunHolds(s, PageBase(s, page), run)
    case Several(index, runs) =>
      && EntryAt(blob, s, page) == 0x8000 + index && 0x8000 + index < 0xFFFF
      && ListHolds(blob, s, PageBase(s, page), index, runs)
  }

  predicate PagesHold(blob: Bytes, s: Starts, page: nat, pages: seq<PageChains>)
    requires InBlob(blob, s)
    decreases |pages|
  {
    page + |pages| == s.pageCount &&
    (pages != [] ==> PageHolds(blob, s, page, pages[0]) && PagesHold(blob, s, page + 1, pages[1..]))
  }

  function RunsBinds(c: Segment, base: nat, runs: seq<Run>): seq<BindSite> {
    if runs == [] then [] else ChainBinds(c, base + runs[0].start, runs[0].links) + RunsBinds(c, base, runs[1..])
  }

  function PageBinds(s: Starts, page: nat, p: PageChains): seq<BindSite> {
    match p
    case NoChains => []
    case Single(run) => ChainBinds(s.segment, PageBase(s, page) + run.start, run.links)
    case Several(_, runs) => RunsBinds(s.segment, PageBase(s, page), runs)
  }

  function PagesBinds(s: Starts, page: nat, pages: seq<PageChains>): seq<BindSite>
    decreases |pages|
  {
    if pages == [] then [] else PageBinds(s, page, pages[0]) + PagesBinds(s, page + 1, pages[1..])
  }

  // A run's chain starts inside the segment, so nothing wraps.
  lemma RunWalk(s: Starts, visit: Visitor, base: nat, run: Run, seen: seq<BindSite>)
    requires RunHolds(s, base, run) && s.segment.end < LIMIT
    ensures Chain(s.segment, visit, (base + run.start) % LIMIT, seen) == Feed(visit, seen, ChainBinds(s.segment, base + run.start, run.links))
  {
    hide Chain, ChainBinds;
    NextInSpan(s.segment, base + run.start, run.links);
    WalkInvertsChain(s.segment, visit, base + run.start, run.links, seen);
  }

  lemma {:induction false} ListWalk(blob: Bytes, s: Starts, visit: Visitor, base: nat, i: nat, runs: seq<Run>, seen: seq<BindSite>)
    requires InBlob(blob, s) && ListHolds(blob, s, base, i, runs) && s.segment.end < LIMIT
    ensures List(blob, s, visit, base, i, seen) == Feed(visit, seen, RunsBinds(s.segment, base, runs))
    decreases |runs|
  {
    hide Chain, ChainBinds, ChainHolds, ReadLittle, Feed;
    RunWalk(s, visit, base, runs[0], seen);
    var binds := ChainBinds(s.segment, base + runs[0].start, runs[0].links);
    var w := Feed(visit, seen, binds);
    FeedMore(visit, seen, binds, RunsBinds(s.segment, base, runs[1..]));
    FeedOk(visit, seen, binds);
    if |runs| > 1 {
      ListWalk(blob, s, visit, base, i + 1, runs[1..], w.seen);
    } else {
      assert RunsBinds(s.segment, base, runs[1..]) == [];
      FeedOk(visit, w.seen, []);
    }
  }

  lemma {:induction false} FeedOk(visit: Visitor, seen: seq<BindSite>, binds: seq<BindSite>)
    ensures Feed(visit, seen, binds).status.Ok? && (binds == [] ==> Feed(visit, seen, binds) == Walked(Ok, seen, false))
    decreases |binds|
  {
    if binds != [] {
      FeedOk(visit, seen + [binds[0]], binds[1..]);
    }
  }

  lemma PageWalk(blob: Bytes, s: Starts, visit: Visitor, page: nat, p: PageChains, seen: seq<BindSite>)
    requires InBlob(blob, s) && page < s.pageCount && PageHolds(blob, s, page, p) && s.segment.end < LIMIT
    ensures Page(blob, s, visit, page, seen) == Feed(visit, seen, PageBinds(s, page, p))
  {
    hide Chain, ChainBinds, ChainHolds, ReadLittle, Feed, List, ListHolds, RunsBinds;
    match p
    case NoChains => FeedOk(visit, seen, []);
    case Single(run) => RunWalk(s, visit, PageBase(s, page), run, seen);
    case Several(index, runs) => ListWalk(blob, s, visit, PageBase(s, page), index, runs, seen);
  }

  /** A segment's walk shows exactly the binds of its pages' chains, in order. */
  lemma {:induction false} WalkInvertsPages(blob: Bytes, s: Starts, visit: Visitor, page: nat, pages: seq<PageChains>, seen: seq<BindSite>)
    requires InBlob(blob, s) && page <= s.pageCount && PagesHold(blob, s, page, pages) && s.segment.end < LIMIT
    ensures Pages(blob, s, visit, page, seen) == Feed(visit, seen, PagesBinds(s, page, pages))
    decreases |pages|
  {
    hide Page, PageHolds, PageBinds, Feed;
    if pages == [] {
      FeedOk(visit, seen, []);
    } else {
      var binds := PageBinds(s, page, pages[0]);
      PageWalk(blob, s, visit, page, pages[0], seen);
      FeedOk(visit, seen, binds);
      FeedMore(visit, seen, binds, PagesBinds(s, page + 1, pages[1..]));
      WalkInvertsPages(blob, s, visit, page + 1, pages[1..], Feed(visit, seen, binds).seen);
    }
  }

  // ---- images ----

  /** The table of segments describes these chains; None is a segment without fixups. */
  predicate SegmentsHold(blob: Bytes, starts: nat, count: nat, mappings: Option<seq<Mapping>>, storage: Bytes, i: nat,
                         segments: seq<Option<seq<PageChains>>>)
    requires starts + 4 + 4 * count <= |blob| && i <= count
    decreases |segments|
  {
    i + |segments| == count &&
    (segments != [] ==>
       && (if segments[0].None? then ReadLittle(blob, starts + 4 + 4 * i, 4) == 0
           else
             && ReadLittle(blob, starts + 4 + 4 * i, 4) != 0
             && var parsed := SegmentAt(blob, starts, mappings, storage, i);
                parsed.Good? && PagesHold(blob, parsed.starts, 0, segments[0].value))
       && SegmentsHold(blob, starts, count, mappings, storage, i + 1, segments[1..]))
  }

  function SegmentsBinds(blob: Bytes, starts: nat, count: nat, mappings: Option<seq<Mapping>>, storage: Bytes, i: nat,
                         segments: seq<Option<seq<PageChains>>>): seq<BindSite>
    requires starts + 4 + 4 * count <= |blob| && i <= count && SegmentsHold(blob, starts, count, mappings, storage, i, segments)
    decreases |segments|
  {
    if segments == [] then []
    else
      (if segments[0].None? then [] else PagesBinds(SegmentAt(blob, starts, mappings, storage, i).starts, 0, segments[0].value)) +
      SegmentsBinds(blob, starts, count, mappings, storage, i + 1, segments[1..])
  }

  /** Iterating an image shows the visitor exactly its binds, segment by segment, page by page,
      chain by chain, until the visitor asks to stop. */
  lemma {:induction false} WalkInvertsImage(blob: Bytes, starts: nat, count: nat, mappings: Option<seq<Mapping>>, storage: Bytes,
                                            visit: Visitor, i: nat, segments: seq<Option<seq<PageChains>>>, seen: seq<BindSite>)
    requires starts + 4 + 4 * count <= |blob| && i <= count && SegmentsHold(blob, starts, count, mappings, storage, i, segments)
    ensures Segments(blob, starts, count, mappings, storage, visit, i, seen) ==
            Feed(visit, seen, SegmentsBinds(blob, starts, count, mappings, storage, i, segments))
    decreases |segments|
  {
    hide Pages, PagesHold, PagesBinds, ParseSegment, ReadLittle, Feed;
    if segments == [] {
      FeedOk(visit, seen, []);
    } else {
      var rest := SegmentsBinds(blob, starts, count, mappings, storage, i + 1, segments[1..]);
      if segments[0].None? {
        assert [] + rest == rest;
        WalkInvertsImage(blob, starts, count, mappings, storage, visit, i + 1, segments[1..], seen);
      } else {
        var s := SegmentAt(blob, starts, mappings, storage, i).starts;
        var binds := PagesBinds(s, 0, segments[0].value);
        WalkInvertsPages(blob, s, visit, 0, segments[0].value, seen);
        FeedOk(visit, seen, binds);
        FeedMore(visit, seen, binds, rest);
        WalkInvertsImage(blob, starts, count, mappings, storage, visit, i + 1, segments[1..], Feed(visit, seen, binds).seen);
      }
    }
  }

  /** A word as the linker writes it reads back as itself. */
  lemma WordsReadBack(f: Format, s: Slot, next: nat)
    requires Encodable(f, s) && next < NextLimit(f)
    ensures Little(Split(EncodePointer(f, s, next), 8)) == EncodePointer(f, s, next)
  {
    PayloadFits(f, s);
    WordSize();
    SplitBack(EncodePointer(f, s, next), 8);
  }

  lemma WordSize()
    ensures Pow2(64) == LIMIT
  {
    Powers();
    assert Pow2(64) == 2 * Pow2(63);
  }
}
