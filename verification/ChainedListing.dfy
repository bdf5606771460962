/** What a walk of fixup chains lists, whoever is shown it: the traversal of
    src/resolvers/HKChainedFixups.c without its visitor. */
module ChainedListing {
  import opened Options
  import opened Leb128
  import opened ChainedPointers
  import opened ChainedFixups

  /** The binds in the order they are met, and how the walk ends if nobody stops it. */
  datatype Listing = Listing(binds: seq<BindSite>, status: Status)

  function Joined(first: Listing, second: Listing): Listing {
    if first.status.Ok? then Listing(first.binds + second.binds, second.status) else first
  }

  /** A visitor shown a listing. */
  function Played(visit: Visitor, seen: seq<BindSite>, l: Listing): Walked {
    var w := Feed(visit, seen, l.binds);
    if w.stopped then w else Walked(l.status, w.seen, false)
  }

  lemma JoinedPlayed(visit: Visitor, seen: seq<BindSite>, first: Listing, second: Listing)
    ensures var w := Played(visit, seen, first);
            Played(visit, seen, Joined(first, second)) == if !w.status.Ok? || w.stopped then w else Played(visit, w.seen, second)
  {
    hide Feed;
    FeedMore(visit, seen, first.binds, second.binds);
    FeedOk(visit, seen, first.binds);
    FeedOk(visit, Feed(visit, seen, first.binds).seen, second.binds);
  }

  lemma NothingPlayed(visit: Visitor, seen: seq<BindSite>, status: Status)
    ensures Played(visit, seen, Listing([], status)) == Walked(status, seen, false)
  {
  }

  // ---- chains, pages and segments ----

  function ChainListing(c: Segment, offset: nat): Listing
    decreases if offset <= c.end then c.end - offset + 1 else 0
  {
    if !Readable(c, offset) then Listing([], Malformed)
    else
      var p := DecodePointer(Word(c, offset), c.format);
      var here := if p.bind then [Site(c, offset, p)] else [];
      if p.next == 0 then Listing(here, Ok)
      else if Advanced(c, offset, p.next) <= offset then Listing(here, Malformed)
      else Joined(Listing(here, Ok), ChainListing(c, Advanced(c, offset, p.next)))
  }

  lemma {:induction false} ChainPlayed(c: Segment, visit: Visitor, offset: nat, seen: seq<BindSite>)
    ensures Chain(c, visit, offset, seen) == Played(visit, seen, ChainListing(c, offset))
    decreases if offset <= c.end then c.end - offset + 1 else 0
  {
    hide DecodePointer, Word, Advanced, Played;
    if !Readable(c, offset) {
      NothingPlayed(visit, seen, Malformed);
    } else {
      var p := DecodePointer(Word(c, offset), c.format);
      assert seen + [] == seen;
      OnePlayed(visit, seen, if p.bind then [Site(c, offset, p)] else []);
      if p.next != 0 && Advanced(c, offset, p.next) > offset {
        var next := Advanced(c, offset, p.next);
        var here := if p.bind then [Site(c, offset, p)] else [];
        JoinedPlayed(visit, seen, Listing(here, Ok), ChainListing(c, next));
        ChainPlayed(c, visit, next, seen + here);
      }
    }
  }

  lemma OnePlayed(visit: Visitor, seen: seq<BindSite>, here: seq<BindSite>)
    requires |here| <= 1
    ensures forall status :: Played(visit, seen, Listing(here, status)) ==
                               if here != [] && !visit(seen + here) then Walked(Ok, seen + here, true)
                               else Walked(status, seen + here, false)
  {
    assert seen + [] == seen;
    if here != [] {
      assert here == [here[0]] && here[1..] == [];
      FeedOk(visit, seen + here, []);
    }
  }

  function ListListing(blob: Bytes, s: Starts, base: nat, i: nat): Listing
    requires InBlob(blob, s)
    decreases s.extent - 2 * i
  {
    if 2 * i + 2 > s.extent then Listing([], Malformed)
    else
      var entry := EntryAt(blob, s, i);
      var l := ChainListing(s.segment, (base + entry % START_FLAG) % LIMIT);
      if entry >= START_FLAG then l else Joined(l, ListListing(blob, s, base, i + 1))
  }

  lemma {:induction false} ListPlayed(blob: Bytes, s: Starts, visit: Visitor, base: nat, i: nat, seen: seq<BindSite>)
    requires InBlob(blob, s)
    ensures List(blob, s, visit, base, i, seen) == Played(visit, seen, ListListing(blob, s, base, i))
    decreases s.extent - 2 * i
  {
    hide Chain, ChainListing, Played, EntryAt;
    if 2 * i + 2 > s.extent {
      NothingPlayed(visit, seen, Malformed);
    } else {
      var at := (base + EntryAt(blob, s, i) % START_FLAG) % LIMIT;
      ChainPlayed(s.segment, visit, at, seen);
      JoinedPlayed(visit, seen, ChainListing(s.segment, at), ListListing(blob, s, base, i + 1));
      ListPlayed(blob, s, visit, base, i + 1, Chain(s.segment, visit, at, seen).seen);
    }
  }

  function PageListing(blob: Bytes, s: Starts, page: nat): Listing
    requires InBlob(blob, s) && page < s.pageCount
  {
    var start := EntryAt(blob, s, page);
    if start == START_NONE then Listing([], Ok)
    else if start >= START_FLAG then ListListing(blob, s, PageBase(s, page), start - START_FLAG)
    else ChainListing(s.segment, (PageBase(s, page) + start) % LIMIT)
  }

  function PagesListing(blob: Bytes, s: Starts, page: nat): Listing
    requires InBlob(blob, s) && page <= s.pageCount
    decreases s.pageCount - page
  {
    if page == s.pageCount then Listing([], Ok) else Joined(PageListing(blob, s, page), PagesListing(blob, s, page + 1))
  }

  lemma {:induction false} PagesPlayed(blob: Bytes, s: Starts, visit: Visitor, page: nat, seen: seq<BindSite>)
    requires InBlob(blob, s) && page <= s.pageCount
    ensures Pages(blob, s, visit, page, seen) == Played(visit, seen, PagesListing(blob, s, page))
    decreases s.pageCount - page
  {
    hide Page, PageListing, Played;
    if page == s.pageCount {
      NothingPlayed(visit, seen, Ok);
    } else {
      PagePlayed(blob, s, visit, page, seen);
      JoinedPlayed(visit, seen, PageListing(blob, s, page), PagesListing(blob, s, page + 1));
      PagesPlayed(blob, s, visit, page + 1, Page(blob, s, visit, page, seen).seen);
    }
  }

  lemma PagePlayed(blob: Bytes, s: Starts, visit: Visitor, page: nat, seen: seq<BindSite>)
    requires InBlob(blob, s) && page < s.pageCount
    ensures Page(blob, s, visit, page, seen) == Played(visit, seen, PageListing(blob, s, page))
  {
    hide Chain, ChainListing, List, ListListing, Played, EntryAt;
    var start := EntryAt(blob, s, page);
    if start == START_NONE {
      NothingPlayed(visit, seen, Ok);
    } else if start >= START_FLAG {
      ListPlayed(blob, s, visit, PageBase(s, page), start - START_FLAG, seen);
    } else {
      ChainPlayed(s.segment, visit, (PageBase(s, page) + start) % LIMIT, seen);
    }
  }

  function SegmentsListing(blob: Bytes, starts: nat, count: nat, mappings: Option<seq<Mapping>>, storage: Bytes, i: nat): Listing
    requires starts + 4 + 4 * count <= |blob| && i <= count
    decreases count - i
  {
    if i == count then Listing([], Ok)
    else if ReadLittle(blob, starts + 4 + 4 * i, 4) == 0 then SegmentsListing(blob, starts, count, mappings, storage, i + 1)
    else
      match SegmentAt(blob, starts, mappings, storage, i)
      case Bad(status) => Listing([], status)
      case Good(s) => Joined(PagesListing(blob, s, 0), SegmentsListing(blob, starts, count, mappings, storage, i + 1))
  }

  lemma {:induction false} SegmentsPlayed(blob: Bytes, starts: nat, count: nat, mappings: Option<seq<Mapping>>, storage: Bytes,
                                          visit: Visitor, i: nat, seen: seq<BindSite>)
    requires starts + 4 + 4 * count <= |blob| && i <= count
    ensures Segments(blob, starts, count, mappings, storage, visit, i, seen) ==
            Played(visit, seen, SegmentsListing(blob, starts, count, mappings, storage, i))
    decreases count - i
  {
    hide Pages, PagesListing, Played, ReadLittle, ParseSegment;
    if i == count {
      NothingPlayed(visit, seen, Ok);
    } else if ReadLittle(blob, starts + 4 + 4 * i, 4) == 0 {
      SegmentsPlayed(blob, starts, count, mappings, storage, visit, i + 1, seen);
    } else {
      var parsed := SegmentAt(blob, starts, mappings, storage, i);
      if parsed.Bad? {
        NothingPlayed(visit, seen, parsed.status);
      } else {
        PagesPlayed(blob, parsed.starts, visit, 0, seen);
        JoinedPlayed(visit, seen, PagesListing(blob, parsed.starts, 0),
                     SegmentsListing(blob, starts, count, mappings, storage, i + 1));
        SegmentsPlayed(blob, starts, count, mappings, storage, visit, i + 1, Pages(blob, parsed.starts, visit, 0, seen).seen);
      }
    }
  }

  // ---- the image ----

  function ImageListing(blob: Bytes, starts: nat, mappings: Option<seq<Mapping>>, storage: Bytes): Listing {
    if mappings == Some([]) then Listing([], InvalidArgument)
    else if starts + 4 <= |blob| && 4 * ReadLittle(blob, starts, 4) <= |blob| - starts - 4 then
      SegmentsListing(blob, starts, ReadLittle(blob, starts, 4), mappings, storage, 0)
    else Listing([], Malformed)
  }

  /** Whatever the bytes are, every visitor is shown the same binds in the same order, until it
      asks to stop. */
  method IterateListing(blob: Bytes, starts: nat, mappings: Option<seq<Mapping>>, storage: Bytes, visit: Visitor)
    returns (w: Walked)
    ensures w == Played(visit, [], ImageListing(blob, starts, mappings, storage))
  {
    hide Segments, SegmentsListing, Played, Little;
    w := IterateBinds(blob, starts, mappings, storage, visit);
    if mappings == Some([]) {
      NothingPlayed(visit, [], InvalidArgument);
    } else if starts + 4 <= |blob| && 4 * ReadLittle(blob, starts, 4) <= |blob| - starts - 4 {
      SegmentsPlayed(blob, starts, ReadLittle(blob, starts, 4), mappings, storage, visit, 0, []);
    } else {
      NothingPlayed(visit, [], Malformed);
    }
  }
}
