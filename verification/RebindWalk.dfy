/** Walking a slice for one symbol: chained_bind_cb of src/engines/HKRebindEngine.c over the chained
    fixups of a file, as the caches of RebindCaches stand for it. */
module RebindWalk {
  import opened Options
  import opened Leb128
  import opened ImportSlots
  import opened RebindCaches
  import ChainedPointers
  import F = ChainedFixups
  import L = ChainedListing
  import I = ChainedImports

  /** A slice as loading leaves it: its fixups, the words they are about, and where it is loaded. */
  datatype Slice = Slice(blob: Bytes, mappings: seq<F.Mapping>, storage: Bytes, base: nat)

  const INT64_LIMIT: int := 0x8000_0000_0000_0000

  /** What a bind means to whoever looks for these names. */
  datatype Meaning = Unreadable | Other | Wanted(spec: Spec)

  function MeaningOf(slice: Slice, fixups: I.Fixups, names: seq<Bytes>, b: F.BindSite): Meaning
    requires I.ParseHeader(slice.blob) == I.Accepted(fixups)
  {
    match I.ImportAt(slice.blob, fixups, b.ordinal)
    case Failed(_) => Unreadable
    case Import(_, entry, name) =>
      if name !in names then Other
      else if !(-INT64_LIMIT <= entry.addend + b.addend < INT64_LIMIT) then Unreadable
      else
        Wanted(Spec(slice.base + b.slot, Schema(b.auth, b.key, b.diversity, b.addressDiversity), entry.addend + b.addend,
                    entry.weak))
  }

  function EndingOf(status: F.Status): Ending {
    match status
    case Ok => Fine
    case Malformed => Corrupt
    case _ => UnknownFormat
  }

  // ---- what the walk lists ----

  function ScriptOf(slice: Slice, fixups: I.Fixups, names: seq<Bytes>, binds: seq<F.BindSite>, status: F.Status): Script
    requires I.ParseHeader(slice.blob) == I.Accepted(fixups)
  {
    if binds == [] then Script([], EndingOf(status))
    else
      var rest := ScriptOf(slice, fixups, names, binds[1..], status);
      match MeaningOf(slice, fixups, names, binds[0])
      case Unreadable => Script([], Corrupt)
      case Other => rest
      case Wanted(spec) => Script([spec] + rest.specs, rest.ending)
  }

  function SliceScript(slice: Slice, names: seq<Bytes>): Script {
    match I.ParseHeader(slice.blob)
    case Refused(_) => Script([], Corrupt)
    case Accepted(fixups) =>
      var l := L.ImageListing(slice.blob, fixups.starts, Some(slice.mappings), slice.storage);
      ScriptOf(slice, fixups, names, l.binds, l.status)
  }

  /** Where no bind stops it, the list ends as the walk does. */
  lemma {:induction false} EndsAsWalked(slice: Slice, fixups: I.Fixups, names: seq<Bytes>, binds: seq<F.BindSite>, status: F.Status)
    requires I.ParseHeader(slice.blob) == I.Accepted(fixups)
    requires forall b :: b in binds ==>
               match I.ImportAt(slice.blob, fixups, b.ordinal)
               case Failed(_) => false
               case Import(_, entry, name) =>
                 name in names ==> -0x8000_0000_0000_0000 <= entry.addend + b.addend < 0x8000_0000_0000_0000
    ensures ScriptOf(slice, fixups, names, binds, status).ending ==
            if status == F.Ok then Fine else if status == F.Malformed then Corrupt else UnknownFormat
    decreases |binds|
  {
    hide I.ImportAt, I.ParseHeader;
    if binds != [] {
      assert binds[0] in binds;
      EndsAsWalked(slice, fixups, names, binds[1..], status);
    }
  }

  // ---- what the callback does ----

  /** What the callback has collected, or why it asked to stop. */
  datatype Heard = Going(sites: seq<Site>) | Refused(failure: Failure) | Broken

  function Hear(slots: Slots, size: nat, slice: Slice, fixups: I.Fixups, names: seq<Bytes>, sites: seq<Site>, b: F.BindSite): Heard
    requires I.ParseHeader(slice.blob) == I.Accepted(fixups)
  {
    match MeaningOf(slice, fixups, names, b)
    case Unreadable => Broken
    case Other => Going(sites)
    case Wanted(spec) =>
      if !Fits(spec, slice.base, size) then Broken
      else
        match AddSite(slots, sites, spec)
        case Fails(failure) => Heard.Refused(failure)
        case Sites(more) => Going(more)
  }

  function HeardAll(slots: Slots, size: nat, slice: Slice, fixups: I.Fixups, names: seq<Bytes>, seen: seq<F.BindSite>): Heard
    requires I.ParseHeader(slice.blob) == I.Accepted(fixups)
  {
    if seen == [] then Going([])
    else
      match HeardAll(slots, size, slice, fixups, names, seen[..|seen| - 1])
      case Going(sites) => Hear(slots, size, slice, fixups, names, sites, seen[|seen| - 1])
      case stopped => stopped
  }

  function Verdict(heard: Heard, status: F.Status): Result {
    match heard
    case Refused(failure) => Result(Refusal(failure), [])
    case Broken => Result(MalformedImage, [])
    case Going(sites) => Concluded(Sites(sites), EndingOf(status))
  }

  /** Collecting while walking comes to what listing first and collecting then does. */
  lemma {:induction false} HearsScript(slots: Slots, size: nat, slice: Slice, fixups: I.Fixups, names: seq<Bytes>,
                                       seen: seq<F.BindSite>, sites: seq<Site>, binds: seq<F.BindSite>, status: F.Status,
                                       visit: F.Visitor)
    requires I.ParseHeader(slice.blob) == I.Accepted(fixups)
    requires forall some :: visit(some) == HeardAll(slots, size, slice, fixups, names, some).Going?
    requires HeardAll(slots, size, slice, fixups, names, seen) == Going(sites)
    ensures var w, script := F.Feed(visit, seen, binds), Bounded(ScriptOf(slice, fixups, names, binds, status), slice.base, size);
            Verdict(HeardAll(slots, size, slice, fixups, names, w.seen), if w.stopped then F.Ok else status) ==
            Concluded(AddAll(slots, sites, script.specs), script.ending)
    decreases |binds|
  {
    hide MeaningOf, AddSite, Fits, I.ParseHeader;
    if binds != [] {
      var more := seen + [binds[0]];
      assert more[..|more| - 1] == seen;
      var heard := Hear(slots, size, slice, fixups, names, sites, binds[0]);
      assert HeardAll(slots, size, slice, fixups, names, more) == heard;
      if heard.Going? {
        HearsScript(slots, size, slice, fixups, names, more, heard.sites, binds[1..], status, visit);
      }
      OneBind(slots, size, slice, fixups, names, sites, binds, status);
    }
  }

  // The first bind of a listing, on both sides.
  lemma OneBind(slots: Slots, size: nat, slice: Slice, fixups: I.Fixups, names: seq<Bytes>, sites: seq<Site>,
                binds: seq<F.BindSite>, status: F.Status)
    requires I.ParseHeader(slice.blob) == I.Accepted(fixups) && binds != []
    ensures var script := Bounded(ScriptOf(slice, fixups, names, binds, status), slice.base, size);
            var rest := Bounded(ScriptOf(slice, fixups, names, binds[1..], status), slice.base, size);
            var r := Concluded(AddAll(slots, sites, script.specs), script.ending);
            match Hear(slots, size, slice, fixups, names, sites, binds[0])
            case Going(more) => r == Concluded(AddAll(slots, more, rest.specs), rest.ending)
            case heard => r == Verdict(heard, F.Ok)
  {
    hide MeaningOf, AddSite, Fits, I.ParseHeader;
    var listed := ScriptOf(slice, fixups, names, binds[1..], status);
    var m := MeaningOf(slice, fixups, names, binds[0]);
    if m.Wanted? {
      var whole := Script([m.spec] + listed.specs, listed.ending);
      assert whole.specs[1..] == listed.specs;
      var rest := Bounded(listed, slice.base, size);
      assert ([m.spec] + rest.specs)[1..] == rest.specs;
    }
  }

  /** Collects the sites of a symbol while walking its slice. */
  method WalkSlice(slice: Slice, names: seq<Bytes>, size: nat, slots: Slots) returns (r: Result)
    requires I.ParseHeader(slice.blob).Accepted?
    ensures var script := Bounded(SliceScript(slice, names), slice.base, size);
            r == Concluded(AddAll(slots, [], script.specs), script.ending)
  {
    hide I.ParseHeader, L.ImageListing, F.Feed, HeardAll, ScriptOf, Bounded, Concluded, AddAll;
    var fixups := I.ParseHeader(slice.blob).fixups;
    var visit: F.Visitor := seen => HeardAll(slots, size, slice, fixups, names, seen).Going?;
    var w := L.IterateListing(slice.blob, fixups.starts, Some(slice.mappings), slice.storage, visit);
    r := Verdict(HeardAll(slots, size, slice, fixups, names, w.seen), w.status);
    var l := L.ImageListing(slice.blob, fixups.starts, Some(slice.mappings), slice.storage);
    NothingHeard(slots, size, slice, fixups, names);
    F.FeedOk(visit, [], l.binds);
    HearsScript(slots, size, slice, fixups, names, [], [], l.binds, l.status, visit);
  }

  lemma NothingHeard(slots: Slots, size: nat, slice: Slice, fixups: I.Fixups, names: seq<Bytes>)
    requires I.ParseHeader(slice.blob) == I.Accepted(fixups)
    ensures HeardAll(slots, size, slice, fixups, names, []) == Going([])
  {
  }

  // ---- the walk under the caches ----

  /** The walk the caches stand for, over the slices there are. */
  function SliceWalker(slices: nat -> Slice, names: Symbol -> seq<Bytes>): Walker {
    (contents: nat, symbol: Symbol) => SliceScript(slices(contents), names(symbol))
  }

  /** Loading gives slices that can be read, loaded where the image is. */
  ghost predicate LoadsSlices(load: Loader, slices: nat -> Slice) {
    forall image: Image :: load(image).Loaded? ==>
      slices(load(image).contents).base == image.base && I.ParseHeader(slices(load(image).contents).blob).Accepted?
  }

  /** Preparing through the caches, where every file has one slice at its address and every image one
      size, is walking the image's slice now, bind by bind, whatever was prepared before. */
  method PrepareThrough(caches: Caches, slices: nat -> Slice, names: Symbol -> seq<Bytes>, image: Image, size: nat, symbol: Symbol,
                        slots: Slots)
    returns (r: Result, walked: Result)
    requires caches.Valid() && caches.walk == SliceWalker(slices, names) && LoadsSlices(caches.load, slices)
    modifies caches, caches.files, caches.symbols
    ensures caches.Valid()
    ensures caches.load(image).CannotLoad? ==> r == walked == Result(caches.load(image).status, [])
    ensures caches.sizes.steady && OneSlice(caches.load) ==> r == walked
    ensures caches.load(image).Loaded? ==>
              var slice := slices(caches.load(image).contents);
              var script := Bounded(SliceScript(slice, names(symbol)), slice.base, size);
              walked == Concluded(AddAll(slots, [], script.specs), script.ending)
  {
    hide SliceScript, Bounded, Concluded, AddAll, OneSlice, I.ParseHeader, Serves;
    r := caches.Prepare(image, size, symbol, slots);
    var loaded := caches.load(image);
    if loaded.CannotLoad? {
      walked := Result(loaded.status, []);
    } else {
      assert caches.walk(loaded.contents, symbol) == SliceScript(slices(loaded.contents), names(symbol));
      walked := WalkSlice(slices(loaded.contents), names(symbol), size, slots);
    }
  }
}
