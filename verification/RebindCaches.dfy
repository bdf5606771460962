/** Preparing to rebind a symbol in a file-backed image, through the two process-wide caches of
    src/engines/HKRebindEngine.c. What a file holds and what its chains list are fixed per image;
    what the slots hold, and how large the caller says the image is, are not. */
module RebindCaches {
  import opened Options
  import opened ImportSlots

  const FILE_ENTRIES: nat := 4
  const SYMBOL_ENTRIES: nat := 8

  datatype Status = Ok | NotFound | MalformedImage | TooManySites | MetadataUnavailable | PacRefused | UnsupportedFormat

  datatype Image = Image(path: string, base: nat, cputype: nat, cpusubtype: nat)

  /** How a file's slice for an image comes out: not at all, or as something to walk. */
  datatype Load = CannotLoad(status: Status) | Loaded(contents: nat)

  /** What walking the chains for one symbol lists, and how the walk ends by itself. */
  datatype Ending = Fine | Corrupt | UnknownFormat
  datatype Script = Script(specs: seq<Spec>, ending: Ending)

  datatype Symbol = Symbol(name: string, convention: nat)

  type Loader = Image -> Load
  type Walker = (nat, Symbol) -> Script

  datatype Result = Result(status: Status, sites: seq<Site>)

  function Refusal(f: Failure): Status {
    match f
    case Overflow => TooManySites
    case PacMismatch => PacRefused
    case BadSite => MalformedImage
  }

  /** The verdict on what a walk, fresh or replayed, collected. */
  function Concluded(added: Added, ending: Ending): Result {
    match added
    case Fails(f) => Result(Refusal(f), [])
    case Sites(sites) =>
      if ending.Corrupt? then Result(MalformedImage, [])
      else if ending.UnknownFormat? then Result(UnsupportedFormat, [])
      else if sites == [] then Result(NotFound, [])
      else Result(Ok, sites)
  }

  /** The slot lies within the image. */
  predicate Fits(spec: Spec, base: nat, size: nat) { base <= spec.address && spec.address + 8 <= base + size }

  /** A walk ends as corrupt at the first slot that does not. */
  function Bounded(script: Script, base: nat, size: nat): (bounded: Script)
    decreases |script.specs|
  {
    if script.specs == [] then script
    else if !Fits(script.specs[0], base, size) then Script([], Corrupt)
    else
      var rest := Bounded(Script(script.specs[1..], script.ending), base, size);
      Script([script.specs[0]] + rest.specs, rest.ending)
  }

  ghost predicate AllFit(specs: seq<Spec>, base: nat, size: nat) {
    forall i :: 0 <= i < |specs| ==> Fits(specs[i], base, size)
  }

  lemma {:induction false} BoundedExactly(script: Script, base: nat, size: nat)
    ensures Bounded(script, base, size).ending.Fine? <==> AllFit(script.specs, base, size) && script.ending.Fine?
    ensures Bounded(script, base, size).ending.Fine? ==> Bounded(script, base, size) == script
    decreases |script.specs|
  {
    if script.specs != [] {
      var rest := Script(script.specs[1..], script.ending);
      BoundedExactly(rest, base, size);
      assert script.specs == [script.specs[0]] + rest.specs;
      assert AllFit(script.specs, base, size) <==> Fits(script.specs[0], base, size) && AllFit(rest.specs, base, size) by {
        if AllFit(script.specs, base, size) {
          forall i | 0 <= i < |rest.specs|
            ensures Fits(rest.specs[i], base, size)
          {
            assert rest.specs[i] == script.specs[i + 1];
          }
        }
      }
    }
  }

  /** What a preparation without caches gives on the slots as they are. */
  function Uncached(load: Loader, walk: Walker, image: Image, size: nat, symbol: Symbol, slots: Slots): Result {
    match load(image)
    case CannotLoad(status) => Result(status, [])
    case Loaded(contents) =>
      var script := Bounded(walk(contents, symbol), image.base, size);
      Concluded(AddAll(slots, [], script.specs), script.ending)
  }

  datatype FileEntry = FileEntry(image: Image, contents: nat)
  datatype SymbolEntry = SymbolEntry(path: string, base: nat, symbol: Symbol, specs: seq<Spec>)

  /** The same file is not loaded at the same address for two processor types. */
  ghost predicate OneSlice(load: Loader) {
    forall a: Image, b: Image :: a.path == b.path && a.base == b.base && load(a).Loaded? && load(b).Loaded? ==> load(a) == load(b)
  }

  predicate SamePlace(a: Image, b: Image) { a.path == b.path && a.base == b.base }

  /** A symbol entry is what a walk that succeeded kept, on slots that may since have changed. */
  ghost predicate Kept(e: SymbolEntry, load: Loader, walk: Walker, image: Image, size: nat) {
    && e.path == image.path && e.base == image.base && load(image).Loaded?
    && var script := Bounded(walk(load(image).contents, e.symbol), image.base, size);
       script.ending.Fine? && KeptFrom(e.specs, script.specs)
  }

  ghost predicate KeptFrom(specs: seq<Spec>, listed: seq<Spec>) {
    exists slots, sites :: AddAll(slots, [], listed) == Sites(sites) && Specs(sites) == specs
  }

  /** How large each image was said to be, as long as that was always the same. */
  datatype Sizes = Sizes(extent: (string, nat) -> nat, steady: bool)

  ghost predicate KeptSomewhere(e: SymbolEntry, load: Loader, walk: Walker, sizes: Sizes) {
    exists image, size :: Kept(e, load, walk, image, size) && (sizes.steady ==> size == sizes.extent(e.path, e.base))
  }

  function Replayed(e: SymbolEntry, now: Slots): Result { Concluded(AddAll(now, [], e.specs), Fine) }

  /** Replaying an entry is walking again. */
  lemma ReplayKept(e: SymbolEntry, load: Loader, walk: Walker, image: Image, size: nat, now: Slots)
    requires Kept(e, load, walk, image, size)
    ensures Replayed(e, now) == Uncached(load, walk, image, size, e.symbol, now)
  {
    var listed := Bounded(walk(load(image).contents, e.symbol), image.base, size).specs;
    var slots, sites :| AddAll(slots, [], listed) == Sites(sites) && Specs(sites) == e.specs;
    ReplayIsFaithful(slots, now, listed, sites);
  }

  /** Where a cache puts a new entry: the first empty place, or the one whose turn it is. */
  function Victim<T>(places: seq<Option<T>>, turn: nat): (i: nat)
    requires turn < |places|
    ensures i < |places|
    ensures (forall j :: 0 <= j < |places| ==> places[j].Some?) ==> i == turn
    ensures (exists j :: 0 <= j < |places| && places[j].None?) ==> places[i].None? && forall j :: 0 <= j < i ==> places[j].Some?
  {
    if (exists j :: 0 <= j < |places| && places[j].None?) then FirstEmpty(places, 0) else turn
  }

  function FirstEmpty<T>(places: seq<Option<T>>, from: nat): (i: nat)
    requires exists j :: from <= j < |places| && places[j].None?
    ensures from <= i < |places| && places[i].None? && forall j :: from <= j < i ==> places[j].Some?
    decreases |places| - from
  {
    if places[from].None? then from else FirstEmpty(places, from + 1)
  }

  /** What the caches hold of an image's file, and of a symbol: of the latter the first entry. */
  predicate HasFile(files: seq<Option<FileEntry>>, image: Image) {
    exists i :: 0 <= i < |files| && files[i].Some? && files[i].value.image == image
  }

  predicate About(e: Option<SymbolEntry>, image: Image, symbol: Symbol) {
    e.Some? && e.value.path == image.path && e.value.base == image.base && e.value.symbol == symbol
  }

  function FirstSymbol(symbols: seq<Option<SymbolEntry>>, image: Image, symbol: Symbol): (e: Option<SymbolEntry>)
    ensures e.Some? ==> e in symbols && About(e, image, symbol)
  {
    if symbols == [] then None else if About(symbols[0], image, symbol) then symbols[0] else FirstSymbol(symbols[1..], image, symbol)
  }

  /** What a walk that succeeds leaves in the symbol cache. */
  function Entry(load: Loader, walk: Walker, image: Image, size: nat, symbol: Symbol, slots: Slots): Option<SymbolEntry> {
    match load(image)
    case CannotLoad(_) => None
    case Loaded(contents) =>
      var script := Bounded(walk(contents, symbol), image.base, size);
      match AddAll(slots, [], script.specs)
      case Fails(_) => None
      case Sites(sites) => if script.ending.Fine? then Some(SymbolEntry(image.path, image.base, symbol, Specs(sites))) else None
  }

  /** The two caches' entries, and whose turn it is in each. */
  datatype Places = Places(files: seq<Option<FileEntry>>, fileNext: nat, symbols: seq<Option<SymbolEntry>>, symbolNext: nat)

  function Placed<T>(places: seq<Option<T>>, turn: nat, e: Option<T>): seq<Option<T>>
    requires turn < |places|
  {
    if e.None? then places else places[Victim(places, turn) := e]
  }

  /** An entry of the symbol's is replayed if the image's file is cached, too; any other preparation
      walks, and keeps what it loaded and listed if there was no entry of that. */
  ghost predicate Serves(load: Loader, walk: Walker, image: Image, size: nat, symbol: Symbol, slots: Slots, s: Places, r: Result,
                         t: Places)
  {
    var known, cached := FirstSymbol(s.symbols, image, symbol), HasFile(s.files, image);
    && s.fileNext < |s.files| && s.symbolNext < |s.symbols|
    && r == (if cached && known.Some? then Replayed(known.value, slots) else Uncached(load, walk, image, size, symbol, slots))
    && t.files == Placed(s.files, s.fileNext,
                         if cached || load(image).CannotLoad? then None else Some(FileEntry(image, load(image).contents)))
    && t.symbols == Placed(s.symbols, s.symbolNext, if known.Some? then None else Entry(load, walk, image, size, symbol, slots))
  }

  class Caches {
    const load: Loader
    const walk: Walker
    const files: array<Option<FileEntry>>
    const symbols: array<Option<SymbolEntry>>
    ghost var sizes: Sizes
    var fileNext: nat
    var symbolNext: nat

    ghost predicate Valid()
      reads this, files, symbols
    {
      && files.Length == 4 && symbols.Length == 8
      && fileNext < FILE_ENTRIES && symbolNext < SYMBOL_ENTRIES
      && (forall i :: 0 <= i < files.Length && files[i].Some? ==> load(files[i].value.image) == Loaded(files[i].value.contents))
      && (forall i :: 0 <= i < symbols.Length && symbols[i].Some? ==> KeptSomewhere(symbols[i].value, load, walk, sizes))
    }

    constructor (load: Loader, walk: Walker, ghost extent: (string, nat) -> nat)
      ensures Valid() && this.load == load && this.walk == walk && fresh(files) && fresh(symbols)
      ensures sizes == Sizes(extent, true)
      ensures files[..] == seq(4, _ => None) && symbols[..] == seq(8, _ => None)
    {
      sizes := Sizes(extent, true);
      this.load, this.walk, fileNext, symbolNext := load, walk, 0, 0;
      files := new Option<FileEntry>[FILE_ENTRIES](_ => None);
      symbols := new Option<SymbolEntry>[SYMBOL_ENTRIES](_ => None);
    }

    method FindFile(image: Image) returns (hit: Option<FileEntry>)
      requires Valid()
      ensures hit.Some? <==> HasFile(files[..], image)
      ensures hit.Some? ==> hit.value.image == image && load(image) == Loaded(hit.value.contents)
      ensures hit.None? ==> forall i :: 0 <= i < files.Length && files[i].Some? ==> files[i].value.image != image
    {
      for i := 0 to files.Length
        invariant forall j :: 0 <= j < i && files[j].Some? ==> files[j].value.image != image
      {
        if files[i].Some? && files[i].value.image == image {
          assert files[..][i] == files[i];
          return files[i];
        }
      }
      return None;
    }

    method FindSymbol(image: Image, symbol: Symbol) returns (hit: Option<SymbolEntry>)
      requires Valid()
      ensures hit.Some? ==> hit.value.path == image.path && hit.value.base == image.base && hit.value.symbol == symbol
      ensures hit.Some? ==> KeptSomewhere(hit.value, load, walk, sizes)
      ensures hit == FirstSymbol(symbols[..], image, symbol)
    {
      hide KeptSomewhere;
      assert symbols[..][0..] == symbols[..];
      for i := 0 to symbols.Length
        invariant FirstSymbol(symbols[..][i..], image, symbol) == FirstSymbol(symbols[..], image, symbol)
      {
        assert symbols[..][i..][1..] == symbols[..][i + 1..];
        if About(symbols[i], image, symbol) {
          return symbols[i];
        }
      }
      return None;
    }

    /** Into the first empty slot, or in place of the entry whose turn it is. */
    method InsertFile(e: FileEntry)
      requires Valid() && load(e.image) == Loaded(e.contents)
      modifies this`fileNext, files
      ensures Valid()
      ensures files[..] == old(files[..])[Victim(old(files[..]), old(fileNext)) := Some(e)]
    {
      hide KeptSomewhere;
      for i := 0 to files.Length
        invariant unchanged(this) && unchanged(files)
        invariant forall j :: 0 <= j < i ==> files[j].Some?
      {
        if files[i].None? {
          files[i] := Some(e);
          return;
        }
      }
      files[fileNext] := Some(e);
      fileNext := (fileNext + 1) % FILE_ENTRIES;
    }

    method InsertSymbol(e: SymbolEntry)
      requires Valid() && KeptSomewhere(e, load, walk, sizes)
      modifies this`symbolNext, symbols
      ensures Valid()
      ensures symbols[..] == old(symbols[..])[Victim(old(symbols[..]), old(symbolNext)) := Some(e)]
    {
      hide KeptSomewhere;
      for i := 0 to symbols.Length
        invariant unchanged(this) && unchanged(symbols)
        invariant forall j :: 0 <= j < i ==> symbols[j].Some?
      {
        if symbols[i].None? {
          symbols[i] := Some(e);
          return;
        }
      }
      symbols[symbolNext] := Some(e);
      symbolNext := (symbolNext + 1) % SYMBOL_ENTRIES;
    }

    ghost function Now(): Places
      reads this, files, symbols
    {
      Places(files[..], fileNext, symbols[..], symbolNext)
    }

    /** Neither cache asks how large the image is said to be now. */
    ghost method Note(image: Image, size: nat)
      requires Valid()
      modifies this`sizes
      ensures Valid() && sizes == old(sizes).(steady := old(sizes).steady && size == old(sizes).extent(image.path, image.base))
    {
      sizes := sizes.(steady := sizes.steady && size == sizes.extent(image.path, image.base));
      forall i | 0 <= i < symbols.Length && symbols[i].Some?
        ensures KeptSomewhere(symbols[i].value, load, walk, sizes)
      {
        var slice, was :| Kept(symbols[i].value, load, walk, slice, was) &&
          (old(sizes).steady ==> was == sizes.extent(symbols[i].value.path, symbols[i].value.base));
        assert Kept(symbols[i].value, load, walk, slice, was);
      }
    }

    /** The answer is that of a fresh walk, on the slots as they are now, of a slice of this file at
        this address, for some size: of the right slice if there is only one, and for the right size
        if all preparations so far gave the same. This holds of every preparation, whatever the ones
        before it have put into the caches or driven out. */
    method Prepare(image: Image, size: nat, symbol: Symbol, slots: Slots) returns (r: Result)
      requires Valid()
      modifies this`fileNext, this`symbolNext, this`sizes, files, symbols
      ensures Valid()
      ensures sizes == old(sizes).(steady := old(sizes).steady && size == old(sizes).extent(image.path, image.base))
      ensures exists slice, was :: SamePlace(slice, image) && r == Uncached(load, walk, slice, was, symbol, slots)
      ensures load(image).CannotLoad? || (sizes.steady && OneSlice(load)) ==> r == Uncached(load, walk, image, size, symbol, slots)
      ensures Serves(load, walk, image, size, symbol, slots, old(Now()), r, Now())
    {
      hide KeptSomewhere, Kept, Concluded, Bounded, OneSlice, HasFile, FirstSymbol, Victim, Entry, Uncached, Replayed;
      Note(image, size);
      assert SamePlace(image, image);
      var file := FindFile(image);
      if file.Some? {
        var known := FindSymbol(image, symbol);
        if known.Some? {
          r := Replay(known.value, image, size, symbol, slots);
          return;
        }
        r := Walk(image, size, symbol, slots, file.value.contents, true);
        return;
      }
      var loaded := load(image);
      if loaded.CannotLoad? {
        NothingMade(image, size, symbol, slots);
        return Result(loaded.status, []);
      }
      InsertFile(FileEntry(image, loaded.contents));
      var known := FindSymbol(image, symbol);
      r := Walk(image, size, symbol, slots, loaded.contents, known.None?);
    }

    lemma NothingMade(image: Image, size: nat, symbol: Symbol, slots: Slots)
      requires load(image).CannotLoad?
      ensures Uncached(load, walk, image, size, symbol, slots) == Result(load(image).status, [])
      ensures Entry(load, walk, image, size, symbol, slots).None?
    {
    }

    method Replay(e: SymbolEntry, image: Image, size: nat, symbol: Symbol, slots: Slots) returns (r: Result)
      requires KeptSomewhere(e, load, walk, sizes) && load(image).Loaded?
      requires e.path == image.path && e.base == image.base && e.symbol == symbol
      requires sizes.steady ==> size == sizes.extent(image.path, image.base)
      ensures r == Replayed(e, slots)
      ensures exists slice, was :: SamePlace(slice, image) && r == Uncached(load, walk, slice, was, symbol, slots)
      ensures sizes.steady && OneSlice(load) ==> r == Uncached(load, walk, image, size, symbol, slots)
    {
      hide KeptSomewhere, Kept, Concluded, Bounded;
      var again := CollectSites(slots, e.specs);
      r := Concluded(again, Fine);
      ghost var slice, was := Source(e);
      ReplayKept(e, load, walk, slice, was, slots);
      KeptPlace(e, slice, was);
      assert SamePlace(slice, image);
    }

    /** Walks the slice, and keeps what a walk that succeeds lists. */
    method Walk(image: Image, size: nat, symbol: Symbol, slots: Slots, contents: nat, keep: bool) returns (r: Result)
      requires Valid() && load(image) == Loaded(contents)
      requires sizes.steady ==> size == sizes.extent(image.path, image.base)
      modifies this`symbolNext, symbols
      ensures Valid() && r == Uncached(load, walk, image, size, symbol, slots)
      ensures symbols[..] == Placed(old(symbols[..]), old(symbolNext),
                                    if keep then Entry(load, walk, image, size, symbol, slots) else None)
    {
      hide KeptSomewhere, Kept, Concluded, Bounded;
      var script := Bounded(walk(contents, symbol), image.base, size);
      var added := CollectSites(slots, script.specs);
      r := Concluded(added, script.ending);
      if keep && added.Sites? && script.ending.Fine? {
        var e := SymbolEntry(image.path, image.base, symbol, Specs(added.sites));
        Keeping(e, image, size, slots, added.sites);
        InsertSymbol(e);
      }
    }

    lemma Keeping(e: SymbolEntry, image: Image, size: nat, slots: Slots, sites: seq<Site>)
      requires e.path == image.path && e.base == image.base && load(image).Loaded?
      requires sizes.steady ==> size == sizes.extent(image.path, image.base)
      requires var script := Bounded(walk(load(image).contents, e.symbol), image.base, size);
               script.ending.Fine? && AddAll(slots, [], script.specs) == Sites(sites) && e.specs == Specs(sites)
      ensures KeptSomewhere(e, load, walk, sizes)
    {
      assert KeptFrom(e.specs, Bounded(walk(load(image).contents, e.symbol), image.base, size).specs);
      assert Kept(e, load, walk, image, size);
    }

    lemma Source(e: SymbolEntry) returns (slice: Image, size: nat)
      requires KeptSomewhere(e, load, walk, sizes)
      ensures Kept(e, load, walk, slice, size) && (sizes.steady ==> size == sizes.extent(e.path, e.base))
    {
      slice, size :| Kept(e, load, walk, slice, size) && (sizes.steady ==> size == sizes.extent(e.path, e.base));
    }

    lemma KeptPlace(e: SymbolEntry, slice: Image, size: nat)
      requires Kept(e, load, walk, slice, size)
      ensures e.path == slice.path && e.base == slice.base && load(slice).Loaded?
    {
    }
  }

  // ---- what the keys leave out ----

  /** The slots a listing comes to, whatever they hold: none if it names a slot twice for different
      uses or too many of them. */
  function Merged(kept: seq<Spec>, listed: seq<Spec>): Option<seq<Spec>>
    decreases |listed|
  {
    if listed == [] then Some(kept)
    else
      match Named(kept, listed[0].address)
      case Some(spec) => if SameUse(spec, listed[0]) then Merged(kept, listed[1..]) else None
      case None => if |kept| >= MAX_SITES then None else Merged(kept + [listed[0]], listed[1..])
  }

  function Named(kept: seq<Spec>, address: nat): (spec: Option<Spec>) {
    if kept == [] then None else if kept[0].address == address then Some(kept[0]) else Named(kept[1..], address)
  }

  lemma {:induction false} NamedFound(sites: seq<Site>, address: nat)
    ensures Named(Specs(sites), address) ==
            if Find(sites, address).Some? then Some(sites[Find(sites, address).value].spec) else None
    decreases |sites|
  {
    assert |Specs(sites)| == |sites|;
    if sites != [] {
      assert Specs(sites)[0] == sites[0].spec && Specs(sites)[1..] == Specs(sites[1..]);
      NamedFound(sites[1..], address);
    }
  }

  /** A collection that succeeds has collected just these. */
  lemma {:induction false} CollectedMerged(slots: Slots, before: seq<Site>, listed: seq<Spec>, sites: seq<Site>)
    requires AddAll(slots, before, listed) == Sites(sites)
    ensures Merged(Specs(before), listed) == Some(Specs(sites))
    decreases |listed|
  {
    hide Capture, Authentic, Named;
    if listed != [] {
      NamedFound(before, listed[0].address);
      var more := AddSite(slots, before, listed[0]).sites;
      if Find(before, listed[0].address).None? {
        assert Specs(more) == Specs(before) + [listed[0]];
      }
      CollectedMerged(slots, more, listed[1..], sites);
    }
  }

  /** Two listings that come to the same slots are collected alike, whatever the slots hold. */
  lemma SameCollection(past: Slots, now: Slots, a: seq<Spec>, b: seq<Spec>, p: seq<Site>)
    requires AddAll(past, [], a) == Sites(p) && Merged([], b) == Merged([], a)
    ensures AddAll(now, [], b) == AddAll(now, [], Specs(p))
  {
    CollectedMerged(past, [], a, p);
    assert Specs([]) == [];
    ReplayMerged(now, [], b, Specs(p));
  }

  lemma {:induction false} ReplayMerged(now: Slots, before: seq<Site>, listed: seq<Spec>, kept: seq<Spec>)
    requires Merged(Specs(before), listed) == Some(kept)
    ensures Specs(before) <= kept && AddAll(now, before, listed) == AddAll(now, before, kept[|before|..])
    decreases |listed|
  {
    hide Capture, Authentic, Named;
    if listed == [] {
      assert kept[|before|..] == [];
    } else {
      var spec := listed[0];
      NamedFound(before, spec.address);
      if Find(before, spec.address).Some? {
        ReplayMerged(now, before, listed[1..], kept);
      } else {
        ReplayNew(now, before, listed, kept);
      }
    }
  }

  lemma {:induction false} ReplayNew(now: Slots, before: seq<Site>, listed: seq<Spec>, kept: seq<Spec>)
    requires listed != [] && Find(before, listed[0].address).None? && |before| < MAX_SITES
    requires Merged(Specs(before) + [listed[0]], listed[1..]) == Some(kept)
    ensures Specs(before) <= kept && AddAll(now, before, listed) == AddAll(now, before, kept[|before|..])
    decreases |listed|, 0
  {
    hide Authentic, Named;
    var spec := listed[0];
    var site := match Capture(now, spec) case Some(s) => s case None => Site(spec, 0, 0);
    var more := before + [site];
    assert Specs(more) == Specs(before) + [spec];
    ReplayMerged(now, more, listed[1..], kept);
    var rest := kept[|before|..];
    assert kept[|before|] == Specs(more)[|before|] == spec;
    assert rest[0] == spec && rest[1..] == kept[|more|..];
  }

  /** An entry names neither the processor type nor the size of the image it came from. For another
      slice at the same place, or another size, what it replays is right, whatever the slots hold,
      exactly if that slice's own listing comes to the same slots and ends well. */
  lemma OtherSliceExactly(load: Loader, walk: Walker, a: Image, size: nat, b: Image, size': nat, symbol: Symbol, past: Slots,
                          sites: seq<Site>)
    requires SamePlace(a, b) && load(a).Loaded? && load(b).Loaded?
    requires var script := Bounded(walk(load(a).contents, symbol), a.base, size);
             script.ending.Fine? && AddAll(past, [], script.specs) == Sites(sites)
    ensures var e := SymbolEntry(a.path, a.base, symbol, Specs(sites));
            var mine := Bounded(walk(load(a).contents, symbol), a.base, size);
            var other := Bounded(walk(load(b).contents, symbol), b.base, size');
            && Kept(e, load, walk, a, size)
            && ((forall now :: Replayed(e, now) == Uncached(load, walk, b, size', symbol, now)) <==>
                other.ending.Fine? && Merged([], other.specs) == Merged([], mine.specs))
  {
    hide AddAll, Specs, Bounded, Merged;
    var e := SymbolEntry(a.path, a.base, symbol, Specs(sites));
    var mine := Bounded(walk(load(a).contents, symbol), a.base, size);
    var other := Bounded(walk(load(b).contents, symbol), b.base, size');
    assert KeptFrom(e.specs, mine.specs);
    if other.ending.Fine? && Merged([], other.specs) == Merged([], mine.specs) {
      forall now
        ensures Replayed(e, now) == Uncached(load, walk, b, size', symbol, now)
      {
        SameCollection(past, now, mine.specs, other.specs, sites);
      }
    }
    if Replayed(e, past) == Uncached(load, walk, b, size', symbol, past) {
      SameThen(past, mine.specs, other, sites);
    }
  }

  // On the slots the entry was made from, only the same slots give the same result.
  lemma SameThen(past: Slots, listed: seq<Spec>, other: Script, sites: seq<Site>)
    requires AddAll(past, [], listed) == Sites(sites)
    requires Concluded(AddAll(past, [], Specs(sites)), Fine) == Concluded(AddAll(past, [], other.specs), other.ending)
    ensures other.ending.Fine? && Merged([], other.specs) == Merged([], listed)
  {
    hide AddAll, Merged;
    assert Specs([]) == [];
    ReplayIsFaithful(past, past, listed, sites);
    CollectedMerged(past, [], listed, sites);
    var added := AddAll(past, [], other.specs);
    if added.Sites? {
      CollectedMerged(past, [], other.specs, added.sites);
      assert added.sites == sites;
    }
  }

  /** For the image itself, said to be of another size, that is: exactly if every slot listed lies
      within that size. */
  lemma OtherSizeExactly(load: Loader, walk: Walker, image: Image, size: nat, size': nat, symbol: Symbol, past: Slots,
                         sites: seq<Site>)
    requires load(image).Loaded?
    requires var script := Bounded(walk(load(image).contents, symbol), image.base, size);
             script.ending.Fine? && AddAll(past, [], script.specs) == Sites(sites)
    ensures var e := SymbolEntry(image.path, image.base, symbol, Specs(sites));
            (forall now :: Replayed(e, now) == Uncached(load, walk, image, size', symbol, now)) <==>
            AllFit(walk(load(image).contents, symbol).specs, image.base, size')
  {
    hide AddAll, Specs, Bounded, Merged, Uncached, Replayed, AllFit;
    var script := walk(load(image).contents, symbol);
    OtherSliceExactly(load, walk, image, size, image, size', symbol, past, sites);
    BoundedExactly(script, image.base, size);
    BoundedExactly(script, image.base, size');
  }

  // Two slices of one file at one address, each importing the symbol through its own slot.
  const FirstSlice: Image := Image("lib", 0, 1, 1)
  const SecondSlice: Image := Image("lib", 0, 2, 1)
  const Shared: Symbol := Symbol("f", 0)
  const BySlice: Loader := (image: Image) => Loaded(image.cputype)
  const OneImport: Walker := (contents: nat, s: Symbol) => Script([SlotOf(contents)], Fine)
  const Empty: Slots := Slots(Plain, (x, y) => 0, _ => 0)

  /** Prepared one after the other, and then the second again, that is served from the first's entry:
      a wrong answer, though every slice and size was always the same. */
  method WrongSlice() returns (first: Result, second: Result, again: Result)
    ensures first == Uncached(BySlice, OneImport, FirstSlice, 64, Shared, Empty)
    ensures second == Uncached(BySlice, OneImport, SecondSlice, 64, Shared, Empty)
    ensures again.status.Ok? && again == first != second
  {
    hide Serves, Uncached, Replayed, OneSlice, Entry;
    var caches := new Caches(BySlice, OneImport, (path, base) => 64);
    ghost var s0 := caches.Now();
    first := caches.Prepare(FirstSlice, 64, Shared, Empty);
    ghost var s1 := caches.Now();
    second := caches.Prepare(SecondSlice, 64, Shared, Empty);
    ghost var s2 := caches.Now();
    again := caches.Prepare(SecondSlice, 64, Shared, Empty);
    ServedFirst(s0, first, s1);
    ServedSecond(s1, second, s2);
    ServedAgain(s2, again, caches.Now());
    Differ();
  }

  const FirstEntry: SymbolEntry := SymbolEntry("lib", 0, Shared, [SlotOf(1)])

  lemma ServedFirst(s: Places, r: Result, t: Places)
    requires Serves(BySlice, OneImport, FirstSlice, 64, Shared, Empty, s, r, t)
    requires s.files == seq(FILE_ENTRIES, _ => None) && s.symbols == seq(SYMBOL_ENTRIES, _ => None)
    ensures r == Uncached(BySlice, OneImport, FirstSlice, 64, Shared, Empty)
    ensures |t.files| == FILE_ENTRIES && |t.symbols| == SYMBOL_ENTRIES && t.symbols[0] == Some(FirstEntry)
    ensures forall i :: 0 <= i < |t.files| ==> t.files[i] in {None, Some(FileEntry(FirstSlice, 1))}
    ensures exists i :: 0 <= i < |t.files| && t.files[i].None?
  {
    MadeFirst();
    hide Entry, Uncached, Replayed;
    NoSymbol(s.symbols, FirstSlice, Shared);
    assert Victim(s.symbols, s.symbolNext) == 0;
    assert t.files[1].None?;
  }

  lemma {:induction false} NoSymbol(symbols: seq<Option<SymbolEntry>>, image: Image, symbol: Symbol)
    requires forall i :: 0 <= i < |symbols| ==> symbols[i].None?
    ensures FirstSymbol(symbols, image, symbol).None?
  {
    if symbols != [] {
      NoSymbol(symbols[1..], image, symbol);
    }
  }

  lemma ServedSecond(s: Places, r: Result, t: Places)
    requires Serves(BySlice, OneImport, SecondSlice, 64, Shared, Empty, s, r, t)
    requires |s.files| == FILE_ENTRIES && |s.symbols| == SYMBOL_ENTRIES && s.symbols[0] == Some(FirstEntry)
    requires forall i :: 0 <= i < |s.files| ==> s.files[i] in {None, Some(FileEntry(FirstSlice, 1))}
    requires exists i :: 0 <= i < |s.files| && s.files[i].None?
    ensures r == Uncached(BySlice, OneImport, SecondSlice, 64, Shared, Empty)
    ensures t.symbols == s.symbols && HasFile(t.files, SecondSlice)
  {
    hide Entry, Uncached, Replayed, SlotOf;
    assert FirstSymbol(s.symbols, SecondSlice, Shared) == Some(FirstEntry);
    var i := Victim(s.files, s.fileNext);
    assert t.files[i] == Some(FileEntry(SecondSlice, 2));
  }

  lemma ServedAgain(s: Places, r: Result, t: Places)
    requires Serves(BySlice, OneImport, SecondSlice, 64, Shared, Empty, s, r, t)
    requires s.symbols != [] && s.symbols[0] == Some(FirstEntry) && HasFile(s.files, SecondSlice)
    ensures r == Replayed(FirstEntry, Empty)
  {
    hide Entry, Uncached, Replayed, SlotOf;
    assert FirstSymbol(s.symbols, SecondSlice, Shared) == Some(FirstEntry);
  }

  lemma MadeFirst()
    ensures Entry(BySlice, OneImport, FirstSlice, 64, Shared, Empty) == Some(FirstEntry)
  {
    OneSlot(1);
    hide AddAll, Bounded, SlotOf;
    assert Specs([Site(SlotOf(1), 0, 0)]) == [SlotOf(1)];
  }

  lemma Differ()
    ensures Replayed(FirstEntry, Empty) == Uncached(BySlice, OneImport, FirstSlice, 64, Shared, Empty)
    ensures Uncached(BySlice, OneImport, FirstSlice, 64, Shared, Empty) == Result(Ok, [Site(SlotOf(1), 0, 0)])
    ensures Uncached(BySlice, OneImport, SecondSlice, 64, Shared, Empty) == Result(Ok, [Site(SlotOf(2), 0, 0)])
    ensures SlotOf(1) != SlotOf(2)
  {
    Alone(FirstSlice);
    Alone(SecondSlice);
    OneSlot(1);
    OneSlot(2);
    hide AddAll, Bounded, SlotOf, Uncached;
  }

  lemma Alone(image: Image)
    requires image.base == 0
    ensures Uncached(BySlice, OneImport, image, 64, Shared, Empty) == Result(Ok, [Site(SlotOf(image.cputype), 0, 0)])
  {
    OneSlot(image.cputype);
    hide AddAll, Bounded, SlotOf;
  }

  function SlotOf(contents: nat): Spec { Spec(8 * (contents % 4), Schema(false, 0, 0, false), 0, true) }

  lemma OneSlot(contents: nat)
    ensures Bounded(Script([SlotOf(contents)], Fine), 0, 64) == Script([SlotOf(contents)], Fine)
    ensures AddAll(Slots(Plain, (x, y) => 0, _ => 0), [], [SlotOf(contents)]) == Sites([Site(SlotOf(contents), 0, 0)])
    ensures SlotOf(contents).address == 8 * (contents % 4)
  {
    var now, spec := Slots(Plain, (x, y) => 0, _ => 0), SlotOf(contents);
    BoundedExactly(Script([spec], Fine), 0, 64);
    WeakSlot(now, spec);
    assert Specs([Site(spec, 0, 0)]) == [spec];
  }

  lemma WeakSlot(now: Slots, spec: Spec)
    requires (forall x: nat :: now.mem(x) == 0) && spec.weak && spec.addend == 0
    ensures AddAll(now, [], [spec]) == Sites([Site(spec, 0, 0)])
  {
    ZeroSlot(now.mem, spec.address);
    hide ReadSlot;
    assert [] + [Site(spec, 0, 0)] == [Site(spec, 0, 0)];
    assert AddSite(now, [], spec) == Sites([Site(spec, 0, 0)]);
    assert [spec][1..] == [];
    assert AddAll(now, [Site(spec, 0, 0)], []) == Sites([Site(spec, 0, 0)]);
  }
}
