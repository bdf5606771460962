/** The relocating inline engine: src/engines/HKRelocInlineEngine.c and its vtable adapter. What
    the page allocator, the sealing step and the entry writer answer is up to them: their
    answers are parameters, bound only by the contracts their declarations state. */
module RelocEngine {
  import opened A64
  import opened Mutations
  import opened Options
  import opened Relocator
  import opened Relocation
  import opened Simulation
  import opened CodeWriting
  import opened Trampoline
  import opened AddressOrder

  datatype Status = Ok | InvalidArgument | Misaligned | TargetTooShort | TrapStub | PreconditionFailed
                  | Unrelocatable | NoTrampoline

  datatype MappingKind = StaticSection | Anonymous | OtherKind
  datatype Page = Page(address: Addr, kind: MappingKind, base: Addr, size: bv64)

  const PAGE_BYTES: bv64 := 128
  const MAX_PATCH := 16

  /** The page a full trampoline fits in, inside the mapping it claims to be in. */
  predicate Usable(p: Page) {
    !(p.address == 0 || !Aligned(p.address) || p.kind == OtherKind || p.base == 0 || Below(p.address, p.base) ||
      Below(p.size, PAGE_BYTES) || Below(Gap(p.base, 0xFFFFFFFFFFFFFFFF), p.size) ||
      Below(Gap(PAGE_BYTES, p.size), Gap(p.base, p.address)))
  }

  ghost predicate InPage(page: Addr, b: Addr) {
    exists i: nat :: i < PAGE_WORDS && InWord(At(page, i), b)
  }

  /** The bytes an entry patch may overwrite. */
  ghost predicate InEntry(target: Addr, b: Addr) {
    exists i: nat :: i < 4 && InWord(At(target, i), b)
  }

  ghost predicate Apart(page: Addr, target: Addr) {
    forall b :: InPage(page, b) ==> !InEntry(target, b)
  }

  // ---- reading code ----

  function ReadCode(m: Memory, a: Addr, n: nat): (code: seq<Word>)
    ensures |code| == n
    decreases n
  {
    if n == 0 then [] else [Read32(m, a)] + ReadCode(m, Plus(a, 4), n - 1)
  }

  lemma {:induction false} ReadInstalled(m: Memory, a: Addr, code: seq<Word>)
    ensures Installed(m, a, code) <==> ReadCode(m, a, |code|) == code
    decreases |code|
  {
    hide Read32, Plus;
    if code == [] {
    } else {
      ReadInstalled(m, Plus(a, 4), code[1..]);
      var read := ReadCode(m, a, |code|);
      assert read[1..] == ReadCode(m, Plus(a, 4), |code| - 1);
      assert code == [code[0]] + code[1..];
    }
  }

  function BytesOf(code: seq<Word>): (bytes: seq<bv8>)
    ensures |bytes| == 4 * |code|
  {
    if code == [] then [] else [Byte0(code[0]), Byte1(code[0]), Byte2(code[0]), Byte3(code[0])] + BytesOf(code[1..])
  }

  /** The bytes the request pinned, compared over what is pinned of the window. */
  predicate Expects(window: seq<Word>, expected: Option<seq<bv8>>) {
    expected.None? ||
    var n := if |expected.value| < 4 * |window| then |expected.value| else 4 * |window|;
    BytesOf(window)[..n] == expected.value[..n]
  }

  // ---- the process ----

  /** The writer's contract: Unmutated proves no write, Complete wrote exactly the patch, and
      anything else stayed within the bytes of the patch. */
  ghost predicate Obeys(before: Memory, target: Addr, patch: seq<Word>, outcome: Mutation, after: Memory)
  {
    match outcome
    case Unmutated => after == before
    case Complete => after == WriteCode(before, target, patch)
    case _ => forall b :: !InCode(target, patch, b) ==> after(b) == before(b)
  }

  /** An address space, with the executable pages handed out and not given back, those of them a
      patched entry may lead to, and those an artifact accounts for. */
  class Process {
    var mem: Memory
    ghost var live: set<Addr>
    ghost var published: set<Addr>
    ghost var recorded: set<Addr>

    constructor (mem: Memory)
      ensures Valid() && this.mem == mem && live == {} && recorded == {}
    {
      this.mem := mem;
      live, published, recorded := {}, {}, {};
    }

    ghost predicate Valid()
      reads this
    {
      published <= live
    }

    /** The allocator may offer any page that is not in use and apart from the entry. */
    ghost predicate MayOffer(page: Addr, near: Addr)
      reads this
    {
      page != 0 ==> page !in live && Apart(page, near)
    }

    ghost method Take(page: Addr)
      modifies this`live
      ensures live == old(live) + (if page == 0 then {} else {page})
    {
      live := live + (if page == 0 then {} else {page});
    }

    /** The trampoline's two parts, into a page apart from the entry. */
    method Fill(page: Addr, thunk: seq<Word>, body: seq<Word>)
      requires |thunk| <= THUNK_WORDS && |body| <= PAGE_WORDS - THUNK_WORDS
      modifies this`mem
      ensures Installed(mem, page, thunk) && Installed(mem, Entry(page), body)
      ensures OutsideSame(old(mem), mem, page)
    {
      hide At, InPage, Installed, WriteCode;
      FirstWord(page);
      mem := WriteCode(mem, page, thunk);
      WritesInstall(old(mem), page, 0, thunk);
      WritesInPage(old(mem), page, 0, thunk);
      label Thunk:
      mem := WriteCode(mem, Entry(page), body);
      WritesInstall(old@Thunk(mem), page, THUNK_WORDS, body);
      WritesInPage(old@Thunk(mem), page, THUNK_WORDS, body);
      WritesApart(old@Thunk(mem), page, THUNK_WORDS, body, 0, thunk);
    }

    /** A page is given back once, and never when a patched entry may lead to it. */
    method Free(page: Addr)
      requires page in live && page !in published
      modifies this`live
      ensures live == old(live) - {page}
    {
      live := live - {page};
    }
  }

  lemma FirstWord(page: Addr)
    ensures At(page, 0) == page
  {
  }

  lemma WritesInPage(m: Memory, page: Addr, i: nat, code: seq<Word>)
    requires i + |code| <= PAGE_WORDS
    ensures forall b :: !InPage(page, b) ==> WriteCode(m, At(page, i), code)(b) == m(b)
  {
    hide At, InWord, InCode, WriteCode;
    forall b | !InPage(page, b)
      ensures WriteCode(m, At(page, i), code)(b) == m(b)
    {
      if InCode(At(page, i), code, b) {
        var k := WordOf(page, i, code, b);
      }
      CodeElsewhere(m, At(page, i), code, b);
    }
  }

  lemma CodeInEntry(target: Addr, patch: seq<Word>)
    requires |patch| <= 4
    ensures forall b :: InCode(target, patch, b) ==> InEntry(target, b)
  {
    hide At, InWord, InCode;
    FirstWord(target);
    forall b | InCode(target, patch, b)
      ensures InEntry(target, b)
    {
      var k := WordOf(target, 0, patch, b);
    }
  }

  /** What obeys the contract changes nothing past the entry. */
  lemma WithinEntry(before: Memory, target: Addr, patch: seq<Word>, outcome: Mutation, after: Memory)
    requires |patch| <= 4 && Obeys(before, target, patch, outcome, after)
    ensures forall b :: !InCode(target, patch, b) ==> after(b) == before(b)
    ensures forall b :: !InEntry(target, b) ==> after(b) == before(b)
  {
    CodeInEntry(target, patch);
    hide InEntry, InCode, WriteCode;
    forall b | !InCode(target, patch, b)
      ensures after(b) == before(b)
    {
      CodeElsewhere(before, target, patch, b);
    }
  }

  /** Writing the entry, even partly, leaves the code in the page in place. */
  lemma OtherPageKept(m: Memory, n: Memory, page: Addr, target: Addr, i: nat, code: seq<Word>)
    requires Apart(page, target) && i + |code| <= PAGE_WORDS
    requires forall b :: !InEntry(target, b) ==> n(b) == m(b)
    requires Installed(m, At(page, i), code)
    ensures Installed(n, At(page, i), code)
  {
    hide At, InWord, InCode, Installed, InEntry;
    var own := CodeBytes(At(page, i), code);
    forall b | b in own
      ensures m(b) == n(b)
    {
      var k := WordOf(page, i, code, b);
      assert InPage(page, b);
    }
    CoversItself(own, At(page, i), code);
    StaysInstalled(m, n, own, At(page, i), code);
  }

  /** Memory that differs only in a page apart from the entry holds the same window. */
  lemma SameWindow(m: Memory, n: Memory, page: Addr, target: Addr, k: nat)
    requires Apart(page, target) && k <= 4
    requires OutsideSame(m, n, page)
    ensures ReadCode(n, target, k) == ReadCode(m, target, k)
  {
    hide At, InWord, InCode, Installed, ReadCode, InPage;
    var window := ReadCode(m, target, k);
    ReadInstalled(m, target, window);
    FirstWord(target);
    var own := CodeBytes(target, window);
    forall b | b in own
      ensures m(b) == n(b)
    {
      var i := WordOf(target, 0, window, b);
    }
    CoversItself(own, target, window);
    StaysInstalled(m, n, own, target, window);
    ReadInstalled(n, target, window);
  }

  ghost predicate OutsideSame(m: Memory, n: Memory, page: Addr) {
    forall b :: !InPage(page, b) ==> n(b) == m(b)
  }

  lemma SameItself(m: Memory, page: Addr)
    ensures OutsideSame(m, m, page)
  {
  }

  lemma UsablePage(p: Page)
    requires Usable(p)
    ensures p.address != 0 && Aligned(p.address)
  {
  }

  lemma PatchLength(target: Addr, replacement: Addr, page: Addr)
    ensures 0 < |EntryPatch(target, replacement, page)| <= 4
    ensures |Thunk(page, replacement)| <= THUNK_WORDS
  {
    hide Near, EncodeB, AbsJump;
  }

  // ---- plans ----

  /** The relocated window and the jump back, or nothing when the window cannot be moved; there
      is always room for the jump, so the buffer is the right size. */
  method BuildBody(target: Addr, window: seq<Word>, page: Addr) returns (body: seq<Word>)
    requires 0 < |window| <= 4
    ensures body != [] <==> AllMovable(window, target, target, After(target, window))
    ensures body != [] ==> Body(target, window, page) == Some(body) && |body| <= PAGE_WORDS - THUNK_WORDS
  {
    hide AllMovable, EmitBranch, At, After, RelocateOne, RelocateFrom;
    BodyFits(target, window, page);
    RoomySequence(window, target, target, After(target, window), BODY_BYTES, 0);
    var buffer := new Word[PAGE_WORDS - THUNK_WORDS];
    var moved := Relocate(window, target, buffer);
    if moved == 0 {
      return [];
    }
    var words := moved / 4;
    var back := EmitBranch(After(Entry(page), buffer[..words]), After(target, window));
    WriteAt(buffer, words, back);
    return buffer[..words + |back|];
  }

  /** Everything a preparation is judged by, apart from the shape of its arguments. */
  ghost predicate Acceptable(window: seq<Word>, target: Addr, expected: Option<seq<bv8>>) {
    && |window| > 0 && Expects(window, expected)
    && !IsTrap(window[0]) && !HasEarlyTerminator(window)
    && AllMovable(window, target, target, After(target, window))
  }

  /** The verdict on a window: a pinned prologue that differs comes before the shape of the code. */
  ghost function Judged(window: seq<Word>, target: Addr, expected: Option<seq<bv8>>): Status {
    if !Expects(window, expected) then PreconditionFailed
    else if window != [] && IsTrap(window[0]) then TrapStub
    else if HasEarlyTerminator(window) then TargetTooShort
    else if AllMovable(window, target, target, After(target, window)) then Ok
    else Unrelocatable
  }

  predicate WellFormed(target: Addr, replacement: Addr, overwrite: nat, expected: Option<seq<bv8>>) {
    && target != 0 && (overwrite != 0 || replacement != 0)
    && overwrite <= MAX_PATCH && overwrite % 4 == 0
    && (expected.Some? ==> 0 < |expected.value| <= MAX_PATCH)
  }

  /** How many instructions are displaced: those the entry patch overwrites, or as many as a
      provider was audited to overwrite. */
  function WindowWords(target: Addr, replacement: Addr, overwrite: nat, page: Addr): nat {
    if overwrite != 0 then overwrite / 4 else |EntryPatch(target, replacement, page)|
  }

  method Examine(target: Addr, window: seq<Word>, expected: Option<seq<bv8>>, page: Addr)
    returns (status: Status, body: seq<Word>)
    requires 0 < |window| <= 4
    ensures status == Judged(window, target, expected) && (status.Ok? <==> Acceptable(window, target, expected))
    ensures status.Ok? ==> Body(target, window, page) == Some(body) && |body| <= PAGE_WORDS - THUNK_WORDS
  {
    hide AllMovable, HasEarlyTerminator, IsTrap, Expects, Body, After;
    if !Expects(window, expected) {
      return PreconditionFailed, [];
    }
    if IsTrap(window[0]) {
      return TrapStub, [];
    }
    var short := ScanForTerminator(window);
    if short {
      return TargetTooShort, [];
    }
    body := BuildBody(target, window, page);
    status := if body == [] then Unrelocatable else Ok;
  }

  /** A continuation alone has nothing to write: the provider does that. */
  function PatchFor(target: Addr, replacement: Addr, overwrite: nat, page: Addr): (patch: seq<Word>)
    ensures |patch| == WindowWords(target, replacement, overwrite, page)
    ensures overwrite == 0 ==> patch == EntryPatch(target, replacement, page)
  {
    if overwrite != 0 then seq(overwrite / 4, _ => 0) else EntryPatch(target, replacement, page)
  }

  /** What the trampoline of a prepared plan contains. */
  ghost predicate BuiltAt(m: Memory, target: Addr, window: seq<Word>, patch: seq<Word>, page: Addr) {
    && Aligned(target) && Aligned(page) && Apart(page, target)
    && 0 < |window| <= 4 && |patch| == |window|
    && Body(target, window, page).Some?
    && Installed(m, Entry(page), Body(target, window, page).value)
  }

  /** Of a full hook also the thunk and the entry patch are known. */
  ghost predicate RedirectsAt(m: Memory, target: Addr, replacement: Addr, patch: seq<Word>, page: Addr) {
    patch == EntryPatch(target, replacement, page) && Installed(m, page, Thunk(page, replacement))
  }

  lemma StillBuilt(before: Memory, after: Memory, outcome: Mutation, target: Addr, replacement: Addr,
                   window: seq<Word>, patch: seq<Word>, page: Addr)
    requires BuiltAt(before, target, window, patch, page) && Obeys(before, target, patch, outcome, after)
    ensures BuiltAt(after, target, window, patch, page)
    ensures RedirectsAt(before, target, replacement, patch, page) ==> RedirectsAt(after, target, replacement, patch, page)
    ensures outcome.Complete? ==> Installed(after, target, patch)
  {
    hide At, InEntry, Installed, EntryPatch, Thunk, Body, Aligned, Apart, WriteCode, AllMovable;
    FirstWord(page);
    FirstWord(target);
    if outcome.Complete? {
      WritesInstall(before, target, 0, patch);
    }
    WithinEntry(before, target, patch, outcome, after);
    BodyFits(target, window, page);
    OtherPageKept(before, after, page, target, THUNK_WORDS, Body(target, window, page).value);
    if RedirectsAt(before, target, replacement, patch, page) {
      PatchLength(target, replacement, page);
      OtherPageKept(before, after, page, target, 0, Thunk(page, replacement));
    }
  }

  class RelocPlan {
    var address: Addr
    var replacement: Addr
    var trampoline: Addr
    var kind: MappingKind
    var originalEntry: Addr
    var original: seq<Word>
    var patch: seq<Word>
    var atomic: bool
    var captured: bool
    var activated: bool

    constructor ()
      ensures !captured && !activated && trampoline == 0
    {
      address, replacement, trampoline, kind, originalEntry := 0, 0, 0, OtherKind, 0;
      original, patch := [], [];
      atomic, captured, activated := false, false, false;
    }

    /** The page is the plan's to give back. */
    ghost predicate Holds(process: Process)
      reads this, process
    {
      && (captured <==> trampoline != 0)
      && (captured && !activated ==> trampoline in process.live && trampoline !in process.published)
      && (captured && activated ==> trampoline in process.published)
    }

    ghost predicate Built(m: Memory)
      reads this
    {
      captured && originalEntry == Entry(trampoline) && BuiltAt(m, address, original, patch, trampoline)
    }

    ghost predicate Redirects(m: Memory)
      reads this
    {
      RedirectsAt(m, address, replacement, patch, trampoline)
    }

    /** Every failure once there is a page gives it back. */
    method ReleaseAndFail(process: Process, page: Addr, canFree: bool, status: Status) returns (out: Status)
      requires page != 0 ==> page in process.live && page !in process.published
      modifies process`live
      ensures out == status
      ensures process.live == old(process.live) - (if canFree && page != 0 then {page} else {})
    {
      if canFree && page != 0 {
        process.Free(page);
      }
      return status;
    }

    /** Phase one: build the trampoline in the page the allocator offers, touching nothing else.
        It succeeds exactly for an acceptable window; a refusal leaves no page behind. */
    method Prepare(process: Process, target: Addr, replacement: Addr, overwrite: nat, expected: Option<seq<bv8>>,
                   offered: Page, sealed: bool, canFree: bool)
      returns (status: Status)
      requires process.Valid() && process.MayOffer(offered.address, target)
      modifies this, process`mem, process`live
      ensures status.Ok? <==>
              && WellFormed(target, replacement, overwrite, expected) && Aligned(target) && Usable(offered) && sealed
              && Acceptable(ReadCode(old(process.mem), target, WindowWords(target, replacement, overwrite, offered.address)),
                            target, expected)
      ensures status ==
              if !WellFormed(target, replacement, overwrite, expected) then InvalidArgument
              else if !Aligned(target) then Misaligned
              else if !Usable(offered) then NoTrampoline
              else
                var verdict := Judged(ReadCode(old(process.mem), target, WindowWords(target, replacement, overwrite, offered.address)),
                                      target, expected);
                if verdict.Ok? && !sealed then NoTrampoline else verdict
      ensures process.Valid()
      ensures status.Ok? ==> process.live == old(process.live) + {offered.address}
      ensures !status.Ok? && canFree ==> process.live == old(process.live)
      ensures old(process.live) <= process.live
      ensures status.Ok? ==>
                && address == target && this.replacement == replacement && trampoline == offered.address
                && original == ReadCode(process.mem, target, |patch|) == ReadCode(old(process.mem), target, |patch|)
                && !activated
                && |patch| == WindowWords(target, replacement, overwrite, offered.address)
                && (atomic <==> overwrite == 0 && |patch| == 1)
                && Built(process.mem) && Holds(process) && (overwrite == 0 ==> Redirects(process.mem))
      ensures OutsideSame(old(process.mem), process.mem, offered.address)
      ensures !Usable(offered) ==> process.mem == old(process.mem)
    {
      hide Acceptable, ReadCode, Aligned, Usable, InPage, Apart, WindowWords, Built, Redirects, Judged;
      if !WellFormed(target, replacement, overwrite, expected) {
        return InvalidArgument;
      }
      captured, activated, trampoline := false, false, 0;
      if !Aligned(target) {
        return Misaligned;
      }
      var page := offered.address;
      process.Take(page);
      if !Usable(offered) {
        status := ReleaseAndFail(process, page, canFree, NoTrampoline);
        return;
      }
      UsablePage(offered);
      status := Assemble(process, target, replacement, overwrite, expected, offered, sealed, canFree);
    }

    method Assemble(process: Process, target: Addr, replacement: Addr, overwrite: nat, expected: Option<seq<bv8>>,
                    offered: Page, sealed: bool, canFree: bool)
      returns (status: Status)
      requires WellFormed(target, replacement, overwrite, expected) && Aligned(target) && Usable(offered)
      requires offered.address in process.live && offered.address !in process.published
      requires Apart(offered.address, target)
      modifies this, process`mem, process`live
      ensures status.Ok? <==>
              sealed && Acceptable(ReadCode(old(process.mem), target, WindowWords(target, replacement, overwrite, offered.address)),
                                   target, expected)
      ensures var verdict := Judged(ReadCode(old(process.mem), target, WindowWords(target, replacement, overwrite, offered.address)),
                                    target, expected);
              status == if verdict.Ok? && !sealed then NoTrampoline else verdict
      ensures process.live == old(process.live) - (if !status.Ok? && canFree then {offered.address} else {})
      ensures status.Ok? ==>
                && address == target && this.replacement == replacement && trampoline == offered.address
                && original == ReadCode(process.mem, target, |patch|) == ReadCode(old(process.mem), target, |patch|)
                && !activated
                && |patch| == WindowWords(target, replacement, overwrite, offered.address)
                && (atomic <==> overwrite == 0 && |patch| == 1)
                && captured && Built(process.mem) && (overwrite == 0 ==> Redirects(process.mem))
      ensures OutsideSame(old(process.mem), process.mem, offered.address)
    {
      hide PatchFor, OutsideSame, Acceptable, Judged, Body, EntryPatch, Thunk, ReadCode, Installed, Aligned, Usable, Entry,
        InPage, Apart, Built;
      UsablePage(offered);
      var page := offered.address;
      patch := PatchFor(target, replacement, overwrite, page);
      PatchLength(target, replacement, page);
      atomic := overwrite == 0 && |patch| == 1;
      original := ReadCode(process.mem, target, |patch|);
      var body;
      status, body := Examine(target, original, expected, page);
      if status.Ok? {
        process.Fill(page, if overwrite == 0 then Thunk(page, replacement) else [], body);
        SameWindow(old(process.mem), process.mem, page, target, |patch|);
        status := if sealed then Ok else NoTrampoline;
      }
      SameItself(process.mem, page);
      if !status.Ok? {
        status := ReleaseAndFail(process, page, canFree, status);
        return;
      }
      Capture(process.mem, target, replacement, offered, body);
    }

    method Capture(ghost m: Memory, target: Addr, replacement: Addr, page: Page, ghost body: seq<Word>)
      requires Aligned(target) && Aligned(page.address) && Apart(page.address, target)
      requires 0 < |original| <= 4 && |patch| == |original|
      requires Body(target, original, page.address) == Some(body) && Installed(m, Entry(page.address), body)
      modifies `address, `replacement, `trampoline, `kind, `originalEntry, `captured, `activated
      ensures address == target && this.replacement == replacement && trampoline == page.address
      ensures captured && !activated && Built(m)
    {
      hide Body, Installed, Aligned, Entry, Apart;
      address, this.replacement, trampoline, kind := target, replacement, page.address, page.kind;
      originalEntry, captured, activated := Entry(page.address), true, false;
    }

    /** Phase two: check that the entry still holds what was relocated, then patch it. The page
        goes back exactly when nothing can have been written; otherwise it is published for
        good. */
    method Commit(process: Process, outcome: Mutation, after: Memory, canFree: bool) returns (m: Mutation)
      requires process.Valid() && Holds(process)
      requires Obeys(process.mem, address, patch, outcome, after)
      modifies this, process
      ensures process.Valid() && Holds(process) && old(process.recorded) <= process.recorded
      ensures address == old(address) && patch == old(patch) && original == old(original)
      ensures captured ==> old(captured) && trampoline == old(trampoline)
      ensures old(activated) ==> m.Unknown? && activated
      ensures !old(activated) ==>
                m == if old(captured) && ReadCode(old(process.mem), address, |patch|) == original then outcome else Unmutated
      ensures if old(activated) then process.mem == old(process.mem)
              else Obeys(old(process.mem), address, patch, m, process.mem)
      ensures old(activated) || m.Unmutated? ==> process.published == old(process.published) && activated == old(activated)
      ensures old(captured) && !old(activated) && m.Unmutated? ==>
                if canFree then process.live == old(process.live) - {old(trampoline)} && !captured
                else process.live == old(process.live) && captured && trampoline in process.recorded
      ensures !old(captured) || old(activated) || !m.Unmutated? ==> process.live == old(process.live) && captured == old(captured)
      ensures !old(activated) && !m.Unmutated? ==>
                && activated && trampoline == old(trampoline) && originalEntry == old(originalEntry)
                && trampoline in process.recorded && process.published == old(process.published) + {trampoline}
    {
      hide ReadCode, Obeys;
      m := Attempt(process, outcome, after);
      if captured && !activated {
        if m.Unmutated? {
          Withdraw(process, canFree);
        } else {
          Publish(process);
        }
      }
    }

    method Attempt(process: Process, outcome: Mutation, after: Memory) returns (m: Mutation)
      requires Obeys(process.mem, address, patch, outcome, after)
      modifies process`mem
      ensures m == if activated then Unknown
                   else if captured && ReadCode(old(process.mem), address, |patch|) == original then outcome else Unmutated
      ensures if activated then process.mem == old(process.mem)
              else Obeys(old(process.mem), address, patch, m, process.mem)
    {
      hide ReadCode, WriteCode;
      if activated {
        return Unknown;
      }
      if !captured {
        return Unmutated;
      }
      m := Unmutated;
      if ReadCode(process.mem, address, |patch|) == original {
        m := outcome;
        process.mem := after;
      }
    }

    // Nothing branches to the page: reclaim it, or account for it.
    method Withdraw(process: Process, canFree: bool)
      requires process.Valid() && Holds(process) && captured && !activated
      modifies process`live, process`recorded, `captured, `trampoline, `originalEntry
      ensures process.Valid() && Holds(process) && old(process.recorded) <= process.recorded
      ensures if canFree then process.live == old(process.live) - {old(trampoline)} && !captured
              else process.live == old(process.live) && captured && trampoline == old(trampoline) && trampoline in process.recorded
    {
      if canFree {
        process.Free(trampoline);
        captured, trampoline, originalEntry := false, 0, 0;
      } else {
        process.recorded := process.recorded + {trampoline};
      }
    }

    // Any possible publication is permanent.
    method Publish(process: Process)
      requires process.Valid() && Holds(process) && captured && !activated
      modifies process`published, process`recorded, `activated
      ensures process.Valid() && Holds(process) && activated
      ensures process.recorded == old(process.recorded) + {trampoline}
      ensures process.published == old(process.published) + {trampoline}
    {
      activated := true;
      process.published := process.published + {trampoline};
      process.recorded := process.recorded + {trampoline};
    }

    /** An abandoned plan gives its page back, unless the entry may lead there. */
    method Release(process: Process, canFree: bool)
      requires process.Valid() && Holds(process)
      modifies process`live
      ensures process.Valid()
      ensures process.live == old(process.live) - (if captured && !activated && canFree then {trampoline} else {})
    {
      if !activated && canFree && trampoline != 0 {
        process.Free(trampoline);
      }
    }
  }

  // ---- an installed hook, end to end ----

  lemma BuiltLength(m: Memory, target: Addr, window: seq<Word>, patch: seq<Word>, page: Addr)
    requires BuiltAt(m, target, window, patch, page)
    ensures |patch| <= 4
  {
  }

  /** What a complete installation leaves in memory. */
  ghost predicate Hooked(before: Memory, after: Memory, target: Addr, replacement: Addr, patch: seq<Word>, page: Addr) {
    && BuiltAt(after, target, ReadCode(before, target, |patch|), patch, page)
    && RedirectsAt(after, target, replacement, patch, page) && Installed(after, target, patch)
    && OutsideSame(WriteCode(before, target, patch), after, page)
  }

  /** Prepare, then commit, with nothing else running in between. When the write completes, the
      trampoline is in place behind the patched entry and nothing else has changed. */
  method Install(process: Process, plan: RelocPlan, target: Addr, replacement: Addr, offered: Page, sealed: bool,
                 outcome: Mutation, canFree: bool)
    returns (status: Status, m: Mutation)
    requires process.Valid() && process.MayOffer(offered.address, target)
    modifies process, plan
    ensures m.Complete? ==>
              && status.Ok? && plan.trampoline == offered.address && plan.trampoline in process.published
              && Hooked(old(process.mem), process.mem, target, replacement, plan.patch, offered.address)
    ensures status.Ok? && !outcome.Partial? && !outcome.Unknown? ==> m == outcome
    ensures m.Unmutated? ==> OutsideSame(old(process.mem), process.mem, offered.address)
    ensures m.Unmutated? && canFree ==> process.live == old(process.live) && process.published == old(process.published)
  {
    hide BuiltAt, RedirectsAt, ReadCode, InPage, InEntry, Apart, Installed, WriteCode, Usable, Aligned, Acceptable, Entry;
    status := plan.Prepare(process, target, replacement, 0, None, offered, sealed, canFree);
    m := Unmutated;
    if status.Ok? {
      UsablePage(offered);
      ghost var built := process.mem;
      var after := if outcome.Complete? then WriteCode(process.mem, target, plan.patch) else process.mem;
      BuiltLength(built, target, plan.original, plan.patch, plan.trampoline);
      m := plan.Commit(process, outcome, after, canFree);
      if m.Complete? {
        StillBuilt(built, process.mem, m, target, replacement, plan.original, plan.patch, plan.trampoline);
        WrittenOutside(old(process.mem), built, offered.address, target, plan.patch);
      }
    }
  }

  lemma WrittenOutside(m: Memory, n: Memory, page: Addr, target: Addr, patch: seq<Word>)
    requires OutsideSame(m, n, page)
    ensures OutsideSame(WriteCode(m, target, patch), WriteCode(n, target, patch), page)
  {
    hide InPage, WriteCode;
    forall b | !InPage(page, b)
      ensures WriteCode(n, target, patch)(b) == WriteCode(m, target, patch)(b)
    {
      WrittenOver(m, n, target, patch, b);
    }
  }

  /** The memory in which the process before and after the hook may differ. */
  ghost function Displaced(target: Addr, window: seq<Word>, page: Addr): iset<Addr> {
    iset b | InCode(target, window, b) || InPage(page, b)
  }

  lemma CoversEntry(target: Addr, window: seq<Word>, page: Addr)
    ensures Covers(Displaced(target, window, page), target, window)
  {
    hide InCode, InPage;
    CoversItself(Displaced(target, window, page), target, window);
  }

  lemma CoversPage(target: Addr, window: seq<Word>, page: Addr, i: nat, code: seq<Word>)
    requires i + |code| <= PAGE_WORDS
    ensures Covers(Displaced(target, window, page), At(page, i), code)
  {
    hide At, InWord, InCode;
    forall b | InCode(At(page, i), code, b)
      ensures InPage(page, b)
    {
      var k := WordOf(page, i, code, b);
    }
    CoversItself(Displaced(target, window, page), At(page, i), code);
  }

  /** Calling the published original of an installed hook is calling the function as it was
      before: `s` runs the window in the memory before the hook, `t` enters the trampoline. */
  lemma OriginalPreserved(isa: Isa, before: Memory, target: Addr, window: seq<Word>, patch: seq<Word>, page: Addr,
                          s: State, t: State, hidden: set<Reg>)
    returns (k: nat, cut: nat)
    requires BuiltAt(t.core.mem, target, window, patch, page) && window == ReadCode(before, target, |window|)
    requires s == State(target, s.core) && s.core.mem == before && t.pc == Entry(page)
    requires Agree(s.core, t.core, hidden, Displaced(target, window, page)) && {X16, X17} <= hidden
    requires Admissible(isa, window, s, hidden, Displaced(target, window, page))
    ensures var r, u := RunBlock(isa, |window|, s), Steps(isa, k, t);
            if r.exit.FellThrough? then
              && r.state.pc == After(target, window) && u.pc == After(target, window)
              && Agree(r.state.core, u.core, hidden, Displaced(target, window, page))
            else
              Reached(window, target, After(target, window), BODY_BYTES, Relocated(window, target, BODY_BYTES).value, s, t, r, u,
                      cut, hidden, Displaced(target, window, page))
  {
    hide Agree, Covers, Displaced, Installed, ReadCode, RunBlock, Steps, Reached, Admissible, After, At, Relocated, EmitBranch,
      Aligned, Apart, AllMovable;
    ReadInstalled(before, target, window);
    CoversEntry(target, window, page);
    BodyFits(target, window, page);
    CoversPage(target, window, page, THUNK_WORDS, Body(target, window, page).value);
    k, cut := OriginalEntry(isa, target, window, page, Relocated(window, target, BODY_BYTES).value, s, t, hidden,
                            Displaced(target, window, page));
  }

  // Before and after the hook the machines differ only in the displaced bytes.
  lemma HookedAgree(before: Memory, after: Memory, target: Addr, window: seq<Word>, patch: seq<Word>, page: Addr, c: Core,
                    hidden: set<Reg>)
    requires OutsideSame(WriteCode(before, target, patch), after, page) && |window| == |patch| && c.mem == before
    ensures Agree(c, c.(mem := after), hidden, Displaced(target, window, page))
  {
    hide InPage, InCode, WriteCode;
    forall b | b !in Displaced(target, window, page)
      ensures before(b) == after(b)
    {
      SameExtent(target, window, patch, b);
      CodeElsewhere(before, target, patch, b);
    }
  }

  /** An installed hook, end to end. Whoever calls the function now arrives at the replacement, unless
      that is unaligned and within reach of the last hop; and whoever calls the published original
      is taken where the function would have gone before, from the same registers and memory. */
  lemma HookedFunction(isa: Isa, before: Memory, after: Memory, target: Addr, replacement: Addr, patch: seq<Word>, page: Addr,
                       c: Core, hidden: set<Reg>)
    returns (k: nat, j: nat, cut: nat)
    requires Hooked(before, after, target, replacement, patch, page) && c.mem == before && {X16, X17} <= hidden
    requires var window := ReadCode(before, target, |patch|);
             Admissible(isa, window, State(target, c), hidden, Displaced(target, window, page))
    ensures var u := Steps(isa, k, State(target, c.(mem := after)));
            && Agree(c.(mem := after), u.core, {X16, X17}, iset{}) && u.core.mem == after
            && (u.pc == replacement <==> !Near(LastHop(target, page), replacement) || Aligned(replacement))
    ensures var window, s, t := ReadCode(before, target, |patch|), State(target, c), State(Entry(page), c.(mem := after));
            var r, u := RunBlock(isa, |window|, s), Steps(isa, j, t);
            if r.exit.FellThrough? then
              && r.state.pc == After(target, window) && u.pc == After(target, window)
              && Agree(r.state.core, u.core, hidden, Displaced(target, window, page))
            else
              Reached(window, target, After(target, window), BODY_BYTES, Relocated(window, target, BODY_BYTES).value, s, t, r, u,
                      cut, hidden, Displaced(target, window, page))
  {
    var window := ReadCode(before, target, |patch|);
    hide Agree, Displaced, ReadCode, RunBlock, Steps, Reached, Admissible, After, Relocated, OutsideSame, WriteCode, Body, Installed,
      EntryPatch, Thunk, Aligned, Near, Entry, LastHop;
    k := EntryReaches(isa, c.(mem := after), target, replacement, page);
    HookedAgree(before, after, target, window, patch, page, c, hidden);
    j, cut := OriginalPreserved(isa, before, target, window, patch, page, State(target, c), State(Entry(page), c.(mem := after)),
                                hidden);
  }

  /** A usual prologue is such a window: it pushes its frame, loads a field of its argument, and
      goes on, as long as neither the frame nor the field is among the displaced bytes. */
  lemma FrameWindow(isa: Isa, s: State, page: Addr)
    requires forall c :: isa(PUSH_FRAME, c) == Effect(Pushed(c), Next)
    requires Installed(s.core.mem, s.pc, [PUSH_FRAME, LOAD_FIELD, NOP, NOP])
    requires var private := Displaced(s.pc, [PUSH_FRAME, LOAD_FIELD, NOP, NOP], page);
             StoreOutside(Plus(s.core.sp, 0xFFFFFFFFFFFFFFF0), 16, private) && LiteralOutside(X64, X(s.core, 1), private)
    ensures Admissible(isa, [PUSH_FRAME, LOAD_FIELD, NOP, NOP], s, {X16, X17},
                       Displaced(s.pc, [PUSH_FRAME, LOAD_FIELD, NOP, NOP], page))
  {
    hide Installed, StoreOutside, LiteralOutside, Displaced, Admissible, Covers, Steps, Pushed, Plus;
    var window := [PUSH_FRAME, LOAD_FIELD, NOP, NOP];
    var private := Displaced(s.pc, window, page);
    CoversEntry(s.pc, window, page);
    assert window == [PUSH_FRAME, LOAD_FIELD] + [NOP, NOP];
    NopsMove(isa, Steps(isa, 2, s), {X16, X17}, private);
    PrologueMoves(isa, s, [NOP, NOP], private);
  }

  lemma NopsMove(isa: Isa, s: State, hidden: set<Reg>, private: iset<Addr>)
    ensures Admissible(isa, [NOP, NOP], s, hidden, private)
  {
    NopDecodes();
    hide Decode, Movable, Exec, Step;
    var s1 := Step(isa, s);
    RegisterBranchMoves(isa, NOP, s, hidden, private);
    RegisterBranchMoves(isa, NOP, s1, hidden, private);
    assert [NOP, NOP][1..] == [NOP] && [NOP][1..] == [];
    AdmissibleFirst(isa, [NOP], s1, hidden, private);
    AdmissibleFirst(isa, [NOP, NOP], s, hidden, private);
  }

  lemma NopDecodes()
    ensures Decode(NOP) == Nop
  {
  }

  // ---- literals inside the window ----

  /** The bytes a load of this kind reads. */
  predicate InLiteral(kind: LoadKind, a: Addr, b: Addr) {
    || InWord(a, b)
    || ((kind.X64? || kind.D64? || kind.Q128?) && InWord(Plus(a, 4), b))
    || (kind.Q128? && (InWord(Plus(a, 8), b) || InWord(Plus(a, 12), b)))
  }

  /** The patch overwrites a byte of the literal with another. */
  ghost predicate Spoiled(m: Memory, target: Addr, patch: seq<Word>, kind: LoadKind, a: Addr) {
    exists b :: InLiteral(kind, a, b) && InCode(target, patch, b) && WriteCode(m, target, patch)(b) != m(b)
  }

  predicate SameRegister(c: Core, d: Core, kind: LoadKind, rt: Reg) {
    if Simd(kind) then c.v(rt) == d.v(rt) else X(c, rt) == X(d, rt)
  }

  /** A moved literal load, whatever its kind, gives the register what the source would have
      loaded exactly if it loads into the zero register or the patch spares the literal. */
  lemma LiteralExactly(isa: Isa, w: Word, lo: Addr, hi: Addr, s: State, t: State, code: seq<Word>, target: Addr,
                       patch: seq<Word>, page: Addr)
    requires w & 0x3B000000 == 0x18000000 && w >> 30 < 3
    requires Read32(s.core.mem, s.pc) == w && RelocateOne(w, s.pc, lo, hi) == Some(code)
    requires Installed(t.core.mem, t.pc, code)
    requires forall b :: !InPage(page, b) ==> t.core.mem(b) == WriteCode(s.core.mem, target, patch)(b)
    requires forall b :: InLiteral(LiteralKind(w >> 30, (w >> 26) & 1 != 0), Plus(s.pc, Imm19(w)), b) ==> !InPage(page, b)
    ensures var kind, to := LiteralKind(w >> 30, (w >> 26) & 1 != 0), Plus(s.pc, Imm19(w));
            SameRegister(Step(isa, s).core, Steps(isa, 3, t).core, kind, w & 31) <==>
            (w & 31 == 31 && !Simd(kind)) || !Spoiled(s.core.mem, target, patch, kind, to)
  {
    hide Decode, RelocateOne, Exec, Imm19, LoadFromBase, X, Read32, Step, Steps, Installed, LoadConst, LiteralKind, Simd, Load,
      Plus, InLiteral, Spoiled, SameRegister, InPage, WriteCode;
    LiteralShape(w, s.pc, lo, hi);
    DecodedLoad(w >> 30, (w >> 26) & 1 != 0, w & 31);
    ExecLiteral(isa, w, s.pc, s.core);
    hide *;
    LoadedBoth(isa, w, LoadFromBase(w >> 30, (w >> 26) & 1 != 0) | (X17 << 5) | (w & 31), s, t,
               LiteralKind(w >> 30, (w >> 26) & 1 != 0), w & 31, Plus(s.pc, Imm19(w)), target, patch, page);
  }

  ghost predicate SameLiteral(m: Memory, n: Memory, kind: LoadKind, a: Addr) {
    forall b :: InLiteral(kind, a, b) ==> m(b) == n(b)
  }

  lemma SparedExactly(m: Memory, n: Memory, target: Addr, patch: seq<Word>, page: Addr, kind: LoadKind, a: Addr)
    requires forall b :: !InPage(page, b) ==> n(b) == WriteCode(m, target, patch)(b)
    requires forall b :: InLiteral(kind, a, b) ==> !InPage(page, b)
    ensures SameLiteral(m, n, kind, a) <==> !Spoiled(m, target, patch, kind, a)
  {
    hide InLiteral, InCode, WriteCode, InPage;
    forall b | !InCode(target, patch, b)
      ensures WriteCode(m, target, patch)(b) == m(b)
    {
      CodeElsewhere(m, target, patch, b);
    }
  }

  lemma LoadedBoth(isa: Isa, w: Word, load: Word, s: State, t: State, kind: LoadKind, rt: Reg, to: Addr,
                   target: Addr, patch: seq<Word>, page: Addr)
    requires Exec(isa, w, s.pc, s.core) == Effect(Load(s.core, kind, rt, to), Next) && Decode(load) == LoadBase(kind, rt, X17)
    requires Read32(s.core.mem, s.pc) == w
    requires Installed(t.core.mem, t.pc, LoadConst(X17, to) + [load])
    requires forall b :: !InPage(page, b) ==> t.core.mem(b) == WriteCode(s.core.mem, target, patch)(b)
    requires forall b :: InLiteral(kind, to, b) ==> !InPage(page, b)
    ensures SameRegister(Step(isa, s).core, Steps(isa, 3, t).core, kind, rt) <==>
            (rt == 31 && !Simd(kind)) || !Spoiled(s.core.mem, target, patch, kind, to)
  {
    hide *;
    RunLoad(isa, t, to, load, kind, rt);
    StepEffect(isa, s, w, Exec(isa, w, s.pc, s.core));
    SetKeepsMemory(t.core, X17, to);
    LoadedExactly(s.core, SetX(t.core, X17, to), kind, rt, to);
    SparedExactly(s.core.mem, t.core.mem, target, patch, page, kind, to);
  }

  lemma LoadedExactly(c: Core, d: Core, kind: LoadKind, rt: Reg, a: Addr)
    ensures SameRegister(Load(c, kind, rt, a), Load(d, kind, rt, a), kind, rt) <==>
            (rt == 31 && !Simd(kind)) || SameLiteral(c.mem, d.mem, kind, a)
  {
    hide XValue, VValue, SameLiteral;
    if Simd(kind) {
      SameVExactly(c.mem, d.mem, kind, a);
    } else {
      SameXExactly(c.mem, d.mem, kind, a);
    }
  }

  // Two values read are the same exactly if their bytes are.

  lemma SameXExactly(m: Memory, n: Memory, kind: LoadKind, a: Addr)
    requires !Simd(kind)
    ensures XValue(m, kind, a) == XValue(n, kind, a) <==> SameLiteral(m, n, kind, a)
  {
    hide Plus, Read32, SignExtend, Join32, InWord;
    SameWordExactly(m, n, a);
    SameJoined32(Read32(m, a), 0, Read32(n, a), 0);
    SameExtended(Read32(m, a), Read32(n, a));
    if kind.X64? {
      SameDoubleExactly(m, n, a);
    }
  }

  lemma SameVExactly(m: Memory, n: Memory, kind: LoadKind, a: Addr)
    requires Simd(kind)
    ensures VValue(m, kind, a) == VValue(n, kind, a) <==> SameLiteral(m, n, kind, a)
  {
    PlusPlus(a, 8, 4);
    hide Plus, Read32, Read64, Join32, Join64, InWord;
    SameWordExactly(m, n, a);
    SameDoubleExactly(m, n, a);
    if kind.S32? {
      SameJoined32(Read32(m, a), 0, Read32(n, a), 0);
      SameJoined64(Join32(Read32(m, a), 0), 0, Join32(Read32(n, a), 0), 0);
    } else if kind.D64? {
      SameJoined64(Read64(m, a), 0, Read64(n, a), 0);
    } else {
      SameDoubleExactly(m, n, Plus(a, 8));
      SameJoined64(Read64(m, a), Read64(m, Plus(a, 8)), Read64(n, a), Read64(n, Plus(a, 8)));
    }
  }

  lemma SameWordExactly(m: Memory, n: Memory, a: Addr)
    ensures Read32(m, a) == Read32(n, a) <==> forall b :: InWord(a, b) ==> m(b) == n(b)
  {
    if Read32(m, a) == Read32(n, a) {
      hide Read32, InWord;
      forall b | InWord(a, b)
        ensures m(b) == n(b)
      {
        SameWordSameBytes(m, n, a, b);
      }
    } else if forall b :: InWord(a, b) ==> m(b) == n(b) {
      SameWord(m, n, a);
    }
  }

  lemma SameDoubleExactly(m: Memory, n: Memory, a: Addr)
    ensures Read64(m, a) == Read64(n, a) <==> forall b :: InWord(a, b) || InWord(Plus(a, 4), b) ==> m(b) == n(b)
  {
    hide Plus, Read32, Join32, InWord;
    SameWordExactly(m, n, a);
    SameWordExactly(m, n, Plus(a, 4));
    SameJoined32(Read32(m, a), Read32(m, Plus(a, 4)), Read32(n, a), Read32(n, Plus(a, 4)));
  }

  lemma SameJoined32(l: bv32, h: bv32, l': bv32, h': bv32)
    ensures Join32(l, h) == Join32(l', h') <==> l == l' && h == h'
  {
  }

  lemma SameJoined64(l: bv64, h: bv64, l': bv64, h': bv64)
    ensures Join64(l, h) == Join64(l', h') <==> l == l' && h == h'
  {
  }

  lemma SameExtended(l: bv32, l': bv32)
    ensures SignExtend(Join32(l, 0), 32) == SignExtend(Join32(l', 0), 32) <==> l == l'
  {
    ExtendedBack(l);
    ExtendedBack(l');
    SameJoined32(l, 0, l', 0);
    hide SignExtend, Join32;
  }

  lemma ExtendedBack(l: bv32)
    ensures SignExtend(Join32(l, 0), 32) & 0xFFFFFFFF == Join32(l, 0)
  {
    LowHalf(l);
    hide SignExtend, Join32;
    var v := Join32(l, 0);
    if v < 0x80000000 {
      Positive(v);
      Masked(v);
    } else {
      Negative(v);
      Borrowed(v);
    }
  }

  lemma LowHalf(l: bv32)
    ensures Join32(l, 0) <= 0xFFFFFFFF
  {
  }

  lemma Positive(v: bv64)
    requires v < 0x80000000
    ensures SignExtend(v, 32) == v
  {
  }

  lemma Negative(v: bv64)
    requires 0x80000000 <= v <= 0xFFFFFFFF
    ensures SignExtend(v, 32) == v - 0x100000000
  {
  }

  lemma Masked(v: bv64)
    requires v <= 0xFFFFFFFF
    ensures v & 0xFFFFFFFF == v
  {
  }

  lemma Borrowed(v: bv64)
    requires v <= 0xFFFFFFFF
    ensures (v - 0x100000000) & 0xFFFFFFFF == v
  {
  }

  /** Such a load is not refused even when its literal is among the bytes being overwritten: a
      function that starts with `LDR X0, .` is hooked, and its original then always loads
      something else. */
  lemma LiteralInWindow(before: Memory, after: Memory, target: Addr, replacement: Addr, page: Addr)
    requires Read32(before, target) == 0x58000000
    requires Installed(after, target, EntryPatch(target, replacement, page))
    ensures RelocateOne(0x58000000, target, target, Plus(target, 4)).Some?
    ensures Decode(0x58000000) == LoadLiteral(X64, 0, 0)
    ensures Read64(before, target) != Read64(after, target)
  {
    PatchOpens(target, replacement, page);
    hide Read32, Installed, EntryPatch, Join32, Plus, RelocateLiteral;
    InstalledFirst(after, target, EntryPatch(target, replacement, page));
    SameJoined32(Read32(before, target), Read32(before, Plus(target, 4)), Read32(after, target), Read32(after, Plus(target, 4)));
    LoadItself(target);
  }

  lemma LoadItself(target: Addr)
    ensures RelocateOne(0x58000000, target, target, Plus(target, 4)).Some?
    ensures Decode(0x58000000) == LoadLiteral(X64, 0, 0)
  {
    hide LoadConst, BranchTarget, Plus;
  }

  lemma PatchOpens(target: Addr, replacement: Addr, page: Addr)
    ensures EntryPatch(target, replacement, page) != [] && EntryPatch(target, replacement, page)[0] != 0x58000000
  {
    hide Near, Gap;
    NotTheLoad(Gap(target, page), replacement);
    NotTheLoad(Gap(target, replacement), replacement);
  }

  lemma NotTheLoad(delta: bv64, to: Addr)
    ensures EncodeB(delta) != 0x58000000 && EncodeLdrLiteral64(JumpScratch(to), 8) != 0x58000000
  {
  }

  // ---- executable pages over whole runs ----

  /** What preparing takes, apart from how the entry is to be patched. */
  ghost predicate Accepted(m: Memory, target: Addr, replacement: Addr, overwrite: nat, expected: Option<seq<bv8>>, offered: Page,
                           sealed: bool)
  {
    && WellFormed(target, replacement, overwrite, expected) && Aligned(target) && Usable(offered) && sealed
    && Acceptable(ReadCode(m, target, WindowWords(target, replacement, overwrite, offered.address)), target, expected)
  }

  /** The engine's adapter: the plans handed to the core and not yet released. */
  class Host {
    const process: Process
    const canFree: bool
    ghost var plans: set<RelocPlan>

    /** Every page is published for good or belongs to exactly one plan that will give it back. */
    ghost predicate Valid()
      reads this, process, plans
    {
      && process.Valid() && process.published <= process.recorded
      && (forall p :: p in plans ==> p.Holds(process))
      && (forall p, q :: p in plans && q in plans && p != q && p.captured && q.captured ==> p.trampoline != q.trampoline)
      && (forall p :: p in plans && p.captured ==> p.trampoline in process.live)
      && (canFree ==> forall a :: a in process.live ==> a in process.published || Owned(a))
    }

    /** As it must be while one page, no plan's, is still to be placed. */
    ghost predicate ValidBut(page: Addr)
      reads this, process, plans
    {
      && process.Valid() && process.published <= process.recorded && page !in process.published
      && (forall p :: p in plans ==> p.Holds(process))
      && (forall p, q :: p in plans && q in plans && p != q && p.captured && q.captured ==> p.trampoline != q.trampoline)
      && (forall p :: p in plans && p.captured ==> p.trampoline in process.live && p.trampoline != page)
      && (canFree ==> forall a :: a in process.live ==> a in process.published || Owned(a) || a == page)
    }

    /** The page is the new plan's. */
    ghost method Admit(made: RelocPlan)
      requires ValidBut(made.trampoline) && made !in plans
      requires made.Holds(process) && made.captured && !made.activated
      modifies this`plans
      ensures Valid() && plans == old(plans) + {made}
    {
      plans := plans + {made};
      forall a | canFree && a in process.live
        ensures a in process.published || Owned(a)
      {
        if a == made.trampoline {
          assert made in plans && made.captured && !made.activated;
        } else if a !in process.published {
          var p :| p in old(plans) && p.captured && !p.activated && p.trampoline == a;
          assert p in plans;
        }
      }
    }

    /** Or it goes back. */
    method Reclaim(page: Addr)
      requires ValidBut(page) && page in process.live
      modifies process`live
      ensures Valid() && process.live == if canFree then old(process.live) - {page} else old(process.live)
    {
      if canFree {
        process.Free(page);
      }
    }

    ghost predicate Owned(a: Addr)
      reads this, plans
    {
      exists p :: p in plans && p.captured && !p.activated && p.trampoline == a
    }

    constructor (process: Process, canFree: bool)
      requires process.Valid() && process.live == {} && process.recorded == {}
      ensures Valid() && plans == {} && this.process == process && this.canFree == canFree
    {
      this.process, this.canFree, plans := process, canFree, {};
    }

    /** With nothing left to release, every page that is left has been published: none leaked. */
    lemma NothingLeaked()
      requires Valid() && plans == {} && canFree
      ensures process.live == process.published
    {
      forall a | a in process.live
        ensures a in process.published
      {
        assert !Owned(a);
      }
    }

    /** A plan whose entry patch is not a single store is refused, and its page reclaimed, unless
        the caller allows it. */
    method PrepareOne(target: Addr, replacement: Addr, expected: Option<seq<bv8>>, offered: Page, sealed: bool,
                      allowNonAtomic: bool)
      returns (plan: RelocPlan?)
      requires Valid() && process.MayOffer(offered.address, target)
      modifies this, process`mem, process`live
      ensures Valid()
      ensures plan == null <==>
              !(Accepted(old(process.mem), target, replacement, 0, expected, offered, sealed) &&
                (|EntryPatch(target, replacement, offered.address)| == 1 || allowNonAtomic))
      ensures plan == null ==> plans == old(plans) && (canFree ==> process.live == old(process.live))
      ensures plan != null ==>
                && fresh(plan) && plans == old(plans) + {plan} && plan.captured && !plan.activated
                && plan.address == target && plan.Built(process.mem) && plan.Redirects(process.mem)
                && plan.original == ReadCode(old(process.mem), target, |plan.patch|)
                && (plan.atomic || allowNonAtomic)
      ensures OutsideSame(old(process.mem), process.mem, offered.address)
    {
      hide Usable, Aligned, Acceptable, ReadCode, BuiltAt, OutsideSame, Apart, Entry, Judged, WellFormed, Installed, EntryPatch,
        Thunk, RedirectsAt;
      var made := new RelocPlan();
      var status := made.Prepare(process, target, replacement, 0, expected, offered, sealed, canFree);
      if !status.Ok? {
        return null;
      }
      if !made.atomic && !allowNonAtomic {
        Reclaim(made.trampoline);
        return null;
      }
      Admit(made);
      return made;
    }

    method CommitOne(plan: RelocPlan, outcome: Mutation, after: Memory) returns (m: Mutation)
      requires Valid() && plan in plans
      requires Obeys(process.mem, plan.address, plan.patch, outcome, after)
      modifies process, plan
      ensures Valid() && plans == old(plans)
      ensures old(plan.activated) ==> m.Unknown? && process.mem == old(process.mem)
      ensures !old(plan.activated) ==>
                && m == (if old(plan.captured) && ReadCode(old(process.mem), old(plan.address), |old(plan.patch)|) == old(plan.original)
                         then outcome else Unmutated)
                && Obeys(old(process.mem), old(plan.address), old(plan.patch), m, process.mem)
      ensures !old(plan.activated) && !m.Unmutated? ==> plan.trampoline in process.published
      ensures old(process.published) <= process.published
      ensures process.live == old(process.live) -
                (if old(plan.captured) && !old(plan.activated) && m.Unmutated? && canFree then {old(plan.trampoline)} else {})
    {
      hide Obeys, ReadCode, BuiltAt, RedirectsAt;
      m := plan.Commit(process, outcome, after, canFree);
      forall a | canFree && a in process.live
        ensures a in process.published || Owned(a)
      {
        if a !in old(process.published) {
          var p :| p in plans && old(p.captured && !p.activated && p.trampoline == a);
          assert p == plan || p.trampoline == a;
        }
      }
    }

    /** For a provider that patches the entry itself over at most `overwrite` bytes, only the
        original is built; when the provider then cannot be activated, its page is reclaimed. */
    method PrepareForProvider(target: Addr, overwrite: nat, expected: Option<seq<bv8>>, offered: Page, sealed: bool,
                              activates: bool)
      returns (plan: RelocPlan?)
      requires Valid() && process.MayOffer(offered.address, target)
      modifies this, process`mem, process`live
      ensures Valid()
      ensures plan == null <==>
              !(overwrite != 0 && (expected.Some? ==> |expected.value| <= overwrite) && activates &&
                Accepted(old(process.mem), target, 0, overwrite, expected, offered, sealed))
      ensures plan == null ==> plans == old(plans) && (canFree ==> process.live == old(process.live))
      ensures plan != null ==>
                && fresh(plan) && plans == old(plans) + {plan} && plan.captured && !plan.activated
                && plan.address == target && plan.Built(process.mem)
                && plan.original == ReadCode(old(process.mem), target, overwrite / 4)
      ensures OutsideSame(old(process.mem), process.mem, offered.address)
    {
      hide Usable, Aligned, Acceptable, ReadCode, BuiltAt, OutsideSame, Apart, Entry, Judged, Installed, EntryPatch, Thunk;
      SameItself(process.mem, offered.address);
      if overwrite == 0 || overwrite > MAX_PATCH || overwrite % 4 != 0 || (expected.Some? && |expected.value| > overwrite) {
        return null;
      }
      var made := new RelocPlan();
      var status := made.Prepare(process, target, 0, overwrite, expected, offered, sealed, canFree);
      if !status.Ok? {
        return null;
      }
      if !activates {
        Reclaim(made.trampoline);
        return null;
      }
      Admit(made);
      return made;
    }

    /** The provider is called exactly if the entry still holds what was inspected. It may then
        have published the page whatever it reports, so the page is given up, and nothing is said
        of what it wrote. */
    method CommitByProvider(plan: RelocPlan, refused: bool, after: Memory) returns (m: Mutation)
      requires Valid() && plan in plans && plan.captured
      modifies process`mem, process`published, process`recorded, plan`activated
      ensures Valid()
      ensures var intact := ReadCode(old(process.mem), plan.address, |plan.original|) == plan.original;
              && m == (if !intact then Unmutated else if refused then Unknown else Complete)
              && process.mem == (if intact then after else old(process.mem))
      ensures !m.Unmutated? ==> plan.activated && plan.trampoline in process.published
      ensures m.Unmutated? ==> plan.activated == old(plan.activated) && process.published == old(process.published)
    {
      hide ReadCode;
      if ReadCode(process.mem, plan.address, |plan.original|) != plan.original {
        return Unmutated;
      }
      if !plan.activated {
        plan.Publish(process);
        forall a | canFree && a in process.live
          ensures a in process.published || Owned(a)
        {
          if a !in old(process.published) {
            var p :| p in plans && old(p.captured && !p.activated && p.trampoline == a);
            assert p == plan || p.trampoline == a;
          }
        }
      }
      process.mem := after;
      m := if refused then Unknown else Complete;
    }

    method ReleaseOne(plan: RelocPlan)
      requires Valid() && plan in plans
      modifies this, process`live
      ensures Valid() && plans == old(plans) - {plan}
      ensures process.live == old(process.live) - (if plan.captured && !plan.activated && canFree then {plan.trampoline} else {})
    {
      plan.Release(process, canFree);
      plans := plans - {plan};
    }
  }
}
