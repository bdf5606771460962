/** The terminal inline engine: src/engines/HKInlineEngine.c. It overwrites an entry with a branch
    and keeps nothing of what was there but its bytes. */
module TerminalEngine {
  import opened A64
  import opened Mutations
  import opened Options
  import opened Relocator
  import opened Simulation
  import opened CodeWriting
  import opened Trampoline
  import opened RelocEngine

  datatype Refusal = BadArgument | NeedsContinuation | BadAlignment | TooShort | Traps | Unexpected

  datatype Plan = Plan(address: Addr, original: seq<Word>, patch: seq<Word>)

  datatype Prepared = Refused(why: Refusal) | Ready(plan: Plan)

  predicate Requested(target: Addr, replacement: Addr, expected: Option<seq<bv8>>) {
    target != 0 && replacement != 0 && (expected.Some? ==> 0 < |expected.value| <= MAX_PATCH)
  }

  /** The function ends before the patch does. A terminator in the patch's last place is no harm. */
  ghost predicate EndsInside(window: seq<Word>) {
    exists i :: 0 <= i < |window| - 1 && Ends(window[i])
  }

  predicate Ends(w: Word) { IsTerminator(w) || IsAuthenticatedTerminator(w) }

  /** Why a request to patch the entry that holds `window` is refused. */
  ghost function Screened(window: seq<Word>, target: Addr, replacement: Addr, wantsOriginal: bool,
                          expected: Option<seq<bv8>>): Option<Refusal>
  {
    if !Requested(target, replacement, expected) then Some(BadArgument)
    else if wantsOriginal then Some(NeedsContinuation)
    else if !Aligned(target) then Some(BadAlignment)
    else if !Expects(window, expected) then Some(Unexpected)
    else if window != [] && IsTrap(window[0]) then Some(Traps)
    else if EndsInside(window) then Some(TooShort)
    else None
  }

  /** Phase one reads the words the branch would replace and writes nothing. A pinned prologue is
      judged before the shape of the code. */
  method Prepare(m: Memory, target: Addr, replacement: Addr, wantsOriginal: bool, expected: Option<seq<bv8>>)
    returns (r: Prepared)
    ensures var patch := EmitBranch(target, replacement);
            var window := ReadCode(m, target, |patch|);
            match Screened(window, target, replacement, wantsOriginal, expected)
            case Some(why) => r == Refused(why)
            case None => r == Ready(Plan(target, window, patch))
  {
    hide ReadCode, EmitBranch, Aligned, Expects, IsTrap, IsTerminator, IsAuthenticatedTerminator;
    if target == 0 || replacement == 0 {
      return Refused(BadArgument);
    }
    if expected.Some? && (|expected.value| == 0 || |expected.value| > MAX_PATCH) {
      return Refused(BadArgument);
    }
    if wantsOriginal {
      return Refused(NeedsContinuation);
    }
    if !Aligned(target) {
      return Refused(BadAlignment);
    }
    var patch := EmitBranch(target, replacement);
    PatchWords(target, replacement);
    var original := ReadCode(m, target, |patch|);
    if !Expects(original, expected) {
      return Refused(Unexpected);
    }
    if IsTrap(original[0]) {
      return Refused(Traps);
    }
    if |patch| > 1 {
      var ends := ScanForTerminator(original[..|patch| - 1]);
      InFront(original);
      if ends {
        return Refused(TooShort);
      }
    }
    return Ready(Plan(target, original, patch));
  }

  lemma PatchWords(target: Addr, replacement: Addr)
    ensures 1 <= |EmitBranch(target, replacement)| <= 4
  {
    hide EncodeB, AbsJump, Near;
  }

  lemma InFront(window: seq<Word>)
    requires |window| > 1
    ensures HasEarlyTerminator(window[..|window| - 1]) <==> EndsInside(window)
  {
    hide IsTerminator, IsAuthenticatedTerminator;
    var front := window[..|window| - 1];
    if HasEarlyTerminator(front) {
      var i :| 0 <= i < |front| && (IsTerminator(front[i]) || IsAuthenticatedTerminator(front[i]));
      assert Ends(window[i]);
    }
    if EndsInside(window) {
      var i :| 0 <= i < |window| - 1 && Ends(window[i]);
      assert front[i] == window[i];
    }
  }

  /** Phase two writes the branch exactly if the entry still holds what was read. Unmutated means no
      byte changed; Complete means the whole branch is in place; nothing past the entry changes. */
  method Commit(before: Memory, plan: Plan, outcome: Mutation, after: Memory) returns (m: Mutation, now: Memory)
    requires |plan.patch| <= 4
    requires Obeys(before, plan.address, plan.patch, outcome, after)
    ensures m == if plan.address != 0 && plan.patch != [] && ReadCode(before, plan.address, |plan.patch|) == plan.original
                 then outcome else Unmutated
    ensures Obeys(before, plan.address, plan.patch, m, now)
    ensures m.Unmutated? ==> now == before
    ensures m.Complete? ==> Installed(now, plan.address, plan.patch)
    ensures forall b :: !InEntry(plan.address, b) ==> now(b) == before(b)
  {
    hide ReadCode, WriteCode, InEntry, Installed;
    WithinEntry(before, plan.address, plan.patch, outcome, after);
    if plan.address == 0 || plan.patch == [] || ReadCode(before, plan.address, |plan.patch|) != plan.original {
      return Unmutated, before;
    }
    if outcome.Complete? {
      FirstWord(plan.address);
      WritesInstall(before, plan.address, 0, plan.patch);
    }
    return outcome, after;
  }

  /** A patched entry arrives at the replacement, with nothing changed but a scratch register,
      exactly if the replacement is an instruction address or out of reach of a B. */
  lemma EntryArrives(isa: Isa, c: Core, target: Addr, replacement: Addr) returns (k: nat)
    requires Aligned(target) && Installed(c.mem, target, EmitBranch(target, replacement))
    ensures var u := Steps(isa, k, State(target, c));
            && Agree(c, u.core, {X16, X17}, iset{}) && u.core.mem == c.mem
            && (u.pc == replacement <==> !Near(target, replacement) || Aligned(replacement))
  {
    hide Steps, Installed, Near, EmitBranch, Agree, SetX, Aligned, Landing;
    var r: Reg;
    k, r := RunEmitted(isa, State(target, c), replacement);
    AgreeSelf(c);
    ScratchOnly(c, c, r, replacement);
    LandsExactly(target, replacement);
    AlignedGap(target, replacement);
  }

  /** Writing the recorded words back undoes the patch byte for byte. */
  lemma ReversalRestores(m: Memory, target: Addr, patch: seq<Word>, b: Addr)
    requires |patch| <= 4
    ensures var now := WriteCode(m, target, patch);
            WriteCode(now, target, ReadCode(m, target, |patch|))(b) == m(b)
  {
    hide ReadCode, WriteCode, Installed, InEntry, InCode, At;
    var now, window := WriteCode(m, target, patch), ReadCode(m, target, |patch|);
    var back := WriteCode(now, target, window);
    FirstWord(target);
    if InCode(target, window, b) {
      WritesInstall(now, target, 0, window);
      ReadInstalled(m, target, window);
      SameCodeSameBytes(back, m, target, window, b);
    } else {
      CodeElsewhere(now, target, window, b);
      SameExtent(target, patch, window, b);
      CodeElsewhere(m, target, patch, b);
    }
  }

  lemma {:induction false} SameCodeSameBytes(m: Memory, n: Memory, a: Addr, code: seq<Word>, b: Addr)
    requires Installed(m, a, code) && Installed(n, a, code) && InCode(a, code, b)
    ensures m(b) == n(b)
    decreases |code|
  {
    hide Plus, InWord, Read32;
    if InWord(a, b) {
      SameWordSameBytes(m, n, a, b);
    } else {
      SameCodeSameBytes(m, n, Plus(a, 4), code[1..], b);
    }
  }

  /** From the request to the jump: what is accepted and then written by a writer that completes
      sends every later entry to the replacement. */
  method InstallTerminal(isa: Isa, m: Memory, target: Addr, replacement: Addr, expected: Option<seq<bv8>>, c: Core)
    returns (r: Prepared, now: Memory, ghost k: nat)
    requires Aligned(replacement)
    ensures r.Refused? ==> now == m
    ensures r.Ready? && c.mem == now ==>
              var u := Steps(isa, k, State(target, c));
              u.pc == replacement && Agree(c, u.core, {X16, X17}, iset{}) && u.core.mem == c.mem
  {
    hide Steps, Installed, Near, EmitBranch, Agree, ReadCode, WriteCode, Expects, IsTrap, EndsInside;
    k, now := 0, m;
    r := Prepare(m, target, replacement, false, expected);
    if r.Ready? {
      PatchWords(target, replacement);
      var outcome: Mutation;
      outcome, now := Commit(m, r.plan, Complete, WriteCode(m, target, r.plan.patch));
      if c.mem == now {
        k := EntryArrives(isa, c, target, replacement);
      }
    }
  }
}
