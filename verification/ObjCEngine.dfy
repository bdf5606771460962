/** The Objective-C method engine: src/engines/HKObjCEngine.c, over a runtime that is a table of the
    methods each class defines itself. */
module ObjCEngine {
  import opened Mutations
  import opened Options

  /** A class with its ancestors. */
  datatype Class = Root(name: string) | Sub(name: string, super: Class)

  type Selector = nat
  type Imp = nat            // zero for none

  datatype Method = Method(imp: Imp, types: Option<string>)

  type Table = map<(Class, Selector), Method>

  // ---- dispatch ----

  /** The class whose own method a lookup from `c` finds: class_getInstanceMethod. */
  function Provider(t: Table, c: Option<Class>, sel: Selector): (p: Option<Class>)
    ensures p.Some? ==> (p.value, sel) in t
  {
    if c.None? then None else ProviderFrom(t, c.value, sel)
  }

  function ProviderFrom(t: Table, c: Class, sel: Selector): (p: Option<Class>)
    ensures p.Some? ==> (p.value, sel) in t
    decreases c
  {
    if (c, sel) in t then Some(c)
    else
      match c
      case Root(_) => None
      case Sub(_, super) => ProviderFrom(t, super, sel)
  }

  function Super(c: Class): Option<Class> {
    match c
    case Root(_) => None
    case Sub(_, super) => Some(super)
  }

  /** What a message send ends up calling; zero if nothing. */
  function Reached(t: Table, c: Class, sel: Selector): Imp {
    var p := Provider(t, Some(c), sel);
    if p.None? then 0 else t[(p.value, sel)].imp
  }

  /** The encoding a replacement carries: a method without one gets a placeholder. */
  function TypesFor(t: Table, c: Class, sel: Selector): Option<string> {
    var p := Provider(t, Some(c), sel);
    if p.Some? && t[(p.value, sel)].types.Some? then t[(p.value, sel)].types else Some("@:@")
  }

  function Replaced(t: Table, c: Class, sel: Selector, imp: Imp, types: Option<string>): Table {
    t[(c, sel) := Method(imp, if (c, sel) in t then t[(c, sel)].types else types)]
  }

  /** Dispatch from `c` goes through `cls`: nothing on the way up to it defines the method. */
  predicate Through(t: Table, c: Class, cls: Class, sel: Selector) {
    c == cls || (c.Sub? && (c, sel) !in t && Through(t, c.super, cls, sel))
  }

  /** Replacing a method redirects exactly the sends that go through its class. */
  lemma {:induction false} ReplaceReaches(t: Table, cls: Class, sel: Selector, imp: Imp, types: Option<string>, c: Class, s: Selector)
    ensures Reached(Replaced(t, cls, sel, imp, types), c, s) ==
            if s == sel && Through(t, c, cls, sel) then imp else Reached(t, c, s)
    decreases c
  {
    if c.Sub? && (c, s) !in t && (c, s) != (cls, sel) {
      ReplaceReaches(t, cls, sel, imp, types, c.super, s);
    }
  }

  // ---- prepare ----

  datatype Status = Ok | InvalidArgument | ClassNotFound | MethodNotFound | InheritedRefused | NoImplementation | NotApplicable

  datatype Availability = Required | OptionalIfPresent | DeferUntilAvailable

  datatype Target = Target(cls: Option<Class>, className: Option<string>, classMethod: bool, sel: Option<Selector>,
                           selectorName: Option<string>, localOnly: bool, availability: Availability)

  datatype Plan = Plan(cls: Class, sel: Selector, original: Imp, types: Option<string>, isLocal: bool)

  datatype Event = Published(original: Imp) | Dispatches(cls: Class, sel: Selector, imp: Imp)

  datatype Artifact = Artifact(original: Imp, replacement: Imp, reversible: bool)

  class Runtime {
    var table: Table
    const classes: map<string, Class>
    const metaclasses: map<Class, Class>
    const selectors: map<string, Selector>
    ghost var events: seq<Event>
    ghost var ledger: seq<Artifact>

    constructor (table: Table, classes: map<string, Class>, metaclasses: map<Class, Class>, selectors: map<string, Selector>)
      ensures this.table == table && this.classes == classes && this.metaclasses == metaclasses
      ensures this.selectors == selectors && events == [] && ledger == []
    {
      this.table, this.classes, this.metaclasses, this.selectors := table, classes, metaclasses, selectors;
      events, ledger := [], [];
    }

    /** The class a target means, before the choice of instance or class method. */
    function Named(target: Target): Option<Class> {
      if target.cls.Some? then target.cls
      else if target.className.Some? && target.className.value in classes then Some(classes[target.className.value])
      else None
    }

    /** The class whose table a replacement goes into. */
    function Holder(target: Target): Option<Class> {
      var named := Named(target);
      if named.None? || !target.classMethod then named
      else if named.value in metaclasses then Some(metaclasses[named.value])
      else None
    }

    function SelectorOf(target: Target): Option<Selector> {
      if target.sel.Some? then target.sel
      else if target.selectorName.Some? && target.selectorName.value in selectors then Some(selectors[target.selectorName.value])
      else None
    }

    predicate Local(cls: Class, sel: Selector)
      reads this`table
    {
      (cls, sel) in table
    }

    /** Phase one captures what a send would call now, and whether the class defines it itself. It
        refuses what it cannot find, unless the target may be absent, and what it would have to
        widen to an override. */
    method Prepare(target: Target) returns (status: Status, plan: Option<Plan>)
      ensures status.Ok? <==> plan.Some?
      ensures status.Ok? ==>
                && Holder(target) == Some(plan.value.cls) && SelectorOf(target) == Some(plan.value.sel)
                && plan.value.original == Reached(table, plan.value.cls, plan.value.sel) != 0
                && plan.value.types == TypesFor(table, plan.value.cls, plan.value.sel)
                && (plan.value.isLocal <==> Local(plan.value.cls, plan.value.sel))
                && (target.localOnly ==> plan.value.isLocal)
      ensures Holder(target).None? ==>
                status == if target.cls.None? && target.className.None? then InvalidArgument
                          else if target.availability.Required? then ClassNotFound else NotApplicable
      ensures Holder(target).Some? && SelectorOf(target).None? ==> status.InvalidArgument?
      ensures Holder(target).Some? && SelectorOf(target).Some? ==>
                var cls, sel := Holder(target).value, SelectorOf(target).value;
                if Provider(table, Some(cls), sel).None? then
                  status == if target.availability.Required? then MethodNotFound else NotApplicable
                else if !Local(cls, sel) && target.localOnly then status.InheritedRefused?
                else status == if Reached(table, cls, sel) == 0 then NoImplementation else Ok
    {
      var optional := !target.availability.Required?;
      var cls := target.cls;
      if cls.None? {
        if target.className.None? {
          return InvalidArgument, None;
        }
        if target.className.value !in classes {
          return if optional then NotApplicable else ClassNotFound, None;
        }
        cls := Some(classes[target.className.value]);
      }
      if target.classMethod {
        if cls.value !in metaclasses {
          return if optional then NotApplicable else ClassNotFound, None;
        }
        cls := Some(metaclasses[cls.value]);
      }
      var sel := target.sel;
      if sel.None? {
        if target.selectorName.None? || target.selectorName.value !in selectors {
          return InvalidArgument, None;
        }
        sel := Some(selectors[target.selectorName.value]);
      }
      var found := Provider(table, cls, sel.value);
      if found.None? {
        return if optional then NotApplicable else MethodNotFound, None;
      }
      // A lookup from the superclass that answers differently means the method is the class's own.
      var isLocal := Provider(table, Super(cls.value), sel.value) != found;
      ProviderIsLocal(table, cls.value, sel.value);
      if !isLocal && target.localOnly {
        return InheritedRefused, None;
      }
      var m := table[(found.value, sel.value)];
      if m.imp == 0 {
        return NoImplementation, None;
      }
      return Ok, Some(Plan(cls.value, sel.value, m.imp, if m.types.Some? then m.types else Some("@:@"), isLocal));
    }

    /** class_replaceMethod: what it answers is the implementation it replaced, or zero when the
        class had no method of its own. */
    method ReplaceMethod(cls: Class, sel: Selector, imp: Imp, types: Option<string>) returns (was: Imp)
      modifies this`table, this`events
      ensures table == Replaced(old(table), cls, sel, imp, types)
      ensures was == if (cls, sel) in old(table) then old(table)[(cls, sel)].imp else 0
      ensures events == old(events) + [Dispatches(cls, sel, imp)]
    {
      was := if (cls, sel) in table then table[(cls, sel)].imp else 0;
      table := Replaced(table, cls, sel, imp, types);
      events := events + [Dispatches(cls, sel, imp)];
    }

    ghost method Publish(original: Imp)
      modifies this`events
      ensures events == old(events) + [Published(original)]
    {
      events := events + [Published(original)];
    }

    /** Phase two replaces exactly if a send still calls what prepare captured and, where the ledger
        has a head, that head is it. What is published is what a send called until then, and it is
        published before the replacement can be reached. */
    method Commit(plan: Plan, replacement: Imp, required: Option<Imp>) returns (m: Mutation, original: Imp)
      modifies this
      ensures m.Complete? || m.Unmutated?
      ensures m.Complete? <==>
                && replacement != 0 && (required.Some? ==> plan.original == required.value)
                && Provider(old(table), Some(plan.cls), plan.sel).Some? && Reached(old(table), plan.cls, plan.sel) == plan.original
      ensures m.Unmutated? ==> unchanged(this)
      ensures m.Complete? ==> original == Reached(old(table), plan.cls, plan.sel)
      ensures m.Complete? ==>
                forall c, s ::
                  Reached(table, c, s) ==
                  if s == plan.sel && Through(old(table), c, plan.cls, plan.sel) then replacement else Reached(old(table), c, s)
      ensures m.Complete? ==> table == Replaced(old(table), plan.cls, plan.sel, replacement, plan.types)
      ensures m.Complete? ==> |events| > |old(events)| + 1 && events[..|old(events)|] == old(events) &&
                              events[|old(events)|] == Published(original) &&
                              forall i :: |old(events)| < i < |events| ==>
                                events[i] in {Published(original), Dispatches(plan.cls, plan.sel, replacement)}
      ensures m.Complete? ==> ledger == old(ledger) + [Artifact(original, replacement, plan.isLocal)]
    {
      original := 0;
      if replacement == 0 {
        return Unmutated, 0;
      }
      if required.Some? && plan.original != required.value {
        return Unmutated, 0;
      }
      var found := Provider(table, Some(plan.cls), plan.sel);
      if found.None? || table[(found.value, plan.sel)].imp != plan.original {
        return Unmutated, 0;
      }
      original := plan.original;
      Publish(original);
      var was := ReplaceMethod(plan.cls, plan.sel, replacement, plan.types);
      if was != 0 {
        original := was;
        Publish(was);
      }
      ledger := ledger + [Artifact(original, replacement, plan.isLocal)];
      forall c, s
        ensures Reached(table, c, s) ==
                if s == plan.sel && Through(old(table), c, plan.cls, plan.sel) then replacement else Reached(old(table), c, s)
      {
        ReplaceReaches(old(table), plan.cls, plan.sel, replacement, plan.types, c, s);
      }
      return Complete, original;
    }

    /** The readback: a send now calls the replacement. */
    method Verify(plan: Plan, replacement: Imp) returns (ok: bool)
      ensures ok <==> Provider(table, Some(plan.cls), plan.sel).Some? && Reached(table, plan.cls, plan.sel) == replacement
    {
      var found := Provider(table, Some(plan.cls), plan.sel);
      return found.Some? && table[(found.value, plan.sel)].imp == replacement;
    }
  }

  /** Asking again from the superclass tells a class's own method from an inherited one. */
  lemma ProviderIsLocal(t: Table, cls: Class, sel: Selector)
    requires Provider(t, Some(cls), sel).Some?
    ensures Provider(t, Super(cls), sel) != Provider(t, Some(cls), sel) <==> (cls, sel) in t
  {
    if cls.Sub? {
      if (cls, sel) in t {
        ProviderAbove(t, cls.super, sel, cls);
      }
    }
  }

  // What a class's superclass finds is never the class itself.
  lemma {:induction false} ProviderAbove(t: Table, c: Class, sel: Selector, below: Class)
    requires c < below
    ensures ProviderFrom(t, c, sel) != Some(below)
    decreases c
  {
    if (c, sel) !in t && c.Sub? {
      ProviderAbove(t, c.super, sel, below);
    }
  }

  // ---- undoing ----

  /** Two tables that no later replacement tells apart. */
  ghost predicate Alike(t: Table, u: Table) {
    && (forall c, s :: Reached(t, c, s) == Reached(u, c, s))
    && (forall p: Class, s: Selector, imp: Imp, types: Option<string> :: ReactsAlike(t, u, p, s, imp, types))
  }

  ghost predicate ReactsAlike(t: Table, u: Table, p: Class, sel: Selector, imp: Imp, types: Option<string>) {
    forall c, s :: Reached(Replaced(t, p, sel, imp, types), c, s) == Reached(Replaced(u, p, sel, imp, types), c, s)
  }

  /** Putting the original back makes every send call what it called before, but only where the
      class had the method itself is the table what it was, and for an inherited method a later
      change of the ancestor tells the difference: an artifact may say that it is reversible
      exactly if the method was local. */
  lemma RestoreExactly(t: Table, cls: Class, sel: Selector, imp: Imp, types: Option<string>)
    requires Provider(t, Some(cls), sel).Some?
    ensures var back := Replaced(Replaced(t, cls, sel, imp, types), cls, sel, Reached(t, cls, sel), types);
            && (forall c, s :: Reached(back, c, s) == Reached(t, c, s))
            && (back == t <==> (cls, sel) in t)
            && (Alike(back, t) <==> (cls, sel) in t)
  {
    var original, hooked := Reached(t, cls, sel), Replaced(t, cls, sel, imp, types);
    var back := Replaced(hooked, cls, sel, original, types);
    forall c, s
      ensures Reached(back, c, s) == Reached(t, c, s)
    {
      ReplaceReaches(t, cls, sel, imp, types, c, s);
      ReplaceReaches(hooked, cls, sel, original, types, c, s);
      StillThrough(t, c, cls, sel, imp, types);
      if s == sel && Through(t, c, cls, sel) {
        ThroughReaches(t, c, cls, sel);
      }
    }
    if (cls, sel) in t {
      assert back == t;
    } else {
      assert (cls, sel) in back;
      TellsApart(t, back, cls, sel, original + 1);
      assert !ReactsAlike(back, t, Provider(t, Some(cls), sel).value, sel, original + 1, None);
    }
  }

  lemma {:induction false} ThroughReaches(t: Table, c: Class, cls: Class, sel: Selector)
    requires Through(t, c, cls, sel)
    ensures Reached(t, c, sel) == Reached(t, cls, sel)
    decreases c
  {
    if c != cls {
      ThroughReaches(t, c.super, cls, sel);
    }
  }

  lemma {:induction false} StillThrough(t: Table, c: Class, cls: Class, sel: Selector, imp: Imp, types: Option<string>)
    ensures Through(Replaced(t, cls, sel, imp, types), c, cls, sel) <==> Through(t, c, cls, sel)
    decreases c
  {
    if c.Sub? && c != cls {
      StillThrough(t, c.super, cls, sel, imp, types);
    }
  }

  lemma TellsApart(t: Table, back: Table, cls: Class, sel: Selector, imp: Imp)
    requires Provider(t, Some(cls), sel).Some? && (cls, sel) !in t && (cls, sel) in back
    requires Reached(back, cls, sel) == Reached(t, cls, sel) != imp
    ensures var p := Provider(t, Some(cls), sel).value;
            && Reached(Replaced(t, p, sel, imp, None), cls, sel) == imp
            && Reached(Replaced(back, p, sel, imp, None), cls, sel) != imp
  {
    var p := Provider(t, Some(cls), sel).value;
    GoesThrough(t, cls, sel);
    ReplaceReaches(t, p, sel, imp, None, cls, sel);
    ReplaceReaches(back, p, sel, imp, None, cls, sel);
  }

  lemma {:induction false} GoesThrough(t: Table, c: Class, sel: Selector)
    requires Provider(t, Some(c), sel).Some?
    ensures Through(t, c, Provider(t, Some(c), sel).value, sel)
    decreases c
  {
    if (c, sel) !in t {
      GoesThrough(t, c.super, sel);
    }
  }

  // ---- chains ----

  /** A hook of the method, which may require a certain predecessor, or somebody else's replacement
      of any method of any class. */
  datatype Change = Hook(replacement: Imp, required: Option<Imp>) | Foreign(cls: Class, sel: Selector, imp: Imp)

  /** A hook goes in exactly if what it requires is what a send now calls. */
  predicate GoesIn(t: Table, cls: Class, sel: Selector, change: Change) {
    change.Hook? && (change.required.Some? ==> change.required.value == Reached(t, cls, sel))
  }

  function Changed(t: Table, cls: Class, sel: Selector, change: Change): Table {
    match change
    case Hook(replacement, _) =>
      if GoesIn(t, cls, sel, change) then Replaced(t, cls, sel, replacement, TypesFor(t, cls, sel)) else t
    case Foreign(c, s, imp) => Replaced(t, c, s, imp, None)
  }

  /** The table after the first `n` changes. */
  function After(t: Table, cls: Class, sel: Selector, changes: seq<Change>, n: nat): Table
    requires n <= |changes|
  {
    if n == 0 then t else Changed(After(t, cls, sel, changes, n - 1), cls, sel, changes[n - 1])
  }

  /** Hooks of one method, each prepared and committed on the method as it then is. One goes in
      exactly if it requires nothing or what a send called just before, and then that is its
      original; a refused one changes nothing. Right after a hook that went in, that is the other
      hook's replacement. */
  method Chain(runtime: Runtime, cls: Class, sel: Selector, changes: seq<Change>) returns (originals: seq<Option<Imp>>)
    requires Reached(runtime.table, cls, sel) != 0
    requires forall i :: 0 <= i < |changes| ==> if changes[i].Hook? then changes[i].replacement != 0 else changes[i].imp != 0
    modifies runtime
    ensures |originals| == |changes| && runtime.table == After(old(runtime.table), cls, sel, changes, |changes|)
    ensures forall i :: 0 <= i < |changes| && changes[i].Hook? ==>
              var before := After(old(runtime.table), cls, sel, changes, i);
              originals[i] == if GoesIn(before, cls, sel, changes[i]) then Some(Reached(before, cls, sel)) else None
    ensures forall i :: 0 < i < |changes| && changes[i].Hook? && changes[i - 1].Hook? && originals[i - 1].Some? ==>
              originals[i] == if changes[i].required in {None, Some(changes[i - 1].replacement)}
                              then Some(changes[i - 1].replacement) else None
  {
    hide Reached, Changed, GoesIn;
    originals := [];
    ghost var t := runtime.table;
    for i := 0 to |changes|
      invariant |originals| == i && runtime.table == After(t, cls, sel, changes, i) && Reached(runtime.table, cls, sel) != 0
      invariant i > 0 && changes[i - 1].Hook? && originals[i - 1].Some? ==>
                  Reached(runtime.table, cls, sel) == changes[i - 1].replacement
      invariant forall j :: 0 <= j < i && changes[j].Hook? ==>
                  originals[j] == Original(After(t, cls, sel, changes, j), cls, sel, changes[j])
      invariant forall j :: 0 < j < i && changes[j].Hook? && changes[j - 1].Hook? && originals[j - 1].Some? ==>
                  originals[j] == if changes[j].required in {None, Some(changes[j - 1].replacement)}
                                  then Some(changes[j - 1].replacement) else None
    {
      if changes[i].Hook? {
        Requiring(runtime.table, cls, sel, changes[i]);
      }
      var original := Apply(runtime, cls, sel, changes[i]);
      originals := originals + [original];
    }
  }

  function Original(t: Table, cls: Class, sel: Selector, change: Change): Option<Imp> {
    if GoesIn(t, cls, sel, change) then Some(Reached(t, cls, sel)) else None
  }

  lemma Requiring(t: Table, cls: Class, sel: Selector, change: Change)
    requires change.Hook?
    ensures GoesIn(t, cls, sel, change) <==> change.required in {None, Some(Reached(t, cls, sel))}
  {
  }

  method Apply(runtime: Runtime, cls: Class, sel: Selector, change: Change) returns (original: Option<Imp>)
    requires Reached(runtime.table, cls, sel) != 0
    requires if change.Hook? then change.replacement != 0 else change.imp != 0
    modifies runtime
    ensures runtime.table == Changed(old(runtime.table), cls, sel, change)
    ensures change.Hook? ==> original == Original(old(runtime.table), cls, sel, change)
    ensures change.Hook? && original.Some? ==> Reached(runtime.table, cls, sel) == change.replacement
    ensures Reached(runtime.table, cls, sel) != 0
  {
    match change {
      case Hook(replacement, required) =>
        var target := Target(Some(cls), None, false, Some(sel), None, false, Required);
        var status, plan := runtime.Prepare(target);
        var m, was := runtime.Commit(plan.value, replacement, required);
        original := if m.Complete? then Some(was) else None;
      case Foreign(c, s, imp) =>
        ReplaceReaches(runtime.table, c, s, imp, None, cls, sel);
        var was := runtime.ReplaceMethod(c, s, imp, None);
        original := Some(was);
    }
  }
}
