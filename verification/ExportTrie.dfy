/** Looking a symbol up in a Mach-O export trie: src/resolvers/HKExportTrie.c. */
module ExportTrie {
  import opened Options
  import opened Leb128

  const MAX_DEPTH: nat := 128

  datatype Symbol = Symbol(flags: nat, address: nat, other: nat, reexport: bool, resolver: bool)

  /** NotFound, Malformed, or what the terminal says; a re-export is found but not followed. */
  datatype Answer = NotFound | Malformed | Found(symbol: Symbol) | Unsupported(symbol: Symbol)

  // ---- terminals ----

  predicate ReexportFlag(flags: nat) { flags / 8 % 2 == 1 }
  predicate ResolverFlag(flags: nat) { flags / 16 % 2 == 1 }

  /** A terminal's payload, read within the terminal's own bounds. */
  function DecodeTerminal(trie: Bytes, offset: nat, end: nat): Answer
    requires end <= |trie|
  {
    match ReadAt(trie, end, offset)
    case None => Malformed
    case Some(flags) =>
      match ReadAt(trie, end, flags.next)
      case None => Malformed
      case Some(first) =>
        if ReexportFlag(flags.value) then Unsupported(Symbol(flags.value, 0, first.value, true, false))
        else if ResolverFlag(flags.value) then
          match ReadAt(trie, end, first.next)
          case None => Malformed
          case Some(second) => Found(Symbol(flags.value, first.value, second.value, false, true))
        else Found(Symbol(flags.value, first.value, 0, false, false))
  }

  /** The payload a linker writes: nothing the reader depends on may follow or be missing. */
  function EncodeTerminal(s: Symbol): Bytes {
    if s.flags / 8 % 2 == 1 then Encode(s.flags) + Encode(s.other)
    else if s.flags / 16 % 2 == 1 then Encode(s.flags) + Encode(s.address) + Encode(s.other)
    else Encode(s.flags) + Encode(s.address)
  }

  predicate ValidSymbol(s: Symbol) {
    && s.flags < LIMIT && s.address < LIMIT && s.other < LIMIT
    && s.reexport == (s.flags / 8 % 2 == 1) && s.resolver == (s.flags / 16 % 2 == 1 && !s.reexport)
    && (s.reexport ==> s.address == 0) && (!s.reexport && !s.resolver ==> s.other == 0)
  }

  /** Decoding undoes encoding; a re-export is recognized but not followed. */
  lemma TerminalRoundTrip(front: Bytes, s: Symbol, back: Bytes)
    requires ValidSymbol(s)
    ensures DecodeTerminal(front + EncodeTerminal(s) + back, |front|, |front| + |EncodeTerminal(s)|) ==
            if s.reexport then Unsupported(s) else Found(s)
  {
    hide ReadAt, Encode;
    var flags, value := Encode(s.flags), if s.reexport then s.other else s.address;
    var first, second := Encode(value), if s.resolver then Encode(s.other) else [];
    var bytes, end := front + EncodeTerminal(s) + back, |front| + |EncodeTerminal(s)|;
    var p, q := front + flags, front + flags + first;
    assert EncodeTerminal(s) == flags + first + second;
    assert bytes == front + flags + (first + second + back);
    RoundTrip(front, s.flags, first + second + back, end);
    assert bytes == p + first + (second + back);
    RoundTrip(p, value, second + back, end);
    assert ReadAt(bytes, end, |front|) == Some(Read(s.flags, |p|)) && ReadAt(bytes, end, |p|) == Some(Read(value, |q|));
    if s.resolver {
      assert bytes == q + second + back;
      RoundTrip(q, s.other, back, end);
    }
  }

  // ---- a lookup, without its loops ----

  /** Where the edge string at `p` ends. */
  function EdgeEnd(trie: Bytes, p: nat): (end: Option<nat>)
    ensures end.Some? ==> p <= end.value < |trie| && trie[end.value] == 0
    decreases |trie| - p
  {
    if p >= |trie| then None else if trie[p] == 0 then Some(p) else EdgeEnd(trie, p + 1)
  }

  datatype Descent = Broken | NoEdge | Taken(child: nat, length: nat)

  /** The first of `count` edges from `p` on that the rest of the name starts with. */
  function Scan(trie: Bytes, p: nat, count: nat, rest: Bytes): (d: Descent)
    ensures d.Taken? ==> d.length <= |rest|
    decreases count
  {
    if count == 0 then NoEdge
    else
      match EdgeEnd(trie, p)
      case None => Broken
      case Some(end) =>
        match ReadAt(trie, |trie|, end + 1)
        case None => Broken
        case Some(child) =>
          if trie[p..end] <= rest then Taken(child.value, end - p) else Scan(trie, child.next, count - 1, rest)
  }

  function Find(trie: Bytes, node: nat, rest: Bytes, depth: nat): Answer
    decreases MAX_DEPTH + 1 - depth
  {
    if depth > MAX_DEPTH || node >= |trie| then Malformed
    else
      match ReadAt(trie, |trie|, node)
      case None => Malformed
      case Some(size) =>
        if size.value + size.next > |trie| then Malformed
        else if rest == [] && size.value > 0 then DecodeTerminal(trie, size.next, size.next + size.value)
        else
          var p := size.next + size.value;
          if p >= |trie| then Malformed
          else
            match Scan(trie, p + 1, trie[p], rest)
            case Broken => Malformed
            case NoEdge => NotFound
            case Taken(child, length) => Find(trie, child, rest[length..], depth + 1)
  }

  method SkipText(trie: Bytes, start: nat) returns (p: nat)
    ensures p >= start && EdgeEnd(trie, start) == if p < |trie| then Some(p) else None
  {
    p := start;
    while p < |trie| && trie[p] != 0
      invariant EdgeEnd(trie, p) == EdgeEnd(trie, start) && start <= p
    {
      p := p + 1;
    }
  }

  method ScanEdges(trie: Bytes, start: nat, count: nat, rest: Bytes) returns (d: Descent)
    ensures d == Scan(trie, start, count, rest)
  {
    hide ReadAt, EdgeEnd;
    var p: nat := start;
    for i := 0 to count
      invariant Scan(trie, p, count - i, rest) == Scan(trie, start, count, rest)
    {
      var edge: nat := p;
      p := SkipText(trie, p);
      if p >= |trie| {
        return Broken;
      }
      var end: nat := p;
      var child := ReadUleb128(trie, |trie|, end + 1);
      if child.None? {
        return Broken;
      }
      p := child.value.next;
      if trie[edge..end] <= rest {
        return Taken(child.value.value, end - edge);
      }
    }
    return NoEdge;
  }

  /** The lookup. Every read is in bounds whatever the bytes are, and a cycle ends at the cap. */
  method FindExport(trie: Bytes, name: Bytes) returns (answer: Answer)
    ensures answer == Find(trie, 0, name, 0)
  {
    hide ReadAt, Scan, DecodeTerminal, EdgeEnd;
    var node: nat, rest := 0, name;
    for depth := 0 to MAX_DEPTH + 1
      invariant Find(trie, node, rest, depth) == Find(trie, 0, name, 0)
    {
      if node >= |trie| {
        return Malformed;
      }
      var size := ReadUleb128(trie, |trie|, node);
      if size.None? {
        return Malformed;
      }
      var p: nat := size.value.next;
      if size.value.value + p > |trie| {
        return Malformed;
      }
      if rest == [] && size.value.value > 0 {
        return DecodeTerminal(trie, p, p + size.value.value);
      }
      p := p + size.value.value;
      if p >= |trie| {
        return Malformed;
      }
      var d := ScanEdges(trie, p + 1, trie[p], rest);
      match d
      case Broken => return Malformed;
      case NoEdge => return NotFound;
      case Taken(child, length) => node, rest := child, rest[length..];
    }
    return Malformed;
  }

  // ---- the tries the bytes stand for ----

  datatype Trie = Node(terminal: Option<Answer>, edges: Edges)
  datatype Edges = Leaf | Edge(text: Bytes, child: Trie, siblings: Edges)

  function Fanout(edges: Edges): nat {
    if edges.Leaf? then 0 else 1 + Fanout(edges.siblings)
  }

  /** The bytes at `at` are a node of this shape, wherever its children lie. */
  predicate Represents(bytes: Bytes, at: nat, trie: Trie)
    decreases trie, 0
  {
    && at < |bytes|
    && var size := ReadAt(bytes, |bytes|, at);
    && size.Some? && size.value.next + size.value.value < |bytes|
    && var start, end := size.value.next, size.value.next + size.value.value;
    && (if trie.terminal.None? then start == end
        else start < end && DecodeTerminal(bytes, start, end) == trie.terminal.value && !trie.terminal.value.Malformed?
             && !trie.terminal.value.NotFound?)
    && bytes[end] == Fanout(trie.edges)
    && RepresentsEdges(bytes, end + 1, trie.edges)
  }

  predicate RepresentsEdges(bytes: Bytes, p: nat, edges: Edges)
    decreases edges, 1
  {
    match edges
    case Leaf => true
    case Edge(text, child, siblings) =>
      && var end := EdgeEnd(bytes, p);
      && end.Some? && bytes[p..end.value] == text
      && var offset := ReadAt(bytes, |bytes|, end.value + 1);
      && offset.Some?
      && Represents(bytes, offset.value.value, child)
      && RepresentsEdges(bytes, offset.value.next, siblings)
  }

  /** The trie stores `answer` under `name`: some path spells the name and ends there. */
  predicate Stores(trie: Trie, name: Bytes, answer: Answer)
    decreases trie, 0
  {
    (name == [] && trie.terminal == Some(answer)) || StoresBelow(trie.edges, name, answer)
  }

  predicate StoresBelow(edges: Edges, name: Bytes, answer: Answer)
    decreases edges, 1
  {
    edges.Edge? &&
    ((edges.text <= name && Stores(edges.child, name[|edges.text|..], answer)) || StoresBelow(edges.siblings, name, answer))
  }

  /** A radix trie: texts are not empty and none of them starts with a sibling's. */
  predicate Radix(trie: Trie)
    decreases trie, 0
  {
    RadixEdges(trie.edges)
  }

  predicate RadixEdges(edges: Edges)
    decreases edges, 1
  {
    edges.Edge? ==>
      edges.text != [] && Differs(edges.text, edges.siblings) && Radix(edges.child) && RadixEdges(edges.siblings)
  }

  predicate Differs(text: Bytes, edges: Edges) {
    edges.Edge? ==> !(text <= edges.text) && !(edges.text <= text) && Differs(text, edges.siblings)
  }

  // ---- following the one path ----

  function Matching(edges: Edges, name: Bytes): (e: Edges)
    ensures e.Edge? ==> e.text <= name && e.child < edges
    ensures e.Edge? && RadixEdges(edges) ==> e.text != [] && Radix(e.child)
  {
    if edges.Leaf? || edges.text <= name then edges else Matching(edges.siblings, name)
  }

  /** What a walk from the root comes to, and how many nodes it visits. */
  function Walk(trie: Trie, name: Bytes): (Option<Answer>, nat)
    decreases trie
  {
    if name == [] && trie.terminal.Some? then (trie.terminal, 1)
    else
      var e := Matching(trie.edges, name);
      if e.Leaf? then (None, 1)
      else
        var below := Walk(e.child, name[|e.text|..]);
        (below.0, below.1 + 1)
  }

  /** In a radix trie the walk finds what is stored, and nothing else. */
  lemma {:induction false} WalkFinds(trie: Trie, name: Bytes, answer: Answer)
    requires Radix(trie)
    ensures Walk(trie, name).0 == Some(answer) <==> Stores(trie, name, answer)
    decreases trie, 0
  {
    var e := Matching(trie.edges, name);
    BelowMatching(trie.edges, name, answer);
    if name == [] && trie.terminal.Some? {
      assert e.Leaf?;
    } else if e.Edge? {
      WalkFinds(e.child, name[|e.text|..], answer);
    }
  }

  lemma {:induction false} BelowMatching(edges: Edges, name: Bytes, answer: Answer)
    requires RadixEdges(edges)
    ensures var e := Matching(edges, name);
            StoresBelow(edges, name, answer) <==> e.Edge? && Stores(e.child, name[|e.text|..], answer)
    decreases edges
  {
    if edges.Edge? {
      if edges.text <= name {
        OtherwiseNothing(edges.text, edges.siblings, name, answer);
      } else {
        BelowMatching(edges.siblings, name, answer);
      }
    }
  }

  lemma {:induction false} OtherwiseNothing(text: Bytes, edges: Edges, name: Bytes, answer: Answer)
    requires Differs(text, edges) && text <= name
    ensures !StoresBelow(edges, name, answer)
    decreases edges
  {
    if edges.Edge? {
      if edges.text <= name {
        OnePrefix(text, edges.text, name);
      }
      OtherwiseNothing(text, edges.siblings, name, answer);
    }
  }

  lemma OnePrefix(a: Bytes, b: Bytes, name: Bytes)
    requires a <= name && b <= name
    ensures a <= b || b <= a
  {
    if |a| <= |b| {
      assert b[..|a|] == name[..|a|] == a;
    } else {
      assert a[..|b|] == name[..|b|] == b;
    }
  }

  /** Every node but the last consumes a byte of the name. */
  lemma {:induction false} WalkIsShort(trie: Trie, name: Bytes)
    requires Radix(trie)
    ensures 1 <= Walk(trie, name).1 <= |name| + 1
    decreases trie
  {
    var e := Matching(trie.edges, name);
    if !(name == [] && trie.terminal.Some?) && e.Edge? {
      WalkIsShort(e.child, name[|e.text|..]);
    }
  }

  // ---- the lookup agrees with the trie ----

  lemma {:induction false} ScanMatches(bytes: Bytes, p: nat, edges: Edges, rest: Bytes)
    requires RepresentsEdges(bytes, p, edges)
    ensures var e, d := Matching(edges, rest), Scan(bytes, p, Fanout(edges), rest);
            if e.Leaf? then d.NoEdge?
            else d.Taken? && d.length == |e.text| && Represents(bytes, d.child, e.child)
    decreases edges
  {
    hide ReadAt, EdgeEnd, Represents;
    if edges.Edge? && !(edges.text <= rest) {
      var offset := ReadAt(bytes, |bytes|, EdgeEnd(bytes, p).value + 1).value;
      ScanMatches(bytes, offset.next, edges.siblings, rest);
    }
  }

  /** On bytes that stand for a trie, a lookup gives what the walk finds, as long as the walk
      visits no more nodes than the cap allows; a longer one is taken for a cycle. */
  lemma {:induction false} FindFollows(bytes: Bytes, node: nat, trie: Trie, rest: Bytes, depth: nat)
    requires Represents(bytes, node, trie) && depth <= MAX_DEPTH + 1
    ensures var w := Walk(trie, rest);
            Find(bytes, node, rest, depth) ==
            if depth + w.1 > 129 then Malformed else if w.0.Some? then w.0.value else NotFound
    ensures depth + Walk(trie, rest).1 <= 129 && Walk(trie, rest).0.Some? ==>
              Walk(trie, rest).0.value.Found? || Walk(trie, rest).0.value.Unsupported?
    decreases trie
  {
    hide ReadAt, Scan, DecodeTerminal, EdgeEnd, RepresentsEdges, Matching;
    var e := Matching(trie.edges, rest);
    if depth <= MAX_DEPTH && !(rest == [] && trie.terminal.Some?) {
      var size := ReadAt(bytes, |bytes|, node).value;
      ScanMatches(bytes, size.next + size.value + 1, trie.edges, rest);
      if e.Edge? {
        var d := Scan(bytes, size.next + size.value + 1, Fanout(trie.edges), rest);
        FindFollows(bytes, d.child, e.child, rest[d.length..], depth + 1);
      }
    }
  }

  /** The lookup is the map the trie stores: it answers with what is stored under the name, or
      NotFound when nothing is, exactly if the name's walk stays within the cap, which the walk of
      every name of at most 128 bytes does. */
  lemma FindIsTheMap(bytes: Bytes, trie: Trie, name: Bytes)
    requires Represents(bytes, 0, trie) && Radix(trie)
    ensures var found := Find(bytes, 0, name, 0);
            if Walk(trie, name).1 > 129 then found == Malformed
            else if found == NotFound then forall a :: !Stores(trie, name, a)
            else forall a :: Stores(trie, name, a) <==> a == found
    ensures |name| <= 128 ==> Walk(trie, name).1 <= 129
  {
    hide ReadAt, Find, Represents, Stores, Radix, Walk;
    FindFollows(bytes, 0, trie, name, 0);
    WalkIsShort(trie, name);
    forall a
      ensures Stores(trie, name, a) <==> Walk(trie, name).0 == Some(a)
    {
      WalkFinds(trie, name, a);
    }
  }

  // ---- going round in circles ----

  /** Where a lookup goes from a node, when it goes on. */
  function Move(trie: Bytes, node: nat, rest: Bytes): Option<(nat, Bytes)> {
    if node >= |trie| then None
    else
      match ReadAt(trie, |trie|, node)
      case None => None
      case Some(size) =>
        var p := size.next + size.value;
        if p >= |trie| || (rest == [] && size.value > 0) then None
        else
          match Scan(trie, p + 1, trie[p], rest)
          case Taken(child, length) => Some((child, rest[length..]))
          case _ => None
  }

  function Moves(trie: Bytes, node: nat, rest: Bytes, n: nat): Option<(nat, Bytes)>
    decreases n
  {
    if n == 0 then Some((node, rest))
    else
      match Move(trie, node, rest)
      case None => None
      case Some((child, left)) => Moves(trie, child, left, n - 1)
  }

  lemma {:induction false} FindMoves(trie: Bytes, node: nat, rest: Bytes, n: nat, depth: nat)
    requires Moves(trie, node, rest, n).Some? && depth <= MAX_DEPTH + 1
    ensures var there := Moves(trie, node, rest, n).value;
            Find(trie, node, rest, depth) == if depth + n > MAX_DEPTH then Malformed else Find(trie, there.0, there.1, depth + n)
    decreases n
  {
    hide ReadAt, Scan, DecodeTerminal;
    if n > 0 && depth <= MAX_DEPTH {
      var step := Move(trie, node, rest).value;
      FindMoves(trie, step.0, step.1, n - 1, depth + 1);
    }
  }

  lemma {:induction false} RoundAndRound(trie: Bytes, node: nat, rest: Bytes, n: nat, depth: nat)
    requires n > 0 && Moves(trie, node, rest, n) == Some((node, rest)) && depth <= MAX_DEPTH + 1
    ensures Find(trie, node, rest, depth) == Malformed
    decreases MAX_DEPTH + 1 - depth
  {
    hide Find, Moves;
    FindMoves(trie, node, rest, n, depth);
    if depth + n <= MAX_DEPTH {
      RoundAndRound(trie, node, rest, n, depth + n);
    }
  }

  /** In any bytes, a lookup that comes back to a node with the same of its name still to go ends
      there as malformed. */
  lemma CycleEnds(trie: Bytes, name: Bytes, k: nat, n: nat)
    requires n > 0 && Moves(trie, 0, name, k).Some?
    requires var (node, rest) := Moves(trie, 0, name, k).value; Moves(trie, node, rest, n) == Some((node, rest))
    ensures Find(trie, 0, name, 0) == Malformed
  {
    hide Find, Moves;
    FindMoves(trie, 0, name, k, 0);
    if k <= MAX_DEPTH {
      var there := Moves(trie, 0, name, k).value;
      RoundAndRound(trie, there.0, there.1, n, k);
    }
  }

  /** Four bytes are enough: a node whose empty edge leads back to it. */
  lemma SelfLoop(name: Bytes)
    ensures Moves([0, 1, 0, 0], 0, name, 1) == Some((0, name))
  {
    var trie: Bytes := [0, 1, 0, 0];
    assert ReadAt(trie, 4, 0) == Some(Read(0, 1)) && ReadAt(trie, 4, 3) == Some(Read(0, 4));
    assert EdgeEnd(trie, 2) == Some(2) && trie[2..2] == [];
    assert Scan(trie, 2, 1, name) == Taken(0, 0);
    assert name[0..] == name;
    assert Moves(trie, 0, name, 0) == Some((0, name));
  }
}
