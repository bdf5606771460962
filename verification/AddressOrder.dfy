/** The unsigned order of addresses. */
module AddressOrder {
  import opened A64

  // Unsigned order, kept apart from the arithmetic.
  predicate Below(a: Addr, b: Addr) { a < b }

  lemma BelowIs(a: Addr, b: Addr)
    ensures a < b <==> Below(a, b)
  {
  }

  lemma NotBelow(a: Addr, b: Addr)
    ensures a <= b <==> !Below(b, a)
  {
  }

  lemma BelowBelow(a: Addr, b: Addr, c: Addr)
    ensures Below(a, b) && Below(b, c) ==> Below(a, c)
    ensures !(Below(a, b) && Below(b, a))
  {
  }

  /** `b` lies in [a, c), in the unsigned order. */
  predicate Span(a: Addr, b: Addr, c: Addr) { !Below(b, a) && Below(b, c) }

  lemma SpanStart(a: Addr, c: Addr)
    requires Below(a, c)
    ensures Span(a, a, c)
  {
  }

  lemma SpanSplit(a: Addr, p: Addr, c: Addr, b: Addr)
    requires Below(a, p) && Below(p, c)
    ensures Span(a, b, c) <==> Span(a, b, p) || Span(p, b, c)
  {
    hide Below;
    BelowBelow(b, p, c);
    BelowBelow(b, a, p);
  }

  lemma Rising1(a: Addr)
    requires Below(a, Plus(a, 4))
    ensures Below(a, Plus(a, 1)) && Below(Plus(a, 1), Plus(a, 4))
  {
  }

  lemma Rising2(a: Addr)
    requires Below(a, Plus(a, 4))
    ensures Below(Plus(a, 1), Plus(a, 2)) && Below(Plus(a, 2), Plus(a, 4))
  {
  }

  lemma Rising3(a: Addr)
    requires Below(a, Plus(a, 4))
    ensures Below(Plus(a, 2), Plus(a, 3)) && Below(Plus(a, 3), Plus(a, 4))
  {
  }

  lemma NoWrap8(a: Addr)
    ensures Below(a, Plus(a, 8)) ==> Below(a, Plus(a, 4)) && Below(Plus(a, 4), Plus(a, 8))
  {
  }

  lemma NoWrap12(a: Addr)
    ensures Below(a, Plus(a, 12)) ==> Below(a, Plus(a, 4)) && Below(Plus(a, 4), Plus(a, 12))
  {
  }

  lemma NoWrap16(a: Addr)
    ensures Below(a, Plus(a, 16)) ==> Below(a, Plus(a, 4)) && Below(Plus(a, 4), Plus(a, 16))
  {
  }
}
