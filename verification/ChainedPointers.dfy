/** The words a fixup chain is made of: little-endian integers and the pointer formats
    src/resolvers/HKChainedFixups.c decodes. */
module ChainedPointers {
  import opened Options
  import opened Leb128

  // ---- little-endian integers ----

  function Little(b: Bytes): nat {
    if b == [] then 0 else b[0] + 0x100 * Little(b[1..])
  }

  function Split(v: nat, n: nat): (b: Bytes)
    ensures |b| == n
    decreases n
  {
    if n == 0 then [] else [v % 0x100] + Split(v / 0x100, n - 1)
  }

  lemma {:induction false} SplitBack(v: nat, n: nat)
    requires v < Pow2(8 * n)
    ensures Little(Split(v, n)) == v
    decreases n
  {
    if n > 0 {
      EightMore(n - 1);
      SplitBack(v / 0x100, n - 1);
      assert Split(v, n)[1..] == Split(v / 0x100, n - 1);
    }
  }

  lemma EightMore(n: nat)
    ensures Pow2(8 * (n + 1)) == 0x100 * Pow2(8 * n)
  {
    var m := 8 * n;
    assert Pow2(m + 8) == 2 * Pow2(m + 7) == 4 * Pow2(m + 6) == 8 * Pow2(m + 5) == 16 * Pow2(m + 4);
    assert Pow2(m + 4) == 2 * Pow2(m + 3) == 4 * Pow2(m + 2) == 8 * Pow2(m + 1) == 16 * Pow2(m);
  }

  /** The `n` bytes at `at`, which must be there. */
  function ReadLittle(b: Bytes, at: nat, n: nat): nat
    requires at + n <= |b|
  {
    Little(b[at..at + n])
  }

  // ---- pointer formats ----

  datatype Format = Arm64e | Ptr64 | Ptr64Offset | Arm64eUserland | Arm64eUserland24

  function FormatOf(code: nat): Option<Format> {
    match code
    case 1 => Some(Arm64e)
    case 2 => Some(Ptr64)
    case 6 => Some(Ptr64Offset)
    case 9 => Some(Arm64eUserland)
    case 12 => Some(Arm64eUserland24)
    case _ => None
  }

  predicate Authenticates(f: Format) { f.Arm64e? || f.Arm64eUserland? || f.Arm64eUserland24? }

  function Stride(f: Format): nat { if Authenticates(f) then 8 else 4 }

  const BITS51: nat := 0x8_0000_0000_0000
  const BITS24: nat := 0x100_0000
  const BITS16: nat := 0x1_0000
  const BITS32: nat := 0x1_0000_0000

  datatype Pointer = Pointer(bind: bool, auth: bool, ordinal: nat, next: nat, key: nat, diversity: nat,
                             addressDiversity: bool, addend: int)

  // The signed reading of a 19-bit field.
  function Signed19(v: nat): int {
    if v < 0x40000 then v else v - 0x80000
  }

  function DecodePointer(raw: nat, f: Format): Pointer {
    var low, high := raw % BITS51, raw / BITS51;
    if Authenticates(f) then
      var bind, auth := high / 0x800 % 2 == 1, high / 0x1000 % 2 == 1;
      var ordinal := if f.Arm64eUserland24? then low % BITS24 else low % BITS16;
      var upper := low / BITS32;
      Pointer(bind, auth, ordinal, high % 0x800,
              if bind && auth then upper / 0x20000 else 0,
              if bind && auth then upper % BITS16 else 0,
              bind && auth && upper / BITS16 % 2 == 1,
              if bind && !auth then Signed19(upper) else 0)
    else
      var bind := high / 0x1000 % 2 == 1;
      Pointer(bind, false, low % BITS24, high % 0x1000, 0, 0, false, if bind then low / BITS24 % 0x100 else 0)
  }

  /** What a linker puts in a slot: a bind, an authenticated bind, or a rebase, whose 51 low bits
      are its own business. */
  datatype Slot = Bind(ordinal: nat, addend: int)
                | AuthBind(ordinal: nat, diversity: nat, addressDiversity: bool, key: nat)
                | Rebase(payload: nat, signed: bool)

  function OrdinalLimit(f: Format): nat {
    if f.Arm64e? || f.Arm64eUserland? then BITS16 else BITS24
  }

  function NextLimit(f: Format): nat { if Authenticates(f) then 0x800 else 0x1000 }

  predicate Encodable(f: Format, s: Slot) {
    match s
    case Bind(ordinal, addend) =>
      ordinal < OrdinalLimit(f) && if Authenticates(f) then -0x40000 <= addend < 0x40000 else 0 <= addend < 0x100
    case AuthBind(ordinal, diversity, _, key) =>
      Authenticates(f) && ordinal < OrdinalLimit(f) && diversity < BITS16 && key < 4
    case Rebase(payload, signed) => payload < BITS51 && (signed ==> Authenticates(f))
  }

  function Bit(b: bool): nat { if b then 1 else 0 }

  // The low 51 bits.
  function Payload(f: Format, s: Slot): nat
    requires Encodable(f, s)
  {
    match s
    case Bind(ordinal, addend) =>
      if Authenticates(f) then ordinal + BITS32 * (if addend < 0 then addend + 0x80000 else addend)
      else ordinal + BITS24 * addend
    case AuthBind(ordinal, diversity, addressDiversity, key) =>
      ordinal + BITS32 * (diversity + BITS16 * (Bit(addressDiversity) + 2 * key))
    case Rebase(payload, _) => payload
  }

  function EncodePointer(f: Format, s: Slot, next: nat): (raw: nat)
    requires Encodable(f, s) && next < NextLimit(f)
  {
    var bind, auth := Bit(!s.Rebase?), Bit(s.AuthBind? || (s.Rebase? && s.signed));
    Payload(f, s) + BITS51 * (if Authenticates(f) then next + 0x800 * (bind + 2 * auth) else next + 0x1000 * bind)
  }

  lemma PayloadFits(f: Format, s: Slot)
    requires Encodable(f, s)
    ensures Payload(f, s) < BITS51
  {
  }

  lemma HighBits(low: nat, high: nat)
    requires low < BITS51
    ensures (low + BITS51 * high) % BITS51 == low && (low + BITS51 * high) / BITS51 == high
  {
    Digits(low, high, BITS51);
  }

  lemma Flags(next: nat, bind: nat, auth: nat)
    requires next < 0x800 && bind < 2 && auth < 2
    ensures var high := next + 0x800 * (bind + 2 * auth);
            high % 0x800 == next && high / 0x800 % 2 == bind && high / 0x1000 % 2 == auth
  {
  }

  /** Decoding gives back what was encoded, in every supported format. */
  lemma PointerRoundTrip(f: Format, s: Slot, next: nat)
    requires Encodable(f, s) && next < NextLimit(f)
    ensures var p := DecodePointer(EncodePointer(f, s, next), f);
            && p.next == next && p.bind == !s.Rebase? && p.auth == (s.AuthBind? || (s.Rebase? && s.signed))
            && (s.Bind? ==> p.ordinal == s.ordinal && p.addend == s.addend && p.key == 0 && p.diversity == 0 && !p.addressDiversity)
            && (s.AuthBind? ==> p.ordinal == s.ordinal && p.addend == 0 && p.key == s.key && p.diversity == s.diversity &&
                                p.addressDiversity == s.addressDiversity)
  {
    hide Payload, EncodePointer, DecodePointer;
    if Authenticates(f) {
      AuthenticatedRoundTrip(f, s, next);
    } else {
      PlainRoundTrip(f, s, next);
    }
  }

  lemma Upper(ordinal: nat, upper: nat)
    requires ordinal < BITS24
    ensures var low := ordinal + BITS32 * upper;
            low / BITS32 == upper && low % BITS24 == ordinal && low % BITS16 == ordinal % BITS16
  {
    Digits(ordinal, upper, BITS32);
    Digits(ordinal, 0x100 * upper, BITS24);
    Digits(ordinal % BITS16, ordinal / BITS16 + 0x1_0000 * upper, BITS16);
  }

  lemma AuthFields(diversity: nat, address: nat, key: nat)
    requires diversity < BITS16 && address < 2 && key < 4
    ensures var upper := diversity + BITS16 * (address + 2 * key);
            upper % BITS16 == diversity && upper / BITS16 % 2 == address && upper / 0x20000 == key
  {
    Digits(diversity, address + 2 * key, BITS16);
  }

  // The fields of a word, from its two halves.
  lemma DecodedHigh(f: Format, low: nat, next: nat, bind: bool, auth: bool)
    requires Authenticates(f) && low < BITS51 && next < 0x800
    ensures var p := DecodePointer(low + BITS51 * (next + 0x800 * (Bit(bind) + 2 * Bit(auth))), f);
            && p.next == next && p.bind == bind && p.auth == auth
            && p.ordinal == (if f.Arm64eUserland24? then low % BITS24 else low % BITS16)
            && p.key == (if bind && auth then low / BITS32 / 0x20000 else 0)
            && p.diversity == (if bind && auth then low / BITS32 % BITS16 else 0)
            && p.addressDiversity == (bind && auth && low / BITS32 / BITS16 % 2 == 1)
            && p.addend == if bind && !auth then Signed19(low / BITS32) else 0
  {
    var high := next + 0x800 * (Bit(bind) + 2 * Bit(auth));
    HighBits(low, high);
    Flags(next, Bit(bind), Bit(auth));
  }

  lemma AuthenticatedRoundTrip(f: Format, s: Slot, next: nat)
    requires Encodable(f, s) && next < NextLimit(f) && Authenticates(f)
    ensures var p := DecodePointer(EncodePointer(f, s, next), f);
            && p.next == next && p.bind == !s.Rebase? && p.auth == (s.AuthBind? || (s.Rebase? && s.signed))
            && (s.Bind? ==> p.ordinal == s.ordinal && p.addend == s.addend && p.key == 0 && p.diversity == 0 && !p.addressDiversity)
            && (s.AuthBind? ==> p.ordinal == s.ordinal && p.addend == 0 && p.key == s.key && p.diversity == s.diversity &&
                                p.addressDiversity == s.addressDiversity)
  {
    hide DecodePointer;
    PayloadFits(f, s);
    var low := Payload(f, s);
    DecodedHigh(f, low, next, !s.Rebase?, s.AuthBind? || (s.Rebase? && s.signed));
    PayloadFields(f, s);
    hide Payload;
  }

  lemma PayloadFields(f: Format, s: Slot)
    requires Encodable(f, s) && Authenticates(f)
    ensures var low := Payload(f, s);
            && (!s.Rebase? ==> (if f.Arm64eUserland24? then low % BITS24 else low % BITS16) == s.ordinal)
            && (s.Bind? ==> Signed19(low / BITS32) == s.addend)
            && (s.AuthBind? ==> low / BITS32 / 0x20000 == s.key && low / BITS32 % BITS16 == s.diversity &&
                                (low / BITS32 / BITS16 % 2 == 1) == s.addressDiversity)
  {
    if s.Bind? {
      Upper(s.ordinal, if s.addend < 0 then s.addend + 0x80000 else s.addend);
    } else if s.AuthBind? {
      Upper(s.ordinal, s.diversity + BITS16 * (Bit(s.addressDiversity) + 2 * s.key));
      AuthFields(s.diversity, Bit(s.addressDiversity), s.key);
    }
  }

  lemma PlainRoundTrip(f: Format, s: Slot, next: nat)
    requires Encodable(f, s) && next < NextLimit(f) && !Authenticates(f)
    ensures var p := DecodePointer(EncodePointer(f, s, next), f);
            && p.next == next && p.bind == !s.Rebase? && !p.auth && p.key == 0 && p.diversity == 0 && !p.addressDiversity
            && (s.Bind? ==> p.ordinal == s.ordinal && p.addend == s.addend)
  {
    PayloadFits(f, s);
    HighBits(Payload(f, s), next + 0x1000 * Bit(!s.Rebase?));
    if s.Bind? {
      Short(s.ordinal, s.addend);
    }
  }

  lemma Short(ordinal: nat, addend: nat)
    requires ordinal < BITS24 && addend < 0x100
    ensures var low := ordinal + BITS24 * addend; low % BITS24 == ordinal && low / BITS24 % 0x100 == addend
  {
  }
}
