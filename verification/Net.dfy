/**
 IPv4 addresses and prefixes, and the longest-prefix lookup of a WireGuard
 AllowedIPs table.  Containment follows section 3.1 of RFC 4632.
 */
module Net {
  datatype Option<+T> = None | Some(value: T)

  datatype Result<+T, +E> = Ok(value: T) | Err(error: E)

  const ADDRESS_SPACE := 0x1_0000_0000

  type Addr = a: int | 0 <= a < ADDRESS_SPACE

  datatype PrefixData = Prefix(addr: Addr, bits: nat)

  type Prefix = p: PrefixData | p.bits <= 32 witness Prefix(0, 0)

  /** A public key, as parsed; its bytes do not matter here. */
  datatype Key = Key(value: nat)

  datatype UdpAddr = UdpAddr(ip: nat, port: int)

  /** Drop the `n` low bits. */
  function ShiftRight(a: nat, n: nat): (r: nat) {
    if n == 0 then a else ShiftRight(a / 2, n - 1)
  }

  /** Clear the `n` low bits. */
  function ClearLow(a: nat, n: nat): (r: nat)
    ensures r <= a
  {
    if n == 0 then a else 2 * ClearLow(a / 2, n - 1)
  }

  /** The block of `bits` fixed bits that holds `a`, with the host bits cleared. */
  function Block(a: Addr, bits: nat): (p: Prefix)
    requires bits <= 32
    ensures p.bits == bits
  {
    Prefix(ClearLow(a, 32 - bits), bits)
  }

  /** The leading bits of `a` are those of the prefix. */
  predicate Contains(p: Prefix, a: Addr) {
    ShiftRight(a, 32 - p.bits) == ShiftRight(p.addr, 32 - p.bits)
  }

  /** The form in which the kernel stores a prefix: host bits cleared. */
  function Masked(p: Prefix): (q: Prefix)
    ensures q.bits == p.bits
  {
    Block(p.addr, p.bits)
  }

  /** Clearing the low bits keeps the others, and what is left is decided by the others. */
  lemma {:induction false} ClearLowFacts(a: nat, b: nat, n: nat)
    ensures ShiftRight(ClearLow(a, n), n) == ShiftRight(a, n)
    ensures ShiftRight(a, n) == ShiftRight(b, n) <==> ClearLow(a, n) == ClearLow(b, n)
    ensures ClearLow(ClearLow(a, n), n) == ClearLow(a, n)
  {
    if n > 0 {
      ClearLowFacts(a / 2, b / 2, n - 1);
    }
  }

  function Host(a: Addr): (p: Prefix) {
    Prefix(a, 32)
  }

  lemma HostFacts(a: Addr, b: Addr)
    ensures Masked(Host(a)) == Host(a) == Block(a, 32)
    ensures Contains(Host(a), b) <==> a == b
  {
  }

  /** Clearing host bits changes neither what a prefix contains nor, done twice, the prefix. */
  lemma MaskedFacts(p: Prefix, a: Addr)
    ensures Contains(Masked(p), a) <==> Contains(p, a)
    ensures Masked(Masked(p)) == Masked(p)
    ensures Contains(p, a) <==> Block(a, p.bits) == Masked(p)
  {
    ClearLowFacts(p.addr, a, 32 - p.bits);
  }

  // ---------- containment as arithmetic ----------

  function Pow2(n: nat): (r: nat)
    ensures r > 0
  {
    if n == 0 then 1 else 2 * Pow2(n - 1)
  }

  lemma {:induction false} Pow2Adds(m: nat, n: nat)
    ensures Pow2(m + n) == Pow2(m) * Pow2(n)
  {
    if n > 0 {
      Pow2Adds(m, n - 1);
    }
  }

  /** There are 2^32 addresses. */
  lemma AddressSpace()
    ensures Pow2(8) == 256 && Pow2(32) == 0x1_0000_0000 == ADDRESS_SPACE
  {
    assert Pow2(2) == 4;
    Pow2Adds(2, 2);
    Pow2Adds(4, 4);
    Pow2Adds(8, 8);
    Pow2Adds(16, 16);
  }

  lemma DivMod(a: nat, d: nat)
    requires d > 0
    ensures a == a / d * d + a % d && a % d < d
  {
  }

  lemma NextMultiple(k: nat, d: nat)
    ensures (k + 1) * d == k * d + d
  {
  }

  lemma {:induction false} Multiples(k: nat, q: nat, d: nat)
    requires k < q
    ensures k * d + d <= q * d
  {
    NextMultiple(q - 1, d);
    if k < q - 1 {
      Multiples(k, q - 1, d);
    }
  }

  /** The quotient is the number of whole blocks below. */
  lemma QuotientIs(a: nat, d: nat, q: nat)
    requires d > 0 && q * d <= a < q * d + d
    ensures a / d == q && a % d == a - q * d
  {
    var q' := a / d;
    DivMod(a, d);
    if q' < q {
      Multiples(q', q, d);
    } else if q < q' {
      Multiples(q, q', d);
    }
  }

  /** Numbers with the same quotient fill one block. */
  lemma InBlock(a: nat, b: nat, size: nat, q: nat)
    requires size > 0 && q == b / size
    ensures a / size == q <==> q * size <= a < q * size + size
    ensures q * size % size == 0 && q * size <= b < q * size + size
  {
    DivMod(a, size);
    DivMod(b, size);
    QuotientIs(q * size, size, q);
    if q * size <= a < q * size + size {
      QuotientIs(a, size, q);
    }
  }

  lemma TwiceProduct(q: nat, p: nat)
    ensures q * (2 * p) == 2 * (q * p)
  {
  }

  /** Dropping low bits counts whole blocks, and clearing them goes to the start of the block. */
  lemma {:induction false} ShiftCounts(a: nat, n: nat, q: nat, size: nat)
    requires q == ShiftRight(a, n) && size == Pow2(n)
    ensures q * size <= a < q * size + size && ClearLow(a, n) == q * size
  {
    if n > 0 {
      ShiftCounts(a / 2, n - 1, q, Pow2(n - 1));
      TwiceProduct(q, Pow2(n - 1));
    }
  }

  /** Dropping and clearing low bits is division by a power of two. */
  lemma ShiftDivides(a: nat, n: nat)
    ensures ShiftRight(a, n) == a / Pow2(n)
    ensures ClearLow(a, n) == a / Pow2(n) * Pow2(n)
  {
    ShiftCounts(a, n, ShiftRight(a, n), Pow2(n));
    QuotientIs(a, Pow2(n), ShiftRight(a, n));
  }

  /**
   A prefix contains the addresses with its quotient by the block size: the interval of that size
   which starts at its masked address, a multiple of it.
   */
  lemma ContainsExactly(p: Prefix, a: Addr)
    ensures var size := Pow2(32 - p.bits);
            && (Contains(p, a) <==> a / size == p.addr / size)
            && (Contains(p, a) <==> Masked(p).addr <= a < Masked(p).addr + size)
            && Masked(p).addr % size == 0 && Masked(p).addr <= p.addr < Masked(p).addr + size
  {
    ShiftDivides(a, 32 - p.bits);
    ShiftDivides(p.addr, 32 - p.bits);
    InBlock(a, p.addr, Pow2(32 - p.bits), p.addr / Pow2(32 - p.bits));
  }

  /** For instance 10.0.0.0/24 runs from 10.0.0.0 to 10.0.0.255, and 0.0.0.0/0 holds everything. */
  lemma ContainsExamples(a: Addr)
    ensures Contains(Prefix(0x0A00_0000, 24), a) <==> 0x0A00_0000 <= a <= 0x0A00_00FF
    ensures Contains(Prefix(0, 0), a)
  {
    AddressSpace();
    ContainsExactly(Prefix(0x0A00_0000, 24), a);
    ContainsExactly(Prefix(0, 0), a);
    assert 0x0A00_0000 / 256 * 256 == 0x0A00_0000;
    ShiftDivides(0x0A00_0000, 8);
  }

  // ---------- lookup ----------

  /** AllowedIPs lookup: the owner of the longest stored block, of at most `bits` bits, that holds `a`. */
  function LookupUpTo(table: map<Prefix, Key>, a: Addr, bits: nat): (r: Option<Key>)
    requires bits <= 32
  {
    if Block(a, bits) in table then Some(table[Block(a, bits)])
    else if bits == 0 then None
    else LookupUpTo(table, a, bits - 1)
  }

  function Lookup(table: map<Prefix, Key>, a: Addr): (r: Option<Key>) {
    LookupUpTo(table, a, 32)
  }

  ghost predicate AllMasked(table: map<Prefix, Key>) {
    forall p <- table :: Masked(p) == p
  }

  /** `p` is the most specific entry of the table that contains `a`. */
  ghost predicate BestMatch(table: map<Prefix, Key>, a: Addr, p: Prefix) {
    && p in table && Contains(p, a)
    && forall q <- table :: Contains(q, a) ==> q.bits <= p.bits
  }

  /** The walk over block sizes finds the most specific entry, if any entry contains the address. */
  lemma LookupFindsBestMatch(table: map<Prefix, Key>, a: Addr)
    requires AllMasked(table)
    ensures Lookup(table, a).None? <==> forall p <- table :: !Contains(p, a)
    ensures forall p :: BestMatch(table, a, p) ==> Lookup(table, a) == Some(table[p])
    ensures Lookup(table, a).Some? ==> exists p :: BestMatch(table, a, p)
  {
    LookupUpToFindsBestMatch(table, a, 32);
  }

  lemma {:induction false} LookupUpToFindsBestMatch(table: map<Prefix, Key>, a: Addr, bits: nat)
    requires AllMasked(table) && bits <= 32
    requires forall p <- table :: Contains(p, a) ==> p.bits <= bits
    ensures LookupUpTo(table, a, bits).None? <==> forall p <- table :: !Contains(p, a)
    ensures forall p :: BestMatch(table, a, p) ==> LookupUpTo(table, a, bits) == Some(table[p])
    ensures LookupUpTo(table, a, bits).Some? ==> exists p :: BestMatch(table, a, p)
    decreases bits
  {
    var b := Block(a, bits);
    ClearLowFacts(a, a, 32 - bits);
    assert Contains(b, a);
    forall p | p in table && Contains(p, a) && p.bits == bits
      ensures p == b
    {
      MaskedFacts(p, a);
    }
    if b in table {
      assert BestMatch(table, a, b);
    } else if bits > 0 {
      LookupUpToFindsBestMatch(table, a, bits - 1);
    }
  }

  /** In a table of single addresses, lookup is plain membership. */
  lemma HostTableLookup(table: map<Prefix, Key>, a: Addr)
    requires forall q <- table :: q.bits == 32
    ensures Lookup(table, a) == if Host(a) in table then Some(table[Host(a)]) else None
  {
    forall q | q in table
      ensures Masked(q) == q
      ensures Contains(q, a) <==> q == Host(a)
    {
      HostFacts(q.addr, a);
    }
    LookupFindsBestMatch(table, a);
    if Host(a) in table {
      assert BestMatch(table, a, Host(a));
    }
  }

  /** In a table with one entry, lookup is containment. */
  lemma SingleEntryLookup(p: Prefix, k: Key, a: Addr)
    ensures Lookup(map[Masked(p) := k], a) == if Contains(p, a) then Some(k) else None
  {
    var table := map[Masked(p) := k];
    MaskedFacts(p, a);
    LookupFindsBestMatch(table, a);
    if Contains(p, a) {
      assert BestMatch(table, a, Masked(p));
    }
  }
}
