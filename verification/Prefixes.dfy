/** Address blocks and how trusted ones are normalised: `internal/access/client_ip.go`. */
module Prefixes {
  import opened Basics

  function Pow2(n: nat): (p: nat)
    ensures p > 0
  {
    if n == 0 then 1 else 2 * Pow2(n - 1)
  }

  function Quotient(x: nat, d: nat): nat
    requires d > 0
  {
    x / d
  }

  function Remainder(x: nat, d: nat): (r: nat)
    requires d > 0
    ensures r < d && r <= x
  {
    x % d
  }

  /** What is left of `x` above its low `n` bits, and the low `n` bits. */
  function High(x: nat, n: nat): nat {
    Quotient(x, Pow2(n))
  }

  function Low(x: nat, n: nat): (r: nat)
    ensures r < Pow2(n) && r <= x
  {
    Remainder(x, Pow2(n))
  }

  /** An address as a number, with the zone an IPv6 address may carry. */
  datatype Addr = V4(value: nat) | V6(value: nat, zone: string) {
    function Width(): nat {
      if V4? then 32 else 128
    }

    predicate Valid() {
      value < Pow2(Width())
    }

    function Zone(): string {
      if V4? then "" else zone
    }

    predicate Is4In6() {
      V6? && High(value, 32) == 0xFFFF
    }

    function Unmap(): Addr {
      if Is4In6() then V4(Low(value, 32)) else this
    }

    function WithoutZone(): Addr {
      if V4? then this else V6(value, "")
    }
  }

  /** The IPv4-mapped IPv6 form of an IPv4 address, as section 2.5.5.2 of RFC 4291 has it. */
  function Mapped(a: Addr): Addr
    requires a.V4?
  {
    V6(0xFFFF * Pow2(32) + a.value, "")
  }

  datatype Prefix = NoPrefix | Prefix(addr: Addr, bits: nat) {
    predicate Valid() {
      Prefix? && addr.Valid() && bits <= addr.Width() && addr.Zone() == ""
    }

    /** The low bits dropped: two addresses of one family are in the same block when these agree. */
    function Block(value: nat): nat
      requires Prefix? && bits <= addr.Width()
    {
      High(value, addr.Width() - bits)
    }

    predicate Contains(a: Addr) {
      Prefix? && bits <= addr.Width() && a.V4? == addr.V4? && a.Zone() == "" && Block(a.value) == Block(addr.value)
    }

    function Masked(): Prefix {
      if NoPrefix? || bits > addr.Width() then NoPrefix
      else
        var low := Low(addr.value, addr.Width() - bits);
        Prefix(if addr.V4? then V4(addr.value - low) else V6(addr.value - low, addr.zone), bits)
    }
  }

  function PrefixFrom(a: Addr, bits: int): Prefix {
    if 0 <= bits <= a.Width() then Prefix(a.WithoutZone(), bits) else NoPrefix
  }

  function Normalize(p: Prefix): Prefix {
    if p.NoPrefix? then NoPrefix
    else PrefixFrom(p.addr.Unmap(), if p.addr.Is4In6() then p.bits - 96 else p.bits).Masked()
  }

  // ---- Arithmetic of blocks

  lemma {:induction false} PowAdds(a: nat, b: nat)
    ensures Pow2(a + b) == Pow2(a) * Pow2(b)
  {
    if a == 0 {
      assert Pow2(a) == 1;
    } else {
      PowAdds(a - 1, b);
      assert Pow2(a + b) == 2 * Pow2(a - 1 + b) && Pow2(a) == 2 * Pow2(a - 1);
      Associates(2, Pow2(a - 1), Pow2(b));
    }
  }

  lemma Division(x: nat, d: nat)
    requires d > 0
    ensures x == Quotient(x, d) * d + Remainder(x, d)
  {
  }

  lemma {:induction false} UniqueQuotient(a: nat, r: nat, b: nat, s: nat, d: nat)
    requires r < d && s < d && a * d + r == b * d + s
    ensures a == b && r == s
    decreases a + b
  {
    if a > 0 && b > 0 {
      assert a * d == (a - 1) * d + d && b * d == (b - 1) * d + d;
      UniqueQuotient(a - 1, r, b - 1, s, d);
    } else {
      AtLeastOnce(a, d);
      AtLeastOnce(b, d);
    }
  }

  lemma AtLeastOnce(n: nat, d: nat)
    ensures n > 0 ==> n * d >= d
  {
    if n > 0 { assert n * d == (n - 1) * d + d; }
  }

  lemma QuotientOf(q: nat, r: nat, d: nat)
    requires r < d
    ensures Quotient(q * d + r, d) == q && Remainder(q * d + r, d) == r
  {
    var x := q * d + r;
    Division(x, d);
    UniqueQuotient(q, r, Quotient(x, d), Remainder(x, d), d);
  }

  /** Dividing a multiple of `d` plus `x` divides the two parts. */
  lemma MultiplePlus(m: nat, x: nat, d: nat)
    requires d > 0
    ensures Quotient(m * d + x, d) == m + Quotient(x, d)
  {
    Division(x, d);
    assert m * d + Quotient(x, d) * d == (m + Quotient(x, d)) * d;
    QuotientOf(m + Quotient(x, d), Remainder(x, d), d);
  }

  /** Clearing the low bits leaves the rest as it was. */
  lemma MaskKeepsHigh(x: nat, n: nat)
    ensures High(x - Low(x, n), n) == High(x, n)
  {
    Division(x, Pow2(n));
    QuotientOf(High(x, n), 0, Pow2(n));
  }

  lemma MaskedContains(p: Prefix, a: Addr)
    requires p.Prefix? && p.bits <= p.addr.Width()
    ensures p.Masked().Contains(a) <==> p.Contains(a)
  {
    MaskKeepsHigh(p.addr.value, p.addr.Width() - p.bits);
  }

  /** A block is the range of addresses that starts at its masked address. */
  lemma BlockIsRange(p: Prefix, a: Addr)
    requires p.Prefix? && p.bits <= p.addr.Width() && a.V4? == p.addr.V4? && a.Zone() == ""
    ensures var low, size := p.Masked().addr.value, Pow2(p.addr.Width() - p.bits);
            p.Contains(a) <==> low <= a.value < low + size
  {
    var n := p.addr.Width() - p.bits;
    var d := Pow2(n);
    var low := High(p.addr.value, n) * d;
    Division(p.addr.value, d);
    Division(a.value, d);
    assert p.Masked().addr.value == low;
    if low <= a.value < low + d {
      QuotientOf(High(p.addr.value, n), a.value - low, d);
    }
  }

  /** Above its low 32 bits every mapped address is the same. */
  lemma MappedHigh(x: nat, s: nat)
    requires s <= 32
    ensures High(0xFFFF * Pow2(32) + x, s) == 0xFFFF * Pow2(32 - s) + High(x, s)
  {
    ScaledHigh(0xFFFF, x, 32 - s, s);
  }

  lemma SameHigh(x: nat, y: nat, s: nat)
    requires s <= 32
    ensures High(0xFFFF * Pow2(32) + x, s) == High(0xFFFF * Pow2(32) + y, s) <==> High(x, s) == High(y, s)
  {
    MappedHigh(x, s);
    MappedHigh(y, s);
  }

  lemma ScaledHigh(c: nat, x: nat, t: nat, s: nat)
    ensures High(c * Pow2(t + s) + x, s) == c * Pow2(t) + High(x, s)
  {
    PowAdds(t, s);
    Associates(c, Pow2(t), Pow2(s));
    MultiplePlus(c * Pow2(t), x, Pow2(s));
  }

  lemma Associates(a: nat, b: nat, c: nat)
    ensures a * (b * c) == (a * b) * c
  {
  }

  lemma MappedParts(a: Addr)
    requires a.Is4In6()
    ensures a.value == 0xFFFF * Pow2(32) + a.Unmap().value && a.Unmap().Valid()
  {
    Division(a.value, Pow2(32));
  }

  /** Mapping an IPv4 address and unmapping it gives it back. */
  lemma MappedUnmaps(a: Addr)
    requires a.V4? && a.Valid()
    ensures Mapped(a).Is4In6() && Mapped(a).Unmap() == a
  {
    QuotientOf(0xFFFF, a.value, Pow2(32));
  }

  /**
   A block given in mapped form holds an IPv4 address exactly when the 128-bit block holds its mapped
   form, provided the prefix reaches past the first 96 bits; a shorter one ends up holding nothing.
   */
  lemma NormalizeMapped(p: Prefix, a: Addr)
    requires p.Valid() && p.addr.Is4In6() && a.Valid()
    ensures Normalize(p).Contains(a) <==> a.V4? && p.bits >= 96 && p.Contains(Mapped(a))
  {
    if p.bits >= 96 && a.V4? {
      MaskedContains(PrefixFrom(p.addr.Unmap(), p.bits - 96), a);
      SameBlock(p, a);
    }
  }

  lemma SameBlock(p: Prefix, a: Addr)
    requires p.Valid() && p.addr.Is4In6() && a.V4? && p.bits >= 96
    ensures PrefixFrom(p.addr.Unmap(), p.bits - 96).Contains(a) <==> p.Contains(Mapped(a))
  {
    MappedParts(p.addr);
    SameHigh(a.value, p.addr.Unmap().value, 128 - p.bits);
  }

  /** Any other block keeps exactly its addresses. */
  lemma NormalizePlain(p: Prefix, a: Addr)
    requires p.Valid() && !p.addr.Is4In6()
    ensures Normalize(p).Contains(a) <==> p.Contains(a)
  {
    MaskedContains(p, a);
  }

  /** A block of one address holds that address and no other. */
  lemma SingleContains(x: Addr, a: Addr)
    ensures PrefixFrom(x, x.Width()).Contains(a) <==> a == x.WithoutZone()
  {
    assert Pow2(0) == 1;
  }
}
