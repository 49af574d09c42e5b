/** Offset-based addressing (internal/server/binding.go) and the composition of a delegated
    prefix with the configured suffix (internal/server/iface.go).  An address is a natural
    number; its family is the width of the prefix it is read against. */
module Addressing {
  import opened Arith

  type Addr = nat

  datatype Prefix = Prefix(width: nat, addr: Addr, bits: nat)

  predicate ValidPrefix(p: Prefix) {
    (p.width == 32 || p.width == 128) && p.bits <= p.width && p.addr < Pow2(p.width)
  }

  /** The number of addresses the prefix covers. */
  function HostSize(p: Prefix): (h: nat)
    requires p.bits <= p.width
    ensures h > 0
  {
    Pow2(p.width - p.bits)
  }

  /** The masked address, `prefix.Masked().Addr()`. */
  function Base(p: Prefix): (b: Addr)
    requires p.bits <= p.width
  {
    ClearLow(p.addr, p.width - p.bits)
  }

  function Masked(p: Prefix): (m: Prefix)
    requires p.bits <= p.width
  {
    p.(addr := Base(p))
  }

  /** Membership masks the address to the prefix length and compares. */
  predicate Contains(p: Prefix, a: Addr)
    requires p.bits <= p.width
  {
    ClearLow(a, p.width - p.bits) == Base(p)
  }

  /** Base of the prefix plus offset; None when the sum does not fit the address width or
      leaves the prefix. */
  function AddrAtOffset(p: Prefix, offset: nat): (r: Option<Addr>)
    requires ValidPrefix(p)
  {
    var v := Base(p) + offset;
    if v >= Pow2(p.width) then None
    else if !Contains(p, v) then None
    else Some(v)
  }

  /** Contains is membership in the half-open block [Base, Base + HostSize). */
  lemma ContainsIffInBlock(p: Prefix, a: Addr)
    requires p.bits <= p.width
    ensures Contains(p, a) <==> Base(p) <= a < Base(p) + HostSize(p)
  {
    var k := p.width - p.bits;
    ClearLowBounds(p.addr, k);
    ClearLowBounds(a, k);
    if Base(p) <= a < Base(p) + HostSize(p) {
      ClearLowOffset(Base(p), a - Base(p), k);
    }
  }

  /** An offset is usable exactly when it is smaller than the prefix, and it is then the
      plain sum. */
  lemma OffsetExact(p: Prefix, offset: nat)
    requires ValidPrefix(p)
    ensures AddrAtOffset(p, offset).Some? <==> offset < HostSize(p)
    ensures offset < HostSize(p) ==> AddrAtOffset(p, offset) == Some(Base(p) + offset)
  {
    ClearLowFits(p.addr, p.width - p.bits, p.width);
    ContainsIffInBlock(p, Base(p) + offset);
  }

  /** Renumbering: with equal prefix lengths every offset keeps its place. */
  lemma OffsetsTranslate(p: Prefix, q: Prefix, offset: nat)
    requires ValidPrefix(p) && ValidPrefix(q) && p.width == q.width && p.bits == q.bits
    ensures AddrAtOffset(p, offset).Some? == AddrAtOffset(q, offset).Some?
    ensures AddrAtOffset(p, offset).Some? ==>
              AddrAtOffset(q, offset).value - Base(q) == AddrAtOffset(p, offset).value - Base(p)
  {
    OffsetExact(p, offset);
    OffsetExact(q, offset);
  }

  lemma OffsetsInjective(p: Prefix, a: nat, b: nat)
    requires ValidPrefix(p)
    requires AddrAtOffset(p, a).Some? && AddrAtOffset(p, a) == AddrAtOffset(p, b)
    ensures a == b
  {
    OffsetExact(p, a);
    OffsetExact(p, b);
  }

  /** Every address between two in-prefix addresses is in the prefix. */
  lemma RangeInPrefix(p: Prefix, lo: Addr, a: Addr, hi: Addr)
    requires p.bits <= p.width
    requires Contains(p, lo) && Contains(p, hi) && lo <= a <= hi
    ensures Contains(p, a)
  {
    ContainsIffInBlock(p, lo);
    ContainsIffInBlock(p, a);
    ContainsIffInBlock(p, hi);
  }

  // ---- delegated prefix composed with the suffix ----

  /** What composePD means on numbers: the masked delegation OR-ed with the suffix. */
  function Compose(delegated: Prefix, suffix: Addr, plen: nat): (r: Prefix)
    requires delegated.bits <= delegated.width
  {
    Prefix(128, BitOr(Base(delegated), suffix), plen)
  }

  /** The byte loop of composePD. */
  method OrBytes(base: seq<Byte>, sfx: seq<Byte>) returns (out: seq<Byte>)
    requires |base| == |sfx|
    ensures |out| == |base|
    ensures ValueOf(out) == BitOr(ValueOf(base), ValueOf(sfx))
  {
    out := base;
    for i := 0 to |base|
      invariant |out| == |base|
      invariant ValueOf(out[..i]) == BitOr(ValueOf(base[..i]), ValueOf(sfx[..i]))
    {
      BitOrByte(ValueOf(base[..i]), base[i], ValueOf(sfx[..i]), sfx[i]);
      out := out[i := BitOr(base[i], sfx[i])];
      assert base[..i + 1][..i] == base[..i] && sfx[..i + 1][..i] == sfx[..i];
      assert out[..i + 1][..i] == out[..i];
    }
    assert base[..|base|] == base && sfx[..|base|] == sfx && out[..|base|] == out;
  }

  /** composePD works on the 16-byte forms of both addresses. */
  method ComposePD(delegated: Prefix, suffix: Addr, plen: nat) returns (r: Prefix)
    requires ValidPrefix(delegated) && delegated.width == 128
    requires suffix < Pow2(128)
    ensures r == Compose(delegated, suffix, plen)
  {
    ClearLowFits(delegated.addr, 128 - delegated.bits, 128);
    ValueOfBytesOf(Base(delegated), 16);
    ValueOfBytesOf(suffix, 16);
    var out := OrBytes(BytesOf(Base(delegated), 16), BytesOf(suffix, 16));
    r := Prefix(128, ValueOf(out), plen);
  }

  /** The composed prefix is well formed for every delegation and suffix. */
  lemma ComposeValid(delegated: Prefix, suffix: Addr, plen: nat)
    requires ValidPrefix(delegated) && delegated.width == 128
    requires suffix < Pow2(128) && plen <= 128
    ensures ValidPrefix(Compose(delegated, suffix, plen))
  {
    ClearLowFits(delegated.addr, 128 - delegated.bits, 128);
    BitOrBound(Base(delegated), suffix, 128);
  }

  /** When the suffix is zero in the first plen bits and the delegation is no longer than
      plen, the served address is delegation base plus suffix, inside the delegation, and the
      served prefix is the first plen-length block of the delegation. */
  lemma ComposeIsSum(delegated: Prefix, suffix: Addr, plen: nat)
    requires ValidPrefix(delegated) && delegated.width == 128
    requires delegated.bits <= plen <= 128
    requires suffix < Pow2(128 - plen)
    ensures Compose(delegated, suffix, plen).addr == Base(delegated) + suffix
    ensures Contains(delegated, Compose(delegated, suffix, plen).addr)
    ensures Base(Compose(delegated, suffix, plen)) == Base(delegated)
  {
    var b := Base(delegated);
    ClearLowBounds(delegated.addr, 128 - delegated.bits);
    AlignedWeaken(b, 128 - plen, 128 - delegated.bits);
    BitOrDisjoint(b, suffix, 128 - plen);
    ClearLowOffset(b, suffix, 128 - plen);
    Pow2Mono(128 - plen, 128 - delegated.bits);
    ContainsIffInBlock(delegated, b + suffix);
  }
}
