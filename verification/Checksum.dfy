/** The Internet checksum of internal/packet/packet.go: a 32-bit accumulator of 16-bit words
    with the carries folded in at the end, related to the one's-complement sum of RFC 1071,
    which adds every carry back at once. */
module Checksum {
  import opened Arith

  const WRAP := 0x1_0000_0000

  /** A big-endian 16-bit word. */
  function Word(hi: Byte, lo: Byte): (w: nat)
    ensures w < 0x1_0000
  {
    var h: int, l: int := hi, lo;
    h * 256 + l
  }

  lemma WrapAdd(a: nat, b: nat)
    ensures (a % WRAP + b) % WRAP == (a + b) % WRAP
  {
  }

  // ---- reference ----

  /** The sum of the big-endian 16-bit words; an odd last byte is padded with zero. */
  function WordSum(data: seq<Byte>): (r: nat)
    decreases |data|
  {
    if data == [] then 0
    else if |data| == 1 then Word(data[0], 0)
    else Word(data[0], data[1]) + WordSum(data[2..])
  }

  /** One's-complement addition of two 16-bit words: an end-around carry. */
  function OnesAdd(a: nat, b: nat): (r: nat)
    requires a < 0x1_0000 && b < 0x1_0000
    ensures r < 0x1_0000
  {
    if a + b < 0x1_0000 then a + b else a + b - 0xFFFF
  }

  /** One's-complement sum of the words of data, started at acc. */
  function OnesSum(acc: nat, data: seq<Byte>): (r: nat)
    requires acc < 0x1_0000
    ensures r < 0x1_0000
    decreases |data|
  {
    if data == [] then acc
    else if |data| == 1 then OnesAdd(acc, Word(data[0], 0))
    else OnesSum(OnesAdd(acc, Word(data[0], data[1])), data[2..])
  }

  /** The 16-bit one's-complement representative of a sum: its residue modulo 65535, where
      only zero itself is represented by zero. */
  function Residue(sum: nat): (r: nat)
    ensures r < 0x1_0000
  {
    if sum == 0 then 0 else 1 + (sum - 1) % 0xFFFF
  }

  lemma OnesAddResidue(sum: nat, w: nat)
    requires w < 0x1_0000
    ensures OnesAdd(Residue(sum), w) == Residue(sum + w)
  {
  }

  /** Deferred carries agree with end-around carries. */
  lemma {:induction false} OnesSumResidue(sum: nat, data: seq<Byte>)
    ensures OnesSum(Residue(sum), data) == Residue(sum + WordSum(data))
    decreases |data|
  {
    if |data| == 1 {
      OnesAddResidue(sum, Word(data[0], 0));
    } else if data != [] {
      var w := Word(data[0], data[1]);
      OnesAddResidue(sum, w);
      OnesSumResidue(sum + w, data[2..]);
    }
  }

  lemma {:induction false} WordSumAppend(a: seq<Byte>, b: seq<Byte>)
    requires |a| % 2 == 0
    ensures WordSum(a + b) == WordSum(a) + WordSum(b)
    decreases |a|
  {
    if a == [] {
      assert a + b == b;
    } else {
      assert (a + b)[2..] == a[2..] + b;
      WordSumAppend(a[2..], b);
    }
  }

  lemma {:induction false} WordSumBound(data: seq<Byte>)
    ensures WordSum(data) <= 0xFFFF * ((|data| + 1) / 2)
    decreases |data|
  {
    if |data| > 1 { WordSumBound(data[2..]); }
  }

  // ---- the source's loops ----

  /** checksumAdd: 32-bit accumulation, wrapping. */
  method ChecksumAdd(sum: nat, data: seq<Byte>) returns (r: nat)
    requires sum < WRAP
    ensures r < WRAP && r == (sum + WordSum(data)) % WRAP
  {
    var n, i := |data|, 0;
    r := sum;
    while i + 1 < n
      invariant 0 <= i <= n && i % 2 == 0
      invariant r < WRAP && r == (sum + WordSum(data[..i])) % WRAP
    {
      AddWord(sum, data, i, r);
      r := (r + Word(data[i], data[i + 1])) % WRAP;
      i := i + 2;
    }
    if n % 2 == 1 {
      AddLast(sum, data, r);
      r := (r + Word(data[n - 1], 0)) % WRAP;
    } else {
      assert data[..i] == data;
    }
  }

  lemma AddWord(sum: nat, data: seq<Byte>, i: nat, r: nat)
    requires i % 2 == 0 && i + 1 < |data| && r == (sum + WordSum(data[..i])) % WRAP
    ensures (r + Word(data[i], data[i + 1])) % WRAP == (sum + WordSum(data[..i + 2])) % WRAP
  {
    WordSumStep(data, i);
    WrapAdd(sum + WordSum(data[..i]), Word(data[i], data[i + 1]));
  }

  lemma AddLast(sum: nat, data: seq<Byte>, r: nat)
    requires |data| % 2 == 1 && r == (sum + WordSum(data[..|data| - 1])) % WRAP
    ensures (r + Word(data[|data| - 1], 0)) % WRAP == (sum + WordSum(data)) % WRAP
  {
    LastByte(data);
    WrapAdd(sum + WordSum(data[..|data| - 1]), Word(data[|data| - 1], 0));
  }

  lemma LastByte(data: seq<Byte>)
    requires |data| % 2 == 1
    ensures WordSum(data) == WordSum(data[..|data| - 1]) + Word(data[|data| - 1], 0)
  {
    var n := |data| - 1;
    assert data == data[..n] + [data[n]];
    WordSumAppend(data[..n], [data[n]]);
  }

  lemma WordSumStep(data: seq<Byte>, i: nat)
    requires i % 2 == 0 && i + 1 < |data|
    ensures WordSum(data[..i + 2]) == WordSum(data[..i]) + Word(data[i], data[i + 1])
  {
    var w := [data[i], data[i + 1]];
    assert data[..i + 2] == data[..i] + w;
    WordSumAppend(data[..i], w);
    assert w[2..] == [];
  }

  /** checksumFinish: fold the carries, then complement. */
  method ChecksumFinish(sum: nat) returns (r: nat)
    ensures r == 0xFFFF - Residue(sum)
  {
    var s := sum;
    while s / 0x1_0000 != 0
      invariant Residue(s) == Residue(sum)
      decreases s
    {
      FoldStep(s);
      s := s % 0x1_0000 + s / 0x1_0000;
    }
    r := 0xFFFF - s;
  }

  lemma FoldStep(s: nat)
    requires s >= 0x1_0000
    ensures Residue(s % 0x1_0000 + s / 0x1_0000) == Residue(s)
    ensures s % 0x1_0000 + s / 0x1_0000 < s
  {
    var q, m := s / 0x1_0000, s % 0x1_0000;
    assert s - 1 == 0xFFFF * q + (m + q - 1);
  }

  /** The value checksumFinish computes, and UDP's rule that zero is sent as all ones. */
  function Finish(sum: nat): (c: nat)
    ensures c < 0x1_0000
  {
    0xFFFF - Residue(sum)
  }

  function FinishUDP(sum: nat): (c: nat)
    ensures 0 < c < 0x1_0000
  {
    if Finish(sum) == 0 then 0xFFFF else Finish(sum)
  }

  /** Adding either checksum makes the one's-complement sum all ones. */
  lemma FinishVerifies(sum: nat)
    ensures Residue(sum + Finish(sum)) == 0xFFFF
    ensures Residue(sum + FinishUDP(sum)) == 0xFFFF
  {
  }

  /** The pseudo-header sum of pseudoHeaderSum. */
  function PseudoSum(src: seq<Byte>, dst: seq<Byte>, proto: nat, l4len: nat): (r: nat) {
    WordSum(src) + WordSum(dst) + proto + l4len
  }

  method PseudoHeaderSum(src: seq<Byte>, dst: seq<Byte>, proto: Byte, l4len: nat) returns (r: nat)
    ensures r == PseudoSum(src, dst, proto, l4len) % WRAP
  {
    r := ChecksumAdd(0, src);
    WrapAdd(WordSum(src), WordSum(dst));
    r := ChecksumAdd(r, dst);
    WrapAdd(WordSum(src) + WordSum(dst), proto);
    r := (r + proto) % WRAP;
    WrapAdd(WordSum(src) + WordSum(dst) + proto, l4len % WRAP);
    WrapAdd(l4len, WordSum(src) + WordSum(dst) + proto);
    r := (r + l4len % WRAP) % WRAP;
  }

  /** The accumulator does not wrap for addresses of at most 16 bytes and segments of at most
      65535 bytes. */
  lemma NoWrap(src: seq<Byte>, dst: seq<Byte>, proto: Byte, segment: seq<Byte>)
    requires |src| <= 16 && |dst| <= 16 && |segment| <= 65535
    ensures PseudoSum(src, dst, proto, |segment|) + WordSum(segment) < WRAP
  {
    WordSumBound(src);
    WordSumBound(dst);
    WordSumBound(segment);
  }

  lemma WordSumWord(a: seq<Byte>, hi: Byte, lo: Byte, b: seq<Byte>)
    requires |a| % 2 == 0
    ensures WordSum(a + [hi, lo] + b) == WordSum(a) + Word(hi, lo) + WordSum(b)
  {
    var w: seq<Byte> := [hi, lo];
    WordSumAppend(a, w);
    WordSumAppend(a + w, b);
    assert w[2..] == [];
  }
}
