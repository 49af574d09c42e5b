/** Powers of two, low-bit masks, byte strings and bitwise OR on unbounded naturals: the
    arithmetic that addresses, prefixes and wire fields are made of.  Everything is defined by
    halving and doubling, so that the proofs stay linear.  Also the option type and the set of
    elements of a sequence. */
module Arith {

  datatype Option<+T> = None | Some(value: T)

  function Elems<T>(s: seq<T>): (r: set<T>) {
    set x | x in s
  }

  /** A slice of a slice. */
  lemma Slice<T>(s: seq<T>, a: nat, b: nat, i: nat, j: nat)
    requires a <= b <= |s| && i <= j <= b - a
    ensures s[a..b][i..j] == s[a + i..a + j]
  {
    var t, u, v := s[a..b], s[a..b][i..j], s[a + i..a + j];
    forall k | 0 <= k < j - i ensures u[k] == v[k] {
      assert u[k] == t[i + k] == s[a + (i + k)];
      assert v[k] == s[(a + i) + k];
    }
  }

  lemma ElemsConcat<T>(s: seq<T>, t: seq<T>)
    ensures Elems(s + t) == Elems(s) + Elems(t)
  {
  }

  type Byte = x: int | 0 <= x < 256

  function Pow2(n: nat): (r: nat)
    ensures r > 0
  {
    if n == 0 then 1 else 2 * Pow2(n - 1)
  }

  lemma Pow2Step8(n: nat)
    ensures Pow2(n + 8) == 256 * Pow2(n)
  {
    assert Pow2(n + 2) == 4 * Pow2(n);
    assert Pow2(n + 4) == 16 * Pow2(n);
    assert Pow2(n + 6) == 64 * Pow2(n);
  }

  lemma Pow2Of32()
    ensures Pow2(8) == 256 && Pow2(16) == 0x1_0000 && Pow2(32) == 0x1_0000_0000
  {
    Pow2Step8(0);
    Pow2Step8(8);
    Pow2Step8(16);
    Pow2Step8(24);
  }

  lemma {:induction false} Pow2Mono(a: nat, b: nat)
    requires a <= b
    ensures Pow2(a) <= Pow2(b)
  {
    if a < b { Pow2Mono(a, b - 1); }
  }

  /** A remainder is determined by any decomposition. */
  lemma RemainderUnique(v: nat, m: nat, q: nat, r: nat)
    requires r < m && v == m * q + r
    ensures v % m == r
  {
    var d := v / m - q;
    assert m * d == r - v % m;
    if d >= 1 {
      MulMono(m, 1, d);
    } else if d <= -1 {
      MulMono(m, d, -1);
    }
  }

  lemma MulMono(m: nat, a: int, b: int)
    requires a <= b
    ensures m * a <= m * b
  {
  }

  // ---- masks ----

  /** v with its k low bits cleared. */
  function ClearLow(v: nat, k: nat): (r: nat)
  {
    if k == 0 then v else 2 * ClearLow(v / 2, k - 1)
  }

  predicate Aligned(v: nat, k: nat) {
    ClearLow(v, k) == v
  }

  lemma {:induction false} ClearLowBounds(v: nat, k: nat)
    ensures ClearLow(v, k) <= v < ClearLow(v, k) + Pow2(k)
    ensures Aligned(ClearLow(v, k), k)
  {
    if k > 0 { ClearLowBounds(v / 2, k - 1); }
  }

  /** Adding less than 2^k to an aligned number only fills the low bits. */
  lemma {:induction false} ClearLowOffset(b: nat, r: nat, k: nat)
    requires Aligned(b, k) && r < Pow2(k)
    ensures ClearLow(b + r, k) == b
  {
    if k > 0 {
      assert (b + r) / 2 == b / 2 + r / 2;
      ClearLowOffset(b / 2, r / 2, k - 1);
    }
  }

  /** A masked w-bit number leaves room for its low bits within w bits. */
  lemma {:induction false} ClearLowFits(v: nat, k: nat, w: nat)
    requires k <= w && v < Pow2(w)
    ensures ClearLow(v, k) + Pow2(k) <= Pow2(w)
  {
    if k > 0 { ClearLowFits(v / 2, k - 1, w - 1); }
  }

  lemma {:induction false} AlignedWeaken(v: nat, j: nat, k: nat)
    requires j <= k && Aligned(v, k)
    ensures Aligned(v, j)
  {
    if j > 0 { AlignedWeaken(v / 2, j - 1, k - 1); }
  }

  // ---- big-endian byte strings ----

  function ValueOf(bytes: seq<Byte>): (v: nat)
  {
    if bytes == [] then 0 else ValueOf(bytes[..|bytes| - 1]) * 256 + bytes[|bytes| - 1]
  }

  function BytesOf(v: nat, n: nat): (bytes: seq<Byte>)
    ensures |bytes| == n
  {
    if n == 0 then [] else BytesOf(v / 256, n - 1) + [v % 256]
  }

  lemma {:induction false} ValueOfBytesOf(v: nat, n: nat)
    requires v < Pow2(8 * n)
    ensures ValueOf(BytesOf(v, n)) == v
  {
    if n > 0 {
      Pow2Step8(8 * (n - 1));
      ValueOfBytesOf(v / 256, n - 1);
      assert BytesOf(v, n)[..n - 1] == BytesOf(v / 256, n - 1);
    }
  }

  // ---- bitwise OR ----

  function BitOr(a: nat, b: nat): (r: nat)
    decreases a + b
  {
    if a == 0 && b == 0 then 0
    else (if a % 2 == 1 || b % 2 == 1 then 1 else 0) + 2 * BitOr(a / 2, b / 2)
  }

  lemma {:induction false} BitOrZero(a: nat)
    ensures BitOr(a, 0) == a && BitOr(0, a) == a
  {
    if a > 0 { BitOrZero(a / 2); }
  }

  lemma {:induction false} BitOrBound(a: nat, b: nat, k: nat)
    requires a < Pow2(k) && b < Pow2(k)
    ensures BitOr(a, b) < Pow2(k)
  {
    if k > 0 { BitOrBound(a / 2, b / 2, k - 1); }
  }

  lemma BitOrCons(x: nat, a: nat, y: nat, b: nat)
    requires a < 2 && b < 2
    ensures BitOr(2 * x + a, 2 * y + b) == (if a == 1 || b == 1 then 1 else 0) + 2 * BitOr(x, y)
  {
  }

  /** x shifted left by k bits. */
  function Shift(x: nat, k: nat): (r: nat)
  {
    if k == 0 then x else 2 * Shift(x, k - 1)
  }

  /** OR works chunk by chunk: the high parts and the low k bits do not interact. */
  lemma {:induction false} BitOrSplit(x: nat, a: nat, y: nat, b: nat, k: nat)
    requires a < Pow2(k) && b < Pow2(k)
    ensures BitOr(Shift(x, k) + a, Shift(y, k) + b) == Shift(BitOr(x, y), k) + BitOr(a, b)
  {
    if k > 0 {
      BitOrSplit(x, a / 2, y, b / 2, k - 1);
      BitOrShift(Shift(x, k - 1), a, Shift(y, k - 1), b, Shift(BitOr(x, y), k - 1));
    }
  }

  lemma BitOrShift(x: nat, a: nat, y: nat, b: nat, o: nat)
    requires BitOr(x + a / 2, y + b / 2) == o + BitOr(a / 2, b / 2)
    ensures BitOr(2 * x + a, 2 * y + b) == 2 * o + BitOr(a, b)
  {
    BitOrCons(x + a / 2, a % 2, y + b / 2, b % 2);
    BitOrCons(a / 2, a % 2, b / 2, b % 2);
  }

  lemma BitOrByte(x: nat, a: Byte, y: nat, b: Byte)
    ensures BitOr(a, b) < 256
    ensures BitOr(x * 256 + a, y * 256 + b) == BitOr(x, y) * 256 + BitOr(a, b)
  {
    Pow2Step8(0);
    BitOrBound(a, b, 8);
    BitOrSplit(x, a, y, b, 8);
    ShiftByte(x);
    ShiftByte(y);
    ShiftByte(BitOr(x, y));
  }

  lemma ShiftByte(x: nat)
    ensures Shift(x, 8) == x * 256
  {
    assert Shift(x, 1) == 2 * x;
    assert Shift(x, 2) == 4 * x;
    assert Shift(x, 4) == 16 * x;
    assert Shift(x, 6) == 64 * x;
  }

  /** OR of a number without low bits and one with only low bits is their sum. */
  lemma {:induction false} BitOrDisjoint(a: nat, b: nat, k: nat)
    requires Aligned(a, k) && b < Pow2(k)
    ensures BitOr(a, b) == a + b
  {
    if k == 0 {
      BitOrZero(a);
    } else {
      BitOrDisjoint(a / 2, b / 2, k - 1);
      BitOrCons(a / 2, a % 2, b / 2, b % 2);
    }
  }
}
