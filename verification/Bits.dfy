/** Bit-level arithmetic under the packet buffer.

    A C++ `int` is modelled by its value, and its two's complement bits are read by halving
    (floor division), so `Bit(v, k)` is `v & (1 << k)` for negative values too. Bytes are
    integers below 256; a buffer is a sequence of bytes, addressed bit by bit, lowest bit of a
    byte first, as the shifts of the packet code do. */
module Bits {
  type byte = x: int | 0 <= x < 256
  type int32 = x: int | -0x8000_0000 <= x < 0x8000_0000

  function Pow2(n: nat): (r: nat)
    ensures r >= 1
  {
    if n == 0 then 1 else 2 * Pow2(n - 1)
  }

  /** v & (1 << k) is non-zero */
  predicate Bit(v: int, k: nat)
    decreases k
  {
    if k == 0 then v % 2 == 1 else Bit(v / 2, k - 1)
  }

  /** v | (1 << k) when `on`, otherwise v & ~(1 << k) */
  function SetBit(v: int, k: nat, on: bool): int
    decreases k
  {
    if k == 0 then v / 2 * 2 + (if on then 1 else 0) else SetBit(v / 2, k - 1, on) * 2 + v % 2
  }

  /** The low n bits of v, as a non-negative number */
  function Low(v: int, n: nat): (r: nat)
    ensures r < Pow2(n)
    decreases n
  {
    if n == 0 then 0 else Low(v / 2, n - 1) * 2 + v % 2
  }

  /** A 32-bit pattern read as a C++ int */
  function ToInt32(w: nat): int32
    requires w < 0x1_0000_0000
  {
    if w < 0x8000_0000 then w else w - 0x1_0000_0000
  }

  // ----- numbers and their bits

  lemma Halves(q: int, r: int)
    requires 0 <= r < 2
    ensures (q * 2 + r) / 2 == q && (q * 2 + r) % 2 == r
  {
  }

  lemma {:induction false} SetBitBit(v: int, k: nat, on: bool, j: nat)
    ensures Bit(SetBit(v, k, on), j) == if j == k then on else Bit(v, j)
    decreases k
  {
    if k == 0 {
      Halves(v / 2, if on then 1 else 0);
    } else {
      Halves(SetBit(v / 2, k - 1, on), v % 2);
      if j > 0 {
        SetBitBit(v / 2, k - 1, on, j - 1);
      }
    }
  }

  lemma HalfRange(v: int, p: int)
    ensures 0 <= v < 2 * p <==> 0 <= v / 2 < p
  {
  }

  lemma {:induction false} SetBitRange(v: int, k: nat, on: bool, n: nat)
    requires 0 <= v < Pow2(n) && k < n
    ensures 0 <= SetBit(v, k, on) < Pow2(n)
    decreases k
  {
    HalfRange(v, Pow2(n - 1));
    HalfRange(SetBit(v, k, on), Pow2(n - 1));
    if k == 0 {
      Halves(v / 2, if on then 1 else 0);
    } else {
      Halves(SetBit(v / 2, k - 1, on), v % 2);
      SetBitRange(v / 2, k - 1, on, n - 1);
    }
  }

  lemma {:induction false} ZeroBit(k: nat)
    ensures !Bit(0, k)
  {
    if k == 0 {
    } else {
      ZeroBit(k - 1);
    }
  }

  lemma {:induction false} LowBit(v: int, n: nat, k: nat)
    ensures Bit(Low(v, n), k) == (k < n && Bit(v, k))
    decreases n
  {
    if n == 0 {
      ZeroBit(k);
    } else if k != 0 {
      LowBit(v / 2, n - 1, k - 1);
    }
  }

  /** Truncation to n bits loses nothing exactly for the values an unsigned n-bit field can hold. */
  lemma {:induction false} LowExact(v: int, n: nat)
    ensures Low(v, n) == v <==> 0 <= v < Pow2(n)
    decreases n
  {
    if n == 0 {
    } else {
      LowExact(v / 2, n - 1);
    }
  }

  /** Two n-bit numbers with the same bits are the same number. */
  lemma {:induction false} SameBits(v: int, w: int, n: nat)
    requires 0 <= v < Pow2(n) && 0 <= w < Pow2(n)
    requires forall k :: 0 <= k < n ==> Bit(v, k) == Bit(w, k)
    ensures v == w
    decreases n
  {
    if n == 0 {
    } else {
      forall k | 0 <= k < n - 1
        ensures Bit(v / 2, k) == Bit(w / 2, k)
      {
        assert Bit(v, k + 1) == Bit(w, k + 1);
      }
      SameBits(v / 2, w / 2, n - 1);
      assert Bit(v, 0) == Bit(w, 0);
    }
  }

  lemma Pow2Values()
    ensures Pow2(8) == 256
    ensures Pow2(31) == 0x8000_0000
    ensures Pow2(32) == 0x1_0000_0000
  {
    assert Pow2(8) == 256;
    assert Pow2(16) == 256 * Pow2(8);
    assert Pow2(24) == 256 * Pow2(16);
    assert Pow2(31) == 128 * Pow2(24);
  }

  lemma {:induction false} Pow2Monotone(m: nat, n: nat)
    requires m <= n
    ensures Pow2(m) <= Pow2(n)
    decreases n
  {
    if m == n {
    } else {
      Pow2Monotone(m, n - 1);
    }
  }

  lemma {:induction false} LowOfShifted(v: int, n: nat)
    ensures Low(v + Pow2(n), n) == Low(v, n)
    decreases n
  {
    if n == 0 {
    } else {
      assert (v + Pow2(n)) / 2 == v / 2 + Pow2(n - 1);
      LowOfShifted(v / 2, n - 1);
    }
  }

  lemma SignedFromBits(v: int, n: nat)
    requires 1 <= n && 0 <= v + Pow2(n - 1) && v < Pow2(n - 1)
    ensures Low(v, n) == if v >= 0 then v else v + Pow2(n)
  {
    if v >= 0 {
      LowExact(v, n);
    } else {
      LowOfShifted(v, n);
      LowExact(v + Pow2(n), n);
    }
  }

  /** Reading back all 32 bits of an int gives the int itself, whatever its sign. */
  lemma Int32FromBits(v: int32, n: nat)
    requires n == 32
    ensures Low(v, n) < 0x1_0000_0000
    ensures ToInt32(Low(v, n)) == v
  {
    Pow2Values();
    SignedFromBits(v, n);
  }

  /** Read as an int, a 32-bit pattern keeps its bits. */
  lemma ToInt32Bit(w: nat, k: nat, n: nat)
    requires w < 0x1_0000_0000 && k < n && n == 32
    ensures Bit(ToInt32(w), k) == Bit(w, k)
  {
    var v: int := ToInt32(w);
    Pow2Values();
    LowOfShifted(v, n);
    LowBit(v, n, k);
    LowBit(v + Pow2(n), n, k);
  }

  lemma SameInt32(v: int32, w: int32, n: nat)
    requires n == 32 && forall k: nat :: k < n ==> Bit(v, k) == Bit(w, k)
    ensures v == w
  {
    forall k | 0 <= k < n
      ensures Bit(Low(v, n), k) == Bit(Low(w, n), k)
    {
      LowBit(v, n, k);
      LowBit(w, n, k);
    }
    SameBits(Low(v, n), Low(w, n), n);
    Int32FromBits(v, n);
    Int32FromBits(w, n);
  }

  lemma ShortTail(n: nat)
    requires n / 8 < 1
    ensures n % 8 == n
  {
  }

  // ----- buffers and their bits

  predicate BitAt(b: seq<byte>, a: nat)
    requires a < 8 * |b|
  {
    Bit(b[a / 8], a % 8)
  }

  function SetByteBit(v: byte, k: nat, on: bool): byte
    requires k < 8
  {
    Pow2Values();
    SetBitRange(v, k, on, 8);
    SetBit(v, k, on)
  }

  function PutBit(b: seq<byte>, a: nat, on: bool): (r: seq<byte>)
    requires a < 8 * |b|
    ensures |r| == |b|
  {
    b[a / 8 := SetByteBit(b[a / 8], a % 8, on)]
  }

  /** The buffer after bits o, o+1, ... o+n-1 of v are stored one by one at bit addresses a, a+1, ... */
  function PutBits(b: seq<byte>, a: nat, v: int, o: nat, n: nat): (r: seq<byte>)
    requires a + n <= 8 * |b|
    ensures |r| == |b|
    decreases n
  {
    if n == 0 then b else PutBit(PutBits(b, a, v, o, n - 1), a + n - 1, Bit(v, o + n - 1))
  }

  /** The number whose bits o, o+1, ... o+n-1 are those stored at addresses a, a+1, ...; all others are 0 */
  function GetBits(b: seq<byte>, a: nat, n: nat, o: nat): int
    requires a + n <= 8 * |b|
    decreases n
  {
    if n == 0 then 0 else SetBit(GetBits(b, a, n - 1, o), o + n - 1, BitAt(b, a + n - 1))
  }

  lemma {:induction false} PutBitAt(b: seq<byte>, a: nat, on: bool, x: nat)
    requires a < 8 * |b| && x < 8 * |b|
    ensures BitAt(PutBit(b, a, on), x) == if x == a then on else BitAt(b, x)
  {
    SetBitBit(b[a / 8], a % 8, on, x % 8);
  }

  lemma {:induction false} PutBitsOutside(b: seq<byte>, a: nat, v: int, o: nat, n: nat, x: nat)
    requires a + n <= 8 * |b| && x < 8 * |b| && (x < a || a + n <= x)
    ensures BitAt(PutBits(b, a, v, o, n), x) == BitAt(b, x)
    decreases n
  {
    if n == 0 {
    } else {
      PutBitsOutside(b, a, v, o, n - 1, x);
      PutBitAside(PutBits(b, a, v, o, n - 1), a + n - 1, Bit(v, o + n - 1), x, PutBits(b, a, v, o, n));
    }
  }

  lemma {:induction false} PutBitAside(b: seq<byte>, a: nat, on: bool, x: nat, after: seq<byte>)
    requires a < 8 * |b| && x < 8 * |b| && x != a && after == PutBit(b, a, on)
    ensures BitAt(after, x) == BitAt(b, x)
  {
    PutBitAt(b, a, on, x);
  }

  lemma {:induction false} PutBitsInside(b: seq<byte>, a: nat, v: int, o: nat, n: nat, i: nat, x: nat)
    requires a + n <= 8 * |b| && i < n && x == a + i
    ensures BitAt(PutBits(b, a, v, o, n), x) == Bit(v, o + i)
    decreases n
  {
    if i == n - 1 {
      LastBit(PutBits(b, a, v, o, i), x, Bit(v, o + i), PutBits(b, a, v, o, n));
    } else {
      PutBitsInside(b, a, v, o, n - 1, i, x);
      PutBitAside(PutBits(b, a, v, o, n - 1), a + n - 1, Bit(v, o + n - 1), x, PutBits(b, a, v, o, n));
    }
  }

  lemma {:induction false} LastBit(b: seq<byte>, a: nat, on: bool, after: seq<byte>)
    requires a < 8 * |b| && after == PutBit(b, a, on)
    ensures BitAt(after, a) == on
  {
    PutBitAt(b, a, on, a);
  }

  /** Storing bits changes the addressed range, to the bits of v, and nothing else. */
  lemma {:induction false} PutBitsAt(b: seq<byte>, a: nat, v: int, o: nat, n: nat, x: nat)
    requires a + n <= 8 * |b| && x < 8 * |b|
    ensures BitAt(PutBits(b, a, v, o, n), x) == if a <= x < a + n then Bit(v, o + x - a) else BitAt(b, x)
  {
    if a <= x < a + n {
      PutBitsInside(b, a, v, o, n, x - a, x);
      assert o + x - a == o + (x - a);
    } else {
      PutBitsOutside(b, a, v, o, n, x);
    }
  }

  /** Storing one more bit, named by its byte and its place in the byte */
  lemma {:induction false} PutBitsStep(b: seq<byte>, a: nat, v: int, o: nat, n: nat, i: nat, k: nat, j: nat)
    requires i < |b| && k < 8 && a + n == 8 * i + k && j == o + n
    ensures var p := PutBits(b, a, v, o, n);
            PutBits(b, a, v, o, n + 1) == p[i := SetByteBit(p[i], k, Bit(v, j))]
  {
    ByteAddress(i, k);
  }

  lemma ByteAddress(i: nat, k: nat)
    requires k < 8
    ensures (8 * i + k) / 8 == i && (8 * i + k) % 8 == k
  {
  }

  lemma {:induction false} GetBitsStep(b: seq<byte>, a: nat, n: nat, o: nat, i: nat, k: nat, j: nat)
    requires i < |b| && k < 8 && a + n == 8 * i + k && j == o + n
    ensures GetBits(b, a, n + 1, o) == SetBit(GetBits(b, a, n, o), j, Bit(b[i], k))
  {
    ByteAddress(i, k);
    assert BitAt(b, 8 * i + k) == Bit(b[i], k);
  }

  lemma {:induction false} GetBitsBit(b: seq<byte>, a: nat, n: nat, o: nat, k: nat)
    requires a + n <= 8 * |b|
    ensures Bit(GetBits(b, a, n, o), k) == (o <= k < o + n && BitAt(b, a + k - o))
    decreases n
  {
    if n == 0 {
      ZeroBit(k);
    } else {
      GetBitsBit(b, a, n - 1, o, k);
      SetBitBit(GetBits(b, a, n - 1, o), o + n - 1, BitAt(b, a + n - 1), k);
    }
  }

  lemma {:induction false} GetBitsRange(b: seq<byte>, a: nat, n: nat, o: nat, w: nat)
    requires a + n <= 8 * |b| && o + n <= w
    ensures 0 <= GetBits(b, a, n, o) < Pow2(w)
    decreases n
  {
    if n == 0 {
    } else {
      GetBitsRange(b, a, n - 1, o, w);
      SetBitRange(GetBits(b, a, n - 1, o), o + n - 1, BitAt(b, a + n - 1), w);
    }
  }

  lemma GetBitsWord(b: seq<byte>, a: nat, n: nat, o: nat)
    requires a + n <= 8 * |b| && o + n <= 32
    ensures 0 <= GetBits(b, a, n, o) < 0x1_0000_0000
  {
    Pow2Values();
    GetBitsRange(b, a, n, o, 32);
  }

  /** Two buffers both reach bit address `to` and hold the same bits from address `from` up to it. */
  ghost predicate Agree(b: seq<byte>, t: seq<byte>, from: nat, to: nat) {
    && to <= 8 * |b|
    && to <= 8 * |t|
    && forall a :: from <= a < to ==> BitAt(b, a) == BitAt(t, a)
  }

  /** A range of a buffer whose bits are those of v reads as v cut to n bits. */
  lemma GetIsLow(t: seq<byte>, a: nat, n: nat, v: int)
    requires a + n <= 8 * |t|
    requires forall k :: 0 <= k < n ==> BitAt(t, a + k) == Bit(v, k)
    ensures GetBits(t, a, n, 0) == Low(v, n)
  {
    GetBitsRange(t, a, n, 0, n);
    forall k | 0 <= k < n
      ensures Bit(GetBits(t, a, n, 0), k) == Bit(Low(v, n), k)
    {
      GetBitsBit(t, a, n, 0, k);
      LowBit(v, n, k);
      assert BitAt(t, a + k) == Bit(v, k);
    }
    SameBits(GetBits(t, a, n, 0), Low(v, n), n);
  }

  /** Bits stored in b are read back from any buffer that agrees with b, cut to n bits. */
  lemma GetAfterPut(b: seq<byte>, a: nat, v: int, n: nat, t: seq<byte>)
    requires a + n <= 8 * |b| && Agree(PutBits(b, a, v, 0, n), t, a, a + n)
    ensures GetBits(t, a, n, 0) == Low(v, n)
  {
    forall k | 0 <= k < n
      ensures BitAt(t, a + k) == Bit(v, k)
    {
      PutBitsAt(b, a, v, 0, n, a + k);
      assert BitAt(PutBits(b, a, v, 0, n), a + k) == BitAt(t, a + k);
    }
    GetIsLow(t, a, n, v);
  }

  /** Agreement on bits is agreement on the whole bytes among them. */
  lemma AgreeBytes(b: seq<byte>, t: seq<byte>, from: nat, to: nat, i: nat)
    requires Agree(b, t, from, to) && from <= 8 * i && 8 * (i + 1) <= to
    ensures b[i] == t[i]
  {
    Pow2Values();
    forall k | 0 <= k < 8
      ensures Bit(b[i], k) == Bit(t[i], k)
    {
      ByteAddress(i, k);
      assert BitAt(b, 8 * i + k) == BitAt(t, 8 * i + k);
    }
    SameBits(b[i], t[i], 8);
  }

  lemma AgreeSlice(b: seq<byte>, t: seq<byte>, from: nat, to: nat, lo: nat, hi: nat)
    requires Agree(b, t, from, to) && lo <= hi && from <= 8 * lo && 8 * hi <= to
    ensures b[lo..hi] == t[lo..hi]
  {
    forall i | lo <= i < hi
      ensures b[i] == t[i]
    {
      AgreeBytes(b, t, from, to, i);
    }
  }

  lemma AgreeTransitive(a: seq<byte>, b: seq<byte>, c: seq<byte>, from: nat, p: nat, q: nat)
    requires Agree(a, b, 0, p) && Agree(b, c, from, q) && p <= q
    ensures Agree(a, c, from, p)
  {
  }

  // ----- little-endian numbers, as memcpy of an arithmetic value stores them

  function EncodeLE(v: nat, n: nat): (r: seq<byte>)
    ensures |r| == n
    decreases n
  {
    if n == 0 then [] else [v % 256] + EncodeLE(v / 256, n - 1)
  }

  function DecodeLE(b: seq<byte>): nat {
    if b == [] then 0 else b[0] + 256 * DecodeLE(b[1..])
  }

  function Pow256(n: nat): (r: nat)
    ensures r >= 1
  {
    if n == 0 then 1 else 256 * Pow256(n - 1)
  }

  lemma {:induction false} DecodeEncodeLE(v: nat, n: nat)
    requires v < Pow256(n)
    ensures DecodeLE(EncodeLE(v, n)) == v
    decreases n
  {
    if n == 0 {
    } else {
      DecodeEncodeLE(v / 256, n - 1);
      assert EncodeLE(v, n)[1..] == EncodeLE(v / 256, n - 1);
    }
  }
}
