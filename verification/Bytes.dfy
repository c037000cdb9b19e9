/** Bytes, little-endian and big-endian numbers, and single bits of words. */
module Bytes {

  type byte = n: nat | n < 256

  function Pow2(k: nat): (p: nat)
    ensures p > 0
  {
    if k == 0 then 1 else 2 * Pow2(k - 1)
  }

  function Pow256(width: nat): nat {
    if width == 0 then 1 else 256 * Pow256(width - 1)
  }

  /** The `width` low-order bytes of n, least significant first */
  function LittleEndian(n: nat, width: nat): (s: seq<byte>)
    ensures |s| == width
  {
    if width == 0 then [] else [n % 256] + LittleEndian(n / 256, width - 1)
  }

  function FromLittleEndian(s: seq<byte>): nat {
    if s == [] then 0 else s[0] + 256 * FromLittleEndian(s[1..])
  }

  lemma {:induction false} LittleEndianRoundTrip(n: nat, width: nat)
    requires n < Pow256(width)
    ensures FromLittleEndian(LittleEndian(n, width)) == n
  {
    if width > 0 {
      LittleEndianRoundTrip(n / 256, width - 1);
      assert LittleEndian(n, width)[1..] == LittleEndian(n / 256, width - 1);
    }
  }

  /** 32 bits, least significant byte first */
  function Word(n: nat): (s: seq<byte>)
    ensures |s| == 4
  {
    [n % 256, n / 256 % 256, n / 0x1_0000 % 256, n / 0x100_0000 % 256]
  }

  lemma WordIsLittleEndian(n: nat)
    ensures LittleEndian(n, 4) == Word(n)
  {
    var a := n / 256;
    var b := a / 256;
    assert a == n / 256 && b == n / 0x1_0000 && b / 256 == n / 0x100_0000;
    assert LittleEndian(b / 256, 1) == [b / 256 % 256] + LittleEndian(b / 256 / 256, 0);
    assert LittleEndian(b, 2) == [b % 256] + LittleEndian(b / 256, 1);
    assert LittleEndian(a, 3) == [a % 256] + LittleEndian(b, 2);
  }

  lemma EightBytes(n: nat)
    ensures LittleEndian(n, 8) == Word(n) + Word(n / 0x1_0000_0000)
  {
    var a := n / 256;
    var b := a / 256;
    var c := b / 256;
    assert b == n / 0x1_0000 && c == n / 0x100_0000 && c / 256 == n / 0x1_0000_0000;
    WordIsLittleEndian(c / 256);
    assert LittleEndian(c, 5) == [c % 256] + LittleEndian(c / 256, 4);
    assert LittleEndian(b, 6) == [b % 256] + LittleEndian(c, 5);
    assert LittleEndian(a, 7) == [a % 256] + LittleEndian(b, 6);
  }

  /** The last byte is the most significant one. */
  lemma {:induction false} LastByteIsHighest(s: seq<byte>, b: byte)
    ensures FromLittleEndian(s + [b]) == FromLittleEndian(s) + b * Pow256(|s|)
  {
    if s == [] {
      assert [] + [b] == [b] && [b][1..] == [];
    } else {
      assert (s + [b])[1..] == s[1..] + [b];
      LastByteIsHighest(s[1..], b);
      assert 256 * (b * Pow256(|s| - 1)) == b * (256 * Pow256(|s| - 1));
    }
  }

  lemma Pow2Nibble(k: nat)
    ensures Pow2(k + 4) == 16 * Pow2(k)
  {
    assert Pow2(k + 1) == 2 * Pow2(k);
    assert Pow2(k + 2) == 2 * Pow2(k + 1);
    assert Pow2(k + 3) == 2 * Pow2(k + 2);
    assert Pow2(k + 4) == 2 * Pow2(k + 3);
  }

  lemma Pow2At31()
    ensures Pow2(31) == 0x8000_0000 && Pow2(32) == 0x1_0000_0000
  {
    Pow2Nibble(3);
    Pow2Nibble(7);
    Pow2Nibble(11);
    Pow2Nibble(15);
    Pow2Nibble(19);
    Pow2Nibble(23);
    Pow2Nibble(27);
    assert Pow2(2) == 2 * Pow2(1);
  }

  /** The conversion to a signed 32-bit number */
  function ToInt32(n: nat): int {
    var low := n % 0x1_0000_0000;
    if low < 0x8000_0000 then low else low - 0x1_0000_0000
  }

  /** It is the number between -2^31 and 2^31 - 1 that differs from n by a multiple of 2^32. */
  lemma ToInt32Is(n: nat)
    ensures -0x8000_0000 <= ToInt32(n) < 0x8000_0000 && (n - ToInt32(n)) % 0x1_0000_0000 == 0
  {
    assert n == n / 0x1_0000_0000 * 0x1_0000_0000 + n % 0x1_0000_0000;
  }

  function Zeros(n: nat): seq<byte> {
    seq(n, _ => 0)
  }

  function BigEndian16(n: nat): seq<byte>
    requires n < 0x1_0000
  {
    [n / 256, n % 256]
  }

  function Concat(parts: seq<seq<byte>>): seq<byte> {
    if parts == [] then [] else parts[0] + Concat(parts[1..])
  }

  /** Exclusive or of the `width` low-order bits */
  function XorBits(a: nat, b: nat, width: nat): (x: nat)
    ensures x < Pow2(width)
  {
    if width == 0 then 0 else (a + b) % 2 + 2 * XorBits(a / 2, b / 2, width - 1)
  }

  function Xor(a: byte, b: byte): byte {
    assert Pow2(8) == 256 by { Pow2Nibble(0); Pow2Nibble(4); }
    XorBits(a, b, 8)
  }

  lemma {:induction false} XorBitsTwice(a: nat, b: nat, width: nat)
    requires a < Pow2(width)
    ensures XorBits(XorBits(a, b, width), b, width) == a
  {
    if width > 0 {
      var x, half := XorBits(a, b, width), XorBits(a / 2, b / 2, width - 1);
      Halves((a + b) % 2, half);
      LowBit(x, a, b);
      XorBitsTwice(a / 2, b / 2, width - 1);
    }
  }

  lemma {:induction false} XorBitsCommute(a: nat, b: nat, width: nat)
    ensures XorBits(a, b, width) == XorBits(b, a, width)
  {
    if width > 0 {
      XorBitsCommute(a / 2, b / 2, width - 1);
    }
  }

  lemma Halves(low: nat, half: nat)
    requires low < 2
    ensures (low + 2 * half) / 2 == half && (low + 2 * half) % 2 == low
  {
  }

  lemma LowBit(x: nat, a: nat, b: nat)
    requires x % 2 == (a + b) % 2
    ensures (x + b) % 2 == a % 2
  {
  }

  lemma XorTwice(a: byte, b: byte)
    ensures Xor(Xor(a, b), b) == a
  {
    assert Pow2(8) == 256 by { Pow2Nibble(0); Pow2Nibble(4); }
    XorBitsTwice(a, b, 8);
  }

  // ---------- Single bits of a word, shifting one position at a time

  /** n & (1 << k) != 0 */
  predicate Bit(n: nat, k: nat) {
    if k == 0 then n % 2 == 1 else Bit(n / 2, k - 1)
  }

  /** 1 << j has bit j and no other. */
  lemma {:induction false} BitsOfPower(j: nat, k: nat)
    ensures Bit(Pow2(j), k) <==> j == k
  {
    if j > 0 && k > 0 {
      BitsOfPower(j - 1, k - 1);
    } else if k > 0 {
      NoBits(k - 1);
    }
  }

  lemma {:induction false} NoBits(k: nat)
    ensures !Bit(0, k)
  {
    if k > 0 {
      NoBits(k - 1);
    }
  }

  /** A bit of an exclusive or is on exactly if it is on in one of the two numbers. */
  lemma {:induction false} XorBitsAt(a: nat, b: nat, width: nat, k: nat)
    requires k < width
    ensures Bit(XorBits(a, b, width), k) <==> Bit(a, k) != Bit(b, k)
  {
    XorBitsParts(a, b, width);
    if k > 0 {
      XorBitsAt(a / 2, b / 2, width - 1, k - 1);
    }
  }

  lemma XorBitsParts(a: nat, b: nat, width: nat)
    requires width > 0
    ensures var x := XorBits(a, b, width);
            x / 2 == XorBits(a / 2, b / 2, width - 1) && (x % 2 == 1 <==> a % 2 != b % 2)
  {
    var half := XorBits(a / 2, b / 2, width - 1);
    Halves((a + b) % 2, half);
    OddSum(a, b);
  }

  lemma OddSum(a: nat, b: nat)
    ensures (a + b) % 2 == 1 <==> a % 2 != b % 2
  {
  }

  /** n | (b << k) */
  function OrBit(n: nat, k: nat, b: bool): nat {
    if k == 0 then
      if b && n % 2 == 0 then n + 1 else n
    else
      2 * OrBit(n / 2, k - 1, b) + n % 2
  }

  /** Or-ing turns the bit on if asked, and only grows the number. */
  lemma {:induction false} OrBitTurnsOn(n: nat, k: nat, b: bool)
    ensures OrBit(n, k, b) >= n
    ensures Bit(OrBit(n, k, b), k) == (Bit(n, k) || b)
    ensures !b || Bit(n, k) ==> OrBit(n, k, b) == n
  {
    if k > 0 {
      var upper := OrBit(n / 2, k - 1, b);
      OrBitTurnsOn(n / 2, k - 1, b);
      Halves(n % 2, upper);
    }
  }

  /** It adds 1 << k unless that bit was on. */
  lemma {:induction false} OrBitAdds(n: nat, k: nat, b: bool)
    ensures OrBit(n, k, b) == if b && !Bit(n, k) then n + Pow2(k) else n
  {
    if k > 0 {
      OrBitAdds(n / 2, k - 1, b);
    }
  }

  /** A bit below w keeps the number below 2^w. */
  lemma {:induction false} OrBitBounded(n: nat, k: nat, b: bool, w: nat)
    requires k < w && n < Pow2(w)
    ensures OrBit(n, k, b) < Pow2(w)
  {
    BelowTwice(n, Pow2(w - 1));
    if k > 0 {
      OrBitBounded(n / 2, k - 1, b, w - 1);
      PutBack(n % 2, OrBit(n / 2, k - 1, b), Pow2(w - 1));
    }
  }

  lemma BelowTwice(n: nat, p: nat)
    requires n < 2 * p
    ensures n / 2 < p && (n % 2 == 0 ==> n + 1 < 2 * p)
  {
  }

  lemma PutBack(low: nat, upper: nat, p: nat)
    requires low < 2 && upper < p
    ensures 2 * upper + low < 2 * p
  {
  }

  /** Or-ing bit k in changes no other bit. */
  lemma {:induction false} OrBitOther(n: nat, k: nat, b: bool, j: nat)
    requires j != k
    ensures Bit(OrBit(n, k, b), j) == Bit(n, j)
    decreases k
  {
    if k > 0 {
      var upper := OrBit(n / 2, k - 1, b);
      assert (2 * upper + n % 2) / 2 == upper && (2 * upper + n % 2) % 2 == n % 2;
      if j > 0 {
        OrBitOther(n / 2, k - 1, b, j - 1);
      }
    } else {
      assert (if b && n % 2 == 0 then n + 1 else n) / 2 == n / 2;
    }
  }
}
