/** The grease bytes of a hello: random values of the form that RFC 8701 reserves, no two neighbours of a pair alike. */
module TlsGrease {
  import opened Bytes

  /** The low half of each byte is 0x0A, and the bytes at 2k and 2k + 1 differ. */
  predicate IsGrease(g: seq<byte>) {
    && (forall i :: 0 <= i < |g| ==> g[i] % 16 == 10)
    && (forall i :: 0 < i < |g| && i % 2 == 1 ==> g[i] != g[i - 1])
  }

  function Masked(c: byte): byte {
    c / 16 * 16 + 10
  }

  lemma {:induction false} XorZero(a: nat, width: nat)
    requires a < Pow2(width)
    ensures XorBits(a, 0, width) == a
  {
    if width > 0 {
      XorZero(a / 2, width - 1);
    }
  }

  /** c ^ 0x10 moves to the other neighbour in the high half. */
  lemma XorSixteen(c: byte)
    ensures Xor(c, 0x10) == if c / 16 % 2 == 0 then c + 16 else c - 16
  {
    var h := c / 16;
    assert h / 2 < Pow2(3) by { assert Pow2(3) == 2 * Pow2(2) && Pow2(2) == 2 * Pow2(1); }
    XorZero(h / 2, 3);
    assert XorBits(h, 1, 4) == (h + 1) % 2 + 2 * (h / 2);
    LowHalf(c, 4);
    hide XorBits;
    assert Xor(c, 0x10) == c % 16 + 16 * XorBits(h, 1, 4);
    NextHalf(c);
  }

  lemma NextHalf(c: byte)
    ensures var h := c / 16;
            c % 16 + 16 * ((h + 1) % 2 + 2 * (h / 2)) == if h % 2 == 0 then c + 16 else c - 16
  {
    var h := c / 16;
    assert c == 16 * h + c % 16 && h == 2 * (h / 2) + h % 2;
  }

  /** Four bits that are left alone, and the rest */
  lemma LowHalf(c: byte, width: nat)
    ensures XorBits(c, 0x10, width + 4) == c % 16 + 16 * XorBits(c / 16, 1, width)
  {
    OneBit(c, 8, width + 3);
    OneBit(c / 2, 4, width + 2);
    OneBit(c / 4, 2, width + 1);
    OneBit(c / 8, 1, width);
    assert c / 2 / 2 == c / 4 && c / 4 / 2 == c / 8 && c / 8 / 2 == c / 16;
  }

  lemma OneBit(a: nat, b: nat, width: nat)
    ensures XorBits(a, 2 * b, width + 1) == a % 2 + 2 * XorBits(a / 2, b, width)
  {
    assert 2 * b / 2 == b && (a + 2 * b) % 2 == a % 2;
  }

  /** Byte i of the grease made from these random bytes */
  function Greased(random: seq<byte>, i: nat): byte
    requires i < |random|
  {
    var c := Masked(random[i]);
    if i % 2 == 1 && c == Masked(random[i - 1]) then Xor(c, 0x10) else c
  }

  lemma GreasedIsGrease(random: seq<byte>, g: seq<byte>)
    requires |g| == |random| && forall i :: 0 <= i < |g| ==> g[i] == Greased(random, i)
    ensures IsGrease(g)
    ensures forall i :: 0 <= i < |g| ==> KeepsRandom(random, g, i)
  {
    hide Greased;
    forall i | 0 <= i < |g|
      ensures KeepsRandom(random, g, i)
    {
      GreasedKeepsRandom(random, g, i);
    }
    forall i | 0 <= i < |g|
      ensures g[i] % 16 == 10 && (i % 2 == 1 ==> g[i] != g[i - 1])
    {
      GreasedAt(random, i);
    }
  }

  lemma GreasedAt(random: seq<byte>, i: nat)
    requires i < |random|
    ensures Greased(random, i) % 16 == 10
    ensures i % 2 == 1 ==> Greased(random, i) != Greased(random, i - 1)
  {
    hide Xor, Masked;
    MaskedSteps(random[i]);
    if i % 2 == 1 {
      assert Greased(random, i - 1) == Masked(random[i - 1]);
    }
  }

  /** The high half of a byte is random; it changes, in its lowest bit only, where a pair would be alike. */
  predicate KeepsRandom(random: seq<byte>, g: seq<byte>, i: nat)
    requires |random| == |g| && i < |g|
  {
    var high := random[i] / 16;
    g[i] / 16 == if i % 2 == 0 || high != random[i - 1] / 16 then high
                 else if high % 2 == 0 then high + 1 else high - 1
  }

  lemma GreasedKeepsRandom(random: seq<byte>, g: seq<byte>, i: nat)
    requires |random| == |g| && i < |g| && g[i] == Greased(random, i)
    ensures KeepsRandom(random, g, i)
  {
    hide Xor;
    var high := random[i] / 16;
    XorSixteen(Masked(random[i]));
    assert Masked(random[i]) == 16 * high + 10;
    if i % 2 == 1 {
      assert Masked(random[i - 1]) == 16 * (random[i - 1] / 16) + 10;
    }
  }

  lemma MaskedSteps(c: byte)
    ensures Masked(c) % 16 == 10 && Xor(Masked(c), 0x10) % 16 == 10 && Xor(Masked(c), 0x10) != Masked(c)
  {
    hide Xor;
    XorSixteen(Masked(c));
    MaskedLow(c);
  }

  lemma MaskedLow(c: byte)
    ensures var m := Masked(c); m % 16 == 10 && (m + 16) % 16 == 10 && (m >= 16 ==> (m - 16) % 16 == 10)
  {
  }

  /** Grease::init; `random` is what the random source yields. */
  method Init(res: array<byte>, random: seq<byte>)
    requires |random| == res.Length
    modifies res
    ensures IsGrease(res[..])
    ensures forall i :: 0 <= i < res.Length ==> KeepsRandom(random, res[..], i)
    ensures forall i :: 0 <= i < res.Length ==> res[i] == Greased(random, i)
  {
    hide Xor, IsGrease, Masked, KeepsRandom;
    for i := 0 to res.Length
      invariant forall k :: 0 <= k < i ==> res[k] == Masked(random[k])
    {
      res[i] := Masked(random[i]);
    }
    var i := 1;
    while i < res.Length
      invariant i % 2 == 1 && i <= res.Length + 1
      invariant forall k :: 0 <= k < res.Length ==> res[k] == if k < i then Greased(random, k) else Masked(random[k])
    {
      if res[i] == res[i - 1] {
        res[i] := Xor(res[i], 0x10);
      }
      i := i + 2;
    }
    GreasedIsGrease(random, res[..]);
  }
}
