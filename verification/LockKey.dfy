/** The diagnostic 32-bit key of a tenant: FNV-1a over the bytes of its name, read as a signed number.
    Numbers are unbounded, as in the source; the mask after each multiplication is a remainder. */
module LockKey {
  const OFFSET_BASIS: nat := 0x811C9DC5
  const PRIME: nat := 0x01000193
  const TWO_TO_THE_31: int := 0x8000_0000
  const TWO_TO_THE_32: int := 0x1_0000_0000

  // PRIME is odd, hence has an inverse modulo 2^32: PRIME * PRIME_INVERSE == WRAPS * 2^32 + 1.
  const PRIME_INVERSE: int := 0x359C449B
  const WRAPS: int := 3513497

  type Byte = b: nat | b < 256

  /** Exclusive or, bit by bit. */
  function Xor(a: nat, b: nat): nat
    decreases a + b
  {
    if a == 0 && b == 0 then 0 else 2 * Xor(a / 2, b / 2) + (a + b) % 2
  }

  function Mix(hashed: nat, byte: Byte): nat {
    Xor(hashed, byte) * PRIME % TWO_TO_THE_32
  }

  function Hash(bytes: seq<Byte>, from: nat): nat {
    if bytes == [] then from
    else Mix(Hash(bytes[..|bytes| - 1], from), bytes[|bytes| - 1])
  }

  function Signed(hashed: nat): int {
    if hashed >= TWO_TO_THE_31 then hashed - TWO_TO_THE_32 else hashed
  }

  method LockKeyFor(bytes: seq<Byte>) returns (key: int)
    ensures key == Signed(Hash(bytes, OFFSET_BASIS))
    ensures -TWO_TO_THE_31 <= key < TWO_TO_THE_31
  {
    var hashed := OFFSET_BASIS;
    for i := 0 to |bytes|
      invariant hashed == Hash(bytes[..i], OFFSET_BASIS) && hashed < TWO_TO_THE_32
    {
      assert bytes[..i + 1][..i] == bytes[..i];
      hashed := Xor(hashed, bytes[i]);
      hashed := hashed * PRIME % TWO_TO_THE_32;
    }
    assert bytes[..|bytes|] == bytes;
    key := if hashed >= TWO_TO_THE_31 then hashed - TWO_TO_THE_32 else hashed;
  }

  /** The published hashes of the empty text and of "a". */
  lemma KnownHashes()
    ensures Hash([], OFFSET_BASIS) == 0x811C9DC5
    ensures Hash([0x61], OFFSET_BASIS) == 0xE40C292C
  {
    hide Hash, Xor, Mix;
    HashOfOne(0x61, OFFSET_BASIS);
    BasisWithA();
    MixIs(OFFSET_BASIS, 0x61, 0x811C9DA4);
  }

  lemma HashOfOne(byte: Byte, from: nat)
    ensures Hash([], from) == from && Hash([byte], from) == Mix(from, byte)
  {
    assert [byte][..0] == [];
    hide Mix;
  }

  lemma MixIs(hashed: nat, byte: Byte, mixed: nat)
    requires Xor(hashed, byte) == mixed
    ensures Mix(hashed, byte) == mixed * PRIME % TWO_TO_THE_32
  {
    hide Xor;
  }

  lemma BasisWithA()
    ensures Xor(0x811C9DC5, 0x61) == 0x811C9DA4
  {
    hide Xor;
    XorByHalves(2166136261, 97);
    XorByHalves(1083068130, 48);
    XorByHalves(541534065, 24);
    XorByHalves(270767032, 12);
    XorByHalves(135383516, 6);
    XorByHalves(67691758, 3);
    XorByHalves(33845879, 1);
    XorZero(16922939);
  }

  lemma {:induction false} XorZero(a: nat)
    ensures Xor(a, 0) == a
  {
    if a > 0 { XorZero(a / 2); }
  }

  lemma XorByHalves(a: nat, b: nat)
    ensures Xor(a, b) == 2 * Xor(a / 2, b / 2) + (a + b) % 2
  {}

  lemma LowBitTwice(a: nat, b: nat, halves: nat)
    ensures var r := 2 * halves + (a + b) % 2; r / 2 == halves && (r + b) % 2 == a % 2
  {}

  lemma {:induction false} XorTwice(a: nat, b: nat)
    ensures Xor(Xor(a, b), b) == a
    decreases a + b
  {
    if a != 0 || b != 0 {
      hide Xor;
      XorTwice(a / 2, b / 2);
      XorByHalves(a, b);
      XorByHalves(Xor(a, b), b);
      LowBitTwice(a, b, Xor(a / 2, b / 2));
    }
  }

  lemma {:induction false} XorCommutes(a: nat, b: nat)
    ensures Xor(a, b) == Xor(b, a)
    decreases a + b
  {
    if a != 0 || b != 0 {
      XorCommutes(a / 2, b / 2);
    }
  }

  lemma {:induction false} XorStaysBelow(a: nat, b: nat, bits: nat)
    requires a < Power(bits) && b < Power(bits)
    ensures Xor(a, b) < Power(bits)
    decreases bits
  {
    if bits > 0 {
      XorStaysBelow(a / 2, b / 2, bits - 1);
    }
  }

  function Power(bits: nat): nat {
    if bits == 0 then 1 else 2 * Power(bits - 1)
  }

  lemma EightMoreBits(bits: nat)
    ensures Power(bits + 8) == 256 * Power(bits)
  {
    assert Power(bits + 2) == 4 * Power(bits);
    assert Power(bits + 4) == 4 * Power(bits + 2);
    assert Power(bits + 6) == 4 * Power(bits + 4);
    assert Power(bits + 8) == 4 * Power(bits + 6);
  }

  lemma WordBound(a: nat, byte: Byte)
    requires a < TWO_TO_THE_32
    ensures Xor(a, byte) < TWO_TO_THE_32
  {
    EightMoreBits(0);
    EightMoreBits(8);
    EightMoreBits(16);
    EightMoreBits(24);
    XorStaysBelow(a, byte, 32);
  }

  /** Multiplying by an odd number is injective modulo 2^32. */
  lemma TimesPrimeInjective(x: nat, y: nat)
    requires x < TWO_TO_THE_32 && y < TWO_TO_THE_32
    requires x * PRIME % TWO_TO_THE_32 == y * PRIME % TWO_TO_THE_32
    ensures x == y
  {
    var j := x * PRIME / TWO_TO_THE_32 - y * PRIME / TWO_TO_THE_32;
    Cancel(x - y, j);
  }

  lemma Cancel(d: int, j: int)
    requires -TWO_TO_THE_32 < d < TWO_TO_THE_32 && d * PRIME == j * TWO_TO_THE_32
    ensures d == 0
  {
    assert PRIME * PRIME_INVERSE == WRAPS * TWO_TO_THE_32 + 1;
    calc {
      d;
      d * PRIME * PRIME_INVERSE - d * WRAPS * TWO_TO_THE_32;
      (j * PRIME_INVERSE - d * WRAPS) * TWO_TO_THE_32;
    }
  }

  /** With the byte fixed a step is injective in the state, and with the state fixed in the byte. */
  lemma MixInjective(g: nat, h: nat, a: Byte, b: Byte)
    requires g < TWO_TO_THE_32 && h < TWO_TO_THE_32
    requires g == h || a == b
    requires Mix(g, a) == Mix(h, b)
    ensures g == h && a == b
  {
    WordBound(g, a);
    WordBound(h, b);
    TimesPrimeInjective(Xor(g, a), Xor(h, b));
    XorTwice(g, a);
    XorTwice(h, b);
    XorTwice(a, g);
    XorTwice(b, h);
    XorCommutes(a, g);
    XorCommutes(b, h);
  }

  lemma {:induction false} HashIsWord(bytes: seq<Byte>, from: nat)
    requires from < TWO_TO_THE_32
    ensures Hash(bytes, from) < TWO_TO_THE_32
  {
    if bytes != [] {
      HashIsWord(bytes[..|bytes| - 1], from);
    }
  }

  /** Equally long keys that differ in exactly one byte never collide. */
  lemma {:induction false} OneByteApart(k: seq<Byte>, l: seq<Byte>, at: nat)
    requires |k| == |l| && at < |k| && k[at] != l[at]
    requires forall i :: 0 <= i < |k| && i != at ==> k[i] == l[i]
    ensures Hash(k, OFFSET_BASIS) != Hash(l, OFFSET_BASIS)
  {
    var n := |k| - 1;
    HashIsWord(k[..n], OFFSET_BASIS);
    HashIsWord(l[..n], OFFSET_BASIS);
    if at == n {
      assert k[..n] == l[..n];
    } else {
      OneByteApart(k[..n], l[..n], at);
    }
    if Hash(k, OFFSET_BASIS) == Hash(l, OFFSET_BASIS) {
      MixInjective(Hash(k[..n], OFFSET_BASIS), Hash(l[..n], OFFSET_BASIS), k[n], l[n]);
      assert false;
    }
  }

  /** So their signed keys differ as well. */
  lemma OneByteApartSigned(k: seq<Byte>, l: seq<Byte>, at: nat)
    requires |k| == |l| && at < |k| && k[at] != l[at]
    requires forall i :: 0 <= i < |k| && i != at ==> k[i] == l[i]
    ensures Signed(Hash(k, OFFSET_BASIS)) != Signed(Hash(l, OFFSET_BASIS))
  {
    OneByteApart(k, l, at);
    HashIsWord(k, OFFSET_BASIS);
    HashIsWord(l, OFFSET_BASIS);
  }
}
