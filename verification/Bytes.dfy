/** Bytes and big-endian 32-bit lengths. */
module Bytes {
  type byte = b: int | 0 <= b < 256

  const TWO_32 := 0x1_0000_0000

  function ToBE32(n: nat): (b: seq<byte>)
    requires n < TWO_32
    ensures |b| == 4
  {
    [n / 0x100_0000, n / 0x1_0000 % 0x100, n / 0x100 % 0x100, n % 0x100]
  }

  function FromBE32(b: seq<byte>): (n: nat)
    requires |b| == 4
    ensures n < TWO_32
  {
    b[0] as int * 0x100_0000 + b[1] as int * 0x1_0000 + b[2] as int * 0x100 + b[3] as int
  }

  lemma BE32RoundTrip(n: nat)
    requires n < TWO_32
    ensures FromBE32(ToBE32(n)) == n
  {
    var q := n / 0x100;
    assert n == q * 0x100 + n % 0x100;
    assert n / 0x1_0000 == q / 0x100 && n / 0x100_0000 == q / 0x100 / 0x100;
  }

  lemma DivMod(high: nat, low: byte)
    ensures (high * 256 + low) / 256 == high && (high * 256 + low) % 256 == low
  {}

  /** The bytes run from the most significant to the least. */
  lemma BigEndian(b: seq<byte>)
    requires |b| == 4
    ensures FromBE32(b) == ((b[0] as int * 256 + b[1] as int) * 256 + b[2] as int) * 256 + b[3] as int
    ensures ToBE32(FromBE32(b)) == b
  {
    var high := b[0] as int * 256 + b[1] as int;
    var n := (high * 256 + b[2] as int) * 256 + b[3] as int;
    DivMod(b[0] as int, b[1]);
    DivMod(high, b[2]);
    DivMod(high * 256 + b[2] as int, b[3]);
    assert n / 0x100 == high * 256 + b[2] as int;
    assert n / 0x1_0000 == n / 0x100 / 0x100 && n / 0x100_0000 == n / 0x100 / 0x100 / 0x100;
  }

  function Pow2(n: nat): (p: nat)
    ensures p > 0
  {
    if n == 0 then 1 else 2 * Pow2(n - 1)
  }

  /** Exclusive or of the lowest n bits. */
  function Xor(n: nat, a: nat, b: nat): (r: nat)
    ensures r < Pow2(n)
  {
    if n == 0 then 0 else (if a % 2 == b % 2 then 0 else 1) + 2 * Xor(n - 1, a / 2, b / 2)
  }

  /** Bit i, counted from the lowest. */
  function Bit(i: nat, a: nat): nat {
    if i == 0 then a % 2 else Bit(i - 1, a / 2)
  }

  /** A bit of the exclusive or is set exactly when the two bits differ. */
  lemma {:induction false} XorBits(n: nat, a: nat, b: nat, i: nat)
    requires i < n
    ensures Bit(i, Xor(n, a, b)) == if Bit(i, a) != Bit(i, b) then 1 else 0
  {
    LowBit(if a % 2 == b % 2 then 0 else 1, Xor(n - 1, a / 2, b / 2));
    if i == 0 {
    } else {
      XorBits(n - 1, a / 2, b / 2, i - 1);
    }
  }

  lemma LowBit(bit: nat, high: nat)
    requires bit < 2
    ensures (bit + 2 * high) % 2 == bit && (bit + 2 * high) / 2 == high
  {}

  lemma {:induction false} XorTwice(n: nat, a: nat, b: nat)
    requires a < Pow2(n)
    ensures Xor(n, Xor(n, a, b), b) == a
  {
    if n == 0 {
    } else {
      XorTwice(n - 1, a / 2, b / 2);
      LowBit(if a % 2 == b % 2 then 0 else 1, Xor(n - 1, a / 2, b / 2));
    }
  }

  lemma ByteAndWordSizes()
    ensures Pow2(8) == 256 && Pow2(16) == 0x1_0000
  {
    assert Pow2(4) == 16;
    assert Pow2(8) == 256;
    assert Pow2(12) == 4096;
  }
}
