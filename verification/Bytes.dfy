/** Bytes, big-endian integers and the small wrappers shared by every other module. */
module Bytes {

  type byte = x: int | 0 <= x < 256

  datatype Option<+T> = None | Some(value: T)

  /** Concatenation of a list of byte strings, in order. */
  function Concat(parts: seq<seq<byte>>): (s: seq<byte>)
  {
    if parts == [] then [] else Concat(parts[..|parts| - 1]) + parts[|parts| - 1]
  }

  lemma ConcatSnoc(parts: seq<seq<byte>>, last: seq<byte>)
    ensures Concat(parts + [last]) == Concat(parts) + last
  {
    assert (parts + [last])[..|parts|] == parts;
  }

  function Be16(n: nat): (b: seq<byte>)
    requires n < 0x1_0000
    ensures |b| == 2 && FromBe16(b) == n
  {
    [n / 256, n % 256]
  }

  function FromBe16(b: seq<byte>): (n: nat)
    requires |b| == 2
    ensures n < 0x1_0000
  {
    var hi: int, lo: int := b[0], b[1];
    hi * 256 + lo
  }

  /** Reading two big-endian bytes and writing them back gives the same bytes. */
  lemma Be16OfFromBe16(b: seq<byte>)
    requires |b| == 2
    ensures Be16(FromBe16(b)) == b
  {
  }

  /** Exclusive or of the lowest `width` bits. */
  function XorBits(width: nat, a: nat, b: nat): (c: nat)
  {
    if width == 0 then 0
    else (if a % 2 == b % 2 then 0 else 1) + 2 * XorBits(width - 1, a / 2, b / 2)
  }

  function Pow2(n: nat): (p: nat)
    ensures p >= 1
  {
    if n == 0 then 1 else 2 * Pow2(n - 1)
  }

  lemma {:induction false} XorBitsLaws(width: nat, a: nat, b: nat)
    ensures XorBits(width, a, b) < Pow2(width)
    ensures a < Pow2(width) ==> XorBits(width, XorBits(width, a, b), b) == a
  {
    if width > 0 {
      XorBitsLaws(width - 1, a / 2, b / 2);
      var rest := XorBits(width - 1, a / 2, b / 2);
      var c := (if a % 2 == b % 2 then 0 else 1) + 2 * rest;
      assert c / 2 == rest;
      assert a < Pow2(width) ==> a / 2 < Pow2(width - 1);
    }
  }

  function Xor(a: byte, b: byte): (c: byte)
  {
    XorBitsLaws(8, a, b);
    assert Pow2(8) == 2 * (2 * (2 * (2 * (2 * (2 * (2 * (2 * Pow2(0))))))));
    XorBits(8, a, b)
  }

  function Bit(a: nat, k: nat): (b: nat)
  {
    a / Pow2(k) % 2
  }

  lemma BitOfHalf(a: nat, k: nat)
    ensures Bit(a, 0) == a % 2 && Bit(a, k + 1) == Bit(a / 2, k)
  {
    HalveTwice(a, Pow2(k));
  }

  /** Bit `k` of the result is set exactly when the operands differ in it. */
  lemma {:induction false} XorBitsBit(width: nat, a: nat, b: nat, k: nat)
    requires k < width
    ensures Bit(XorBits(width, a, b), k) == if Bit(a, k) == Bit(b, k) then 0 else 1
  {
    hide Bit, Pow2;
    var c, j := XorBits(width, a, b), if k > 0 then k - 1 else 0;
    assert c / 2 == XorBits(width - 1, a / 2, b / 2) && c % 2 == if a % 2 == b % 2 then 0 else 1;
    BitOfHalf(a, j);
    BitOfHalf(b, j);
    BitOfHalf(c, j);
    if k > 0 {
      XorBitsBit(width - 1, a / 2, b / 2, k - 1);
    }
  }

  lemma HalveTwice(a: nat, p: nat)
    requires p >= 1
    ensures a / 2 / p == a / (2 * p)
  {
    var h, q := a / 2, a / 2 / p;
    assert h == p * q + h % p;
    assert a == (2 * p) * q + (2 * (h % p) + a % 2) by {
      assert 2 * (p * q) == (2 * p) * q;
    }
    Quotient(a, 2 * p, q, 2 * (h % p) + a % 2);
  }

  lemma Quotient(a: int, b: int, q: int, r: int)
    requires 0 <= r < b && a == b * q + r
    ensures a / b == q
  {
    var d := a / b - q;
    assert b * d == r - a % b by {
      assert a == b * (a / b) + a % b;
      assert b * d == b * (a / b) - b * q;
    }
    assert d >= 1 ==> b * d >= b;
    assert d <= -1 ==> b * d <= -b;
  }

  lemma XorBit(a: byte, b: byte, k: nat)
    requires k < 8
    ensures Xor(a, b) / Pow2(k) % 2 == (if a / Pow2(k) % 2 == b / Pow2(k) % 2 then 0 else 1)
  {
    XorBitsBit(8, a, b, k);
  }

  /** Masking twice with the same byte gives the byte back. */
  lemma XorInvolutive(a: byte, b: byte)
    ensures Xor(Xor(a, b), b) == a
  {
    XorBitsLaws(8, a, b);
    assert Pow2(8) == 2 * (2 * (2 * (2 * (2 * (2 * (2 * (2 * Pow2(0))))))));
  }
}
