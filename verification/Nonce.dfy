/** The counting nonce of the AEAD ciphers (src/crypto/aead.rs, src/crypto/ring.rs). */
module Nonce {
  import opened Bytes

  function Pow256(n: nat): (p: nat)
    ensures p >= 1
  {
    if n == 0 then 1 else 256 * Pow256(n - 1)
  }

  /** Little-endian value of a byte string. */
  function Value(s: seq<byte>): (v: nat)
  {
    if s == [] then 0 else s[0] + 256 * Value(s[1..])
  }

  /** The nonce of `n` bytes that a cipher holds after `k` operations. */
  function NonceAt(n: nat, k: nat): (s: seq<byte>)
    ensures |s| == n
  {
    if n == 0 then [] else [k % 256] + NonceAt(n - 1, k / 256)
  }

  /** One increment with carry; an all-ones nonce wraps to zero. */
  function Successor(s: seq<byte>): (t: seq<byte>)
    ensures |t| == |s|
  {
    if s == [] then []
    else if s[0] == 255 then [0] + Successor(s[1..])
    else [s[0] + 1] + s[1..]
  }

  /** The in-place form: walks up from the lowest byte until no carry is left. */
  method IncreaseNonce(nonce: array<byte>)
    modifies nonce
    ensures nonce[..] == Successor(old(nonce[..]))
  {
    ghost var was := nonce[..];
    var i := 0;
    while i < nonce.Length
      invariant 0 <= i <= nonce.Length
      invariant forall k :: i <= k < nonce.Length ==> nonce[k] == was[k]
      invariant forall k :: 0 <= k < i ==> nonce[k] == 0 && was[k] == 255
    {
      if nonce[i] == 255 {
        nonce[i] := 0;
      } else {
        nonce[i] := nonce[i] + 1;
        CarryStops(was, i);
        return;
      }
      i := i + 1;
    }
    CarryStops(was, i);
  }

  /** What an increment does to a nonce whose lowest `i` bytes are all ones and whose next byte is not. */
  lemma {:induction false} CarryStops(s: seq<byte>, i: nat)
    requires i <= |s| && forall k :: 0 <= k < i ==> s[k] == 255
    requires i < |s| ==> s[i] != 255
    ensures forall k :: 0 <= k < i ==> Successor(s)[k] == 0
    ensures i < |s| ==> Successor(s)[i] == s[i] + 1
    ensures forall k :: i < k < |s| ==> Successor(s)[k] == s[k]
  {
    if i > 0 {
      CarryStops(s[1..], i - 1);
    }
  }

  /** Incrementing moves the counter on by one. */
  lemma {:induction false} SuccessorCounts(n: nat, k: nat)
    ensures Successor(NonceAt(n, k)) == NonceAt(n, k + 1)
  {
    if n > 0 {
      if k % 256 == 255 {
        assert (k + 1) % 256 == 0 && (k + 1) / 256 == k / 256 + 1;
        SuccessorCounts(n - 1, k / 256);
      } else {
        assert (k + 1) % 256 == k % 256 + 1 && (k + 1) / 256 == k / 256;
      }
    }
  }

  /** The all-zero nonce a fresh cipher starts from is the counter at zero. */
  lemma {:induction false} ZeroNonce(n: nat)
    ensures NonceAt(n, 0) == seq(n, _ => 0)
  {
    if n > 0 {
      ZeroNonce(n - 1);
      assert seq(n, _ => 0) == [0] + seq(n - 1, _ => 0);
    }
  }

  lemma ModTimes(k: nat, p: nat)
    requires p >= 1
    ensures k % (256 * p) == k % 256 + 256 * (k / 256 % p)
  {
    var q, r := k / 256, k % 256;
    var d, m := q / p, q % p;
    assert q == p * d + m;
    assert k == (256 * p) * d + (256 * m + r) by {
      assert k == 256 * q + r;
      assert 256 * (p * d) == (256 * p) * d;
    }
    assert 0 <= 256 * m + r < 256 * p;
    DivisionUnique(k, 256 * p, d, 256 * m + r);
  }

  lemma DivisionUnique(k: int, b: int, d: int, r: int)
    requires b > 0 && 0 <= r < b && k == b * d + r
    ensures k % b == r
  {
    var d', r' := k / b, k % b;
    MultipleBetween(b, d - d', r' - r);
  }

  /** The only multiple of `b` strictly between `-b` and `b` is zero. */
  lemma MultipleBetween(b: int, q: int, x: int)
    requires x == b * q && -b < x < b
    ensures x == 0
  {
    assert q >= 1 ==> b * q >= b;
    assert q <= -1 ==> b * q <= -b;
  }

  /** The nonce is the little-endian encoding of the counter modulo 256^n. */
  lemma {:induction false} NonceValue(n: nat, k: nat)
    ensures Value(NonceAt(n, k)) == k % Pow256(n)
  {
    if n > 0 {
      NonceValue(n - 1, k / 256);
      assert NonceAt(n, k)[1..] == NonceAt(n - 1, k / 256);
      ModTimes(k, Pow256(n - 1));
    }
  }

  lemma {:induction false} ValueInjective(s: seq<byte>, t: seq<byte>)
    requires |s| == |t| && Value(s) == Value(t)
    ensures s == t
  {
    if s != [] {
      assert s[0] == Value(s) % 256 && t[0] == Value(t) % 256;
      ValueInjective(s[1..], t[1..]);
      assert s == [s[0]] + s[1..] && t == [t[0]] + t[1..];
    }
  }

  /** So a byte string is the `k`-th nonce exactly when that is its value. */
  lemma NonceFromValue(n: nat, k: nat, nonce: seq<byte>)
    requires |nonce| == n
    ensures nonce == NonceAt(n, k) <==> Value(nonce) == k % Pow256(n)
  {
    NonceValue(n, k);
    if Value(nonce) == k % Pow256(n) {
      ValueInjective(nonce, NonceAt(n, k));
    }
  }

  /** Byte `j` of the `k`-th nonce is digit `j` of `k` in base 256, the lowest first. */
  lemma {:induction false} NonceDigits(n: nat, k: nat, j: nat)
    requires j < n
    ensures NonceAt(n, k)[j] == k / Pow256(j) % 256
  {
    if j > 0 {
      NonceDigits(n - 1, k / 256, j - 1);
      DivideTwice(k, Pow256(j - 1));
    }
  }

  lemma DivideTwice(k: nat, p: nat)
    requires p >= 1
    ensures k / 256 / p == k / (256 * p)
  {
    ModTimes(k, p);
    var q := k / 256;
    assert q == p * (q / p) + q % p;
    assert k == (256 * p) * (k / (256 * p)) + k % (256 * p);
    assert (256 * p) * (q / p) == 256 * (p * (q / p));
    var b := 256 * p;
    assert b * (q / p) == b * (k / b);
    if q / p != k / b {
      assert b * (q / p - k / b) == 0;
      assert false by {
        MultipleIsZero(b, q / p - k / b);
      }
    }
  }

  lemma MultipleIsZero(b: int, q: int)
    requires b > 0 && b * q == 0
    ensures q == 0
  {
    assert q >= 1 ==> b * q >= b;
    assert q <= -1 ==> b * q <= -b;
  }

  /** The nonces of the first operations of a session: operation `i` has the value `i`, modulo 256^n. */
  ghost predicate Counting(n: nat, nonces: seq<seq<byte>>)
  {
    forall i :: 0 <= i < |nonces| ==> |nonces[i]| == n && Value(nonces[i]) == i % Pow256(n)
  }

  /** Up to 256^n of them are all different. */
  lemma CountingDistinct(n: nat, nonces: seq<seq<byte>>)
    requires Counting(n, nonces) && |nonces| <= Pow256(n)
    ensures forall i, j :: 0 <= i < j < |nonces| ==> nonces[i] != nonces[j]
  {
    forall i, j | 0 <= i < j < |nonces|
      ensures nonces[i] != nonces[j]
    {
      if nonces[i] == nonces[j] {
        SameResidue(Pow256(n), i, j);
      }
    }
  }

  /** Two operations of one session share a nonce exactly when their counters agree modulo 256^n. */
  lemma NonceRepeatsIff(n: nat, j: nat, k: nat)
    ensures NonceAt(n, j) == NonceAt(n, k) <==> j % Pow256(n) == k % Pow256(n)
  {
    NonceValue(n, j);
    NonceValue(n, k);
    if j % Pow256(n) == k % Pow256(n) {
      ValueInjective(NonceAt(n, j), NonceAt(n, k));
    }
  }

  /** So no nonce is used twice within any 256^n consecutive operations. */
  lemma NonceUnique(n: nat, j: nat, k: nat)
    requires j < k < j + Pow256(n)
    ensures NonceAt(n, j) != NonceAt(n, k)
  {
    NonceRepeatsIff(n, j, k);
    var p := Pow256(n);
    if j % p == k % p {
      SameResidue(p, j, k);
    }
  }

  lemma SameResidue(p: int, j: int, k: int)
    requires p > 0 && j % p == k % p && -p < k - j < p
    ensures j == k
  {
    assert k == p * (k / p) + k % p && j == p * (j / p) + j % p;
    assert k - j == p * (k / p - j / p);
    MultipleBetween(p, k / p - j / p, k - j);
  }
}
