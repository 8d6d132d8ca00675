/** Keys from passwords, `classic_bytes_to_key` of src/crypto/cipher.rs. */
module KeyDerivation {
  import opened Bytes

  const DIGEST_LEN := 16

  /** MD5 itself is a parameter; its length is what is relied on. */
  ghost predicate Digests(md5: seq<byte> -> seq<byte>)
  {
    forall s :: |md5(s)| == DIGEST_LEN
  }

  /** The `i`-th digest of the chain: each is taken of the one before it and the password. */
  function Link(md5: seq<byte> -> seq<byte>, password: seq<byte>, i: nat): (d: seq<byte>)
    requires Digests(md5)
    ensures |d| == DIGEST_LEN
  {
    md5((if i == 0 then [] else Link(md5, password, i - 1)) + password)
  }

  /** `k` is the start of the chain: byte `j` is byte `j % 16` of digest `j / 16`. */
  ghost predicate StartsChain(md5: seq<byte> -> seq<byte>, password: seq<byte>, k: seq<byte>)
    requires Digests(md5)
  {
    forall j :: 0 <= j < |k| ==> k[j] == Link(md5, password, j / DIGEST_LEN)[j % DIGEST_LEN]
  }

  /** The `i`-th 16 bytes of a key: what they are the digest of, or as much of it as the key is long. */
  ghost predicate IsBlock(md5: seq<byte> -> seq<byte>, password: seq<byte>, key: seq<byte>, i: nat)
    requires 16 * i < |key|
  {
    var end := if 16 * (i + 1) <= |key| then 16 * (i + 1) else |key|;
    key[16 * i..end] <= md5((if i == 0 then [] else key[16 * (i - 1)..16 * i]) + password)
  }

  lemma ChainBlock(md5: seq<byte> -> seq<byte>, password: seq<byte>, key: seq<byte>, i: nat, n: nat)
    requires Digests(md5) && StartsChain(md5, password, key) && n <= 16 && 16 * i + n <= |key|
    ensures key[16 * i..16 * i + n] == Link(md5, password, i)[..n]
  {
    hide Link;
    forall j | 0 <= j < n
      ensures key[16 * i + j] == Link(md5, password, i)[j]
    {
      Position(i, 16 * i + j);
      assert key[16 * i + j] == Link(md5, password, (16 * i + j) / DIGEST_LEN)[(16 * i + j) % DIGEST_LEN];
    }
  }

  lemma ChainIsBlocks(md5: seq<byte> -> seq<byte>, password: seq<byte>, key: seq<byte>, i: nat)
    requires Digests(md5) && StartsChain(md5, password, key) && 16 * i < |key|
    ensures IsBlock(md5, password, key, i)
  {
    hide StartsChain;
    ChainBlock(md5, password, key, i, if 16 * (i + 1) <= |key| then 16 else |key| - 16 * i);
    if i > 0 {
      ChainBlock(md5, password, key, i - 1, 16);
      var d := Link(md5, password, i - 1);
      assert d[..16] == d;
    }
  }

  /** The key is the start of the chain, whatever the length of the IV that goes with it. */
  method ClassicBytesToKey(md5: seq<byte> -> seq<byte>, keySize: nat, ivSize: nat, password: seq<byte>)
    returns (key: seq<byte>)
    requires Digests(md5)
    ensures |key| == keySize && StartsChain(md5, password, key)
    ensures forall i: nat :: 16 * i < |key| ==> IsBlock(md5, password, key, i)
  {
    if ivSize + keySize == 0 {
      return [];
    }
    var total := (keySize + ivSize + DIGEST_LEN - 1) / DIGEST_LEN;
    var result, m: seq<byte> := [], [];
    for i := 0 to total
      invariant |result| == DIGEST_LEN * i
      invariant m == if i == 0 then [] else Link(md5, password, i - 1)
      invariant StartsChain(md5, password, result)
    {
      m := md5(m + password);
      ChainGrows(md5, password, result, i);
      result := result + m;
    }
    key := result[..keySize];
    forall i: nat | 16 * i < |key|
      ensures IsBlock(md5, password, key, i)
    {
      ChainIsBlocks(md5, password, key, i);
    }
  }

  lemma Position(i: nat, j: nat)
    requires DIGEST_LEN * i <= j < DIGEST_LEN * (i + 1)
    ensures j / DIGEST_LEN == i && j % DIGEST_LEN == j - DIGEST_LEN * i
  {
    assert DIGEST_LEN == 16;
  }

  lemma ChainGrows(md5: seq<byte> -> seq<byte>, password: seq<byte>, k: seq<byte>, i: nat)
    requires Digests(md5) && StartsChain(md5, password, k) && |k| == DIGEST_LEN * i
    ensures StartsChain(md5, password, k + Link(md5, password, i))
  {
    hide Link;
    var d := Link(md5, password, i);
    forall j | 0 <= j < |k + d|
      ensures (k + d)[j] == Link(md5, password, j / DIGEST_LEN)[j % DIGEST_LEN]
    {
      if j >= |k| {
        Position(i, j);
      }
    }
  }

  /** Two keys of one password agree as far as the shorter one goes: the longer cipher key extends it. */
  lemma KeysAgree(md5: seq<byte> -> seq<byte>, password: seq<byte>, short: seq<byte>, long: seq<byte>)
    requires Digests(md5) && StartsChain(md5, password, short) && StartsChain(md5, password, long)
    requires |short| <= |long|
    ensures short <= long
  {
    hide Link;
    forall j | 0 <= j < |short| ensures short[j] == long[j] {
      assert short[j] == Link(md5, password, j / DIGEST_LEN)[j % DIGEST_LEN];
    }
  }

  /**
   The IV length only decides how many digests are made and thrown away, and a shorter key is
   the beginning of a longer one.
   */
  method DeriveTwice(md5: seq<byte> -> seq<byte>, password: seq<byte>,
                     keySize: nat, ivSize: nat, keySize': nat, ivSize': nat)
    returns (key: seq<byte>, key': seq<byte>)
    requires Digests(md5)
    ensures |key| == keySize && |key'| == keySize'
    ensures keySize <= keySize' ==> key <= key'
    ensures keySize == keySize' ==> key == key'
  {
    key := ClassicBytesToKey(md5, keySize, ivSize, password);
    key' := ClassicBytesToKey(md5, keySize', ivSize', password);
    if keySize <= keySize' {
      KeysAgree(md5, password, key, key');
    }
  }
}
