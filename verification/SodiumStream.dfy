/** `SodiumStreamCipher` of src/crypto/sodium.rs: a block keystream realigned on every call. */
module SodiumStream {
  import opened Bytes
  import Nonce
  import StreamIo

  const SODIUM_BLOCK_SIZE := 64

  datatype CipherType = ChaCha20 | ChaCha20Ietf | Salsa20 | XSalsa20

  /** How many blocks the initial counter passed to the library can tell apart. */
  function CounterSpan(t: CipherType): (n: nat)
    ensures n >= 1
  {
    if t == ChaCha20Ietf then 0x1_0000_0000 else 0x1_0000_0000_0000_0000
  }

  /** The width of `usize`. */
  datatype Word = Bits32 | Bits64

  /** Where `counter`, a `usize` that counts bytes, wraps around to zero. */
  function WordSpan(w: Word): (n: nat)
    ensures n >= 2
  {
    if w == Bits32 then 0x1_0000_0000 else 0x1_0000_0000_0000_0000
  }

  /** What `counter` holds at a stream position. */
  function Wrap(w: Word, position: nat): (counter: nat)
    ensures counter < WordSpan(w)
  {
    position % WordSpan(w)
  }

  /** How long a stream can be before its byte counter or its block counter starts over. */
  function StreamLimit(w: Word, t: CipherType): (n: nat)
    ensures n >= 1
  {
    var bytes, blocks := WordSpan(w), SODIUM_BLOCK_SIZE * CounterSpan(t);
    if bytes <= blocks then bytes else blocks
  }

  /** On 64-bit machines 2^38 bytes for the IETF variant and 2^64 for the others; on 32-bit ones 2^32 for all. */
  lemma StreamLimits(w: Word, t: CipherType)
    ensures StreamLimit(w, t) == if w == Bits32 then 0x1_0000_0000
                                 else if t == ChaCha20Ietf then 0x40_0000_0000 else 0x1_0000_0000_0000_0000
  {
  }

  ghost predicate BlockSized(blocks: nat -> seq<byte>)
  {
    forall n :: |blocks(n)| == SODIUM_BLOCK_SIZE
  }

  /** The library's keystream under one key and nonce: block number to its 64 bytes. */
  type Blocks = blocks: nat -> seq<byte> | BlockSized(blocks) witness (_ => seq(SODIUM_BLOCK_SIZE, _ => 0))

  /** Byte `p` of the keystream. */
  function KeyByte(blocks: Blocks, p: nat): (b: byte)
  {
    blocks(p / SODIUM_BLOCK_SIZE)[p % SODIUM_BLOCK_SIZE]
  }

  /** `data` masked with the keystream from byte `p` on. */
  function Masked(blocks: Blocks, p: nat, data: seq<byte>): (out: seq<byte>)
    ensures |out| == |data|
  {
    seq(|data|, k requires 0 <= k < |data| => Xor(data[k], KeyByte(blocks, p + k)))
  }

  /** `crypto_stream_xor_ic`: masks with whole blocks from block `ic`, cast to the counter's width, on. */
  function XorIc(t: CipherType, blocks: Blocks, ic: nat, data: seq<byte>): (out: seq<byte>)
    ensures |out| == |data|
  {
    var first := ic % CounterSpan(t);
    seq(|data|, k requires 0 <= k < |data| =>
      Xor(data[k], blocks(first + k / SODIUM_BLOCK_SIZE)[k % SODIUM_BLOCK_SIZE]))
  }

  /** Padding up to the block start lands every byte on its own keystream position. */
  lemma Realigned(block: nat, pad: nat, k: nat)
    requires pad < SODIUM_BLOCK_SIZE
    ensures var p := block * SODIUM_BLOCK_SIZE + pad + k;
            && block + (pad + k) / SODIUM_BLOCK_SIZE == p / SODIUM_BLOCK_SIZE
            && (pad + k) % SODIUM_BLOCK_SIZE == p % SODIUM_BLOCK_SIZE
  {
  }

  /** The keystream position a call starts at, with the cast of the block index. */
  function Start(t: CipherType, counter: nat): (p: nat)
  {
    (counter / SODIUM_BLOCK_SIZE % CounterSpan(t)) * SODIUM_BLOCK_SIZE + counter % SODIUM_BLOCK_SIZE
  }

  /** The padded call, with the padding cut off again, masks from there on. */
  lemma PaddedXor(t: CipherType, blocks: Blocks, counter: nat, data: seq<byte>)
    ensures var pad := counter % SODIUM_BLOCK_SIZE;
            XorIc(t, blocks, counter / SODIUM_BLOCK_SIZE, seq(pad, _ => 0) + data)[pad..pad + |data|] ==
            Masked(blocks, Start(t, counter), data)
  {
    hide Start, Xor, CounterSpan, KeyByte;
    var pad := counter % SODIUM_BLOCK_SIZE;
    var out := XorIc(t, blocks, counter / SODIUM_BLOCK_SIZE, seq(pad, _ => 0) + data)[pad..pad + |data|];
    forall k | 0 <= k < |data|
      ensures out[k] == Masked(blocks, Start(t, counter), data)[k]
    {
      PaddedXorAt(t, blocks, counter, data, k);
    }
  }

  lemma PaddedXorAt(t: CipherType, blocks: Blocks, counter: nat, data: seq<byte>, k: nat)
    requires k < |data|
    ensures var pad := counter % SODIUM_BLOCK_SIZE;
            XorIc(t, blocks, counter / SODIUM_BLOCK_SIZE, seq(pad, _ => 0) + data)[pad + k] ==
            Xor(data[k], KeyByte(blocks, Start(t, counter) + k))
  {
    hide Xor, CounterSpan;
    var pad := counter % SODIUM_BLOCK_SIZE;
    var text := seq(pad, _ => 0) + data;
    assert text[pad + k] == data[k];
    Realigned(counter / SODIUM_BLOCK_SIZE % CounterSpan(t), pad, k);
  }

  class SodiumStreamCipher {
    const word: Word
    const cipherType: CipherType
    const blocks: Blocks
    var counter: nat

    constructor (w: Word, t: CipherType, blocks: Blocks)
      ensures word == w && cipherType == t && this.blocks == blocks && counter == 0
    {
      word, cipherType, this.blocks, counter := w, t, blocks, 0;
    }

    /** `data` is masked from the position of `counter` on; `counter` wraps around. */
    method Process(data: seq<byte>) returns (out: seq<byte>)
      modifies this
      ensures counter == Wrap(word, old(counter) + |data|)
      ensures out == Masked(blocks, Start(cipherType, old(counter)), data)
    {
      hide Masked, XorIc, Xor, Start, Wrap, CounterSpan;
      var padding := counter % SODIUM_BLOCK_SIZE;
      var plainText := seq(padding, _ => 0) + data;
      var outBuf := XorIc(cipherType, blocks, counter / SODIUM_BLOCK_SIZE, plainText);
      PaddedXor(cipherType, blocks, counter, data);
      out := outBuf[padding..padding + |data|];
      counter := Wrap(word, counter + |data|);
    }
  }

  lemma MaskedConcat(blocks: Blocks, p: nat, a: seq<byte>, b: seq<byte>)
    ensures Masked(blocks, p, a + b) == Masked(blocks, p, a) + Masked(blocks, p + |a|, b)
  {
  }

  /** Masking twice at the same position gives the data back. */
  lemma MaskedInvolutive(blocks: Blocks, p: nat, data: seq<byte>)
    ensures Masked(blocks, p, Masked(blocks, p, data)) == data
  {
    forall k | 0 <= k < |data|
      ensures Masked(blocks, p, Masked(blocks, p, data))[k] == data[k]
    {
      XorInvolutive(data[k], KeyByte(blocks, p + k));
    }
  }

  /** What a sequence of calls makes of its pieces. */
  function Processed(w: Word, t: CipherType, blocks: Blocks, pieces: seq<seq<byte>>): (out: seq<byte>)
    ensures |out| == |Concat(pieces)|
  {
    if pieces == [] then []
    else
      var before, last := pieces[..|pieces| - 1], pieces[|pieces| - 1];
      Processed(w, t, blocks, before) + Masked(blocks, Start(t, Wrap(w, |Concat(before)|)), last)
  }

  lemma WrapAdd(w: Word, a: nat, b: nat)
    ensures Wrap(w, Wrap(w, a) + b) == Wrap(w, a + b)
  {
    var n := WordSpan(w);
    hide WordSpan;
    var q := a / n;
    assert a + b == n * q + (a % n + b);
    ModShift(a % n + b, q, n);
  }

  /** The counter is the position exactly before the first wrap-around. */
  lemma WrapExact(w: Word, position: nat)
    ensures Wrap(w, position) <= position
    ensures Wrap(w, position) == position <==> position < WordSpan(w)
  {
    var n := WordSpan(w);
    hide WordSpan;
    if position >= n {
      assert position % n < n;
    }
  }

  lemma ModShift(x: nat, q: nat, n: nat)
    requires n > 0
    ensures (n * q + x) % n == x % n
  {
    var d, r := x / n, x % n;
    assert n * q + x == n * (q + d) + r by {
      assert n * (q + d) == n * q + n * d;
    }
    Nonce.DivisionUnique(n * q + x, n, q + d, r);
  }

  method ProcessAll(w: Word, t: CipherType, blocks: Blocks, pieces: seq<seq<byte>>) returns (out: seq<byte>)
    ensures out == Processed(w, t, blocks, pieces)
  {
    WrapExact(w, 0);
    hide Start, Masked, Wrap;
    var cipher := new SodiumStreamCipher(w, t, blocks);
    out := [];
    for k := 0 to |pieces|
      invariant cipher.word == w && cipher.cipherType == t && cipher.blocks == blocks
      invariant cipher.counter == Wrap(w, |Concat(pieces[..k])|) && out == Processed(w, t, blocks, pieces[..k])
    {
      assert pieces[..k + 1][..k] == pieces[..k];
      WrapAdd(w, |Concat(pieces[..k])|, |pieces[k]|);
      var piece := cipher.Process(pieces[k]);
      out := out + piece;
    }
    assert pieces[..|pieces|] == pieces;
  }

  /** A call starts at its own stream position exactly until one of the two counters starts over. */
  lemma StartExactIff(w: Word, t: CipherType, position: nat)
    ensures Start(t, Wrap(w, position)) == position <==> position < StreamLimit(w, t)
  {
    WrapExact(w, position);
    BlockStart(t, Wrap(w, position));
    hide Start, Wrap, WordSpan, CounterSpan;
  }

  lemma BlockStart(t: CipherType, counter: nat)
    ensures Start(t, counter) <= counter
    ensures Start(t, counter) == counter <==> counter < SODIUM_BLOCK_SIZE * CounterSpan(t)
  {
    var q, span := counter / SODIUM_BLOCK_SIZE, CounterSpan(t);
    hide CounterSpan;
    if q < span {
      assert q % span == q;
    } else {
      assert q % span < span;
    }
  }

  /** How the data is cut into calls does not matter: one keystream runs through all of them. */
  lemma {:induction false} OneKeystream(w: Word, t: CipherType, blocks: Blocks, pieces: seq<seq<byte>>)
    requires |Concat(pieces)| <= StreamLimit(w, t)
    ensures Processed(w, t, blocks, pieces) == Masked(blocks, 0, Concat(pieces))
  {
    hide StreamLimit, Wrap, Start;
    if pieces != [] {
      var before, last := pieces[..|pieces| - 1], pieces[|pieces| - 1];
      OneKeystream(w, t, blocks, before);
      MaskedConcat(blocks, 0, Concat(before), last);
      if last != [] {
        StartExactIff(w, t, |Concat(before)|);
      }
    }
  }

  /** Zero blocks, and other ones from block `n` on. */
  function Marked(n: nat): (blocks: Blocks)
  {
    b => seq(SODIUM_BLOCK_SIZE, _ => if b < n then 0 else 1)
  }

  /** A stream of `n` zero bytes, written one at a time. */
  function SingleBytes(n: nat): (pieces: seq<seq<byte>>)
  {
    seq(n, _ => [0])
  }

  lemma {:induction false} SingleBytesConcat(n: nat)
    ensures Concat(SingleBytes(n)) == seq(n, _ => 0)
  {
    if n > 0 {
      SingleBytesConcat(n - 1);
      assert SingleBytes(n)[..n - 1] == SingleBytes(n - 1);
    }
  }

  /** Written one at a time, every byte is masked at the position its own call starts at. */
  lemma {:induction false} SingleBytesAt(w: Word, t: CipherType, blocks: Blocks, n: nat, k: nat)
    requires k < n
    ensures |Processed(w, t, blocks, SingleBytes(n))| == n
    ensures Processed(w, t, blocks, SingleBytes(n))[k] == Xor(0, KeyByte(blocks, Start(t, Wrap(w, k))))
    decreases n
  {
    hide Start, Wrap, Xor, KeyByte;
    SingleBytesConcat(n);
    SingleBytesConcat(n - 1);
    assert SingleBytes(n)[..n - 1] == SingleBytes(n - 1);
    if k < n - 1 {
      SingleBytesAt(w, t, blocks, n - 1, k);
    }
  }

  /** The first byte behind the limit is masked with the first byte of the keystream again. */
  lemma KeystreamRestarts(w: Word, t: CipherType, total: nat)
    requires total > StreamLimit(w, t)
    ensures var blocks, pieces := Marked(StreamLimit(w, t) / SODIUM_BLOCK_SIZE), SingleBytes(total);
            Processed(w, t, blocks, pieces) != Masked(blocks, 0, Concat(pieces))
  {
    var limit := StreamLimit(w, t);
    StartsOver(w, t);
    hide StreamLimit, Start, Marked, Wrap, Xor, KeyByte;
    var blocks, pieces := Marked(limit / SODIUM_BLOCK_SIZE), SingleBytes(total);
    SingleBytesConcat(total);
    SingleBytesAt(w, t, blocks, total, limit);
    MarkedDiffers(limit / SODIUM_BLOCK_SIZE, limit);
    assert Masked(blocks, 0, Concat(pieces))[limit] == Xor(0, KeyByte(blocks, limit));
  }

  lemma StartsOver(w: Word, t: CipherType)
    ensures Start(t, Wrap(w, StreamLimit(w, t))) == 0 && StreamLimit(w, t) >= SODIUM_BLOCK_SIZE
  {
  }

  lemma MarkedDiffers(block: nat, p: nat)
    requires block >= 1 && p / SODIUM_BLOCK_SIZE == block
    ensures Xor(0, KeyByte(Marked(block), 0)) != Xor(0, KeyByte(Marked(block), p))
  {
    hide Xor, XorBits;
    assert KeyByte(Marked(block), 0) == 0 && KeyByte(Marked(block), p) == 1;
    XorTellsApart();
  }

  lemma XorTellsApart()
    ensures Xor(0, 0) != Xor(0, 1)
  {
    assert XorBits(8, 0, 0) == 0 + 2 * XorBits(7, 0, 0);
    assert XorBits(8, 0, 1) == 1 + 2 * XorBits(7, 0, 0);
  }

  /** Pieces that are slices: none is longer than half of the address space. */
  ghost predicate Slices(w: Word, pieces: seq<seq<byte>>)
  {
    forall k :: 0 <= k < |pieces| ==> |pieces[k]| < WordSpan(w) / 2
  }

  /**
   The length up to which every cut of every stream gives the one-keystream result: until the
   byte counter wraps around, or the block counter does, whichever comes first.
   */
  lemma CutInvariantIff(w: Word, t: CipherType, total: nat)
    ensures (forall blocks: Blocks, pieces :: Slices(w, pieces) && |Concat(pieces)| == total ==>
               Processed(w, t, blocks, pieces) == Masked(blocks, 0, Concat(pieces)))
            <==> total <= if w == Bits32 then 0x1_0000_0000
                          else if t == ChaCha20Ietf then 0x40_0000_0000 else 0x1_0000_0000_0000_0000
  {
    StreamLimits(w, t);
    hide Processed, Masked, StreamLimit, Marked;
    if total <= StreamLimit(w, t) {
      forall blocks: Blocks, pieces | Slices(w, pieces) && |Concat(pieces)| == total
        ensures Processed(w, t, blocks, pieces) == Masked(blocks, 0, Concat(pieces))
      {
        OneKeystream(w, t, blocks, pieces);
      }
    } else {
      KeystreamRestarts(w, t, total);
      SingleBytesConcat(total);
      assert Slices(w, SingleBytes(total));
    }
  }

  /** Two ends that cut the stream differently, under the same key and nonce, agree that far. */
  method RoundTrip(w: Word, t: CipherType, blocks: Blocks, pieces: seq<seq<byte>>, sizes: seq<nat>)
    returns (received: seq<byte>)
    ensures |Concat(pieces)| <= StreamLimit(w, t) ==> received == Concat(pieces)
  {
    hide StreamLimit, Masked, Processed;
    var sent := ProcessAll(w, t, blocks, pieces);
    var recut := Recut(sent, sizes);
    received := ProcessAll(w, t, blocks, recut);
    if |Concat(pieces)| <= StreamLimit(w, t) {
      OneKeystream(w, t, blocks, pieces);
      OneKeystream(w, t, blocks, recut);
      MaskedInvolutive(blocks, 0, Concat(pieces));
    }
  }

  /** Cuts a byte string into pieces of the given sizes and a rest. */
  method Recut(s: seq<byte>, sizes: seq<nat>) returns (pieces: seq<seq<byte>>)
    ensures Concat(pieces) == s
  {
    pieces := [];
    var done: nat := 0;
    for k := 0 to |sizes|
      invariant done <= |s| && Concat(pieces) == s[..done]
    {
      var n := if sizes[k] <= |s| - done then sizes[k] else |s| - done;
      ConcatSnoc(pieces, s[done..done + n]);
      assert s[..done + n] == s[..done] + s[done..done + n];
      pieces := pieces + [s[done..done + n]];
      done := done + n;
    }
    ConcatSnoc(pieces, s[done..]);
    pieces := pieces + [s[done..]];
    assert s == s[..done] + s[done..];
  }

  /** A keystream cipher is a split-invariant cipher that undoes itself. */
  lemma StreamLaws(blocks: Blocks)
    ensures StreamIo.SplitInvariant(x => Masked(blocks, 0, x))
    ensures StreamIo.Inverse(x => Masked(blocks, 0, x), x => Masked(blocks, 0, x))
  {
    var f := (x: seq<byte>) => Masked(blocks, 0, x);
    forall a: seq<byte>, b: seq<byte>
      ensures f(a) <= f(a + b)
    {
      MaskedConcat(blocks, 0, a, b);
    }
    forall x: seq<byte>
      ensures f(f(x)) == x
    {
      MaskedInvolutive(blocks, 0, x);
    }
  }
}
