/** The AEAD side of `CryptoStream` of src/relay/tcprelay/crypto_io.rs. */
module CryptoStream {
  import opened Bytes
  import opened Transport
  import Aead
  import AeadReader
  import Replay

  /** The first draw that is not reported once `a` was accepted. */
  ghost function FirstFresh(hit: Replay.Filter, n: nat, a: seq<seq<byte>>, draws: seq<seq<byte>>):
      (r: Option<seq<byte>>)
  {
    if draws == [] then None
    else if !Replay.Reported(hit, n, a, draws[0]) then Some(draws[0])
    else FirstFresh(hit, n, a, draws[1..])
  }

  ghost predicate IsFirstFresh(hit: Replay.Filter, n: nat, a: seq<seq<byte>>, draws: seq<seq<byte>>, k: nat)
    requires k < |draws|
  {
    !Replay.Reported(hit, n, a, draws[k]) && forall j :: 0 <= j < k ==> Replay.Reported(hit, n, a, draws[j])
  }

  /** It is the first of the draws that is not reported, and there is none exactly when all are. */
  lemma {:induction false} FirstFreshMeans(hit: Replay.Filter, n: nat, a: seq<seq<byte>>, draws: seq<seq<byte>>)
    ensures var r := FirstFresh(hit, n, a, draws);
            && (r.None? <==> forall k :: 0 <= k < |draws| ==> Replay.Reported(hit, n, a, draws[k]))
            && (r.Some? ==> exists k :: 0 <= k < |draws| && IsFirstFresh(hit, n, a, draws, k) && r.value == draws[k])
  {
    hide Replay.Reported;
    if draws != [] {
      if Replay.Reported(hit, n, a, draws[0]) {
        FirstFreshMeans(hit, n, a, draws[1..]);
        assert draws == [draws[0]] + draws[1..];
        if k :| 0 <= k < |draws[1..]| && IsFirstFresh(hit, n, a, draws[1..], k)
                && FirstFresh(hit, n, a, draws) == Some(draws[1..][k]) {
          assert draws[k + 1] == draws[1..][k] && IsFirstFresh(hit, n, a, draws, k + 1);
        }
      } else {
        assert IsFirstFresh(hit, n, a, draws, 0);
      }
    }
  }

  /**
   Draws salts until one is not reported, and remembers that one only. The random draws are a
   parameter; `None` means that all of them were reported and the loop would go on drawing.
   */
  method FreshNonce(context: Replay.PingPongBloom, draws: seq<seq<byte>>) returns (r: Option<seq<byte>>)
    requires context.Valid()
    modifies context
    ensures context.Valid()
    ensures r == FirstFresh(context.hit, context.itemCount, old(context.accepted), draws)
    ensures context.accepted == old(context.accepted) + if r.Some? && r.value != [] then [r.value] else []
  {
    hide Replay.PingPongBloom.Valid, Replay.Reported;
    for k := 0 to |draws|
      invariant context.Valid() && context.accepted == old(context.accepted)
      invariant FirstFresh(context.hit, context.itemCount, old(context.accepted), draws)
             == FirstFresh(context.hit, context.itemCount, old(context.accepted), draws[k..])
    {
      var seen := context.CheckNonceAndSet(draws[k]);
      assert draws[k..][1..] == draws[k + 1..];
      if !seen {
        return Some(draws[k]);
      }
    }
    return None;
  }

  lemma Glue(s: seq<byte>, wire: seq<byte>, i: nat, j: nat, k: nat)
    requires i <= j <= k <= |wire|
    ensures (s + wire[i..j]) + wire[j..k] == s + wire[i..k]
  {
  }

  /** The one-shot decoder of everything a peer sent: its salt gives the session key of the frames. */
  ghost function Decode(suite: Aead.Suite, key: seq<byte>, wire: seq<byte>): (p: Aead.Progress)
    requires suite.Lawful() && |wire| >= suite.saltSize
  {
    var salt := wire[..suite.saltSize];
    Aead.Parse(Aead.Session(suite, suite.derive(key, salt)), Aead.Length, 0, wire[suite.saltSize..])
  }

  /** The reading half: waits for the peer's salt, then decrypts. */
  class CryptoReader {
    const suite: Aead.Suite
    const key: seq<byte>
    const advanceOnFailure: bool
    var salt: seq<byte>
    var dec: AeadReader.DecryptedReader?

    ghost var consumed: seq<byte>    // every byte taken from the stream
    ghost var delivered: seq<byte>   // every byte handed to the caller
    ghost var final: bool            // the end of the stream was seen between two frames

    ghost function Footprint(): (s: set<object>)
      reads this
    {
      if dec == null then {} else {dec, dec.cipher, dec.cipher.nonce}
    }

    ghost predicate Valid()
      reads this, Footprint()
    {
      && suite.Lawful()
      && if dec == null then
           consumed == salt && |salt| <= suite.saltSize && delivered == [] && !final
         else
           && dec.Valid()
           && |salt| == suite.saltSize
           && dec.cipher.session == Aead.Session(suite, suite.derive(key, salt))
           && consumed == salt + dec.consumed
           && delivered == dec.delivered
           && final == dec.gotFinal
    }

    /** An established reader stands where the one-shot decoder does, and has no tail at the end. */
    lemma Decodes()
      requires Valid() && dec != null
      ensures |consumed| >= suite.saltSize && Decode(suite, key, consumed) == dec.progress
      ensures delivered <= Decode(suite, key, consumed).plain
      ensures final ==> Decode(suite, key, consumed).AtBoundary() && delivered == Decode(suite, key, consumed).plain
    {
      assert consumed[..suite.saltSize] == salt && consumed[suite.saltSize..] == dec.consumed;
      assert final ==> dec.data[dec.pos..] == [];
    }

    constructor (suite: Aead.Suite, key: seq<byte>, advanceOnFailure: bool)
      requires suite.Lawful()
      ensures Valid() && dec == null && consumed == [] && delivered == [] && !final
      ensures this.suite == suite && this.key == key
    {
      this.suite, this.key, this.advanceOnFailure := suite, key, advanceOnFailure;
      salt, dec := [], null;
      consumed, delivered, final := [], [], false;
    }

    /**
     Reads the salt. A salt that the context reports ends the connection before anything is
     decrypted; any other is remembered.
     */
    method Handshake(context: Replay.PingPongBloom, source: Pipe) returns (r: Poll<()>)
      requires Valid() && context.Valid() && source.Valid() && dec == null
      modifies this, context, source`received, source`turn
      ensures Valid() && context.Valid() && source.Valid() && old(source.received) <= source.received
      ensures consumed == old(consumed) + source.sent[old(source.received)..source.received]
      ensures delivered == [] && !final
      ensures r.Ready? <==> dec != null
      ensures dec != null ==> fresh(Footprint()) && (var s := salt; !old(context.Reports(s)))
      ensures dec != null ==> salt == [] || context.accepted == old(context.accepted) + [salt]
      ensures dec == null ==> unchanged(context)
      ensures r == Failed(RepeatedSalt) ==> |salt| == suite.saltSize && (var s := salt; old(context.Reports(s)))
      ensures r == Failed(UnexpectedEof) ==>
                source.closed && source.received == |source.sent| && |salt| < suite.saltSize
      ensures r.Failed? ==> r.error != DecryptFailed && r.error != BadAddress
      ensures old(source.turn) <= source.turn
      ensures r.Pending? ==> old(source.turn) < source.turn && source.Waited()
      ensures r == Failed(TransportError) ==> source.Broke()
    {
      hide Replay.PingPongBloom.Valid, Replay.Reported, AeadReader.DecryptedReader.Valid, Aead.Suite.Lawful;
      var got, buf := ReadExact(source, salt, suite.saltSize, false);
      salt := buf;
      consumed := buf;
      if !got.Got? {
        return got.poll;
      }
      var seen := context.CheckNonceAndSet(salt);
      if seen {
        return Failed(RepeatedSalt);
      }
      dec := new AeadReader.DecryptedReader(suite, key, salt, advanceOnFailure);
      r := Ready(());
    }

    /** Decrypts once the session is established. */
    method PollDecrypted(source: Pipe, max: nat) returns (r: Poll<seq<byte>>)
      requires Valid() && source.Valid() && dec != null
      modifies this`consumed, this`delivered, this`final, dec, dec.cipher, dec.cipher.nonce, source`received,
        source`turn
      ensures source.Valid() && old(source.received) <= source.received
      ensures consumed == old(consumed) + source.sent[old(source.received)..source.received]
      ensures r != Failed(DecryptFailed) ==> Valid()
      ensures r.Ready? ==> |r.value| <= max && delivered == old(delivered) + r.value
      ensures !r.Ready? ==> delivered == old(delivered)
      ensures r == Ready([]) && max > 0 ==> final
      ensures final && !old(final) ==> source.closed && source.received == |source.sent|
      ensures |consumed| >= suite.saltSize
      ensures r == Failed(UnexpectedEof) ==>
                source.closed && source.received == |source.sent| && !Decode(suite, key, consumed).AtBoundary()
      ensures r == Failed(DecryptFailed) ==> Decode(suite, key, consumed).Broken?
      ensures r.Failed? ==> r.error != RepeatedSalt && r.error != BadAddress
      ensures old(source.turn) <= source.turn
      ensures r.Pending? ==> old(source.turn) < source.turn && source.Waited()
      ensures r == Failed(TransportError) ==> source.Broke()
    {
      r := dec.PollReadDecrypted(source, max);
      consumed := salt + dec.consumed;
      delivered := dec.delivered;
      final := dec.gotFinal;
      assert consumed[..suite.saltSize] == salt && consumed[suite.saltSize..] == dec.consumed;
    }

    method PollRead(context: Replay.PingPongBloom, source: Pipe, max: nat) returns (r: Poll<seq<byte>>)
      requires Valid() && context.Valid() && source.Valid()
      modifies this, Footprint(), context, source`received, source`turn
      ensures context.Valid() && source.Valid() && old(source.received) <= source.received
      ensures fresh(Footprint() - old(Footprint()))
      ensures consumed == old(consumed) + source.sent[old(source.received)..source.received]
      ensures old(dec) != null ==> dec == old(dec) && salt == old(salt)
      ensures dec == null || old(dec) != null ==> unchanged(context)
      ensures dec != null && old(dec) == null ==> (var s := salt; !old(context.Reports(s)))
      ensures r != Failed(DecryptFailed) ==> Valid()
      ensures r == Failed(DecryptFailed) ==> |consumed| >= suite.saltSize && Decode(suite, key, consumed).Broken?
      ensures r == Failed(RepeatedSalt) ==>
                dec == null && |salt| == suite.saltSize && (var s := salt; old(context.Reports(s)))
      ensures r.Ready? ==> dec != null && |r.value| <= max && delivered == old(delivered) + r.value
      ensures !r.Ready? ==> delivered == old(delivered)
      ensures r == Ready([]) && max > 0 ==> final
      ensures final && !old(final) ==> source.closed && source.received == |source.sent|
      ensures r == Failed(UnexpectedEof) ==>
                && source.closed && source.received == |source.sent|
                && (|consumed| >= suite.saltSize ==> !Decode(suite, key, consumed).AtBoundary())
      ensures r.Failed? ==> r.error != BadAddress
      ensures old(source.turn) <= source.turn
      ensures r.Pending? ==> old(source.turn) < source.turn && source.Waited()
      ensures r == Failed(TransportError) ==> source.Broke()
    {
      hide Replay.PingPongBloom.Valid, Replay.Reported, AeadReader.DecryptedReader.Valid, Aead.Suite.Lawful, Decode;
      if dec == null {
        var h := Handshake(context, source);
        if !h.Ready? {
          return if h.Pending? then Pending else Failed(h.error);
        }
      }
      ghost var mid := source.received;
      r := PollDecrypted(source, max);
      Glue(old(consumed), source.sent, old(source.received), mid, source.received);
    }
  }
}
