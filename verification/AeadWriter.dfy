/** `EncryptedWriter` of src/relay/tcprelay/aead.rs. */
module AeadWriter {
  import opened Bytes
  import opened Transport
  import Aead
  import Nonce

  ghost predicate Bounded(chunks: seq<seq<byte>>)
  {
    forall k :: 0 <= k < |chunks| ==> |chunks[k]| <= Aead.MAX_PACKET_SIZE
  }

  /** The plaintext acknowledged so far: every chunk but the one still being handed over. */
  ghost predicate Acknowledged(acked: seq<byte>, chunks: seq<seq<byte>>, steps: WriteStep)
  {
    if steps.Nothing? then acked == Concat(chunks)
    else chunks != [] && acked + chunks[|chunks| - 1] == Concat(chunks)
  }

  /** The part of a write that goes into one chunk. */
  function Clip(data: seq<byte>): (c: seq<byte>)
    ensures c <= data && |c| <= Aead.MAX_PACKET_SIZE
    ensures |data| <= 0x3FFF ==> c == data
    ensures |data| > 0x3FFF ==> |c| == 0x3FFF
  {
    if |data| > Aead.MAX_PACKET_SIZE then data[..Aead.MAX_PACKET_SIZE] else data
  }

  /** Salt, once and first, then the frames of every chunk sealed so far. */
  ghost function Wire(s: Aead.Session, salt: seq<byte>, chunks: seq<seq<byte>>): (w: seq<byte>)
    requires Aead.Framable(chunks)
  {
    if chunks == [] then [] else salt + Aead.Frames(s, chunks)
  }

  lemma WireSnoc(s: Aead.Session, salt: seq<byte>, chunks: seq<seq<byte>>, chunk: seq<byte>)
    requires Aead.Framable(chunks) && |chunk| < 0x1_0000
    ensures Aead.Framable(chunks + [chunk])
    ensures Wire(s, salt, chunks + [chunk]) ==
            Wire(s, salt, chunks) + ((if chunks == [] then salt else []) + Aead.Frame(s, 2 * |chunks|, chunk))
  {
    Aead.FramesSnoc(s, chunks, chunk);
    if chunks == [] {
      assert Aead.Frames(s, chunks) == [];
    }
  }

  /**
   A wire whose last frame is not all gone, cut where a decoder finds a boundary, was cut right
   before that frame.
   */
  lemma CutBeforeLast(s: Aead.Session, chunks: seq<seq<byte>>, body: seq<byte>)
    requires s.suite.Lawful() && Aead.Framable(chunks) && chunks != []
    requires body <= Aead.Frames(s, chunks) && body != Aead.Frames(s, chunks)
    requires |Aead.Frames(s, chunks[..|chunks| - 1])| <= |body|
    requires Aead.Parse(s, Aead.Length, 0, body).AtBoundary()
    ensures Aead.Parse(s, Aead.Length, 0, body).plain == Concat(chunks[..|chunks| - 1])
  {
    var before := chunks[..|chunks| - 1];
    if |Aead.Frames(s, before)| < |body| {
      Aead.InsideFrame(s, chunks, body);
    } else {
      assert Aead.Frames(s, before) <= Aead.Frames(s, chunks);
      assert body == Aead.Frames(s, before);
      Aead.ParseFrames(s, before);
    }
  }

  lemma FrameNonEmpty(s: Aead.Session, i: nat, chunk: seq<byte>)
    requires s.suite.Lawful() && |chunk| < 0x1_0000
    ensures Aead.Frame(s, i, chunk) != []
  {
  }

  class EncryptedWriter {
    const cipher: Aead.Cipher
    var steps: WriteStep
    var nonce: Option<seq<byte>>

    ghost const salt: seq<byte>
    ghost var chunks: seq<seq<byte>>   // every chunk sealed so far, in order
    ghost var acked: seq<byte>         // the bytes whose writes were acknowledged
    ghost var wire: seq<byte>          // salt and frames sealed so far

    ghost predicate Valid()
      reads this, cipher, cipher.nonce
    {
      && cipher.Valid()
      && cipher.uses == 2 * |chunks|
      && Bounded(chunks)
      && nonce == (if chunks == [] then Some(salt) else None)
      && steps.Valid()
      && Acknowledged(acked, chunks, steps)
      && wire == Wire(cipher.session, salt, chunks)
      && (steps.Writing? ==> wire == Wire(cipher.session, salt, chunks[..|chunks| - 1]) + steps.buf)
    }

    constructor (suite: Aead.Suite, key: seq<byte>, salt: seq<byte>)
      ensures Valid() && fresh(cipher) && fresh(cipher.nonce)
      ensures steps == Nothing && chunks == [] && acked == [] && wire == [] && this.salt == salt
      ensures cipher.session == Aead.Session(suite, suite.derive(key, salt))
    {
      cipher := new Aead.Cipher(suite, key, salt);
      steps, nonce := Nothing, Some(salt);
      this.salt, chunks, acked, wire := salt, [], [], [];
    }

    /** The wire is the salt and everything sealed under the counting nonces of the cipher, in turn. */
    lemma WireUnder()
      requires Valid()
      ensures var s := cipher.session;
              && |cipher.used| == 2 * |chunks| && Nonce.Counting(s.suite.nonceSize, cipher.used)
              && wire == if chunks == [] then [] else salt + Aead.SealedUnder(s.suite, s.key, cipher.used, chunks)
    {
      Aead.FramesUnder(cipher.session, cipher.used, chunks);
    }

    /**
     A caller whose last write was not finished polls again with the same data. The write is
     acknowledged with the length of the chunk taken.
     */
    method PollWriteEncrypted(sink: Pipe, data: seq<byte>) returns (r: Poll<nat>)
      requires Valid() && sink.Valid() && sink.sent + steps.Unsent() == wire
      requires steps.Writing? ==> Clip(data) == chunks[|chunks| - 1]
      modifies this, cipher, cipher.nonce, sink`sent, sink`turn
      // conservation: what the sink took and what is still buffered make up the wire
      ensures Valid() && sink.Valid() && sink.sent + steps.Unsent() == wire
      ensures old(sink.sent) <= sink.sent
      // a poll of an unfinished write seals nothing, a fresh one seals exactly one chunk
      ensures chunks == if old(steps).Writing? then old(chunks) else old(chunks) + [Clip(data)]
      ensures r.Ready? ==> r.value == |Clip(data)| && steps == Nothing && acked == old(acked) + Clip(data)
      ensures !r.Ready? ==> steps.Writing? && steps.pos < |steps.buf| && acked == old(acked)
      ensures r.Failed? ==> r.error == TransportError || r.error == UnexpectedEof
      ensures sink.closed ==> sink.sent == old(sink.sent)
      // the transport is to blame for anything but `Ready`
      ensures !sink.closed && !r.Ready? ==> old(sink.turn) < sink.turn && sink.Balked()
      ensures old(sink.turn) <= sink.turn
      ensures old(steps).Nothing? && cipher.session.suite.Lawful() ==> old(sink.turn) < sink.turn
    {
      hide Wire, Bounded, Aead.Frame, Aead.Suite.Lawful, Aead.Cipher.Valid, Clip;
      var chunk := Clip(data);
      if steps.Nothing? {
        if cipher.session.suite.Lawful() {
          FrameNonEmpty(cipher.session, cipher.uses, chunk);
        }
        Seal(chunk);
      }
      var sent := Flush(sink);
      match sent
      case Pending => r := Pending;
      case Failed(e) => r := Failed(e);
      case Ready(_) => r := Ready(|chunk|);
    }

    /** Hands over the buffered frame; once it is gone, its chunk is acknowledged. */
    method Flush(sink: Pipe) returns (r: Poll<()>)
      requires Valid() && sink.Valid() && sink.sent + steps.Unsent() == wire && steps.Writing?
      modifies this`steps, this`acked, sink`sent, sink`turn
      ensures Valid() && sink.Valid() && sink.sent + steps.Unsent() == wire
      ensures old(sink.sent) <= sink.sent
      ensures r.Ready? ==> steps == Nothing && acked == old(acked) + chunks[|chunks| - 1]
      ensures !r.Ready? ==> steps.Writing? && steps.pos < |steps.buf| && acked == old(acked)
      ensures r.Failed? ==> r.error == TransportError || r.error == UnexpectedEof
      ensures sink.closed ==> sink.sent == old(sink.sent)
      // the transport is to blame for anything but `Ready`
      ensures !sink.closed && !r.Ready? ==> old(sink.turn) < sink.turn && sink.Balked()
      ensures old(sink.turn) <= sink.turn
      ensures old(steps.Unsent()) != [] ==> old(sink.turn) < sink.turn
    {
      var buf, start, pos := steps.buf, steps.pos, 0;
      r, pos := SendAll(sink, buf, start);
      SplitRest(old(sink.sent), buf, start, pos);
      if r.Ready? {
        steps, acked := Nothing, acked + chunks[|chunks| - 1];
      } else {
        steps := Writing(buf, pos);
      }
    }

    /** Builds the next frame, with the salt in front of the first one. */
    method Seal(data: seq<byte>)
      requires Valid() && steps.Nothing? && |data| <= Aead.MAX_PACKET_SIZE
      modifies this, cipher, cipher.nonce
      ensures Valid() && steps.Writing? && wire == old(wire) + steps.Unsent()
      ensures chunks == old(chunks) + [data] && acked == old(acked)
      ensures steps.Unsent() == [] ==> Aead.Frame(cipher.session, old(cipher.uses), data) == []
    {
      hide Wire, Aead.Frame, Aead.Cipher.Valid;
      WireSnoc(cipher.session, salt, chunks, data);
      ConcatSnoc(chunks, data);
      assert (chunks + [data])[..|chunks|] == chunks;
      var first := match nonce case Some(n) => n case None => [];
      nonce := None;
      var frame := SealFrame(data);
      var buf := first + frame;
      steps := Writing(buf, 0);
      chunks, wire := chunks + [data], wire + buf;
    }

    /** The sealed length, then the sealed data. */
    method SealFrame(data: seq<byte>) returns (frame: seq<byte>)
      requires cipher.Valid() && |data| <= Aead.MAX_PACKET_SIZE
      modifies cipher, cipher.nonce
      ensures cipher.Valid() && cipher.uses == old(cipher.uses) + 2
      ensures frame == Aead.Frame(cipher.session, old(cipher.uses), data)
    {
      var sealedLength := cipher.Encrypt(Be16(|data|));
      var sealedData := cipher.Encrypt(data);
      frame := sealedLength + sealedData;
    }
  }

  /** Data cut into chunks of 0x3FFF bytes, the last one shorter; `done` of it is in the chunks. */
  ghost predicate Cut(data: seq<byte>, chunks: seq<seq<byte>>, done: nat)
  {
    && done == Min(0x3FFF * |chunks|, |data|)
    && forall k :: 0 <= k < |chunks| ==> 0x3FFF * k < |data| && chunks[k] == Piece(data, k)
  }

  ghost function Piece(data: seq<byte>, k: nat): (p: seq<byte>)
    requires 0x3FFF * k <= |data|
  {
    data[0x3FFF * k..Min(0x3FFF * (k + 1), |data|)]
  }

  /** How far a writer of all of `data` has come: a chunk in flight is the piece behind what was acknowledged. */
  ghost predicate Standing(data: seq<byte>, chunks: seq<seq<byte>>, writing: bool, acked: nat)
  {
    && (forall k :: 0 <= k < |chunks| ==> 0x3FFF * k < |data| && chunks[k] == Piece(data, k))
    && (writing ==> chunks != [] && acked == 0x3FFF * (|chunks| - 1))
    && (!writing ==> acked == Min(0x3FFF * |chunks|, |data|))
  }

  lemma NextPiece(data: seq<byte>, chunks: seq<seq<byte>>, writing: bool, acked: nat)
    requires Standing(data, chunks, writing, acked) && acked < |data|
    ensures writing ==> Clip(data[acked..]) == chunks[|chunks| - 1]
    ensures !writing ==> Standing(data, chunks + [Clip(data[acked..])], true, acked)
    ensures writing ==> Standing(data, chunks, false, acked + |Clip(data[acked..])|)
    ensures acked + |Clip(data[acked..])| <= |data|
    ensures data[..acked] + Clip(data[acked..]) == data[..acked + |Clip(data[acked..])|]
  {
    var m := if writing then |chunks| - 1 else |chunks|;
    assert Clip(data[acked..]) == Piece(data, m);
  }

  lemma AllCut(data: seq<byte>, chunks: seq<seq<byte>>, steps: WriteStep, done: seq<byte>, acked: nat)
    requires Standing(data, chunks, steps.Writing?, acked) && acked <= |data| && done == data[..acked]
    requires Acknowledged(done, chunks, steps)
    ensures Cut(data, chunks, |Concat(chunks)|) && Concat(chunks) == data[..|Concat(chunks)|]
    ensures acked <= |Concat(chunks)| <= acked + 0x3FFF
    ensures acked == |data| ==> steps == Nothing
  {
    if steps.Writing? {
      var k := |chunks| - 1;
      assert chunks[k] == Piece(data, k);
      assert data[..acked] + Piece(data, k) == data[..acked + |Piece(data, k)|];
    }
  }

  lemma Unwritten(data: seq<byte>)
    ensures Standing(data, [], false, 0)
  {
  }

  /** One poll of `WriteAll`; `n` bytes are acknowledged. */
  method WriteSome(writer: EncryptedWriter, sink: Pipe, data: seq<byte>, acked: nat, ghost from: nat) returns (n: nat)
    requires writer.Valid() && sink.Valid() && sink.sent + writer.steps.Unsent() == writer.wire && !sink.closed
    requires writer.cipher.session.suite.Lawful() && acked < |data|
    requires Standing(data, writer.chunks, writer.steps.Writing?, acked) && writer.acked == data[..acked]
    modifies writer, writer.cipher, writer.cipher.nonce, sink`sent, sink`turn
    ensures writer.Valid() && sink.Valid() && sink.sent + writer.steps.Unsent() == writer.wire
    ensures acked + n <= |data| && writer.steps.Valid()
    ensures Standing(data, writer.chunks, writer.steps.Writing?, acked + n) && writer.acked == data[..acked + n]
    ensures Willing(sink.plan, from) ==> 1 + Lag(from, sink.turn) <= Lag(from, old(sink.turn)) + n
  {
    hide EncryptedWriter.Valid, Standing, Aead.Suite.Lawful, Clip;
    NextPiece(data, writer.chunks, writer.steps.Writing?, acked);
    ghost var chunk := Clip(data[acked..]);
    if writer.steps.Nothing? {
      NextPiece(data, writer.chunks + [chunk], true, acked);
    }
    var r := writer.PollWriteEncrypted(sink, data[acked..]);
    n := if r.Ready? then r.value else 0;
    if r.Ready? {
      NextPiece(data, writer.chunks, true, acked);
    }
  }

  /** The salt, and behind it everything sealed under the given nonces. */
  ghost function Sealed(suite: Aead.Suite, key: seq<byte>, salt: seq<byte>, nonces: seq<seq<byte>>,
                        chunks: seq<seq<byte>>): (w: seq<byte>)
    requires Aead.Framable(chunks) && |nonces| == 2 * |chunks|
  {
    if chunks == [] then [] else salt + Aead.SealedUnder(suite, suite.derive(key, salt), nonces, chunks)
  }

  /**
   Writes all of some data with up to so many polls. The chunks are the data cut after every
   0x3FFF bytes. What the sink took is a front of the salt and of lengths and chunks, each sealed
   under a nonce of its own: the nonces count up from zero, and no two are the same as long as
   there are at most 256^n. Over a transport that is willing from some poll on, enough polls
   write everything.
   */
  method WriteAll(suite: Aead.Suite, key: seq<byte>, salt: seq<byte>, data: seq<byte>, plan: nat -> Event,
                  polls: nat, ghost from: nat)
    returns (sent: seq<byte>, acked: nat, ghost chunks: seq<seq<byte>>, ghost nonces: seq<seq<byte>>)
    requires suite.Lawful()
    ensures Cut(data, chunks, |Concat(chunks)|) && Concat(chunks) == data[..|Concat(chunks)|]
    ensures |nonces| == 2 * |chunks| && Nonce.Counting(suite.nonceSize, nonces)
    ensures 2 * |chunks| <= Nonce.Pow256(suite.nonceSize) ==>
              forall i, j :: 0 <= i < j < |nonces| ==> nonces[i] != nonces[j]
    ensures Aead.Framable(chunks) && sent <= Sealed(suite, key, salt, nonces, chunks)
    ensures acked <= |Concat(chunks)| <= acked + 0x3FFF
    ensures acked == |data| ==> sent == Sealed(suite, key, salt, nonces, chunks)
    ensures Willing(plan, from) && polls >= from + |data| ==> acked == |data|
  {
    hide EncryptedWriter.Valid, Standing, Cut, Sealed, Aead.Suite.Lawful, Willing, Nonce.Counting, Concat;
    var writer := new EncryptedWriter(suite, key, salt);
    var sink := new Pipe(plan);
    acked := 0;
    Unwritten(data);
    var k := 0;
    while k < polls && acked < |data|
      invariant writer.Valid() && sink.Valid() && writer.steps.Valid()
      invariant sink.sent + writer.steps.Unsent() == writer.wire
      invariant fresh(writer) && fresh(writer.cipher) && fresh(writer.cipher.nonce) && fresh(sink)
      invariant writer.cipher.session == Aead.Session(suite, suite.derive(key, salt)) && writer.salt == salt
      invariant !sink.closed && sink.plan == plan && acked <= |data|
      invariant Standing(data, writer.chunks, writer.steps.Writing?, acked) && writer.acked == data[..acked]
      invariant Willing(plan, from) && acked < |data| ==> k + Lag(from, sink.turn) <= from + acked
      decreases polls - k
    {
      var n := WriteSome(writer, sink, data, acked, from);
      acked := acked + n;
      k := k + 1;
    }
    sent, chunks, nonces := sink.sent, writer.chunks, writer.cipher.used;
    Written(writer, sink.sent, key, data, acked);
  }

  /** What a writer of all of `data` has sealed, and how. */
  lemma Written(writer: EncryptedWriter, sent: seq<byte>, key: seq<byte>, data: seq<byte>, acked: nat)
    requires writer.Valid() && sent + writer.steps.Unsent() == writer.wire
    requires Standing(data, writer.chunks, writer.steps.Writing?, acked) && writer.acked == data[..acked]
    requires acked <= |data|
    requires writer.cipher.session.key == writer.cipher.session.suite.derive(key, writer.salt)
    ensures var suite, chunks, nonces := writer.cipher.session.suite, writer.chunks, writer.cipher.used;
            && Cut(data, chunks, |Concat(chunks)|) && Concat(chunks) == data[..|Concat(chunks)|]
            && |nonces| == 2 * |chunks| && Nonce.Counting(suite.nonceSize, nonces)
            && (2 * |chunks| <= Nonce.Pow256(suite.nonceSize) ==>
                  forall i, j :: 0 <= i < j < |nonces| ==> nonces[i] != nonces[j])
            && Aead.Framable(chunks) && sent <= Sealed(suite, key, writer.salt, nonces, chunks)
            && acked <= |Concat(chunks)| <= acked + 0x3FFF
            && (acked == |data| ==> sent == Sealed(suite, key, writer.salt, nonces, chunks))
  {
    hide Cut, Standing, Wire, Aead.SealedUnder, Nonce.Pow256;
    var suite, nonces := writer.cipher.session.suite, writer.cipher.used;
    writer.WireUnder();
    AllCut(data, writer.chunks, writer.steps, writer.acked, acked);
    if |nonces| <= Nonce.Pow256(suite.nonceSize) {
      Nonce.CountingDistinct(suite.nonceSize, nonces);
    }
  }
}
