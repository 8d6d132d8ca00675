/**
 The whole AEAD tunnel: a client that sends a target address and a payload through the
 encrypting writer, a transport that may delay, split and cut, and a server that reads the
 address and then the payload.
 */
module Tunnel {
  import opened Bytes
  import opened Transport
  import Aead
  import AeadWriter
  import CryptoStream
  import Replay
  import Socks5

  /** The client side: writes `total`, in pieces of any length, retrying unfinished writes. */
  class Client {
    const writer: AeadWriter.EncryptedWriter
    const total: seq<byte>
    var off: nat              // how much was acknowledged
    var pending: seq<byte>    // the write that is being retried

    /** `sent` is what the transport took from this client. */
    ghost predicate Valid(sent: seq<byte>)
      reads this, writer, writer.cipher, writer.cipher.nonce
    {
      && writer.Valid()
      && sent + writer.steps.Unsent() == writer.wire
      && off <= |total| && writer.acked == total[..off]
      && (writer.steps.Writing? ==>
            && |pending| <= |total| - off
            && pending == total[off..off + |pending|]
            && AeadWriter.Clip(pending) == writer.chunks[|writer.chunks| - 1]
            && writer.steps.pos < |writer.steps.buf|)
    }

    /** What is left to do, counted in polls, with a transport that is willing after `lag` polls. */
    ghost function Work(lag: nat): (n: nat)
      reads this, writer
    {
      2 * lag + (if off <= |total| then |total| - off else 0) + if writer.steps.Writing? then 1 else 0
    }

    /** How much of `total` went into writes so far. */
    ghost function Handed(): (n: nat)
      reads this, writer
    {
      off + if writer.steps.Writing? then |pending| else 0
    }

    constructor (suite: Aead.Suite, key: seq<byte>, salt: seq<byte>, total: seq<byte>)
      ensures Valid([]) && this.total == total && off == 0 && writer.steps.Nothing?
      ensures fresh(writer) && fresh(writer.cipher) && fresh(writer.cipher.nonce)
      ensures writer.salt == salt && writer.cipher.session == Aead.Session(suite, suite.derive(key, salt))
    {
      writer := new AeadWriter.EncryptedWriter(suite, key, salt);
      this.total, off, pending := total, 0, [];
    }

    /**
     Polls one write: the unfinished one, or a fresh one of at most `want` bytes. Once the
     transport is willing, every write of something is a step ahead.
     */
    method Poll(pipe: Pipe, want: nat, ghost from: nat)
      requires Valid(pipe.sent) && pipe.Valid() && writer.cipher.session.suite.Lawful()
      modifies this, writer, writer.cipher, writer.cipher.nonce, pipe`sent, pipe`turn
      ensures Valid(pipe.sent) && pipe.Valid() && old(pipe.sent) <= pipe.sent && old(pipe.turn) <= pipe.turn
      ensures Handed() <= old(Handed()) + want
      ensures !pipe.closed && Willing(pipe.plan, from) ==>
                var before := old(Work(Lag(from, pipe.turn)));
                Work(Lag(from, pipe.turn)) <= if want > 0 && before > 0 then before - 1 else before
    {
      hide AeadWriter.EncryptedWriter.Valid, AeadWriter.Clip, Aead.Suite.Lawful;
      if writer.steps.Nothing? {
        pending := total[off..off + Min(want, |total| - off)];
      }
      var r := writer.PollWriteEncrypted(pipe, pending);
      if r.Ready? {
        Advance(total, off, pending, AeadWriter.Clip(pending));
        off := off + r.value;
      }
    }

    /** Everything was acknowledged and nothing is left in the writer. */
    predicate Flushed()
      reads this, writer
    {
      off == |total| && writer.steps.Nothing?
    }

    /** What was sealed so far is the front of what is to be sent; all of it once flushed. */
    lemma SealedIsPrefix(sent: seq<byte>)
      requires Valid(sent)
      ensures Concat(writer.chunks) <= total && |Concat(writer.chunks)| <= Handed()
      ensures Aead.Framable(writer.chunks)
      ensures sent <= AeadWriter.Wire(writer.cipher.session, writer.salt, writer.chunks)
      ensures Flushed() ==> Concat(writer.chunks) == total && sent == writer.wire
    {
      if writer.steps.Writing? {
        Advance(total, off, pending, AeadWriter.Clip(pending));
      }
    }

    /** Whoever finds a boundary at the end of what was sent has exactly what was acknowledged. */
    lemma BoundaryIsAcked(sent: seq<byte>)
      requires Valid(sent) && writer.cipher.session.suite.Lawful() && |sent| >= |writer.salt|
      ensures var p := Aead.Parse(writer.cipher.session, Aead.Length, 0, sent[|writer.salt|..]);
              p.AtBoundary() ==> p.plain == total[..off]
    {
      var s, chunks, body := writer.cipher.session, writer.chunks, sent[|writer.salt|..];
      SealedIsPrefix(sent);
      if writer.steps.Nothing? {
        assert sent == writer.wire;
        if chunks == [] {
          assert body == [];
        } else {
          assert body == Aead.Frames(s, chunks);
          Aead.ParseFrames(s, chunks);
        }
      } else if Aead.Parse(s, Aead.Length, 0, body).AtBoundary() {
        Unfinished(s, writer.salt, chunks, writer.steps.buf, writer.steps.pos, sent);
        AeadWriter.CutBeforeLast(s, chunks, body);
        LastRemoved(Concat(chunks[..|chunks| - 1]), writer.acked, chunks[|chunks| - 1]);
      }
    }
  }

  lemma LastRemoved(a: seq<byte>, b: seq<byte>, c: seq<byte>)
    requires a + c == b + c
    ensures a == b
  {
    assert a == (a + c)[..|a|] && b == (b + c)[..|b|];
  }

  lemma DropFront(a: seq<byte>, b: seq<byte>, n: nat)
    requires n <= |a|
    ensures (a + b)[n..] == a[n..] + b && (n == |a| ==> (a + b)[n..] == b)
  {
  }

  /** Where an unfinished frame leaves the wire. */
  lemma Unfinished(s: Aead.Session, salt: seq<byte>, chunks: seq<seq<byte>>, buf: seq<byte>, pos: nat, sent: seq<byte>)
    requires Aead.Framable(chunks) && chunks != [] && pos < |buf| && |salt| <= |sent|
    requires AeadWriter.Wire(s, salt, chunks) == AeadWriter.Wire(s, salt, chunks[..|chunks| - 1]) + buf
    requires sent + buf[pos..] == AeadWriter.Wire(s, salt, chunks)
    ensures var body := sent[|salt|..];
            && body <= Aead.Frames(s, chunks) && body != Aead.Frames(s, chunks)
            && |Aead.Frames(s, chunks[..|chunks| - 1])| <= |body|
  {
    var body := sent[|salt|..];
    var frames := Aead.Frames(s, chunks);
    hide Aead.Frames;
    DropFront(sent, buf[pos..], |salt|);
    DropFront(salt, frames, |salt|);
    assert body + buf[pos..] == frames;
  }

  lemma Advance(total: seq<byte>, off: nat, pending: seq<byte>, chunk: seq<byte>)
    requires off + |pending| <= |total| && pending == total[off..off + |pending|] && chunk <= pending
    ensures total[..off] + chunk == total[..off + |chunk|]
  {
  }

  datatype Stage = ReadingAddress | Relaying | Ended | Aborted(error: IoError)

  /** Where a server stands: `header` went to `Address::read_from`, `body` was relayed. */
  datatype Reading = Reading(stage: Stage, header: seq<byte>, body: seq<byte>)
  {
    /** What was read goes to the address first, and no more of it than the address wants. */
    ghost predicate Parses(delivered: seq<byte>)
    {
      && delivered == header + body
      && Socks5.Wants(header) >= 0
      && (stage == ReadingAddress ==> Socks5.Wants(header) > 0)
      && (stage == Relaying || stage == Ended || body != [] ==> Socks5.Wants(header) == 0 && Socks5.Read(header).Ok?)
      && (stage == Aborted(BadAddress) ==> Socks5.Wants(header) == 0 && Socks5.Read(header).Err?)
    }

    predicate Active()
    {
      stage == ReadingAddress || stage == Relaying
    }

    /** The buffer of the next read: what the address still wants, or what the relay offers. */
    function Room(offered: nat): (n: nat)
    {
      if stage == ReadingAddress then (if Socks5.Wants(header) > 0 then Socks5.Wants(header) else 0) else offered
    }

    /** How one answer of the stream, read into a buffer of `max` bytes, moves the server on. */
    function Take(r: Poll<seq<byte>>, max: nat): (next: Reading)
    {
      match r
      case Pending => this
      case Failed(e) => this.(stage := Aborted(e))
      case Ready(v) =>
        if stage == ReadingAddress then
          if v == [] then this.(stage := Aborted(UnexpectedEof))
          else if Socks5.Wants(header + v) > 0 then Reading(ReadingAddress, header + v, body)
          else Reading(if Socks5.Read(header + v).Ok? then Relaying else Aborted(BadAddress), header + v, body)
        else
          Reading(if v == [] && max > 0 then Ended else stage, header, body + v)
    }

    lemma TakeNothing(delivered: seq<byte>, r: Poll<seq<byte>>, max: nat)
      requires Parses(delivered) && Active() && !r.Ready? && r != Failed(BadAddress)
      ensures Take(r, max).Parses(delivered) && Take(r, max).header == header && Take(r, max).body == body
      ensures r.Pending? ==> Take(r, max).stage == stage
      ensures r.Failed? ==> Take(r, max).stage == Aborted(r.error)
    {
    }

    lemma TakeParses(delivered: seq<byte>, v: seq<byte>, max: nat)
      requires Parses(delivered) && Active() && |v| <= max
      requires stage == ReadingAddress ==> max == Socks5.Wants(header)
      ensures var next := Take(Ready(v), max);
              && next.Parses(delivered + v)
              && (!next.Active() && next.stage != Aborted(BadAddress) ==> v == [] && max > 0)
              && (next.Active() && v == [] ==> max == 0)
              && |next.body| <= |body| + (if stage == ReadingAddress then 0 else max)
              && (next.stage.Aborted? && next.stage != Aborted(BadAddress) ==>
                    next.stage == Aborted(UnexpectedEof) && Socks5.Wants(next.header) > 0)
    {
      hide Socks5.Wants, Socks5.Read;
      if stage == ReadingAddress {
        assert (header + []) + v == (header + v) + [];
        if v != [] {
          WantsStep(header, v);
        }
      } else {
        assert (header + body) + v == header + (body + v);
      }
    }
  }

  /** The server side, fed by anyone. */
  class Server {
    const reader: CryptoStream.CryptoReader
    const context: Replay.PingPongBloom
    var at: Reading

    ghost const accepted: seq<seq<byte>>   // what the context had accepted before this connection's salt

    /** Whether the context reports the salt. */
    ghost predicate Reported(salt: seq<byte>)
    {
      Replay.Reported(context.hit, context.itemCount, accepted, salt)
    }

    /** The salt is checked once, against what the context remembered at the start. */
    ghost predicate Screened(stage: Stage)
      reads reader, context
    {
      && (reader.dec == null ==> context.accepted == accepted)
      && (reader.dec != null ==> !Reported(reader.salt))
      && (stage == Aborted(RepeatedSalt) ==>
            reader.dec == null && |reader.salt| == reader.suite.saltSize && Reported(reader.salt))
    }

    ghost predicate Sound(at: Reading)
      reads reader, reader.Footprint(), context
    {
      && at.stage != Aborted(DecryptFailed)
      && reader.Valid() && context.Valid()
      && Screened(at.stage)
      && at.Parses(reader.delivered)
      && (at.stage == Ended ==> reader.final)
    }

    /** The reader took the front of what the pipe carries, and saw its end only there. */
    ghost predicate Linked(pipe: Pipe)
      requires pipe.Valid()
      reads reader, pipe
    {
      && reader.consumed == pipe.sent[..pipe.received]
      && (reader.final ==> pipe.closed && pipe.received == |pipe.sent|)
    }

    /** The stream ended before the salt, inside a frame, or between frames but inside the address. */
    ghost predicate Truncated(header: seq<byte>)
      requires reader.suite.Lawful()
      reads reader
    {
      |reader.consumed| >= reader.suite.saltSize ==>
        || !CryptoStream.Decode(reader.suite, reader.key, reader.consumed).AtBoundary()
        || (reader.final && Socks5.Wants(header) > 0)
    }

    constructor (suite: Aead.Suite, key: seq<byte>, advanceOnFailure: bool, context: Replay.PingPongBloom)
      requires suite.Lawful() && context.Valid()
      ensures Sound(at) && at == Reading(ReadingAddress, [], [])
      ensures fresh(reader) && reader.dec == null && reader.consumed == [] && !reader.final && reader.delivered == []
      ensures this.context == context && accepted == context.accepted
      ensures reader.suite == suite && reader.key == key
    {
      reader := new CryptoStream.CryptoReader(suite, key, advanceOnFailure);
      this.context, accepted := context, context.accepted;
      at := Reading(ReadingAddress, [], []);
    }

    /** One poll of the address reader, or of the relay with a buffer of `max` bytes. */
    method Poll(pipe: Pipe, max: nat)
      requires Sound(at) && pipe.Valid() && Linked(pipe) && at.Active()
      modifies this`at, reader, reader.Footprint(), context, pipe`received, pipe`turn
      ensures pipe.Valid() && Linked(pipe) && context.Valid()
      ensures fresh(reader.Footprint() - old(reader.Footprint()))
      ensures at.stage != Aborted(DecryptFailed) ==> Sound(at)
      ensures at.stage == Aborted(DecryptFailed) ==> Broke()
      ensures at.stage == Aborted(UnexpectedEof) ==> pipe.closed && pipe.received == |pipe.sent| && Truncated(at.header)
      ensures at.stage == Aborted(TransportError) ==> pipe.Broke()
      ensures old(pipe.turn) <= pipe.turn
      ensures |old(reader.delivered)| <= |reader.delivered|
      ensures |at.body| <= |old(at.body)| + max
      // an active server has got something, or the transport let it wait
      ensures at.Active() && max > 0 ==>
                |old(reader.delivered)| < |reader.delivered| || (old(pipe.turn) < pipe.turn && pipe.Waited())
    {
      hide *;
      var next := Fetch(pipe, max);
      at := next;
    }

    ghost predicate Broke()
      reads reader
    {
      && reader.suite.Lawful()
      && |reader.consumed| >= reader.suite.saltSize
      && CryptoStream.Decode(reader.suite, reader.key, reader.consumed).Broken?
    }

    lemma RoomFor(max: nat)
      requires Sound(at) && at.Active()
      ensures at.Room(max) == if at.stage == ReadingAddress then Socks5.Wants(at.header) else max
      ensures max > 0 ==> at.Room(max) > 0
      ensures reader.suite.Lawful()
    {
      hide Socks5.Wants, Socks5.Read;
    }

    method Fetch(pipe: Pipe, max: nat) returns (next: Reading)
      requires Sound(at) && pipe.Valid() && Linked(pipe) && at.Active()
      modifies reader, reader.Footprint(), context, pipe`received, pipe`turn
      ensures pipe.Valid() && Linked(pipe) && context.Valid()
      ensures fresh(reader.Footprint() - old(reader.Footprint())) && this !in reader.Footprint()
      ensures next.stage != Aborted(DecryptFailed) ==> Sound(next)
      ensures next.stage == Aborted(DecryptFailed) ==> Broke()
      ensures next.stage == Aborted(UnexpectedEof) ==>
                pipe.closed && pipe.received == |pipe.sent| && Truncated(next.header)
      ensures next.stage == Aborted(TransportError) ==> pipe.Broke()
      ensures old(pipe.turn) <= pipe.turn
      ensures |old(reader.delivered)| <= |reader.delivered|
      ensures |next.body| <= |old(at.body)| + max
      // an active server has got something, or the transport let it wait
      ensures next.Active() && max > 0 ==>
                |old(reader.delivered)| < |reader.delivered| || (old(pipe.turn) < pipe.turn && pipe.Waited())
    {
      hide Socks5.Wants, Socks5.Read, Replay.PingPongBloom.Valid, CryptoStream.CryptoReader.Valid,
        CryptoStream.Decode, Aead.Suite.Lawful, Linked;
      RoomFor(max);
      hide Reading.Parses, Reading.Take, Reading.Room, Reading.Active, Screened;
      var room := at.Room(max);
      var r := Read(pipe, room);
      next := at.Take(r, room);
      if r.Ready? {
        at.TakeParses(old(reader.delivered), r.value, room);
      } else {
        at.TakeNothing(old(reader.delivered), r, room);
      }
      ScreenedLike(next.stage);
    }

    /** Only a repeated salt makes a difference to what was screened. */
    lemma ScreenedLike(stage: Stage)
      ensures stage != Aborted(RepeatedSalt) && Screened(Relaying) ==> Screened(stage)
    {
    }

    /** One poll of the stream: the salt is still screened, and the pipe still linked. */
    method Read(pipe: Pipe, room: nat) returns (r: Poll<seq<byte>>)
      requires reader.Valid() && context.Valid() && Screened(Relaying) && pipe.Valid() && Linked(pipe)
      modifies reader, reader.Footprint(), context, pipe`received, pipe`turn
      ensures pipe.Valid() && Linked(pipe) && context.Valid() && old(pipe.turn) <= pipe.turn
      ensures fresh(reader.Footprint() - old(reader.Footprint())) && this !in reader.Footprint()
      ensures r != Failed(DecryptFailed) ==> reader.Valid()
      ensures Screened(if r == Failed(RepeatedSalt) then Aborted(RepeatedSalt) else Relaying)
      ensures r == Failed(DecryptFailed) ==> Broke()
      ensures r == Failed(UnexpectedEof) ==>
                && pipe.closed && pipe.received == |pipe.sent| && reader.suite.Lawful()
                && (|reader.consumed| >= reader.suite.saltSize ==>
                      !CryptoStream.Decode(reader.suite, reader.key, reader.consumed).AtBoundary())
      ensures r == Failed(TransportError) ==> pipe.Broke()
      ensures r.Failed? ==> r.error != BadAddress
      ensures r.Pending? ==> old(pipe.turn) < pipe.turn && pipe.Waited()
      ensures r.Ready? ==> |r.value| <= room && reader.delivered == old(reader.delivered) + r.value
      ensures !r.Ready? ==> reader.delivered == old(reader.delivered)
      ensures r == Ready([]) && room > 0 ==>
                reader.final && pipe.closed && pipe.received == |pipe.sent|
    {
      assert reader.suite.Lawful();
      hide Replay.PingPongBloom.Valid, Replay.Reported, CryptoStream.CryptoReader.Valid, CryptoStream.Decode,
        Aead.Suite.Lawful;
      r := reader.PollRead(context, pipe, room);
      Whole(pipe.sent, old(pipe.received), pipe.received);
    }
  }

  lemma Whole(s: seq<byte>, i: nat, j: nat)
    requires i <= j <= |s|
    ensures s[..i] + s[i..j] == s[..j]
  {
  }

  lemma WantsStep(header: seq<byte>, v: seq<byte>)
    requires Socks5.Wants(header) > 0 && 0 < |v| <= Socks5.Wants(header)
    ensures Socks5.Wants(header + v) >= 0
  {
    if header == [] {
      assert header + v == v;
    } else {
      assert (header + v)[0] == header[0];
    }
  }

  /**
   Any front of what an honest writer sends, at least the salt long, decodes without a
   failure to a front of the plaintext. A decoder at a boundary has the plaintext of the first
   chunks, and of all of them after the whole wire.
   */
  lemma HonestWire(suite: Aead.Suite, key: seq<byte>, salt: seq<byte>, chunks: seq<seq<byte>>, wire: seq<byte>)
    requires suite.Lawful() && |salt| == suite.saltSize <= |wire| && Aead.Framable(chunks)
    requires wire <= salt + Aead.Frames(Aead.Session(suite, suite.derive(key, salt)), chunks)
    ensures var p, s := CryptoStream.Decode(suite, key, wire), Aead.Session(suite, suite.derive(key, salt));
            && wire[..suite.saltSize] == salt
            && p.Reading? && p.plain <= Concat(chunks)
            && (p.AtBoundary() ==> exists k :: 0 <= k <= |chunks| && p.plain == Concat(chunks[..k]))
            && (wire == salt + Aead.Frames(s, chunks) ==> p.AtBoundary() && p.plain == Concat(chunks))
  {
    var s := Aead.Session(suite, suite.derive(key, salt));
    var body := wire[suite.saltSize..];
    assert wire[..suite.saltSize] == salt;
    assert body <= Aead.Frames(s, chunks);
    Aead.ParsePrefix(s, chunks, body);
    if Aead.Parse(s, Aead.Length, 0, body).AtBoundary() {
      var k := Aead.CutPoint(s, chunks, body);
      Aead.ParseFrames(s, chunks[..k]);
    }
    if wire == salt + Aead.Frames(s, chunks) {
      assert body == Aead.Frames(s, chunks);
      Aead.ParseFrames(s, chunks);
    }
  }

  /** A client, a pipe and a server that share a key. */
  class Connection {
    const client: Client
    const server: Server
    const pipe: Pipe
    const address: Socks5.Address
    const payload: seq<byte>
    var flushed: bool    // the client had handed over everything when it hung up

    ghost predicate Setup()
      reads client, server, server.reader
    {
      var suite, key := server.reader.suite, server.reader.key;
      && suite.Lawful()
      && Socks5.Encodable(address)
      && client.total == Socks5.Write(address) + payload
      && |client.writer.salt| == suite.saltSize
      && client.writer.cipher.session == Aead.Session(suite, suite.derive(key, client.writer.salt))
    }

    ghost function ClientSide(): (s: set<object>)
      reads this
    {
      {client, client.writer, client.writer.cipher, client.writer.cipher.nonce}
    }

    ghost function Objects(): (s: set<object>)
      reads this, server.reader
    {
      ClientSide() + {server, server.reader, server.context, pipe} + server.reader.Footprint()
    }

    ghost predicate Valid()
      reads this, ClientSide(), server, server.reader, server.reader.Footprint(), server.context, pipe
    {
      && Setup()
      && ClientSide() !! server.reader.Footprint()
      && this as object !in ClientSide() + server.reader.Footprint()
      && pipe.Valid() && client.Valid(pipe.sent)
      && server.Sound(server.at) && server.Linked(pipe)
      && (flushed ==> pipe.closed) && (pipe.closed ==> flushed == client.Flushed())
      && (server.at.stage == Aborted(TransportError) ==> !Reliable(pipe.plan))
      && (server.at.stage == Aborted(UnexpectedEof) ==>
            pipe.closed && pipe.received == |pipe.sent| && server.Truncated(server.at.header))
    }

    constructor (suite: Aead.Suite, key: seq<byte>, salt: seq<byte>, advanceOnFailure: bool,
                 context: Replay.PingPongBloom, address: Socks5.Address, payload: seq<byte>, plan: nat -> Event)
      requires suite.Lawful() && |salt| == suite.saltSize && context.Valid() && Socks5.Encodable(address)
      ensures Valid() && !flushed && this.address == address && this.payload == payload
      ensures server.context == context && server.accepted == context.accepted && client.writer.salt == salt
      ensures server.at == Reading(ReadingAddress, [], []) && server.reader.dec == null
      ensures fresh(ClientSide()) && fresh(server) && fresh(server.reader) && fresh(pipe)
      ensures pipe.plan == plan && pipe.turn == 0 && !pipe.closed && server.reader.delivered == []
      ensures client.off == 0 && client.writer.steps.Nothing? && client.total == Socks5.Write(address) + payload
    {
      hide Client.Valid, Server.Sound, Socks5.Write, Socks5.Encodable, Aead.Suite.Lawful, Replay.PingPongBloom.Valid;
      var p := new Pipe(plan);
      var c := new Client(suite, key, salt, Socks5.Write(address) + payload);
      var s := new Server(suite, key, advanceOnFailure, context);
      assert s.Sound(s.at) && s.reader.Footprint() == {};
      client, server, pipe := c, s, p;
      this.address, this.payload, flushed := address, payload, false;
    }

    /** What the writer sealed and what the reader took fit together. */
    lemma Fits()
      requires Setup() && pipe.Valid() && client.Valid(pipe.sent) && server.Linked(pipe)
      ensures Aead.Framable(client.writer.chunks) && Concat(client.writer.chunks) <= client.total
      ensures |Concat(client.writer.chunks)| <= client.Handed()
      ensures server.reader.consumed
              <= client.writer.salt + Aead.Frames(client.writer.cipher.session, client.writer.chunks)
      ensures client.Flushed() && pipe.received == |pipe.sent| && client.total != [] ==>
                && Concat(client.writer.chunks) == client.total
                && server.reader.consumed
                   == client.writer.salt + Aead.Frames(client.writer.cipher.session, client.writer.chunks)
    {
      client.SealedIsPrefix(pipe.sent);
      var w := client.writer;
      assert AeadWriter.Wire(w.cipher.session, w.salt, w.chunks) <= w.salt + Aead.Frames(w.cipher.session, w.chunks);
      assert pipe.received == |pipe.sent| ==> pipe.sent[..pipe.received] == pipe.sent;
    }

    /** What an honest client sent never fails to open. */
    lemma NeverBreaks()
      requires Setup() && pipe.Valid() && client.Valid(pipe.sent) && server.Linked(pipe)
      ensures !server.Broke()
    {
      hide Client.Valid, Server.Linked, Socks5.Write, Socks5.Encodable, CryptoStream.Decode;
      Fits();
      var r := server.reader;
      if |r.consumed| >= r.suite.saltSize {
        HonestWire(r.suite, r.key, client.writer.salt, client.writer.chunks, r.consumed);
      }
    }

    method ClientTurn(want: nat, ghost from: nat)
      requires Valid() && !pipe.closed
      modifies ClientSide(), pipe`sent, pipe`turn
      ensures Valid() && old(pipe.turn) <= pipe.turn && client.Handed() <= old(client.Handed()) + want
      ensures Willing(pipe.plan, from) ==>
                var before := old(client.Work(Lag(from, pipe.turn)));
                client.Work(Lag(from, pipe.turn)) <= if want > 0 && before > 0 then before - 1 else before
    {
      hide Client.Valid, Server.Sound, Server.Truncated, Socks5.Write, Socks5.Encodable, Aead.Suite.Lawful;
      client.Poll(pipe, want, from);
      assert server.Linked(pipe);
    }

    method Hangup()
      requires Valid() && !pipe.closed
      modifies this`flushed, pipe`closed
      ensures Valid() && pipe.closed
    {
      hide Client.Valid, Server.Sound, Server.Truncated, Socks5.Write, Socks5.Encodable, Aead.Suite.Lawful;
      flushed := client.Flushed();
      pipe.Close();
    }

    /** Once nobody writes any more and the transport is willing, every read is a step ahead or the last. */
    method ServerTurn(max: nat, ghost from: nat)
      requires Valid() && server.at.Active()
      modifies server`at, server.reader, server.reader.Footprint(), server.context, pipe`received, pipe`turn
      ensures Valid() && fresh(server.reader.Footprint() - old(server.reader.Footprint()))
                && old(pipe.turn) <= pipe.turn
      ensures pipe.closed && Willing(pipe.plan, from) && max > 0 && server.at.Active() ==>
                Lag(from, pipe.turn) + |old(server.reader.delivered)|
                < Lag(from, old(pipe.turn)) + |server.reader.delivered|
      ensures |old(server.reader.delivered)| <= |server.reader.delivered|
      ensures |server.at.body| <= |old(server.at.body)| + max
    {
      hide Client.Valid, Server.Sound, Server.Truncated, Server.Broke, Socks5.Write, Socks5.Encodable,
        Aead.Suite.Lawful;
      server.Poll(pipe, max);
      NeverBreaks();
    }

    /** The salt the server took is the client's. */
    lemma SameSalt()
      requires Valid() && |server.reader.salt| == server.reader.suite.saltSize
      ensures server.reader.salt == client.writer.salt
    {
      hide Client.Valid, Server.Linked, Socks5.Write, Socks5.Encodable, CryptoStream.Decode, Reading.Parses;
      Fits();
      var r := server.reader;
      assert r.salt == r.consumed[..r.suite.saltSize];
      HonestWire(r.suite, r.key, client.writer.salt, client.writer.chunks, r.consumed);
    }

    /** What the server has read is a front of what the client sends, and at a clean end what was acknowledged. */
    lemma ReadsPrefix()
      requires Valid()
      ensures server.reader.delivered <= client.total && client.off <= |client.total|
      ensures |server.reader.delivered| <= client.Handed()
      ensures server.reader.final ==> pipe.closed && server.reader.delivered == client.total[..client.off]
    {
      hide Socks5.Write, Socks5.Encodable, CryptoStream.Decode, Reading.Parses, Server.Screened, Server.Truncated;
      var r := server.reader;
      if r.dec != null {
        Front();
        if r.final {
          AllRead();
        }
      }
    }

    lemma Front()
      requires Valid() && server.reader.dec != null
      ensures server.reader.delivered <= client.total && |server.reader.delivered| <= client.Handed()
      ensures server.reader.salt == client.writer.salt
    {
      hide Client.Valid, Socks5.Write, Socks5.Encodable, CryptoStream.Decode, Reading.Parses, Server.Screened,
        Server.Truncated;
      Fits();
      var r := server.reader;
      r.Decodes();
      HonestWire(r.suite, r.key, client.writer.salt, client.writer.chunks, r.consumed);
      assert r.salt == r.consumed[..r.suite.saltSize];
    }

    lemma AllRead()
      requires Valid() && server.reader.dec != null && server.reader.final
      ensures server.reader.delivered == client.total[..client.off]
    {
      hide Client.Valid, Socks5.Write, Socks5.Encodable, Reading.Parses, Server.Screened, Server.Truncated,
        Aead.Suite.Lawful;
      var r := server.reader;
      r.Decodes();
      Front();
      assert pipe.sent[..pipe.received] == pipe.sent;
      client.BoundaryIsAcked(pipe.sent);
    }

    /** A client that handed everything over is never mistaken for a cut connection. */
    lemma FlushedIsNotTruncated()
      requires Valid() && flushed && pipe.received == |pipe.sent|
      ensures server.reader.final ==> Socks5.Wants(server.at.header) == 0
      ensures |server.reader.consumed| >= server.reader.suite.saltSize
      ensures CryptoStream.Decode(server.reader.suite, server.reader.key, server.reader.consumed).AtBoundary()
    {
      hide Client.Valid, Socks5.Write, Socks5.Encodable, CryptoStream.Decode, Server.Screened, Server.Truncated,
        Server.Linked;
      Fits();
      var r := server.reader;
      HonestWire(r.suite, r.key, client.writer.salt, client.writer.chunks, r.consumed);
      if r.final {
        ReadsPrefix();
        Arrives(server.at, address, payload, r.delivered);
      }
    }

    /** Everything that holds of a connection in every reachable state. */
    lemma Guarantee()
      requires Valid()
      ensures Delivers(server.at, address, payload) && |server.reader.delivered| <= |client.total|
      ensures client.off <= |client.total|
      ensures |server.at.header| + |server.at.body| == |server.reader.delivered| <= client.Handed()
      ensures server.at.stage == Ended || server.at.stage == Aborted(UnexpectedEof) ==> pipe.closed
      ensures server.at.stage == Ended ==> server.at.header + server.at.body == client.total[..client.off]
      ensures server.at.stage == Ended && flushed ==> server.at.body == payload
      ensures server.at.stage == Aborted(UnexpectedEof) ==> !flushed
      ensures server.at.stage == Aborted(RepeatedSalt) ==> server.Reported(client.writer.salt)
      ensures server.Reported(client.writer.salt) ==>
                server.at.header == [] && server.at.body == [] && server.at.stage != Relaying
                  && server.at.stage != Ended
    {
      hide Client.Valid, Socks5.Write, Socks5.Encodable, Socks5.Read, CryptoStream.Decode, Server.Linked,
        Replay.Reported;
      ReadsPrefix();
      Arrives(server.at, address, payload, server.reader.delivered);
      if server.reader.dec != null || server.at.stage == Aborted(RepeatedSalt) {
        SameSalt();
      }
      if server.at.stage == Aborted(UnexpectedEof) && flushed {
        FlushedIsNotTruncated();
      }
      assert client.off == |client.total| ==> client.total[..client.off] == client.total;
    }
  }

  /** What the server has made of an address and a payload. */
  ghost predicate Delivers(at: Reading, address: Socks5.Address, payload: seq<byte>)
    requires Socks5.Encodable(address)
  {
    && at.stage != Aborted(DecryptFailed) && at.stage != Aborted(BadAddress)
    && at.header <= Socks5.Write(address)
    && (at.stage == Relaying || at.stage == Ended || at.body != [] ==>
          Socks5.Read(at.header) == Socks5.Ok(Socks5.Carried(address), []))
    && at.body <= payload
  }

  lemma Arrives(at: Reading, address: Socks5.Address, payload: seq<byte>, delivered: seq<byte>)
    requires Socks5.Encodable(address) && at.stage != Aborted(DecryptFailed)
    requires at.Parses(delivered) && delivered <= Socks5.Write(address) + payload
    ensures Delivers(at, address, payload)
    ensures delivered == Socks5.Write(address) + payload ==> at.body == payload && Socks5.Wants(at.header) == 0
  {
    var w := Socks5.Write(address);
    assert at.header == delivered[..|at.header|];
    Socks5.StopsAtAddress(address, payload, at.header);
    if Socks5.Wants(at.header) == 0 {
      Socks5.ReadWrite(address, []);
      assert w + [] == w;
      assert at.body == delivered[|w|..];
      assert payload == (w + payload)[|w|..];
    }
  }

  ghost predicate RunsOnTime(c: Connection, from: nat, turns: seq<Turn>)
    reads c, c.client, c.client.writer, c.server, c.server.reader, c.pipe
  {
    var lag := Lag(from, c.pipe.turn);
    OnTime(from, 2 * from + |c.client.total|, c.client.Work(lag), lag, c.pipe.closed, c.server.at.Active(),
           |c.server.reader.delivered|, Writes(turns), Reads(turns))
  }

  /** Nothing is written that was not offered, and nothing read that was not asked for. */
  ghost predicate Causal(c: Connection, turns: seq<Turn>)
    reads c, c.client, c.client.writer, c.server, c.pipe
  {
    && (c.pipe.closed <==> Hangup in turns)
    && c.client.Handed() <= Offered(turns) && |c.server.at.body| <= Asked(turns)
    && (!AnyReceive(turns) ==> c.server.at == Reading(ReadingAddress, [], []))
  }

  /**
   Runs a tunnel under any schedule: any split of address and payload into writes, any
   interleaving of the two sides, any answers of the transport, a hang-up at any time, and a
   server with any past, which stands for everything its memory was shown before this salt.

   The server parses exactly the client's address; what it relays is always a front of the
   payload, no more than was offered and asked for, and at a clean end, which there is only after
   a hang-up, it has exactly what was acknowledged to the client. It never fails to decrypt. It
   reports a truncated stream only if the client did hang up before everything was handed over,
   and a repeated salt only if its memory reports the salt; then it reads nothing.

   And it comes to an end: over a transport that is willing from some poll on, all but so many
   writes are acknowledged with a byte, and all of the data if there are enough of them; all but
   so many reads behind the hang-up get a byte or the end; and if the transport never fails
   either, the server ends with the whole payload, or with the salt refused.
   */
  method Run(suite: Aead.Suite, key: seq<byte>, salt: seq<byte>, advanceOnFailure: bool, past: Replay.Past,
             address: Socks5.Address, payload: seq<byte>, plan: nat -> Event, turns: seq<Turn>, ghost from: nat)
    returns (at: Reading, acked: nat, flushed: bool)
    requires suite.Lawful() && |salt| == suite.saltSize && past.Sound() && Socks5.Encodable(address)
    ensures Delivers(at, address, payload)
    ensures acked <= Offered(turns) && |at.header| + |at.body| <= Offered(turns) && |at.body| <= Asked(turns)
    ensures !AnyReceive(turns) ==> at == Reading(ReadingAddress, [], [])
    ensures at.stage == Ended || at.stage == Aborted(UnexpectedEof) || flushed ==> Hangup in turns
    ensures at.stage == Aborted(UnexpectedEof) ==> !flushed
    ensures at.stage == Aborted(RepeatedSalt) ==> past.Reports(salt)
    ensures past.Reports(salt) ==> at.header == [] && at.body == []
    ensures var total := Socks5.Write(address) + payload;
            && acked <= |total| && (flushed ==> acked == |total|)
            && (at.stage == Ended ==> at.header + at.body == total[..acked])
            && (Willing(plan, from) ==>
                  && (acked == |total| || Writes(turns) <= 2 * from + acked)
                  && (at.Active() ==> Reads(turns) <= from + |at.header| + |at.body|)
                  && (Writes(turns) >= 2 * from + |total| && Hangup in turns ==> flushed)
                  && (Writes(turns) >= 2 * from + |total| && Reads(turns) > from + |total| && Reliable(plan) ==>
                        if past.Reports(salt) then at.stage == Aborted(RepeatedSalt)
                        else at.stage == Ended && at.body == payload))
  {
    hide Connection.Valid, Replay.PingPongBloom.Valid, Reading.Active, Delivers, Aead.Suite.Lawful, Socks5.Encodable,
      Socks5.Write, Replay.Reported, Replay.Past.Sound, Replay.Past.Accepted, RunsOnTime, Causal, Writes, Reads,
      Offered, Asked, AnyReceive, Willing, Reliable;
    var context := Replay.Recall(past);
    var c := new Connection(suite, key, salt, advanceOnFailure, context, address, payload, plan);
    Started(c, from);
    for k := 0 to |turns|
      invariant c.Valid() && fresh(c) && fresh(c.Objects()) && Causal(c, turns[..k])
      invariant Willing(plan, from) ==> RunsOnTime(c, from, turns[..k])
    {
      TakeTurn(c, turns, k, from);
    }
    assert turns[..|turns|] == turns;
    c.Guarantee();
    Bounded(c, turns);
    if Willing(plan, from) {
      Finished(c, from, turns);
    }
    at, acked, flushed := c.server.at, c.client.off, c.flushed;
  }

  lemma Started(c: Connection, from: nat)
    requires c.client.off == 0 && c.pipe.turn == 0 && !c.pipe.closed && c.client.writer.steps.Nothing?
    requires c.server.at == Reading(ReadingAddress, [], [])
    ensures RunsOnTime(c, from, []) && Causal(c, [])
  {
  }

  /** One turn of the client, the server or the hang-up, where it can be taken. */
  method TakeTurn(c: Connection, turns: seq<Turn>, k: nat, ghost from: nat)
    requires k < |turns| && c.Valid() && Causal(c, turns[..k])
    requires Willing(c.pipe.plan, from) ==> RunsOnTime(c, from, turns[..k])
    modifies c, c.Objects()
    ensures c.Valid() && Causal(c, turns[..k + 1])
    ensures Willing(c.pipe.plan, from) ==> RunsOnTime(c, from, turns[..k + 1])
    ensures fresh(c.Objects() - old(c.Objects()))
  {
    hide Connection.Valid, Reading.Active, RunsOnTime, Causal, Writes, Reads, Offered, Asked, AnyReceive, Willing;
    if turns[k].Send? && !c.pipe.closed {
      TakeClientTurn(c, turns, k, from);
    } else if turns[k].Receive? && c.server.at.Active() {
      TakeServerTurn(c, turns, k, from);
    } else if turns[k] == Hangup && !c.pipe.closed {
      TakeHangup(c, turns, k, from);
    } else {
      NoTurn(c, turns, k, from);
    }
  }

  method TakeClientTurn(c: Connection, turns: seq<Turn>, k: nat, ghost from: nat)
    requires k < |turns| && c.Valid() && turns[k].Send? && !c.pipe.closed && Causal(c, turns[..k])
    requires Willing(c.pipe.plan, from) ==> RunsOnTime(c, from, turns[..k])
    modifies c.ClientSide(), c.pipe`sent, c.pipe`turn
    ensures c.Valid() && Causal(c, turns[..k + 1])
    ensures Willing(c.pipe.plan, from) ==> RunsOnTime(c, from, turns[..k + 1])
  {
    hide Connection.Valid, Reading.Active, Writes, Reads, Offered, Asked, AnyReceive, Willing;
    Counted(turns, k);
    c.ClientTurn(turns[k].want, from);
  }

  method TakeServerTurn(c: Connection, turns: seq<Turn>, k: nat, ghost from: nat)
    requires k < |turns| && c.Valid() && turns[k].Receive? && c.server.at.Active() && Causal(c, turns[..k])
    requires Willing(c.pipe.plan, from) ==> RunsOnTime(c, from, turns[..k])
    modifies c.server`at, c.server.reader, c.server.reader.Footprint(), c.server.context, c.pipe`received, c.pipe`turn
    ensures c.Valid() && Causal(c, turns[..k + 1])
    ensures Willing(c.pipe.plan, from) ==> RunsOnTime(c, from, turns[..k + 1])
    ensures fresh(c.server.reader.Footprint() - old(c.server.reader.Footprint()))
  {
    hide Connection.Valid, Reading.Active, Writes, Reads, Offered, Asked, AnyReceive, Willing;
    Counted(turns, k);
    c.ServerTurn(turns[k].max, from);
  }

  method TakeHangup(c: Connection, turns: seq<Turn>, k: nat, ghost from: nat)
    requires k < |turns| && c.Valid() && turns[k] == Hangup && !c.pipe.closed && Causal(c, turns[..k])
    requires Willing(c.pipe.plan, from) ==> RunsOnTime(c, from, turns[..k])
    modifies c`flushed, c.pipe`closed
    ensures c.Valid() && Causal(c, turns[..k + 1])
    ensures Willing(c.pipe.plan, from) ==> RunsOnTime(c, from, turns[..k + 1])
  {
    hide Connection.Valid, Reading.Active, Writes, Reads, Offered, Asked, AnyReceive, Willing;
    Counted(turns, k);
    c.Hangup();
  }

  /** A turn that cannot be taken: the client is gone, or the server is done. */
  lemma NoTurn(c: Connection, turns: seq<Turn>, k: nat, from: nat)
    requires k < |turns| && Causal(c, turns[..k])
    requires turns[k].Send? || turns[k] == Hangup ==> c.pipe.closed
    requires turns[k].Receive? ==> !c.server.at.Active()
    ensures Causal(c, turns[..k + 1])
    ensures RunsOnTime(c, from, turns[..k]) ==> RunsOnTime(c, from, turns[..k + 1])
  {
    hide Writes, Reads, Offered, Asked, AnyReceive;
    Counted(turns, k);
  }

  lemma Bounded(c: Connection, turns: seq<Turn>)
    requires c.Valid() && Causal(c, turns)
    ensures c.client.off <= Offered(turns) && |c.server.at.header| + |c.server.at.body| <= Offered(turns)
    ensures |c.server.at.body| <= Asked(turns)
    ensures !AnyReceive(turns) ==> c.server.at == Reading(ReadingAddress, [], [])
    ensures c.pipe.closed <==> Hangup in turns
    ensures c.flushed ==> c.pipe.closed && c.client.off == |c.client.total|
  {
    hide Client.Valid, Server.Sound, Server.Linked, Server.Truncated, Connection.Setup, Offered, Asked, AnyReceive;
    c.Guarantee();
  }

  /** What the counts say at the end of a run. */
  lemma Finished(c: Connection, from: nat, turns: seq<Turn>)
    requires c.Valid() && (c.pipe.closed <==> Hangup in turns)
    requires Willing(c.pipe.plan, from) && RunsOnTime(c, from, turns)
    ensures c.client.off == |c.client.total| || Writes(turns) <= 2 * from + c.client.off
    ensures c.server.at.Active() ==> Reads(turns) <= from + |c.server.at.header| + |c.server.at.body|
    ensures Writes(turns) >= 2 * from + |c.client.total| && Hangup in turns ==> c.flushed
    ensures Reads(turns) > from + |c.client.total| && c.flushed && Reliable(c.pipe.plan) ==>
              if c.server.Reported(c.client.writer.salt) then c.server.at.stage == Aborted(RepeatedSalt)
              else c.server.at.stage == Ended && c.server.at.body == c.payload
    ensures Reads(turns) > 0 ==> Hangup in turns
  {
    hide Client.Valid, Server.Sound, Server.Linked, Server.Truncated, Connection.Setup, Replay.Reported,
      Socks5.Write, Socks5.Read, Socks5.Encodable, Willing, Writes, Reads;
    c.Guarantee();
    match c.server.at.stage
    case Aborted(e) => assert e == RepeatedSalt || !Reliable(c.pipe.plan) || !c.flushed;
    case _ =>
  }
}
