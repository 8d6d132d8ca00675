/** The stream-cipher reader and writer of src/relay/tcprelay/stream.rs. */
module StreamIo {
  import opened Bytes
  import opened Transport

  const BUFFER_SIZE := 8192

  /**
   A stream cipher under one key and IV, as what it makes of everything fed to it. Calls to
   `update` are split-invariant exactly when more input only adds output.
   */
  type Transform = seq<byte> -> seq<byte>

  ghost predicate SplitInvariant(f: Transform)
  {
    f([]) == [] && forall a, b :: f(a) <= f(a + b)
  }

  ghost predicate Inverse(enc: Transform, dec: Transform)
  {
    forall x :: dec(enc(x)) == x
  }

  /** The cipher object: `update` emits what the new input adds, `finalize` emits nothing. */
  class StreamCipher {
    const f: Transform
    var fed: seq<byte>

    constructor (f: Transform)
      ensures this.f == f && fed == []
    {
      this.f, fed := f, [];
    }

    method Update(data: seq<byte>) returns (out: seq<byte>)
      requires SplitInvariant(f)
      modifies this
      ensures fed == old(fed) + data && f(old(fed)) + out == f(fed)
      ensures data == [] ==> out == []
    {
      assert data == [] ==> fed + data == fed;
      assert f(fed) <= f(fed + data);
      out := f(fed + data)[|f(fed)|..];
      fed := fed + data;
    }
  }

  /** The bytes being written come behind the ciphertext of everything acknowledged. */
  ghost predicate Behind(wire: seq<byte>, iv: seq<byte>, done: seq<byte>, acked: seq<byte>, buf: seq<byte>)
  {
    (wire == buf && acked == []) || wire == (iv + done) + buf
  }

  class EncryptedWriter {
    const cipher: StreamCipher
    var steps: WriteStep
    var iv: Option<seq<byte>>

    ghost const firstIv: seq<byte>
    ghost var acked: seq<byte>

    ghost var wire: seq<byte>   // the IV, once and first, then the ciphertext of everything taken

    ghost predicate Valid()
      reads this, cipher
    {
      && SplitInvariant(cipher.f)
      && steps.Valid()
      && (iv.Some? ==> iv == Some(firstIv) && cipher.fed == [] && steps.Nothing?)
      && wire == (if iv.Some? then [] else firstIv + cipher.f(cipher.fed))
      && acked <= cipher.fed
      && (steps.Nothing? ==> acked == cipher.fed)
      && (steps.Writing? ==> Behind(wire, firstIv, cipher.f(acked), acked, steps.buf))
    }

    constructor (f: Transform, iv: seq<byte>)
      requires SplitInvariant(f)
      ensures Valid() && fresh(cipher) && cipher.f == f && firstIv == iv && acked == [] && cipher.fed == []
      ensures this.iv == Some(iv) && steps == Nothing && wire == []
    {
      cipher := new StreamCipher(f);
      steps, this.iv := Nothing, Some(iv);
      firstIv, acked, wire := iv, [], [];
    }

    /** A caller whose last write was not finished polls again with the same data. */
    method PollWriteEncrypted(sink: Pipe, data: seq<byte>) returns (r: Poll<nat>)
      requires Valid() && sink.Valid() && sink.sent + steps.Unsent() == wire
      requires steps.Writing? ==> acked + data == cipher.fed
      modifies this, cipher, sink`sent, sink`turn
      ensures Valid() && sink.Valid() && sink.sent + steps.Unsent() == wire && old(sink.sent) <= sink.sent
      ensures cipher.fed == old(acked) + data
      ensures r.Ready? ==> r.value == |data| && steps == Nothing && acked == cipher.fed
      ensures !r.Ready? ==> steps.Writing? && acked == old(acked)
      // the transport is to blame for anything but `Ready`
      ensures !sink.closed && !r.Ready? ==> old(sink.turn) < sink.turn && sink.Balked()
      ensures old(sink.turn) <= sink.turn && iv.None?
      ensures old(steps).Nothing? && old(iv).None? && data == [] ==> r.Ready?
    {
      hide Valid, SplitInvariant, Behind;
      if steps.Nothing? {
        Encrypt(data);
      }
      var sent := Flush(sink);
      match sent
      case Pending => r := Pending;
      case Failed(e) => r := Failed(e);
      case Ready(_) => r := Ready(|data|);
    }

    method Encrypt(data: seq<byte>)
      requires Valid() && steps.Nothing?
      modifies this, cipher
      ensures Valid() && steps.Writing? && wire == old(wire) + steps.Unsent()
      ensures acked == old(acked) && cipher.fed == acked + data && iv.None?
      ensures data == [] && old(iv).None? ==> steps.Unsent() == []
    {
      Start(cipher.f);
      hide SplitInvariant;
      ghost var was, started := cipher.f(cipher.fed), iv.None?;
      var first := match iv case Some(i) => i case None => [];
      iv := None;
      var out := cipher.Update(data);
      WireGrows(firstIv, was, out, started);
      var buf := first + out;
      wire, steps := wire + buf, Writing(buf, 0);
    }

    method Flush(sink: Pipe) returns (r: Poll<()>)
      requires Valid() && sink.Valid() && sink.sent + steps.Unsent() == wire && steps.Writing?
      modifies this`steps, this`acked, sink`sent, sink`turn
      ensures Valid() && sink.Valid() && sink.sent + steps.Unsent() == wire && old(sink.sent) <= sink.sent
      ensures r.Ready? ==> steps == Nothing && acked == cipher.fed
      ensures !r.Ready? ==> steps.Writing? && acked == old(acked)
      ensures !sink.closed && !r.Ready? ==> old(sink.turn) < sink.turn && sink.Balked()
      ensures old(sink.turn) <= sink.turn && iv.None?
      ensures old(steps.Unsent()) == [] ==> r.Ready?
    {
      hide SplitInvariant, Behind;
      var buf, start, pos := steps.buf, steps.pos, 0;
      r, pos := SendAll(sink, buf, start);
      SplitRest(old(sink.sent), buf, start, pos);
      if r.Ready? {
        steps, acked := Nothing, cipher.fed;
      } else {
        steps := Writing(buf, pos);
      }
    }
  }

  lemma WireGrows(iv: seq<byte>, was: seq<byte>, out: seq<byte>, started: bool)
    requires !started ==> was == []
    ensures (if started then iv + was else []) + ((if started then [] else iv) + out) == iv + (was + out)
  {
  }

  lemma Start(f: Transform)
    requires SplitInvariant(f)
    ensures f([]) == []
  {
  }

  class DecryptedReader {
    const cipher: StreamCipher
    var buffer: seq<byte>
    var pos: nat
    var gotFinal: bool

    ghost var delivered: seq<byte>

    /** Delivered bytes and undelivered tail are the decryption of the bytes consumed. */
    ghost predicate Valid()
      reads this, cipher
    {
      && SplitInvariant(cipher.f)
      && pos <= |buffer|
      && delivered + buffer[pos..] == cipher.f(cipher.fed)
      && (gotFinal ==> pos == |buffer|)
    }

    constructor (f: Transform)
      requires SplitInvariant(f)
      ensures Valid() && fresh(cipher) && cipher.f == f && cipher.fed == [] && delivered == [] && !gotFinal
    {
      cipher := new StreamCipher(f);
      buffer, pos, gotFinal, delivered := [], 0, false, [];
    }

    method PollReadDecrypted(source: Pipe, max: nat) returns (r: Poll<seq<byte>>)
      requires Valid() && source.Valid()
      requires gotFinal ==> source.closed && source.received == |source.sent|
      modifies this, cipher, source`received, source`turn
      ensures Valid() && source.Valid() && old(source.received) <= source.received
      ensures gotFinal ==> source.closed && source.received == |source.sent|
      ensures cipher.fed == old(cipher.fed) + source.sent[old(source.received)..source.received]
      ensures r.Ready? ==> |r.value| <= max && delivered == old(delivered) + r.value
      ensures !r.Ready? ==> delivered == old(delivered)
      ensures r == Ready([]) && max > 0 ==> gotFinal
      ensures r.Failed? ==> r.error == TransportError
      ensures old(gotFinal) ==> gotFinal
      ensures old(source.turn) <= source.turn
      ensures r.Pending? ==> old(source.turn) < source.turn && source.Waited()
      ensures r.Failed? ==> source.Broke()
    {
      hide SplitInvariant;
      while pos >= |buffer|
        invariant Valid() && source.Valid() && old(source.received) <= source.received
        invariant gotFinal ==> source.closed && source.received == |source.sent|
        invariant cipher.fed == old(cipher.fed) + source.sent[old(source.received)..source.received]
        invariant delivered == old(delivered) && (old(gotFinal) ==> gotFinal) && old(source.turn) <= source.turn
        decreases !gotFinal, |source.sent| - source.received
      {
        if gotFinal {
          return Ready([]);
        }
        var n := source.PollRead(BUFFER_SIZE);
        if !n.Ready? {
          return if n.Pending? then Pending else Failed(n.error);
        }
        Feed(n.value);
      }
      r := Deliver(Min(max, |buffer| - pos));
    }

    method Deliver(n: nat) returns (r: Poll<seq<byte>>)
      requires Valid() && pos < |buffer| && n <= |buffer| - pos
      modifies this`pos, this`delivered
      ensures Valid() && r == Ready(old(buffer[pos..pos + n])) && delivered == old(delivered) + r.value
    {
      hide SplitInvariant;
      r := Ready(buffer[pos..pos + n]);
      SplitRest(delivered, buffer, pos, pos + n);
      delivered := delivered + buffer[pos..pos + n];
      pos := pos + n;
    }

    method Feed(data: seq<byte>)
      requires Valid() && pos == |buffer| && !gotFinal
      modifies this`buffer, this`pos, this`gotFinal, cipher
      ensures Valid() && cipher.fed == old(cipher.fed) + data && gotFinal == (data == [])
    {
      assert delivered + buffer[pos..] == delivered;
      pos := 0;
      if data == [] {
        buffer, gotFinal := [], true;
      } else {
        buffer := cipher.Update(data);
      }
    }
  }

  /** Any front of the ciphertext decrypts to a front of the plaintext. */
  lemma DecryptsPrefix(enc: Transform, dec: Transform, plain: seq<byte>, part: seq<byte>)
    requires SplitInvariant(dec) && Inverse(enc, dec) && part <= enc(plain)
    ensures dec(part) <= plain && (part == enc(plain) ==> dec(part) == plain)
  {
    assert part + enc(plain)[|part|..] == enc(plain);
  }

  /** The sending end: writes `total` in pieces of any length, retrying unfinished writes. */
  class Sender {
    const writer: EncryptedWriter
    const total: seq<byte>
    var off: nat
    var pending: seq<byte>

    /** `sent` is what the transport took from this end. */
    ghost predicate Valid(sent: seq<byte>)
      reads this, writer, writer.cipher
    {
      && writer.Valid()
      && sent + writer.steps.Unsent() == writer.wire
      && off <= |total| && writer.acked == total[..off]
      && (writer.steps.Writing? ==>
            && |pending| <= |total| - off
            && pending == total[off..off + |pending|]
            && writer.acked + pending == writer.cipher.fed)
    }

    constructor (enc: Transform, iv: seq<byte>, total: seq<byte>)
      requires SplitInvariant(enc)
      ensures Valid([]) && this.total == total && writer.cipher.f == enc && writer.firstIv == iv
      ensures fresh(writer) && fresh(writer.cipher) && Work(0) <= |total| + 1 && Handed() == 0
    {
      writer := new EncryptedWriter(enc, iv);
      this.total, off, pending := total, 0, [];
    }

    /** What is left to do, counted in polls, with a transport that is willing after `lag` polls. */
    ghost function Work(lag: nat): (n: nat)
      reads this, writer
    {
      if Flushed() then 0
      else
        2 * lag + (if off <= |total| then |total| - off else 0)
        + (if writer.steps.Writing? then 1 else 0) + (if writer.iv.Some? then 1 else 0)
    }

    /** How much of `total` went into writes so far. */
    ghost function Handed(): (n: nat)
      reads this, writer
    {
      off + if writer.steps.Writing? then |pending| else 0
    }

    /** Polls one write; once the transport is willing, every write of something is a step ahead. */
    method Poll(pipe: Pipe, want: nat, ghost from: nat)
      requires Valid(pipe.sent) && pipe.Valid()
      modifies this, writer, writer.cipher, pipe`sent, pipe`turn
      ensures Valid(pipe.sent) && pipe.Valid() && old(pipe.sent) <= pipe.sent && old(pipe.turn) <= pipe.turn
      ensures Handed() <= old(Handed()) + want
      ensures !pipe.closed && Willing(pipe.plan, from) ==>
                var before := old(Work(Lag(from, pipe.turn)));
                Work(Lag(from, pipe.turn)) <= if want > 0 && before > 0 then before - 1 else before
    {
      hide EncryptedWriter.Valid;
      if writer.steps.Nothing? {
        pending := total[off..off + Min(want, |total| - off)];
      }
      assert total[..off] + pending == total[..off + |pending|];
      var r := writer.PollWriteEncrypted(pipe, pending);
      if r.Ready? {
        off := off + r.value;
      }
    }

    predicate Flushed()
      reads this, writer
    {
      off == |total| && writer.steps.Nothing? && writer.iv.None?
    }

    /** What was sent is a front of the IV and the ciphertext; all of it once flushed. */
    lemma SentIsPrefix(enc: Transform, dec: Transform, sent: seq<byte>)
      requires Valid(sent) && writer.cipher.f == enc && Inverse(enc, dec)
      ensures writer.cipher.fed <= total && sent <= writer.firstIv + enc(writer.cipher.fed)
      ensures |writer.cipher.fed| <= Handed()
      ensures Flushed() ==> writer.cipher.fed == total && sent == writer.firstIv + enc(total)
      ensures off <= |total| && (off == 0 || writer.firstIv + enc(total[..off]) <= sent)
    {
      hide SplitInvariant, Behind;
      if writer.steps.Writing? {
        assert total[..off] + pending == total[..off + |pending|];
        AckedIsSent(writer.firstIv, enc(writer.acked), writer.acked, writer.steps.buf, writer.steps.pos, sent,
          writer.wire);
      } else {
        assert sent == writer.wire;
        if writer.iv.Some? {
          assert |total[..off]| == 0;
        }
      }
    }
  }

  /** What was acknowledged is wholly on the wire. */
  lemma AckedIsSent(iv: seq<byte>, done: seq<byte>, acked: seq<byte>, buf: seq<byte>, pos: nat, sent: seq<byte>,
      wire: seq<byte>)
    requires Behind(wire, iv, done, acked, buf) && pos <= |buf| && sent + buf[pos..] == wire
    ensures acked == [] || iv + done <= sent
  {
    if acked != [] {
      var front := iv + done;
      assert buf == buf[..pos] + buf[pos..];
      assert sent == (front + buf[..pos]) by {
        assert wire == (front + buf[..pos]) + buf[pos..];
        assert sent == wire[..|sent|];
      }
    }
  }

  ghost predicate Decrypts(dec: seq<byte> -> Transform)
  {
    forall i :: SplitInvariant(dec(i))
  }

  /** For every IV, two split-invariant ciphers, the second undoing the first. */
  ghost predicate Ciphers(enc: seq<byte> -> Transform, dec: seq<byte> -> Transform)
  {
    Decrypts(dec) && forall i :: SplitInvariant(enc(i)) && Inverse(enc(i), dec(i))
  }

  lemma Agreed(enc: seq<byte> -> Transform, dec: seq<byte> -> Transform, iv: seq<byte>)
    requires Ciphers(enc, dec)
    ensures Decrypts(dec) && SplitInvariant(enc(iv)) && SplitInvariant(dec(iv)) && Inverse(enc(iv), dec(iv))
  {
  }

  datatype Status = Active | Ended | Broken(error: IoError)

  /** The receiving end: reads the IV, then decrypts under it. */
  class Receiver {
    const ivSize: nat
    const dec: seq<byte> -> Transform   // IV to what the cipher makes of the bytes after it
    var iv: seq<byte>
    var reader: DecryptedReader?
    var out: seq<byte>
    var status: Status

    ghost function Footprint(): (s: set<object>)
      reads this
    {
      if reader == null then {} else {reader, reader.cipher}
    }

    ghost predicate Valid(consumed: seq<byte>)
      reads this, Footprint()
    {
      && |iv| <= ivSize
      && if reader == null then iv == consumed && out == [] && status != Ended
         else
           && |iv| == ivSize && reader.Valid() && reader.cipher.f == dec(iv)
           && consumed == iv + reader.cipher.fed && out == reader.delivered
           && (status == Ended ==> reader.gotFinal) && status != Broken(UnexpectedEof)
    }

    constructor (ivSize: nat, dec: seq<byte> -> Transform)
      ensures Valid([]) && reader == null && this.ivSize == ivSize && this.dec == dec && status == Active && out == []
    {
      this.ivSize, this.dec := ivSize, dec;
      iv, reader, out, status := [], null, [], Active;
    }

    /** The end of the stream was seen only where the pipe ends, and a failure only if it failed. */
    ghost predicate EndsWith(pipe: Pipe)
      reads this, reader, pipe
    {
      && (reader != null && reader.gotFinal ==> pipe.closed && pipe.received == |pipe.sent|)
      && (status == Broken(UnexpectedEof) ==> pipe.closed && pipe.received == |pipe.sent| && |iv| < ivSize)
      && (status.Broken? && status != Broken(UnexpectedEof) ==> !Reliable(pipe.plan))
    }

    /** One poll: the IV first, then what comes behind it. */
    method Poll(pipe: Pipe, max: nat)
      requires pipe.Valid() && Valid(pipe.sent[..pipe.received]) && EndsWith(pipe) && status == Active
      requires Decrypts(dec)
      modifies this, Footprint(), pipe`received, pipe`turn
      ensures pipe.Valid() && Valid(pipe.sent[..pipe.received]) && EndsWith(pipe)
      ensures fresh(Footprint() - old(Footprint()))
      ensures old(pipe.turn) <= pipe.turn && |old(out)| <= |out| <= |old(out)| + max
      // an active receiver has got something, or the transport let it wait
      ensures status == Active && max > 0 ==> |old(out)| < |out| || (old(pipe.turn) < pipe.turn && pipe.Waited())
    {
      hide Valid, Decrypts;
      if reader == null {
        ReadIv(pipe);
        if reader == null {
          return;
        }
      }
      ReadBody(pipe, max);
    }

    method ReadIv(pipe: Pipe)
      requires pipe.Valid() && Valid(pipe.sent[..pipe.received]) && reader == null && status == Active
      requires Decrypts(dec)
      modifies this, pipe`received, pipe`turn
      ensures pipe.Valid() && Valid(pipe.sent[..pipe.received]) && EndsWith(pipe) && fresh(Footprint())
      ensures out == old(out) && old(pipe.turn) <= pipe.turn
      ensures reader != null ==> status == Active
      ensures reader == null && status == Active ==> old(pipe.turn) < pipe.turn && pipe.Waited()
    {
      var got, buf := ReadExact(pipe, iv, ivSize, false);
      assert pipe.sent[..old(pipe.received)] + pipe.sent[old(pipe.received)..pipe.received]
        == pipe.sent[..pipe.received];
      iv := buf;
      if got.Got? {
        reader := new DecryptedReader(dec(iv));
      } else if got.poll.Failed? {
        status := Broken(got.poll.error);
      }
    }

    method ReadBody(pipe: Pipe, max: nat)
      requires pipe.Valid() && Valid(pipe.sent[..pipe.received]) && EndsWith(pipe) && reader != null && status == Active
      modifies this`out, this`status, reader, reader.cipher, pipe`received, pipe`turn
      ensures pipe.Valid() && Valid(pipe.sent[..pipe.received]) && EndsWith(pipe)
      ensures old(pipe.turn) <= pipe.turn && |old(out)| <= |out| <= |old(out)| + max
      ensures status == Active && max > 0 ==> |old(out)| < |out| || (old(pipe.turn) < pipe.turn && pipe.Waited())
    {
      var r := reader.PollReadDecrypted(pipe, max);
      Whole(iv, reader.cipher.fed, old(reader.cipher.fed), pipe.sent, old(pipe.received), pipe.received);
      match r
      case Pending =>
      case Failed(e) => status := Broken(e);
      case Ready(v) =>
        out := out + v;
        if v == [] && max > 0 {
          status := Ended;
        }
    }
  }

  lemma Whole(iv: seq<byte>, fed: seq<byte>, was: seq<byte>, sent: seq<byte>, i: nat, j: nat)
    requires i <= j <= |sent| && sent[..i] == iv + was && fed == was + sent[i..j]
    ensures sent[..j] == iv + fed
  {
    assert sent[..j] == sent[..i] + sent[i..j];
  }

  /** Both ends of a connection over one pipe. */
  class Connection {
    const sender: Sender
    const receiver: Receiver
    const pipe: Pipe
    var flushed: bool    // everything was handed over when the sender hung up

    ghost function SenderSide(): (s: set<object>)
      reads this
    {
      {sender, sender.writer, sender.writer.cipher}
    }

    ghost function Objects(): (s: set<object>)
      reads this, receiver
    {
      SenderSide() + {receiver, pipe} + receiver.Footprint()
    }

    ghost predicate Valid()
      reads this, SenderSide(), receiver, receiver.Footprint(), pipe
    {
      && SenderSide() !! receiver.Footprint()
      && pipe.Valid() && sender.Valid(pipe.sent)
      && receiver.Valid(pipe.sent[..pipe.received]) && receiver.EndsWith(pipe)
      && Decrypts(receiver.dec) && receiver.ivSize == |sender.writer.firstIv|
      && (flushed ==> pipe.closed) && (pipe.closed ==> flushed == sender.Flushed())
    }

    constructor (enc: seq<byte> -> Transform, dec: seq<byte> -> Transform, iv: seq<byte>, total: seq<byte>,
        plan: nat -> Event)
      requires Ciphers(enc, dec)
      ensures Valid() && !flushed && fresh(Objects())
      ensures sender.total == total && sender.writer.firstIv == iv && sender.writer.cipher.f == enc(iv)
                && receiver.dec == dec
      ensures pipe.plan == plan && pipe.turn == 0 && !pipe.closed && receiver.status == Active && receiver.out == []
      ensures sender.Work(0) <= |total| + 1 && sender.Handed() == 0
    {
      hide Sender.Valid, Sender.Work, Sender.Handed, Receiver.Valid, SplitInvariant, Inverse, Ciphers, Decrypts;
      Agreed(enc, dec, iv);
      var p := new Pipe(plan);
      var s := new Sender(enc(iv), iv, total);
      var r := new Receiver(|iv|, dec);
      sender, receiver, pipe, flushed := s, r, p, false;
      new;
      assert pipe.sent[..pipe.received] == [] && receiver.EndsWith(pipe) && receiver.Footprint() == {};
      assert pipe.Valid() && sender.Valid(pipe.sent) && receiver.Valid(pipe.sent[..pipe.received]);
      assert Decrypts(receiver.dec);
    }

    method SendTurn(want: nat, ghost from: nat)
      requires Valid() && !pipe.closed
      modifies SenderSide(), pipe`sent, pipe`turn
      ensures Valid() && old(pipe.turn) <= pipe.turn && sender.Handed() <= old(sender.Handed()) + want
      ensures Willing(pipe.plan, from) ==>
                var before := old(sender.Work(Lag(from, pipe.turn)));
                sender.Work(Lag(from, pipe.turn)) <= if want > 0 && before > 0 then before - 1 else before
    {
      hide Sender.Valid, Sender.Work, Sender.Handed, Receiver.Valid, Decrypts, Willing;
      sender.Poll(pipe, want, from);
      assert pipe.sent[..pipe.received] == old(pipe.sent)[..pipe.received];
    }

    method ReceiveTurn(max: nat, ghost from: nat)
      requires Valid() && receiver.status == Active
      modifies receiver, receiver.Footprint(), pipe`received, pipe`turn
      ensures Valid() && fresh(receiver.Footprint() - old(receiver.Footprint()))
      ensures old(pipe.turn) <= pipe.turn && |old(receiver.out)| <= |receiver.out| <= |old(receiver.out)| + max
      ensures pipe.closed && Willing(pipe.plan, from) && max > 0 && receiver.status == Active ==>
                Lag(from, pipe.turn) + |old(receiver.out)| < Lag(from, old(pipe.turn)) + |receiver.out|
    {
      hide Sender.Valid, Receiver.Valid, Decrypts;
      receiver.Poll(pipe, max);
    }

    method Hangup()
      requires Valid() && !pipe.closed
      modifies this`flushed, pipe`closed
      ensures Valid() && pipe.closed
    {
      hide Sender.Valid, Receiver.Valid, Decrypts;
      flushed := sender.Flushed();
      pipe.Close();
    }

    /** In every reachable state: a front of what is sent; at the end at least what was acknowledged. */
    lemma Received(enc: seq<byte> -> Transform)
      requires Valid() && Ciphers(enc, receiver.dec) && sender.writer.cipher.f == enc(sender.writer.firstIv)
      ensures receiver.out <= sender.total && sender.off <= |sender.total|
      ensures |receiver.out| <= sender.Handed() && sender.off <= sender.Handed()
      ensures receiver.status == Ended || receiver.status == Broken(UnexpectedEof) ==> pipe.closed
      ensures receiver.status == Ended ==> sender.total[..sender.off] <= receiver.out
      ensures receiver.status == Ended && flushed ==> receiver.out == sender.total
      ensures receiver.status == Broken(UnexpectedEof) ==> !flushed
      ensures receiver.status.Broken? && receiver.status != Broken(UnexpectedEof) ==> !Reliable(pipe.plan)
    {
      var iv := sender.writer.firstIv;
      var e, d := enc(iv), receiver.dec(iv);
      hide Sender.Valid, SplitInvariant, Inverse, Ciphers, Decrypts;
      Agreed(enc, receiver.dec, iv);
      sender.SentIsPrefix(e, d, pipe.sent);
      assert pipe.received == |pipe.sent| ==> pipe.sent[..pipe.received] == pipe.sent;
      if receiver.reader != null {
        var fed, got := sender.writer.cipher.fed, receiver.reader.cipher.fed;
        SameIv(receiver.iv, got, iv, e(fed), pipe.sent[..pipe.received]);
        DecryptsPrefix(e, d, fed, got);
        if receiver.status == Ended {
          assert receiver.out == d(got);
          if sender.off > 0 {
            var acked := sender.total[..sender.off];
            FrontOf(iv, e(acked), got);
            DecryptsAtLeast(e, d, acked, got);
          }
        }
      }
    }
  }

  lemma FrontOf(iv: seq<byte>, a: seq<byte>, b: seq<byte>)
    requires iv + a <= iv + b
    ensures a <= b
  {
    assert (iv + a)[|iv|..] == a && (iv + b)[|iv|..] == b;
  }

  /** Whoever has the ciphertext of something, and perhaps more, decrypts at least that. */
  lemma DecryptsAtLeast(enc: Transform, dec: Transform, plain: seq<byte>, got: seq<byte>)
    requires SplitInvariant(dec) && Inverse(enc, dec) && enc(plain) <= got
    ensures plain <= dec(got)
  {
    assert enc(plain) + got[|enc(plain)|..] == got;
  }

  lemma SameIv(iv: seq<byte>, got: seq<byte>, iv': seq<byte>, body: seq<byte>, s: seq<byte>)
    requires |iv| == |iv'| && s == iv + got && s <= iv' + body
    ensures iv == iv' && got <= body && (s == iv' + body ==> got == body)
  {
    var w := iv' + body;
    assert iv == s[..|iv|] == w[..|iv|] == iv';
    assert got == s[|iv|..] && body == w[|iv|..];
  }

  ghost predicate RunsOnTime(c: Connection, from: nat, turns: seq<Turn>)
    reads c, c.sender, c.sender.writer, c.receiver, c.pipe
  {
    var lag := Lag(from, c.pipe.turn);
    OnTime(from, 2 * from + |c.sender.total| + 1, c.sender.Work(lag), lag, c.pipe.closed, c.receiver.status == Active,
           |c.receiver.out|, Writes(turns), Reads(turns))
  }

  /** Nothing is written that was not offered, and nothing read that was not asked for. */
  ghost predicate Causal(c: Connection, turns: seq<Turn>)
    reads c, c.sender, c.sender.writer, c.receiver, c.pipe
  {
    && (c.pipe.closed <==> Hangup in turns)
    && c.sender.Handed() <= Offered(turns) && |c.receiver.out| <= Asked(turns)
    && (!AnyReceive(turns) ==> c.receiver.status == Active)
  }

  /**
   Runs a stream-cipher connection under any schedule: what is received is always a front of
   what is sent, no more than was offered and asked for, and at the end, which there is only after
   a hang-up, at least what was acknowledged to the sender. The IV is drawn by the sender and read
   by the receiver from the front of the stream; the stream is too short for it only if the sender
   did hang up before everything was handed over.

   And it comes to an end: over a transport that is willing from some poll on, all but so many
   writes are acknowledged with a byte, and all of the data if there are enough of them; all but
   so many reads behind the hang-up get a byte or the end; and if the transport never fails
   either, the receiver ends with everything.
   */
  method Run(enc: seq<byte> -> Transform, dec: seq<byte> -> Transform, iv: seq<byte>,
             total: seq<byte>, plan: nat -> Event, turns: seq<Turn>, ghost from: nat)
    returns (received: seq<byte>, status: Status, acked: nat, flushed: bool)
    requires Ciphers(enc, dec)
    ensures received <= total && acked <= |total| && (flushed ==> acked == |total|)
    ensures acked <= Offered(turns) && |received| <= Offered(turns) && |received| <= Asked(turns)
    ensures !AnyReceive(turns) ==> status == Active
    ensures status == Ended || status == Broken(UnexpectedEof) || flushed ==> Hangup in turns
    ensures status == Ended ==> total[..acked] <= received
    ensures status == Ended && flushed ==> received == total
    ensures status == Broken(UnexpectedEof) ==> !flushed
    ensures Willing(plan, from) ==>
              && (acked == |total| || Writes(turns) <= 2 * from + acked + 1)
              && (status == Active ==> Reads(turns) <= from + |received|)
              && (Writes(turns) > 2 * from + |total| && Hangup in turns ==> flushed)
              && (Writes(turns) > 2 * from + |total| && Reads(turns) > from + |total| && Reliable(plan) ==>
                    status == Ended && received == total)
  {
    hide Connection.Valid, Ciphers, RunsOnTime, Causal, Writes, Reads, Offered, Asked, AnyReceive, Willing, Reliable;
    var c := new Connection(enc, dec, iv, total, plan);
    Started(c, from);
    for k := 0 to |turns|
      invariant c.Valid() && fresh(c) && fresh(c.Objects()) && Causal(c, turns[..k])
      invariant Willing(plan, from) ==> RunsOnTime(c, from, turns[..k])
    {
      TakeTurn(c, turns, k, from);
    }
    assert turns[..|turns|] == turns;
    c.Received(enc);
    Finished(c, from, turns);
    received, status, acked, flushed := c.receiver.out, c.receiver.status, c.sender.off, c.flushed;
  }

  lemma Started(c: Connection, from: nat)
    requires c.sender.Work(0) <= |c.sender.total| + 1 && c.pipe.turn == 0 && !c.pipe.closed
    requires c.sender.Handed() == 0 && c.receiver.out == [] && c.receiver.status == Active
    ensures RunsOnTime(c, from, []) && Causal(c, [])
  {
  }

  /** One turn, where it can be taken. */
  method TakeTurn(c: Connection, turns: seq<Turn>, k: nat, ghost from: nat)
    requires k < |turns| && c.Valid() && Causal(c, turns[..k])
    requires Willing(c.pipe.plan, from) ==> RunsOnTime(c, from, turns[..k])
    modifies c, c.Objects()
    ensures c.Valid() && Causal(c, turns[..k + 1])
    ensures Willing(c.pipe.plan, from) ==> RunsOnTime(c, from, turns[..k + 1])
    ensures fresh(c.Objects() - old(c.Objects()))
  {
    hide Connection.Valid, Writes, Reads, Offered, Asked, AnyReceive, Willing;
    Counted(turns, k);
    match turns[k]
    case Send(want) => if !c.pipe.closed { c.SendTurn(want, from); }
    case Receive(max) => if c.receiver.status == Active { c.ReceiveTurn(max, from); }
    case Hangup => if !c.pipe.closed { c.Hangup(); }
  }

  /** What the counts say at the end of a run. */
  lemma Finished(c: Connection, from: nat, turns: seq<Turn>)
    requires c.Valid() && Causal(c, turns) && |c.receiver.out| <= |c.sender.total| && c.sender.off <= |c.sender.total|
    requires Willing(c.pipe.plan, from) ==> RunsOnTime(c, from, turns)
    ensures c.sender.Handed() <= Offered(turns) && |c.receiver.out| <= Asked(turns)
    ensures !AnyReceive(turns) ==> c.receiver.status == Active
    ensures c.pipe.closed <==> Hangup in turns
    ensures c.flushed ==> c.pipe.closed && c.sender.off == |c.sender.total|
    ensures Willing(c.pipe.plan, from) ==>
              && (c.sender.off == |c.sender.total| || Writes(turns) <= 2 * from + c.sender.off + 1)
              && (c.receiver.status == Active ==> Reads(turns) <= from + |c.receiver.out|)
              && (Writes(turns) > 2 * from + |c.sender.total| && Hangup in turns ==> c.flushed)
              && (Reads(turns) > 0 ==> Hangup in turns)
  {
    hide Sender.Valid, Receiver.Valid, Writes, Reads, Offered, Asked, AnyReceive, Willing, Decrypts;
  }
}
