/** `DecryptedReader` of src/relay/tcprelay/aead.rs. */
module AeadReader {
  import opened Bytes
  import opened Transport
  import Aead

  /** `progress` is where the one-shot decoder stands after the bytes consumed. */
  ghost predicate Tracks(s: Aead.Session, consumed: seq<byte>, progress: Aead.Progress)
  {
    s.suite.Lawful() && progress == Aead.Parse(s, Aead.Length, 0, consumed)
  }

  /** Bytes that do not complete the current step only lengthen the incomplete tail. */
  lemma TrackMore(s: Aead.Session, consumed: seq<byte>, p: Aead.Progress, more: seq<byte>)
    requires Tracks(s, consumed, p) && p.Reading? && |p.left + more| < Aead.Need(s, p.step)
    ensures Tracks(s, consumed + more, p.(left := p.left + more))
  {
    Aead.ParseSplit(s, Aead.Length, 0, consumed, more);
    assert p.plain + [] == p.plain;
  }

  /** Where the decoder stands once the current step is complete. */
  function Opened(p: Aead.Progress, v: Option<seq<byte>>): (q: Aead.Progress)
    requires p.Reading? && (v.Some? && p.step.Length? ==> |v.value| == 2)
  {
    match v
    case None => Aead.Broken(p.plain)
    case Some(x) =>
      match p.step
      case Length => Aead.Reading(p.plain, Aead.Data(FromBe16(x)), p.uses + 1, [])
      case Data(_) => Aead.Reading(p.plain + x, Aead.Length, p.uses + 1, [])
  }

  lemma TrackOpen(s: Aead.Session, consumed: seq<byte>, p: Aead.Progress, more: seq<byte>)
    requires Tracks(s, consumed, p) && p.Reading? && |p.left + more| == Aead.Need(s, p.step)
    ensures var v := s.Open(p.uses, p.left + more);
            && (v.Some? ==> |v.value| + s.suite.tagSize == Aead.Need(s, p.step))
            && Tracks(s, consumed + more, Opened(p, v))
  {
    Aead.ParseSplit(s, Aead.Length, 0, consumed, more);
    var text := p.left + more;
    assert text[..|text|] == text && text[|text|..] == [];
    assert p.plain + [] == p.plain;
    var v := s.Open(p.uses, text);
    if v.Some? {
      assert v.value + [] == v.value;
      if p.step.Length? {
        var next := Aead.Data(FromBe16(v.value));
        assert Aead.Parse(s, next, p.uses + 1, []) == Aead.Reading([], next, p.uses + 1, []);
      } else {
        assert Aead.Parse(s, Aead.Length, p.uses + 1, []) == Aead.Reading([], Aead.Length, p.uses + 1, []);
      }
    }
  }

  lemma TrackLeft(s: Aead.Session, consumed: seq<byte>, p: Aead.Progress)
    requires Tracks(s, consumed, p) && p.Reading?
    ensures |p.left| < Aead.Need(s, p.step)
  {
    Aead.ParseLeft(s, Aead.Length, 0, consumed);
  }

  class DecryptedReader {
    const cipher: Aead.Cipher
    const advanceOnFailure: bool
    var buffer: seq<byte>
    var data: seq<byte>
    var pos: nat
    var steps: Aead.Step
    var gotFinal: bool

    ghost var consumed: seq<byte>         // every byte taken from the stream
    ghost var delivered: seq<byte>        // every byte handed to the caller
    ghost var progress: Aead.Progress

    /** What every reader that has not failed to open keeps. */
    ghost predicate Valid()
      reads this, cipher, cipher.nonce
    {
      && cipher.Valid()
      && Tracks(cipher.session, consumed, progress)
      && pos <= |data|
      && progress == Aead.Reading(delivered + data[pos..], steps, cipher.uses, buffer)
      && (steps.Data? || gotFinal ==> pos == |data|)
      && (gotFinal ==> progress.AtBoundary())
    }

    constructor (suite: Aead.Suite, key: seq<byte>, salt: seq<byte>, advanceOnFailure: bool)
      requires suite.Lawful()
      ensures Valid() && fresh(cipher) && fresh(cipher.nonce)
      ensures consumed == [] && delivered == [] && !gotFinal
      ensures cipher.session == Aead.Session(suite, suite.derive(key, salt))
    {
      cipher := new Aead.Cipher(suite, key, salt);
      this.advanceOnFailure := advanceOnFailure;
      buffer, data, pos, steps, gotFinal := [], [], 0, Aead.Length, false;
      consumed, delivered, progress := [], [], Aead.Reading([], Aead.Length, 0, []);
    }

    /**
     One poll with a destination of `max` bytes. The delivered bytes and the undelivered tail
     are at all times the plaintext of the complete frames consumed, whatever the schedule.
     */
    method PollReadDecrypted(source: Pipe, max: nat) returns (r: Poll<seq<byte>>)
      requires Valid() && source.Valid()
      modifies this, cipher, cipher.nonce, source`received, source`turn
      ensures source.Valid() && old(source.received) <= source.received
      ensures consumed == old(consumed) + source.sent[old(source.received)..source.received]
      ensures r != Failed(DecryptFailed) ==> Valid()
      ensures r.Ready? ==> |r.value| <= max && delivered == old(delivered) + r.value
      ensures !r.Ready? ==> delivered == old(delivered)
      // an empty answer to a non-empty destination: the wire ended between two frames
      ensures gotFinal ==> r == Ready([])
      ensures r == Ready([]) && max > 0 ==> gotFinal
      ensures gotFinal && !old(gotFinal) ==> source.closed && source.received == |source.sent|
      // any other end is an error
      ensures r == Failed(UnexpectedEof) ==>
                source.closed && source.received == |source.sent| && !progress.AtBoundary()
                  && progress.plain == delivered
      ensures r == Failed(DecryptFailed) ==>
                Tracks(cipher.session, consumed, progress) && progress == Aead.Broken(delivered)
      ensures r.Failed? ==> r.error == TransportError || r.error == UnexpectedEof || r.error == DecryptFailed
      // the transport is to blame for waiting and for its own failures
      ensures old(source.turn) <= source.turn
      ensures r.Pending? ==> old(source.turn) < source.turn && source.Waited()
      ensures r == Failed(TransportError) ==> old(source.turn) < source.turn && source.Broke()
    {
      while pos >= |data|
        invariant Valid() && source.Valid() && old(source.received) <= source.received
        invariant consumed == old(consumed) + source.sent[old(source.received)..source.received]
        invariant delivered == old(delivered) && old(source.turn) <= source.turn
        invariant gotFinal && !old(gotFinal) ==> source.closed && source.received == |source.sent|
        decreases !gotFinal, |source.sent| - source.received
      {
        if gotFinal {
          return Ready([]);
        }
        var refill := Refill(source);
        if !refill.Ready? {
          return if refill.Pending? then Pending else Failed(refill.error);
        }
      }
      var n := Min(max, |data| - pos);
      r := Deliver(n);
    }

    /** Copies out the next `n` bytes. */
    method Deliver(n: nat) returns (r: Poll<seq<byte>>)
      requires Valid() && pos < |data| && n <= |data| - pos
      modifies this`pos, this`delivered
      ensures Valid() && r == Ready(old(data[pos..pos + n])) && delivered == old(delivered) + r.value
    {
      r := Ready(data[pos..pos + n]);
      assert data[pos..] == data[pos..pos + n] + data[pos + n..];
      assert (delivered + data[pos..pos + n]) + data[pos + n..] == delivered + data[pos..];
      delivered := delivered + data[pos..pos + n];
      pos := pos + n;
    }

    /** One step of refilling: a length, a chunk, or the end of the stream. */
    method Refill(source: Pipe) returns (r: Poll<()>)
      requires Valid() && source.Valid() && pos == |data| && !gotFinal
      modifies this, cipher, cipher.nonce, source`received, source`turn
      ensures source.Valid() && old(source.received) <= source.received
      ensures consumed == old(consumed) + source.sent[old(source.received)..source.received]
      ensures delivered == old(delivered)
      ensures r != Failed(DecryptFailed) ==> Valid()
      ensures gotFinal ==> r.Ready? && source.closed && source.received == |source.sent|
      ensures r.Ready? ==> gotFinal || old(source.received) < source.received
      ensures r == Failed(UnexpectedEof) ==>
                source.closed && source.received == |source.sent| && !progress.AtBoundary()
                  && progress.plain == delivered
      ensures r == Failed(DecryptFailed) ==>
                Tracks(cipher.session, consumed, progress) && progress == Aead.Broken(delivered)
      ensures r.Failed? ==> r.error == TransportError || r.error == UnexpectedEof || r.error == DecryptFailed
      // the transport is to blame for waiting and for its own failures
      ensures old(source.turn) <= source.turn
      ensures r.Pending? ==> old(source.turn) < source.turn && source.Waited()
      ensures r == Failed(TransportError) ==> old(source.turn) < source.turn && source.Broke()
    {
      TrackLeft(cipher.session, consumed, progress);
      var got, text := ReadExact(source, buffer, Aead.Need(cipher.session, steps), steps.Length?);
      ghost var more := source.sent[old(source.received)..source.received];
      if got.Got? {
        r := OpenStep(text, more);
      } else {
        Keep(text, more);
        gotFinal := got.AtEof?;
        r := if got.AtEof? then Ready(()) else got.poll;
      }
    }

    /** The step is not complete: the bytes read so far wait in the buffer. */
    method Keep(text: seq<byte>, ghost more: seq<byte>)
      requires Valid() && text == buffer + more && |text| < Aead.Need(cipher.session, steps) && !gotFinal
      modifies this`buffer, this`consumed, this`progress
      ensures Valid() && buffer == text && consumed == old(consumed) + more && progress.plain == old(progress.plain)
    {
      TrackMore(cipher.session, consumed, progress, more);
      consumed := consumed + more;
      progress := progress.(left := text);
      buffer := text;
    }

    /** The step is complete: opens it and moves on to the next step. */
    method OpenStep(text: seq<byte>, ghost more: seq<byte>) returns (r: Poll<()>)
      requires Valid() && pos == |data| && !gotFinal
      requires text == buffer + more && |text| == Aead.Need(cipher.session, steps)
      modifies this, cipher, cipher.nonce
      ensures consumed == old(consumed) + more && delivered == old(delivered) && !gotFinal
      ensures r == Ready(()) || r == Failed(DecryptFailed)
      ensures r.Ready? ==> Valid()
      ensures r.Failed? ==> Tracks(cipher.session, consumed, progress) && progress == Aead.Broken(delivered)
    {
      TrackOpen(cipher.session, consumed, progress, more);
      consumed := consumed + more;
      var v := cipher.Decrypt(text, advanceOnFailure);
      assert delivered + data[pos..] == delivered;
      progress := Opened(progress, v);
      if v.None? {
        return Failed(DecryptFailed);
      }
      buffer, pos := [], 0;
      if steps.Length? {
        data := [];
        steps := Aead.Data(FromBe16(v.value));
      } else {
        data := v.value;
        steps := Aead.Length;
      }
      r := Ready(());
    }
  }

  /** More wire only adds plaintext; a wire that broke stays broken where it was. */
  lemma PlainGrows(s: Aead.Session, wire: seq<byte>, n: nat)
    requires s.suite.Lawful() && n <= |wire|
    ensures var p, q := Aead.Parse(s, Aead.Length, 0, wire[..n]), Aead.Parse(s, Aead.Length, 0, wire);
            p.plain <= q.plain && (p.Broken? ==> q == p)
  {
    Aead.ParseSplit(s, Aead.Length, 0, wire[..n], wire[n..]);
    assert wire == wire[..n] + wire[n..];
  }

  /** The answer that ends the reading of a wire, from where the one-shot decoder stands after it. */
  function Ending(whole: Aead.Progress): (r: Poll<seq<byte>>)
  {
    if whole.Broken? then Failed(DecryptFailed)
    else if whole.AtBoundary() then Ready([])
    else Failed(UnexpectedEof)
  }

  /** An answer after which nothing more is read. */
  predicate Ends(r: Poll<seq<byte>>)
  {
    r == Ready([]) || r == Failed(UnexpectedEof) || r == Failed(DecryptFailed)
  }

  /**
   Reads any wire at all, sent by anyone, with destinations of the given sizes, up to the first
   answer that ends the stream. What is read is a prefix of the plaintext of the one-shot decoder
   of the whole wire. An answer that ends the stream comes only when all of that was read, and
   is the right one: a clean end exactly at a frame boundary, `UnexpectedEof` exactly at any other
   truncation, `DecryptFailed` exactly where the decoder breaks. And it does come: at the latest
   when more polls were made than the transport can delay and than there are bytes to deliver.
   */
  method ReadWire(suite: Aead.Suite, key: seq<byte>, salt: seq<byte>, advanceOnFailure: bool,
                  wire: seq<byte>, plan: nat -> Event, sizes: seq<nat>, ghost from: nat)
    returns (out: seq<byte>, last: Poll<seq<byte>>)
    requires suite.Lawful()
    requires forall k :: 0 <= k < |sizes| ==> sizes[k] > 0
    ensures var whole := Aead.Parse(Aead.Session(suite, suite.derive(key, salt)), Aead.Length, 0, wire);
            && out <= whole.plain
            && (Ends(last) ==> last == Ending(whole) && out == whole.plain)
            && (Willing(plan, from) && |sizes| > from + |whole.plain| ==> Ends(last))
  {
    var reader := new DecryptedReader(suite, key, salt, advanceOnFailure);
    var source := new Pipe.Of(wire, plan);
    out, last := [], Pending;
    ghost var s := Aead.Session(suite, suite.derive(key, salt));
    PlainGrows(s, wire, 0);
    var k := 0;
    while k < |sizes|
      invariant 0 <= k <= |sizes|
      invariant reader.Valid() && source.Valid() && reader.cipher.session == s
      invariant fresh(reader) && fresh(reader.cipher) && fresh(reader.cipher.nonce) && fresh(source)
      invariant source.sent == wire && source.closed && source.plan == plan
      invariant reader.consumed == wire[..source.received] && !reader.gotFinal
      invariant out == reader.delivered && !Ends(last)
      invariant Willing(plan, from) ==> k + Lag(from, source.turn) <= from + |out|
    {
      hide DecryptedReader.Valid, Aead.Suite.Lawful;
      last := ReadStep(reader, source, sizes[k], s, from);
      if last.Ready? {
        out := out + last.value;
      }
      if Ends(last) {
        return;
      }
      k := k + 1;
    }
    PlainGrows(s, wire, source.received);
  }

  /** One poll of `ReadWire`. */
  method ReadStep(reader: DecryptedReader, source: Pipe, max: nat, ghost s: Aead.Session, ghost from: nat)
    returns (r: Poll<seq<byte>>)
    requires reader.Valid() && source.Valid() && reader.cipher.session == s && max > 0
    requires source.closed && reader.consumed == source.sent[..source.received] && !reader.gotFinal
    modifies reader, reader.cipher, reader.cipher.nonce, source`received, source`turn
    ensures source.Valid() && reader.consumed == source.sent[..source.received]
    ensures s.suite.Lawful()
    ensures var whole := Aead.Parse(s, Aead.Length, 0, source.sent);
            && reader.delivered <= whole.plain
            && (if Ends(r) then r == Ending(whole) && reader.delivered == whole.plain
                else reader.Valid() && !reader.gotFinal)
    ensures reader.delivered == old(reader.delivered) + if r.Ready? then r.value else []
    ensures !Ends(r) && Willing(source.plan, from) ==>
              1 + Lag(from, source.turn) + |old(reader.delivered)| <= Lag(from, old(source.turn)) + |reader.delivered|
  {
    ghost var wire := source.sent;
    r := reader.PollReadDecrypted(source, max);
    assert reader.consumed == wire[..source.received];
    PlainGrows(s, wire, source.received);
    assert source.received == |wire| ==> wire[..source.received] == wire;
  }
}
