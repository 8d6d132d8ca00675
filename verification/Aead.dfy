/**
 The AEAD TCP chunk format: what a sealed stream of chunks looks like on the wire, and a
 decoder that is handed the whole wire at once. The poll-driven reader and writer are
 proved against these.
 */
module Aead {
  import opened Bytes
  import opened Nonce

  /** A cipher suite. The cryptography itself is a parameter; `Lawful` says what is relied on. */
  datatype Suite = Suite(
    tagSize: nat,
    nonceSize: nat,
    saltSize: nat,
    // HKDF: master key and salt to session key
    derive: (seq<byte>, seq<byte>) -> seq<byte>,
    // session key, nonce and plaintext to sealed text
    seal: (seq<byte>, seq<byte>, seq<byte>) -> seq<byte>,
    // session key, nonce and sealed text to plaintext
    open: (seq<byte>, seq<byte>, seq<byte>) -> Option<seq<byte>>
  )
  {
    ghost predicate Lawful()
    {
      && tagSize >= 1
      && (forall k, n, p :: |seal(k, n, p)| == |p| + tagSize)
      && (forall k, n, p :: open(k, n, seal(k, n, p)) == Some(p))
      && (forall k, n, c :: open(k, n, c).Some? ==> |c| == |open(k, n, c).value| + tagSize)
    }
  }

  /** A session: the suite under one session key. Operation number `i` uses the `i`-th nonce. */
  datatype Session = Session(suite: Suite, key: seq<byte>)
  {
    function Seal(i: nat, plain: seq<byte>): (s: seq<byte>)
    {
      suite.seal(key, NonceAt(suite.nonceSize, i), plain)
    }

    function Open(i: nat, sealed: seq<byte>): (r: Option<seq<byte>>)
    {
      suite.open(key, NonceAt(suite.nonceSize, i), sealed)
    }
  }

  /** The longest chunk the writer produces. */
  const MAX_PACKET_SIZE := 0x3FFF

  /** One chunk on the wire: its sealed big-endian length, then the sealed data. */
  function Frame(s: Session, i: nat, chunk: seq<byte>): (w: seq<byte>)
    requires |chunk| < 0x1_0000
  {
    s.Seal(i, Be16(|chunk|)) + s.Seal(i + 1, chunk)
  }

  ghost predicate Framable(chunks: seq<seq<byte>>)
  {
    forall k :: 0 <= k < |chunks| ==> |chunks[k]| < 0x1_0000
  }

  /** A list of chunks on the wire; chunk `k` uses operations `2k` and `2k + 1`. */
  ghost function Frames(s: Session, chunks: seq<seq<byte>>): (w: seq<byte>)
    requires Framable(chunks)
  {
    if chunks == [] then []
    else
      var k := |chunks| - 1;
      Frames(s, chunks[..k]) + Frame(s, 2 * k, chunks[k])
  }

  /** What the decoder expects next. */
  datatype Step = Length | Data(size: nat)

  function Need(s: Session, step: Step): (n: nat)
  {
    match step
    case Length => 2 + s.suite.tagSize
    case Data(size) => size + s.suite.tagSize
  }

  /**
   Where a decoder stands after some bytes: `plain` is the plaintext of the complete frames.
   In `Reading`, `uses` operations were done and `left` is the incomplete tail; `Broken` is
   the first sealed text that did not open.
   */
  datatype Progress =
    | Reading(plain: seq<byte>, step: Step, uses: nat, left: seq<byte>)
    | Broken(plain: seq<byte>)
  {
    function After(prefix: seq<byte>): (p: Progress)
    {
      this.(plain := prefix + plain)
    }

    predicate AtBoundary()
    {
      Reading? && step == Length && left == []
    }
  }

  /** The one-shot decoder. */
  ghost function Parse(s: Session, step: Step, i: nat, wire: seq<byte>): (p: Progress)
    requires s.suite.Lawful()
    decreases |wire|
  {
    var n := Need(s, step);
    if |wire| < n then Reading([], step, i, wire)
    else
      match s.Open(i, wire[..n])
      case None => Broken([])
      case Some(v) =>
        match step
        case Length => Parse(s, Data(FromBe16(v)), i + 1, wire[n..])
        case Data(_) => Parse(s, Length, i + 1, wire[n..]).After(v)
  }

  /** A decoder that stopped inside a frame never holds as much as the step needs. */
  lemma {:induction false} ParseLeft(s: Session, step: Step, i: nat, wire: seq<byte>)
    requires s.suite.Lawful()
    ensures var p := Parse(s, step, i, wire); p.Reading? ==> |p.left| < Need(s, p.step)
    decreases |wire|
  {
    var n := Need(s, step);
    if |wire| >= n {
      match s.Open(i, wire[..n])
      case None =>
      case Some(v) =>
        match step
        case Length => ParseLeft(s, Data(FromBe16(v)), i + 1, wire[n..]);
        case Data(_) => ParseLeft(s, Length, i + 1, wire[n..]);
    }
  }

  /** Decoding from where a decoder stands, with more bytes behind its incomplete tail. */
  ghost function Resume(s: Session, p: Progress, more: seq<byte>): (q: Progress)
    requires s.suite.Lawful()
  {
    if p.Broken? then p else Parse(s, p.step, p.uses, p.left + more).After(p.plain)
  }

  lemma ResumeAfter(s: Session, p: Progress, v: seq<byte>, more: seq<byte>)
    requires s.suite.Lawful()
    ensures Resume(s, p.After(v), more) == Resume(s, p, more).After(v)
  {
    if p.Reading? {
      var q := Parse(s, p.step, p.uses, p.left + more);
      assert v + (p.plain + q.plain) == (v + p.plain) + q.plain;
    }
  }

  /**
   Splitting the wire anywhere does not matter: decoding `a + b` is decoding `a`, then going on
   from where that stopped with the tail of `a` in front of `b`.
   */
  lemma {:induction false} ParseSplit(s: Session, step: Step, i: nat, a: seq<byte>, b: seq<byte>)
    requires s.suite.Lawful()
    ensures Parse(s, step, i, a + b) == Resume(s, Parse(s, step, i, a), b)
    decreases |a|
  {
    var n := Need(s, step);
    if |a| < n {
      var q := Parse(s, step, i, a + b);
      assert [] + q.plain == q.plain;
    } else {
      var rest := a[n..];
      assert (a + b)[..n] == a[..n] && (a + b)[n..] == rest + b;
      var o := s.Open(i, a[..n]);
      if o.Some? {
        if step == Length {
          ParseSplit(s, Data(FromBe16(o.value)), i + 1, rest, b);
        } else {
          ParseSplit(s, Length, i + 1, rest, b);
          ResumeAfter(s, Parse(s, Length, i + 1, rest), o.value, b);
        }
      }
    }
  }

  /** One frame decodes to its chunk and uses two operations. */
  lemma ParseFrame(s: Session, i: nat, chunk: seq<byte>)
    requires s.suite.Lawful() && |chunk| < 0x1_0000
    ensures Parse(s, Length, i, Frame(s, i, chunk)) == Reading(chunk, Length, i + 2, [])
  {
    var len := Be16(|chunk|);
    var a, b := s.Seal(i, len), s.Seal(i + 1, chunk);
    assert (a + b)[..|a|] == a && (a + b)[|a|..] == b && b[..|b|] == b && b[|b|..] == [];
    calc {
      Parse(s, Length, i, a + b);
      Parse(s, Data(|chunk|), i + 1, b);
      Parse(s, Length, i + 2, []).After(chunk);
      { assert chunk + [] == chunk; }
      Reading(chunk, Length, i + 2, []);
    }
  }

  /**
   Decoding undoes framing, for every list of chunks; both sides have then used `2n` nonces
   for `n` chunks.
   */
  lemma {:induction false} ParseFrames(s: Session, chunks: seq<seq<byte>>)
    requires s.suite.Lawful() && Framable(chunks)
    ensures Parse(s, Length, 0, Frames(s, chunks)) == Reading(Concat(chunks), Length, 2 * |chunks|, [])
  {
    if chunks != [] {
      var k := |chunks| - 1;
      ParseFrames(s, chunks[..k]);
      var f := Frame(s, 2 * k, chunks[k]);
      ParseSplit(s, Length, 0, Frames(s, chunks[..k]), f);
      assert [] + f == f;
      ParseFrame(s, 2 * k, chunks[k]);
    }
  }

  /**
   Cutting the wire anywhere is safe: a decoder of any prefix of framed chunks never fails to
   open and has a prefix of the plaintext.
   */
  lemma ParsePrefix(s: Session, chunks: seq<seq<byte>>, wire: seq<byte>)
    requires s.suite.Lawful() && Framable(chunks)
    requires wire <= Frames(s, chunks)
    ensures Parse(s, Length, 0, wire).Reading?
    ensures Parse(s, Length, 0, wire).plain <= Concat(chunks)
  {
    ParseFrames(s, chunks);
    var rest := Frames(s, chunks)[|wire|..];
    assert wire + rest == Frames(s, chunks);
    ParseSplit(s, Length, 0, wire, rest);
  }

  /** Decoding more bytes behind whole frames. */
  lemma ParseBehind(s: Session, chunks: seq<seq<byte>>, rest: seq<byte>)
    requires s.suite.Lawful() && Framable(chunks)
    ensures Parse(s, Length, 0, Frames(s, chunks) + rest)
         == Parse(s, Length, 2 * |chunks|, rest).After(Concat(chunks))
  {
    hide Parse, Frames, Concat, Suite.Lawful;
    ParseFrames(s, chunks);
    ParseSplit(s, Length, 0, Frames(s, chunks), rest);
    assert [] + rest == rest;
  }

  lemma Unopened(s: Session, step: Step, i: nat, rest: seq<byte>)
    requires s.suite.Lawful() && |rest| >= Need(s, step) && s.Open(i, rest[..Need(s, step)]).None?
    ensures Parse(s, step, i, rest) == Broken([])
  {
  }

  /** Behind any frames, a length that does not open breaks the decoder there, with what came before. */
  lemma BreaksAtLength(s: Session, chunks: seq<seq<byte>>, rest: seq<byte>)
    requires s.suite.Lawful() && Framable(chunks) && |rest| >= 2 + s.suite.tagSize
    requires s.Open(2 * |chunks|, rest[..2 + s.suite.tagSize]).None?
    ensures Parse(s, Length, 0, Frames(s, chunks) + rest) == Broken(Concat(chunks))
  {
    hide Parse, Frames, Concat, Suite.Lawful;
    ParseBehind(s, chunks, rest);
    Unopened(s, Length, 2 * |chunks|, rest);
    assert Concat(chunks) + [] == Concat(chunks);
  }

  /** And so does a chunk that does not open behind a length that does. */
  lemma BreaksAtData(s: Session, chunks: seq<seq<byte>>, size: nat, rest: seq<byte>)
    requires s.suite.Lawful() && Framable(chunks) && size < 0x1_0000 && |rest| >= size + s.suite.tagSize
    requires s.Open(2 * |chunks| + 1, rest[..size + s.suite.tagSize]).None?
    ensures Parse(s, Length, 0, Frames(s, chunks) + (s.Seal(2 * |chunks|, Be16(size)) + rest)) == Broken(Concat(chunks))
  {
    hide Parse, Frames, Concat, Suite.Lawful, Be16, Session.Seal, Session.Open;
    var i := 2 * |chunks|;
    var a := s.Seal(i, Be16(size));
    ParseBehind(s, chunks, a + rest);
    ParseLength(s, i, size);
    ParseSplit(s, Length, i, a, rest);
    assert [] + rest == rest;
    Unopened(s, Data(size), i + 1, rest);
    assert Concat(chunks) + [] == Concat(chunks);
  }

  lemma FramesSnoc(s: Session, chunks: seq<seq<byte>>, chunk: seq<byte>)
    requires Framable(chunks) && |chunk| < 0x1_0000
    ensures Framable(chunks + [chunk])
    ensures Frames(s, chunks + [chunk]) == Frames(s, chunks) + Frame(s, 2 * |chunks|, chunk)
  {
    assert (chunks + [chunk])[..|chunks|] == chunks;
  }

  /**
   A decoder stands at a frame boundary exactly when the wire was cut between two frames;
   it then has the plaintext of exactly the frames before the cut.
   */
  lemma {:induction false} BoundaryIff(s: Session, chunks: seq<seq<byte>>, wire: seq<byte>)
    requires s.suite.Lawful() && Framable(chunks)
    requires wire <= Frames(s, chunks)
    ensures Parse(s, Length, 0, wire).AtBoundary() <==>
            exists k :: 0 <= k <= |chunks| && wire == Frames(s, chunks[..k])
    ensures forall k :: 0 <= k <= |chunks| && wire == Frames(s, chunks[..k])
                        ==> Parse(s, Length, 0, wire).plain == Concat(chunks[..k])
  {
    forall k | 0 <= k <= |chunks| && wire == Frames(s, chunks[..k])
      ensures Parse(s, Length, 0, wire) == Reading(Concat(chunks[..k]), Length, 2 * k, [])
    {
      ParseFrames(s, chunks[..k]);
    }
    if Parse(s, Length, 0, wire).AtBoundary() {
      var k := CutPoint(s, chunks, wire);
    }
  }

  lemma {:induction false} CutPoint(s: Session, chunks: seq<seq<byte>>, wire: seq<byte>) returns (k: nat)
    requires s.suite.Lawful() && Framable(chunks)
    requires wire <= Frames(s, chunks)
    requires Parse(s, Length, 0, wire).AtBoundary()
    ensures k <= |chunks| && wire == Frames(s, chunks[..k])
  {
    if wire == Frames(s, chunks) {
      k := |chunks|;
      assert chunks[..k] == chunks;
    } else {
      var n := |chunks| - 1;
      if |Frames(s, chunks[..n])| < |wire| {
        InsideFrame(s, chunks, wire);
      }
      k := CutPoint(s, chunks[..n], wire);
      assert chunks[..n][..k] == chunks[..k];
    }
  }

  /** Strictly inside the last frame a decoder is not at a boundary. */
  lemma InsideFrame(s: Session, chunks: seq<seq<byte>>, wire: seq<byte>)
    requires s.suite.Lawful() && Framable(chunks) && chunks != []
    requires wire <= Frames(s, chunks) && wire != Frames(s, chunks)
    requires |Frames(s, chunks[..|chunks| - 1])| < |wire|
    ensures !Parse(s, Length, 0, wire).AtBoundary()
  {
    var n := |chunks| - 1;
    var before := Frames(s, chunks[..n]);
    var part := wire[|before|..];
    assert wire == before + part;
    ParseFrames(s, chunks[..n]);
    ParseSplit(s, Length, 0, before, part);
    assert [] + part == part;
    PartOfFrame(s, 2 * n, chunks[n], part);
  }

  lemma PartOfFrame(s: Session, i: nat, chunk: seq<byte>, part: seq<byte>)
    requires s.suite.Lawful() && |chunk| < 0x1_0000
    requires 0 < |part| < |Frame(s, i, chunk)| && part <= Frame(s, i, chunk)
    ensures Parse(s, Length, i, part).Reading? && !Parse(s, Length, i, part).AtBoundary()
  {
    var a, b := s.Seal(i, Be16(|chunk|)), s.Seal(i + 1, chunk);
    if |part| >= |a| {
      var rest := part[|a|..];
      assert part == a + rest && |rest| < |b|;
      ParseLength(s, i, |chunk|);
      ParseSplit(s, Length, i, a, rest);
      assert [] + rest == rest;
    }
  }

  /** A sealed length is followed by that much data. */
  lemma ParseLength(s: Session, i: nat, size: nat)
    requires s.suite.Lawful() && size < 0x1_0000
    ensures Parse(s, Length, i, s.Seal(i, Be16(size))) == Reading([], Data(size), i + 1, [])
  {
    var a := s.Seal(i, Be16(size));
    assert a[..|a|] == a && a[|a|..] == [];
  }

  /** Operation `i` is done under the nonce whose little-endian value is `i`, modulo 256^n. */
  lemma UnderCounter(s: Session, i: nat, nonce: seq<byte>, plain: seq<byte>, sealed: seq<byte>)
    requires |nonce| == s.suite.nonceSize && Value(nonce) == i % Pow256(|nonce|)
    ensures s.Seal(i, plain) == s.suite.seal(s.key, nonce, plain)
    ensures s.Open(i, sealed) == s.suite.open(s.key, nonce, sealed)
  {
    NonceFromValue(s.suite.nonceSize, i, nonce);
  }

  /** Length and data of every chunk, sealed under the given nonces in turn. */
  ghost function SealedUnder(suite: Suite, key: seq<byte>, nonces: seq<seq<byte>>, chunks: seq<seq<byte>>):
      (w: seq<byte>)
    requires Framable(chunks) && |nonces| == 2 * |chunks|
  {
    if chunks == [] then []
    else
      var k := |chunks| - 1;
      var high, low := |chunks[k]| / 256, |chunks[k]| % 256;
      SealedUnder(suite, key, nonces[..2 * k], chunks[..k])
      + suite.seal(key, nonces[2 * k], [high, low])
      + suite.seal(key, nonces[2 * k + 1], chunks[k])
  }

  /** The wire of a list of chunks uses up the counting nonces, one for each length and one for each chunk. */
  lemma {:induction false} FramesUnder(s: Session, nonces: seq<seq<byte>>, chunks: seq<seq<byte>>)
    requires Framable(chunks) && |nonces| == 2 * |chunks| && Counting(s.suite.nonceSize, nonces)
    ensures Frames(s, chunks) == SealedUnder(s.suite, s.key, nonces, chunks)
  {
    if chunks != [] {
      var k := |chunks| - 1;
      var n := |chunks[k]|;
      FramesUnder(s, nonces[..2 * k], chunks[..k]);
      UnderCounter(s, 2 * k, nonces[2 * k], [n / 256, n % 256], []);
      UnderCounter(s, 2 * k + 1, nonces[2 * k + 1], chunks[k], []);
      assert Be16(n) == [n / 256, n % 256];
    }
  }

  /** The stateful cipher of one direction: a session key and the nonce it counts in place. */
  class Cipher {
    const session: Session
    const nonce: array<byte>
    ghost var uses: nat
    ghost var used: seq<seq<byte>>   // the nonce of every operation

    ghost predicate Valid()
      reads this, nonce
    {
      && nonce[..] == NonceAt(session.suite.nonceSize, uses)
      && |used| == uses && Counting(session.suite.nonceSize, used)
    }

    constructor (suite: Suite, key: seq<byte>, salt: seq<byte>)
      ensures Valid() && fresh(nonce) && uses == 0
      ensures session == Session(suite, suite.derive(key, salt))
    {
      session := Session(suite, suite.derive(key, salt));
      nonce := new byte[suite.nonceSize](_ => 0);
      uses, used := 0, [];
      new;
      ZeroNonce(suite.nonceSize);
      assert nonce[..] == seq(suite.nonceSize, _ => 0);
    }

    method Encrypt(input: seq<byte>) returns (output: seq<byte>)
      requires Valid()
      modifies this, nonce
      ensures Valid() && uses == old(uses) + 1
      ensures output == session.Seal(old(uses), input)
      ensures used == old(used) + [old(nonce[..])]
      ensures output == session.suite.seal(session.key, used[old(uses)], input)
    {
      output := session.suite.seal(session.key, nonce[..], input);
      Advance();
    }

    /** After a failed open some backends advance the nonce and some do not. */
    method Decrypt(input: seq<byte>, advanceOnFailure: bool) returns (r: Option<seq<byte>>)
      requires Valid()
      modifies this, nonce
      ensures Valid() && r == session.Open(old(uses), input)
      ensures r == session.suite.open(session.key, old(nonce[..]), input)
      ensures r.Some? ==> uses == old(uses) + 1 && used == old(used) + [old(nonce[..])]
    {
      r := session.suite.open(session.key, nonce[..], input);
      if r.Some? || advanceOnFailure {
        Advance();
      }
    }

    method Advance()
      requires Valid()
      modifies this, nonce
      ensures Valid() && uses == old(uses) + 1 && used == old(used) + [old(nonce[..])]
    {
      SuccessorCounts(session.suite.nonceSize, uses);
      NonceValue(session.suite.nonceSize, uses);
      used := used + [nonce[..]];
      IncreaseNonce(nonce);
      uses := uses + 1;
    }
  }
}
