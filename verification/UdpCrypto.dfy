/** The UDP packet format and its replay check, src/relay/udprelay/crypto_io.rs. */
module UdpCrypto {
  import opened Bytes
  import Aead
  import CryptoStream
  import Nonce
  import Replay

  /** A method: what `update` and `finalize` together make of a payload, or an AEAD suite. */
  datatype Method =
    | Stream(ivSize: nat,
             encrypt: (seq<byte>, seq<byte>, seq<byte>) -> seq<byte>,
             decrypt: (seq<byte>, seq<byte>, seq<byte>) -> Option<seq<byte>>)
    | AeadMethod(suite: Aead.Suite)
  {
    ghost predicate Lawful()
    {
      match this
      case Stream(_, _, _) => forall k, iv, p :: decrypt(k, iv, encrypt(k, iv, p)) == Some(p)
      case AeadMethod(suite) => suite.Lawful()
    }

    function NonceSize(): (n: nat)
    {
      if Stream? then ivSize else suite.saltSize
    }

    /** The shortest packet that is looked at. */
    function LeastSize(): (n: nat)
      ensures n >= NonceSize()
    {
      if Stream? then ivSize else suite.saltSize + suite.tagSize
    }
  }

  datatype Decrypted = TooShort | Repeated | Undecryptable | Payload(data: seq<byte>)

  /** A packet on the wire: the nonce, then the payload under it. */
  function Packet(m: Method, key: seq<byte>, nonce: seq<byte>, payload: seq<byte>): (p: seq<byte>)
  {
    nonce + match m
            case Stream(_, encrypt, _) => encrypt(key, nonce, payload)
            case AeadMethod(suite) => Aead.Session(suite, suite.derive(key, nonce)).Seal(0, payload)
  }

  /** What a packet says once its nonce has passed. */
  function Unsealed(m: Method, key: seq<byte>, packet: seq<byte>): (d: Decrypted)
    requires |packet| >= m.LeastSize()
  {
    var nonce, data := packet[..m.NonceSize()], packet[m.NonceSize()..];
    var plain := match m
                 case Stream(_, _, decrypt) => decrypt(key, nonce, data)
                 case AeadMethod(suite) => Aead.Session(suite, suite.derive(key, nonce)).Open(0, data);
    if plain.Some? then Payload(plain.value) else Undecryptable
  }

  /** A packet under an AEAD method: sealed under the key its nonce gives, with an all-zero counter. */
  lemma PacketLayout(suite: Aead.Suite, key: seq<byte>, nonce: seq<byte>, payload: seq<byte>)
    ensures Packet(AeadMethod(suite), key, nonce, payload)
         == nonce + suite.seal(suite.derive(key, nonce), seq(suite.nonceSize, _ => 0), payload)
  {
    Nonce.ZeroNonce(suite.nonceSize);
  }

  lemma UnsealsPacket(m: Method, key: seq<byte>, nonce: seq<byte>, payload: seq<byte>)
    requires m.Lawful() && |nonce| == if m.Stream? then m.ivSize else m.suite.saltSize
    ensures var p := Packet(m, key, nonce, payload);
            && |p| >= m.LeastSize() && p[..m.NonceSize()] == nonce
            && Unsealed(m, key, p) == Payload(payload)
  {
    var p := Packet(m, key, nonce, payload);
    assert p == nonce + p[|nonce|..] && p[..|nonce|] == nonce;
  }

  /** `None`: every drawn nonce was reported and the loop would go on drawing. */
  method EncryptPayload(context: Replay.PingPongBloom, m: Method, key: seq<byte>, payload: seq<byte>,
                        draws: seq<seq<byte>>)
    returns (packet: Option<seq<byte>>)
    requires context.Valid()
    modifies context
    ensures context.Valid()
    ensures var drawn := CryptoStream.FirstFresh(context.hit, context.itemCount, old(context.accepted), draws);
            && packet == (match drawn case None => None case Some(nonce) => Some(Packet(m, key, nonce, payload)))
            && context.accepted
               == old(context.accepted) + if drawn.Some? && drawn.value != [] then [drawn.value] else []
  {
    hide Replay.PingPongBloom.Valid;
    var drawn := CryptoStream.FreshNonce(context, draws);
    if drawn.None? {
      return None;
    }
    var nonce := drawn.value;
    var dst := nonce;
    match m
    case Stream(_, encrypt, _) =>
      dst := dst + encrypt(key, nonce, payload);
      packet := Some(dst);
    case AeadMethod(suite) =>
      var cipher := new Aead.Cipher(suite, key, nonce);
      var sealed := cipher.Encrypt(payload);
      packet := Some(dst + sealed);
  }

  /** What becomes of a packet once the nonces `a` were accepted. */
  ghost function Opened(hit: Replay.Filter, n: nat, a: seq<seq<byte>>, m: Method, key: seq<byte>, packet: seq<byte>):
      (r: Decrypted)
  {
    if |packet| < m.LeastSize() then TooShort
    else if Replay.Reported(hit, n, a, packet[..m.NonceSize()]) then Repeated
    else Unsealed(m, key, packet)
  }

  /** And the nonces accepted after it. */
  ghost function AcceptedWith(hit: Replay.Filter, n: nat, a: seq<seq<byte>>, m: Method, packet: seq<byte>):
      (b: seq<seq<byte>>)
  {
    if |packet| < m.LeastSize() then a else Replay.Accept(hit, n, a, [packet[..m.NonceSize()]])
  }

  /** The nonce is remembered before anything is decrypted; short packets leave no trace. */
  method DecryptPayload(context: Replay.PingPongBloom, m: Method, key: seq<byte>, packet: seq<byte>)
    returns (r: Decrypted)
    requires context.Valid()
    modifies context
    ensures context.Valid()
    ensures r == Opened(context.hit, context.itemCount, old(context.accepted), m, key, packet)
    ensures context.accepted == AcceptedWith(context.hit, context.itemCount, old(context.accepted), m, packet)
    ensures r == TooShort <==> |packet| < if m.Stream? then m.ivSize else m.suite.saltSize + m.suite.tagSize
  {
    hide Replay.PingPongBloom.Valid;
    if |packet| < m.LeastSize() {
      return TooShort;
    }
    var nonce, data := packet[..m.NonceSize()], packet[m.NonceSize()..];
    Replay.AcceptOne(context.hit, context.itemCount, context.accepted, nonce);
    var seen := context.CheckNonceAndSet(nonce);
    if seen {
      return Repeated;
    }
    var plain: Option<seq<byte>>;
    match m {
      case Stream(_, _, decrypt) => plain := decrypt(key, nonce, data);
      case AeadMethod(suite) =>
        var cipher := new Aead.Cipher(suite, key, nonce);
        plain := cipher.Decrypt(data, true);
    }
    r := if plain.Some? then Payload(plain.value) else Undecryptable;
  }

  /** Shows other nonces to a memory. */
  method Show(context: Replay.PingPongBloom, nonces: seq<seq<byte>>)
    requires context.Valid()
    modifies context
    ensures context.Valid()
    ensures context.accepted == Replay.Accept(context.hit, context.itemCount, old(context.accepted), nonces)
  {
    hide Replay.PingPongBloom.Valid, Replay.Reported;
    for k := 0 to |nonces|
      invariant context.Valid()
      invariant context.accepted == Replay.Accept(context.hit, context.itemCount, old(context.accepted), nonces[..k])
    {
      var _ := context.CheckNonceAndSet(nonces[k]);
      assert nonces[..k + 1][..k] == nonces[..k];
    }
    assert nonces[..|nonces|] == nonces;
  }

  /** A nonce with at most the capacity accepted after it is reported. */
  lemma StillReported(hit: Replay.Filter, n: nat, a: seq<seq<byte>>, nonce: seq<byte>, b: seq<seq<byte>>)
    requires Replay.NoFalseNegatives(hit) && n >= 1 && nonce != [] && a + [nonce] <= b && |b| - |a| - 1 <= n
    ensures Replay.Reported(hit, n, b, nonce)
  {
    assert b[|a|] == nonce;
    var l := Replay.Last(b, n + 1);
    assert l[|a| - (|b| - |l|)] == nonce;
    Replay.RecentIsReported(hit, n, b, nonce);
  }

  /** The nonce of a packet sent by someone with this past. */
  ghost function Drawn(sender: Replay.Past, draws: seq<seq<byte>>): (r: Option<seq<byte>>)
  {
    CryptoStream.FirstFresh(sender.hit, sender.itemCount, sender.Accepted(), draws)
  }

  /** What a receiver has accepted once it has seen a nonce and then others. */
  ghost function After(receiver: Replay.Past, nonce: seq<byte>, between: seq<seq<byte>>): (b: seq<seq<byte>>)
  {
    Replay.Accept(receiver.hit, receiver.itemCount,
                  Replay.Accept(receiver.hit, receiver.itemCount, receiver.Accepted(), [nonce]), between)
  }

  /** What the receiver makes of the packet, what of a replay, and what the sender does. */
  datatype Outcome = Outcome(first: Decrypted, again: Decrypted, atSender: Decrypted)

  /**
   One packet from a sender to a receiver, both with any past. It is sent exactly when some draw
   is not reported, and arrives exactly when the receiver does not report its nonce. Shown again,
   any number of times and among any other nonces, it is refused as long as at most `itemCount`
   of those were accepted; and its own sender refuses it at once. Only a method without nonce
   accepts replays.
   */
  method Exchange(m: Method, key: seq<byte>, payload: seq<byte>, draws: seq<seq<byte>>,
                  sender: Replay.Past, receiver: Replay.Past, between: seq<seq<byte>>)
    returns (r: Option<Outcome>)
    requires m.Lawful()
    requires var size := if m.Stream? then m.ivSize else m.suite.saltSize;
             forall k :: 0 <= k < |draws| ==> |draws[k]| == size
    requires sender.Sound() && receiver.Sound()
    ensures r.Some? <==> exists k :: 0 <= k < |draws| && !sender.Reports(draws[k])
    ensures r.Some? ==> Drawn(sender, draws).Some?
    ensures r.Some? ==>
              var nonce := Drawn(sender, draws).value;
              && r.value.first == (if receiver.Reports(nonce) then Repeated else Payload(payload))
              && (var after := After(receiver, nonce, between);
                  r.value.again
                  == if Replay.Reported(receiver.hit, receiver.itemCount, after, nonce) then Repeated
                     else Payload(payload))
              && (m.NonceSize() > 0 ==> r.value.atSender == Repeated)
              && (m.NonceSize() > 0 && r.value.first != Repeated
                  && |After(receiver, nonce, between)| <= |receiver.Accepted()| + 1 + receiver.itemCount ==>
                    r.value.again == Repeated)
              && (m.NonceSize() == 0 ==> r.value == Outcome(Payload(payload), Payload(payload), Payload(payload)))
  {
    hide Replay.PingPongBloom.Valid, Replay.NoFalseNegatives, Replay.Accept, Replay.Reported, Method.Lawful, Packet,
      Unsealed;
    var s := Replay.Recall(sender);
    var t := Replay.Recall(receiver);
    CryptoStream.FirstFreshMeans(sender.hit, sender.itemCount, sender.Accepted(), draws);
    var packet := EncryptPayload(s, m, key, payload, draws);
    if packet.None? {
      return None;
    }
    ghost var nonce := Drawn(sender, draws).value;
    UnsealsPacket(m, key, nonce, payload);
    var first := DecryptPayload(t, m, key, packet.value);
    Show(t, between);
    var again := DecryptPayload(t, m, key, packet.value);
    var atSender := DecryptPayload(s, m, key, packet.value);
    if nonce == [] {
      EmptyPasses(sender.hit, sender.itemCount);
      EmptyPasses(receiver.hit, receiver.itemCount);
    } else {
      StillReported(sender.hit, sender.itemCount, sender.Accepted(), nonce, sender.Accepted() + [nonce]);
      if first != Repeated {
        Replay.AcceptOne(receiver.hit, receiver.itemCount, receiver.Accepted(), nonce);
        Replay.AcceptGrows(receiver.hit, receiver.itemCount, receiver.Accepted() + [nonce], between);
        if |After(receiver, nonce, between)| <= |receiver.Accepted()| + 1 + receiver.itemCount {
          StillReported(receiver.hit, receiver.itemCount, receiver.Accepted(), nonce, After(receiver, nonce, between));
        }
      }
    }
    r := Some(Outcome(first, again, atSender));
  }

  lemma EmptyPasses(hit: Replay.Filter, n: nat)
    ensures forall a :: !Replay.Reported(hit, n, a, [])
  {
  }
}
