/**
 The association machine of src/relay/udprelay/server.rs: the listener, the map of
 associations with its expiry, two tasks per association and one more that answers clients.
 An action is one atomic step of one of them; a run is any sequence of actions, and an action
 that is not enabled leaves the state as it is.
 */
module UdpAssociation {
  import opened Bytes
  import Replay
  import Socks5
  import UdpCrypto

  /** What the server is set up with: method and key, and its replay memory's filter and capacity. */
  datatype Config = Config(m: UdpCrypto.Method, key: seq<byte>, hit: Replay.Filter, itemCount: nat)

  const CHANNEL_SIZE := 1024

  type Client = nat   // a source address

  /** A datagram a remote sent back, with its sender. */
  datatype Datagram = Datagram(remote: Socks5.Address, body: seq<byte>)

  datatype Association = Association(
    client: Client,
    queue: seq<seq<byte>>,       // local -> remote channel
    relayed: seq<seq<byte>>,     // packets taken by the local -> remote task, in order
    outgoing: Option<Forward>,   // what the last of these sends on, while its lookup and its send last
    inbox: seq<Datagram>,        // datagrams received on the socket of this association
    pending: Option<Answer>,     // the encrypted answer not yet in the response channel
    relaying: bool,              // the local -> remote task lives
    answering: bool              // the local <- remote task lives
  )

  /** An answer on its way: which datagram of which association, encrypted under which nonce. */
  datatype Answer = Answer(client: Client, assoc: nat, index: nat, nonce: seq<byte>, wire: seq<byte>)

  datatype Listener = Listening | Sending(assoc: nat, packet: seq<byte>)

  datatype Responder = Waiting | Popped(answer: Answer) | Found(answer: Answer, entry: nat) | Stopped

  /** A packet the listener took, and the association it went to. */
  datatype Arrival = Arrival(client: Client, packet: seq<byte>, assoc: nat)

  /**
   A datagram that left the socket of an association: which packet of that association it was
   made of, and where the nonce of that packet stands among the accepted ones.
   */
  datatype Forward = Forward(assoc: nat, index: nat, position: nat, to: Socks5.Address, body: seq<byte>)

  datatype State = State(
    assocs: seq<Association>,      // every association ever created
    table: map<Client, nat>,
    listener: Listener,
    answers: seq<Answer>,          // the response channel
    responder: Responder,
    arrivals: seq<Arrival>,
    sent: seq<Answer>,             // everything sent to clients
    entries: seq<nat>,             // the association the check found, for each of these
    memory: seq<seq<byte>>,        // every nonce the server accepted
    forwards: seq<Forward>         // everything sent to remotes
  )

  datatype Action =
    | Receive(client: Client, packet: seq<byte>, blocked: bool)
    | Deliver
    | Expire(client: Client)
    | Screen(assoc: nat)                  // takes a packet, checks its nonce and decrypts it
    | Pass(assoc: nat, sent: bool)        // and sends it on, unless it is blocked or that fails
    | AcceptElsewhere(nonce: seq<byte>)   // by another connection of the same server
    | EndRelay(assoc: nat)
    | Hear(assoc: nat, datagram: Datagram, nonce: seq<byte>)
    | Reply(assoc: nat)
    | EndAnswer(assoc: nat)
    | Pop
    | Check
    | SendOut
    | SendFailed

  const INIT := State([], map[], Listening, [], Waiting, [], [], [], [], [])

  /** The listener or the map still holds a handle of the association. */
  predicate Held(s: State, k: nat)
  {
    k in s.table.Values || (s.listener.Sending? && s.listener.assoc == k)
  }

  ghost predicate Enabled(g: Config, s: State, a: Action)
  {
    match a
    // empty packets and blocked clients are skipped
    case Receive(_, packet, blocked) => s.listener == Listening && packet != [] && !blocked
    case Deliver =>
      s.listener.Sending? && s.listener.assoc < |s.assocs| && |s.assocs[s.listener.assoc].queue| < CHANNEL_SIZE
    case Expire(c) => c in s.table
    case Screen(k) =>
      k < |s.assocs| && s.assocs[k].relaying && s.assocs[k].outgoing.None? && s.assocs[k].queue != []
    case Pass(k, _) => k < |s.assocs| && s.assocs[k].outgoing.Some?
    case AcceptElsewhere(nonce) => nonce != [] && !Replay.Reported(g.hit, g.itemCount, s.memory, nonce)
    case EndRelay(k) =>
      && k < |s.assocs| && s.assocs[k].relaying && s.assocs[k].outgoing.None?
      && s.assocs[k].queue == [] && !Held(s, k)
    case Hear(k, d, nonce) =>
      && k < |s.assocs| && s.assocs[k].answering && s.assocs[k].pending.None?
      && !d.remote.Domain? && Socks5.Encodable(d.remote)
      && |nonce| == g.m.NonceSize() && !Replay.Reported(g.hit, g.itemCount, s.memory, nonce)
    case Reply(k) =>
      && k < |s.assocs| && s.assocs[k].answering && s.assocs[k].pending.Some?
      && (|s.answers| < CHANNEL_SIZE || s.responder == Stopped)
    case EndAnswer(k) => k < |s.assocs| && s.assocs[k].answering && !Held(s, k)
    case Pop => s.responder == Waiting && s.answers != []
    case Check => s.responder.Popped?
    case SendOut => s.responder.Found?
    case SendFailed => s.responder.Found?
  }

  /** The bytes sent to a client for a datagram: its sender's address and its body, encrypted. */
  function Encoded(m: UdpCrypto.Method, key: seq<byte>, d: Datagram, nonce: seq<byte>): (w: seq<byte>)
  {
    UdpCrypto.Packet(m, key, nonce, (if Socks5.Encodable(d.remote) then Socks5.Write(d.remote) else []) + d.body)
  }

  function Fresh(c: Client): (a: Association)
  {
    Association(c, [], [], None, [], None, true, true)
  }

  /** What a packet sends on: its body, to the address in front of it, if it decrypts and was not seen before. */
  ghost function Forwarded(g: Config, memory: seq<seq<byte>>, k: nat, index: nat, packet: seq<byte>):
      (f: Option<Forward>)
  {
    match UdpCrypto.Opened(g.hit, g.itemCount, memory, g.m, g.key, packet)
    case Payload(data) =>
      (match Socks5.Read(data)
       case Ok(to, body) => Some(Forward(k, index, |memory|, to, body))
       case Err(_) => None)
    case _ => None
  }

  ghost function Apply(g: Config, s: State, a: Action): (t: State)
  {
    if !Enabled(g, s, a) then s
    else match a
      case Receive(c, p, _) =>
        if c in s.table then
          s.(listener := Sending(s.table[c], p), arrivals := s.arrivals + [Arrival(c, p, s.table[c])])
        else
          var k := |s.assocs|;
          s.(assocs := s.assocs + [Fresh(c)], table := s.table[c := k],
             listener := Sending(k, p), arrivals := s.arrivals + [Arrival(c, p, k)])
      case Deliver =>
        var k := s.listener.assoc;
        var x := s.assocs[k];
        s.(assocs := s.assocs[k := x.(queue := x.queue + [s.listener.packet])], listener := Listening)
      case Expire(c) => s.(table := s.table - {c})
      case Screen(k) =>
        var x := s.assocs[k];
        s.(assocs := s.assocs[k := x.(queue := x.queue[1..], relayed := x.relayed + [x.queue[0]],
                                      outgoing := Forwarded(g, s.memory, k, |x.relayed|, x.queue[0]))],
           memory := UdpCrypto.AcceptedWith(g.hit, g.itemCount, s.memory, g.m, x.queue[0]))
      case Pass(k, sent) =>
        var x := s.assocs[k];
        s.(assocs := s.assocs[k := x.(outgoing := None)],
           forwards := s.forwards + if sent then [x.outgoing.value] else [])
      case AcceptElsewhere(nonce) => s.(memory := s.memory + [nonce])
      case EndRelay(k) => s.(assocs := s.assocs[k := s.assocs[k].(relaying := false)])
      case Hear(k, d, nonce) =>
        var x := s.assocs[k];
        var answer := Answer(x.client, k, |x.inbox|, nonce, Encoded(g.m, g.key, d, nonce));
        s.(assocs := s.assocs[k := x.(inbox := x.inbox + [d], pending := Some(answer))],
           memory := if nonce == [] then s.memory else s.memory + [nonce])
      case Reply(k) =>
        var x := s.assocs[k];
        s.(assocs := s.assocs[k := x.(pending := None)],
           answers := if s.responder == Stopped then s.answers else s.answers + [x.pending.value])
      case EndAnswer(k) => s.(assocs := s.assocs[k := s.assocs[k].(answering := false, pending := None)])
      case Pop => s.(answers := s.answers[1..], responder := Popped(s.answers[0]))
      case Check =>
        var answer := s.responder.answer;
        s.(responder := if answer.client in s.table then Found(answer, s.table[answer.client]) else Waiting)
      case SendOut =>
        s.(responder := Waiting, sent := s.sent + [s.responder.answer], entries := s.entries + [s.responder.entry])
      case SendFailed => s.(responder := Stopped, answers := [])   // the channel closes
  }

  /** The state after a run. */
  ghost function Run(g: Config, actions: seq<Action>): (s: State)
  {
    if actions == [] then INIT
    else Apply(g, Run(g, actions[..|actions| - 1]), actions[|actions| - 1])
  }

  /** The packets that went to one association, in arrival order. */
  function PacketsFor(arrivals: seq<Arrival>, k: nat): (p: seq<seq<byte>>)
  {
    if arrivals == [] then []
    else
      var n := |arrivals| - 1;
      PacketsFor(arrivals[..n], k) + (if arrivals[n].assoc == k then [arrivals[n].packet] else [])
  }

  lemma PacketsForSnoc(arrivals: seq<Arrival>, a: Arrival, k: nat)
    ensures PacketsFor(arrivals + [a], k) == PacketsFor(arrivals, k) + (if a.assoc == k then [a.packet] else [])
  {
    assert (arrivals + [a])[..|arrivals|] == arrivals;
  }

  /** The packet the listener is still handing over to association `k`. */
  function InHand(l: Listener, k: nat): (p: seq<seq<byte>>)
  {
    if l.Sending? && l.assoc == k then [l.packet] else []
  }

  /** Nothing is lost, duplicated or reordered on the way to an association's task. */
  ghost predicate InOrder(s: State)
  {
    forall k :: 0 <= k < |s.assocs| ==>
      PacketsFor(s.arrivals, k) == s.assocs[k].relayed + s.assocs[k].queue + InHand(s.listener, k)
  }

  /**
   A map entry is the latest association of its client, an arrival went to an association of
   its own client, and the listener holds what the map holds unless that has expired.
   */
  ghost predicate Owned(s: State)
  {
    && (forall c :: c in s.table ==> s.table[c] < |s.assocs| && s.assocs[s.table[c]].client == c)
    && (forall i :: 0 <= i < |s.arrivals| ==>
          s.arrivals[i].assoc < |s.assocs| && s.assocs[s.arrivals[i].assoc].client == s.arrivals[i].client)
    && (s.listener.Sending? ==>
          && s.listener.assoc < |s.assocs|
          && var c := s.assocs[s.listener.assoc].client; c in s.table ==> s.table[c] == s.listener.assoc)
  }

  /** No association is newer than the one in the map, and a client never goes back to an older one. */
  ghost predicate Latest(s: State)
  {
    && (forall k :: 0 <= k < |s.assocs| && s.assocs[k].client in s.table ==> k <= s.table[s.assocs[k].client])
    && (forall i, j :: 0 <= i < j < |s.arrivals| && s.arrivals[i].client == s.arrivals[j].client ==>
          s.arrivals[i].assoc <= s.arrivals[j].assoc)
  }

  /** A task ends only when nobody holds its association, and then its queue stays empty. */
  ghost predicate Alive(s: State)
  {
    && (forall k :: 0 <= k < |s.assocs| && Held(s, k) ==> s.assocs[k].relaying && s.assocs[k].answering)
    && (forall k :: 0 <= k < |s.assocs| && !s.assocs[k].relaying ==> s.assocs[k].queue == [])
  }

  /** An answer encodes a datagram received on a socket opened for its client. */
  ghost predicate Genuine(g: Config, assocs: seq<Association>, a: Answer)
  {
    && a.assoc < |assocs| && assocs[a.assoc].client == a.client
    && a.index < |assocs[a.assoc].inbox| && |a.nonce| == g.m.NonceSize()
    && var d := assocs[a.assoc].inbox[a.index];
    && !d.remote.Domain? && Socks5.Encodable(d.remote)
    && a.wire == Encoded(g.m, g.key, d, a.nonce)
  }

  /** Every answer that left its association: sent, being sent, or in the channel, oldest first. */
  function Out(s: State): (answers: seq<Answer>)
  {
    s.sent + (if s.responder.Popped? || s.responder.Found? then [s.responder.answer] else []) + s.answers
  }

  /** The pending answer is to the last datagram; everything that left is to an earlier one. */
  ghost predicate PendingLast(g: Config, s: State)
  {
    forall k :: 0 <= k < |s.assocs| && s.assocs[k].pending.Some? ==>
      var a := s.assocs[k].pending.value;
      Genuine(g, s.assocs, a) && a.assoc == k && a.index == |s.assocs[k].inbox| - 1
  }

  ghost predicate Answered(g: Config, assocs: seq<Association>, out: seq<Answer>)
  {
    && (forall i :: 0 <= i < |out| ==> Genuine(g, assocs, out[i]))
    && (forall i :: 0 <= i < |out| ==>
          assocs[out[i].assoc].pending.Some? ==> out[i].index < |assocs[out[i].assoc].inbox| - 1)
    && (forall i, j :: 0 <= i < j < |out| && out[i].assoc == out[j].assoc ==> out[i].index < out[j].index)
  }

  /** The check found an association of the client of the answer. */
  ghost predicate Checked(s: State)
  {
    && (s.responder.Found? ==>
          s.responder.entry < |s.assocs| && s.assocs[s.responder.entry].client == s.responder.answer.client)
    && |s.entries| == |s.sent|
    && (forall i :: 0 <= i < |s.sent| ==>
          s.entries[i] < |s.assocs| && s.assocs[s.entries[i]].client == s.sent[i].client)
  }

  /** A datagram sent to a remote is the body of a packet of its association, sent where that packet says. */
  ghost predicate MadeOf(g: Config, assocs: seq<Association>, memory: seq<seq<byte>>, f: Forward)
  {
    && f.assoc < |assocs| && f.index < |assocs[f.assoc].relayed|
    && var packet := assocs[f.assoc].relayed[f.index];
    && |packet| >= g.m.LeastSize()
    && var d := UdpCrypto.Unsealed(g.m, g.key, packet);
    && d.Payload? && Socks5.Read(d.data) == Socks5.Ok(f.to, f.body)
    && (g.m.NonceSize() > 0 ==> f.position < |memory| && memory[f.position] == packet[..g.m.NonceSize()])
  }

  /** The datagrams of one association left in the order of its packets; no two datagrams share an acceptance. */
  ghost predicate Forwarding(g: Config, assocs: seq<Association>, memory: seq<seq<byte>>, forwards: seq<Forward>)
  {
    && (forall i :: 0 <= i < |forwards| ==> MadeOf(g, assocs, memory, forwards[i]))
    && (forall i, j :: 0 <= i < j < |forwards| && forwards[i].assoc == forwards[j].assoc ==>
          forwards[i].index < forwards[j].index)
    && (g.m.NonceSize() > 0 ==>
          forall i, j :: 0 <= i < j < |forwards| ==> forwards[i].position != forwards[j].position)
  }

  /** What an association is about to send is made of its last packet, behind all it has sent. */
  ghost predicate Outgoing(g: Config, assocs: seq<Association>, memory: seq<seq<byte>>, forwards: seq<Forward>)
  {
    && (forall k :: 0 <= k < |assocs| && assocs[k].outgoing.Some? ==>
          var f := assocs[k].outgoing.value;
          MadeOf(g, assocs, memory, f) && f.assoc == k && f.index == |assocs[k].relayed| - 1)
    && (forall k, i :: 0 <= k < |assocs| && assocs[k].outgoing.Some? && 0 <= i < |forwards| ==>
          Behind(g, assocs[k].outgoing.value, forwards[i]))
    && (forall k, l :: 0 <= k < l < |assocs| && assocs[k].outgoing.Some? && assocs[l].outgoing.Some? ==>
          g.m.NonceSize() > 0 ==> assocs[k].outgoing.value.position != assocs[l].outgoing.value.position)
  }

  ghost predicate Behind(g: Config, f: Forward, sent: Forward)
  {
    (sent.assoc == f.assoc ==> sent.index < f.index) && (g.m.NonceSize() > 0 ==> sent.position != f.position)
  }

  ghost predicate Inv(g: Config, s: State)
  {
    && Forwarding(g, s.assocs, s.memory, s.forwards) && Outgoing(g, s.assocs, s.memory, s.forwards)
    && Replay.Screened(g.hit, g.itemCount, s.memory)
    && Owned(s) && Latest(s) && InOrder(s) && Alive(s) && Checked(s)
    && PendingLast(g, s) && Answered(g, s.assocs, Out(s))
  }

  /** A step that concerns neither the map nor the listener. */
  ghost predicate Steady(s: State, t: State)
  {
    && t.table == s.table && t.listener == s.listener && t.arrivals == s.arrivals && |t.assocs| == |s.assocs|
    && forall k :: 0 <= k < |s.assocs| ==> t.assocs[k].client == s.assocs[k].client
  }

  lemma SteadyStep(g: Config, s: State, a: Action)
    requires !a.Receive? && !a.Deliver? && !a.Expire?
    ensures Steady(s, Apply(g, s, a))
  {
    hide Encoded, Held, Socks5.Encodable, Forwarded, Replay.Reported, UdpCrypto.AcceptedWith;
  }

  lemma OwnedSteady(s: State, t: State)
    requires Owned(s) && Steady(s, t)
    ensures Owned(t)
  {
  }

  lemma OwnedReceive(g: Config, s: State, a: Action)
    requires Owned(s) && a.Receive?
    ensures Owned(Apply(g, s, a))
  {
  }

  lemma OwnedOther(g: Config, s: State, a: Action)
    requires Owned(s) && (a.Deliver? || a.Expire?)
    ensures Owned(Apply(g, s, a))
  {
  }

  lemma OwnedKept(g: Config, s: State, a: Action)
    requires Owned(s)
    ensures Owned(Apply(g, s, a))
  {
    hide Owned, Apply, Steady;
    if a.Receive? {
      OwnedReceive(g, s, a);
    } else if a.Deliver? || a.Expire? {
      OwnedOther(g, s, a);
    } else {
      SteadyStep(g, s, a);
      OwnedSteady(s, Apply(g, s, a));
    }
  }

  lemma LatestSteady(s: State, t: State)
    requires Latest(s) && Steady(s, t)
    ensures Latest(t)
  {
  }

  lemma LatestReceive(g: Config, s: State, a: Action)
    requires Owned(s) && Latest(s) && a.Receive?
    ensures Latest(Apply(g, s, a))
  {
  }

  lemma LatestOther(g: Config, s: State, a: Action)
    requires Latest(s) && (a.Deliver? || a.Expire?)
    ensures Latest(Apply(g, s, a))
  {
  }

  lemma LatestKept(g: Config, s: State, a: Action)
    requires Owned(s) && Latest(s)
    ensures Latest(Apply(g, s, a))
  {
    hide Owned, Latest, Apply, Steady;
    if a.Receive? {
      LatestReceive(g, s, a);
    } else if a.Deliver? || a.Expire? {
      LatestOther(g, s, a);
    } else {
      SteadyStep(g, s, a);
      LatestSteady(s, Apply(g, s, a));
    }
  }

  lemma {:induction false} NoPacketsYet(arrivals: seq<Arrival>, k: nat)
    requires forall i :: 0 <= i < |arrivals| ==> arrivals[i].assoc < k
    ensures PacketsFor(arrivals, k) == []
  {
    if arrivals != [] {
      NoPacketsYet(arrivals[..|arrivals| - 1], k);
    }
  }

  /** A step that leaves the queues, what was taken from them and the relaying tasks alone. */
  ghost predicate QueuesSame(s: State, t: State)
  {
    && Steady(s, t)
    && forall k :: 0 <= k < |s.assocs| ==>
         && t.assocs[k].queue == s.assocs[k].queue && t.assocs[k].relayed == s.assocs[k].relayed
         && t.assocs[k].relaying == s.assocs[k].relaying
  }

  lemma QueuesStep(g: Config, s: State, a: Action)
    requires !a.Receive? && !a.Deliver? && !a.Expire? && !a.Screen? && !a.EndRelay?
    ensures QueuesSame(s, Apply(g, s, a))
  {
    hide Encoded, Held, Socks5.Encodable, Forwarded, Replay.Reported, UdpCrypto.AcceptedWith;
  }

  lemma InOrderSame(s: State, t: State)
    requires InOrder(s) && QueuesSame(s, t)
    ensures InOrder(t)
  {
    hide PacketsFor;
  }

  lemma InOrderReceive(g: Config, s: State, a: Action)
    requires Owned(s) && InOrder(s) && a.Receive?
    ensures InOrder(Apply(g, s, a))
  {
    hide PacketsFor;
    NoPacketsYet(s.arrivals, |s.assocs|);
    var arrival := Arrival(a.client, a.packet, if a.client in s.table then s.table[a.client] else |s.assocs|);
    forall k: nat ensures PacketsFor(s.arrivals + [arrival], k)
                       == PacketsFor(s.arrivals, k) + (if arrival.assoc == k then [arrival.packet] else [])
    {
      PacketsForSnoc(s.arrivals, arrival, k);
    }
  }

  lemma InOrderOther(g: Config, s: State, a: Action)
    requires Owned(s) && InOrder(s) && (a.Deliver? || a.Expire? || a.Screen? || a.EndRelay?)
    ensures InOrder(Apply(g, s, a))
  {
    hide PacketsFor, Forwarded, UdpCrypto.AcceptedWith, Held;
  }

  lemma InOrderKept(g: Config, s: State, a: Action)
    requires Owned(s) && InOrder(s)
    ensures InOrder(Apply(g, s, a))
  {
    hide Owned, InOrder, Apply, QueuesSame;
    if a.Receive? {
      InOrderReceive(g, s, a);
    } else if a.Deliver? || a.Expire? || a.Screen? || a.EndRelay? {
      InOrderOther(g, s, a);
    } else {
      QueuesStep(g, s, a);
      InOrderSame(s, Apply(g, s, a));
    }
  }

  lemma AliveSame(s: State, t: State)
    requires Alive(s) && QueuesSame(s, t)
    requires forall k :: 0 <= k < |s.assocs| ==> t.assocs[k].answering == s.assocs[k].answering || !Held(s, k)
    ensures Alive(t)
  {
    assert forall k: nat :: Held(t, k) == Held(s, k);
  }

  lemma AnsweringStep(g: Config, s: State, a: Action, k: nat)
    requires !a.Receive? && !a.Deliver? && !a.Expire? && !a.Screen? && !a.EndRelay? && k < |s.assocs|
    ensures |Apply(g, s, a).assocs| == |s.assocs|
    ensures Apply(g, s, a).assocs[k].answering == s.assocs[k].answering || !Held(s, k)
  {
    hide Encoded, Held, Socks5.Encodable, Forwarded, Replay.Reported, UdpCrypto.AcceptedWith;
  }

  lemma AliveReceive(g: Config, s: State, a: Action)
    requires Owned(s) && Alive(s) && a.Receive?
    ensures Alive(Apply(g, s, a))
  {
    var t := Apply(g, s, a);
    forall k | 0 <= k < |s.assocs| && Held(t, k) ensures Held(s, k) {
    }
  }

  lemma AliveOther(g: Config, s: State, a: Action)
    requires Owned(s) && Alive(s) && (a.Deliver? || a.Expire? || a.Screen? || a.EndRelay?)
    ensures Alive(Apply(g, s, a))
  {
    hide Forwarded, UdpCrypto.AcceptedWith;
    var t := Apply(g, s, a);
    forall k: nat | Held(t, k) ensures Held(s, k) {
    }
  }

  lemma AliveKept(g: Config, s: State, a: Action)
    requires Owned(s) && Alive(s)
    ensures Alive(Apply(g, s, a))
  {
    hide Owned, Alive, Apply, QueuesSame, Held;
    if a.Receive? {
      AliveReceive(g, s, a);
    } else if a.Deliver? || a.Expire? || a.Screen? || a.EndRelay? {
      AliveOther(g, s, a);
    } else {
      var t := Apply(g, s, a);
      QueuesStep(g, s, a);
      forall k | 0 <= k < |s.assocs| ensures |t.assocs| == |s.assocs|
                                     ensures t.assocs[k].answering == s.assocs[k].answering || !Held(s, k)
      {
        AnsweringStep(g, s, a, k);
      }
      AliveSame(s, t);
    }
  }

  lemma CheckedKept(g: Config, s: State, a: Action)
    requires Owned(s) && Checked(s)
    ensures Checked(Apply(g, s, a))
  {
    hide Encoded, Held, Socks5.Encodable, Forwarded, Replay.Reported, UdpCrypto.AcceptedWith;
  }

  /** A step that leaves what was heard and is being answered alone. */
  ghost predicate AnsweringSame(before: seq<Association>, after: seq<Association>)
  {
    && |before| <= |after|
    && (forall k :: 0 <= k < |before| ==>
          && after[k].client == before[k].client && after[k].inbox == before[k].inbox
          && after[k].pending == before[k].pending)
    && (forall k :: |before| <= k < |after| ==> after[k].pending.None?)
  }

  lemma AnsweringSameStep(g: Config, s: State, a: Action)
    requires !a.Hear? && !a.Reply? && !a.EndAnswer?
    ensures AnsweringSame(s.assocs, Apply(g, s, a).assocs)
  {
    hide Encoded, Held, Socks5.Encodable, Forwarded, Replay.Reported, UdpCrypto.AcceptedWith;
  }

  lemma PendingSame(g: Config, s: State, t: State)
    requires PendingLast(g, s) && AnsweringSame(s.assocs, t.assocs)
    ensures PendingLast(g, t)
  {
    hide Encoded, Socks5.Encodable;
  }

  lemma PendingOther(g: Config, s: State, a: Action)
    requires PendingLast(g, s) && (a.Hear? || a.Reply? || a.EndAnswer?)
    ensures PendingLast(g, Apply(g, s, a))
  {
    hide Encoded, Held, Socks5.Encodable, Replay.Reported;
  }

  lemma PendingKept(g: Config, s: State, a: Action)
    requires PendingLast(g, s)
    ensures PendingLast(g, Apply(g, s, a))
  {
    hide PendingLast, AnsweringSame, Apply;
    if a.Hear? || a.Reply? || a.EndAnswer? {
      PendingOther(g, s, a);
    } else {
      AnsweringSameStep(g, s, a);
      PendingSame(g, s, Apply(g, s, a));
    }
  }

  /** Nothing about an association is forgotten, and only a datagram just heard is newly pending. */
  ghost predicate Grows(before: seq<Association>, after: seq<Association>)
  {
    && |before| <= |after|
    && forall k :: 0 <= k < |before| ==>
         && after[k].client == before[k].client && before[k].inbox <= after[k].inbox
         && (after[k].pending.Some? ==> before[k].pending.Some? || before[k].inbox < after[k].inbox)
  }

  lemma AssociationsGrow(g: Config, s: State, a: Action)
    ensures Grows(s.assocs, Apply(g, s, a).assocs)
  {
    hide Encoded, Held, Socks5.Encodable, Forwarded, Replay.Reported, UdpCrypto.AcceptedWith;
    if a.Hear? || a.Reply? || a.EndAnswer? {
    } else {
      AnsweringSameStep(g, s, a);
      hide Apply;
    }
  }

  lemma AnsweredGrows(g: Config, before: seq<Association>, after: seq<Association>, out: seq<Answer>)
    requires Answered(g, before, out) && Grows(before, after)
    ensures Answered(g, after, out)
  {
    hide Encoded, Socks5.Encodable;
  }

  /** An answer may be dropped anywhere on its way. */
  lemma AnsweredWithout(g: Config, assocs: seq<Association>, out: seq<Answer>, i: nat, j: nat)
    requires Answered(g, assocs, out) && i <= j <= |out|
    ensures Answered(g, assocs, out[..i] + out[j..])
  {
    hide Genuine;
  }

  lemma OutSame(g: Config, s: State, a: Action)
    requires !a.Reply? && !a.Pop? && !a.Check? && !a.SendOut? && !a.SendFailed?
    ensures Out(Apply(g, s, a)) == Out(s)
  {
    hide Encoded, Held, Socks5.Encodable, Forwarded, Replay.Reported, UdpCrypto.AcceptedWith;
  }

  lemma OutMoves(g: Config, s: State, a: Action)
    requires Enabled(g, s, a) && (a.Pop? || a.SendOut? || (a.Check? && s.responder.answer.client in s.table))
    ensures Out(Apply(g, s, a)) == Out(s)
  {
    if a.Pop? {
      assert s.answers == [s.answers[0]] + s.answers[1..];
    }
  }

  lemma OutDrops(g: Config, s: State, a: Action)
    requires Enabled(g, s, a) && (a.SendFailed? || (a.Check? && s.responder.answer.client !in s.table))
    ensures exists i: nat, j: nat :: i <= j <= |Out(s)| && Out(Apply(g, s, a)) == Out(s)[..i] + Out(s)[j..]
  {
    var t, n := Apply(g, s, a), |s.sent|;
    var j := if a.SendFailed? then |Out(s)| else n + 1;
    assert Out(t) == Out(s)[..n] + Out(s)[j..];
  }

  lemma OutMore(g: Config, s: State, a: Action)
    requires Enabled(g, s, a) && a.Reply?
    ensures var t, x := Apply(g, s, a), s.assocs[a.assoc];
            && t.assocs == s.assocs[a.assoc := x.(pending := None)]
            && Out(t) == Out(s) + if s.responder == Stopped then [] else [x.pending.value]
  {
    hide Encoded, Held;
  }

  /** What happens to the answers in one step: nothing, one more at the end, or some dropped. */
  lemma OutSteps(g: Config, s: State, a: Action)
    ensures var t := Apply(g, s, a);
            || Out(t) == Out(s)
            || (a.Reply? && a.assoc < |s.assocs| && s.assocs[a.assoc].pending.Some?
                && Out(t) == Out(s) + [s.assocs[a.assoc].pending.value]
                && t.assocs == s.assocs[a.assoc := s.assocs[a.assoc].(pending := None)])
            || exists i: nat, j: nat :: i <= j <= |Out(s)| && Out(t) == Out(s)[..i] + Out(s)[j..]
  {
    hide Out, Held, Forwarded, Replay.Reported, UdpCrypto.AcceptedWith, Encoded;
    if !Enabled(g, s, a) {
    } else if a.Reply? {
      OutMore(g, s, a);
    } else if a.SendFailed? || (a.Check? && s.responder.answer.client !in s.table) {
      OutDrops(g, s, a);
    } else if a.Pop? || a.SendOut? || a.Check? {
      OutMoves(g, s, a);
    } else {
      OutSame(g, s, a);
    }
  }

  lemma AnsweredKept(g: Config, s: State, a: Action)
    requires PendingLast(g, s) && Answered(g, s.assocs, Out(s))
    ensures var t := Apply(g, s, a); Answered(g, t.assocs, Out(t))
  {
    hide Genuine, Apply, Out;
    var t := Apply(g, s, a);
    OutSteps(g, s, a);
    AssociationsGrow(g, s, a);
    AnsweredGrows(g, s.assocs, t.assocs, Out(s));
    if Out(t) == Out(s) {
    } else if i: nat, j: nat :| i <= j <= |Out(s)| && Out(t) == Out(s)[..i] + Out(s)[j..] {
      AnsweredWithout(g, t.assocs, Out(s), i, j);
    } else {
      AnsweredMore(g, s, a.assoc, Out(s));
    }
  }

  /** The pending answer takes its place behind the earlier ones of its association. */
  lemma AnsweredMore(g: Config, s: State, k: nat, out: seq<Answer>)
    requires PendingLast(g, s) && Answered(g, s.assocs, out)
    requires k < |s.assocs| && s.assocs[k].pending.Some?
    ensures Answered(g, s.assocs[k := s.assocs[k].(pending := None)], out + [s.assocs[k].pending.value])
  {
    hide Encoded, Socks5.Encodable;
  }

  lemma MemoryKept(g: Config, s: State, a: Action)
    requires Replay.Screened(g.hit, g.itemCount, s.memory)
    ensures Replay.Screened(g.hit, g.itemCount, Apply(g, s, a).memory) && s.memory <= Apply(g, s, a).memory
  {
    hide Encoded, Held, Socks5.Encodable, Replay.Reported, Replay.Screened, Replay.Accept, Forwarded;
    if Enabled(g, s, a) {
      var nonce := match a
                   case Hear(_, _, nonce) => nonce
                   case AcceptElsewhere(nonce) => nonce
                   case Screen(k) =>
                     var packet := s.assocs[k].queue[0];
                     if |packet| < g.m.LeastSize() then [] else packet[..g.m.NonceSize()]
                   case _ => [];
      Replay.AcceptOne(g.hit, g.itemCount, s.memory, nonce);
      if nonce != [] && !Replay.Reported(g.hit, g.itemCount, s.memory, nonce) {
        Replay.ScreenedSnoc(g.hit, g.itemCount, s.memory, nonce);
      }
    }
  }

  /** The associations as far as relaying goes. */
  ghost predicate RelaysSame(before: seq<Association>, after: seq<Association>)
  {
    && |before| <= |after|
    && (forall k :: 0 <= k < |before| ==>
          after[k].relayed == before[k].relayed && after[k].outgoing == before[k].outgoing)
    && (forall k :: |before| <= k < |after| ==> after[k].outgoing.None?)
  }

  lemma RelaysStep(g: Config, s: State, a: Action)
    requires !a.Screen? && !a.Pass?
    ensures RelaysSame(s.assocs, Apply(g, s, a).assocs) && Apply(g, s, a).forwards == s.forwards
  {
    hide Encoded, Held, Socks5.Encodable, Replay.Reported;
  }

  lemma MadeOfSame(g: Config, before: seq<Association>, after: seq<Association>,
                   memory: seq<seq<byte>>, more: seq<seq<byte>>, f: Forward)
    requires MadeOf(g, before, memory, f) && memory <= more && |before| <= |after|
    requires forall k :: 0 <= k < |before| ==> before[k].relayed <= after[k].relayed
    ensures MadeOf(g, after, more, f)
  {
    hide UdpCrypto.Unsealed, Socks5.Read;
  }

  /** Neither other steps nor more accepted nonces disturb what is on its way. */
  lemma ForwardingSame(g: Config, before: seq<Association>, after: seq<Association>,
                       memory: seq<seq<byte>>, more: seq<seq<byte>>, forwards: seq<Forward>)
    requires Forwarding(g, before, memory, forwards) && Outgoing(g, before, memory, forwards)
    requires RelaysSame(before, after) && memory <= more
    ensures Forwarding(g, after, more, forwards) && Outgoing(g, after, more, forwards)
  {
    hide MadeOf, Behind;
    forall f | MadeOf(g, before, memory, f) ensures MadeOf(g, after, more, f) {
      MadeOfSame(g, before, after, memory, more, f);
    }
  }

  /** A datagram about to leave does: it takes its place behind what its association has sent. */
  lemma ForwardingPass(g: Config, s: State, k: nat, sent: bool)
    requires Forwarding(g, s.assocs, s.memory, s.forwards) && Outgoing(g, s.assocs, s.memory, s.forwards)
    requires k < |s.assocs| && s.assocs[k].outgoing.Some?
    ensures var assocs := s.assocs[k := s.assocs[k].(outgoing := None)];
            var forwards := s.forwards + if sent then [s.assocs[k].outgoing.value] else [];
            Forwarding(g, assocs, s.memory, forwards) && Outgoing(g, assocs, s.memory, forwards)
  {
    hide MadeOf;
    var assocs := s.assocs[k := s.assocs[k].(outgoing := None)];
    forall f | MadeOf(g, s.assocs, s.memory, f) ensures MadeOf(g, assocs, s.memory, f) {
      MadeOfSame(g, s.assocs, assocs, s.memory, s.memory, f);
    }
  }

  /** A packet just taken: its acceptance is new, and it comes behind the earlier ones of its association. */
  lemma ForwardingScreen(g: Config, s: State, t: State, k: nat)
    requires Forwarding(g, s.assocs, s.memory, s.forwards) && Outgoing(g, s.assocs, s.memory, s.forwards)
    requires k < |s.assocs| && s.assocs[k].outgoing.None? && s.assocs[k].queue != []
    requires s.memory <= t.memory && t.forwards == s.forwards && |t.assocs| == |s.assocs|
    requires t.memory == UdpCrypto.AcceptedWith(g.hit, g.itemCount, s.memory, g.m, s.assocs[k].queue[0])
    requires t.assocs[k].relayed == s.assocs[k].relayed + [s.assocs[k].queue[0]]
    requires t.assocs[k].outgoing == Forwarded(g, s.memory, k, |s.assocs[k].relayed|, s.assocs[k].queue[0])
    requires forall l :: 0 <= l < |s.assocs| && l != k ==> t.assocs[l] == s.assocs[l]
    ensures Forwarding(g, t.assocs, t.memory, t.forwards) && Outgoing(g, t.assocs, t.memory, t.forwards)
  {
    hide MadeOf, Forwarded, UdpCrypto.AcceptedWith, Forwarding, Outgoing;
    NewlyMade(g, s, t, k);
    forall f | MadeOf(g, s.assocs, s.memory, f) ensures Older(g, s, k, f) && MadeOf(g, t.assocs, t.memory, f) {
      MadeOfSame(g, s.assocs, t.assocs, s.memory, t.memory, f);
      InMemory(g, s.assocs, s.memory, f);
    }
    SentStays(g, s, t);
    OutgoingJoined(g, s, t, k);
  }

  /** A datagram of an earlier packet and an earlier acceptance. */
  ghost predicate Older(g: Config, s: State, k: nat, f: Forward)
    requires k < |s.assocs|
  {
    (g.m.NonceSize() > 0 ==> f.position < |s.memory|) && (f.assoc == k ==> f.index < |s.assocs[k].relayed|)
  }

  lemma SentStays(g: Config, s: State, t: State)
    requires Forwarding(g, s.assocs, s.memory, s.forwards)
    requires forall f :: MadeOf(g, s.assocs, s.memory, f) ==> MadeOf(g, t.assocs, t.memory, f)
    ensures Forwarding(g, t.assocs, t.memory, s.forwards)
  {
    hide MadeOf;
  }

  lemma OutgoingJoined(g: Config, s: State, t: State, k: nat)
    requires Forwarding(g, s.assocs, s.memory, s.forwards) && Outgoing(g, s.assocs, s.memory, s.forwards)
    requires k < |s.assocs| && |t.assocs| == |s.assocs|
    requires forall l :: 0 <= l < |s.assocs| && l != k ==> t.assocs[l] == s.assocs[l]
    requires forall f :: MadeOf(g, s.assocs, s.memory, f) ==> Older(g, s, k, f) && MadeOf(g, t.assocs, t.memory, f)
    requires t.assocs[k].outgoing.Some? ==>
               var f := t.assocs[k].outgoing.value;
               && MadeOf(g, t.assocs, t.memory, f) && f.assoc == k && f.position == |s.memory|
               && f.index == |t.assocs[k].relayed| - 1 == |s.assocs[k].relayed|
    ensures Outgoing(g, t.assocs, t.memory, s.forwards)
  {
    hide MadeOf;
  }

  lemma InMemory(g: Config, assocs: seq<Association>, memory: seq<seq<byte>>, f: Forward)
    requires MadeOf(g, assocs, memory, f)
    ensures f.assoc < |assocs| && f.index < |assocs[f.assoc].relayed|
    ensures g.m.NonceSize() > 0 ==> f.position < |memory|
  {
  }

  lemma NewlyMade(g: Config, s: State, t: State, k: nat)
    requires k < |s.assocs| && s.assocs[k].queue != [] && |t.assocs| == |s.assocs|
    requires t.memory == UdpCrypto.AcceptedWith(g.hit, g.itemCount, s.memory, g.m, s.assocs[k].queue[0])
    requires t.assocs[k].relayed == s.assocs[k].relayed + [s.assocs[k].queue[0]]
    requires t.assocs[k].outgoing == Forwarded(g, s.memory, k, |s.assocs[k].relayed|, s.assocs[k].queue[0])
    ensures t.assocs[k].outgoing.Some? ==>
              var f := t.assocs[k].outgoing.value;
              && MadeOf(g, t.assocs, t.memory, f) && f.assoc == k && f.index == |t.assocs[k].relayed| - 1
              && f.position == |s.memory| && f.index == |s.assocs[k].relayed|
  {
    hide UdpCrypto.Unsealed, Socks5.Read, Replay.Reported, Replay.Accept;
    var packet := s.assocs[k].queue[0];
    if |packet| >= g.m.LeastSize() {
      Replay.AcceptOne(g.hit, g.itemCount, s.memory, packet[..g.m.NonceSize()]);
    }
  }

  lemma ForwardingKept(g: Config, s: State, a: Action)
    requires Forwarding(g, s.assocs, s.memory, s.forwards) && Outgoing(g, s.assocs, s.memory, s.forwards)
    requires Replay.Screened(g.hit, g.itemCount, s.memory)
    ensures var t := Apply(g, s, a);
            Forwarding(g, t.assocs, t.memory, t.forwards) && Outgoing(g, t.assocs, t.memory, t.forwards)
  {
    hide Forwarding, Outgoing, Forwarded, UdpCrypto.AcceptedWith, Replay.Screened, Encoded, Held, Socks5.Encodable;
    var t := Apply(g, s, a);
    MemoryKept(g, s, a);
    if !a.Screen? && !a.Pass? {
      RelaysStep(g, s, a);
      ForwardingSame(g, s.assocs, t.assocs, s.memory, t.memory, s.forwards);
    } else if Enabled(g, s, a) {
      if a.Screen? {
        ForwardingScreen(g, s, t, a.assoc);
      } else {
        ForwardingPass(g, s, a.assoc, a.sent);
      }
    }
  }

  lemma InitOrders()
    ensures Owned(INIT) && Latest(INIT) && InOrder(INIT) && Alive(INIT) && Checked(INIT)
  {
    hide PacketsFor, Held;
  }

  lemma InitAnswers(g: Config)
    ensures PendingLast(g, INIT) && Answered(g, INIT.assocs, Out(INIT))
  {
    hide Genuine;
    assert Out(INIT) == [];
  }

  lemma InitForwards(g: Config)
    ensures Forwarding(g, [], [], []) && Outgoing(g, [], [], []) && Replay.Screened(g.hit, g.itemCount, [])
  {
    hide MadeOf, Behind, Replay.Reported;
  }

  lemma InvInit(g: Config)
    ensures Inv(g, INIT)
  {
    hide Owned, Latest, InOrder, Alive, Checked, PendingLast, Answered, Forwarding, Outgoing, Replay.Screened, Out;
    InitOrders();
    InitAnswers(g);
    InitForwards(g);
  }

  lemma InvKept(g: Config, s: State, a: Action)
    requires Inv(g, s)
    ensures Inv(g, Apply(g, s, a))
  {
    hide Owned, Latest, InOrder, Alive, Checked, PendingLast, Answered, Forwarding, Outgoing, Replay.Screened,
      Apply, Out;
    OwnedKept(g, s, a);
    LatestKept(g, s, a);
    InOrderKept(g, s, a);
    AliveKept(g, s, a);
    CheckedKept(g, s, a);
    PendingKept(g, s, a);
    AnsweredKept(g, s, a);
    MemoryKept(g, s, a);
    ForwardingKept(g, s, a);
  }

  lemma {:induction false} InvAlways(g: Config, actions: seq<Action>)
    ensures Inv(g, Run(g, actions))
  {
    hide Inv, Apply;
    if actions == [] {
      InvInit(g);
    } else {
      InvAlways(g, actions[..|actions| - 1]);
      InvKept(g, Run(g, actions[..|actions| - 1]), actions[|actions| - 1]);
    }
  }

  /**
   Every datagram a client is ever sent decrypts to the sender and the body of a datagram
   received on a socket opened for that client, and was sent after an association of that
   client was found in the map.
   */
  lemma AnswersAreGenuine(g: Config, actions: seq<Action>, i: nat)
    requires g.m.Lawful() && i < |Run(g, actions).sent|
    ensures var s := Run(g, actions);
            && |s.entries| == |s.sent|
            && var a, entry := s.sent[i], s.entries[i];
            && entry < |s.assocs| && s.assocs[entry].client == a.client
            && a.assoc < |s.assocs| && s.assocs[a.assoc].client == a.client
            && a.index < |s.assocs[a.assoc].inbox|
            && var d := s.assocs[a.assoc].inbox[a.index];
            && !d.remote.Domain? && Socks5.Encodable(d.remote)
            && |a.wire| >= g.m.LeastSize()
            && UdpCrypto.Unsealed(g.m, g.key, a.wire) == UdpCrypto.Payload(Socks5.Write(d.remote) + d.body)
  {
    hide Run, Owned, Latest, InOrder, Alive, PendingLast;
    InvAlways(g, actions);
    var s := Run(g, actions);
    assert Out(s)[i] == s.sent[i];
    var a := s.sent[i];
    var d := s.assocs[a.assoc].inbox[a.index];
    UdpCrypto.UnsealsPacket(g.m, g.key, a.nonce, Socks5.Write(d.remote) + d.body);
  }

  /** No datagram is answered twice, and the answers of one association leave in the order heard. */
  lemma AnswersInOrder(g: Config, actions: seq<Action>, i: nat, j: nat)
    requires i < j < |Run(g, actions).sent|
    ensures var sent := Run(g, actions).sent;
            sent[i].assoc == sent[j].assoc ==> sent[i].index < sent[j].index
  {
    hide Run, Owned, Latest, InOrder, Alive, PendingLast, Genuine;
    InvAlways(g, actions);
    var s := Run(g, actions);
    assert Out(s)[i] == s.sent[i] && Out(s)[j] == s.sent[j];
  }

  /** An association relays what its client sent to it, in that order; all of it before its task ends. */
  lemma RelayedInOrder(g: Config, actions: seq<Action>, k: nat)
    requires k < |Run(g, actions).assocs|
    ensures var s := Run(g, actions);
            && PacketsFor(s.arrivals, k) == s.assocs[k].relayed + s.assocs[k].queue + InHand(s.listener, k)
            && (!s.assocs[k].relaying ==> s.assocs[k].relayed == PacketsFor(s.arrivals, k))
  {
    hide Run, Owned, Latest, PendingLast, Answered, PacketsFor;
    InvAlways(g, actions);
  }

  /**
   Every datagram that leaves the socket of an association is the body of a packet its client
   sent, decrypted, to the address in front of it; and they leave in the order the packets came,
   no packet making two of them.
   */
  lemma ForwardsAreGenuine(g: Config, actions: seq<Action>, i: nat)
    requires i < |Run(g, actions).forwards|
    ensures var s := Run(g, actions);
            var f := s.forwards[i];
            && f.assoc < |s.assocs| && f.index < |PacketsFor(s.arrivals, f.assoc)|
            && var packet := PacketsFor(s.arrivals, f.assoc)[f.index];
            && |packet| >= g.m.LeastSize()
            && var d := UdpCrypto.Unsealed(g.m, g.key, packet);
            && d.Payload? && Socks5.Read(d.data) == Socks5.Ok(f.to, f.body)
            && (forall j :: 0 <= j < i && s.forwards[j].assoc == f.assoc ==> s.forwards[j].index < f.index)
            && (forall n :: 0 <= n < |s.arrivals| && s.arrivals[n].assoc == f.assoc ==>
                  s.arrivals[n].client == s.assocs[f.assoc].client)
  {
    hide Run, Latest, Alive, PendingLast, Answered, PacketsFor, UdpCrypto.Unsealed, Socks5.Read, Replay.Screened;
    InvAlways(g, actions);
    var s := Run(g, actions);
    var f := s.forwards[i];
    assert PacketsFor(s.arrivals, f.assoc)
      == s.assocs[f.assoc].relayed + s.assocs[f.assoc].queue + InHand(s.listener, f.assoc);
  }

  /** What an honest packet under a nonce not seen before makes its association send. */
  lemma HonestPacketScreened(g: Config, s: State, k: nat, nonce: seq<byte>, to: Socks5.Address, body: seq<byte>)
    requires g.m.Lawful() && |nonce| == g.m.NonceSize() && Socks5.Encodable(to)
    requires Enabled(g, s, Screen(k))
    requires s.assocs[k].queue[0] == UdpCrypto.Packet(g.m, g.key, nonce, Socks5.Write(to) + body)
    requires !Replay.Reported(g.hit, g.itemCount, s.memory, nonce)
    ensures var t := Apply(g, s, Screen(k));
            && k < |t.assocs|
            && t.assocs[k].outgoing == Some(Forward(k, |s.assocs[k].relayed|, |s.memory|, Socks5.Carried(to), body))
  {
    hide UdpCrypto.Packet, UdpCrypto.Unsealed, UdpCrypto.AcceptedWith, Socks5.Read, Socks5.Write, Replay.Reported, Held;
    UdpCrypto.UnsealsPacket(g.m, g.key, nonce, Socks5.Write(to) + body);
    Socks5.ReadWrite(to, body);
  }

  lemma OutgoingWaits(g: Config, s: State, a: Action, k: nat)
    requires k < |s.assocs| && s.assocs[k].outgoing.Some? && (a.Pass? ==> a.assoc != k)
    ensures var t := Apply(g, s, a); k < |t.assocs| && t.assocs[k].outgoing == s.assocs[k].outgoing
  {
    hide Encoded, Held, Socks5.Encodable, Forwarded, Replay.Reported, UdpCrypto.AcceptedWith;
  }

  /** What is about to leave stays so, through whatever happens elsewhere. */
  lemma {:induction false} OutgoingWaitsLong(g: Config, before: seq<Action>, mid: seq<Action>, k: nat)
    requires k < |Run(g, before).assocs| && Run(g, before).assocs[k].outgoing.Some?
    requires forall i :: 0 <= i < |mid| && mid[i].Pass? ==> mid[i].assoc != k
    ensures var t := Run(g, before + mid);
            k < |t.assocs| && t.assocs[k].outgoing == Run(g, before).assocs[k].outgoing
    decreases |mid|
  {
    hide Run, Apply;
    if mid == [] {
      assert before + mid == before;
    } else {
      var n := |mid| - 1;
      OutgoingWaitsLong(g, before, mid[..n], k);
      assert before + mid == (before + mid[..n]) + [mid[n]];
      RunSnoc(g, before + mid[..n], mid[n]);
      OutgoingWaits(g, Run(g, before + mid[..n]), mid[n], k);
    }
  }

  lemma {:induction false} ForwardsStay(g: Config, before: seq<Action>, later: seq<Action>)
    ensures Run(g, before).forwards <= Run(g, before + later).forwards
    decreases |later|
  {
    if later == [] {
      assert before + later == before;
    } else {
      var n := |later| - 1;
      ForwardsStay(g, before, later[..n]);
      assert before + later == (before + later[..n]) + [later[n]];
      RunSnoc(g, before + later[..n], later[n]);
      hide Run;
      ForwardsGrow(g, Run(g, before + later[..n]), later[n]);
    }
  }

  lemma ForwardsGrow(g: Config, s: State, a: Action)
    ensures s.forwards <= Apply(g, s, a).forwards
  {
    hide Encoded, Held, Socks5.Encodable, Forwarded, Replay.Reported, UdpCrypto.AcceptedWith;
  }

  /**
   In every run: once the relaying task has taken a packet an honest client made, under a nonce
   not reported then, and that packet passes, however long that takes and whatever happens
   meanwhile, its body is among what was sent, to the address its client wants.
   */
  lemma HonestPacketForwarded(g: Config, before: seq<Action>, mid: seq<Action>, later: seq<Action>,
                              k: nat, nonce: seq<byte>, to: Socks5.Address, body: seq<byte>)
    requires g.m.Lawful() && |nonce| == g.m.NonceSize() && Socks5.Encodable(to)
    requires Enabled(g, Run(g, before), Screen(k))
    requires Run(g, before).assocs[k].queue[0] == UdpCrypto.Packet(g.m, g.key, nonce, Socks5.Write(to) + body)
    requires !Replay.Reported(g.hit, g.itemCount, Run(g, before).memory, nonce)
    requires forall i :: 0 <= i < |mid| && mid[i].Pass? ==> mid[i].assoc != k
    ensures var s := Run(g, before);
            Forward(k, |s.assocs[k].relayed|, |s.memory|, Socks5.Carried(to), body)
              in Run(g, before + [Screen(k)] + mid + [Pass(k, true)] + later).forwards
  {
    hide Run, Apply, UdpCrypto.Packet, Socks5.Write, Replay.Reported;
    var s := Run(g, before);
    RunSnoc(g, before, Screen(k));
    HonestPacketScreened(g, s, k, nonce, to, body);
    var taken := before + [Screen(k)];
    OutgoingWaitsLong(g, taken, mid, k);
    var waiting := Run(g, taken + mid);
    RunSnoc(g, taken + mid, Pass(k, true));
    Passed(g, waiting, k);
    ForwardsStay(g, taken + mid + [Pass(k, true)], later);
  }

  lemma Passed(g: Config, s: State, k: nat)
    requires k < |s.assocs| && s.assocs[k].outgoing.Some?
    ensures s.assocs[k].outgoing.value in Apply(g, s, Pass(k, true)).forwards
  {
  }

  /** The packet a forwarded datagram was made of. */
  ghost function Origin(g: Config, actions: seq<Action>, i: nat): (packet: seq<byte>)
    requires i < |Run(g, actions).forwards|
  {
    var s := Run(g, actions);
    ForwardsAreGenuine(g, actions, i);
    PacketsFor(s.arrivals, s.forwards[i].assoc)[s.forwards[i].index]
  }

  /**
   Two datagrams made of packets under the same nonce, from whatever clients and in whatever order
   they left, stem from two acceptances of it with more than `itemCount` others in between. So a
   replayed packet is never sent on within the window.
   */
  lemma NoReplayForwarded(g: Config, actions: seq<Action>, i: nat, j: nat)
    requires Replay.NoFalseNegatives(g.hit) && g.itemCount >= 1 && g.m.NonceSize() > 0
    requires i < |Run(g, actions).forwards| && j < |Run(g, actions).forwards| && i != j
    ensures |Origin(g, actions, i)| >= g.m.NonceSize() && |Origin(g, actions, j)| >= g.m.NonceSize()
    ensures Origin(g, actions, i)[..g.m.NonceSize()] == Origin(g, actions, j)[..g.m.NonceSize()] ==>
              var s := Run(g, actions);
              var p, q := s.forwards[i].position, s.forwards[j].position;
              && p < |s.memory| && q < |s.memory| && s.memory[p] == s.memory[q]
              && (p - q - 1 > g.itemCount || q - p - 1 > g.itemCount)
  {
    ForwardsAreGenuine(g, actions, i);
    ForwardsAreGenuine(g, actions, j);
    OriginIsRelayed(g, actions, i);
    OriginIsRelayed(g, actions, j);
    hide Run, Owned, Latest, Alive, Checked, InOrder, PendingLast, Answered, Outgoing, Origin, UdpCrypto.Unsealed,
      Socks5.Read;
    InvAlways(g, actions);
    var s := Run(g, actions);
    var p, q := s.forwards[i].position, s.forwards[j].position;
    assert MadeOf(g, s.assocs, s.memory, s.forwards[i]) && MadeOf(g, s.assocs, s.memory, s.forwards[j]);
    assert p != q;
    if s.memory[p] == s.memory[q] {
      if p < q {
        Replay.AcceptedApart(g.hit, g.itemCount, s.memory, p, q);
      } else {
        Replay.AcceptedApart(g.hit, g.itemCount, s.memory, q, p);
      }
    }
  }

  lemma OriginIsRelayed(g: Config, actions: seq<Action>, i: nat)
    requires i < |Run(g, actions).forwards|
    ensures var s := Run(g, actions);
            var f := s.forwards[i];
            f.assoc < |s.assocs| && f.index < |s.assocs[f.assoc].relayed|
              && Origin(g, actions, i) == s.assocs[f.assoc].relayed[f.index]
  {
    hide Run, Owned, Latest, Alive, PendingLast, Answered, PacketsFor, UdpCrypto.Unsealed, Socks5.Read, Replay.Screened;
    InvAlways(g, actions);
    var s := Run(g, actions);
    var f := s.forwards[i];
    assert PacketsFor(s.arrivals, f.assoc)
      == s.assocs[f.assoc].relayed + s.assocs[f.assoc].queue + InHand(s.listener, f.assoc);
  }

  /** The listener never finds the queue closed: the relaying task behind it lives, and so does the other. */
  lemma QueueNeverClosed(g: Config, actions: seq<Action>)
    ensures var s := Run(g, actions);
            s.listener.Sending? ==>
              && s.listener.assoc < |s.assocs|
              && s.assocs[s.listener.assoc].relaying && s.assocs[s.listener.assoc].answering
  {
    hide Run, Latest, InOrder, PendingLast, Answered;
    InvAlways(g, actions);
  }

  /** A client has at most one association in use, and never returns to an older one. */
  lemma OneAssociation(g: Config, actions: seq<Action>)
    ensures var s := Run(g, actions);
            && (forall j: nat, k: nat :: j < |s.assocs| && k < |s.assocs| && Held(s, j) && Held(s, k) ==>
                  s.assocs[j].client == s.assocs[k].client ==> j == k)
            && (forall i, j :: 0 <= i < j < |s.arrivals| && s.arrivals[i].client == s.arrivals[j].client ==>
                  s.arrivals[i].assoc <= s.arrivals[j].assoc)
  {
    hide Run, InOrder, Alive, PendingLast, Answered;
    InvAlways(g, actions);
  }

  /** From `n` on, every packet of the client went to the association `k`. */
  ghost predicate AllTo(arrivals: seq<Arrival>, n: nat, c: Client, k: nat)
  {
    forall i :: n <= i < |arrivals| && arrivals[i].client == c ==> arrivals[i].assoc == k
  }

  /**
   A packet that is taken is handed to the association the map then holds for its client, and
   so is every later packet of that client until the entry expires, whatever happens in between.
   */
  lemma {:induction false} SticksUntilExpiry(g: Config, before: seq<Action>,
                                             c: Client, p: seq<byte>, mid: seq<Action>)
    requires Run(g, before).listener == Listening && p != []
    requires forall i :: 0 <= i < |mid| ==> mid[i] != Expire(c)
    ensures var first := before + [Receive(c, p, false)];
            var s, t, u := Run(g, before), Run(g, first), Run(g, first + mid);
            && c in t.table && t.listener == Sending(t.table[c], p)
            && t.arrivals == s.arrivals + [Arrival(c, p, t.table[c])]
            && c in u.table && u.table[c] == t.table[c] && AllTo(u.arrivals, |s.arrivals|, c, t.table[c])
    decreases |mid|
  {
    hide Run, Apply, AllTo;
    var s, a := Run(g, before), Receive(c, p, false);
    var first := before + [a];
    RunSnoc(g, before, a);
    Taken(g, s, c, p);
    if mid == [] {
      assert first + mid == first;
    } else {
      var n := |mid| - 1;
      SticksUntilExpiry(g, before, c, p, mid[..n]);
      assert first + mid == (first + mid[..n]) + [mid[n]];
      RunSnoc(g, first + mid[..n], mid[n]);
      StaysAssociated(g, Run(g, first + mid[..n]), mid[n], c, |s.arrivals|);
    }
  }

  lemma RunSnoc(g: Config, actions: seq<Action>, a: Action)
    ensures Run(g, actions + [a]) == Apply(g, Run(g, actions), a)
  {
    hide Apply;
    assert (actions + [a])[..|actions|] == actions;
  }

  lemma Taken(g: Config, s: State, c: Client, p: seq<byte>)
    requires s.listener == Listening && p != []
    ensures var t := Apply(g, s, Receive(c, p, false));
            && c in t.table && t.listener == Sending(t.table[c], p)
            && t.arrivals == s.arrivals + [Arrival(c, p, t.table[c])]
            && AllTo(t.arrivals, |s.arrivals|, c, t.table[c])
  {
    hide Encoded, Held, Socks5.Encodable;
  }

  lemma StaysAssociated(g: Config, s: State, a: Action, c: Client, n: nat)
    requires c in s.table && a != Expire(c) && AllTo(s.arrivals, n, c, s.table[c])
    ensures var t := Apply(g, s, a); c in t.table && t.table[c] == s.table[c] && AllTo(t.arrivals, n, c, s.table[c])
  {
    hide Encoded, Held, Socks5.Encodable;
  }
}
