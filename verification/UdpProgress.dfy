/**
 What the association machine gets done: a datagram that a remote sends back reaches the client,
 and a packet that the listener takes is screened. The tasks are given their turns in any order
 and among whatever else happens.
 */
module UdpProgress {
  import opened Bytes
  import opened UdpAssociation
  import Replay
  import Socks5
  import UdpCrypto

  ghost function Flat(rounds: seq<seq<Action>>): (actions: seq<Action>)
  {
    if rounds == [] then [] else Flat(rounds[..|rounds| - 1]) + rounds[|rounds| - 1]
  }

  // Answers

  /** The answer to a datagram: to the client of the association, the sender's address and the body, encrypted. */
  function AnswerTo(g: Config, client: Client, k: nat, index: nat, d: Datagram, nonce: seq<byte>): (x: Answer)
    requires Socks5.Encodable(d.remote)
  {
    Answer(client, k, index, nonce, UdpCrypto.Packet(g.m, g.key, nonce, Socks5.Write(d.remote) + d.body))
  }

  lemma Heard(g: Config, s: State, k: nat, d: Datagram, nonce: seq<byte>)
    requires k < |s.assocs| && s.assocs[k].answering && s.assocs[k].pending.None?
    requires !d.remote.Domain? && Socks5.Encodable(d.remote)
    requires |nonce| == g.m.NonceSize() && !Replay.Reported(g.hit, g.itemCount, s.memory, nonce)
    ensures var t, x := Apply(g, s, Hear(k, d, nonce)), s.assocs[k];
            && k < |t.assocs| && t.assocs[k].answering
            && t.assocs[k].pending == Some(AnswerTo(g, x.client, k, |x.inbox|, d, nonce))
  {
    hide UdpCrypto.Packet, Socks5.Write, Replay.Reported, Socks5.Encodable, Held;
  }

  lemma PendingWaits(g: Config, s: State, a: Action, k: nat)
    requires k < |s.assocs| && s.assocs[k].answering && s.assocs[k].pending.Some?
    requires a != EndAnswer(k) && a != Reply(k)
    ensures var t := Apply(g, s, a);
            k < |t.assocs| && t.assocs[k].answering && t.assocs[k].pending == s.assocs[k].pending
  {
    hide Encoded, Held, Socks5.Encodable, Forwarded, Replay.Reported, UdpCrypto.AcceptedWith;
  }

  lemma {:induction false} PendingWaitsLong(g: Config, before: seq<Action>, mid: seq<Action>, k: nat)
    requires var s := Run(g, before); k < |s.assocs| && s.assocs[k].answering && s.assocs[k].pending.Some?
    requires EndAnswer(k) !in mid && Reply(k) !in mid
    ensures var s, t := Run(g, before), Run(g, before + mid);
            k < |t.assocs| && t.assocs[k].answering && t.assocs[k].pending == s.assocs[k].pending
    decreases |mid|
  {
    hide Run, Apply;
    if mid == [] {
      assert before + mid == before;
    } else {
      var n := |mid| - 1;
      PendingWaitsLong(g, before, mid[..n], k);
      assert before + mid == (before + mid[..n]) + [mid[n]];
      RunSnoc(g, before + mid[..n], mid[n]);
      PendingWaits(g, Run(g, before + mid[..n]), mid[n], k);
    }
  }

  /** The steps a responder that was interrupted still owes to the answer in its hand. */
  function Busy(r: Responder): (n: nat)
  {
    match r
    case Waiting => 0
    case Popped(_) => 2
    case Found(_, _) => 1
    case Stopped => 0
  }

  /** The answer was sent, or is at most `d` steps of the responder from it. */
  ghost predicate OnItsWay(s: State, x: Answer, d: nat)
  {
    || x in s.sent
    || (s.responder.Found? && s.responder.answer == x && d >= 1)
    || (s.responder.Popped? && s.responder.answer == x && d >= 2)
    || (s.responder != Stopped && exists i :: 0 <= i < |s.answers| && InLine(s, x, d, i))
  }

  ghost predicate InLine(s: State, x: Answer, d: nat, i: nat)
    requires i < |s.answers|
  {
    s.answers[i] == x && d >= 3 + 3 * i + Busy(s.responder)
  }

  /** The steps of the responder. */
  predicate Turn(a: Action)
  {
    a == Pop || a == Check || a == SendOut
  }

  /** No step of anyone takes the answer back, unless it is thrown away; a step of the responder takes it on. */
  lemma OnItsWayKept(g: Config, s: State, a: Action, x: Answer, d: nat)
    requires OnItsWay(s, x, d) && a != SendFailed
    requires a == Check && s.responder == Popped(x) ==> x.client in s.table
    ensures OnItsWay(Apply(g, s, a), x, d)
    ensures Turn(a) && Enabled(g, s, a) && d > 0 ==> OnItsWay(Apply(g, s, a), x, d - 1)
  {
    hide Encoded, Held, Socks5.Encodable, Forwarded, Replay.Reported, UdpCrypto.AcceptedWith, InLine;
    var t := Apply(g, s, a);
    if x in s.sent {
      assert x in t.sent;
    } else if s.responder != Stopped && exists i :: 0 <= i < |s.answers| && InLine(s, x, d, i) {
      var i :| 0 <= i < |s.answers| && InLine(s, x, d, i);
      InLineKept(g, s, a, x, d, i);
    }
  }

  lemma InLineKept(g: Config, s: State, a: Action, x: Answer, d: nat, i: nat)
    requires i < |s.answers| && InLine(s, x, d, i) && a != SendFailed && s.responder != Stopped
    ensures OnItsWay(Apply(g, s, a), x, d)
    ensures Turn(a) && Enabled(g, s, a) && d > 0 ==> OnItsWay(Apply(g, s, a), x, d - 1)
  {
    hide Encoded, Held, Socks5.Encodable, Forwarded, Replay.Reported, UdpCrypto.AcceptedWith;
    var t := Apply(g, s, a);
    if a == Pop && Enabled(g, s, a) {
      if i == 0 {
        assert t.responder == Popped(x);
      } else {
        assert t.answers[i - 1] == x;
        assert InLine(t, x, d - 1, i - 1) && InLine(t, x, d, i - 1);
      }
    } else {
      assert i < |t.answers| && t.answers[i] == x && Busy(t.responder) <= Busy(s.responder);
      assert InLine(t, x, d, i);
      if Turn(a) && Enabled(g, s, a) {
        assert InLine(t, x, d - 1, i);
      }
    }
  }

  /** Until the answer is sent the responder has a step to take. */
  lemma TurnToTake(g: Config, s: State, x: Answer, d: nat) returns (a: Action)
    requires OnItsWay(s, x, d) && x !in s.sent
    ensures Turn(a) && Enabled(g, s, a)
  {
    a := if s.responder.Found? then SendOut else if s.responder.Popped? then Check else Pop;
  }

  /** And nobody else takes it away. */
  lemma TurnStays(g: Config, s: State, a: Action, b: Action)
    requires Turn(a) && Enabled(g, s, a) && b != SendFailed && !(Turn(b) && Enabled(g, s, b))
    ensures Enabled(g, Apply(g, s, b), a)
  {
    hide Encoded, Held, Socks5.Encodable, Forwarded, Replay.Reported, UdpCrypto.AcceptedWith;
  }

  /** Whenever the responder checks this answer, the map has its client. */
  ghost predicate FoundInMap(g: Config, before: seq<Action>, more: seq<Action>, x: Answer)
  {
    forall m :: 0 <= m < |more| && more[m] == Check ==> CheckFinds(Run(g, before + more[..m]), x)
  }

  predicate CheckFinds(s: State, x: Answer)
  {
    s.responder == Popped(x) ==> x.client in s.table
  }

  lemma FoundInMapSplit(g: Config, before: seq<Action>, more: seq<Action>, x: Answer, k: nat)
    requires FoundInMap(g, before, more, x) && k <= |more|
    ensures FoundInMap(g, before, more[..k], x) && FoundInMap(g, before + more[..k], more[k..], x)
  {
    hide Run;
    forall m | 0 <= m < k && more[..k][m] == Check
      ensures CheckFinds(Run(g, before + more[..k][..m]), x)
    {
      assert more[..k][..m] == more[..m];
    }
    forall m | 0 <= m < |more| - k && more[k..][m] == Check
      ensures CheckFinds(Run(g, before + more[..k] + more[k..][..m]), x)
    {
      assert before + more[..k] + more[k..][..m] == before + more[..k + m];
    }
  }

  lemma {:induction false} OnItsWayLong(g: Config, before: seq<Action>, more: seq<Action>, x: Answer, d: nat)
    requires OnItsWay(Run(g, before), x, d) && SendFailed !in more && FoundInMap(g, before, more, x)
    ensures OnItsWay(Run(g, before + more), x, d)
    decreases |more|
  {
    hide Run, Apply, OnItsWay;
    if more == [] {
      assert before + more == before;
    } else {
      var n := |more| - 1;
      FoundInMapSplit(g, before, more, x, n);
      OnItsWayLong(g, before, more[..n], x, d);
      assert before + more == (before + more[..n]) + [more[n]];
      RunSnoc(g, before + more[..n], more[n]);
      OnItsWayKept(g, Run(g, before + more[..n]), more[n], x, d);
    }
  }

  /** The step the responder has to take waits for it, or it has taken one. */
  lemma {:induction false} TurnWaits(g: Config, before: seq<Action>, more: seq<Action>, x: Answer, d: nat, a: Action)
    requires d > 0 && OnItsWay(Run(g, before), x, d) && SendFailed !in more && FoundInMap(g, before, more, x)
    requires Turn(a) && Enabled(g, Run(g, before), a)
    ensures var t := Run(g, before + more); OnItsWay(t, x, d - 1) || Enabled(g, t, a)
    decreases |more|
  {
    hide Run, Apply, OnItsWay, Enabled;
    if more == [] {
      assert before + more == before;
    } else {
      var n := |more| - 1;
      FoundInMapSplit(g, before, more, x, n);
      TurnWaits(g, before, more[..n], x, d, a);
      OnItsWayLong(g, before, more[..n], x, d);
      assert before + more == (before + more[..n]) + [more[n]];
      RunSnoc(g, before + more[..n], more[n]);
      var t, b := Run(g, before + more[..n]), more[n];
      if OnItsWay(t, x, d - 1) {
        OnItsWayKept(g, t, b, x, d - 1);
      } else if Turn(b) && Enabled(g, t, b) {
        OnItsWayKept(g, t, b, x, d);
      } else {
        TurnStays(g, t, a, b);
      }
    }
  }

  /** A stretch of a run in which the responder is given each of its turns, in any order and among any others. */
  ghost predicate AnsweringRound(round: seq<Action>)
  {
    Pop in round && Check in round && SendOut in round && SendFailed !in round
  }

  /** Every such stretch takes the answer a step on. */
  lemma RoundAnswers(g: Config, before: seq<Action>, round: seq<Action>, x: Answer, d: nat)
    requires d > 0 && OnItsWay(Run(g, before), x, d) && AnsweringRound(round) && FoundInMap(g, before, round, x)
    ensures OnItsWay(Run(g, before + round), x, d - 1)
  {
    hide Run, Apply, OnItsWay, Enabled, FoundInMap;
    var s := Run(g, before);
    if x in s.sent {
      SentOnly(s, x, d);
      OnItsWayLong(g, before, round, x, d - 1);
    } else {
      var a := TurnToTake(g, s, x, d);
      var k :| 0 <= k < |round| && round[k] == a;
      FoundInMapSplit(g, before, round, x, k + 1);
      assert round[..k + 1][..k] == round[..k];
      FoundInMapSplit(g, before, round[..k + 1], x, k);
      TurnWaits(g, before, round[..k], x, d, a);
      OnItsWayLong(g, before, round[..k], x, d);
      assert round[..k + 1] == round[..k] + [a] && before + round[..k + 1] == (before + round[..k]) + [a];
      RunSnoc(g, before + round[..k], a);
      Checks(g, before, round, x, k);
      var t := Run(g, before + round[..k]);
      if OnItsWay(t, x, d - 1) {
        OnItsWayKept(g, t, a, x, d - 1);
      } else {
        OnItsWayKept(g, t, a, x, d);
      }
      assert before + round == (before + round[..k + 1]) + round[k + 1..];
      OnItsWayLong(g, before + round[..k + 1], round[k + 1..], x, d - 1);
    }
  }

  lemma Checks(g: Config, before: seq<Action>, more: seq<Action>, x: Answer, k: nat)
    requires FoundInMap(g, before, more, x) && k < |more|
    ensures more[k] == Check && Run(g, before + more[..k]).responder == Popped(x) ==>
              x.client in Run(g, before + more[..k]).table
  {
    hide Run;
  }

  lemma SentOnly(s: State, x: Answer, d: nat)
    requires d > 0 && x in s.sent
    ensures OnItsWay(s, x, d - 1)
  {
  }

  lemma {:induction false} RoundsAnswer(g: Config, before: seq<Action>, rounds: seq<seq<Action>>, x: Answer, d: nat)
    requires OnItsWay(Run(g, before), x, d) && |rounds| <= d
    requires forall k :: 0 <= k < |rounds| ==> AnsweringRound(rounds[k])
    requires FoundInMap(g, before, Flat(rounds), x)
    ensures OnItsWay(Run(g, before + Flat(rounds)), x, d - |rounds|)
  {
    hide Run, OnItsWay, AnsweringRound, FoundInMap;
    if rounds == [] {
      assert before + Flat(rounds) == before;
    } else {
      var n := |rounds| - 1;
      var front, last := Flat(rounds[..n]), rounds[n];
      assert Flat(rounds)[..|front|] == front && Flat(rounds)[|front|..] == last;
      FoundInMapSplit(g, before, Flat(rounds), x, |front|);
      RoundsAnswer(g, before, rounds[..n], x, d);
      assert before + Flat(rounds) == (before + front) + last;
      RoundAnswers(g, before + front, last, x, d - n);
    }
  }

  lemma Replied(g: Config, s: State, k: nat)
    requires k < |s.assocs| && s.assocs[k].answering && s.assocs[k].pending.Some?
    requires |s.answers| < 1024 && s.responder != Stopped
    ensures OnItsWay(Apply(g, s, Reply(k)), s.assocs[k].pending.value, 3 * 1024 + 2)
  {
    var t, x := Apply(g, s, Reply(k)), s.assocs[k].pending.value;
    var i := |s.answers|;
    assert t.answers[i] == x;
    assert InLine(t, x, 3 * 1024 + 2, i);
  }

  /**
   A datagram that a remote sends back is answered. It is heard by the living task of its
   association; that task lives on until there is room in the response channel, whatever the other
   tasks do meanwhile; then the responder is given its turns `3 * 1024 + 2` times over, its sends
   do not fail, and the map has the client when the answer is checked. Then the answer was sent to
   the client of the association, and what was sent decrypts to the sender's address and the body.
   */
  lemma DatagramAnswered(g: Config, before: seq<Action>, k: nat, d: Datagram, nonce: seq<byte>,
                         mid: seq<Action>, rounds: seq<seq<Action>>)
    requires g.m.Lawful() && !d.remote.Domain? && Socks5.Encodable(d.remote) && |nonce| == g.m.NonceSize()
    requires var s := Run(g, before);
             && k < |s.assocs| && s.assocs[k].answering && s.assocs[k].pending.None?
             && !Replay.Reported(g.hit, g.itemCount, s.memory, nonce)
    requires EndAnswer(k) !in mid && Reply(k) !in mid
    requires var t := Run(g, before + [Hear(k, d, nonce)] + mid); |t.answers| < 1024 && t.responder != Stopped
    requires |rounds| >= 3 * 1024 + 2 && forall i :: 0 <= i < |rounds| ==> AnsweringRound(rounds[i])
    requires var x := Run(g, before).assocs[k];
             FoundInMap(g, before + [Hear(k, d, nonce)] + mid + [Reply(k)], Flat(rounds),
                        AnswerTo(g, x.client, k, |x.inbox|, d, nonce))
    ensures var x := Run(g, before).assocs[k];
            var answer := AnswerTo(g, x.client, k, |x.inbox|, d, nonce);
            && answer in Run(g, before + [Hear(k, d, nonce)] + mid + [Reply(k)] + Flat(rounds)).sent
            && answer.client == x.client && |answer.wire| >= g.m.LeastSize()
            && UdpCrypto.Unsealed(g.m, g.key, answer.wire) == UdpCrypto.Payload(Socks5.Write(d.remote) + d.body)
  {
    hide Run, Apply, OnItsWay, FoundInMap, AnsweringRound, UdpCrypto.Packet, UdpCrypto.Unsealed, Socks5.Write,
      Socks5.Encodable, Replay.Reported, UdpCrypto.Method.Lawful;
    var s := Run(g, before);
    var answer := AnswerTo(g, s.assocs[k].client, k, |s.assocs[k].inbox|, d, nonce);
    UdpCrypto.UnsealsPacket(g.m, g.key, nonce, Socks5.Write(d.remote) + d.body);
    RunSnoc(g, before, Hear(k, d, nonce));
    Heard(g, s, k, d, nonce);
    var heard := before + [Hear(k, d, nonce)];
    PendingWaitsLong(g, heard, mid, k);
    RunSnoc(g, heard + mid, Reply(k));
    Replied(g, Run(g, heard + mid), k);
    var replied := heard + mid + [Reply(k)];
    EnoughRounds(g, replied, rounds, answer);
  }

  lemma EnoughRounds(g: Config, before: seq<Action>, rounds: seq<seq<Action>>, x: Answer)
    requires OnItsWay(Run(g, before), x, 3 * 1024 + 2) && |rounds| >= 3 * 1024 + 2
    requires forall k :: 0 <= k < |rounds| ==> AnsweringRound(rounds[k])
    requires FoundInMap(g, before, Flat(rounds), x)
    ensures x in Run(g, before + Flat(rounds)).sent
  {
    hide Run, AnsweringRound, FoundInMap;
    Later(Run(g, before), x, 3 * 1024 + 2, |rounds|);
    RoundsAnswer(g, before, rounds, x, |rounds|);
    assert OnItsWay(Run(g, before + Flat(rounds)), x, 0);
  }

  lemma Later(s: State, x: Answer, d: nat, e: nat)
    requires OnItsWay(s, x, d) && d <= e
    ensures OnItsWay(s, x, e)
  {
    if s.responder != Stopped && exists i :: 0 <= i < |s.answers| && InLine(s, x, d, i) {
      var i :| 0 <= i < |s.answers| && InLine(s, x, d, i);
      assert InLine(s, x, e, i);
    }
  }

  // Packets

  /** What keeps packet number `n` of association `k` from having been taken by the relaying task. */
  function Left(s: State, k: nat, n: nat): (d: int)
    requires k < |s.assocs|
  {
    var x := s.assocs[k];
    if |x.relayed| > n then 0
    else 2 * (n + 1 - |x.relayed|) + (if x.outgoing.Some? then 1 else 0)
         + (if |x.relayed| + |x.queue| <= n then 1 else 0)
  }

  /** Packet number `n` of the association was taken from the network: relayed, queued or in the listener's hand. */
  ghost predicate Coming(s: State, k: nat, n: nat)
  {
    && k < |s.assocs|
    && |s.assocs[k].relayed| + |s.assocs[k].queue| + |InHand(s.listener, k)| > n
    && (|s.assocs[k].queue| + |InHand(s.listener, k)| > 0 ==> s.assocs[k].relaying)
  }

  /** A turn that takes the packet on: the hand-over of that very packet, or any step of the relaying task. */
  ghost predicate Helps(g: Config, s: State, a: Action, k: nat, n: nat)
    requires k < |s.assocs|
  {
    && Enabled(g, s, a)
    && match a
       case Deliver => s.listener.assoc == k && |s.assocs[k].relayed| + |s.assocs[k].queue| <= n
       case Screen(j) => j == k
       case Pass(j, _) => j == k
       case _ => false
  }

  lemma ComingReceive(g: Config, s: State, a: Action, k: nat, n: nat)
    requires Coming(s, k, n) && Alive(s) && a.Receive?
    ensures var t := Apply(g, s, a); k < |t.assocs| && Coming(t, k, n) && Left(t, k, n) <= Left(s, k, n)
  {
    if Enabled(g, s, a) && a.client in s.table && s.table[a.client] == k {
      assert Held(s, k);
    }
  }

  lemma ComingOn(g: Config, s: State, a: Action, k: nat, n: nat)
    requires Coming(s, k, n) && (a.Deliver? || a.Screen? || a.Pass? || a.EndRelay?)
    ensures var t := Apply(g, s, a); k < |t.assocs| && Coming(t, k, n) && Left(t, k, n) <= Left(s, k, n)
    ensures Left(s, k, n) > 0 && Helps(g, s, a, k, n) ==> Left(Apply(g, s, a), k, n) < Left(s, k, n)
  {
    hide Encoded, Socks5.Encodable, Forwarded, Replay.Reported, UdpCrypto.AcceptedWith;
  }

  lemma ComingStill(g: Config, s: State, a: Action, k: nat, n: nat)
    requires Coming(s, k, n) && !a.Receive? && !a.Deliver? && !a.Screen? && !a.Pass? && !a.EndRelay?
    ensures var t := Apply(g, s, a); k < |t.assocs| && Coming(t, k, n) && Left(t, k, n) <= Left(s, k, n)
  {
    hide Encoded, Socks5.Encodable, Forwarded, Replay.Reported, UdpCrypto.AcceptedWith, Held;
    var t := Apply(g, s, a);
    assert t.listener == s.listener && |t.assocs| == |s.assocs|;
    var x, y := s.assocs[k], t.assocs[k];
    assert y.queue == x.queue && y.relayed == x.relayed && y.outgoing == x.outgoing && y.relaying == x.relaying;
  }

  /** No step loses the packet or puts it back; a turn that helps takes it on. */
  lemma ComingKept(g: Config, s: State, a: Action, k: nat, n: nat)
    requires Coming(s, k, n) && Alive(s)
    ensures var t := Apply(g, s, a); k < |t.assocs| && Coming(t, k, n) && Left(t, k, n) <= Left(s, k, n)
    ensures Left(s, k, n) > 0 && Helps(g, s, a, k, n) ==> Left(Apply(g, s, a), k, n) < Left(s, k, n)
  {
    hide Apply, Left, Coming, Alive;
    if a.Receive? {
      ComingReceive(g, s, a, k, n);
    } else if a.Deliver? || a.Screen? || a.Pass? || a.EndRelay? {
      ComingOn(g, s, a, k, n);
    } else {
      ComingStill(g, s, a, k, n);
    }
  }

  /** It stays to be taken until one that helps is. */
  lemma HelpStays(g: Config, s: State, a: Action, b: Action, k: nat, n: nat)
    requires Coming(s, k, n) && Helps(g, s, a, k, n) && !Helps(g, s, b, k, n) && Left(s, k, n) > 0
    requires a == Deliver ==> s.assocs[k].queue == [] && s.assocs[k].outgoing.None?
    ensures var t := Apply(g, s, b);
            && k < |t.assocs| && Helps(g, t, a, k, n)
            && (a == Deliver ==> t.assocs[k].queue == [] && t.assocs[k].outgoing.None?)
  {
    hide Encoded, Socks5.Encodable, Forwarded, Replay.Reported, UdpCrypto.AcceptedWith;
  }

  ghost predicate Waits(g: Config, s: State, a: Action, k: nat, n: nat)
    requires k < |s.assocs|
  {
    Helps(g, s, a, k, n) && (a == Deliver ==> s.assocs[k].queue == [] && s.assocs[k].outgoing.None?)
  }

  lemma AliveAlways(g: Config, actions: seq<Action>)
    ensures Alive(Run(g, actions)) && InOrder(Run(g, actions)) && Owned(Run(g, actions))
  {
    hide *;
    InvAlways(g, actions);
    InvHas(g, Run(g, actions));
  }

  lemma InvHas(g: Config, s: State)
    requires Inv(g, s)
    ensures Alive(s) && InOrder(s) && Owned(s)
  {
    hide Alive, InOrder, Owned;
  }

  lemma {:induction false} ComingLong(g: Config, before: seq<Action>, more: seq<Action>, k: nat, n: nat)
    requires Coming(Run(g, before), k, n)
    ensures var s, t := Run(g, before), Run(g, before + more);
            k < |s.assocs| && k < |t.assocs| && Coming(t, k, n) && Left(t, k, n) <= Left(s, k, n)
    decreases |more|
  {
    hide Run, Apply, Left, Alive, InOrder, Owned;
    if more == [] {
      assert before + more == before;
    } else {
      var m := |more| - 1;
      ComingLong(g, before, more[..m], k, n);
      assert before + more == (before + more[..m]) + [more[m]];
      RunSnoc(g, before + more[..m], more[m]);
      AliveAlways(g, before + more[..m]);
      hide Coming;
      ComingKept(g, Run(g, before + more[..m]), more[m], k, n);
    }
  }

  lemma {:induction false} HelpWaits(g: Config, before: seq<Action>, more: seq<Action>, k: nat, n: nat, a: Action)
    requires Coming(Run(g, before), k, n) && Left(Run(g, before), k, n) > 0 && Waits(g, Run(g, before), a, k, n)
    ensures var s, t := Run(g, before), Run(g, before + more);
            && k < |t.assocs| && Coming(t, k, n)
            && (Left(t, k, n) < Left(s, k, n) || (Left(t, k, n) == Left(s, k, n) && Waits(g, t, a, k, n)))
    decreases |more|
  {
    hide Run, Apply, Left, Helps, Alive, InOrder, Owned;
    if more == [] {
      assert before + more == before;
    } else {
      var m := |more| - 1;
      HelpWaits(g, before, more[..m], k, n, a);
      assert before + more == (before + more[..m]) + [more[m]];
      RunSnoc(g, before + more[..m], more[m]);
      AliveAlways(g, before + more[..m]);
      var t, b := Run(g, before + more[..m]), more[m];
      ComingKept(g, t, b, k, n);
      if Left(t, k, n) == Left(Run(g, before), k, n) && !Helps(g, t, b, k, n) {
        HelpStays(g, t, a, b, k, n);
      }
    }
  }

  /**
   A stretch of a run in which listener and relaying task are given each of their turns, in any
   order and among any others, whatever a send comes to.
   */
  ghost predicate RelayingRound(k: nat, round: seq<Action>)
  {
    Deliver in round && Screen(k) in round && (Pass(k, true) in round || Pass(k, false) in round)
  }

  /** Until the packet is taken some turn of such a stretch helps. */
  lemma TurnThatHelps(g: Config, s: State, k: nat, n: nat, round: seq<Action>) returns (a: Action)
    requires Coming(s, k, n) && Left(s, k, n) > 0 && RelayingRound(k, round)
    ensures Waits(g, s, a, k, n) && a in round
  {
    var x := s.assocs[k];
    if x.outgoing.Some? {
      a := if Pass(k, true) in round then Pass(k, true) else Pass(k, false);
    } else {
      a := if x.queue != [] then Screen(k) else Deliver;
    }
  }

  /** Every such stretch takes the packet on. */
  lemma RoundRelays(g: Config, before: seq<Action>, round: seq<Action>, k: nat, n: nat)
    requires Coming(Run(g, before), k, n) && Left(Run(g, before), k, n) > 0 && RelayingRound(k, round)
    ensures var s, t := Run(g, before), Run(g, before + round);
            k < |s.assocs| && k < |t.assocs| && Coming(t, k, n) && Left(t, k, n) < Left(s, k, n)
  {
    hide Run, Apply, Left, Alive, InOrder, Owned, Helps, RelayingRound;
    var s := Run(g, before);
    var a := TurnThatHelps(g, s, k, n, round);
    var j :| 0 <= j < |round| && round[j] == a;
    HelpWaits(g, before, round[..j], k, n, a);
    var upto := before + round[..j];
    RunSnoc(g, upto, a);
    AliveAlways(g, upto);
    ComingKept(g, Run(g, upto), a, k, n);
    assert before + round == (upto + [a]) + round[j + 1..];
    ComingLong(g, upto + [a], round[j + 1..], k, n);
  }

  lemma {:induction false} RoundsRelay(g: Config, before: seq<Action>, rounds: seq<seq<Action>>, k: nat, n: nat)
    requires Coming(Run(g, before), k, n) && forall i :: 0 <= i < |rounds| ==> RelayingRound(k, rounds[i])
    ensures var s, t := Run(g, before), Run(g, before + Flat(rounds));
            && k < |s.assocs| && k < |t.assocs| && Coming(t, k, n)
            && (Left(t, k, n) == 0 || Left(t, k, n) + |rounds| <= Left(s, k, n))
  {
    hide Run, Left, RelayingRound;
    if rounds == [] {
      assert before + Flat(rounds) == before;
    } else {
      var m := |rounds| - 1;
      RoundsRelay(g, before, rounds[..m], k, n);
      assert before + Flat(rounds) == (before + Flat(rounds[..m])) + rounds[m];
      LeftNonNegative(Run(g, before + Flat(rounds[..m])), k, n);
      if Left(Run(g, before + Flat(rounds[..m])), k, n) > 0 {
        RoundRelays(g, before + Flat(rounds[..m]), rounds[m], k, n);
      } else {
        ComingLong(g, before + Flat(rounds[..m]), rounds[m], k, n);
        LeftNonNegative(Run(g, before + Flat(rounds)), k, n);
      }
    }
  }

  lemma LeftNonNegative(s: State, k: nat, n: nat)
    requires k < |s.assocs|
    ensures Left(s, k, n) >= 0 && (Left(s, k, n) == 0 <==> |s.assocs[k].relayed| > n)
  {
  }

  lemma {:induction false} PacketsForGrow(arrivals: seq<Arrival>, more: seq<Arrival>, k: nat)
    ensures PacketsFor(arrivals, k) <= PacketsFor(arrivals + more, k)
    decreases |more|
  {
    if more == [] {
      assert arrivals + more == arrivals;
    } else {
      var m := |more| - 1;
      PacketsForGrow(arrivals, more[..m], k);
      assert arrivals + more == (arrivals + more[..m]) + [more[m]];
      PacketsForSnoc(arrivals + more[..m], more[m], k);
    }
  }

  lemma {:induction false} ArrivalsGrow(g: Config, before: seq<Action>, more: seq<Action>)
    ensures Run(g, before).arrivals <= Run(g, before + more).arrivals
    decreases |more|
  {
    hide Run, Apply;
    if more == [] {
      assert before + more == before;
    } else {
      var m := |more| - 1;
      ArrivalsGrow(g, before, more[..m]);
      assert before + more == (before + more[..m]) + [more[m]];
      RunSnoc(g, before + more[..m], more[m]);
      ArrivalsStep(g, Run(g, before + more[..m]), more[m]);
    }
  }

  lemma ArrivalsStep(g: Config, s: State, a: Action)
    ensures s.arrivals <= Apply(g, s, a).arrivals
  {
    hide Encoded, Held, Socks5.Encodable, Forwarded, Replay.Reported, UdpCrypto.AcceptedWith;
  }

  /** What the listener does with a packet: it goes to the association of its client, an old one or a new one. */
  lemma Accepted(g: Config, s: State, c: Client, p: seq<byte>)
    requires s.listener == Listening && p != [] && Owned(s) && Alive(s)
    ensures var t := Apply(g, s, Receive(c, p, false));
            && t.listener.Sending? && t.listener.packet == p
            && c in t.table && t.table[c] == t.listener.assoc < |t.assocs|
            && t.assocs[t.listener.assoc].client == c && t.assocs[t.listener.assoc].relaying
            && t.arrivals == s.arrivals + [Arrival(c, p, t.listener.assoc)]
  {
    if c in s.table {
      assert Held(s, s.table[c]);
    }
  }

  /**
   A packet that arrives at a listening server, not empty and not blocked, goes to the association
   of its client and is not lost: once the listener and the relaying task were given their turns
   often enough for the packets ahead of it, that task has taken it, right behind those.
   */
  lemma PacketRelayed(g: Config, before: seq<Action>, c: Client, p: seq<byte>, rounds: seq<seq<Action>>)
    requires Run(g, before).listener == Listening && p != []
    ensures var taken := before + [Receive(c, p, false)];
            var t, u := Run(g, taken), Run(g, taken + Flat(rounds));
            && c in t.table && t.table[c] < |t.assocs| && t.assocs[t.table[c]].client == c
            && var k := t.table[c];
               var ahead := t.assocs[k].relayed + t.assocs[k].queue;
               (|rounds| >= 2 * |t.assocs[k].queue| + 4
                && forall i :: 0 <= i < |rounds| ==> RelayingRound(k, rounds[i])) ==>
                 k < |u.assocs| && ahead + [p] <= u.assocs[k].relayed
  {
    hide Run, Apply, RelayingRound, Left, Alive, Owned, Flat;
    var s, taken := Run(g, before), before + [Receive(c, p, false)];
    var t := Run(g, taken);
    AliveAlways(g, before);
    RunSnoc(g, before, Receive(c, p, false));
    Accepted(g, s, c, p);
    var k := t.table[c];
    if |rounds| >= 2 * |t.assocs[k].queue| + 4 && forall i :: 0 <= i < |rounds| ==> RelayingRound(k, rounds[i]) {
      TakenThen(g, taken, rounds, k, p);
    }
  }

  lemma TakenThen(g: Config, taken: seq<Action>, rounds: seq<seq<Action>>, k: nat, p: seq<byte>)
    requires var t := Run(g, taken);
             t.listener == Sending(k, p) && k < |t.assocs| && t.assocs[k].relaying
             && |rounds| >= 2 * |t.assocs[k].queue| + 4
    requires forall i :: 0 <= i < |rounds| ==> RelayingRound(k, rounds[i])
    ensures var t, u := Run(g, taken), Run(g, taken + Flat(rounds));
            k < |u.assocs| && t.assocs[k].relayed + t.assocs[k].queue + [p] <= u.assocs[k].relayed
  {
    hide Run, Apply, RelayingRound, Left, Alive, Owned, Flat;
    var t, u := Run(g, taken), Run(g, taken + Flat(rounds));
    var n := |t.assocs[k].relayed| + |t.assocs[k].queue|;
    LeftAtFirst(t, k, n);
    RoundsRelay(g, taken, rounds, k, n);
    LeftNonNegative(u, k, n);
    AliveAlways(g, taken);
    AliveAlways(g, taken + Flat(rounds));
    ArrivalsGrow(g, taken, Flat(rounds));
    PacketsForGrow(t.arrivals, u.arrivals[|t.arrivals|..], k);
    assert t.arrivals + u.arrivals[|t.arrivals|..] == u.arrivals;
    SamePlace(t, u, k, p, n);
  }

  lemma LeftAtFirst(t: State, k: nat, n: nat)
    requires k < |t.assocs| && n == |t.assocs[k].relayed| + |t.assocs[k].queue|
    requires t.listener.Sending? && t.listener.assoc == k && t.assocs[k].relaying
    ensures Coming(t, k, n) && Left(t, k, n) <= 2 * |t.assocs[k].queue| + 4
  {
  }

  lemma SamePlace(t: State, u: State, k: nat, p: seq<byte>, n: nat)
    requires InOrder(t) && InOrder(u) && k < |t.assocs| && k < |u.assocs|
    requires t.listener == Sending(k, p) && n == |t.assocs[k].relayed| + |t.assocs[k].queue|
    requires PacketsFor(t.arrivals, k) <= PacketsFor(u.arrivals, k) && n < |u.assocs[k].relayed|
    ensures t.assocs[k].relayed + t.assocs[k].queue + [p] <= u.assocs[k].relayed
  {
    hide PacketsFor;
    var a, b := PacketsFor(t.arrivals, k), PacketsFor(u.arrivals, k);
    assert a == t.assocs[k].relayed + t.assocs[k].queue + [p];
    var x := u.assocs[k];
    assert b == x.relayed + (x.queue + InHand(u.listener, k));
    assert x.relayed[..n + 1] == b[..n + 1] == a;
  }

  // Release

  /** What the two tasks of an association still have to do before they have ended. */
  function Rest(s: State, k: nat): (d: nat)
    requires k < |s.assocs|
  {
    var x := s.assocs[k];
    2 * |x.queue| + (if x.outgoing.Some? then 1 else 0) + (if x.relaying then 1 else 0) + (if x.answering then 1 else 0)
  }

  /** A step of one of them. */
  ghost predicate Ends(g: Config, s: State, a: Action, k: nat)
  {
    Enabled(g, s, a) && (a == Screen(k) || (a.Pass? && a.assoc == k) || a == EndRelay(k) || a == EndAnswer(k))
  }

  /** Nobody gets hold of an association again once nobody holds it. */
  lemma StaysReleased(g: Config, s: State, a: Action, k: nat)
    requires k < |s.assocs| && !Held(s, k)
    ensures !Held(Apply(g, s, a), k)
  {
    hide Encoded, Socks5.Encodable, Forwarded, Replay.Reported, UdpCrypto.AcceptedWith;
  }

  lemma RestShrinks(g: Config, s: State, a: Action, k: nat)
    requires k < |s.assocs| && !Held(s, k)
    ensures var t := Apply(g, s, a);
            k < |t.assocs| && Rest(t, k) <= Rest(s, k) && (Ends(g, s, a, k) ==> Rest(t, k) < Rest(s, k))
  {
    hide Encoded, Socks5.Encodable, Forwarded, Replay.Reported, UdpCrypto.AcceptedWith, Held;
    if !Ends(g, s, a, k) {
      TasksSame(g, s, a, k);
    }
  }

  lemma EndStays(g: Config, s: State, a: Action, b: Action, k: nat)
    requires k < |s.assocs| && !Held(s, k) && Ends(g, s, a, k) && !Ends(g, s, b, k)
    ensures Ends(g, Apply(g, s, b), a, k)
  {
    hide Encoded, Socks5.Encodable, Forwarded, Replay.Reported, UdpCrypto.AcceptedWith, Held;
    StaysReleased(g, s, b, k);
    TasksSame(g, s, b, k);
    hide Apply;
  }

  lemma TasksSame(g: Config, s: State, b: Action, k: nat)
    requires k < |s.assocs| && !Held(s, k) && !Ends(g, s, b, k)
    ensures var t := Apply(g, s, b);
            && k < |t.assocs| && t.assocs[k].queue == s.assocs[k].queue && t.assocs[k].outgoing == s.assocs[k].outgoing
            && t.assocs[k].relaying == s.assocs[k].relaying && t.assocs[k].answering == s.assocs[k].answering
  {
    hide Encoded, Socks5.Encodable, Forwarded, Replay.Reported, UdpCrypto.AcceptedWith;
  }

  lemma {:induction false} EndWaits(g: Config, before: seq<Action>, more: seq<Action>, k: nat, a: Action)
    requires k < |Run(g, before).assocs| && !Held(Run(g, before), k) && Ends(g, Run(g, before), a, k)
    ensures var s, t := Run(g, before), Run(g, before + more);
            && k < |t.assocs| && !Held(t, k)
            && (Rest(t, k) < Rest(s, k) || (Rest(t, k) == Rest(s, k) && Ends(g, t, a, k)))
    decreases |more|
  {
    hide Run, Apply, Rest, Ends, Held;
    if more == [] {
      assert before + more == before;
    } else {
      var m := |more| - 1;
      EndWaits(g, before, more[..m], k, a);
      assert before + more == (before + more[..m]) + [more[m]];
      RunSnoc(g, before + more[..m], more[m]);
      var t, b := Run(g, before + more[..m]), more[m];
      StaysReleased(g, t, b, k);
      RestShrinks(g, t, b, k);
      if Ends(g, t, a, k) && !Ends(g, t, b, k) {
        EndStays(g, t, a, b, k);
      }
    }
  }

  lemma {:induction false} RestShrinksLong(g: Config, before: seq<Action>, more: seq<Action>, k: nat)
    requires k < |Run(g, before).assocs| && !Held(Run(g, before), k)
    ensures var s, t := Run(g, before), Run(g, before + more);
            k < |t.assocs| && !Held(t, k) && Rest(t, k) <= Rest(s, k)
    decreases |more|
  {
    hide Run, Apply, Rest, Held;
    if more == [] {
      assert before + more == before;
    } else {
      var m := |more| - 1;
      RestShrinksLong(g, before, more[..m], k);
      assert before + more == (before + more[..m]) + [more[m]];
      RunSnoc(g, before + more[..m], more[m]);
      StaysReleased(g, Run(g, before + more[..m]), more[m], k);
      RestShrinks(g, Run(g, before + more[..m]), more[m], k);
    }
  }

  /** A stretch of a run in which the tasks of the association are given each of their turns. */
  ghost predicate EndingRound(k: nat, round: seq<Action>)
  {
    && Screen(k) in round && (Pass(k, true) in round || Pass(k, false) in round)
    && EndRelay(k) in round && EndAnswer(k) in round
  }

  lemma EndToTake(g: Config, s: State, k: nat, round: seq<Action>) returns (a: Action)
    requires k < |s.assocs| && !Held(s, k) && Alive(s) && Rest(s, k) > 0 && EndingRound(k, round)
    ensures Ends(g, s, a, k) && a in round
  {
    hide Held;
    var x := s.assocs[k];
    if x.outgoing.Some? {
      a := if Pass(k, true) in round then Pass(k, true) else Pass(k, false);
    } else {
      a := if x.queue != [] then Screen(k) else if x.relaying then EndRelay(k) else EndAnswer(k);
    }
  }

  lemma RoundEnds(g: Config, before: seq<Action>, round: seq<Action>, k: nat)
    requires k < |Run(g, before).assocs| && !Held(Run(g, before), k) && EndingRound(k, round)
    requires Rest(Run(g, before), k) > 0
    ensures var s, t := Run(g, before), Run(g, before + round);
            k < |t.assocs| && !Held(t, k) && Rest(t, k) < Rest(s, k)
  {
    hide Run, Apply, Rest, Ends, Held, Alive, InOrder, Owned, EndingRound;
    AliveAlways(g, before);
    var a := EndToTake(g, Run(g, before), k, round);
    var j :| 0 <= j < |round| && round[j] == a;
    EndWaits(g, before, round[..j], k, a);
    var upto := before + round[..j];
    RunSnoc(g, upto, a);
    StaysReleased(g, Run(g, upto), a, k);
    RestShrinks(g, Run(g, upto), a, k);
    assert before + round == (upto + [a]) + round[j + 1..];
    RestShrinksLong(g, upto + [a], round[j + 1..], k);
  }

  lemma {:induction false} RoundsEnd(g: Config, before: seq<Action>, rounds: seq<seq<Action>>, k: nat)
    requires k < |Run(g, before).assocs| && !Held(Run(g, before), k)
    requires forall i :: 0 <= i < |rounds| ==> EndingRound(k, rounds[i])
    ensures var s, t := Run(g, before), Run(g, before + Flat(rounds));
            && k < |t.assocs| && !Held(t, k)
            && (Rest(t, k) == 0 || Rest(t, k) + |rounds| <= Rest(s, k))
  {
    hide Run, Rest, Held, EndingRound;
    if rounds == [] {
      assert before + Flat(rounds) == before;
    } else {
      var m := |rounds| - 1;
      RoundsEnd(g, before, rounds[..m], k);
      var front := before + Flat(rounds[..m]);
      assert before + Flat(rounds) == front + rounds[m];
      if Rest(Run(g, front), k) > 0 {
        RoundEnds(g, front, rounds[m], k);
      } else {
        RestShrinksLong(g, front, rounds[m], k);
      }
    }
  }

  /**
   An association whose entry has expired and that the listener has let go is released: once its
   tasks were given their turns often enough, its queue is empty and both have ended.
   */
  lemma ExpiredIsReleased(g: Config, before: seq<Action>, k: nat, rounds: seq<seq<Action>>)
    requires k < |Run(g, before).assocs| && k !in Run(g, before).table.Values
    requires Run(g, before).listener.Sending? ==> Run(g, before).listener.assoc != k
    requires |rounds| >= 2 * |Run(g, before).assocs[k].queue| + 3
    requires forall i :: 0 <= i < |rounds| ==> EndingRound(k, rounds[i])
    ensures var t := Run(g, before + Flat(rounds));
            k < |t.assocs| && t.assocs[k].queue == [] && !t.assocs[k].relaying && !t.assocs[k].answering
  {
    hide Run, EndingRound, Flat;
    RoundsEnd(g, before, rounds, k);
  }

  // What holds of every run besides

  /** Neither channel ever holds more than 1024. */
  ghost predicate WithinCapacity(s: State)
  {
    |s.answers| <= 1024 && forall k :: 0 <= k < |s.assocs| ==> |s.assocs[k].queue| <= 1024
  }

  lemma CapacityKept(g: Config, s: State, a: Action)
    requires WithinCapacity(s)
    ensures WithinCapacity(Apply(g, s, a))
  {
    hide Encoded, Socks5.Encodable, Forwarded, Replay.Reported, UdpCrypto.AcceptedWith, Held;
  }

  lemma {:induction false} ChannelsBounded(g: Config, actions: seq<Action>)
    ensures WithinCapacity(Run(g, actions))
  {
    if actions != [] {
      hide Apply, WithinCapacity;
      var k := |actions| - 1;
      ChannelsBounded(g, actions[..k]);
      CapacityKept(g, Run(g, actions[..k]), actions[k]);
    }
  }

  /** The nonces of the answers being made, on their way and sent are among those remembered. */
  ghost predicate Remembered(s: State)
  {
    && (forall k :: 0 <= k < |s.assocs| && s.assocs[k].pending.Some? ==>
          s.assocs[k].pending.value.nonce == [] || s.assocs[k].pending.value.nonce in s.memory)
    && (forall i :: 0 <= i < |Out(s)| ==> Out(s)[i].nonce == [] || Out(s)[i].nonce in s.memory)
  }

  lemma {:induction false} OwnNoncesRemembered(g: Config, actions: seq<Action>)
    ensures Remembered(Run(g, actions))
  {
    if actions != [] {
      hide Apply, Remembered;
      var k := |actions| - 1;
      OwnNoncesRemembered(g, actions[..k]);
      RememberedKept(g, Run(g, actions[..k]), actions[k]);
    }
  }

  lemma MemoryGrows(g: Config, s: State, a: Action)
    ensures s.memory <= Apply(g, s, a).memory
  {
    hide Encoded, Socks5.Encodable, Forwarded, Replay.Reported, Held, Replay.Accept;
    if a.Screen? && a.assoc < |s.assocs| && s.assocs[a.assoc].queue != [] {
      var p := s.assocs[a.assoc].queue[0];
      if |p| >= g.m.LeastSize() {
        Replay.AcceptGrows(g.hit, g.itemCount, s.memory, [p[..g.m.NonceSize()]]);
      }
    }
  }

  lemma PendingFrom(g: Config, s: State, a: Action, k: nat)
    requires k < |Apply(g, s, a).assocs| && Apply(g, s, a).assocs[k].pending.Some?
    ensures var t := Apply(g, s, a);
            || (k < |s.assocs| && s.assocs[k].pending == t.assocs[k].pending)
            || t.assocs[k].pending.value.nonce == [] || t.assocs[k].pending.value.nonce in t.memory
  {
    hide Encoded, Socks5.Encodable, Forwarded, Replay.Reported, UdpCrypto.AcceptedWith, Held;
  }

  lemma RememberedKept(g: Config, s: State, a: Action)
    requires Remembered(s)
    ensures Remembered(Apply(g, s, a))
  {
    hide Apply, Out;
    var t := Apply(g, s, a);
    MemoryGrows(g, s, a);
    OutSteps(g, s, a);
    assert forall x :: x in s.memory ==> x in t.memory;
    forall k | 0 <= k < |t.assocs| && t.assocs[k].pending.Some?
      ensures t.assocs[k].pending.value.nonce == [] || t.assocs[k].pending.value.nonce in t.memory
    {
      PendingFrom(g, s, a, k);
    }
  }

  /**
   A packet of the server's own, sent back to it, is not relayed: in every run the nonce of an
   answer that was sent is reported as long as at most the capacity was accepted since.
   */
  lemma OwnAnswersRefused(g: Config, actions: seq<Action>, i: nat)
    requires Replay.NoFalseNegatives(g.hit) && g.itemCount >= 1
    requires i < |Run(g, actions).sent| && Run(g, actions).sent[i].nonce != []
    ensures var s := Run(g, actions);
            exists p :: 0 <= p < |s.memory| && RefusedSince(g, s, s.sent[i].nonce, p)
  {
    hide Run;
    var s := Run(g, actions);
    OwnNoncesRemembered(g, actions);
    assert Out(s)[i] == s.sent[i];
    var nonce := s.sent[i].nonce;
    var p :| 0 <= p < |s.memory| && s.memory[p] == nonce;
    if |s.memory| - p - 1 <= g.itemCount {
      assert s.memory[..p] + [nonce] <= s.memory;
      UdpCrypto.StillReported(g.hit, g.itemCount, s.memory[..p], nonce, s.memory);
    }
    assert RefusedSince(g, s, nonce, p);
  }

  /** The nonce was accepted there, and is reported unless more than the capacity was accepted since. */
  ghost predicate RefusedSince(g: Config, s: State, nonce: seq<byte>, p: nat)
    requires p < |s.memory|
  {
    s.memory[p] == nonce && (|s.memory| - p - 1 <= g.itemCount ==> Replay.Reported(g.hit, g.itemCount, s.memory, nonce))
  }
}
