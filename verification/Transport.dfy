/**
 The byte stream under a tunnel, as an adversary. Poll number `t` is answered as an arbitrary
 plan says: not ready, an I/O error, or any number of bytes that the buffers allow. What a caller
 may rely on is in the contracts alone, so whatever is proved from them holds under every
 schedule of short reads, short writes and `Pending`.
 */
module Transport {
  import opened Bytes

  datatype IoError = UnexpectedEof | TransportError | DecryptFailed | RepeatedSalt | BadAddress

  datatype Poll<+T> = Pending | Ready(value: T) | Failed(error: IoError)

  datatype Event = NotReady | Fail | Move(limit: nat)

  function Min(a: nat, b: nat): (m: nat)
  {
    if a <= b then a else b
  }

  /** From poll `from` on, the transport always moves something. */
  ghost predicate Willing(plan: nat -> Event, from: nat)
  {
    forall t :: t >= from ==> plan(t).Move? && plan(t).limit > 0
  }

  /** How many polls are left until then. */
  function Lag(from: nat, turn: nat): (n: nat)
  {
    if turn < from then from - turn else 0
  }

  /** The transport never fails. */
  ghost predicate Reliable(plan: nat -> Event)
  {
    forall t :: plan(t) != Fail
  }

  class Pipe {
    const plan: nat -> Event   // how every poll is answered
    var sent: seq<byte>        // every byte the writing side has handed over
    var received: nat          // how many of them the reading side has got
    var closed: bool           // the writing side is gone, by shutdown or by a cut connection
    var turn: nat              // how many polls were answered

    predicate Valid()
      reads this
    {
      received <= |sent|
    }

    constructor (plan: nat -> Event)
      ensures Valid() && sent == [] && received == 0 && !closed && this.plan == plan && turn == 0
    {
      this.plan := plan;
      sent, received, closed, turn := [], 0, false, 0;
    }

    /** A pipe whose writing side has already sent everything and gone. */
    constructor Of(wire: seq<byte>, plan: nat -> Event)
      ensures Valid() && sent == wire && received == 0 && closed && this.plan == plan && turn == 0
    {
      this.plan := plan;
      sent, received, closed, turn := wire, 0, true, 0;
    }

    /** The last poll of a write moved nothing. */
    predicate Balked()
      reads this`turn
    {
      turn > 0 && (!plan(turn - 1).Move? || plan(turn - 1).limit == 0)
    }

    /** The last poll of a read had to wait, by plan or for the writing side. */
    predicate Waited()
      reads this
    {
      turn > 0 && (plan(turn - 1) == NotReady || (received == |sent| && !closed))
    }

    /** The last poll failed by plan. */
    predicate Broke()
      reads this`turn
    {
      turn > 0 && plan(turn - 1) == Fail
    }

    /** `Ready(0)` is allowed at any time; the writers treat it as an error. */
    method PollWrite(buf: seq<byte>) returns (r: Poll<nat>)
      requires Valid()
      modifies this`sent, this`turn
      ensures Valid() && turn == old(turn) + 1
      ensures r.Ready? ==> r.value <= |buf| && sent == old(sent) + buf[..r.value]
      ensures !r.Ready? ==> sent == old(sent)
      ensures r.Failed? ==> r.error == TransportError
      ensures closed ==> sent == old(sent) && !r.Ready?
      ensures !closed && buf != [] ==> (Balked() <==> !r.Ready? || r.value == 0)
    {
      var e := plan(turn);
      turn := turn + 1;
      match e
      case NotReady => r := Pending;
      case Fail => r := Failed(TransportError);
      case Move(limit) =>
        if closed {
          r := Failed(TransportError);
        } else {
          var n := Min(limit, |buf|);
          sent := sent + buf[..n];
          r := Ready(n);
        }
    }

    /** An empty answer to a non-empty buffer means the end of the stream. */
    method PollRead(max: nat) returns (r: Poll<seq<byte>>)
      requires Valid()
      modifies this`received, this`turn
      ensures Valid() && old(received) <= received && turn == old(turn) + 1
      ensures r.Ready? ==> |r.value| <= max && r.value == sent[old(received)..received]
      ensures r.Ready? && r.value == [] && max > 0 ==> closed && received == |sent|
      ensures !r.Ready? ==> received == old(received)
      ensures r.Failed? ==> r.error == TransportError && Broke()
      ensures r.Pending? ==> Waited()
    {
      var e := plan(turn);
      turn := turn + 1;
      match e
      case NotReady => r := Pending;
      case Fail => r := Failed(TransportError);
      case Move(limit) =>
        var n := Min(Min(limit + 1, max), |sent| - received);
        if n == 0 && max > 0 && !closed {
          r := Pending;
        } else {
          r := Ready(sent[received..received + n]);
          received := received + n;
        }
    }

    method Close()
      modifies this`closed
      ensures closed
    {
      closed := true;
    }
  }

  /** A frame being handed over, and how much of it is gone. */
  datatype WriteStep = Nothing | Writing(buf: seq<byte>, pos: nat)
  {
    ghost predicate Valid()
    {
      Writing? ==> pos <= |buf|
    }

    ghost function Unsent(): (s: seq<byte>)
      requires Valid()
    {
      if Nothing? then [] else buf[pos..]
    }
  }

  /** Hands bytes over from `start` on until they are gone or the sink stops taking them at `pos`. */
  method SendAll(sink: Pipe, buf: seq<byte>, start: nat) returns (r: Poll<()>, pos: nat)
    requires sink.Valid() && start <= |buf|
    modifies sink`sent, sink`turn
    ensures sink.Valid() && start <= pos <= |buf|
    ensures sink.sent == old(sink.sent) + buf[start..pos]
    ensures r.Ready? <==> pos == |buf|
    ensures r.Failed? ==> r.error == TransportError || r.error == UnexpectedEof
    ensures sink.closed ==> sink.sent == old(sink.sent)
    ensures old(sink.turn) <= sink.turn && (start < |buf| ==> old(sink.turn) < sink.turn)
    ensures !sink.closed && !r.Ready? ==> sink.Balked()
  {
    pos := start;
    while pos < |buf|
      invariant sink.Valid() && start <= pos <= |buf|
      invariant sink.sent == old(sink.sent) + buf[start..pos]
      invariant sink.closed ==> sink.sent == old(sink.sent)
      invariant old(sink.turn) <= sink.turn && (start < pos ==> old(sink.turn) < sink.turn)
    {
      var n := sink.PollWrite(buf[pos..]);
      if !n.Ready? {
        r := if n.Pending? then Pending else Failed(n.error);
        return;
      }
      if n.value == 0 {
        r := Failed(UnexpectedEof);
        return;
      }
      assert buf[start..pos] + buf[pos..][..n.value] == buf[start..pos + n.value];
      pos := pos + n.value;
    }
    r := Ready(());
  }

  lemma SplitRest(s: seq<byte>, buf: seq<byte>, i: nat, j: nat)
    requires i <= j <= |buf|
    ensures s + buf[i..] == (s + buf[i..j]) + buf[j..]
    ensures j == |buf| ==> s + buf[i..j] == s + buf[i..] && (s + buf[i..]) + [] == s + buf[i..]
  {
  }

  datatype ExactRead = Got | AtEof | Stopped(poll: Poll<()>)

  /**
   Reads on until `size` bytes are buffered. `AtEof` is the end of the stream before the
   first byte, where that is allowed.
   */
  method ReadExact(source: Pipe, have: seq<byte>, size: nat, allowEof: bool)
    returns (r: ExactRead, buffer: seq<byte>)
    requires source.Valid() && |have| <= size
    modifies source`received, source`turn
    ensures source.Valid() && old(source.received) <= source.received
    ensures buffer == have + source.sent[old(source.received)..source.received]
    ensures |buffer| <= size && (r.Got? <==> |buffer| == size)
    ensures r.AtEof? ==> allowEof && buffer == []
    ensures r.AtEof? || r == Stopped(Failed(UnexpectedEof)) ==> source.closed && source.received == |source.sent|
    ensures r.Stopped? ==> !r.poll.Ready?
    ensures r.Stopped? && r.poll.Failed? ==> r.poll.error == TransportError || r.poll.error == UnexpectedEof
    ensures r == Stopped(Failed(UnexpectedEof)) ==> !allowEof || buffer != []
    ensures old(source.turn) <= source.turn
    ensures r == Stopped(Pending) ==> old(source.turn) < source.turn && source.Waited()
    ensures r == Stopped(Failed(TransportError)) ==> old(source.turn) < source.turn && source.Broke()
  {
    buffer := have;
    while |buffer| < size
      invariant source.Valid() && old(source.received) <= source.received
      invariant buffer == have + source.sent[old(source.received)..source.received]
      invariant |buffer| <= size && old(source.turn) <= source.turn
    {
      var n := source.PollRead(size - |buffer|);
      if !n.Ready? {
        r := Stopped(if n.Pending? then Pending else Failed(n.error));
        return;
      }
      if n.value == [] {
        r := if buffer == [] && allowEof then AtEof else Stopped(Failed(UnexpectedEof));
        return;
      }
      buffer := buffer + n.value;
    }
    r := Got;
  }

  /** A turn of the sending end, of the receiving end, or of the sender hanging up. */
  datatype Turn = Send(want: nat) | Receive(max: nat) | Hangup

  /** How many writes of something were asked for before the hang-up. */
  function Writes(turns: seq<Turn>): (n: nat)
  {
    if turns == [] then 0
    else
      var before, last := turns[..|turns| - 1], turns[|turns| - 1];
      Writes(before) + if last.Send? && last.want > 0 && Hangup !in before then 1 else 0
  }

  /** How many reads of something were asked for after it. */
  function Reads(turns: seq<Turn>): (n: nat)
  {
    if turns == [] then 0
    else
      var before, last := turns[..|turns| - 1], turns[|turns| - 1];
      Reads(before) + if last.Receive? && last.max > 0 && Hangup in before then 1 else 0
  }

  /** How many bytes the sender was given to write before the hang-up. */
  function Offered(turns: seq<Turn>): (n: nat)
  {
    if turns == [] then 0
    else
      var before, last := turns[..|turns| - 1], turns[|turns| - 1];
      Offered(before) + if last.Send? && Hangup !in before then last.want else 0
  }

  /** How many bytes the receiver was asked to read. */
  function Asked(turns: seq<Turn>): (n: nat)
  {
    if turns == [] then 0
    else
      var before, last := turns[..|turns| - 1], turns[|turns| - 1];
      Asked(before) + if last.Receive? then last.max else 0
  }

  predicate AnyReceive(turns: seq<Turn>)
  {
    exists k :: 0 <= k < |turns| && turns[k].Receive?
  }

  lemma CountedCalls(turns: seq<Turn>, last: Turn)
    ensures Writes(turns + [last]) == Writes(turns) + (if last.Send? && last.want > 0 && Hangup !in turns then 1 else 0)
    ensures Reads(turns + [last]) == Reads(turns) + (if last.Receive? && last.max > 0 && Hangup in turns then 1 else 0)
  {
    var now := turns + [last];
    assert now[..|now| - 1] == turns && now[|now| - 1] == last;
  }

  lemma CountedBytes(turns: seq<Turn>, last: Turn)
    ensures Offered(turns + [last]) == Offered(turns) + (if last.Send? && Hangup !in turns then last.want else 0)
    ensures Asked(turns + [last]) == Asked(turns) + (if last.Receive? then last.max else 0)
  {
    var now := turns + [last];
    assert now[..|now| - 1] == turns && now[|now| - 1] == last;
  }

  lemma CountedKinds(turns: seq<Turn>, last: Turn)
    ensures AnyReceive(turns + [last]) <==> AnyReceive(turns) || last.Receive?
    ensures Hangup in turns + [last] <==> Hangup in turns || last == Hangup
  {
    var now := turns + [last];
    assert now[|turns|] == last;
    assert forall i :: 0 <= i < |turns| ==> now[i] == turns[i];
  }

  /** What one more turn adds to the counts. */
  lemma Counted(turns: seq<Turn>, k: nat)
    requires k < |turns|
    ensures var before, last, now := turns[..k], turns[k], turns[..k + 1];
            && Writes(now) == Writes(before) + (if last.Send? && last.want > 0 && Hangup !in before then 1 else 0)
            && Reads(now) == Reads(before) + (if last.Receive? && last.max > 0 && Hangup in before then 1 else 0)
            && Offered(now) == Offered(before) + (if last.Send? && Hangup !in before then last.want else 0)
            && Asked(now) == Asked(before) + (if last.Receive? then last.max else 0)
            && (AnyReceive(now) <==> AnyReceive(before) || last.Receive?)
            && (Hangup in now <==> Hangup in before || last == Hangup)
  {
    hide Writes, Reads, Offered, Asked, AnyReceive;
    assert turns[..k + 1] == turns[..k] + [turns[k]];
    CountedCalls(turns[..k], turns[k]);
    CountedBytes(turns[..k], turns[k]);
    CountedKinds(turns[..k], turns[k]);
  }

  /**
   Where a run stands towards its end, with a transport that is willing from poll `from` on:
   every write takes something off the sender's `work`, and after the hang-up every read is
   paid for by a poll before `from` or by a byte delivered.
   */
  predicate OnTime(from: nat, start: nat, work: nat, lag: nat, closed: bool, active: bool,
                   delivered: nat, wrote: nat, read: nat)
  {
    && (work == 0 || work + wrote <= start)
    && (!closed ==> read == 0)
    && lag <= from
    && (closed && active ==> read + lag <= from + delivered)
  }
}
