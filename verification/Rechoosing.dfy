/**
 The load balancer after its start-up: probes and reported failures go on being recorded, and the
 choosing task goes on choosing. The machine and its runs are those of `Startup`.
 */
module Rechoosing {
  import opened Startup

  /** What a step of a run records of server `i`: a check in its first or a later round, or a reported failure. */
  function Probed<P>(s: State<P>, a: Action<P>, i: nat): (p: seq<P>)
  {
    match a
    case Check(j, probe) => if j == i < |s.tasks| && s.tasks[i] == Checking then [probe] else []
    case CheckAgain(j, probe) => if j == i < |s.tasks| && s.tasks[i] == Looping then [probe] else []
    case ReportFailure(j, probe) => if j == i < |s.tasks| && s.builder == Returned then [probe] else []
    case _ => []
  }

  /** Every probe of server `i` taken in a run, in order. */
  function AllProbed<P>(scoring: Scoring<P>, n: nat, actions: seq<Action<P>>, i: nat): (p: seq<P>)
  {
    if actions == [] then []
    else
      var k := |actions| - 1;
      AllProbed(scoring, n, actions[..k], i) + Probed(Run(scoring, n, actions[..k]), actions[k], i)
  }

  /** Every probe that is taken is recorded, for its server, once, in the order taken; nothing else is. */
  lemma {:induction false} ProbesRecorded<P>(scoring: Scoring<P>, n: nat, actions: seq<Action<P>>, i: nat)
    requires i < n
    ensures |Run(scoring, n, actions).probes| == n
    ensures Run(scoring, n, actions).probes[i] == AllProbed(scoring, n, actions, i)
  {
    InvAlways(scoring, n, actions);
    if actions != [] {
      hide Inv, Choice;
      var k := |actions| - 1;
      ProbesRecorded(scoring, n, actions[..k], i);
      StepRecorded(scoring, n, Run(scoring, n, actions[..k]), actions[k], i);
    }
  }

  lemma StepRecorded<P>(scoring: Scoring<P>, n: nat, s: State<P>, a: Action<P>, i: nat)
    requires |s.probes| == |s.tasks| == n && i < n
    ensures var t := Apply(scoring, s, a); |t.probes| == n && t.probes[i] == s.probes[i] + Probed(s, a, i)
  {
    assert s.probes[i] + [] == s.probes[i];
  }

  /** The samples were taken when the server had at least the probes counted in `known`. */
  ghost predicate SeenBy(samples: seq<Sample>, known: seq<nat>)
  {
    |samples| <= |known| && forall i :: 0 <= i < |samples| ==> known[i] <= samples[i].probes
  }

  ghost predicate KnownBy<P>(probes: seq<seq<P>>, known: seq<nat>)
  {
    |probes| == |known| && forall i :: 0 <= i < |known| ==> known[i] <= |probes[i]|
  }

  /** From the round begun after `rounds + 1` are finished on, every sample is up to date with `known`. */
  ghost predicate Fresh<P>(s: State<P>, rounds: nat, known: seq<nat>)
  {
    && rounds <= s.rounds && KnownBy(s.probes, known)
    && (s.rounds > rounds && s.chooser.Sampling? ==> SeenBy(s.chooser.samples, known))
    && (s.rounds > rounds + 1 ==> SeenBy(s.chosenFrom, known))
  }

  lemma FreshKept<P>(scoring: Scoring<P>, s: State<P>, a: Action<P>, rounds: nat, known: seq<nat>)
    requires |s.probes| == |s.tasks| && Fresh(s, rounds, known)
    ensures Fresh(Apply(scoring, s, a), rounds, known)
  {
  }

  lemma {:induction false} FreshLong<P>(scoring: Scoring<P>, n: nat, before: seq<Action<P>>, more: seq<Action<P>>,
                                        rounds: nat, known: seq<nat>)
    requires n >= 1 && Fresh(Run(scoring, n, before), rounds, known)
    ensures Fresh(Run(scoring, n, before + more), rounds, known)
    decreases |more|
  {
    hide Run, Apply, Fresh, Inv;
    if more == [] {
      assert before + more == before;
    } else {
      var k := |more| - 1;
      FreshLong(scoring, n, before, more[..k], rounds, known);
      assert before + more == (before + more[..k]) + [more[k]];
      RunSnoc(scoring, n, before + more[..k], more[k]);
      Sizes(scoring, n, before + more[..k]);
      FreshKept(scoring, Run(scoring, n, before + more[..k]), more[k], rounds, known);
    }
  }

  lemma Sizes<P>(scoring: Scoring<P>, n: nat, actions: seq<Action<P>>)
    requires n >= 1
    ensures var s := Run(scoring, n, actions); |s.probes| == |s.tasks| == n
  {
    hide Run;
    InvAlways(scoring, n, actions);
  }

  // Going on choosing

  /** How far the choosing task has come; a finished round counts `n + 5`. */
  function Chosen<P>(s: State<P>): (c: nat)
  {
    s.rounds * (|s.tasks| + 5)
    + match s.chooser
      case NotStarted => 0
      case Stored => 0
      case AtBarrier2 => 1
      case Resting => 2
      case Sampling(samples, _, _) => 3 + if |samples| <= |s.tasks| then |samples| else |s.tasks|
  }

  /** The steps of the choosing task once the constructor has returned. */
  function Turns<P>(): (a: seq<Action<P>>)
  {
    [ChooserArrive, ChooserGo, NextRound, SampleNext, Store]
  }

  lemma RoundUp(r: nat, n: nat)
    ensures (r + 1) * (n + 5) == r * (n + 5) + n + 5
  {
  }

  /** Steps of others leave the choosing task where it is, its own take it on. */
  lemma ChosenGrows<P>(scoring: Scoring<P>, n: nat, s: State<P>, a: Action<P>)
    requires Inv(scoring, n, s)
    ensures var t := Apply(scoring, s, a);
            Chosen(s) <= Chosen(t) && (Enabled(s, a) && a in Turns<P>() ==> Chosen(s) < Chosen(t))
  {
    hide FirstBarrier, Tracking;
    RoundUp(s.rounds, n);
  }

  /** Exactly one of its steps can be taken. */
  lemma TurnToTake<P>(scoring: Scoring<P>, n: nat, s: State<P>) returns (a: Action<P>)
    requires Inv(scoring, n, s) && s.builder == Returned
    ensures a in Turns<P>() && Enabled(s, a)
  {
    hide FirstBarrier, Tracking;
    match s.chooser {
      case Sampling(samples, _, _) => a := if |samples| < n then SampleNext else Store;
      case Stored => a := if s.rounds == 1 then ChooserArrive else NextRound;
      case AtBarrier2 => a := ChooserGo;
      case Resting => a := NextRound;
    }
  }

  /** And it stays to be taken until the task moves. */
  lemma TurnStays<P>(scoring: Scoring<P>, n: nat, s: State<P>, a: Action<P>, b: Action<P>)
    requires Inv(scoring, n, s) && s.builder == Returned && a in Turns<P>() && Enabled(s, a)
    ensures var t := Apply(scoring, s, b); Chosen(t) > Chosen(s) || (Chosen(t) == Chosen(s) && Enabled(t, a))
  {
    ChosenGrows(scoring, n, s, b);
    hide FirstBarrier, Tracking, Choice;
    if b !in Turns<P>() && Enabled(s, b) {
      var t := Apply(scoring, s, b);
      assert t.chooser == s.chooser && t.rounds == s.rounds && t.arrived2 == s.arrived2;
    }
  }

  /** A stretch of a run in which the choosing task is given each of its turns, in any order and among any others. */
  ghost predicate ChoosingRound<P>(round: seq<Action<P>>)
  {
    forall a <- Turns<P>() :: a in round
  }

  lemma {:induction false} TurnWaits<P>(scoring: Scoring<P>, n: nat, before: seq<Action<P>>, more: seq<Action<P>>,
                                        a: Action<P>)
    requires n > 1 && Run(scoring, n, before).builder == Returned
    requires a in Turns<P>() && Enabled(Run(scoring, n, before), a)
    ensures var s, t := Run(scoring, n, before), Run(scoring, n, before + more);
            Chosen(t) > Chosen(s) || (Chosen(t) == Chosen(s) && Enabled(t, a))
    decreases |more|
  {
    hide Run, Apply, Enabled, Chosen, Inv, Turns;
    if more == [] {
      assert before + more == before;
    } else {
      var k := |more| - 1;
      TurnWaits(scoring, n, before, more[..k], a);
      assert before + more == (before + more[..k]) + [more[k]];
      RunSnoc(scoring, n, before + more[..k], more[k]);
      var t := Run(scoring, n, before + more[..k]);
      InvAlways(scoring, n, before + more[..k]);
      StaysReturned(scoring, n, before, more[..k]);
      ChosenGrows(scoring, n, t, more[k]);
      if Chosen(t) == Chosen(Run(scoring, n, before)) {
        TurnStays(scoring, n, t, a, more[k]);
      }
    }
  }

  lemma {:induction false} ChosenGrowsLong<P>(scoring: Scoring<P>, n: nat, before: seq<Action<P>>,
                                              more: seq<Action<P>>)
    requires n > 1
    ensures Chosen(Run(scoring, n, before)) <= Chosen(Run(scoring, n, before + more))
    decreases |more|
  {
    hide Run, Apply, Chosen, Inv;
    if more == [] {
      assert before + more == before;
    } else {
      var k := |more| - 1;
      ChosenGrowsLong(scoring, n, before, more[..k]);
      assert before + more == (before + more[..k]) + [more[k]];
      RunSnoc(scoring, n, before + more[..k], more[k]);
      InvAlways(scoring, n, before + more[..k]);
      ChosenGrows(scoring, n, Run(scoring, n, before + more[..k]), more[k]);
    }
  }

  /** Every such stretch takes the choosing task on. */
  lemma RoundChooses<P>(scoring: Scoring<P>, n: nat, before: seq<Action<P>>, round: seq<Action<P>>)
    requires n > 1 && Run(scoring, n, before).builder == Returned && ChoosingRound(round)
    ensures Chosen(Run(scoring, n, before)) < Chosen(Run(scoring, n, before + round))
  {
    hide Run, Apply, Enabled, Chosen, Inv, Turns;
    var s := Run(scoring, n, before);
    InvAlways(scoring, n, before);
    var a := TurnToTake(scoring, n, s);
    var k :| 0 <= k < |round| && round[k] == a;
    TurnWaits(scoring, n, before, round[..k], a);
    var upto := before + round[..k];
    RunSnoc(scoring, n, upto, a);
    InvAlways(scoring, n, upto);
    ChosenGrows(scoring, n, Run(scoring, n, upto), a);
    assert before + round == (upto + [a]) + round[k + 1..];
    ChosenGrowsLong(scoring, n, upto + [a], round[k + 1..]);
  }

  lemma {:induction false} RoundsChoose<P>(scoring: Scoring<P>, n: nat, before: seq<Action<P>>,
                                           rounds: seq<seq<Action<P>>>)
    requires n > 1 && Run(scoring, n, before).builder == Returned
    requires forall k :: 0 <= k < |rounds| ==> ChoosingRound(rounds[k])
    ensures Chosen(Run(scoring, n, before)) + |rounds| <= Chosen(Run(scoring, n, before + Flat(rounds)))
  {
    hide Run, Chosen, ChoosingRound;
    if rounds == [] {
      assert before + Flat(rounds) == before;
    } else {
      var k := |rounds| - 1;
      RoundsChoose(scoring, n, before, rounds[..k]);
      StaysReturned(scoring, n, before, Flat(rounds[..k]));
      assert before + Flat(rounds) == (before + Flat(rounds[..k])) + rounds[k];
      RoundChooses(scoring, n, before + Flat(rounds[..k]), rounds[k]);
    }
  }

  /**
   Nothing that is known is left out for long: once the constructor has returned, and the choosing
   task was given its turns `2 n + 10` times over among whatever else happens, the pick is the
   first least of scores each of which was read after every probe and failure known before.
   */
  lemma KnownIsChosenBy<P>(scoring: Scoring<P>, n: nat, before: seq<Action<P>>, rounds: seq<seq<Action<P>>>)
    requires n > 1 && Run(scoring, n, before).builder == Returned
    requires |rounds| >= 2 * n + 10 && forall k :: 0 <= k < |rounds| ==> ChoosingRound(rounds[k])
    ensures var s, t := Run(scoring, n, before), Run(scoring, n, before + Flat(rounds));
            && |s.probes| == |t.probes| == |t.chosenFrom| == n && IsFirstLeast(t.chosenFrom, t.bestIdx)
            && forall i :: 0 <= i < n ==>
                 && |s.probes[i]| <= t.chosenFrom[i].probes <= |t.probes[i]|
                 && t.chosenFrom[i].score == scoring(t.probes[i][..t.chosenFrom[i].probes])
  {
    hide Run, ChoosingRound, Flat;
    var s, t := Run(scoring, n, before), Run(scoring, n, before + Flat(rounds));
    Sizes(scoring, n, before);
    Sizes(scoring, n, before + Flat(rounds));
    RoundsChoose(scoring, n, before, rounds);
    var known := seq(n, i requires 0 <= i < n => |s.probes[i]|);
    FreshLong(scoring, n, before, Flat(rounds), s.rounds, known);
    InvAlways(scoring, n, before + Flat(rounds));
    Enough(s.rounds, t.rounds, n, Chosen(s), Chosen(t));
  }

  lemma Enough(r: nat, q: nat, n: nat, c: nat, d: nat)
    requires c >= r * (n + 5) && d <= q * (n + 5) + n + 3 && d >= c + 2 * n + 10
    ensures q >= r + 2
  {
    var m := n + 5;
    if q <= r + 1 {
      Product(q, r + 1, m);
      RoundUp(r, n);
    }
  }

  lemma Product(a: nat, b: nat, m: nat)
    requires a <= b
    ensures a * m <= b * m
  {
    assert b * m == a * m + (b - a) * m;
  }
}
