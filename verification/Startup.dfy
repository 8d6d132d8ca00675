/**
 The start-up of `PingBalancer::new` in src/relay/loadbalancing/server.rs: one probing task
 per server, a barrier, a choosing task, a second barrier. Every task is a little state
 machine; an action is one atomic step of one of them, and a run is any sequence of actions.
 An action that is not enabled leaves the state as it is.
 */
module Startup {

  type u64 = x: int | 0 <= x < 0x1_0000_0000_0000_0000

  const U64_MAX: u64 := 0xFFFF_FFFF_FFFF_FFFF

  /** A probing task: before its spawn, in its first check, before and at the barrier, and in its loop. */
  datatype Task = NotSpawned | Checking | Checked | AtBarrier | Looping

  datatype Builder = Spawning(next: nat) | AtFirstBarrier | ChooserSpawned | AtSecondBarrier | Returned

  /** A score read by the chooser, and how many probes of that server it reflects. */
  datatype Sample = Sample(score: u64, probes: nat)

  datatype Chooser =
    | NotStarted
    | Sampling(samples: seq<Sample>, bestIdx: nat, bestScore: u64)
    | Stored
    | AtBarrier2
    | Resting

  /** What a server's statistic says after its probes; `P` is whatever a probe records. */
  type Scoring<!P> = seq<P> -> u64

  datatype State<P> = State(
    tasks: seq<Task>,
    probes: seq<seq<P>>,       // every probe recorded, per server
    builder: Builder,
    chooser: Chooser,
    bestIdx: nat,
    chosenFrom: seq<Sample>,   // the samples of the last finished round
    rounds: nat,               // how many rounds the chooser finished
    arrived: nat,              // at the first barrier
    arrived2: nat              // at the second barrier
  )
  {
    predicate Open()
    {
      arrived == |tasks| + 1
    }

    predicate Open2()
    {
      arrived2 == 2
    }
  }

  datatype Action<P> =
    | Spawn
    | Arrive
    | Check(server: nat, probe: P)
    | TaskArrive(server: nat)
    | TaskGo(server: nat)
    | CheckAgain(server: nat, probe: P)
    | SpawnChooser
    | Arrive2
    | SampleNext
    | Store
    | ChooserArrive
    | ChooserGo
    | NextRound
    | Return
    | ReportFailure(server: nat, probe: P)

  function Init<P>(n: nat): (s: State<P>)
  {
    State(seq(n, _ => NotSpawned), seq(n, _ => []), Spawning(0), NotStarted, 0, [], 0, 0, 0)
  }

  predicate Enabled<P>(s: State<P>, a: Action<P>)
  {
    match a
    case Spawn => s.builder.Spawning? && s.builder.next < |s.tasks|
    case Arrive => s.builder == Spawning(|s.tasks|)
    case Check(i, _) => i < |s.tasks| && s.tasks[i] == Checking
    case TaskArrive(i) => i < |s.tasks| && s.tasks[i] == Checked
    case TaskGo(i) => i < |s.tasks| && s.tasks[i] == AtBarrier && s.Open()
    case CheckAgain(i, _) => i < |s.tasks| && s.tasks[i] == Looping
    case SpawnChooser => s.builder == AtFirstBarrier && s.Open()
    case Arrive2 => s.builder == ChooserSpawned
    case SampleNext => s.chooser.Sampling? && |s.chooser.samples| < |s.tasks|
    case Store => s.chooser.Sampling? && |s.chooser.samples| == |s.tasks|
    case ChooserArrive => s.chooser == Stored && s.rounds == 1
    case ChooserGo => s.chooser == AtBarrier2 && s.Open2()
    case NextRound => s.chooser == Resting || (s.chooser == Stored && s.rounds > 1)
    case Return => s.builder == AtSecondBarrier && s.Open2()
    case ReportFailure(i, _) => i < |s.tasks| && s.builder == Returned
  }

  function Record<P>(probes: seq<seq<P>>, i: nat, probe: P): (r: seq<seq<P>>)
    requires i < |probes|
  {
    probes[i := probes[i] + [probe]]
  }

  function Apply<P>(scoring: Scoring<P>, s: State<P>, a: Action<P>): (t: State<P>)
  {
    if !Enabled(s, a) || |s.probes| != |s.tasks| then s
    else match a
      case Spawn =>
        var k := s.builder.next;
        s.(tasks := s.tasks[k := Checking], builder := Spawning(k + 1))
      case Arrive => s.(builder := AtFirstBarrier, arrived := s.arrived + 1)
      case Check(i, p) => s.(tasks := s.tasks[i := Checked], probes := Record(s.probes, i, p))
      case TaskArrive(i) => s.(tasks := s.tasks[i := AtBarrier], arrived := s.arrived + 1)
      case TaskGo(i) => s.(tasks := s.tasks[i := Looping])
      case CheckAgain(i, p) => s.(probes := Record(s.probes, i, p))
      case SpawnChooser => s.(builder := ChooserSpawned, chooser := Sampling([], 0, U64_MAX))
      case Arrive2 => s.(builder := AtSecondBarrier, arrived2 := s.arrived2 + 1)
      case SampleNext =>
        var i := |s.chooser.samples|;
        var score := scoring(s.probes[i]);
        var samples := s.chooser.samples + [Sample(score, |s.probes[i]|)];
        s.(chooser := if score < s.chooser.bestScore then Sampling(samples, i, score)
                      else Sampling(samples, s.chooser.bestIdx, s.chooser.bestScore))
      case Store =>
        s.(bestIdx := s.chooser.bestIdx, chosenFrom := s.chooser.samples, rounds := s.rounds + 1, chooser := Stored)
      case ChooserArrive => s.(chooser := AtBarrier2, arrived2 := s.arrived2 + 1)
      case ChooserGo => s.(chooser := Resting)
      case NextRound => s.(chooser := Sampling([], 0, U64_MAX))
      case Return => s.(builder := Returned)
      case ReportFailure(i, p) => s.(probes := Record(s.probes, i, p))
  }

  /** The state after a run. */
  function Run<P>(scoring: Scoring<P>, n: nat, actions: seq<Action<P>>): (s: State<P>)
  {
    if actions == [] then Init(n)
    else Apply(scoring, Run(scoring, n, actions[..|actions| - 1]), actions[|actions| - 1])
  }

  /** How many tasks have reached the first barrier. */
  function Reached(tasks: seq<Task>): (n: nat)
    ensures n <= |tasks|
  {
    if tasks == [] then 0
    else (if tasks[0] == AtBarrier || tasks[0] == Looping then 1 else 0) + Reached(tasks[1..])
  }

  lemma {:induction false} ReachedUpdate(tasks: seq<Task>, i: nat, t: Task)
    requires i < |tasks|
    ensures Reached(tasks[i := t]) ==
            Reached(tasks)
            - (if tasks[i] == AtBarrier || tasks[i] == Looping then 1 else 0)
            + (if t == AtBarrier || t == Looping then 1 else 0)
  {
    if i > 0 {
      ReachedUpdate(tasks[1..], i - 1, t);
      assert tasks[i := t][1..] == tasks[1..][i - 1 := t];
    } else {
      assert tasks[i := t][1..] == tasks[1..];
    }
  }

  lemma {:induction false} AllReached(tasks: seq<Task>, i: nat)
    requires Reached(tasks) == |tasks| && i < |tasks|
    ensures tasks[i] == AtBarrier || tasks[i] == Looping
  {
    if i > 0 {
      AllReached(tasks[1..], i - 1);
    }
  }

  lemma {:induction false} NoneReached(n: nat)
    ensures Reached(seq(n, _ => NotSpawned)) == 0
  {
    if n > 0 {
      NoneReached(n - 1);
      assert seq(n, _ => NotSpawned)[1..] == seq(n - 1, _ => NotSpawned);
    }
  }

  /** `k` is the first position of a least score. */
  predicate IsFirstLeast(samples: seq<Sample>, k: nat)
  {
    && k < |samples|
    && (forall j :: 0 <= j < |samples| ==> samples[k].score <= samples[j].score)
    && (forall j :: 0 <= j < k ==> samples[k].score < samples[j].score)
  }

  /** Each sample is the score of its server after at least one probe. */
  ghost predicate Informed<P>(scoring: Scoring<P>, probes: seq<seq<P>>, samples: seq<Sample>)
  {
    && |samples| <= |probes|
    && forall i :: 0 <= i < |samples| ==>
         && 1 <= samples[i].probes <= |probes[i]|
         && samples[i].score == scoring(probes[i][..samples[i].probes])
  }

  /** The running minimum of the chooser. */
  ghost predicate Tracking(c: Chooser)
  {
    c.Sampling? ==>
      if c.bestScore == U64_MAX then
        c.bestIdx == 0 && forall j :: 0 <= j < |c.samples| ==> c.samples[j].score == U64_MAX
      else IsFirstLeast(c.samples, c.bestIdx) && c.samples[c.bestIdx].score == c.bestScore
  }

  ghost predicate Passed(c: Builder)
  {
    c == ChooserSpawned || c == AtSecondBarrier || c == Returned
  }

  /** The first barrier: who has arrived, and that nobody passes before all have. */
  ghost predicate FirstBarrier<P>(s: State<P>)
    requires |s.probes| == |s.tasks|
  {
    && s.arrived == Reached(s.tasks) + (if s.builder.Spawning? then 0 else 1)
    && (Passed(s.builder) ==> s.Open())
    && (s.builder.Spawning? ==> s.builder.next <= |s.tasks|)
    && (forall i :: 0 <= i < |s.tasks| && s.tasks[i] == Looping ==> s.Open())
    && (forall i :: 0 <= i < |s.tasks| && s.tasks[i] != NotSpawned && s.tasks[i] != Checking ==> s.probes[i] != [])
    && (forall i :: 0 <= i < |s.tasks| ==>
          (s.tasks[i] == NotSpawned <==> s.builder.Spawning? && s.builder.next <= i))
  }

  /** The second barrier: the constructor returns only after the chooser has finished a round. */
  ghost predicate SecondBarrier<P>(s: State<P>)
  {
    && (s.chooser == NotStarted <==> !Passed(s.builder))
    && s.arrived2 == (if s.builder == AtSecondBarrier || s.builder == Returned then 1 else 0)
                     + (if s.rounds >= 1 && !(s.rounds == 1 && s.chooser == Stored) then 1 else 0)
    && (s.chooser == Resting ==> s.rounds >= 1)
    && (s.chooser == Stored ==> s.rounds >= 1)
    && (s.chooser == AtBarrier2 ==> s.rounds == 1)
    && (s.chooser == NotStarted ==> s.rounds == 0)
    && (s.builder == Returned ==> s.Open2())
  }

  ghost predicate Choice<P>(scoring: Scoring<P>, s: State<P>)
  {
    && Tracking(s.chooser)
    && (s.chooser.Sampling? ==> Informed(scoring, s.probes, s.chooser.samples))
    && (s.rounds == 0 ==> s.bestIdx == 0)
    && (s.rounds >= 1 ==>
          && |s.chosenFrom| == |s.tasks|
          && IsFirstLeast(s.chosenFrom, s.bestIdx)
          && Informed(scoring, s.probes, s.chosenFrom))
  }

  ghost predicate Inv<P>(scoring: Scoring<P>, n: nat, s: State<P>)
  {
    && n >= 1 && |s.tasks| == n && |s.probes| == n
    && FirstBarrier(s)
    && SecondBarrier(s)
    && Choice(scoring, s)
  }

  lemma FirstBarrierSpawn<P>(scoring: Scoring<P>, s: State<P>)
    requires |s.probes| == |s.tasks| && FirstBarrier(s) && Enabled(s, Spawn)
    ensures FirstBarrier(Apply(scoring, s, Spawn))
  {
    hide Reached;
    ReachedUpdate(s.tasks, s.builder.next, Checking);
  }

  lemma FirstBarrierTask<P>(scoring: Scoring<P>, s: State<P>, a: Action<P>)
    requires |s.probes| == |s.tasks| && FirstBarrier(s) && Enabled(s, a) && (a.Check? || a.TaskArrive? || a.TaskGo?)
    ensures FirstBarrier(Apply(scoring, s, a))
  {
    hide Reached;
    ReachedUpdate(s.tasks, a.server, if a.Check? then Checked else if a.TaskArrive? then AtBarrier else Looping);
  }

  lemma FirstBarrierOther<P>(scoring: Scoring<P>, s: State<P>, a: Action<P>)
    requires |s.probes| == |s.tasks| && FirstBarrier(s) && Enabled(s, a)
    requires !a.Spawn? && !a.Check? && !a.TaskArrive? && !a.TaskGo?
    ensures FirstBarrier(Apply(scoring, s, a))
  {
    hide Reached;
  }

  lemma FirstBarrierKept<P>(scoring: Scoring<P>, s: State<P>, a: Action<P>)
    requires |s.probes| == |s.tasks| && FirstBarrier(s) && Enabled(s, a)
    ensures FirstBarrier(Apply(scoring, s, a))
  {
    hide FirstBarrier, Apply, Enabled;
    if a.Spawn? {
      FirstBarrierSpawn(scoring, s);
    } else if a.Check? || a.TaskArrive? || a.TaskGo? {
      FirstBarrierTask(scoring, s, a);
    } else {
      FirstBarrierOther(scoring, s, a);
    }
  }

  /** The steps that concern the second barrier. */
  predicate Second<P>(a: Action<P>)
  {
    || a.SpawnChooser? || a.Arrive2? || a.SampleNext? || a.Store? || a.ChooserArrive?
    || a.ChooserGo? || a.NextRound? || a.Return?
  }

  lemma SecondBarrierStep<P>(scoring: Scoring<P>, s: State<P>, a: Action<P>)
    requires |s.probes| == |s.tasks| && SecondBarrier(s) && Enabled(s, a) && Second(a)
    ensures SecondBarrier(Apply(scoring, s, a))
  {
  }

  lemma SecondBarrierOther<P>(scoring: Scoring<P>, s: State<P>, a: Action<P>)
    requires |s.probes| == |s.tasks| && SecondBarrier(s) && Enabled(s, a) && !Second(a)
    ensures SecondBarrier(Apply(scoring, s, a))
  {
  }

  lemma SecondBarrierKept<P>(scoring: Scoring<P>, s: State<P>, a: Action<P>)
    requires |s.probes| == |s.tasks| && SecondBarrier(s) && Enabled(s, a)
    ensures SecondBarrier(Apply(scoring, s, a))
  {
    hide SecondBarrier, Apply, Enabled, Second;
    if Second(a) {
      SecondBarrierStep(scoring, s, a);
    } else {
      SecondBarrierOther(scoring, s, a);
    }
  }

  /** Once the first barrier is open, every server has a recorded probe. */
  lemma AllProbed<P>(s: State<P>, i: nat)
    requires |s.probes| == |s.tasks| && FirstBarrier(s) && s.Open() && i < |s.tasks|
    ensures s.probes[i] != []
  {
    AllReached(s.tasks, i);
  }

  /** More probes do not disturb what earlier samples say. */
  lemma InformedKept<P>(scoring: Scoring<P>, probes: seq<seq<P>>, k: nat, probe: P, samples: seq<Sample>)
    requires k < |probes| && Informed(scoring, probes, samples)
    ensures Informed(scoring, Record(probes, k, probe), samples)
  {
    var after := Record(probes, k, probe);
    forall i | 0 <= i < |samples|
      ensures samples[i].score == scoring(after[i][..samples[i].probes])
    {
      assert after[i][..samples[i].probes] == probes[i][..samples[i].probes];
    }
  }

  lemma InformedSnoc<P>(scoring: Scoring<P>, probes: seq<seq<P>>, samples: seq<Sample>)
    requires Informed(scoring, probes, samples) && |samples| < |probes| && probes[|samples|] != []
    ensures var i := |samples|; Informed(scoring, probes, samples + [Sample(scoring(probes[i]), |probes[i]|)])
  {
    var i := |samples|;
    assert probes[i][..|probes[i]|] == probes[i];
  }

  lemma TrackingStep(samples: seq<Sample>, bestIdx: nat, bestScore: u64, x: Sample)
    requires Tracking(Sampling(samples, bestIdx, bestScore))
    ensures var all := samples + [x];
            Tracking(if x.score < bestScore then Sampling(all, |samples|, x.score)
              else Sampling(all, bestIdx, bestScore))
  {
  }

  lemma ChoiceKept<P>(scoring: Scoring<P>, n: nat, s: State<P>, a: Action<P>)
    requires Inv(scoring, n, s) && Enabled(s, a)
    ensures Choice(scoring, Apply(scoring, s, a))
  {
    hide Informed, Tracking, Reached, IsFirstLeast;
    match a
    case Check(i, p) => Recorded(scoring, s, i, p);
    case CheckAgain(i, p) => Recorded(scoring, s, i, p);
    case ReportFailure(i, p) => Recorded(scoring, s, i, p);
    case SampleNext =>
      var c := s.chooser;
      var i := |c.samples|;
      AllProbed(s, i);
      InformedSnoc(scoring, s.probes, c.samples);
      TrackingStep(c.samples, c.bestIdx, c.bestScore, Sample(scoring(s.probes[i]), |s.probes[i]|));
    case SpawnChooser => NothingSampled(scoring, s.probes);
    case NextRound => NothingSampled(scoring, s.probes);
    case Store => RoundOver(s.chooser);
    case _ => Elsewhere(s.chooser, Apply(scoring, s, a).chooser);
  }

  lemma Elsewhere(c: Chooser, d: Chooser)
    requires Tracking(c) && (d == c || !d.Sampling?)
    ensures Tracking(d)
  {
  }

  lemma NothingSampled<P>(scoring: Scoring<P>, probes: seq<seq<P>>)
    ensures Tracking(Sampling([], 0, U64_MAX)) && Informed(scoring, probes, [])
  {
  }

  /** The running minimum of a full round is its first least score. */
  lemma RoundOver(c: Chooser)
    requires c.Sampling? && Tracking(c) && c.samples != []
    ensures IsFirstLeast(c.samples, c.bestIdx) && Tracking(Stored)
  {
  }

  lemma Recorded<P>(scoring: Scoring<P>, s: State<P>, k: nat, probe: P)
    requires Choice(scoring, s) && k < |s.probes|
    ensures s.chooser.Sampling? ==> Informed(scoring, Record(s.probes, k, probe), s.chooser.samples)
    ensures s.rounds >= 1 ==> Informed(scoring, Record(s.probes, k, probe), s.chosenFrom)
  {
    if s.chooser.Sampling? {
      InformedKept(scoring, s.probes, k, probe, s.chooser.samples);
    }
    if s.rounds >= 1 {
      InformedKept(scoring, s.probes, k, probe, s.chosenFrom);
    }
  }

  lemma InvKept<P>(scoring: Scoring<P>, n: nat, s: State<P>, a: Action<P>)
    requires Inv(scoring, n, s)
    ensures Inv(scoring, n, Apply(scoring, s, a))
  {
    hide FirstBarrier, SecondBarrier, Choice;
    if Enabled(s, a) {
      FirstBarrierKept(scoring, s, a);
      SecondBarrierKept(scoring, s, a);
      ChoiceKept(scoring, n, s, a);
    }
  }

  lemma {:induction false} InvAlways<P>(scoring: Scoring<P>, n: nat, actions: seq<Action<P>>)
    requires n >= 1
    ensures Inv(scoring, n, Run(scoring, n, actions))
  {
    if actions == [] {
      NoneReached(n);
    } else {
      hide Inv, Apply, Enabled;
      var k := |actions| - 1;
      InvAlways(scoring, n, actions[..k]);
      InvKept(scoring, n, Run(scoring, n, actions[..k]), actions[k]);
    }
  }

  /**
   In every interleaving: the picked index is in range; and once the constructor has
   returned, every server has a recorded probe, and the pick is the first least of scores
   each of which was read after a probe of its server.
   */
  lemma ReturnsInformed<P>(scoring: Scoring<P>, n: nat, actions: seq<Action<P>>)
    requires n > 1
    ensures var s := Run(scoring, n, actions);
            && s.bestIdx < n && |s.probes| == n
            && (s.builder == Returned ==>
                  && (forall i :: 0 <= i < n ==> s.probes[i] != [])
                  && |s.chosenFrom| == n
                  && IsFirstLeast(s.chosenFrom, s.bestIdx)
                  && Informed(scoring, s.probes, s.chosenFrom))
  {
    InvAlways(scoring, n, actions);
    hide Run;
    var s := Run(scoring, n, actions);
    if s.builder == Returned {
      forall i | 0 <= i < n
        ensures s.probes[i] != []
      {
        AllProbed(s, i);
      }
    }
  }

  // Progress

  function TaskWork(t: Task): (w: nat)
  {
    match t
    case NotSpawned => 3
    case Checking => 2
    case Checked => 1
    case AtBarrier => 0
    case Looping => 0
  }

  function Work(tasks: seq<Task>): (w: nat)
  {
    if tasks == [] then 0 else TaskWork(tasks[0]) + Work(tasks[1..])
  }

  lemma {:induction false} WorkUpdate(tasks: seq<Task>, i: nat, t: Task)
    requires i < |tasks|
    ensures Work(tasks[i := t]) == Work(tasks) - TaskWork(tasks[i]) + TaskWork(t)
  {
    if i > 0 {
      WorkUpdate(tasks[1..], i - 1, t);
      assert tasks[i := t][1..] == tasks[1..][i - 1 := t];
    } else {
      assert tasks[i := t][1..] == tasks[1..];
    }
  }

  /** The steps still to be taken before the constructor returns. */
  function Remaining<P>(s: State<P>): (r: int)
  {
    Work(s.tasks)
    + (match s.builder
       case Spawning(_) => 4
       case AtFirstBarrier => 3
       case ChooserSpawned => 2
       case AtSecondBarrier => 1
       case Returned => 0)
    + (if s.chooser == NotStarted then |s.tasks| + 3
       else if s.chooser.Sampling? && s.rounds == 0 then |s.tasks| - |s.chooser.samples| + 2
       else if s.chooser == Stored && s.rounds == 1 then 1
       else 0)
  }

  /** No step of any task takes the constructor further from returning. */
  lemma NeverFurther<P>(scoring: Scoring<P>, n: nat, s: State<P>, a: Action<P>)
    requires Inv(scoring, n, s)
    ensures Remaining(Apply(scoring, s, a)) <= Remaining(s)
  {
    hide Work, Reached, Choice;
    if Enabled(s, a) {
      match a
      case Spawn => WorkUpdate(s.tasks, s.builder.next, Checking);
      case Check(i, _) => WorkUpdate(s.tasks, i, Checked);
      case TaskArrive(i) => WorkUpdate(s.tasks, i, AtBarrier);
      case TaskGo(i) => WorkUpdate(s.tasks, i, Looping);
      case _ =>
    }
  }

  lemma {:induction false} Lagging(tasks: seq<Task>) returns (i: nat)
    requires Reached(tasks) < |tasks|
    ensures i < |tasks| && tasks[i] != AtBarrier && tasks[i] != Looping
  {
    if tasks[0] != AtBarrier && tasks[0] != Looping {
      i := 0;
    } else {
      i := Lagging(tasks[1..]);
      i := i + 1;
    }
  }

  /** A step on the way to the return: of the constructor, of a first check, or of the first choice. */
  predicate Key<P>(s: State<P>, a: Action<P>)
  {
    && Enabled(s, a)
    && match a
       case Spawn => true
       case Arrive => true
       case Check(_, _) => true
       case TaskArrive(_) => true
       case SpawnChooser => true
       case Arrive2 => true
       case SampleNext => s.rounds == 0
       case Store => s.rounds == 0
       case ChooserArrive => true
       case Return => true
       case _ => false
  }

  /** Whoever takes such a step brings the constructor closer to returning. */
  lemma KeyCloser<P>(scoring: Scoring<P>, n: nat, s: State<P>, a: Action<P>)
    requires Inv(scoring, n, s) && Key(s, a)
    ensures Remaining(Apply(scoring, s, a)) < Remaining(s)
  {
    hide Work, Reached, Choice;
    match a
    case Spawn => WorkUpdate(s.tasks, s.builder.next, Checking);
    case Check(i, _) => WorkUpdate(s.tasks, i, Checked);
    case TaskArrive(i) => WorkUpdate(s.tasks, i, AtBarrier);
    case _ =>
  }

  /** Only such steps take one another away. */
  lemma KeyStays<P>(scoring: Scoring<P>, n: nat, s: State<P>, a: Action<P>, b: Action<P>)
    requires Inv(scoring, n, s) && Key(s, a) && !Key(s, b)
    ensures Key(Apply(scoring, s, b), a)
  {
    hide Reached, Choice, Informed;
  }

  /** From every reachable state before the return, there is such a step. */
  lemma NextStep<P>(scoring: Scoring<P>, n: nat, s: State<P>, probe: P) returns (a: Action<P>)
    requires Inv(scoring, n, s) && s.builder != Returned
    ensures Key(s, a) && Remaining(Apply(scoring, s, a)) < Remaining(s)
  {
    hide Remaining, Reached, Tracking, IsFirstLeast;
    match s.builder {
      case Spawning(k) => a := if k < n then Spawn else Arrive;
      case AtFirstBarrier =>
        if s.Open() {
          a := SpawnChooser;
        } else {
          a := TaskStep(s, probe);
        }
      case ChooserSpawned => a := Arrive2;
      case AtSecondBarrier => a := ChooserStep(n, s);
    }
    KeyCloser(scoring, n, s, a);
  }

  lemma TaskStep<P>(s: State<P>, probe: P) returns (a: Action<P>)
    requires |s.probes| == |s.tasks| && FirstBarrier(s) && s.builder == AtFirstBarrier && !s.Open()
    ensures Enabled(s, a)
    ensures (a.Check? && s.tasks[a.server] == Checking) || (a.TaskArrive? && s.tasks[a.server] == Checked)
  {
    var i := Lagging(s.tasks);
    a := if s.tasks[i] == Checking then Check(i, probe) else TaskArrive(i);
  }

  lemma ChooserStep<P>(n: nat, s: State<P>) returns (a: Action<P>)
    requires |s.tasks| == n && |s.probes| == n && SecondBarrier(s) && s.builder == AtSecondBarrier
    requires s.chooser.Sampling? ==> |s.chooser.samples| <= n
    ensures Enabled(s, a)
    ensures a == Return || (s.rounds == 0 && (a == SampleNext || a == Store)) || (s.rounds == 1 && a == ChooserArrive)
  {
    if s.Open2() {
      a := Return;
    } else if s.chooser.Sampling? {
      a := if |s.chooser.samples| < n then SampleNext else Store;
    } else {
      a := ChooserArrive;
    }
  }

  /** The start-up never gets stuck: until the constructor has returned, some task can bring it closer. */
  lemma NeverStuck<P>(scoring: Scoring<P>, n: nat, actions: seq<Action<P>>, probe: P) returns (a: Action<P>)
    requires n > 1 && Run(scoring, n, actions).builder != Returned
    ensures var s := Run(scoring, n, actions);
            Enabled(s, a) && Remaining(Apply(scoring, s, a)) < Remaining(s)
  {
    InvAlways(scoring, n, actions);
    hide Run, Apply, Enabled, Inv;
    a := NextStep(scoring, n, Run(scoring, n, actions), probe);
  }

  /** Every unfinished run can be continued to one in which the constructor returns. */
  lemma {:induction false} CanReturn<P>(scoring: Scoring<P>, n: nat, actions: seq<Action<P>>, probe: P)
    returns (more: seq<Action<P>>)
    requires n > 1
    ensures Run(scoring, n, actions + more).builder == Returned
    decreases Remaining(Run(scoring, n, actions))
  {
    hide Apply, Enabled, Remaining;
    if Run(scoring, n, actions).builder == Returned {
      more := [];
      assert actions + more == actions;
    } else {
      RemainingNonNegative(scoring, n, actions);
      var a := NeverStuck(scoring, n, actions, probe);
      assert (actions + [a])[..|actions|] == actions;
      more := CanReturn(scoring, n, actions + [a], probe);
      assert (actions + [a]) + more == actions + ([a] + more);
      more := [a] + more;
    }
  }

  lemma RemainingNonNegative<P>(scoring: Scoring<P>, n: nat, actions: seq<Action<P>>)
    requires n > 1
    ensures Remaining(Run(scoring, n, actions)) >= 0
    ensures Run(scoring, n, actions).builder != Returned ==> Remaining(Run(scoring, n, actions)) >= 1
  {
    InvAlways(scoring, n, actions);
    hide Run, Work;
  }

  /** The same step, whatever a probe may record. */
  predicate SameStep<P(==)>(a: Action<P>, b: Action<P>)
  {
    a == b || (a.Check? && b.Check? && a.server == b.server)
  }

  predicate ChecksServer<P>(round: seq<Action<P>>, i: nat)
  {
    exists k :: 0 <= k < |round| && round[k].Check? && round[k].server == i
  }

  lemma SameKey<P>(s: State<P>, a: Action<P>, b: Action<P>)
    requires Key(s, a) && SameStep(b, a)
    ensures Key(s, b)
  {
  }

  /** A stretch of a run in which every task is given every turn it may need, in any order and among any others. */
  ghost predicate Round<P>(n: nat, round: seq<Action<P>>)
  {
    && (forall a <- [Spawn, Arrive, SpawnChooser, Arrive2, SampleNext, Store, ChooserArrive, Return] :: a in round)
    && (forall i :: 0 <= i < n ==> TaskArrive(i) in round)
    && (forall i :: 0 <= i < n ==> ChecksServer(round, i))
  }

  lemma Given<P>(n: nat, round: seq<Action<P>>, s: State<P>, a: Action<P>) returns (k: nat)
    requires Round(n, round) && |s.tasks| == n && Key(s, a)
    ensures k < |round| && SameStep(round[k], a)
  {
    if a.Check? {
      assert ChecksServer(round, a.server);
      k :| 0 <= k < |round| && round[k].Check? && round[k].server == a.server;
    } else {
      assert a.TaskArrive? || a in [Spawn, Arrive, SpawnChooser, Arrive2, SampleNext, Store, ChooserArrive, Return];
      k :| 0 <= k < |round| && round[k] == a;
    }
  }

  lemma RunSnoc<P>(scoring: Scoring<P>, n: nat, actions: seq<Action<P>>, a: Action<P>)
    ensures Run(scoring, n, actions + [a]) == Apply(scoring, Run(scoring, n, actions), a)
  {
    hide Apply;
    assert (actions + [a])[..|actions|] == actions;
  }

  /** While nobody comes closer, the step stays to be taken. */
  lemma {:induction false} Approaches<P>(scoring: Scoring<P>, n: nat, before: seq<Action<P>>, more: seq<Action<P>>,
      a: Action<P>)
    requires n > 1 && Key(Run(scoring, n, before), a)
    ensures var s, t := Run(scoring, n, before), Run(scoring, n, before + more);
            Remaining(t) < Remaining(s) || (Remaining(t) == Remaining(s) && Key(t, a))
    decreases |more|
  {
    hide Run, Apply, Key, Remaining, Inv;
    if more == [] {
      assert before + more == before;
    } else {
      var k := |more| - 1;
      Approaches(scoring, n, before, more[..k], a);
      assert before + more == (before + more[..k]) + [more[k]];
      RunSnoc(scoring, n, before + more[..k], more[k]);
      var t := Run(scoring, n, before + more[..k]);
      InvAlways(scoring, n, before + more[..k]);
      NeverFurther(scoring, n, t, more[k]);
      if Key(t, more[k]) {
        KeyCloser(scoring, n, t, more[k]);
      } else if Key(t, a) {
        KeyStays(scoring, n, t, a, more[k]);
      }
    }
  }

  lemma {:induction false} NeverFurtherLong<P>(scoring: Scoring<P>, n: nat, before: seq<Action<P>>,
      more: seq<Action<P>>)
    requires n > 1
    ensures Remaining(Run(scoring, n, before + more)) <= Remaining(Run(scoring, n, before))
    decreases |more|
  {
    hide Run, Apply, Remaining, Inv;
    if more == [] {
      assert before + more == before;
    } else {
      var k := |more| - 1;
      NeverFurtherLong(scoring, n, before, more[..k]);
      assert before + more == (before + more[..k]) + [more[k]];
      RunSnoc(scoring, n, before + more[..k], more[k]);
      InvAlways(scoring, n, before + more[..k]);
      NeverFurther(scoring, n, Run(scoring, n, before + more[..k]), more[k]);
    }
  }

  /** Every round before the return brings it closer. */
  lemma RoundCloser<P>(scoring: Scoring<P>, n: nat, before: seq<Action<P>>, round: seq<Action<P>>)
    requires n > 1 && Round(n, round) && Run(scoring, n, before).builder != Returned
    ensures Remaining(Run(scoring, n, before + round)) < Remaining(Run(scoring, n, before))
  {
    hide Run, Apply, Remaining, Inv, Key, Round, SameStep;
    var s := Run(scoring, n, before);
    InvAlways(scoring, n, before);
    TaskCount(scoring, n, s);
    var first := FirstCheck(n, round);
    var a := NextStep(scoring, n, s, round[first].probe);
    var k := Given(n, round, s, a);
    Approaches(scoring, n, before, round[..k], a);
    TakenAt(scoring, n, before + round[..k], round[k], a, Remaining(s));
    var upto := (before + round[..k]) + [round[k]];
    assert before + round == upto + round[k + 1..];
    NeverFurtherLong(scoring, n, upto, round[k + 1..]);
  }

  lemma TaskCount<P>(scoring: Scoring<P>, n: nat, s: State<P>)
    requires Inv(scoring, n, s)
    ensures |s.tasks| == n
  {
  }

  lemma TakenAt<P>(scoring: Scoring<P>, n: nat, before: seq<Action<P>>, b: Action<P>, a: Action<P>, limit: int)
    requires n > 1 && SameStep(b, a)
    requires var t := Run(scoring, n, before); Remaining(t) < limit || (Remaining(t) == limit && Key(t, a))
    ensures Remaining(Run(scoring, n, before + [b])) < limit
  {
    hide Run, Apply, Remaining, Inv, Key, SameStep;
    var t := Run(scoring, n, before);
    RunSnoc(scoring, n, before, b);
    InvAlways(scoring, n, before);
    NeverFurther(scoring, n, t, b);
    if Key(t, a) {
      SameKey(t, a, b);
      KeyCloser(scoring, n, t, b);
    }
  }

  lemma FirstCheck<P>(n: nat, round: seq<Action<P>>) returns (k: nat)
    requires n > 1 && Round(n, round)
    ensures k < |round| && round[k].Check?
  {
    assert ChecksServer(round, 0);
    k :| 0 <= k < |round| && round[k].Check? && round[k].server == 0;
  }

  ghost function Flat<P>(rounds: seq<seq<Action<P>>>): (actions: seq<Action<P>>)
  {
    if rounds == [] then [] else Flat(rounds[..|rounds| - 1]) + rounds[|rounds| - 1]
  }

  /**
   The return cannot be avoided: whatever the interleaving, a run in which every task was given
   its turns often enough, `4 n + 7` times over, has returned.
   */
  lemma MustReturn<P>(scoring: Scoring<P>, n: nat, rounds: seq<seq<Action<P>>>)
    requires n > 1 && |rounds| >= 4 * n + 7 && forall k :: 0 <= k < |rounds| ==> Round(n, rounds[k])
    ensures Run(scoring, n, Flat(rounds)).builder == Returned
  {
    ComesCloser(scoring, n, rounds);
    RemainingNonNegative(scoring, n, Flat(rounds));
  }

  lemma {:induction false} ComesCloser<P>(scoring: Scoring<P>, n: nat, rounds: seq<seq<Action<P>>>)
    requires n > 1 && forall k :: 0 <= k < |rounds| ==> Round(n, rounds[k])
    ensures var s := Run(scoring, n, Flat(rounds));
            s.builder == Returned || Remaining(s) + |rounds| <= 4 * n + 7
  {
    hide Round, Remaining, Apply, Enabled;
    if rounds == [] {
      FirstRemaining<P>(n);
    } else {
      var k := |rounds| - 1;
      ComesCloser(scoring, n, rounds[..k]);
      var before := Flat(rounds[..k]);
      hide Run;
      if Run(scoring, n, before).builder == Returned {
        StaysReturned(scoring, n, before, rounds[k]);
      } else {
        RoundCloser(scoring, n, before, rounds[k]);
      }
    }
  }

  lemma {:induction false} AllUnspawned(n: nat)
    ensures Work(seq(n, _ => NotSpawned)) == 3 * n
  {
    if n > 0 {
      AllUnspawned(n - 1);
      assert seq(n, _ => NotSpawned)[1..] == seq(n - 1, _ => NotSpawned);
    }
  }

  lemma FirstRemaining<P>(n: nat)
    ensures Remaining(Init<P>(n)) == 4 * n + 7
  {
    AllUnspawned(n);
  }

  lemma {:induction false} StaysReturned<P>(scoring: Scoring<P>, n: nat, before: seq<Action<P>>, more: seq<Action<P>>)
    requires Run(scoring, n, before).builder == Returned
    ensures Run(scoring, n, before + more).builder == Returned
    decreases |more|
  {
    hide Run, Apply;
    if more == [] {
      assert before + more == before;
    } else {
      var k := |more| - 1;
      StaysReturned(scoring, n, before, more[..k]);
      assert before + more == (before + more[..k]) + [more[k]];
      RunSnoc(scoring, n, before + more[..k], more[k]);
      ReturnedStays(scoring, Run(scoring, n, before + more[..k]), more[k]);
    }
  }

  lemma ReturnedStays<P>(scoring: Scoring<P>, s: State<P>, a: Action<P>)
    requires s.builder == Returned
    ensures Apply(scoring, s, a).builder == Returned
  {
  }
}
