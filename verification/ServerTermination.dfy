/** Every run of the server is bounded but for its spurious wakeups, and it can only end with all
    workers exited and main past its joins: the protocol neither livelocks nor deadlocks. */
module ServerTermination {
  import opened Basics
  import opened Fifo
  import opened RequestServer
  import opened ServerSafety

  /** Steps a worker can make before it waits, exits or starts over with another request. */
  function WorkerRank(w: WorkerState): nat {
    match w.pc
    case Returning(_) => 7
    case Working(_) => 6
    case NotCreated | Locking | Waking => 5
    case Checking => 4
    case Announcing => 3
    case Leaving => 2
    case Waiting | Exited(_) => 0
  }

  /** 1 while the worker may still broadcast on its way out. */
  function MayAnnounce(w: WorkerState): nat {
    if w.pc.Leaving? || w.pc.Exited? then 0 else 1
  }

  function Left(total: nat, done: nat): nat {
    if done < total then total - done else 0
  }

  /** Steps main can make before it sends another request, creates or joins another worker. */
  function MainPcRank(pc: MainPc): nat {
    match pc
    case Creating => 8
    case EnqUnlock => 9
    case EnqBroadcast => 8
    case Sending => 7
    case EnqLock => 6
    case EnqUpdate => 5
    case CloseLock => 6
    case CloseUpdate => 5
    case CloseUnlock => 4
    case CloseBroadcast => 3
    case Joining => 2
    case Destroying => 1
    case Finished => 0
  }

  function MainRank(s: Server): nat {
    MainPcRank(s.main) + Left(|s.workers|, s.created) + Left(|s.workers|, s.joined)
  }

  function Unsent(cfg: Config, s: Server): nat {
    Left(|cfg.isNull|, s.sent)
  }

  /** Broadcasts that main can still make. */
  function MainBroadcasts(cfg: Config, s: Server): nat {
    if s.main.Joining? || s.main.Destroying? || s.main.Finished? then 0
    else Unsent(cfg, s) + 1 + if s.main.EnqUnlock? || s.main.EnqBroadcast? then 1 else 0
  }

  function Broadcasts(cfg: Config, s: Server): nat {
    MainBroadcasts(cfg, s) + Sum(s.workers, MayAnnounce)
  }

  /** A broadcast can wake every worker, so it is worth 5 steps for each of them and one more. */
  function Measure(cfg: Config, s: Server): nat {
    (5 * |s.workers| + 1) * Broadcasts(cfg, s)
    + 9 * Unsent(cfg, s) + 4 * |s.queue.items| + Sum(s.workers, WorkerRank) + MainRank(s)
  }

  lemma {:induction false} RankAfterBroadcast(ws: seq<WorkerState>)
    ensures Sum(Broadcast(ws), WorkerRank) <= Sum(ws, WorkerRank) + 5 * |ws|
  {
    if ws != [] {
      RankAfterBroadcast(ws[1..]);
      assert Broadcast(ws)[1..] == Broadcast(ws[1..]);
    }
  }

  lemma OneBroadcastLess(w: nat, b: nat)
    ensures w * (b + 1) == w * b + w
  {
  }

  lemma SameBroadcasts(cfg: Config, s: Server, s': Server)
    requires |s'.workers| == |s.workers| && Broadcasts(cfg, s') == Broadcasts(cfg, s)
    requires 9 * Unsent(cfg, s') + 4 * |s'.queue.items| + Sum(s'.workers, WorkerRank) + MainRank(s')
             < 9 * Unsent(cfg, s) + 4 * |s.queue.items| + Sum(s.workers, WorkerRank) + MainRank(s)
    ensures Measure(cfg, s') < Measure(cfg, s)
  {
  }

  lemma FewerBroadcasts(cfg: Config, s: Server, s': Server)
    requires |s'.workers| == |s.workers| && Broadcasts(cfg, s') + 1 == Broadcasts(cfg, s)
    requires 9 * Unsent(cfg, s') + 4 * |s'.queue.items| + Sum(s'.workers, WorkerRank) + MainRank(s')
             <= 9 * Unsent(cfg, s) + 4 * |s.queue.items| + Sum(s.workers, WorkerRank) + MainRank(s) + 5 * |s.workers|
    ensures Measure(cfg, s') < Measure(cfg, s)
  {
    OneBroadcastLess(5 * |s.workers| + 1, Broadcasts(cfg, s'));
  }

  lemma MainStepDecreases(cfg: Config, s: Server)
    requires Inv(cfg, s) && Enabled(cfg, s, MainStep)
    ensures Measure(cfg, Step(cfg, s, MainStep)) < Measure(cfg, s)
  {
    if s.main.EnqBroadcast? || s.main.CloseBroadcast? {
      BroadcastDecreases(cfg, s);
    } else if s.main.Creating? && s.created < |s.workers| {
      CreatingDecreases(cfg, s);
    } else {
      QuietMainStep(cfg, s);
      SameBroadcasts(cfg, s, Step(cfg, s, MainStep));
    }
  }

  lemma BroadcastDecreases(cfg: Config, s: Server)
    requires ProgramOrder(cfg, s) && (s.main.EnqBroadcast? || s.main.CloseBroadcast?)
    ensures Measure(cfg, Step(cfg, s, MainStep)) < Measure(cfg, s)
  {
    var s' := Step(cfg, s, MainStep);
    RankAfterBroadcast(s.workers);
    SumSame(s.workers, s'.workers, MayAnnounce);
    FewerBroadcasts(cfg, s, s');
  }

  lemma CreatingDecreases(cfg: Config, s: Server)
    requires Inv(cfg, s) && s.main.Creating? && s.created < |s.workers|
    ensures Measure(cfg, Step(cfg, s, MainStep)) < Measure(cfg, s)
  {
    var s' := Step(cfg, s, MainStep);
    SumUpdate(s.workers, s.created, s'.workers[s.created], WorkerRank);
    SumUpdate(s.workers, s.created, s'.workers[s.created], MayAnnounce);
    SameBroadcasts(cfg, s, s');
  }

  /** Main's steps that wake nobody. */
  predicate Quiet(s: Server) {
    !s.main.EnqBroadcast? && !s.main.CloseBroadcast? && !(s.main.Creating? && s.created < |s.workers|)
  }

  lemma QuietMainStep(cfg: Config, s: Server)
    requires Inv(cfg, s) && Enabled(cfg, s, MainStep) && Quiet(s)
    ensures var s' := Step(cfg, s, MainStep);
      && s'.workers == s.workers && MainBroadcasts(cfg, s') == MainBroadcasts(cfg, s)
      && 9 * Unsent(cfg, s') + 4 * |s'.queue.items| + MainRank(s')
         < 9 * Unsent(cfg, s) + 4 * |s.queue.items| + MainRank(s)
  {
    QuietMainRank(cfg, s);
    QuietMainBroadcasts(cfg, s);
  }

  lemma QuietMainRank(cfg: Config, s: Server)
    requires ProgramOrder(cfg, s) && Enabled(cfg, s, MainStep) && Quiet(s)
    ensures var s' := Step(cfg, s, MainStep);
      9 * Unsent(cfg, s') + 4 * |s'.queue.items| + MainRank(s')
        < 9 * Unsent(cfg, s) + 4 * |s.queue.items| + MainRank(s)
  {
  }

  lemma QuietMainBroadcasts(cfg: Config, s: Server)
    requires ProgramOrder(cfg, s) && Enabled(cfg, s, MainStep) && Quiet(s)
    ensures var s' := Step(cfg, s, MainStep);
      s'.workers == s.workers && MainBroadcasts(cfg, s') == MainBroadcasts(cfg, s)
  {
  }

  lemma WorkerStepDecreases(cfg: Config, s: Server, i: nat)
    requires Inv(cfg, s) && Enabled(cfg, s, WorkerStep(i))
    ensures Measure(cfg, Step(cfg, s, WorkerStep(i))) < Measure(cfg, s)
  {
    var s' := Step(cfg, s, WorkerStep(i));
    if s.workers[i].pc.Announcing? {
      AnnouncingDecreases(cfg, s, i);
    } else {
      WorkerStepKeepsMain(cfg, s, i);
      SumUpdate(s.workers, i, s'.workers[i], WorkerRank);
      SumUpdate(s.workers, i, s'.workers[i], MayAnnounce);
      if MayAnnounce(s'.workers[i]) == MayAnnounce(s.workers[i]) {
        SameBroadcasts(cfg, s, s');
      } else {
        FewerBroadcasts(cfg, s, s');
      }
    }
  }

  lemma AnnouncingDecreases(cfg: Config, s: Server, i: nat)
    requires Enabled(cfg, s, WorkerStep(i)) && s.workers[i].pc.Announcing?
    ensures Measure(cfg, Step(cfg, s, WorkerStep(i))) < Measure(cfg, s)
  {
    var s' := Step(cfg, s, WorkerStep(i));
    var woken := Broadcast(s.workers);
    RankAfterBroadcast(s.workers);
    SumSame(s.workers, woken, MayAnnounce);
    SumUpdate(woken, i, s'.workers[i], WorkerRank);
    SumUpdate(woken, i, s'.workers[i], MayAnnounce);
    FewerBroadcasts(cfg, s, s');
  }

  lemma WorkerStepKeepsMain(cfg: Config, s: Server, i: nat)
    requires Enabled(cfg, s, WorkerStep(i)) && !s.workers[i].pc.Announcing?
    ensures var s' := Step(cfg, s, WorkerStep(i));
      && |s'.workers| == |s.workers| && s'.workers == s.workers[i := s'.workers[i]]
      && MainRank(s') == MainRank(s) && MainBroadcasts(cfg, s') == MainBroadcasts(cfg, s)
      && Unsent(cfg, s') == Unsent(cfg, s)
      && WorkerRank(s'.workers[i]) + 4 * |s'.queue.items| < WorkerRank(s.workers[i]) + 4 * |s.queue.items|
      && MayAnnounce(s'.workers[i]) <= MayAnnounce(s.workers[i])
  {
  }

  /** Every step but a spurious wakeup makes the measure smaller. */
  lemma StepDecreases(cfg: Config, s: Server, a: Action)
    requires Inv(cfg, s) && Enabled(cfg, s, a) && !a.SpuriousWakeup?
    ensures Measure(cfg, Step(cfg, s, a)) < Measure(cfg, s)
  {
    match a
    case MainStep => MainStepDecreases(cfg, s);
    case WorkerStep(i) => WorkerStepDecreases(cfg, s, i);
  }

  /** A spurious wakeup gives back what the wait had used up. */
  lemma WakeupAddsFive(cfg: Config, s: Server, i: nat)
    requires Enabled(cfg, s, SpuriousWakeup(i))
    ensures Measure(cfg, Step(cfg, s, SpuriousWakeup(i))) == Measure(cfg, s) + 5
  {
    var s' := Step(cfg, s, SpuriousWakeup(i));
    SumUpdate(s.workers, i, s'.workers[i], WorkerRank);
    SumUpdate(s.workers, i, s'.workers[i], MayAnnounce);
    assert Broadcasts(cfg, s') == Broadcasts(cfg, s) && MainRank(s') == MainRank(s);
  }

  /** The spurious wakeups in a run. */
  function Wakeups(actions: seq<Action>): nat {
    if actions == [] then 0
    else Wakeups(actions[..|actions| - 1]) + One(actions[|actions| - 1].SpuriousWakeup?)
  }

  /** Their number is that of the positions in the run that hold one. */
  lemma {:induction false} WakeupsAre(actions: seq<Action>)
    ensures Wakeups(actions) == |set i | 0 <= i < |actions| && actions[i].SpuriousWakeup?|
  {
    var at := set i | 0 <= i < |actions| && actions[i].SpuriousWakeup?;
    if actions != [] {
      var before := actions[..|actions| - 1];
      WakeupsAre(before);
      var earlier := set i | 0 <= i < |before| && before[i].SpuriousWakeup?;
      assert at == earlier + if actions[|before|].SpuriousWakeup? then {|before|} else {};
    }
  }

  lemma {:induction false} RunBudget(cfg: Config, actions: seq<Action>)
    requires Exec(cfg, actions).Some?
    ensures |actions| + Measure(cfg, Exec(cfg, actions).value) <= Measure(cfg, Init(cfg)) + 6 * Wakeups(actions)
  {
    if actions != [] {
      var before, a := actions[..|actions| - 1], actions[|actions| - 1];
      var s := Exec(cfg, before).value;
      RunBudget(cfg, before);
      ExecInv(cfg, before);
      if a.SpuriousWakeup? { WakeupAddsFive(cfg, s, a.i); } else { StepDecreases(cfg, s, a); }
    }
  }

  /** A run of n workers and r requests with w spurious wakeups has at most
      (5n + 1)(r + 1 + n) + 9r + 7n + 8 + 6w steps. So a run can be endless only through endlessly many
      spurious wakeups. */
  lemma RunsAreBounded(cfg: Config, actions: seq<Action>)
    requires Exec(cfg, actions).Some?
    ensures var n, r := cfg.numThreads, |cfg.isNull|;
      |actions| <= (5 * n + 1) * (r + 1 + n) + 9 * r + 7 * n + 8 + 6 * Wakeups(actions)
  {
    RunBudget(cfg, actions);
    InitialMeasure(cfg);
  }

  lemma {:induction false} NoWakeups(actions: seq<Action>)
    requires forall a :: a in actions ==> !a.SpuriousWakeup?
    ensures Wakeups(actions) == 0
  {
    if actions != [] { NoWakeups(actions[..|actions| - 1]); }
  }

  /** Without spurious wakeups, no run is longer than (5n + 1)(r + 1 + n) + 9r + 7n + 8 steps. */
  lemma RunsAreFinite(cfg: Config, actions: seq<Action>)
    requires Exec(cfg, actions).Some? && forall a :: a in actions ==> !a.SpuriousWakeup?
    ensures var n, r := cfg.numThreads, |cfg.isNull|;
      |actions| <= (5 * n + 1) * (r + 1 + n) + 9 * r + 7 * n + 8
  {
    RunsAreBounded(cfg, actions);
    NoWakeups(actions);
  }

  lemma InitialMeasure(cfg: Config)
    ensures var n, r := cfg.numThreads, |cfg.isNull|;
      Measure(cfg, Init(cfg)) == (5 * n + 1) * (r + 1 + n) + 9 * r + 7 * n + 8
  {
    var s := Init(cfg);
    SumAll(s.workers, MayAnnounce, 1);
    SumAll(s.workers, WorkerRank, 5);
    assert Broadcasts(cfg, s) == |cfg.isNull| + 1 + cfg.numThreads && |s.workers| == cfg.numThreads;
  }

  ghost predicate Stuck(cfg: Config, s: Server) {
    forall a: Action :: !a.SpuriousWakeup? ==> !Enabled(cfg, s, a)
  }

  lemma OwnerCanMove(cfg: Config, s: Server)
    requires Inv(cfg, s) && s.owner.Some?
    ensures !Stuck(cfg, s)
  {
    match s.owner.value
    case Main => assert Enabled(cfg, s, MainStep);
    case Worker(i) => assert WorkerOwns(s.workers[i].pc) && Enabled(cfg, s, WorkerStep(i));
  }

  /** The only reachable states in which no thread can move are those where main has finished; all
      workers have exited then. Conversely nothing moves once main has finished. */
  lemma NoDeadlock(cfg: Config, actions: seq<Action>)
    requires Exec(cfg, actions).Some?
    ensures var s := Exec(cfg, actions).value;
      && (Stuck(cfg, s) <==> s.main.Finished?)
      && (s.main.Finished? ==> s.joined == |s.workers| && forall i :: 0 <= i < |s.workers| ==> s.workers[i].pc.Exited?)
  {
    ExecInv(cfg, actions);
    var s := Exec(cfg, actions).value;
    if s.owner.Some? {
      OwnerCanMove(cfg, s);
    } else if !s.main.Finished? {
      SomeoneCanMove(cfg, s);
    }
  }

  lemma SomeoneCanMove(cfg: Config, s: Server)
    requires Inv(cfg, s) && s.owner.None? && !s.main.Finished?
    ensures !Stuck(cfg, s)
  {
    if !Enabled(cfg, s, MainStep) {
      assert s.main.Joining?;
      var w := s.workers[s.joined];
      assert !w.pc.Exited? && !w.pc.NotCreated? && !w.pc.Waiting?;
      assert Enabled(cfg, s, WorkerStep(s.joined));
    } else {
      assert Enabled(cfg, s, MainStep);
    }
  }

  lemma OneMoreStep(cfg: Config, actions: seq<Action>) returns (more: seq<Action>)
    requires Exec(cfg, actions).Some? && !Exec(cfg, actions).value.main.Finished?
    ensures |more| == |actions| + 1 && actions <= more && Exec(cfg, more).Some?
    ensures Measure(cfg, Exec(cfg, more).value) < Measure(cfg, Exec(cfg, actions).value)
  {
    var s := Exec(cfg, actions).value;
    NoDeadlock(cfg, actions);
    var a: Action :| !a.SpuriousWakeup? && Enabled(cfg, s, a);
    more := actions + [a];
    assert more[..|actions|] == actions;
    ExecInv(cfg, actions);
    StepDecreases(cfg, s, a);
  }

  /** From every reachable state the server can be run to its end, within the bound, whatever the
      number of workers and requests and whatever wakeups came before. */
  lemma {:induction false} CanFinish(cfg: Config, actions: seq<Action>) returns (all: seq<Action>)
    requires Exec(cfg, actions).Some?
    ensures actions <= all && Exec(cfg, all).Some? && Exec(cfg, all).value.main.Finished?
    ensures |all| <= |actions| + Measure(cfg, Exec(cfg, actions).value)
    decreases Measure(cfg, Exec(cfg, actions).value)
  {
    if Exec(cfg, actions).value.main.Finished? {
      all := actions;
    } else {
      var more := OneMoreStep(cfg, actions);
      all := CanFinish(cfg, more);
    }
  }
}
