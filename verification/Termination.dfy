/** Every run ends: each step makes the rest of the run shorter, and somebody can always make one. */
module Termination {
  import opened Store
  import opened Commands
  import opened Protocol
  import opened Locking
  import opened Backups
  import opened Progress

  // Steps left, not counting the nodes SHOW still prints from its current bucket.

  function CommandCost(c: Command): nat {
    if c.NamesKeys() then 2 * |Named(c)| + 32
    else if c.Show? then 30
    else if c.Backup? then 63
    else 1
  }

  function CommandsCost(commands: seq<Command>, i: nat): nat
    requires i <= |commands|
    decreases |commands| - i
  {
    if i == |commands| then 0 else CommandCost(commands[i]) + CommandsCost(commands, i + 1)
  }

  /** What is left of the thread's current command. */
  function WithinCommand(th: Thread): int {
    match th.pc
    case GlobalRead => 2 * |th.args| + 31
    case Lock => 2 * |th.args| - th.i + 30
    case Apply => |th.args| - th.i + 29
    case Unlock => TABLE_SIZE - th.i + 2
    case GlobalUnlock => 1
    case GlobalWrite => 29
    case Print => TABLE_SIZE - th.i + 2
    case BackupLock => 62
    case Throttle => 61
    case Reap => 60
    case Decrement => 59
    case LockAll => TABLE_SIZE - th.i + 32
    case Count => 29
    case UnlockAll => TABLE_SIZE - th.i + 2
    case BackupUnlock => 1
    case _ => 0
  }

  function ThreadCost(cfg: Config, th: Thread): (r: nat)
    requires ThreadOk(cfg, th)
  {
    match th.pc
    case Done => 0
    case Leave => 1
    case Claim => 2
    case Fetch => 3
    case Release => 5 + CommandsCost(cfg.jobs[th.job], th.cmd)
    case Top => 4 + CommandsCost(cfg.jobs[th.job], th.cmd)
    case _ => 4 + WithinCommand(th) + CommandsCost(cfg.jobs[th.job], th.cmd + 1)
  }

  /** The jobs nobody has claimed. */
  function JobsCost(cfg: Config, j: nat): nat
    decreases |cfg.jobs| - j
  {
    if j >= |cfg.jobs| then 0 else 4 + CommandsCost(cfg.jobs[j], 0) + JobsCost(cfg, j + 1)
  }

  function ChildCost(child: Child): nat {
    match child.status
    case Running => 2
    case Exited => 1
    case Reaped => 0
  }

  function ChildrenCost(children: seq<Child>): nat {
    if children == [] then 0
    else ChildrenCost(children[..|children| - 1]) + ChildCost(children[|children| - 1])
  }

  function MainCost(main: MainPc): nat {
    match main
    case Joining => 2
    case Reaping => 1
    case Finished => 0
  }

  function ThreadsCost(cfg: Config, threads: seq<Thread>): nat
    requires forall t :: 0 <= t < |threads| ==> ThreadOk(cfg, threads[t])
  {
    if threads == [] then 0
    else ThreadsCost(cfg, threads[..|threads| - 1]) + ThreadCost(cfg, threads[|threads| - 1])
  }

  function Steps(cfg: Config, s: State): nat
    requires Shape(cfg, s)
  {
    ThreadsCost(cfg, s.threads) + JobsCost(cfg, s.nextJob)
    + ChildrenCost(s.children) + MainCost(s.main)
  }

  // The nodes SHOW still prints from its current bucket.

  function NodeCost(th: Thread, t: Table): nat {
    if th.pc == Print && th.i < TABLE_SIZE && th.n < |t[th.i]| then |t[th.i]| - th.n else 0
  }

  function Nodes(threads: seq<Thread>, t: Table): nat {
    if threads == [] then 0 else Nodes(threads[..|threads| - 1], t) + NodeCost(threads[|threads| - 1], t)
  }

  // Sums.

  lemma {:induction false} ThreadsCostUpdate(cfg: Config, threads: seq<Thread>, t: nat, th: Thread)
    requires t < |threads| && ThreadOk(cfg, th)
    requires forall u :: 0 <= u < |threads| ==> ThreadOk(cfg, threads[u])
    ensures ThreadsCost(cfg, threads[t := th]) ==
              ThreadsCost(cfg, threads) - ThreadCost(cfg, threads[t]) + ThreadCost(cfg, th)
  {
    var init := threads[..|threads| - 1];
    if t < |init| {
      ThreadsCostUpdate(cfg, init, t, th);
      assert threads[t := th][..|threads| - 1] == init[t := th];
    } else {
      assert threads[t := th][..|threads| - 1] == init;
    }
  }

  lemma {:induction false} NodesUpdate(threads: seq<Thread>, t: nat, th: Thread, table: Table)
    requires t < |threads|
    ensures Nodes(threads[t := th], table) == Nodes(threads, table) - NodeCost(threads[t], table) + NodeCost(th, table)
  {
    var init := threads[..|threads| - 1];
    if t < |init| {
      NodesUpdate(init, t, th, table);
      assert threads[t := th][..|threads| - 1] == init[t := th];
    } else {
      assert threads[t := th][..|threads| - 1] == init;
    }
  }

  lemma {:induction false} ChildrenCostUpdate(children: seq<Child>, k: nat, child: Child)
    requires k < |children|
    ensures ChildrenCost(children[k := child]) == ChildrenCost(children) - ChildCost(children[k]) + ChildCost(child)
  {
    var init := children[..|children| - 1];
    if k < |init| {
      ChildrenCostUpdate(init, k, child);
      assert children[k := child][..|children| - 1] == init[k := child];
    } else {
      assert children[k := child][..|children| - 1] == init;
    }
  }

  lemma ChildrenCostPush(children: seq<Child>, child: Child)
    ensures ChildrenCost(children + [child]) == ChildrenCost(children) + ChildCost(child)
  {
    assert (children + [child])[..|children|] == children;
  }

  // One step.

  /** The step prints one node and nothing else. */
  predicate PrintsNode(s: State, th: Thread) {
    th.pc == Print && th.i < TABLE_SIZE && th.n < |s.table[th.i]|
  }

  /** What a step of `th` costs the thread, the unclaimed jobs and the children, all told. */
  ghost predicate CostDrops(cfg: Config, s: State, th: Thread, th': Thread)
    requires ThreadOk(cfg, th) && ThreadOk(cfg, th')
  {
    ThreadCost(cfg, th') + JobsCost(cfg, NextJobAfter(cfg, s, th)) + (if Forks(th) then 2 else 0)
      + (if PrintsNode(s, th) then 0 else 1)
    <= ThreadCost(cfg, th) + JobsCost(cfg, s.nextJob)
  }

  lemma OutsideCost(cfg: Config, s: State, th: Thread, k: nat)
    requires ThreadOk(cfg, th) && ThreadOk(cfg, Advance(cfg, s, th, k))
    requires th.pc in {Fetch, Claim, Release, Leave, Top}
    ensures CostDrops(cfg, s, th, Advance(cfg, s, th, k))
  {
  }

  lemma LockCost(cfg: Config, s: State, th: Thread, k: nat)
    requires ThreadOk(cfg, th) && ThreadOk(cfg, Advance(cfg, s, th, k)) && th.pc == Lock
    ensures CostDrops(cfg, s, th, Advance(cfg, s, th, k))
  {
    hide Buckets, Args, ValidPairs, CommandsCost, JobsCost;
  }

  lemma ApplyCost(cfg: Config, s: State, th: Thread, k: nat)
    requires ThreadOk(cfg, th) && ThreadOk(cfg, Advance(cfg, s, th, k)) && th.pc == Apply
    ensures CostDrops(cfg, s, th, Advance(cfg, s, th, k))
  {
    hide Buckets, Fails, Args, ValidPairs, CommandsCost, JobsCost;
  }

  lemma UnlockCost(cfg: Config, s: State, th: Thread, k: nat)
    requires ThreadOk(cfg, th) && ThreadOk(cfg, Advance(cfg, s, th, k))
    requires th.pc in {GlobalRead, Unlock, GlobalUnlock}
    ensures CostDrops(cfg, s, th, Advance(cfg, s, th, k))
  {
    hide Buckets, Args, ValidPairs;
  }

  lemma ShowCost(cfg: Config, s: State, th: Thread, k: nat)
    requires ThreadOk(cfg, th) && ThreadOk(cfg, Advance(cfg, s, th, k))
    requires th.pc in {GlobalWrite, Print}
    ensures CostDrops(cfg, s, th, Advance(cfg, s, th, k))
  {
    hide Buckets, Args, ValidPairs;
  }

  lemma ThrottleCost(cfg: Config, s: State, th: Thread, k: nat)
    requires ThreadOk(cfg, th) && ThreadOk(cfg, Advance(cfg, s, th, k))
    requires th.pc in {BackupLock, Throttle, Reap, Decrement}
    ensures CostDrops(cfg, s, th, Advance(cfg, s, th, k))
  {
    hide Buckets, Args, ValidPairs;
  }

  lemma LockAllCost(cfg: Config, s: State, th: Thread, k: nat)
    requires ThreadOk(cfg, th) && ThreadOk(cfg, Advance(cfg, s, th, k))
    requires th.pc == LockAll
    ensures CostDrops(cfg, s, th, Advance(cfg, s, th, k))
  {
    hide Buckets, Args, ValidPairs;
  }

  lemma AfterForkCost(cfg: Config, s: State, th: Thread, k: nat)
    requires ThreadOk(cfg, th) && ThreadOk(cfg, Advance(cfg, s, th, k))
    requires th.pc in {Count, UnlockAll, BackupUnlock}
    ensures CostDrops(cfg, s, th, Advance(cfg, s, th, k))
  {
  }

  lemma ThreadCostDrops(cfg: Config, s: State, th: Thread, k: nat)
    requires ThreadOk(cfg, th) && ThreadOk(cfg, Advance(cfg, s, th, k)) && th.pc != Done
    ensures CostDrops(cfg, s, th, Advance(cfg, s, th, k))
  {
    hide CostDrops, Advance;
    if th.pc in {Fetch, Claim, Release, Leave, Top} {
      OutsideCost(cfg, s, th, k);
    } else if th.pc in {BackupLock, Throttle, Reap, Decrement} {
      ThrottleCost(cfg, s, th, k);
    } else if th.pc == LockAll {
      LockAllCost(cfg, s, th, k);
    } else if th.pc in {Count, UnlockAll, BackupUnlock} {
      AfterForkCost(cfg, s, th, k);
    } else if th.pc == Lock {
      LockCost(cfg, s, th, k);
    } else if th.pc == Apply {
      ApplyCost(cfg, s, th, k);
    } else if th.pc in {GlobalWrite, Print} {
      ShowCost(cfg, s, th, k);
    } else {
      UnlockCost(cfg, s, th, k);
    }
  }

  /** Forking adds a child, collecting one takes it away. */
  lemma ChildrenAfterCost(s: State, th: Thread, k: nat)
    ensures ChildrenCost(ChildrenAfter(s, th, k)) <= ChildrenCost(s.children) + if Forks(th) then 2 else 0
  {
    if Forks(th) {
      ChildrenCostPush(s.children, Child(th.job, th.backups + 1, s.table, Running));
    } else if th.pc == Reap && ExitedChild(s, k) {
      ChildrenCostUpdate(s.children, k, s.children[k].(status := Reaped));
    }
  }

  /** Fewer steps, or as many and fewer nodes. */
  ghost predicate Shorter(cfg: Config, s': State, s: State)
    requires Shape(cfg, s) && Shape(cfg, s')
  {
    Steps(cfg, s') < Steps(cfg, s) || (Steps(cfg, s') == Steps(cfg, s) &&
      Nodes(s'.threads, s'.table) < Nodes(s.threads, s.table))
  }

  lemma ThreadShortens(cfg: Config, s: State, t: nat, k: nat)
    requires ValidConfig(cfg) && Shape(cfg, s) && Enabled(cfg, s, ThreadStep(t, k))
    ensures Shape(cfg, Do(cfg, s, ThreadStep(t, k))) && Shorter(cfg, Do(cfg, s, ThreadStep(t, k)), s)
  {
    var th := s.threads[t];
    DoKeepsShape(cfg, s, ThreadStep(t, k));
    AdvanceKeepsOk(cfg, s, th, k);
    ThreadCostDrops(cfg, s, th, k);
    ChildrenAfterCost(s, th, k);
    ThreadsCostUpdate(cfg, s.threads, t, Advance(cfg, s, th, k));
    if PrintsNode(s, th) {
      NodesUpdate(s.threads, t, Advance(cfg, s, th, k), s.table);
    }
  }

  lemma OtherShortens(cfg: Config, s: State, a: Action)
    requires ValidConfig(cfg) && Shape(cfg, s) && BackupsOk(cfg, s) && Enabled(cfg, s, a) && !a.ThreadStep?
    ensures Shape(cfg, Do(cfg, s, a)) && Shorter(cfg, Do(cfg, s, a), s)
  {
    match a {
      case ChildExit(k) => ChildrenCostUpdate(s.children, k, s.children[k].(status := Exited));
      case MainStep(k) =>
        UnreapedZero(s.children);
        if s.main == Reaping && s.active > 0 {
          ChildrenCostUpdate(s.children, k, s.children[k].(status := Reaped));
        }
    }
  }

  /** No run goes on for ever: every step taken makes the rest shorter, in a well-founded order. */
  lemma EveryStepShortens(cfg: Config, schedule: seq<Action>, a: Action)
    requires ValidConfig(cfg) && Enabled(cfg, After(cfg, schedule), a)
    ensures var s := After(cfg, schedule); Shape(cfg, Do(cfg, s, a)) && Shorter(cfg, Do(cfg, s, a), s)
  {
    BackupsAlwaysOk(cfg, schedule);
    if a.ThreadStep? {
      ThreadShortens(cfg, After(cfg, schedule), a.t, a.child);
    } else {
      OtherShortens(cfg, After(cfg, schedule), a);
    }
  }

  predicate FinishedAfter(cfg: Config, schedule: seq<Action>)
    requires ValidConfig(cfg)
  {
    After(cfg, schedule).main == Finished
  }

  function StepsAfter(cfg: Config, schedule: seq<Action>): nat
    requires ValidConfig(cfg)
  {
    Steps(cfg, After(cfg, schedule))
  }

  function NodesAfter(cfg: Config, schedule: seq<Action>): nat
    requires ValidConfig(cfg)
  {
    Nodes(After(cfg, schedule).threads, After(cfg, schedule).table)
  }

  lemma NextIsShorter(cfg: Config, schedule: seq<Action>) returns (a: Action)
    requires ValidConfig(cfg) && Ordered(cfg) && !FinishedAfter(cfg, schedule)
    ensures StepsAfter(cfg, schedule + [a]) < StepsAfter(cfg, schedule)
         || (StepsAfter(cfg, schedule + [a]) == StepsAfter(cfg, schedule)
             && NodesAfter(cfg, schedule + [a]) < NodesAfter(cfg, schedule))
  {
    a := NoDeadlock(cfg, schedule);
    EveryStepShortens(cfg, schedule, a);
    AfterOneMore(cfg, schedule, a);
  }

  /** From every reachable state the run can be brought to its end. */
  lemma {:induction false} CanFinish(cfg: Config, schedule: seq<Action>) returns (rest: seq<Action>)
    requires ValidConfig(cfg) && Ordered(cfg)
    ensures FinishedAfter(cfg, schedule + rest)
    decreases StepsAfter(cfg, schedule), NodesAfter(cfg, schedule)
  {
    if FinishedAfter(cfg, schedule) {
      rest := [];
      Regroup(schedule, [], []);
    } else {
      var a := NextIsShorter(cfg, schedule);
      var later := CanFinish(cfg, schedule + [a]);
      rest := [a] + later;
      Regroup(schedule, [a], later);
    }
  }

  // One thread at a time.

  /** At most one thread is between taking its job and being done. */
  ghost predicate OneBusy(s: State) {
    forall t, u :: 0 <= t < u < |s.threads| ==> Idle(s.threads[t]) || Idle(s.threads[u])
  }

  predicate Idle(th: Thread) {
    th.pc in {Fetch, Done}
  }

  /** With the others idle, every lock a thread asks for is free. */
  lemma AloneIsFree(cfg: Config, s: State, t: nat)
    requires Shape(cfg, s) && LocksMatch(s) && t < |s.threads| && Wants(s.threads[t]).Some?
    requires forall u :: 0 <= u < |s.threads| && u != t ==> Idle(s.threads[u])
    ensures Wants(s.threads[t]).value.0 < LOCKS && s.locks[Wants(s.threads[t]).value.0] == RwLock({}, None)
  {
    LockBalance(cfg, s.threads[t]);
    var l := Wants(s.threads[t]).value.0;
    if s.locks[l] != RwLock({}, None) {
      SomeHolder(s, l);
      var u :| HoldsAs(s, u, l, Shared) || HoldsAs(s, u, l, Exclusive);
      if u != t {
        IdleHoldsNothing(s.threads[u], l);
      }
    }
  }

  lemma OneBusyStep(cfg: Config, s: State, t: nat, k: nat)
    requires ValidConfig(cfg) && Shape(cfg, s) && Enabled(cfg, s, ThreadStep(t, k))
    requires forall u :: 0 <= u < |s.threads| && u != t ==> Idle(s.threads[u])
    ensures OneBusy(Do(cfg, s, ThreadStep(t, k)))
  {
  }

  lemma AloneMoves(cfg: Config, s: State, t: nat) returns (a: Action)
    requires ValidConfig(cfg) && Shape(cfg, s) && LocksMatch(s) && OneBusy(s) && t < |s.threads|
    requires s.threads[t].pc != Done
    requires forall u :: 0 <= u < |s.threads| && u != t ==> Idle(s.threads[u])
    ensures Enabled(cfg, s, a) && OneBusy(Do(cfg, s, a))
  {
    var k := WaitMoves(s);
    if Wants(s.threads[t]).Some? {
      AloneIsFree(cfg, s, t);
    }
    if s.threads[t].pc == Reap && !ExitedChild(s, k) && !NoChildren(s) {
      a := ChildExit(k);
    } else {
      a := ThreadStep(t, k);
      OneBusyStep(cfg, s, t, k);
    }
  }

  lemma OneBusyMoves(cfg: Config, s: State) returns (a: Action)
    requires ValidConfig(cfg) && Shape(cfg, s) && LocksMatch(s) && BackupsOk(cfg, s) && OneBusy(s)
    requires s.main != Finished
    ensures Enabled(cfg, s, a) && OneBusy(Do(cfg, s, a))
  {
    if t :| 0 <= t < |s.threads| && !Idle(s.threads[t]) {
      a := AloneMoves(cfg, s, t);
    } else if t :| 0 <= t < |s.threads| && s.threads[t].pc == Fetch {
      a := AloneMoves(cfg, s, t);
    } else {
      a := MainMoves(cfg, s);
      assert !a.ThreadStep?;
    }
  }

  /** While at most one thread is busy the run can go on like that to its end, in whatever order keys are locked. */
  lemma {:induction false} CanFinishAlone(cfg: Config, schedule: seq<Action>) returns (rest: seq<Action>)
    requires ValidConfig(cfg) && OneBusy(After(cfg, schedule))
    ensures FinishedAfter(cfg, schedule + rest)
    decreases StepsAfter(cfg, schedule), NodesAfter(cfg, schedule)
  {
    if FinishedAfter(cfg, schedule) {
      rest := [];
      Regroup(schedule, [], []);
    } else {
      LocksAlwaysMatch(cfg, schedule);
      BackupsAlwaysOk(cfg, schedule);
      var a := OneBusyMoves(cfg, After(cfg, schedule));
      EveryStepShortens(cfg, schedule, a);
      AfterOneMore(cfg, schedule, a);
      var later := CanFinishAlone(cfg, schedule + [a]);
      rest := [a] + later;
      Regroup(schedule, [a], later);
    }
  }

  /** A deadlock is never forced: every program has a run that ends. */
  lemma SomeRunFinishes(cfg: Config) returns (schedule: seq<Action>)
    requires ValidConfig(cfg)
    ensures FinishedAfter(cfg, schedule)
  {
    schedule := CanFinishAlone(cfg, []);
    assert [] + schedule == schedule;
  }

  lemma Regroup<T>(a: seq<T>, b: seq<T>, c: seq<T>)
    ensures a + (b + c) == a + b + c && a + [] == a
  {
  }
}
