/** The backup limit of the command line is respected exactly when it is at least one. */
module Throttling {
  import opened Store
  import opened Commands
  import opened Protocol
  import opened Locking
  import opened Backups
  import opened Deadlock
  import Termination

  /** One thread, one job: a single BACKUP. */
  function OneBackup(m: int): Config {
    Config(["1.job"], [[Backup]], ".", 1, m)
  }

  ghost predicate Solo(cfg: Config, schedule: seq<Action>, th: Thread)
    requires ValidConfig(cfg)
  {
    var s := After(cfg, schedule);
    s.threads == [th] && s.active == 0 && (th.pc != Count ==> s.children == [])
  }

  /** Alone, a thread always gets its lock. */
  lemma SoloStep(cfg: Config, schedule: seq<Action>, th: Thread, th': Thread) returns (longer: seq<Action>)
    requires ValidConfig(cfg) && cfg.threads == 1 && cfg.maxBackups == 0 && Solo(cfg, schedule, th)
    requires th.pc in {Top, BackupLock, Throttle, Reap, LockAll}
    requires ThreadOk(cfg, th) && th' == Advance(cfg, Init(cfg), th, 0)
    ensures Solo(cfg, longer, th')
  {
    var s := After(cfg, schedule);
    longer := schedule + [ThreadStep(0, 0)];
    LocksAlwaysMatch(cfg, schedule);
    AfterOneMore(cfg, schedule, ThreadStep(0, 0));
    SoloMoves(cfg, s, th);
    hide After, Do, Advance, Enabled, LocksMatch, ThreadOk;
  }

  lemma SoloMoves(cfg: Config, s: State, th: Thread)
    requires ValidConfig(cfg) && cfg.maxBackups == 0 && Shape(cfg, s) && LocksMatch(s) && ThreadOk(cfg, th)
    requires s.threads == [th] && s.active == 0 && s.children == []
    requires th.pc in {Top, BackupLock, Throttle, Reap, LockAll}
    ensures Enabled(cfg, s, ThreadStep(0, 0))
    ensures var s', th' := Do(cfg, s, ThreadStep(0, 0)), Advance(cfg, Init(cfg), th, 0);
            s'.threads == [th'] && s'.active == 0 && (th'.pc != Count ==> s'.children == [])
  {
    LockBalance(cfg, th);
    if Wants(th).Some? {
      FreeIsGranted(s, Wants(th).value.0, Wants(th).value.1);
    }
    hide LocksMatch, Holds;
  }

  function InBackupAt(pc: Pc, i: nat): Thread {
    Claimed(0, pc).(command := Backup, i := i)
  }

  /** It claims the job and comes to the BACKUP. */
  lemma ReachesTop(cfg: Config) returns (schedule: seq<Action>)
    requires cfg == OneBackup(0)
    ensures Solo(cfg, schedule, Claimed(0, Top))
  {
    assert [IDLE][0 := IDLE] == [IDLE];
    schedule := Claims(cfg, [], [IDLE], 0, 0);
    assert [IDLE][0 := Claimed(0, Top)] == [Claimed(0, Top)];
    BackupsAlwaysOk(cfg, schedule);
  }

  lemma LocksOne(cfg: Config, i: nat)
    requires cfg == OneBackup(0) && i < TABLE_SIZE
    ensures ValidConfig(cfg) && cfg.threads == 1 && cfg.maxBackups == 0
    ensures var th := InBackupAt(LockAll, i);
            th.pc == LockAll && ThreadOk(cfg, th) && Advance(cfg, Init(cfg), th, 0) == InBackupAt(LockAll, i + 1)
  {
  }

  lemma {:induction false} LocksAll(cfg: Config, schedule: seq<Action>, i: nat) returns (longer: seq<Action>)
    requires cfg == OneBackup(0) && i <= TABLE_SIZE && Solo(cfg, schedule, InBackupAt(LockAll, i))
    ensures Solo(cfg, longer, InBackupAt(LockAll, TABLE_SIZE))
    decreases TABLE_SIZE - i
  {
    hide Solo;
    longer := schedule;
    if i < TABLE_SIZE {
      LocksOne(cfg, i);
      hide Advance, ThreadOk, InBackupAt, OneBackup, ValidConfig;
      longer := SoloStep(cfg, schedule, InBackupAt(LockAll, i), InBackupAt(LockAll, i + 1));
      longer := LocksAll(cfg, longer, i + 1);
    }
  }

  /** With a limit of zero it comes to wait, and there is nothing to wait for. */
  lemma WaitsForNothing(cfg: Config) returns (schedule: seq<Action>)
    requires cfg == OneBackup(0)
    ensures Solo(cfg, schedule, InBackupAt(LockAll, 0))
  {
    hide Solo;
    schedule := ReachesTop(cfg);
    schedule := SoloStep(cfg, schedule, Claimed(0, Top), InBackupAt(BackupLock, 0));
    schedule := SoloStep(cfg, schedule, InBackupAt(BackupLock, 0), InBackupAt(Throttle, 0));
    schedule := SoloStep(cfg, schedule, InBackupAt(Throttle, 0), InBackupAt(Reap, 0));
    schedule := SoloStep(cfg, schedule, InBackupAt(Reap, 0), InBackupAt(LockAll, 0));
  }

  /** So the child is made anyway. */
  lemma ForksAnyway(cfg: Config) returns (schedule: seq<Action>)
    requires cfg == OneBackup(0)
    ensures Solo(cfg, schedule, InBackupAt(Count, TABLE_SIZE).(backups := 1))
  {
    hide Solo;
    schedule := WaitsForNothing(cfg);
    schedule := LocksAll(cfg, schedule, 0);
    schedule := SoloStep(cfg, schedule, InBackupAt(LockAll, TABLE_SIZE), InBackupAt(Count, TABLE_SIZE).(backups := 1));
  }

  lemma ZeroIsExceeded() returns (schedule: seq<Action>)
    ensures After(OneBackup(0), schedule).active == 1
  {
    var cfg := OneBackup(0);
    schedule := ForksAnyway(cfg);
    AfterOneMore(cfg, schedule, ThreadStep(0, 0));
    schedule := schedule + [ThreadStep(0, 0)];
  }

  /** No run of any program with this limit has more backups than it. */
  ghost predicate Respected(m: int) {
    forall cfg, schedule :: ValidConfig(cfg) && cfg.maxBackups == m ==> After(cfg, schedule).active <= m
  }

  lemma LimitIsExact(m: int)
    ensures Respected(m) <==> m >= 1
  {
    if m >= 1 {
      forall cfg, schedule | ValidConfig(cfg) && cfg.maxBackups == m ensures After(cfg, schedule).active <= m {
        Throttled(cfg, schedule);
      }
    } else if m == 0 {
      var schedule := ZeroIsExceeded();
      assert ValidConfig(OneBackup(0));
    } else {
      assert ValidConfig(OneBackup(m)) && After(OneBackup(m), []).active == 0;
    }
  }

  // The limit is reached.

  /** One thread, one job: as many BACKUPs as the limit allows. */
  function Fill(m: nat): Config {
    Config(["1.job"], [seq(m, _ => Backup)], ".", 1, m)
  }

  /** The thread has made its backups so far, none has exited, and it has waited for none. */
  ghost predicate Filling(cfg: Config, m: nat, s: State) {
    && |s.threads| == 1 && s.nextJob <= 1
    && (forall k :: 0 <= k < |s.children| ==> s.children[k].status == Running)
    && FillingThread(s.threads[0], m, s.nextJob, s.active, |s.children|)
  }

  predicate FillingThread(th: Thread, m: nat, nextJob: nat, active: int, made: nat) {
    && (nextJob == 0 ==> th.pc in {Fetch, Claim} && made == 0)
    && (nextJob == 1 && !Active(th) ==> made == m)
    && (Active(th) ==>
          && nextJob == 1 && th.job == 0 && th.cmd <= m && th.pc !in {Reap, Decrement}
          && made == th.backups == th.cmd + if th.pc in {Count, UnlockAll, BackupUnlock} then 1 else 0)
    && active == made - if th.pc == Count then 1 else 0
  }

  lemma FillMoves(cfg: Config, m: nat, s: State)
    requires m >= 1 && cfg == Fill(m) && ValidConfig(cfg) && Shape(cfg, s) && LocksMatch(s) && Filling(cfg, m, s)
    requires s.threads[0].pc != Done
    ensures Enabled(cfg, s, ThreadStep(0, 0)) && Filling(cfg, m, Do(cfg, s, ThreadStep(0, 0)))
  {
    var th := s.threads[0];
    if Wants(th).Some? {
      Termination.AloneIsFree(cfg, s, 0);
    }
    FillAdvances(cfg, m, s);
    hide Advance, ThreadOk, FillingThread, LocksAfter, TableAfter, OutAfter;
  }

  lemma FillAdvances(cfg: Config, m: nat, s: State)
    requires m >= 1 && cfg == Fill(m) && Shape(cfg, s) && Filling(cfg, m, s) && s.threads[0].pc != Done
    ensures var th := s.threads[0];
            && th.pc !in {Reap, Decrement} && NextJobAfter(cfg, s, th) <= 1
            && FillingThread(Advance(cfg, s, th, 0), m, NextJobAfter(cfg, s, th), ActiveAfter(s, th),
                             |ChildrenAfter(s, th, 0)|)
  {
    var th := s.threads[0];
    assert ThreadOk(cfg, th);
    assert Active(th) && th.cmd < m ==> cfg.jobs[th.job][th.cmd] == Backup;
    hide Args, Buckets, ValidPairs;
  }

  lemma {:induction false} FillsUp(cfg: Config, m: nat, schedule: seq<Action>) returns (longer: seq<Action>)
    requires m >= 1 && cfg == Fill(m) && ValidConfig(cfg) && Filling(cfg, m, After(cfg, schedule))
    ensures Filling(cfg, m, After(cfg, longer)) && After(cfg, longer).threads[0].pc == Done
    decreases Termination.StepsAfter(cfg, schedule), Termination.NodesAfter(cfg, schedule)
  {
    if After(cfg, schedule).threads[0].pc == Done {
      longer := schedule;
    } else {
      LocksAlwaysMatch(cfg, schedule);
      FillMoves(cfg, m, After(cfg, schedule));
      Termination.EveryStepShortens(cfg, schedule, ThreadStep(0, 0));
      AfterOneMore(cfg, schedule, ThreadStep(0, 0));
      hide Do, Enabled, Filling, Fill;
      longer := FillsUp(cfg, m, schedule + [ThreadStep(0, 0)]);
    }
  }

  /** Every limit is reached: some run with this limit has as many backups alive at once. */
  lemma LimitIsReached(m: nat) returns (cfg: Config, schedule: seq<Action>)
    requires m >= 1
    ensures ValidConfig(cfg) && cfg.maxBackups == m
    ensures After(cfg, schedule).active == m == |After(cfg, schedule).children|
    ensures forall k :: 0 <= k < m ==> After(cfg, schedule).children[k].status == Running
  {
    cfg := Fill(m);
    schedule := FillsUp(cfg, m, []);
  }
}
