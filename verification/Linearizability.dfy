/**
 Every run of the threads is a serial run: each command takes effect, whole, at the step where the
 last of its locks is in hand.
 */
module Linearizability {
  import opened Store
  import opened Commands
  import opened Protocol
  import opened Locking
  import opened Serial
  import Listing
  import Text

  /** The command has passed the point where it holds all its locks. */
  predicate Past(th: Thread) {
    th.pc in {Apply, Unlock, GlobalUnlock, Print, Count, UnlockAll, BackupUnlock}
  }

  /** The thread's next step is the one at which its command takes effect. */
  predicate AtLockPoint(cfg: Config, th: Thread)
    requires ThreadOk(cfg, th)
  {
    match th.pc
    case Lock => th.i == |th.args|
    case GlobalWrite => true
    case LockAll => th.i == TABLE_SIZE
    case Top => th.cmd < |cfg.jobs[th.job]| && TakesNoLocks(cfg.jobs[th.job][th.cmd])
    case _ => false
  }

  /** The job whose command takes effect with this action, if any. */
  function LockPoint(cfg: Config, s: State, a: Action): Option<nat>
    requires Shape(cfg, s)
  {
    if a.ThreadStep? && Enabled(cfg, s, a) && AtLockPoint(cfg, s.threads[a.t]) then Some(s.threads[a.t].job) else None
  }

  predicate TakesNoLocks(c: Command) {
    !c.NamesKeys() && !c.Show? && !c.Backup?
  }

  /** The serial order of a schedule: its lock points. */
  function Order(cfg: Config, schedule: seq<Action>): seq<nat>
    requires ValidConfig(cfg)
  {
    if schedule == [] then []
    else
      var init, a := schedule[..|schedule| - 1], schedule[|schedule| - 1];
      var point := LockPoint(cfg, After(cfg, init), a);
      Order(cfg, init) + if point.Some? then [point.value] else []
  }

  // What is left to do for a command that is past its lock point.

  /** The command still has pairs to write or delete. */
  predicate Applying(th: Thread) {
    th.pc == Apply && th.command.Mutates()
  }

  function RestTable(th: Thread, t: Table): Table {
    if th.pc == Apply && ValidPairs(th.args) && th.i <= |th.args|
    then RunTable(th.command, th.args, th.i, t) else t
  }

  function RestText(th: Thread, t: Table): string {
    match th.pc
    case Apply =>
      if ValidPairs(th.args) && th.i <= |th.args| then RunText(th.command, th.args, th.i, t, th.hasError) else ""
    case Print => if th.i < TABLE_SIZE then RestLines(t, th.i, th.n) else ""
    case _ => ""
  }

  function RestLines(t: Table, b: nat, n: nat): string
    requires b < TABLE_SIZE
  {
    (if n <= |t[b]| then Listing.ChainLines(t[b][n..]) else "") + Listing.TableLines(t, b + 1)
  }

  // The relation between the threads and the serial machine.

  /** Each job stands where its thread stands. */
  ghost predicate SamePlace(cfg: Config, s: State, a: Serial) {
    && Fits(cfg, a) && s.nextJob <= |cfg.jobs|
    && (forall t :: 0 <= t < |s.threads| && Active(s.threads[t]) ==> AtPlace(s.nextJob, a, s.threads[t]))
    && (forall j :: s.nextJob <= j < |cfg.jobs| ==> a.pos[j] == 0 && ForkCount(a.forks, j) == 0)
    && (forall j :: 0 <= j < s.nextJob && Unattended(s, j) ==> a.pos[j] == |cfg.jobs[j]|)
    && (forall t, u :: 0 <= t < u < |s.threads| && Active(s.threads[t]) && Active(s.threads[u]) ==>
          s.threads[t].job != s.threads[u].job)
  }

  predicate AtPlace(nextJob: nat, a: Serial, th: Thread) {
    && th.job < nextJob <= |a.pos|
    && a.pos[th.job] == th.cmd + (if Past(th) then 1 else 0)
    && ForkCount(a.forks, th.job) == th.backups
  }

  ghost predicate Unattended(s: State, j: nat) {
    forall t :: 0 <= t < |s.threads| && Active(s.threads[t]) ==> s.threads[t].job != j
  }

  /** The serial output is the job's output plus what its thread has still to print. */
  ghost predicate SameText(s: State, a: Serial) {
    && |s.out| == |a.out|
    && (forall t :: 0 <= t < |s.threads| && Active(s.threads[t]) ==> OwnText(s.threads[t], s, a))
    && (forall j :: 0 <= j < |s.out| && Unattended(s, j) ==> a.out[j] == s.out[j])
  }

  ghost predicate OwnText(th: Thread, s: State, a: Serial) {
    th.job < |s.out| == |a.out| && a.out[th.job] == s.out[th.job] + RestText(th, s.table)
  }

  /** Bucket by bucket, the serial table is what the bucket's writer will leave, or the table itself. */
  ghost predicate SameTable(s: State, a: Serial) {
    && (forall t :: 0 <= t < |s.threads| ==> OwnBuckets(s.threads[t], s.table, a))
    && (forall b :: 0 <= b < TABLE_SIZE && Settled(s, b) ==> a.table[b] == s.table[b])
  }

  ghost predicate OwnBuckets(th: Thread, t: Table, a: Serial) {
    Applying(th) ==> forall b :: 0 <= b < TABLE_SIZE && b in th.hashed ==> a.table[b] == RestTable(th, t)[b]
  }

  /** No thread is applying pairs to bucket `b`. */
  ghost predicate Settled(s: State, b: nat) {
    forall t :: 0 <= t < |s.threads| && Applying(s.threads[t]) ==> b !in s.threads[t].hashed
  }

  ghost predicate SameForks(s: State, a: Serial) {
    && |s.children| == |a.forks|
    && forall k :: 0 <= k < |a.forks| ==>
         var child := s.children[k];
         a.forks[k] == Fork(child.job, child.number, child.copy)
  }

  ghost predicate Related(cfg: Config, s: State, a: Serial) {
    SamePlace(cfg, s, a) && SameText(s, a) && SameTable(s, a) && SameForks(s, a)
  }

  // A command works on its buckets only.

  lemma {:induction false} RunIsLocal(c: Command, args: seq<Pair>, i: nat, t: Table, u: Table, b: nat)
    requires ValidPairs(args) && i <= |args| && b < TABLE_SIZE && t[b] == u[b]
    ensures RunTable(c, args, i, t)[b] == RunTable(c, args, i, u)[b]
    ensures b !in Buckets(args, |args|) ==> RunTable(c, args, i, t)[b] == t[b]
    decreases |args| - i
  {
    if i < |args| {
      assert Hash(args[i].key) in Buckets(args, |args|);
      RunIsLocal(c, args, i + 1, StepTable(c, args[i], t), StepTable(c, args[i], u), b);
    }
  }

  lemma StepIsLocal(c: Command, p: Pair, t: Table, u: Table, hasError: bool)
    requires ValidKey(p.key) && t[Hash(p.key)] == u[Hash(p.key)]
    ensures StepText(c, p, t, hasError) == StepText(c, p, u, hasError) && Fails(c, p, t) == Fails(c, p, u)
    ensures forall b :: 0 <= b < TABLE_SIZE && t[b] == u[b] ==> StepTable(c, p, t)[b] == StepTable(c, p, u)[b]
  {
  }

  lemma RunTextStep(c: Command, args: seq<Pair>, i: nat, t: Table, hasError: bool)
    requires ValidPairs(args) && i <= |args|
    ensures RunText(c, args, i, t, hasError) ==
            if i == |args| then Closing(c, hasError)
            else StepText(c, args[i], t, hasError)
                 + RunText(c, args, i + 1, StepTable(c, args[i], t), hasError || Fails(c, args[i], t))
  {
  }

  lemma {:induction false} RunTextIsLocal(c: Command, args: seq<Pair>, i: nat, t: Table, u: Table, hasError: bool)
    requires ValidPairs(args) && i <= |args|
    requires forall b :: b in Buckets(args, |args|) ==> t[b] == u[b]
    ensures RunText(c, args, i, t, hasError) == RunText(c, args, i, u, hasError)
    decreases |args| - i
  {
    hide RunText;
    RunTextStep(c, args, i, t, hasError);
    RunTextStep(c, args, i, u, hasError);
    if i < |args| {
      assert Hash(args[i].key) in Buckets(args, |args|);
      hide StepTable, StepText, Fails;
      StepIsLocal(c, args[i], t, u, hasError);
      RunTextIsLocal(c, args, i + 1, StepTable(c, args[i], t), StepTable(c, args[i], u),
        hasError || Fails(c, args[i], t));
    }
  }

  lemma {:induction false} RunReadKeeps(c: Command, args: seq<Pair>, i: nat, t: Table)
    requires !c.Mutates() && ValidPairs(args) && i <= |args|
    ensures RunTable(c, args, i, t) == t
    decreases |args| - i
  {
    if i < |args| {
      RunReadKeeps(c, args, i + 1, t);
    }
  }

  // What the locks say about the other threads.

  /** A thread that holds a bucket, but is not applying pairs, keeps everyone from applying pairs to it. */
  lemma HolderSettles(cfg: Config, s: State, t: nat, b: nat)
    requires Shape(cfg, s) && LocksMatch(s) && t < |s.threads| && b < TABLE_SIZE
    requires Holds(s.threads[t], BUCKETS + b) != Free && !Applying(s.threads[t])
    ensures Settled(s, b)
  {
    hide LocksMatch, ThreadOk;
    forall u | 0 <= u < |s.threads| && Applying(s.threads[u]) ensures b !in s.threads[u].hashed {
      if b in s.threads[u].hashed {
        Exclusion(s, u, t, BUCKETS + b);
      }
    }
  }

  /** When the global lock can be had for writing, nobody is applying pairs. */
  lemma GlobalSettles(cfg: Config, s: State)
    requires Shape(cfg, s) && LocksMatch(s) && Grants(s.locks[GLOBAL], Exclusive)
    ensures forall u :: 0 <= u < |s.threads| ==> !Applying(s.threads[u])
  {
    forall u | 0 <= u < |s.threads| ensures !Applying(s.threads[u]) {
      assert u in s.locks[GLOBAL].readers <==> HoldsAs(s, u, GLOBAL, Shared);
    }
  }

  /** From tables `t` and `u`, the thread will print the same and leave its buckets the same. */
  ghost predicate SameRest(th: Thread, t: Table, u: Table) {
    && RestText(th, t) == RestText(th, u)
    && (Applying(th) ==> forall b :: 0 <= b < TABLE_SIZE && b in th.hashed ==>
         RestTable(th, t)[b] == RestTable(th, u)[b])
  }

  /** What thread `th` has left to do does not depend on a bucket it does not hold. */
  lemma RestIgnoresBucket(cfg: Config, th: Thread, t: Table, u: Table, b0: nat)
    requires ThreadOk(cfg, th) && th.pc != Print && (th.pc == Apply ==> b0 !in th.hashed)
    requires forall b :: 0 <= b < TABLE_SIZE && b != b0 ==> t[b] == u[b]
    ensures SameRest(th, t, u)
  {
    if th.pc == Apply {
      RunTextIsLocal(th.command, th.args, th.i, t, u, th.hasError);
      forall b | 0 <= b < TABLE_SIZE && b in th.hashed ensures RestTable(th, t)[b] == RestTable(th, u)[b] {
        RunIsLocal(th.command, th.args, th.i, t, u, b);
      }
    }
  }

  lemma NotAffected(s: State, t: nat, u: nat, b: nat)
    requires LocksMatch(s) && t < |s.threads| && u < |s.threads| && t != u && b < TABLE_SIZE
    requires Holds(s.threads[t], BUCKETS + b) == Exclusive && Holds(s.threads[t], GLOBAL) == Shared
    ensures s.threads[u].pc != Print && (s.threads[u].pc == Apply ==> b !in s.threads[u].hashed)
  {
    Exclusion(s, t, u, BUCKETS + b);
    if s.threads[u].pc == Print {
      Exclusion(s, u, t, GLOBAL);
    }
  }

  lemma WritesOneBucket(s: State, th: Thread) returns (b0: nat)
    requires TableAfter(s, th) != s.table
    ensures Mutates(th, b0) && b0 < TABLE_SIZE
    ensures forall b :: 0 <= b < TABLE_SIZE && b != b0 ==> TableAfter(s, th)[b] == s.table[b]
  {
    hide WriteChain, DeleteChain;
    b0 := Hash(th.args[th.i].key);
  }

  lemma SameTableSameRest(th: Thread, t: Table)
    ensures SameRest(th, t, t)
  {
  }

  /** A step of thread `t` does not change what thread `u` has left to do. */
  lemma OthersRest(cfg: Config, s: State, t: nat, u: nat)
    requires ValidConfig(cfg) && Shape(cfg, s) && LocksMatch(s)
    requires t < |s.threads| && u < |s.threads| && t != u
    ensures SameRest(s.threads[u], TableAfter(s, s.threads[t]), s.table)
  {
    var th, other, t' := s.threads[t], s.threads[u], TableAfter(s, s.threads[t]);
    hide TableAfter, ThreadOk, LocksMatch, Holds, SameRest;
    if t' == s.table {
      SameTableSameRest(other, s.table);
    } else {
      var b0 := WritesOneBucket(s, th);
      MutatesHolds(cfg, th, b0);
      NotAffected(s, t, u, b0);
      RestIgnoresBucket(cfg, other, t', s.table, b0);
    }
  }

  // One step of a thread.

  /** The serial machine after the action: it moves at lock points. */
  function Follow(cfg: Config, s: State, a: Action, ser: Serial): Serial
    requires ValidConfig(cfg) && Shape(cfg, s) && Fits(cfg, ser)
  {
    var point := LockPoint(cfg, s, a);
    if point.Some? && HasNext(cfg, ser, point.value) then RunNext(cfg, ser, point.value) else ser
  }

  /** At a lock point the serial machine's next command is the thread's. */
  lemma LockPointCommand(cfg: Config, s: State, t: nat, k: nat, ser: Serial)
    requires ValidConfig(cfg) && Shape(cfg, s) && SamePlace(cfg, s, ser)
    requires LockPoint(cfg, s, ThreadStep(t, k)).Some?
    ensures var th := s.threads[t];
            && LockPoint(cfg, s, ThreadStep(t, k)) == Some(th.job) && Active(th) && !Past(th)
            && HasNext(cfg, ser, th.job) && NextCommand(cfg, ser, th.job) == cfg.jobs[th.job][th.cmd]
            && (th.pc != Top ==> th.command == cfg.jobs[th.job][th.cmd])
  {
    assert ThreadOk(cfg, s.threads[t]);
    assert AtPlace(s.nextJob, ser, s.threads[t]);
    hide SamePlace, Buckets, Args;
  }

  /** Where one step takes the thread within its job. */
  ghost predicate PlaceMoves(cfg: Config, th: Thread, th': Thread)
    requires ThreadOk(cfg, th)
  {
    Active(th) && Active(th') ==>
      && th'.job == th.job
      && th'.cmd + (if Past(th') then 1 else 0)
         == th.cmd + (if Past(th) then 1 else 0) + (if AtLockPoint(cfg, th) then 1 else 0)
      && th'.backups == th.backups + if Forks(th) then 1 else 0
  }

  lemma PlaceLocal(cfg: Config, s: State, th: Thread, k: nat)
    requires ThreadOk(cfg, th)
    ensures PlaceMoves(cfg, th, Advance(cfg, s, th, k))
  {
    hide Buckets, Args, ValidPairs, Fails;
    if th.pc in {BackupLock, Throttle, Reap, Decrement, LockAll, Count, UnlockAll, BackupUnlock} {
      PlaceLocalBackup(cfg, s, th, k);
    }
  }

  lemma PlaceLocalBackup(cfg: Config, s: State, th: Thread, k: nat)
    requires ThreadOk(cfg, th)
             && th.pc in {BackupLock, Throttle, Reap, Decrement, LockAll, Count, UnlockAll, BackupUnlock}
    ensures PlaceMoves(cfg, th, Advance(cfg, s, th, k))
  {
  }

  lemma ForkCountPush(forks: seq<Fork>, f: Fork, j: nat)
    ensures ForkCount(forks + [f], j) == ForkCount(forks, j) + if f.job == j then 1 else 0
  {
    assert (forks + [f])[..|forks|] == forks;
  }

  /** The serial machine moves with the thread: same job, same command, same number of backups. */
  lemma FollowMoves(cfg: Config, s: State, t: nat, k: nat, ser: Serial)
    requires ValidConfig(cfg) && Shape(cfg, s) && SamePlace(cfg, s, ser) && Enabled(cfg, s, ThreadStep(t, k))
    ensures var th, ser' := s.threads[t], Follow(cfg, s, ThreadStep(t, k), ser);
            && Fits(cfg, ser')
            && (forall j :: 0 <= j < |cfg.jobs| && !(Active(th) && j == th.job) ==>
                  ser'.pos[j] == ser.pos[j] && ForkCount(ser'.forks, j) == ForkCount(ser.forks, j))
            && (Active(th) ==>
                  && ser'.pos[th.job] == ser.pos[th.job] + (if AtLockPoint(cfg, th) then 1 else 0)
                  && ForkCount(ser'.forks, th.job) == ForkCount(ser.forks, th.job) + if Forks(th) then 1 else 0)
  {
    var th := s.threads[t];
    assert ThreadOk(cfg, th);
    hide Buckets, Args, ValidPairs, ExecText, ExecTable;
    if AtLockPoint(cfg, th) {
      LockPointCommand(cfg, s, t, k, ser);
      assert NextCommand(cfg, ser, th.job).Backup? <==> Forks(th);
      if Forks(th) {
        forall j ensures ForkCount(Follow(cfg, s, ThreadStep(t, k), ser).forks, j)
                      == ForkCount(ser.forks, j) + if j == th.job then 1 else 0
        {
          ForkCountPush(ser.forks, Fork(th.job, ForkCount(ser.forks, th.job) + 1, ser.table), j);
        }
      }
    }
  }

  /** Thread `t` moved: it stays with its job, finishes it, claims the next one, or has none. */
  lemma PlaceKeeps(cfg: Config, s: State, s': State, t: nat, ser: Serial, ser': Serial)
    requires SamePlace(cfg, s, ser) && Fits(cfg, ser')
    requires t < |s.threads| == |s'.threads| && s'.threads == s.threads[t := s'.threads[t]]
    requires forall j :: 0 <= j < |cfg.jobs| && !(Active(s.threads[t]) && j == s.threads[t].job) ==>
               ser'.pos[j] == ser.pos[j] && ForkCount(ser'.forks, j) == ForkCount(ser.forks, j)
    requires var th, th' := s.threads[t], s'.threads[t];
             if Active(th) then
               && s'.nextJob == s.nextJob
               && (if Active(th') then th'.job == th.job && AtPlace(s.nextJob, ser', th')
                   else ser'.pos[th.job] == |cfg.jobs[th.job]|)
             else if Active(th') then
               && s'.nextJob == s.nextJob + 1 <= |cfg.jobs| && th'.job == s.nextJob && AtPlace(s'.nextJob, ser', th')
             else s'.nextJob == s.nextJob
    ensures SamePlace(cfg, s', ser')
  {
    var th := s.threads[t];
    forall u | 0 <= u < |s'.threads| && Active(s'.threads[u]) ensures AtPlace(s'.nextJob, ser', s'.threads[u]) {
      if u != t {
        assert AtPlace(s.nextJob, ser, s.threads[u]);
        assert Active(th) ==> s.threads[u].job != th.job;
      }
    }
    forall j | 0 <= j < s'.nextJob && Unattended(s', j) ensures ser'.pos[j] == |cfg.jobs[j]| {
      if !(Active(th) && th.job == j) && j < s.nextJob {
        assert Unattended(s, j) by {
          forall u | 0 <= u < |s.threads| && Active(s.threads[u]) ensures s.threads[u].job != j {
            assert u != t ==> s'.threads[u] == s.threads[u];
          }
        }
      }
    }
  }

  /** A thread finishes its job at the end of the file, and gets a job only by claiming the next one. */
  lemma ActiveChange(cfg: Config, s: State, th: Thread, k: nat)
    requires ThreadOk(cfg, th)
    ensures var th' := Advance(cfg, s, th, k);
            && (Active(th) && !Active(th') ==> th.cmd == |cfg.jobs[th.job]| && !Past(th) && !AtLockPoint(cfg, th))
            && (!Active(th) && Active(th') ==>
                  s.nextJob < |cfg.jobs| && th'.job == s.nextJob && th'.cmd == 0 == th'.backups && !Past(th'))
            && NextJobAfter(cfg, s, th) == s.nextJob + if !Active(th) && Active(th') then 1 else 0
  {
  }

  lemma PlaceStep(cfg: Config, s: State, t: nat, k: nat, ser: Serial)
    requires ValidConfig(cfg) && Shape(cfg, s) && SamePlace(cfg, s, ser) && Enabled(cfg, s, ThreadStep(t, k))
    ensures SamePlace(cfg, Do(cfg, s, ThreadStep(t, k)), Follow(cfg, s, ThreadStep(t, k), ser))
  {
    var th, s' := s.threads[t], Do(cfg, s, ThreadStep(t, k));
    FollowMoves(cfg, s, t, k, ser);
    PlaceLocal(cfg, s, th, k);
    ActiveChange(cfg, s, th, k);
    assert Active(th) ==> AtPlace(s.nextJob, ser, th);
    PlaceKeeps(cfg, s, s', t, ser, Follow(cfg, s, ThreadStep(t, k), ser));
  }

  // The table.

  /** The serial table changes when a command that names keys has all its locks. */
  lemma FollowTable(cfg: Config, s: State, t: nat, k: nat, ser: Serial)
    requires ValidConfig(cfg) && Shape(cfg, s) && SamePlace(cfg, s, ser) && Enabled(cfg, s, ThreadStep(t, k))
    ensures var th, ser' := s.threads[t], Follow(cfg, s, ThreadStep(t, k), ser);
            ser'.table ==
              if th.pc == Lock && AtLockPoint(cfg, th) then RunTable(th.command, th.args, 0, ser.table) else ser.table
  {
    var th := s.threads[t];
    assert ThreadOk(cfg, th);
    if AtLockPoint(cfg, th) {
      LockPointCommand(cfg, s, t, k, ser);
    }
  }

  /** When a command has its locks, the serial table agrees with the table on its buckets. */
  lemma LockedBucketsAgree(cfg: Config, s: State, t: nat, ser: Serial)
    requires Shape(cfg, s) && LocksMatch(s) && SameTable(s, ser) && t < |s.threads|
    requires s.threads[t].pc == Lock && s.threads[t].i == |s.threads[t].args|
    ensures forall b :: b in Buckets(s.threads[t].args, |s.threads[t].args|) ==> ser.table[b] == s.table[b]
  {
    var th := s.threads[t];
    assert ThreadOk(cfg, th);
    forall b | b in Buckets(th.args, |th.args|) ensures ser.table[b] == s.table[b] {
      HolderSettles(cfg, s, t, b);
    }
  }

  lemma FromLockLocal(cfg: Config, s: State, th: Thread, k: nat)
    requires ThreadOk(cfg, th) && th.pc == Lock && Advance(cfg, s, th, k).pc == Apply
    ensures var th' := Advance(cfg, s, th, k);
            && th'.hashed == th.hashed && th'.command == th.command
            && AtLockPoint(cfg, th) && TableAfter(s, th) == s.table
            && forall t :: RestTable(th', t) == RunTable(th.command, th.args, 0, t)
  {
    hide RunTable, Buckets;
  }

  lemma FromApplyLocal(cfg: Config, s: State, th: Thread, k: nat)
    requires ThreadOk(cfg, th) && th.pc == Apply && Advance(cfg, s, th, k).pc == Apply
    ensures var th' := Advance(cfg, s, th, k);
            && th'.hashed == th.hashed && th'.command == th.command
            && RestTable(th', TableAfter(s, th)) == RestTable(th, s.table)
  {
    hide StepTable, Buckets;
  }

  /** A thread starts applying pairs at its lock point; each pair applied brings it closer to the same end. */
  lemma ApplyingLocal(cfg: Config, s: State, th: Thread, k: nat)
    requires ThreadOk(cfg, th) && Applying(Advance(cfg, s, th, k))
    ensures var th' := Advance(cfg, s, th, k);
            && th'.hashed == th.hashed
            && if th.pc == Lock then AtLockPoint(cfg, th) && TableAfter(s, th) == s.table
                 && forall t :: RestTable(th', t) == RunTable(th.command, th.args, 0, t)
               else Applying(th) && RestTable(th', TableAfter(s, th)) == RestTable(th, s.table)
  {
    hide RestTable, TableAfter, Buckets;
    if th.pc == Lock {
      FromLockLocal(cfg, s, th, k);
    } else {
      assert th.pc == Apply;
      FromApplyLocal(cfg, s, th, k);
    }
  }

  /** Once it has its locks, the thread is on its way to what the serial machine made of its buckets. */
  lemma OwnBucketsStep(cfg: Config, s: State, t: nat, k: nat, ser: Serial)
    requires ValidConfig(cfg) && Shape(cfg, s) && LocksMatch(s) && Enabled(cfg, s, ThreadStep(t, k))
    requires SamePlace(cfg, s, ser) && SameTable(s, ser)
    ensures OwnBuckets(Advance(cfg, s, s.threads[t], k), TableAfter(s, s.threads[t]),
              Follow(cfg, s, ThreadStep(t, k), ser))
  {
    var th := s.threads[t];
    FollowTable(cfg, s, t, k, ser);
    if Applying(Advance(cfg, s, th, k)) {
      ApplyingLocal(cfg, s, th, k);
      if th.pc == Lock {
        RunFromLock(cfg, s, t, ser);
      } else {
        assert OwnBuckets(th, s.table, ser);
      }
    }
  }

  lemma RunFromLock(cfg: Config, s: State, t: nat, ser: Serial)
    requires Shape(cfg, s) && LocksMatch(s) && SameTable(s, ser) && t < |s.threads|
    requires ThreadOk(cfg, s.threads[t]) && s.threads[t].pc == Lock && s.threads[t].i == |s.threads[t].args|
    ensures var th := s.threads[t];
            forall b :: 0 <= b < TABLE_SIZE && b in th.hashed ==>
              RunTable(th.command, th.args, 0, ser.table)[b] == RunTable(th.command, th.args, 0, s.table)[b]
  {
    var th := s.threads[t];
    LockedBucketsAgree(cfg, s, t, ser);
    forall b | 0 <= b < TABLE_SIZE && b in th.hashed
      ensures RunTable(th.command, th.args, 0, ser.table)[b] == RunTable(th.command, th.args, 0, s.table)[b]
    {
      RunIsLocal(th.command, th.args, 0, ser.table, s.table, b);
    }
  }

  /** A command at its lock point works on buckets that no other thread is writing. */
  lemma LockPointElsewhere(cfg: Config, s: State, t: nat, u: nat, table: Table)
    requires Shape(cfg, s) && LocksMatch(s) && t < |s.threads| && u < |s.threads| && u != t
    requires ThreadOk(cfg, s.threads[t]) && s.threads[t].pc == Lock && s.threads[t].i == |s.threads[t].args|
    requires Applying(s.threads[u])
    ensures var th := s.threads[t];
            forall b :: 0 <= b < TABLE_SIZE && b in s.threads[u].hashed ==>
              RunTable(th.command, th.args, 0, table)[b] == table[b]
  {
    hide LocksMatch, RunTable;
    var th := s.threads[t];
    forall b | 0 <= b < TABLE_SIZE && b in s.threads[u].hashed
      ensures RunTable(th.command, th.args, 0, table)[b] == table[b]
    {
      Exclusion(s, u, t, BUCKETS + b);
      OutsideItsBuckets(cfg, th, table, b);
    }
  }

  lemma OutsideItsBuckets(cfg: Config, th: Thread, table: Table, b: nat)
    requires ThreadOk(cfg, th) && th.pc == Lock && th.i == |th.args| && b < TABLE_SIZE && Holds(th, BUCKETS + b) == Free
    ensures RunTable(th.command, th.args, 0, table)[b] == table[b]
  {
    RunIsLocal(th.command, th.args, 0, table, table, b);
  }

  lemma OtherBucketsStep(cfg: Config, s: State, t: nat, k: nat, u: nat, ser: Serial)
    requires ValidConfig(cfg) && Shape(cfg, s) && LocksMatch(s) && Enabled(cfg, s, ThreadStep(t, k))
    requires SamePlace(cfg, s, ser) && SameTable(s, ser) && u < |s.threads| && u != t
    ensures OwnBuckets(s.threads[u], TableAfter(s, s.threads[t]), Follow(cfg, s, ThreadStep(t, k), ser))
  {
    var th, other := s.threads[t], s.threads[u];
    assert OwnBuckets(other, s.table, ser);
    FollowTable(cfg, s, t, k, ser);
    OthersRest(cfg, s, t, u);
    if Applying(other) && th.pc == Lock && AtLockPoint(cfg, th) {
      LockPointElsewhere(cfg, s, t, u, ser.table);
    }
  }

  /** A bucket the thread is not applying pairs to, before or after its step, is left alone by both machines. */
  lemma BucketUntouched(cfg: Config, s: State, t: nat, k: nat, b: nat, ser: Serial)
    requires ValidConfig(cfg) && Shape(cfg, s) && Enabled(cfg, s, ThreadStep(t, k)) && SamePlace(cfg, s, ser) &&
               b < TABLE_SIZE
    requires var th := s.threads[t]; !(Applying(th) && b in th.hashed)
    requires var th' := Advance(cfg, s, s.threads[t], k); !(Applying(th') && b in th'.hashed)
    ensures Follow(cfg, s, ThreadStep(t, k), ser).table[b] == ser.table[b]
    ensures TableAfter(s, s.threads[t])[b] == s.table[b]
  {
    var th := s.threads[t];
    assert ThreadOk(cfg, th);
    FollowTable(cfg, s, t, k, ser);
    hide SamePlace, Follow, StepText, Prints;
    if th.pc == Lock && AtLockPoint(cfg, th) {
      if th.command.Mutates() {
        RunIsLocal(th.command, th.args, 0, ser.table, ser.table, b);
      } else {
        RunReadKeeps(th.command, th.args, 0, ser.table);
      }
    } else if Applying(th) && th.i < |th.args| {
      assert Hash(th.args[th.i].key) in Buckets(th.args, |th.args|);
    }
  }

  lemma SettledStep(cfg: Config, s: State, t: nat, k: nat, b: nat, ser: Serial)
    requires ValidConfig(cfg) && Shape(cfg, s) && LocksMatch(s) && Enabled(cfg, s, ThreadStep(t, k))
    requires SamePlace(cfg, s, ser) && SameTable(s, ser) && b < TABLE_SIZE
    requires Settled(Do(cfg, s, ThreadStep(t, k)), b)
    ensures Follow(cfg, s, ThreadStep(t, k), ser).table[b] == TableAfter(s, s.threads[t])[b]
  {
    var th, s' := s.threads[t], Do(cfg, s, ThreadStep(t, k));
    DoThread(cfg, s, t, k);
    assert s'.threads[t] == Advance(cfg, s, th, k);
    if Applying(th) && b in th.hashed {
      LastPairApplied(cfg, s, t, k, b, ser);
    } else {
      hide Follow, TableAfter, Do, Advance, LocksMatch, SamePlace;
      forall u | 0 <= u < |s.threads| && Applying(s.threads[u]) ensures b !in s.threads[u].hashed {
        assert u != t ==> s'.threads[u] == s.threads[u];
      }
      assert Settled(s, b);
      BucketUntouched(cfg, s, t, k, b, ser);
    }
  }

  /** The thread has no pair left to apply: its buckets are what the serial machine made of them. */
  lemma LastPairApplied(cfg: Config, s: State, t: nat, k: nat, b: nat, ser: Serial)
    requires ValidConfig(cfg) && Shape(cfg, s) && Enabled(cfg, s, ThreadStep(t, k)) && SamePlace(cfg, s, ser) &&
               b < TABLE_SIZE
    requires OwnBuckets(s.threads[t], s.table, ser)
    requires var th := s.threads[t]; Applying(th) && b in th.hashed
    requires var th' := Advance(cfg, s, s.threads[t], k); !(Applying(th') && b in th'.hashed)
    ensures Follow(cfg, s, ThreadStep(t, k), ser).table[b] == TableAfter(s, s.threads[t])[b]
  {
    var th := s.threads[t];
    assert ThreadOk(cfg, th);
    FollowTable(cfg, s, t, k, ser);
    hide SamePlace, Follow, Buckets;
  }

  lemma TableStep(cfg: Config, s: State, t: nat, k: nat, ser: Serial)
    requires ValidConfig(cfg) && Shape(cfg, s) && LocksMatch(s) && Enabled(cfg, s, ThreadStep(t, k))
    requires SamePlace(cfg, s, ser) && SameTable(s, ser)
    ensures SameTable(Do(cfg, s, ThreadStep(t, k)), Follow(cfg, s, ThreadStep(t, k), ser))
  {
    var s', ser' := Do(cfg, s, ThreadStep(t, k)), Follow(cfg, s, ThreadStep(t, k), ser);
    forall u | 0 <= u < |s'.threads| ensures OwnBuckets(s'.threads[u], s'.table, ser') {
      if u == t {
        OwnBucketsStep(cfg, s, t, k, ser);
      } else {
        OtherBucketsStep(cfg, s, t, k, u, ser);
      }
    }
    forall b | 0 <= b < TABLE_SIZE && Settled(s', b) ensures ser'.table[b] == s'.table[b] {
      SettledStep(cfg, s, t, k, b, ser);
    }
  }

  // The output.

  lemma PrintedLine(t: Table, b: nat, n: nat)
    requires b < TABLE_SIZE
    ensures if n < |t[b]| then RestLines(t, b, n) == Listing.Line(t[b][n]) + RestLines(t, b, n + 1)
            else RestLines(t, b, n) == if b + 1 < TABLE_SIZE then RestLines(t, b + 1, 0) else ""
  {
    if n < |t[b]| {
      Listing.NextLine(t[b], n);
      Text.Assoc(Listing.Line(t[b][n]), Listing.ChainLines(t[b][n + 1..]), Listing.TableLines(t, b + 1));
    } else {
      assert "" + Listing.TableLines(t, b + 1) == Listing.TableLines(t, b + 1);
      if b + 1 < TABLE_SIZE {
        assert t[b + 1][0..] == t[b + 1];
      }
    }
  }

  /** Past its lock point, what a thread prints is the beginning of what it had left to print. */
  lemma RestTextLocal(cfg: Config, s: State, th: Thread, k: nat)
    requires ThreadOk(cfg, th) && !AtLockPoint(cfg, th)
    ensures RestText(th, s.table) == Prints(s, th) + RestText(Advance(cfg, s, th, k), TableAfter(s, th))
  {
    if th.pc == Print {
      PrintLocal(cfg, s, th, k);
    } else if th.pc == Apply {
      ApplyLocal(cfg, s, th, k);
    } else {
      NothingToPrint(cfg, s, th, k);
    }
  }

  lemma PrintLocal(cfg: Config, s: State, th: Thread, k: nat)
    requires ThreadOk(cfg, th) && th.pc == Print
    ensures RestText(th, s.table) == Prints(s, th) + RestText(Advance(cfg, s, th, k), TableAfter(s, th))
  {
    hide RestLines, Listing.Line;
    var th', t := Advance(cfg, s, th, k), s.table;
    assert TableAfter(s, th) == t;
    if th.i < TABLE_SIZE {
      PrintedLine(t, th.i, th.n);
    }
    NoPrefix(RestText(th', t));
  }

  lemma NoPrefix(text: string)
    ensures "" + text == text == text + ""
  {
  }

  lemma ApplyLocal(cfg: Config, s: State, th: Thread, k: nat)
    requires ThreadOk(cfg, th) && th.pc == Apply
    ensures RestText(th, s.table) == Prints(s, th) + RestText(Advance(cfg, s, th, k), TableAfter(s, th))
  {
    var th' := Advance(cfg, s, th, k);
    if th.i == |th.args| {
      assert RestText(th', TableAfter(s, th)) == "";
      NoPrefix(Prints(s, th));
    } else {
      ApplyNext(s, th, th');
    }
  }

  lemma ApplyNext(s: State, th: Thread, th': Thread)
    requires th.pc == Apply && ValidPairs(th.args) && th.i < |th.args|
    requires th' == th.(i := th.i + 1, hasError := th.hasError || Fails(th.command, th.args[th.i], s.table))
    ensures RestText(th, s.table) == Prints(s, th) + RestText(th', TableAfter(s, th))
  {
  }

  lemma NothingToPrint(cfg: Config, s: State, th: Thread, k: nat)
    requires ThreadOk(cfg, th) && !AtLockPoint(cfg, th) && th.pc != Print && th.pc != Apply
    ensures RestText(th, s.table) == "" == Prints(s, th) == RestText(Advance(cfg, s, th, k), TableAfter(s, th))
  {
    hide Buckets, RestLines, RunText;
  }

  /** At the lock point, the whole text of the command is printed or left to print. */
  lemma LockPointText(cfg: Config, s: State, th: Thread, k: nat, ser: Serial)
    requires ValidConfig(cfg) && ThreadOk(cfg, th) && AtLockPoint(cfg, th)
    requires th.pc == Lock ==> forall b :: b in Buckets(th.args, |th.args|) ==> ser.table[b] == s.table[b]
    requires th.pc == GlobalWrite ==> ser.table == s.table
    ensures RestText(th, s.table) == "" && ValidCommand(cfg.jobs[th.job][th.cmd])
    ensures ExecText(cfg.jobs[th.job][th.cmd], ser.table)
         == Prints(s, th) + RestText(Advance(cfg, s, th, k), TableAfter(s, th))
  {
    if th.pc == Lock {
      LockText(cfg, s, th, k, ser);
    } else if th.pc == GlobalWrite {
      ShowText(cfg, s, th, k);
    } else {
      hide Buckets, Args, RunText, Listing.Text;
    }
  }

  lemma LockText(cfg: Config, s: State, th: Thread, k: nat, ser: Serial)
    requires ValidConfig(cfg) && ThreadOk(cfg, th) && th.pc == Lock && AtLockPoint(cfg, th)
    requires forall b :: b in Buckets(th.args, |th.args|) ==> ser.table[b] == s.table[b]
    ensures RestText(th, s.table) == "" && ValidCommand(cfg.jobs[th.job][th.cmd])
    ensures ExecText(cfg.jobs[th.job][th.cmd], ser.table)
         == Prints(s, th) + RestText(Advance(cfg, s, th, k), TableAfter(s, th))
  {
    RunTextIsLocal(th.command, th.args, 0, ser.table, s.table, false);
    hide Buckets, RunText;
  }

  lemma ShowText(cfg: Config, s: State, th: Thread, k: nat)
    requires ValidConfig(cfg) && ThreadOk(cfg, th) && th.pc == GlobalWrite
    ensures RestText(th, s.table) == "" && ValidCommand(cfg.jobs[th.job][th.cmd])
    ensures ExecText(cfg.jobs[th.job][th.cmd], s.table)
         == Prints(s, th) + RestText(Advance(cfg, s, th, k), TableAfter(s, th))
  {
    assert s.table[0][0..] == s.table[0];
  }

  lemma FollowText(cfg: Config, s: State, t: nat, k: nat, ser: Serial)
    requires ValidConfig(cfg) && Shape(cfg, s) && SamePlace(cfg, s, ser) && Enabled(cfg, s, ThreadStep(t, k))
    ensures var th, ser' := s.threads[t], Follow(cfg, s, ThreadStep(t, k), ser);
            && |ser'.out| == |ser.out| == |cfg.jobs|
            && (forall j :: 0 <= j < |cfg.jobs| && !(AtLockPoint(cfg, th) && j == th.job) ==> ser'.out[j] == ser.out[j])
            && (AtLockPoint(cfg, th) ==>
                  && Active(th) && th.job < |cfg.jobs| && th.cmd < |cfg.jobs[th.job]|
                  && ValidCommand(cfg.jobs[th.job][th.cmd])
                  && ser'.out[th.job] == ser.out[th.job] + ExecText(cfg.jobs[th.job][th.cmd], ser.table))
  {
    if AtLockPoint(cfg, s.threads[t]) {
      LockPointCommand(cfg, s, t, k, ser);
    }
  }

  /** What the thread's step prints and leaves to print is what the serial machine printed. */
  lemma TextMoves(cfg: Config, s: State, t: nat, k: nat, ser: Serial)
    requires ValidConfig(cfg) && Shape(cfg, s) && LocksMatch(s) && Enabled(cfg, s, ThreadStep(t, k))
    requires SamePlace(cfg, s, ser) && SameTable(s, ser) && Active(s.threads[t])
    ensures var th := s.threads[t];
            var rest := Prints(s, th) + RestText(Advance(cfg, s, th, k), TableAfter(s, th));
            if AtLockPoint(cfg, th) then
              && ValidCommand(cfg.jobs[th.job][th.cmd])
              && RestText(th, s.table) == "" && ExecText(cfg.jobs[th.job][th.cmd], ser.table) == rest
            else RestText(th, s.table) == rest
  {
    var th := s.threads[t];
    if AtLockPoint(cfg, th) {
      if th.pc == Lock {
        LockedBucketsAgree(cfg, s, t, ser);
      } else if th.pc == GlobalWrite {
        GlobalSettles(cfg, s);
        assert forall b :: 0 <= b < TABLE_SIZE ==> Settled(s, b);
      }
      LockPointText(cfg, s, th, k, ser);
    } else {
      RestTextLocal(cfg, s, th, k);
    }
  }

  lemma OwnTextStep(cfg: Config, s: State, t: nat, k: nat, ser: Serial)
    requires ValidConfig(cfg) && Shape(cfg, s) && LocksMatch(s) && Enabled(cfg, s, ThreadStep(t, k))
    requires SamePlace(cfg, s, ser) && SameTable(s, ser) && Active(s.threads[t]) && OwnText(s.threads[t], s, ser)
    ensures var th, ser' := s.threads[t], Follow(cfg, s, ThreadStep(t, k), ser);
            && th.job < |ser'.out|
            && ser'.out[th.job]
               == (s.out[th.job] + Prints(s, th)) + RestText(Advance(cfg, s, th, k), TableAfter(s, th))
  {
    var th := s.threads[t];
    var printed, rest := Prints(s, th), RestText(Advance(cfg, s, th, k), TableAfter(s, th));
    FollowText(cfg, s, t, k, ser);
    TextMoves(cfg, s, t, k, ser);
    Text.Assoc(s.out[th.job], printed, rest);
    assert s.out[th.job] + "" == s.out[th.job];
  }

  /** Thread `t` moved and wrote at most to its own job's output; the others have the same left to print. */
  lemma TextKeeps(s: State, s': State, t: nat, ser: Serial, ser': Serial)
    requires SameText(s, ser) && t < |s.threads| == |s'.threads| && s'.threads == s.threads[t := s'.threads[t]]
    requires |s.out| == |s'.out| == |ser'.out|
    requires forall j :: 0 <= j < |s.out| && !(Active(s.threads[t]) && j == s.threads[t].job) ==>
               s'.out[j] == s.out[j] && ser'.out[j] == ser.out[j]
    requires forall u :: 0 <= u < |s.threads| && u != t ==>
               RestText(s.threads[u], s'.table) == RestText(s.threads[u], s.table)
    requires forall u :: 0 <= u < |s.threads| && u != t && Active(s.threads[u]) && Active(s.threads[t]) ==>
               s.threads[u].job != s.threads[t].job
    requires Active(s'.threads[t]) ==> OwnText(s'.threads[t], s', ser')
    requires Active(s.threads[t]) && Active(s'.threads[t]) ==> s'.threads[t].job == s.threads[t].job
    requires Active(s.threads[t]) && s.threads[t].job < |s.out| && !Active(s'.threads[t]) ==>
               ser'.out[s.threads[t].job] == s'.out[s.threads[t].job]
    ensures SameText(s', ser')
  {
    forall u | 0 <= u < |s'.threads| && Active(s'.threads[u]) ensures OwnText(s'.threads[u], s', ser') {
      if u != t {
        assert OwnText(s.threads[u], s, ser);
      }
    }
    forall j | 0 <= j < |s'.out| && Unattended(s', j) ensures ser'.out[j] == s'.out[j] {
      StillUnattended(s, s', t, j);
    }
  }

  lemma DoThread(cfg: Config, s: State, t: nat, k: nat)
    requires ValidConfig(cfg) && Shape(cfg, s) && Enabled(cfg, s, ThreadStep(t, k))
    ensures var th, s' := s.threads[t], Do(cfg, s, ThreadStep(t, k));
            && s'.threads == s.threads[t := Advance(cfg, s, th, k)] && s'.table == TableAfter(s, th)
            && |s'.out| == |s.out|
            && forall j :: 0 <= j < |s.out| ==> s'.out[j] == if j == th.job then s.out[j] + Prints(s, th) else s.out[j]
  {
    hide Advance, TableAfter, Prints;
  }

  lemma TextStep(cfg: Config, s: State, t: nat, k: nat, ser: Serial)
    requires ValidConfig(cfg) && Shape(cfg, s) && LocksMatch(s) && Enabled(cfg, s, ThreadStep(t, k))
    requires SamePlace(cfg, s, ser) && SameTable(s, ser) && SameText(s, ser)
    ensures SameText(Do(cfg, s, ThreadStep(t, k)), Follow(cfg, s, ThreadStep(t, k), ser))
  {
    var th, s', ser' := s.threads[t], Do(cfg, s, ThreadStep(t, k)), Follow(cfg, s, ThreadStep(t, k), ser);
    DoThread(cfg, s, t, k);
    FollowText(cfg, s, t, k, ser);
    IdlePrintsNothing(cfg, s, th, k);
    ActiveChange(cfg, s, th, k);
    PlaceLocal(cfg, s, th, k);
    hide Do, Follow, Advance, RestText, Prints, SameTable, LocksMatch, OutAfter, ExecText, ThreadOk, Wants;
    hide TakesNoLocks;
    forall u | 0 <= u < |s.threads| && u != t
      ensures RestText(s.threads[u], s'.table) == RestText(s.threads[u], s.table)
    {
      OthersRest(cfg, s, t, u);
    }
    OwnTextAfter(cfg, s, t, k, ser);
    TextKeeps(s, s', t, ser, ser');
  }

  lemma OwnTextAfter(cfg: Config, s: State, t: nat, k: nat, ser: Serial)
    requires ValidConfig(cfg) && Shape(cfg, s) && LocksMatch(s) && Enabled(cfg, s, ThreadStep(t, k))
    requires SamePlace(cfg, s, ser) && SameTable(s, ser) && SameText(s, ser)
    ensures var s', ser' := Do(cfg, s, ThreadStep(t, k)), Follow(cfg, s, ThreadStep(t, k), ser);
            && (Active(s'.threads[t]) ==> OwnText(s'.threads[t], s', ser'))
            && (Active(s.threads[t]) && !Active(s'.threads[t]) ==>
                  s.threads[t].job < |s'.out| == |ser'.out| && ser'.out[s.threads[t].job] == s'.out[s.threads[t].job])
  {
    var th := s.threads[t];
    FollowText(cfg, s, t, k, ser);
    ActiveChange(cfg, s, th, k);
    PlaceLocal(cfg, s, th, k);
    IdlePrintsNothing(cfg, s, th, k);
    if Active(th) {
      assert OwnText(th, s, ser);
      OwnTextStep(cfg, s, t, k, ser);
      NoPrefix(s.out[th.job]);
    } else if Active(Advance(cfg, s, th, k)) {
      NextJobUnattended(cfg, s, ser);
      NoPrefix(s.out[s.nextJob]);
    }
  }

  lemma NextJobUnattended(cfg: Config, s: State, ser: Serial)
    requires SamePlace(cfg, s, ser)
    ensures Unattended(s, s.nextJob)
  {
    forall u | 0 <= u < |s.threads| && Active(s.threads[u]) ensures s.threads[u].job != s.nextJob {
      assert AtPlace(s.nextJob, ser, s.threads[u]);
    }
  }

  lemma IdlePrintsNothing(cfg: Config, s: State, th: Thread, k: nat)
    requires ThreadOk(cfg, th)
    ensures !Active(th) || !Active(Advance(cfg, s, th, k)) ==> Prints(s, th) == ""
    ensures !Active(th) ==> RestText(Advance(cfg, s, th, k), TableAfter(s, th)) == ""
    ensures Active(th) && !Active(Advance(cfg, s, th, k)) ==>
              RestText(th, s.table) == "" && TableAfter(s, th) == s.table
  {
  }

  lemma StillUnattended(s: State, s': State, t: nat, j: nat)
    requires t < |s.threads| == |s'.threads| && s'.threads == s.threads[t := s'.threads[t]]
    requires Unattended(s', j)
    ensures Unattended(s, j) || (Active(s.threads[t]) && s.threads[t].job == j)
  {
    if !(Active(s.threads[t]) && s.threads[t].job == j) {
      forall u | 0 <= u < |s.threads| && Active(s.threads[u]) ensures s.threads[u].job != j {
        assert u != t ==> s'.threads[u] == s.threads[u];
      }
    }
  }

  // The backups.

  /** At the fork no command is half applied: the child's copy is the serial table. */
  lemma ForksStep(cfg: Config, s: State, t: nat, k: nat, ser: Serial)
    requires ValidConfig(cfg) && Shape(cfg, s) && LocksMatch(s) && Enabled(cfg, s, ThreadStep(t, k))
    requires SamePlace(cfg, s, ser) && SameTable(s, ser) && SameForks(s, ser)
    ensures SameForks(Do(cfg, s, ThreadStep(t, k)), Follow(cfg, s, ThreadStep(t, k), ser))
  {
    var th := s.threads[t];
    if Forks(th) {
      LockPointCommand(cfg, s, t, k, ser);
      assert AtPlace(s.nextJob, ser, th);
      forall b | 0 <= b < TABLE_SIZE ensures ser.table[b] == s.table[b] {
        HolderSettles(cfg, s, t, b);
      }
      assert ser.table == s.table;
    } else {
      NoForkNoBackup(cfg, s, t, k, ser);
    }
  }

  lemma NoForkNoBackup(cfg: Config, s: State, t: nat, k: nat, ser: Serial)
    requires ValidConfig(cfg) && Shape(cfg, s) && SamePlace(cfg, s, ser) && Enabled(cfg, s, ThreadStep(t, k))
    requires !Forks(s.threads[t])
    ensures Follow(cfg, s, ThreadStep(t, k), ser).forks == ser.forks
  {
    assert ThreadOk(cfg, s.threads[t]);
    if AtLockPoint(cfg, s.threads[t]) {
      LockPointCommand(cfg, s, t, k, ser);
    }
  }

  // Runs.

  lemma ThreadStepFollows(cfg: Config, s: State, t: nat, k: nat, ser: Serial)
    requires ValidConfig(cfg) && Shape(cfg, s) && LocksMatch(s) && Enabled(cfg, s, ThreadStep(t, k))
    requires Related(cfg, s, ser)
    ensures Related(cfg, Do(cfg, s, ThreadStep(t, k)), Follow(cfg, s, ThreadStep(t, k), ser))
  {
    PlaceStep(cfg, s, t, k, ser);
    TextStep(cfg, s, t, k, ser);
    TableStep(cfg, s, t, k, ser);
    ForksStep(cfg, s, t, k, ser);
  }

  /** Children and the main thread leave the threads, the table and the output alone. */
  lemma OtherStepFollows(cfg: Config, s: State, a: Action, ser: Serial)
    requires ValidConfig(cfg) && Shape(cfg, s) && Enabled(cfg, s, a) && !a.ThreadStep?
    requires Related(cfg, s, ser)
    ensures Related(cfg, Do(cfg, s, a), ser)
  {
    var s' := Do(cfg, s, a);
    assert s'.threads == s.threads && s'.table == s.table && s'.out == s.out && s'.nextJob == s.nextJob;
    forall j ensures Unattended(s', j) == Unattended(s, j) {
    }
    forall t | 0 <= t < |s.threads| && Active(s.threads[t]) ensures OwnText(s'.threads[t], s', ser) {
      assert OwnText(s.threads[t], s, ser);
    }
    forall b | 0 <= b < TABLE_SIZE && Settled(s', b) ensures ser.table[b] == s'.table[b] {
      assert Settled(s, b);
    }
  }

  lemma InitRelated(cfg: Config)
    requires ValidConfig(cfg)
    ensures Related(cfg, Init(cfg), Start(cfg))
  {
  }

  /** Every run is a serial run of the same commands: same places, same output, same table, same backups. */
  lemma {:induction false} Linearizable(cfg: Config, schedule: seq<Action>)
    requires ValidConfig(cfg)
    ensures Related(cfg, After(cfg, schedule), Run(cfg, Order(cfg, schedule)))
  {
    if schedule == [] {
      InitRelated(cfg);
    } else {
      var init, a := schedule[..|schedule| - 1], schedule[|schedule| - 1];
      Linearizable(cfg, init);
      LocksAlwaysMatch(cfg, init);
      var s, order := After(cfg, init), Order(cfg, init);
      OrderFollows(cfg, init, a);
      if Enabled(cfg, s, a) {
        if a.ThreadStep? {
          ThreadStepFollows(cfg, s, a.t, a.child, Run(cfg, order));
        } else {
          OtherStepFollows(cfg, s, a, Run(cfg, order));
        }
      }
    }
  }

  lemma OrderFollows(cfg: Config, init: seq<Action>, a: Action)
    requires ValidConfig(cfg)
    ensures Run(cfg, Order(cfg, init + [a])) == Follow(cfg, After(cfg, init), a, Run(cfg, Order(cfg, init)))
  {
    assert (init + [a])[..|init|] == init;
    var point := LockPoint(cfg, After(cfg, init), a);
    if point.Some? {
      assert (Order(cfg, init) + [point.value])[..|Order(cfg, init)|] == Order(cfg, init);
    } else {
      assert Order(cfg, init) + [] == Order(cfg, init);
    }
  }

  /** The serial order only grows. */
  lemma {:induction false} OrderOnlyGrows(cfg: Config, earlier: seq<Action>, later: seq<Action>)
    requires ValidConfig(cfg)
    ensures Order(cfg, earlier) <= Order(cfg, earlier + later)
  {
    if later == [] {
      assert earlier + later == earlier;
    } else {
      var init := later[..|later| - 1];
      OrderOnlyGrows(cfg, earlier, init);
      assert (earlier + later)[..|earlier + later| - 1] == earlier + init;
    }
  }

  /** Once all threads are done, every job has been claimed. */
  lemma {:induction false} LeavingMeansAllClaimed(cfg: Config, schedule: seq<Action>, t: nat)
    requires ValidConfig(cfg) && t < cfg.threads
    ensures var s := After(cfg, schedule); s.threads[t].pc in {Leave, Done} ==> s.nextJob >= |cfg.jobs|
  {
    if schedule != [] {
      var s, a := After(cfg, schedule[..|schedule| - 1]), schedule[|schedule| - 1];
      LeavingMeansAllClaimed(cfg, schedule[..|schedule| - 1], t);
      if Enabled(cfg, s, a) {
        LeavingStep(cfg, s, a, t);
      }
    }
  }

  lemma LeavesFromClaim(cfg: Config, s: State, th: Thread, k: nat)
    requires ThreadOk(cfg, th)
    ensures Advance(cfg, s, th, k).pc == Leave ==> th.pc == Claim && s.nextJob >= |cfg.jobs|
    ensures Advance(cfg, s, th, k).pc == Done ==> th.pc in {Leave, Done}
  {
  }

  lemma LeavingStep(cfg: Config, s: State, a: Action, t: nat)
    requires ValidConfig(cfg) && Shape(cfg, s) && Enabled(cfg, s, a) && t < cfg.threads
    requires s.threads[t].pc in {Leave, Done} ==> s.nextJob >= |cfg.jobs|
    ensures Do(cfg, s, a).threads[t].pc in {Leave, Done} ==> Do(cfg, s, a).nextJob >= |cfg.jobs|
  {
    if a.ThreadStep? {
      LeavesFromClaim(cfg, s, s.threads[a.t], a.child);
      hide Advance, ThreadOk, TableAfter, Prints;
    }
  }

  /** When the threads are done, the jobs have run to the end, one command at a time as it were. */
  lemma FinalStateIsSerial(cfg: Config, schedule: seq<Action>)
    requires ValidConfig(cfg) && cfg.threads > 0
    requires forall t :: 0 <= t < cfg.threads ==> After(cfg, schedule).threads[t].pc == Done
    ensures var s, ser := After(cfg, schedule), Run(cfg, Order(cfg, schedule));
            && ser.table == s.table && ser.out == s.out
            && |ser.forks| == |s.children|
            && forall j :: 0 <= j < |cfg.jobs| ==> ser.pos[j] == |cfg.jobs[j]|
  {
    var s, ser := After(cfg, schedule), Run(cfg, Order(cfg, schedule));
    Linearizable(cfg, schedule);
    LeavingMeansAllClaimed(cfg, schedule, 0);
    assert forall j :: Unattended(s, j);
    assert forall b :: 0 <= b < TABLE_SIZE ==> Settled(s, b);
  }

  /** Backups are atomic: every child's copy is the table after a prefix of whole commands of the serial run. */
  lemma BackupIsAtomic(cfg: Config, schedule: seq<Action>, k: nat) returns (n: nat)
    requires ValidConfig(cfg) && k < |After(cfg, schedule).children|
    ensures n < |Order(cfg, schedule)|
    ensures After(cfg, schedule).children[k].copy == Run(cfg, Order(cfg, schedule)[..n]).table
  {
    Linearizable(cfg, schedule);
    n := ForkIsPrefix(cfg, Order(cfg, schedule), k);
  }
}
