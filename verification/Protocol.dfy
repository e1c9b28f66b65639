/**
 The job threads, the locks they take and the backup children, as a machine that makes one small
 step at a time: one lock or unlock, one pair applied, one key read, one node printed, one fork.
 */
module Protocol {
  import opened Store
  import opened Commands
  import opened Text
  import Listing

  /** What a run starts from: the job files in the directory and the command line. */
  datatype Config = Config(names: seq<string>, jobs: seq<seq<Command>>, dir: string, threads: nat, maxBackups: int)

  /** One name per job, and every key named has a bucket. */
  predicate ValidConfig(cfg: Config) {
    && |cfg.names| == |cfg.jobs|
    && forall j, c :: 0 <= j < |cfg.jobs| && 0 <= c < |cfg.jobs[j]| ==> ValidCommand(cfg.jobs[j][c])
  }

  // Locks, numbered in the order in which they are nested. A mutex is only ever locked exclusively.

  const FILE: nat := 0
  const BACKUP: nat := 1
  const GLOBAL: nat := 2
  const BUCKETS: nat := 3
  const LOCKS: nat := BUCKETS + TABLE_SIZE

  datatype Mode = Free | Shared | Exclusive

  datatype RwLock = RwLock(readers: set<nat>, writer: Option<nat>)

  /** A lock is granted when no conflicting holder exists; who goes first is left open. */
  predicate Grants(l: RwLock, mode: Mode) {
    l.writer.None? && (mode == Exclusive ==> l.readers == {})
  }

  function Take(l: RwLock, t: nat, mode: Mode): RwLock {
    match mode
    case Free => l
    case Shared => l.(readers := l.readers + {t})
    case Exclusive => l.(writer := Some(t))
  }

  function Drop(l: RwLock, t: nat): RwLock {
    RwLock(l.readers - {t}, if l.writer == Some(t) then None else l.writer)
  }

  // Threads.

  datatype Pc =
    | Fetch | Claim | Release | Leave | Done
    | Top
    | GlobalRead | Lock | Apply | Unlock | GlobalUnlock
    | GlobalWrite | Print
    | BackupLock | Throttle | Reap | Decrement | LockAll | Count | UnlockAll | BackupUnlock

  /** `job`, `cmd` and `backups` place the thread in its job file; the rest are the locals of one command. */
  datatype Thread = Thread(pc: Pc, job: nat, cmd: nat, backups: nat,
                           command: Command, args: seq<Pair>, hashed: set<int>, i: nat, n: nat, hasError: bool)

  const IDLE := Thread(Fetch, 0, 0, 0, Empty, [], {}, 0, 0, false)

  datatype Status = Running | Exited | Reaped

  /** A backup child with its copy of the table. */
  datatype Child = Child(job: nat, number: nat, copy: Table, status: Status)

  datatype MainPc = Joining | Reaping | Finished

  datatype State = State(threads: seq<Thread>, locks: seq<RwLock>, nextJob: nat, active: int, children: seq<Child>,
                         table: Table, out: seq<string>, files: map<string, string>, main: MainPc)

  function Init(cfg: Config): State {
    State(seq(cfg.threads, _ => IDLE), seq(LOCKS, _ => RwLock({}, None)), 0, 0, [], EMPTY,
          seq(|cfg.jobs|, _ => ""), map[], Joining)
  }

  /** The thread works on a job file. */
  predicate Active(th: Thread) {
    th.pc !in {Fetch, Claim, Leave, Done}
  }

  predicate InCommand(th: Thread) {
    Active(th) && th.pc !in {Release, Top}
  }

  // The locks a step asks for or gives back.

  function Wants(th: Thread): Option<(nat, Mode)> {
    match th.pc
    case Fetch => Some((FILE, Exclusive))
    case GlobalRead => Some((GLOBAL, Shared))
    case GlobalWrite => Some((GLOBAL, Exclusive))
    case Lock =>
      if th.i < |th.args| && ValidKey(th.args[th.i].key) && Hash(th.args[th.i].key) !in th.hashed then
        Some((BUCKETS + Hash(th.args[th.i].key), if th.command.Mutates() then Exclusive else Shared))
      else None
    case BackupLock => Some((BACKUP, Exclusive))
    case LockAll => if th.i < TABLE_SIZE then Some((BUCKETS + th.i, Shared)) else None
    case _ => None
  }

  function GivesBack(th: Thread): Option<nat> {
    match th.pc
    case Release => Some(FILE)
    case Leave => Some(FILE)
    case Unlock => if th.i < TABLE_SIZE && th.i in th.hashed then Some(BUCKETS + th.i) else None
    case GlobalUnlock => Some(GLOBAL)
    case UnlockAll => if th.i < TABLE_SIZE then Some(BUCKETS + th.i) else None
    case BackupUnlock => Some(BACKUP)
    case _ => None
  }

  // The effect of a thread's step, component by component.

  predicate ExitedChild(s: State, k: nat) {
    k < |s.children| && s.children[k].status == Exited
  }

  /** `wait` has nothing to wait for and returns -1. */
  predicate NoChildren(s: State) {
    forall k :: 0 <= k < |s.children| ==> s.children[k].status == Reaped
  }

  function Begin(th: Thread, c: Command): Thread {
    if c.NamesKeys() then
      th.(command := c, args := Args(c), hashed := {}, i := 0, hasError := false,
          pc := if c.Mutates() then GlobalRead else Lock)
    else if c.Show? then th.(command := c, i := 0, n := 0, pc := GlobalWrite)
    else if c.Backup? then th.(command := c, pc := BackupLock)
    else th.(cmd := th.cmd + 1)
  }

  function End(th: Thread): Thread {
    th.(pc := Top, cmd := th.cmd + 1)
  }

  function Advance(cfg: Config, s: State, th: Thread, k: nat): Thread
    requires ThreadOk(cfg, th)
  {
    match th.pc
    case Fetch => th.(pc := Claim)
    case Claim =>
      if s.nextJob >= |cfg.jobs| then th.(pc := Leave)
      else th.(pc := Release, job := s.nextJob, cmd := 0, backups := 0)
    case Release => th.(pc := Top)
    case Leave => th.(pc := Done)
    case Done => th
    case Top =>
      if th.cmd == |cfg.jobs[th.job]| then th.(pc := Fetch) else Begin(th, cfg.jobs[th.job][th.cmd])
    case GlobalRead => th.(pc := Lock)
    case Lock =>
      if th.i < |th.args| then th.(hashed := th.hashed + {Hash(th.args[th.i].key)}, i := th.i + 1)
      else th.(pc := Apply, i := 0)
    case Apply =>
      if th.i < |th.args| then
        th.(i := th.i + 1, hasError := th.hasError || Fails(th.command, th.args[th.i], s.table))
      else th.(pc := Unlock, i := 0)
    case Unlock =>
      if th.i < TABLE_SIZE then th.(hashed := th.hashed - {th.i}, i := th.i + 1)
      else if th.command.Mutates() then th.(pc := GlobalUnlock)
      else End(th)
    case GlobalUnlock => End(th)
    case GlobalWrite => th.(pc := Print)
    case Print =>
      if th.i < TABLE_SIZE then
        if th.n < |s.table[th.i]| then th.(n := th.n + 1) else th.(i := th.i + 1, n := 0)
      else th.(pc := GlobalUnlock)
    case BackupLock => th.(pc := Throttle)
    case Throttle => if s.active >= cfg.maxBackups then th.(pc := Reap) else th.(pc := LockAll, i := 0)
    case Reap => if ExitedChild(s, k) then th.(pc := Decrement) else th.(pc := LockAll, i := 0)
    case Decrement => th.(pc := LockAll, i := 0)
    case LockAll =>
      if th.i < TABLE_SIZE then th.(i := th.i + 1) else th.(pc := Count, backups := th.backups + 1)
    case Count => th.(pc := UnlockAll, i := 0)
    case UnlockAll => if th.i < TABLE_SIZE then th.(i := th.i + 1) else th.(pc := BackupUnlock)
    case BackupUnlock => End(th)
  }

  function LocksAfter(s: State, t: nat): seq<RwLock>
    requires t < |s.threads| && |s.locks| == LOCKS
  {
    var th := s.threads[t];
    if Wants(th).Some? then
      var (l, mode) := Wants(th).value;
      s.locks[l := Take(s.locks[l], t, mode)]
    else if GivesBack(th).Some? then
      var l := GivesBack(th).value;
      s.locks[l := Drop(s.locks[l], t)]
    else s.locks
  }

  /** The table changes when a pair is written or deleted. */
  function TableAfter(s: State, th: Thread): Table {
    if th.pc == Apply && th.i < |th.args| && ValidKey(th.args[th.i].key)
    then StepTable(th.command, th.args[th.i], s.table) else s.table
  }

  /** What the step writes to the job's output file. */
  function Prints(s: State, th: Thread): string {
    match th.pc
    case Lock => if th.i == |th.args| then Opening(th.command) else ""
    case Apply =>
      if th.i >= |th.args| then Closing(th.command, th.hasError)
      else if ValidKey(th.args[th.i].key) then StepText(th.command, th.args[th.i], s.table, th.hasError)
      else ""
    case Print =>
      if th.i < TABLE_SIZE && th.n < |s.table[th.i]| then Listing.Line(s.table[th.i][th.n]) else ""
    case _ => ""
  }

  function OutAfter(s: State, th: Thread): seq<string> {
    if th.job < |s.out| then s.out[th.job := s.out[th.job] + Prints(s, th)] else s.out
  }

  function ActiveAfter(s: State, th: Thread): int {
    if th.pc == Count then s.active + 1 else if th.pc == Decrement then s.active - 1 else s.active
  }

  function NextJobAfter(cfg: Config, s: State, th: Thread): nat {
    if th.pc == Claim && s.nextJob < |cfg.jobs| then s.nextJob + 1 else s.nextJob
  }

  /** The thread's step is the `fork`. */
  predicate Forks(th: Thread) {
    th.pc == LockAll && th.i >= TABLE_SIZE
  }

  function ChildrenAfter(s: State, th: Thread, k: nat): seq<Child> {
    if Forks(th) then s.children + [Child(th.job, th.backups + 1, s.table, Running)]
    else if th.pc == Reap && ExitedChild(s, k) then s.children[k := s.children[k].(status := Reaped)]
    else s.children
  }

  // The machine.

  /** Who moves. `child` is the exited child a `wait` happens to collect. */
  datatype Action = ThreadStep(t: nat, child: nat) | ChildExit(k: nat) | MainStep(child: nat)

  predicate Enabled(cfg: Config, s: State, a: Action)
    requires Shape(cfg, s)
  {
    match a
    case ThreadStep(t, k) =>
      && t < |s.threads|
      && var th := s.threads[t];
      && th.pc != Done
      && (Wants(th).Some? ==> Grants(s.locks[Wants(th).value.0], Wants(th).value.1))
      && (th.pc == Reap ==> ExitedChild(s, k) || NoChildren(s))
    case ChildExit(k) => k < |s.children| && s.children[k].status == Running
    case MainStep(k) =>
      match s.main
      case Joining => forall t :: 0 <= t < |s.threads| ==> s.threads[t].pc == Done
      case Reaping => s.active > 0 ==> ExitedChild(s, k) || NoChildren(s)
      case Finished => false
  }

  function Do(cfg: Config, s: State, a: Action): State
    requires ValidConfig(cfg) && Shape(cfg, s) && Enabled(cfg, s, a)
  {
    match a
    case ThreadStep(t, k) =>
      var th := s.threads[t];
      s.(threads := s.threads[t := Advance(cfg, s, th, k)], locks := LocksAfter(s, t),
         nextJob := NextJobAfter(cfg, s, th), active := ActiveAfter(s, th), children := ChildrenAfter(s, th, k),
         table := TableAfter(s, th), out := OutAfter(s, th))
    case ChildExit(k) =>
      var child := s.children[k];
      s.(children := s.children[k := child.(status := Exited)],
         files := s.files[Path(cfg, child) := Listing.Text(child.copy)])
    case MainStep(k) =>
      if s.main == Joining then s.(main := Reaping)
      else if s.active > 0 then
        if ExitedChild(s, k) then
          s.(children := s.children[k := s.children[k].(status := Reaped)], active := s.active - 1)
        else s
      else s.(main := Finished)
  }

  /** The backup file of a job: its name without the last four characters, and the backup's number. */
  function BackupPath(dir: string, name: string, number: nat): string {
    dir + "/" + Stem(name) + "-" + Decimal(number) + ".bck"
  }

  function Stem(name: string): string {
    if |name| < 4 then "" else name[..|name| - 4]
  }

  function Path(cfg: Config, child: Child): string {
    BackupPath(cfg.dir, if child.job < |cfg.names| then cfg.names[child.job] else "", child.number)
  }

  /** The state after a schedule. An action that is not enabled when its turn comes is skipped. */
  function After(cfg: Config, schedule: seq<Action>): (s: State)
    requires ValidConfig(cfg)
    ensures Shape(cfg, s)
  {
    if schedule == [] then Init(cfg)
    else
      var s, a := After(cfg, schedule[..|schedule| - 1]), schedule[|schedule| - 1];
      if Enabled(cfg, s, a) then DoKeepsShape(cfg, s, a); Do(cfg, s, a) else s
  }

  // Where each thread is within its command.

  function Buckets(args: seq<Pair>, i: nat): set<int>
    requires i <= |args|
  {
    set j | 0 <= j < i :: Hash(args[j].key)
  }

  predicate ThreadOk(cfg: Config, th: Thread) {
    && (Active(th) ==> th.job < |cfg.jobs| && th.cmd <= |cfg.jobs[th.job]|)
    && (InCommand(th) ==> th.cmd < |cfg.jobs[th.job]| && th.command == cfg.jobs[th.job][th.cmd])
    && (th.pc in {GlobalRead, Lock, Apply, Unlock} ==>
          th.command.NamesKeys() && th.args == Args(th.command) && ValidPairs(th.args))
    && match th.pc
       case GlobalRead => th.command.Mutates() && th.i == 0 && th.hashed == {} && !th.hasError
       case Lock => th.i <= |th.args| && !th.hasError && th.hashed == Buckets(th.args, th.i)
       case Apply => th.i <= |th.args| && th.hashed == Buckets(th.args, |th.args|)
       case Unlock => th.i <= TABLE_SIZE && th.hashed == set b | b in Buckets(th.args, |th.args|) && b >= th.i
       case GlobalUnlock => th.command.Mutates() || th.command.Show?
       case GlobalWrite => th.command.Show? && th.i == 0 && th.n == 0
       case Print => th.command.Show? && th.i <= TABLE_SIZE
       case LockAll => th.command.Backup? && th.i <= TABLE_SIZE
       case UnlockAll => th.command.Backup? && th.i <= TABLE_SIZE
       case _ => InCommand(th) ==> th.command.Backup?
  }

  predicate Shape(cfg: Config, s: State) {
    && |s.threads| == cfg.threads && |s.locks| == LOCKS && |s.out| == |cfg.jobs|
    && forall t :: 0 <= t < |s.threads| ==> ThreadOk(cfg, s.threads[t])
  }

  lemma BeginIsOk(cfg: Config, th: Thread)
    requires ValidConfig(cfg) && ThreadOk(cfg, th) && th.pc == Top && th.cmd < |cfg.jobs[th.job]|
    ensures ThreadOk(cfg, Begin(th, cfg.jobs[th.job][th.cmd]))
  {
    var c := cfg.jobs[th.job][th.cmd];
    assert ValidCommand(c);
    if c.NamesKeys() {
      ArgsValid(c);
      assert Buckets(Args(c), 0) == {};
    }
  }

  lemma LockIsOk(cfg: Config, s: State, th: Thread, k: nat)
    requires ThreadOk(cfg, th) && th.pc == Lock
    ensures ThreadOk(cfg, Advance(cfg, s, th, k))
  {
    if th.i < |th.args| {
      assert Buckets(th.args, th.i + 1) == Buckets(th.args, th.i) + {Hash(th.args[th.i].key)};
    }
  }

  lemma ApplyIsOk(cfg: Config, s: State, th: Thread, k: nat)
    requires ThreadOk(cfg, th) && th.pc == Apply
    ensures ThreadOk(cfg, Advance(cfg, s, th, k))
  {
    assert th.hashed == set b | b in Buckets(th.args, |th.args|) && b >= 0;
  }

  lemma UnlockIsOk(cfg: Config, s: State, th: Thread, k: nat)
    requires ThreadOk(cfg, th) && th.pc == Unlock
    ensures ThreadOk(cfg, Advance(cfg, s, th, k))
  {
    if th.i < TABLE_SIZE {
      assert th.hashed - {th.i} == set b | b in Buckets(th.args, |th.args|) && b >= th.i + 1;
    }
  }

  lemma AdvanceKeepsOk(cfg: Config, s: State, th: Thread, k: nat)
    requires ValidConfig(cfg) && ThreadOk(cfg, th)
    ensures ThreadOk(cfg, Advance(cfg, s, th, k))
  {
    if th.pc == Top && th.cmd < |cfg.jobs[th.job]| {
      BeginIsOk(cfg, th);
    } else if th.pc == Lock {
      LockIsOk(cfg, s, th, k);
    } else if th.pc == Apply {
      ApplyIsOk(cfg, s, th, k);
    } else if th.pc == Unlock {
      UnlockIsOk(cfg, s, th, k);
    }
  }

  lemma DoKeepsShape(cfg: Config, s: State, a: Action)
    requires ValidConfig(cfg) && Shape(cfg, s) && Enabled(cfg, s, a)
    ensures Shape(cfg, Do(cfg, s, a))
  {
    if a.ThreadStep? {
      AdvanceKeepsOk(cfg, s, s.threads[a.t], a.child);
    }
  }

  lemma AfterOneMore(cfg: Config, schedule: seq<Action>, a: Action)
    requires ValidConfig(cfg)
    ensures var s := After(cfg, schedule);
            After(cfg, schedule + [a]) == if Enabled(cfg, s, a) then Do(cfg, s, a) else s
  {
    assert (schedule + [a])[..|schedule|] == schedule;
  }
}
