/** Which files a run writes, and when the scripts in the directory are among them. */
module Directory {
  import opened Commands
  import opened Protocol
  import opened Serial
  import opened Linearizability
  import opened Backups
  import opened OutputFiles
  import Listing
  import Termination
  import Text

  // Backups as they are numbered.

  /** How many of the first commands are BACKUPs. */
  function BackupsIn(commands: seq<Command>): nat {
    if commands == [] then 0
    else BackupsIn(commands[..|commands| - 1]) + if commands[|commands| - 1].Backup? then 1 else 0
  }

  lemma OneMoreCommand(commands: seq<Command>, n: nat)
    requires n < |commands|
    ensures BackupsIn(commands[..n + 1]) == BackupsIn(commands[..n]) + if commands[n].Backup? then 1 else 0
  {
    assert commands[..n + 1][..n] == commands[..n];
  }

  lemma RunNextForks(cfg: Config, a: Serial, q: nat, j: nat)
    requires ValidConfig(cfg) && Fits(cfg, a) && HasNext(cfg, a, q)
    ensures ForkCount(RunNext(cfg, a, q).forks, j) ==
            ForkCount(a.forks, j) + if q == j && NextCommand(cfg, a, q).Backup? then 1 else 0
    ensures RunNext(cfg, a, q).pos == a.pos[q := a.pos[q] + 1]
  {
    ForkCountPush(a.forks, Fork(q, ForkCount(a.forks, q) + 1, a.table), j);
    hide ExecTable, ExecText, ForkCount, ValidConfig;
  }

  lemma {:induction false} ForksAreBackups(cfg: Config, order: seq<nat>, j: nat)
    requires ValidConfig(cfg) && j < |cfg.jobs|
    ensures ForkCount(Run(cfg, order).forks, j) == BackupsIn(cfg.jobs[j][..Run(cfg, order).pos[j]])
  {
    hide RunNext, ForkCount, BackupsIn, ValidConfig;
    if order == [] {
      NoForks(cfg, j);
    } else {
      var init, q := order[..|order| - 1], order[|order| - 1];
      ForksAreBackups(cfg, init, j);
      var a := Run(cfg, init);
      if HasNext(cfg, a, q) {
        RunNextForks(cfg, a, q, j);
        OneMoreCommand(cfg.jobs[q], a.pos[q]);
      }
    }
  }

  lemma NoForks(cfg: Config, j: nat)
    requires j < |cfg.jobs|
    ensures ForkCount(Start(cfg).forks, j) == 0 == BackupsIn(cfg.jobs[j][..Start(cfg).pos[j]])
  {
  }

  lemma {:induction false} BackupsGrow(commands: seq<Command>, n: nat)
    requires n <= |commands|
    ensures BackupsIn(commands[..n]) <= BackupsIn(commands)
    decreases |commands|
  {
    if n == |commands| {
      assert commands[..n] == commands;
    } else {
      var init := commands[..|commands| - 1];
      BackupsGrow(init, n);
      assert init[..n] == commands[..n];
    }
  }

  /** The numbers of a job's backups are 1 up to their count. */
  lemma {:induction false} ForkNumber(forks: seq<Fork>, job: nat, n: nat) returns (k: nat)
    requires Numbered(forks) && 1 <= n <= ForkCount(forks, job)
    ensures k < |forks| && forks[k].job == job && forks[k].number == n
  {
    var init := forks[..|forks| - 1];
    assert forall k :: 0 <= k < |init| ==> init[..k] == forks[..k];
    if n <= ForkCount(init, job) {
      k := ForkNumber(init, job, n);
    } else {
      k := |init|;
    }
  }

  lemma NumberBound(forks: seq<Fork>, k: nat)
    requires Numbered(forks) && k < |forks|
    ensures 1 <= forks[k].number <= ForkCount(forks, forks[k].job)
  {
    ForkCountGrows(forks, k + 1, |forks|, forks[k].job);
    assert forks[..k + 1][..k] == forks[..k] && forks[..|forks|] == forks;
  }

  // Which files there are.

  /** The path is that of an output file or of a backup the run has written. */
  ghost predicate Written(cfg: Config, schedule: seq<Action>, path: string)
    requires ValidConfig(cfg)
  {
    path in OutFiles(cfg, schedule) || path in After(cfg, schedule).files
  }

  /** Output files are those of the opened jobs. */
  ghost predicate OutKeys(cfg: Config, s: State, files: map<string, string>) {
    && (forall p :: p in files ==> exists j: nat :: j < |cfg.jobs| && p == OutPathOf(cfg, j))
    && (forall j: nat :: j < |cfg.jobs| && Opened(s, j) ==> OutPathOf(cfg, j) in files)
  }

  lemma OutKeysStep(cfg: Config, s: State, t: nat, k: nat, files: map<string, string>)
    requires ValidConfig(cfg) && Shape(cfg, s) && Placed(cfg, s) && Enabled(cfg, s, ThreadStep(t, k))
    requires OutKeys(cfg, s, files)
    ensures OutKeys(cfg, Do(cfg, s, ThreadStep(t, k)), OutFilesStep(cfg, s, t, files))
  {
    var th, s' := s.threads[t], Do(cfg, s, ThreadStep(t, k));
    assert ThreadOk(cfg, th);
    forall j: nat | j < |cfg.jobs| && Opened(s', j) ensures OutPathOf(cfg, j) in OutFilesStep(cfg, s, t, files) {
      OpenedStep(cfg, s, t, k, j);
    }
  }

  lemma {:induction false} OutKeysHold(cfg: Config, schedule: seq<Action>)
    requires ValidConfig(cfg)
    ensures OutKeys(cfg, After(cfg, schedule), OutFiles(cfg, schedule))
  {
    hide OutKeys, OutFilesStep, Placed, Advance, ThreadOk;
    if schedule == [] {
      NoOutKeys(cfg);
    } else {
      var init, a := schedule[..|schedule| - 1], schedule[|schedule| - 1];
      OutKeysHold(cfg, init);
      AlwaysPlaced(cfg, init);
      var s := After(cfg, init);
      if Enabled(cfg, s, a) {
        if a.ThreadStep? {
          OutKeysStep(cfg, s, a.t, a.child, OutFiles(cfg, init));
        } else {
          OutKeysKeep(cfg, s, a, OutFiles(cfg, init));
        }
      }
    }
  }

  lemma OutKeysKeep(cfg: Config, s: State, a: Action, files: map<string, string>)
    requires ValidConfig(cfg) && Shape(cfg, s) && Enabled(cfg, s, a) && !a.ThreadStep? && OutKeys(cfg, s, files)
    ensures OutKeys(cfg, Do(cfg, s, a), files)
  {
    var s' := Do(cfg, s, a);
    assert s'.threads == s.threads && s'.nextJob == s.nextJob;
    assert forall j :: Opened(s', j) == Opened(s, j);
  }

  lemma NoOutKeys(cfg: Config)
    ensures OutKeys(cfg, Init(cfg), map[])
  {
  }

  /** Backup files are those of the children that have exited. */
  ghost predicate BackupKeys(cfg: Config, s: State) {
    && (forall p :: p in s.files ==> exists k :: WrittenBy(cfg, s, p, k))
    && (forall k :: 0 <= k < |s.children| && s.children[k].status != Running ==> Path(cfg, s.children[k]) in s.files)
  }

  /** The children stay, with their paths; those that exited have their file. */
  ghost predicate SameChildren(cfg: Config, s: State, s': State) {
    && |s.children| <= |s'.children|
    && (forall k :: 0 <= k < |s.children| ==>
          && Path(cfg, s'.children[k]) == Path(cfg, s.children[k])
          && (s.children[k].status != Running ==> s'.children[k].status != Running))
    && (forall k :: |s.children| <= k < |s'.children| ==> s'.children[k].status == Running)
  }

  lemma StepKeepsChildren(cfg: Config, s: State, a: Action)
    requires ValidConfig(cfg) && Shape(cfg, s) && Enabled(cfg, s, a)
    ensures SameChildren(cfg, s, Do(cfg, s, a))
    ensures !a.ChildExit? ==> Do(cfg, s, a).files == s.files
    ensures !a.ChildExit? ==> forall k :: 0 <= k < |s.children| && Do(cfg, s, a).children[k].status != Running ==>
                                s.children[k].status != Running
  {
    hide Advance, ThreadOk, LocksAfter, TableAfter, OutAfter, Prints, ActiveAfter, NextJobAfter, BackupPath;
  }

  lemma BackupKeysKeep(cfg: Config, s: State, s': State)
    requires BackupKeys(cfg, s) && SameChildren(cfg, s, s') && s'.files == s.files
    requires forall k :: 0 <= k < |s.children| && s'.children[k].status != Running ==> s.children[k].status != Running
    ensures BackupKeys(cfg, s')
  {
    hide Path;
    forall p | p in s'.files ensures exists k :: WrittenBy(cfg, s', p, k) {
      var k :| WrittenBy(cfg, s, p, k);
      assert WrittenBy(cfg, s', p, k);
    }
  }

  lemma BackupKeysExit(cfg: Config, s: State, k: nat)
    requires ValidConfig(cfg) && Shape(cfg, s) && BackupKeys(cfg, s) && Enabled(cfg, s, ChildExit(k))
    ensures BackupKeys(cfg, Do(cfg, s, ChildExit(k)))
  {
    var s' := Do(cfg, s, ChildExit(k));
    StepKeepsChildren(cfg, s, ChildExit(k));
    hide Path, Listing.Text, Shape, ValidConfig;
    forall p | p in s'.files ensures exists i :: WrittenBy(cfg, s', p, i) {
      if p == Path(cfg, s.children[k]) {
        assert WrittenBy(cfg, s', p, k);
      } else {
        var i :| WrittenBy(cfg, s, p, i);
        assert WrittenBy(cfg, s', p, i);
      }
    }
  }

  lemma {:induction false} BackupKeysHold(cfg: Config, schedule: seq<Action>)
    requires ValidConfig(cfg)
    ensures BackupKeys(cfg, After(cfg, schedule))
  {
    hide BackupKeys, Advance, ThreadOk;
    if schedule == [] {
      NoBackupKeys(cfg);
    } else {
      var init, a := schedule[..|schedule| - 1], schedule[|schedule| - 1];
      BackupKeysHold(cfg, init);
      var s := After(cfg, init);
      if Enabled(cfg, s, a) {
        if a.ChildExit? {
          BackupKeysExit(cfg, s, a.k);
        } else {
          StepKeepsChildren(cfg, s, a);
          BackupKeysKeep(cfg, s, Do(cfg, s, a));
        }
      }
    }
  }

  lemma NoBackupKeys(cfg: Config)
    ensures BackupKeys(cfg, Init(cfg))
  {
  }

  /** The files of a program: an output file for each job, and a backup for each of its BACKUPs. */
  ghost predicate Expected(cfg: Config, path: string)
    requires ValidConfig(cfg)
  {
    exists j: nat :: j < |cfg.jobs| && OfJob(cfg, j, path)
  }

  ghost predicate OfJob(cfg: Config, j: nat, path: string)
    requires ValidConfig(cfg) && j < |cfg.jobs|
  {
    || path == OutPathOf(cfg, j)
    || exists n: nat :: 1 <= n <= BackupsIn(cfg.jobs[j]) && path == BackupPath(cfg.dir, cfg.names[j], n)
  }

  /** No run writes anything else, whatever its names. */
  lemma WritesOnlyExpected(cfg: Config, schedule: seq<Action>, path: string)
    requires ValidConfig(cfg) && Written(cfg, schedule, path)
    ensures Expected(cfg, path)
  {
    OutKeysHold(cfg, schedule);
    if path in OutFiles(cfg, schedule) {
      var j: nat :| j < |cfg.jobs| && path == OutPathOf(cfg, j);
      assert OfJob(cfg, j, path);
    } else {
      var s, order := After(cfg, schedule), Order(cfg, schedule);
      BackupKeysHold(cfg, schedule);
      var k :| WrittenBy(cfg, s, path, k);
      Linearizable(cfg, schedule);
      RunNumbers(cfg, order);
      var ser, child := Run(cfg, order), s.children[k];
      assert ser.forks[k] == Fork(child.job, child.number, child.copy);
      NumberBound(ser.forks, k);
      ForksAreBackups(cfg, order, child.job);
      BackupsGrow(cfg.jobs[child.job], ser.pos[child.job]);
      assert path == BackupPath(cfg.dir, cfg.names[child.job], child.number);
      assert OfJob(cfg, child.job, path);
    }
  }

  ghost predicate Over(cfg: Config, schedule: seq<Action>) {
    ValidConfig(cfg) && cfg.threads > 0 && After(cfg, schedule).main == Finished
  }

  lemma AllOpened(cfg: Config, schedule: seq<Action>, j: nat)
    requires Over(cfg, schedule) && j < |cfg.jobs|
    ensures Opened(After(cfg, schedule), j)
  {
    EndsWithNoChildren(cfg, schedule);
    LeavingMeansAllClaimed(cfg, schedule, 0);
  }

  /** At the end of a run the backup with this number has been made. */
  lemma BackupMade(cfg: Config, schedule: seq<Action>, j: nat, n: nat) returns (k: nat)
    requires Over(cfg, schedule) && j < |cfg.jobs| && 1 <= n <= BackupsIn(cfg.jobs[j])
    ensures var s := After(cfg, schedule);
            k < |s.children| && s.children[k].job == j && s.children[k].number == n && s.children[k].status == Reaped
  {
    var s, order := After(cfg, schedule), Order(cfg, schedule);
    var ser := Run(cfg, order);
    EndsWithNoChildren(cfg, schedule);
    FinalStateIsSerial(cfg, schedule);
    Linearizable(cfg, schedule);
    RunNumbers(cfg, order);
    ForksAreBackups(cfg, order, j);
    assert cfg.jobs[j][..|cfg.jobs[j]|] == cfg.jobs[j];
    hide Numbered, ForkCount, SamePlace, SameText, SameTable, BackupsIn, ValidConfig, Order, Run;
    k := ForkNumber(ser.forks, j, n);
    assert ser.forks[k] == Fork(s.children[k].job, s.children[k].number, s.children[k].copy);
  }

  /** And a whole run writes them all. */
  lemma WritesAllExpected(cfg: Config, schedule: seq<Action>, path: string)
    requires Over(cfg, schedule) && Expected(cfg, path)
    ensures Written(cfg, schedule, path)
  {
    var j: nat :| j < |cfg.jobs| && OfJob(cfg, j, path);
    if path == OutPathOf(cfg, j) {
      OutKeysHold(cfg, schedule);
      AllOpened(cfg, schedule, j);
    } else {
      var n: nat :| 1 <= n <= BackupsIn(cfg.jobs[j]) && path == BackupPath(cfg.dir, cfg.names[j], n);
      var k := BackupMade(cfg, schedule, j, n);
      BackupKeysHold(cfg, schedule);
      assert Path(cfg, After(cfg, schedule).children[k]) == path;
    }
    hide OutKeys, BackupPath, OutPath, BackupsIn, ValidConfig, After, OutFiles;
  }

  // The scripts.

  /** The file a job is read from. */
  function InPath(cfg: Config, j: nat): string
    requires j < |cfg.names|
  {
    cfg.dir + "/" + cfg.names[j]
  }

  /** A program's run reaches the state where one of its scripts has been written to. */
  ghost predicate Overwrites(cfg: Config)
    requires ValidConfig(cfg)
  {
    exists schedule, i: nat :: i < |cfg.names| && Written(cfg, schedule, InPath(cfg, i))
  }

  /** Entry `i` has the name of job `j`'s output file, or of one of its backups. */
  ghost predicate TakenBy(cfg: Config, i: nat, j: nat)
    requires ValidConfig(cfg) && i < |cfg.names| && j < |cfg.names|
  {
    || cfg.names[i] == OutName(cfg.names[j])
    || exists n: nat :: 1 <= n <= BackupsIn(cfg.jobs[j]) && cfg.names[i] == BackupName(cfg.names[j], n)
  }

  function OutName(name: string): string {
    Stem(name) + ".out"
  }

  function BackupName(name: string, n: nat): string {
    Stem(name) + "-" + Text.Decimal(n) + ".bck"
  }

  lemma SamePrefix(dir: string, name: string, other: string)
    ensures dir + "/" + name == dir + "/" + other <==> name == other
  {
    assert (dir + "/" + name)[|dir| + 1..] == name && (dir + "/" + other)[|dir| + 1..] == other;
  }

  lemma PathsAreNames(dir: string, name: string, n: nat)
    ensures OutPath(dir, name) == dir + "/" + OutName(name)
    ensures BackupPath(dir, name, n) == dir + "/" + BackupName(name, n)
  {
    assert (dir + "/") + (Stem(name) + ".out") == dir + "/" + Stem(name) + ".out";
    assert (dir + "/") + (Stem(name) + "-" + Text.Decimal(n) + ".bck")
        == dir + "/" + Stem(name) + "-" + Text.Decimal(n) + ".bck";
  }

  /** No output file is also a backup. */
  lemma OutputsAreNotBackups(dir: string, name: string, other: string, n: nat)
    ensures OutPath(dir, name) != BackupPath(dir, other, n)
  {
    var p, q := OutPath(dir, name), BackupPath(dir, other, n);
    assert p[|p| - 1] == 't' && q[|q| - 1] == 'k';
  }

  lemma TakenIsOfJob(cfg: Config, i: nat, j: nat)
    requires ValidConfig(cfg) && i < |cfg.names| && j < |cfg.names|
    ensures TakenBy(cfg, i, j) <==> OfJob(cfg, j, InPath(cfg, i))
  {
    PathsAreNames(cfg.dir, cfg.names[j], 0);
    SamePrefix(cfg.dir, cfg.names[i], OutName(cfg.names[j]));
    forall n: nat
      ensures cfg.names[i] == BackupName(cfg.names[j], n) <==> InPath(cfg, i) == BackupPath(cfg.dir, cfg.names[j], n)
    {
      PathsAreNames(cfg.dir, cfg.names[j], n);
      SamePrefix(cfg.dir, cfg.names[i], BackupName(cfg.names[j], n));
    }
  }

  /** A program can overwrite one of its scripts exactly when an entry has the name of a file it makes. */
  lemma OverwritesExactly(cfg: Config)
    requires ValidConfig(cfg) && cfg.threads > 0
    ensures Overwrites(cfg) <==> exists i: nat, j: nat :: i < |cfg.names| && j < |cfg.names| && TakenBy(cfg, i, j)
  {
    if Overwrites(cfg) {
      var schedule, i: nat :| i < |cfg.names| && Written(cfg, schedule, InPath(cfg, i));
      WritesOnlyExpected(cfg, schedule, InPath(cfg, i));
      var j: nat :| j < |cfg.jobs| && OfJob(cfg, j, InPath(cfg, i));
      TakenIsOfJob(cfg, i, j);
    }
    if i: nat, j: nat :| i < |cfg.names| && j < |cfg.names| && TakenBy(cfg, i, j) {
      TakenIsOfJob(cfg, i, j);
      var schedule := Termination.SomeRunFinishes(cfg);
      WritesAllExpected(cfg, schedule, InPath(cfg, i));
    }
  }

  /** No program with these names ever writes to one of its scripts. */
  ghost predicate ScriptsKept(names: seq<string>) {
    forall cfg :: ValidConfig(cfg) && cfg.names == names ==> !Overwrites(cfg)
  }

  /** No entry has the name of an output file or of a backup of another, or of its own. */
  ghost predicate NoneTaken(names: seq<string>) {
    && (forall i, j :: 0 <= i < |names| && 0 <= j < |names| ==> names[i] != OutName(names[j]))
    && (forall i, j, n: nat :: 0 <= i < |names| && 0 <= j < |names| && n >= 1 ==> names[i] != BackupName(names[j], n))
  }

  /** A program with these names in which every job is this many BACKUPs. */
  function AllBackups(names: seq<string>, n: nat): Config {
    Config(names, seq(|names|, _ => seq(n, _ => Backup)), ".", 1, 1)
  }

  lemma {:induction false} BackupsOf(n: nat)
    ensures BackupsIn(seq(n, _ => Backup)) == n
  {
    if n > 0 {
      BackupsOf(n - 1);
      assert seq(n, _ => Backup)[..n - 1] == seq(n - 1, _ => Backup);
    }
  }

  lemma TakenInBackups(names: seq<string>, n: nat, i: nat, j: nat)
    requires i < |names| && j < |names|
    requires names[i] == OutName(names[j]) || (n >= 1 && names[i] == BackupName(names[j], n))
    ensures ValidConfig(AllBackups(names, n)) && Expected(AllBackups(names, n), InPath(AllBackups(names, n), i))
  {
    var cfg := AllBackups(names, n);
    BackupsOf(n);
    assert TakenBy(cfg, i, j);
    TakenIsOfJob(cfg, i, j);
    hide BackupsIn, OfJob, InPath, TakenBy;
  }

  /** If an entry is taken, a program with these names has a whole run that writes to it. */
  lemma TakenRun(names: seq<string>) returns (cfg: Config, schedule: seq<Action>, i: nat)
    requires !NoneTaken(names)
    ensures Over(cfg, schedule) && cfg.names == names && i < |names| && Written(cfg, schedule, InPath(cfg, i))
  {
    hide OutName, BackupName, Expected, Written;
    var j, n: nat;
    if k, l: nat :| 0 <= k < |names| && l < |names| && names[k] == OutName(names[l]) {
      i, j, n := k, l, 0;
    } else {
      i, j, n :| 0 <= i < |names| && 0 <= j < |names| && n >= 1 && names[i] == BackupName(names[j], n);
    }
    cfg := AllBackups(names, n);
    TakenInBackups(names, n, i, j);
    schedule := Termination.SomeRunFinishes(cfg);
    WritesAllExpected(cfg, schedule, InPath(cfg, i));
  }

  /**
   Exactly when. A run is one of the program only up to its first write to a script, so the half that
   says a script is lost speaks of that write.
   */
  lemma ScriptsKeptExactly(names: seq<string>)
    ensures ScriptsKept(names) <==> NoneTaken(names)
  {
    if NoneTaken(names) {
      forall cfg | ValidConfig(cfg) && cfg.names == names ensures !Overwrites(cfg) {
        if schedule, i: nat :| i < |cfg.names| && Written(cfg, schedule, InPath(cfg, i)) {
          WritesOnlyExpected(cfg, schedule, InPath(cfg, i));
          var j: nat :| j < |cfg.jobs| && OfJob(cfg, j, InPath(cfg, i));
          TakenIsOfJob(cfg, i, j);
        }
      }
    } else {
      var cfg, schedule, i := TakenRun(names);
      assert Overwrites(cfg);
    }
  }

  /** Entries that end in ".job" are never taken. */
  lemma JobNamesNotTaken(names: seq<string>)
    requires forall i :: 0 <= i < |names| ==> |names[i]| >= 4 && names[i] == Stem(names[i]) + ".job"
    ensures NoneTaken(names)
  {
    forall i, j, n: nat | 0 <= i < |names| && 0 <= j < |names|
      ensures names[i] != OutName(names[j]) && names[i] != BackupName(names[j], n)
    {
      assert names[i][|names[i]| - 1] == 'b';
      assert OutName(names[j])[|OutName(names[j])| - 1] == 't';
      assert BackupName(names[j], n)[|BackupName(names[j], n)| - 1] == 'k';
    }
  }
}
