/** When the jobs of a run disturb each other's files: what the names of their entries decide. */
module Sharing {
  import opened Store
  import opened Commands
  import opened Protocol
  import opened Serial
  import opened Linearizability
  import opened Backups
  import opened Dispatch
  import opened OutputFiles
  import opened Directory
  import AtomicMap
  import Listing
  import Termination
  import Text

  // The readings of "no job disturbs another's files".

  /** No two backups of any run with these names share a file. */
  ghost predicate NeverShared(names: seq<string>) {
    forall cfg, schedule :: ValidConfig(cfg) && cfg.names == names ==> ApartIn(cfg, After(cfg, schedule))
  }

  ghost predicate ApartIn(cfg: Config, s: State) {
    forall i, k :: 0 <= i < k < |s.children| ==> Path(cfg, s.children[i]) != Path(cfg, s.children[k])
  }

  /** In every reachable state the file of every exited child holds the listing of that child's copy. */
  ghost predicate BackupsKept(names: seq<string>) {
    forall cfg, schedule :: ValidConfig(cfg) && cfg.names == names ==> FilesOk(cfg, After(cfg, schedule))
  }

  /**
   When a run is over, the output file of every job is the serial text of the script in the directory:
   the script was never written to, and the file holds what its commands print in the serial run.
   */
  ghost predicate OutputsKept(names: seq<string>) {
    forall cfg, schedule, j: nat :: Over(cfg, schedule) && cfg.names == names && j < |names| ==>
             SerialFile(cfg, schedule, j) && !Written(cfg, schedule, InPath(cfg, j))
  }

  /** The output file of job `j` holds what its commands print in the serial run. */
  ghost predicate SerialFile(cfg: Config, schedule: seq<Action>, j: nat)
    requires ValidConfig(cfg) && j < |cfg.jobs|
  {
    && OutPathOf(cfg, j) in OutFiles(cfg, schedule)
    && OutFiles(cfg, schedule)[OutPathOf(cfg, j)] == Run(cfg, Order(cfg, schedule)).out[j]
  }

  /** The commands are those of the scripts in the directory when no entry is taken. */
  lemma FinalFilesAreSerial(cfg: Config, schedule: seq<Action>, j: nat)
    requires Over(cfg, schedule) && DistinctStems(cfg.names) && j < |cfg.jobs|
    ensures SerialFile(cfg, schedule, j)
    ensures NoneTaken(cfg.names) ==> !Written(cfg, schedule, InPath(cfg, j))
  {
    var s := After(cfg, schedule);
    EndsWithNoChildren(cfg, schedule);
    FinalStateIsSerial(cfg, schedule);
    OutputFilesHold(cfg, schedule);
    AllOpened(cfg, schedule, j);
    assert OwnFile(cfg, s, OutFiles(cfg, schedule), j);
    ScriptsKeptExactly(cfg.names);
    assert Written(cfg, schedule, InPath(cfg, j)) ==> Overwrites(cfg);
  }

  // A run in which two jobs with one stem disturb each other.

  /** Job `i` reads and backs up, job `j` writes and backs up, the others do nothing. */
  function JobOf(i: nat, j: nat, k: nat): seq<Command> {
    if k == i then [Read(["a"]), Backup] else if k == j then [Write([Pair("a", "1")]), Backup] else []
  }

  function Twins(names: seq<string>, i: nat, j: nat): Config {
    Config(names, seq(|names|, k requires 0 <= k < |names| => JobOf(i, j, k)), ".", 1, 1)
  }

  lemma TwinsRun(names: seq<string>, i: nat, j: nat)
    requires i < j < |names|
    ensures ValidConfig(Twins(names, i, j))
  {
    var cfg := Twins(names, i, j);
    forall k: nat, c: nat | k < |cfg.jobs| && c < |cfg.jobs[k]| ensures ValidCommand(cfg.jobs[k][c]) {
      assert ValidCommand(Read(["a"])) && ValidCommand(Write([Pair("a", "1")])) && ValidCommand(Backup);
    }
  }

  // With one thread the jobs run one after another.

  predicate InOrder(order: seq<nat>) {
    forall p, q :: 0 <= p < q < |order| ==> order[p] <= order[q]
  }

  ghost predicate OneByOne(s: State, order: seq<nat>) {
    && InOrder(order) && (forall p :: 0 <= p < |order| ==> order[p] < s.nextJob)
    && forall t :: 0 <= t < |s.threads| && Active(s.threads[t]) ==> s.threads[t].job + 1 == s.nextJob
  }

  lemma OneByOneStep(cfg: Config, s: State, a: Action, order: seq<nat>)
    requires ValidConfig(cfg) && cfg.threads == 1 && Shape(cfg, s) && Enabled(cfg, s, a) && OneByOne(s, order)
    ensures var point := LockPoint(cfg, s, a);
            OneByOne(Do(cfg, s, a), order + if point.Some? then [point.value] else [])
  {
    if a.ThreadStep? {
      var th := s.threads[a.t];
      assert ThreadOk(cfg, th);
      OutLocal(cfg, s, th, a.child);
      DoThread(cfg, s, a.t, a.child);
      OnlyClaimsChangeTheJob(cfg, s, th, a.child);
      assert AtLockPoint(cfg, th) ==> Active(th);
      hide Advance, ThreadOk;
    }
  }

  lemma {:induction false} OneThreadInOrder(cfg: Config, schedule: seq<Action>)
    requires ValidConfig(cfg) && cfg.threads == 1
    ensures OneByOne(After(cfg, schedule), Order(cfg, schedule))
  {
    hide OneByOne, ThreadOk, Advance;
    if schedule == [] {
      StartsOneByOne(cfg);
    } else {
      var init, a := schedule[..|schedule| - 1], schedule[|schedule| - 1];
      OneThreadInOrder(cfg, init);
      var s := After(cfg, init);
      assert Order(cfg, init) + [] == Order(cfg, init);
      if Enabled(cfg, s, a) {
        OneByOneStep(cfg, s, a, Order(cfg, init));
      }
    }
  }

  lemma StartsOneByOne(cfg: Config)
    ensures OneByOne(Init(cfg), [])
  {
  }

  /** What the serial run of the twins keeps: only job `j` fills the table, only job `i` prints, each backs up once. */
  ghost predicate TwinsOk(a: Serial, i: nat, j: nat, order: seq<nat>)
    requires i < j < |a.pos| == |a.out|
  {
    && WellFormed(a.table)
    && ((forall p :: 0 <= p < |order| ==> order[p] < j) ==> a.table == EMPTY)
    && (a.pos[j] > 0 ==> "a" in ToMap(a.table))
    && a.out[j] == "" && (a.pos[i] > 0 ==> a.out[i] != "")
    && (forall k :: 0 <= k < |a.forks| ==> CopyOk(a.forks[k], i, j))
    && ForkCount(a.forks, i) == (if a.pos[i] >= 2 then 1 else 0)
    && ForkCount(a.forks, j) == (if a.pos[j] >= 2 then 1 else 0)
  }

  ghost predicate CopyOk(f: Fork, i: nat, j: nat) {
    (f.job == i ==> f.copy == EMPTY) && (f.job == j ==> "a" in ToMap(f.copy))
  }

  /** What one command does to the serial machine, read off the map. */
  lemma SerialStep(cfg: Config, a: Serial, q: nat)
    requires ValidConfig(cfg) && Fits(cfg, a) && HasNext(cfg, a, q) && WellFormed(a.table)
    requires NextCommand(cfg, a, q).Read? || NextCommand(cfg, a, q).Write? || NextCommand(cfg, a, q).Backup?
    ensures var c, a' := NextCommand(cfg, a, q), RunNext(cfg, a, q);
            && WellFormed(a'.table) && ToMap(a'.table) == AtomicMap.Act(c, ToMap(a.table))
            && (!c.Write? ==> a'.table == a.table)
            && a'.pos == a.pos[q := a.pos[q] + 1]
            && a'.out == a.out[q := a.out[q] + AtomicMap.Say(c, ToMap(a.table))]
            && a'.forks == if c.Backup? then a.forks + [Fork(q, ForkCount(a.forks, q) + 1, a.table)] else a.forks
  {
    var c := NextCommand(cfg, a, q);
    AtomicMap.ActsOnMap(c, a.table);
    if !c.Write? {
      TableStays(c, a.table);
    }
    assert RunNext(cfg, a, q).pos == a.pos[q := a.pos[q] + 1];
    hide WellFormed, ToMap, AtomicMap.Act, AtomicMap.Say, ForkCount, ExecTable, ExecText, ValidCommand, ValidConfig;
    hide Fits;
  }

  lemma TableStays(c: Command, t: Table)
    requires ValidCommand(c) && WellFormed(t) && (c.Read? || c.Backup?)
    ensures ExecTable(c, t) == t
  {
    if c.Read? {
      ReadMeans(c.keys, t);
    }
  }

  lemma ForksPush(forks: seq<Fork>, f: Fork)
    ensures forall k :: ForkCount(forks + [f], k) == ForkCount(forks, k) + if f.job == k then 1 else 0
  {
    forall k ensures ForkCount(forks + [f], k) == ForkCount(forks, k) + if f.job == k then 1 else 0 {
      ForkCountPush(forks, f, k);
    }
  }

  lemma OrderPush(order: seq<nat>, q: nat, j: nat)
    ensures (forall p :: 0 <= p < |order + [q]| ==> (order + [q])[p] < j) <==>
              q < j && forall p :: 0 <= p < |order| ==> order[p] < j
  {
    assert (order + [q])[|order|] == q;
    assert forall p :: 0 <= p < |order| ==> (order + [q])[p] == order[p];
  }

  /** The twin's first command: what it prints or stores. */
  lemma FirstCommand(a: Serial, a': Serial, i: nat, j: nat, order: seq<nat>, q: nat)
    requires i < j < |a.pos| == |a.out| && TwinsOk(a, i, j, order) && q in {i, j} && a.pos[q] == 0 &&
               WellFormed(a'.table)
    requires a'.pos == a.pos[q := 1] && a'.forks == a.forks
    requires q == i ==> a'.table == a.table && |a'.out| == |a.out| && a'.out[i] != "" && a'.out[j] == a.out[j]
    requires q == j ==> a'.out == a.out && "a" in ToMap(a'.table)
    ensures TwinsOk(a', i, j, order + [q])
  {
    hide WellFormed, ToMap, ForkCount, CopyOk;
    OrderPush(order, q, j);
  }

  /** Its second: the backup. */
  lemma SecondCommand(a: Serial, a': Serial, i: nat, j: nat, order: seq<nat>, q: nat, number: nat)
    requires i < j < |a.pos| == |a.out| && TwinsOk(a, i, j, order) && q in {i, j} && a.pos[q] == 1
    requires q == i ==> forall p :: 0 <= p < |order| ==> order[p] < j
    requires a'.pos == a.pos[q := 2] && a'.out == a.out && a'.table == a.table &&
               a'.forks == a.forks + [Fork(q, number, a.table)]
    ensures TwinsOk(a', i, j, order + [q])
  {
    OrderPush(order, q, j);
    ForksPush(a.forks, Fork(q, number, a.table));
    assert CopyOk(Fork(q, number, a.table), i, j);
    hide WellFormed, ToMap, ForkCount, CopyOk;
  }

  lemma SayRead(m: map<string, string>)
    ensures AtomicMap.Say(Read(["a"]), m) != "" == AtomicMap.Say(Write([Pair("a", "1")]), m) == AtomicMap.Say(Backup, m)
  {
  }

  lemma TwinsParts(a: Serial, i: nat, j: nat, order: seq<nat>)
    requires i < j < |a.pos| == |a.out| && TwinsOk(a, i, j, order)
    ensures WellFormed(a.table) && a.out[j] == "" && forall q :: 0 <= q < |a.out| ==> a.out[q := a.out[q] + ""] == a.out
  {
    forall q | 0 <= q < |a.out| ensures a.out[q := a.out[q] + ""] == a.out {
      assert a.out[q] + "" == a.out[q];
    }
  }

  lemma ReaderStarts(cfg: Config, a: Serial, i: nat, j: nat, order: seq<nat>)
    requires ValidConfig(cfg) && Fits(cfg, a) && i < j < |cfg.jobs| && TwinsOk(a, i, j, order)
    requires HasNext(cfg, a, i) && a.pos[i] == 0 && NextCommand(cfg, a, i) == Read(["a"])
    ensures TwinsOk(RunNext(cfg, a, i), i, j, order + [i])
  {
    assert |a.pos| == |a.out| == |cfg.jobs|;
    hide *;
    TwinsParts(a, i, j, order);
    SayRead(ToMap(a.table));
    SerialStep(cfg, a, i);
    assert RunNext(cfg, a, i).out[j] == a.out[j] && RunNext(cfg, a, i).out[i] != "";
    FirstCommand(a, RunNext(cfg, a, i), i, j, order, i);
  }

  lemma WriterStarts(cfg: Config, a: Serial, i: nat, j: nat, order: seq<nat>)
    requires ValidConfig(cfg) && Fits(cfg, a) && i < j < |cfg.jobs| && TwinsOk(a, i, j, order)
    requires HasNext(cfg, a, j) && a.pos[j] == 0 && NextCommand(cfg, a, j) == Write([Pair("a", "1")])
    ensures TwinsOk(RunNext(cfg, a, j), i, j, order + [j])
  {
    assert |a.pos| == |a.out| == |cfg.jobs|;
    hide *;
    TwinsParts(a, i, j, order);
    SayRead(ToMap(a.table));
    SerialStep(cfg, a, j);
    WriteStores(Pair("a", "1"), ToMap(a.table));
    assert RunNext(cfg, a, j).out == a.out;
    FirstCommand(a, RunNext(cfg, a, j), i, j, order, j);
  }

  lemma TwinBacksUp(cfg: Config, a: Serial, i: nat, j: nat, order: seq<nat>, q: nat)
    requires ValidConfig(cfg) && Fits(cfg, a) && i < j < |cfg.jobs| && TwinsOk(a, i, j, order)
    requires q in {i, j} && HasNext(cfg, a, q) && a.pos[q] == 1 && NextCommand(cfg, a, q) == Backup
    requires forall p :: 0 <= p < |order| ==> order[p] <= q
    ensures TwinsOk(RunNext(cfg, a, q), i, j, order + [q])
  {
    assert |a.pos| == |a.out| == |cfg.jobs|;
    hide *;
    TwinsParts(a, i, j, order);
    SayRead(ToMap(a.table));
    SerialStep(cfg, a, q);
    SecondCommand(a, RunNext(cfg, a, q), i, j, order, q, ForkCount(a.forks, q) + 1);
  }

  lemma WriteStores(p: Pair, m: map<string, string>)
    ensures p.key in AtomicMap.Act(Write([p]), m)
  {
  }

  lemma {:induction false} TwinsInSerial(names: seq<string>, i: nat, j: nat, order: seq<nat>)
    requires i < j < |names| && InOrder(order) && ValidConfig(Twins(names, i, j))
    ensures TwinsOk(Run(Twins(names, i, j), order), i, j, order)
  {
    var cfg := Twins(names, i, j);
    hide RunNext, ValidConfig, TwinsOk;
    if order == [] {
      TwinsStart(cfg, i, j);
    } else {
      var init, q := order[..|order| - 1], order[|order| - 1];
      TwinsInSerial(names, i, j, init);
      var a := Run(cfg, init);
      assert order == init + [q];
      assert HasNext(cfg, a, q) ==> cfg.jobs[q] == JobOf(i, j, q) && (q == i || q == j);
      if HasNext(cfg, a, q) {
        if a.pos[q] == 0 && q == i {
          ReaderStarts(cfg, a, i, j, init);
        } else if a.pos[q] == 0 {
          WriterStarts(cfg, a, i, j, init);
        } else {
          TwinBacksUp(cfg, a, i, j, init, q);
        }
      } else {
        TwinsWait(a, i, j, init, q);
      }
    }
  }

  lemma TwinsStart(cfg: Config, i: nat, j: nat)
    requires i < j < |cfg.jobs|
    ensures TwinsOk(Start(cfg), i, j, [])
  {
    EmptyMap();
  }

  lemma TwinsWait(a: Serial, i: nat, j: nat, order: seq<nat>, q: nat)
    requires i < j < |a.pos| == |a.out| && TwinsOk(a, i, j, order)
    ensures TwinsOk(a, i, j, order + [q])
  {
    OrderPush(order, q, j);
  }

  /** The end of a run of the twins, and their two backups. */
  ghost predicate Collision(names: seq<string>, i: nat, j: nat, schedule: seq<Action>, p: nat, q: nat)
    requires i < j < |names| && ValidConfig(Twins(names, i, j))
  {
    var s, ser := After(Twins(names, i, j), schedule), Run(Twins(names, i, j), Order(Twins(names, i, j), schedule));
    && s.main == Finished && p < |s.children| && q < |s.children|
    && s.children[p].job == i && s.children[p].number == 1 && s.children[p].copy == EMPTY
    && s.children[q].job == j && s.children[q].number == 1 && "a" in ToMap(s.children[q].copy)
    && ser.out[i] != "" == ser.out[j]
  }

  lemma TwinsEnd(cfg: Config, schedule: seq<Action>)
    requires ValidConfig(cfg) && cfg.threads == 1 && After(cfg, schedule).main == Finished
    ensures var s, ser := After(cfg, schedule), Run(cfg, Order(cfg, schedule));
            && InOrder(Order(cfg, schedule)) && SameForks(s, ser) && Numbered(ser.forks)
            && forall k :: 0 <= k < |cfg.jobs| ==> ser.pos[k] == |cfg.jobs[k]|
  {
    EndsWithNoChildren(cfg, schedule);
    FinalStateIsSerial(cfg, schedule);
    Linearizable(cfg, schedule);
    OneThreadInOrder(cfg, schedule);
    RunNumbers(cfg, Order(cfg, schedule));
  }

  lemma TwinsCollide(names: seq<string>, i: nat, j: nat) returns (schedule: seq<Action>, p: nat, q: nat)
    requires i < j < |names|
    ensures ValidConfig(Twins(names, i, j)) && Collision(names, i, j, schedule, p, q)
  {
    var cfg := Twins(names, i, j);
    TwinsRun(names, i, j);
    schedule := Termination.SomeRunFinishes(cfg);
    TwinsEnd(cfg, schedule);
    var order := Order(cfg, schedule);
    TwinsInSerial(names, i, j, order);
    var ser := Run(cfg, order);
    assert |cfg.jobs[i]| == 2 && |cfg.jobs[j]| == 2;
    p := ForkNumber(ser.forks, i, 1);
    q := ForkNumber(ser.forks, j, 1);
    assert CopyOk(ser.forks[p], i, j) && CopyOk(ser.forks[q], i, j);
    hide WellFormed, ToMap, ForkCount, Numbered;
  }

  // What the collision breaks.

  lemma {:induction false} EmptyText(t: Table, b: nat)
    requires b <= TABLE_SIZE
    ensures Listing.TableLines(t, b) == "" <==> forall c :: b <= c < TABLE_SIZE ==> t[c] == []
    decreases TABLE_SIZE - b
  {
    if b < TABLE_SIZE {
      EmptyText(t, b + 1);
      if t[b] != [] {
        assert Listing.ChainLines(t[b]) == Listing.Line(t[b][0]) + Listing.ChainLines(t[b][1..]);
      }
    }
  }

  lemma EmptyPrintsNothing()
    ensures Listing.Text(EMPTY) == ""
  {
    assert forall c :: 0 <= c < TABLE_SIZE ==> EMPTY[c] == [];
    hide *;
    EmptyText(EMPTY, 0);
    TextIsLines(EMPTY);
  }

  lemma TextIsLines(t: Table)
    ensures Listing.Text(t) == Listing.TableLines(t, 0)
  {
  }

  lemma LiveKeyPrints(t: Table)
    requires "a" in ToMap(t)
    ensures Listing.Text(t) != ""
  {
    assert ReadPair(t, "a").Some?;
    hide Keys, ToMap, Listing.TableLines;
    assert t[Hash("a")] != [];
    EmptyText(t, 0);
  }

  lemma SharedBackup(names: seq<string>, i: nat, j: nat)
    requires i < j < |names| && Stem(names[i]) == Stem(names[j])
    ensures !NeverShared(names) && !BackupsKept(names)
  {
    var cfg := Twins(names, i, j);
    var schedule, p, q := TwinsCollide(names, i, j);
    var s := After(cfg, schedule);
    assert Path(cfg, s.children[p]) == Path(cfg, s.children[q]) && !ApartIn(cfg, s);
    LiveKeyPrints(s.children[q].copy);
    EmptyPrintsNothing();
    EndsWithNoChildren(cfg, schedule);
    hide ToMap, Listing.Text, Path;
    assert p != q;
    assert !(HasFile(cfg, s, s.children[p]) && HasFile(cfg, s, s.children[q]));
  }

  lemma SharedOutput(names: seq<string>, i: nat, j: nat)
    requires i < j < |names| && Stem(names[i]) == Stem(names[j])
    ensures !OutputsKept(names)
  {
    var cfg := Twins(names, i, j);
    var schedule, p, q := TwinsCollide(names, i, j);
    OutPathsDiffer(cfg.dir, names[i], names[j]);
    assert Over(cfg, schedule);
    assert !(SerialFile(cfg, schedule, i) && SerialFile(cfg, schedule, j));
  }

  /**
   What the names of the entries decide. Backups are kept apart exactly when the stems are distinct; the
   scripts are left alone exactly when no entry is taken; and each output file is the serial text of its
   script exactly when both hold.
   */
  lemma NamesDecide(names: seq<string>)
    ensures NeverShared(names) <==> DistinctStems(names)
    ensures BackupsKept(names) <==> DistinctStems(names)
    ensures ScriptsKept(names) <==> NoneTaken(names)
    ensures OutputsKept(names) <==> DistinctStems(names) && NoneTaken(names)
  {
    ScriptsKeptExactly(names);
    if DistinctStems(names) {
      StemsSuffice(names);
      if !NoneTaken(names) {
        LostScript(names);
      }
    } else {
      var i, j :| 0 <= i < j < |names| && Stem(names[i]) == Stem(names[j]);
      SharedBackup(names, i, j);
      SharedOutput(names, i, j);
    }
  }

  lemma StemsSuffice(names: seq<string>)
    requires DistinctStems(names)
    ensures NeverShared(names) && BackupsKept(names) && (NoneTaken(names) ==> OutputsKept(names))
  {
    forall cfg, schedule | ValidConfig(cfg) && cfg.names == names ensures FilesOk(cfg, After(cfg, schedule)) {
      BackupFiles(cfg, schedule);
    }
    forall cfg, schedule | ValidConfig(cfg) && cfg.names == names ensures ApartIn(cfg, After(cfg, schedule)) {
      forall i, k | 0 <= i < k < |After(cfg, schedule).children|
        ensures Path(cfg, After(cfg, schedule).children[i]) != Path(cfg, After(cfg, schedule).children[k])
      {
        ChildPathsDistinct(cfg, schedule, i, k);
      }
    }
    if NoneTaken(names) {
      forall cfg, schedule, j: nat | Over(cfg, schedule) && cfg.names == names && j < |names|
        ensures SerialFile(cfg, schedule, j) && !Written(cfg, schedule, InPath(cfg, j))
      {
        FinalFilesAreSerial(cfg, schedule, j);
      }
    }
  }

  /** If an entry is taken, some whole run has written to its script. */
  lemma LostScript(names: seq<string>)
    requires !NoneTaken(names)
    ensures !OutputsKept(names)
  {
    var cfg, schedule, i := TakenRun(names);
    assert Over(cfg, schedule);
  }

  /** Entries need only contain ".job" to be taken in: these two are, and share their files. */
  lemma OtherNamesCollide()
    ensures var names := ["a.job.old", "a.job.bak"]; !NeverShared(names) && !BackupsKept(names) && !OutputsKept(names)
  {
    var names := ["a.job.old", "a.job.bak"];
    assert Stem(names[0]) == "a.job" == Stem(names[1]);
    NamesDecide(names);
  }

  /** Distinct stems are not enough: an entry can be its own output file. */
  lemma OwnOutput()
    ensures var names := ["a.job.out"]; DistinctStems(names) && !ScriptsKept(names) && !OutputsKept(names)
  {
    var names := ["a.job.out"];
    assert Stem(names[0]) == "a.job";
    assert names[0] == OutName(names[0]);
    NamesDecide(names);
  }

  lemma FirstBackupName()
    ensures BackupName("a.job.old", 1) == "a.job-1.bck"
    ensures Stem("a.job.old") == "a.job" && Stem("a.job-1.bck") == "a.job-1"
  {
    assert Text.Decimal(1) == "1";
    assert BackupName("a.job.old", 1) == "a.job" + "-" + "1" + ".bck";
  }

  /** Or the backup file of another. */
  lemma OthersBackup()
    ensures var names := ["a.job.old", "a.job-1.bck"];
            DistinctStems(names) && !ScriptsKept(names) && !OutputsKept(names)
  {
    var names := ["a.job.old", "a.job-1.bck"];
    hide BackupName, OutName, Stem, ScriptsKept, OutputsKept, Text.Decimal;
    FirstBackupName();
    assert names[1] == BackupName(names[0], 1);
    NamesDecide(names);
  }
}
