/** A program of one job is that job run alone, whatever the number of threads and the limit. */
module OneJob {
  import opened Store
  import opened Commands
  import opened Text
  import opened Protocol
  import opened Serial
  import opened Linearizability
  import opened Backups
  import opened OutputFiles
  import opened Directory
  import Listing
  import Sharing

  lemma {:induction false} RunAllPush(t: Table, cs: seq<Command>, c: Command)
    requires AllValid(cs) && ValidCommand(c)
    ensures AllValid(cs + [c])
    ensures RunAll(t, cs + [c]) == ExecTable(c, RunAll(t, cs))
    ensures Concat(Outputs(t, cs + [c])) == Concat(Outputs(t, cs)) + ExecText(c, RunAll(t, cs))
    decreases |cs|
  {
    if cs == [] {
      assert [] + [c] == [c];
    } else {
      var u := ExecTable(cs[0], t);
      assert (cs + [c])[1..] == cs[1..] + [c];
      RunAllPush(u, cs[1..], c);
      assert Outputs(t, cs + [c])[1..] == Outputs(u, cs[1..] + [c]) && Outputs(t, cs)[1..] == Outputs(u, cs[1..]);
      Assoc(ExecText(cs[0], t), Concat(Outputs(u, cs[1..])), ExecText(c, RunAll(u, cs[1..])));
    }
  }

  /** The tables as they are when each of the BACKUPs is reached. */
  function Copies(t: Table, cs: seq<Command>): seq<Table>
    requires AllValid(cs)
    decreases |cs|
  {
    if cs == [] then [] else (if cs[0].Backup? then [t] else []) + Copies(ExecTable(cs[0], t), cs[1..])
  }

  lemma {:induction false} CopiesPush(t: Table, cs: seq<Command>, c: Command)
    requires AllValid(cs) && AllValid(cs + [c])
    ensures Copies(t, cs + [c]) == Copies(t, cs) + if c.Backup? then [RunAll(t, cs)] else []
    decreases |cs|
  {
    assert ValidCommand((cs + [c])[|cs|]);
    if cs == [] {
      assert [] + [c] == [c];
    } else {
      var u := ExecTable(cs[0], t);
      assert (cs + [c])[1..] == cs[1..] + [c];
      CopiesPush(u, cs[1..], c);
    }
  }

  /** The serial machine after the first commands of its only job. */
  ghost predicate RunAlone(a: Serial, cs: seq<Command>)
    requires AllValid(cs)
  {
    && a.table == RunAll(EMPTY, cs) && |a.out| == 1 && a.out[0] == Concat(Outputs(EMPTY, cs))
    && |a.forks| == |Copies(EMPTY, cs)|
    && forall i :: 0 <= i < |a.forks| ==> a.forks[i] == Fork(0, i + 1, Copies(EMPTY, cs)[i])
  }

  lemma {:induction false} ForkCountOfOne(forks: seq<Fork>)
    requires forall i :: 0 <= i < |forks| ==> forks[i].job == 0
    ensures ForkCount(forks, 0) == |forks|
  {
    if forks != [] {
      ForkCountOfOne(forks[..|forks| - 1]);
    }
  }

  lemma AloneStep(cfg: Config, a: Serial, cs: seq<Command>)
    requires ValidConfig(cfg) && |cfg.jobs| == 1 && Fits(cfg, a) && HasNext(cfg, a, 0)
    requires cs == cfg.jobs[0][..a.pos[0]] && AllValid(cs) && RunAlone(a, cs)
    ensures AllValid(cs + [NextCommand(cfg, a, 0)]) && RunAlone(RunNext(cfg, a, 0), cs + [NextCommand(cfg, a, 0)])
  {
    var c := NextCommand(cfg, a, 0);
    RunAllPush(EMPTY, cs, c);
    ForkCountOfOne(a.forks);
    hide RunAll, Outputs, ExecTable, ExecText, ForkCount, ValidCommand, Copies;
    CopiesPush(EMPTY, cs, c);
    assert Copies(EMPTY, cs) + [] == Copies(EMPTY, cs);
  }

  lemma {:induction false} SerialIsAlone(cfg: Config, order: seq<nat>)
    requires ValidConfig(cfg) && |cfg.jobs| == 1
    ensures var done := cfg.jobs[0][..Run(cfg, order).pos[0]];
            AllValid(done) && RunAlone(Run(cfg, order), done)
  {
    hide RunAlone, RunNext;
    if order == [] {
      StartsAlone(cfg);
    } else {
      SerialIsAlone(cfg, order[..|order| - 1]);
      var a := Run(cfg, order[..|order| - 1]);
      if HasNext(cfg, a, order[|order| - 1]) {
        AloneStep(cfg, a, cfg.jobs[0][..a.pos[0]]);
        NextPlace(cfg, a);
      }
    }
  }

  lemma NextPlace(cfg: Config, a: Serial)
    requires ValidConfig(cfg) && |cfg.jobs| == 1 && Fits(cfg, a) && HasNext(cfg, a, 0)
    ensures cfg.jobs[0][..RunNext(cfg, a, 0).pos[0]] == cfg.jobs[0][..a.pos[0]] + [NextCommand(cfg, a, 0)]
  {
  }

  lemma StartsAlone(cfg: Config)
    requires |cfg.jobs| == 1
    ensures RunAlone(Start(cfg), cfg.jobs[0][..0])
  {
  }

  /** The files of the children are the backups of the job, numbered from 1, and no others. */
  ghost predicate BackupsLeft(cfg: Config, files: map<string, string>, copies: seq<Table>)
    requires |cfg.names| == 1
  {
    && (forall p :: p in files ==> exists n: nat :: 1 <= n <= |copies| && p == BackupPath(cfg.dir, cfg.names[0], n))
    && (forall n: nat :: 1 <= n <= |copies| ==>
          var p := BackupPath(cfg.dir, cfg.names[0], n); p in files && files[p] == Listing.Text(copies[n - 1]))
  }

  /** What the program leaves when it ends. */
  ghost predicate Leaves(cfg: Config, schedule: seq<Action>, cs: seq<Command>)
    requires ValidConfig(cfg) && |cfg.names| == 1 && AllValid(cs)
  {
    && After(cfg, schedule).table == RunAll(EMPTY, cs)
    && OutFiles(cfg, schedule) == map[OutPath(cfg.dir, cfg.names[0]) := Concat(Outputs(EMPTY, cs))]
    && BackupsLeft(cfg, After(cfg, schedule).files, Copies(EMPTY, cs))
  }

  /** One job: every run that ends leaves the table, the output and the backups of the job run alone. */
  lemma OneJobAlone(cfg: Config, schedule: seq<Action>)
    requires Over(cfg, schedule) && |cfg.jobs| == 1
    ensures AllValid(cfg.jobs[0]) && Leaves(cfg, schedule, cfg.jobs[0])
  {
    var s, order, cs := After(cfg, schedule), Order(cfg, schedule), cfg.jobs[0];
    EndsWithNoChildren(cfg, schedule);
    FinalStateIsSerial(cfg, schedule);
    Linearizable(cfg, schedule);
    SerialIsAlone(cfg, order);
    assert cs[..|cs|] == cs;
    OneOutput(cfg, schedule);
    BackupFiles(cfg, schedule);
    hide RunAll, Outputs, Copies, ForkCount, SamePlace, SameText, SameTable, FilesOk, BackupsLeft, OutPath, OutFiles;
    OneBackupEach(cfg, s, Copies(EMPTY, cs));
  }

  lemma OneOutput(cfg: Config, schedule: seq<Action>)
    requires Over(cfg, schedule) && |cfg.jobs| == 1
    ensures OutFiles(cfg, schedule) ==
            map[OutPath(cfg.dir, cfg.names[0]) := Run(cfg, Order(cfg, schedule)).out[0]]
  {
    Sharing.FinalFilesAreSerial(cfg, schedule, 0);
    OutKeysHold(cfg, schedule);
    hide Run, Order, OutFiles, After, OutPath;
    OneFile(cfg, OutFiles(cfg, schedule), Run(cfg, Order(cfg, schedule)).out[0]);
  }

  lemma OneFile(cfg: Config, files: map<string, string>, text: string)
    requires |cfg.jobs| == 1 == |cfg.names|
    requires forall p :: p in files ==> exists j: nat :: j < 1 && p == OutPathOf(cfg, j)
    requires OutPathOf(cfg, 0) in files && files[OutPathOf(cfg, 0)] == text
    ensures files == map[OutPath(cfg.dir, cfg.names[0]) := text]
  {
  }

  lemma OneBackupEach(cfg: Config, s: State, copies: seq<Table>)
    requires |cfg.names| == 1 && NoChildren(s) && FilesOk(cfg, s) && |s.children| == |copies|
    requires forall i :: 0 <= i < |s.children| ==>
               s.children[i].job == 0 && s.children[i].number == i + 1 && s.children[i].copy == copies[i]
    ensures BackupsLeft(cfg, s.files, copies)
  {
    hide Listing.Text, BackupPath;
    forall n: nat | 1 <= n <= |copies|
      ensures var p := BackupPath(cfg.dir, cfg.names[0], n); p in s.files && s.files[p] == Listing.Text(copies[n - 1])
    {
      assert HasFile(cfg, s, s.children[n - 1]);
    }
    forall p | p in s.files
      ensures exists n: nat :: 1 <= n <= |copies| && p == BackupPath(cfg.dir, cfg.names[0], n)
    {
      var k :| WrittenBy(cfg, s, p, k);
      assert p == BackupPath(cfg.dir, cfg.names[0], k + 1);
    }
  }
}
