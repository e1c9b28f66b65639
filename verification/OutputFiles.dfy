/** The output files of a run: one for each job, named after its entry in the directory. */
module OutputFiles {
  import opened Store
  import opened Commands
  import opened Protocol
  import opened Serial
  import opened Linearizability
  import opened Backups
  import opened Dispatch

  /** The output file of a job: its name without the last four characters. */
  function OutPath(dir: string, name: string): string {
    dir + "/" + Stem(name) + ".out"
  }

  function OutPathOf(cfg: Config, j: nat): string {
    OutPath(cfg.dir, if j < |cfg.names| then cfg.names[j] else "")
  }

  lemma OutPathsDiffer(dir: string, name: string, name': string)
    ensures OutPath(dir, name) == OutPath(dir, name') <==> Stem(name) == Stem(name')
  {
    var p, q := OutPath(dir, name), OutPath(dir, name');
    assert p[|dir| + 1..][..|Stem(name)|] == Stem(name);
    assert q[|dir| + 1..][..|Stem(name')|] == Stem(name');
  }

  /** `write` at an offset: what was there is overwritten, a gap before it reads as NULs. */
  function WriteAt(content: string, at: nat, text: string): string {
    var padded := if |content| < at then content + seq(at - |content|, _ => '\0') else content;
    padded[..at] + text + if at + |text| <= |padded| then padded[at + |text|..] else ""
  }

  function ContentOf(files: map<string, string>, path: string): string {
    if path in files then files[path] else ""
  }

  /** The output files of a run. Opening truncates; a descriptor's offset is what was written through it. */
  function OutFiles(cfg: Config, schedule: seq<Action>): map<string, string>
    requires ValidConfig(cfg)
  {
    if schedule == [] then map[]
    else
      var init, a := schedule[..|schedule| - 1], schedule[|schedule| - 1];
      var s := After(cfg, init);
      var files := OutFiles(cfg, init);
      if Enabled(cfg, s, a) && a.ThreadStep? then OutFilesStep(cfg, s, a.t, files) else files
  }

  function OutFilesStep(cfg: Config, s: State, t: nat, files: map<string, string>): map<string, string>
    requires t < |s.threads|
  {
    var th := s.threads[t];
    var path := OutPathOf(cfg, th.job);
    if th.pc == Release then files[path := ""]
    else if Prints(s, th) != "" && th.job < |s.out| then
      files[path := WriteAt(ContentOf(files, path), |s.out[th.job]|, Prints(s, th))]
    else files
  }

  /** The job has been claimed and its files opened. */
  ghost predicate Opened(s: State, j: nat) {
    j < s.nextJob && forall t :: 0 <= t < |s.threads| && Active(s.threads[t]) && s.threads[t].job == j ==>
      s.threads[t].pc != Release
  }

  /** Each opened file holds what its job printed; the other jobs have printed nothing. */
  ghost predicate OutputOk(cfg: Config, s: State, files: map<string, string>) {
    forall j: nat :: j < |s.out| ==> OwnFile(cfg, s, files, j)
  }

  ghost predicate OwnFile(cfg: Config, s: State, files: map<string, string>, j: nat)
    requires j < |s.out|
  {
    if Opened(s, j) then OutPathOf(cfg, j) in files && files[OutPathOf(cfg, j)] == s.out[j] else s.out[j] == ""
  }

  lemma OutLocal(cfg: Config, s: State, th: Thread, k: nat)
    requires ThreadOk(cfg, th)
    ensures var th' := Advance(cfg, s, th, k);
            && (Active(th') ==> if th.pc == Claim then th'.job == s.nextJob < |cfg.jobs| && th'.pc == Release
                                else Active(th) && th'.job == th.job && th'.pc != Release)
            && (Prints(s, th) != "" ==> Active(th) && th.pc != Release)
  {
    hide Buckets, Args, ValidPairs;
  }

  /** Active threads are on different claimed jobs. */
  ghost predicate Placed(cfg: Config, s: State) {
    && s.nextJob <= |cfg.jobs|
    && (forall t :: 0 <= t < |s.threads| && Active(s.threads[t]) ==> s.threads[t].job < s.nextJob)
    && forall t, u :: 0 <= t < u < |s.threads| && Active(s.threads[t]) && Active(s.threads[u]) ==>
         s.threads[t].job != s.threads[u].job
  }

  lemma AlwaysPlaced(cfg: Config, schedule: seq<Action>)
    requires ValidConfig(cfg)
    ensures Placed(cfg, After(cfg, schedule))
  {
    Linearizable(cfg, schedule);
    var s, ser := After(cfg, schedule), Run(cfg, Order(cfg, schedule));
    assert SamePlace(cfg, s, ser);
    assert forall t :: 0 <= t < |s.threads| && Active(s.threads[t]) ==> AtPlace(s.nextJob, ser, s.threads[t]);
  }

  lemma AppendAtEnd(content: string, text: string)
    ensures WriteAt(content, |content|, text) == content + text
  {
  }

  /** Whether a job is opened changes only for the job whose files the step opens. */
  lemma OpenedStep(cfg: Config, s: State, t: nat, k: nat, j: nat)
    requires ValidConfig(cfg) && Shape(cfg, s) && Placed(cfg, s) && Enabled(cfg, s, ThreadStep(t, k)) && j < |cfg.jobs|
    ensures Opened(Do(cfg, s, ThreadStep(t, k)), j) <==>
              Opened(s, j) || (s.threads[t].pc == Release && s.threads[t].job == j)
    ensures s.threads[t].pc == Release && s.threads[t].job == j ==> !Opened(s, j)
    ensures Prints(s, s.threads[t]) != "" && s.threads[t].job == j ==> Opened(s, j)
  {
    var th, s' := s.threads[t], Do(cfg, s, ThreadStep(t, k));
    OutLocal(cfg, s, th, k);
    DoThread(cfg, s, t, k);
    OnlyClaimsChangeTheJob(cfg, s, th, k);
    assert s'.nextJob == NextJobAfter(cfg, s, th);
    hide Do, Advance, Prints, NextJobAfter, ThreadOk;
    assert forall u :: 0 <= u < |s.threads| && u != t ==> s'.threads[u] == s.threads[u];
    assert s'.threads[t] == Advance(cfg, s, th, k);
    assert forall u :: 0 <= u < |s.threads| && u != t && Active(s.threads[u]) ==> Active(s'.threads[u]);
  }

  /** Writing to job `j`'s file leaves the other files alone. */
  lemma OtherFile(cfg: Config, j: nat, k: nat)
    requires DistinctStems(cfg.names) && j < |cfg.names| && k < |cfg.names| && j != k
    ensures OutPathOf(cfg, j) != OutPathOf(cfg, k)
  {
    OutPathsDiffer(cfg.dir, cfg.names[j], cfg.names[k]);
  }

  lemma OutStepAt(cfg: Config, s: State, t: nat, k: nat, files: map<string, string>, j: nat)
    requires ValidConfig(cfg) && Shape(cfg, s) && Placed(cfg, s) && Enabled(cfg, s, ThreadStep(t, k))
    requires DistinctStems(cfg.names) && j < |s.out| && OwnFile(cfg, s, files, j)
    requires s.threads[t].job < |s.out| ==> OwnFile(cfg, s, files, s.threads[t].job)
    ensures |Do(cfg, s, ThreadStep(t, k)).out| == |s.out|
    ensures OwnFile(cfg, Do(cfg, s, ThreadStep(t, k)), OutFilesStep(cfg, s, t, files), j)
  {
    var th := s.threads[t];
    DoThread(cfg, s, t, k);
    OutLocal(cfg, s, th, k);
    OpenedStep(cfg, s, t, k, j);
    assert s.out[j] + "" == s.out[j];
    if th.job < |s.out| {
      OpenedStep(cfg, s, t, k, th.job);
      AppendAtEnd(s.out[th.job], Prints(s, th));
      if th.job != j {
        OtherFile(cfg, th.job, j);
      }
    }
    hide Do, Advance, Prints, Opened, WriteAt, OutPathOf, ThreadOk, DistinctStems, Placed, Wants;
  }

  lemma OutStep(cfg: Config, s: State, t: nat, k: nat, files: map<string, string>)
    requires ValidConfig(cfg) && Shape(cfg, s) && Placed(cfg, s) && Enabled(cfg, s, ThreadStep(t, k))
    requires DistinctStems(cfg.names) && OutputOk(cfg, s, files)
    ensures OutputOk(cfg, Do(cfg, s, ThreadStep(t, k)), OutFilesStep(cfg, s, t, files))
  {
    DoThread(cfg, s, t, k);
    hide Do, OutFilesStep, OwnFile, Placed, DistinctStems;
    forall j: nat | j < |s.out|
      ensures OwnFile(cfg, Do(cfg, s, ThreadStep(t, k)), OutFilesStep(cfg, s, t, files), j)
    {
      OutStepAt(cfg, s, t, k, files, j);
    }
  }

  lemma OtherStepKeepsOutput(cfg: Config, s: State, a: Action, files: map<string, string>)
    requires ValidConfig(cfg) && Shape(cfg, s) && Enabled(cfg, s, a) && !a.ThreadStep? && OutputOk(cfg, s, files)
    ensures OutputOk(cfg, Do(cfg, s, a), files)
  {
    var s' := Do(cfg, s, a);
    assert s'.threads == s.threads && s'.out == s.out && s'.nextJob == s.nextJob;
    assert forall j :: Opened(s', j) == Opened(s, j);
    forall j: nat | j < |s'.out| ensures OwnFile(cfg, s', files, j) {
      assert OwnFile(cfg, s, files, j);
    }
  }

  /** With distinct stems each job has its output file to itself, in every reachable state. */
  lemma {:induction false} OutputFilesHold(cfg: Config, schedule: seq<Action>)
    requires ValidConfig(cfg) && DistinctStems(cfg.names)
    ensures OutputOk(cfg, After(cfg, schedule), OutFiles(cfg, schedule))
  {
    hide OutputOk, OutFilesStep, Placed, Advance, ThreadOk;
    if schedule == [] {
      NoOutput(cfg);
    } else {
      var init, a := schedule[..|schedule| - 1], schedule[|schedule| - 1];
      OutputFilesHold(cfg, init);
      AlwaysPlaced(cfg, init);
      var s := After(cfg, init);
      if Enabled(cfg, s, a) {
        if a.ThreadStep? {
          OutStep(cfg, s, a.t, a.child, OutFiles(cfg, init));
        } else {
          OtherStepKeepsOutput(cfg, s, a, OutFiles(cfg, init));
        }
      }
    }
  }

  lemma NoOutput(cfg: Config)
    ensures OutputOk(cfg, Init(cfg), map[])
  {
  }
}
