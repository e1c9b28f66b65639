/**
 The repository's job files, run by the whole program with any number of threads and any limit, leave the
 files that the repository keeps as their expected results, in every interleaving.
 */
module Conformance {
  import opened Store
  import opened Commands
  import opened Protocol
  import opened OutputFiles
  import opened Directory
  import opened OneJob
  import opened Examples
  import Grammar
  import Listing
  import Text

  /** A run, to its end, of the program on a directory that holds one job file with this text. */
  ghost predicate RunsFile(cfg: Config, schedule: seq<Action>, name: string, text: string) {
    Over(cfg, schedule) && cfg.names == [name] && cfg.jobs == [Grammar.Script(text)]
  }

  /** What it leaves is what its commands do, one after another, from the empty table. */
  lemma LeavesWhatItDoes(cfg: Config, schedule: seq<Action>, stem: string, text: string, out: string,
                         copies: seq<Table>, u: Table)
    requires RunsFile(cfg, schedule, stem + ".job", text) && Does(EMPTY, Grammar.Script(text), out, copies, u)
    ensures OutFiles(cfg, schedule) == map[cfg.dir + ("/" + stem + ".out") := out]
    ensures |cfg.names| == 1 && BackupsLeft(cfg, After(cfg, schedule).files, copies)
  {
    OneJobAlone(cfg, schedule);
    OutPathIs(cfg.dir, stem + ".job", stem);
    hide OutFiles, After, RunAll, Outputs, Copies, OutPath, BackupPath, Grammar.Script, BackupsLeft;
  }

  lemma OutPathIs(dir: string, name: string, stem: string)
    requires name == stem + ".job"
    ensures OutPath(dir, name) == dir + ("/" + stem + ".out")
  {
    assert Stem(name) == stem;
    assert dir + "/" + stem + ".out" == dir + ("/" + stem + ".out");
  }

  /** Comments before it change nothing. */
  lemma CommentedLeaves(cfg: Config, schedule: seq<Action>, comments: seq<string>, stem: string, text: string,
                        cs: seq<Command>, out: string, copies: seq<Table>, u: Table)
    requires Lines(comments) && RunsFile(cfg, schedule, stem + ".job", Commented(comments, text))
    requires Grammar.Script(text) == cs && Does(EMPTY, cs, out, copies, u)
    ensures OutFiles(cfg, schedule) == map[cfg.dir + ("/" + stem + ".out") := out]
    ensures |cfg.names| == 1 && BackupsLeft(cfg, After(cfg, schedule).files, copies)
  {
    hide *;
    CommentsAreEmpty(comments, text);
    EmptiesFirst(|comments|, EMPTY, cs, out, copies, u);
    LeavesWhatItDoes(cfg, schedule, stem, Commented(comments, text), out, copies, u);
  }

  lemma NoBackups(cfg: Config, files: map<string, string>)
    requires |cfg.names| == 1 && BackupsLeft(cfg, files, [])
    ensures files == map[]
  {
    assert forall p :: p !in files;
  }

  lemma TwoNames()
    ensures "2" + ".job" == "2.job" && "/" + "2" + ".out" == "/2.out"
    ensures "5" + ".job" == "5.job" && "/" + "5" + ".out" == "/5.out"
  {
  }

  lemma FileRuns(cfg: Config, schedule: seq<Action>, name: string, text: string)
    requires RunsFile(cfg, schedule, name, text)
    ensures ValidConfig(cfg) && cfg.names == [name]
  {
  }

  /** The job file with READs: comments, a key that is not there, a WRITE in the wrong form. */
  lemma JobTwo(cfg: Config, schedule: seq<Action>, comments: seq<string>)
    requires Lines(comments) && RunsFile(cfg, schedule, "2.job", Commented(comments, TWO_TEXT))
    ensures ValidConfig(cfg)
    ensures OutFiles(cfg, schedule) == map[cfg.dir + "/2.out" := TWO_OUT]
    ensures After(cfg, schedule).files == map[]
  {
    hide *;
    FileRuns(cfg, schedule, "2.job", Commented(comments, TWO_TEXT));
    TwoNames();
    TwoParses();
    var u := TwoRuns();
    CommentedLeaves(cfg, schedule, comments, "2", TWO_TEXT, Two(), TWO_OUT, [], u);
    NoBackups(cfg, After(cfg, schedule).files);
  }

  lemma BackupPaths(dir: string)
    ensures BackupPath(dir, "5.job", 1) == dir + "/5-1.bck" && BackupPath(dir, "5.job", 2) == dir + "/5-2.bck"
  {
    assert Stem("5.job") == "5" && Text.Decimal(1) == "1" && Text.Decimal(2) == "2";
    assert dir + "/" + "5" + "-" + "1" + ".bck" == dir + "/5-1.bck";
    assert dir + "/" + "5" + "-" + "2" + ".bck" == dir + "/5-2.bck";
  }

  lemma CopyTexts()
    ensures Listing.Text(EMPTY) == "" && Listing.Text(Table03([], [DOURO])) == "(Douro, barca-velha)\n"
  {
    FiveShows();
    ShowText(EMPTY);
    ShowText(Table03([], [DOURO]));
    hide Table03, DOURO, ExecText, ExecTable;
  }

  lemma ShowText(t: Table)
    ensures ExecText(Show, t) == Listing.Text(t)
  {
  }

  lemma TwoBackups(cfg: Config, files: map<string, string>, t: Table, u: Table)
    requires cfg.names == ["5.job"] && BackupsLeft(cfg, files, [t, u])
    ensures files == map[cfg.dir + "/5-1.bck" := Listing.Text(t), cfg.dir + "/5-2.bck" := Listing.Text(u)]
  {
    BackupPaths(cfg.dir);
    assert cfg.names[0] == "5.job";
    hide Listing.Text, BackupPath;
    var p, q := BackupPath(cfg.dir, cfg.names[0], 1), BackupPath(cfg.dir, cfg.names[0], 2);
    assert p in files && q in files && p[|cfg.dir| + 3] != q[|cfg.dir| + 3];
    forall r ensures r in files <==> r == p || r == q {
      if r in files {
        var n: nat :| 1 <= n <= 2 && r == BackupPath(cfg.dir, cfg.names[0], n);
        assert n == 1 || n == 2;
      }
    }
  }

  /** The job file with BACKUPs: the two backups, and the output. */
  lemma JobFive(cfg: Config, schedule: seq<Action>, comments: seq<string>)
    requires Lines(comments) && RunsFile(cfg, schedule, "5.job", Commented(comments, FIVE_TEXT))
    ensures ValidConfig(cfg)
    ensures OutFiles(cfg, schedule) == map[cfg.dir + "/5.out" := FIVE_OUT]
    ensures After(cfg, schedule).files ==
            map[cfg.dir + "/5-1.bck" := "", cfg.dir + "/5-2.bck" := "(Douro, barca-velha)\n"]
  {
    hide *;
    FileRuns(cfg, schedule, "5.job", Commented(comments, FIVE_TEXT));
    TwoNames();
    FiveParses();
    FiveRuns();
    CopyTexts();
    CommentedLeaves(cfg, schedule, comments, "5", FIVE_TEXT, Five(), FIVE_OUT, [EMPTY, Table03([], [DOURO])],
                    Table03([ALENTEJO2], [DAO, DOURO2]));
    TwoBackups(cfg, After(cfg, schedule).files, EMPTY, Table03([], [DOURO]));
  }
}
