/** The atomic machine the threads are compared with: one whole command at a time. */
module Serial {
  import opened Store
  import opened Commands
  import opened Protocol

  /** A backup the serial run made: which one, of which job, and the table it saved. */
  datatype Fork = Fork(job: nat, number: nat, copy: Table)

  /** `pos[j]` commands of job `j` have run, and printed `out[j]`. */
  datatype Serial = Serial(table: Table, pos: seq<nat>, out: seq<string>, forks: seq<Fork>)

  function Start(cfg: Config): Serial {
    Serial(EMPTY, seq(|cfg.jobs|, _ => 0), seq(|cfg.jobs|, _ => ""), [])
  }

  predicate Fits(cfg: Config, a: Serial) {
    && |a.pos| == |a.out| == |cfg.jobs|
    && forall j :: 0 <= j < |cfg.jobs| ==> a.pos[j] <= |cfg.jobs[j]|
  }

  predicate HasNext(cfg: Config, a: Serial, j: nat) {
    j < |cfg.jobs| == |a.pos| && a.pos[j] < |cfg.jobs[j]|
  }

  function NextCommand(cfg: Config, a: Serial, j: nat): Command
    requires HasNext(cfg, a, j)
  {
    cfg.jobs[j][a.pos[j]]
  }

  function ForkCount(forks: seq<Fork>, j: nat): nat {
    if forks == [] then 0
    else ForkCount(forks[..|forks| - 1], j) + if forks[|forks| - 1].job == j then 1 else 0
  }

  /** Job `j` runs its next command. */
  function RunNext(cfg: Config, a: Serial, j: nat): Serial
    requires ValidConfig(cfg) && Fits(cfg, a) && HasNext(cfg, a, j)
  {
    var c := NextCommand(cfg, a, j);
    Serial(ExecTable(c, a.table), a.pos[j := a.pos[j] + 1], a.out[j := a.out[j] + ExecText(c, a.table)],
           if c.Backup? then a.forks + [Fork(j, ForkCount(a.forks, j) + 1, a.table)] else a.forks)
  }

  /** A serial run: `order` says whose turn it is. */
  function Run(cfg: Config, order: seq<nat>): (a: Serial)
    requires ValidConfig(cfg)
    ensures Fits(cfg, a)
  {
    if order == [] then Start(cfg)
    else
      var a := Run(cfg, order[..|order| - 1]);
      if HasNext(cfg, a, order[|order| - 1]) then RunNext(cfg, a, order[|order| - 1]) else a
  }

  /** Backups of one job are numbered 1, 2, ... in the order they are made. */
  predicate Numbered(forks: seq<Fork>) {
    forall k :: 0 <= k < |forks| ==> forks[k].number == ForkCount(forks[..k], forks[k].job) + 1
  }

  lemma {:induction false} RunNumbers(cfg: Config, order: seq<nat>)
    requires ValidConfig(cfg)
    ensures Numbered(Run(cfg, order).forks)
    ensures forall k :: 0 <= k < |Run(cfg, order).forks| ==> Run(cfg, order).forks[k].job < |cfg.jobs|
    ensures WellFormed(Run(cfg, order).table)
  {
    if order == [] {
      EmptyMap();
    } else {
      RunNumbers(cfg, order[..|order| - 1]);
      var a, j := Run(cfg, order[..|order| - 1]), order[|order| - 1];
      if HasNext(cfg, a, j) {
        var forks := RunNext(cfg, a, j).forks;
        assert forall k :: 0 <= k <= |a.forks| ==> forks[..k] == a.forks[..k];
        assert a.forks[..|a.forks|] == a.forks;
        ExecKeepsWellFormed(NextCommand(cfg, a, j), a.table);
      }
    }
  }

  lemma {:induction false} ForkCountGrows(forks: seq<Fork>, i: nat, k: nat, j: nat)
    requires i <= k <= |forks|
    ensures ForkCount(forks[..i], j) <= ForkCount(forks[..k], j)
    decreases k - i
  {
    if i < k {
      ForkCountGrows(forks, i, k - 1, j);
      assert forks[..k][..k - 1] == forks[..k - 1];
    }
  }

  /** No two backups have the same job and number. */
  lemma ForksDistinct(forks: seq<Fork>, i: nat, k: nat)
    requires Numbered(forks) && i < k < |forks|
    ensures forks[i].job != forks[k].job || forks[i].number < forks[k].number
  {
    var j := forks[i].job;
    ForkCountGrows(forks, i + 1, k, j);
    assert forks[..i + 1][..i] == forks[..i];
  }

  /** Every backup saved the table as it was after a prefix of whole commands. */
  lemma {:induction false} ForkIsPrefix(cfg: Config, order: seq<nat>, k: nat) returns (n: nat)
    requires ValidConfig(cfg) && k < |Run(cfg, order).forks|
    ensures n < |order| && Run(cfg, order).forks[k].copy == Run(cfg, order[..n]).table
  {
    var init := order[..|order| - 1];
    if k < |Run(cfg, init).forks| {
      n := ForkIsPrefix(cfg, init, k);
      assert init[..n] == order[..n];
    } else {
      n := |order| - 1;
    }
  }
}
