/** What the bucket locks are for: which commands can be under way at the same time. */
module Overlap {
  import opened Store
  import opened Commands
  import opened Protocol
  import opened Locking
  import opened Deadlock

  /** They share no bucket, or only read. */
  ghost predicate Compatible(c: Command, d: Command)
    requires c.NamesKeys() && d.NamesKeys()
  {
    forall p, q :: p in Args(c) && q in Args(d) && Hash(p.key) == Hash(q.key) ==> !c.Mutates() && !d.Mutates()
  }

  /** In no run of any program are two commands applied at the same time that are not. */
  lemma OnlyCompatible(cfg: Config, schedule: seq<Action>, t: nat, u: nat)
    requires ValidConfig(cfg) && t < cfg.threads && u < cfg.threads && t != u
    requires After(cfg, schedule).threads[t].pc == Apply == After(cfg, schedule).threads[u].pc
    ensures var x, y := After(cfg, schedule).threads[t], After(cfg, schedule).threads[u];
            x.command.NamesKeys() && y.command.NamesKeys() && Compatible(x.command, y.command)
  {
    LocksAlwaysMatch(cfg, schedule);
    hide After, LocksMatch, ValidConfig, Compatible;
    ApplyingAreCompatible(cfg, After(cfg, schedule), t, u);
  }

  lemma ApplyingAreCompatible(cfg: Config, s: State, t: nat, u: nat)
    requires Shape(cfg, s) && LocksMatch(s) && t < |s.threads| && u < |s.threads| && t != u
    requires s.threads[t].pc == Apply == s.threads[u].pc
    ensures var x, y := s.threads[t], s.threads[u];
            x.command.NamesKeys() && y.command.NamesKeys() && Compatible(x.command, y.command)
  {
    var x, y := s.threads[t], s.threads[u];
    assert ThreadOk(cfg, x) && ThreadOk(cfg, y);
    AppliesItsArgs(cfg, x);
    AppliesItsArgs(cfg, y);
    hide LocksMatch, ThreadOk, Hash, Args;
    forall p, q | p in Args(x.command) && q in Args(y.command) && Hash(p.key) == Hash(q.key)
      ensures !x.command.Mutates() && !y.command.Mutates()
    {
      SameBucketReads(cfg, s, t, u, p, q);
      SameBucketReads(cfg, s, u, t, q, p);
    }
  }

  lemma SameBucketReads(cfg: Config, s: State, t: nat, u: nat, p: Pair, q: Pair)
    requires Shape(cfg, s) && LocksMatch(s) && t < |s.threads| && u < |s.threads| && t != u
    requires s.threads[t].pc == Apply == s.threads[u].pc
    requires p in s.threads[t].args && q in s.threads[u].args && Hash(p.key) == Hash(q.key)
    ensures !s.threads[t].command.Mutates()
  {
    AppliedIsHeld(cfg, s.threads[t], p);
    AppliedIsHeld(cfg, s.threads[u], q);
    hide LocksMatch, ThreadOk, Hash, Holds;
    if s.threads[t].command.Mutates() {
      Exclusion(s, t, u, BUCKETS + Hash(p.key));
    }
  }

  lemma AppliesItsArgs(cfg: Config, th: Thread)
    requires ThreadOk(cfg, th) && th.pc == Apply
    ensures th.command.NamesKeys() && th.args == Args(th.command)
  {
  }

  lemma AppliedIsHeld(cfg: Config, th: Thread, p: Pair)
    requires ThreadOk(cfg, th) && th.pc == Apply && p in th.args
    ensures 0 <= Hash(p.key) < TABLE_SIZE
    ensures Holds(th, BUCKETS + Hash(p.key)) == if th.command.Mutates() then Exclusive else Shared
  {
    var k :| 0 <= k < |th.args| && th.args[k] == p;
    assert Hash(th.args[k].key) in Buckets(th.args, |th.args|);
  }

  // And two that are can be.

  function ApplyingAll(job: nat, c: Command): Thread
    requires c.NamesKeys()
  {
    LockingAt(job, c, |Args(c)|).(pc := Apply, i := 0)
  }

  lemma Starts(cfg: Config, schedule: seq<Action>, rest: seq<Thread>, t: nat, job: nat, c: Command)
    returns (longer: seq<Action>)
    requires ValidConfig(cfg) && |rest| == cfg.threads && t < |rest| && rest[t] == IDLE && At(cfg, schedule, rest, job)
    requires job < |cfg.jobs| && cfg.jobs[job] == [c] && c.NamesKeys() && Clear(rest, t, c, 0, |Args(c)|)
    requires forall u :: 0 <= u < |rest| && u != t ==>
               Holds(rest[u], FILE) == Free && Holds(rest[u], GLOBAL) != Exclusive
    ensures At(cfg, longer, rest[t := ApplyingAll(job, c)], job + 1)
  {
    var n := |Args(c)|;
    LockingIsOk(cfg, job, c, n);
    LastLockStep(cfg, job, c);
    hide At, After, ValidConfig, ThreadOk, Clear, Holds, LockingAt, Advanced;
    longer := Arrives(cfg, schedule, rest, t, job, c, n);
    longer := StepAt(cfg, longer, rest, t, job + 1, LockingAt(job, c, n), ApplyingAll(job, c));
  }

  lemma LastLockStep(cfg: Config, job: nat, c: Command)
    requires c.NamesKeys() && ThreadOk(cfg, LockingAt(job, c, |Args(c)|))
    ensures Early(LockingAt(job, c, |Args(c)|)) && Wants(LockingAt(job, c, |Args(c)|)).None?
    ensures LockingAt(job, c, |Args(c)|).pc == Lock
    ensures Advanced(cfg, job + 1, LockingAt(job, c, |Args(c)|)) == ApplyingAll(job, c)
  {
  }

  /** Where the first is under way, the second finds nothing that keeps it out. */
  lemma CompatibleIsClear(c: Command, d: Command)
    requires c.NamesKeys() && d.NamesKeys() && Compatible(c, d) && ValidCommand(d)
    ensures Clear([ApplyingAll(0, c), IDLE], 1, d, 0, |Args(d)|)
    ensures Holds(ApplyingAll(0, c), FILE) == Free && Holds(ApplyingAll(0, c), GLOBAL) != Exclusive
  {
    ArgsValid(d);
    hide Hash, Args;
    forall k | 0 <= k < |Args(d)|
      ensures var held := Holds(ApplyingAll(0, c), BUCKETS + Hash(Args(d)[k].key));
              held == Free || (held == Shared && !d.Mutates())
    {
      assert Args(d)[k] in Args(d);
      HeldWhileApplying(c, Hash(Args(d)[k].key));
    }
  }

  lemma HeldWhileApplying(c: Command, b: nat)
    requires c.NamesKeys()
    ensures var held := Holds(ApplyingAll(0, c), BUCKETS + b);
            held == Free || (held == (if c.Mutates() then Exclusive else Shared)
                             && exists p :: p in Args(c) && Hash(p.key) == b)
  {
    if b in Buckets(Args(c), |Args(c)|) {
      var j :| 0 <= j < |Args(c)| && Hash(Args(c)[j].key) == b;
      assert Args(c)[j] in Args(c);
    }
    hide Args, Hash;
  }

  lemma BothStart(cfg: Config, c: Command, d: Command) returns (schedule: seq<Action>)
    requires ValidConfig(cfg) && cfg.threads == 2 && cfg.jobs == [[c], [d]] && c.NamesKeys() && d.NamesKeys()
    requires Clear([IDLE, IDLE], 0, c, 0, |Args(c)|) && Clear([ApplyingAll(0, c), IDLE], 1, d, 0, |Args(d)|)
    requires Holds(IDLE, FILE) == Holds(IDLE, GLOBAL) == Free
    requires Holds(ApplyingAll(0, c), FILE) == Free && Holds(ApplyingAll(0, c), GLOBAL) != Exclusive
    ensures At(cfg, schedule, [ApplyingAll(0, c), ApplyingAll(1, d)], 2)
  {
    var none, one := [IDLE, IDLE], [ApplyingAll(0, c), IDLE];
    StartsAt(cfg);
    hide At, After, ValidConfig, ThreadOk, Clear, Holds, ApplyingAll;
    schedule := Starts(cfg, [], none, 0, 0, c);
    assert none[0 := ApplyingAll(0, c)] == one;
    schedule := Starts(cfg, schedule, one, 1, 1, d);
    assert one[1 := ApplyingAll(1, d)] == [ApplyingAll(0, c), ApplyingAll(1, d)];
  }

  lemma CompatibleOverlap(c: Command, d: Command) returns (schedule: seq<Action>)
    requires c.NamesKeys() && d.NamesKeys() && ValidCommand(c) && ValidCommand(d) && Compatible(c, d)
    ensures ValidConfig(TwoJobs(c, d))
    ensures At(TwoJobs(c, d), schedule, [ApplyingAll(0, c), ApplyingAll(1, d)], 2)
  {
    BothValid(c, d);
    IdleClear([IDLE, IDLE], 0, c, |Args(c)|);
    CompatibleIsClear(c, d);
    hide At, After, ValidConfig, ThreadOk, Clear, Holds, ApplyingAll, Compatible, ValidCommand, Args;
    schedule := BothStart(TwoJobs(c, d), c, d);
  }

  /** Both commands are being applied at once. */
  ghost predicate Together(c: Command, d: Command, schedule: seq<Action>)
    requires ValidConfig(TwoJobs(c, d))
  {
    var threads := After(TwoJobs(c, d), schedule).threads;
    && threads[0].pc == Apply && threads[0].command == c
    && threads[1].pc == Apply && threads[1].command == d
  }

  /** Two commands can be applied at the same time exactly when they share no bucket, or both only read. */
  lemma OverlapIsExact(c: Command, d: Command)
    requires c.NamesKeys() && d.NamesKeys() && ValidCommand(c) && ValidCommand(d)
    ensures ValidConfig(TwoJobs(c, d))
    ensures (exists schedule :: Together(c, d, schedule)) <==> Compatible(c, d)
  {
    BothValid(c, d);
    hide At, After, ValidConfig, ThreadOk, Compatible, ApplyingAll, ValidCommand;
    if Compatible(c, d) {
      var schedule := CompatibleOverlap(c, d);
      AtIsTogether(c, d, schedule);
    }
    if schedule :| Together(c, d, schedule) {
      OnlyCompatible(TwoJobs(c, d), schedule, 0, 1);
    }
  }

  lemma BothValid(c: Command, d: Command)
    requires ValidCommand(c) && ValidCommand(d)
    ensures ValidConfig(TwoJobs(c, d))
  {
  }

  lemma AtIsTogether(c: Command, d: Command, schedule: seq<Action>)
    requires c.NamesKeys() && d.NamesKeys() && ValidConfig(TwoJobs(c, d))
    requires At(TwoJobs(c, d), schedule, [ApplyingAll(0, c), ApplyingAll(1, d)], 2)
    ensures Together(c, d, schedule)
  {
  }
}
