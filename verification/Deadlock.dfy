/** Ascending order is exactly what is needed: a command that lacks it can deadlock with an ordinary WRITE. */
module Deadlock {
  import opened Store
  import opened Sorting
  import opened Text
  import opened Commands
  import opened Protocol
  import opened Locking
  import opened Progress

  /** Two threads, two jobs of one command each. */
  function TwoJobs(c: Command, d: Command): Config {
    Config(["1.job", "2.job"], [[c], [d]], ".", 2, 1)
  }

  /** The run is not over and nobody can move. */
  ghost predicate Stuck(cfg: Config, schedule: seq<Action>)
    requires ValidConfig(cfg)
  {
    After(cfg, schedule).main != Finished && forall a :: !Enabled(cfg, After(cfg, schedule), a)
  }

  /** The one-letter key of a bucket. */
  function Letter(b: nat): string
    requires b < TABLE_SIZE
  {
    ['a' + b as char]
  }

  /** The WRITE that takes bucket `lo`, then bucket `hi`. */
  function Partner(lo: nat, hi: nat): Command
    requires lo < hi < TABLE_SIZE
  {
    Write([Pair(Letter(lo), "x"), Pair(Letter(hi), "y")])
  }

  lemma PartnerArgs(lo: nat, hi: nat)
    requires lo < hi < TABLE_SIZE
    ensures Args(Partner(lo, hi)) == Partner(lo, hi).pairs && ValidCommand(Partner(lo, hi))
    ensures Ascending(Args(Partner(lo, hi)))
    ensures Hash(Letter(lo)) == lo && Hash(Letter(hi)) == hi
  {
    var c := Partner(lo, hi);
    SortIsUnique(c.pairs, c.pairs);
    OneClassSuffices(c, Lower);
  }

  // Runs of one thread while the other rests.

  lemma FreeIsGranted(s: State, l: nat, mode: Mode)
    requires LocksMatch(s) && l < LOCKS
    requires forall u :: 0 <= u < |s.threads| ==>
               Holds(s.threads[u], l) == Free || (mode == Shared == Holds(s.threads[u], l))
    ensures Grants(s.locks[l], mode)
  {
    var lock := s.locks[l];
    assert forall u: nat :: lock.writer == Some(u) ==> HoldsAs(s, u, l, Exclusive);
    assert forall u: nat :: u in lock.readers ==> HoldsAs(s, u, l, Shared);
  }

  /** The thread can step, and does. */
  lemma Moved(cfg: Config, schedule: seq<Action>, t: nat)
    requires ValidConfig(cfg) && t < cfg.threads
    requires var th := After(cfg, schedule).threads[t];
             && th.pc != Done && th.pc != Reap
             && (Wants(th).Some? ==> forall u :: 0 <= u < cfg.threads && u != t ==>
                   var held := Holds(After(cfg, schedule).threads[u], Wants(th).value.0);
                   held == Free || (Wants(th).value.1 == Shared == held))
    ensures var s, s' := After(cfg, schedule), After(cfg, schedule + [ThreadStep(t, 0)]);
            && s'.threads == s.threads[t := Advance(cfg, s, s.threads[t], 0)]
            && s'.nextJob == NextJobAfter(cfg, s, s.threads[t])
            && s'.main == s.main && s'.children == ChildrenAfter(s, s.threads[t], 0)
  {
    LocksAlwaysMatch(cfg, schedule);
    var s := After(cfg, schedule);
    LockBalance(cfg, s.threads[t]);
    if Wants(s.threads[t]).Some? {
      FreeIsGranted(s, Wants(s.threads[t]).value.0, Wants(s.threads[t]).value.1);
    }
    AfterOneMore(cfg, schedule, ThreadStep(t, 0));
  }

  /** The thread at its lock loop, with the first `i` keys dealt with. */
  function LockingAt(job: nat, c: Command, i: nat): Thread
    requires c.NamesKeys() && i <= |Args(c)|
  {
    Thread(Lock, job, 0, 0, c, Args(c), Buckets(Args(c), i), i, 0, false)
  }

  /** Where both threads stand while the jobs are under way. */
  ghost predicate At(cfg: Config, schedule: seq<Action>, threads: seq<Thread>, nextJob: nat)
    requires ValidConfig(cfg)
  {
    var s := After(cfg, schedule);
    s.threads == threads && s.nextJob == nextJob && s.main == Joining && s.children == []
  }

  /** Until a thread applies its command, its steps depend on the next job only. */
  predicate Early(th: Thread) {
    th.pc in {Fetch, Claim, Release, Top, GlobalRead, Lock}
  }

  function Advanced(cfg: Config, nextJob: nat, th: Thread): Thread
    requires ThreadOk(cfg, th) && Early(th)
  {
    Advance(cfg, State([], [], nextJob, 0, [], EMPTY, [], map[], Joining), th, 0)
  }

  predicate Unhindered(threads: seq<Thread>, t: nat)
    requires t < |threads|
  {
    Wants(threads[t]).Some? ==> forall u :: 0 <= u < |threads| && u != t ==>
      var held := Holds(threads[u], Wants(threads[t]).value.0);
      held == Free || (Wants(threads[t]).value.1 == Shared == held)
  }

  lemma Step(cfg: Config, schedule: seq<Action>, threads: seq<Thread>, t: nat, nextJob: nat, th: Thread)
    requires ValidConfig(cfg) && |threads| == cfg.threads && At(cfg, schedule, threads, nextJob)
    requires t < |threads| && Early(threads[t]) && ThreadOk(cfg, threads[t]) && Unhindered(threads, t)
    requires th == Advanced(cfg, nextJob, threads[t])
    ensures At(cfg, schedule + [ThreadStep(t, 0)], threads[t := th],
               if threads[t].pc == Claim && nextJob < |cfg.jobs| then nextJob + 1 else nextJob)
  {
    Moved(cfg, schedule, t);
  }

  // The deadlock: the first thread takes the higher bucket, the second the lower one, and each wants the other's.

  /** The same, seen from the moving thread. */
  lemma StepAt(cfg: Config, schedule: seq<Action>, rest: seq<Thread>, t: nat, nextJob: nat, from: Thread, to: Thread)
    returns (longer: seq<Action>)
    requires ValidConfig(cfg) && |rest| == cfg.threads && t < |rest| && At(cfg, schedule, rest[t := from], nextJob)
    requires Early(from) && ThreadOk(cfg, from) && Unhindered(rest[t := from], t) && to == Advanced(cfg, nextJob, from)
    ensures At(cfg, longer, rest[t := to], if from.pc == Claim && nextJob < |cfg.jobs| then nextJob + 1 else nextJob)
  {
    Step(cfg, schedule, rest[t := from], t, nextJob, to);
    assert rest[t := from][t := to] == rest[t := to];
    longer := schedule + [ThreadStep(t, 0)];
  }

  function Claimed(job: nat, pc: Pc): Thread {
    IDLE.(pc := pc, job := job)
  }

  /** A thread claims the next job. */
  lemma Claims(cfg: Config, schedule: seq<Action>, rest: seq<Thread>, t: nat, job: nat) returns (longer: seq<Action>)
    requires ValidConfig(cfg) && |rest| == cfg.threads && t < |rest| && At(cfg, schedule, rest[t := IDLE], job)
    requires job < |cfg.jobs|
    requires forall u :: 0 <= u < |rest| && u != t ==> Holds(rest[u], FILE) == Free
    ensures At(cfg, longer, rest[t := Claimed(job, Top)], job + 1)
  {
    longer := StepAt(cfg, schedule, rest, t, job, IDLE, IDLE.(pc := Claim));
    longer := StepAt(cfg, longer, rest, t, job, IDLE.(pc := Claim), Claimed(job, Release));
    longer := StepAt(cfg, longer, rest, t, job + 1, Claimed(job, Release), Claimed(job, Top));
  }

  /** It opens the job's only command and comes to its lock loop. */
  lemma Opens(cfg: Config, schedule: seq<Action>, rest: seq<Thread>, t: nat, job: nat, c: Command)
    returns (longer: seq<Action>)
    requires ValidConfig(cfg) && |rest| == cfg.threads && t < |rest|
             && At(cfg, schedule, rest[t := Claimed(job, Top)], job + 1)
    requires job < |cfg.jobs| && cfg.jobs[job] == [c] && c.NamesKeys()
    requires forall u :: 0 <= u < |rest| && u != t ==> Holds(rest[u], GLOBAL) != Exclusive
    ensures At(cfg, longer, rest[t := LockingAt(job, c, 0)], job + 1)
  {
    var top := Claimed(job, Top);
    var start := Begin(top, c);
    assert cfg.jobs[job][0] == c;
    longer := StepAt(cfg, schedule, rest, t, job + 1, top, start);
    assert Buckets(Args(c), 0) == {};
    if c.Mutates() {
      BeginIsOk(cfg, top);
      longer := StepAt(cfg, longer, rest, t, job + 1, start, LockingAt(job, c, 0));
    }
  }

  lemma LockingIsOk(cfg: Config, job: nat, c: Command, i: nat)
    requires ValidConfig(cfg) && job < |cfg.jobs| && cfg.jobs[job] == [c] && c.NamesKeys() && i <= |Args(c)|
    ensures ThreadOk(cfg, LockingAt(job, c, i))
    ensures i < |Args(c)| ==> LockingAt(job, c, i + 1) == Advanced(cfg, job + 1, LockingAt(job, c, i))
  {
    assert cfg.jobs[job][0] == c;
    ArgsValid(c);
    assert i < |Args(c)| ==> Buckets(Args(c), i + 1) == Buckets(Args(c), i) + {Hash(Args(c)[i].key)};
  }

  /** Nobody else holds the buckets of keys `i` to `j` in a way that keeps the command out. */
  predicate Clear(rest: seq<Thread>, t: nat, c: Command, i: nat, j: nat)
    requires c.NamesKeys() && i <= j <= |Args(c)|
  {
    forall u, k :: 0 <= u < |rest| && u != t && i <= k < j ==>
      var held := Holds(rest[u], BUCKETS + Hash(Args(c)[k].key));
      held == Free || (held == Shared && !c.Mutates())
  }

  lemma ClearIsUnhindered(rest: seq<Thread>, t: nat, job: nat, c: Command, i: nat)
    requires t < |rest| && c.NamesKeys() && i < |Args(c)| && Clear(rest, t, c, i, i + 1)
    ensures Unhindered(rest[t := LockingAt(job, c, i)], t)
  {
    hide Args, Hash, Buckets;
  }

  lemma LocksOne(cfg: Config, schedule: seq<Action>, rest: seq<Thread>, t: nat, job: nat, c: Command, i: nat)
    returns (longer: seq<Action>)
    requires ValidConfig(cfg) && |rest| == cfg.threads && t < |rest|
    requires job < |cfg.jobs| && cfg.jobs[job] == [c] && c.NamesKeys() && i < |Args(c)|
    requires At(cfg, schedule, rest[t := LockingAt(job, c, i)], job + 1) && Clear(rest, t, c, i, i + 1)
    ensures At(cfg, longer, rest[t := LockingAt(job, c, i + 1)], job + 1)
  {
    LockingIsOk(cfg, job, c, i);
    ClearIsUnhindered(rest, t, job, c, i);
    hide At, After, ValidConfig, ThreadOk, Clear, Holds, Advanced, Unhindered, Wants;
    longer := StepAt(cfg, schedule, rest, t, job + 1, LockingAt(job, c, i), LockingAt(job, c, i + 1));
  }

  /** It locks its way from key `i` to key `j`. */
  lemma {:induction false} Locks(cfg: Config, schedule: seq<Action>, rest: seq<Thread>, t: nat, job: nat, c: Command,
                        i: nat, j: nat)
    returns (longer: seq<Action>)
    requires ValidConfig(cfg) && |rest| == cfg.threads && t < |rest|
    requires job < |cfg.jobs| && cfg.jobs[job] == [c] && c.NamesKeys() && i <= j <= |Args(c)|
    requires At(cfg, schedule, rest[t := LockingAt(job, c, i)], job + 1) && Clear(rest, t, c, i, j)
    ensures At(cfg, longer, rest[t := LockingAt(job, c, j)], job + 1)
    decreases j - i
  {
    hide At;
    longer := schedule;
    if i < j {
      longer := LocksOne(cfg, longer, rest, t, job, c, i);
      longer := Locks(cfg, longer, rest, t, job, c, i + 1, j);
    }
  }

  /** Keys `i` and `j` of the command are visited in the wrong order, and `j` brings in a new bucket. */
  predicate Crossed(args: seq<Pair>, i: nat, j: nat) {
    i < j < |args| && Hash(args[j].key) < Hash(args[i].key) && Hash(args[j].key) !in Buckets(args, j)
  }

  lemma Arrives(cfg: Config, schedule: seq<Action>, rest: seq<Thread>, t: nat, job: nat, c: Command, j: nat)
    returns (longer: seq<Action>)
    requires ValidConfig(cfg) && |rest| == cfg.threads && t < |rest| && rest[t] == IDLE && At(cfg, schedule, rest, job)
    requires job < |cfg.jobs| && cfg.jobs[job] == [c] && c.NamesKeys() && j <= |Args(c)| && Clear(rest, t, c, 0, j)
    requires forall u :: 0 <= u < |rest| && u != t ==>
               Holds(rest[u], FILE) == Free && Holds(rest[u], GLOBAL) != Exclusive
    ensures At(cfg, longer, rest[t := LockingAt(job, c, j)], job + 1)
  {
    assert rest[t := IDLE] == rest;
    longer := Claims(cfg, schedule, rest, t, job);
    longer := Opens(cfg, longer, rest, t, job, c);
    longer := Locks(cfg, longer, rest, t, job, c, 0, j);
  }

  lemma IdleClear(rest: seq<Thread>, t: nat, c: Command, j: nat)
    requires c.NamesKeys() && j <= |Args(c)| && forall u :: 0 <= u < |rest| && u != t ==> rest[u] == IDLE
    ensures Clear(rest, t, c, 0, j)
    ensures Holds(IDLE, FILE) == Holds(IDLE, GLOBAL) == Free
  {
  }

  lemma OneClear(rest: seq<Thread>, t: nat, d: Command, n: nat)
    requires d.NamesKeys() && n == 1 <= |Args(d)|
    requires forall u :: 0 <= u < |rest| && u != t ==> Holds(rest[u], BUCKETS + Hash(Args(d)[0].key)) == Free
    ensures Clear(rest, t, d, 0, n)
  {
  }

  lemma StartsAt(cfg: Config)
    requires ValidConfig(cfg) && cfg.threads == 2
    ensures At(cfg, [], [IDLE, IDLE], 0)
  {
  }

  /** The first thread locks `j` keys of its command, then the second one key of its own. */
  lemma Interleaved(cfg: Config, c: Command, d: Command, j: nat) returns (schedule: seq<Action>)
    requires ValidConfig(cfg) && cfg.threads == 2 && cfg.jobs == [[c], [d]]
    requires c.NamesKeys() && d.NamesKeys() && j <= |Args(c)| && 1 <= |Args(d)|
    requires Holds(LockingAt(0, c, j), BUCKETS + Hash(Args(d)[0].key)) == Free
    ensures At(cfg, schedule, [LockingAt(0, c, j), LockingAt(1, d, 1)], 2)
  {
    var none, one := [IDLE, IDLE], [LockingAt(0, c, j), IDLE];
    StartsAt(cfg);
    OneClear(one, 1, d, 1);
    IdleClear(none, 0, c, j);
    assert Holds(LockingAt(0, c, j), FILE) == Free && Holds(LockingAt(0, c, j), GLOBAL) != Exclusive;
    hide At, After, ValidConfig, ThreadOk, Clear, Holds, LockingAt;
    schedule := Arrives(cfg, [], none, 0, 0, c, j);
    assert none[0 := LockingAt(0, c, j)] == one;
    schedule := Arrives(cfg, schedule, one, 1, 1, d, 1);
    assert one[1 := LockingAt(1, d, 1)] == [LockingAt(0, c, j), LockingAt(1, d, 1)];
  }

  /** Two threads that each want what the other holds cannot move, and nobody else is left to. */
  lemma CrossIsStuck(cfg: Config, s: State, x: Thread, y: Thread, a: Action)
    requires Shape(cfg, s) && LocksMatch(s) && s.threads == [x, y] && s.main == Joining && s.children == []
    requires x.pc == Lock && y.pc == Lock && Wants(x).Some? && Wants(y).Some?
    requires Wants(x).value.0 < LOCKS && Wants(y).value.0 < LOCKS
    requires Holds(y, Wants(x).value.0) == Exclusive
    requires Holds(x, Wants(y).value.0) != Free && Wants(y).value.1 == Exclusive
    ensures !Enabled(cfg, s, a)
  {
    assert HoldsAs(s, 1, Wants(x).value.0, Exclusive);
    assert HoldsAs(s, 0, Wants(y).value.0, Holds(x, Wants(y).value.0));
    assert s.threads[0].pc == Lock;
    hide LocksMatch, ThreadOk, Holds, Wants;
  }

  lemma EachWantsTheOthers(c: Command, i: nat, j: nat)
    requires c.NamesKeys() && ValidPairs(Args(c)) && Crossed(Args(c), i, j)
    ensures var lo, hi := Hash(Args(c)[j].key), Hash(Args(c)[i].key);
            var x, y := LockingAt(0, c, j), LockingAt(1, Partner(lo, hi), 1);
            && Wants(x) == Some((BUCKETS + lo, if c.Mutates() then Exclusive else Shared))
            && Wants(y) == Some((BUCKETS + hi, Exclusive))
            && Holds(y, BUCKETS + lo) == Exclusive && Holds(x, BUCKETS + hi) != Free
  {
    var args := Args(c);
    var lo, hi := Hash(args[j].key), Hash(args[i].key);
    PartnerArgs(lo, hi);
    var d := Partner(lo, hi);
    assert hi in Buckets(args, j);
    assert Args(d)[0].key == Letter(lo) && Args(d)[1].key == Letter(hi);
    assert lo in Buckets(Args(d), 1);
  }

  lemma Embrace(c: Command, i: nat, j: nat) returns (schedule: seq<Action>)
    requires c.NamesKeys() && ValidCommand(c) && ValidPairs(Args(c)) && Crossed(Args(c), i, j)
    ensures var d := Partner(Hash(Args(c)[j].key), Hash(Args(c)[i].key));
            ValidCommand(d) && Stuck(TwoJobs(c, d), schedule)
  {
    var lo, hi := Hash(Args(c)[j].key), Hash(Args(c)[i].key);
    PartnerArgs(lo, hi);
    EachWantsTheOthers(c, i, j);
    var d := Partner(lo, hi);
    var cfg := TwoJobs(c, d);
    assert Args(d)[0] == d.pairs[0];
    hide Hash, Crossed, Ascending, LocksMatch, After;
    schedule := Interleaved(cfg, c, d, j);
    LocksAlwaysMatch(cfg, schedule);
    forall a ensures !Enabled(cfg, After(cfg, schedule), a) {
      CrossIsStuck(cfg, After(cfg, schedule), LockingAt(0, c, j), LockingAt(1, d, 1), a);
    }
  }

  lemma SomethingCrosses(args: seq<Pair>) returns (i: nat, j: nat)
    requires ValidPairs(args) && !Ascending(args)
    ensures Crossed(args, i, j)
  {
    j :| 0 <= j < |args| && Hash(args[j].key) !in Buckets(args, j) && !AllBelow(args, j);
    i :| 0 <= i < j && Hash(args[i].key) >= Hash(args[j].key);
    assert Hash(args[i].key) in Buckets(args, j);
  }

  /** A command that does not lock in ascending order has an ordinary WRITE it can deadlock with. */
  lemma OutOfOrderDeadlocks(c: Command) returns (d: Command, schedule: seq<Action>)
    requires c.NamesKeys() && ValidCommand(c) && !Ascending(Args(c))
    ensures d.Write? && ValidCommand(d) && Ascending(Args(d)) && Stuck(TwoJobs(c, d), schedule)
  {
    ArgsValid(c);
    var i, j := SomethingCrosses(Args(c));
    PartnerArgs(Hash(Args(c)[j].key), Hash(Args(c)[i].key));
    d := Partner(Hash(Args(c)[j].key), Hash(Args(c)[i].key));
    schedule := Embrace(c, i, j);
  }

  lemma OrderedIsNotStuck(cfg: Config, schedule: seq<Action>)
    requires ValidConfig(cfg) && Ordered(cfg)
    ensures !Stuck(cfg, schedule)
  {
    if After(cfg, schedule).main != Finished {
      var a := NoDeadlock(cfg, schedule);
    }
  }

  /** No run with any well-ordered WRITE gets stuck. */
  ghost predicate Harmless(c: Command)
    requires ValidCommand(c)
  {
    forall d, schedule :: ValidCommand(d) && d.Write? && Ascending(Args(d)) ==> !Stuck(TwoJobs(c, d), schedule)
  }

  lemma BothOrdered(c: Command, d: Command)
    requires ValidCommand(c) && ValidCommand(d) && c.NamesKeys() && d.NamesKeys() && Ascending(Args(c))
             && Ascending(Args(d))
    ensures ValidConfig(TwoJobs(c, d)) && Ordered(TwoJobs(c, d))
  {
    hide Ascending, ValidCommand;
  }

  lemma AscendingIsHarmless(c: Command, d: Command, schedule: seq<Action>)
    requires ValidCommand(c) && ValidCommand(d) && c.NamesKeys() && d.NamesKeys() && Ascending(Args(c))
             && Ascending(Args(d))
    ensures !Stuck(TwoJobs(c, d), schedule)
  {
    BothOrdered(c, d);
    OrderedIsNotStuck(TwoJobs(c, d), schedule);
  }

  /** So ascending order is exactly the condition under which a command cannot cause a deadlock with ordered ones. */
  lemma AscendingIsNecessary(c: Command)
    requires c.NamesKeys() && ValidCommand(c)
    ensures Ascending(Args(c)) <==> Harmless(c)
  {
    hide Stuck;
    if Ascending(Args(c)) {
      forall d, schedule | ValidCommand(d) && d.Write? && Ascending(Args(d)) ensures !Stuck(TwoJobs(c, d), schedule) {
        AscendingIsHarmless(c, d, schedule);
      }
    } else {
      var d, schedule := OutOfOrderDeadlocks(c);
    }
  }

  lemma SortOfTwo(p: Pair, q: Pair)
    requires Less(q.key, p.key)
    ensures Sort([p, q]) == [q, p]
  {
    assert [p, q][..1] == [p] && [p][..0] == [];
    assert Sort([p]) == Insert([], p) == [p];
    assert Insert([p], q) == Insert([], q) + [p];
  }

  /** Mixing the classes is enough: `strcmp` puts "B" before "a", the table puts it after. */
  lemma MixedCaseIsOutOfOrder()
    ensures var c := Write([Pair("a", "1"), Pair("B", "2")]);
            ValidCommand(c) && Args(c) == [Pair("B", "2"), Pair("a", "1")] && !Ascending(Args(c))
  {
    var args := [Pair("B", "2"), Pair("a", "1")];
    SortOfTwo(Pair("a", "1"), Pair("B", "2"));
    assert Hash(args[0].key) == 1 && Hash(args[1].key) == 0;
    assert !AllBelow(args, 1) && Hash(args[1].key) !in Buckets(args, 1);
  }
}
