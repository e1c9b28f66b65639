/**
 No deadlock, when each command visits its buckets in ascending order. Sorting by `strcmp` gives that
 order when the keys of a command are of one class.
 */
module Progress {
  import opened Store
  import opened Sorting
  import opened Text
  import opened Commands
  import opened Protocol
  import opened Locking
  import opened Backups

  // Ascending buckets.

  /** Whenever the command meets a bucket for the first time, it is above all those it met before. */
  predicate Ascending(args: seq<Pair>) {
    forall j :: 0 <= j < |args| ==> Hash(args[j].key) in Buckets(args, j) || AllBelow(args, j)
  }

  predicate AllBelow(args: seq<Pair>, j: nat)
    requires j < |args|
  {
    forall i :: 0 <= i < j ==> Hash(args[i].key) < Hash(args[j].key)
  }

  /** Every command locks its buckets in ascending order. */
  predicate Ordered(cfg: Config) {
    forall j, c :: 0 <= j < |cfg.jobs| && 0 <= c < |cfg.jobs[j]| && cfg.jobs[j][c].NamesKeys() ==>
      Ascending(Args(cfg.jobs[j][c]))
  }

  datatype Class = Lower | Upper | Digits

  predicate OfClass(key: string, kind: Class) {
    key != [] &&
    match kind
    case Lower => 'a' <= key[0] <= 'z'
    case Upper => 'A' <= key[0] <= 'Z'
    case Digits => '0' <= key[0] <= '9'
  }

  /** Within one class, `strcmp` order and bucket order agree. */
  lemma SortedIsAscending(args: seq<Pair>, kind: Class)
    requires Sorted(args) && forall i :: 0 <= i < |args| ==> OfClass(args[i].key, kind)
    ensures Ascending(args) && ValidPairs(args)
  {
    forall j | 0 <= j < |args| ensures Hash(args[j].key) in Buckets(args, j) || AllBelow(args, j) {
      forall i | 0 <= i < j ensures Hash(args[i].key) <= Hash(args[j].key) {
        assert AtMost(args[i].key, args[j].key);
      }
    }
  }

  /** A command whose keys begin with letters of one case, or all with digits, locks in ascending order. */
  lemma OneClassSuffices(c: Command, kind: Class)
    requires c.NamesKeys() && forall p :: p in Named(c) ==> OfClass(p.key, kind)
    ensures ValidCommand(c) && Ascending(Args(c))
  {
    SortIsStable(Named(c));
    SortedValid(Named(c));
    SortedIsAscending(Args(c), kind);
  }

  // No deadlock.

  /**
   The action can be taken whatever the locks' preference between readers and writers: it needs none, or
   a free one.
   */
  predicate Unblocked(cfg: Config, s: State, a: Action)
    requires Shape(cfg, s)
  {
    && Enabled(cfg, s, a)
    && (a.ThreadStep? && Wants(s.threads[a.t]).Some? ==> s.locks[Wants(s.threads[a.t]).value.0] == RwLock({}, None))
  }

  lemma LocksUpwards(cfg: Config, th: Thread, l: nat)
    requires ThreadOk(cfg, th) && Ordered(cfg) && th.pc == Lock && Wants(th).Some? && l < LOCKS && Holds(th, l) != Free
    ensures l < Wants(th).value.0
  {
    assert cfg.jobs[th.job][th.cmd] == th.command;
    assert Ascending(th.args);
    assert AllBelow(th.args, th.i);
  }

  /** Not the idle spin of a `wait` that fails. */
  predicate Useful(s: State, a: Action) {
    a.MainStep? && s.main == Reaping && s.active > 0 ==> ExitedChild(s, a.child)
  }

  /** A thread only waits for locks above all those it holds. */
  lemma WaitsAbove(cfg: Config, th: Thread, l: nat)
    requires ThreadOk(cfg, th) && Ordered(cfg) && Wants(th).Some? && l < LOCKS && Holds(th, l) != Free
    ensures l < Wants(th).value.0
  {
    if th.pc == Lock {
      LocksUpwards(cfg, th, l);
    }
  }

  /** Where a `wait` stands: a child to collect, none at all, or one still running. */
  lemma WaitMoves(s: State) returns (k: nat)
    ensures ExitedChild(s, k) || NoChildren(s) || (k < |s.children| && s.children[k].status == Running)
  {
    k := 0;
    if !NoChildren(s) {
      k :| 0 <= k < |s.children| && s.children[k].status != Reaped;
    }
  }

  lemma NotWaitingMoves(cfg: Config, s: State, t: nat) returns (a: Action)
    requires Shape(cfg, s) && t < |s.threads| && s.threads[t].pc != Done && Wants(s.threads[t]).None?
    ensures Unblocked(cfg, s, a) && !a.MainStep?
  {
    var k := WaitMoves(s);
    a := if s.threads[t].pc == Reap && !ExitedChild(s, k) && !NoChildren(s) then ChildExit(k) else ThreadStep(t, k);
  }

  /** Follow the chain of waiting threads: each waits for a higher lock than the one before, so it ends. */
  lemma {:induction false} WaitingMoves(cfg: Config, s: State, t: nat) returns (a: Action)
    requires ValidConfig(cfg) && Ordered(cfg) && Shape(cfg, s) && LocksMatch(s)
    requires t < |s.threads| && Wants(s.threads[t]).Some? && Wants(s.threads[t]).value.0 < LOCKS
    ensures Unblocked(cfg, s, a) && !a.MainStep?
    decreases LOCKS - Wants(s.threads[t]).value.0
  {
    var l := Wants(s.threads[t]).value.0;
    var lock := s.locks[l];
    if lock == RwLock({}, None) {
      a := ThreadStep(t, 0);
    } else {
      SomeHolder(s, l);
      var u :| HoldsAs(s, u, l, Shared) || HoldsAs(s, u, l, Exclusive);
      LockBalance(cfg, s.threads[u]);
      if Wants(s.threads[u]).Some? {
        WaitsAbove(cfg, s.threads[u], l);
        a := WaitingMoves(cfg, s, u);
      } else {
        a := NotWaitingMoves(cfg, s, u);
      }
    }
  }

  lemma SomeHolder(s: State, l: nat)
    requires LocksMatch(s) && l < LOCKS && s.locks[l] != RwLock({}, None)
    ensures exists u :: HoldsAs(s, u, l, Shared) || HoldsAs(s, u, l, Exclusive)
  {
    if s.locks[l].writer.Some? {
      assert HoldsAs(s, s.locks[l].writer.value, l, Exclusive);
    } else {
      var u :| u in s.locks[l].readers;
      assert HoldsAs(s, u, l, Shared);
    }
  }

  lemma MainMoves(cfg: Config, s: State) returns (a: Action)
    requires Shape(cfg, s) && BackupsOk(cfg, s) && s.main != Finished
    requires forall t :: 0 <= t < |s.threads| ==> s.threads[t].pc == Done
    ensures Unblocked(cfg, s, a) && Useful(s, a)
  {
    var k := WaitMoves(s);
    UnreapedZero(s.children);
    a := if s.main == Reaping && s.active > 0 && !ExitedChild(s, k) then ChildExit(k) else MainStep(k);
  }

  /** In every reachable state of an unfinished run somebody can move, and not just spin. */
  lemma NoDeadlock(cfg: Config, schedule: seq<Action>) returns (a: Action)
    requires ValidConfig(cfg) && Ordered(cfg)
    requires After(cfg, schedule).main != Finished
    ensures Unblocked(cfg, After(cfg, schedule), a) && Useful(After(cfg, schedule), a)
  {
    var s := After(cfg, schedule);
    LocksAlwaysMatch(cfg, schedule);
    BackupsAlwaysOk(cfg, schedule);
    if t :| 0 <= t < |s.threads| && s.threads[t].pc != Done {
      LockBalance(cfg, s.threads[t]);
      if Wants(s.threads[t]).Some? {
        a := WaitingMoves(cfg, s, t);
      } else {
        a := NotWaitingMoves(cfg, s, t);
      }
    } else {
      a := MainMoves(cfg, s);
    }
  }
}
