/** Who holds what, lock balance, and race freedom. */
module Locking {
  import opened Store
  import opened Commands
  import opened Protocol
  import Sorting

  /** How a thread at this point of its command holds lock `l`. */
  function Holds(th: Thread, l: nat): Mode {
    if l == FILE then
      if th.pc in {Claim, Release, Leave} then Exclusive else Free
    else if l == BACKUP then
      if th.pc in {Throttle, Reap, Decrement, LockAll, Count, UnlockAll, BackupUnlock} then Exclusive else Free
    else if l == GLOBAL then
      if th.pc in {Lock, Apply, Unlock} && th.command.Mutates() then Shared
      else if th.pc == Print then Exclusive
      else if th.pc == GlobalUnlock then if th.command.Show? then Exclusive else Shared
      else Free
    else HoldsBucket(th, l - BUCKETS)
  }

  function HoldsBucket(th: Thread, b: nat): Mode {
    match th.pc
    case Lock => if b in th.hashed then if th.command.Mutates() then Exclusive else Shared else Free
    case Apply => if b in th.hashed then if th.command.Mutates() then Exclusive else Shared else Free
    case Unlock => if b in th.hashed then if th.command.Mutates() then Exclusive else Shared else Free
    case LockAll => if b < th.i then Shared else Free
    case Count => if b < TABLE_SIZE then Shared else Free
    case UnlockAll => if th.i <= b < TABLE_SIZE then Shared else Free
    case _ => Free
  }

  /** The lock objects say exactly what the threads' positions say. */
  ghost predicate LocksMatch(s: State) {
    && |s.locks| == LOCKS
    && (forall l :: 0 <= l < LOCKS ==> s.locks[l].writer.Some? ==> s.locks[l].readers == {})
    && (forall l, t :: 0 <= l < LOCKS ==> (t in s.locks[l].readers <==> HoldsAs(s, t, l, Shared)))
    && (forall l, t: nat :: 0 <= l < LOCKS ==> (s.locks[l].writer == Some(t) <==> HoldsAs(s, t, l, Exclusive)))
  }

  ghost predicate HoldsAs(s: State, t: int, l: nat, mode: Mode) {
    0 <= t < |s.threads| && Holds(s.threads[t], l) == mode
  }

  /** Lock balance: a thread never asks for a lock it has, and gives back only what it has. */
  lemma LockBalance(cfg: Config, th: Thread)
    requires ThreadOk(cfg, th)
    ensures Wants(th).Some? ==> Wants(th).value.0 < LOCKS && Holds(th, Wants(th).value.0) == Free != Wants(th).value.1
    ensures GivesBack(th).Some? ==> GivesBack(th).value < LOCKS && Holds(th, GivesBack(th).value) != Free
    ensures Wants(th).Some? ==> GivesBack(th).None?
  {
  }

  /** What the thread holds after a step: its locks, and the one it asked for, less the one it gave back. */
  function HoldsNext(th: Thread, l: nat): Mode {
    if Wants(th).Some? && Wants(th).value.0 == l then Wants(th).value.1
    else if GivesBack(th) == Some(l) then Free
    else Holds(th, l)
  }

  lemma HoldsAfterLock(cfg: Config, s: State, th: Thread, k: nat, l: nat)
    requires ThreadOk(cfg, th) && l < LOCKS && th.pc == Lock
    ensures Holds(Advance(cfg, s, th, k), l) == HoldsNext(th, l)
  {
  }

  lemma HoldsAfterApply(cfg: Config, s: State, th: Thread, k: nat, l: nat)
    requires ThreadOk(cfg, th) && l < LOCKS && th.pc == Apply
    ensures Holds(Advance(cfg, s, th, k), l) == HoldsNext(th, l)
  {
  }

  lemma HoldsAfterUnlock(cfg: Config, s: State, th: Thread, k: nat, l: nat)
    requires ThreadOk(cfg, th) && l < LOCKS && th.pc == Unlock
    ensures Holds(Advance(cfg, s, th, k), l) == HoldsNext(th, l)
  {
  }

  lemma HoldsAfterBackup(cfg: Config, s: State, th: Thread, k: nat, l: nat)
    requires ThreadOk(cfg, th) && l < LOCKS
    requires th.pc in {BackupLock, Throttle, Reap, Decrement, LockAll, Count, UnlockAll, BackupUnlock}
    ensures Holds(Advance(cfg, s, th, k), l) == HoldsNext(th, l)
  {
  }

  lemma HoldsAfter(cfg: Config, s: State, th: Thread, k: nat, l: nat)
    requires ThreadOk(cfg, th) && l < LOCKS
    ensures Holds(Advance(cfg, s, th, k), l) == HoldsNext(th, l)
  {
    if th.pc == Lock {
      HoldsAfterLock(cfg, s, th, k, l);
    } else if th.pc == Apply {
      HoldsAfterApply(cfg, s, th, k, l);
    } else if th.pc == Unlock {
      HoldsAfterUnlock(cfg, s, th, k, l);
    } else if th.pc in {BackupLock, Throttle, Reap, Decrement, LockAll, Count, UnlockAll, BackupUnlock} {
      HoldsAfterBackup(cfg, s, th, k, l);
    }
  }

  /** Between commands, and outside them, a thread holds nothing. */
  lemma IdleHoldsNothing(th: Thread, l: nat)
    requires th.pc in {Fetch, Top, Done}
    ensures Holds(th, l) == Free
  {
  }

  /** Thread `t` moves, the others stay; it now holds lock `l` in this mode, and the rest as before. */
  ghost predicate Moves(s: State, s': State, t: nat, l: nat, mode: Mode) {
    && t < |s.threads| == |s'.threads|
    && (forall u :: 0 <= u < |s.threads| && u != t ==> s'.threads[u] == s.threads[u])
    && (forall k :: 0 <= k < LOCKS ==> Holds(s'.threads[t], k) == if k == l then mode else Holds(s.threads[t], k))
  }

  lemma MovesHolds(s: State, s': State, t: nat, l: nat, mode: Mode)
    requires Moves(s, s', t, l, mode)
    ensures forall k, u, m :: 0 <= k < LOCKS ==>
              HoldsAs(s', u, k, m) == if u == t && k == l then m == mode else HoldsAs(s, u, k, m)
  {
  }

  lemma TakeKeepsMatch(s: State, s': State, t: nat, l: nat, mode: Mode)
    requires LocksMatch(s) && Moves(s, s', t, l, mode)
    requires l < LOCKS && Holds(s.threads[t], l) == Free != mode && Grants(s.locks[l], mode)
    requires s'.locks == s.locks[l := Take(s.locks[l], t, mode)]
    ensures LocksMatch(s')
  {
    MovesHolds(s, s', t, l, mode);
    assert HoldsAs(s, t, l, Free);
  }

  lemma DropKeepsMatch(s: State, s': State, t: nat, l: nat)
    requires LocksMatch(s) && Moves(s, s', t, l, Free)
    requires l < LOCKS && s'.locks == s.locks[l := Drop(s.locks[l], t)]
    ensures LocksMatch(s')
  {
    MovesHolds(s, s', t, l, Free);
  }

  lemma LocalKeepsMatch(s: State, s': State, t: nat)
    requires LocksMatch(s) && Moves(s, s', t, LOCKS, Free) && s'.locks == s.locks
    ensures LocksMatch(s')
  {
    MovesHolds(s, s', t, LOCKS, Free);
  }

  lemma LocksStep(cfg: Config, s: State, t: nat, k: nat)
    requires ValidConfig(cfg) && Shape(cfg, s) && LocksMatch(s)
    requires Enabled(cfg, s, ThreadStep(t, k))
    ensures LocksMatch(Do(cfg, s, ThreadStep(t, k)))
  {
    var th, s' := s.threads[t], Do(cfg, s, ThreadStep(t, k));
    LockBalance(cfg, th);
    forall l | 0 <= l < LOCKS ensures Holds(s'.threads[t], l) == HoldsNext(th, l) {
      HoldsAfter(cfg, s, th, k, l);
    }
    if Wants(th).Some? {
      TakeKeepsMatch(s, s', t, Wants(th).value.0, Wants(th).value.1);
    } else if GivesBack(th).Some? {
      DropKeepsMatch(s, s', t, GivesBack(th).value);
    } else {
      LocalKeepsMatch(s, s', t);
    }
  }

  lemma InitLocks(cfg: Config)
    ensures LocksMatch(Init(cfg))
  {
  }

  /** An exclusive holder is alone. */
  lemma Exclusion(s: State, t: nat, u: nat, l: nat)
    requires LocksMatch(s) && t < |s.threads| && u < |s.threads| && t != u && l < LOCKS
    requires Holds(s.threads[t], l) == Exclusive
    ensures Holds(s.threads[u], l) == Free
  {
    assert HoldsAs(s, t, l, Exclusive);
    assert HoldsAs(s, u, l, Holds(s.threads[u], l));
  }

  lemma LocksDo(cfg: Config, s: State, a: Action)
    requires ValidConfig(cfg) && Shape(cfg, s) && LocksMatch(s) && Enabled(cfg, s, a)
    ensures LocksMatch(Do(cfg, s, a))
  {
    if a.ThreadStep? {
      LocksStep(cfg, s, a.t, a.child);
    } else {
      var s' := Do(cfg, s, a);
      assert s'.locks == s.locks && s'.threads == s.threads;
      assert forall l, t, mode :: HoldsAs(s', t, l, mode) == HoldsAs(s, t, l, mode);
    }
  }

  /** In every reachable state. */
  lemma {:induction false} LocksAlwaysMatch(cfg: Config, schedule: seq<Action>)
    requires ValidConfig(cfg)
    ensures LocksMatch(After(cfg, schedule))
  {
    if schedule == [] {
      InitLocks(cfg);
    } else {
      var s, a := After(cfg, schedule[..|schedule| - 1]), schedule[|schedule| - 1];
      LocksAlwaysMatch(cfg, schedule[..|schedule| - 1]);
      if Enabled(cfg, s, a) {
        LocksDo(cfg, s, a);
      }
    }
  }

  // Race freedom.

  /** The thread's next step changes bucket `b`. */
  predicate Mutates(th: Thread, b: nat) {
    th.pc == Apply && th.i < |th.args| && th.command.Mutates() && Hash(th.args[th.i].key) == b
  }

  /** The thread's next step looks at bucket `b`: a key lookup, a printed node, or the fork's copy. */
  predicate Looks(th: Thread, b: nat) {
    || (th.pc == Apply && th.i < |th.args| && Hash(th.args[th.i].key) == b)
    || (th.pc == Print && th.i == b)
    || (Forks(th) && b < TABLE_SIZE)
  }

  /** A step that does not change a bucket leaves it as it is. */
  lemma OnlyMutationsChange(cfg: Config, s: State, th: Thread, b: nat)
    requires ThreadOk(cfg, th) && b < TABLE_SIZE && !Mutates(th, b)
    ensures TableAfter(s, th)[b] == s.table[b]
  {
  }

  /** A step that does not look at a bucket does the same whatever is in it. */
  lemma OnlyLooksSee(cfg: Config, s: State, th: Thread, k: nat, b: nat, c: Chain)
    requires ThreadOk(cfg, th) && b < TABLE_SIZE && !Looks(th, b)
    ensures var u := s.(table := s.table[b := c]);
            && Advance(cfg, s, th, k) == Advance(cfg, u, th, k) && Prints(s, th) == Prints(u, th)
            && ChildrenAfter(s, th, k) == ChildrenAfter(u, th, k)
            && forall d :: 0 <= d < TABLE_SIZE && d != b ==> TableAfter(s, th)[d] == TableAfter(u, th)[d]
  {
    hide Hash, Buckets, Args, Find, Has;
  }

  lemma MutatesHolds(cfg: Config, th: Thread, b: nat)
    requires ThreadOk(cfg, th) && Mutates(th, b) && b < TABLE_SIZE
    ensures Holds(th, BUCKETS + b) == Exclusive && Holds(th, GLOBAL) == Shared
  {
    assert Hash(th.args[th.i].key) in Buckets(th.args, |th.args|);
  }

  lemma LooksHolds(cfg: Config, th: Thread, b: nat)
    requires ThreadOk(cfg, th) && Looks(th, b) && b < TABLE_SIZE
    ensures Holds(th, BUCKETS + b) != Free || Holds(th, GLOBAL) == Exclusive
  {
    if th.pc == Apply {
      assert Hash(th.args[th.i].key) in Buckets(th.args, |th.args|);
    }
  }

  lemma RaceFree(cfg: Config, s: State, t: nat, u: nat, b: nat)
    requires Shape(cfg, s) && LocksMatch(s) && t != u && b < TABLE_SIZE
    requires t < |s.threads| && u < |s.threads| && Mutates(s.threads[t], b)
    ensures !Looks(s.threads[u], b)
  {
    hide LocksMatch, ThreadOk, Holds, Looks, Mutates;
    if Looks(s.threads[u], b) {
      MutatesHolds(cfg, s.threads[t], b);
      LooksHolds(cfg, s.threads[u], b);
      Exclusion(s, t, u, BUCKETS + b);
      if Holds(s.threads[u], GLOBAL) == Exclusive {
        Exclusion(s, u, t, GLOBAL);
      }
    }
  }

  /** In every reachable state, no bucket is changed by one thread while another changes or looks at it. */
  lemma NoRace(cfg: Config, schedule: seq<Action>, t: nat, u: nat, b: nat)
    requires ValidConfig(cfg) && t != u && b < TABLE_SIZE
    requires var s := After(cfg, schedule); t < |s.threads| && u < |s.threads| && Mutates(s.threads[t], b)
    ensures !Looks(After(cfg, schedule).threads[u], b)
  {
    hide *;
    LocksAlwaysMatch(cfg, schedule);
    RaceFree(cfg, After(cfg, schedule), t, u, b);
  }

  /** The job counter, and the count of backups, are touched by one thread at a time. */
  lemma NoCounterRace(cfg: Config, schedule: seq<Action>, t: nat, u: nat)
    requires ValidConfig(cfg) && t != u
    requires t < cfg.threads && u < cfg.threads
    ensures var s := After(cfg, schedule);
            && (s.threads[t].pc == Claim ==> s.threads[u].pc != Claim)
            && (s.threads[t].pc in {Throttle, Decrement, Count} ==> s.threads[u].pc !in {Throttle, Decrement, Count})
  {
    LocksAlwaysMatch(cfg, schedule);
    var s := After(cfg, schedule);
    if s.threads[t].pc == Claim {
      Exclusion(s, t, u, FILE);
    }
    if s.threads[t].pc in {Throttle, Decrement, Count} {
      Exclusion(s, t, u, BACKUP);
    }
  }

  /** When its pairs are applied, a command holds exactly the buckets of the keys it names. */
  lemma HoldsItsBuckets(cfg: Config, schedule: seq<Action>, t: nat, b: nat)
    requires ValidConfig(cfg) && t < cfg.threads && b < TABLE_SIZE
    requires After(cfg, schedule).threads[t].pc == Apply
    ensures var th := After(cfg, schedule).threads[t];
            && th.command.NamesKeys()
            && (Holds(th, BUCKETS + b) != Free <==> exists p :: p in Named(th.command) && Hash(p.key) == b)
            && (Holds(th, BUCKETS + b) == Exclusive ==> th.command.Mutates())
  {
    HoldsNamedBuckets(cfg, After(cfg, schedule).threads[t], b);
  }

  /** Only a WRITE or DELETE keeps others out of a bucket, and only a SHOW keeps them out of the whole table. */
  lemma OnlyWritersExclude(cfg: Config, schedule: seq<Action>, t: nat, b: nat)
    requires ValidConfig(cfg) && t < cfg.threads && b < TABLE_SIZE
    ensures var th := After(cfg, schedule).threads[t];
            && (Holds(th, BUCKETS + b) == Exclusive ==> th.command.Mutates())
            && (Holds(th, GLOBAL) == Exclusive ==> th.command.Show?)
            && (Forks(th) ==> Holds(th, BUCKETS + b) == Shared)
  {
    ExclusiveMutates(cfg, After(cfg, schedule).threads[t], b);
  }

  lemma ExclusiveMutates(cfg: Config, th: Thread, b: nat)
    requires ThreadOk(cfg, th) && b < TABLE_SIZE
    ensures Holds(th, BUCKETS + b) == Exclusive ==> th.command.Mutates()
    ensures Holds(th, GLOBAL) == Exclusive ==> th.command.Show?
    ensures Forks(th) ==> Holds(th, BUCKETS + b) == Shared
  {
  }

  lemma HoldsNamedBuckets(cfg: Config, th: Thread, b: nat)
    requires ThreadOk(cfg, th) && th.pc == Apply && b < TABLE_SIZE
    ensures th.command.NamesKeys()
    ensures Holds(th, BUCKETS + b) != Free <==> exists p :: p in Named(th.command) && Hash(p.key) == b
    ensures Holds(th, BUCKETS + b) == Exclusive ==> th.command.Mutates()
  {
    Sorting.SortedValid(Named(th.command));
    if b in th.hashed {
      var j :| 0 <= j < |th.args| && Hash(th.args[j].key) == b;
      assert th.args[j] in Named(th.command);
    }
    if p :| p in Named(th.command) && Hash(p.key) == b {
      assert p in th.args;
      var j :| 0 <= j < |th.args| && th.args[j] == p;
      assert Hash(th.args[j].key) in Buckets(th.args, |th.args|);
    }
  }
}
