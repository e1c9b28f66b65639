/** How many backups are alive, which files they leave, and the end of the main thread. */
module Backups {
  import opened Store
  import opened Protocol
  import opened Locking
  import opened Serial
  import opened Linearizability
  import Listing
  import Text

  /** The children nobody has waited for. */
  function Unreaped(children: seq<Child>): nat {
    if children == [] then 0
    else
      Unreaped(children[..|children| - 1]) + if children[|children| - 1].status == Reaped then 0 else 1
  }

  /** The number of backups the program lets live: the command line's, but never less than one. */
  function Limit(cfg: Config): int {
    if cfg.maxBackups < 1 then 1 else cfg.maxBackups
  }

  lemma {:induction false} UnreapedUpdate(children: seq<Child>, k: nat, child: Child)
    requires k < |children|
    ensures Unreaped(children[k := child]) ==
            Unreaped(children) - (if children[k].status == Reaped then 0 else 1)
            + (if child.status == Reaped then 0 else 1)
  {
    var init := children[..|children| - 1];
    if k < |init| {
      UnreapedUpdate(init, k, child);
      assert children[k := child][..|children| - 1] == init[k := child];
    } else {
      assert children[k := child][..|children| - 1] == init;
    }
  }

  lemma UnreapedPush(children: seq<Child>, child: Child)
    ensures Unreaped(children + [child]) == Unreaped(children) + if child.status == Reaped then 0 else 1
  {
    assert (children + [child])[..|children|] == children;
  }

  lemma {:induction false} UnreapedZero(children: seq<Child>)
    ensures Unreaped(children) == 0 <==> forall k :: 0 <= k < |children| ==> children[k].status == Reaped
  {
    if children != [] {
      UnreapedZero(children[..|children| - 1]);
    }
  }

  /** How far the counter is from the children, as thread `th` sees it. */
  ghost predicate Counted(cfg: Config, s: State, th: Thread) {
    match th.pc
    case Count => s.active + 1 == Unreaped(s.children) && s.active + 1 <= Limit(cfg)
    case Decrement => s.active == Unreaped(s.children) + 1
    case LockAll => s.active == Unreaped(s.children) && s.active + 1 <= Limit(cfg)
    case _ => InBackup(th) ==> s.active == Unreaped(s.children)
  }

  /** Between taking and giving back the backup mutex. */
  predicate InBackup(th: Thread) {
    th.pc in {Throttle, Reap, Decrement, LockAll, Count, UnlockAll, BackupUnlock}
  }

  ghost predicate BackupsOk(cfg: Config, s: State) {
    && s.active <= Limit(cfg)
    && (forall t :: 0 <= t < |s.threads| ==> Counted(cfg, s, s.threads[t]))
    && ((forall t :: 0 <= t < |s.threads| ==> !InBackup(s.threads[t])) ==> s.active == Unreaped(s.children))
    && (s.main != Joining ==> forall t :: 0 <= t < |s.threads| ==> s.threads[t].pc == Done)
    && (s.main == Finished ==> s.active <= 0)
  }

  /** The mutex lets one thread into the critical section. */
  lemma OneInBackup(s: State, t: nat, u: nat)
    requires LocksMatch(s) && t < |s.threads| && u < |s.threads| && t != u && InBackup(s.threads[t])
    ensures !InBackup(s.threads[u])
  {
    Exclusion(s, t, u, BACKUP);
  }

  lemma OwnCount(cfg: Config, s: State, t: nat, k: nat)
    requires Shape(cfg, s) && BackupsOk(cfg, s) && t < |s.threads| && InBackup(s.threads[t])
    requires s.threads[t].pc == Reap ==> ExitedChild(s, k) || NoChildren(s)
    ensures var th := s.threads[t];
            var s' := s.(active := ActiveAfter(s, th), children := ChildrenAfter(s, th, k));
            var th' := Advance(cfg, s, th, k);
            && s'.active <= Limit(cfg) && Counted(cfg, s', th')
            && (!InBackup(th') ==> s'.active == Unreaped(s'.children))
  {
    var th := s.threads[t];
    assert Counted(cfg, s, th) && ThreadOk(cfg, th);
    if Forks(th) {
      UnreapedPush(s.children, Child(th.job, th.backups + 1, s.table, Running));
    } else if th.pc == Reap {
      if ExitedChild(s, k) {
        UnreapedUpdate(s.children, k, s.children[k].(status := Reaped));
      } else {
        UnreapedZero(s.children);
      }
    }
  }

  /** Before its lock is taken, nobody is in the critical section. */
  lemma NobodyInBackup(s: State)
    requires LocksMatch(s) && Grants(s.locks[BACKUP], Exclusive)
    ensures forall u :: 0 <= u < |s.threads| ==> !InBackup(s.threads[u])
  {
    forall u: nat | u < |s.threads| ensures !InBackup(s.threads[u]) {
      assert s.locks[BACKUP].writer == Some(u) <==> HoldsAs(s, u, BACKUP, Exclusive);
    }
  }

  /** A step outside the critical section, or into it, leaves the count alone. */
  lemma OutsideCount(cfg: Config, s: State, th: Thread, k: nat)
    requires ThreadOk(cfg, th) && !InBackup(th)
    ensures ActiveAfter(s, th) == s.active && ChildrenAfter(s, th, k) == s.children
    ensures InBackup(Advance(cfg, s, th, k)) ==> th.pc == BackupLock
    ensures InBackup(Advance(cfg, s, th, k)) ==> Advance(cfg, s, th, k).pc == Throttle
  {
  }

  /** Thread `t` moved; the count is right for it and, if it is alone, for the others. */
  lemma CountKeeps(cfg: Config, s: State, s': State, t: nat)
    requires BackupsOk(cfg, s) && t < |s.threads| == |s'.threads| && s'.threads == s.threads[t := s'.threads[t]]
    requires s'.main == s.main && s.threads[t].pc != Done
    requires s'.active <= Limit(cfg) && Counted(cfg, s', s'.threads[t])
    requires (s'.active == s.active && s'.children == s.children)
          || (forall u :: 0 <= u < |s.threads| && u != t ==> !InBackup(s.threads[u]))
    requires (forall u :: 0 <= u < |s'.threads| ==> !InBackup(s'.threads[u])) ==> s'.active == Unreaped(s'.children)
    ensures BackupsOk(cfg, s')
  {
    forall u | 0 <= u < |s'.threads| ensures Counted(cfg, s', s'.threads[u]) {
      if u != t {
        assert Counted(cfg, s, s.threads[u]);
      }
    }
  }

  lemma BackupsThreadStep(cfg: Config, s: State, t: nat, k: nat)
    requires ValidConfig(cfg) && Shape(cfg, s) && LocksMatch(s) && BackupsOk(cfg, s)
    requires Enabled(cfg, s, ThreadStep(t, k))
    ensures BackupsOk(cfg, Do(cfg, s, ThreadStep(t, k)))
  {
    var th, s' := s.threads[t], Do(cfg, s, ThreadStep(t, k));
    assert Counted(cfg, s, th);
    if InBackup(th) {
      OwnCount(cfg, s, t, k);
      forall u | 0 <= u < |s.threads| && u != t ensures !InBackup(s.threads[u]) {
        OneInBackup(s, t, u);
      }
      assert !InBackup(s'.threads[t]) ==> s'.active == Unreaped(s'.children);
    } else {
      OutsideCount(cfg, s, th, k);
      if th.pc == BackupLock {
        NobodyInBackup(s);
      }
      assert (forall u :: 0 <= u < |s'.threads| ==> !InBackup(s'.threads[u])) ==>
        forall u :: 0 <= u < |s.threads| ==> !InBackup(s.threads[u]) by {
        assert forall u :: 0 <= u < |s.threads| && u != t ==> s'.threads[u] == s.threads[u];
      }
    }
    CountKeeps(cfg, s, s', t);
  }

  lemma BackupsOtherStep(cfg: Config, s: State, a: Action)
    requires ValidConfig(cfg) && Shape(cfg, s) && BackupsOk(cfg, s)
    requires Enabled(cfg, s, a) && !a.ThreadStep?
    ensures BackupsOk(cfg, Do(cfg, s, a))
  {
    var s' := Do(cfg, s, a);
    match a {
      case ChildExit(k) => UnreapedUpdate(s.children, k, s.children[k].(status := Exited));
      case MainStep(k) =>
        if s.main == Reaping && s.active > 0 && ExitedChild(s, k) {
          UnreapedUpdate(s.children, k, s.children[k].(status := Reaped));
        }
    }
    forall u | 0 <= u < |s.threads| ensures Counted(cfg, s', s'.threads[u]) {
      assert Counted(cfg, s, s.threads[u]);
    }
  }

  lemma {:induction false} BackupsAlwaysOk(cfg: Config, schedule: seq<Action>)
    requires ValidConfig(cfg)
    ensures BackupsOk(cfg, After(cfg, schedule))
  {
    if schedule != [] {
      var init, a := schedule[..|schedule| - 1], schedule[|schedule| - 1];
      BackupsAlwaysOk(cfg, init);
      LocksAlwaysMatch(cfg, init);
      var s := After(cfg, init);
      if Enabled(cfg, s, a) {
        if a.ThreadStep? {
          BackupsThreadStep(cfg, s, a.t, a.child);
        } else {
          BackupsOtherStep(cfg, s, a);
        }
      }
    }
  }

  /** The throttle: the counter is the number of living backups whenever nobody holds the mutex, and bounded always. */
  lemma Throttled(cfg: Config, schedule: seq<Action>)
    requires ValidConfig(cfg)
    ensures var s := After(cfg, schedule);
            && s.active <= Limit(cfg) && Unreaped(s.children) <= Limit(cfg)
            && ((forall t :: 0 <= t < cfg.threads ==> !InBackup(s.threads[t])) ==> s.active == Unreaped(s.children))
  {
    BackupsAlwaysOk(cfg, schedule);
    var s := After(cfg, schedule);
    if t :| 0 <= t < cfg.threads && InBackup(s.threads[t]) {
      assert Counted(cfg, s, s.threads[t]);
    }
  }

  /** The program ends with every job run and every child waited for. */
  lemma EndsWithNoChildren(cfg: Config, schedule: seq<Action>)
    requires ValidConfig(cfg) && After(cfg, schedule).main == Finished
    ensures NoChildren(After(cfg, schedule))
    ensures forall t :: 0 <= t < cfg.threads ==> After(cfg, schedule).threads[t].pc == Done
  {
    BackupsAlwaysOk(cfg, schedule);
    UnreapedZero(After(cfg, schedule).children);
  }

  // Files.

  /** Two backups get the same file exactly when the stems and the numbers agree. */
  lemma PathsDiffer(dir: string, name: string, m: nat, name': string, n: nat)
    ensures BackupPath(dir, name, m) == BackupPath(dir, name', n) <==> Stem(name) == Stem(name') && m == n
  {
    var p, q := BackupPath(dir, name, m), BackupPath(dir, name', n);
    if p == q {
      var a, b := dir + "/" + Stem(name), dir + "/" + Stem(name');
      assert p == a + "-" + Text.Decimal(m) + ".bck" && q == b + "-" + Text.Decimal(n) + ".bck";
      assert p[..|p| - 4] == a + ['-'] + Text.Decimal(m) && q[..|q| - 4] == b + ['-'] + Text.Decimal(n);
      NoDash(m);
      NoDash(n);
      Text.SplitAtLast(a, Text.Decimal(m), b, Text.Decimal(n), '-');
      assert Stem(name) == a[|dir| + 1..] && Stem(name') == b[|dir| + 1..];
      Text.DecimalInjective(m, n);
    }
  }

  lemma NoDash(n: nat)
    ensures '-' !in Text.Decimal(n)
  {
    var digits := Text.Decimal(n);
    assert forall i :: 0 <= i < |digits| ==> Text.IsDigit(digits[i]);
  }

  /** The names in the directory are distinct without their last four characters. */
  predicate DistinctStems(names: seq<string>) {
    forall i, j :: 0 <= i < j < |names| ==> Stem(names[i]) != Stem(names[j])
  }

  /** Names that end in ".job" and are distinct, as directory entries are, have distinct stems. */
  lemma JobNamesSuffice(names: seq<string>)
    requires forall i :: 0 <= i < |names| ==> |names[i]| >= 4 && names[i] == Stem(names[i]) + ".job"
    requires forall i, j :: 0 <= i < j < |names| ==> names[i] != names[j]
    ensures DistinctStems(names)
  {
    forall i, j | 0 <= i < j < |names| ensures Stem(names[i]) != Stem(names[j]) {
      assert names[i] == Stem(names[i]) + ".job";
      assert names[j] == Stem(names[j]) + ".job";
    }
  }

  lemma ChildPathsDistinct(cfg: Config, schedule: seq<Action>, i: nat, k: nat)
    requires ValidConfig(cfg) && DistinctStems(cfg.names) && i < k < |After(cfg, schedule).children|
    ensures var s := After(cfg, schedule); Path(cfg, s.children[i]) != Path(cfg, s.children[k])
  {
    var s, ser := After(cfg, schedule), Run(cfg, Order(cfg, schedule));
    Linearizable(cfg, schedule);
    RunNumbers(cfg, Order(cfg, schedule));
    ForksDistinct(ser.forks, i, k);
    var c, d := s.children[i], s.children[k];
    assert ser.forks[i] == Fork(c.job, c.number, c.copy) && ser.forks[k] == Fork(d.job, d.number, d.copy);
    PathsDiffer(cfg.dir, cfg.names[c.job], c.number, cfg.names[d.job], d.number);
  }

  /** The files are the listings of the children that have exited, each in its own file. */
  ghost predicate FilesOk(cfg: Config, s: State) {
    && (forall k :: 0 <= k < |s.children| && s.children[k].status != Running ==> HasFile(cfg, s, s.children[k]))
    && (forall p :: p in s.files ==> exists k :: WrittenBy(cfg, s, p, k))
  }

  ghost predicate HasFile(cfg: Config, s: State, child: Child) {
    Path(cfg, child) in s.files && s.files[Path(cfg, child)] == Listing.Text(child.copy)
  }

  ghost predicate WrittenBy(cfg: Config, s: State, p: string, k: int) {
    0 <= k < |s.children| && s.children[k].status != Running && Path(cfg, s.children[k]) == p
  }

  lemma FilesThreadStep(cfg: Config, s: State, t: nat, k: nat)
    requires ValidConfig(cfg) && Shape(cfg, s) && FilesOk(cfg, s) && Enabled(cfg, s, ThreadStep(t, k))
    ensures FilesOk(cfg, Do(cfg, s, ThreadStep(t, k)))
  {
    FilesKeep(cfg, s, Do(cfg, s, ThreadStep(t, k)));
  }

  lemma FilesKeep(cfg: Config, s: State, s': State)
    requires FilesOk(cfg, s) && s'.files == s.files && |s.children| <= |s'.children|
    requires forall k :: 0 <= k < |s.children| ==>
               var c, d := s.children[k], s'.children[k];
               c.job == d.job && c.number == d.number && c.copy == d.copy &&
                 (c.status == Running <==> d.status == Running)
    requires forall k :: |s.children| <= k < |s'.children| ==> s'.children[k].status == Running
    ensures FilesOk(cfg, s')
  {
    forall k | 0 <= k < |s.children| ensures Path(cfg, s'.children[k]) == Path(cfg, s.children[k]) {
    }
    hide Path, Listing.Text;
    forall p | p in s'.files ensures exists k :: WrittenBy(cfg, s', p, k) {
      var k :| WrittenBy(cfg, s, p, k);
      assert WrittenBy(cfg, s', p, k);
    }
    forall k | 0 <= k < |s'.children| && s'.children[k].status != Running ensures HasFile(cfg, s', s'.children[k]) {
      assert HasFile(cfg, s, s.children[k]);
    }
  }

  lemma FilesExitStep(cfg: Config, s: State, k: nat)
    requires ValidConfig(cfg) && Shape(cfg, s) && FilesOk(cfg, s) && Enabled(cfg, s, ChildExit(k))
    requires forall i :: 0 <= i < |s.children| && i != k ==> Path(cfg, s.children[i]) != Path(cfg, s.children[k])
    ensures FilesOk(cfg, Do(cfg, s, ChildExit(k)))
  {
    hide BackupPath, Stem;
    var s' := Do(cfg, s, ChildExit(k));
    assert forall i :: 0 <= i < |s.children| ==> Path(cfg, s'.children[i]) == Path(cfg, s.children[i]);
    forall p | p in s'.files ensures exists i :: WrittenBy(cfg, s', p, i) {
      if p == Path(cfg, s.children[k]) {
        assert WrittenBy(cfg, s', p, k);
      } else {
        var i :| WrittenBy(cfg, s, p, i);
        assert WrittenBy(cfg, s', p, i);
      }
    }
    forall i | 0 <= i < |s'.children| && s'.children[i].status != Running ensures HasFile(cfg, s', s'.children[i]) {
      assert i != k ==> HasFile(cfg, s, s.children[i]);
    }
  }

  lemma NoFiles(cfg: Config)
    ensures FilesOk(cfg, Init(cfg))
  {
  }

  /** No backup overwrites another: in every reachable state each exited child's file holds that child's listing. */
  lemma {:induction false} BackupFiles(cfg: Config, schedule: seq<Action>)
    requires ValidConfig(cfg) && DistinctStems(cfg.names)
    ensures FilesOk(cfg, After(cfg, schedule))
  {
    hide FilesOk, Path, ThreadOk, Advance;
    if schedule == [] {
      NoFiles(cfg);
    } else {
      var init, a := schedule[..|schedule| - 1], schedule[|schedule| - 1];
      BackupFiles(cfg, init);
      var s := After(cfg, init);
      if Enabled(cfg, s, a) {
        match a {
          case ThreadStep(t, k) => FilesThreadStep(cfg, s, t, k);
          case ChildExit(k) =>
            forall i | 0 <= i < |s.children| && i != k ensures Path(cfg, s.children[i]) != Path(cfg, s.children[k]) {
              ChildPathsDistinct(cfg, init, if i < k then i else k, if i < k then k else i);
            }
            FilesExitStep(cfg, s, k);
          case MainStep(k) => FilesKeep(cfg, s, Do(cfg, s, a));
        }
      }
    }
  }
}
