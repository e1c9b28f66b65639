/**
 The serial order of commands and requests, and how far it is ahead of what has been done: in each bucket,
 by what the thread that is busy there has still to do.
 */
module SessionOrder {
  import opened Store
  import opened Commands
  import opened Protocol
  import opened Locking
  import opened Linearizability
  import opened Histories
  import opened Sessions
  import Subscriptions

  // The locks of sessions.

  /** The session has the lock of its request's bucket. */
  predicate HasLock(setup: Setup, w: World, c: int, b: int) {
    && 0 <= c < |w.sessions| == |setup.requests| && w.sessions[c].stage != Ready
    && w.sessions[c].done < |setup.requests[c]| && Hash(Current(setup, w, c).key) == b
  }

  /** The owners are the sessions between lock and unlock, and no thread holds what a session has. */
  ghost predicate Apart(setup: Setup, w: World) {
    && |w.owners| == TABLE_SIZE
    && (forall b, c: nat :: 0 <= b < TABLE_SIZE ==> (w.owners[b] == Some(c) <==> HasLock(setup, w, c, b)))
    && (forall b: nat, t: nat :: b < TABLE_SIZE && w.owners[b].Some? && t < |w.base.threads| ==>
          Holds(w.base.threads[t], BUCKETS + b) == Free)
  }

  /** A thread takes no lock that a session has. */
  lemma StaysFree(setup: Setup, w: World, a: Action, b: nat)
    requires ValidSetup(setup) && Sound(setup, w) && Can(setup, w, Job(a)) && a.ThreadStep?
    requires b < TABLE_SIZE && w.owners[b].Some? && Holds(w.base.threads[a.t], BUCKETS + b) == Free
    ensures Holds(Advance(setup.jobs, w.base, w.base.threads[a.t], a.child), BUCKETS + b) == Free
  {
    HoldsAfter(setup.jobs, w.base, w.base.threads[a.t], a.child, BUCKETS + b);
    hide Holds, Advance, ThreadOk;
  }

  lemma ApartJob(setup: Setup, w: World, a: Action)
    requires ValidSetup(setup) && Sound(setup, w) && Apart(setup, w) && Can(setup, w, Job(a))
    ensures Apart(setup, Make(setup, w, Job(a)))
  {
    var w' := Make(setup, w, Job(a));
    assert w'.sessions == w.sessions && w'.owners == w.owners;
    assert forall b, c: nat :: HasLock(setup, w', c, b) == HasLock(setup, w, c, b);
    hide Holds, Advance, ThreadOk, HasLock, LocksAfter, OutAfter, ChildrenAfter, TableAfter;
    forall b: nat, t: nat | b < TABLE_SIZE && w.owners[b].Some? && t < |w.base.threads|
      ensures Holds(w'.base.threads[t], BUCKETS + b) == Free
    {
      assert Holds(w.base.threads[t], BUCKETS + b) == Free;
      if a.ThreadStep? && t == a.t {
        StaysFree(setup, w, a, b);
      }
    }
  }

  lemma ApartLock(setup: Setup, w: World, c: nat)
    requires ValidSetup(setup) && Sound(setup, w) && LocksMatch(w.base) && Apart(setup, w) && Can(setup, w, Grab(c))
    ensures Apart(setup, Make(setup, w, Grab(c)))
  {
    var w', b := Make(setup, w, Grab(c)), Hash(Current(setup, w, c).key);
    forall d: nat, e ensures HasLock(setup, w', d, e) <==> HasLock(setup, w, d, e) || (d == c && e == b) {
    }
    forall t: nat | t < |w.base.threads| ensures Holds(w.base.threads[t], BUCKETS + b) == Free {
      NobodyHolds(w.base, BUCKETS + b, t);
    }
    hide HasLock, Holds, LocksMatch;
  }

  lemma NobodyHolds(s: State, l: nat, t: nat)
    requires LocksMatch(s) && l < LOCKS && Grants(s.locks[l], Exclusive) && t < |s.threads|
    ensures Holds(s.threads[t], l) == Free
  {
    assert HoldsAs(s, t, l, Holds(s.threads[t], l));
  }

  lemma ApartServe(setup: Setup, w: World, c: nat)
    requires ValidSetup(setup) && Sound(setup, w) && Apart(setup, w) && Can(setup, w, Serve(c))
    ensures Apart(setup, Make(setup, w, Serve(c)))
  {
    var w' := Make(setup, w, Serve(c));
    forall d: nat, e ensures HasLock(setup, w', d, e) == HasLock(setup, w, d, e) {
    }
    hide HasLock, Holds;
  }

  lemma ApartUnlock(setup: Setup, w: World, c: nat)
    requires ValidSetup(setup) && Sound(setup, w) && Apart(setup, w) && Can(setup, w, GiveUp(c))
    ensures Apart(setup, Make(setup, w, GiveUp(c)))
  {
    var w', b := Make(setup, w, GiveUp(c)), Hash(Current(setup, w, c).key);
    assert HasLock(setup, w, c, b);
    forall d: nat, e ensures HasLock(setup, w', d, e) <==> HasLock(setup, w, d, e) && d != c {
    }
    hide HasLock, Holds;
  }

  lemma StartApart(setup: Setup)
    ensures Apart(setup, StartWorld(setup))
  {
  }

  lemma {:induction false} AlwaysApart(setup: Setup, moves: seq<Move>)
    requires ValidSetup(setup)
    ensures Apart(setup, Reached(setup, moves)) && LocksMatch(Reached(setup, moves).base)
  {
    hide Apart, LocksMatch, Make, Can, Sound, ValidSetup;
    JobsAreRuns(setup, moves);
    ValidJobs(setup);
    LocksAlwaysMatch(setup.jobs, Actions(setup, moves));
    if moves == [] {
      StartApart(setup);
    } else {
      var init, m := moves[..|moves| - 1], moves[|moves| - 1];
      AlwaysApart(setup, init);
      var w := Reached(setup, init);
      if Can(setup, w, m) {
        match m {
          case Job(a) => ApartJob(setup, w, a);
          case Grab(c) => ApartLock(setup, w, c);
          case Serve(c) => ApartServe(setup, w, c);
          case GiveUp(c) => ApartUnlock(setup, w, c);
        }
      }
    }
  }

  lemma ValidJobs(setup: Setup)
    requires ValidSetup(setup)
    ensures ValidConfig(setup.jobs)
  {
  }

  // The changes as they are made.

  function Changes(setup: Setup, moves: seq<Move>): seq<Op>
    requires ValidSetup(setup)
  {
    if moves == [] then []
    else
      var init, m := moves[..|moves| - 1], moves[|moves| - 1];
      Changes(setup, init) + ChangesBy(setup, Reached(setup, init), m)
  }

  function ChangesBy(setup: Setup, w: World, m: Move): seq<Op>
    requires ValidSetup(setup) && Sound(setup, w)
  {
    if Can(setup, w, m) && ChangeOf(setup, w, m).Some? then [ChangeOf(setup, w, m).value] else []
  }

  /** The table and the slots are what the changes made of them. */
  ghost predicate MadeBy(w: World, history: seq<Op>) {
    && Subscriptions.ValidHistory(history)
    && Subscriptions.After(history) == (w.base.table, w.slots)
  }

  lemma MadePush(history: seq<Op>, op: Op)
    requires Subscriptions.ValidHistory(history) && ValidChange(op)
    ensures Subscriptions.ValidHistory(history + [op])
    ensures Subscriptions.After(history + [op]) ==
            Subscriptions.Do(Subscriptions.After(history).0, Subscriptions.After(history).1, op)
  {
    assert (history + [op])[..|history|] == history;
  }

  predicate ValidChange(op: Op) {
    ValidKey(op.key) && (op.Subscribe? || op.Unsubscribe? ==> op.fd != 0)
  }

  /** A move makes its change, or none. */
  lemma MakeChanges(setup: Setup, w: World, m: Move)
    requires ValidSetup(setup) && Sound(setup, w) && Can(setup, w, m)
    ensures ChangeOf(setup, w, m).Some? ==> ValidChange(ChangeOf(setup, w, m).value)
    ensures (Make(setup, w, m).base.table, Make(setup, w, m).slots) ==
            if ChangeOf(setup, w, m).Some?
            then Subscriptions.Do(w.base.table, w.slots, ChangeOf(setup, w, m).value) else (w.base.table, w.slots)
  {
    if m.Job? && m.a.ThreadStep? {
      ChangeIsTableAfter(w.base, w.slots, w.base.threads[m.a.t]);
    }
    hide Advance, ThreadOk, Hash, LocksAfter, OutAfter, ChildrenAfter, TableAfter;
  }

  lemma MadeStep(setup: Setup, w: World, m: Move, history: seq<Op>)
    requires ValidSetup(setup) && Sound(setup, w) && Can(setup, w, m) && MadeBy(w, history)
    ensures MadeBy(Make(setup, w, m), history + ChangesBy(setup, w, m))
  {
    hide Make, ChangeOf, ValidSetup, Sound, Can;
    MakeChanges(setup, w, m);
    if ChangeOf(setup, w, m).Some? {
      MadePush(history, ChangeOf(setup, w, m).value);
    } else {
      assert history + [] == history;
    }
  }

  lemma {:induction false} AlwaysMade(setup: Setup, moves: seq<Move>)
    requires ValidSetup(setup)
    ensures MadeBy(Reached(setup, moves), Changes(setup, moves))
  {
    hide MadeBy, Make, ChangesBy, Can, Sound, ValidSetup;
    if moves == [] {
      StartMade(setup);
    } else {
      var init, m := moves[..|moves| - 1], moves[|moves| - 1];
      AlwaysMade(setup, init);
      var w := Reached(setup, init);
      if Can(setup, w, m) {
        MadeStep(setup, w, m, Changes(setup, init));
      } else {
        NoChange(setup, w, m);
        assert Changes(setup, init) + [] == Changes(setup, init);
      }
    }
  }

  lemma NoChange(setup: Setup, w: World, m: Move)
    requires ValidSetup(setup) && Sound(setup, w) && !Can(setup, w, m)
    ensures ChangesBy(setup, w, m) == [] && SerialBy(setup, w, m) == []
  {
  }

  lemma StartMade(setup: Setup)
    ensures MadeBy(StartWorld(setup), [])
  {
  }

  // The changes in the serial order: a command's all at its lock point.

  /** The changes of a command from position `i` on. */
  function Ops(c: Command, args: seq<Pair>, i: nat): seq<Op>
    requires c.Mutates() && i <= |args|
    decreases |args| - i
  {
    if i == |args| then [] else [OpOf(c, args[i])] + Ops(c, args, i + 1)
  }

  /** The thread's next step is the lock point of a WRITE or DELETE. */
  predicate Commits(th: Thread) {
    th.pc == Pc.Lock && th.i == |th.args| && th.command.Mutates()
  }

  /** All its changes count from there. */
  function WholeCommand(th: Thread): seq<Op> {
    if Commits(th) then Ops(th.command, th.args, 0) else []
  }

  function SerialBy(setup: Setup, w: World, m: Move): seq<Op>
    requires ValidSetup(setup) && Sound(setup, w)
  {
    if !Can(setup, w, m) then []
    else
      match m
      case Job(a) => if a.ThreadStep? then WholeCommand(w.base.threads[a.t]) else []
      case Serve(c) => [Current(setup, w, c)]
      case _ => []
  }

  function SerialChanges(setup: Setup, moves: seq<Move>): seq<Op>
    requires ValidSetup(setup)
  {
    if moves == [] then []
    else
      var init, m := moves[..|moves| - 1], moves[|moves| - 1];
      SerialChanges(setup, init) + SerialBy(setup, Reached(setup, init), m)
  }

  /** The thread is applying changes and has bucket `b`. */
  predicate Busy(th: Thread, b: int) {
    Applying(th) && b in th.hashed && th.i <= |th.args|
  }

  /** What it has still to do there. */
  function Owed(th: Thread, b: int): seq<Op> {
    if Busy(th, b) then At(Ops(th.command, th.args, th.i), b) else []
  }

  function ChangeBy(th: Thread): seq<Op> {
    if Change(th).Some? then [Change(th).value] else []
  }

  /** On bucket `b` the serial order is ahead by what the thread that is busy there owes. */
  ghost predicate Ahead(s: State, serial: seq<Op>, made: seq<Op>, b: nat) {
    && (forall t :: 0 <= t < |s.threads| && Busy(s.threads[t], b) ==>
          At(serial, b) == At(made, b) + Owed(s.threads[t], b))
    && ((forall t :: 0 <= t < |s.threads| ==> !Busy(s.threads[t], b)) ==> At(serial, b) == At(made, b))
  }

  lemma OpsStep(c: Command, args: seq<Pair>, i: nat, b: int)
    requires c.Mutates() && i < |args|
    ensures At(Ops(c, args, i), b) == At([OpOf(c, args[i])], b) + At(Ops(c, args, i + 1), b)
  {
    AtAppend([OpOf(c, args[i])], Ops(c, args, i + 1), b);
  }

  lemma {:induction false} OpsElsewhere(c: Command, args: seq<Pair>, i: nat, b: int)
    requires c.Mutates() && i <= |args| && b !in Buckets(args, |args|)
    ensures At(Ops(c, args, i), b) == []
    decreases |args| - i
  {
    if i < |args| {
      OpsStep(c, args, i, b);
      AtOne(OpOf(c, args[i]), b);
      OpsElsewhere(c, args, i + 1, b);
      assert Hash(args[i].key) in Buckets(args, |args|);
    }
  }

  lemma AtOne(op: Op, b: int)
    ensures At([op], b) == if Hash(op.key) == b then [op] else []
  {
    AtPush([], op, b);
    assert [] + [op] == [op];
  }

  /** Between its changes a thread stays busy where it is. */
  lemma ApplyAdvances(cfg: Config, s: State, th: Thread, k: nat)
    requires ThreadOk(cfg, th) && th.pc == Apply
    ensures var th' := Advance(cfg, s, th, k);
            if th.i == |th.args| then th'.pc == Pc.Unlock
            else th'.pc == Apply && th'.(i := th.i, hasError := th.hasError) == th && th'.i == th.i + 1
    ensures th.i <= |th.args| && th.hashed == Buckets(th.args, |th.args|) && WholeCommand(th) == []
    ensures th.i < |th.args| && th.command.Mutates() ==>
              Change(th) == Some(OpOf(th.command, th.args[th.i])) && Hash(th.args[th.i].key) in th.hashed
    ensures th.i == |th.args| || !th.command.Mutates() ==> Change(th) == None
  {
    hide Args, Hash;
  }

  lemma OwedChanging(th: Thread, th': Thread, op: Op, b: int)
    requires th.pc == Apply == th'.pc && th.i < |th.args| && th.command.Mutates() && th'.i == th.i + 1
    requires th'.command == th.command && th'.args == th.args && th'.hashed == th.hashed
    requires op == OpOf(th.command, th.args[th.i]) && Hash(op.key) in th.hashed
    ensures At([op], b) + Owed(th', b) == Owed(th, b)
    ensures !Busy(th, b) ==> At([op], b) == []
  {
    hide At, Hash, OpOf;
    OpsStep(th.command, th.args, th.i, b);
    AtOne(op, b);
  }

  lemma OwedApplying(cfg: Config, s: State, th: Thread, k: nat, b: int)
    requires ThreadOk(cfg, th) && th.pc == Apply
    ensures At(ChangeBy(th), b) + Owed(Advance(cfg, s, th, k), b) == Owed(th, b)
    ensures !Busy(th, b) ==> At(ChangeBy(th), b) == [] && !Busy(Advance(cfg, s, th, k), b)
    ensures WholeCommand(th) == []
  {
    var th' := Advance(cfg, s, th, k);
    ApplyAdvances(cfg, s, th, k);
    hide Advance, ThreadOk, Hash, Buckets, Change, OpOf;
    if th.i < |th.args| && th.command.Mutates() {
      OwedChanging(th, th', Change(th).value, b);
      hide At, Owed;
    } else {
      assert At([], b) == [] && [] + Owed(th', b) == Owed(th', b);
      hide At;
    }
  }

  lemma OwedLocking(cfg: Config, s: State, th: Thread, k: nat, b: int)
    requires ThreadOk(cfg, th) && Commits(th)
    ensures Owed(Advance(cfg, s, th, k), b) == At(WholeCommand(th), b) && Change(th) == None && !Busy(th, b)
    ensures Busy(Advance(cfg, s, th, k), b) ==> b in th.hashed
  {
    if b !in th.hashed {
      OpsElsewhere(th.command, th.args, 0, b);
    }
    hide Ops, Buckets, Args, ValidPairs;
  }

  lemma OwedNothing(cfg: Config, s: State, th: Thread, k: nat, b: int)
    requires ThreadOk(cfg, th) && th.pc != Apply && !Commits(th)
    ensures Owed(Advance(cfg, s, th, k), b) == [] == Owed(th, b) && Change(th) == None && !Busy(th, b)
    ensures !Busy(Advance(cfg, s, th, k), b) && WholeCommand(th) == []
  {
    hide Buckets, Args, ValidPairs, At;
  }

  /** A step of a thread: what it does and then owes is what it owed and what it adds to the serial order. */
  lemma OwedMoves(cfg: Config, s: State, th: Thread, k: nat, b: nat)
    requires ThreadOk(cfg, th) && b < TABLE_SIZE
    ensures At(ChangeBy(th), b) + Owed(Advance(cfg, s, th, k), b) == Owed(th, b) + At(WholeCommand(th), b)
    ensures Busy(th, b) ==> WholeCommand(th) == []
    ensures !Busy(th, b) ==> At(ChangeBy(th), b) == []
    ensures Busy(Advance(cfg, s, th, k), b) ==> Holds(th, BUCKETS + b) == Exclusive
  {
    assert At([], b) == [];
    if th.pc == Apply {
      OwedApplying(cfg, s, th, k, b);
    } else if Commits(th) {
      OwedLocking(cfg, s, th, k, b);
    } else {
      OwedNothing(cfg, s, th, k, b);
    }
    hide Advance, ThreadOk, At, Ops, Change;
  }

  lemma BusyHolds(th: Thread, b: nat)
    requires Busy(th, b) && b < TABLE_SIZE
    ensures Holds(th, BUCKETS + b) == Exclusive
  {
  }

  ghost predicate OthersIdle(s: State, t: nat, b: nat) {
    forall u :: 0 <= u < |s.threads| && u != t ==> !Busy(s.threads[u], b)
  }

  /** Who has a bucket for writing keeps the others from being busy there. */
  lemma OnlyOneBusy(s: State, t: nat, b: nat)
    requires LocksMatch(s) && t < |s.threads| && b < TABLE_SIZE && Holds(s.threads[t], BUCKETS + b) == Exclusive
    ensures OthersIdle(s, t, b)
  {
    hide LocksMatch, Busy, Holds;
    forall u | 0 <= u < |s.threads| && u != t ensures !Busy(s.threads[u], b) {
      if Busy(s.threads[u], b) {
        BusyHolds(s.threads[u], b);
        Exclusion(s, t, u, BUCKETS + b);
      }
    }
  }

  /** The threads after a step of thread `t`. */
  ghost predicate OneMoves(s: State, s': State, t: nat) {
    t < |s.threads| == |s'.threads| && s'.threads == s.threads[t := s'.threads[t]]
  }

  lemma Glue<T>(serial: seq<T>, made: seq<T>, owed: seq<T>, owed': seq<T>, more: seq<T>, done: seq<T>)
    requires serial == made + owed && done + owed' == owed + more
    ensures serial + more == made + done + owed'
  {
    assert made + (done + owed') == made + done + owed';
    assert made + (owed + more) == made + owed + more;
  }

  /** What has moved by one step, on one bucket. */
  ghost predicate Shifts(th: Thread, th': Thread, more: seq<Op>, done: seq<Op>, b: nat) {
    && At(done, b) + Owed(th', b) == Owed(th, b) + At(more, b)
    && (Busy(th, b) ==> more == [])
    && (!Busy(th, b) ==> At(done, b) == [])
  }

  lemma AheadMoves(s: State, s': State, t: nat, serial: seq<Op>, made: seq<Op>, more: seq<Op>, done: seq<Op>, b: nat)
    requires OneMoves(s, s', t) && Ahead(s, serial, made, b) && Shifts(s.threads[t], s'.threads[t], more, done, b)
    requires Busy(s.threads[t], b) || Busy(s'.threads[t], b) ==> OthersIdle(s, t, b)
    ensures Ahead(s', serial + more, made + done, b)
  {
    var th, th' := s.threads[t], s'.threads[t];
    AtAppend(serial, more, b);
    AtAppend(made, done, b);
    NotBusyOwesNothing(th, b);
    NotBusyOwesNothing(th', b);
    hide At, Owed, Busy;
    if Busy(th, b) || Busy(th', b) {
      BusyMoves(s, s', t, serial, made, more, done, b);
    } else {
      assert At(serial, b) + [] == At(serial, b) && At(made, b) + [] == At(made, b);
      hide Ahead;
      QuietMoves(s, s', t, serial, made, more, done, b);
    }
  }

  lemma OwnAhead(s: State, t: nat, serial: seq<Op>, made: seq<Op>, b: nat)
    requires Ahead(s, serial, made, b) && t < |s.threads| && OthersIdle(s, t, b)
    ensures At(serial, b) == At(made, b) + Owed(s.threads[t], b)
  {
    NotBusyOwesNothing(s.threads[t], b);
    hide At, Owed, Busy;
    assert At(made, b) + [] == At(made, b);
  }

  lemma BusyMoves(s: State, s': State, t: nat, serial: seq<Op>, made: seq<Op>, more: seq<Op>, done: seq<Op>, b: nat)
    requires OneMoves(s, s', t) && Ahead(s, serial, made, b) && OthersIdle(s, t, b)
    requires At(done, b) + Owed(s'.threads[t], b) == Owed(s.threads[t], b) + At(more, b)
    ensures Ahead(s', serial + more, made + done, b)
  {
    OwnAhead(s, t, serial, made, b);
    AtAppend(serial, more, b);
    AtAppend(made, done, b);
    NotBusyOwesNothing(s'.threads[t], b);
    hide At, Owed, Busy;
    Glue(At(serial, b), At(made, b), Owed(s.threads[t], b), Owed(s'.threads[t], b), At(more, b), At(done, b));
    assert At(made + done, b) + [] == At(made + done, b);
    assert forall u :: 0 <= u < |s.threads| && u != t ==> s'.threads[u] == s.threads[u];
  }

  lemma QuietMoves(s: State, s': State, t: nat, serial: seq<Op>, made: seq<Op>, more: seq<Op>, done: seq<Op>, b: nat)
    requires OneMoves(s, s', t) && Ahead(s, serial, made, b) && !Busy(s.threads[t], b) && !Busy(s'.threads[t], b)
    requires At(serial + more, b) == At(serial, b) && At(made + done, b) == At(made, b)
    ensures Ahead(s', serial + more, made + done, b)
  {
    hide At, Owed, Busy;
    assert forall u :: 0 <= u < |s.threads| && u != t ==> s'.threads[u] == s.threads[u];
    forall u | 0 <= u < |s'.threads| && Busy(s'.threads[u], b)
      ensures At(serial, b) == At(made, b) + Owed(s'.threads[u], b)
    {
      assert Busy(s.threads[u], b);
    }
  }

  lemma NotBusyOwesNothing(th: Thread, b: nat)
    ensures !Busy(th, b) ==> Owed(th, b) == []
  {
  }

  lemma AheadThreadStep(cfg: Config, s: State, t: nat, k: nat, serial: seq<Op>, made: seq<Op>, b: nat)
    requires ValidConfig(cfg) && Shape(cfg, s) && LocksMatch(s) && Enabled(cfg, s, ThreadStep(t, k)) && b < TABLE_SIZE
    requires Ahead(s, serial, made, b)
    ensures Ahead(Do(cfg, s, ThreadStep(t, k)), serial + WholeCommand(s.threads[t]), made + ChangeBy(s.threads[t]), b)
  {
    var th := s.threads[t];
    OwedMoves(cfg, s, th, k, b);
    if Busy(th, b) {
      BusyHolds(th, b);
    }
    if Holds(th, BUCKETS + b) == Exclusive {
      OnlyOneBusy(s, t, b);
    }
    hide Ahead, Advance, ThreadOk, LocksMatch, Holds, Busy, Owed, At, WholeCommand, ChangeBy, LocksAfter, OutAfter;
    hide ChildrenAfter, TableAfter;
    AheadMoves(s, Do(cfg, s, ThreadStep(t, k)), t, serial, made, WholeCommand(th), ChangeBy(th), b);
  }

  /** A request is one change in both orders, in a bucket where no thread is busy. */
  lemma AheadServe(s: State, serial: seq<Op>, made: seq<Op>, op: Op, b: nat)
    requires Ahead(s, serial, made, b)
    requires Hash(op.key) == b ==> forall t :: 0 <= t < |s.threads| ==> !Busy(s.threads[t], b)
    ensures Ahead(s, serial + [op], made + [op], b)
  {
    AtPush(serial, op, b);
    AtPush(made, op, b);
    assert At(serial, b) + [] == At(serial, b) && At(made, b) + [] == At(made, b);
  }

  lemma NobodyBusy(setup: Setup, w: World, c: nat)
    requires ValidSetup(setup) && Sound(setup, w) && Apart(setup, w) && Can(setup, w, Serve(c))
    ensures forall t :: 0 <= t < |w.base.threads| ==> !Busy(w.base.threads[t], Hash(Current(setup, w, c).key))
  {
    var b := Hash(Current(setup, w, c).key);
    assert HasLock(setup, w, c, b);
    forall t: nat | t < |w.base.threads| ensures !Busy(w.base.threads[t], b) {
      assert Holds(w.base.threads[t], BUCKETS + b) == Free;
    }
  }

  lemma AheadStep(setup: Setup, w: World, m: Move, serial: seq<Op>, made: seq<Op>, b: nat)
    requires ValidSetup(setup) && Sound(setup, w) && Apart(setup, w) && LocksMatch(w.base) && Can(setup, w, m)
    requires b < TABLE_SIZE && Ahead(w.base, serial, made, b)
    ensures Ahead(Make(setup, w, m).base, serial + SerialBy(setup, w, m), made + ChangesBy(setup, w, m), b)
  {
    assert serial + [] == serial && made + [] == made;
    if m.Serve? {
      NobodyBusy(setup, w, m.c);
      AheadServe(w.base, serial, made, Current(setup, w, m.c), b);
    } else if m.Job? {
      AheadJob(setup, w, m.a, serial, made, b);
    }
    hide LocksMatch, Apart, Ahead, WholeCommand, Change, Answer, Hash, Do, Subscriptions.Do;
  }

  lemma AheadJob(setup: Setup, w: World, a: Action, serial: seq<Op>, made: seq<Op>, b: nat)
    requires ValidSetup(setup) && Sound(setup, w) && LocksMatch(w.base) && Can(setup, w, Job(a))
    requires b < TABLE_SIZE && Ahead(w.base, serial, made, b)
    ensures var m := Job(a);
            Ahead(Make(setup, w, m).base, serial + SerialBy(setup, w, m), made + ChangesBy(setup, w, m), b)
  {
    assert serial + [] == serial && made + [] == made;
    if a.ThreadStep? {
      AheadThreadStep(setup.jobs, w.base, a.t, a.child, serial, made, b);
      hide Ahead, WholeCommand, Change, Do, Subscriptions.Do;
    } else {
      SameThreads(setup.jobs, w.base, a);
      hide Do, Busy, Owed, At;
    }
  }

  lemma SameThreads(cfg: Config, s: State, a: Action)
    requires ValidConfig(cfg) && Shape(cfg, s) && Enabled(cfg, s, a) && !a.ThreadStep?
    ensures Do(cfg, s, a).threads == s.threads
  {
  }

  lemma {:induction false} AlwaysAhead(setup: Setup, moves: seq<Move>, b: nat)
    requires ValidSetup(setup) && b < TABLE_SIZE
    ensures Ahead(Reached(setup, moves).base, SerialChanges(setup, moves), Changes(setup, moves), b)
  {
    hide Ahead, Make, ChangesBy, SerialBy, Can, Sound, ValidSetup, Apart, LocksMatch;
    if moves == [] {
      StartAhead(setup, b);
    } else {
      var init, m := moves[..|moves| - 1], moves[|moves| - 1];
      AlwaysAhead(setup, init, b);
      AlwaysApart(setup, init);
      var w := Reached(setup, init);
      if Can(setup, w, m) {
        AheadStep(setup, w, m, SerialChanges(setup, init), Changes(setup, init), b);
      } else {
        NoChange(setup, w, m);
        assert Changes(setup, init) + [] == Changes(setup, init);
        assert SerialChanges(setup, init) + [] == SerialChanges(setup, init);
      }
    }
  }

  lemma StartAhead(setup: Setup, b: nat)
    ensures Ahead(StartWorld(setup).base, [], [], b)
  {
  }
}
