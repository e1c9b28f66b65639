/**
 Sessions and jobs together are serial: one order of whole commands and requests explains the pairs, the
 subscriber slots and every answer. And they never stand still.
 */
module AtomicSessions {
  import opened Store
  import opened Commands
  import opened Protocol
  import opened Locking
  import opened Serial
  import opened Linearizability
  import opened Histories
  import opened Sessions
  import opened SessionOrder
  import opened Backups
  import opened Progress
  import Subscriptions
  import Listing
  import Termination

  // The serial order is one history.

  lemma {:induction false} OpsAreValid(c: Command, args: seq<Pair>, i: nat)
    requires c.Mutates() && i <= |args| && ValidPairs(args)
    ensures Subscriptions.ValidHistory(Ops(c, args, i))
    decreases |args| - i
  {
    if i < |args| {
      OpsAreValid(c, args, i + 1);
    }
  }

  lemma SerialByIsValid(setup: Setup, w: World, m: Move)
    requires ValidSetup(setup) && Sound(setup, w)
    ensures Subscriptions.ValidHistory(SerialBy(setup, w, m))
  {
    if Can(setup, w, m) && m.Job? && m.a.ThreadStep? {
      var th := w.base.threads[m.a.t];
      assert ThreadOk(setup.jobs, th);
      if Commits(th) {
        OpsAreValid(th.command, th.args, 0);
      }
    }
    hide ThreadOk, Ops, Hash, Wants;
  }

  lemma {:induction false} SerialIsValid(setup: Setup, moves: seq<Move>)
    requires ValidSetup(setup)
    ensures Subscriptions.ValidHistory(SerialChanges(setup, moves))
  {
    if moves != [] {
      var init, m := moves[..|moves| - 1], moves[|moves| - 1];
      SerialIsValid(setup, init);
      SerialByIsValid(setup, Reached(setup, init), m);
    }
    hide SerialBy, Make, Can, Sound, Reached;
  }

  /** The changes to pairs that the commands make in this order. */
  function OrderChanges(cfg: Config, order: seq<nat>): seq<Op>
    requires ValidConfig(cfg)
  {
    if order == [] then []
    else
      var init, q := order[..|order| - 1], order[|order| - 1];
      var a := Run(cfg, init);
      OrderChanges(cfg, init) + if HasNext(cfg, a, q) then CommandOps(NextCommand(cfg, a, q)) else []
  }

  function CommandOps(c: Command): seq<Op> {
    if c.Mutates() then Ops(c, Args(c), 0) else []
  }

  /** A thread's step adds to the serial order what its lock point, if any, adds to the order of commands. */
  lemma LockPointAdds(cfg: Config, s: State, a: Action, ser: Serial)
    requires ValidConfig(cfg) && Shape(cfg, s) && SamePlace(cfg, s, ser) && a.ThreadStep? && Enabled(cfg, s, a)
    ensures var point := LockPoint(cfg, s, a);
            WholeCommand(s.threads[a.t]) ==
              if point.Some? && HasNext(cfg, ser, point.value) then CommandOps(NextCommand(cfg, ser, point.value))
              else []
  {
    var th := s.threads[a.t];
    assert ThreadOk(cfg, th);
    if LockPoint(cfg, s, a).Some? {
      assert a == ThreadStep(a.t, a.child);
      LockPointCommand(cfg, s, a.t, a.child, ser);
    }
    hide SamePlace, Ops, Args, Buckets, ValidConfig;
  }

  lemma OrderChangesStep(cfg: Config, init: seq<Action>, a: Action)
    requires ValidConfig(cfg) && Enabled(cfg, After(cfg, init), a)
    ensures OrderChanges(cfg, Order(cfg, init + [a])) ==
            OrderChanges(cfg, Order(cfg, init))
            + if a.ThreadStep? then WholeCommand(After(cfg, init).threads[a.t]) else []
  {
    var s, order := After(cfg, init), Order(cfg, init);
    assert (init + [a])[..|init|] == init;
    assert order + [] == order && OrderChanges(cfg, order) + [] == OrderChanges(cfg, order);
    if a.ThreadStep? {
      Linearizable(cfg, init);
      LockPointAdds(cfg, s, a, Run(cfg, order));
      if LockPoint(cfg, s, a).Some? {
        assert (order + [LockPoint(cfg, s, a).value])[..|order|] == order;
      }
    }
    hide LockPoint, WholeCommand, CommandOps, SamePlace, SameText, SameTable, SameForks, RunNext;
  }

  /** Without the requests, the serial order is that of the jobs: each whole command at its lock point. */
  lemma {:induction false} OneOrder(setup: Setup, moves: seq<Move>)
    requires ValidSetup(setup)
    ensures Subscriptions.Erase(SerialChanges(setup, moves)) ==
            Subscriptions.Erase(OrderChanges(setup.jobs, Order(setup.jobs, Actions(setup, moves))))
  {
    if moves != [] {
      var init, m := moves[..|moves| - 1], moves[|moves| - 1];
      OneOrder(setup, init);
      JobsAreRuns(setup, init);
      var w, actions := Reached(setup, init), Actions(setup, init);
      EraseAppend(SerialChanges(setup, init), SerialBy(setup, w, m));
      if m.Job? && Can(setup, w, m) {
        OrderChangesStep(setup.jobs, actions, m.a);
        EraseAppend(OrderChanges(setup.jobs, Order(setup.jobs, actions)), SerialBy(setup, w, m));
      } else {
        assert actions + [] == actions;
        RequestErased(setup, w, m);
      }
    }
    hide Order, OrderChanges, Make, WholeCommand, Subscriptions.Erase;
  }

  lemma RequestErased(setup: Setup, w: World, m: Move)
    requires ValidSetup(setup) && Sound(setup, w) && !(m.Job? && Can(setup, w, m))
    ensures Subscriptions.Erase(SerialBy(setup, w, m)) == []
  {
    if m.Serve? && Can(setup, w, m) {
      var op := Current(setup, w, m.c);
      assert ValidRequest(op);
      assert [op][..0] == [];
    }
  }

  // What the serial order explains.

  /** No thread is applying changes in the key's bucket. */
  ghost predicate Quiet(w: World, key: string) {
    forall t :: 0 <= t < |w.base.threads| ==> !Busy(w.base.threads[t], Hash(key))
  }

  lemma QuietAgrees(setup: Setup, moves: seq<Move>, key: string)
    requires ValidSetup(setup) && ValidKey(key) && Quiet(Reached(setup, moves), key)
    ensures MadeBy(Reached(setup, moves), Changes(setup, moves))
    ensures Subscriptions.ValidHistory(SerialChanges(setup, moves))
    ensures At(SerialChanges(setup, moves), Hash(key)) == At(Changes(setup, moves), Hash(key))
  {
    AlwaysMade(setup, moves);
    AlwaysAhead(setup, moves, Hash(key));
    SerialIsValid(setup, moves);
    hide Reached, At, MadeBy, Busy, Hash;
  }

  /**
   In every reachable world the slots of a key, when no thread is changing its bucket, are its subscribers
   in the serial order, and its value is the one of that order.
   */
  lemma SlotsAreSerial(setup: Setup, moves: seq<Move>, key: string)
    requires ValidSetup(setup) && ValidKey(key) && Quiet(Reached(setup, moves), key)
    ensures var w, serial := Reached(setup, moves), SerialChanges(setup, moves);
            && Subscriptions.Represents(Subscriptions.SlotsOf(w.base.table, w.slots, key),
                                        Subscriptions.SubscribersAfter(serial, key))
            && ReadPair(w.base.table, key) == Lookup(Listing.MapAfter(Subscriptions.Erase(serial)), key)
  {
    var w, serial, made := Reached(setup, moves), SerialChanges(setup, moves), Changes(setup, moves);
    QuietAgrees(setup, moves, key);
    hide *;
    SlotsMatch(w, serial, made, key);
  }

  lemma SlotsMatch(w: World, serial: seq<Op>, made: seq<Op>, key: string)
    requires MadeBy(w, made) && Subscriptions.ValidHistory(serial) && ValidKey(key)
    requires At(serial, Hash(key)) == At(made, Hash(key))
    ensures Subscriptions.Parallel(w.base.table, w.slots)
    ensures Subscriptions.Represents(Subscriptions.SlotsOf(w.base.table, w.slots, key),
                                     Subscriptions.SubscribersAfter(serial, key))
    ensures ReadPair(w.base.table, key) == Lookup(Listing.MapAfter(Subscriptions.Erase(serial)), key)
  {
    SameSlots(serial, made, key);
    Subscriptions.SlotsHoldSubscribers(serial, key);
    Subscriptions.PairsIgnoreSubscriptions(serial);
    Listing.AfterIsMapAfter(Subscriptions.Erase(serial));
    ReadIsLookup(Listing.After(Subscriptions.Erase(serial)), key);
    hide At, Subscriptions.Represents, WellFormed, Hash, Subscriptions.Erase, Subscriptions.SubscribersAfter;
  }

  function Lookup(m: map<string, string>, key: string): Option<string> {
    if key in m then Some(m[key]) else None
  }

  /**
   Every client is told what the serial order says at that point: whether its key is live and has room for
   it, or has its subscription.
   */
  lemma AnswersAreSerial(setup: Setup, moves: seq<Move>, c: nat)
    requires ValidSetup(setup) && Can(setup, Reached(setup, moves), Serve(c))
    ensures var w, w' := Reached(setup, moves), Reached(setup, moves + [Serve(c)]);
            var op := Current(setup, w, c);
            && ValidRequest(op) && SerialChanges(setup, moves + [Serve(c)]) == SerialChanges(setup, moves) + [op]
            && w'.sessions[c].answers ==
                 w.sessions[c].answers + [if Succeeds(SerialChanges(setup, moves), op) then 0 else 1]
  {
    var w := Reached(setup, moves);
    var op := Current(setup, w, c);
    assert (moves + [Serve(c)])[..|moves|] == moves;
    AlwaysApart(setup, moves);
    NobodyBusy(setup, w, c);
    assert ValidRequest(op);
    QuietAgrees(setup, moves, op.key);
    AnswersAgree(SerialChanges(setup, moves), Changes(setup, moves), op);
    AnswerMeans(SerialChanges(setup, moves), op);
    hide Apart, LocksMatch, At, Succeeds, Busy, Answer, SerialChanges, Changes;
  }

  // No standstill.

  /** Everything is done: the program has ended, and every request is answered. */
  ghost predicate AllDone(setup: Setup, w: World)
    requires |w.sessions| == |setup.requests|
  {
    && w.base.main == Finished
    && forall c :: 0 <= c < |w.sessions| ==> w.sessions[c].stage == Ready && w.sessions[c].done == |setup.requests[c]|
  }

  /** Who has a bucket can go on. */
  lemma OwnerMoves(setup: Setup, w: World, b: nat) returns (m: Move)
    requires ValidSetup(setup) && Sound(setup, w) && Apart(setup, w) && b < TABLE_SIZE && w.owners[b].Some?
    ensures Can(setup, w, m) && !m.Job?
  {
    var c := w.owners[b].value;
    assert HasLock(setup, w, c, b);
    m := if w.sessions[c].stage == Locked then Serve(c) else GiveUp(c);
  }

  lemma SessionMoves(setup: Setup, w: World, c: nat) returns (m: Move)
    requires ValidSetup(setup) && Sound(setup, w) && Apart(setup, w) && LocksMatch(w.base)
    requires c < |w.sessions| && !(w.sessions[c].stage == Ready && w.sessions[c].done == |setup.requests[c]|)
    requires forall t :: 0 <= t < |w.base.threads| ==> w.base.threads[t].pc == Done
    ensures Can(setup, w, m) && !m.Job?
  {
    if w.sessions[c].stage == Ready {
      assert ValidRequest(Current(setup, w, c));
      var b := Hash(Current(setup, w, c).key);
      if w.owners[b].Some? {
        m := OwnerMoves(setup, w, b);
      } else {
        m := Grab(c);
        if w.base.locks[BUCKETS + b] != RwLock({}, None) {
          SomeHolder(w.base, BUCKETS + b);
        }
      }
    } else {
      m := if w.sessions[c].stage == Locked then Serve(c) else GiveUp(c);
    }
  }

  /** A job's action that is enabled but for a session's lock lets that session move. */
  lemma JobOrOwnerMoves(setup: Setup, w: World, a: Action) returns (m: Move)
    requires ValidSetup(setup) && Sound(setup, w) && Apart(setup, w) && Enabled(setup.jobs, w.base, a)
    ensures Can(setup, w, m) && (m.Job? ==> m.a == a)
  {
    hide Apart, Shape;
    if a.ThreadStep? && !Ungrabbed(w, w.base.threads[a.t]) {
      m := OwnerMoves(setup, w, Wants(w.base.threads[a.t]).value.0 - BUCKETS);
    } else {
      m := Job(a);
    }
  }

  /** With ordered commands somebody can always move, until everything is done, and not just spin. */
  lemma SomebodyMoves(setup: Setup, moves: seq<Move>) returns (m: Move)
    requires ValidSetup(setup) && Ordered(setup.jobs) && !AllDone(setup, Reached(setup, moves))
    ensures Can(setup, Reached(setup, moves), m)
    ensures m.Job? ==> Useful(Reached(setup, moves).base, m.a)
  {
    var w := Reached(setup, moves);
    AlwaysApart(setup, moves);
    JobsAreRuns(setup, moves);
    hide LocksMatch, Apart, HasLock, Reached, Can, ThreadOk, Unblocked;
    if w.base.main == Finished {
      EndsWithNoChildren(setup.jobs, Actions(setup, moves));
      var c :| 0 <= c < |w.sessions| && !(w.sessions[c].stage == Ready && w.sessions[c].done == |setup.requests[c]|);
      m := SessionMoves(setup, w, c);
    } else {
      var a := NoDeadlock(setup.jobs, Actions(setup, moves));
      UnblockedIsEnabled(setup.jobs, w.base, a);
      m := JobOrOwnerMoves(setup, w, a);
    }
  }

  lemma UnblockedIsEnabled(cfg: Config, s: State, a: Action)
    requires Shape(cfg, s) && Unblocked(cfg, s, a)
    ensures Enabled(cfg, s, a)
  {
  }

  // Every run ends.

  /** A request takes three moves. */
  function SessionCost(requests: seq<Op>, session: Session): nat
    requires SessionOk(requests, session)
  {
    3 * (|requests| - session.done) - (match session.stage case Ready => 0 case Locked => 1 case Served => 2)
  }

  function SessionsCost(requests: seq<seq<Op>>, sessions: seq<Session>): nat
    requires |requests| == |sessions| && forall c :: 0 <= c < |sessions| ==> SessionOk(requests[c], sessions[c])
  {
    if sessions == [] then 0
    else
      var n := |sessions| - 1;
      SessionsCost(requests[..n], sessions[..n]) + SessionCost(requests[n], sessions[n])
  }

  lemma {:induction false} SessionsCostUpdate(requests: seq<seq<Op>>, sessions: seq<Session>, c: nat, session: Session)
    requires |requests| == |sessions| && forall d :: 0 <= d < |sessions| ==> SessionOk(requests[d], sessions[d])
    requires c < |sessions| && SessionOk(requests[c], session)
    ensures SessionsCost(requests, sessions[c := session]) ==
            SessionsCost(requests, sessions) - SessionCost(requests[c], sessions[c]) + SessionCost(requests[c], session)
    decreases |sessions|
  {
    var n := |sessions| - 1;
    if c < n {
      SessionsCostUpdate(requests[..n], sessions[..n], c, session);
      assert sessions[c := session][..n] == sessions[..n][c := session];
    } else {
      assert sessions[c := session][..n] == sessions[..n];
    }
  }

  function RequestsLeft(setup: Setup, w: World): nat
    requires ValidSetup(setup) && Sound(setup, w)
  {
    SessionsCost(setup.requests, w.sessions)
  }

  /** No run goes on for ever: a session's move brings its request on, any other shortens the jobs. */
  lemma EveryMoveShortens(setup: Setup, moves: seq<Move>, m: Move)
    requires ValidSetup(setup) && Can(setup, Reached(setup, moves), m)
    ensures var w := Reached(setup, moves);
            Sound(setup, Make(setup, w, m)) &&
            if m.Job? then
              && RequestsLeft(setup, Make(setup, w, m)) == RequestsLeft(setup, w)
              && Termination.Shorter(setup.jobs, Make(setup, w, m).base, w.base)
            else
              && RequestsLeft(setup, Make(setup, w, m)) < RequestsLeft(setup, w)
              && Make(setup, w, m).base == w.base
  {
    var w := Reached(setup, moves);
    MakeIsSound(setup, w, m);
    if m.Job? {
      JobsAreRuns(setup, moves);
      Termination.EveryStepShortens(setup.jobs, Actions(setup, moves), m.a);
    } else {
      SessionsCostUpdate(setup.requests, w.sessions, m.c, Make(setup, w, m).sessions[m.c]);
    }
    hide Do, Termination.Shorter, Shape, SessionsCost, Hash, Answer;
  }

  ghost predicate DoneAfter(setup: Setup, moves: seq<Move>)
    requires ValidSetup(setup)
  {
    AllDone(setup, Reached(setup, moves))
  }

  /** What is left after these moves: requests, steps of the jobs, nodes to print. */
  function LeftAfter(setup: Setup, moves: seq<Move>): (nat, nat, nat)
    requires ValidSetup(setup)
  {
    var w := Reached(setup, moves);
    (RequestsLeft(setup, w), Termination.Steps(setup.jobs, w.base), Termination.Nodes(w.base.threads, w.base.table))
  }

  predicate Less(x: (nat, nat, nat), y: (nat, nat, nat)) {
    x.0 < y.0 || (x.0 == y.0 && (x.1 < y.1 || (x.1 == y.1 && x.2 < y.2)))
  }

  lemma NextMove(setup: Setup, moves: seq<Move>) returns (m: Move)
    requires ValidSetup(setup) && Ordered(setup.jobs) && !DoneAfter(setup, moves)
    ensures Less(LeftAfter(setup, moves + [m]), LeftAfter(setup, moves))
  {
    m := SomebodyMoves(setup, moves);
    EveryMoveShortens(setup, moves, m);
    assert (moves + [m])[..|moves|] == moves;
    hide Make, RequestsLeft, Can, Termination.Steps, Termination.Nodes;
  }

  /** With ordered commands, everything can be brought to its end from every reachable world. */
  lemma {:induction false} AllCanFinish(setup: Setup, moves: seq<Move>) returns (rest: seq<Move>)
    requires ValidSetup(setup) && Ordered(setup.jobs)
    ensures DoneAfter(setup, moves + rest)
    decreases LeftAfter(setup, moves).0, LeftAfter(setup, moves).1, LeftAfter(setup, moves).2
  {
    hide DoneAfter, LeftAfter, ValidSetup, Ordered;
    if DoneAfter(setup, moves) {
      rest := [];
      assert moves + [] == moves;
    } else {
      var m := NextMove(setup, moves);
      var later := AllCanFinish(setup, moves + [m]);
      rest := [m] + later;
      assert moves + rest == moves + [m] + later;
    }
  }
}
