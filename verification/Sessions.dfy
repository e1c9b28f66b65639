/**
 Client sessions beside the job threads. A request takes the write lock of its key's bucket, changes the
 slots, and gives the lock back, while the threads of `Protocol` go on with their commands.
 */
module Sessions {
  import opened Store
  import opened Commands
  import opened Protocol
  import opened Histories
  import Subscriptions

  type Op = Subscriptions.Op

  /** The jobs, and the requests of each session. */
  datatype Setup = Setup(jobs: Config, requests: seq<seq<Op>>)

  predicate ValidRequest(op: Op) {
    (op.Subscribe? || op.Unsubscribe?) && ValidKey(op.key) && op.fd != 0
  }

  predicate ValidSetup(setup: Setup) {
    && ValidConfig(setup.jobs)
    && forall c, i :: 0 <= c < |setup.requests| && 0 <= i < |setup.requests[c]| ==> ValidRequest(setup.requests[c][i])
  }

  datatype Stage = Ready | Locked | Served

  /** `answers` is what the client has been told. */
  datatype Session = Session(stage: Stage, done: nat, answers: seq<int>)

  /** `owners[b]` is the session that has the lock of bucket `b`; the threads' holds are in `base.locks`. */
  datatype World = World(base: State, slots: Subscriptions.SlotTable, owners: seq<Option<nat>>, sessions: seq<Session>)

  datatype Move = Job(a: Action) | Grab(c: nat) | Serve(c: nat) | GiveUp(c: nat)

  function StartWorld(setup: Setup): World {
    World(Init(setup.jobs), Subscriptions.NO_SLOTS, seq(TABLE_SIZE, _ => None),
          seq(|setup.requests|, _ => Session(Ready, 0, [])))
  }

  predicate SessionOk(requests: seq<Op>, session: Session) {
    session.done <= |requests| && (session.stage != Ready ==> session.done < |requests|)
  }

  predicate Sound(setup: Setup, w: World) {
    && Shape(setup.jobs, w.base) && Subscriptions.Parallel(w.base.table, w.slots)
    && |w.owners| == TABLE_SIZE && |w.sessions| == |setup.requests|
    && forall c :: 0 <= c < |w.sessions| ==> SessionOk(setup.requests[c], w.sessions[c])
  }

  /** The request the session is at. */
  function Current(setup: Setup, w: World, c: nat): Op
    requires c < |w.sessions| == |setup.requests| && w.sessions[c].done < |setup.requests[c]|
  {
    setup.requests[c][w.sessions[c].done]
  }

  /** No session has the lock the thread asks for. */
  predicate Ungrabbed(w: World, th: Thread) {
    Wants(th).Some? && BUCKETS <= Wants(th).value.0 < BUCKETS + |w.owners| ==>
      w.owners[Wants(th).value.0 - BUCKETS].None?
  }

  predicate Can(setup: Setup, w: World, m: Move)
    requires ValidSetup(setup) && Sound(setup, w)
  {
    match m
    case Job(a) => Enabled(setup.jobs, w.base, a) && (a.ThreadStep? ==> Ungrabbed(w, w.base.threads[a.t]))
    case Grab(c) =>
      && c < |w.sessions| && w.sessions[c].stage == Ready && w.sessions[c].done < |setup.requests[c]|
      && var b := Hash(Current(setup, w, c).key);
      w.owners[b].None? && Grants(w.base.locks[BUCKETS + b], Exclusive)
    case Serve(c) => c < |w.sessions| && w.sessions[c].stage == Locked
    case GiveUp(c) => c < |w.sessions| && w.sessions[c].stage == Served
  }

  /** The change a thread's step makes to the table, if any. */
  function Change(th: Thread): Option<Op> {
    if th.pc == Apply && th.i < |th.args| && th.command.Mutates() && ValidKey(th.args[th.i].key)
    then Some(OpOf(th.command, th.args[th.i])) else None
  }

  function OpOf(c: Command, p: Pair): (op: Op)
    requires c.Mutates()
    ensures op.key == p.key
  {
    if c.Write? then Subscriptions.Write(p.key, p.value) else Subscriptions.Delete(p.key)
  }

  /** The change a move makes to the table and the slots, if any. */
  function ChangeOf(setup: Setup, w: World, m: Move): Option<Op>
    requires ValidSetup(setup) && Sound(setup, w) && Can(setup, w, m)
  {
    match m
    case Job(a) => if a.ThreadStep? then Change(w.base.threads[a.t]) else None
    case Serve(c) => Some(Current(setup, w, c))
    case _ => None
  }

  function Make(setup: Setup, w: World, m: Move): World
    requires ValidSetup(setup) && Sound(setup, w) && Can(setup, w, m)
  {
    match m
    case Job(a) =>
      w.(base := Do(setup.jobs, w.base, a),
         slots := if ChangeOf(setup, w, m).Some?
                  then Subscriptions.Do(w.base.table, w.slots, ChangeOf(setup, w, m).value).1 else w.slots)
    case Grab(c) =>
      w.(owners := w.owners[Hash(Current(setup, w, c).key) := Some(c)],
         sessions := w.sessions[c := w.sessions[c].(stage := Locked)])
    case Serve(c) =>
      var op := Current(setup, w, c);
      w.(slots := Subscriptions.Do(w.base.table, w.slots, op).1,
         sessions := w.sessions[c := w.sessions[c].(
           stage := Served, answers := w.sessions[c].answers + [Answer(w.base.table, w.slots, op)])])
    case GiveUp(c) =>
      w.(owners := w.owners[Hash(Current(setup, w, c).key) := None],
         sessions := w.sessions[c := w.sessions[c].(stage := Ready, done := w.sessions[c].done + 1)])
  }

  /** The threads' changes are the table's. */
  lemma ChangeIsTableAfter(s: State, slots: Subscriptions.SlotTable, th: Thread)
    requires Subscriptions.Parallel(s.table, slots)
    ensures Change(th).Some? ==> ValidKey(Change(th).value.key)
    ensures TableAfter(s, th) ==
            if Change(th).Some? then Subscriptions.Do(s.table, slots, Change(th).value).0 else s.table
  {
  }

  lemma MakeIsSound(setup: Setup, w: World, m: Move)
    requires ValidSetup(setup) && Sound(setup, w) && Can(setup, w, m)
    ensures Sound(setup, Make(setup, w, m))
  {
    if m.Job? {
      DoKeepsShape(setup.jobs, w.base, m.a);
      if m.a.ThreadStep? {
        var th := w.base.threads[m.a.t];
        ChangeIsTableAfter(w.base, w.slots, th);
        if Change(th).Some? {
          Subscriptions.DoKeepsParallel(w.base.table, w.slots, Change(th).value);
        }
      }
    } else if m.Serve? {
      Subscriptions.DoKeepsParallel(w.base.table, w.slots, Current(setup, w, m.c));
    }
    hide Advance, ThreadOk, Hash;
  }

  /** The world after a list of moves. A move that cannot be made when its turn comes is skipped. */
  function Reached(setup: Setup, moves: seq<Move>): (w: World)
    requires ValidSetup(setup)
    ensures Sound(setup, w)
  {
    if moves == [] then StartWorld(setup)
    else
      var w, m := Reached(setup, moves[..|moves| - 1]), moves[|moves| - 1];
      if Can(setup, w, m) then MakeIsSound(setup, w, m); Make(setup, w, m) else w
  }

  // The threads run as without sessions.

  /** What the threads, children and main did. */
  function Actions(setup: Setup, moves: seq<Move>): seq<Action>
    requires ValidSetup(setup)
  {
    if moves == [] then []
    else
      var init, m := moves[..|moves| - 1], moves[|moves| - 1];
      Actions(setup, init) + if m.Job? && Can(setup, Reached(setup, init), m) then [m.a] else []
  }

  /** Sessions only delay the jobs: what these reach they reach alone as well, so all that holds of their runs holds. */
  lemma {:induction false} JobsAreRuns(setup: Setup, moves: seq<Move>)
    requires ValidSetup(setup)
    ensures Reached(setup, moves).base == After(setup.jobs, Actions(setup, moves))
  {
    if moves != [] {
      var init, m := moves[..|moves| - 1], moves[|moves| - 1];
      JobsAreRuns(setup, init);
      var actions := Actions(setup, init);
      assert actions + [] == actions;
      if m.Job? {
        AfterOneMore(setup.jobs, actions, m.a);
      }
      hide Do, Enabled, Shape, ValidSetup, Advance;
    }
  }
}
