/** The serial order respects real time: a command that ended before another began comes first. */
module RealTime {
  import opened Store
  import opened Commands
  import opened Protocol
  import opened Serial
  import opened Linearizability

  /** How often it was the job's turn: as many of its commands have taken effect. */
  function Turns(order: seq<nat>, j: nat): nat {
    if order == [] then 0 else Turns(order[..|order| - 1], j) + if order[|order| - 1] == j then 1 else 0
  }

  /** Position `p` is the turn of command `i` of job `j`. */
  predicate IsTurn(order: seq<nat>, p: nat, j: nat, i: nat) {
    p < |order| && order[p] == j && Turns(order[..p], j) == i
  }

  /** The command has run to its end: its job is past it, or over. */
  ghost predicate Ended(s: State, j: nat, i: nat) {
    j < s.nextJob && (Unattended(s, j) || exists t :: WorksOn(s, t, j) && s.threads[t].cmd > i)
  }

  /** The command has not made its first step: its job is unclaimed, or not there yet. */
  ghost predicate NotBegun(s: State, k: nat, l: nat) {
    k >= s.nextJob || exists t :: WorksOn(s, t, k) && Before(s.threads[t], l)
  }

  predicate Before(th: Thread, l: nat) {
    th.cmd < l || (th.cmd == l && th.pc in {Release, Top})
  }

  predicate WorksOn(s: State, t: int, j: nat) {
    0 <= t < |s.threads| && Active(s.threads[t]) && s.threads[t].job == j
  }

  lemma TurnsPush(order: seq<nat>, q: nat, j: nat)
    ensures Turns(order + [q], j) == Turns(order, j) + if q == j then 1 else 0
  {
    assert (order + [q])[..|order|] == order;
  }

  /** A step moves the serial machine in the job whose turn it is, and in no other. */
  lemma FollowPlace(cfg: Config, s: State, a: Action, ser: Serial, j: nat)
    requires ValidConfig(cfg) && Shape(cfg, s) && SamePlace(cfg, s, ser) && j < |cfg.jobs|
    ensures |Follow(cfg, s, a, ser).pos| == |cfg.jobs|
    ensures Follow(cfg, s, a, ser).pos[j] == ser.pos[j] + if LockPoint(cfg, s, a) == Some(j) then 1 else 0
  {
    if LockPoint(cfg, s, a).Some? {
      assert a == ThreadStep(a.t, a.child);
      LockPointCommand(cfg, s, a.t, a.child, ser);
    }
    hide LockPoint, ExecTable, ExecText, ForkCount, ValidConfig;
  }

  /** A job has had as many turns as commands of it have run. */
  lemma {:induction false} TurnsArePlaces(cfg: Config, schedule: seq<Action>, j: nat)
    requires ValidConfig(cfg) && j < |cfg.jobs|
    ensures Turns(Order(cfg, schedule), j) == Run(cfg, Order(cfg, schedule)).pos[j]
  {
    hide After, LockPoint, Follow, SamePlace, SameText, SameTable, SameForks, RunNext, ValidConfig;
    if schedule != [] {
      var init, a := schedule[..|schedule| - 1], schedule[|schedule| - 1];
      assert init + [a] == schedule;
      TurnsArePlaces(cfg, init, j);
      Linearizable(cfg, init);
      OrderFollows(cfg, init, a);
      var s, order := After(cfg, init), Order(cfg, init);
      FollowPlace(cfg, s, a, Run(cfg, order), j);
      assert order + [] == order;
      if LockPoint(cfg, s, a).Some? {
        TurnsPush(order, LockPoint(cfg, s, a).value, j);
      }
    }
  }

  lemma {:induction false} TurnExists(order: seq<nat>, j: nat, i: nat) returns (p: nat)
    requires i < Turns(order, j)
    ensures IsTurn(order, p, j, i)
  {
    var init := order[..|order| - 1];
    if i < Turns(init, j) {
      p := TurnExists(init, j, i);
      assert init[..p] == order[..p];
    } else {
      p := |init|;
    }
  }

  lemma {:induction false} TurnsGrow(order: seq<nat>, p: nat, j: nat)
    requires p <= |order|
    ensures Turns(order[..p], j) <= Turns(order, j)
  {
    if p == |order| {
      assert order[..p] == order;
    } else {
      var init := order[..|order| - 1];
      TurnsGrow(init, p, j);
      assert init[..p] == order[..p];
    }
  }

  lemma TurnIsCounted(order: seq<nat>, p: nat, j: nat, i: nat)
    requires IsTurn(order, p, j, i)
    ensures i < Turns(order, j)
  {
    TurnsGrow(order, p + 1, j);
    assert order[..p + 1] == order[..p] + [j];
    TurnsPush(order[..p], j, j);
  }

  /** An ended command has had its turn; one that has not begun has not. */
  lemma PlacesAndTurns(cfg: Config, schedule: seq<Action>, j: nat, i: nat)
    requires ValidConfig(cfg) && j < |cfg.jobs| && i < |cfg.jobs[j]|
    ensures Ended(After(cfg, schedule), j, i) ==> i < Turns(Order(cfg, schedule), j)
    ensures NotBegun(After(cfg, schedule), j, i) ==> Turns(Order(cfg, schedule), j) <= i
  {
    var s, ser := After(cfg, schedule), Run(cfg, Order(cfg, schedule));
    Linearizable(cfg, schedule);
    TurnsArePlaces(cfg, schedule, j);
    assert SamePlace(cfg, s, ser);
    assert forall t :: WorksOn(s, t, j) ==> AtPlace(s.nextJob, ser, s.threads[t]);
  }

  lemma PrefixTurnsFirst(before: seq<nat>, all: seq<nat>, j: nat, i: nat, k: nat, l: nat) returns (p: nat)
    requires before <= all && i < Turns(before, j) && Turns(before, k) <= l
    ensures IsTurn(all, p, j, i)
    ensures forall q: nat :: IsTurn(all, q, k, l) ==> p < q
  {
    p := TurnExists(before, j, i);
    assert all[..p] == before[..p];
    hide Turns;
    forall q: nat | IsTurn(all, q, k, l) ensures p < q {
      if q < |before| {
        assert all[..q] == before[..q];
        TurnIsCounted(before, q, k, l);
      }
    }
  }

  /** The turn of an ended command comes before that of one not yet begun, however the run goes on. */
  lemma OrderIsRealTime(cfg: Config, earlier: seq<Action>, later: seq<Action>, j: nat, i: nat, k: nat, l: nat)
    returns (p: nat)
    requires ValidConfig(cfg) && j < |cfg.jobs| && i < |cfg.jobs[j]| && k < |cfg.jobs| && l < |cfg.jobs[k]|
    requires Ended(After(cfg, earlier), j, i) && NotBegun(After(cfg, earlier), k, l)
    ensures IsTurn(Order(cfg, earlier + later), p, j, i)
    ensures forall q: nat :: IsTurn(Order(cfg, earlier + later), q, k, l) ==> p < q
  {
    hide *;
    PlacesAndTurns(cfg, earlier, j, i);
    PlacesAndTurns(cfg, earlier, k, l);
    OrderOnlyGrows(cfg, earlier, later);
    p := PrefixTurnsFirst(Order(cfg, earlier), Order(cfg, earlier + later), j, i, k, l);
  }
}
