/** Which thread runs which job file. */
module Dispatch {
  import opened Protocol
  import opened Linearizability

  /** Who claimed each job so far, in the order of the jobs. */
  ghost function Claimants(cfg: Config, schedule: seq<Action>): seq<nat>
    requires ValidConfig(cfg)
  {
    if schedule == [] then []
    else
      var init, a := schedule[..|schedule| - 1], schedule[|schedule| - 1];
      var s := After(cfg, init);
      Claimants(cfg, init) +
      if Enabled(cfg, s, a) && a.ThreadStep? && s.threads[a.t].pc == Claim && s.nextJob < |cfg.jobs| then [a.t] else []
  }

  /** Each job up to the counter has one claimant, and threads only ever work on jobs they claimed. */
  ghost predicate Dispatched(threads: seq<Thread>, nextJob: nat, jobs: nat, claimants: seq<nat>) {
    && |claimants| == nextJob <= jobs
    && (forall j :: 0 <= j < |claimants| ==> claimants[j] < |threads|)
    && forall t :: 0 <= t < |threads| && Active(threads[t]) ==> ClaimedBy(threads[t].job, t, claimants)
  }

  predicate ClaimedBy(job: nat, t: nat, claimants: seq<nat>) {
    job < |claimants| && claimants[job] == t
  }

  lemma OnlyClaimsChangeTheJob(cfg: Config, s: State, th: Thread, k: nat)
    requires ThreadOk(cfg, th)
    ensures var th' := Advance(cfg, s, th, k);
            Active(th') ==>
              if th.pc == Claim then th'.job == s.nextJob < |cfg.jobs| else Active(th) && th'.job == th.job
    ensures NextJobAfter(cfg, s, th) == if th.pc == Claim && s.nextJob < |cfg.jobs| then s.nextJob + 1 else s.nextJob
  {
  }

  lemma StepDispatches(cfg: Config, s: State, t: nat, k: nat, claimants: seq<nat>)
    requires ValidConfig(cfg) && Shape(cfg, s) && t < |s.threads|
    requires Dispatched(s.threads, s.nextJob, |cfg.jobs|, claimants)
    ensures var claims := s.threads[t].pc == Claim && s.nextJob < |cfg.jobs|;
            Dispatched(s.threads[t := Advance(cfg, s, s.threads[t], k)], NextJobAfter(cfg, s, s.threads[t]), |cfg.jobs|,
                       claimants + if claims then [t] else [])
  {
    OnlyClaimsChangeTheJob(cfg, s, s.threads[t], k);
    assert Active(s.threads[t]) ==> ClaimedBy(s.threads[t].job, t, claimants);
  }

  lemma {:induction false} AlwaysDispatched(cfg: Config, schedule: seq<Action>)
    requires ValidConfig(cfg)
    ensures var s := After(cfg, schedule); Dispatched(s.threads, s.nextJob, |cfg.jobs|, Claimants(cfg, schedule))
  {
    hide Dispatched, Advance, NextJobAfter;
    if schedule == [] {
      StartDispatched(cfg);
    } else {
      var init, a := schedule[..|schedule| - 1], schedule[|schedule| - 1];
      AlwaysDispatched(cfg, init);
      assert Claimants(cfg, init) + [] == Claimants(cfg, init);
      if Enabled(cfg, After(cfg, init), a) && a.ThreadStep? {
        StepDispatches(cfg, After(cfg, init), a.t, a.child, Claimants(cfg, init));
      }
    }
  }

  lemma StartDispatched(cfg: Config)
    ensures Dispatched(Init(cfg).threads, 0, |cfg.jobs|, [])
  {
  }

  /** Nobody runs a job that somebody else claimed, and once the threads are done every job had its claimant. */
  lemma JobsAreDispatched(cfg: Config, schedule: seq<Action>)
    requires ValidConfig(cfg)
    ensures var s := After(cfg, schedule); Dispatched(s.threads, s.nextJob, |cfg.jobs|, Claimants(cfg, schedule))
    ensures cfg.threads > 0 && (forall t :: 0 <= t < cfg.threads ==> After(cfg, schedule).threads[t].pc == Done) ==>
              |Claimants(cfg, schedule)| == |cfg.jobs|
  {
    AlwaysDispatched(cfg, schedule);
    if cfg.threads > 0 {
      LeavingMeansAllClaimed(cfg, schedule, 0);
    }
  }

  /** A claim is never taken back. */
  lemma {:induction false} ClaimsStand(cfg: Config, earlier: seq<Action>, later: seq<Action>)
    requires ValidConfig(cfg)
    ensures Claimants(cfg, earlier) <= Claimants(cfg, earlier + later)
  {
    if later == [] {
      assert earlier + later == earlier;
    } else {
      var init := later[..|later| - 1];
      ClaimsStand(cfg, earlier, init);
      assert (earlier + later)[..|earlier + later| - 1] == earlier + init;
    }
  }
}
