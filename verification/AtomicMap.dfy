/** The serial machine seen from outside: a map on which whole commands act one after another. */
module AtomicMap {
  import opened Store
  import opened Sorting
  import opened Commands
  import opened Protocol
  import opened Serial
  import opened Linearizability
  import Listing

  /** A whole command on the map: WRITE stores its pairs in the user's order, DELETE removes its keys. */
  function Act(c: Command, m: map<string, string>): map<string, string> {
    match c
    case Write(pairs) => PutAll(m, pairs)
    case Delete(keys) => m - set key | key in keys
    case _ => m
  }

  /** What it prints, for all commands but SHOW. */
  function Say(c: Command, m: map<string, string>): string {
    match c
    case Read(keys) => "[" + ReadEntries(Args(c), 0, m) + "]\n"
    case Delete(keys) =>
      var missing := Missing(Args(c), 0, m.Keys);
      if missing == [] then "" else "[" + (MissingEntries(missing) + "]\n")
    case _ => ""
  }

  lemma ActsOnMap(c: Command, t: Table)
    requires ValidCommand(c) && WellFormed(t)
    ensures WellFormed(ExecTable(c, t)) && ToMap(ExecTable(c, t)) == Act(c, ToMap(t))
    ensures ExecText(c, t) == if c.Show? then Listing.Text(t) else Say(c, ToMap(t))
  {
    match c
    case Write(pairs) =>
      WriteMeans(pairs, t);
      WritePrintsNothing(c, t);
    case Read(keys) => ReadMeans(keys, t);
    case Delete(keys) => DeleteMeans(keys, t);
    case _ =>
  }

  lemma WritePrintsNothing(c: Command, t: Table)
    requires ValidCommand(c) && c.Write?
    ensures ExecText(c, t) == ""
  {
    ArgsValid(c);
    RunWritePrintsNothing(c, Args(c), 0, t);
  }

  lemma {:induction false} RunWritePrintsNothing(c: Command, args: seq<Pair>, i: nat, t: Table)
    requires c.Write? && ValidPairs(args) && i <= |args|
    ensures RunText(c, args, i, t, false) == ""
    decreases |args| - i
  {
    if i < |args| {
      RunWritePrintsNothing(c, args, i + 1, StepTable(c, args[i], t));
    }
  }

  /** The map after a serial run. */
  function MapAfter(cfg: Config, order: seq<nat>): map<string, string>
    requires ValidConfig(cfg)
  {
    if order == [] then map[]
    else
      var init, j := order[..|order| - 1], order[|order| - 1];
      var a := Run(cfg, init);
      if HasNext(cfg, a, j) then Act(NextCommand(cfg, a, j), MapAfter(cfg, init)) else MapAfter(cfg, init)
  }

  /** The serial machine is that map: its table stands for it, and what the next command prints is read off it. */
  lemma {:induction false} SerialIsAtomicMap(cfg: Config, order: seq<nat>)
    requires ValidConfig(cfg)
    ensures WellFormed(Run(cfg, order).table) && ToMap(Run(cfg, order).table) == MapAfter(cfg, order)
  {
    if order == [] {
      EmptyMap();
    } else {
      var init, j := order[..|order| - 1], order[|order| - 1];
      SerialIsAtomicMap(cfg, init);
      var a := Run(cfg, init);
      if HasNext(cfg, a, j) {
        ActsOnMap(NextCommand(cfg, a, j), a.table);
      }
    }
  }

  lemma NextTextIsSaid(cfg: Config, order: seq<nat>, j: nat)
    requires ValidConfig(cfg) && HasNext(cfg, Run(cfg, order), j) && !NextCommand(cfg, Run(cfg, order), j).Show?
    ensures Run(cfg, order + [j]).out[j] == Run(cfg, order).out[j] + Say(NextCommand(cfg, Run(cfg, order), j),
              MapAfter(cfg, order))
  {
    SerialIsAtomicMap(cfg, order);
    ActsOnMap(NextCommand(cfg, Run(cfg, order), j), Run(cfg, order).table);
    assert (order + [j])[..|order|] == order;
  }

  /** When the threads are done, the store is the map on which every command acted, whole, at its lock point. */
  lemma FinalStoreIsAtomicMap(cfg: Config, schedule: seq<Action>)
    requires ValidConfig(cfg) && cfg.threads > 0
    requires forall t :: 0 <= t < cfg.threads ==> After(cfg, schedule).threads[t].pc == Done
    ensures WellFormed(After(cfg, schedule).table)
    ensures ToMap(After(cfg, schedule).table) == MapAfter(cfg, Order(cfg, schedule))
  {
    FinalStateIsSerial(cfg, schedule);
    SerialIsAtomicMap(cfg, Order(cfg, schedule));
  }

  /** And every backup holds the map after a prefix of whole commands. */
  lemma BackupIsAtomicMap(cfg: Config, schedule: seq<Action>, k: nat) returns (n: nat)
    requires ValidConfig(cfg) && k < |After(cfg, schedule).children|
    ensures n < |Order(cfg, schedule)|
    ensures ToMap(After(cfg, schedule).children[k].copy) == MapAfter(cfg, Order(cfg, schedule)[..n])
  {
    n := BackupIsAtomic(cfg, schedule, k);
    SerialIsAtomicMap(cfg, Order(cfg, schedule)[..n]);
  }
}
