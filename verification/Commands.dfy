/** The commands of a job file: their effect pair by pair, and what a whole command means on the map. */
module Commands {
  import opened Store
  import opened Sorting
  import Listing
  import Text

  datatype Command =
    | Write(pairs: seq<Pair>)
    | Read(keys: seq<string>)
    | Delete(keys: seq<string>)
    | Show
    | Wait(delay: nat)
    | Backup
    | Help
    | Empty
    | Invalid
  {
    /** WRITE, READ and DELETE: the commands that name keys. */
    predicate NamesKeys() {
      Write? || Read? || Delete?
    }

    /** WRITE and DELETE take bucket locks for writing. */
    predicate Mutates() {
      Write? || Delete?
    }
  }

  /** READ and DELETE sort whatever the value array holds along with their keys; `Sorting.SortIgnoresValues`. */
  function WithoutValues(keys: seq<string>): (r: seq<Pair>)
    ensures |r| == |keys| && forall i :: 0 <= i < |keys| ==> r[i] == Pair(keys[i], "")
  {
    seq(|keys|, i requires 0 <= i < |keys| => Pair(keys[i], ""))
  }

  /** The pairs as parsed. */
  function Named(c: Command): seq<Pair>
    requires c.NamesKeys()
  {
    if c.Write? then c.pairs else WithoutValues(c.keys)
  }

  /** The arrays after `insertionSort`. */
  function Args(c: Command): (r: seq<Pair>)
    requires c.NamesKeys()
    ensures |r| == |Named(c)|
  {
    Sort(Named(c))
  }

  /** Every key named has a bucket. */
  predicate ValidCommand(c: Command) {
    c.NamesKeys() ==> ValidPairs(Named(c))
  }

  lemma ArgsValid(c: Command)
    requires c.NamesKeys() && ValidCommand(c)
    ensures ValidPairs(Args(c))
  {
    SortedValid(Named(c));
  }

  // One pair of a command.

  function StepTable(c: Command, p: Pair, t: Table): Table
    requires ValidKey(p.key)
  {
    match c
    case Write(_) => WritePair(t, p.key, p.value)
    case Delete(_) => DeletePair(t, p.key)
    case _ => t
  }

  function ReadEntry(key: string, value: Option<string>): string {
    "(" + key + "," + (if value.Some? then value.value else "KVSERROR") + ")"
  }

  function MissingEntry(key: string): string {
    "(" + key + ",KVSMISSING)"
  }

  predicate Fails(c: Command, p: Pair, t: Table)
    requires ValidKey(p.key)
  {
    c.Delete? && ReadPair(t, p.key).None?
  }

  function StepText(c: Command, p: Pair, t: Table, hasError: bool): string
    requires ValidKey(p.key)
  {
    if c.Read? then ReadEntry(p.key, ReadPair(t, p.key))
    else if Fails(c, p, t) then (if hasError then "" else "[") + MissingEntry(p.key)
    else ""
  }

  function Opening(c: Command): string {
    if c.Read? then "[" else ""
  }

  function Closing(c: Command, hasError: bool): string {
    if c.Read? || (c.Delete? && hasError) then "]\n" else ""
  }

  // The pairs from position `i` on.

  function RunTable(c: Command, args: seq<Pair>, i: nat, t: Table): Table
    requires ValidPairs(args) && i <= |args|
    decreases |args| - i
  {
    if i == |args| then t else RunTable(c, args, i + 1, StepTable(c, args[i], t))
  }

  function RunText(c: Command, args: seq<Pair>, i: nat, t: Table, hasError: bool): string
    requires ValidPairs(args) && i <= |args|
    decreases |args| - i
  {
    if i == |args| then Closing(c, hasError)
    else
      StepText(c, args[i], t, hasError)
      + RunText(c, args, i + 1, StepTable(c, args[i], t), hasError || Fails(c, args[i], t))
  }

  // A whole command at once.

  function ExecTable(c: Command, t: Table): Table
    requires ValidCommand(c)
  {
    if c.NamesKeys() then ArgsValid(c); RunTable(c, Args(c), 0, t) else t
  }

  function ExecText(c: Command, t: Table): string
    requires ValidCommand(c)
  {
    if c.NamesKeys() then ArgsValid(c); Opening(c) + RunText(c, Args(c), 0, t, false)
    else if c.Show? then Listing.Text(t)
    else ""
  }

  // What it means on the map.

  lemma {:induction false} RunWritePuts(c: Command, args: seq<Pair>, i: nat, t: Table)
    requires c.Write? && ValidPairs(args) && i <= |args| && WellFormed(t)
    ensures WellFormed(RunTable(c, args, i, t))
    ensures forall m :: ToMap(t) == PutAll(m, args[..i]) ==> ToMap(RunTable(c, args, i, t)) == PutAll(m, args)
    decreases |args| - i
  {
    if i == |args| {
      assert args[..i] == args;
    } else {
      WriteIsUpdate(t, args[i].key, args[i].value);
      assert args[..i + 1][..i] == args[..i];
      RunWritePuts(c, args, i + 1, StepTable(c, args[i], t));
    }
  }

  /** WRITE stores the pairs in the order the user gave them. */
  lemma WriteMeans(pairs: seq<Pair>, t: Table)
    requires ValidPairs(pairs) && WellFormed(t)
    ensures WellFormed(ExecTable(Write(pairs), t))
    ensures ToMap(ExecTable(Write(pairs), t)) == PutAll(ToMap(t), pairs)
  {
    var c := Write(pairs);
    ArgsValid(c);
    RunWritePuts(c, Args(c), 0, t);
    assert Args(c)[..0] == [];
    SortPreservesWrite(ToMap(t), pairs);
  }

  function ReadEntries(args: seq<Pair>, i: nat, m: map<string, string>): string
    requires i <= |args|
    decreases |args| - i
  {
    if i == |args| then ""
    else
      var key := args[i].key;
      ReadEntry(key, if key in m then Some(m[key]) else None) + ReadEntries(args, i + 1, m)
  }

  lemma {:induction false} RunReadLooksUp(c: Command, args: seq<Pair>, i: nat, t: Table)
    requires c.Read? && ValidPairs(args) && i <= |args| && WellFormed(t)
    ensures RunTable(c, args, i, t) == t
    ensures RunText(c, args, i, t, false) == ReadEntries(args, i, ToMap(t)) + "]\n"
    decreases |args| - i
  {
    if i < |args| {
      var key, m := args[i].key, ToMap(t);
      ReadIsLookup(t, key);
      RunReadLooksUp(c, args, i + 1, t);
      Text.Assoc(ReadEntry(key, if key in m then Some(m[key]) else None), ReadEntries(args, i + 1, m), "]\n");
    }
  }

  /** READ prints one entry per key, in sorted order, and changes nothing. */
  lemma ReadMeans(keys: seq<string>, t: Table)
    requires ValidCommand(Read(keys)) && WellFormed(t)
    ensures ExecTable(Read(keys), t) == t
    ensures ExecText(Read(keys), t) == "[" + ReadEntries(Args(Read(keys)), 0, ToMap(t)) + "]\n"
  {
    ArgsValid(Read(keys));
    RunReadLooksUp(Read(keys), Args(Read(keys)), 0, t);
  }

  /** The keys DELETE reports: those not live when their turn comes. */
  function Missing(args: seq<Pair>, i: nat, live: set<string>): seq<string>
    requires i <= |args|
    decreases |args| - i
  {
    if i == |args| then []
    else if args[i].key in live then Missing(args, i + 1, live - {args[i].key})
    else [args[i].key] + Missing(args, i + 1, live)
  }

  function MissingEntries(keys: seq<string>): string {
    if keys == [] then "" else MissingEntry(keys[0]) + MissingEntries(keys[1..])
  }

  function KeySet(args: seq<Pair>, i: nat): set<string>
    requires i <= |args|
  {
    set j | i <= j < |args| :: args[j].key
  }

  /** The rest of what DELETE prints, given the keys it will still report. */
  function DeleteText(missing: seq<string>, hasError: bool): string {
    if missing == [] then if hasError then "]\n" else ""
    else (if hasError then "" else "[") + (MissingEntries(missing) + "]\n")
  }

  lemma DeleteTextStep(key: string, rest: seq<string>, hasError: bool)
    ensures DeleteText([key] + rest, hasError)
         == ((if hasError then "" else "[") + MissingEntry(key)) + DeleteText(rest, true)
  {
    var opening, entry := if hasError then "" else "[", MissingEntry(key);
    assert ([key] + rest)[1..] == rest;
    var later := if rest == [] then "]\n" else MissingEntries(rest) + "]\n";
    assert DeleteText(rest, true) == later;
    if rest != [] {
      Text.Assoc(entry, MissingEntries(rest), "]\n");
    } else {
      assert entry + "" == entry;
    }
    assert MissingEntries([key] + rest) + "]\n" == entry + later;
    Text.Assoc(opening, entry, later);
  }

  lemma {:induction false} RunDeleteReports(c: Command, args: seq<Pair>, i: nat, t: Table, hasError: bool)
    requires c.Delete? && ValidPairs(args) && i <= |args| && WellFormed(t)
    ensures RunText(c, args, i, t, hasError) == DeleteText(Missing(args, i, ToMap(t).Keys), hasError)
    decreases |args| - i
  {
    if i < |args| {
      var key := args[i].key;
      ReadIsLookup(t, key);
      DeleteIsRemoval(t, key);
      var u := StepTable(c, args[i], t);
      RunDeleteReports(c, args, i + 1, u, hasError || Fails(c, args[i], t));
      assert ToMap(u).Keys == ToMap(t).Keys - {key};
      if key !in ToMap(t) {
        assert ToMap(u).Keys == ToMap(t).Keys;
        DeleteTextStep(key, Missing(args, i + 1, ToMap(t).Keys), hasError);
      }
    }
  }

  lemma {:induction false} RunDeleteRemoves(c: Command, args: seq<Pair>, i: nat, t: Table)
    requires c.Delete? && ValidPairs(args) && i <= |args| && WellFormed(t)
    ensures WellFormed(RunTable(c, args, i, t))
    ensures ToMap(RunTable(c, args, i, t)) == ToMap(t) - KeySet(args, i)
    decreases |args| - i
  {
    if i < |args| {
      DeleteIsRemoval(t, args[i].key);
      RunDeleteRemoves(c, args, i + 1, StepTable(c, args[i], t));
      KeySetStep(args, i, ToMap(t));
    } else {
      assert KeySet(args, i) == {};
    }
  }

  lemma KeySetStep(args: seq<Pair>, i: nat, m: map<string, string>)
    requires i < |args|
    ensures m - {args[i].key} - KeySet(args, i + 1) == m - KeySet(args, i)
  {
    assert KeySet(args, i) == {args[i].key} + KeySet(args, i + 1);
  }

  lemma ArgsKeys(keys: seq<string>)
    ensures KeySet(Args(Delete(keys)), 0) == set key | key in keys
  {
    var c := Delete(keys);
    SortedValid(Named(c));
    forall k ensures k in KeySet(Args(c), 0) <==> k in keys {
      if k in KeySet(Args(c), 0) {
        var j :| 0 <= j < |Args(c)| && Args(c)[j].key == k;
        assert Args(c)[j] in Named(c);
      }
      if k in keys {
        var j :| 0 <= j < |keys| && keys[j] == k;
        assert Named(c)[j] in Args(c);
      }
    }
  }

  /** DELETE removes its keys and prints nothing, or one bracketed list of the keys it did not find. */
  lemma DeleteMeans(keys: seq<string>, t: Table)
    requires ValidCommand(Delete(keys)) && WellFormed(t)
    ensures WellFormed(ExecTable(Delete(keys), t))
    ensures ToMap(ExecTable(Delete(keys), t)) == ToMap(t) - (set key | key in keys)
    ensures ExecText(Delete(keys), t) ==
            var missing := Missing(Args(Delete(keys)), 0, ToMap(t).Keys);
            if missing == [] then "" else "[" + (MissingEntries(missing) + "]\n")
  {
    var c := Delete(keys);
    ArgsValid(c);
    RunDeleteRemoves(c, Args(c), 0, t);
    RunDeleteReports(c, Args(c), 0, t, false);
    ArgsKeys(keys);
    assert forall text: string :: "" + text == text;
  }

  function Count(keys: seq<string>, k: string): nat {
    multiset(keys)[k]
  }

  function KeysFrom(args: seq<Pair>, i: nat): seq<string>
    requires i <= |args|
    decreases |args| - i
  {
    if i == |args| then [] else [args[i].key] + KeysFrom(args, i + 1)
  }

  /** From position `i` on, a key named n times is reported n - 1 times when it is live, n times when it is not. */
  lemma {:induction false} MissingFrom(args: seq<Pair>, i: nat, live: set<string>, k: string)
    requires i <= |args|
    ensures var n := Count(KeysFrom(args, i), k);
            Count(Missing(args, i, live), k) == if k in live && n > 0 then n - 1 else n
    decreases |args| - i
  {
    if i < |args| {
      var key := args[i].key;
      MissingFrom(args, i + 1, if key in live then live - {key} else live, k);
      assert multiset([key] + KeysFrom(args, i + 1)) == multiset{key} + multiset(KeysFrom(args, i + 1));
      if key !in live {
        assert multiset([key] + Missing(args, i + 1, live)) == multiset{key} + multiset(Missing(args, i + 1, live));
      }
    }
  }

  function KeysOf(s: seq<Pair>): (r: seq<string>)
    ensures |r| == |s| && forall i :: 0 <= i < |s| ==> r[i] == s[i].key
  {
    seq(|s|, i requires 0 <= i < |s| => s[i].key)
  }

  lemma {:induction false} KeysFromIs(args: seq<Pair>, i: nat)
    requires i <= |args|
    ensures KeysFrom(args, i) == KeysOf(args)[i..]
    decreases |args| - i
  {
    if i < |args| {
      KeysFromIs(args, i + 1);
    }
  }

  lemma {:induction false} CountIsWithKey(s: seq<Pair>, k: string)
    ensures Count(KeysOf(s), k) == |WithKey(s, k)|
  {
    if s != [] {
      var init, last := s[..|s| - 1], s[|s| - 1];
      CountIsWithKey(init, k);
      assert KeysOf(s) == KeysOf(init) + [last.key];
    }
  }

  /** Sorting keeps how often each key is named. */
  lemma ArgsNameTheSame(keys: seq<string>, k: string)
    ensures Count(KeysFrom(Args(Delete(keys)), 0), k) == Count(keys, k)
  {
    var named, args := WithoutValues(keys), Args(Delete(keys));
    KeysFromIs(args, 0);
    CountIsWithKey(args, k);
    CountIsWithKey(named, k);
    SortIsStable(named);
    assert KeysOf(named) == keys;
    assert KeysOf(args)[0..] == KeysOf(args);
  }

  /** A key the user names n times is reported n - 1 times when it was live, n times when it was not. */
  lemma MissingCount(keys: seq<string>, live: set<string>, k: string)
    ensures var n := Count(keys, k);
            Count(Missing(Args(Delete(keys)), 0, live), k) == if k in live && n > 0 then n - 1 else n
  {
    ArgsNameTheSame(keys, k);
    MissingFrom(Args(Delete(keys)), 0, live, k);
  }

  /** Every command keeps the table well formed. */
  lemma ExecKeepsWellFormed(c: Command, t: Table)
    requires ValidCommand(c) && WellFormed(t)
    ensures WellFormed(ExecTable(c, t))
  {
    match c {
      case Write(pairs) => WriteMeans(pairs, t);
      case Delete(keys) => DeleteMeans(keys, t);
      case Read(keys) => ReadMeans(keys, t);
      case _ =>
    }
  }

  // One command after another.

  predicate AllValid(cs: seq<Command>) {
    forall i :: 0 <= i < |cs| ==> ValidCommand(cs[i])
  }

  function RunAll(t: Table, cs: seq<Command>): Table
    requires AllValid(cs)
    decreases |cs|
  {
    if cs == [] then t else RunAll(ExecTable(cs[0], t), cs[1..])
  }

  /** What each command prints. */
  function Outputs(t: Table, cs: seq<Command>): seq<string>
    requires AllValid(cs)
    decreases |cs|
  {
    if cs == [] then [] else [ExecText(cs[0], t)] + Outputs(ExecTable(cs[0], t), cs[1..])
  }
}
