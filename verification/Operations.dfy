/**
 One thread running a job file on its own: the parser fills the arrays, they are sorted, and each
 command locks its buckets, goes through the heap table pair by pair, and unlocks.
 */
module Operations {
  import opened Store
  import opened Sorting
  import opened Text
  import opened Commands
  import opened Protocol
  import Heap = HashTable
  import Subscriptions
  import opened Grammar
  import opened Parser

  /** The locks one thread holds. */
  class ThreadLocks {
    var held: map<int, Mode>

    constructor ()
      ensures held == map[]
    {
      held := map[];
    }

    /** Waiting for a lock one already holds would be for ever. */
    method Acquire(l: int, mode: Mode)
      requires l !in held
      modifies this
      ensures held == old(held)[l := mode]
    {
      held := held[l := mode];
    }

    method Unlock(l: int)
      requires l in held
      modifies this
      ensures held == old(held) - {l}
    {
      held := held - {l};
    }
  }

  /** `held` is `before` and the locks of these buckets. */
  ghost predicate Grown(held: map<int, Mode>, before: map<int, Mode>, buckets: set<int>, mode: Mode) {
    && (forall l :: l in held <==> l in before || l - BUCKETS in buckets)
    && forall l :: l in held ==> held[l] == if l - BUCKETS in buckets then mode else before[l]
  }

  ghost predicate NoBuckets(held: map<int, Mode>) {
    forall l :: l in held ==> l < BUCKETS
  }

  predicate KeysValid(keys: seq<string>) {
    forall i :: 0 <= i < |keys| ==> ValidKey(keys[i])
  }

  function KeyBuckets(keys: seq<string>): set<int> {
    set i | 0 <= i < |keys| :: Hash(keys[i])
  }

  /** The `hashed` array has a mark for each of these buckets. */
  ghost predicate Marks(hashed: array<bool>, buckets: set<int>)
    reads hashed
  {
    hashed.Length == TABLE_SIZE && (forall b :: b in buckets ==> 0 <= b < TABLE_SIZE)
    && forall b :: 0 <= b < TABLE_SIZE ==> (hashed[b] <==> b in buckets)
  }

  /** The lock loop: each bucket named is locked, and locked once. */
  method LockBuckets(locks: ThreadLocks, keys: array<string>, n: nat, mode: Mode) returns (hashed: array<bool>)
    requires n <= keys.Length && KeysValid(keys[..n]) && NoBuckets(locks.held)
    modifies locks
    ensures fresh(hashed) && Marks(hashed, KeyBuckets(keys[..n]))
    ensures Grown(locks.held, old(locks.held), KeyBuckets(keys[..n]), mode)
  {
    hashed := new bool[TABLE_SIZE](_ => false);
    var i := 0;
    hide Hash, Grown, Marks, NoBuckets, KeyBuckets;
    StartUnlocked(locks.held, hashed, mode);
    while i < n
      invariant i <= n && Marks(hashed, KeyBuckets(keys[..i]))
      invariant Grown(locks.held, old(locks.held), KeyBuckets(keys[..i]), mode)
    {
      assert keys[..n][i] == keys[i];
      assert keys[..i + 1] == keys[..i] + [keys[i]];
      BucketsPush(keys[..i], keys[i]);
      LockBucket(locks, hashed, Hash(keys[i]), mode, old(locks.held), KeyBuckets(keys[..i]));
      i := i + 1;
    }
  }

  lemma StartUnlocked(held: map<int, Mode>, hashed: array<bool>, mode: Mode)
    requires hashed.Length == TABLE_SIZE && forall b :: 0 <= b < TABLE_SIZE ==> !hashed[b]
    ensures Grown(held, held, KeyBuckets([]), mode) && Marks(hashed, KeyBuckets([]))
  {
    assert KeyBuckets([]) == {};
  }

  /** The body of the loop: a bucket not yet marked is locked. */
  method LockBucket(locks: ThreadLocks, hashed: array<bool>, index: nat, mode: Mode,
                    ghost before: map<int, Mode>, ghost buckets: set<int>)
    requires index < TABLE_SIZE && Marks(hashed, buckets) && Grown(locks.held, before, buckets, mode) &&
               NoBuckets(before)
    modifies locks, hashed
    ensures Marks(hashed, buckets + {index}) && Grown(locks.held, before, buckets + {index}, mode)
  {
    if !hashed[index] {
      locks.Acquire(BUCKETS + index, mode);
      hashed[index] := true;
    }
  }

  lemma BucketsPush(keys: seq<string>, key: string)
    ensures KeyBuckets(keys + [key]) == KeyBuckets(keys) + {Hash(key)}
  {
    var all := keys + [key];
    forall b | b in KeyBuckets(keys) ensures b in KeyBuckets(all) {
      var i :| 0 <= i < |keys| && Hash(keys[i]) == b;
      assert all[i] == keys[i];
    }
    assert all[|keys|] == key;
  }

  function From(buckets: set<int>, i: nat): set<int> {
    set b | b in buckets && i <= b
  }

  lemma GrownByNothing(held: map<int, Mode>, before: map<int, Mode>, mode: Mode)
    requires Grown(held, before, {}, mode)
    ensures held == before
  {
    assert forall l :: l in held <==> l in before;
    assert forall l :: l in held ==> l - BUCKETS !in {} && held[l] == before[l];
  }

  /** The release loop gives back exactly those. */
  method UnlockBuckets(locks: ThreadLocks, hashed: array<bool>, ghost before: map<int, Mode>,
                       ghost buckets: set<int>, ghost mode: Mode)
    requires Marks(hashed, buckets) && NoBuckets(before) && Grown(locks.held, before, buckets, mode)
    modifies locks, hashed
    ensures locks.held == before
  {
    var i := 0;
    while i < TABLE_SIZE
      invariant i <= TABLE_SIZE
      invariant Marks(hashed, From(buckets, i))
      invariant Grown(locks.held, before, From(buckets, i), mode)
    {
      if hashed[i] {
        locks.Unlock(BUCKETS + i);
        hashed[i] := false;
      }
      i := i + 1;
    }
    assert From(buckets, i) == {};
    GrownByNothing(locks.held, before, mode);
  }

  // Sorted arguments.

  /** The first `n` keys of the array are those of `args`, and for a WRITE so are the values. */
  ghost predicate ArgsIn(keys: array<string>, values: array<string>, args: seq<Pair>)
    reads keys, values
  {
    |args| <= keys.Length && |args| <= values.Length && ArraysHold(keys, values, args)
  }

  /** The locks held cover the buckets of these keys, in this mode. */
  ghost predicate Guarded(held: map<int, Mode>, args: seq<Pair>, mode: Mode) {
    forall k :: 0 <= k < |args| ==> HeldAs(held, BUCKETS + Hash(args[k].key), mode)
  }

  predicate HeldAs(held: map<int, Mode>, l: int, mode: Mode) {
    l in held && held[l] == mode
  }

  lemma LockedIsGuarded(held: map<int, Mode>, before: map<int, Mode>, keys: seq<string>, args: seq<Pair>, mode: Mode)
    requires |keys| == |args| && forall k :: 0 <= k < |keys| ==> keys[k] == args[k].key
    requires Grown(held, before, KeyBuckets(keys), mode)
    ensures Guarded(held, args, mode)
    ensures forall l :: l in before && l < BUCKETS && ValidPairs(args) ==> HeldAs(held, l, before[l])
  {
    forall k | 0 <= k < |args| ensures HeldAs(held, BUCKETS + Hash(args[k].key), mode) {
      assert Hash(keys[k]) in KeyBuckets(keys);
    }
    forall l | l in before && l < BUCKETS && ValidPairs(args) ensures HeldAs(held, l, before[l]) {
      assert l - BUCKETS !in KeyBuckets(keys);
    }
  }

  /** The heap table runs the pairs of a WRITE one by one, under their locks. */
  method ApplyWrites(table: Heap.HashTable, keys: array<string>, values: array<string>, n: nat, ghost c: Command,
                     ghost args: seq<Pair>, ghost held: map<int, Mode>)
    requires Guarded(held, args, Exclusive) && HeldAs(held, GLOBAL, Shared)
    requires table.Valid() && n == |args| && ArgsIn(keys, values, args) && ValidPairs(args) && c.Write?
    modifies table, table.table, table.Repr
    ensures table.Valid() && table.table == old(table.table) && fresh(table.Repr - old(table.Repr))
    ensures table.contents == RunTable(c, args, 0, old(table.contents))
    ensures RunText(c, args, 0, old(table.contents), false) == ""
  {
    hide Heap.HashTable.Valid;
    hide WriteChain, Has;
    var i := 0;
    while i < n
      invariant i <= n && table.Valid() && table.table == old(table.table) && fresh(table.Repr - old(table.Repr))
      invariant RunTable(c, args, 0, old(table.contents)) == RunTable(c, args, i, table.contents)
      invariant RunText(c, args, 0, old(table.contents), false) == RunText(c, args, i, table.contents, false)
      invariant ArgsIn(keys, values, args)
    {
      table.WritePair(keys[i], values[i]);
      i := i + 1;
    }
  }

  method ApplyReads(table: Heap.HashTable, keys: array<string>, n: nat, ghost c: Command, ghost args: seq<Pair>,
                    ghost held: map<int, Mode>)
    returns (output: string)
    requires Guarded(held, args, Shared)
    requires table.Valid() && n == |args| <= keys.Length && (forall k :: 0 <= k < n ==> keys[k] == args[k].key)
    requires ValidPairs(args) && c.Read?
    ensures output == Opening(c) + RunText(c, args, 0, table.contents, false)
    ensures RunTable(c, args, 0, table.contents) == table.contents
  {
    hide Heap.HashTable.Valid;
    hide RunText, RunTable;
    output := "[";
    var i := 0;
    while i < n
      invariant i <= n
      invariant Opening(c) + RunText(c, args, 0, table.contents, false) ==
                  output + RunText(c, args, i, table.contents, false)
      invariant RunTable(c, args, 0, table.contents) == RunTable(c, args, i, table.contents)
    {
      var result := table.ReadPair(keys[i]);
      ReadRunStep(c, args, i, table.contents);
      Assoc(output, ReadEntry(keys[i], result), RunText(c, args, i + 1, table.contents, false));
      output := output + ReadEntry(keys[i], result);
      i := i + 1;
    }
    ReadRunStep(c, args, i, table.contents);
    output := output + "]\n";
  }

  lemma ReadRunStep(c: Command, args: seq<Pair>, i: nat, t: Table)
    requires c.Read? && ValidPairs(args) && i <= |args|
    ensures RunText(c, args, i, t, false) ==
            if i == |args| then "]\n"
            else ReadEntry(args[i].key, Store.ReadPair(t, args[i].key)) + RunText(c, args, i + 1, t, false)
    ensures RunTable(c, args, i, t) == if i == |args| then t else RunTable(c, args, i + 1, t)
  {
  }

  /** One round of DELETE. */
  method DeleteOne(table: Heap.HashTable, key: string, hadError: bool, ghost c: Command, ghost p: Pair)
    returns (text: string, hasError: bool)
    requires table.Valid() && ValidKey(key) && key == p.key && c.Delete?
    modifies table, table.table, table.Repr
    ensures table.Valid() && table.table == old(table.table) && table.Repr == old(table.Repr)
    ensures table.contents == StepTable(c, p, old(table.contents))
    ensures text == StepText(c, p, old(table.contents), hadError)
    ensures hasError == (hadError || Fails(c, p, old(table.contents)))
  {
    hide Heap.HashTable.Valid;
    text, hasError := "", hadError;
    var missing := table.DeletePair(key);
    if missing != 0 {
      text := (if hasError then "" else "[") + MissingEntry(key);
      hasError := true;
    }
  }

  method ApplyDeletes(table: Heap.HashTable, keys: array<string>, n: nat, ghost c: Command, ghost args: seq<Pair>,
                      ghost held: map<int, Mode>)
    returns (output: string)
    requires Guarded(held, args, Exclusive) && HeldAs(held, GLOBAL, Shared)
    requires table.Valid() && n == |args| <= keys.Length && (forall k :: 0 <= k < n ==> keys[k] == args[k].key)
    requires ValidPairs(args) && c.Delete?
    modifies table, table.table, table.Repr
    ensures table.Valid() && table.table == old(table.table) && fresh(table.Repr - old(table.Repr))
    ensures table.contents == RunTable(c, args, 0, old(table.contents))
    ensures output == RunText(c, args, 0, old(table.contents), false)
  {
    hide Heap.HashTable.Valid;
    output := "";
    var hasError := false;
    var i := 0;
    while i < n
      invariant i <= n && table.Valid() && table.table == old(table.table) && table.Repr == old(table.Repr)
      invariant forall k :: 0 <= k < n ==> keys[k] == args[k].key
      invariant RunTable(c, args, 0, old(table.contents)) == RunTable(c, args, i, table.contents)
      invariant RunText(c, args, 0, old(table.contents), false) ==
                  output + RunText(c, args, i, table.contents, hasError)
    {
      var text, failed := DeleteOne(table, keys[i], hasError, c, args[i]);
      Assoc(output, text, RunText(c, args, i + 1, table.contents, failed));
      output, hasError := output + text, failed;
      i := i + 1;
    }
    if hasError {
      output := output + "]\n";
    }
  }

  // The operations: lock, run, unlock.

  method KvsWrite(table: Heap.HashTable, locks: ThreadLocks, keys: array<string>, values: array<string>, n: nat,
                  ghost c: Command, ghost args: seq<Pair>)
    requires table.Valid() && locks.held == map[] && n == |args| && ArgsIn(keys, values, args) && ValidPairs(args)
             && c.Write?
    modifies locks, table, table.table, table.Repr
    ensures table.Valid() && table.table == old(table.table) && fresh(table.Repr - old(table.Repr))
             && locks.held == map[]
    ensures table.contents == RunTable(c, args, 0, old(table.contents))
    ensures RunText(c, args, 0, old(table.contents), false) == ""
  {
    hide Heap.HashTable.Valid;
    hide RunTable, RunText;
    locks.Acquire(GLOBAL, Shared);
    ghost var before := locks.held;
    var hashed := LockBuckets(locks, keys, n, Exclusive);
    LockedIsGuarded(locks.held, before, keys[..n], args, Exclusive);
    ApplyWrites(table, keys, values, n, c, args, locks.held);
    UnlockBuckets(locks, hashed, before, KeyBuckets(keys[..n]), Exclusive);
    locks.Unlock(GLOBAL);
  }

  method KvsRead(table: Heap.HashTable, locks: ThreadLocks, keys: array<string>, n: nat, ghost c: Command,
                 ghost args: seq<Pair>)
    returns (output: string)
    requires table.Valid() && locks.held == map[] && n == |args| <= keys.Length &&
               (forall k :: 0 <= k < n ==> keys[k] == args[k].key)
    requires ValidPairs(args) && c.Read?
    modifies locks
    ensures locks.held == map[]
    ensures output == Opening(c) + RunText(c, args, 0, table.contents, false)
    ensures RunTable(c, args, 0, table.contents) == table.contents
  {
    hide Heap.HashTable.Valid;
    hide RunTable, RunText;
    var hashed := LockBuckets(locks, keys, n, Shared);
    LockedIsGuarded(locks.held, map[], keys[..n], args, Shared);
    output := ApplyReads(table, keys, n, c, args, locks.held);
    UnlockBuckets(locks, hashed, map[], KeyBuckets(keys[..n]), Shared);
  }

  method KvsDelete(table: Heap.HashTable, locks: ThreadLocks, keys: array<string>, n: nat, ghost c: Command,
                   ghost args: seq<Pair>)
    returns (output: string)
    requires table.Valid() && locks.held == map[] && n == |args| <= keys.Length &&
               (forall k :: 0 <= k < n ==> keys[k] == args[k].key)
    requires ValidPairs(args) && c.Delete?
    modifies locks, table, table.table, table.Repr
    ensures table.Valid() && table.table == old(table.table) && fresh(table.Repr - old(table.Repr))
             && locks.held == map[]
    ensures table.contents == RunTable(c, args, 0, old(table.contents))
    ensures output == RunText(c, args, 0, old(table.contents), false)
  {
    hide Heap.HashTable.Valid;
    hide RunTable, RunText;
    locks.Acquire(GLOBAL, Shared);
    ghost var before := locks.held;
    var hashed := LockBuckets(locks, keys, n, Exclusive);
    LockedIsGuarded(locks.held, before, keys[..n], args, Exclusive);
    output := ApplyDeletes(table, keys, n, c, args, locks.held);
    UnlockBuckets(locks, hashed, before, KeyBuckets(keys[..n]), Exclusive);
    locks.Unlock(GLOBAL);
  }

  // Subscriptions take the one bucket of their key.

  method SubscribeLocked(table: Heap.HashTable, key: string, fd: int, ghost held: map<int, Mode>) returns (result: int)
    requires table.Valid() && ValidKey(key) && HeldAs(held, BUCKETS + Hash(key), Exclusive)
    modifies table`slots, table.Repr`subscriberFds
    ensures table.Valid() && table.contents == old(table.contents)
    ensures Subscriptions.Parallel(old(table.contents), old(table.slots))
    ensures (table.slots, result) == Subscriptions.AddSubscriber(old(table.contents), old(table.slots), key, fd)
  {
    result := table.AddSubscriber(key, fd);
  }

  method UnsubscribeLocked(table: Heap.HashTable, key: string, fd: int, ghost held: map<int, Mode>)
    returns (result: int)
    requires table.Valid() && ValidKey(key) && HeldAs(held, BUCKETS + Hash(key), Exclusive)
    modifies table`slots, table.Repr`subscriberFds
    ensures table.Valid() && table.contents == old(table.contents)
    ensures Subscriptions.Parallel(old(table.contents), old(table.slots))
    ensures (table.slots, result) == Subscriptions.DropSubscriber(old(table.contents), old(table.slots), key, fd)
  {
    result := table.RemoveSubscriber(key, fd);
  }

  method KvsSubscribe(table: Heap.HashTable, locks: ThreadLocks, key: string, fd: int) returns (result: int)
    requires table.Valid() && ValidKey(key) && locks.held == map[]
    modifies locks, table`slots, table.Repr`subscriberFds
    ensures table.Valid() && table.contents == old(table.contents) && locks.held == map[]
    ensures Subscriptions.Parallel(old(table.contents), old(table.slots))
    ensures (table.slots, result) == Subscriptions.AddSubscriber(old(table.contents), old(table.slots), key, fd)
  {
    locks.Acquire(BUCKETS + Hash(key), Exclusive);
    result := SubscribeLocked(table, key, fd, locks.held);
    locks.Unlock(BUCKETS + Hash(key));
  }

  method KvsUnsubscribe(table: Heap.HashTable, locks: ThreadLocks, key: string, fd: int) returns (result: int)
    requires table.Valid() && ValidKey(key) && locks.held == map[]
    modifies locks, table`slots, table.Repr`subscriberFds
    ensures table.Valid() && table.contents == old(table.contents) && locks.held == map[]
    ensures Subscriptions.Parallel(old(table.contents), old(table.slots))
    ensures (table.slots, result) == Subscriptions.DropSubscriber(old(table.contents), old(table.slots), key, fd)
  {
    locks.Acquire(BUCKETS + Hash(key), Exclusive);
    result := UnsubscribeLocked(table, key, fd, locks.held);
    locks.Unlock(BUCKETS + Hash(key));
  }

  // From the arrays as parsed.

  method SortAndWrite(table: Heap.HashTable, locks: ThreadLocks, keys: array<string>, values: array<string>, n: nat,
                      ghost c: Command)
    requires table.Valid() && locks.held == map[] && keys != values && n <= keys.Length && n <= values.Length
    requires c.Write? && ValidCommand(c) && c.pairs == Zip(keys[..n], values[..n])
    modifies keys, values, locks, table, table.table, table.Repr
    ensures table.Valid() && table.table == old(table.table) && fresh(table.Repr - old(table.Repr))
             && locks.held == map[]
    ensures table.contents == ExecTable(c, old(table.contents)) && ExecText(c, old(table.contents)) == ""
  {
    hide Heap.HashTable.Valid;
    InsertionSort(keys, values, n);
    ArgsValid(c);
    hide Sort, RunTable, RunText, Zip;
    ghost var args := Args(c);
    ZipIsHeld(keys, values, n);
    KvsWrite(table, locks, keys, values, n, c, args);
  }

  /** READ and DELETE sort the keys along with whatever values an earlier WRITE left behind. */
  method SortKeys(keys: array<string>, values: array<string>, n: nat, ghost c: Command)
    requires keys != values && n <= keys.Length && n <= values.Length
    requires c.NamesKeys() && !c.Write? && c.keys == keys[..n]
    modifies keys, values
    ensures |Args(c)| == n && forall k :: 0 <= k < n ==> keys[k] == Args(c)[k].key
  {
    ghost var stale := Zip(keys[..n], values[..n]);
    InsertionSort(keys, values, n);
    SortIgnoresValues(stale, Named(c));
    assert forall k :: 0 <= k < n ==> Zip(keys[..n], values[..n])[k] == Sort(stale)[k];
  }

  method RunWrite(input: Input, table: Heap.HashTable, locks: ThreadLocks, keys: array<string>,
                  values: array<string>, ghost c: Command)
    requires input.Valid() && table.Valid() && locks.held == map[]
    requires keys != values && keys.Length == values.Length == MAX_WRITE_SIZE
    requires c == ReadArguments(KWrite, input.Unread()).result && ValidCommand(c)
    modifies input, keys, values, locks, table, table.table, table.Repr
    ensures input.Valid() && table.Valid() && locks.held == map[]
    ensures table.table == old(table.table) && fresh(table.Repr - old(table.Repr))
    ensures input.Unread() == ReadArguments(KWrite, old(input.Unread())).rest
    ensures table.contents == ExecTable(c, old(table.contents)) && ExecText(c, old(table.contents)) == ""
  {
    hide Heap.HashTable.Valid;
    hide RunTable, RunText, ParseWrite, ParseReadDelete, Args;
    var num := ReadWrite(input, keys, values, MAX_WRITE_SIZE);
    if num != 0 {
      SortAndWrite(table, locks, keys, values, num, c);
    }
  }

  method RunRead(input: Input, table: Heap.HashTable, locks: ThreadLocks, keys: array<string>, values: array<string>,
                 ghost c: Command)
    returns (text: string)
    requires input.Valid() && table.Valid() && locks.held == map[]
    requires keys != values && keys.Length == values.Length == MAX_WRITE_SIZE
    requires c == ReadArguments(KRead, input.Unread()).result && ValidCommand(c)
    modifies input, keys, values, locks
    ensures input.Valid() && locks.held == map[]
    ensures input.Unread() == ReadArguments(KRead, old(input.Unread())).rest
    ensures table.contents == ExecTable(c, table.contents) && text == ExecText(c, table.contents)
  {
    hide Heap.HashTable.Valid;
    hide RunTable, RunText, ParseWrite, ParseReadDelete, Args;
    text := "";
    var num := ReadKeys(input, keys, MAX_WRITE_SIZE);
    if num != 0 {
      SortKeys(keys, values, num, c);
      ArgsValid(c);
      text := KvsRead(table, locks, keys, num, c, Args(c));
    }
  }

  method RunDelete(input: Input, table: Heap.HashTable, locks: ThreadLocks, keys: array<string>,
                   values: array<string>, ghost c: Command)
    returns (text: string)
    requires input.Valid() && table.Valid() && locks.held == map[]
    requires keys != values && keys.Length == values.Length == MAX_WRITE_SIZE
    requires c == ReadArguments(KDelete, input.Unread()).result && ValidCommand(c)
    modifies input, keys, values, locks, table, table.table, table.Repr
    ensures input.Valid() && table.Valid() && locks.held == map[]
    ensures table.table == old(table.table) && fresh(table.Repr - old(table.Repr))
    ensures input.Unread() == ReadArguments(KDelete, old(input.Unread())).rest
    ensures table.contents == ExecTable(c, old(table.contents)) && text == ExecText(c, old(table.contents))
  {
    hide Heap.HashTable.Valid;
    hide RunTable, RunText, ParseWrite, ParseReadDelete, Args;
    text := "";
    var num := ReadKeys(input, keys, MAX_WRITE_SIZE);
    if num != 0 {
      SortKeys(keys, values, num, c);
      ArgsValid(c);
      text := KvsDelete(table, locks, keys, num, c, Args(c));
    }
  }

  method ShowLocked(table: Heap.HashTable, ghost held: map<int, Mode>) returns (text: string)
    requires table.Valid() && HeldAs(held, GLOBAL, Exclusive)
    ensures text == ExecText(Show, table.contents)
  {
    text := table.Show();
  }

  method KvsShow(table: Heap.HashTable, locks: ThreadLocks) returns (text: string)
    requires table.Valid() && locks.held == map[]
    modifies locks
    ensures locks.held == map[] && text == ExecText(Show, table.contents)
  {
    locks.Acquire(GLOBAL, Exclusive);
    text := ShowLocked(table, locks.held);
    locks.Unlock(GLOBAL);
  }

  method RunCommand(input: Input, table: Heap.HashTable, locks: ThreadLocks, keys: array<string>, values: array<string>,
                    kind: Kind, ghost c: Command) returns (text: string)
    requires input.Valid() && table.Valid() && locks.held == map[] && kind != Eoc
    requires keys != values && keys.Length == values.Length == MAX_WRITE_SIZE
    requires c == ReadArguments(kind, input.Unread()).result && ValidCommand(c)
    modifies input, keys, values, locks, table, table.table, table.Repr
    ensures input.Valid() && table.Valid() && locks.held == map[]
    ensures table.table == old(table.table) && fresh(table.Repr - old(table.Repr))
    ensures input.Unread() == ReadArguments(kind, old(input.Unread())).rest
    ensures table.contents == ExecTable(c, old(table.contents)) && text == ExecText(c, old(table.contents))
  {
    hide Heap.HashTable.Valid;
    text := "";
    match kind
    case KWrite => RunWrite(input, table, locks, keys, values, c);
    case KRead => text := RunRead(input, table, locks, keys, values, c);
    case KDelete => text := RunDelete(input, table, locks, keys, values, c);
    case KShow => text := KvsShow(table, locks);
    case KWait => var delay := ReadWait(input);
    case _ =>
  }

  /** The job so far, `s` still to be run on `t`, amounts to the whole. */
  ghost predicate JobSoFar(t0: Table, s0: string, output: string, t: Table, s: string) {
    && AllValid(Script(s0)) && AllValid(Script(s))
    && RunAll(t0, Script(s0)) == RunAll(t, Script(s))
    && Concat(Outputs(t0, Script(s0))) == output + Concat(Outputs(t, Script(s)))
  }

  lemma JobStep(t0: Table, s0: string, output: string, t: Table, s: string)
    requires JobSoFar(t0, s0, output, t, s) && s != []
    ensures var next := NextCommand(s);
            ValidCommand(next.result)
            && JobSoFar(t0, s0, output + ExecText(next.result, t), ExecTable(next.result, t), next.rest)
  {
    var next := NextCommand(s);
    assert Script(s)[0] == next.result && Script(s)[1..] == Script(next.rest);
    var u := ExecTable(next.result, t);
    var later := Outputs(u, Script(next.rest));
    assert Outputs(t, Script(s))[1..] == later;
    Assoc(output, ExecText(next.result, t), Concat(later));
  }

  lemma JobEnds(t: Table, s: string)
    requires AllValid(Script(s))
    ensures JobSoFar(t, s, "", t, s)
    ensures forall output, u :: JobSoFar(t, s, output, u, "") ==>
              u == RunAll(t, Script(s)) && output == Concat(Outputs(t, Script(s)))
  {
    assert forall output: string :: output + "" == output;
    var all := Concat(Outputs(t, Script(s)));
    assert "" + all == all;
  }

  /** Everything one thread does with one job file, up to WAIT's sleep and BACKUP's child. */
  method ProcessJob(input: Input, table: Heap.HashTable) returns (output: string)
    requires input.Valid() && table.Valid() && AllValid(Script(input.Unread()))
    modifies input, table, table.table, table.Repr
    ensures table.Valid() && fresh(table.Repr - old(table.Repr))
    ensures table.contents == RunAll(old(table.contents), Script(old(input.Unread())))
    ensures output == Concat(Outputs(old(table.contents), Script(old(input.Unread()))))
  {
    hide Heap.HashTable.Valid;
    hide JobSoFar, GetNext, ReadArguments, Script, AllValid;
    JobEnds(table.contents, input.Unread());
    var keys, values := new string[MAX_WRITE_SIZE](_ => ""), new string[MAX_WRITE_SIZE](_ => "");
    var locks := new ThreadLocks();
    output := "";
    ghost var left := input.Unread();
    var kind := NextKind(input);
    while kind != Eoc
      invariant input.Valid() && table.Valid() && table.table == old(table.table) && fresh(table.Repr - old(table.Repr))
      invariant locks.held == map[] && Scan(kind, input.Unread()) == GetNext(left)
      invariant JobSoFar(old(table.contents), old(input.Unread()), output, table.contents, left)
      decreases |left|
    {
      JobStep(old(table.contents), old(input.Unread()), output, table.contents, left);
      var text := RunCommand(input, table, locks, keys, values, kind, NextCommand(left).result);
      output := output + text;
      left := input.Unread();
      kind := NextKind(input);
    }
  }
}
