/** The subscriber slots of one key: an array of descriptors where 0 means free. */
module Slots {
  const MAX_SESSION_COUNT: nat := 3

  type Slots = s: seq<int> | |s| == MAX_SESSION_COUNT witness [0, 0, 0]

  const FREE: Slots := [0, 0, 0]

  /** The first slot that holds `fd`, or the number of slots. */
  function Index(s: seq<int>, fd: int): (i: nat)
    ensures i <= |s|
    ensures i < |s| ==> s[i] == fd
    ensures forall j :: 0 <= j < i ==> s[j] != fd
  {
    if s == [] || s[0] == fd then 0 else 1 + Index(s[1..], fd)
  }

  lemma IndexIs(s: seq<int>, fd: int, i: nat)
    requires i <= |s|
    requires i < |s| ==> s[i] == fd
    requires forall j :: 0 <= j < i ==> s[j] != fd
    ensures Index(s, fd) == i
  {
  }

  function Add(s: Slots, fd: int): (Slots, int) {
    if Index(s, fd) < |s| then (s, 1)
    else if Index(s, 0) < |s| then (s[Index(s, 0) := fd], 0)
    else (s, 1)
  }

  function Drop(s: Slots, fd: int): (Slots, int) {
    if Index(s, fd) < |s| then (s[Index(s, fd) := 0], 0) else (s, 1)
  }

  /** The subscribed descriptors. */
  function Subscribers(s: seq<int>): set<int> {
    set x | x in s && x != 0
  }

  predicate NoDuplicates(s: seq<int>) {
    forall i, j :: 0 <= i < j < |s| && s[i] == s[j] ==> s[i] == 0
  }

  lemma {:induction false} SubscriberCount(s: seq<int>)
    requires NoDuplicates(s)
    ensures |Subscribers(s)| <= |s|
    ensures |Subscribers(s)| == |s| <==> 0 !in s
  {
    if s != [] {
      var rest := s[1..];
      SubscriberCount(rest);
      assert s == [s[0]] + rest;
      if s[0] == 0 {
        assert Subscribers(s) == Subscribers(rest);
      } else {
        assert forall j :: 0 <= j < |rest| ==> rest[j] == s[j + 1];
        assert s[0] !in rest;
        assert Subscribers(s) == Subscribers(rest) + {s[0]};
      }
    }
  }

  /** Adding behaves as a set bounded by the number of slots. */
  lemma AddIsInsert(s: Slots, fd: int)
    requires NoDuplicates(s) && fd != 0
    ensures NoDuplicates(Add(s, fd).0)
    ensures Add(s, fd).1 == 0 <==> fd !in Subscribers(s) && |Subscribers(s)| < MAX_SESSION_COUNT
    ensures Subscribers(Add(s, fd).0) == if Add(s, fd).1 == 0 then Subscribers(s) + {fd} else Subscribers(s)
  {
    SubscriberCount(s);
    if Index(s, fd) < |s| {
      assert fd in Subscribers(s);
    } else if Index(s, 0) < |s| {
      var r, i := Add(s, fd).0, Index(s, 0);
      forall x ensures x in Subscribers(r) <==> x in Subscribers(s) + {fd} {
        if x in Subscribers(s) {
          var j :| 0 <= j < |s| && s[j] == x && x != 0;
          assert r[j] == x;
        }
        assert r[i] == fd;
      }
    }
  }

  /** A key takes three subscribers and no more. */
  lemma ThreeFit(x: int, y: int, z: int, w: int)
    requires x != 0 && y != 0 && z != 0 && w != 0
    requires x != y && x != z && x != w && y != z && y != w && z != w
    ensures var (s1, r1) := Add(FREE, x);
            var (s2, r2) := Add(s1, y);
            var (s3, r3) := Add(s2, z);
            r1 == 0 && r2 == 0 && r3 == 0 && s3 == [x, y, z] && Add(s3, w) == (s3, 1)
  {
    var (s1, r1) := Add(FREE, x);
    IndexIs(FREE, x, 3);
    IndexIs(FREE, 0, 0);
    assert s1 == [x, 0, 0];
    var (s2, r2) := Add(s1, y);
    IndexIs(s1, y, 3);
    IndexIs(s1, 0, 1);
    assert s2 == [x, y, 0];
    var (s3, r3) := Add(s2, z);
    IndexIs(s2, z, 3);
    IndexIs(s2, 0, 2);
    assert s3 == [x, y, z];
    IndexIs(s3, w, 3);
    IndexIs(s3, 0, 3);
  }

  lemma DropIsRemove(s: Slots, fd: int)
    requires NoDuplicates(s) && fd != 0
    ensures NoDuplicates(Drop(s, fd).0)
    ensures Drop(s, fd).1 == 0 <==> fd in Subscribers(s)
    ensures Subscribers(Drop(s, fd).0) == Subscribers(s) - {fd}
  {
    var i := Index(s, fd);
    if i < |s| {
      var r := Drop(s, fd).0;
      assert s[i] in Subscribers(s);
      forall x ensures x in Subscribers(r) <==> x in Subscribers(s) - {fd} {
        if x in Subscribers(s) && x != fd {
          var j :| 0 <= j < |s| && s[j] == x;
          assert r[j] == x;
        }
      }
    }
  }
}

/** Subscriber slots beside the table: one `Slots` per node, in chain order. */
module Subscriptions {
  import opened Store
  import opened Slots
  import Listing

  type SlotTable = seq<seq<Slots>>

  predicate Parallel(t: Table, s: SlotTable) {
    |s| == TABLE_SIZE && forall b :: 0 <= b < TABLE_SIZE ==> |s[b]| == |t[b]|
  }

  function Put(fds: seq<Slots>, i: nat, s: Slots): (r: seq<Slots>)
    requires i < |fds|
    ensures |r| == |fds|
  {
    fds[i := s]
  }

  /** A new node has free slots; an overwritten one keeps its subscribers. */
  function WriteSlots(t: Table, s: SlotTable, key: string): SlotTable
    requires Parallel(t, s) && ValidKey(key)
  {
    var h := Hash(key);
    if Has(t[h], key) then s else s[h := [FREE] + s[h]]
  }

  function DeleteSlots(t: Table, s: SlotTable, key: string): SlotTable
    requires Parallel(t, s) && ValidKey(key)
  {
    var h := Hash(key);
    if Has(t[h], key) then s[h := RemoveAt(s[h], Find(t[h], key))] else s
  }

  function AddSubscriber(t: Table, s: SlotTable, key: string, fd: int): (SlotTable, int)
    requires Parallel(t, s) && ValidKey(key)
  {
    var h, i := Hash(key), Find(t[Hash(key)], key);
    if Has(t[h], key) && Add(s[h][i], fd).1 == 0 then (s[h := Put(s[h], i, Add(s[h][i], fd).0)], 0) else (s, 1)
  }

  function DropSubscriber(t: Table, s: SlotTable, key: string, fd: int): (SlotTable, int)
    requires Parallel(t, s) && ValidKey(key)
  {
    var h, i := Hash(key), Find(t[Hash(key)], key);
    if Has(t[h], key) && Drop(s[h][i], fd).1 == 0 then (s[h := Put(s[h], i, Drop(s[h][i], fd).0)], 0) else (s, 1)
  }

  /** The slots of a key in its bucket; free ones when it has no node. */
  function SlotsIn(c: Chain, fds: seq<Slots>, key: string): Slots
    requires |fds| == |c|
  {
    if Has(c, key) then fds[Find(c, key)] else FREE
  }

  function SlotsOf(t: Table, s: SlotTable, key: string): Slots
    requires Parallel(t, s) && ValidKey(key)
  {
    SlotsIn(t[Hash(key)], s[Hash(key)], key)
  }

  lemma WriteSlotsIn(c: Chain, fds: seq<Slots>, key: string, value: string, k: string)
    requires |fds| == |c|
    ensures var fds' := if Has(c, key) then fds else [FREE] + fds;
            |fds'| == |WriteChain(c, key, value)| && SlotsIn(WriteChain(c, key, value), fds', k) == SlotsIn(c, fds, k)
  {
    var d, m := WriteChain(c, key, value), Find(c, k);
    if Has(c, key) {
      FindIs(d, k, m);
    } else if k == key {
      FindIs(d, k, 0);
    } else {
      FindIs(d, k, m + 1);
    }
  }

  lemma WriteSlotsOf(t: Table, s: SlotTable, key: string, value: string, k: string)
    requires Parallel(t, s) && WellFormed(t) && ValidKey(key) && ValidKey(k)
    ensures Parallel(WritePair(t, key, value), WriteSlots(t, s, key))
    ensures SlotsOf(WritePair(t, key, value), WriteSlots(t, s, key), k) == SlotsOf(t, s, k)
  {
    hide WellFormed, WriteChain, SlotsIn, Hash;
    WriteSlotsIn(t[Hash(key)], s[Hash(key)], key, value, k);
  }

  lemma FindAfterDelete(c: Chain, key: string, k: string)
    requires DistinctKeys(c) && Has(c, key)
    ensures var d, i, m := RemoveAt(c, Find(c, key)), Find(c, key), Find(c, k);
            Find(d, k) == if k == key then |d| else if m < i then m else m - 1
  {
    var d, i, m := RemoveAt(c, Find(c, key)), Find(c, key), Find(c, k);
    hide Find, Has;
    if k == key {
      FindIs(d, k, |d|);
    } else if m < i {
      FindIs(d, k, m);
    } else {
      FindIs(d, k, m - 1);
    }
  }

  lemma DeleteSlotsIn(c: Chain, fds: seq<Slots>, key: string, k: string)
    requires |fds| == |c| && DistinctKeys(c)
    ensures var fds' := if Has(c, key) then RemoveAt(fds, Find(c, key)) else fds;
            && |fds'| == |DeleteChain(c, key)|
            && SlotsIn(DeleteChain(c, key), fds', k) == if k == key then FREE else SlotsIn(c, fds, k)
  {
    if Has(c, key) {
      FindAfterDelete(c, key, k);
    }
    hide Find, Has, DistinctKeys;
  }

  lemma DeleteSlotsOf(t: Table, s: SlotTable, key: string, k: string)
    requires Parallel(t, s) && WellFormed(t) && ValidKey(key) && ValidKey(k)
    ensures Parallel(DeletePair(t, key), DeleteSlots(t, s, key))
    ensures SlotsOf(DeletePair(t, key), DeleteSlots(t, s, key), k) == if k == key then FREE else SlotsOf(t, s, k)
  {
    assert DistinctKeys(t[Hash(key)]);
    hide WellFormed, DeleteChain, SlotsIn, Hash;
    DeleteSlotsIn(t[Hash(key)], s[Hash(key)], key, k);
  }

  // Any mix of operations.

  datatype Op =
    | Write(key: string, value: string)
    | Delete(key: string)
    | Subscribe(key: string, fd: int)
    | Unsubscribe(key: string, fd: int)

  /** Keys the table can hold, descriptors that are not the free mark. */
  predicate ValidHistory(history: seq<Op>) {
    forall i :: 0 <= i < |history| ==>
      ValidKey(history[i].key) && ((history[i].Subscribe? || history[i].Unsubscribe?) ==> history[i].fd != 0)
  }

  function Do(t: Table, s: SlotTable, op: Op): (Table, SlotTable)
    requires Parallel(t, s) && ValidKey(op.key)
  {
    match op
    case Write(key, value) => (WritePair(t, key, value), WriteSlots(t, s, key))
    case Delete(key) => (DeletePair(t, key), DeleteSlots(t, s, key))
    case Subscribe(key, fd) => (t, AddSubscriber(t, s, key, fd).0)
    case Unsubscribe(key, fd) => (t, DropSubscriber(t, s, key, fd).0)
  }

  lemma DoKeepsParallel(t: Table, s: SlotTable, op: Op)
    requires Parallel(t, s) && ValidKey(op.key)
    ensures Parallel(Do(t, s, op).0, Do(t, s, op).1)
  {
  }

  const NO_SLOTS: SlotTable :=
    [[], [], [], [], [], [], [], [], [], [], [], [], [],
     [], [], [], [], [], [], [], [], [], [], [], [], []]

  function After(history: seq<Op>): (r: (Table, SlotTable))
    requires ValidHistory(history)
    ensures Parallel(r.0, r.1)
  {
    if history == [] then (EMPTY, NO_SLOTS)
    else
      var before := After(history[..|history| - 1]);
      DoKeepsParallel(before.0, before.1, history[|history| - 1]);
      Do(before.0, before.1, history[|history| - 1])
  }

  /** The history without its subscriptions. */
  function Erase(history: seq<Op>): seq<Listing.Op> {
    if history == [] then []
    else
      var init := Erase(history[..|history| - 1]);
      match history[|history| - 1]
      case Write(key, value) => init + [Listing.Put(key, value)]
      case Delete(key) => init + [Listing.Remove(key)]
      case Subscribe(_, _) => init
      case Unsubscribe(_, _) => init
  }

  /** Who subscribes `key`: a set of bounded size that a write leaves alone and a delete empties. */
  function SubscribersAfter(history: seq<Op>, key: string): set<int> {
    if history == [] then {}
    else
      var init := history[..|history| - 1];
      SubscribersStep(SubscribersAfter(init, key), key in Listing.MapAfter(Erase(init)), history[|history| - 1], key)
  }

  function SubscribersStep(subs: set<int>, live: bool, op: Op, key: string): set<int> {
    if op.key != key then subs
    else
      match op
      case Write(_, _) => subs
      case Delete(_) => {}
      case Subscribe(_, fd) => if live && |subs| < MAX_SESSION_COUNT then subs + {fd} else subs
      case Unsubscribe(_, fd) => if live then subs - {fd} else subs
  }

  /** Subscriptions never touch the pairs. */
  lemma {:induction false} PairsIgnoreSubscriptions(history: seq<Op>)
    requires ValidHistory(history)
    ensures Listing.ValidHistory(Erase(history))
    ensures After(history).0 == Listing.After(Erase(history))
  {
    if history != [] {
      var init, last := history[..|history| - 1], history[|history| - 1];
      PairsIgnoreSubscriptions(init);
      assert last.Write? ==> Erase(history)[..|Erase(init)|] == Erase(init);
      assert last.Delete? ==> Erase(history)[..|Erase(init)|] == Erase(init);
    }
  }

  ghost predicate Represents(fds: Slots, subs: set<int>) {
    NoDuplicates(fds) && Subscribers(fds) == subs
  }

  lemma SubscribeStep(t: Table, s: SlotTable, k: string, fd: int, key: string, subs: set<int>)
    requires Parallel(t, s) && ValidKey(k) && ValidKey(key) && fd != 0 && Represents(SlotsOf(t, s, key), subs)
    ensures var s' := AddSubscriber(t, s, k, fd).0;
            Parallel(t, s') && Represents(SlotsOf(t, s', key),
              SubscribersStep(subs, Has(t[Hash(key)], key), Subscribe(k, fd), key))
  {
    var fds := SlotsOf(t, s, key);
    SubscriberCount(fds);
    AddIsInsert(fds, fd);
    hide Subscribers, NoDuplicates, Add;
  }

  lemma UnsubscribeStep(t: Table, s: SlotTable, k: string, fd: int, key: string, subs: set<int>)
    requires Parallel(t, s) && ValidKey(k) && ValidKey(key) && fd != 0 && Represents(SlotsOf(t, s, key), subs)
    ensures var s' := DropSubscriber(t, s, k, fd).0;
            Parallel(t, s') && Represents(SlotsOf(t, s', key),
              SubscribersStep(subs, Has(t[Hash(key)], key), Unsubscribe(k, fd), key))
  {
    DropIsRemove(SlotsOf(t, s, key), fd);
    hide Subscribers, NoDuplicates, Drop;
  }

  lemma SlotsStep(t: Table, s: SlotTable, op: Op, key: string, subs: set<int>)
    requires Parallel(t, s) && WellFormed(t) && ValidKey(op.key) && ValidKey(key)
    requires op.Subscribe? || op.Unsubscribe? ==> op.fd != 0
    requires Represents(SlotsOf(t, s, key), subs)
    ensures Parallel(Do(t, s, op).0, Do(t, s, op).1)
    ensures Represents(SlotsOf(Do(t, s, op).0, Do(t, s, op).1, key),
              SubscribersStep(subs, Has(t[Hash(key)], key), op, key))
  {
    DoKeepsParallel(t, s, op);
    assert Represents(FREE, {});
    hide SlotsOf, Represents, WellFormed;
    match op {
      case Write(k, value) => WriteSlotsOf(t, s, k, value, key);
      case Delete(k) => DeleteSlotsOf(t, s, k, key);
      case Subscribe(k, fd) => SubscribeStep(t, s, k, fd, key, subs);
      case Unsubscribe(k, fd) => UnsubscribeStep(t, s, k, fd, key, subs);
    }
  }

  /** Writes and deletes of other keys, and overwrites, never touch the subscribers; the slots hold a set. */
  lemma {:induction false} SlotsHoldSubscribers(history: seq<Op>, key: string)
    requires ValidHistory(history) && ValidKey(key)
    ensures Represents(SlotsOf(After(history).0, After(history).1, key), SubscribersAfter(history, key))
    ensures |SubscribersAfter(history, key)| <= MAX_SESSION_COUNT && 0 !in SubscribersAfter(history, key)
  {
    if history == [] {
      assert Represents(FREE, {});
    } else {
      var init, last := history[..|history| - 1], history[|history| - 1];
      SlotsHoldSubscribers(init, key);
      var t, s := After(init).0, After(init).1;
      PairsIgnoreSubscriptions(init);
      Listing.AfterIsMapAfter(Erase(init));
      ReadIsLookup(t, key);
      SlotsStep(t, s, last, key, SubscribersAfter(init, key));
    }
    SubscriberCount(SlotsOf(After(history).0, After(history).1, key));
  }
}
