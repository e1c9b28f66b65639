/** Histories of writes, deletes and subscriptions: a bucket depends on its own operations only. */
module Histories {
  import opened Store
  import opened Slots
  import opened Subscriptions
  import Listing

  /** The operations on bucket `b`, in order. */
  function At(history: seq<Op>, b: int): seq<Op> {
    if history == [] then []
    else
      var last := history[|history| - 1];
      At(history[..|history| - 1], b) + if Hash(last.key) == b then [last] else []
  }

  lemma AtPush(history: seq<Op>, op: Op, b: int)
    ensures At(history + [op], b) == At(history, b) + if Hash(op.key) == b then [op] else []
  {
    assert (history + [op])[..|history|] == history;
  }

  lemma {:induction false} AtAppend(history: seq<Op>, more: seq<Op>, b: int)
    ensures At(history + more, b) == At(history, b) + At(more, b)
  {
    if more == [] {
      assert history + more == history;
    } else {
      var init, last := more[..|more| - 1], more[|more| - 1];
      AtAppend(history, init, b);
      assert history + more == history + init + [last];
      AtPush(history + init, last, b);
    }
  }

  lemma {:induction false} AtIsOn(history: seq<Op>, b: int)
    ensures forall i :: 0 <= i < |At(history, b)| ==> At(history, b)[i] in history && Hash(At(history, b)[i].key) == b
  {
    if history != [] {
      AtIsOn(history[..|history| - 1], b);
    }
  }

  lemma AtIsValid(history: seq<Op>, b: int)
    requires ValidHistory(history)
    ensures ValidHistory(At(history, b))
  {
    AtIsOn(history, b);
  }

  /** The two tables and their slots agree in bucket `b`. */
  predicate SameRow(r: (Table, SlotTable), q: (Table, SlotTable), b: nat)
    requires Parallel(r.0, r.1) && Parallel(q.0, q.1) && b < TABLE_SIZE
  {
    r.0[b] == q.0[b] && r.1[b] == q.1[b]
  }

  lemma DoIsLocal(r: (Table, SlotTable), q: (Table, SlotTable), op: Op, b: nat)
    requires Parallel(r.0, r.1) && Parallel(q.0, q.1) && ValidKey(op.key) && b < TABLE_SIZE && SameRow(r, q, b)
    ensures var r', q' := Do(r.0, r.1, op), Do(q.0, q.1, op);
            && Parallel(r'.0, r'.1) && Parallel(q'.0, q'.1)
            && SameRow(if Hash(op.key) == b then r' else r, q', b)
  {
    DoKeepsParallel(r.0, r.1, op);
    DoKeepsParallel(q.0, q.1, op);
    hide Find, Has, Add, Drop;
  }

  /** A bucket is what its own operations make of it. */
  lemma {:induction false} RowIsOwn(history: seq<Op>, b: nat)
    requires ValidHistory(history) && b < TABLE_SIZE
    ensures ValidHistory(At(history, b)) && SameRow(After(At(history, b)), After(history), b)
  {
    AtIsValid(history, b);
    if history != [] {
      var init, last := history[..|history| - 1], history[|history| - 1];
      RowIsOwn(init, b);
      var own := At(init, b);
      assert (own + [last])[..|own|] == own;
      DoIsLocal(After(own), After(init), last, b);
      assert own + [] == own;
    }
  }

  /** So histories that agree there leave the same bucket. */
  lemma RowsAgree(history: seq<Op>, other: seq<Op>, b: nat)
    requires ValidHistory(history) && ValidHistory(other) && b < TABLE_SIZE && At(history, b) == At(other, b)
    ensures SameRow(After(history), After(other), b)
  {
    RowIsOwn(history, b);
    RowIsOwn(other, b);
  }

  lemma SameSlots(history: seq<Op>, other: seq<Op>, key: string)
    requires ValidHistory(history) && ValidHistory(other) && ValidKey(key)
    requires At(history, Hash(key)) == At(other, Hash(key))
    ensures SlotsOf(After(history).0, After(history).1, key) == SlotsOf(After(other).0, After(other).1, key)
    ensures ReadPair(After(history).0, key) == ReadPair(After(other).0, key)
  {
    RowsAgree(history, other, Hash(key));
  }

  /** Whether a request succeeds: it must name a live key, and find room or its subscription there. */
  predicate Succeeds(history: seq<Op>, op: Op)
    requires op.Subscribe? || op.Unsubscribe?
  {
    var subs := SubscribersAfter(history, op.key);
    && op.key in Listing.MapAfter(Erase(history))
    && if op.Subscribe? then op.fd !in subs && |subs| < MAX_SESSION_COUNT else op.fd in subs
  }

  /** What the client is told. */
  function Answer(t: Table, s: SlotTable, op: Op): int
    requires Parallel(t, s) && ValidKey(op.key) && (op.Subscribe? || op.Unsubscribe?)
  {
    if op.Subscribe? then AddSubscriber(t, s, op.key, op.fd).1 else DropSubscriber(t, s, op.key, op.fd).1
  }

  /** The answer after any history is read off the map and the set of subscribers. */
  lemma AnswerMeans(history: seq<Op>, op: Op)
    requires ValidHistory(history) && (op.Subscribe? || op.Unsubscribe?) && ValidKey(op.key) && op.fd != 0
    ensures Answer(After(history).0, After(history).1, op) == if Succeeds(history, op) then 0 else 1
  {
    var t, s := After(history).0, After(history).1;
    SlotsHoldSubscribers(history, op.key);
    PairsIgnoreSubscriptions(history);
    Listing.AfterIsMapAfter(Erase(history));
    ReadIsLookup(t, op.key);
    AddIsInsert(SlotsOf(t, s, op.key), op.fd);
    DropIsRemove(SlotsOf(t, s, op.key), op.fd);
    hide WellFormed, NoDuplicates, Subscribers, SubscribersAfter, Erase, After;
  }

  lemma AnswersAgree(history: seq<Op>, other: seq<Op>, op: Op)
    requires ValidHistory(history) && ValidHistory(other) && ValidKey(op.key) && (op.Subscribe? || op.Unsubscribe?)
    requires At(history, Hash(op.key)) == At(other, Hash(op.key))
    ensures Answer(After(history).0, After(history).1, op) == Answer(After(other).0, After(other).1, op)
  {
    RowsAgree(history, other, Hash(op.key));
  }

  lemma {:induction false} EraseAppend(history: seq<Op>, more: seq<Op>)
    ensures Erase(history + more) == Erase(history) + Erase(more)
  {
    if more == [] {
      assert history + more == history;
    } else {
      var init, last := more[..|more| - 1], more[|more| - 1];
      EraseAppend(history, init);
      assert (history + more)[..|history + more| - 1] == history + init;
    }
  }
}
