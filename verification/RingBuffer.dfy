/** The ring buffer that hands registrations from the host thread to the session managers, one small step at a time. */
module RingBuffer {
  import opened Store

  /** The host thread: wait for space, read a record into the slot, move the index, announce it. */
  datatype HostPc = WaitSpace | Receive | MoveWrite | PostClient | Stopped

  /** A manager: wait for a client, lock, copy the record, move the index, unlock, give the space back, serve. */
  datatype ManagerPc = WaitClient | Enter | Copy | MoveRead | Leave | PostSpace | Serve

  datatype Manager = Manager(pc: ManagerPc, record: string)

  datatype Handover = Handover(manager: nat, record: string)

  /** `arrived` and `handed` only watch: the records read from the pipe, and who copied what, in order. */
  datatype State = State(slots: seq<string>, writeIndex: nat, readIndex: nat, space: nat, clients: nat,
                         mutex: Option<nat>, host: HostPc, managers: seq<Manager>,
                         arrived: seq<string>, handed: seq<Handover>)

  /** A buffer of `size` slots and any number of managers. */
  function Init(size: nat, managers: nat): State {
    State(seq(size, _ => ""), 0, 0, size, 0, None, WaitSpace, seq(managers, _ => Manager(WaitClient, "")), [], [])
  }

  /** Who moves. The host's `read` gives a record, or none at the end of the pipe. */
  datatype Action = HostStep(input: Option<string>) | ManagerStep(m: nat)

  predicate Shape(s: State) {
    0 < |s.slots| && s.writeIndex < |s.slots| && s.readIndex < |s.slots|
  }

  predicate Enabled(s: State, a: Action) {
    match a
    case HostStep(_) => s.host != Stopped && (s.host == WaitSpace ==> s.space > 0)
    case ManagerStep(m) =>
      && m < |s.managers|
      && (s.managers[m].pc == WaitClient ==> s.clients > 0)
      && (s.managers[m].pc == Enter ==> s.mutex.None?)
  }

  /** The slot of the `k`-th record: round and round. */
  function Slot(k: nat, n: nat): (i: nat)
    requires n > 0
    ensures i < n
  {
    if k == 0 then 0 else Next(Slot(k - 1, n), n)
  }

  /** What the program's `% MAX_SESSION_COUNT` does to an index. */
  function Next(i: nat, n: nat): (j: nat)
    requires i < n
    ensures j < n && j == if i + 1 == n then 0 else i + 1
  {
    (i + 1) % n
  }

  function HostDo(s: State, input: Option<string>): State
    requires Shape(s) && Enabled(s, HostStep(input))
  {
    match s.host
    case WaitSpace => s.(space := s.space - 1, host := Receive)
    case Receive =>
      if input.None? then s.(host := Stopped)
      else s.(slots := s.slots[s.writeIndex := input.value], arrived := s.arrived + [input.value], host := MoveWrite)
    case MoveWrite => s.(writeIndex := Next(s.writeIndex, |s.slots|), host := PostClient)
    case PostClient => s.(clients := s.clients + 1, host := WaitSpace)
    case Stopped => s
  }

  function ManagerDo(s: State, m: nat): State
    requires Shape(s) && Enabled(s, ManagerStep(m))
  {
    var me := s.managers[m];
    match me.pc
    case WaitClient => s.(clients := s.clients - 1, managers := s.managers[m := me.(pc := Enter)])
    case Enter => s.(mutex := Some(m), managers := s.managers[m := me.(pc := Copy)])
    case Copy =>
      var record := s.slots[s.readIndex];
      s.(handed := s.handed + [Handover(m, record)], managers := s.managers[m := Manager(MoveRead, record)])
    case MoveRead => s.(readIndex := Next(s.readIndex, |s.slots|), managers := s.managers[m := me.(pc := Leave)])
    case Leave => s.(mutex := None, managers := s.managers[m := me.(pc := PostSpace)])
    case PostSpace => s.(space := s.space + 1, managers := s.managers[m := me.(pc := Serve)])
    case Serve => s.(managers := s.managers[m := me.(pc := WaitClient)])
  }

  function Do(s: State, a: Action): State
    requires Shape(s) && Enabled(s, a)
  {
    match a
    case HostStep(input) => HostDo(s, input)
    case ManagerStep(m) => ManagerDo(s, m)
  }

  /** The state after a schedule. An action that is not enabled when its turn comes is skipped. */
  function After(size: nat, managers: nat, schedule: seq<Action>): (s: State)
    requires size > 0
    ensures Shape(s)
  {
    if schedule == [] then Init(size, managers)
    else
      var s, a := After(size, managers, schedule[..|schedule| - 1]), schedule[|schedule| - 1];
      if Enabled(s, a) then Do(s, a) else s
  }

  // Counting.

  /** Past the wait for a client, not yet through with the copy. */
  predicate Collecting(m: Manager) {
    m.pc == Enter || m.pc == Copy
  }

  /** Holding the space of the record it takes. */
  predicate Holding(m: Manager) {
    m.pc != WaitClient && m.pc != Serve
  }

  predicate Inside(m: Manager) {
    m.pc == Copy || m.pc == MoveRead || m.pc == Leave
  }

  function Count(p: Manager -> bool, ms: seq<Manager>): nat {
    if ms == [] then 0 else Count(p, ms[..|ms| - 1]) + if p(ms[|ms| - 1]) then 1 else 0
  }

  lemma {:induction false} CountUpdate(p: Manager -> bool, ms: seq<Manager>, m: nat, x: Manager)
    requires m < |ms|
    ensures Count(p, ms[m := x]) == Count(p, ms) - (if p(ms[m]) then 1 else 0) + (if p(x) then 1 else 0)
  {
    var init := ms[..|ms| - 1];
    if m < |init| {
      CountUpdate(p, init, m, x);
      assert ms[m := x][..|ms| - 1] == init[m := x];
    } else {
      assert ms[m := x][..|ms| - 1] == init;
    }
  }

  lemma {:induction false} CountPositive(p: Manager -> bool, ms: seq<Manager>)
    ensures Count(p, ms) > 0 <==> exists m :: 0 <= m < |ms| && p(ms[m])
  {
    if ms != [] {
      var init := ms[..|ms| - 1];
      CountPositive(p, init);
      assert (exists m :: 0 <= m < |init| && p(init[m])) ==> exists m :: 0 <= m < |ms| && p(ms[m]);
      assert forall m :: 0 <= m < |ms| ==> ms[m] == if m < |init| then init[m] else ms[|ms| - 1];
    }
  }

  lemma {:induction false} CountSmaller(p: Manager -> bool, q: Manager -> bool, ms: seq<Manager>)
    requires forall x :: p(x) ==> q(x)
    ensures Count(p, ms) <= Count(q, ms)
  {
    if ms != [] {
      CountSmaller(p, q, ms[..|ms| - 1]);
    }
  }

  /** The host's share of the tokens: the space it waited for, until it is announced as a client. */
  function HostHolds(host: HostPc): nat {
    if host == WaitSpace then 0 else 1
  }

  /** A record received but not yet announced. */
  function Unannounced(host: HostPc): nat {
    if host == MoveWrite || host == PostClient then 1 else 0
  }

  // The invariant.

  ghost predicate Tokens(s: State) {
    && s.space + HostHolds(s.host) + s.clients + Count(Holding, s.managers) == |s.slots|
    && |s.handed| + Count(Collecting, s.managers) + s.clients + Unannounced(s.host) == |s.arrived|
  }

  predicate MutexOk(s: State) {
    && (forall m :: 0 <= m < |s.managers| && Inside(s.managers[m]) ==> s.mutex == Some(m))
    && (s.mutex.Some? ==> s.mutex.value < |s.managers| && Inside(s.managers[s.mutex.value]))
  }

  /** Somebody copied a record and has not moved the index yet. */
  predicate Moving(s: State) {
    s.mutex.Some? && s.mutex.value < |s.managers| && s.managers[s.mutex.value].pc == MoveRead
  }

  predicate IndicesOk(s: State)
    requires Shape(s)
  {
    && Moved(s.readIndex, Moving(s), |s.handed|, |s.slots|)
    && Moved(s.writeIndex, s.host == MoveWrite, |s.arrived|, |s.slots|)
  }

  /** The index stands at the slot of record `k`, or one before while it is yet to be moved. */
  predicate Moved(index: nat, pending: bool, k: nat, n: nat)
    requires index < n
  {
    if pending then Next(index, n) == Slot(k, n) else index == Slot(k, n)
  }

  /** Every record not yet copied is still in its slot, and those copied went out in the order they came in. */
  predicate RecordsOk(s: State)
    requires 0 < |s.slots|
  {
    && |s.handed| <= |s.arrived|
    && (forall i :: |s.handed| <= i < |s.arrived| ==> s.slots[Slot(i, |s.slots|)] == s.arrived[i])
    && (forall i :: 0 <= i < |s.handed| ==> s.handed[i].record == s.arrived[i])
  }

  /** The record a manager copied last. */
  function LastOf(handed: seq<Handover>, m: nat): Option<string> {
    if handed == [] then None
    else if handed[|handed| - 1].manager == m then Some(handed[|handed| - 1].record)
    else LastOf(handed[..|handed| - 1], m)
  }

  predicate Served(s: State) {
    forall m :: 0 <= m < |s.managers| && s.managers[m].pc in {MoveRead, Leave, PostSpace, Serve} ==>
      LastOf(s.handed, m) == Some(s.managers[m].record)
  }

  ghost predicate Ok(s: State) {
    Shape(s) && Tokens(s) && MutexOk(s) && IndicesOk(s) && RecordsOk(s) && Served(s)
  }

  /** Fewer than `n` apart means different slots. */
  lemma DifferentSlots(i: nat, j: nat, n: nat)
    requires i < j < i + n
    ensures Slot(i, n) != Slot(j, n)
  {
    SlotsAhead(i, j - i, n);
  }

  lemma {:induction false} SlotsAhead(i: nat, d: nat, n: nat)
    requires d < n
    ensures Slot(i + d, n) == if Slot(i, n) + d < n then Slot(i, n) + d else Slot(i, n) + d - n
  {
    if d > 0 {
      SlotsAhead(i, d - 1, n);
    }
  }

  /** There is room for the record being received: no slot with an uncopied record is written. */
  lemma RoomToReceive(s: State)
    requires Ok(s) && s.host == Receive
    ensures |s.arrived| - |s.handed| < |s.slots|
    ensures forall i :: |s.handed| <= i < |s.arrived| ==> Slot(i, |s.slots|) != s.writeIndex
  {
    CountSmaller(Collecting, Holding, s.managers);
    forall i | |s.handed| <= i < |s.arrived| ensures Slot(i, |s.slots|) != s.writeIndex {
      DifferentSlots(i, |s.arrived|, |s.slots|);
    }
  }

  lemma HostStepOk(s: State, input: Option<string>)
    requires Ok(s) && Enabled(s, HostStep(input))
    ensures Ok(HostDo(s, input))
  {
    if s.host == Receive {
      RoomToReceive(s);
    }
  }

  lemma TokensKept(s: State, m: nat)
    requires Shape(s) && Tokens(s) && Enabled(s, ManagerStep(m))
    ensures Tokens(ManagerDo(s, m))
  {
    hide Shape;
    var me := ManagerDo(s, m).managers[m];
    CountUpdate(Holding, s.managers, m, me);
    CountUpdate(Collecting, s.managers, m, me);
  }

  lemma MutexKept(s: State, m: nat)
    requires Shape(s) && MutexOk(s) && Enabled(s, ManagerStep(m))
    ensures MutexOk(ManagerDo(s, m))
  {
  }

  lemma IndicesKept(s: State, m: nat)
    requires Shape(s) && MutexOk(s) && IndicesOk(s) && Enabled(s, ManagerStep(m))
    ensures IndicesOk(ManagerDo(s, m))
  {
    var s' := ManagerDo(s, m);
    MutexKept(s, m);
    assert s.managers[m].pc != Copy && s.managers[m].pc != MoveRead ==> Moving(s') == Moving(s);
  }

  /** The copy finds a record waiting, and it is the oldest. */
  lemma RecordsKept(s: State, m: nat)
    requires Ok(s) && Enabled(s, ManagerStep(m))
    ensures RecordsOk(ManagerDo(s, m))
  {
    if s.managers[m].pc == Copy {
      CountPositive(Collecting, s.managers);
      assert s.slots[Slot(|s.handed|, |s.slots|)] == s.arrived[|s.handed|];
    }
  }

  lemma ServedKept(s: State, m: nat)
    requires Shape(s) && Served(s) && Enabled(s, ManagerStep(m))
    ensures Served(ManagerDo(s, m))
  {
    if s.managers[m].pc == Copy {
      assert ManagerDo(s, m).handed[..|s.handed|] == s.handed;
    }
  }

  lemma ManagerStepOk(s: State, m: nat)
    requires Ok(s) && Enabled(s, ManagerStep(m))
    ensures Ok(ManagerDo(s, m))
  {
    TokensKept(s, m);
    IndicesKept(s, m);
    RecordsKept(s, m);
    MutexKept(s, m);
    ServedKept(s, m);
  }

  lemma {:induction false} CountNone(p: Manager -> bool, ms: seq<Manager>)
    requires forall m :: 0 <= m < |ms| ==> !p(ms[m])
    ensures Count(p, ms) == 0
  {
    CountPositive(p, ms);
  }

  lemma InitOk(size: nat, managers: nat)
    requires size > 0
    ensures Ok(Init(size, managers))
  {
    CountNone(Holding, Init(size, managers).managers);
    CountNone(Collecting, Init(size, managers).managers);
  }

  lemma StepOk(s: State, a: Action)
    requires Ok(s) && Enabled(s, a)
    ensures Ok(Do(s, a)) && |Do(s, a).slots| == |s.slots| && |Do(s, a).managers| == |s.managers|
  {
    match a
    case HostStep(input) => HostStepOk(s, input);
    case ManagerStep(m) => ManagerStepOk(s, m);
  }

  /**
   In every run: tokens balance, indices agree, no uncopied record is overwritten, records go out in
   arrival order.
   */
  lemma {:induction false} BufferAlwaysOk(size: nat, managers: nat, schedule: seq<Action>)
    requires size > 0
    ensures Ok(After(size, managers, schedule))
    ensures |After(size, managers, schedule).slots| == size && |After(size, managers, schedule).managers| == managers
  {
    if schedule == [] {
      InitOk(size, managers);
    } else {
      var init, a := schedule[..|schedule| - 1], schedule[|schedule| - 1];
      BufferAlwaysOk(size, managers, init);
      var s := After(size, managers, init);
      if Enabled(s, a) {
        StepOk(s, a);
      }
    }
  }

  /** While the host receives into a slot and a manager copies from one, the slots are different. */
  lemma NoTornCopy(size: nat, managers: nat, schedule: seq<Action>, m: nat)
    requires size > 0 && m < managers
    requires var s := After(size, managers, schedule); s.host == Receive && m < |s.managers| && s.managers[m].pc == Copy
    ensures var s := After(size, managers, schedule);
            s.writeIndex != s.readIndex && |s.handed| < |s.arrived| && s.slots[s.readIndex] == s.arrived[|s.handed|]
  {
    var s := After(size, managers, schedule);
    BufferAlwaysOk(size, managers, schedule);
    RoomToReceive(s);
    CountPositive(Collecting, s.managers);
  }

  /** A manager is always able to move unless it waits for a client, or for another manager that can move. */
  lemma SomeManagerMoves(s: State, m: nat) returns (a: Action)
    requires Ok(s) && m < |s.managers| && (s.managers[m].pc == WaitClient ==> s.clients > 0)
    ensures Enabled(s, a)
  {
    a := ManagerStep(if s.managers[m].pc == Enter && s.mutex.Some? then s.mutex.value else m);
  }

  /**
   With a manager to serve, the buffer never locks up; it only stands still when the host has stopped and
   all is handed over.
   */
  lemma NeverStuck(size: nat, managers: nat, schedule: seq<Action>)
    requires size > 0 && managers > 0
    ensures var s := After(size, managers, schedule);
            (forall a :: !Enabled(s, a)) ==> s.host == Stopped && |s.handed| == |s.arrived|
  {
    var s := After(size, managers, schedule);
    BufferAlwaysOk(size, managers, schedule);
    if forall a :: !Enabled(s, a) {
      assert !Enabled(s, HostStep(None));
      if m :| 0 <= m < |s.managers| && (s.managers[m].pc == WaitClient ==> s.clients > 0) {
        var a := SomeManagerMoves(s, m);
      }
      assert s.managers[0].pc == WaitClient && s.clients == 0;
      CountNone(Holding, s.managers);
      CountNone(Collecting, s.managers);
    }
  }
}
