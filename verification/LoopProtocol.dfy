/** Threads that share one event loop (lib/event_loop.c): a step system whose steps are the
    places where threads can interleave. Thread 0 owns the loop. */
module LoopProtocol {
  import opened Channels
  import opened EventTables
  import Connections

  const OWNER: nat := 0
  /** The channel of the loop's own wakeup socket. */
  const WAKE: nat := 0

  datatype Op = Op(kind: Kind, chan: nat)

  /** A readiness report of `epoll_wait`. */
  datatype Ready = Ready(fd: int, write: bool)

  /** Where a thread goes on after a submission or a drain. */
  datatype Back = ToIdle | ToSetup | ToBatch(todo: seq<Ready>) | ToWait

  datatype Pc =
    | Idle                            // outside the loop's functions
    | Setup                           // owner, before event_loop_run
    | Waiting                         // owner, in epoll_wait
    | Batch(todo: seq<Ready>, running: bool) // owner, serving reports; a handler is running
    | Submit(op: Op, back: Back)      // about to lock, event_loop.c:161
    | Holding(op: Op, back: Back)     // mutex held, before the append
    | Appended(back: Back)            // mutex held, after the append
    | Released(back: Back)            // before the branch, event_loop.c:166
    | Enter(back: Back)               // about to lock for a drain, event_loop.c:120
    | Draining(k: nat, back: Back)    // mutex held, next list element is k

  function Resume(back: Back): Pc {
    match back
    case ToIdle => Idle
    case ToSetup => Setup
    case ToBatch(todo) => Batch(todo, true)
    case ToWait => Waiting
  }

  datatype Lock = Free | Held(tid: nat)

  /** `conn` is the state of the connection behind the channel; a channel that is not a
      connection's keeps its events there. */
  datatype Chan = Chan(fd: int, isConn: bool, conn: Connections.State)

  datatype State = State(
    pcs: seq<Pc>,
    lock: Lock,
    flag: bool,                        // is_handle_pending
    pending: seq<Op>,                  // the linked list
    bytes: nat,                        // unread wakeup bytes
    chans: seq<Chan>,
    outcome: Outcome<nat>,             // slots and kernel, or a crash
    asserted: bool,                    // the assertion of event_loop.c:162 has failed
    // what happened so far
    enqueued: seq<Op>,                 // in mutex order
    applied: seq<Entry<nat>>,
    wokeAt: nat)                       // how many were applied when epoll_wait last returned

  datatype Action =
    | Begin(t: nat, op: Op)
    | Alter(t: nat, chan: nat, events: bv8)
    | Send(chan: nat, xs: seq<char>, before: char, w: Connections.WriteResult)
    | Flush(chan: nat, w: Connections.WriteResult)
    | Acquire(t: nat)
    | Append(t: nat)
    | Release(t: nat)
    | Branch(t: nat)
    | EnterDrain
    | ApplyNext
    | FinishDrain
    | StartRun
    | Wake(ready: seq<Ready>)
    | Activate
    | EndBatch

  /** The thread runs user code that may call into the loop. */
  predicate InUserCode(pc: Pc) {
    pc.Idle? || pc.Setup? || (pc.Batch? && pc.running)
  }

  function BackOf(pc: Pc): Back
    requires InUserCode(pc)
  {
    match pc
    case Idle => ToIdle
    case Setup => ToSetup
    case Batch(todo, _) => ToBatch(todo)
  }

  function EntryFor(chans: seq<Chan>, op: Op): Entry<nat>
    requires op.chan < |chans|
  {
    Entry(op.kind, op.chan, chans[op.chan].fd, chans[op.chan].conn.events)
  }

  function OwnerPc(s: State): Pc
    requires s.pcs != []
  {
    s.pcs[OWNER]
  }

  /** `epoll_wait` reports registered descriptors that asked for the event; the wakeup socket
      is readable exactly while it holds unread bytes. */
  predicate Reportable(s: State, r: Ready)
    requires s.chans != [] && s.outcome.Applied?
  {
    var interest := s.outcome.table.interest;
    && r.fd in interest
    && interest[r.fd] & (if r.write then EPOLLOUT else EPOLLIN) != 0
    && (r.fd == s.chans[WAKE].fd ==> !r.write && s.bytes > 0)
  }

  predicate Distinct(ready: seq<Ready>) {
    forall i, j :: 0 <= i < j < |ready| ==> ready[i] != ready[j]
  }

  /** The wakeup channel is the loop's own: no caller has it. */
  predicate OpOk(chans: seq<Chan>, op: Op) {
    0 < op.chan < |chans|
  }

  predicate Enabled(s: State, a: Action) {
    s.pcs != [] && s.chans != [] && s.outcome.Applied? &&
    match a
    case Begin(t, op) => t < |s.pcs| && InUserCode(s.pcs[t]) && OpOk(s.chans, op)
    case Alter(t, c, _) => t < |s.pcs| && InUserCode(s.pcs[t]) && 0 < c < |s.chans| && !s.chans[c].isConn
    case Send(c, _, _, _) => OwnerPc(s).Batch? && OwnerPc(s).running && c < |s.chans| && s.chans[c].isConn
    case Flush(c, _) => OwnerPc(s).Batch? && OwnerPc(s).running && c < |s.chans| && s.chans[c].isConn
    case Acquire(t) => t < |s.pcs| && s.pcs[t].Submit? && s.lock == Free
    case Append(t) => t < |s.pcs| && s.pcs[t].Holding?
    case Release(t) => t < |s.pcs| && s.pcs[t].Appended?
    case Branch(t) => t < |s.pcs| && s.pcs[t].Released?
    case EnterDrain => OwnerPc(s).Enter? && s.lock == Free
    case ApplyNext => OwnerPc(s).Draining? && OwnerPc(s).k < |s.pending| && OpOk(s.chans, s.pending[OwnerPc(s).k])
    case FinishDrain => OwnerPc(s).Draining? && OwnerPc(s).k == |s.pending|
    case StartRun => OwnerPc(s).Setup?
    case Wake(ready) => OwnerPc(s).Waiting? && Distinct(ready) && forall i :: 0 <= i < |ready| ==> Reportable(s, ready[i])
    case Activate => OwnerPc(s).Batch? && OwnerPc(s).todo != []
    case EndBatch => OwnerPc(s).Batch? && OwnerPc(s).todo == []
  }

  function Goto(s: State, t: nat, pc: Pc): State
    requires t < |s.pcs|
  {
    s.(pcs := s.pcs[t := pc])
  }

  /** A handler changed the connection behind `c`; a changed mask is then submitted. */
  function Handled(s: State, c: nat, conn: Connections.State): State
    requires s.pcs != [] && OwnerPc(s).Batch? && OwnerPc(s).running && c < |s.chans|
  {
    var s' := s.(chans := s.chans[c := s.chans[c].(conn := conn)]);
    if conn.updates == s.chans[c].conn.updates then s'
    else Goto(s', OWNER, Submit(Op(Update, c), BackOf(OwnerPc(s))))
  }

  /** `channel_event_activate` on the first report: the slot must hold a channel. */
  function Fire(s: State, r: Ready): Outcome<nat>
    requires s.outcome.Applied?
  {
    var slots := s.outcome.table.slots;
    if 0 <= r.fd < |slots| && slots[r.fd] == Empty then Crash else s.outcome
  }

  /** The report reaches a channel whose handler is not the loop's own. */
  predicate HasHandler(s: State, r: Ready)
    requires s.chans != [] && s.outcome.Applied?
  {
    var slots := s.outcome.table.slots;
    r.fd != s.chans[WAKE].fd && 0 <= r.fd < |slots| && slots[r.fd].Holds?
  }

  function Do(s: State, a: Action): State
    requires Enabled(s, a)
  {
    match a
    case Begin(t, op) => Goto(s, t, Submit(op, BackOf(s.pcs[t])))
    case Alter(t, c, events) =>
      var s' := s.(chans := s.chans[c := s.chans[c].(conn := s.chans[c].conn.(events := events))]);
      Goto(s', t, Submit(Op(Update, c), BackOf(s.pcs[t])))
    case Send(c, xs, before, w) => Handled(s, c, s.chans[c].conn.Send(xs, before, w))
    case Flush(c, w) => Handled(s, c, s.chans[c].conn.Flush(w))
    case Acquire(t) =>
      Goto(s, t, Holding(s.pcs[t].op, s.pcs[t].back)).(lock := Held(t), asserted := s.asserted || s.flag)
    case Append(t) =>
      Goto(s, t, Appended(s.pcs[t].back)).(pending := s.pending + [s.pcs[t].op], enqueued := s.enqueued + [s.pcs[t].op])
    case Release(t) => Goto(s, t, Released(s.pcs[t].back)).(lock := Free)
    case Branch(t) =>
      if t == OWNER then Goto(s, t, Enter(s.pcs[t].back))
      else Goto(s, t, Resume(s.pcs[t].back)).(bytes := s.bytes + 1)
    case EnterDrain => Goto(s, OWNER, Draining(0, OwnerPc(s).back)).(lock := Held(OWNER), flag := true)
    case ApplyNext =>
      var k := OwnerPc(s).k;
      var e := EntryFor(s.chans, s.pending[k]);
      Goto(s, OWNER, Draining(k + 1, OwnerPc(s).back))
        .(outcome := Apply(s.outcome.table, e), applied := s.applied + [e])
    case FinishDrain =>
      Goto(s, OWNER, Resume(OwnerPc(s).back)).(pending := [], flag := false, lock := Free)
    case StartRun => Goto(s, OWNER, Waiting)
    case Wake(ready) => Goto(s, OWNER, Batch(ready, false)).(wokeAt := |s.applied|)
    case Activate =>
      var r := OwnerPc(s).todo[0];
      Goto(s, OWNER, Batch(OwnerPc(s).todo[1..], HasHandler(s, r)))
        .(outcome := Fire(s, r),
          bytes := if r.fd == s.chans[WAKE].fd && s.bytes > 0 then s.bytes - 1 else s.bytes)
    case EndBatch => Goto(s, OWNER, Enter(ToWait))
  }

  /** After `event_loop_init`: the owner has added the wakeup channel itself. */
  ghost predicate Init(s: State) {
    && |s.pcs| > 0 && s.pcs[OWNER] == Setup
    && (forall t :: 0 < t < |s.pcs| ==> s.pcs[t] == Idle)
    && s.lock == Free && !s.flag && !s.asserted && s.pending == [] && s.bytes == 0
    && |s.chans| > 0 && s.chans[WAKE].fd >= 0 && !s.chans[WAKE].isConn
    && s.chans[WAKE].conn.events == EVENT_READ
    && (forall c :: 0 < c < |s.chans| ==> s.chans[c].fd != s.chans[WAKE].fd)
    && (forall c :: 0 <= c < |s.chans| && s.chans[c].isConn ==> s.chans[c].conn.Watched())
    && s.enqueued == [Op(Add, WAKE)]
    && s.applied == [EntryFor(s.chans, Op(Add, WAKE))]
    && s.outcome == ApplyAll(EmptyTable(), s.applied)
    && s.wokeAt == 1
  }

  /** Any interleaving: the actions of all threads in one sequence. */
  datatype Execution = Stuck | At(state: State)

  function Execute(s: State, actions: seq<Action>): Execution {
    if actions == [] then At(s)
    else match Execute(s, actions[..|actions| - 1])
      case Stuck => Stuck
      case At(m) => if Enabled(m, actions[|actions| - 1]) then At(Do(m, actions[|actions| - 1])) else Stuck
  }

  // ---- what every interleaving keeps ------------------------------------------------------

  predicate HoldsMutex(pc: Pc) {
    pc.Holding? || pc.Appended? || pc.Draining?
  }

  /** The owner takes no submitter's return address, other threads take only theirs. */
  predicate PcOk(pc: Pc, owner: bool) {
    match pc
    case Idle => !owner
    case Submit(_, back) => if owner then back.ToSetup? || back.ToBatch? else back.ToIdle?
    case Holding(_, back) => if owner then back.ToSetup? || back.ToBatch? else back.ToIdle?
    case Appended(back) => if owner then back.ToSetup? || back.ToBatch? else back.ToIdle?
    case Released(back) => if owner then back.ToSetup? || back.ToBatch? else back.ToIdle?
    case Enter(back) => owner && !back.ToIdle?
    case Draining(_, back) => owner && !back.ToIdle?
    case _ => owner
  }

  ghost predicate PcsOk(s: State) {
    && |s.pcs| > 0 && |s.chans| > 0 && !s.chans[WAKE].isConn
    && (forall t :: 0 <= t < |s.pcs| ==> PcOk(s.pcs[t], t == OWNER))
    && (forall t :: 0 <= t < |s.pcs| && (s.pcs[t].Submit? || s.pcs[t].Holding?) ==> OpOk(s.chans, s.pcs[t].op))
    && (forall i :: 0 <= i < |s.pending| ==> OpOk(s.chans, s.pending[i]))
  }

  /** One thread at a time is between lock and unlock, and it is the holder; the flag is up
      only while that thread drains. */
  ghost predicate MutexOk(s: State) {
    && |s.pcs| > 0
    && (forall t :: 0 <= t < |s.pcs| ==> (HoldsMutex(s.pcs[t]) <==> s.lock == Held(t)))
    && (s.lock.Held? ==> s.lock.tid < |s.pcs|)
    && (s.flag <==> s.pcs[OWNER].Draining?)
    && !s.asserted
  }

  /** How many list elements the running drain has dealt with. */
  function Done(s: State): nat
    requires |s.pcs| > 0
  {
    if s.pcs[OWNER].Draining? then s.pcs[OWNER].k else 0
  }

  function OpsOf(es: seq<Entry<nat>>): (ops: seq<Op>)
    ensures |ops| == |es|
    ensures forall i :: 0 <= i < |es| ==> ops[i] == Op(es[i].kind, es[i].chan)
  {
    seq(|es|, i requires 0 <= i < |es| => Op(es[i].kind, es[i].chan))
  }

  /** Linearisation: applied, then still pending, is everything enqueued in mutex order; and
      slots and kernel are what draining the applied operations gives. */
  ghost predicate HistoryOk(s: State) {
    && |s.pcs| > 0 && Done(s) <= |s.pending|
    && OpsOf(s.applied) + s.pending[Done(s)..] == s.enqueued
    && (forall i :: 0 <= i < |s.applied| ==>
          s.applied[i].chan < |s.chans| && s.applied[i].fd == s.chans[s.applied[i].chan].fd)
  }

  /** A drain that crashed has crashed on the history; so has a handler on a null slot. */
  ghost predicate TableOk(s: State) {
    s.outcome.Applied? ==> s.outcome == ApplyAll(EmptyTable(), s.applied) && Agreeing(s.outcome.table)
  }

  /** The owner drains before it waits again. */
  predicate WillDrain(pc: Pc) {
    !pc.Setup? && !pc.Waiting?
  }

  /** A submitter that has appended but not yet written its wakeup byte. */
  ghost predicate AboutToWake(s: State) {
    exists t :: OWNER < t < |s.pcs| && (s.pcs[t].Appended? || s.pcs[t].Released?)
  }

  /** No lost wakeup. */
  ghost predicate WakeupOk(s: State) {
    |s.pcs| > 0 && (s.pending != [] ==> s.bytes > 0 || AboutToWake(s) || WillDrain(s.pcs[OWNER]))
  }

  /** The wakeup socket stays registered for reading. */
  ghost predicate WakeRegistered(s: State) {
    && |s.chans| > 0 && s.chans[WAKE].fd >= 0
    && (forall c :: 0 < c < |s.chans| ==> s.chans[c].fd != s.chans[WAKE].fd)
    && (s.outcome.Applied? ==>
          s.chans[WAKE].fd in s.outcome.table.interest && s.outcome.table.interest[s.chans[WAKE].fd] == ToEpoll(EVENT_READ))
  }

  /** Between handlers, unsent bytes and EVENT_WRITE go together. */
  ghost predicate ConnsOk(s: State) {
    forall c :: 0 <= c < |s.chans| && s.chans[c].isConn ==> s.chans[c].conn.Watched()
  }

  /** The reports the owner still has to serve. */
  function TodoOf(pc: Pc): seq<Ready> {
    match pc
    case Batch(todo, _) => todo
    case Submit(_, back) => TodoBack(back)
    case Holding(_, back) => TodoBack(back)
    case Appended(back) => TodoBack(back)
    case Released(back) => TodoBack(back)
    case Enter(back) => TodoBack(back)
    case Draining(_, back) => TodoBack(back)
    case _ => []
  }

  function TodoBack(back: Back): seq<Ready> {
    if back.ToBatch? then back.todo else []
  }

  ghost predicate RemovedSince(s: State, n: nat, fd: int) {
    exists i :: n <= i < |s.applied| && s.applied[i].kind == Remove && s.applied[i].fd == fd
  }

  /** A report names a registered descriptor, unless it was removed since `epoll_wait`
      returned; a report for the wakeup socket has its byte. */
  ghost predicate ReportsOk(s: State) {
    && |s.pcs| > 0 && |s.chans| > 0
    && s.wokeAt <= |s.applied|
    && var todo := TodoOf(s.pcs[OWNER]);
      && Distinct(todo)
      && (forall i :: 0 <= i < |todo| ==> todo[i].fd >= 0)
      && (forall i :: 0 <= i < |todo| && todo[i].fd == s.chans[WAKE].fd ==> !todo[i].write && s.bytes > 0)
      && (s.outcome.Applied? ==> forall i :: 0 <= i < |todo| ==>
            todo[i].fd in s.outcome.table.interest || RemovedSince(s, s.wokeAt, todo[i].fd))
  }
}
