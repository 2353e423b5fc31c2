/** What a handler's writes do to a connection, and how write reports drain its output
    (lib/tcp_connection.c, lib/event_loop.c, lib/epoll_dispatcher.c:130-157). */
module LoopDelivery {
  import opened Channels
  import opened EventTables
  import opened LoopProtocol
  import opened LoopInvariants
  import opened LoopKernel
  import opened LoopTheorems
  import opened LoopCalls
  import Connections

  // ---- one step -----------------------------------------------------------------------------------

  /** How many of `size` bytes a write takes. */
  function Took(w: Connections.WriteResult, size: nat): (k: nat)
    ensures k <= size
  {
    if w.WriteFailed? then 0 else if w.n < size then w.n else size
  }

  /** Only the connection behind `c` changed, and the owner submits an update exactly when its mask did. */
  ghost predicate Touches(s: State, s': State, c: nat, submitted: bool)
    requires s.pcs != [] && s.pcs[OWNER].Batch? && c < |s.chans|
  {
    && s'.pcs == (if submitted then s.pcs[OWNER := Submit(Op(Update, c), ToBatch(s.pcs[OWNER].todo))] else s.pcs)
    && |s'.chans| == |s.chans| && (forall d :: 0 <= d < |s.chans| && d != c ==> s'.chans[d] == s.chans[d])
    && s'.chans[c].fd == s.chans[c].fd && s'.chans[c].isConn == s.chans[c].isConn
    && s' == s.(pcs := s'.pcs, chans := s'.chans)
  }

  lemma FlushIsHandled(s: State, c: nat, w: Connections.WriteResult)
    requires Enabled(s, Flush(c, w))
    ensures |s.pcs| > 0 && s.pcs[OWNER].Batch? && s.pcs[OWNER].running && c < |s.chans|
    ensures Do(s, Flush(c, w)) == Handled(s, c, s.chans[c].conn.Flush(w))
  {
    hide Handled, Connections.State.Flush;
  }

  lemma SendIsHandled(s: State, c: nat, xs: seq<char>, before: char, w: Connections.WriteResult)
    requires Enabled(s, Send(c, xs, before, w))
    ensures |s.pcs| > 0 && s.pcs[OWNER].Batch? && s.pcs[OWNER].running && c < |s.chans|
    ensures Do(s, Send(c, xs, before, w)) == Handled(s, c, s.chans[c].conn.Send(xs, before, w))
  {
    hide Handled, Connections.State.Send;
  }

  lemma HandledTouches(s: State, c: nat, conn: Connections.State)
    requires |s.pcs| > 0 && s.pcs[OWNER].Batch? && s.pcs[OWNER].running && c < |s.chans|
    ensures var s' := Handled(s, c, conn);
      && |s'.chans| == |s.chans| && s'.chans[c].conn == conn
      && Touches(s, s', c, conn.updates != s.chans[c].conn.updates)
  {
  }

  /** A write handler: the kernel takes bytes from the front of the output, in order; the last of them
      switches EVENT_WRITE off and submits the update. */
  lemma FlushStep(s: State, c: nat, w: Connections.WriteResult)
    requires Enabled(s, Flush(c, w))
    ensures var s' := Do(s, Flush(c, w));
      var conn, k := s.chans[c].conn, Took(w, |s.chans[c].conn.output|);
      && |s'.chans| == |s.chans|
      && var conn' := s'.chans[c].conn;
         var last := k > 0 && k == |conn.output|;
         && Touches(s, s', c, last)
         && conn'.wire == conn.wire + conn.output[..k] && conn'.output == conn.output[k..]
         && conn'.input == conn.input
         && conn'.events == if last then conn.events & !EVENT_WRITE else conn.events
  {
    hide Do, Enabled, Handled, Touches, Connections.State.Flush;
    FlushIsHandled(s, c, w);
    HandledTouches(s, c, s.chans[c].conn.Flush(w));
    Connections.FlushSplits(s.chans[c].conn, w);
  }

  /** A send from a handler: what the kernel takes is on the wire, the rest behind the output; if that
      turns EVENT_WRITE on, the update is submitted. `before` joins in only after a failed direct write. */
  lemma SendStep(s: State, c: nat, xs: seq<char>, before: char, w: Connections.WriteResult)
    requires Enabled(s, Send(c, xs, before, w)) && s.chans[c].conn.Watched()
    ensures var s' := Do(s, Send(c, xs, before, w));
      var conn := s.chans[c].conn;
      var k := if conn.output == [] then Took(w, |xs|) else 0;
      var stray := if conn.output == [] && w.WriteFailed? then [before] else [];
      && |s'.chans| == |s.chans|
      && var conn' := s'.chans[c].conn;
         && conn'.wire == conn.wire + xs[..k] && conn'.output == conn.output + stray + xs[k..]
         && conn'.input == conn.input
         && Touches(s, s', c, conn.output == [] && conn'.output != [])
         && conn'.events == if conn'.output != [] then conn.events | EVENT_WRITE else conn.events
  {
    hide Do, Enabled, Handled, Touches, Connections.State.Send;
    SendIsHandled(s, c, xs, before, w);
    var conn := s.chans[c].conn;
    HandledTouches(s, c, conn.Send(xs, before, w));
    Connections.SendSplits(conn, xs, before, w);
    assert xs[0..] == xs && [] + xs == xs;
    EnableTwice(conn.events);
  }

  lemma EnableTwice(events: bv8)
    ensures events & EVENT_WRITE != 0 ==> events | EVENT_WRITE == events
  {
  }

  /** A change of a plain channel's mask is submitted too. */
  lemma AlterStep(s: State, t: nat, c: nat, events: bv8)
    requires Enabled(s, Alter(t, c, events))
    ensures var s' := Do(s, Alter(t, c, events));
      && t < |s.pcs| == |s'.pcs| && |s'.chans| == |s.chans| && s'.chans[c].conn.events == events
      && s'.pcs[t].Submit? && s'.pcs[t].op == Op(Update, c)
      && (forall d :: 0 <= d < |s.chans| && d != c ==> s'.chans[d] == s.chans[d])
  {
    hide Apply, Fire, HasHandler;
  }

  /** In every reachable state a handler's write keeps what was handed to the connection: after a
      flush wire and output together are unchanged; after a send the bytes sent end them. */
  lemma HandlersKeepStream(s0: State, actions: seq<Action>, c: nat, xs: seq<char>, before: char, w: Connections.WriteResult)
    requires Init(s0) && Execute(s0, actions).At?
    ensures var s := Execute(s0, actions).state;
      && (Enabled(s, Flush(c, w)) ==>
            var conn, s' := s.chans[c].conn, Do(s, Flush(c, w));
            && |s'.chans| == |s.chans|
            && var conn' := s'.chans[c].conn;
               && conn'.wire + conn'.output == conn.wire + conn.output
               && |conn'.output| == |conn.output| - Took(w, |conn.output|))
      && (Enabled(s, Send(c, xs, before, w)) ==>
            var conn, s' := s.chans[c].conn, Do(s, Send(c, xs, before, w));
            && |s'.chans| == |s.chans|
            && var conn' := s'.chans[c].conn;
               conn'.wire + conn'.output == conn.wire + conn.output
                 + (if conn.output == [] && w.WriteFailed? then [before] else []) + xs)
  {
    hide Do, Enabled, Took, Inv;
    Always(s0, actions);
    var s := Execute(s0, actions).state;
    if Enabled(s, Flush(c, w)) {
      FlushKeepsStream(s, c, w);
    }
    if Enabled(s, Send(c, xs, before, w)) {
      SendKeepsStream(s, c, xs, before, w);
    }
  }

  lemma FlushKeepsStream(s: State, c: nat, w: Connections.WriteResult)
    requires Enabled(s, Flush(c, w))
    ensures c < |s.chans| == |Do(s, Flush(c, w)).chans|
    ensures var conn, conn' := s.chans[c].conn, Do(s, Flush(c, w)).chans[c].conn;
      && conn'.wire + conn'.output == conn.wire + conn.output
      && |conn'.output| == |conn.output| - Took(w, |conn.output|)
  {
    hide Do, Enabled, Touches;
    FlushIsHandled(s, c, w);
    FlushStep(s, c, w);
    CutAt(s.chans[c].conn.wire, s.chans[c].conn.output, Took(w, |s.chans[c].conn.output|));
  }

  lemma SendKeepsStream(s: State, c: nat, xs: seq<char>, before: char, w: Connections.WriteResult)
    requires Inv(s) && Enabled(s, Send(c, xs, before, w))
    ensures c < |s.chans| == |Do(s, Send(c, xs, before, w)).chans|
    ensures var conn, conn' := s.chans[c].conn, Do(s, Send(c, xs, before, w)).chans[c].conn;
      conn'.wire + conn'.output == conn.wire + conn.output
        + (if conn.output == [] && w.WriteFailed? then [before] else []) + xs
  {
    hide Do, Enabled, Touches, Inv;
    ConnIsWatched(s, Send(c, xs, before, w));
    SendStep(s, c, xs, before, w);
    var conn := s.chans[c].conn;
    if conn.output == [] {
      CutAt(conn.wire, xs, Took(w, |xs|));
    }
  }

  lemma CutAt(wire: seq<char>, xs: seq<char>, k: nat)
    requires k <= |xs|
    ensures wire + xs[..k] + xs[k..] == wire + xs
  {
  }

  lemma ConnIsWatched(s: State, a: Action)
    requires Inv(s) && Enabled(s, a) && a.Send?
    ensures a.chan < |s.chans| && s.chans[a.chan].conn.Watched()
  {
  }

  /** A report that reaches a registered channel runs its handler, which may call into the loop for any
      channel, and, for connections, send or flush. */
  lemma ReportRunsHandler(s: State, c: nat)
    requires Inv(s) && Enabled(s, Activate) && 0 < c < |s.chans|
    requires s.pcs[OWNER].todo[0].fd == s.chans[c].fd && Registered(s.outcome.table, s.chans[c].fd, c)
    ensures var s' := Do(s, Activate);
      && s' == s.(pcs := s.pcs[OWNER := Batch(s.pcs[OWNER].todo[1..], true)])
      && (forall op :: OpOk(s.chans, op) ==> Enabled(s', Begin(OWNER, op)))
      && (forall d, events :: 0 < d < |s.chans| && !s.chans[d].isConn ==> Enabled(s', Alter(OWNER, d, events)))
      && (forall d, w :: 0 <= d < |s.chans| && s.chans[d].isConn ==> Enabled(s', Flush(d, w)))
      && (forall d, xs, before, w :: 0 <= d < |s.chans| && s.chans[d].isConn ==> Enabled(s', Send(d, xs, before, w)))
  {
    hide Apply, ApplyAll;
  }

  /** A report for the wakeup socket takes its byte and runs no handler. */
  lemma WakeReportTakesByte(s: State)
    requires Inv(s) && Enabled(s, Activate) && s.pcs[OWNER].todo[0].fd == s.chans[WAKE].fd
    ensures s.bytes > 0
    ensures Do(s, Activate) ==
            s.(pcs := s.pcs[OWNER := Batch(s.pcs[OWNER].todo[1..], false)], bytes := s.bytes - 1)
  {
    hide Apply, ApplyAll;
  }

  // ---- a call from another thread -------------------------------------------------------------------

  /** Submitted by thread `t`, with a byte for the owner; the owner wakes, takes the byte, and drains. */
  function RemoteCalls(t: nat, op: Op): seq<Action> {
    [Begin(t, op)] + [Acquire(t)] + [Append(t)] + [Release(t)] + [Branch(t)]
  }

  function OwnerWakes(fd: int): seq<Action> {
    [Wake([Ready(fd, false)])] + [Activate] + [EndBatch] + [EnterDrain] + [ApplyNext] + [FinishDrain]
  }

  ghost predicate Sleeping(s: State) {
    && Inv(s) && s.pcs[OWNER] == Waiting && s.lock == Free && s.pending == [] && s.bytes == 0 && s.outcome.Applied?
  }

  lemma RemoteSteps(s: State, t: nat, op: Op)
    requires Sleeping(s) && OWNER < t < |s.pcs| && s.pcs[t] == Idle && OpOk(s.chans, op)
    ensures var a := Begin(t, op);
      && Enabled(s, a) && Enabled(Do(s, a), Acquire(t))
      && Do(Do(s, a), Acquire(t)) == s.(pcs := s.pcs[t := Holding(op, ToIdle)], lock := Held(t))
  {
    hide Apply, ApplyAll;
    assert s.pcs[t := Submit(op, ToIdle)][t := Holding(op, ToIdle)] == s.pcs[t := Holding(op, ToIdle)];
    assert !s.flag && !s.asserted;
  }

  lemma RemoteStepsOut(s: State, t: nat, op: Op)
    requires OWNER < t < |s.pcs| && |s.chans| > 0 && s.outcome.Applied? && s.pcs[t] == Holding(op, ToIdle)
    ensures Enabled(s, Append(t)) && Enabled(Do(s, Append(t)), Release(t))
    ensures Enabled(Do(Do(s, Append(t)), Release(t)), Branch(t))
    ensures Do(Do(Do(s, Append(t)), Release(t)), Branch(t)) ==
            s.(pcs := s.pcs[t := Idle], lock := Free, bytes := s.bytes + 1,
               pending := s.pending + [op], enqueued := s.enqueued + [op])
  {
    hide Apply, ApplyAll;
    assert s.pcs[t := Appended(ToIdle)][t := Released(ToIdle)][t := Idle] == s.pcs[t := Idle];
  }

  lemma RemoteRuns(s: State, t: nat, op: Op)
    requires Sleeping(s) && OWNER < t < |s.pcs| && s.pcs[t] == Idle && OpOk(s.chans, op)
    ensures Execute(s, RemoteCalls(t, op)) ==
            At(s.(bytes := 1, pending := [op], enqueued := s.enqueued + [op]))
  {
    hide Execute, Do, Enabled, Apply, ApplyAll, PcsOk, MutexOk, HistoryOk, TableOk, WakeupOk, WakeRegistered, ReportsOk;
    RemoteSteps(s, t, op);
    var b := Do(Do(s, Begin(t, op)), Acquire(t));
    RemoteStepsOut(b, t, op);
    var c, d := Do(b, Append(t)), Do(Do(b, Append(t)), Release(t));
    Execute4(s, Begin(t, op), Acquire(t), Append(t), Release(t));
    Execute1(d, Branch(t));
    ExecuteJoin(s, [Begin(t, op)] + [Acquire(t)] + [Append(t)] + [Release(t)], d, [Branch(t)]);
    assert s.pcs[t := Holding(op, ToIdle)][t := Idle] == s.pcs;
    assert [] + [op] == [op];
  }

  lemma WakeSteps(s: State)
    requires Inv(s) && s.pcs[OWNER] == Waiting && s.bytes > 0 && s.outcome.Applied?
    ensures var wake := Wake([Ready(s.chans[WAKE].fd, false)]);
      && Enabled(s, wake) && Enabled(Do(s, wake), Activate)
      && Do(Do(s, wake), Activate) ==
         s.(pcs := s.pcs[OWNER := Batch([], false)], bytes := s.bytes - 1, wokeAt := |s.applied|)
  {
    hide Apply, ApplyAll;
    var r := Ready(s.chans[WAKE].fd, false);
    assert ReadEnabled(EVENT_READ);
    assert Reportable(s, r);
    assert [r][1..] == [];
    assert s.pcs[OWNER := Batch([r], false)][OWNER := Batch([], false)] == s.pcs[OWNER := Batch([], false)];
  }

  lemma EnterSteps(s: State)
    requires |s.pcs| > 0 && |s.chans| > 0 && s.outcome.Applied? && s.lock == Free
    requires s.pcs[OWNER].Batch? && s.pcs[OWNER].todo == []
    ensures Enabled(s, EndBatch) && Enabled(Do(s, EndBatch), EnterDrain)
    ensures Do(Do(s, EndBatch), EnterDrain) ==
            s.(pcs := s.pcs[OWNER := Draining(0, ToWait)], lock := Held(OWNER), flag := true)
  {
    hide Apply, ApplyAll;
    assert s.pcs[OWNER := Enter(ToWait)][OWNER := Draining(0, ToWait)] == s.pcs[OWNER := Draining(0, ToWait)];
  }

  lemma OwnerRuns(s: State, op: Op)
    requires Inv(s) && s.pcs[OWNER] == Waiting && s.lock == Free && s.bytes == 1 && s.pending == [op]
    requires s.outcome.Applied? && OpOk(s.chans, op) && Apply(s.outcome.table, EntryFor(s.chans, op)).Applied?
    ensures Execute(s, OwnerWakes(s.chans[WAKE].fd)) ==
            At(s.(bytes := 0, pending := [], wokeAt := |s.applied|,
                  outcome := Apply(s.outcome.table, EntryFor(s.chans, op)),
                  applied := s.applied + [EntryFor(s.chans, op)]))
  {
    hide Execute, Do, Enabled, Apply, ApplyAll, EntryFor;
    var wake := Wake([Ready(s.chans[WAKE].fd, false)]);
    WakeSteps(s);
    assert !s.flag;
    hide PcsOk, MutexOk, HistoryOk, TableOk, WakeupOk, WakeRegistered, ReportsOk, ConnsOk, Inv;
    var b := Do(Do(s, wake), Activate);
    EnterSteps(b);
    var d := Do(Do(b, EndBatch), EnterDrain);
    OwnerApplies(d, op);
    Execute4(s, wake, Activate, EndBatch, EnterDrain);
    var e := Do(d, ApplyNext);
    Execute1(d, ApplyNext);
    ExecuteJoin(s, [wake] + [Activate] + [EndBatch] + [EnterDrain], d, [ApplyNext]);
    Execute1(e, FinishDrain);
    ExecuteJoin(s, [wake] + [Activate] + [EndBatch] + [EnterDrain] + [ApplyNext], e, [FinishDrain]);
    assert s.pcs[OWNER := Batch([], false)][OWNER := Draining(0, ToWait)][OWNER := Waiting] == s.pcs;
  }

  /** Any operation that another thread submits while the owner sleeps reaches slots and kernel, and both
      threads are back where they were. */
  lemma RemoteCallApplied(s: State, t: nat, op: Op)
    requires Sleeping(s) && OWNER < t < |s.pcs| && s.pcs[t] == Idle && OpOk(s.chans, op)
    requires Apply(s.outcome.table, EntryFor(s.chans, op)).Applied?
    ensures Execute(s, RemoteCalls(t, op) + OwnerWakes(s.chans[WAKE].fd)) ==
            At(s.(wokeAt := |s.applied|, outcome := Apply(s.outcome.table, EntryFor(s.chans, op)),
                  enqueued := s.enqueued + [op], applied := s.applied + [EntryFor(s.chans, op)]))
  {
    hide Execute, Do, Enabled, Apply, ApplyAll, EntryFor, RemoteCalls, OwnerWakes, Inv;
    RemoteRuns(s, t, op);
    var m := Execute(s, RemoteCalls(t, op)).state;
    ReachedInv(s, RemoteCalls(t, op));
    OwnerRuns(m, op);
    ExecuteJoin(s, RemoteCalls(t, op), m, OwnerWakes(s.chans[WAKE].fd));
  }

  lemma {:induction false} ReachedInv(s: State, actions: seq<Action>)
    requires Inv(s) && Execute(s, actions).At?
    ensures Inv(Execute(s, actions).state)
  {
    hide Inv, Do, Enabled;
    if actions != [] {
      ReachedInv(s, actions[..|actions| - 1]);
      StepKeepsInv(Execute(s, actions[..|actions| - 1]).state, actions[|actions| - 1]);
    }
  }

  // ---- draining a connection ------------------------------------------------------------------------

  /** The owner waits, nothing is pending, and connection `c` is registered with its present mask. */
  ghost predicate Quiet(s: State, c: nat) {
    && |s.pcs| > 0 && 0 < c < |s.chans| && s.chans[c].isConn && s.chans[c].fd != s.chans[WAKE].fd
    && s.pcs[OWNER] == Waiting && s.lock == Free && !s.flag && !s.asserted && s.pending == []
    && s.outcome.Applied? && Registered(s.outcome.table, s.chans[c].fd, c)
    && s.chans[c].fd in s.outcome.table.interest
    && s.outcome.table.interest[s.chans[c].fd] == ToEpoll(s.chans[c].conn.events)
    && s.chans[c].conn.Watched()
  }

  /** A wait that reports the descriptor writable, its handler's write, ... */
  function ServeCalls(fd: int, c: nat, w: Connections.WriteResult): seq<Action> {
    [Wake([Ready(fd, true)])] + [Activate] + [Flush(c, w)]
  }

  /** ... if the output is empty now, the update it submits, ... */
  function UpdateCalls(): seq<Action> {
    [Acquire(OWNER)] + [Append(OWNER)] + [Release(OWNER)] + DrainCalls()
  }

  /** ... and the way back to the next wait. */
  function BackCalls(): seq<Action> {
    [EndBatch] + [EnterDrain] + [FinishDrain]
  }

  function Round(fd: int, c: nat, w: Connections.WriteResult, last: bool): seq<Action> {
    ServeCalls(fd, c, w) + (if last then UpdateCalls() else []) + BackCalls()
  }

  lemma Served(s: State, c: nat)
    requires Quiet(s, c) && s.chans[c].conn.output != []
    ensures var wake := Wake([Ready(s.chans[c].fd, true)]);
      && Enabled(s, wake) && Enabled(Do(s, wake), Activate)
      && Do(Do(s, wake), Activate) == s.(pcs := s.pcs[OWNER := Batch([], true)], wokeAt := |s.applied|)
  {
    hide Apply, ApplyAll;
    var r := Ready(s.chans[c].fd, true);
    assert Reportable(s, r);
    var m := Do(s, Wake([r]));
    assert [r][1..] == [];
    assert s.pcs[OWNER := Batch([r], false)][OWNER := Batch([], true)] == s.pcs[OWNER := Batch([], true)];
  }

  lemma ServeRuns(s: State, c: nat, w: Connections.WriteResult)
    requires Quiet(s, c) && s.chans[c].conn.output != []
    ensures var m := s.(pcs := s.pcs[OWNER := Batch([], true)], wokeAt := |s.applied|);
      && Enabled(m, Flush(c, w))
      && Execute(s, ServeCalls(s.chans[c].fd, c, w)) == At(Do(m, Flush(c, w)))
  {
    hide Execute, Do, Reportable, Apply, ApplyAll;
    var wake := Wake([Ready(s.chans[c].fd, true)]);
    Served(s, c);
    var a, m := Do(s, wake), Do(Do(s, wake), Activate);
    Execute1(s, wake);
    Execute1(a, Activate);
    ExecuteJoin(s, [wake], a, [Activate]);
    Execute1(m, Flush(c, w));
    ExecuteJoin(s, [wake] + [Activate], m, [Flush(c, w)]);
  }

  lemma AcquireStep(s: State)
    requires |s.pcs| > 0 && |s.chans| > 0 && s.outcome.Applied? && s.pcs[OWNER].Submit? && s.lock == Free && !s.flag
    ensures Enabled(s, Acquire(OWNER))
    ensures Do(s, Acquire(OWNER)) ==
            s.(pcs := s.pcs[OWNER := Holding(s.pcs[OWNER].op, s.pcs[OWNER].back)], lock := Held(OWNER))
  {
  }

  /** A submitted operation is appended and drained; the owner goes on where it was. */
  lemma UpdateRuns(s: State, op: Op)
    requires |s.pcs| > 0 && s.outcome.Applied? && s.lock == Free && !s.flag && s.pending == []
    requires s.pcs[OWNER].Submit? && s.pcs[OWNER].op == op && OpOk(s.chans, op)
    requires Apply(s.outcome.table, EntryFor(s.chans, op)).Applied?
    ensures Execute(s, UpdateCalls()) ==
            At(s.(pcs := s.pcs[OWNER := Resume(s.pcs[OWNER].back)],
                  outcome := Apply(s.outcome.table, EntryFor(s.chans, op)),
                  enqueued := s.enqueued + [op], applied := s.applied + [EntryFor(s.chans, op)]))
  {
    hide Execute, Do, Enabled, Apply, EntryFor, Resume, DrainCalls;
    AcquireStep(s);
    var a := Do(s, Acquire(OWNER));
    OwnerAppends(a, op);
    var b, m := Do(a, Append(OWNER)), Do(Do(a, Append(OWNER)), Release(OWNER));
    Execute1(s, Acquire(OWNER));
    Execute1(a, Append(OWNER));
    ExecuteJoin(s, [Acquire(OWNER)], a, [Append(OWNER)]);
    Execute1(b, Release(OWNER));
    ExecuteJoin(s, [Acquire(OWNER)] + [Append(OWNER)], b, [Release(OWNER)]);
    assert [] + [op] == [op];
    DrainByOwner(m, op);
    ExecuteJoin(s, [Acquire(OWNER)] + [Append(OWNER)] + [Release(OWNER)], m, DrainCalls());
    var back := s.pcs[OWNER].back;
    assert m.pcs[OWNER] == Released(back);
    assert m.pcs[OWNER := Resume(back)] == s.pcs[OWNER := Resume(back)];
  }

  lemma BackSteps(s: State)
    requires |s.pcs| > 0 && |s.chans| > 0 && s.outcome.Applied? && s.lock == Free && !s.flag && s.pending == []
    requires s.pcs[OWNER].Batch? && s.pcs[OWNER].todo == []
    ensures Enabled(s, EndBatch) && Enabled(Do(s, EndBatch), EnterDrain)
    ensures Enabled(Do(Do(s, EndBatch), EnterDrain), FinishDrain)
    ensures Do(Do(Do(s, EndBatch), EnterDrain), FinishDrain) == s.(pcs := s.pcs[OWNER := Waiting])
  {
    hide Apply, ApplyAll;
    assert s.pcs[OWNER := Enter(ToWait)][OWNER := Draining(0, ToWait)] == s.pcs[OWNER := Draining(0, ToWait)];
    assert s.pcs[OWNER := Draining(0, ToWait)][OWNER := Waiting] == s.pcs[OWNER := Waiting];
  }

  lemma BackRuns(s: State)
    requires |s.pcs| > 0 && |s.chans| > 0 && s.outcome.Applied? && s.lock == Free && !s.flag && s.pending == []
    requires s.pcs[OWNER].Batch? && s.pcs[OWNER].todo == []
    ensures Execute(s, BackCalls()) == At(s.(pcs := s.pcs[OWNER := Waiting]))
  {
    hide Execute, Do, Enabled;
    BackSteps(s);
    var a, b := Do(s, EndBatch), Do(Do(s, EndBatch), EnterDrain);
    Execute1(s, EndBatch);
    Execute1(a, EnterDrain);
    ExecuteJoin(s, [EndBatch], a, [EnterDrain]);
    Execute1(b, FinishDrain);
    ExecuteJoin(s, [EndBatch] + [EnterDrain], b, [FinishDrain]);
  }

  /** The kernel's mask after the update. */
  lemma UpdateWatches(t: Table<nat>, e: Entry<nat>)
    requires e.kind == Update && Registered(t, e.fd, e.chan) && e.fd in t.interest
    ensures Apply(t, e) == Applied(t.(interest := t.interest[e.fd := ToEpoll(e.events)]))
  {
  }

  /** One round: the write's bytes have gone from the output to the wire, and the loop waits again with
      the connection's present mask. */
  lemma RoundDrains(s: State, c: nat, w: Connections.WriteResult)
    requires Quiet(s, c) && s.chans[c].conn.output != [] && w.Wrote? && w.n > 0
    ensures var conn, k := s.chans[c].conn, Took(w, |s.chans[c].conn.output|);
      var r := Execute(s, Round(s.chans[c].fd, c, w, k == |conn.output|));
      && k > 0 && r.At? && Quiet(r.state, c) && r.state.chans[c].fd == s.chans[c].fd
      && r.state.chans[c].conn.wire == conn.wire + conn.output[..k]
      && r.state.chans[c].conn.output == conn.output[k..]
  {
    hide Execute, Do, Enabled, Apply, ServeCalls, UpdateCalls, BackCalls, Registered, Connections.State.Watched;
    var fd, conn, k := s.chans[c].fd, s.chans[c].conn, Took(w, |s.chans[c].conn.output|);
    var m := s.(pcs := s.pcs[OWNER := Batch([], true)], wokeAt := |s.applied|);
    ServeRuns(s, c, w);
    FlushStep(m, c, w);
    FlushIsHandled(m, c, w);
    var n, last := Do(m, Flush(c, w)), k == |conn.output|;
    StillWatched(conn, n.chans[c].conn, last);
    if last {
      var op := Op(Update, c);
      UpdateWatches(n.outcome.table, EntryFor(n.chans, op));
      UpdateRuns(n, op);
      var u := Execute(n, UpdateCalls()).state;
      ExecuteJoin(s, ServeCalls(fd, c, w), n, UpdateCalls());
      assert u.pcs[OWNER] == Batch([], true);
      BackRuns(u);
      ExecuteJoin(s, ServeCalls(fd, c, w) + UpdateCalls(), u, BackCalls());
      RegisteredStays(n.outcome.table, u.outcome.table, fd, c);
    } else {
      assert ServeCalls(fd, c, w) + [] == ServeCalls(fd, c, w);
      BackRuns(n);
      ExecuteJoin(s, ServeCalls(fd, c, w), n, BackCalls());
    }
  }

  lemma StillWatched(conn: Connections.State, conn': Connections.State, last: bool)
    requires conn.Watched() && conn.output != []
    requires last <==> conn'.output == []
    requires conn'.events == if last then conn.events & !EVENT_WRITE else conn.events
    ensures conn'.Watched()
  {
  }

  lemma RegisteredStays(t: Table<nat>, t': Table<nat>, fd: int, c: nat)
    requires Registered(t, fd, c) && t'.slots == t.slots
    ensures Registered(t', fd, c)
  {
  }

  /** Rounds until the output is empty or the writes are used up. */
  function Rounds(fd: int, c: nat, size: nat, ws: seq<Connections.WriteResult>): seq<Action> {
    if size == 0 || ws == [] then []
    else
      var k := Took(ws[0], size);
      Round(fd, c, ws[0], k == size) + Rounds(fd, c, size - k, ws[1..])
  }

  /** As many write reports as there are bytes, each with a write that takes at least one, drain the
      output: the wire ends with it, and the kernel no longer watches for writability. */
  lemma {:induction false} OutputDrains(s: State, c: nat, ws: seq<Connections.WriteResult>)
    requires Quiet(s, c) && |ws| >= |s.chans[c].conn.output|
    requires forall i :: 0 <= i < |ws| ==> ws[i].Wrote? && ws[i].n > 0
    ensures var conn := s.chans[c].conn;
      var r := Execute(s, Rounds(s.chans[c].fd, c, |conn.output|, ws));
      && r.At? && Quiet(r.state, c) && r.state.chans[c].fd == s.chans[c].fd
      && r.state.chans[c].conn.wire == conn.wire + conn.output && r.state.chans[c].conn.output == []
      && r.state.outcome.table.interest[s.chans[c].fd] & EPOLLOUT == 0
    decreases |ws|
  {
    hide Execute, Round, Took, Registered;
    var fd, conn := s.chans[c].fd, s.chans[c].conn;
    if conn.output == [] {
      ExecuteNothing(s);
      assert conn.wire + [] == conn.wire;
    } else {
      var k := Took(ws[0], |conn.output|);
      RoundDrains(s, c, ws[0]);
      var first := Round(fd, c, ws[0], k == |conn.output|);
      var m := Execute(s, first).state;
      OutputDrains(m, c, ws[1..]);
      ExecuteJoin(s, first, m, Rounds(fd, c, |conn.output| - k, ws[1..]));
      CutAt(conn.wire, conn.output, k);
    }
  }

  lemma ExecuteNothing(s: State)
    ensures Execute(s, []) == At(s)
  {
  }

  /** From every reachable state at rest: a registered connection with unsent bytes is drained by as
      many write reports as it has bytes. */
  lemma ReachableOutputDrains(s0: State, actions: seq<Action>, c: nat, ws: seq<Connections.WriteResult>)
    requires Init(s0) && Execute(s0, actions).At?
    requires var s := Execute(s0, actions).state;
      && AtRest(s) && s.outcome.Applied? && OwnUpdates(s.applied)
      && c < |s.chans| && s.chans[c].isConn && Registered(s.outcome.table, s.chans[c].fd, c)
      && |ws| >= |s.chans[c].conn.output|
    requires forall i :: 0 <= i < |ws| ==> ws[i].Wrote? && ws[i].n > 0
    ensures var s := Execute(s0, actions).state;
      var conn := s.chans[c].conn;
      var r := Execute(s, Rounds(s.chans[c].fd, c, |conn.output|, ws));
      && r.At? && c < |r.state.chans|
      && r.state.chans[c].conn.wire == conn.wire + conn.output && r.state.chans[c].conn.output == []
  {
    hide Execute, Rounds, Do, Enabled, OwnUpdates, Registered;
    NoStuckOutput(s0, actions);
    Always(s0, actions);
    RestIsQuiet(Execute(s0, actions).state, c);
    OutputDrains(Execute(s0, actions).state, c, ws);
  }

  lemma RestIsQuiet(s: State, c: nat)
    requires Inv(s) && AtRest(s) && s.outcome.Applied? && s.pending == []
    requires c < |s.chans| && s.chans[c].isConn && Registered(s.outcome.table, s.chans[c].fd, c)
    requires s.chans[c].fd in s.outcome.table.interest
    requires s.outcome.table.interest[s.chans[c].fd] == ToEpoll(s.chans[c].conn.events)
    ensures Quiet(s, c)
  {
    hide ApplyAll, Apply;
    assert forall t :: 0 <= t < |s.pcs| ==> !HoldsMutex(s.pcs[t]);
    assert s.lock == Free;
  }
}
