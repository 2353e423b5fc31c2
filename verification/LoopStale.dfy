/** A run in which the loop dereferences an empty slot: a handler removes a channel whose readiness
    report is still waiting in the same batch (lib/event_loop.c:264-265). */
module LoopStale {
  import opened Channels
  import opened EventTables
  import opened LoopProtocol
  import opened LoopKernel
  import opened LoopCalls
  import Connections

  // ---- the crash --------------------------------------------------------------------------------

  lemma RemoveEmpties(t: Table<nat>, e: Entry<nat>)
    requires e.kind == Remove && Registered(t, e.fd, e.chan)
    ensures var r := Apply(t, e);
      r.Applied? && 0 <= e.fd < |r.table.slots| && r.table.slots[e.fd] == Empty
  {
  }

  lemma EmptySlotCrashes(s: State)
    requires |s.pcs| > 0 && |s.chans| > 0 && s.outcome.Applied? && s.pcs[OWNER].Batch? && s.pcs[OWNER].todo != []
    requires var fd, slots := s.pcs[OWNER].todo[0].fd, s.outcome.table.slots; 0 <= fd < |slots| && slots[fd] == Empty
    ensures Enabled(s, Activate) && Do(s, Activate).outcome == Crash
  {
  }

  /** From any state in which a handler runs and the next report is for another registered channel:
      if the handler removes that channel, the next activation crashes. */
  lemma StaleReportCrashes(s: State, c: nat)
    requires Calm(s) && 0 < c < |s.chans| && s.pcs[OWNER].Batch?
    requires s.pcs[OWNER].todo != [] && s.pcs[OWNER].todo[0].fd == s.chans[c].fd
    requires Registered(s.outcome.table, s.chans[c].fd, c)
    ensures var r := Execute(s, SubmitCalls(Op(Remove, c)) + DrainCalls() + [Activate]);
      r.At? && r.state.outcome == Crash
  {
    hide Execute, Enabled, Do, Apply, Registered, SubmitCalls, DrainCalls;
    var op := Op(Remove, c);
    RemoveEmpties(s.outcome.table, EntryFor(s.chans, op));
    OwnerCall(s, op);
    var n := Execute(s, SubmitCalls(op) + DrainCalls()).state;
    EmptySlotCrashes(n);
    Execute1(n, Activate);
    ExecuteJoin(s, SubmitCalls(op) + DrainCalls(), n, [Activate]);
  }

  // ---- a run that reaches it --------------------------------------------------------------------

  function Watching(fd: int): Chan {
    Chan(fd, false, Connections.State([], [], EVENT_READ, 0, []))
  }

  /** A loop with its wakeup socket on descriptor 3, and two channels for descriptors 4 and 5. */
  function FirstState(): State {
    var chans := [Watching(3), Watching(4), Watching(5)];
    var add := EntryFor(chans, Op(Add, WAKE));
    State([Setup], Free, false, [], 0, chans, Apply(EmptyTable(), add), false, [Op(Add, WAKE)], [add], 1)
  }

  /** Both channels are added, the loop starts, one wait reports both, and the first is activated. */
  function Prelude(): seq<Action> {
    (SubmitCalls(Op(Add, 1)) + DrainCalls()) + (SubmitCalls(Op(Add, 2)) + DrainCalls())
    + [StartRun] + [Wake([Ready(4, false), Ready(5, false)])] + [Activate]
  }

  /** Its handler removes the second channel; then the second report is served. */
  function StaleRun(): seq<Action> {
    Prelude() + (SubmitCalls(Op(Remove, 2)) + DrainCalls() + [Activate])
  }

  ghost predicate Has(t: Table<nat>, fd: int, c: nat) {
    Registered(t, fd, c) && fd in t.interest && t.interest[fd] == ToEpoll(EVENT_READ)
  }

  ghost predicate Vacant(t: Table<nat>, fd: int) {
    0 <= fd && (fd < |t.slots| ==> t.slots[fd] == Empty) && fd !in t.interest
  }

  lemma AddRegisters(t: Table<nat>, c: nat, fd: int, other: int, d: nat)
    requires Vacant(t, fd) && other != fd
    ensures var r := Apply(t, Entry(Add, c, fd, EVENT_READ));
      && r.Applied? && Has(r.table, fd, c)
      && (Has(t, other, d) ==> Has(r.table, other, d))
      && (Vacant(t, other) ==> Vacant(r.table, other))
  {
  }

  lemma FirstIsInit()
    ensures var s := FirstState();
      && Init(s) && Calm(s) && Vacant(s.outcome.table, 4) && Vacant(s.outcome.table, 5)
  {
    hide Widen, Capacity;
    var s := FirstState();
    var add := s.applied[0];
    assert s.applied[..0] == [];
    assert ApplyAll(EmptyTable<nat>(), []) == Applied(EmptyTable());
    assert ApplyAll(EmptyTable(), s.applied) == Apply(EmptyTable(), add);
  }

  /** The two additions, the start of the loop, the wait and the first activation. */
  lemma ReachesBatch()
    ensures var r := Execute(FirstState(), Prelude());
      && r.At? && Calm(r.state) && r.state.chans == FirstState().chans
      && r.state.pcs[OWNER] == Batch([Ready(5, false)], true) && Registered(r.state.outcome.table, 5, 2)
  {
    hide Execute, Apply, SubmitCalls, DrainCalls;
    var s0 := FirstState();
    FirstIsInit();
    var first, second := SubmitCalls(Op(Add, 1)) + DrainCalls(), SubmitCalls(Op(Add, 2)) + DrainCalls();
    AddRegisters(s0.outcome.table, 1, 4, 5, 2);
    OwnerCall(s0, Op(Add, 1));
    var s1 := Execute(s0, first).state;
    AddRegisters(s1.outcome.table, 2, 5, 4, 1);
    OwnerCall(s1, Op(Add, 2));
    var s2 := Execute(s1, second).state;
    ExecuteJoin(s0, first, s1, second);
    BatchFrom(s2);
    var wake := Wake([Ready(4, false), Ready(5, false)]);
    var s3, s4 := Do(s2, StartRun), Do(Do(s2, StartRun), wake);
    Execute1(s2, StartRun);
    ExecuteJoin(s0, first + second, s2, [StartRun]);
    Execute1(s3, wake);
    ExecuteJoin(s0, first + second + [StartRun], s3, [wake]);
    Execute1(s4, Activate);
    ExecuteJoin(s0, first + second + [StartRun] + [wake], s4, [Activate]);
  }

  lemma BatchFrom(s: State)
    requires s.pcs == [Setup] && Calm(s) && s.chans == FirstState().chans
    requires Has(s.outcome.table, 4, 1) && Has(s.outcome.table, 5, 2)
    ensures var wake := Wake([Ready(4, false), Ready(5, false)]);
      && Enabled(s, StartRun) && Enabled(Do(s, StartRun), wake)
      && Enabled(Do(Do(s, StartRun), wake), Activate)
      && var n := Do(Do(Do(s, StartRun), wake), Activate);
         && Calm(n) && n.chans == s.chans && n.outcome == s.outcome
         && n.pcs[OWNER] == Batch([Ready(5, false)], true)
  {
    var a, b := Ready(4, false), Ready(5, false);
    var m := Do(s, StartRun);
    assert ReadEnabled(EVENT_READ);
    assert Reportable(m, a) && Reportable(m, b);
    assert [a, b][1..] == [b];
  }

  /** The run starts from a fresh loop, takes only steps the protocol allows, and crashes. */
  lemma StaleRunCrashes()
    ensures Init(FirstState())
    ensures var r := Execute(FirstState(), StaleRun()); r.At? && r.state.outcome == Crash
  {
    hide Execute, SubmitCalls, DrainCalls, Registered, Prelude;
    FirstIsInit();
    ReachesBatch();
    var s := Execute(FirstState(), Prelude()).state;
    StaleReportCrashes(s, 2);
    ExecuteJoin(FirstState(), Prelude(), s, SubmitCalls(Op(Remove, 2)) + DrainCalls() + [Activate]);
  }
}
