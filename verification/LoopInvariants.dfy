/** Every step of every thread keeps the invariants of the event loop protocol. */
module LoopInvariants {
  import opened Channels
  import opened EventTables
  import opened LoopProtocol
  import Connections

  ghost predicate Inv(s: State) {
    && PcsOk(s) && MutexOk(s) && HistoryOk(s) && TableOk(s) && WakeupOk(s)
    && WakeRegistered(s) && ConnsOk(s) && ReportsOk(s)
  }

  lemma InitInv(s: State)
    requires Init(s)
    ensures Inv(s)
  {
    var e := s.applied[0];
    assert s.applied[..0] == [];
    assert ApplyAll(EmptyTable(), s.applied[..0]) == Applied(EmptyTable<nat>());
    assert s.outcome == Apply(EmptyTable(), e);
  }

  /** Each action moves one thread. */
  function Mover(a: Action): nat {
    match a
    case Begin(t, _) => t
    case Alter(t, _, _) => t
    case Acquire(t) => t
    case Append(t) => t
    case Release(t) => t
    case Branch(t) => t
    case _ => OWNER
  }

  /** Actions of code that runs on top of the loop. */
  predicate ByUser(a: Action) {
    a.Begin? || a.Alter? || a.Send? || a.Flush?
  }

  lemma OneMoves(s: State, a: Action)
    requires PcsOk(s) && Enabled(s, a)
    ensures Mover(a) < |s.pcs| && Do(s, a).pcs == s.pcs[Mover(a) := Do(s, a).pcs[Mover(a)]]
    ensures |Do(s, a).chans| == |s.chans|
    ensures forall c :: 0 <= c < |s.chans| ==>
              Do(s, a).chans[c].isConn == s.chans[c].isConn && Do(s, a).chans[c].fd == s.chans[c].fd
    ensures Do(s, a).pending == [] || Do(s, a).pending == s.pending ||
            (s.pcs[Mover(a)].Holding? && Do(s, a).pending == s.pending + [s.pcs[Mover(a)].op])
  {
    hide Do;
    if ByUser(a) {
      OneMovesByUser(s, a);
    } else {
      OneMovesInLoop(s, a);
    }
  }

  lemma OneMovesByUser(s: State, a: Action)
    requires PcsOk(s) && Enabled(s, a)
    requires ByUser(a)
    ensures Mover(a) < |s.pcs| && Do(s, a).pcs == s.pcs[Mover(a) := Do(s, a).pcs[Mover(a)]]
    ensures |Do(s, a).chans| == |s.chans|
    ensures forall c :: 0 <= c < |s.chans| ==>
              Do(s, a).chans[c].isConn == s.chans[c].isConn && Do(s, a).chans[c].fd == s.chans[c].fd
    ensures Do(s, a).pending == [] || Do(s, a).pending == s.pending ||
            (s.pcs[Mover(a)].Holding? && Do(s, a).pending == s.pending + [s.pcs[Mover(a)].op])
  {
  }

  lemma OneMovesInLoop(s: State, a: Action)
    requires PcsOk(s) && Enabled(s, a)
    requires !ByUser(a)
    ensures Mover(a) < |s.pcs| && Do(s, a).pcs == s.pcs[Mover(a) := Do(s, a).pcs[Mover(a)]]
    ensures |Do(s, a).chans| == |s.chans|
    ensures forall c :: 0 <= c < |s.chans| ==>
              Do(s, a).chans[c].isConn == s.chans[c].isConn && Do(s, a).chans[c].fd == s.chans[c].fd
    ensures Do(s, a).pending == [] || Do(s, a).pending == s.pending ||
            (s.pcs[Mover(a)].Holding? && Do(s, a).pending == s.pending + [s.pcs[Mover(a)].op])
  {
  }

  lemma MoverPcOk(s: State, a: Action)
    requires PcsOk(s) && Enabled(s, a)
    ensures Mover(a) < |Do(s, a).pcs|
    ensures var pc := Do(s, a).pcs[Mover(a)];
      PcOk(pc, Mover(a) == OWNER) && (pc.Submit? || pc.Holding? ==> OpOk(s.chans, pc.op))
  {
    hide Do;
    if ByUser(a) {
      MoverPcOkByUser(s, a);
    } else {
      MoverPcOkInLoop(s, a);
    }
  }

  lemma MoverPcOkByUser(s: State, a: Action)
    requires PcsOk(s) && Enabled(s, a)
    requires ByUser(a)
    ensures Mover(a) < |Do(s, a).pcs|
    ensures var pc := Do(s, a).pcs[Mover(a)];
      PcOk(pc, Mover(a) == OWNER) && (pc.Submit? || pc.Holding? ==> OpOk(s.chans, pc.op))
  {
    hide Apply, Fire, HasHandler, Connections.State.Send, Connections.State.Flush;
  }

  lemma MoverPcOkInLoop(s: State, a: Action)
    requires PcsOk(s) && Enabled(s, a)
    requires !ByUser(a)
    ensures Mover(a) < |Do(s, a).pcs|
    ensures var pc := Do(s, a).pcs[Mover(a)];
      PcOk(pc, Mover(a) == OWNER) && (pc.Submit? || pc.Holding? ==> OpOk(s.chans, pc.op))
  {
  }

  lemma KeepsPcs(s: State, a: Action)
    requires PcsOk(s) && Enabled(s, a)
    ensures PcsOk(Do(s, a))
  {
    hide Do, PcOk;
    OneMoves(s, a);
    MoverPcOk(s, a);
  }

  /** How the mover's hold on the mutex follows the lock word. */
  lemma MoverMutex(s: State, a: Action)
    requires PcsOk(s) && MutexOk(s) && Enabled(s, a)
    ensures var s', t := Do(s, a), Mover(a);
      && t < |s'.pcs| && !s'.asserted
      && (s'.lock == s.lock || (s'.lock == Free && s.lock == Held(t)) || (s'.lock == Held(t) && s.lock == Free))
      && (HoldsMutex(s'.pcs[t]) <==> s'.lock == Held(t))
      && (t == OWNER ==> (s'.flag <==> s'.pcs[OWNER].Draining?))
      && (t != OWNER ==> s'.flag == s.flag)
  {
  }

  lemma KeepsMutex(s: State, a: Action)
    requires PcsOk(s) && MutexOk(s) && Enabled(s, a)
    ensures MutexOk(Do(s, a))
  {
    hide Do, HoldsMutex;
    OneMoves(s, a);
    MoverMutex(s, a);
  }

  lemma KeepsHistory(s: State, a: Action)
    requires PcsOk(s) && MutexOk(s) && HistoryOk(s) && Enabled(s, a)
    ensures HistoryOk(Do(s, a))
  {
    hide OpsOf;
    match a {
      case Append(t) => AppendHistory(s, t);
      case ApplyNext => ApplyHistory(s);
      case FinishDrain => assert s.pending[Done(s)..] == [];
      case EnterDrain =>
      case _ => SameHistory(s, a);
    }
  }

  lemma SameHistory(s: State, a: Action)
    requires PcsOk(s) && MutexOk(s) && Enabled(s, a)
    requires !a.Append? && !a.ApplyNext? && !a.FinishDrain? && !a.EnterDrain?
    ensures var s' := Do(s, a);
      && s'.pending == s.pending && s'.applied == s.applied && s'.enqueued == s.enqueued
      && |s'.pcs| == |s.pcs| && Done(s') == Done(s)
      && |s'.chans| == |s.chans| && forall c :: 0 <= c < |s.chans| ==> s'.chans[c].fd == s.chans[c].fd
  {
  }

  lemma AppendHistory(s: State, t: nat)
    requires PcsOk(s) && MutexOk(s) && HistoryOk(s) && Enabled(s, Append(t))
    ensures HistoryOk(Do(s, Append(t)))
  {
    var s', op := Do(s, Append(t)), s.pcs[t].op;
    assert s.lock == Held(t);
    assert Done(s) == 0 && Done(s') == 0;
    assert OpsOf(s.applied) + (s.pending + [op]) == OpsOf(s.applied) + s.pending + [op];
  }

  lemma ApplyHistory(s: State)
    requires PcsOk(s) && MutexOk(s) && HistoryOk(s) && Enabled(s, ApplyNext)
    ensures HistoryOk(Do(s, ApplyNext))
  {
    var s', k := Do(s, ApplyNext), Done(s);
    assert s.pending[k..] == [s.pending[k]] + s.pending[k + 1..];
    assert OpsOf(s'.applied) == OpsOf(s.applied) + [s.pending[k]];
  }

  lemma KeepsTable(s: State, a: Action)
    requires PcsOk(s) && TableOk(s) && Enabled(s, a)
    ensures TableOk(Do(s, a))
  {
    hide Do;
    if a.ApplyNext? {
      ApplyTable(s);
    } else {
      SameTable(s, a);
    }
  }

  lemma ApplyTable(s: State)
    requires PcsOk(s) && TableOk(s) && Enabled(s, ApplyNext)
    ensures TableOk(Do(s, ApplyNext))
  {
    var s' := Do(s, ApplyNext);
    assert s'.applied[..|s.applied|] == s.applied;
    if s'.outcome.Applied? {
      ApplyKeepsAgreement(s.outcome.table, s'.applied[|s.applied|]);
    }
  }

  predicate Owes(pc: Pc) {
    pc.Appended? || pc.Released?
  }

  /** The owner drains before it waits, empties the list, or changes nothing that matters;
      another thread's append is followed by its wakeup byte. */
  lemma MoverWakeup(s: State, a: Action)
    requires PcsOk(s) && MutexOk(s) && Enabled(s, a)
    ensures var s', t := Do(s, a), Mover(a);
      && t < |s.pcs| == |s'.pcs|
      && (t == OWNER ==>
            || WillDrain(s'.pcs[OWNER]) || s'.pending == []
            || (s'.pending == s.pending && s'.bytes == s.bytes && !WillDrain(s.pcs[OWNER])))
      && (t != OWNER ==>
            && s'.bytes >= s.bytes
            && (Owes(s'.pcs[t]) || s'.bytes > 0 || (s'.pending == s.pending && !Owes(s.pcs[t]))))
  {
  }

  lemma KeepsWakeup(s: State, a: Action)
    requires PcsOk(s) && MutexOk(s) && WakeupOk(s) && Enabled(s, a)
    ensures WakeupOk(Do(s, a))
  {
    hide Do, WillDrain;
    OneMoves(s, a);
    MoverWakeup(s, a);
    var s' := Do(s, a);
    if t :| OWNER < t < |s.pcs| && Owes(s.pcs[t]) {
      assert t != Mover(a) ==> Owes(s'.pcs[t]);
    }
  }

  lemma KeepsWakeRegistered(s: State, a: Action)
    requires PcsOk(s) && TableOk(s) && WakeRegistered(s) && Enabled(s, a)
    ensures WakeRegistered(Do(s, a))
  {
    hide Do;
    OneMoves(s, a);
    if a.ApplyNext? {
      ApplyWakeRegistered(s);
    } else {
      SameTable(s, a);
    }
  }

  lemma ApplyWakeRegistered(s: State)
    requires PcsOk(s) && TableOk(s) && WakeRegistered(s) && Enabled(s, ApplyNext)
    ensures WakeRegistered(Do(s, ApplyNext))
  {
    var e := EntryFor(s.chans, s.pending[OwnerPc(s).k]);
    assert e.fd != s.chans[WAKE].fd;
  }

  lemma SameTable(s: State, a: Action)
    requires PcsOk(s) && Enabled(s, a) && !a.ApplyNext?
    ensures Do(s, a).outcome.Applied? ==> Do(s, a).outcome == s.outcome && Do(s, a).applied == s.applied
  {
  }

  lemma KeepsConns(s: State, a: Action)
    requires PcsOk(s) && ConnsOk(s) && Enabled(s, a)
    ensures ConnsOk(Do(s, a))
  {
    hide Apply, Fire, HasHandler, Connections.State.Send, Connections.State.Flush, Connections.State.Stream;
    match a {
      case Send(c, xs, before, w) => Connections.SendStream(s.chans[c].conn, xs, before, w);
      case Flush(c, w) => Connections.FlushStream(s.chans[c].conn, w);
      case _ =>
    }
  }

  lemma KeepsReports(s: State, a: Action)
    requires PcsOk(s) && TableOk(s) && WakeRegistered(s) && ReportsOk(s) && Enabled(s, a)
    ensures ReportsOk(Do(s, a))
  {
    hide Do, TodoOf;
    match a {
      case ApplyNext => ApplyReports(s);
      case Activate => ActivateReports(s);
      case Wake(ready) => WakeReports(s, ready);
      case _ =>
        SameReports(s, a);
    }
  }

  lemma WakeReports(s: State, ready: seq<Ready>)
    requires PcsOk(s) && TableOk(s) && WakeRegistered(s) && ReportsOk(s) && Enabled(s, Wake(ready))
    ensures ReportsOk(Do(s, Wake(ready)))
  {
  }

  lemma SameReports(s: State, a: Action)
    requires PcsOk(s) && WakeRegistered(s) && ReportsOk(s) && Enabled(s, a) && !a.ApplyNext? && !a.Activate? && !a.Wake?
    ensures var s' := Do(s, a);
      && |s'.pcs| == |s.pcs| && |s'.chans| == |s.chans|
      && TodoOf(s'.pcs[OWNER]) == TodoOf(s.pcs[OWNER])
      && s'.chans[WAKE].fd == s.chans[WAKE].fd && s'.bytes >= s.bytes
      && s'.outcome == s.outcome && s'.applied == s.applied && s'.wokeAt == s.wokeAt
  {
    hide Do;
    if ByUser(a) {
      SameReportsByUser(s, a);
    } else {
      SameReportsInLoop(s, a);
    }
  }

  lemma SameReportsByUser(s: State, a: Action)
    requires PcsOk(s) && WakeRegistered(s) && ReportsOk(s) && Enabled(s, a) && !a.ApplyNext? && !a.Activate? && !a.Wake?
    requires ByUser(a)
    ensures var s' := Do(s, a);
      && |s'.pcs| == |s.pcs| && |s'.chans| == |s.chans|
      && TodoOf(s'.pcs[OWNER]) == TodoOf(s.pcs[OWNER])
      && s'.chans[WAKE].fd == s.chans[WAKE].fd && s'.bytes >= s.bytes
      && s'.outcome == s.outcome && s'.applied == s.applied && s'.wokeAt == s.wokeAt
  {
  }

  lemma SameReportsInLoop(s: State, a: Action)
    requires PcsOk(s) && WakeRegistered(s) && ReportsOk(s) && Enabled(s, a) && !a.ApplyNext? && !a.Activate? && !a.Wake?
    requires !ByUser(a)
    ensures var s' := Do(s, a);
      && |s'.pcs| == |s.pcs| && |s'.chans| == |s.chans|
      && TodoOf(s'.pcs[OWNER]) == TodoOf(s.pcs[OWNER])
      && s'.chans[WAKE].fd == s.chans[WAKE].fd && s'.bytes >= s.bytes
      && s'.outcome == s.outcome && s'.applied == s.applied && s'.wokeAt == s.wokeAt
  {
  }

  lemma ApplyReports(s: State)
    requires PcsOk(s) && TableOk(s) && WakeRegistered(s) && ReportsOk(s) && Enabled(s, ApplyNext)
    ensures ReportsOk(Do(s, ApplyNext))
  {
    var s', n := Do(s, ApplyNext), |s.applied|;
    var todo, e := TodoOf(s.pcs[OWNER]), s'.applied[n];
    assert TodoOf(s'.pcs[OWNER]) == todo;
    if s'.outcome.Applied? {
      forall i | 0 <= i < |todo|
        ensures todo[i].fd in s'.outcome.table.interest || RemovedSince(s', s'.wokeAt, todo[i].fd)
      {
        if RemovedSince(s, s.wokeAt, todo[i].fd) {
          var j :| s.wokeAt <= j < n && s.applied[j].kind == Remove && s.applied[j].fd == todo[i].fd;
          assert s'.applied[j] == s.applied[j];
        } else if e.kind == Remove && e.fd == todo[i].fd {
          assert s'.applied[n] == e;
        }
      }
    }
  }

  lemma ActivateReports(s: State)
    requires PcsOk(s) && WakeRegistered(s) && ReportsOk(s) && Enabled(s, Activate)
    ensures ReportsOk(Do(s, Activate))
  {
    var s', todo := Do(s, Activate), OwnerPc(s).todo;
    forall i | 0 <= i < |todo| - 1
      ensures todo[1..][i].fd == s.chans[WAKE].fd ==> todo[0].fd != s.chans[WAKE].fd
      ensures RemovedSince(s, s.wokeAt, todo[1..][i].fd) ==> RemovedSince(s', s'.wokeAt, todo[1..][i].fd)
    {
      assert todo[1..][i] == todo[i + 1];
      assert todo[0] != todo[i + 1];
      assert s'.applied == s.applied;
    }
  }
}
