/** The loop settles: with no new calls every interleaving comes to rest with everything applied. */
module LoopProgress {
  import opened Channels
  import opened EventTables
  import opened LoopProtocol
  import opened LoopInvariants
  import opened LoopTheorems

  function WakeReport(s: State): Ready
    requires s.chans != []
  {
    Ready(s.chans[WAKE].fd, false)
  }

  /** The loop's own work: no new submission, and `epoll_wait` reports only the wakeup socket. */
  predicate Internal(s: State, a: Action)
    requires s.chans != []
  {
    match a
    case Begin(_, _) => false
    case Alter(_, _, _) => false
    case Send(_, _, _, _) => false
    case Flush(_, _) => false
    case Wake(ready) => ready == [WakeReport(s)]
    case _ => true
  }

  function BackWeight(back: Back): nat {
    match back
    case ToIdle => 0
    case ToSetup => 1
    case ToBatch(todo) => 4 + |todo|
    case ToWait => 0
  }

  /** Steps ahead of a thread; a wakeup byte is worth ten. */
  function Weight(pc: Pc): nat {
    match pc
    case Idle => 0
    case Setup => 1
    case Waiting => 0
    case Batch(todo, _) => 4 + |todo|
    case Submit(_, back) => 15 + BackWeight(back)
    case Holding(_, back) => 14 + BackWeight(back)
    case Appended(back) => 12 + BackWeight(back)
    case Released(back) => 11 + BackWeight(back)
    case Enter(back) => 3 + BackWeight(back)
    case Draining(_, back) => 2 + BackWeight(back)
  }

  function Total(pcs: seq<Pc>): nat {
    if pcs == [] then 0 else Total(pcs[..|pcs| - 1]) + Weight(pcs[|pcs| - 1])
  }

  lemma {:induction false} TotalUpdate(pcs: seq<Pc>, t: nat, pc: Pc)
    requires t < |pcs|
    ensures Total(pcs[t := pc]) == Total(pcs) - Weight(pcs[t]) + Weight(pc)
  {
    var n := |pcs| - 1;
    if t < n {
      TotalUpdate(pcs[..n], t, pc);
      assert pcs[t := pc][..n] == pcs[..n][t := pc];
    } else {
      assert pcs[t := pc][..n] == pcs[..n];
    }
  }

  /** The report for the wakeup socket is among those still to be served. */
  predicate WakeListed(s: State)
    requires |s.pcs| > 0 && |s.chans| > 0
  {
    exists i :: 0 <= i < |TodoOf(s.pcs[OWNER])| && TodoOf(s.pcs[OWNER])[i].fd == s.chans[WAKE].fd
  }

  function Extra(s: State): int
    requires |s.pcs| > 0 && |s.chans| > 0
  {
    10 * s.bytes + |s.pending| - Done(s) - (if WakeListed(s) then 6 else 0)
  }

  function Measure(s: State): int
    requires |s.pcs| > 0 && |s.chans| > 0
  {
    Total(s.pcs) + Extra(s)
  }

  lemma MeasureNonNegative(s: State)
    requires Inv(s)
    ensures Measure(s) >= 0
  {
  }

  /** What new work may add: a call or a changed connection, and a wait that reports more than the
      wakeup socket. */
  function Allowance(s: State, a: Action): nat
    requires s.chans != []
  {
    if Internal(s, a) then 0 else if a.Wake? then 5 + |a.ready| else 16
  }

  /** What an action costs its thread, and what it changes elsewhere. */
  lemma ActionDrops(s: State, a: Action)
    requires PcsOk(s) && MutexOk(s) && ReportsOk(s) && Done(s) <= |s.pending| && Enabled(s, a)
    ensures var s', t := Do(s, a), Mover(a);
      && t < |s.pcs| == |s'.pcs| && |s'.chans| > 0
      && Weight(s'.pcs[t]) + Extra(s') + 1 <= Weight(s.pcs[t]) + Extra(s) + Allowance(s, a)
  {
    hide Do, Enabled, Extra, Weight;
    match a {
      case Wake(ready) => WakeDrops(s, ready);
      case Activate => ActivateDrops(s);
      case _ =>
        if ByUser(a) {
          UserDrops(s, a);
        } else {
          OtherDrops(s, a);
        }
    }
  }

  lemma UserDrops(s: State, a: Action)
    requires PcsOk(s) && MutexOk(s) && Done(s) <= |s.pending| && Enabled(s, a) && ByUser(a)
    ensures var s', t := Do(s, a), Mover(a);
      && t < |s.pcs| == |s'.pcs| && |s'.chans| > 0
      && Weight(s'.pcs[t]) + Extra(s') <= Weight(s.pcs[t]) + Extra(s) + 15
  {
    hide WakeListed;
    UserKeepsReports(s, a);
  }

  lemma UserKeepsReports(s: State, a: Action)
    requires PcsOk(s) && Enabled(s, a) && ByUser(a)
    ensures |Do(s, a).pcs| == |s.pcs| && |Do(s, a).chans| == |s.chans|
    ensures WakeListed(Do(s, a)) == WakeListed(s)
  {
    assert TodoOf(Do(s, a).pcs[OWNER]) == TodoOf(s.pcs[OWNER]);
    assert Do(s, a).chans[WAKE].fd == s.chans[WAKE].fd;
  }

  lemma OtherDrops(s: State, a: Action)
    requires PcsOk(s) && MutexOk(s) && Done(s) <= |s.pending|
    requires Enabled(s, a) && !ByUser(a) && !a.Wake? && !a.Activate?
    ensures var s', t := Do(s, a), Mover(a);
      && t < |s.pcs| == |s'.pcs| && |s'.chans| > 0
      && Weight(s'.pcs[t]) + Extra(s') < Weight(s.pcs[t]) + Extra(s)
  {
    hide WakeListed;
    OutsideBatch(s, a);
    if a.Append? {
      assert s.lock == Held(a.t);
    }
  }

  lemma OutsideBatch(s: State, a: Action)
    requires PcsOk(s) && Enabled(s, a) && !ByUser(a) && !a.Wake? && !a.Activate?
    ensures |Do(s, a).pcs| == |s.pcs| && |Do(s, a).chans| == |s.chans|
    ensures WakeListed(Do(s, a)) == WakeListed(s)
  {
    assert TodoOf(Do(s, a).pcs[OWNER]) == TodoOf(s.pcs[OWNER]);
  }

  lemma WakeDrops(s: State, ready: seq<Ready>)
    requires PcsOk(s) && Enabled(s, Wake(ready))
    ensures var s' := Do(s, Wake(ready));
      && |s'.pcs| == |s.pcs| && |s'.chans| > 0
      && Weight(s'.pcs[OWNER]) + Extra(s') + 1 <= Weight(s.pcs[OWNER]) + Extra(s) + Allowance(s, Wake(ready))
  {
    var s' := Do(s, Wake(ready));
    assert TodoOf(s'.pcs[OWNER]) == ready && TodoOf(s.pcs[OWNER]) == [];
    if ready == [WakeReport(s)] {
      assert TodoOf(s'.pcs[OWNER])[0].fd == s'.chans[WAKE].fd;
      assert WakeListed(s');
    }
  }

  lemma ActivateDrops(s: State)
    requires PcsOk(s) && ReportsOk(s) && Enabled(s, Activate)
    ensures var s' := Do(s, Activate);
      && |s'.pcs| == |s.pcs| && |s'.chans| > 0
      && Weight(s'.pcs[OWNER]) + Extra(s') < Weight(s.pcs[OWNER]) + Extra(s)
  {
    var s', todo := Do(s, Activate), OwnerPc(s).todo;
    assert forall i :: 0 <= i < |todo| - 1 ==> todo[1..][i] == todo[i + 1];
    assert TodoOf(s.pcs[OWNER]) == todo && TodoOf(s'.pcs[OWNER]) == todo[1..];
    if todo[0].fd == s.chans[WAKE].fd {
      assert WakeListed(s);
    } else if WakeListed(s) {
      var i :| 0 <= i < |todo| && todo[i].fd == s.chans[WAKE].fd;
      assert TodoOf(s'.pcs[OWNER])[i - 1].fd == s'.chans[WAKE].fd;
      assert WakeListed(s');
    }
  }

  /** Every step of any thread lowers the measure, but for what new work adds. */
  lemma MeasureDrops(s: State, a: Action)
    requires Inv(s) && Enabled(s, a)
    ensures Inv(Do(s, a)) && Measure(Do(s, a)) < Measure(s) + Allowance(s, a)
  {
    hide Do, Enabled, Internal, Extra, Allowance;
    StepKeepsInv(s, a);
    OneMoves(s, a);
    ActionDrops(s, a);
    TotalUpdate(s.pcs, Mover(a), Do(s, a).pcs[Mover(a)]);
  }

  function Allowances(s: State, actions: seq<Action>): nat
    requires s.chans != []
  {
    if actions == [] then 0
    else Allowances(s, actions[..|actions| - 1]) + Allowance(s, actions[|actions| - 1])
  }

  /** From any reachable state, the loop's own work ends, whatever the interleaving: a continuation
      is no longer than the measure and what the new work in it adds. */
  lemma {:induction false} Terminates(s: State, actions: seq<Action>)
    requires Inv(s) && Execute(s, actions).At?
    ensures var s' := Execute(s, actions).state;
      && Inv(s') && s'.chans != [] && s'.chans[WAKE].fd == s.chans[WAKE].fd
      && |actions| + Measure(s') <= Measure(s) + Allowances(s, actions)
  {
    hide Do, Enabled, Extra, Total;
    if actions != [] {
      var n := |actions| - 1;
      Terminates(s, actions[..n]);
      var m := Execute(s, actions[..n]).state;
      assert Allowance(m, actions[n]) == Allowance(s, actions[n]);
      OneMoves(m, actions[n]);
      MeasureDrops(m, actions[n]);
    }
  }

  /** What a thread inside the loop's functions does next. */
  function NextOf(s: State, t: nat): Action
    requires t < |s.pcs|
  {
    match s.pcs[t]
    case Batch(todo, _) => if todo == [] then EndBatch else Activate
    case Submit(_, _) => Acquire(t)
    case Holding(_, _) => Append(t)
    case Appended(_) => Release(t)
    case Released(_) => Branch(t)
    case Enter(_) => EnterDrain
    case Draining(k, _) => if k < |s.pending| then ApplyNext else FinishDrain
    case _ => StartRun
  }

  /** A thread that is not at rest can go on, unless another one holds the mutex. */
  lemma CanGoOn(s: State, t: nat)
    requires Inv(s) && s.outcome.Applied? && t < |s.pcs| && (s.lock == Free || s.lock == Held(t))
    requires !s.pcs[t].Idle? && !s.pcs[t].Waiting?
    ensures Enabled(s, NextOf(s, t)) && Internal(s, NextOf(s, t))
  {
    assert PcOk(s.pcs[t], t == OWNER);
    assert HoldsMutex(s.pcs[t]) <==> s.lock == Held(t);
  }

  /** Where no internal action is possible everything submitted has been applied. */
  lemma SettledIsDone(s: State)
    requires Inv(s) && s.outcome.Applied?
    requires forall a :: Enabled(s, a) ==> !Internal(s, a)
    ensures AtRest(s) && s.pending == [] && OpsOf(s.applied) == s.enqueued
  {
    hide Enabled, Internal;
    if s.lock.Held? {
      CanGoOn(s, s.lock.tid);
    }
    forall t | 0 <= t < |s.pcs| ensures s.pcs[t].Idle? || s.pcs[t].Waiting? {
      if !s.pcs[t].Idle? && !s.pcs[t].Waiting? {
        CanGoOn(s, t);
      }
    }
    if s.bytes > 0 {
      WakePossible(s);
    }
    assert !AboutToWake(s);
    assert s.pending[Done(s)..] == [];
  }

  lemma WakePossible(s: State)
    requires Inv(s) && s.outcome.Applied? && s.pcs[OWNER].Waiting? && s.bytes > 0
    ensures Enabled(s, Wake([WakeReport(s)])) && Internal(s, Wake([WakeReport(s)]))
  {
    assert ReadEnabled(EVENT_READ);
    assert Reportable(s, WakeReport(s));
  }

  /** No submitted work is forgotten: from every state that some interleaving reaches, every
      continuation is at most as long as the work at hand and the new work in it allow, and where
      only new work could follow, and nothing has crashed, the list is empty and everything
      enqueued has been applied. */
  lemma LoopSettles(s0: State, actions: seq<Action>, more: seq<Action>)
    requires Init(s0) && Execute(s0, actions).At?
    requires Execute(Execute(s0, actions).state, more).At?
    ensures var s := Execute(s0, actions).state;
      var s' := Execute(s, more).state;
      && |s.pcs| > 0 && |s.chans| > 0 && s'.chans != [] && |more| <= Measure(s) + Allowances(s, more)
      && (s'.outcome.Applied? && (forall a :: Enabled(s', a) ==> !Internal(s', a)) ==>
            AtRest(s') && s'.pending == [] && OpsOf(s'.applied) == s'.enqueued)
  {
    hide Enabled, Do, Internal, Allowances;
    Always(s0, actions);
    var s := Execute(s0, actions).state;
    Terminates(s, more);
    var s' := Execute(s, more).state;
    MeasureNonNegative(s');
    if s'.outcome.Applied? && (forall a :: Enabled(s', a) ==> !Internal(s', a)) {
      SettledIsDone(s');
    }
  }
}
