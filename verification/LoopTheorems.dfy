/** What holds in every state that any interleaving reaches. */
module LoopTheorems {
  import opened Channels
  import opened EventTables
  import opened LoopProtocol
  import opened LoopInvariants
  import opened LoopKernel
  import Connections

  lemma StepKeepsInv(s: State, a: Action)
    requires Inv(s) && Enabled(s, a)
    ensures Inv(Do(s, a))
  {
    hide Do;
    KeepsPcs(s, a);
    KeepsMutex(s, a);
    KeepsHistory(s, a);
    KeepsTable(s, a);
    KeepsWakeup(s, a);
    KeepsWakeRegistered(s, a);
    KeepsConns(s, a);
    KeepsReports(s, a);
  }

  lemma InitKernel(s: State)
    requires Init(s)
    ensures KernelOk(s)
  {
    InitInv(s);
    DrainExact(s.applied);
    assert s.applied[..0] == [];
    assert s.outcome == Apply(EmptyTable(), s.applied[0]);
    assert forall c :: 0 < c < |s.chans| ==> !Registered(s.outcome.table, s.chans[c].fd, c);
  }

  /** The list of applied operations only grows. */
  lemma AppliedGrows(s: State, a: Action)
    requires Enabled(s, a)
    ensures s.applied <= Do(s, a).applied
  {
  }

  lemma {:induction false} Always(s0: State, actions: seq<Action>)
    requires Init(s0) && Execute(s0, actions).At?
    ensures var s := Execute(s0, actions).state;
      Inv(s) && (OwnUpdates(s.applied) ==> KernelOk(s))
  {
    hide Do, Enabled, OwnUpdates;
    if actions == [] {
      InitInv(s0);
      InitKernel(s0);
    } else {
      var init, a := actions[..|actions| - 1], actions[|actions| - 1];
      Always(s0, init);
      var s := Execute(s0, init).state;
      StepKeepsInv(s, a);
      if OwnUpdates(Do(s, a).applied) {
        AppliedGrows(s, a);
        OwnUpdatesPrefix(Do(s, a).applied, |s.applied|);
        assert Do(s, a).applied[..|s.applied|] == s.applied;
        KeepsKernel(s, a);
      }
    }
  }

  /** Registrations are linearised by the mutex: what was applied, then what is pending, is what
      was enqueued; and slots and kernel hold what the applied operations mean. */
  lemma Linearised(s0: State, actions: seq<Action>)
    requires Init(s0) && Execute(s0, actions).At?
    ensures var s := Execute(s0, actions).state;
      && |s.pcs| > 0 && Done(s) <= |s.pending|
      && OpsOf(s.applied) + s.pending[Done(s)..] == s.enqueued
      && (s.outcome.Applied? ==> Represents(s.outcome.table, s.applied))
  {
    Always(s0, actions);
    DrainExact(Execute(s0, actions).state.applied);
  }

  /** A submitter that locks while the flag is up fails the assertion, and only then. */
  lemma AssertionChecked(s: State, t: nat)
    requires Enabled(s, Acquire(t))
    ensures Do(s, Acquire(t)).asserted <==> s.asserted || s.flag
  {
  }

  /** At most one thread is between lock and unlock, the flag is up only while it drains, and
      the assertion on the flag never fires. */
  lemma MutualExclusion(s0: State, actions: seq<Action>)
    requires Init(s0) && Execute(s0, actions).At?
    ensures var s := Execute(s0, actions).state;
      && |s.pcs| > 0 && !s.asserted
      && (forall t :: 0 <= t < |s.pcs| && Enabled(s, Acquire(t)) ==> !s.flag)
      && (forall t, u :: 0 <= t < |s.pcs| && 0 <= u < |s.pcs| && HoldsMutex(s.pcs[t]) && HoldsMutex(s.pcs[u]) ==> t == u)
      && (s.flag <==> s.pcs[OWNER].Draining?)
      && (s.flag ==> s.lock == Held(OWNER))
  {
    Always(s0, actions);
  }

  /** Whenever the owner waits with nothing to wake it, work in the list has a submitter that is
      still going to write its byte. */
  lemma NoLostWakeup(s0: State, actions: seq<Action>)
    requires Init(s0) && Execute(s0, actions).At?
    ensures var s := Execute(s0, actions).state;
      |s.pcs| > 0 && (s.pcs[OWNER].Waiting? && s.bytes == 0 && s.pending != [] ==> AboutToWake(s))
  {
    Always(s0, actions);
  }

  // ---- live slots -------------------------------------------------------------------------

  function EntriesFor(chans: seq<Chan>, ops: seq<Op>): (es: seq<Entry<nat>>)
    requires forall i :: 0 <= i < |ops| ==> ops[i].chan < |chans|
    ensures |es| == |ops|
    ensures forall i :: 0 <= i < |ops| ==> es[i] == EntryFor(chans, ops[i])
  {
    seq(|ops|, i requires 0 <= i < |ops| => EntryFor(chans, ops[i]))
  }

  lemma DisciplineTransfers<C>(es: seq<Entry<C>>, fs: seq<Entry<C>>)
    requires Disciplined(es) && |fs| <= |es|
    requires forall i :: 0 <= i < |fs| ==> fs[i].kind == es[i].kind && fs[i].fd == es[i].fd
    ensures Disciplined(fs)
  {
    forall i | 0 <= i < |fs| && fs[i].kind != Add && fs[i].fd >= 0 ensures AddedBefore(fs, i, fs[i].fd) {
      assert AddedBefore(es, i, es[i].fd);
      var j :| 0 <= j < i && es[j].kind == Add && es[j].fd == es[i].fd && Kept(es, j, i, es[i].fd);
      assert fs[j].kind == Add && Kept(fs, j, i, fs[i].fd);
    }
  }

  lemma EnqueuedInRange(s: State)
    requires Inv(s)
    ensures forall i :: 0 <= i < |s.enqueued| ==> s.enqueued[i].chan < |s.chans|
    ensures forall i :: 0 <= i < |s.applied| ==>
              i < |s.enqueued| && s.enqueued[i] == Op(s.applied[i].kind, s.applied[i].chan)
    ensures Done(s) < |s.pending| ==> |s.applied| < |s.enqueued| && s.enqueued[|s.applied|] == s.pending[Done(s)]
  {
    var n, tail := |s.applied|, s.pending[Done(s)..];
    var all := OpsOf(s.applied) + tail;
    forall i | 0 <= i < |all| ensures all[i].chan < |s.chans| {
      if i >= n {
        assert all[i] == s.pending[Done(s) + (i - n)];
      }
    }
    if tail != [] {
      assert all[n] == tail[0];
    }
  }

  /** If every update and removal was enqueued after its descriptor's addition and before its
      removal, then in every interleaving the next operation of a drain finds an in-range slot
      that holds a channel with its descriptor. */
  lemma LiveSlots(s0: State, actions: seq<Action>)
    requires Init(s0) && Execute(s0, actions).At?
    requires var s := Execute(s0, actions).state;
      && (forall i :: 0 <= i < |s.enqueued| ==> s.enqueued[i].chan < |s.chans|)
      && Disciplined(EntriesFor(s.chans, s.enqueued))
      && s.outcome.Applied? && |s.pcs| > 0 && s.pcs[OWNER].Draining? && s.pcs[OWNER].k < |s.pending|
      && s.pending[s.pcs[OWNER].k].chan < |s.chans|
    ensures var s := Execute(s0, actions).state;
      var e, t := EntryFor(s.chans, s.pending[s.pcs[OWNER].k]), s.outcome.table;
      && Apply(t, e).Applied?
      && (e.kind != Add && e.fd >= 0 ==> e.fd < |t.slots| && t.slots[e.fd].Holds? && t.slots[e.fd].fd == e.fd)
  {
    Always(s0, actions);
    LiveSlotsHere(Execute(s0, actions).state);
  }

  lemma LiveSlotsHere(s: State)
    requires Inv(s) && s.outcome.Applied? && s.pcs[OWNER].Draining? && s.pcs[OWNER].k < |s.pending|
    requires forall i :: 0 <= i < |s.enqueued| ==> s.enqueued[i].chan < |s.chans|
    requires Disciplined(EntriesFor(s.chans, s.enqueued))
    ensures var e, t := EntryFor(s.chans, s.pending[s.pcs[OWNER].k]), s.outcome.table;
      && Apply(t, e).Applied?
      && (e.kind != Add && e.fd >= 0 ==> e.fd < |t.slots| && t.slots[e.fd].Holds? && t.slots[e.fd].fd == e.fd)
  {
    hide ApplyAll, Disciplined, Live, Masks, Reach;
    var e, t := EntryFor(s.chans, s.pending[s.pcs[OWNER].k]), s.outcome.table;
    var es := s.applied + [e];
    EnqueuedInRange(s);
    DisciplineTransfers(EntriesFor(s.chans, s.enqueued), es);
    DisciplinedIsSafe(es);
    assert es[..|s.applied|] == s.applied && es[|s.applied|] == e;
    DrainExact(s.applied);
    if e.kind != Add && e.fd >= 0 {
      assert e.fd in Live(s.applied);
    }
  }

  /** A readiness report reaches a slot that holds a channel with its descriptor, so that the
      assertion in the activation holds, exactly when the descriptor's last addition has not
      been undone; in particular when no removal was applied since `epoll_wait` returned. */
  lemma ActivationLive(s0: State, actions: seq<Action>)
    requires Init(s0) && Execute(s0, actions).At?
    requires var s := Execute(s0, actions).state; Enabled(s, Activate)
    ensures var s := Execute(s0, actions).state;
      var r, slots := s.pcs[OWNER].todo[0], s.outcome.table.slots;
      && r.fd >= 0
      && (r.fd < |slots| && slots[r.fd].Holds? && slots[r.fd].fd == r.fd <==> AddedBefore(s.applied, |s.applied|, r.fd))
      && (!RemovedSince(s, s.wokeAt, r.fd) ==> Do(s, Activate).outcome.Applied? && AddedBefore(s.applied, |s.applied|, r.fd))
  {
    Always(s0, actions);
    ActivationLiveHere(Execute(s0, actions).state);
  }

  lemma ActivationLiveHere(s: State)
    requires Inv(s) && Enabled(s, Activate)
    ensures var r, slots := s.pcs[OWNER].todo[0], s.outcome.table.slots;
      && r.fd >= 0
      && (r.fd < |slots| && slots[r.fd].Holds? && slots[r.fd].fd == r.fd <==> AddedBefore(s.applied, |s.applied|, r.fd))
      && (!RemovedSince(s, s.wokeAt, r.fd) ==> Do(s, Activate).outcome.Applied? && AddedBefore(s.applied, |s.applied|, r.fd))
  {
    hide ApplyAll, Live, Masks, Reach;
    var r := s.pcs[OWNER].todo[0];
    DrainExact(s.applied);
    if RemovedSince(s, s.wokeAt, r.fd) {
      var i :| s.wokeAt <= i < |s.applied| && s.applied[i].kind == Remove && s.applied[i].fd == r.fd;
    }
    LiveMeansAdded(s.applied, r.fd);
  }

  // ---- rest ---------------------------------------------------------------------------------

  /** Nobody is inside the loop's functions and nothing wakes the owner. */
  ghost predicate AtRest(s: State) {
    && |s.pcs| > 0 && s.pcs[OWNER].Waiting? && s.bytes == 0
    && forall t :: 0 < t < |s.pcs| ==> s.pcs[t].Idle?
  }

  /** No stuck output: at rest every submitted operation has been applied, the kernel watches
      what each registered channel's events say, and so a connection is watched for
      writability exactly while it has unsent bytes. */
  lemma NoStuckOutput(s0: State, actions: seq<Action>)
    requires Init(s0) && Execute(s0, actions).At?
    requires var s := Execute(s0, actions).state;
      AtRest(s) && s.outcome.Applied? && OwnUpdates(s.applied)
    ensures var s := Execute(s0, actions).state;
      && s.pending == [] && OpsOf(s.applied) == s.enqueued
      && forall c :: 0 <= c < |s.chans| && Registered(s.outcome.table, s.chans[c].fd, c) ==>
           var fd, mask := s.chans[c].fd, s.outcome.table.interest;
           && fd in mask && mask[fd] == ToEpoll(s.chans[c].conn.events)
           && (s.chans[c].isConn ==> (mask[fd] & EPOLLOUT != 0 <==> s.chans[c].conn.output != []))
  {
    Always(s0, actions);
    var s := Execute(s0, actions).state;
    assert !AboutToWake(s);
    assert s.pending[Done(s)..] == [];
    forall c | 0 <= c < |s.chans| && Registered(s.outcome.table, s.chans[c].fd, c)
      ensures s.chans[c].fd in s.outcome.table.interest
      ensures s.outcome.table.interest[s.chans[c].fd] == ToEpoll(s.chans[c].conn.events)
    {
      assert MaskOk(s, c);
      assert !InFlight(s, c);
    }
  }
}
