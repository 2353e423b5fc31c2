/** Agreement between channel masks and the kernel's interest set, in every interleaving. */
module LoopKernel {
  import opened Channels
  import opened EventTables
  import opened LoopProtocol
  import opened LoopInvariants
  import Connections

  /** An update of the channel is in the list, or about to be enqueued. */
  ghost predicate InFlight(s: State, c: nat)
    requires |s.pcs| > 0
  {
    || (exists i :: Done(s) <= i < |s.pending| && s.pending[i] == Op(Update, c))
    || (exists t :: 0 <= t < |s.pcs| && Submitting(s.pcs[t], c))
  }

  predicate Submitting(pc: Pc, c: nat) {
    (pc.Submit? || pc.Holding?) && pc.op == Op(Update, c)
  }

  /** The channel is the one registered for its descriptor. */
  ghost predicate Registered<C>(t: Table<C>, fd: int, c: C) {
    0 <= fd < |t.slots| && t.slots[fd] == Holds(c, fd)
  }

  /** The kernel watches what the channel's events say, or an update is on its way. */
  ghost predicate MaskOk(s: State, c: nat)
    requires |s.pcs| > 0 && c < |s.chans| && s.outcome.Applied?
  {
    var t, fd := s.outcome.table, s.chans[c].fd;
    Registered(t, fd, c) ==>
      InFlight(s, c) || (fd in t.interest && t.interest[fd] == ToEpoll(s.chans[c].conn.events))
  }

  ghost predicate KernelOk(s: State) {
    |s.pcs| > 0 && (s.outcome.Applied? ==> forall c :: 0 <= c < |s.chans| ==> MaskOk(s, c))
  }

  /** Updates are only made of the channel that is registered for the descriptor. */
  ghost predicate OwnUpdates(es: seq<Entry<nat>>) {
    forall i :: 0 <= i < |es| && es[i].kind == Update && es[i].fd in Live(es[..i]) ==>
      Live(es[..i])[es[i].fd] == es[i].chan
  }

  lemma OwnUpdatesPrefix(es: seq<Entry<nat>>, n: nat)
    requires n <= |es| && OwnUpdates(es)
    ensures OwnUpdates(es[..n])
  {
    forall i | 0 <= i < n ensures es[..n][..i] == es[..i] {
    }
  }

  /** A change of a connection's mask is always followed by an update. */
  lemma UpdatesCount(conn: Connections.State, xs: seq<char>, before: char, w: Connections.WriteResult)
    ensures conn.Send(xs, before, w).updates == conn.updates ==> conn.Send(xs, before, w).events == conn.events
    ensures conn.Flush(w).updates == conn.updates ==> conn.Flush(w).events == conn.events
  {
  }

  /** Only its own application ends an update's flight. */
  lemma InFlightStays(s: State, a: Action, c: nat)
    requires PcsOk(s) && MutexOk(s) && HistoryOk(s) && Enabled(s, a) && InFlight(s, c)
    requires a.ApplyNext? ==> s.pending[Done(s)] != Op(Update, c)
    ensures |Do(s, a).pcs| > 0 && InFlight(Do(s, a), c)
  {
    hide Do;
    OneMoves(s, a);
    if t :| 0 <= t < |s.pcs| && Submitting(s.pcs[t], c) {
      SubmitterStays(s, a, c, t);
    } else {
      var i :| Done(s) <= i < |s.pending| && s.pending[i] == Op(Update, c);
      ListedStays(s, a, i);
      assert Do(s, a).pending[i] == Op(Update, c);
    }
  }

  lemma SubmitterStays(s: State, a: Action, c: nat, t: nat)
    requires PcsOk(s) && MutexOk(s) && Enabled(s, a) && t < |s.pcs| && Submitting(s.pcs[t], c)
    ensures |Do(s, a).pcs| > 0 && InFlight(Do(s, a), c)
  {
    hide Apply, ApplyAll, Fire;
    OneMoves(s, a);
    var s' := Do(s, a);
    if a == Append(t) {
      assert s.lock == Held(t);
      assert s'.pending[|s.pending|] == Op(Update, c);
    } else {
      assert Submitting(s'.pcs[t], c);
    }
  }

  lemma ListedStays(s: State, a: Action, i: nat)
    requires PcsOk(s) && MutexOk(s) && Enabled(s, a) && Done(s) <= i < |s.pending|
    requires a.ApplyNext? ==> i != Done(s)
    ensures var s' := Do(s, a);
      |s'.pcs| > 0 && Done(s') <= i < |s'.pending| && s'.pending[i] == s.pending[i]
  {
    match a {
      case Append(t) => assert s.lock == Held(t);
      case ApplyNext =>
      case FinishDrain =>
      case EnterDrain =>
      case _ => SameHistory(s, a);
    }
  }

  /** What an action that applies nothing does to masks. */
  lemma MasksFollow(s: State, a: Action, c: nat)
    requires PcsOk(s) && Enabled(s, a) && c < |s.chans|
    ensures var s' := Do(s, a);
      && |s'.pcs| > 0 && |s'.chans| == |s.chans| && s'.chans[c].fd == s.chans[c].fd
      && (s'.chans[c].conn.events == s.chans[c].conn.events || InFlight(s', c))
  {
    hide Apply, ApplyAll, Fire;
    OneMoves(s, a);
    var s' := Do(s, a);
    match a {
      case Alter(t, d, events) =>
        assert Submitting(s'.pcs[t], d);
      case Send(d, xs, before, w) =>
        UpdatesCount(s.chans[d].conn, xs, before, w);
        assert s'.pcs[OWNER] == s.pcs[OWNER] || Submitting(s'.pcs[OWNER], d);
      case Flush(d, w) =>
        UpdatesCount(s.chans[d].conn, [], ' ', w);
        assert s'.pcs[OWNER] == s.pcs[OWNER] || Submitting(s'.pcs[OWNER], d);
      case _ =>
    }
  }

  lemma KeepsKernel(s: State, a: Action)
    requires Inv(s) && KernelOk(s) && Enabled(s, a) && OwnUpdates(Do(s, a).applied)
    ensures KernelOk(Do(s, a))
  {
    hide Do;
    OneMoves(s, a);
    if !a.ApplyNext? {
      SameTable(s, a);
    }
    forall c | Do(s, a).outcome.Applied? && 0 <= c < |s.chans| ensures MaskOk(Do(s, a), c) {
      MasksFollow(s, a, c);
      assert MaskOk(s, c);
      if a.ApplyNext? {
        ApplyMask(s, c);
      } else if InFlight(s, c) {
        InFlightStays(s, a, c);
      }
    }
  }

  /** Applying an operation: an update that lands brings the mask up to date, an addition
      registers the current mask, and other descriptors are untouched. */
  lemma ApplyMask(s: State, c: nat)
    requires Inv(s) && KernelOk(s) && Enabled(s, ApplyNext) && OwnUpdates(Do(s, ApplyNext).applied)
    requires c < |s.chans| && Do(s, ApplyNext).outcome.Applied?
    ensures |Do(s, ApplyNext).pcs| > 0 && MaskOk(Do(s, ApplyNext), c)
  {
    hide ApplyAll, Live, Masks, Reach;
    var s', k := Do(s, ApplyNext), Done(s);
    var e, n, t := EntryFor(s.chans, s.pending[k]), |s.applied|, s.outcome.table;
    assert s'.applied[n] == e && s'.applied[..n] == s.applied;
    DrainExact(s.applied);
    assert e.kind == Update && e.fd in Live(s.applied) ==> Live(s.applied)[e.fd] == e.chan;
    if InFlight(s, c) && s.pending[k] != Op(Update, c) {
      InFlightStays(s, ApplyNext, c);
    }
    assert MaskOk(s, c);
    var fd, t' := s.chans[c].fd, s'.outcome.table;
    assert e.kind == Remove && 0 <= e.fd < |t'.slots| ==> t'.slots[e.fd] == Empty;
    if Registered(t', fd, c) && fd == e.fd {
      match e.kind {
        case Update =>
          assert Registered(t, fd, c);
          assert fd in t.interest;
          assert fd in Live(s.applied) && e.chan == c;
        case Add =>
          assert t' == Apply(t, e).table;
          assert |t.slots| <= fd || t.slots[fd] == Empty || Registered(t, fd, c);
        case Remove =>
      }
    }
  }
}
