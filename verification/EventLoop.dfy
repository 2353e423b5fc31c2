/** The event loop's critical sections as the code runs them: the linked list of pending
    operations, the drain, and the doubling slot array (lib/event_loop.c, lib/channel_map.c). */
module EventLoops {
  import opened CStrings
  import opened Channels
  import opened EventTables

  datatype Op = Op(kind: Kind, chan: Channel)

  class Element {
    const op: Op
    var next: Element?

    constructor (op: Op)
      ensures this.op == op && next == null
    {
      this.op := op;
      next := null;
    }
  }

  ghost function ChannelsOf(ops: seq<Op>): set<Channel> {
    set op | op in ops :: op.chan
  }

  /** What a drain reads through the channel pointers. */
  ghost function Snapshot(ops: seq<Op>): (es: seq<Entry<Channel>>)
    reads ChannelsOf(ops)
    ensures |es| == |ops|
    ensures forall i :: 0 <= i < |ops| ==> es[i] == EntryOf(ops[i])
  {
    if ops == [] then []
    else
      assert forall op :: op in ops[..|ops| - 1] ==> op in ops;
      assert ops[|ops| - 1].chan in ChannelsOf(ops);
      Snapshot(ops[..|ops| - 1]) + [EntryOf(ops[|ops| - 1])]
  }

  ghost function EntryOf(op: Op): Entry<Channel>
    reads op.chan
  {
    Entry(op.kind, op.chan, op.chan.fd, op.chan.events)
  }

  function SlotOf(entry: Channel?): Slot<Channel> {
    if entry == null then Empty
    else
      var chan: Channel := entry;
      Holds(chan, chan.fd)
  }

  /** `channel_event_activate`: the channel reached, and which of its callbacks run. */
  datatype Activation = Ignored | OutOfRange | Fires(chan: Channel, read: bool, write: bool)

  class EventLoop {
    var head: Element?
    var tail: Element?
    var isHandlePending: bool
    var entries: array<Channel?>
    /** Bytes written to the wakeup socket. */
    var wakeups: nat
    ghost var elems: seq<Element>
    ghost var interest: map<int, bv32>

    /** The list: acyclic, `tail` is its last node, and both ends are null together. */
    ghost predicate ListOk()
      reads this`head, this`tail, this`elems, elems
    {
      && (forall i, j :: 0 <= i < j < |elems| ==> elems[i] != elems[j])
      && (elems == [] ==> head == null && tail == null)
      && (elems != [] ==> head == elems[0] && tail == elems[|elems| - 1] && tail.next == null)
      && (forall i, j :: 0 <= i < j < |elems| && j == i + 1 ==> elems[i].next == elems[j])
    }

    ghost function Ops(): (ops: seq<Op>)
      reads this`elems
      ensures |ops| == |elems| && forall i :: 0 <= i < |elems| ==> ops[i] == elems[i].op
    {
      var list := elems;
      seq(|list|, i requires 0 <= i < |list| => list[i].op)
    }

    ghost function Slots(): seq<Slot<Channel>>
      reads this`entries, entries
    {
      var a := entries;
      seq(a.Length, i requires 0 <= i < a.Length reads a => SlotOf(a[i]))
    }

    ghost function Abs(): Table<Channel>
      reads this`entries, this`interest, entries
    {
      Table(Slots(), interest)
    }

    constructor ()
      ensures ListOk() && elems == [] && !isHandlePending
      ensures Abs() == EmptyTable() && fresh(entries) && wakeups == 0
    {
      head, tail := null, null;
      isHandlePending := false;
      entries := new Channel?[0];
      wakeups := 0;
      elems := [];
      interest := map[];
    }

    /** `event_loop_channel_buffer_nolock` */
    method BufferNolock(op: Op)
      requires ListOk()
      modifies this`head, this`tail, this`elems, if tail == null then {} else {tail}
      ensures ListOk()
      ensures Ops() == old(Ops()) + [op] && Abs() == old(Abs())
      ensures |elems| == |old(elems)| + 1 && old(elems) <= elems && fresh(elems[|old(elems)|])
    {
      var elem := new Element(op);
      if head == null {
        head := elem;
        tail := elem;
      } else {
        tail.next := elem;
        tail := elem;
      }
      elems := elems + [elem];
    }

    /** `map_make_space` */
    method MakeSpace(slot: nat)
      modifies this`entries
      ensures Abs() == old(Abs()).(slots := Widen(old(Slots()), slot))
      ensures entries == old(entries) || fresh(entries)
      ensures slot < entries.Length
    {
      if entries.Length <= slot {
        var n := if entries.Length != 0 then entries.Length else FIRST_CAPACITY;
        while n <= slot
          invariant n > 0 && n >= entries.Length
          invariant Doubled(n, slot) == Capacity(entries.Length, slot)
          decreases slot + 1 - n
        {
          n := 2 * n;
        }
        var tmp := new Channel?[n];
        forall i | 0 <= i < n {
          tmp[i] := if i < entries.Length then entries[i] else null;
        }
        entries := tmp;
      }
    }

    method PendingAdd(chan: Channel) returns (r: int)
      modifies this`entries, this`interest, entries
      ensures Applied(Abs()) == Apply(old(Abs()), Entry(Add, chan, chan.fd, chan.events))
      ensures r == if chan.fd < 0 || (chan.fd < old(entries.Length) && old(entries[chan.fd]) != null) then 0 else 1
      ensures entries == old(entries) || fresh(entries)
    {
      var fd := chan.fd;
      if fd < 0 {
        return 0;
      }
      MakeSpace(fd);
      if entries[fd] == null {
        entries[fd] := chan;
        interest := if fd in interest then interest else interest[fd := ToEpoll(chan.events)];
        return 1;
      }
      return 0;
    }

    /** Callers must not remove a descriptor whose slot is in range and empty. */
    method PendingRemove(chan: Channel) returns (r: int)
      requires 0 <= chan.fd < entries.Length ==> entries[chan.fd] != null
      modifies this`interest, entries
      ensures Applied(Abs()) == Apply(old(Abs()), Entry(Remove, chan, chan.fd, chan.events))
      ensures r == if chan.fd < 0 then 0 else if chan.fd >= entries.Length then -1 else 1
    {
      var fd := chan.fd;
      if fd < 0 {
        return 0;
      }
      if fd >= entries.Length {
        return -1;
      }
      interest := interest - {entries[fd].fd};
      entries[fd] := null;
      return 1;
    }

    /** Callers must not update a descriptor beyond the slot array. `None`: the code ends without a
        return value. */
    method PendingUpdate(chan: Channel) returns (r: Option<int>)
      requires chan.fd < entries.Length
      modifies this`interest
      ensures Applied(Abs()) == Apply(old(Abs()), Entry(Update, chan, chan.fd, chan.events))
      ensures r == if chan.fd < 0 then Some(0) else if entries[chan.fd] == null then Some(-1) else None
    {
      var fd := chan.fd;
      if fd < 0 {
        return Some(0);
      }
      if entries[fd] == null {
        return Some(-1);
      }
      if fd in interest {
        interest := interest[fd := ToEpoll(chan.events)];
      }
      r := None;
    }

    method ApplyOne(op: Op)
      requires Apply(Abs(), EntryOf(op)).Applied?
      modifies this`entries, this`interest, entries
      ensures Applied(Abs()) == Apply(old(Abs()), EntryOf(op))
      ensures entries == old(entries) || fresh(entries)
    {
      match op.kind {
        case Add => var r := PendingAdd(op.chan);
        case Remove => var r := PendingRemove(op.chan);
        case Update => var r := PendingUpdate(op.chan);
      }
    }

    /** `event_loop_handle_pending_channel`, for a list whose drain touches no missing slot:
        `DrainExact` says which those are. */
    method HandlePendingChannel()
      requires ListOk()
      requires ApplyAll(Abs(), Snapshot(Ops())).Applied?
      modifies this`head, this`tail, this`isHandlePending, this`elems, this`entries, this`interest, entries
      ensures ListOk() && elems == [] && !isHandlePending
      ensures Applied(Abs()) == old(ApplyAll(Abs(), Snapshot(Ops())))
    {
      hide Apply, ApplyAll, Slots, Snapshot, Ops;
      ghost var es, t0, k := Snapshot(Ops()), Abs(), 0;
      isHandlePending := true;
      PrefixStart(t0, es);
      var elem := head;
      while elem != null
        modifies this`entries, this`interest, entries
        invariant entries == old(entries) || fresh(entries)
        invariant 0 <= k <= |elems| == |es|
        invariant elem == if k < |elems| then elems[k] else null
        invariant forall i :: k <= i < |es| ==> es[i] == EntryOf(elems[i].op)
        invariant ApplyAll(t0, es[..k]) == Applied(Abs())
        decreases |elems| - k
      {
        PrefixStep(t0, es, k);
        assert ListOk();
        ApplyOne(elem.op);
        elem := elem.next;
        k := k + 1;
      }
      assert es[..|elems|] == es;
      head, tail := null, null;
      elems := [];
      isHandlePending := false;
    }

    /** `event_loop_do_channel_event`, with the mutex held by nobody else. */
    method DoChannelEvent(op: Op, inSameThread: bool)
      requires ListOk() && !isHandlePending
      requires inSameThread ==> ApplyAll(Abs(), Snapshot(Ops() + [op])).Applied?
      modifies this, entries, elems
      ensures ListOk() && !isHandlePending
      ensures !inSameThread ==>
                Ops() == old(Ops()) + [op] && Abs() == old(Abs()) && wakeups == old(wakeups) + 1
      ensures inSameThread ==>
                && elems == [] && wakeups == old(wakeups)
                && Applied(Abs()) == old(ApplyAll(Abs(), Snapshot(Ops() + [op])))
    {
      hide Apply, ApplyAll, Slots, Snapshot, Ops;
      assert !isHandlePending;
      ghost var es := Snapshot(Ops() + [op]);
      BufferNolock(op);
      assert Snapshot(Ops()) == es;
      if !inSameThread {
        wakeups := wakeups + 1;
      } else {
        HandlePendingChannel();
      }
    }

    /** `event_loop_update_channel_event`: drained on the owner's thread, it leaves the kernel with the
        channel's mask if the descriptor is registered. */
    method UpdateChannelEvent(chan: Channel, inSameThread: bool)
      requires ListOk() && !isHandlePending
      requires inSameThread ==> ApplyAll(Abs(), Snapshot(Ops() + [Op(Update, chan)])).Applied?
      modifies this, entries, elems
      ensures ListOk() && !isHandlePending
      ensures !inSameThread ==>
                Ops() == old(Ops()) + [Op(Update, chan)] && Abs() == old(Abs()) && wakeups == old(wakeups) + 1
      ensures inSameThread ==> elems == [] && wakeups == old(wakeups) && Watches(Abs(), chan.fd, chan.events)
    {
      hide Apply, ApplyAll, Slots, Snapshot, Ops;
      ghost var ops, t := Ops() + [Op(Update, chan)], Abs();
      if inSameThread {
        LastIsUpdate(t, Snapshot(ops));
      }
      SnapshotLast(Ops(), Op(Update, chan));
      DoChannelEvent(Op(Update, chan), inSameThread);
    }

    /** `channel_write_event_enable`, on a channel of this loop. */
    method WriteEventEnable(chan: Channel, inSameThread: bool)
      requires ListOk() && !isHandlePending
      requires inSameThread ==> ApplyAll(Abs(), Snapshot(Ops() + [Op(Update, chan)])).Applied?
      modifies this, entries, elems, chan
      ensures ListOk() && !isHandlePending && chan.events == EnableWrite(old(chan.events))
      ensures !inSameThread ==> Ops() == old(Ops()) + [Op(Update, chan)] && wakeups == old(wakeups) + 1
      ensures inSameThread ==> elems == [] && Watches(Abs(), chan.fd, EnableWrite(old(chan.events)))
    {
      hide Apply, ApplyAll, Slots, Ops;
      ghost var t, ops, es := Abs(), Ops() + [Op(Update, chan)], Snapshot(Ops() + [Op(Update, chan)]);
      chan.WriteEventEnable();
      assert Abs() == t && Ops() + [Op(Update, chan)] == ops;
      SameOutcome(t, es, Snapshot(ops));
      UpdateChannelEvent(chan, inSameThread);
    }

    /** `channel_write_event_disable`, on a channel of this loop. */
    method WriteEventDisable(chan: Channel, inSameThread: bool)
      requires ListOk() && !isHandlePending
      requires inSameThread ==> ApplyAll(Abs(), Snapshot(Ops() + [Op(Update, chan)])).Applied?
      modifies this, entries, elems, chan
      ensures ListOk() && !isHandlePending && chan.events == DisableWrite(old(chan.events))
      ensures !inSameThread ==> Ops() == old(Ops()) + [Op(Update, chan)] && wakeups == old(wakeups) + 1
      ensures inSameThread ==> elems == [] && Watches(Abs(), chan.fd, DisableWrite(old(chan.events)))
    {
      hide Apply, ApplyAll, Slots, Ops;
      ghost var t, ops, es := Abs(), Ops() + [Op(Update, chan)], Snapshot(Ops() + [Op(Update, chan)]);
      chan.WriteEventDisable();
      assert Abs() == t && Ops() + [Op(Update, chan)] == ops;
      SameOutcome(t, es, Snapshot(ops));
      UpdateChannelEvent(chan, inSameThread);
    }

    /** `channel_event_activate`: the slot must be live. */
    method Activate(fd: int, res: bv8) returns (a: Activation)
      requires 0 <= fd < entries.Length ==> entries[fd] != null
      ensures a == if fd < 0 then Ignored
                   else if fd >= entries.Length then OutOfRange
                   else Fires(entries[fd], ReadEnabled(res) && entries[fd].onRead, WriteEnabled(res) && entries[fd].onWrite)
      ensures a.Fires? && Agreeing(Abs()) ==> a.chan.fd == fd && fd in interest
    {
      if fd < 0 {
        return Ignored;
      }
      if fd >= entries.Length {
        return OutOfRange;
      }
      assert Slots()[fd] == SlotOf(entries[fd]);
      var chan: Channel := entries[fd];
      a := Fires(chan, res & EVENT_READ != 0 && chan.onRead, res & EVENT_WRITE != 0 && chan.onWrite);
    }
  }

  /** A registered descriptor is watched with this mask. */
  ghost predicate Watches<C>(t: Table<C>, fd: int, events: bv8) {
    0 <= fd < |t.slots| && t.slots[fd] != Empty && fd in t.interest ==> t.interest[fd] == ToEpoll(events)
  }

  lemma SnapshotLast(ops: seq<Op>, op: Op)
    ensures Snapshot(ops + [op]) == Snapshot(ops) + [EntryOf(op)]
  {
    assert (ops + [op])[..|ops|] == ops;
  }

  lemma LastIsUpdate<C>(t: Table<C>, es: seq<Entry<C>>)
    requires es != [] && es[|es| - 1].kind == Update && ApplyAll(t, es).Applied?
    ensures Watches(ApplyAll(t, es).table, es[|es| - 1].fd, es[|es| - 1].events)
  {
  }

  /** Whether a drain fails does not depend on the masks. */
  lemma {:induction false} SameOutcome<C>(t: Table<C>, es: seq<Entry<C>>, fs: seq<Entry<C>>)
    requires |es| == |fs|
    requires forall i :: 0 <= i < |es| ==> es[i].kind == fs[i].kind && es[i].chan == fs[i].chan && es[i].fd == fs[i].fd
    ensures ApplyAll(t, es).Applied? <==> ApplyAll(t, fs).Applied?
    ensures ApplyAll(t, es).Applied? ==>
              var u, v := ApplyAll(t, es).table, ApplyAll(t, fs).table;
              u.slots == v.slots && u.interest.Keys == v.interest.Keys
  {
    if es != [] {
      SameOutcome(t, es[..|es| - 1], fs[..|fs| - 1]);
    }
  }

  lemma PrefixStart<C>(t: Table<C>, es: seq<Entry<C>>)
    ensures ApplyAll(t, es[..0]) == Applied(t)
  {
  }

  lemma PrefixStep<C>(t: Table<C>, es: seq<Entry<C>>, k: nat)
    requires k < |es| && ApplyAll(t, es).Applied?
    ensures ApplyAll(t, es[..k]).Applied? && ApplyAll(t, es[..k + 1]).Applied?
    ensures ApplyAll(t, es[..k + 1]) == Apply(ApplyAll(t, es[..k]).table, es[k])
  {
    PrefixApplies(t, es, k + 1);
    assert es[..k + 1][..k] == es[..k];
  }

  lemma {:induction false} PrefixApplies<C>(t: Table<C>, es: seq<Entry<C>>, k: nat)
    requires k <= |es| && ApplyAll(t, es).Applied?
    ensures ApplyAll(t, es[..k]).Applied?
  {
    if k == |es| {
      assert es[..k] == es;
    } else {
      PrefixApplies(t, es[..|es| - 1], k);
      assert es[..|es| - 1][..k] == es[..k];
    }
  }
}
