/** The slot array and the kernel's interest set, as the pending operations change them
    (lib/event_loop.c, lib/channel_map.c, lib/epoll_dispatcher.c). */
module EventTables {
  import opened Channels

  const FIRST_CAPACITY: nat := 32

  datatype Kind = Add | Remove | Update

  /** A queued operation, with what the drain reads through the channel pointer. */
  datatype Entry<C> = Entry(kind: Kind, chan: C, fd: int, events: bv8)

  datatype Slot<C> = Empty | Holds(chan: C, fd: int)

  /** `interest` maps each descriptor registered with epoll to its event mask. */
  datatype Table<C> = Table(slots: seq<Slot<C>>, interest: map<int, bv32>)

  /** `Crash`: a null or out-of-range slot is dereferenced. */
  datatype Outcome<C> = Applied(table: Table<C>) | Crash

  /** The doubling loop of `map_make_space`: from `n`, or 32, to beyond `slot`. */
  function Doubled(n: nat, slot: nat): (r: nat)
    requires n > 0
    ensures r > slot && r >= n
    ensures r == n || r <= 2 * slot
    decreases if slot < n then 0 else slot + 1 - n
  {
    if slot < n then n else Doubled(2 * n, slot)
  }

  function Capacity(n: nat, slot: nat): (r: nat)
    ensures r > slot && r >= n
    ensures r == n || r == FIRST_CAPACITY || r <= 2 * slot
  {
    if slot < n then n else Doubled(if n == 0 then FIRST_CAPACITY else n, slot)
  }

  function Pow2(k: nat): nat {
    if k == 0 then 1 else 2 * Pow2(k - 1)
  }

  function Times(n: nat, k: nat): nat {
    n * Pow2(k)
  }

  lemma TimesDouble(n: nat, k: nat)
    ensures Times(n, k + 1) == Times(2 * n, k)
  {
    assert n * (2 * Pow2(k)) == (2 * n) * Pow2(k);
  }

  lemma TimesOne(n: nat)
    ensures Times(n, 0) == n
  {
  }

  lemma {:induction false} DoubledIs(n: nat, slot: nat) returns (k: nat)
    requires n > 0
    ensures Doubled(n, slot) == Times(n, k) && (k > 0 ==> Times(n, k - 1) <= slot)
    decreases if slot < n then 0 else slot + 1 - n
  {
    hide Times;
    TimesOne(n);
    if slot < n {
      k := 0;
    } else {
      var j := DoubledIs(2 * n, slot);
      k := j + 1;
      TimesDouble(n, j);
      if j > 0 {
        TimesDouble(n, j - 1);
      }
    }
  }

  /** The array is left alone if the slot is in it; otherwise its size, or 32, is doubled as often as
      it takes and no more. */
  lemma CapacityDoubles(n: nat, slot: nat) returns (k: nat)
    ensures slot < n ==> Capacity(n, slot) == n
    ensures slot >= n ==>
              var base := if n == 0 then 32 else n;
              && Capacity(n, slot) == Times(base, k) > slot
              && (k > 0 ==> Times(base, k - 1) <= slot)
  {
    hide Times;
    k := 0;
    if slot >= n {
      k := DoubledIs(if n == 0 then FIRST_CAPACITY else n, slot);
    }
  }

  function Widen<C>(slots: seq<Slot<C>>, slot: nat): (r: seq<Slot<C>>)
    ensures |r| == Capacity(|slots|, slot)
    ensures slots <= r && forall i :: |slots| <= i < |r| ==> r[i] == Empty
  {
    slots + seq(Capacity(|slots|, slot) - |slots|, _ => Empty)
  }

  /** One pending operation. */
  function Apply<C>(t: Table<C>, e: Entry<C>): Outcome<C> {
    if e.fd < 0 then Applied(t)
    else match e.kind
      case Add =>
        var slots := Widen(t.slots, e.fd);
        if slots[e.fd] != Empty then Applied(t.(slots := slots))
        else Applied(Table(slots[e.fd := Holds(e.chan, e.fd)],
                           if e.fd in t.interest then t.interest else t.interest[e.fd := ToEpoll(e.events)]))
      case Remove =>
        if e.fd >= |t.slots| then Applied(t)
        else if t.slots[e.fd] == Empty then Crash
        else Applied(Table(t.slots[e.fd := Empty], t.interest - {t.slots[e.fd].fd}))
      case Update =>
        if e.fd >= |t.slots| then Crash
        else if t.slots[e.fd] == Empty || e.fd !in t.interest then Applied(t)
        else Applied(t.(interest := t.interest[e.fd := ToEpoll(e.events)]))
  }

  /** A drain: the operations in list order. */
  function ApplyAll<C>(t: Table<C>, es: seq<Entry<C>>): Outcome<C> {
    if es == [] then Applied(t)
    else match ApplyAll(t, es[..|es| - 1])
      case Crash => Crash
      case Applied(u) => Apply(u, es[|es| - 1])
  }

  function EmptyTable<C>(): Table<C> {
    Table([], map[])
  }

  /** Slots and kernel agree: a descriptor is registered exactly when its slot holds a channel,
      and that channel has this descriptor. */
  ghost predicate Agreeing<C>(t: Table<C>) {
    && (forall fd :: fd in t.interest ==> 0 <= fd < |t.slots| && t.slots[fd].Holds?)
    && (forall fd :: 0 <= fd < |t.slots| && t.slots[fd].Holds? ==> fd in t.interest && t.slots[fd].fd == fd)
  }

  lemma ApplyKeepsAgreement<C>(t: Table<C>, e: Entry<C>)
    requires Agreeing(t) && Apply(t, e).Applied?
    ensures Agreeing(Apply(t, e).table)
  {
  }

  // ---- what a history of operations means, without the array -----------------------------

  /** The channel registered for each descriptor. */
  function Live<C>(es: seq<Entry<C>>): map<int, C> {
    if es == [] then map[]
    else
      var live, e := Live(es[..|es| - 1]), es[|es| - 1];
      match e.kind
      case Add => if e.fd < 0 || e.fd in live then live else live[e.fd := e.chan]
      case Remove => live - {e.fd}
      case Update => live
  }

  /** The mask each registered descriptor was last given. */
  function Masks<C>(es: seq<Entry<C>>): map<int, bv32> {
    if es == [] then map[]
    else
      var masks, e := Masks(es[..|es| - 1]), es[|es| - 1];
      match e.kind
      case Add => if e.fd < 0 || e.fd in masks then masks else masks[e.fd := ToEpoll(e.events)]
      case Remove => masks - {e.fd}
      case Update => if e.fd in masks then masks[e.fd := ToEpoll(e.events)] else masks
  }

  /** The length of the slot array: only additions make it grow. */
  function Reach<C>(es: seq<Entry<C>>): nat {
    if es == [] then 0
    else
      var n, e := Reach(es[..|es| - 1]), es[|es| - 1];
      if e.kind == Add && e.fd >= 0 then Capacity(n, e.fd) else n
  }

  /** The `i`-th operation does not touch a missing slot. */
  predicate SafeAt<C>(es: seq<Entry<C>>, i: nat)
    requires i < |es|
  {
    var before, e := es[..i], es[i];
    e.fd >= 0 ==>
      && (e.kind == Update ==> e.fd < Reach(before))
      && (e.kind == Remove && e.fd < Reach(before) ==> e.fd in Live(before))
  }

  ghost predicate Safe<C>(es: seq<Entry<C>>) {
    forall i: nat :: i < |es| ==> SafeAt(es, i)
  }

  /** The table that a history stands for. */
  ghost predicate Represents<C>(t: Table<C>, es: seq<Entry<C>>) {
    && Agreeing(t)
    && |t.slots| == Reach(es)
    && t.interest == Masks(es)
    && Live(es).Keys == Masks(es).Keys
    && (forall fd :: fd in Live(es) ==> 0 <= fd < |t.slots| && t.slots[fd] == Holds(Live(es)[fd], fd))
  }

  lemma ApplyRepresents<C>(t: Table<C>, es: seq<Entry<C>>, e: Entry<C>)
    requires Represents(t, es)
    ensures SafeAt(es + [e], |es|) <==> Apply(t, e).Applied?
    ensures Apply(t, e).Applied? ==> Represents(Apply(t, e).table, es + [e])
  {
    assert (es + [e])[..|es|] == es;
    if Apply(t, e).Applied? {
      ApplyKeepsAgreement(t, e);
    }
  }

  lemma SafeSnoc<C>(es: seq<Entry<C>>, e: Entry<C>)
    ensures Safe(es + [e]) <==> Safe(es) && SafeAt(es + [e], |es|)
  {
    forall i: nat | i < |es| ensures SafeAt(es + [e], i) == SafeAt(es, i) {
      assert (es + [e])[..i] == es[..i];
    }
  }

  /** Draining a history from the empty table dereferences no missing slot exactly when the
      history is safe, and then slots and kernel are what the history means. */
  lemma {:induction false} DrainExact<C>(es: seq<Entry<C>>)
    ensures ApplyAll(EmptyTable(), es).Applied? <==> Safe(es)
    ensures Safe(es) ==> Represents(ApplyAll(EmptyTable(), es).table, es)
  {
    if es != [] {
      var init, e := es[..|es| - 1], es[|es| - 1];
      assert es == init + [e];
      DrainExact(init);
      SafeSnoc(init, e);
      if Safe(init) {
        ApplyRepresents(ApplyAll(EmptyTable(), init).table, init, e);
      }
    }
  }

  // ---- the discipline callers follow ------------------------------------------------------

  /** Before `i` the descriptor was added, and not removed since. */
  ghost predicate AddedBefore<C>(es: seq<Entry<C>>, i: nat, fd: int)
    requires i <= |es|
  {
    exists j :: 0 <= j < i && es[j].kind == Add && es[j].fd == fd && Kept(es, j, i, fd)
  }

  ghost predicate Kept<C>(es: seq<Entry<C>>, j: int, i: nat, fd: int)
    requires 0 <= j < i <= |es|
  {
    forall k :: j < k < i ==> !(es[k].kind == Remove && es[k].fd == fd)
  }

  /** Each update and each removal comes after its descriptor's addition, and none after the
      removal. */
  ghost predicate Disciplined<C>(es: seq<Entry<C>>) {
    forall i :: 0 <= i < |es| && es[i].kind != Add && es[i].fd >= 0 ==> AddedBefore(es, i, es[i].fd)
  }

  lemma {:induction false} LiveMeansAdded<C>(es: seq<Entry<C>>, fd: int)
    requires fd >= 0
    ensures fd in Live(es) <==> AddedBefore(es, |es|, fd)
    ensures fd in Live(es) ==> fd < Reach(es)
  {
    if es != [] {
      var n := |es| - 1;
      var init, e := es[..n], es[n];
      LiveMeansAdded(init, fd);
      if AddedBefore(init, n, fd) && !(e.kind == Remove && e.fd == fd) {
        var j :| 0 <= j < n && init[j].kind == Add && init[j].fd == fd && Kept(init, j, n, fd);
        assert Kept(es, j, |es|, fd);
        assert es[j] == init[j];
      }
      if e.kind == Add && e.fd == fd {
        assert Kept(es, n, |es|, fd);
      }
      if AddedBefore(es, |es|, fd) {
        var j :| 0 <= j < |es| && es[j].kind == Add && es[j].fd == fd && Kept(es, j, |es|, fd);
        if j < n {
          assert init[j] == es[j] && Kept(init, j, n, fd);
        }
      }
    }
  }

  /** Under the discipline every update and removal reaches an in-range slot that holds the
      channel registered for that descriptor. */
  lemma DisciplinedIsSafe<C>(es: seq<Entry<C>>)
    requires Disciplined(es)
    ensures Safe(es)
    ensures forall i :: 0 <= i < |es| && es[i].kind != Add && es[i].fd >= 0 ==>
              es[i].fd in Live(es[..i]) && es[i].fd < Reach(es[..i])
  {
    forall i: nat | i < |es| && es[i].kind != Add && es[i].fd >= 0
      ensures es[i].fd in Live(es[..i]) && es[i].fd < Reach(es[..i])
    {
      var fd, before := es[i].fd, es[..i];
      var j :| 0 <= j < i && es[j].kind == Add && es[j].fd == fd && Kept(es, j, i, fd);
      assert before[j] == es[j] && Kept(before, j, i, fd);
      LiveMeansAdded(before, fd);
    }
  }
}
