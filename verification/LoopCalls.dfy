/** Whole calls of the owner into its loop, step by step (lib/event_loop.c:119-171). */
module LoopCalls {
  import opened EventTables
  import opened LoopProtocol

  /** An operation submitted by the owner: lock, append, unlock ... */
  function SubmitCalls(op: Op): seq<Action> {
    [Begin(OWNER, op)] + [Acquire(OWNER)] + [Append(OWNER)] + [Release(OWNER)]
  }

  /** ... then drained on the same thread. */
  function DrainCalls(): seq<Action> {
    [Branch(OWNER)] + [EnterDrain] + [ApplyNext] + [FinishDrain]
  }

  lemma {:induction false} ExecuteJoin(s: State, first: seq<Action>, m: State, more: seq<Action>)
    requires Execute(s, first) == At(m)
    ensures Execute(s, first + more) == Execute(m, more)
  {
    hide Enabled, Do;
    if more == [] {
      assert first + more == first;
    } else {
      ExecuteJoin(s, first, m, more[..|more| - 1]);
      assert (first + more)[..|first + more| - 1] == first + more[..|more| - 1];
    }
  }

  lemma Execute1(s: State, a: Action)
    requires Enabled(s, a)
    ensures Execute(s, [a]) == At(Do(s, a))
  {
    hide Enabled, Do;
    assert [a][..0] == [];
    assert Execute(s, []) == At(s);
  }

  lemma Execute4(s: State, a: Action, b: Action, c: Action, d: Action)
    requires Enabled(s, a) && Enabled(Do(s, a), b) && Enabled(Do(Do(s, a), b), c)
    requires Enabled(Do(Do(Do(s, a), b), c), d)
    ensures Execute(s, [a] + [b] + [c] + [d]) == At(Do(Do(Do(Do(s, a), b), c), d))
  {
    hide Enabled, Do, Execute;
    Execute1(s, a);
    Execute1(Do(s, a), b);
    ExecuteJoin(s, [a], Do(s, a), [b]);
    Execute1(Do(Do(s, a), b), c);
    ExecuteJoin(s, [a] + [b], Do(Do(s, a), b), [c]);
    Execute1(Do(Do(Do(s, a), b), c), d);
    ExecuteJoin(s, [a] + [b] + [c], Do(Do(Do(s, a), b), c), [d]);
  }

  /** The owner runs code that may call into the loop, and nothing is pending. */
  ghost predicate Calm(s: State) {
    && |s.pcs| > 0 && |s.chans| > 0 && InUserCode(s.pcs[OWNER]) && s.lock == Free
    && !s.flag && !s.asserted && s.pending == [] && s.outcome.Applied?
  }

  lemma OwnerBegins(s: State, op: Op)
    requires Calm(s) && OpOk(s.chans, op)
    ensures Enabled(s, Begin(OWNER, op)) && Enabled(Do(s, Begin(OWNER, op)), Acquire(OWNER))
    ensures Do(Do(s, Begin(OWNER, op)), Acquire(OWNER)) ==
            s.(pcs := s.pcs[OWNER := Holding(op, BackOf(s.pcs[OWNER]))], lock := Held(OWNER))
  {
    hide Apply, Fire;
    var back := BackOf(s.pcs[OWNER]);
    assert s.pcs[OWNER := Submit(op, back)][OWNER := Holding(op, back)] == s.pcs[OWNER := Holding(op, back)];
  }

  lemma OwnerAppends(s: State, op: Op)
    requires |s.pcs| > 0 && |s.chans| > 0 && s.outcome.Applied? && s.pcs[OWNER].Holding? && s.pcs[OWNER].op == op
    ensures Enabled(s, Append(OWNER)) && Enabled(Do(s, Append(OWNER)), Release(OWNER))
    ensures Do(Do(s, Append(OWNER)), Release(OWNER)) ==
            s.(pcs := s.pcs[OWNER := Released(s.pcs[OWNER].back)], lock := Free,
               pending := s.pending + [op], enqueued := s.enqueued + [op])
  {
    hide Apply, Fire;
    var back := s.pcs[OWNER].back;
    assert s.pcs[OWNER := Appended(back)][OWNER := Released(back)] == s.pcs[OWNER := Released(back)];
  }

  lemma SubmitByOwner(s: State, op: Op)
    requires Calm(s) && OpOk(s.chans, op)
    ensures Execute(s, SubmitCalls(op)) ==
            At(s.(pcs := s.pcs[OWNER := Released(BackOf(s.pcs[OWNER]))],
                  pending := [op], enqueued := s.enqueued + [op]))
  {
    hide Execute, Apply, Fire, Enabled, Do;
    OwnerBegins(s, op);
    OwnerAppends(Do(Do(s, Begin(OWNER, op)), Acquire(OWNER)), op);
    Execute4(s, Begin(OWNER, op), Acquire(OWNER), Append(OWNER), Release(OWNER));
    var back := BackOf(s.pcs[OWNER]);
    assert s.pcs[OWNER := Holding(op, back)][OWNER := Released(back)] == s.pcs[OWNER := Released(back)];
    assert [] + [op] == [op];
  }

  lemma OwnerEnters(s: State)
    requires |s.pcs| > 0 && |s.chans| > 0 && s.pcs[OWNER].Released? && s.lock == Free && s.outcome.Applied?
    ensures Enabled(s, Branch(OWNER)) && Enabled(Do(s, Branch(OWNER)), EnterDrain)
    ensures Do(Do(s, Branch(OWNER)), EnterDrain) ==
            s.(pcs := s.pcs[OWNER := Draining(0, s.pcs[OWNER].back)], lock := Held(OWNER), flag := true)
  {
    hide Apply, Fire, EntryFor;
    var back := s.pcs[OWNER].back;
    assert s.pcs[OWNER := Enter(back)][OWNER := Draining(0, back)] == s.pcs[OWNER := Draining(0, back)];
  }

  lemma OwnerApplies(s: State, op: Op)
    requires |s.pcs| > 0 && |s.chans| > 0 && s.pcs[OWNER].Draining? && s.pcs[OWNER].k == 0 && s.pending == [op]
    requires s.outcome.Applied? && OpOk(s.chans, op) && Apply(s.outcome.table, EntryFor(s.chans, op)).Applied?
    ensures Enabled(s, ApplyNext) && Enabled(Do(s, ApplyNext), FinishDrain)
    ensures Do(Do(s, ApplyNext), FinishDrain) ==
            s.(pcs := s.pcs[OWNER := Resume(s.pcs[OWNER].back)], pending := [], flag := false, lock := Free,
               outcome := Apply(s.outcome.table, EntryFor(s.chans, op)),
               applied := s.applied + [EntryFor(s.chans, op)])
  {
    hide Apply, Fire, EntryFor, Resume;
    var back := s.pcs[OWNER].back;
    assert s.pcs[OWNER := Draining(1, back)][OWNER := Resume(back)] == s.pcs[OWNER := Resume(back)];
  }

  lemma DrainByOwner(s: State, op: Op)
    requires |s.pcs| > 0 && s.pcs[OWNER].Released? && s.lock == Free && !s.flag && s.pending == [op]
    requires s.outcome.Applied? && OpOk(s.chans, op)
    requires Apply(s.outcome.table, EntryFor(s.chans, op)).Applied?
    ensures Execute(s, DrainCalls()) ==
            At(s.(pcs := s.pcs[OWNER := Resume(s.pcs[OWNER].back)], pending := [],
                  outcome := Apply(s.outcome.table, EntryFor(s.chans, op)),
                  applied := s.applied + [EntryFor(s.chans, op)]))
  {
    hide Execute, Apply, Fire, EntryFor, Enabled, Do, Resume;
    OwnerEnters(s);
    OwnerApplies(Do(Do(s, Branch(OWNER)), EnterDrain), op);
    Execute4(s, Branch(OWNER), EnterDrain, ApplyNext, FinishDrain);
    var back := s.pcs[OWNER].back;
    assert s.pcs[OWNER := Draining(0, back)][OWNER := Resume(back)] == s.pcs[OWNER := Resume(back)];
  }

  /** One whole call: afterwards the owner is where it was, with the operation applied. */
  lemma OwnerCall(s: State, op: Op)
    requires Calm(s) && OpOk(s.chans, op) && Apply(s.outcome.table, EntryFor(s.chans, op)).Applied?
    ensures Execute(s, SubmitCalls(op) + DrainCalls()) ==
            At(s.(outcome := Apply(s.outcome.table, EntryFor(s.chans, op)),
                  enqueued := s.enqueued + [op], applied := s.applied + [EntryFor(s.chans, op)]))
  {
    hide Execute, Apply, EntryFor, SubmitCalls, DrainCalls;
    SubmitByOwner(s, op);
    var m := Execute(s, SubmitCalls(op)).state;
    DrainByOwner(m, op);
    ExecuteJoin(s, SubmitCalls(op), m, DrainCalls());
    var pc := s.pcs[OWNER];
    assert Resume(BackOf(pc)) == pc;
    assert s.pcs[OWNER := Released(BackOf(pc))][OWNER := pc] == s.pcs;
  }
}
