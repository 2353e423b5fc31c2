/** Starting a worker thread (lib/event_loop_thread.c): the starter waits on a condition variable
    until the worker has made its event loop. */
module StartHandshake {
  import opened CStrings

  datatype StarterPc = Creating | Locking | Testing | Waiting | Waking | Unlocking | Returning | Returned

  datatype WorkerPc = Unborn | Entering | Making | Signalling | Leaving | Calling | Running | Dead

  datatype Thread = Starter | Worker

  /** `loop` is the field both threads share; `result` what `event_loop_thread_start` returned. */
  datatype State = State(
    starter: StarterPc,
    worker: WorkerPc,
    holder: Option<Thread>,
    loop: Option<nat>,
    result: Option<nat>)

  const INITIAL := State(Creating, Unborn, None, None, None)

  datatype Action = Step(t: Thread) | Spurious

  /** A waiting thread moves only when it is woken; an aborted process does not move. */
  predicate Enabled(s: State, a: Action) {
    !s.worker.Dead? &&
    match a
    case Spurious => s.starter.Waiting?
    case Step(Starter) =>
      (match s.starter
       case Locking => s.holder.None?
       case Waking => s.holder.None?
       case Waiting => false
       case Returned => false
       case _ => true)
    case Step(Worker) =>
      (match s.worker
       case Unborn => false
       case Entering => s.holder.None?
       case Running => false
       case _ => true)
  }

  /** `made` is what `event_loop_init_with_name` returns to the worker. */
  function Do(s: State, a: Action, made: Option<nat>): State
    requires Enabled(s, a)
  {
    match a
    case Spurious => s.(starter := Waking)
    case Step(Starter) =>
      (match s.starter
       case Creating => s.(starter := Locking, worker := Entering)
       case Locking => s.(starter := Testing, holder := Some(Starter))
       case Testing =>
         if s.loop.None? then s.(starter := Waiting, holder := None) else s.(starter := Unlocking)
       case Waking => s.(starter := Testing, holder := Some(Starter))
       case Unlocking => s.(starter := Returning, holder := None)
       case Returning => s.(starter := Returned, result := s.loop))
    case Step(Worker) =>
      (match s.worker
       case Entering => s.(worker := Making, holder := Some(Worker))
       case Making => s.(worker := Signalling, loop := made)
       case Signalling => s.(worker := Leaving, starter := if s.starter.Waiting? then Waking else s.starter)
       case Leaving => s.(worker := Calling, holder := None)
       case Calling => s.(worker := if s.loop.None? then Dead else Running))
  }

  /** The state after a run, if every action was possible when it was taken. */
  function Execute(run: seq<Action>, made: Option<nat>): Option<State> {
    if run == [] then Some(INITIAL)
    else match Execute(run[..|run| - 1], made)
      case None => None
      case Some(s) =>
        var a := run[|run| - 1];
        if Enabled(s, a) then Some(Do(s, a, made)) else None
  }

  ghost predicate Reachable(s: State, made: Option<nat>) {
    exists run :: Execute(run, made) == Some(s)
  }

  // ---- what every interleaving keeps ----------------------------------------------------------

  predicate Good(s: State, made: Option<nat>) {
    && (s.holder == Some(Starter) <==> s.starter.Testing? || s.starter.Unlocking?)
    && (s.holder == Some(Worker) <==> s.worker.Making? || s.worker.Signalling? || s.worker.Leaving?)
    && (s.starter.Creating? <==> s.worker.Unborn?)
    && s.loop == (if s.worker.Unborn? || s.worker.Entering? || s.worker.Making? then None else made)
    && (s.starter.Unlocking? || s.starter.Returning? || s.starter.Returned? ==> s.loop.Some?)
    && s.result == (if s.starter.Returned? then s.loop else None)
    && (s.worker.Dead? ==> made.None?)
    && (s.worker.Running? ==> made.Some?)
    // no lost wakeup: a starter asleep beside a finished loop is about to be signalled
    && (s.starter.Waiting? && s.loop.Some? ==> s.worker.Signalling?)
  }

  lemma StepKeepsGood(s: State, a: Action, made: Option<nat>)
    requires Good(s, made) && Enabled(s, a)
    ensures Good(Do(s, a, made), made)
  {
    match a {
      case Spurious =>
      case Step(Starter) =>
      case Step(Worker) =>
    }
  }

  lemma {:induction false} RunKeepsGood(run: seq<Action>, made: Option<nat>)
    ensures var s := Execute(run, made); s.Some? ==> Good(s.value, made)
  {
    hide Good, Enabled, Do;
    if run == [] {
      InitiallyGood(made);
    } else {
      RunKeepsGood(run[..|run| - 1], made);
      var s := Execute(run[..|run| - 1], made);
      if s.Some? && Enabled(s.value, run[|run| - 1]) {
        StepKeepsGood(s.value, run[|run| - 1], made);
      }
    }
  }

  lemma InitiallyGood(made: Option<nat>)
    ensures Good(INITIAL, made)
  {
  }

  /** `event_loop_thread_start` returns nothing but the loop the worker made. */
  lemma ReturnsTheLoop(s: State, made: Option<nat>)
    requires Reachable(s, made) && s.starter.Returned?
    ensures made.Some? && s.result == made && s.loop == made
  {
    var run :| Execute(run, made) == Some(s);
    RunKeepsGood(run, made);
  }

  predicate Settled(s: State) {
    !Enabled(s, Step(Starter)) && !Enabled(s, Step(Worker))
  }

  /** No deadlock: the threads come to rest only when the start has returned and the worker runs
      its loop, or, when no loop could be made, when the process has aborted. */
  lemma RestIsSuccess(s: State, made: Option<nat>)
    requires Reachable(s, made)
    ensures Settled(s) <==> if made.Some? then s.starter.Returned? && s.worker.Running? else s.worker.Dead?
  {
    var run :| Execute(run, made) == Some(s);
    RunKeepsGood(run, made);
    AtRest(s, made);
  }

  lemma AtRest(s: State, made: Option<nat>)
    requires Good(s, made)
    ensures Settled(s) <==> if made.Some? then s.starter.Returned? && s.worker.Running? else s.worker.Dead?
  {
    match s.holder {
      case Some(Starter) => assert Enabled(s, Step(Starter)) || s.worker.Dead?;
      case Some(Worker) => assert Enabled(s, Step(Worker));
      case None => assert s.worker.Entering? || s.worker.Calling? ==> Enabled(s, Step(Worker));
    }
  }

  // ---- progress -------------------------------------------------------------------------------

  function StarterRank(pc: StarterPc): nat {
    match pc
    case Creating => 7
    case Locking => 6
    case Waking => 5
    case Testing => 4
    case Waiting => 3
    case Unlocking => 2
    case Returning => 1
    case Returned => 0
  }

  function WorkerRank(pc: WorkerPc): nat {
    match pc
    case Unborn => 5
    case Entering => 5
    case Making => 4
    case Signalling => 3
    case Leaving => 2
    case Calling => 1
    case Running => 0
    case Dead => 0
  }

  function Rank(s: State): nat {
    StarterRank(s.starter) + 3 * WorkerRank(s.worker)
  }

  function SpuriousIn(run: seq<Action>): nat {
    if run == [] then 0 else SpuriousIn(run[..|run| - 1]) + if run[|run| - 1].Spurious? then 1 else 0
  }

  lemma RankMoves(s: State, a: Action, made: Option<nat>)
    requires Good(s, made) && Enabled(s, a)
    ensures if a.Spurious? then Rank(Do(s, a, made)) == Rank(s) + 2 else Rank(Do(s, a, made)) < Rank(s)
  {
    match a {
      case Spurious =>
      case Step(Starter) =>
      case Step(Worker) =>
    }
  }

  /** Every interleaving comes to rest: with `k` spurious wakeups no run is longer than 22 + 3k. */
  lemma {:induction false} RunsEnd(run: seq<Action>, made: Option<nat>)
    ensures var s := Execute(run, made);
      s.Some? ==> |run| + Rank(s.value) <= 22 + 3 * SpuriousIn(run)
  {
    hide Enabled, Do, Rank, Good;
    if run == [] {
      InitialRank();
    } else {
      RunsEnd(run[..|run| - 1], made);
      var s := Execute(run[..|run| - 1], made);
      if s.Some? && Enabled(s.value, run[|run| - 1]) {
        RunKeepsGood(run[..|run| - 1], made);
        RankMoves(s.value, run[|run| - 1], made);
      }
    }
  }

  lemma InitialRank()
    ensures Rank(INITIAL) == 22
  {
  }

  /** A run that cannot be continued by either thread has started the worker: the start returned
      its loop, if one could be made. */
  lemma StartSucceeds(run: seq<Action>, made: Option<nat>)
    requires made.Some? && Execute(run, made).Some? && Settled(Execute(run, made).value)
    ensures var s := Execute(run, made).value;
      s.starter.Returned? && s.result == made && s.worker.Running? && |run| <= 22 + 3 * SpuriousIn(run)
  {
    hide Enabled, Do, Rank, Settled, Good;
    var s := Execute(run, made).value;
    assert Reachable(s, made);
    RestIsSuccess(s, made);
    ReturnsTheLoop(s, made);
    RunsEnd(run, made);
  }

  /** A spurious wakeup can happen, and does no harm: the starter tests again and sleeps again. */
  lemma SpuriousWakeup(made: Option<nat>)
    ensures var s := Execute([Step(Starter)] + [Step(Starter)] + [Step(Starter)], made);
      && s.Some? && s.value.starter.Waiting? && Enabled(s.value, Spurious)
      && var t := Do(s.value, Spurious, made);
         && Enabled(t, Step(Starter)) && Enabled(Do(t, Step(Starter), made), Step(Starter))
         && Do(Do(t, Step(Starter), made), Step(Starter), made) == s.value
  {
    var a := [Step(Starter)];
    assert a[..0] == [] && (a + a)[..1] == a && (a + a + a)[..2] == a + a;
    assert Execute([], made) == Some(INITIAL);
    assert Execute(a, made) == Some(State(Locking, Entering, None, None, None));
    assert Execute(a + a, made) == Some(State(Testing, Entering, Some(Starter), None, None));
    assert Execute(a + a + a, made) == Some(State(Waiting, Entering, None, None, None));
  }
}
