/** The pool of worker loops and its round robin (lib/thread_pool.c). */
module ThreadPools {
  import opened CStrings
  import opened StartHandshake

  /** What a started pool hands out from: the main loop and the workers' loops. */
  datatype Pool = Pool(main: nat, workers: seq<nat>, position: nat) {
    predicate Ok() {
      position == 0 || position < |workers|
    }

    function Selected(): nat
      requires Ok()
    {
      if workers == [] then main else workers[position]
    }

    function Advance(): Pool {
      if workers == [] then this
      else this.(position := if position + 1 >= |workers| then 0 else position + 1)
    }
  }

  /** The pool after `m` selections, and the loops selected. */
  function After(p: Pool, m: nat): (q: Pool)
    requires p.Ok()
    ensures q.Ok() && q.main == p.main && q.workers == p.workers
  {
    if m == 0 then p else After(p, m - 1).Advance()
  }

  function Picks(p: Pool, m: nat): (picks: seq<nat>)
    requires p.Ok()
    ensures |picks| == m
  {
    if m == 0 then [] else Picks(p, m - 1) + [After(p, m - 1).Selected()]
  }

  lemma NextTurn(m: nat, n: nat)
    requires n > 0
    ensures (m + 1) % n == if m % n + 1 >= n then 0 else m % n + 1
    ensures (m + 1) / n == m / n + if m % n + 1 >= n then 1 else 0
  {
    var q, r := m / n, m % n;
    assert m == q * n + r;
    if r + 1 >= n {
      assert m + 1 == (q + 1) * n;
      Quotient(m + 1, q + 1, 0, n);
    } else {
      Quotient(m + 1, q, r + 1, n);
    }
  }

  lemma Quotient(m: nat, q: nat, r: nat, n: nat)
    requires r < n && m == q * n + r
    ensures m / n == q && m % n == r
  {
    var q', r' := m / n, m % n;
    assert m == q' * n + r';
    if q > q' {
      Apart(q, q', n);
    } else if q < q' {
      Apart(q', q, n);
    }
  }

  lemma {:induction false} Apart(a: nat, b: nat, n: nat)
    requires a > b
    ensures a * n >= b * n + n
  {
    assert a * n == (a - 1) * n + n;
    if a - 1 > b {
      Apart(a - 1, b, n);
    }
  }

  /** From a fresh pool, the m-th selection goes to worker m mod n. */
  lemma {:induction false} RoundRobin(p: Pool, m: nat)
    requires p.workers != [] && p.position == 0
    ensures After(p, m).position == m % |p.workers|
    ensures forall k :: 0 <= k < m ==> Picks(p, m)[k] == p.workers[k % |p.workers|]
  {
    if m > 0 {
      RoundRobin(p, m - 1);
      NextTurn(m - 1, |p.workers|);
    }
  }

  ghost predicate Distinct(xs: seq<nat>) {
    forall i, j :: 0 <= i < j < |xs| ==> xs[i] != xs[j]
  }

  function Share(p: Pool, m: nat, i: nat): nat
    requires p.Ok() && i < |p.workers|
  {
    multiset(Picks(p, m))[p.workers[i]]
  }

  function EvenShare(m: nat, i: nat, n: nat): nat
    requires n > 0
  {
    m / n + if i < m % n then 1 else 0
  }

  lemma ShareStep(p: Pool, m: nat, i: nat)
    requires p.position == 0 && i < |p.workers| && Distinct(p.workers) && m > 0
    ensures Share(p, m, i) == Share(p, m - 1, i) + if (m - 1) % |p.workers| == i then 1 else 0
  {
    hide Distinct, After;
    RoundRobin(p, m);
    var w := p.workers[(m - 1) % |p.workers|];
    assert Picks(p, m) == Picks(p, m - 1) + [w];
    SameWorker(p.workers, i, (m - 1) % |p.workers|);
  }

  lemma EvenShareStep(m: nat, i: nat, n: nat)
    requires i < n && m > 0
    ensures EvenShare(m, i, n) == EvenShare(m - 1, i, n) + if (m - 1) % n == i then 1 else 0
  {
    NextTurn(m - 1, n);
  }

  /** How often each worker is selected. */
  lemma {:induction false} Shares(p: Pool, m: nat, i: nat)
    requires p.position == 0 && i < |p.workers| && Distinct(p.workers)
    ensures Share(p, m, i) == EvenShare(m, i, |p.workers|)
  {
    hide Distinct, Share, EvenShare;
    if m == 0 {
      NoShares(p, i);
    } else {
      Shares(p, m - 1, i);
      ShareStep(p, m, i);
      EvenShareStep(m, i, |p.workers|);
    }
  }

  lemma NoShares(p: Pool, i: nat)
    requires p.position == 0 && i < |p.workers|
    ensures Share(p, 0, i) == 0 == EvenShare(0, i, |p.workers|)
  {
  }

  lemma SameWorker(xs: seq<nat>, i: nat, j: nat)
    requires Distinct(xs) && i < |xs| && j < |xs|
    ensures xs[i] == xs[j] <==> i == j
  {
  }

  /** Fair assignment: any two workers' shares of `m` selections differ by at most one. */
  lemma Fair(p: Pool, m: nat, i: nat, j: nat)
    requires p.position == 0 && i < |p.workers| && j < |p.workers| && Distinct(p.workers)
    ensures Share(p, m, i) <= Share(p, m, j) + 1
  {
    Shares(p, m, i);
    Shares(p, m, j);
  }

  /** A pool without workers selects the main loop every time. */
  lemma {:induction false} MainOnly(p: Pool, m: nat)
    requires p.workers == [] && p.position == 0
    ensures After(p, m) == p && forall k :: 0 <= k < m ==> Picks(p, m)[k] == p.main
  {
    if m > 0 {
      MainOnly(p, m - 1);
    }
  }

  // ---- the code -------------------------------------------------------------------------------

  class ThreadPool {
    const mainLoop: nat
    const threadNumber: int
    var started: bool
    var loops: seq<Option<nat>>
    var position: int

    function Size(): nat {
      if threadNumber > 0 then threadNumber else 0
    }

    ghost predicate Valid()
      reads this
    {
      && (started ==> |loops| == Size() && forall i :: 0 <= i < |loops| ==> loops[i].Some?)
      && (position == 0 || 0 <= position < Size())
    }

    ghost function Abs(): (p: Pool)
      requires Valid() && started
      reads this
      ensures p.Ok()
    {
      var ls := loops;
      Pool(mainLoop, seq(|ls|, i requires 0 <= i < |ls| => ls[i].value), position)
    }

    constructor (main: nat, number: int)
      ensures Valid() && !started && mainLoop == main && threadNumber == number && position == 0
    {
      mainLoop, threadNumber, started, loops, position := main, number, false, [], 0;
    }

    /** `thread_pool_start`: `runs[i]` is how the start of worker `i` went, `made[i]` the loop it made. */
    method Start(runs: seq<seq<Action>>, made: seq<nat>)
      requires Valid() && !started && position == 0
      requires |runs| == |made| == Size()
      requires forall i :: 0 <= i < |runs| ==> Execute(runs[i], Some(made[i])).Some?
      requires forall i :: 0 <= i < |runs| ==> Execute(runs[i], Some(made[i])).value.starter.Returned?
      modifies this
      ensures Valid() && started && Abs() == Pool(mainLoop, made, 0)
    {
      started := true;
      loops := [];
      if threadNumber <= 0 {
        return;
      }
      for i := 0 to threadNumber
        invariant |loops| == i && started && position == 0
        invariant forall k :: 0 <= k < i ==> loops[k] == Some(made[k])
      {
        var s := Execute(runs[i], Some(made[i])).value;
        assert Reachable(s, Some(made[i]));
        ReturnsTheLoop(s, Some(made[i]));
        loops := loops + [s.loop];
      }
    }

    /** `thread_pool_get_loop` */
    method GetLoop() returns (selected: Option<nat>)
      requires Valid() && started
      modifies this`position
      ensures Valid() && selected == Some(old(Abs()).Selected()) && Abs() == old(Abs()).Advance()
    {
      selected := Some(mainLoop);
      if threadNumber > 0 {
        selected := loops[position];
        position := position + 1;
        if position >= threadNumber {
          position := 0;
        }
      }
    }
  }
}
