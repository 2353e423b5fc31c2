/** The rot13 echo server (src/main.c), from received bytes to delivered bytes. */
module Echo {
  import opened Buffers
  import opened Channels
  import opened Connections

  function Rot13(c: char): char {
    if 'a' <= c <= 'm' || 'A' <= c <= 'M' then (c as int + 13) as char
    else if 'n' <= c <= 'z' || 'N' <= c <= 'Z' then (c as int - 13) as char
    else c
  }

  /** Each of the 26 letters goes thirteen places round its alphabet, and everything else stays. */
  lemma Rot13Rotates(c: char)
    ensures 'a' <= c <= 'z' ==> Rot13(c) as int == 'a' as int + (c as int - 'a' as int + 13) % 26
    ensures 'A' <= c <= 'Z' ==> Rot13(c) as int == 'A' as int + (c as int - 'A' as int + 13) % 26
    ensures !('a' <= c <= 'z') && !('A' <= c <= 'Z') ==> Rot13(c) == c
  {
  }

  function Rot13All(xs: seq<char>): (r: seq<char>)
    ensures |r| == |xs|
    ensures forall i :: 0 <= i < |xs| ==> r[i] == Rot13(xs[i])
  {
    seq(|xs|, i requires 0 <= i < |xs| => Rot13(xs[i]))
  }

  lemma Rot13Twice(xs: seq<char>)
    ensures Rot13All(Rot13All(xs)) == xs
  {
  }

  // ---- one connection, any run -----------------------------------------------------------

  function Message(s: State, before: char, w: WriteResult): State {
    s.(input := []).Send(Rot13All(s.input), before, w)
  }

  /** `handle_read` with the echo callback, or `handle_write`. */
  function Handle(s: State, e: Event): State {
    match e
    case Writable(w) => s.Flush(w)
    case Readable(_, _, before, w) =>
      if Arrived(e) == [] then s else Message(s.(input := s.input + Arrived(e)), before, w)
  }

  function Run(es: seq<Event>): State {
    if es == [] then START else Handle(Run(es[..|es| - 1]), es[|es| - 1])
  }

  /** How many direct writes failed during the run. */
  function Failures(es: seq<Event>): nat {
    if es == [] then 0
    else
      var e := es[|es| - 1];
      Failures(es[..|es| - 1]) +
      (if Arrived(e) != [] && Fails(Run(es[..|es| - 1]), e.w) then 1 else 0)
  }

  lemma Rot13Joins(xs: seq<char>, ys: seq<char>)
    ensures Rot13All(xs + ys) == Rot13All(xs) + Rot13All(ys)
  {
  }

  lemma Rot13Step(xs: seq<char>, i: nat)
    requires i < |xs|
    ensures xs[i..][0] == xs[i] && xs[i..][1..] == xs[i + 1..]
    ensures Rot13All(xs[..i + 1]) == Rot13All(xs[..i]) + [Rot13(xs[i])]
  {
  }

  /** One handler call. */
  lemma HandleStream(s: State, e: Event)
    requires s.input == [] && s.Watched()
    ensures var s' := Handle(s, e);
      && s'.input == [] && s'.Watched()
      && s'.Stream() == s.Stream()
           + (if Arrived(e) != [] && Fails(s, e.w) then [e.before] else [])
           + Rot13All(Arrived(e))
  {
    match e {
      case Writable(w) =>
        FlushStream(s, w);
      case Readable(_, _, before, w) =>
        if Arrived(e) != [] {
          assert s.input + Arrived(e) == Arrived(e);
          SendStream(s, Rot13All(Arrived(e)), before, w);
        }
    }
  }

  /** Every run, whatever the chunks and the partial writes: nothing stays in the input buffer,
      unsent bytes are watched, each failed direct write adds one byte, and the stream is the
      rot13 of all bytes received exactly when no direct write failed. */
  lemma {:induction false} EchoExact(es: seq<Event>)
    ensures var s := Run(es);
      && s.input == [] && s.Watched()
      && |s.Stream()| == |Received(es)| + Failures(es)
      && (s.Stream() == Rot13All(Received(es)) <==> Failures(es) == 0)
  {
    hide Handle, Rot13All, State.Stream, State.Watched, Fails;
    if es == [] {
      NothingYet();
    } else {
      var init, e := es[..|es| - 1], es[|es| - 1];
      EchoExact(init);
      HandleStream(Run(init), e);
      Rot13Joins(Received(init), Arrived(e));
      StreamTally(Run(init).Stream(), Rot13All(Received(init)), Failures(init),
                  if Arrived(e) != [] && Fails(Run(init), e.w) then [e.before] else [], Rot13All(Arrived(e)));
    }
  }

  lemma NothingYet()
    ensures START.Watched() && START.Stream() == [] == Rot13All([])
  {
  }

  /** Without failures, draining what is buffered completes the delivery. */
  lemma DeliveredAll(es: seq<Event>)
    requires Failures(es) == 0 && Run(es).output == []
    ensures Run(es).wire == Rot13All(Received(es))
  {
    EchoExact(es);
  }

  /** Write reports deliver what is buffered, each at least one byte of it, and nothing else. */
  lemma {:induction false} Delivers(es: seq<Event>, ws: seq<WriteResult>)
    requires forall w :: w in ws ==> w.Wrote? && w.n > 0
    ensures var s, s' := Run(es), Run(es + Writes(ws));
      && s'.input == s.input && s'.Stream() == s.Stream()
      && |s'.output| <= (if |ws| < |s.output| then |s.output| - |ws| else 0)
      && (|ws| >= |s.output| ==> s'.wire == s.Stream())
  {
    hide Run, Writes, State.Flush, State.Stream;
    if ws == [] {
      assert es + Writes(ws) == es;
      NothingBuffered(Run(es));
    } else {
      var init, w := ws[..|ws| - 1], ws[|ws| - 1];
      Delivers(es, init);
      OneMoreWrite(es, ws);
      RunGrows(es + Writes(ws));
      FlushTakes(Run(es + Writes(init)), w);
    }
  }

  lemma RunGrows(es: seq<Event>)
    requires es != []
    ensures Run(es) == Handle(Run(es[..|es| - 1]), es[|es| - 1])
  {
  }

  /** After a run without failures, as many write reports as bytes are buffered complete the delivery. */
  lemma EchoDelivers(es: seq<Event>, ws: seq<WriteResult>)
    requires Failures(es) == 0 && |ws| >= |Run(es).output| && forall w :: w in ws ==> w.Wrote? && w.n > 0
    ensures Run(es + Writes(ws)).wire == Rot13All(Received(es))
  {
    hide Run, Rot13All, Writes;
    EchoExact(es);
    Delivers(es, ws);
  }

  /** One failed direct write: the client reads a byte that nobody sent. */
  lemma FailedWriteCorrupts(stale: seq<char>, before: char)
    ensures var es := [Readable(Bytes("a"), stale, before, WriteFailed), Writable(Wrote(2))];
      Run(es).wire == [before, 'n'] && Received(es) == "a"
  {
    var e0, e1 := Readable(Bytes("a"), stale, before, WriteFailed), Writable(Wrote(2));
    var es := [e0, e1];
    assert es[..1] == [e0] && [e0][..0] == [];
    assert Run([]) == START && Received([]) == [];
    assert Rot13All("a") == ['n'];
    assert Run([e0]) == Handle(START, e0);
    assert Run([e0]).output == [before, 'n'];
    assert Received([e0]) == "a";
  }

  // ---- the callbacks ---------------------------------------------------------------------

  /** One round of the loop of `onMessage`. */
  method TranslateOne(input: Buffer, output: Buffer)
    requires input.Valid() && output.Valid() && input != output && input.data != output.data
    requires input.Contents() != []
    modifies input`readIndex, output, output.data
    ensures input.Valid() && output.Valid()
    ensures output.data == old(output.data) || fresh(output.data)
    ensures input.Contents() == old(input.Contents())[1..]
    ensures output.Contents() == old(output.Contents()) + [Rot13(old(input.Contents())[0])]
  {
    var c := input.ReadChar();
    var n := output.AppendChar(Rot13(Byte(c)));
  }

  /** The loop of `onMessage`: read the input byte by byte into a new buffer. */
  method Translate(input: Buffer) returns (output: Buffer)
    requires input.Valid()
    modifies input`readIndex
    ensures input.Valid() && input.Contents() == []
    ensures output.Valid() && fresh(output) && fresh(output.data)
    ensures output.Contents() == Rot13All(old(input.Contents()))
  {
    hide Rot13All, Rot13;
    assert Rot13All([]) == [];
    output := new Buffer();
    var size := input.writeIndex - input.readIndex;
    ghost var all := input.Contents();
    for i := 0 to size
      invariant input.Valid() && output.Valid() && fresh(output) && fresh(output.data)
      invariant input.Contents() == all[i..]
      invariant output.Contents() == Rot13All(all[..i])
    {
      TranslateOne(input, output);
      Rot13Step(all, i);
    }
    assert all[..size] == all;
  }

  method OnMessage(conn: Connection, before: char, w: WriteResult)
    requires conn.Valid()
    modifies conn, conn.input, conn.output, conn.output.data, conn.channel
    ensures conn.Valid() && (conn.output.data == old(conn.output.data) || fresh(conn.output.data))
    ensures conn.Abs() == Message(old(conn.Abs()), before, w)
  {
    var output := Translate(conn.input);
    assert conn.Abs() == old(conn.Abs()).(input := []);
    var r := conn.SendBuffer(output, before, w);
  }

  method HandleRead(conn: Connection, result: ReadResult, before: char, w: WriteResult)
    requires conn.Valid()
    requires result.Bytes? ==> |result.bytes| <= conn.input.data.Length - conn.input.writeIndex + INIT_BUFFER_SIZE
    modifies conn, conn.input, conn.input.data, conn.output, conn.output.data, conn.channel
    ensures conn.Valid()
    ensures conn.Abs() == Handle(old(conn.Abs()), Readable(result, [], before, w))
  {
    var due := conn.ReadInput(result);
    if due {
      OnMessage(conn, before, w);
    }
  }
}
