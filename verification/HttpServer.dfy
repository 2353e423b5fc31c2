/** The server's cycle of parse, callback, reply and reset (http-server/http_server.c), from the
    requests a client writes to the responses it reads. */
module HttpServer {
  import opened CStrings
  import opened Memmem
  import opened Buffers
  import opened Channels
  import opened Connections
  import opened Tokens
  import opened HttpRequests
  import opened HttpParser
  import opened HttpRoundTrip
  import opened HttpResponses
  import opened HttpFraming

  /** The application's callback, and the C library: `one(v)` when `strncmp(v, "Keep-Alive", 10)`,
      if it is positive, is exactly 1. */
  datatype Host = Host(callback: Request -> Response, one: cstring -> bool)

  // ---- one message ----------------------------------------------------------------------------

  /** The sign of `strncmp(a, b, strlen(b))`. */
  function Order(a: cstring, b: cstring): int {
    if b == [] then 0
    else if a == [] then -1
    else if a[0] != b[0] then (if a[0] < b[0] then -1 else 1)
    else Order(a[1..], b[1..])
  }

  /** What `http_request_close_connection` comes to. `Crash`: it passes a null pointer to `strncmp`. */
  datatype Verdict = Keep | Close | Crash

  function VerdictOn(q: Request, one: cstring -> bool): Verdict {
    var i := PrefixIndex(q.headers, "Connection");
    if i < |q.headers| && "close" <= q.headers[i].value then Close
    else if q.version.None? || !("HTTP/1.0" <= q.version.value) then Keep
    else if i == |q.headers| then Crash
    else if Order(q.headers[i].value, "Keep-Alive") > 0 && one(q.headers[i].value) then Close
    else Keep
  }

  /** `shut`: the connection has been shut down for writing. `Stopped`: the parser does not return,
      or the code's behaviour is undefined. */
  datatype Server = Serving(conn: State, shut: bool) | Stopped

  /** After a shutdown every write fails. */
  function Effective(w: WriteResult, shut: bool): WriteResult {
    if shut then WriteFailed else w
  }

  /** `http_on_message`: at most one request is parsed and answered per call. */
  function Message(s: State, shut: bool, host: Host, stale: seq<char>, before: char, w: WriteResult): Server {
    match Parse(FRESH, s.input + stale, 0, |s.input|)
    case Complete(q, at) =>
      var verdict := VerdictOn(q, host.one);
      if at > |s.input| || verdict == Crash then Stopped
      else Serving(s.(input := s.input[at..]).Send(Encode(host.callback(q)), before, Effective(w, shut)),
                   shut || verdict == Close)
    case _ => Stopped
  }

  // ---- runs -----------------------------------------------------------------------------------

  function Handle(s: State, shut: bool, host: Host, e: Event): Server {
    match e
    case Writable(w) => Serving(s.Flush(Effective(w, shut)), shut)
    case Readable(_, stale, before, w) =>
      if Arrived(e) == [] then Serving(s, shut)
      else Message(s.(input := s.input + Arrived(e)), shut, host, stale, before, w)
  }

  function Run(host: Host, es: seq<Event>): Server {
    if es == [] then Serving(START, false)
    else match Run(host, es[..|es| - 1])
      case Stopped => Stopped
      case Serving(s, shut) => Handle(s, shut, host, es[|es| - 1])
  }

  /** How often the message callback ran: once per read that brought something. */
  function Reads(es: seq<Event>): (n: nat)
    ensures n <= |es|
  {
    if es == [] then 0 else Reads(es[..|es| - 1]) + if Arrived(es[|es| - 1]) != [] then 1 else 0
  }

  /** How many direct writes failed. */
  function Failures(host: Host, es: seq<Event>): nat {
    if es == [] then 0
    else
      var init, e := es[..|es| - 1], es[|es| - 1];
      var s := Run(host, init);
      Failures(host, init) + if s.Serving? && Arrived(e) != [] && Fails(s.conn, Effective(e.w, s.shut)) then 1 else 0
  }

  /** By the time of the n-th read, the first n requests have arrived in full. */
  ghost predicate OnTime(rs: seq<Text>, es: seq<Event>) {
    es == [] ||
    (OnTime(rs, es[..|es| - 1]) &&
     (Arrived(es[|es| - 1]) == [] ||
      (Reads(es) <= |rs| && |PrintAll(rs[..Reads(es)])| <= |Received(es)|)))
  }

  function VerdictOf(r: Text, host: Host): Verdict {
    VerdictOn(Expected(r), host.one)
  }

  /** Some of the first `k` requests has this verdict. */
  ghost predicate Among(rs: seq<Text>, host: Host, k: nat, verdict: Verdict) {
    exists i :: 0 <= i < k && i < |rs| && VerdictOf(rs[i], host) == verdict
  }

  function Replies(host: Host, rs: seq<Text>): (ps: seq<Response>)
    ensures |ps| == |rs|
    ensures forall i :: 0 <= i < |rs| ==> ps[i] == host.callback(Expected(rs[i]))
  {
    seq(|rs|, i requires 0 <= i < |rs| => host.callback(Expected(rs[i])))
  }

  // ---- proofs ---------------------------------------------------------------------------------

  lemma {:induction false} PrintAllJoins(a: seq<Text>, b: seq<Text>)
    ensures PrintAll(a + b) == PrintAll(a) + PrintAll(b)
  {
    hide Print;
    if a == [] {
      assert a + b == b;
    } else {
      assert (a + b)[1..] == a[1..] + b;
      PrintAllJoins(a[1..], b);
    }
  }

  lemma {:induction false} EncodeAllJoins(a: seq<Response>, b: seq<Response>)
    ensures EncodeAll(a + b) == EncodeAll(a) + EncodeAll(b)
  {
    hide Encode;
    if a == [] {
      assert a + b == b;
    } else {
      assert (a + b)[1..] == a[1..] + b;
      EncodeAllJoins(a[1..], b);
    }
  }

  lemma SplitAt<T>(s: seq<T>, k: nat)
    requires k < |s|
    ensures s[..k + 1] == s[..k] + [s[k]] && s == s[..k + 1] + s[k + 1..]
  {
  }

  /** Where the k-th request stands in the client's stream. */
  lemma RequestAt(rs: seq<Text>, k: nat)
    requires k < |rs|
    ensures PrintAll(rs[..k + 1]) == PrintAll(rs[..k]) + Print(rs[k])
    ensures PrintAll(rs) == PrintAll(rs[..k]) + (Print(rs[k]) + PrintAll(rs[k + 1..]))
  {
    hide Print, PrintAll, NulFree;
    SplitAt(rs, k);
    PrintAllJoins(rs[..k], [rs[k]]);
    PrintAllJoins(rs[..k + 1], rs[k + 1..]);
    PrintOne(rs[k]);
    Associate(PrintAll(rs[..k]), Print(rs[k]), PrintAll(rs[k + 1..]));
  }

  lemma PrintOne(r: Text)
    ensures PrintAll([r]) == Print(r)
  {
    hide Print;
    assert PrintAll([]) == [];
  }

  lemma RepliesGrow(host: Host, rs: seq<Text>, k: nat)
    requires k < |rs|
    ensures EncodeAll(Replies(host, rs[..k + 1])) ==
            EncodeAll(Replies(host, rs[..k])) + Encode(host.callback(Expected(rs[k])))
  {
    hide Encode, Expected;
    var p := host.callback(Expected(rs[k]));
    assert Replies(host, rs[..k + 1]) == Replies(host, rs[..k]) + [p];
    EncodeAllJoins(Replies(host, rs[..k]), [p]);
    assert EncodeAll([p]) == Encode(p);
  }

  /** One message while the input holds the next request, in full or in part. */
  lemma MessageStep(s: State, shut: bool, host: Host, r: Text, rest: seq<char>,
                    stale: seq<char>, before: char, w: WriteResult)
    requires Printable(r) && s.Watched()
    requires s.input <= Print(r) + rest
    ensures var s' := Message(s, shut, host, stale, before, w);
      if |s.input| < |Print(r)| || VerdictOf(r, host) == Crash then s' == Stopped
      else && s'.Serving? && s'.conn.input == s.input[|Print(r)|..] && s'.conn.Watched()
           && s'.shut == (shut || VerdictOf(r, host) == Close)
           && s'.conn.Stream() == s.Stream() + (if Fails(s, Effective(w, shut)) then [before] else [])
                                  + Encode(host.callback(Expected(r)))
  {
    hide Parse, Encode, Print, Expected, VerdictOn, Printable, Effective, NulFree;
    var n := |s.input|;
    if n < |Print(r)| {
      assert s.input == Print(r)[..n];
      ParseEndsIffComplete(r, n, stale);
    } else {
      var more := s.input[|Print(r)|..];
      assert s.input == Print(r) + more;
      RequestRoundTrip(r, more, stale);
      SendStream(s.(input := more), Encode(host.callback(Expected(r))), before, Effective(w, shut));
    }
  }

  /** While every request arrives in time and none crashes the server, the input holds the bytes
      after the last one answered, and the stream is the replies so far exactly when no direct
      write failed. */
  ghost predicate InStep(rs: seq<Text>, host: Host, es: seq<Event>) {
    var k := Reads(es);
    && k <= |rs| && |PrintAll(rs[..k])| <= |Received(es)|
    && var s := Run(host, es);
       && s.Serving? && s.conn.Watched()
       && s.conn.input == Received(es)[|PrintAll(rs[..k])|..]
       && (s.shut <==> Among(rs, host, k, Close))
       && var expected := EncodeAll(Replies(host, rs[..k]));
          && |s.conn.Stream()| == |expected| + Failures(host, es)
          && (s.conn.Stream() == expected <==> Failures(host, es) == 0)
  }

  lemma AmongGrows(rs: seq<Text>, host: Host, k: nat, verdict: Verdict)
    requires k < |rs|
    ensures Among(rs, host, k + 1, verdict) <==> Among(rs, host, k, verdict) || VerdictOf(rs[k], host) == verdict
  {
    hide VerdictOf;
  }

  lemma {:induction false} ServerStaysInStep(rs: seq<Text>, host: Host, es: seq<Event>)
    requires forall r :: r in rs ==> Printable(r)
    requires Received(es) <= PrintAll(rs)
    ensures if OnTime(rs, es) && !Among(rs, host, Reads(es), Crash) then InStep(rs, host, es)
            else Run(host, es) == Stopped
  {
    hide Handle, PrintAll, EncodeAll, Printable, InStep, VerdictOf;
    if es == [] {
      NothingYet(rs, host);
    } else {
      var init, e := es[..|es| - 1], es[|es| - 1];
      ReceivedGrows(es);
      ServerStaysInStep(rs, host, init);
      if OnTime(rs, init) && !Among(rs, host, Reads(init), Crash) {
        if Arrived(e) == [] {
          QuietStep(rs, host, es);
        } else {
          ReadStep(rs, host, es);
          InStepCount(rs, host, init);
          if Reads(init) < |rs| {
            AmongGrows(rs, host, Reads(init), Crash);
          }
        }
      }
    }
  }

  lemma InStepCount(rs: seq<Text>, host: Host, es: seq<Event>)
    requires InStep(rs, host, es)
    ensures Reads(es) <= |rs|
  {
    hide Run, PrintAll, Reads, Received;
  }

  lemma NothingYet(rs: seq<Text>, host: Host)
    ensures InStep(rs, host, [])
  {
    hide VerdictOf;
    assert rs[..0] == [] && Replies(host, rs[..0]) == [];
  }

  lemma ReceivedGrows(es: seq<Event>)
    requires es != []
    ensures Received(es) == Received(es[..|es| - 1]) + Arrived(es[|es| - 1])
    ensures Received(es[..|es| - 1]) <= Received(es)
  {
  }

  lemma QuietStep(rs: seq<Text>, host: Host, es: seq<Event>)
    requires es != [] && Arrived(es[|es| - 1]) == [] && InStep(rs, host, es[..|es| - 1])
    ensures InStep(rs, host, es)
  {
    hide PrintAll, EncodeAll, Expected, Message, VerdictOf, Among, NulFree;
    var init, e := es[..|es| - 1], es[|es| - 1];
    var s := Run(host, init);
    assert Received(es) == Received(init);
    if e.Writable? {
      FlushStream(s.conn, Effective(e.w, s.shut));
      assert s.conn.Flush(Effective(e.w, s.shut)).input == s.conn.input;
    }
  }

  /** A read while the k-th request is awaited. */
  lemma ReadOutcome(rs: seq<Text>, host: Host, es: seq<Event>, s: Server, k: nat)
    requires forall r :: r in rs ==> Printable(r)
    requires es != [] && Arrived(es[|es| - 1]) != [] && Received(es) <= PrintAll(rs)
    requires s == Run(host, es[..|es| - 1]) && s.Serving? && s.conn.Watched()
    requires k == Reads(es[..|es| - 1]) < |rs| && |PrintAll(rs[..k])| <= |Received(es[..|es| - 1])|
    requires s.conn.input == Received(es[..|es| - 1])[|PrintAll(rs[..k])|..]
    ensures var e, s', done := es[|es| - 1], Run(host, es), |PrintAll(rs[..k + 1])|;
      if |Received(es)| < done || VerdictOf(rs[k], host) == Crash then s' == Stopped
      else && s'.Serving? && s'.conn.input == Received(es)[done..] && s'.conn.Watched()
           && s'.shut == (s.shut || VerdictOf(rs[k], host) == Close)
           && s'.conn.Stream() == s.conn.Stream() + (if Fails(s.conn, Effective(e.w, s.shut)) then [e.before] else [])
                                  + Encode(host.callback(Expected(rs[k])))
  {
    hide PrintAll, EncodeAll, Expected, Message, Printable, VerdictOf, Encode, Print, Effective;
    hide Run, Reads, Received, Failures, State.Send, State.Stream, State.Watched, Fails, NulFree;
    var init, e := es[..|es| - 1], es[|es| - 1];
    ReceivedGrows(es);
    OneMoreRead(host, es);
    var done := |PrintAll(rs[..k])|;
    RequestAt(rs, k);
    var r, rest := rs[k], PrintAll(rs[k + 1..]);
    assert rs[k] in rs;
    PrefixAfter(Received(es), PrintAll(rs[..k]), Print(r) + rest);
    DropJoin(Received(init), Arrived(e), done);
    ArrivalStep(s.conn, s.shut, Arrived(e), host, r, rest, e.stale, e.before, e.w);
    if |Received(es)| >= done + |Print(r)| {
      DropTwice(Received(es), done, |Print(r)|);
    }
  }

  lemma ReadStep(rs: seq<Text>, host: Host, es: seq<Event>)
    requires forall r :: r in rs ==> Printable(r)
    requires es != [] && Arrived(es[|es| - 1]) != [] && Received(es) <= PrintAll(rs)
    requires InStep(rs, host, es[..|es| - 1])
    ensures if && Reads(es) <= |rs| && |PrintAll(rs[..Reads(es)])| <= |Received(es)|
               && VerdictOf(rs[Reads(es) - 1], host) != Crash
            then InStep(rs, host, es)
            else Run(host, es) == Stopped
  {
    hide PrintAll, EncodeAll, Expected, Message, Printable, VerdictOf, Encode, Print, Among, Effective;
    hide Run, Reads, Received, Failures, State.Send, State.Stream, State.Watched, Fails, NulFree, InStep;
    var init, e := es[..|es| - 1], es[|es| - 1];
    InStepBefore(rs, host, init);
    var s, k := Run(host, init), Reads(init);
    OneMoreRead(host, es);
    if k == |rs| {
      TakeAll(rs);
      ReceivedGrows(es);
      NothingLeft(rs, rs[..k], Received(init), Arrived(e));
    } else {
      ReadOutcome(rs, host, es, s, k);
      if |PrintAll(rs[..k + 1])| <= |Received(es)| && VerdictOf(rs[k], host) != Crash {
        RepliesGrow(host, rs, k);
        AmongGrows(rs, host, k, Close);
        StreamTally(s.conn.Stream(), EncodeAll(Replies(host, rs[..k])), Failures(host, init),
                    if Fails(s.conn, Effective(e.w, s.shut)) then [e.before] else [],
                    Encode(host.callback(Expected(rs[k]))));
        InStepNow(rs, host, es, k + 1);
      }
    }
  }

  /** Nothing arrives once the whole stream has. */
  lemma NothingLeft(rs: seq<Text>, whole: seq<Text>, got: seq<char>, more: seq<char>)
    requires whole == rs && got + more <= PrintAll(rs) && |PrintAll(whole)| <= |got|
    ensures more == []
  {
    hide PrintAll, NulFree;
  }

  lemma TakeAll<T>(s: seq<T>)
    ensures s[..|s|] == s
  {
  }

  lemma ArrivalStep(s: State, shut: bool, xs: seq<char>, host: Host, r: Text, rest: seq<char>,
                    stale: seq<char>, before: char, w: WriteResult)
    requires Printable(r) && s.Watched()
    requires s.input + xs <= Print(r) + rest
    ensures var s' := Message(s.(input := s.input + xs), shut, host, stale, before, w);
      if |s.input + xs| < |Print(r)| || VerdictOf(r, host) == Crash then s' == Stopped
      else && s'.Serving? && s'.conn.input == (s.input + xs)[|Print(r)|..] && s'.conn.Watched()
           && s'.shut == (shut || VerdictOf(r, host) == Close)
           && s'.conn.Stream() == s.Stream() + (if Fails(s, Effective(w, shut)) then [before] else [])
                                  + Encode(host.callback(Expected(r)))
  {
    hide Message, Encode, Print, Expected, VerdictOf, Printable, Effective, NulFree;
    MessageStep(s.(input := s.input + xs), shut, host, r, rest, stale, before, w);
  }

  lemma InStepNow(rs: seq<Text>, host: Host, es: seq<Event>, k: nat)
    requires Reads(es) == k <= |rs| && |PrintAll(rs[..k])| <= |Received(es)|
    requires var s := Run(host, es);
      && s.Serving? && s.conn.Watched() && s.conn.input == Received(es)[|PrintAll(rs[..k])|..]
      && (s.shut <==> Among(rs, host, k, Close))
    requires var stream, expected := Run(host, es).conn.Stream(), EncodeAll(Replies(host, rs[..k]));
      && |stream| == |expected| + Failures(host, es)
      && (stream == expected <==> Failures(host, es) == 0)
    ensures InStep(rs, host, es)
  {
    hide PrintAll, EncodeAll, Run, Reads, Received, Failures, NulFree, State.Watched, State.Stream, Among;
  }

  lemma InStepBefore(rs: seq<Text>, host: Host, es: seq<Event>)
    requires InStep(rs, host, es)
    ensures var k, s := Reads(es), Run(host, es);
      && k <= |rs| && |PrintAll(rs[..k])| <= |Received(es)|
      && s.Serving? && s.conn.Watched() && s.conn.input == Received(es)[|PrintAll(rs[..k])|..]
      && (s.shut <==> Among(rs, host, k, Close))
      && var stream, expected := s.conn.Stream(), EncodeAll(Replies(host, rs[..k]));
         && |stream| == |expected| + Failures(host, es)
         && (stream == expected <==> Failures(host, es) == 0)
  {
    hide PrintAll, EncodeAll, Run, Reads, Received, Failures, NulFree, State.Watched, State.Stream, Among;
  }

  lemma DropJoin(a: seq<char>, b: seq<char>, n: nat)
    requires n <= |a|
    ensures (a + b)[n..] == a[n..] + b
  {
  }

  lemma OneMoreRead(host: Host, es: seq<Event>)
    requires es != [] && Arrived(es[|es| - 1]) != [] && Run(host, es[..|es| - 1]).Serving?
    ensures var init, e := es[..|es| - 1], es[|es| - 1];
      var s := Run(host, init);
      && Reads(es) == Reads(init) + 1
      && Failures(host, es) == Failures(host, init) + (if Fails(s.conn, Effective(e.w, s.shut)) then 1 else 0)
      && Run(host, es) ==
         Message(s.conn.(input := s.conn.input + Arrived(e)), s.shut, host, e.stale, e.before, e.w)
  {
    hide Message;
  }

  lemma PrefixAfter(got: seq<char>, a: seq<char>, b: seq<char>)
    requires got <= a + b && |a| <= |got|
    ensures got[|a|..] <= b
  {
  }

  /** Any list of requests, cut anyhow into arrivals: the server stays up exactly when each read
      completes one more request and no request answered so far makes it pass a null pointer. Then
      it has answered as many requests as it made reads, in order; it keeps the bytes after them;
      what it has sent or holds to send is their encoded replies exactly when no direct write
      failed; and it has shut down exactly when one of them asked for that. */
  lemma ServesExactly(rs: seq<Text>, host: Host, es: seq<Event>)
    requires forall r :: r in rs ==> Printable(r)
    requires Received(es) <= PrintAll(rs)
    ensures var s, k := Run(host, es), Reads(es);
      && (s.Serving? <==> OnTime(rs, es) && !Among(rs, host, k, Crash))
      && (s.Serving? ==>
            && k <= |rs| && Received(es) == PrintAll(rs[..k]) + s.conn.input
            && (s.conn.Stream() == EncodeAll(Replies(host, rs[..k])) <==> Failures(host, es) == 0)
            && (WriteEnabled(s.conn.events) <==> s.conn.output != [])
            && (s.shut <==> Among(rs, host, k, Close)))
  {
    hide Run, PrintAll, EncodeAll, Printable, VerdictOf, Among, Reads, Received, Failures, OnTime, InStep, NulFree;
    ServerStaysInStep(rs, host, es);
    if OnTime(rs, es) && !Among(rs, host, Reads(es), Crash) {
      InStepBefore(rs, host, es);
      PrefixOfStream(rs, Reads(es), Received(es));
    }
  }

  lemma PrefixOfStream(rs: seq<Text>, k: nat, got: seq<char>)
    requires k <= |rs| && got <= PrintAll(rs) && |PrintAll(rs[..k])| <= |got|
    ensures got == PrintAll(rs[..k]) + got[|PrintAll(rs[..k])|..]
  {
    hide PrintAll;
    assert rs == rs[..k] + rs[k..];
    PrintAllJoins(rs[..k], rs[k..]);
  }

  /** After a shutdown no byte reaches the client any more: what the direct write of the last reply
      left in the output stays there. */
  lemma {:induction false} NothingAfterShutdown(host: Host, es: seq<Event>, more: seq<Event>)
    requires Run(host, es).Serving? && Run(host, es).shut && Run(host, es + more).Serving?
    ensures Run(host, es + more).shut && Run(host, es + more).conn.wire == Run(host, es).conn.wire
  {
    hide Run, Handle;
    if more == [] {
      assert es + more == es;
    } else {
      var init, e := more[..|more| - 1], more[|more| - 1];
      assert (es + more)[..|es + more| - 1] == es + init;
      RunStep(host, es + more);
      NothingAfterShutdown(host, es, init);
      ShutStep(Run(host, es + init).conn, host, e);
    }
  }

  lemma RunStep(host: Host, es: seq<Event>)
    requires es != [] && Run(host, es).Serving?
    ensures var s := Run(host, es[..|es| - 1]);
      s.Serving? && Run(host, es) == Handle(s.conn, s.shut, host, es[|es| - 1])
  {
    hide Handle;
  }

  lemma ShutStep(s: State, host: Host, e: Event)
    ensures var s' := Handle(s, true, host, e); s'.Serving? ==> s'.shut && s'.conn.wire == s.wire
  {
    hide Parse, VerdictOn, Encode;
  }

  /** Before a shutdown, write reports deliver what is buffered, each at least one byte of it, and
      nothing else; as many of them as bytes are buffered leave the whole stream on the wire. */
  lemma {:induction false} Delivers(host: Host, es: seq<Event>, ws: seq<WriteResult>)
    requires Run(host, es).Serving? && !Run(host, es).shut
    requires forall w :: w in ws ==> w.Wrote? && w.n > 0
    ensures var s, s' := Run(host, es), Run(host, es + Writes(ws));
      && s'.Serving? && !s'.shut && s'.conn.input == s.conn.input && s'.conn.Stream() == s.conn.Stream()
      && |s'.conn.output| <= (if |ws| < |s.conn.output| then |s.conn.output| - |ws| else 0)
      && (|ws| >= |s.conn.output| ==> s'.conn.wire == s.conn.Stream())
  {
    hide Run, Writes, State.Flush, State.Stream, Message;
    if ws == [] {
      assert es + Writes(ws) == es;
      NothingBuffered(Run(host, es).conn);
    } else {
      var init, w := ws[..|ws| - 1], ws[|ws| - 1];
      Delivers(host, es, init);
      OneMoreWrite(es, ws);
      RunGrows(host, es + Writes(ws));
      FlushTakes(Run(host, es + Writes(init)).conn, w);
    }
  }

  lemma RunGrows(host: Host, es: seq<Event>)
    requires es != [] && Run(host, es[..|es| - 1]).Serving?
    ensures var s := Run(host, es[..|es| - 1]); Run(host, es) == Handle(s.conn, s.shut, host, es[|es| - 1])
  {
    hide Handle;
  }

  function MethodsOf(rs: seq<Text>): (ms: seq<seq<char>>)
    ensures |ms| == |rs|
    ensures forall i :: 0 <= i < |rs| ==> ms[i] == rs[i].method_
  {
    seq(|rs|, i requires 0 <= i < |rs| => rs[i].method_)
  }

  /** End to end: once the output is drained, a client that knows the methods of its requests
      decodes the bytes it was sent into the callback's responses, in order, exactly when each of
      them is recoverable and all but the last say where they end. */
  lemma ClientReads(rs: seq<Text>, host: Host, es: seq<Event>)
    requires forall r :: r in rs ==> Printable(r)
    requires forall r :: r in rs ==> Plain(host.callback(Expected(r)))
    requires Received(es) <= PrintAll(rs) && Failures(host, es) == 0
    ensures var s := Run(host, es);
      s.Serving? ==>
        && Reads(es) <= |rs|
        && (s.conn.output == [] ==>
              var ps := Replies(host, rs[..Reads(es)]);
              DecodeAll(MethodsOf(rs), s.conn.wire) == Some(MessagesOf(ps)) <==> Splits(MethodsOf(rs), ps))
  {
    hide Run, PrintAll, EncodeAll, DecodeAll, Printable, Expected, VerdictOf, Among, Reads, Received, Failures, OnTime;
    hide Plain, MessageOf, Splits;
    ServesExactly(rs, host, es);
    var s := Run(host, es);
    if s.Serving? {
      var ps := Replies(host, rs[..Reads(es)]);
      FramingExact(MethodsOf(rs), ps);
      if s.conn.output == [] {
        assert s.conn.wire + s.conn.output == s.conn.wire;
      }
    }
  }

  /** Two requests that arrive together: the second stays in the buffer unanswered, and the
      server makes no further step until more bytes come. */
  lemma SecondRequestWaits(r0: Text, r1: Text, host: Host, e: Event)
    requires Printable(r0) && VerdictOf(r0, host) != Crash
    requires e.Readable? && Arrived(e) == Print(r0) + Print(r1) && e.w.Wrote?
    ensures var s := Run(host, [e]);
      s.Serving? && s.conn.input == Print(r1) && s.conn.Stream() == Encode(host.callback(Expected(r0)))
  {
    hide Parse, Print, Encode, Expected, VerdictOf, Printable, Message;
    assert [e][..0] == [];
    assert START.input + Arrived(e) == Arrived(e);
    MessageStep(START.(input := Arrived(e)), false, host, r0, Print(r1), e.stale, e.before, e.w);
    PrintNonempty(r0);
    assert (Print(r0) + Print(r1))[|Print(r0)|..] == Print(r1);
  }

  lemma PrintNonempty(r: Text)
    ensures Print(r) != []
  {
  }

  // ---- persistence ------------------------------------------------------------------------------

  /** The first byte in which `a` differs from `b`, if `a` does not begin with `b`, decides. */
  lemma {:induction false} OrderIs(a: cstring, b: cstring)
    ensures Order(a, b) == 0 <==> b <= a
    ensures Order(a, b) > 0 <==> exists i :: 0 <= i < |a| && i < |b| && a[..i] == b[..i] && a[i] > b[i]
  {
    if b != [] && a != [] {
      if a[0] == b[0] {
        OrderIs(a[1..], b[1..]);
        assert a == [a[0]] + a[1..] && b == [b[0]] + b[1..];
        if exists i :: 0 <= i < |a[1..]| && i < |b[1..]| && a[1..][..i] == b[1..][..i] && a[1..][i] > b[1..][i] {
          var i :| 0 <= i < |a[1..]| && i < |b[1..]| && a[1..][..i] == b[1..][..i] && a[1..][i] > b[1..][i];
          assert a[..i + 1] == [a[0]] + a[1..][..i] && b[..i + 1] == [b[0]] + b[1..][..i];
        }
        if exists i :: 0 <= i < |a| && i < |b| && a[..i] == b[..i] && a[i] > b[i] {
          var i :| 0 <= i < |a| && i < |b| && a[..i] == b[..i] && a[i] > b[i];
          assert a[1..][..i - 1] == a[..i][1..] == b[..i][1..] == b[1..][..i - 1];
          assert a[1..][i - 1] > b[1..][i - 1];
        }
      } else {
        assert a[..0] == b[..0];
        assert forall i :: 0 < i < |a| && i < |b| ==> a[..i][0] != b[..i][0];
      }
    }
  }

  /** `a` is greater than `b`: it does not begin with it, and its first byte that differs is larger. */
  predicate Greater(a: cstring, b: cstring) {
    exists i :: 0 <= i < |a| && i < |b| && a[..i] == b[..i] && a[i] > b[i]
  }

  /** When a request closes the connection, and when the decision passes a null pointer. */
  lemma VerdictIs(q: Request, one: cstring -> bool)
    ensures var i := PrefixIndex(q.headers, "Connection");
      var found, earlier := i < |q.headers|, q.version.Some? && "HTTP/1.0" <= q.version.value;
      && (VerdictOn(q, one) == Crash <==> earlier && !found)
      && (VerdictOn(q, one) == Close <==>
            found && var v := q.headers[i].value;
            "close" <= v || (earlier && Greater(v, "Keep-Alive") && one(v)))
  {
    hide PrefixIndex, Order;
    var i := PrefixIndex(q.headers, "Connection");
    if i < |q.headers| {
      OrderIs(q.headers[i].value, "Keep-Alive");
    }
  }

  /** Section 9.3 of RFC 9112, for a single connection option. */
  predicate Persists(version: cstring, option: Option<cstring>) {
    option != Some("close") && (version == "HTTP/1.1" || option == Some("Keep-Alive"))
  }

  lemma {:induction false} OrderSame(a: cstring)
    ensures Order(a, a) == 0
  {
    if a != [] {
      OrderSame(a[1..]);
    }
  }

  /** With no Connection header, or one that says `close` or `Keep-Alive`, the code decides as the
      standard does, except that it passes a null pointer for HTTP/1.0 without the header. */
  lemma VerdictMeetsStandard(q: Request, one: cstring -> bool, option: Option<cstring>)
    requires q.version == Some("HTTP/1.0") || q.version == Some("HTTP/1.1")
    requires var i := PrefixIndex(q.headers, "Connection");
      option == if i < |q.headers| then Some(q.headers[i].value) else None
    requires option.None? || option.value == "close" || option.value == "Keep-Alive"
    ensures VerdictOn(q, one) == (if Persists(q.version.value, option) then Keep else Close) <==>
            !(q.version.value == "HTTP/1.0" && option.None?)
    ensures q.version.value == "HTTP/1.0" && option.None? ==> VerdictOn(q, one) == Crash
  {
    hide PrefixIndex, Order;
    OrderSame("Keep-Alive");
    assert "HTTP/1.0"[7] == '0' && "HTTP/1.1"[7] == '1';
    assert "close"[0] == 'c' && "Keep-Alive"[0] == 'K';
  }

  // ---- the callbacks --------------------------------------------------------------------------

  datatype Ending = Served(shut: bool) | Ended(why: Outcome) | Undefined

  /** The application's callback fills in a new response. */
  method Reply(response: Response) returns (reply: HttpResponse)
    ensures fresh(reply) && reply.Abs() == response
  {
    reply := new HttpResponse();
    reply.status, reply.message, reply.body := response.status, response.message, response.body;
    reply.headers, reply.keepConnected := response.headers, response.keepConnected;
  }

  /** `http_request_close_connection`; the difference is what `strncmp` returns. */
  method CloseConnection(req: HttpRequest, one: cstring -> bool) returns (verdict: Verdict)
    ensures verdict == VerdictOn(req.Abs(), one)
  {
    var connection := req.GetHeader("Connection");
    if connection.Some? && "close" <= connection.value {
      return Close;
    }
    if req.version.Some? && "HTTP/1.0" <= req.version.value {
      if connection.None? {
        return Crash;
      }
      var order := Order(connection.value, "Keep-Alive");
      if order > 0 && one(connection.value) {
        return Close;
      }
    }
    verdict := Keep;
  }

  method SendReply(conn: Connection, response: Response, before: char, w: WriteResult)
    requires conn.Valid()
    modifies conn, conn.output, conn.output.data, conn.channel
    ensures conn.Valid() && (conn.output.data == old(conn.output.data) || fresh(conn.output.data))
    ensures conn.Abs() == old(conn.Abs()).Send(Encode(response), before, w)
  {
    hide Encode, State.Send, NulFree;
    var reply := Reply(response);
    var buf := new Buffer();
    reply.EncodeBuffer(buf);
    assert [] + Encode(response) == Encode(response);
    var n := conn.SendBuffer(buf, before, w);
  }

  /** `parse_http_request` on the connection's input; `over` when it read beyond the readable bytes. */
  method ParseInput(conn: Connection, req: HttpRequest) returns (outcome: Outcome, over: bool)
    requires conn.Valid() && req.Abs() == FRESH
    modifies conn.input`readIndex, req
    ensures var s := old(conn.Abs());
      match Parse(FRESH, s.input + old(conn.input.Stale()), 0, |s.input|)
      case Complete(q, at) =>
        && outcome == Returns && req.Abs() == q && (over <==> at > |s.input|)
        && (!over ==> conn.Valid() && conn.Abs() == s.(input := s.input[at..]))
      case _ => outcome != Returns
  {
    hide Parse, req.Abs, NulFree;
    outcome := ParseHttpRequest(conn.input, req);
    over := conn.input.readIndex > conn.input.writeIndex;
  }

  /** The rest of `http_on_message`: callback, reply, shutdown, reset. */
  method Answer(conn: Connection, req: HttpRequest, shut: bool, host: Host, before: char, w: WriteResult)
    returns (ending: Ending)
    requires conn.Valid()
    modifies conn, conn.output, conn.output.data, conn.channel, req
    ensures conn.Valid() && (conn.output.data == old(conn.output.data) || fresh(conn.output.data))
    ensures conn.Abs() == old(conn.Abs()).Send(Encode(host.callback(old(req.Abs()))), before, Effective(w, shut))
    ensures var verdict := VerdictOn(old(req.Abs()), host.one);
      if verdict == Crash then ending == Undefined
      else ending == Served(shut || verdict == Close) && req.Abs() == FRESH
  {
    hide Encode, State.Send, VerdictOn, req.Abs, NulFree, Effective;
    SendReply(conn, host.callback(req.Abs()), before, Effective(w, shut));
    var verdict := CloseConnection(req, host.one);
    if verdict == Crash {
      return Undefined;
    }
    req.Reset();
    ending := Served(shut || verdict == Close);
  }

  /** `http_on_message` */
  method OnMessage(conn: Connection, req: HttpRequest, shut: bool, host: Host, before: char, w: WriteResult)
    returns (ending: Ending)
    requires conn.Valid() && req.Abs() == FRESH
    modifies conn, conn.input`readIndex, conn.output, conn.output.data, conn.channel, req
    ensures match Message(old(conn.Abs()), shut, host, old(conn.input.Stale()), before, w)
      case Stopped => !ending.Served?
      case Serving(s, shut') => ending == Served(shut') && conn.Valid() && conn.Abs() == s && req.Abs() == FRESH
    ensures conn.output.data == old(conn.output.data) || fresh(conn.output.data)
  {
    hide Parse, Encode, State.Send, VerdictOn, req.Abs, conn.Abs, NulFree, Effective;
    var outcome, over := ParseInput(conn, req);
    if outcome != Returns {
      return Ended(outcome);
    }
    if over {
      return Undefined;
    }
    ending := Answer(conn, req, shut, host, before, w);
  }

  /** `handle_read` with the server's message callback. */
  method HandleRead(conn: Connection, req: HttpRequest, shut: bool, host: Host,
                    result: ReadResult, before: char, w: WriteResult)
    returns (ending: Ending, ghost stale: seq<char>)
    requires conn.Valid() && req.Abs() == FRESH
    requires result.Bytes? ==> |result.bytes| <= conn.input.data.Length - conn.input.writeIndex + INIT_BUFFER_SIZE
    modifies conn, conn.input, conn.input.data, conn.output, conn.output.data, conn.channel, req
    ensures match Handle(old(conn.Abs()), shut, host, Readable(result, stale, before, w))
      case Stopped => !ending.Served?
      case Serving(s, shut') => ending == Served(shut') && conn.Valid() && conn.Abs() == s && req.Abs() == FRESH
  {
    hide Message, req.Abs;
    stale := [];
    var due := conn.ReadInput(result);
    ending := Served(shut);
    if due {
      stale := conn.input.Stale();
      ending := OnMessage(conn, req, shut, host, before, w);
    } else {
      assert old(conn.Abs()).input + [] == old(conn.Abs()).input;
    }
  }
}
