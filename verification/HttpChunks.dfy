/** Requests that arrive in pieces, with parser iterations in between. */
module HttpChunks {
  import opened CStrings
  import opened Memmem
  import opened Buffers
  import opened HttpRequests
  import opened HttpParser
  import opened HttpRoundTrip

  /** More bytes arrive, or the parse loop goes round once. `stale` is what the buffer's memory
      holds behind the received bytes at that moment. */
  datatype Event = Arrive(n: nat) | Iterate(stale: seq<char>)

  /** `at` bytes of the stream consumed, `got` received. */
  datatype Feed = Feed(req: Request, at: nat, got: nat)

  /** `None`: an assertion failed, or the buffer was left. */
  function FeedStep(stream: seq<char>, f: Feed, e: Event): (f': Option<Feed>)
    requires f.got <= |stream|
    ensures f'.Some? ==> f.got <= f'.value.got <= |stream|
  {
    match e
    case Arrive(n) => Some(f.(got := Min(f.got + n, |stream|)))
    case Iterate(stale) =>
      if f.req.state.RequestDone? || f.at > f.got then Some(f)
      else match StepOf(f.req, (stream[..f.got] + stale)[f.at..], f.got - f.at)
        case Progress(r, used) => Some(Feed(r, f.at + used, f.got))
        case Stutter => Some(f)
        case _ => None
  }

  function FeedRun(stream: seq<char>, es: seq<Event>): (f: Option<Feed>)
    ensures f.Some? ==> f.value.got <= |stream|
  {
    if es == [] then Some(Feed(FRESH, 0, 0))
    else match FeedRun(stream, es[..|es| - 1])
      case None => None
      case Some(f) => FeedStep(stream, f, es[|es| - 1])
  }

  /** The bytes to read end in a CR that is the last byte of the buffer's memory, and hold no other:
      the search for CRLF compares beyond the memory. */
  predicate Beyond(stream: seq<char>, f: Feed, stale: seq<char>)
    requires f.got <= |stream|
  {
    && stale == [] && !f.req.state.RequestDone?
    && f.at + 2 <= f.got && stream[f.got - 1] == CR && CR !in stream[f.at..f.got - 1]
  }

  /** No iteration of the run meets that case. */
  ghost predicate Within(stream: seq<char>, es: seq<Event>) {
    es == [] ||
    (var init, e := es[..|es| - 1], es[|es| - 1];
     && Within(stream, init)
     && (e.Iterate? && FeedRun(stream, init).Some? ==> !Beyond(stream, FeedRun(stream, init).value, e.stale)))
  }

  /** The first `k` lines are parsed; at most the LF of the last one is still to come. */
  ghost predicate OnTrack(r: Text, f: Feed, k: nat) {
    k <= LineCount(r) && f.req == After(r, k) && f.at == Offset(r, k) && f.at <= f.got + 1
  }

  lemma ReceivedPrefix(p: seq<char>, rest: seq<char>, stale: seq<char>, n: nat)
    requires n <= |p|
    ensures (p + rest)[..n] + stale == p[..n] + stale
  {
    assert (p + rest)[..n] == p[..n];
  }

  /** An iteration on a line of which at least the CR is missing, or just the LF. */
  lemma IterateShort(r: Text, rest: seq<char>, f: Feed, k: nat, stale: seq<char>)
    requires Printable(r) && k < LineCount(r) && OnTrack(r, f, k) && f.at <= f.got
    requires f.got < Offset(r, k) + |Line(r, k)| + 2 && f.got < |Print(r)|
    ensures var stream := Print(r) + rest;
      var f' := FeedStep(stream, f, Iterate(stale));
      if Beyond(stream, f, stale) then f'.None?
      else f'.Some? && (f'.value == f || OnTrack(r, f'.value, k + 1))
  {
    hide After, PrintLines, StepOf, Line, Lookup, Print;
    var n, len := f.got, f.got - f.at;
    ReceivedPrefix(Print(r), rest, stale, n);
    PrefixOfLine(r, k, n, stale);
    NotDone(r, k);
    LineAt(r, k, Print(r));
    ShortBeyond(r, rest, f, k, stale);
    var mem := (Print(r)[..n] + stale)[f.at..];
    if len == |Line(r, k)| + 1 && len >= 2 && stale == [] {
      NoMemoryLeft(r, k, mem, len);
    } else if len == |Line(r, k)| + 1 && len >= 2 && stale[0] == '\n' {
      LineStep(r, k, mem, len);
    } else {
      PartialStep(r, k, mem, len);
    }
  }

  /** A line and its CRLF stand in the stream, and at least the LF has not arrived. */
  lemma LoneCR(stream: seq<char>, at: nat, got: nat, line: seq<char>)
    requires CR !in line && at + |line| + 2 <= |stream| && stream[at..at + |line| + 2] == line + CRLF
    requires at <= got < at + |line| + 2
    ensures at + 2 <= got && stream[got - 1] == CR && CR !in stream[at..got - 1] <==> got - at == |line| + 1 >= 2
  {
    var len, t := got - at, line + CRLF;
    if len > 0 {
      assert stream[got - 1] == stream[at..at + |t|][len - 1] == t[len - 1];
      if len <= |line| {
        assert t[len - 1] == line[len - 1];
      } else {
        SliceOfSlice(stream, at, at + |t|, 0, len - 1);
        assert stream[at..got - 1] == t[..len - 1] == line;
      }
    }
  }

  /** On a printed request that case is a non-empty line of which just the LF is missing. */
  lemma ShortBeyond(r: Text, rest: seq<char>, f: Feed, k: nat, stale: seq<char>)
    requires Printable(r) && k < LineCount(r) && OnTrack(r, f, k) && f.at <= f.got
    requires f.got < Offset(r, k) + |Line(r, k)| + 2 && f.got < |Print(r)|
    ensures Beyond(Print(r) + rest, f, stale) <==> stale == [] && f.got - f.at == |Line(r, k)| + 1 >= 2
  {
    hide After, PrintLines, Line, Print, Printable, NulFree;
    NotDone(r, k);
    LineAt(r, k, Print(r) + rest);
    LineHasNoCR(r, k);
    LoneCR(Print(r) + rest, f.at, f.got, Line(r, k));
  }

  /** What has been received stands at the front of the memory. */
  lemma ReceivedSlice(stream: seq<char>, stale: seq<char>, got: nat, at: nat, n: nat)
    requires at + n <= got <= |stream|
    ensures (stream[..got] + stale)[at..][..n] == stream[at..at + n]
  {
    var mem := stream[..got] + stale;
    forall i | 0 <= i < n ensures mem[at..][..n][i] == stream[at..at + n][i] {
      assert mem[at..][..n][i] == mem[at + i] == stream[at + i];
    }
  }

  /** A whole line has arrived: its CR is not the last byte. */
  lemma WholeLine(stream: seq<char>, at: nat, got: nat, line: seq<char>)
    requires at + |line| + 2 <= got <= |stream| && stream[at..at + |line| + 2] == line + CRLF
    ensures CR in stream[at..got - 1]
  {
    assert stream[at + |line|] == stream[at..at + |line| + 2][|line|] == CR;
    assert stream[at..got - 1][|line|] == CR;
  }

  lemma IterateLine(r: Text, rest: seq<char>, f: Feed, k: nat, stale: seq<char>)
    requires Printable(r) && k < LineCount(r) && OnTrack(r, f, k)
    requires Offset(r, k) + |Line(r, k)| + 2 <= f.got <= |Print(r) + rest|
    ensures var stream := Print(r) + rest;
      var f' := FeedStep(stream, f, Iterate(stale));
      !Beyond(stream, f, stale) && f'.Some? && OnTrack(r, f'.value, k + 1)
  {
    hide After, PrintLines, StepOf, Line, Lookup, Print, NulFree;
    var stream := Print(r) + rest;
    var mem, n := (stream[..f.got] + stale)[f.at..], |Line(r, k)| + 2;
    NotDone(r, k);
    LineAt(r, k, stream);
    ReceivedSlice(stream, stale, f.got, f.at, n);
    LineStep(r, k, mem, f.got - f.at);
    WholeLine(stream, f.at, f.got, Line(r, k));
  }

  /** One event: the buffer is left exactly in that case; otherwise the parser stays on track. */
  lemma EventKeepsTrack(r: Text, rest: seq<char>, f: Feed, k: nat, e: Event) returns (k': nat)
    requires Printable(r) && OnTrack(r, f, k) && f.got <= |Print(r) + rest|
    ensures var stream := Print(r) + rest;
      var f' := FeedStep(stream, f, e);
      if e.Iterate? && Beyond(stream, f, e.stale) then f'.None? else f'.Some? && OnTrack(r, f'.value, k')
  {
    hide After, PrintLines, StepOf, Line, Print;
    k' := k;
    if e.Iterate? {
      NotDone(r, k);
      if k < LineCount(r) && f.at <= f.got {
        LineAt(r, k, Print(r));
        if Offset(r, k + 1) <= f.got {
          IterateLine(r, rest, f, k, e.stale);
          k' := k + 1;
        } else {
          IterateShort(r, rest, f, k, e.stale);
          var f' := FeedStep(Print(r) + rest, f, e);
          k' := if f'.None? || f'.value == f then k else k + 1;
        }
      }
    }
  }

  lemma {:induction false} RunKeepsTrack(r: Text, rest: seq<char>, es: seq<Event>) returns (k: nat)
    requires Printable(r)
    ensures var stream := Print(r) + rest;
      var f := FeedRun(stream, es);
      (f.Some? <==> Within(stream, es)) && (f.Some? ==> OnTrack(r, f.value, k))
  {
    hide After, PrintLines, StepOf, Print, FeedStep, Beyond, OnTrack;
    if es == [] {
      FirstLine(r);
      k := 0;
      StartsOnTrack(r);
    } else {
      var n := |es| - 1;
      k := RunKeepsTrack(r, rest, es[..n]);
      var f := FeedRun(Print(r) + rest, es[..n]);
      if f.Some? {
        k := EventKeepsTrack(r, rest, f.value, k, es[n]);
      }
    }
  }

  lemma StartsOnTrack(r: Text)
    ensures OnTrack(r, Feed(FRESH, 0, 0), 0)
  {
    FirstLine(r);
  }

  /** However a printed request is cut into chunks, and however often the parser goes round in
      between: the parser stays inside the buffer's memory exactly when no iteration finds a lone CR
      on its last byte. Then, once the rest has arrived, it ends with the same request and the same
      bytes left over as when everything is delivered at once. */
  lemma ChunkIndependence(r: Text, rest: seq<char>, es: seq<Event>, stale: seq<char>)
    requires Printable(r)
    ensures var stream := Print(r) + rest;
      var f := FeedRun(stream, es);
      && (f.Some? <==> Within(stream, es))
      && (f.Some? ==> Parse(f.value.req, stream + stale, f.value.at, |stream|) == Complete(Expected(r), |Print(r)|))
      && Parse(FRESH, stream + stale, 0, |stream|) == Complete(Expected(r), |Print(r)|)
  {
    hide Parse, After, PrintLines, Print, Beyond, FeedStep, Within;
    var k := RunKeepsTrack(r, rest, es);
    var stream := Print(r) + rest;
    RequestRoundTrip(r, rest, stale);
    if FeedRun(stream, es).Some? {
      var mem := stream + stale;
      StandsFirst(Print(r), rest, stale);
      ParseFromLine(r, k, mem, 0, |stream|);
    }
  }
}
