/** The line-driven request parser (http-server/http_server.c). */
module HttpParser {
  import opened CStrings
  import opened Memmem
  import opened Buffers
  import opened Tokens
  import opened HttpRequests

  /** `Aborts`: one of the parser's assertions fails. `Overruns`: it reads outside the buffer. */
  datatype Step = Progress(req: Request, used: nat) | Stutter | Aborts | Overruns

  /** `process_status_line` */
  function StatusLine(r: Request, line: seq<char>): Option<Request> {
    var sp := IndexOf(line, ' ');
    if sp + 1 >= |line| then None
    else
      var rest := line[sp + 1..];
      var sp2 := IndexOf(rest, ' ');
      if sp2 == |rest| then None
      else
        var m, url, version := CStr(line[..sp]), CStr(rest[..sp2]), CStr(rest[sp2 + 1..]);
        var r' := r.(methodStr := Some(m), kind := MethodOf(m));
        Some(WithQuery(r', url).(version := Some(version)))
  }

  /** A header line of length `n` at the front of `mem`, or the end of the headers. */
  function HeaderLine(r: Request, mem: seq<char>, n: nat): Step
    requires n <= |mem|
  {
    match Lookup(mem, n, ": ")
    case Overrun => Overruns
    case Missing => Progress(WithCookies(r).(state := RequestDone), 2)
    case Found(j) =>
      if j + 2 > n then Overruns
      else Progress(WithHeader(r, Pair(CStr(mem[..j]), CStr(mem[j + 2..n]))), n + 2)
  }

  /** One iteration of the parse loop: `mem` starts at the read index, `len` bytes are readable. */
  function StepOf(r: Request, mem: seq<char>, len: nat): (s: Step)
    requires len <= |mem|
    ensures s.Progress? ==> s.used >= 2
  {
    if !r.state.RequestStatus? && !r.state.RequestHeaders? then Stutter
    else match Lookup(mem, len, CRLF)
      case Overrun => Overruns
      case Missing => Stutter
      case Found(i) =>
        if r.state.RequestHeaders? then HeaderLine(r, mem, i)
        else match StatusLine(r, mem[..i])
          case None => Aborts
          case Some(r') => Progress(r'.(state := RequestHeaders), i + 2)
  }

  /** `Spins`: the loop runs for ever, because an iteration changed nothing. */
  datatype Result =
    | Complete(req: Request, at: nat)
    | Spins(req: Request, at: nat)
    | Aborted
    | Overran

  /** The parse loop from offset `at`, with the readable bytes ending at `end`. */
  function Parse(r: Request, mem: seq<char>, at: nat, end: nat): Result
    requires end <= |mem|
    decreases if at <= end then end - at + 1 else 0
  {
    if r.state.RequestDone? then Complete(r, at)
    else if at > end then Spins(r, at)
    else match StepOf(r, mem[at..], end - at)
      case Stutter => Spins(r, at)
      case Aborts => Aborted
      case Overruns => Overran
      case Progress(r', used) => Parse(r', mem, at + used, end)
  }

  /** A status line is accepted exactly when it holds two spaces. */
  lemma StatusLineExact(r: Request, line: seq<char>)
    ensures StatusLine(r, line).Some? <==> exists i, j :: 0 <= i < j < |line| && line[i] == ' ' && line[j] == ' '
  {
    hide CStr, MethodOf, WithQuery;
    var sp := IndexOf(line, ' ');
    if sp + 1 < |line| {
      var rest := line[sp + 1..];
      var sp2 := IndexOf(rest, ' ');
      assert forall j :: sp < j < |line| ==> line[j] == rest[j - sp - 1];
      if sp2 < |rest| {
        assert line[sp] == ' ' && line[sp + 1 + sp2] == ' ';
      }
    }
  }

  /** `Host:localhost:8080`: the search leaves the line and the value's length would be negative. */
  lemma TwoColonsOverrun(r: Request)
    ensures HeaderLine(r, HostLine(), 19) == Overruns
  {
    hide Lookup, HostLine;
    TwoColonsLeaveTheLine();
  }

  lemma ParseUnfold(r: Request, mem: seq<char>, at: nat, end: nat)
    requires end <= |mem|
    ensures r.state.RequestDone? ==> Parse(r, mem, at, end) == Complete(r, at)
    ensures !r.state.RequestDone? && at > end ==> Parse(r, mem, at, end) == Spins(r, at)
    ensures !r.state.RequestDone? && at <= end ==>
              match StepOf(r, mem[at..], end - at)
              case Stutter => Parse(r, mem, at, end) == Spins(r, at)
              case Aborts => Parse(r, mem, at, end) == Aborted
              case Overruns => Parse(r, mem, at, end) == Overran
              case Progress(r', used) => Parse(r, mem, at, end) == Parse(r', mem, at + used, end)
  {
    hide StepOf;
  }

  // ---- the code ---------------------------------------------------------------------------

  datatype Outcome = Returns | NeverReturns | AssertionFails | ReadsOutside

  lemma LookupChar(s: seq<char>, c: char)
    requires c != NUL
    ensures Lookup(s, |s|, [c]) == if IndexOf(s, c) < |s| then Found(IndexOf(s, c)) else Missing
  {
    var i := IndexOf(s, c);
    if i < |s| {
      assert s[i..i + 1] == [c];
      assert c !in s[..i];
      LookupFirst(s, |s|, [c], i);
    } else {
      assert s[..|s|] == s;
      LookupNone(s, |s|, [c]);
    }
  }

  method SetMethod(req: HttpRequest, m: cstring)
    modifies req
    ensures req.Abs() == old(req.Abs()).(methodStr := Some(m), kind := MethodOf(m))
  {
    req.methodStr := Some(m);
    req.kind := MethodOf(m);
  }

  method SetUrl(req: HttpRequest, url: cstring)
    modifies req
    ensures req.Abs() == WithQuery(old(req.Abs()), url)
  {
    hide WithQuery;
    req.url := Duplicate(url);
    assert req.url[..|url|] == url;
    req.ParseQueryString(|url|);
  }

  method SetVersion(req: HttpRequest, version: cstring)
    modifies req
    ensures req.Abs() == old(req.Abs()).(version := Some(version))
  {
    req.version := Some(version);
  }

  /** `line` runs from the read index to the CRLF. False when an assertion fails. */
  method ProcessStatusLine(line: seq<char>, req: HttpRequest) returns (ok: bool)
    modifies req
    ensures ok <==> StatusLine(old(req.Abs()), line).Some?
    ensures ok ==> Some(req.Abs()) == StatusLine(old(req.Abs()), line)
  {
    hide WithQuery, MethodOf, Lookup, IndexOf, CStr, req.Abs;
    LookupChar(line, ' ');
    var space := Memmemx(line, |line|, " ");
    if !space.Found? {
      return false;
    }
    SetMethod(req, CStr(line[..space.at]));
    if space.at + 1 >= |line| {
      return false;
    }
    var rest := line[space.at + 1..];
    LookupChar(rest, ' ');
    var space2 := Memmemx(rest, |rest|, " ");
    if !space2.Found? {
      return false;
    }
    SetUrl(req, CStr(rest[..space2.at]));
    SetVersion(req, CStr(rest[space2.at + 1..]));
    ok := true;
  }

  method SetState(req: HttpRequest, state: RequestState)
    modifies req
    ensures req.Abs() == old(req.Abs()).(state := state)
  {
    req.state := state;
  }

  /** The header branch: `here` starts at the read index, the line ends at `n`. */
  method ProcessHeaderLine(here: seq<char>, n: nat, req: HttpRequest) returns (used: nat, ok: bool)
    requires n <= |here|
    modifies req
    ensures var s := HeaderLine(old(req.Abs()), here, n);
      if ok then s == Progress(req.Abs(), used) else s == Overruns
  {
    hide Lookup, CStr, WithHeader, WithCookies, req.Abs;
    used := 0;
    var colon := Memmemx(here, n, ": ");
    if colon.Overrun? || (colon.Found? && colon.at + 2 > n) {
      return used, false;
    }
    if colon.Found? {
      req.AddHeader(Pair(CStr(here[..colon.at]), CStr(here[colon.at + 2..n])));
      used := n + 2;
    } else {
      req.ParseCookies();
      SetState(req, RequestDone);
      used := 2;
    }
    ok := true;
  }

  /** One iteration of the loop, with something to read or nothing. */
  method Iterate(input: Buffer, req: HttpRequest) returns (s: Step)
    requires input.Valid() && !req.state.RequestDone?
    modifies input`readIndex, req
    ensures s == StepOf(old(req.Abs()), old(input.Contents() + input.Stale()), |old(input.Contents())|)
    ensures s.Progress? ==> req.Abs() == s.req && input.readIndex == old(input.readIndex) + s.used
    ensures s.Stutter? ==> req.Abs() == old(req.Abs()) && input.readIndex == old(input.readIndex)
  {
    hide Lookup, StatusLine, HeaderLine;
    if req.state != RequestStatus && req.state != RequestHeaders {
      return Stutter;
    }
    var crlf := input.FindCRLF();
    if crlf.Overrun? {
      return Overruns;
    }
    if crlf.Missing? {
      return Stutter;
    }
    var here := input.data[input.readIndex..];
    assert here == input.Contents() + input.Stale();
    var used := crlf.at + 2;
    if req.state == RequestStatus {
      var ok := ProcessStatusLine(here[..crlf.at], req);
      if !ok {
        return Aborts;
      }
      SetState(req, RequestHeaders);
    } else {
      var ok: bool;
      used, ok := ProcessHeaderLine(here, crlf.at, req);
      if !ok {
        return Overruns;
      }
    }
    input.readIndex := input.readIndex + used;
    s := Progress(req.Abs(), used);
  }

  method ParseHttpRequest(input: Buffer, req: HttpRequest) returns (outcome: Outcome)
    requires input.Valid()
    modifies input`readIndex, req
    ensures var res := Parse(old(req.Abs()), old(input.Contents() + input.Stale()), 0, |old(input.Contents())|);
      match res
      case Complete(r, at) =>
        outcome == Returns && req.Abs() == r && input.readIndex == old(input.readIndex) + at
      case Spins(r, at) =>
        outcome == NeverReturns && req.Abs() == r && input.readIndex == old(input.readIndex) + at
      case Aborted => outcome == AssertionFails
      case Overran => outcome == ReadsOutside
  {
    hide StepOf, Parse, req.Abs;
    ghost var r0, mem, start, end := req.Abs(), input.data[input.readIndex..], input.readIndex, |input.Contents()|;
    assert mem == input.Contents() + input.Stale();
    while !req.state.RequestDone?
      invariant start <= input.readIndex
      invariant Parse(r0, mem, 0, end) == Parse(req.Abs(), mem, input.readIndex - start, end)
      decreases if input.readIndex <= input.writeIndex then input.writeIndex - input.readIndex + 1 else 0
    {
      ghost var at := input.readIndex - start;
      ParseUnfold(req.Abs(), mem, at, end);
      if input.readIndex > input.writeIndex {
        return NeverReturns;
      }
      RestOfMemory(input, mem, start);
      var s := Iterate(input, req);
      match s {
        case Aborts => return AssertionFails;
        case Overruns => return ReadsOutside;
        case Stutter => return NeverReturns;
        case Progress(_, _) =>
      }
    }
    ParseUnfold(req.Abs(), mem, input.readIndex - start, end);
    outcome := Returns;
  }

  lemma RestOfMemory(input: Buffer, mem: seq<char>, start: nat)
    requires input.Valid() && start <= input.readIndex && mem == input.data[start..]
    ensures input.Contents() + input.Stale() == mem[input.readIndex - start..]
  {
  }
}
