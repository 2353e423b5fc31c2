/** Printing requests and parsing them back: pipelines, chunks, incomplete input. */
module HttpRoundTrip {
  import opened CStrings
  import opened Memmem
  import opened Buffers
  import opened Tokens
  import opened HttpRequests
  import opened HttpParser

  /** A request as a client writes it. */
  datatype Text = Text(method_: cstring, url: cstring, version: cstring, headers: seq<Pair>)

  /** No CR anywhere, no space in method and url, no ':' in header keys. */
  ghost predicate Printable(r: Text) {
    && CR !in r.method_ && ' ' !in r.method_ && CR !in r.url && ' ' !in r.url && CR !in r.version
    && forall h :: h in r.headers ==> PrintableHeader(h)
  }

  predicate PrintableHeader(h: Pair) {
    CR !in h.key && ':' !in h.key && CR !in h.value
  }

  function StatusText(r: Text): cstring {
    r.method_ + " " + r.url + " " + r.version
  }

  /** The lines of a request: status line, headers, and the blank line. */
  function LineCount(r: Text): nat {
    |r.headers| + 2
  }

  function Line(r: Text, k: nat): cstring
    requires k < LineCount(r)
  {
    if k == 0 then StatusText(r) else if k <= |r.headers| then FieldLine(r.headers[k - 1]) else ""
  }

  /** The first `k` lines, each closed by CRLF. */
  function PrintLines(r: Text, k: nat): cstring
    requires k <= LineCount(r)
  {
    if k == 0 then "" else PrintLines(r, k - 1) + Line(r, k - 1) + CRLF
  }

  function Print(r: Text): cstring {
    PrintLines(r, LineCount(r))
  }

  // ---- what the parser should make of it --------------------------------------------------

  function WithHeaders(q: Request, hs: seq<Pair>): Request {
    if hs == [] then q else WithHeader(WithHeaders(q, hs[..|hs| - 1]), hs[|hs| - 1])
  }

  /** After the status line. */
  function Started(r: Text): Request {
    var q := FRESH.(methodStr := Some(r.method_), kind := MethodOf(r.method_));
    WithQuery(q, r.url).(version := Some(r.version), state := RequestHeaders)
  }

  /** After the first `k` lines. */
  function After(r: Text, k: nat): Request
    requires k <= LineCount(r)
  {
    if k == 0 then FRESH
    else if k < LineCount(r) then WithHeaders(Started(r), r.headers[..k - 1])
    else WithCookies(WithHeaders(Started(r), r.headers)).(state := RequestDone)
  }

  function Expected(r: Text): Request {
    After(r, LineCount(r))
  }

  function FirstHeaders(hs: seq<Pair>): seq<Pair> {
    Take(hs, MAX_HEADERS)
  }

  lemma {:induction false} WithHeadersIs(q: Request, hs: seq<Pair>)
    requires q.headers == []
    ensures WithHeaders(q, hs) == q.(headers := FirstHeaders(hs))
  {
    hide FirstHeaders, WithHeader, NulFree;
    if hs == [] {
      NoHeaders();
    } else {
      WithHeadersIs(q, hs[..|hs| - 1]);
      OneMoreHeader(q, hs);
    }
  }

  lemma NoHeaders()
    ensures FirstHeaders([]) == []
  {
  }

  lemma OneMoreHeader(q: Request, hs: seq<Pair>)
    requires hs != []
    ensures WithHeader(q.(headers := FirstHeaders(hs[..|hs| - 1])), hs[|hs| - 1]) == q.(headers := FirstHeaders(hs))
  {
    hide NulFree;
    var init, last := hs[..|hs| - 1], hs[|hs| - 1];
    if |init| < MAX_HEADERS {
      assert hs == init + [last];
    } else {
      assert hs[..MAX_HEADERS] == init[..MAX_HEADERS];
    }
  }

  /** The parsed request field by field: all of it, except headers beyond the 128th. */
  lemma ExpectedFields(r: Text)
    ensures var q := Expected(r);
      && q.state == RequestDone && q.kind == MethodOf(r.method_) && q.methodStr == Some(r.method_)
      && q.path == Some(QueryPath(r.url)) && q.params == QueryParams(r.url) && q.version == Some(r.version)
      && q.headers == FirstHeaders(r.headers)
      && q.headers == (if |r.headers| <= 128 then r.headers else r.headers[..128])
      && var i := PrefixIndex(q.headers, "Cookie");
         q.cookies == if i == |q.headers| then [] else CookiePairs(q.headers[i].value)
  {
    WithHeadersIs(Started(r), r.headers);
  }

  // ---- one line ----------------------------------------------------------------------------

  lemma FindLine(line: seq<char>, mem: seq<char>, len: nat)
    requires CR !in line && |line| + 2 <= |mem| && mem[..|line| + 2] == line + CRLF
    requires 2 <= len && |line| < len <= |mem|
    ensures Lookup(mem, len, CRLF) == Found(|line|) && mem[..|line|] == line
  {
    var n := |line|;
    assert mem[..n] == mem[..n + 2][..n];
    assert mem[n..n + 2] == mem[..n + 2][n..];
    LookupFirst(mem, len, CRLF, n);
  }

  lemma StatusStep(r: Text)
    requires Printable(r)
    ensures var s := StatusLine(FRESH, StatusText(r));
      s.Some? && s.value.(state := RequestHeaders) == Started(r)
  {
    hide WithQuery, MethodOf;
    var line, rest := StatusText(r), r.url + " " + r.version;
    assert line == r.method_ + [' '] + rest;
    IndexOfJoin(r.method_, ' ', rest);
    assert line[..|r.method_|] == r.method_ && line[|r.method_| + 1..] == rest;
    IndexOfJoin(r.url, ' ', r.version);
    assert rest == r.url + [' '] + r.version;
    assert rest[..|r.url|] == r.url && rest[|r.url| + 1..] == r.version;
  }

  lemma HeaderStep(q: Request, h: Pair, mem: seq<char>)
    requires PrintableHeader(h)
    requires var n := |FieldLine(h)|; n <= |mem| && mem[..n] == FieldLine(h)
    ensures HeaderLine(q, mem, |FieldLine(h)|) == Progress(WithHeader(q, h), |FieldLine(h)| + 2)
  {
    hide Lookup, WithHeader;
    var text, k := FieldLine(h), |h.key|;
    var n := |text|;
    assert text == h.key + (": " + h.value);
    SliceOfSlice(mem, 0, n, 0, k);
    SliceOfSlice(mem, 0, n, k, k + 2);
    SliceOfSlice(mem, 0, n, k + 2, n);
    assert text[..k] == h.key && text[k..k + 2] == ": " && text[k + 2..n] == h.value;
    assert mem[0..n] == text;
    LookupFirst(mem, n, ": ", k);
  }

  lemma LineHasNoCR(r: Text, k: nat)
    requires Printable(r) && k < LineCount(r)
    ensures CR !in Line(r, k)
  {
    if 0 < k <= |r.headers| {
      assert r.headers[k - 1] in r.headers;
    }
  }

  lemma AfterStep(r: Text, k: nat)
    requires 0 < k <= |r.headers|
    ensures After(r, k + 1) == WithHeader(After(r, k), r.headers[k - 1])
    ensures After(r, k).state == RequestHeaders
  {
    assert r.headers[..k][..k - 1] == r.headers[..k - 1];
    WithHeadersIs(Started(r), r.headers[..k - 1]);
  }

  /** The whole line is there, or all but its LF, which the memory happens to hold already. */
  lemma LineStep(r: Text, k: nat, mem: seq<char>, len: nat)
    requires Printable(r) && k < LineCount(r)
    requires var line := Line(r, k);
      && |line| + 2 <= |mem| && mem[..|line| + 2] == line + CRLF
      && |line| < len <= |mem| && 2 <= len
    ensures StepOf(After(r, k), mem, len) == Progress(After(r, k + 1), |Line(r, k)| + 2)
  {
    hide Lookup, StatusLine, WithCookies;
    var line := Line(r, k);
    LineHasNoCR(r, k);
    FindLine(line, mem, len);
    if k == 0 {
      StatusStep(r);
      assert r.headers[..0] == [];
    } else if k <= |r.headers| {
      assert r.headers[k - 1] in r.headers;
      AfterStep(r, k);
      HeaderStep(After(r, k), r.headers[k - 1], mem);
    } else {
      assert r.headers[..k - 1] == r.headers;
      WithHeadersIs(Started(r), r.headers);
      assert Lookup(mem, 0, ": ") == Missing by {
        LookupNone(mem, 0, ": ");
      }
    }
  }

  /** An incomplete line is left alone. */
  lemma PartialStep(r: Text, k: nat, mem: seq<char>, len: nat)
    requires Printable(r) && k < LineCount(r) && len <= |mem|
    requires var t := Line(r, k) + CRLF; len < |t| && mem[..len] == t[..len]
    requires len == |Line(r, k)| + 1 && len >= 2 ==> |mem| > len && mem[len] != '\n'
    ensures StepOf(After(r, k), mem, len) == Stutter
  {
    hide WithHeaders, WithCookies, WithQuery;
    var line := Line(r, k);
    LineHasNoCR(r, k);
    var t := line + CRLF;
    if len <= |line| {
      assert mem[..len] == line[..len];
      LookupNone(mem, len, CRLF);
    } else if len >= 2 {
      assert mem[..len - 1] == mem[..len][..len - 1] == line;
      assert mem[len - 1] == mem[..len][len - 1] == CR;
      LookupLastByte(mem, len, CRLF);
    }
  }

  // ---- whole requests -----------------------------------------------------------------------

  /** Offset of line `k`. */
  function Offset(r: Text, k: nat): nat
    requires k <= LineCount(r)
  {
    |PrintLines(r, k)|
  }

  lemma {:induction false} LinesArePrefixes(r: Text, k: nat, n: nat)
    requires k <= n <= LineCount(r)
    ensures PrintLines(r, k) <= PrintLines(r, n)
    decreases n
  {
    hide Line;
    if k < n {
      LinesArePrefixes(r, k, n - 1);
      assert PrintLines(r, n) == PrintLines(r, n - 1) + (Line(r, n - 1) + CRLF);
    }
  }

  /** Line `k` and its CRLF stand at its offset. */
  lemma LineIn(r: Text, k: nat, text: seq<char>)
    requires k < LineCount(r) && PrintLines(r, k + 1) <= text
    ensures Offset(r, k + 1) == Offset(r, k) + |Line(r, k)| + 2 <= |text|
    ensures text[Offset(r, k)..Offset(r, k + 1)] == Line(r, k) + CRLF
  {
    hide Line, NulFree;
    LastPart(PrintLines(r, k), Line(r, k) + CRLF, PrintLines(r, k + 1), text);
  }

  lemma LineAt(r: Text, k: nat, text: seq<char>)
    requires k < LineCount(r) && Print(r) <= text
    ensures Offset(r, k + 1) == Offset(r, k) + |Line(r, k)| + 2 <= |text|
    ensures text[Offset(r, k)..Offset(r, k + 1)] == Line(r, k) + CRLF
  {
    hide Line, PrintLines, NulFree;
    LinesArePrefixes(r, k + 1, LineCount(r));
    LineIn(r, k, text);
  }

  lemma LastPart(a: seq<char>, b: seq<char>, t: seq<char>, text: seq<char>)
    requires t == a + b && t <= text
    ensures text[|a|..|t|] == b
  {
    assert text[..|t|] == t;
    assert text[|a|..|t|] == text[..|t|][|a|..];
  }

  /** `text` stands in `mem` from `at` on. */
  predicate StandsAt(mem: seq<char>, at: nat, text: seq<char>) {
    at + |text| <= |mem| && mem[at..at + |text|] == text
  }

  lemma StandsFirst(text: seq<char>, rest: seq<char>, stale: seq<char>)
    ensures StandsAt(text + rest + stale, 0, text)
  {
  }

  lemma LineStands(r: Text, k: nat, n: nat, mem: seq<char>, at: nat)
    requires k < n <= LineCount(r) && StandsAt(mem, at, PrintLines(r, n))
    ensures Offset(r, k + 1) == Offset(r, k) + |Line(r, k)| + 2 <= Offset(r, n)
    ensures var size := |Line(r, k)| + 2;
      var m := mem[at + Offset(r, k)..];
      size <= |m| && m[..size] == Line(r, k) + CRLF
  {
    hide PrintLines, Line;
    var size, o, total := |Line(r, k)| + 2, Offset(r, k), Offset(r, n);
    LinesArePrefixes(r, k + 1, n);
    LineIn(r, k, mem[at..at + total]);
    SliceOfSlice(mem, at, at + total, o, o + size);
    SliceOfSlice(mem, at + o, |mem|, 0, size);
  }

  /** From line `k` on, the parser works its way to line `n`. */
  lemma {:induction false} ParseLines(r: Text, k: nat, n: nat, mem: seq<char>, at: nat, end: nat)
    requires Printable(r) && k <= n <= LineCount(r)
    requires StandsAt(mem, at, PrintLines(r, n)) && at + Offset(r, n) <= end <= |mem|
    ensures Offset(r, k) <= Offset(r, n)
    ensures Parse(After(r, k), mem, at + Offset(r, k), end) == Parse(After(r, n), mem, at + Offset(r, n), end)
    decreases n - k
  {
    hide After, StepOf, PrintLines, Printable, Parse;
    if k < n {
      var o := at + Offset(r, k);
      ParseUnfold(After(r, k), mem, o, end);
      LineStands(r, k, n, mem, at);
      NotDone(r, k);
      LineStep(r, k, mem[o..], end - o);
      ParseLines(r, k + 1, n, mem, at, end);
    }
  }

  /** From any line on, the parser takes the rest of the printed request and nothing more. */
  lemma ParseFromLine(r: Text, k: nat, mem: seq<char>, at: nat, end: nat)
    requires Printable(r) && k <= LineCount(r)
    requires StandsAt(mem, at, Print(r)) && at + |Print(r)| <= end <= |mem|
    ensures Parse(After(r, k), mem, at + Offset(r, k), end) == Complete(Expected(r), at + |Print(r)|)
  {
    hide After, StepOf, PrintLines, Printable, Parse;
    ParseLines(r, k, LineCount(r), mem, at, end);
    NotDone(r, LineCount(r));
    ParseUnfold(Expected(r), mem, at + |Print(r)|, end);
  }

  lemma NotDone(r: Text, k: nat)
    requires k <= LineCount(r)
    ensures After(r, k).state.RequestDone? <==> k == LineCount(r)
  {
    if 0 < k < LineCount(r) {
      WithHeadersIs(Started(r), r.headers[..k - 1]);
    }
  }

  lemma Active(r: Text, k: nat)
    requires k < LineCount(r)
    ensures After(r, k).state.RequestStatus? || After(r, k).state.RequestHeaders?
  {
    if 0 < k {
      WithHeadersIs(Started(r), r.headers[..k - 1]);
    }
  }

  /** A printed request, whatever follows it and whatever the buffer held before, is parsed back
      and exactly its bytes are consumed. */
  lemma RequestRoundTrip(r: Text, rest: seq<char>, stale: seq<char>)
    requires Printable(r)
    ensures Parse(FRESH, Print(r) + rest + stale, 0, |Print(r) + rest|) == Complete(Expected(r), |Print(r)|)
  {
    hide Print, Parse, After, Printable, NulFree;
    var mem := Print(r) + rest + stale;
    StandsFirst(Print(r), rest, stale);
    FirstLine(r);
    ParseFromLine(r, 0, mem, 0, |Print(r) + rest|);
  }

  // ---- a line that is not a status line ------------------------------------------------------

  /** A first line with fewer than two spaces fails one of the assertions. */
  lemma BadStatusAborts(line: seq<char>, rest: seq<char>, stale: seq<char>)
    requires CR !in line && forall i, j :: 0 <= i < j < |line| ==> line[i] != ' ' || line[j] != ' '
    ensures var text := line + CRLF + rest; Parse(FRESH, text + stale, 0, |text|) == Aborted
  {
    hide Parse, StatusLine, Lookup;
    var text := line + CRLF + rest;
    var mem := text + stale;
    assert mem[0..] == mem && mem[..|line| + 2] == line + CRLF;
    ParseUnfold(FRESH, mem, 0, |text|);
    FindLine(line, mem, |text|);
    StatusLineExact(FRESH, line);
  }

  // ---- a line that is not a header ----------------------------------------------------------

  /** No ": ", and at most one colon. */
  predicate Loose(line: seq<char>) {
    && (forall i, j :: 0 <= i < j < |line| ==> line[i] != ':' || line[j] != ':')
    && (forall i :: 0 <= i < |line| - 1 ==> line[i] != ':' || line[i + 1] != ' ')
  }

  lemma LooseMissing(mem: seq<char>, line: seq<char>)
    requires Loose(line) && |line| < SIZE_MODULUS && |line| < |mem| && mem[..|line| + 1] == line + [CR]
    ensures Lookup(mem, |line|, ": ") == Missing
  {
    var n, needle: cstring := |line|, ": ";
    assert forall i :: 0 <= i < n ==> mem[i] == mem[..n + 1][i] == line[i];
    assert mem[n] == mem[..n + 1][n] == CR;
    if n >= 2 {
      if ':' in line {
        var q :| 0 <= q < n && line[q] == ':';
        if q + 2 <= |mem| {
          AgreesTwo(mem, needle, q);
        }
        LookupOneFalse(mem, n, needle, q);
      } else {
        assert forall c :: c in mem[..n] ==> c in line;
        LookupNone(mem, n, needle);
      }
    }
  }

  /** Such a line behind the headers is taken for the blank line, but only its first two bytes are
      stepped over: what is left in the buffer begins with its third. */
  lemma LooseLineEnds(t: Text, line: seq<char>, rest: seq<char>, stale: seq<char>)
    requires Printable(t) && CR !in line && Loose(line) && |line| < SIZE_MODULUS
    ensures var head := PrintLines(t, |t.headers| + 1);
      var text := head + line + CRLF + rest;
      && Parse(FRESH, text + stale, 0, |text|) == Complete(Expected(t), |head| + 2)
      && text[|head| + 2..] == (line + CRLF + rest)[2..]
  {
    hide PrintLines, Parse, After, StepOf, Printable, NulFree, Lookup;
    var n, head := |t.headers| + 1, PrintLines(t, |t.headers| + 1);
    var text := head + line + CRLF + rest;
    var mem, here := text + stale, line + CRLF + (rest + stale);
    assert mem == head + here && mem[|head|..] == here;
    assert text == head + (line + CRLF + rest);
    FirstLine(t);
    assert mem[0..0 + |head|] == head;
    ParseLines(t, 0, n, mem, 0, |text|);
    NotDone(t, n);
    ParseUnfold(After(t, n), mem, |head|, |text|);
    LooseStep(t, line, rest + stale, |line| + 2 + |rest|);
    NotDone(t, n + 1);
    ParseUnfold(Expected(t), mem, |head| + 2, |text|);
  }

  lemma LooseStep(t: Text, line: seq<char>, rest: seq<char>, len: nat)
    requires CR !in line && Loose(line) && |line| < SIZE_MODULUS
    requires |line| + 2 <= len <= |line + CRLF + rest|
    ensures StepOf(After(t, |t.headers| + 1), line + CRLF + rest, len) == Progress(Expected(t), 2)
  {
    hide Lookup, WithCookies, WithHeaders, Started;
    var mem := line + CRLF + rest;
    assert t.headers[..|t.headers|] == t.headers;
    InHeaders(t);
    assert mem[..|line| + 2] == line + CRLF;
    FindLine(line, mem, len);
    assert mem[..|line| + 1] == line + [CR];
    LooseMissing(mem, line);
  }

  lemma InHeaders(t: Text)
    ensures After(t, |t.headers| + 1) == WithHeaders(Started(t), t.headers)
    ensures After(t, |t.headers| + 1).state == RequestHeaders
  {
    assert t.headers[..|t.headers|] == t.headers;
    WithHeadersIs(Started(t), t.headers);
  }

  // ---- pipelines ----------------------------------------------------------------------------

  function PrintAll(rs: seq<Text>): cstring {
    if rs == [] then [] else Print(rs[0]) + PrintAll(rs[1..])
  }

  function ExpectedAll(rs: seq<Text>): (qs: seq<Request>)
    ensures |qs| == |rs|
    ensures forall i :: 0 <= i < |rs| ==> qs[i] == Expected(rs[i])
  {
    seq(|rs|, i requires 0 <= i < |rs| => Expected(rs[i]))
  }

  /** `n` rounds of parse and reset: the requests parsed, and where the reading stands; `None`
      when a round does not complete. */
  function ParseRounds(mem: seq<char>, at: nat, end: nat, n: nat): Option<(seq<Request>, nat)>
    requires end <= |mem|
    decreases n
  {
    if n == 0 then Some(([], at))
    else match Parse(FRESH, mem, at, end)
      case Complete(q, at') =>
        (match ParseRounds(mem, at', end, n - 1)
         case None => None
         case Some((qs, last)) => Some(([q] + qs, last)))
      case _ => None
  }

  lemma {:induction false} RoundsFrom(rs: seq<Text>, mem: seq<char>, at: nat, end: nat)
    requires forall r :: r in rs ==> Printable(r)
    requires StandsAt(mem, at, PrintAll(rs)) && at + |PrintAll(rs)| <= end <= |mem|
    ensures ParseRounds(mem, at, end, |rs|) == Some((ExpectedAll(rs), at + |PrintAll(rs)|))
  {
    hide Parse, Print, After, Printable, NulFree;
    if rs != [] {
      var r, p, tail := rs[0], Print(rs[0]), PrintAll(rs[1..]);
      var text := mem[at..at + |PrintAll(rs)|];
      SliceOfSlice(mem, at, at + |text|, 0, |p|);
      SliceOfSlice(mem, at, at + |text|, |p|, |text|);
      JoinParts(text, p, tail);
      FirstLine(r);
      ParseFromLine(r, 0, mem, at, end);
      RoundsFrom(rs[1..], mem, at + |p|, end);
      assert ExpectedAll(rs) == [Expected(r)] + ExpectedAll(rs[1..]);
    }
  }

  lemma JoinParts(text: seq<char>, a: seq<char>, b: seq<char>)
    requires text == a + b
    ensures text[0..|a|] == a && text[|a|..|text|] == b
  {
  }

  lemma FirstLine(r: Text)
    ensures Offset(r, 0) == 0 && After(r, 0) == FRESH
  {
  }

  /** Any pipeline of printed requests: repeated parse and reset yields the same requests in
      order, and leaves exactly the bytes behind them. */
  lemma PipelineRoundTrip(rs: seq<Text>, rest: seq<char>, stale: seq<char>)
    requires forall r :: r in rs ==> Printable(r)
    ensures ParseRounds(PrintAll(rs) + rest + stale, 0, |PrintAll(rs) + rest|, |rs|)
         == Some((ExpectedAll(rs), |PrintAll(rs)|))
  {
    hide PrintAll, ParseRounds, Printable, NulFree;
    var mem := PrintAll(rs) + rest + stale;
    StandsFirst(PrintAll(rs), rest, stale);
    RoundsFrom(rs, mem, 0, |PrintAll(rs) + rest|);
  }

  // ---- incomplete input ---------------------------------------------------------------------

  lemma PrefixOfLine(r: Text, k: nat, n: nat, stale: seq<char>)
    requires k < LineCount(r) && Offset(r, k) <= n < Offset(r, k) + |Line(r, k)| + 2
    requires n <= |Print(r)|
    ensures var m := (Print(r)[..n] + stale)[Offset(r, k)..];
      var len := n - Offset(r, k);
      && len <= |m| == len + |stale| && m[..len] == (Line(r, k) + CRLF)[..len]
      && (stale != [] ==> m[len] == stale[0])
      && (len == |Line(r, k)| + 1 && stale != [] && stale[0] == '\n' ==> m[..len + 1] == Line(r, k) + CRLF)
  {
    hide Print, PrintLines, Line;
    LineAt(r, k, Print(r));
    var p, o, o', len := Print(r), Offset(r, k), Offset(r, k + 1), n - Offset(r, k);
    var m, t := (p[..n] + stale)[o..], Line(r, k) + CRLF;
    assert m[..len] == p[o..n];
    SliceOfSlice(p, o, o', 0, len);
    assert stale != [] ==> m[len] == stale[0];
    if len == |Line(r, k)| + 1 && stale != [] && stale[0] == '\n' {
      assert m[..len + 1] == m[..len] + [stale[0]];
      assert t == t[..len] + ['\n'];
    }
  }

  lemma {:induction false} PrefixFromLine(r: Text, k: nat, n: nat, stale: seq<char>)
    requires Printable(r) && k < LineCount(r) && Offset(r, k) <= n < |Print(r)|
    ensures !Parse(After(r, k), Print(r)[..n] + stale, Offset(r, k), n).Complete?
    decreases LineCount(r) - k
  {
    hide After, StepOf, PrintLines, Parse;
    var mem, o := Print(r)[..n] + stale, Offset(r, k);
    var len := n - o;
    LineAt(r, k, Print(r));
    NotDone(r, k);
    ParseUnfold(After(r, k), mem, o, n);
    if len >= |Line(r, k)| + 2 {
      assert mem[o..][..|Line(r, k)| + 2] == Print(r)[o..Offset(r, k + 1)];
      LineStep(r, k, mem[o..], len);
      if k + 1 < LineCount(r) {
        PrefixFromLine(r, k + 1, n, stale);
      }
    } else {
      PrefixOfLine(r, k, n, stale);
      StraddleOrPartial(r, k, n, stale);
    }
  }

  /** The last line that has arrived is incomplete. */
  lemma StraddleOrPartial(r: Text, k: nat, n: nat, stale: seq<char>)
    requires Printable(r) && k < LineCount(r) && n < |Print(r)|
    requires Offset(r, k) <= n < Offset(r, k) + |Line(r, k)| + 2
    ensures !Parse(After(r, k), Print(r)[..n] + stale, Offset(r, k), n).Complete?
  {
    hide After, PrintLines, Parse, StepOf, Line;
    var mem, o := Print(r)[..n] + stale, Offset(r, k);
    var len := n - o;
    PrefixOfLine(r, k, n, stale);
    NotDone(r, k);
    ParseUnfold(After(r, k), mem, o, n);
    assert mem[o..][..len] == (Line(r, k) + CRLF)[..len];
    if len == |Line(r, k)| + 1 && stale == [] {
      NoMemoryLeft(r, k, mem[o..], len);
    } else if len == |Line(r, k)| + 1 && len >= 2 && stale[0] == '\n' {
      LineStep(r, k, mem[o..], len);
      BlankLineIsLast(r, k);
      NotDone(r, k + 1);
      ParseUnfold(After(r, k + 1), mem, o + len + 1, n);
    } else {
      PartialStep(r, k, mem[o..], len);
    }
  }

  lemma BlankLineIsLast(r: Text, k: nat)
    requires k < LineCount(r)
    ensures |Line(r, k)| == 0 <==> k + 1 == LineCount(r)
  {
  }

  /** A CR on the very last byte of the buffer's memory: the comparison reads past it, or there is
      too little to compare. */
  lemma NoMemoryLeft(r: Text, k: nat, mem: seq<char>, len: nat)
    requires Printable(r) && k < LineCount(r) && |mem| == len == |Line(r, k)| + 1
    requires mem[..len] == (Line(r, k) + CRLF)[..len]
    ensures StepOf(After(r, k), mem, len) == if len >= 2 then Overruns else Stutter
  {
    hide After, Lookup, Scan;
    var line := Line(r, k);
    LineHasNoCR(r, k);
    Active(r, k);
    if len >= 2 {
      assert mem[..len - 1] == mem[..len][..len - 1] && mem[..len][..len - 1] == line;
      assert mem[len - 1] == mem[..len][len - 1] == CR;
      LookupMemoryEnd(mem, CRLF);
    } else {
      PartialStep(r, k, mem, len);
    }
  }

  /** The parse loop comes to an end exactly when the whole request has arrived: on every proper
      prefix it keeps spinning (or reads outside the buffer). */
  lemma ParseEndsIffComplete(r: Text, n: nat, stale: seq<char>)
    requires Printable(r) && n <= |Print(r)|
    ensures Parse(FRESH, Print(r)[..n] + stale, 0, n).Complete? <==> n == |Print(r)|
  {
    FirstLine(r);
    if n == |Print(r)| {
      RequestRoundTrip(r, [], stale);
      assert Print(r) + [] == Print(r) == Print(r)[..n];
    } else {
      PrefixFromLine(r, 0, n, stale);
    }
  }
}
