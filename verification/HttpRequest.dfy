/** The request object (http-server/http_request.c): tokenising in place, headers, reset. */
module HttpRequests {
  import opened CStrings
  import opened Tokens

  const MAX_HEADERS: nat := 128

  datatype RequestState = RequestStatus | RequestHeaders | RequestBody | RequestDone

  datatype Method = Get | Post | Put | Delete | Head | Options | Patch | Unknown

  function MethodOf(s: cstring): Method {
    if s == "GET" then Get
    else if s == "POST" then Post
    else if s == "PUT" then Put
    else if s == "DELETE" then Delete
    else if s == "HEAD" then Head
    else if s == "OPTIONS" then Options
    else if s == "PATCH" then Patch
    else Unknown
  }

  function MethodName(m: Method): cstring
    requires m != Unknown
  {
    match m
    case Get => "GET"
    case Post => "POST"
    case Put => "PUT"
    case Delete => "DELETE"
    case Head => "HEAD"
    case Options => "OPTIONS"
    case Patch => "PATCH"
  }

  /** The seven names and the enumeration are inverse to each other; any other text is unknown. */
  lemma MethodNames(s: cstring, m: Method)
    ensures m != Unknown ==> MethodOf(MethodName(m)) == m
    ensures MethodOf(s) != Unknown ==> MethodName(MethodOf(s)) == s
    ensures MethodOf(s) == Unknown <==> forall k: Method :: k != Unknown ==> MethodName(k) != s
  {
    FourLetters();
    if MethodOf(s) == Unknown {
      forall k: Method | k != Unknown ensures MethodName(k) != s {
      }
    } else {
      assert MethodName(MethodOf(s)) == s;
    }
  }

  lemma FourLetters()
    ensures "POST" != "HEAD" && "GET" != "PUT"
  {
    assert "POST"[0] == 'P' && "HEAD"[0] == 'H' && "GET"[0] == 'G' && "PUT"[0] == 'P';
  }

  /** What a request object holds; the url is observed through its path and parameters. */
  datatype Request = Request(
    state: RequestState,
    kind: Method,
    methodStr: Option<cstring>,
    path: Option<cstring>,
    version: Option<cstring>,
    headers: seq<Pair>,
    params: seq<Pair>,
    cookies: seq<Pair>)

  const FRESH := Request(RequestStatus, Unknown, None, None, None, [], [], [])

  function Room(ps: seq<Pair>, max: nat): nat {
    if |ps| < max then max - |ps| else 0
  }

  function WithHeader(r: Request, h: Pair): Request {
    if |r.headers| >= MAX_HEADERS then r else r.(headers := r.headers + [h])
  }

  function WithQuery(r: Request, url: cstring): Request {
    var q := IndexOf(url, '?');
    var r' := r.(path := Some(QueryPath(url)));
    if q == |url| then r'
    else r'.(params := r.params + Collect(Tokenise(url[q + 1..], '&'), false, Room(r.params, MAX_PAIRS)))
  }

  function WithCookies(r: Request): Request {
    var i := PrefixIndex(r.headers, "Cookie");
    if i == |r.headers| then r
    else r.(cookies := r.cookies + Collect(Tokenise(r.headers[i].value, ';'), true, Room(r.cookies, MAX_PAIRS)))
  }

  /** Parameters and cookies are added behind those already held, and at most 32 are held. */
  lemma PairsAppend(r: Request, url: cstring)
    ensures r.params <= WithQuery(r, url).params && r.cookies <= WithCookies(r).cookies
    ensures |r.params| <= 32 ==> |WithQuery(r, url).params| <= 32
    ensures |r.cookies| <= 32 ==> |WithCookies(r).cookies| <= 32
    ensures r.params == [] ==> WithQuery(r, url).params == QueryParams(url)
  {
    hide Collect, Tokenise;
  }

  // ---- strtok_r and strchr on an array ----------------------------------------------------

  /** A token lies at `start`, closed by a NUL that the tokeniser wrote or found. */
  ghost predicate TokenAt(b: seq<char>, start: nat, t: cstring) {
    start + |t| < |b| && b[start..start + |t|] == t && b[start + |t|] == NUL
  }

  method SkipRun(buf: array<char>, from: nat, ghost n: nat, d: char) returns (i: nat)
    requires Terminated(buf[..], from, n) && d != NUL
    ensures i == from + Run(buf[..][from..n], d)
  {
    i := from;
    while buf[i] == d
      invariant from <= i <= n
      invariant forall k :: from <= k < i ==> buf[k] == d
      decreases n - i
    {
      i := i + 1;
    }
    RunIs(buf[..][from..n], d, i - from);
  }

  lemma RunIs(s: seq<char>, d: char, i: nat)
    requires i <= |s| && (forall k :: 0 <= k < i ==> s[k] == d) && (i < |s| ==> s[i] != d)
    ensures Run(s, d) == i
  {
  }

  /** The first token of `s` and what `strtok_r` leaves for the next call. */
  lemma TokeniseStep(s: cstring, d: char)
    ensures var i := Run(s, d);
      var t := s[i..];
      var m := IndexOf(t, d);
      && (i == |s| ==> Tokenise(s, d) == [])
      && (i < |s| ==> Tokenise(s, d) == [t[..m]] + Tokenise(if m < |t| then t[m + 1..] else [], d))
  {
    hide NulFree, Run, IndexOf;
  }

  /** What `strtok_r` stores, given where the token starts and stops. */
  lemma StrtokFacts(b: seq<char>, save: nat, start: nat, stop: nat, n: nat, d: char)
    requires Terminated(b, save, n) && d != NUL
    requires start == save + Run(b[save..n], d) && start < n
    requires stop == start + IndexOf(b[start..n], d)
    ensures var b' := if stop < n then b[stop := NUL] else b;
      var next := if stop < n then stop + 1 else n;
      var ts := Tokenise(b[save..n], d);
      && ts != [] && TokenAt(b', start, ts[0]) && start + |ts[0]| == stop
      && Terminated(b', next, n) && b'[next..] == b[next..]
      && Tokenise(b'[next..n], d) == ts[1..]
  {
    hide Tokenise, Run, IndexOf;
    var s, t := b[save..n], b[start..n];
    TokeniseStep(s, d);
    assert t == s[Run(s, d)..];
    var b' := if stop < n then b[stop := NUL] else b;
    var next := if stop < n then stop + 1 else n;
    assert b'[start..stop] == t[..stop - start];
    assert b'[next..n] == (if stop < n then t[stop - start + 1..] else []);
  }

  /** `strtok_r(NULL, d, &save)`: cuts the next token out of the buffer. */
  method Strtok(buf: array<char>, save: nat, ghost n: nat, d: char) returns (found: bool, start: nat, next: nat)
    requires Terminated(buf[..], save, n) && d != NUL
    modifies buf
    ensures save <= next <= n && Terminated(buf[..], next, n) && buf[next..] == old(buf[next..])
    ensures found <==> Tokenise(old(buf[save..n]), d) != []
    ensures found ==>
              var ts := Tokenise(old(buf[save..n]), d);
              && TokenAt(buf[..], start, ts[0]) && start + |ts[0]| <= next
              && Tokenise(buf[next..n], d) == ts[1..]
  {
    hide Tokenise, Run, IndexOf, TokenAt;
    ghost var b := buf[..];
    assert b[save..n] == buf[save..n];
    TokeniseStep(b[save..n], d);
    start := SkipRun(buf, save, n, d);
    next := start;
    found := buf[start] != NUL;
    if !found {
      return;
    }
    next := Seek(buf, start, n, d);
    StrtokFacts(b, save, start, next, n, d);
    if buf[next] != NUL {
      buf[next] := NUL;
      assert buf[..] == b[next := NUL];
      next := next + 1;
    }
    assert buf[next..] == buf[..][next..] && buf[next..n] == buf[..][next..n];
  }

  lemma CutFacts(b: seq<char>, start: nat, t: cstring, e: nat)
    requires TokenAt(b, start, t)
    requires '=' in t && e == IndexOf(t, '=')
    ensures var b' := b[start + e := NUL];
      && CStr(b'[start..]) == CutPair(t).key && CStr(b'[start + e + 1..]) == CutPair(t).value
  {
    var b', m := b[start + e := NUL], |t| - e - 1;
    assert b'[start..][..e] == t[..e] && b'[start..][e] == NUL;
    CStrAt(b'[start..], e);
    var tail := b'[start + e + 1..];
    assert tail[..m] == t[e + 1..] && tail[m] == NUL;
    CStrAt(tail, m);
  }

  /** The body of the pair loop: cut at the first '=', duplicate key and value. */
  method CutInPlace(buf: array<char>, start: nat, ghost t: cstring) returns (p: Option<Pair>)
    requires TokenAt(buf[..], start, t)
    modifies buf
    ensures p == if '=' in t then Some(CutPair(t)) else None
    ensures buf[start + |t|..] == old(buf[start + |t|..])
  {
    hide CStr, CutPair, IndexOf, NulFree;
    ghost var n, b := start + |t|, buf[..];
    TokenTerminates(b, start, t);
    var e := Seek(buf, start, n, '=');
    if buf[e] == NUL {
      NoEquals(b, start, t);
      return None;
    }
    assert e < n && t[e - start] == '=';
    CutFacts(b, start, t, e - start);
    CutKeeps(b, e, n);
    buf[e] := NUL;
    assert buf[..] == b[e := NUL];
    return Some(Pair(CStr(buf[start..]), CStr(buf[e + 1..])));
  }

  lemma CutKeeps(b: seq<char>, e: nat, n: nat)
    requires e < n <= |b|
    ensures b[e := NUL][n..] == b[n..]
  {
  }

  lemma NoEquals(b: seq<char>, start: nat, t: cstring)
    requires TokenAt(b, start, t) && b[start + IndexOf(t, '=')] == NUL
    ensures '=' !in t
  {
    var i := IndexOf(t, '=');
    assert i < |t| ==> b[start..start + |t|][i] == t[i];
  }

  lemma SliceSlice(b: seq<char>, start: nat, end: nat, i: nat)
    requires start + i <= end <= |b|
    ensures b[start + i..end] == b[start..end][i..]
  {
  }

  lemma TokenTerminates(b: seq<char>, start: nat, t: cstring)
    requires TokenAt(b, start, t)
    ensures Terminated(b, start, start + |t|) && b[start..start + |t|] == t
  {
  }

  lemma TrimToken(b: seq<char>, start: nat, t: cstring)
    requires TokenAt(b, start, t)
    ensures TokenAt(b, start + Run(t, ' '), Trimmed(t, true))
  {
    hide Run, NulFree;
    SliceSlice(b, start, start + |t|, Run(t, ' '));
  }

  lemma CollectUnfold(ts: seq<cstring>, trim: bool, room: nat)
    requires ts != [] && room > 0
    ensures var t := Trimmed(ts[0], trim);
      Collect(ts, trim, room) ==
      if '=' in t then [CutPair(t)] + Collect(ts[1..], trim, room - 1) else Collect(ts[1..], trim, room)
  {
    hide CutPair, Trimmed;
  }

  lemma CollectStep(ts: seq<cstring>, trim: bool, out: seq<Pair>)
    requires ts != [] && |out| < MAX_PAIRS
    ensures var t := Trimmed(ts[0], trim);
      var out' := if '=' in t then out + [CutPair(t)] else out;
      out + Collect(ts, trim, Room(out, MAX_PAIRS)) == out' + Collect(ts[1..], trim, Room(out', MAX_PAIRS))
  {
    hide CutPair, Trimmed, Collect, NulFree;
    var t, room := Trimmed(ts[0], trim), Room(out, MAX_PAIRS);
    CollectUnfold(ts, trim, room);
    if '=' in t {
      Associate(out, [CutPair(t)], Collect(ts[1..], trim, room - 1));
    }
  }

  lemma Associate<T>(a: seq<T>, b: seq<T>, c: seq<T>)
    ensures a + (b + c) == a + b + c
  {
  }

  lemma CollectNone(ts: seq<cstring>, trim: bool, room: nat)
    ensures ts == [] || room == 0 ==> Collect(ts, trim, room) == []
  {
  }

  /** Cookies skip a token's leading spaces. */
  method SkipSpaces(buf: array<char>, start: nat, ghost t: cstring, trim: bool) returns (at: nat)
    requires TokenAt(buf[..], start, t)
    ensures TokenAt(buf[..], at, Trimmed(t, trim)) && at + |Trimmed(t, trim)| == start + |t|
  {
    hide Run, NulFree;
    at := start;
    if trim {
      TokenTerminates(buf[..], start, t);
      TrimToken(buf[..], start, t);
      at := SkipRun(buf, start, start + |t|, ' ');
    }
  }

  /** One token: it is cut at the first '='. */
  method TakePair(buf: array<char>, start: nat, ghost t: cstring, trim: bool, ghost next: nat)
    returns (p: Option<Pair>)
    requires TokenAt(buf[..], start, t) && start + |t| <= next <= buf.Length
    modifies buf
    ensures p == if '=' in Trimmed(t, trim) then Some(CutPair(Trimmed(t, trim))) else None
    ensures buf[next..] == old(buf[next..])
  {
    hide CutPair, Trimmed, TokenAt, NulFree;
    var at := SkipSpaces(buf, start, t, trim);
    ghost var end := start + |t|;
    DropTwice(buf[..], end, next - end);
    p := CutInPlace(buf, at, Trimmed(t, trim));
    DropTwice(buf[..], end, next - end);
  }

  /** The loop of the query and cookie parsers, over a string that ends at `n`. */
  method PairLoop(buf: array<char>, save: nat, ghost n: nat, d: char, trim: bool, have: seq<Pair>)
    returns (out: seq<Pair>)
    requires Terminated(buf[..], save, n) && d != NUL
    modifies buf
    ensures out == have + Collect(Tokenise(old(buf[save..n]), d), trim, Room(have, MAX_PAIRS))
  {
    hide Collect, Tokenise, TokenAt, Trimmed, CutPair;
    ghost var all := Tokenise(buf[save..n], d);
    ghost var ts := all;
    out := have;
    var found: bool, start: nat, next: nat := Strtok(buf, save, n, d);
    while found && |out| < MAX_PAIRS
      invariant Terminated(buf[..], next, n) && next <= n < buf.Length
      invariant found <==> ts != []
      invariant found ==> TokenAt(buf[..], start, ts[0]) && start + |ts[0]| <= next
      invariant found ==> Tokenise(buf[next..n], d) == ts[1..]
      invariant out + Collect(ts, trim, Room(out, MAX_PAIRS)) == have + Collect(all, trim, Room(have, MAX_PAIRS))
      decreases |ts|
    {
      CollectStep(ts, trim, out);
      ghost var b := buf[..];
      var p := TakePair(buf, start, ts[0], trim, next);
      assert buf[..][next..] == b[next..];
      SameSuffix(b, buf[..], next, n);
      if p.Some? {
        out := out + [p.value];
      }
      ts := ts[1..];
      assert buf[next..n] == buf[..][next..n];
      found, start, next := Strtok(buf, next, n, d);
    }
    CollectNone(ts, trim, Room(out, MAX_PAIRS));
  }

  lemma UrlFacts(b: seq<char>, n: nat, q: nat)
    requires Terminated(b, 0, n) && q == IndexOf(b[0..n], '?')
    ensures q <= n && b[0..n] == b[..n] && CStr(b[..q]) == QueryPath(b[..n])
    ensures q < n ==> b[q] != NUL && Terminated(b, q + 1, n) && b[q + 1..n] == b[..n][q + 1..]
  {
    assert b[..q] == b[..n][..q];
  }

  /** A terminated copy of a string. */
  method Duplicate(s: cstring) returns (buf: array<char>)
    ensures fresh(buf) && buf.Length == |s| + 1 && buf[..|s|] == s && buf[|s|] == NUL
    ensures Terminated(buf[..], 0, |s|)
  {
    buf := new char[|s| + 1];
    forall i | 0 <= i < |s| {
      buf[i] := s[i];
    }
    buf[|s|] := NUL;
    assert buf[..][0..|s|] == buf[..|s|] == s;
  }

  /** Cuts the url at its first '?': the path, and `have` with the parameters behind it. */
  method SplitUrl(url: array<char>, ghost n: nat, have: seq<Pair>) returns (path: cstring, out: seq<Pair>)
    requires Terminated(url[..], 0, n)
    modifies url
    ensures old(NulFree(url[..n])) && path == QueryPath(old(url[..n]))
    ensures var u := old(url[..n]);
      var q := IndexOf(u, '?');
      out == if q == |u| then have
             else have + Collect(Tokenise(u[q + 1..], '&'), false, Room(have, MAX_PAIRS))
  {
    ghost var b := url[..];
    assert url[..n] == b[..n] == b[0..n];
    hide Collect, Tokenise, IndexOf, CStr, QueryPath, NulFree, Room;
    var q := Seek(url, 0, n, '?');
    UrlFacts(b, n, q);
    path := CStr(url[..q]);
    out := have;
    if url[q] != NUL {
      out := PairLoop(url, q + 1, n, '&', false, have);
    }
  }

  class HttpRequest {
    var state: RequestState
    var kind: Method
    var methodStr: Option<cstring>
    var path: Option<cstring>
    var version: Option<cstring>
    /** The url buffer; parsing the query writes NULs into it. */
    var url: array?<char>
    var headers: seq<Pair>
    var params: seq<Pair>
    var cookies: seq<Pair>

    function Abs(): (r: Request)
      reads this
      ensures r.state == state
    {
      Request(state, kind, methodStr, path, version, headers, params, cookies)
    }

    constructor ()
      ensures Abs() == FRESH && url == null
    {
      state, kind := RequestStatus, Unknown;
      methodStr, path, version := None, None, None;
      url := null;
      headers, params, cookies := [], [], [];
    }

    /** `http_request_reset`: the object is as good as new. */
    method Reset()
      modifies this
      ensures Abs() == FRESH && url == null
    {
      methodStr, path, version := None, None, None;
      url := null;
      headers, params, cookies := [], [], [];
      kind := Unknown;
      state := RequestStatus;
    }

    method AddHeader(h: Pair)
      modifies this`headers
      ensures Abs() == WithHeader(old(Abs()), h)
    {
      if |headers| >= MAX_HEADERS {
        return;
      }
      headers := headers + [h];
    }

    method GetHeader(key: cstring) returns (value: Option<cstring>)
      ensures var i := PrefixIndex(headers, key);
        value == if i < |headers| then Some(headers[i].value) else None
    {
      var i := FindHeader(headers, key);
      value := if i < |headers| then Some(headers[i].value) else None;
    }

    /** The value of the first parameter with this key. */
    method GetParam(key: cstring) returns (value: Option<cstring>)
      ensures exists i: nat :: IsExactFirst(params, key, i) &&
                value == if i < |params| then Some(params[i].value) else None
    {
      var i := Find(params, key);
      assert IsExactFirst(params, key, i);
      value := if i < |params| then Some(params[i].value) else None;
    }

    /** The value of the first cookie with this name. */
    method GetCookie(name: cstring) returns (value: Option<cstring>)
      ensures exists i: nat :: IsExactFirst(cookies, name, i) &&
                value == if i < |cookies| then Some(cookies[i].value) else None
    {
      var i := Find(cookies, name);
      assert IsExactFirst(cookies, name, i);
      value := if i < |cookies| then Some(cookies[i].value) else None;
    }

    /** `http_request_parse_query_string`, for the string of length `n` in the url buffer. */
    method ParseQueryString(ghost n: nat)
      requires url != null ==> Terminated(url[..], 0, n)
      modifies this`path, this`params, if url != null then {url} else {}
      ensures old(url) == null ==> Abs() == old(Abs())
      ensures old(url) != null ==> Abs() == WithQuery(old(Abs()), old(url[..n]))
    {
      hide Collect, Tokenise, IndexOf, QueryPath, NulFree, Room;
      if url != null {
        var urlPath, pairs := SplitUrl(url, n, params);
        path, params := Some(urlPath), pairs;
      }
    }

    /** `http_request_parse_cookies` */
    method ParseCookies()
      modifies this`cookies
      ensures Abs() == WithCookies(old(Abs()))
    {
      var value := GetHeader("Cookie");
      if value.None? {
        return;
      }
      var copy := Duplicate(value.value);
      assert copy[0..|value.value|] == value.value;
      cookies := PairLoop(copy, 0, |value.value|, ';', true, cookies);
    }
  }
}
