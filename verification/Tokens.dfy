/** `strtok_r` and the key/value lists that are cut with it (http-server/http_request.c). */
module Tokens {
  import opened CStrings

  datatype Pair = Pair(key: cstring, value: cstring)

  const MAX_PAIRS: nat := 32

  /** Length of the leading run of `d`. */
  function Run(s: seq<char>, d: char): (i: nat)
    ensures i <= |s|
    ensures forall k :: 0 <= k < i ==> s[k] == d
    ensures i < |s| ==> s[i] != d
  {
    if s == [] || s[0] != d then 0 else 1 + Run(s[1..], d)
  }

  /** The tokens `strtok_r` yields: maximal runs without the delimiter. */
  function Tokenise(s: cstring, d: char): (ts: seq<cstring>)
    decreases |s|
  {
    var i := Run(s, d);
    if i == |s| then []
    else
      var t := s[i..];
      var n := IndexOf(t, d);
      [t[..n]] + Tokenise(if n < |t| then t[n + 1..] else [], d)
  }

  /** `key=value`, cut at the first '='; a token without one is skipped. */
  function CutPair(t: cstring): (p: Pair)
    requires '=' in t
    ensures t == p.key + ['='] + p.value && '=' !in p.key
  {
    var e := IndexOf(t, '=');
    Pair(t[..e], t[e + 1..])
  }

  function Trimmed(t: cstring, trim: bool): cstring {
    if trim then t[Run(t, ' ')..] else t
  }

  /** The loop: tokens in order, at most `room` pairs. */
  function Collect(ts: seq<cstring>, trim: bool, room: nat): (ps: seq<Pair>)
    ensures |ps| <= room
  {
    if ts == [] || room == 0 then []
    else
      var t := Trimmed(ts[0], trim);
      if '=' in t then [CutPair(t)] + Collect(ts[1..], trim, room - 1)
      else Collect(ts[1..], trim, room)
  }

  function QueryPath(url: cstring): cstring {
    url[..IndexOf(url, '?')]
  }

  function QueryParams(url: cstring): seq<Pair> {
    var q := IndexOf(url, '?');
    if q == |url| then [] else Collect(Tokenise(url[q + 1..], '&'), false, MAX_PAIRS)
  }

  function CookiePairs(header: cstring): seq<Pair> {
    Collect(Tokenise(header, ';'), true, MAX_PAIRS)
  }

  /** A header line as it stands on the wire, without its CRLF. */
  function FieldLine(h: Pair): cstring {
    h.key + ": " + h.value
  }

  // ---- printing ---------------------------------------------------------------------------

  function Show(p: Pair): cstring {
    p.key + ['='] + p.value
  }

  function Shown(ps: seq<Pair>, lead: cstring): (ts: seq<cstring>)
    ensures |ts| == |ps|
    ensures forall i :: 0 <= i < |ps| ==> ts[i] == lead + Show(ps[i])
  {
    seq(|ps|, i requires 0 <= i < |ps| => lead + Show(ps[i]))
  }

  function Join(ts: seq<cstring>, d: char): cstring
    requires d != NUL
  {
    if ts == [] then []
    else if |ts| == 1 then ts[0]
    else ts[0] + [d] + Join(ts[1..], d)
  }

  function PrintQuery(path: cstring, ps: seq<Pair>): cstring {
    path + ['?'] + Join(Shown(ps, []), '&')
  }

  /** Cookies after the first are printed with a leading space, as browsers do. */
  function PrintCookies(ps: seq<Pair>): cstring {
    if ps == [] then [] else Join([Show(ps[0])] + Shown(ps[1..], " "), ';')
  }

  predicate QueryPair(p: Pair) {
    '=' !in p.key && '&' !in p.key && '&' !in p.value
  }

  predicate CookiePair(p: Pair) {
    '=' !in p.key && ';' !in p.key && ';' !in p.value && (p.key == [] || p.key[0] != ' ')
  }

  // ---- round trips ------------------------------------------------------------------------

  lemma {:induction false} TokeniseJoin(ts: seq<cstring>, d: char)
    requires d != NUL && forall i :: 0 <= i < |ts| ==> ts[i] != [] && d !in ts[i]
    ensures Tokenise(Join(ts, d), d) == ts
  {
    if ts != [] {
      var s, t := Join(ts, d), ts[0];
      assert s[0] == t[0] && Run(s, d) == 0 && s[0..] == s;
      if |ts| == 1 {
        assert IndexOf(s, d) == |s|;
        assert s[..|s|] == t && ts == [t];
      } else {
        var rest := Join(ts[1..], d);
        IndexOfJoin(t, d, rest);
        assert s[..|t|] == t && s[|t| + 1..] == rest;
        TokeniseJoin(ts[1..], d);
        assert ts == [t] + ts[1..];
      }
    }
  }

  lemma CutShown(p: Pair)
    requires '=' !in p.key
    ensures '=' in Show(p) && CutPair(Show(p)) == p
  {
    IndexOfJoin(p.key, '=', p.value);
    var t := Show(p);
    assert t[|p.key|] == '=';
    assert t[..|p.key|] == p.key && t[|p.key| + 1..] == p.value;
  }

  function Take(ps: seq<Pair>, n: nat): seq<Pair> {
    if |ps| <= n then ps else ps[..n]
  }

  predicate Matches(t: cstring, p: Pair, trim: bool) {
    '=' !in p.key && Trimmed(t, trim) == Show(p)
  }

  lemma CutMatch(t: cstring, p: Pair, trim: bool)
    requires Matches(t, p, trim)
    ensures '=' in Trimmed(t, trim) && CutPair(Trimmed(t, trim)) == p
  {
    CutShown(p);
  }

  /** Tokens that trim to printed pairs give these pairs back, as many as there is room for. */
  lemma {:induction false} CollectShown(ts: seq<cstring>, ps: seq<Pair>, trim: bool, room: nat)
    requires |ts| == |ps| && forall i :: 0 <= i < |ps| ==> Matches(ts[i], ps[i], trim)
    ensures Collect(ts, trim, room) == Take(ps, room)
  {
    hide Matches, Trimmed, CutPair;
    if ps != [] && room > 0 {
      CutMatch(ts[0], ps[0], trim);
      forall i | 0 <= i < |ps| - 1 ensures Matches(ts[1..][i], ps[1..][i], trim) {
        assert Matches(ts[i + 1], ps[i + 1], trim);
      }
      CollectShown(ts[1..], ps[1..], trim, room - 1);
      assert Take(ps, room) == [ps[0]] + Take(ps[1..], room - 1);
    }
  }

  lemma ShowHasNo(p: Pair, d: char)
    requires d !in p.key && d !in p.value && d != '='
    ensures d !in Show(p) && Show(p) != []
  {
  }

  /** Query strings: the path is what stands before the first '?', and the first 32 pairs come
      back in order. */
  lemma QueryRoundTrip(path: cstring, ps: seq<Pair>)
    requires '?' !in path && forall p :: p in ps ==> QueryPair(p)
    ensures QueryPath(PrintQuery(path, ps)) == path
    ensures QueryParams(PrintQuery(path, ps)) == Take(ps, 32)
  {
    var ts := Shown(ps, []);
    var url := PrintQuery(path, ps);
    IndexOfJoin(path, '?', Join(ts, '&'));
    assert url[..|path|] == path && url[|path| + 1..] == Join(ts, '&');
    forall i | 0 <= i < |ps| ensures ts[i] != [] && '&' !in ts[i] && Matches(ts[i], ps[i], false) {
      assert QueryPair(ps[i]);
      ShowHasNo(ps[i], '&');
      assert ts[i] == Show(ps[i]);
    }
    TokeniseJoin(ts, '&');
    CollectShown(ts, ps, false, MAX_PAIRS);
  }

  lemma TrimShown(p: Pair, lead: cstring)
    requires lead == [] || lead == " "
    requires p.key == [] || p.key[0] != ' '
    ensures Trimmed(lead + Show(p), true) == Show(p)
  {
    var t := lead + Show(p);
    assert Show(p)[0] != ' ' && t[|lead|] == Show(p)[0];
    assert Run(t, ' ') == |lead|;
  }

  /** Cookie headers: the first 32 pairs come back in order. */
  lemma CookieRoundTrip(ps: seq<Pair>)
    requires forall p :: p in ps ==> CookiePair(p)
    ensures CookiePairs(PrintCookies(ps)) == Take(ps, 32)
  {
    hide Show, Trimmed;
    if ps != [] {
      var ts := [Show(ps[0])] + Shown(ps[1..], " ");
      forall i | 0 <= i < |ps| ensures ts[i] != [] && ';' !in ts[i] && Matches(ts[i], ps[i], true) {
        assert CookiePair(ps[i]);
        var lead: cstring := if i == 0 then [] else " ";
        assert ts[i] == lead + Show(ps[i]);
        ShowHasNo(ps[i], ';');
        TrimShown(ps[i], lead);
      }
      TokeniseJoin(ts, ';');
      CollectShown(ts, ps, true, MAX_PAIRS);
    }
  }

  // ---- any text -----------------------------------------------------------------------------

  lemma TokeniseOne(s: cstring, d: char)
    requires d !in s
    ensures Tokenise(s, d) == if s == [] then [] else [s]
  {
    if s != [] {
      assert Run(s, d) == 0 && s[0..] == s && IndexOf(s, d) == |s| && s[..|s|] == s;
      assert Tokenise([], d) == [];
    }
  }

  lemma TokeniseLead(s: cstring, d: char)
    requires s != [] && s[0] == d
    ensures Tokenise(s, d) == Tokenise(s[1..], d)
  {
    var i := Run(s, d);
    assert s[i..] == s[1..][i - 1..];
    assert Run(s[1..], d) == i - 1;
  }

  lemma TokeniseWord(w: cstring, d: char, rest: cstring)
    requires w != [] && d !in w && d != NUL
    ensures Tokenise(w + [d] + rest, d) == [w] + Tokenise(rest, d)
  {
    var s := w + [d] + rest;
    assert s[0] == w[0] && Run(s, d) == 0 && s[0..] == s;
    IndexOfJoin(w, d, rest);
    assert s[..|w|] == w && s[|w| + 1..] == rest;
  }

  /** At every delimiter the text splits, and empty pieces are no tokens: with `TokeniseOne` this says
      what the tokens of any text are. */
  lemma {:induction false} TokeniseSplits(a: cstring, d: char, b: cstring)
    requires d != NUL
    ensures Tokenise(a + [d] + b, d) == Tokenise(a, d) + Tokenise(b, d)
    decreases |a|
  {
    hide Tokenise, Run, NulFree;
    var n := IndexOf(a, d);
    if a == [] {
      assert Joined(a, d, b)[1..] == b;
      TokeniseLead(Joined(a, d, b), d);
      TokeniseOne(a, d);
      assert [] + Tokenise(b, d) == Tokenise(b, d);
    } else if a[0] == d {
      var s := Joined(a, d, b);
      assert s[0] == d && s[1..] == a[1..] + [d] + b;
      TokeniseLead(s, d);
      TokeniseLead(a, d);
      TokeniseSplits(Tail(a, 1), d, b);
    } else if n == |a| {
      TokeniseOne(a, d);
      TokeniseWord(a, d, b);
    } else {
      var w, rest := Head(a, n), Tail(a, n + 1);
      assert a == w + [d] + rest && d !in w;
      assert a + [d] + b == w + [d] + (rest + [d] + b);
      TokeniseWord(w, d, rest);
      TokeniseSplits(rest, d, b);
      TokeniseWord(w, d, Joined(rest, d, b));
    }
  }

  function Head(s: cstring, n: nat): cstring
    requires n <= |s|
  {
    s[..n]
  }

  function Tail(s: cstring, n: nat): cstring
    requires n <= |s|
  {
    s[n..]
  }

  function Joined(a: cstring, d: char, b: cstring): cstring
    requires d != NUL
  {
    a + [d] + b
  }

  /** A token without '=' adds nothing and takes no place among the pairs. */
  lemma {:induction false} BareTokenSkipped(a: seq<cstring>, t: cstring, b: seq<cstring>, trim: bool, room: nat)
    requires '=' !in t
    ensures Collect(a + [t] + b, trim, room) == Collect(a + b, trim, room)
  {
    hide CutPair, Run, NulFree;
    if a == [] {
      assert a + [t] + b == [t] + b && ([t] + b)[1..] == b && a + b == b;
      assert '=' !in Trimmed(t, trim);
    } else if room > 0 {
      var u := Trimmed(a[0], trim);
      assert (a + [t] + b)[1..] == a[1..] + [t] + b && (a + b)[1..] == a[1..] + b;
      BareTokenSkipped(a[1..], t, b, trim, if '=' in u then room - 1 else room);
    }
  }

  /** Cookie tokens lose all their leading spaces, and only those. */
  lemma {:induction false} TrimmedIs(t: cstring)
    ensures Trimmed(t, true) == TrimLeft(t, {' '}) && Trimmed(t, false) == t
  {
    TrimLeftIs(t, {' '}, Run(t, ' '));
  }

  // ---- lookups ----------------------------------------------------------------------------

  /** `http_request_get_param`, `http_request_get_cookie`: the first pair with this key. */
  method Find(ps: seq<Pair>, key: cstring) returns (i: nat)
    ensures IsExactFirst(ps, key, i)
  {
    i := 0;
    while i < |ps|
      invariant i <= |ps|
      invariant forall j :: 0 <= j < i ==> ps[j].key != key
    {
      if ps[i].key == key {
        return;
      }
      i := i + 1;
    }
  }

  /** `strncmp(a, key, strlen(key)) == 0` */
  predicate HasPrefix(a: cstring, key: cstring) {
    key <= a
  }

  function PrefixIndex(ps: seq<Pair>, key: cstring): (i: nat)
    ensures i <= |ps|
    ensures i < |ps| ==> HasPrefix(ps[i].key, key)
    ensures forall j :: 0 <= j < i ==> !HasPrefix(ps[j].key, key)
  {
    if ps == [] || HasPrefix(ps[0].key, key) then 0 else 1 + PrefixIndex(ps[1..], key)
  }

  /** `http_request_get_header`: the first header whose key begins with `key`. */
  method FindHeader(ps: seq<Pair>, key: cstring) returns (i: nat)
    ensures i == PrefixIndex(ps, key)
  {
    i := 0;
    while i < |ps|
      invariant i <= |ps|
      invariant forall j :: 0 <= j < i ==> !HasPrefix(ps[j].key, key)
    {
      if HasPrefix(ps[i].key, key) {
        return;
      }
      i := i + 1;
    }
  }

  /** The first header with exactly this key. */
  predicate IsExactFirst(ps: seq<Pair>, key: cstring, i: nat) {
    && i <= |ps|
    && (i < |ps| ==> ps[i].key == key)
    && forall j :: 0 <= j < i ==> ps[j].key != key
  }

  /** The prefix comparison finds the header asked for exactly when no header with a longer key
      that begins the same way stands in front of it. */
  lemma HeaderLookupExact(ps: seq<Pair>, key: cstring)
    ensures IsExactFirst(ps, key, PrefixIndex(ps, key)) <==>
            forall j :: 0 <= j < |ps| && HasPrefix(ps[j].key, key) && ps[j].key != key ==>
              exists i :: 0 <= i < j && ps[i].key == key
  {
    var i := PrefixIndex(ps, key);
    if i < |ps| && ps[i].key == key {
      forall j | 0 <= j < |ps| && HasPrefix(ps[j].key, key) && ps[j].key != key
        ensures exists k :: 0 <= k < j && ps[k].key == key
      {
        assert i < j;
      }
    }
  }

  lemma LongerKeyShadows()
    ensures var ps := [Pair("Cookie2", "a"), Pair("Cookie", "b")];
      PrefixIndex(ps, "Cookie") == 0 && ps[0].key != "Cookie"
  {
    assert "Cookie" <= "Cookie2";
  }
}
