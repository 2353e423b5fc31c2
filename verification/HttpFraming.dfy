/** A client's view of encoded responses: message format and body length as in sections 2.1, 4, 5
    and 6.3 of RFC 9112, written independently of the encoder. The client knows the methods of the
    requests it has sent. */
module HttpFraming {
  import opened CStrings
  import opened Decimals
  import opened Tokens
  import opened Buffers
  import opened HttpResponses

  datatype Field = Field(name: seq<char>, value: seq<char>)

  datatype Message = Message(status: int, reason: seq<char>, fields: seq<Field>, body: seq<char>)

  /** Offset of the first CRLF, or the length. */
  function CrlfAt(s: seq<char>): (i: nat)
    ensures i <= |s|
    ensures i < |s| ==> i + 2 <= |s|
  {
    if |s| < 2 then |s|
    else if s[0] == '\r' && s[1] == '\n' then 0
    else
      var j := CrlfAt(s[1..]);
      if j == |s| - 1 then |s| else j + 1
  }

  /** Optional whitespace. */
  const OWS: set<char> := {' ', '\t'}

  function Lower(c: char): char {
    if 'A' <= c <= 'Z' then (c as int + 32) as char else c
  }

  /** Field names are case-insensitive. */
  predicate SameName(a: seq<char>, b: seq<char>) {
    |a| == |b| && forall i :: 0 <= i < |a| ==> Lower(a[i]) == Lower(b[i])
  }

  /** status-line: version, three digits, reason */
  function DecodeStatus(line: seq<char>): Option<(int, seq<char>)> {
    if |line| >= 13 && line[..9] == "HTTP/1.1 " && AllDigits(line[9..12]) && line[12] == ' '
    then Some((Value(line[9..12]), line[13..]))
    else None
  }

  /** field-line: name, colon, value without surrounding blanks */
  function DecodeField(line: seq<char>): Option<Field> {
    var i := IndexOf(line, ':');
    if i == |line| || i == 0 then None
    else Some(Field(line[..i], TrimRight(TrimLeft(line[i + 1..], OWS), OWS)))
  }

  /** Field lines up to the empty line; the rest comes after it. */
  function DecodeFields(s: seq<char>): (r: Option<(seq<Field>, seq<char>)>)
    ensures r.Some? ==> |r.value.1| <= |s|
    decreases |s|
  {
    var i := CrlfAt(s);
    if i == |s| then None
    else if i == 0 then Some(([], s[2..]))
    else match (DecodeField(s[..i]), DecodeFields(s[i + 2..]))
      case (Some(f), Some((fs, rest))) => Some(([f] + fs, rest))
      case _ => None
  }

  datatype Length = Exactly(n: nat) | UntilClose | Invalid

  function Named(fs: seq<Field>, name: seq<char>): seq<Field> {
    if fs == [] then []
    else (if SameName(fs[0].name, name) then [fs[0]] else []) + Named(fs[1..], name)
  }

  /** A response after which the connection carries no more messages: 101, and any 2xx to CONNECT. */
  predicate Tunnels(method_: seq<char>, status: int) {
    status == 101 || (200 <= status < 300 && method_ == "CONNECT")
  }

  /** Rules 1 and 2 of section 6.3: the message ends at its first empty line. */
  predicate Bodiless(method_: seq<char>, status: int) {
    100 <= status < 200 || status == 204 || status == 304 || method_ == "HEAD" || Tunnels(method_, status)
  }

  /** An interim response: the final one to the same request is still to come. */
  predicate Interim(status: int) {
    100 <= status < 200 && status != 101
  }

  /** Section 6.3. Transfer codings are not decoded. */
  function BodyLength(method_: seq<char>, status: int, fs: seq<Field>): Length {
    var lengths := Named(fs, "content-length");
    if Bodiless(method_, status) then Exactly(0)
    else if Named(fs, "transfer-encoding") != [] then Invalid
    else if lengths == [] then UntilClose
    else if |lengths| == 1 && lengths[0].value != [] && AllDigits(lengths[0].value) then Exactly(Value(lengths[0].value))
    else Invalid
  }

  /** The next message, a response to a request with this method. */
  function DecodeOne(method_: seq<char>, s: seq<char>): (r: Option<(Message, seq<char>)>)
    ensures r.Some? ==> |r.value.1| < |s|
  {
    var i := CrlfAt(s);
    if i == |s| then None
    else match (DecodeStatus(s[..i]), DecodeFields(s[i + 2..]))
      case (Some((status, reason)), Some((fs, rest))) =>
        (match BodyLength(method_, status, fs)
         case Exactly(n) =>
           if n <= |rest| then Some((Message(status, reason, fs, rest[..n]), rest[n..])) else None
         case UntilClose => Some((Message(status, reason, fs, rest), []))
         case Invalid => None)
      case _ => None
  }

  /** The requests still to be answered after a response with this status. */
  function Unanswered(methods: seq<seq<char>>, status: int): seq<seq<char>>
    requires methods != []
  {
    if Interim(status) then methods else methods[1..]
  }

  /** All messages of a connection's byte stream, in the order of the requests. */
  function DecodeAll(methods: seq<seq<char>>, s: seq<char>): Option<seq<Message>>
    decreases |s|
  {
    if s == [] then Some([])
    else if methods == [] then None
    else match DecodeOne(methods[0], s)
      case None => None
      case Some((m, rest)) =>
        if Tunnels(methods[0], m.status) then Some([m])
        else match DecodeAll(Unanswered(methods, m.status), rest)
          case None => None
          case Some(ms) => Some([m] + ms)
  }

  // ---- the responses considered -----------------------------------------------------------

  /** What the decoder needs of a header. */
  predicate Decodable(h: Pair) {
    && h.key != [] && CR !in h.key && ':' !in h.key
    && CR !in h.value && TrimLeft(h.value, OWS) == h.value && TrimRight(h.value, OWS) == h.value
  }

  predicate PlainHeader(h: Pair) {
    Decodable(h) && !SameName(h.key, "content-length") && !SameName(h.key, "transfer-encoding")
  }

  /** A three-digit status, no CR in the texts, and no framing fields of the application's own. */
  ghost predicate Plain(r: Response) {
    && 100 <= r.status <= 999 && CR !in OrEmpty(r.message)
    && (forall h :: h in r.headers ==> PlainHeader(h))
  }

  predicate HasLength(r: Response) {
    r.keepConnected == 0 && r.body.Some?
  }

  /** The encoder's 32 bytes hold the Content-Length line, if there is one. */
  predicate LengthFits(r: Response) {
    HasLength(r) ==> |r.body.value| < Pow10(13)
  }

  /** The response can be recovered when it stands alone: its length line is whole, and it has no
      body where rules 1 and 2 allow none. */
  predicate Recoverable(method_: seq<char>, r: Response) {
    LengthFits(r) && (Bodiless(method_, r.status) ==> OrEmpty(r.body) == [])
  }

  /** The response says itself where it ends, and another message may follow. */
  predicate Delimited(method_: seq<char>, r: Response) {
    !Tunnels(method_, r.status) && (Bodiless(method_, r.status) || HasLength(r))
  }

  /** Every response is recoverable, and all but the last are delimited. */
  predicate Splits(methods: seq<seq<char>>, rs: seq<Response>)
    requires |rs| <= |methods|
  {
    rs == [] ||
    (&& Recoverable(methods[0], rs[0])
     && (|rs| == 1 || Delimited(methods[0], rs[0]))
     && Splits(Unanswered(methods, rs[0].status), rs[1..]))
  }

  function ClosePair(): Pair {
    Pair("Connection", "close")
  }

  function KeepAlivePair(): Pair {
    Pair("Connection", "Keep-Alive")
  }

  function LengthPair(n: nat): Pair {
    Pair("Content-Length", Digits(n))
  }

  function ConnectionPairs(r: Response): seq<Pair> {
    if r.keepConnected != 0 then [ClosePair()]
    else if r.body.Some? then [LengthPair(|r.body.value|), KeepAlivePair()]
    else [KeepAlivePair()]
  }

  function AllPairs(r: Response): seq<Pair> {
    ConnectionPairs(r) + r.headers
  }

  function FieldsOf(hs: seq<Pair>): (fs: seq<Field>)
    ensures |fs| == |hs|
    ensures forall i :: 0 <= i < |hs| ==> fs[i] == Field(hs[i].key, hs[i].value)
  {
    seq(|hs|, i requires 0 <= i < |hs| => Field(hs[i].key, hs[i].value))
  }

  function MessageOf(r: Response): Message
  {
    Message(r.status, OrEmpty(r.message), FieldsOf(AllPairs(r)), OrEmpty(r.body))
  }

  function EncodeAll(rs: seq<Response>): seq<char> {
    if rs == [] then [] else Encode(rs[0]) + EncodeAll(rs[1..])
  }

  // ---- lines --------------------------------------------------------------------------------

  lemma CrlfJoin(line: seq<char>, rest: seq<char>)
    requires CR !in line
    ensures CrlfAt(line + CRLF + rest) == |line|
  {
    CrlfAfter(line, rest);
  }

  lemma {:induction false} CrlfAfter(line: seq<char>, rest: seq<char>)
    requires forall i :: 0 <= i < |line| - 1 ==> line[i] != CR || line[i + 1] != '\n'
    ensures CrlfAt(line + CRLF + rest) == |line|
  {
    var s := line + CRLF + rest;
    if line != [] {
      assert s[0] == line[0] && s[1] == if |line| > 1 then line[1] else CR;
      assert s[1..] == line[1..] + CRLF + rest;
      CrlfAfter(line[1..], rest);
    }
  }

  lemma DecodeFieldLine(h: Pair)
    requires Decodable(h)
    ensures CR !in FieldLine(h) && FieldLine(h) != []
    ensures DecodeField(FieldLine(h)) == Some(Field(h.key, h.value))
  {
    hide TrimRight;
    var line, tail := FieldLine(h), " " + h.value;
    assert line == h.key + [':'] + tail;
    IndexOfJoin(h.key, ':', tail);
    assert line[..|h.key|] == h.key && line[|h.key| + 1..] == tail;
    assert tail[1..] == h.value;
    assert TrimLeft(tail, OWS) == TrimLeft(h.value, OWS);
  }

  lemma HeaderPartSnoc(hs: seq<Pair>, h: Pair)
    ensures HeaderPart(hs + [h]) == HeaderPart(hs) + HeaderText(h)
  {
    hide HeaderText, NulFree;
    assert (hs + [h])[..|hs|] == hs;
  }

  lemma {:induction false} HeaderPartJoins(a: seq<Pair>, b: seq<Pair>)
    ensures HeaderPart(a + b) == HeaderPart(a) + HeaderPart(b)
  {
    hide HeaderText, HeaderPart, NulFree;
    if b == [] {
      EmptyHeaderPart();
      assert a + b == a;
    } else {
      var init, last := b[..|b| - 1], b[|b| - 1];
      HeaderPartJoins(a, init);
      assert a + b == (a + init) + [last] && b == init + [last];
      HeaderPartSnoc(a + init, last);
      HeaderPartSnoc(init, last);
      Regroup(HeaderPart(a), HeaderPart(init), HeaderText(last), [], [], []);
    }
  }

  lemma HeaderPartFirst(hs: seq<Pair>)
    requires hs != []
    ensures HeaderPart(hs) == FieldLine(hs[0]) + CRLF + HeaderPart(hs[1..])
  {
    var h := hs[0];
    assert hs == [h] + hs[1..];
    HeaderPartJoins([h], hs[1..]);
    assert [h][..0] == [];
    assert HeaderPart([h]) == HeaderText(h);
  }

  lemma {:induction false} DecodeHeaderPart(hs: seq<Pair>, rest: seq<char>)
    requires forall h :: h in hs ==> Decodable(h)
    ensures DecodeFields(HeaderPart(hs) + CRLF + rest) == Some((FieldsOf(hs), rest))
  {
    hide HeaderText, DecodeField, FieldLine, HeaderPart, CrlfAt;
    var s := HeaderPart(hs) + CRLF + rest;
    if hs == [] {
      EmptyHeaderPart();
      assert s == [] + CRLF + rest;
      CrlfJoin([], rest);
      assert s[2..] == rest;
    } else {
      var line, tail := FieldLine(hs[0]), HeaderPart(hs[1..]) + CRLF + rest;
      DecodeFieldLine(hs[0]);
      HeaderPartFirst(hs);
      assert s == line + CRLF + tail;
      CrlfJoin(line, tail);
      assert s[..|line|] == line && s[|line| + 2..] == tail;
      DecodeHeaderPart(hs[1..], rest);
      assert FieldsOf(hs) == [Field(hs[0].key, hs[0].value)] + FieldsOf(hs[1..]);
    }
  }

  lemma EmptyHeaderPart()
    ensures HeaderPart([]) == []
  {
  }

  // ---- one response ---------------------------------------------------------------------------

  /** The 32-byte buffer holds the whole Content-Length line exactly for bodies below 10^13. */
  lemma ContentLengthFits(body: cstring)
    ensures LengthPart(Some(body)) == HeaderText(LengthPair(|body|))
       <==> |body| < Pow10(13)
  {
    hide Digits, Pow10, NulFree;
    DigitsFit(|body|, 13);
    var d := Digits(|body|);
    LengthLine(d);
    assert LengthPart(Some(body)) == Printf("Content-Length: " + d + CRLF);
  }

  lemma LengthLine(d: cstring)
    ensures HeaderText(Pair("Content-Length", d)) == "Content-Length: " + d + CRLF
    ensures |"Content-Length: " + d + CRLF| == 18 + |d|
  {
  }

  lemma ConnectionPartIs(r: Response)
    requires LengthFits(r)
    ensures ConnectionPart(r) == HeaderPart(ConnectionPairs(r))
  {
    hide LengthPart, Pow10, HeaderPart, ClosePair, KeepAlivePair, LengthPair, CloseLine, KeepAliveLine, HeaderText, NulFree;
    ConnectionLines();
    HeaderPartOne(ClosePair());
    HeaderPartOne(KeepAlivePair());
    if HasLength(r) {
      var n := LengthPair(|r.body.value|);
      ContentLengthFits(r.body.value);
      HeaderPartOne(n);
      HeaderPartJoins([n], [KeepAlivePair()]);
      assert [n] + [KeepAlivePair()] == [n, KeepAlivePair()];
    } else if r.keepConnected == 0 {
      NoLength(r.body);
      assert [] + KeepAliveLine() == KeepAliveLine();
    }
  }

  lemma ConnectionLines()
    ensures HeaderText(ClosePair()) == CloseLine() && HeaderText(KeepAlivePair()) == KeepAliveLine()
  {
  }

  lemma HeaderPartOne(h: Pair)
    ensures HeaderPart([h]) == HeaderText(h)
  {
    assert [h][..0] == [];
  }

  lemma ContentLengthText()
    ensures CR !in "Content-Length" && ':' !in "Content-Length"
  {
  }

  lemma DigitsDecodable(n: nat)
    ensures Decodable(LengthPair(n))
  {
    hide TrimLeft, TrimRight, Digits;
    var s := Digits(n);
    assert IsDigit(s[0]) && IsDigit(s[|s| - 1]);
    TrimNothing(s, OWS);
    ContentLengthText();
    assert forall i :: 0 <= i < |s| ==> s[i] != CR;
  }

  lemma AllPairsDecodable(r: Response)
    requires Plain(r)
    ensures forall h :: h in AllPairs(r) ==> Decodable(h)
  {
    hide Digits, Decodable, ClosePair, KeepAlivePair, LengthPair;
    if r.body.Some? {
      DigitsDecodable(|r.body.value|);
    }
    ConnectionDecodable();
    forall h | h in AllPairs(r) ensures Decodable(h) {
      if h in r.headers {
        assert PlainHeader(h);
      }
    }
  }

  lemma ConnectionText()
    ensures CR !in "Connection" && ':' !in "Connection" && CR !in "close" && CR !in "Keep-Alive"
  {
  }

  lemma ConnectionDecodable()
    ensures Decodable(ClosePair()) && Decodable(KeepAlivePair())
  {
    hide TrimLeft, TrimRight;
    ConnectionText();
    var a, b := "close", "Keep-Alive";
    assert a[0] == 'c' && a[|a| - 1] == 'e' && b[0] == 'K' && b[|b| - 1] == 'e';
    TrimNothing(a, OWS);
    TrimNothing(b, OWS);
  }

  lemma ThreeDigits(n: nat)
    requires 100 <= n <= 999
    ensures |Digits(n)| == 3 && Value(Digits(n)) == n
  {
    hide Digits, Value;
    DigitsFit(n, 2);
    DigitsFit(n, 3);
    assert Pow10(1) == 10 * Pow10(0);
    assert Pow10(2) == 10 * Pow10(1);
    DigitsRoundTrip(n);
  }

  /** Cutting a status line into its parts. */
  lemma StatusCut(d: cstring, reason: cstring)
    requires |d| == 3 && AllDigits(d)
    ensures var line := "HTTP/1.1 " + d + " " + reason;
      DecodeStatus(line) == Some((Value(d), reason))
  {
    hide Value, NulFree;
    var line := "HTTP/1.1 " + d + " " + reason;
    assert line[..9] == "HTTP/1.1 ";
    assert line[9..12] == d && line[12] == ' ';
    assert line[13..] == reason;
  }

  lemma StatusHasNoCR(d: cstring, reason: cstring)
    requires |d| == 3 && AllDigits(d) && CR !in reason
    ensures CR !in "HTTP/1.1 " + d + " " + reason
  {
    hide NulFree;
    assert forall i :: 0 <= i < |d| ==> d[i] != CR;
  }

  lemma DecodeStatusPart(r: Response)
    requires 100 <= r.status <= 999 && CR !in OrEmpty(r.message)
    ensures var line := StatusStart(r.status) + OrEmpty(r.message);
      && CR !in line && StatusPart(r) == line + CRLF
      && DecodeStatus(line) == Some((r.status, OrEmpty(r.message)))
  {
    hide Digits, Value, DecodeStatus, NulFree, AllDigits;
    var d := Digits(r.status);
    ThreeDigits(r.status);
    assert StatusStart(r.status) == "HTTP/1.1 " + d + " ";
    StatusCut(d, OrEmpty(r.message));
    StatusHasNoCR(d, OrEmpty(r.message));
  }

  lemma {:induction false} NamedJoins(a: seq<Field>, b: seq<Field>, name: seq<char>)
    ensures Named(a + b, name) == Named(a, name) + Named(b, name)
  {
    hide SameName;
    if a == [] {
      assert a + b == b;
    } else {
      assert (a + b)[0] == a[0] && (a + b)[1..] == a[1..] + b;
      NamedJoins(a[1..], b, name);
      var first := if SameName(a[0].name, name) then [a[0]] else [];
      assert first + (Named(a[1..], name) + Named(b, name)) == (first + Named(a[1..], name)) + Named(b, name);
    }
  }

  lemma {:induction false} NamedAbsent(fs: seq<Field>, name: seq<char>)
    requires forall f :: f in fs ==> !SameName(f.name, name)
    ensures Named(fs, name) == []
  {
    hide SameName;
    if fs != [] {
      NamedAbsent(fs[1..], name);
    }
  }

  lemma ContentLengthName()
    ensures SameName("Content-Length", "content-length")
  {
    var a, b := "Content-Length", "content-length";
    assert a[0] == 'C' && b[0] == 'c' && a[8] == 'L' && b[8] == 'l';
    assert a[1..8] == b[1..8] && a[9..] == b[9..];
    forall i | 0 <= i < 14 ensures Lower(a[i]) == Lower(b[i]) {
      if 1 <= i < 8 {
        assert a[i] == a[1..8][i - 1] && b[i] == b[1..8][i - 1];
      } else if 9 <= i {
        assert a[i] == a[9..][i - 9] && b[i] == b[9..][i - 9];
      }
    }
  }

  /** The framing fields of an encoded response are those the encoder wrote. */
  lemma FramingFields(r: Response)
    requires Plain(r)
    ensures var fs := FieldsOf(AllPairs(r));
      && Named(fs, "transfer-encoding") == []
      && Named(fs, "content-length") ==
           if r.keepConnected == 0 && r.body.Some? then [Field("Content-Length", Digits(|r.body.value|))] else []
  {
    hide SameName, Named, Digits;
    var a, b := FieldsOf(ConnectionPairs(r)), FieldsOf(r.headers);
    assert FieldsOf(AllPairs(r)) == a + b;
    NamedJoins(a, b, "transfer-encoding");
    NamedJoins(a, b, "content-length");
    forall f | f in b ensures !SameName(f.name, "transfer-encoding") && !SameName(f.name, "content-length") {
      var i :| 0 <= i < |b| && b[i] == f;
      assert PlainHeader(r.headers[i]);
    }
    NamedAbsent(b, "transfer-encoding");
    NamedAbsent(b, "content-length");
    ConnectionNames(r);
  }

  lemma ConnectionNames(r: Response)
    ensures var a := FieldsOf(ConnectionPairs(r));
      && Named(a, "transfer-encoding") == []
      && Named(a, "content-length") ==
           if r.keepConnected == 0 && r.body.Some? then [Field("Content-Length", Digits(|r.body.value|))] else []
  {
    hide Digits;
    ContentLengthName();
    OtherNames();
    var a := FieldsOf(ConnectionPairs(r));
    if r.keepConnected == 0 && r.body.Some? {
      var n, c := Field("Content-Length", Digits(|r.body.value|)), Field("Connection", "Keep-Alive");
      assert a == [n, c];
      NamedTwo(n, c, "content-length");
      NamedTwo(n, c, "transfer-encoding");
    } else {
      assert forall f :: f in a ==> f.name == "Connection";
      NamedAbsent(a, "transfer-encoding");
      NamedAbsent(a, "content-length");
    }
  }

  lemma NamedTwo(n: Field, c: Field, name: seq<char>)
    requires !SameName(c.name, name)
    ensures Named([n, c], name) == if SameName(n.name, name) then [n] else []
  {
    hide SameName;
    assert [n, c][1..] == [c] && [c][1..] == [];
    assert Named([c], name) == [];
  }

  lemma OtherNames()
    ensures !SameName("Connection", "content-length") && !SameName("Connection", "transfer-encoding")
    ensures !SameName("Content-Length", "transfer-encoding")
  {
  }

  lemma BodyLengthIs(method_: seq<char>, r: Response)
    requires Plain(r)
    ensures BodyLength(method_, r.status, FieldsOf(AllPairs(r))) ==
            if Bodiless(method_, r.status) then Exactly(0)
            else if HasLength(r) then Exactly(|r.body.value|)
            else UntilClose
  {
    hide Named, Digits, Value, Bodiless;
    FramingFields(r);
    if r.body.Some? {
      DigitsRoundTrip(|r.body.value|);
    }
  }

  /** One encoded response in front of any bytes. A client that expects no body leaves the body
      in front of those bytes; a response with a length is recovered and leaves exactly those
      bytes; any other swallows them into its body. */
  lemma DecodeEncoded(method_: seq<char>, r: Response, tail: seq<char>)
    requires Plain(r) && LengthFits(r)
    ensures DecodeOne(method_, Encode(r) + tail) ==
            if Bodiless(method_, r.status) then Some((MessageOf(r).(body := []), OrEmpty(r.body) + tail))
            else if HasLength(r) then Some((MessageOf(r), tail))
            else Some((MessageOf(r).(body := OrEmpty(r.body) + tail), []))
  {
    hide StatusPart, StatusStart, ConnectionPart, HeaderPart, DecodeStatus, DecodeFields, BodyLength, AllPairs, CrlfAt;
    hide Bodiless;
    var line, body := StatusStart(r.status) + OrEmpty(r.message), OrEmpty(r.body);
    var rest := body + tail;
    var block := HeaderPart(AllPairs(r)) + CRLF + rest;
    DecodeStatusPart(r);
    BlockIs(r);
    var s := Encode(r) + tail;
    assert s == line + CRLF + block;
    CrlfJoin(line, block);
    assert s[..|line|] == line && s[|line| + 2..] == block;
    AllPairsDecodable(r);
    DecodeHeaderPart(AllPairs(r), rest);
    BodyLengthIs(method_, r);
    assert rest[..|body|] == body && rest[|body|..] == tail;
    assert rest[..0] == [] && rest[0..] == rest;
  }

  lemma BlockIs(r: Response)
    requires LengthFits(r)
    ensures ConnectionPart(r) + HeaderPart(r.headers) == HeaderPart(AllPairs(r))
  {
    hide Pow10;
    ConnectionPartIs(r);
    HeaderPartJoins(ConnectionPairs(r), r.headers);
  }

  // ---- connections ------------------------------------------------------------------------------

  function MessagesOf(rs: seq<Response>): (ms: seq<Message>)
    ensures |ms| == |rs|
    ensures forall i :: 0 <= i < |rs| ==> ms[i] == MessageOf(rs[i])
  {
    seq(|rs|, i requires 0 <= i < |rs| => MessageOf(rs[i]))
  }

  lemma EncodeNonempty(r: Response)
    ensures Encode(r) != []
  {
  }

  lemma DecodeAllStep(methods: seq<seq<char>>, s: seq<char>, m: Message, rest: seq<char>)
    requires s != [] && methods != [] && DecodeOne(methods[0], s) == Some((m, rest))
    ensures DecodeAll(methods, s) ==
            if Tunnels(methods[0], m.status) then Some([m])
            else match DecodeAll(Unanswered(methods, m.status), rest) case None => None case Some(ms) => Some([m] + ms)
  {
    hide DecodeOne, Tunnels, Interim;
  }

  function InFront(m: Message, d: Option<seq<Message>>): Option<seq<Message>> {
    match d
    case None => None
    case Some(ms) => Some([m] + ms)
  }

  /** How a client goes on after an encoded response: not at all after 101 or a 2xx to CONNECT, with
      the same request after any other 1xx, and with the next one otherwise; and where it goes on. */
  lemma FirstRead(methods: seq<seq<char>>, r: Response, tail: seq<char>)
    requires methods != [] && Plain(r) && LengthFits(r)
    ensures var d, body, next := DecodeAll(methods, Encode(r) + tail), OrEmpty(r.body), methods[1..];
      var m := MessageOf(r).(body := []);
      if r.status == 101 || (r.status / 100 == 2 && methods[0] == "CONNECT") then d == Some([m])
      else if r.status / 100 == 1 then d == InFront(m, DecodeAll(methods, body + tail))
      else if methods[0] == "HEAD" || r.status in {204, 304} then d == InFront(m, DecodeAll(next, body + tail))
      else if r.body.Some? && r.keepConnected == 0 then d == InFront(m.(body := body), DecodeAll(next, tail))
      else d == Some([m.(body := body + tail)])
  {
    hide Encode, DecodeOne, Plain, DecodeAll, AllPairs, PlainHeader;
    EncodeNonempty(r);
    DecodeEncoded(methods[0], r, tail);
    var d := DecodeOne(methods[0], Encode(r) + tail);
    DecodeAllStep(methods, Encode(r) + tail, d.value.0, d.value.1);
    DecodeNothing(Unanswered(methods, r.status));
    assert [d.value.0] + [] == [d.value.0];
    PlainStatus(r);
  }

  lemma PlainStatus(r: Response)
    requires Plain(r)
    ensures 100 <= r.status <= 999
  {
  }

  /** A first message that comes out wrong. */
  lemma WrongHead(methods: seq<seq<char>>, s: seq<char>, ms: seq<Message>)
    requires s != [] && methods != [] && ms != []
    requires var d := DecodeOne(methods[0], s); d.Some? ==> d.value.0 != ms[0]
    ensures DecodeAll(methods, s) != Some(ms)
  {
    hide DecodeOne, Tunnels, Interim;
  }

  lemma DecodeNothing(methods: seq<seq<char>>)
    ensures DecodeAll(methods, []) == Some([])
  {
  }

  /** The byte stream of a connection splits back into the responses written to it, with their
      statuses, fields and bodies, exactly when each of them is recoverable and all but the last
      say where they end. */
  lemma {:induction false} FramingExact(methods: seq<seq<char>>, rs: seq<Response>)
    requires |rs| <= |methods| && forall i :: 0 <= i < |rs| ==> Plain(rs[i])
    ensures DecodeAll(methods, EncodeAll(rs)) == Some(MessagesOf(rs)) <==> Splits(methods, rs)
  {
    hide Encode, DecodeOne, MessageOf, Delimited, Recoverable, Plain, DecodeAll, Tunnels, Interim;
    if rs == [] {
      DecodeNothing(methods);
      assert MessagesOf(rs) == [];
    } else {
      var r, tail := rs[0], EncodeAll(rs[1..]);
      assert MessagesOf(rs) == [MessageOf(r)] + MessagesOf(rs[1..]);
      EncodeNonempty(r);
      if !Recoverable(methods[0], r) {
        Unrecoverable(methods[0], r, tail);
        WrongHead(methods, Encode(r) + tail, MessagesOf(rs));
      } else if Delimited(methods[0], r) {
        FramingExact(Unanswered(methods, r.status), rs[1..]);
        DelimitedHead(methods, r, tail);
        FirstOff(MessageOf(r), DecodeAll(Unanswered(methods, r.status), tail), MessagesOf(rs[1..]));
      } else {
        LastHead(methods, rs);
      }
    }
  }

  lemma FirstOff(m: Message, d: Option<seq<Message>>, ms: seq<Message>)
    ensures (match d case None => None case Some(x) => Some([m] + x)) == Some([m] + ms) <==> d == Some(ms)
  {
    if d.Some? && [m] + d.value == [m] + ms {
      assert d.value == ([m] + d.value)[1..] && ms == ([m] + ms)[1..];
    }
  }

  lemma DelimitedHead(methods: seq<seq<char>>, r: Response, tail: seq<char>)
    requires methods != [] && Plain(r) && Recoverable(methods[0], r) && Delimited(methods[0], r)
    ensures DecodeAll(methods, Encode(r) + tail) ==
            (match DecodeAll(Unanswered(methods, r.status), tail)
             case None => None
             case Some(ms) => Some([MessageOf(r)] + ms))
  {
    hide Encode, DecodeOne, Plain, DecodeAll, Tunnels, Interim, Bodiless, AllPairs;
    EncodeNonempty(r);
    DecodeEncoded(methods[0], r, tail);
    assert [] + tail == tail;
    DecodeAllStep(methods, Encode(r) + tail, MessageOf(r), tail);
  }

  /** A recoverable response that is not delimited: it is read back if and only if it is the last. */
  lemma LastHead(methods: seq<seq<char>>, rs: seq<Response>)
    requires rs != [] && methods != [] && Plain(rs[0])
    requires Recoverable(methods[0], rs[0]) && !Delimited(methods[0], rs[0])
    ensures DecodeAll(methods, Encode(rs[0]) + EncodeAll(rs[1..])) == Some(MessagesOf(rs)) <==> |rs| == 1
  {
    hide Encode, DecodeOne, Plain, DecodeAll, Tunnels, Interim, Bodiless, AllPairs;
    var r, tail := rs[0], EncodeAll(rs[1..]);
    EncodeNonempty(r);
    DecodeEncoded(methods[0], r, tail);
    if Tunnels(methods[0], r.status) {
      TunnelsBodiless(methods[0], r.status);
      DecodeAllStep(methods, Encode(r) + tail, MessageOf(r), [] + tail);
    } else {
      var m := MessageOf(r).(body := OrEmpty(r.body) + tail);
      DecodeNothing(Unanswered(methods, r.status));
      DecodeAllStep(methods, Encode(r) + tail, m, []);
      assert [m] + [] == [m];
    }
    if |rs| == 1 {
      assert rs[1..] == [] && MessagesOf(rs) == [MessageOf(r)];
      NothingAfter(r);
    } else {
      assert |MessagesOf(rs)| > 1;
    }
  }

  lemma TunnelsBodiless(method_: seq<char>, status: int)
    requires Tunnels(method_, status)
    ensures Bodiless(method_, status)
  {
  }

  // ---- a length line that is cut short ---------------------------------------------------------

  /** Thirty-one bytes of it are left, and no line feed among them. */
  lemma CutLength(body: cstring)
    requires |body| >= Pow10(13)
    ensures var p := LengthPart(Some(body));
      |p| == 31 && p[..16] == "Content-Length: " && forall i :: 16 <= i < 31 ==> p[i] != '\n'
  {
    hide Digits, Pow10, NulFree;
    DigitsFit(|body|, 13);
    var d := Digits(|body|);
    var t := "Content-Length: " + d + CRLF;
    assert LengthPart(Some(body)) == t[..31];
    assert t[..16] == "Content-Length: ";
    forall i | 16 <= i < 31 ensures t[i] != '\n' {
      assert t[i] == if i - 16 < |d| then d[i - 16] else CRLF[i - 16 - |d|];
    }
  }

  lemma {:induction false} LastStays(s: seq<char>, blanks: set<char>)
    requires s != [] && s[|s| - 1] !in blanks
    ensures var t := TrimRight(TrimLeft(s, blanks), blanks);
      t != [] && t[|t| - 1] == s[|s| - 1]
  {
    if s[0] in blanks {
      LastStays(s[1..], blanks);
    }
  }

  /** The connection header's line is taken for the end of the length. */
  lemma MergedLine(p: seq<char>)
    requires |p| == 31 && p[..16] == "Content-Length: " && forall i :: 16 <= i < 31 ==> p[i] != '\n'
    ensures var line := p + "Connection: Keep-Alive";
      && (forall i :: 0 <= i < |line| ==> line[i] != '\n')
      && (var f := DecodeField(line); f.Some? ==> f.value.value != [] && f.value.value[|f.value.value| - 1] == 'e')
  {
    hide TrimLeft, TrimRight;
    var a, b := "Content-Length: ", "Connection: Keep-Alive";
    var line := p + b;
    forall i | 0 <= i < |line| ensures line[i] != '\n' {
      assert i < 16 ==> line[i] == p[..16][i] == a[i];
      assert i >= 31 ==> line[i] == b[i - 31];
    }
    var name: seq<char>, rest := "Content-Length", line[15..];
    assert line[14] == p[..16][14] == ':';
    assert line == line[..14] + [':'] + rest;
    assert forall i :: 0 <= i < 14 ==> line[i] == p[..16][i] == a[i] && a[i] != ':';
    IndexOfJoin(line[..14], ':', rest);
    assert rest[|rest| - 1] == b[|b| - 1] == 'e';
    LastStays(rest, OWS);
  }

  lemma FirstField(line: seq<char>, rest: seq<char>)
    requires line != [] && forall i :: 0 <= i < |line| ==> line[i] != '\n'
    ensures var r := DecodeFields(line + CRLF + rest);
      r.Some? ==> r.value.0 != [] && DecodeField(line) == Some(r.value.0[0])
  {
    hide DecodeField, CrlfAt;
    CrlfAfter(line, rest);
    assert (line + CRLF + rest)[..|line|] == line;
  }

  /** The encoded response as the client cuts it up. */
  lemma MergedBlock(r: Response, tail: seq<char>)
    requires HasLength(r)
    ensures var line, merged := StatusStart(r.status) + OrEmpty(r.message), LengthPart(r.body) + "Connection: Keep-Alive";
      Encode(r) + tail ==
      line + CRLF + (merged + CRLF + (HeaderPart(r.headers) + CRLF + r.body.value + tail))
  {
    hide StatusStart, HeaderPart, LengthPart, NulFree;
    assert "Connection: Keep-Alive" + CRLF == KeepAliveLine();
  }

  lemma LongBodyMisread(method_: seq<char>, r: Response, tail: seq<char>)
    requires Plain(r) && !LengthFits(r)
    ensures var d := DecodeOne(method_, Encode(r) + tail); d.Some? ==> d.value.0.fields != MessageOf(r).fields
  {
    hide StatusPart, StatusStart, HeaderPart, DecodeStatus, DecodeFields, DecodeField, BodyLength, CrlfAt, LengthPart;
    hide Pow10, Digits, NulFree, Encode, ClosePair, KeepAlivePair;
    var line := StatusStart(r.status) + OrEmpty(r.message);
    var p := LengthPart(r.body);
    var merged, rest := p + "Connection: Keep-Alive", HeaderPart(r.headers) + CRLF + r.body.value + tail;
    DecodeStatusPart(r);
    CutLength(r.body.value);
    MergedLine(p);
    MergedBlock(r, tail);
    var s, block := Encode(r) + tail, merged + CRLF + rest;
    CrlfJoin(line, block);
    assert s[..|line|] == line && s[|line| + 2..] == block;
    FirstField(merged, rest);
    var f := MessageOf(r).fields[0];
    assert f == Field("Content-Length", Digits(|r.body.value|));
    assert IsDigit(f.value[|f.value| - 1]);
  }

  /** What the client makes of a body it does not expect, or of a length line cut short. */
  lemma Unrecoverable(method_: seq<char>, r: Response, tail: seq<char>)
    requires Plain(r) && !Recoverable(method_, r)
    ensures var d := DecodeOne(method_, Encode(r) + tail); d.Some? ==> d.value.0 != MessageOf(r)
  {
    hide Encode, DecodeOne, Plain, Bodiless, AllPairs, Pow10;
    if LengthFits(r) {
      DecodeEncoded(method_, r, tail);
    } else {
      LongBodyMisread(method_, r, tail);
    }
  }

  lemma NothingAfter(r: Response)
    ensures MessageOf(r).(body := OrEmpty(r.body) + []) == MessageOf(r)
  {
    assert OrEmpty(r.body) + [] == OrEmpty(r.body);
  }
}
