/** The response encoder (http-server/http_response.c). */
module HttpResponses {
  import opened CStrings
  import opened Decimals
  import opened Tokens
  import opened Buffers

  const MAX_RESPONSE_HEADERS: nat := 128

  datatype Response = Response(
    status: int,
    message: Option<cstring>,
    body: Option<cstring>,
    headers: seq<Pair>,
    keepConnected: int)

  /** `snprintf` into a buffer of 32 bytes. */
  function Printf(s: cstring): (r: cstring)
    ensures r <= s && |r| <= 31
    ensures |s| <= 31 ==> r == s
  {
    if |s| <= 31 then s else s[..31]
  }

  function OrEmpty(s: Option<cstring>): cstring {
    if s.Some? then s.value else []
  }

  function CloseLine(): cstring {
    "Connection: close\r\n"
  }

  function KeepAliveLine(): cstring {
    "Connection: Keep-Alive\r\n"
  }

  function StatusStart(status: int): cstring {
    Printf("HTTP/1.1 " + Decimal(status) + " ")
  }

  function StatusPart(r: Response): cstring {
    StatusStart(r.status) + OrEmpty(r.message) + CRLF
  }

  function LengthPart(body: Option<cstring>): cstring {
    if body.Some? then Printf("Content-Length: " + Digits(|body.value|) + CRLF) else []
  }

  function ConnectionPart(r: Response): cstring {
    if r.keepConnected != 0 then CloseLine() else LengthPart(r.body) + KeepAliveLine()
  }

  function HeaderText(h: Pair): cstring {
    FieldLine(h) + CRLF
  }

  function HeaderPart(hs: seq<Pair>): cstring {
    if hs == [] then [] else HeaderPart(hs[..|hs| - 1]) + HeaderText(hs[|hs| - 1])
  }

  function Encode(r: Response): cstring {
    StatusPart(r) + ConnectionPart(r) + HeaderPart(r.headers) + CRLF + OrEmpty(r.body)
  }

  class HttpResponse {
    var status: int
    var message: Option<cstring>
    var body: Option<cstring>
    var headers: seq<Pair>
    var keepConnected: int

    function Abs(): Response
      reads this
    {
      Response(status, message, body, headers, keepConnected)
    }

    constructor ()
      ensures Abs() == Response(0, None, None, [], 0)
    {
      status, message, body, headers, keepConnected := 0, None, None, [], 0;
    }

    method AddHeader(h: Pair)
      modifies this`headers
      ensures headers == if |old(headers)| < 128 then old(headers) + [h] else old(headers)
    {
      if |headers| >= MAX_RESPONSE_HEADERS {
        return;
      }
      headers := headers + [h];
    }

    /** `http_response_encode_buffer` */
    method EncodeBuffer(output: Buffer)
      requires output.Valid()
      modifies output, output.data
      ensures output.Valid() && (output.data == old(output.data) || fresh(output.data))
      ensures output.Contents() == old(output.Contents()) + Encode(Abs())
    {
      hide StatusPart, ConnectionPart, HeaderPart, NulFree, output.Valid, output.Contents;
      ghost var before := output.Contents();
      EncodeStatus(output);
      EncodeConnection(output);
      EncodeHeaders(output);
      Emit(output, CRLF);
      if body.Some? {
        Emit(output, body.value);
      }
      Regroup(before, StatusPart(Abs()), ConnectionPart(Abs()), HeaderPart(headers), CRLF, OrEmpty(body));
    }

    method EncodeStatus(output: Buffer)
      requires output.Valid()
      modifies output, output.data
      ensures output.Valid() && (output.data == old(output.data) || fresh(output.data))
      ensures output.Contents() == old(output.Contents()) + StatusPart(Abs())
    {
      hide StatusStart, NulFree, output.Valid, output.Contents;
      Emit(output, StatusStart(status));
      if message.Some? {
        Emit(output, message.value);
      }
      Emit(output, CRLF);
    }

    method EncodeConnection(output: Buffer)
      requires output.Valid()
      modifies output, output.data
      ensures output.Valid() && (output.data == old(output.data) || fresh(output.data))
      ensures output.Contents() == old(output.Contents()) + ConnectionPart(Abs())
    {
      hide LengthPart, CloseLine, KeepAliveLine, NulFree, output.Valid, output.Contents;
      if keepConnected != 0 {
        Emit(output, CloseLine());
      } else {
        if body.Some? {
          Emit(output, LengthPart(body));
        } else {
          assert LengthPart(body) == [] by { NoLength(body); }
        }
        Emit(output, KeepAliveLine());
      }
    }

    method EncodeHeaders(output: Buffer)
      requires output.Valid()
      modifies output, output.data
      ensures output.Valid() && (output.data == old(output.data) || fresh(output.data))
      ensures output.Contents() == old(output.Contents()) + HeaderPart(headers)
    {
      hide output.Valid, output.Contents, HeaderText, NulFree;
      ghost var before := output.Contents();
      for i := 0 to |headers|
        invariant output.Valid() && (output.data == old(output.data) || fresh(output.data))
        invariant output.Contents() == before + HeaderPart(headers[..i])
      {
        EncodeHeader(output, headers[i]);
        assert headers[..i + 1][..i] == headers[..i];
      }
      assert headers[..|headers|] == headers;
    }
  }

  method EncodeHeader(output: Buffer, h: Pair)
    requires output.Valid()
    modifies output, output.data
    ensures output.Valid() && (output.data == old(output.data) || fresh(output.data))
    ensures output.Contents() == old(output.Contents()) + HeaderText(h)
  {
    var colon: cstring := ": ";
    hide output.Valid, output.Contents, HeaderText, NulFree;
    ghost var before := output.Contents();
    Emit(output, h.key);
    Emit(output, colon);
    Emit(output, h.value);
    Emit(output, CRLF);
    HeaderTextJoins(before, h);
  }

  lemma HeaderTextJoins(p: seq<char>, h: Pair)
    ensures p + h.key + ": " + h.value + CRLF == p + HeaderText(h)
  {
    var colon := ": ";
    Regroup(p, h.key, colon, h.value, CRLF, []);
    assert h.key + colon + h.value + CRLF + [] == HeaderText(h);
    assert p + h.key + colon + h.value + CRLF + [] == p + h.key + colon + h.value + CRLF;
  }

  lemma NoLength(body: Option<cstring>)
    requires body.None?
    ensures LengthPart(body) == []
  {
  }

  /** `buffer_append_string` */
  method Emit(output: Buffer, s: cstring)
    requires output.Valid()
    modifies output, output.data
    ensures output.Valid() && (output.data == old(output.data) || fresh(output.data))
    ensures output.Contents() == old(output.Contents()) + s
  {
    var n := output.AppendString(s);
  }

  lemma Regroup(p: seq<char>, a: seq<char>, b: seq<char>, c: seq<char>, d: seq<char>, e: seq<char>)
    ensures p + a + b + c + d + e == p + (a + b + c + d + e)
  {
  }
}
