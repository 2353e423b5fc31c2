/** The two ends meet: the request parser (http-server/http_server.c) on what the response encoder
    (http-server/http_response.c) writes. */
module HttpMirror {
  import opened CStrings
  import opened Decimals
  import opened Buffers
  import opened Tokens
  import opened HttpRequests
  import opened HttpParser
  import opened HttpRoundTrip
  import opened HttpResponses
  import opened HttpFraming

  /** A response head, read as a request: the version stands where the method is expected. */
  function Mirrored(r: Response): Text
    requires r.status >= 0
  {
    Text("HTTP/1.1", Digits(r.status), OrEmpty(r.message), AllPairs(r))
  }

  lemma {:induction false} HeaderLines(t: Text, k: nat)
    requires k <= |t.headers|
    ensures PrintLines(t, k + 1) == StatusText(t) + CRLF + HeaderPart(t.headers[..k])
  {
    hide StatusText, NulFree, Line, FieldLine, HeaderText, HeaderPart;
    if k == 0 {
      FirstLineText(t);
    } else {
      HeaderLines(t, k - 1);
      var h, hs := t.headers[k - 1], t.headers[..k];
      assert hs[..k - 1] == t.headers[..k - 1];
      PairLine(t, h, k);
      LastHeader(hs);
      Regroup(StatusText(t) + CRLF, HeaderPart(hs[..k - 1]), FieldLine(h), CRLF, [], []);
    }
  }

  lemma FirstLineText(t: Text)
    ensures PrintLines(t, 1) == StatusText(t) + CRLF + HeaderPart(t.headers[..0])
  {
    hide StatusText;
    assert PrintLines(t, 0) == [];
  }

  lemma LastHeader(hs: seq<Pair>)
    requires hs != []
    ensures HeaderPart(hs) == HeaderPart(hs[..|hs| - 1]) + HeaderText(hs[|hs| - 1])
  {
  }

  lemma PairLine(t: Text, h: Pair, k: nat)
    requires 0 < k <= |t.headers| && h == t.headers[k - 1]
    ensures Line(t, k) == FieldLine(h)
    ensures HeaderText(h) == FieldLine(h) + CRLF
  {
  }

  lemma EncodeIsPrint(r: Response)
    requires Plain(r) && LengthFits(r)
    ensures Encode(r) == Print(Mirrored(r)) + OrEmpty(r.body)
  {
    hide StatusPart, ConnectionPart, HeaderPart, AllPairs, NulFree, StatusText, StatusStart;
    var t := Mirrored(r);
    BlockOf(r);
    HeaderLines(t, |t.headers|);
    assert t.headers[..|t.headers|] == AllPairs(r);
    BlankLine(t);
    HeadIs(r);
  }

  lemma BlockOf(r: Response)
    requires LengthFits(r)
    ensures ConnectionPart(r) + HeaderPart(r.headers) == HeaderPart(AllPairs(r))
  {
    hide ConnectionPart, HeaderPart, AllPairs;
    BlockIs(r);
  }

  lemma BlankLine(t: Text)
    ensures Print(t) == PrintLines(t, |t.headers| + 1) + CRLF
  {
    assert Line(t, |t.headers| + 1) == [];
  }

  lemma HeadIs(r: Response)
    requires Plain(r)
    ensures StatusPart(r) == StatusText(Mirrored(r)) + CRLF
  {
    hide Digits, NulFree, DecodeStatus;
    DecodeStatusPart(r);
    DigitsFit(r.status, 3);
    assert Pow10(3) == 1000 by {
      assert Pow10(1) == 10 * Pow10(0);
      assert Pow10(2) == 10 * Pow10(1);
    }
    var d := Digits(r.status);
    assert "HTTP/1.1" + " " == "HTTP/1.1 ";
    assert StatusStart(r.status) == "HTTP/1.1 " + d + " ";
  }

  lemma MirroredPrintable(r: Response)
    requires Plain(r)
    ensures Printable(Mirrored(r))
  {
    hide Digits, NulFree, AllPairs, TrimLeft, TrimRight;
    AllPairsDecodable(r);
    var d := Digits(r.status);
    assert forall i :: 0 <= i < |d| ==> d[i] != ' ' && d[i] != CR;
    VersionText();
  }

  lemma VersionText()
    ensures CR !in "HTTP/1.1" && ' ' !in "HTTP/1.1"
  {
  }

  /** The request parser reads an encoded response's head: it stops where the body begins, so the
      bytes it leaves are the body announced by Content-Length, and it finds the header block as
      it was written, up to its own limit of 128 lines. */
  lemma ParserReadsEncoded(r: Response, stale: seq<char>)
    requires Plain(r) && LengthFits(r)
    ensures exists q ::
              && Parse(FRESH, Encode(r) + stale, 0, |Encode(r)|) == Complete(q, |Encode(r)| - |OrEmpty(r.body)|)
              && q.headers == FirstHeaders(AllPairs(r))
              && q.path == Some(Digits(r.status)) && q.version == Some(OrEmpty(r.message))
  {
    hide Encode, Print, Parse, Expected, AllPairs, Printable, Digits, NulFree;
    var t := Mirrored(r);
    EncodeIsPrint(r);
    MirroredPrintable(r);
    RequestRoundTrip(t, OrEmpty(r.body), stale);
    ExpectedFields(t);
    NoQuery(r.status);
    assert Parse(FRESH, Encode(r) + stale, 0, |Encode(r)|) == Complete(Expected(t), |Print(t)|);
  }

  lemma NoQuery(status: int)
    requires status >= 0
    ensures QueryPath(Digits(status)) == Digits(status)
  {
    hide Digits;
    var d := Digits(status);
    assert IndexOf(d, '?') == |d|;
  }
}
