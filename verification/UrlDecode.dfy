/** Percent decoding (`url_decode` in http-server/static_file.c), against the encodings of
    section 2.1 of RFC 3986. */
module UrlDecoding {
  import opened CStrings

  /** A `size_t`. */
  type size = n: int | 0 <= n < SIZE_MODULUS

  function Minus(len: size, n: nat): size {
    (len - n) % SIZE_MODULUS
  }

  predicate IsHex(c: char) {
    '0' <= c <= '9' || 'A' <= c <= 'F' || 'a' <= c <= 'f'
  }

  /** The value of a hexadecimal digit, folded to upper case first. */
  function HexValue(c: char): (v: nat)
    requires IsHex(c)
    ensures v < 16
  {
    var u := if c >= 'a' then c as int - 32 else c as int;
    if u >= 'A' as int then u - ('A' as int - 10) else u - '0' as int
  }

  predicate IsEscape(s: seq<char>) {
    |s| >= 3 && s[0] == '%' && IsHex(s[1]) && IsHex(s[2])
  }

  /** One round of the loop: bytes consumed, byte written. */
  function Taken(s: seq<char>): nat {
    if IsEscape(s) then 3 else 1
  }

  function Written(s: seq<char>): char
    requires s != []
  {
    if IsEscape(s) then (16 * HexValue(s[1]) + HexValue(s[2])) as char
    else if s[0] == '+' then ' '
    else s[0]
  }

  /** What the loop writes for the string `s` with a budget of `len`. */
  function Decoded(s: seq<char>, len: size): (r: seq<char>)
    ensures |r| <= |s|
  {
    if s == [] || len == 0 then []
    else [Written(s)] + Decoded(s[Taken(s)..], Minus(len, Taken(s)))
  }

  // ---- the code -------------------------------------------------------------------------------

  /** Writes one byte; nothing from `n` on changes. */
  method Put(dst: array<char>, d: nat, c: char, ghost n: nat)
    requires d < n <= dst.Length
    modifies dst
    ensures dst[..d + 1] == old(dst[..d]) + [c]
    ensures dst[n..] == old(dst[n..])
  {
    dst[d] := c;
  }

  method UrlDecode(dst: array<char>, src: cstring, len: size)
    requires |Decoded(src, len)| < dst.Length
    modifies dst
    ensures dst[..|Decoded(src, len)| + 1] == Decoded(src, len) + [NUL]
    ensures dst[|Decoded(src, len)| + 1..] == old(dst[|Decoded(src, len)| + 1..])
  {
    hide Decoded, HexValue, NulFree;
    var i, d, left := 0, 0, len;
    ghost var all := Decoded(src, len);
    ghost var n := |all| + 1;
    while i < |src| && left > 0
      invariant i <= |src| && d <= |all|
      invariant dst[..d] + Decoded(src[i..], left) == all
      invariant dst[n..] == old(dst[n..])
      decreases |src| - i
    {
      var c := src[i];
      var taken := 1;
      if c == '%' && i + 2 < |src| && IsHex(src[i + 1]) && IsHex(src[i + 2]) {
        c := (16 * HexValue(src[i + 1]) + HexValue(src[i + 2])) as char;
        taken := 3;
      } else if c == '+' {
        c := ' ';
      }
      OneRound(src[i..], left, c, taken);
      DropTwice(src, i, taken);
      Append(dst[..d], c, Decoded(src[i + taken..], Minus(left, taken)));
      Put(dst, d, c, n);
      i, d, left := i + taken, d + 1, Minus(left, taken);
    }
    NoMore(src[i..], left);
    assert dst[..d] + [] == dst[..d];
    Put(dst, d, NUL, n);
  }

  lemma NoMore(s: seq<char>, left: size)
    requires s == [] || left == 0
    ensures Decoded(s, left) == []
  {
  }

  lemma Append(p: seq<char>, c: char, rest: seq<char>)
    ensures p + ([c] + rest) == (p + [c]) + rest
  {
  }

  lemma OneRound(s: seq<char>, left: size, c: char, taken: nat)
    requires s != [] && left > 0
    requires taken == if IsEscape(s) then 3 else 1
    requires c == if IsEscape(s) then (16 * HexValue(s[1]) + HexValue(s[2])) as char
                  else if s[0] == '+' then ' ' else s[0]
    ensures Decoded(s, left) == [c] + Decoded(s[taken..], Minus(left, taken))
  {
  }

  // ---- decoding without a budget, and when the budget matters ---------------------------------

  function Whole(s: seq<char>): seq<char> {
    if s == [] then [] else [Written(s)] + Whole(s[Taken(s)..])
  }

  /** An escape begins inside the first `len` bytes and ends outside them. */
  predicate Straddles(s: seq<char>, len: nat) {
    s != [] && len > 0 && (Taken(s) > len || Straddles(s[Taken(s)..], len - Taken(s)))
  }

  lemma {:induction false} AmpleBudget(s: seq<char>, len: size)
    requires |s| <= len
    ensures Decoded(s, len) == Whole(s)
  {
    hide Written;
    if s != [] {
      AmpleBudget(s[Taken(s)..], Minus(len, Taken(s)));
    }
  }

  lemma {:induction false} NoStraddle(s: seq<char>, len: nat)
    requires |s| <= len
    ensures !Straddles(s, len)
  {
    if s != [] {
      NoStraddle(s[Taken(s)..], len - Taken(s));
    }
  }

  function UpTo(s: seq<char>, len: nat): seq<char> {
    if |s| <= len then s else s[..len]
  }

  lemma CutStep(s: seq<char>, len: nat)
    requires s != [] && len > 0 && Taken(s) <= len
    ensures var t := UpTo(s, len);
      t != [] && Taken(t) == Taken(s) && Written(t) == Written(s) && t[Taken(s)..] == UpTo(s[Taken(s)..], len - Taken(s))
  {
  }

  lemma MinusIs(len: size, n: nat)
    ensures n <= len ==> Minus(len, n) == len - n
    ensures len < n <= 3 ==> Minus(len, n) == SIZE_MODULUS + len - n
  {
  }

  lemma TakenIs(s: seq<char>)
    requires s != []
    ensures 1 <= Taken(s) <= 3 && Taken(s) <= |s|
  {
  }

  /** The budget counts bytes consumed: what is decoded is the first `len` bytes of the source,
      unless an escape straddles that limit. Then the unsigned budget wraps round and the whole
      source is decoded, however long it is. */
  lemma {:induction false} DecodedExact(s: seq<char>, len: size)
    requires |s| < SIZE_MODULUS
    ensures Decoded(s, len) == if Straddles(s, len) then Whole(s) else Whole(UpTo(s, len))
  {
    hide Written, Taken, Minus, UpTo, IsEscape;
    if s == [] || len == 0 {
      NothingUpTo(s, len);
    } else {
      var n := Taken(s);
      TakenIs(s);
      MinusIs(len, n);
      if n > len {
        AmpleBudget(s[n..], Minus(len, n));
      } else {
        CutStep(s, len);
        DecodedExact(s[n..], len - n);
      }
    }
  }

  lemma NothingUpTo(s: seq<char>, len: nat)
    requires s == [] || len == 0
    ensures UpTo(s, len) == []
  {
  }

  lemma {:induction false} WholeShrinks(s: seq<char>)
    ensures |Whole(s)| <= |s|
  {
    hide Written;
    if s != [] {
      WholeShrinks(s[Taken(s)..]);
    }
  }

  /** At most `len` bytes are written, unless an escape straddles the limit and the whole source
      decodes to more. */
  lemma WritesBounded(s: seq<char>, len: size)
    requires |s| < SIZE_MODULUS
    ensures |Decoded(s, len)| <= len <==> (Straddles(s, len) ==> |Whole(s)| <= len)
    ensures |s| <= len ==> Decoded(s, len) == Whole(s) && |Decoded(s, len)| <= len
  {
    hide Decoded, Whole, Straddles;
    DecodedExact(s, len);
    WholeShrinks(UpTo(s, len));
    if |s| <= len {
      NoStraddle(s, len);
    }
  }

  /** With room for one byte, `%41bc` writes three. */
  lemma StraddleOverflows()
    ensures Straddles("%41bc", 1) && Decoded("%41bc", 1) == "Abc"
  {
    var s := "%41bc";
    assert IsEscape(s) && HexValue('4') == 4 && HexValue('1') == 1;
    assert s[3..] == "bc" && "bc"[1..] == "c" && "c"[1..] == "";
    assert Minus(1, 3) == SIZE_MODULUS - 2;
    assert Minus(SIZE_MODULUS - 2, 1) == SIZE_MODULUS - 3;
    assert Decoded("c", SIZE_MODULUS - 3) == "c" + Decoded("", Minus(SIZE_MODULUS - 3, 1));
    assert Decoded("bc", SIZE_MODULUS - 2) == "b" + Decoded("c", SIZE_MODULUS - 3);
  }

  // ---- encodings ------------------------------------------------------------------------------

  /** The digits of section 2.1, in either case. */
  predicate HexDigit(c: char, v: nat) {
    v < 16 && (c == "0123456789ABCDEF"[v] || c == "0123456789abcdef"[v])
  }

  /** The decoder's digits and their values are those of the table. */
  lemma HexTable(c: char)
    ensures IsHex(c) <==> exists v: nat :: HexDigit(c, v)
    ensures IsHex(c) ==> HexDigit(c, HexValue(c))
    ensures forall v: nat :: HexDigit(c, v) ==> IsHex(c) && v == HexValue(c)
  {
    forall v: nat | HexDigit(c, v) ensures IsHex(c) && v == HexValue(c) {
      HexDigitValue(c, v);
    }
    if IsHex(c) {
      ValueIsHexDigit(c);
    }
  }

  lemma HexDigitValue(c: char, v: nat)
    requires HexDigit(c, v)
    ensures IsHex(c) && v == HexValue(c)
  {
    TableAt(v);
  }

  lemma ValueIsHexDigit(c: char)
    requires IsHex(c)
    ensures HexDigit(c, HexValue(c))
  {
    TableAt(HexValue(c));
  }

  lemma TableAt(v: nat)
    requires v < 16
    ensures "0123456789ABCDEF"[v] as int == if v < 10 then 48 + v else 55 + v
    ensures "0123456789abcdef"[v] as int == if v < 10 then 48 + v else 87 + v
  {
  }

  /** How one byte is written: itself, as `+`, or as an escape with either case of each digit. */
  datatype Form = Literal | Plus | Escaped(high: char, low: char)

  /** Section 2.1 of RFC 3986: an escape stands for the byte with that value. A literal may be any
      byte but `%`, `+` and NUL. */
  ghost predicate Fits(c: char, f: Form) {
    match f
    case Literal => c != '%' && c != '+' && c != NUL
    case Plus => c == ' '
    case Escaped(h, l) => exists a: nat, b: nat :: HexDigit(h, a) && HexDigit(l, b) && c as int == 16 * a + b
  }

  function EncodeByte(c: char, f: Form): seq<char> {
    match f
    case Literal => [c]
    case Plus => "+"
    case Escaped(h, l) => ['%', h, l]
  }

  function Encoding(x: seq<char>, fs: seq<Form>): seq<char>
    requires |fs| == |x|
  {
    if x == [] then [] else EncodeByte(x[0], fs[0]) + Encoding(x[1..], fs[1..])
  }

  lemma EncodedByte(c: char, f: Form, rest: seq<char>)
    requires Fits(c, f)
    ensures var s := EncodeByte(c, f) + rest;
      Taken(s) == |EncodeByte(c, f)| && Written(s) == c && s[Taken(s)..] == rest
  {
    hide HexDigit, HexValue, IsHex;
    if f.Escaped? {
      HexTable(f.high);
      HexTable(f.low);
    }
  }

  /** A `%` without two digits behind it is an ordinary byte. */
  lemma LonePercent(rest: seq<char>)
    ensures var s := ['%'] + rest;
      var escape := |rest| >= 2 && exists a: nat, b: nat :: HexDigit(rest[0], a) && HexDigit(rest[1], b);
      !escape ==> Whole(s) == ['%'] + Whole(rest)
  {
    hide HexDigit, HexValue, IsHex;
    var s := ['%'] + rest;
    assert s[1..] == rest;
    if |rest| >= 2 {
      HexTable(rest[0]);
      HexTable(rest[1]);
    }
  }

  /** Every encoding of every byte string decodes to it. */
  lemma {:induction false} WholeInverts(x: seq<char>, fs: seq<Form>)
    requires |fs| == |x| && forall i :: 0 <= i < |x| ==> Fits(x[i], fs[i])
    ensures Whole(Encoding(x, fs)) == x
  {
    hide Written, Taken, EncodeByte;
    if x != [] {
      var rest := Encoding(x[1..], fs[1..]);
      EncodedByte(x[0], fs[0], rest);
      EncodedNonempty(x[0], fs[0]);
      assert forall i :: 0 <= i < |x[1..]| ==> Fits(x[1..][i], fs[1..][i]);
      WholeInverts(x[1..], fs[1..]);
      assert x == [x[0]] + x[1..];
    }
  }

  lemma EncodedNonempty(c: char, f: Form)
    ensures EncodeByte(c, f) != []
  {
  }

  lemma {:induction false} EncodingNulFree(x: seq<char>, fs: seq<Form>)
    requires |fs| == |x| && forall i :: 0 <= i < |x| ==> Fits(x[i], fs[i])
    ensures NulFree(Encoding(x, fs))
  {
    if x != [] {
      assert forall i :: 0 <= i < |x[1..]| ==> Fits(x[1..][i], fs[1..][i]);
      EncodingNulFree(x[1..], fs[1..]);
      assert NUL !in EncodeByte(x[0], fs[0]);
    }
  }

  /** Where the encodings of the first bytes end. */
  lemma {:induction false} EncodingJoins(x: seq<char>, fs: seq<Form>, k: nat)
    requires |fs| == |x| && k <= |x|
    ensures Encoding(x, fs) == Encoding(x[..k], fs[..k]) + Encoding(x[k..], fs[k..])
  {
    hide EncodeByte;
    if k == 0 {
      assert x[0..] == x && fs[0..] == fs;
    } else {
      EncodingJoins(x[1..], fs[1..], k - 1);
      assert x[1..][..k - 1] == x[..k][1..] && fs[1..][..k - 1] == fs[..k][1..];
      assert x[1..][k - 1..] == x[k..] && fs[1..][k - 1..] == fs[k..];
    }
  }

  /** Percent decoding inverts percent encoding whenever the budget covers the encoded bytes. */
  lemma DecodeInverts(x: seq<char>, fs: seq<Form>, len: size)
    requires |fs| == |x| && forall i :: 0 <= i < |x| ==> Fits(x[i], fs[i])
    requires |Encoding(x, fs)| <= len
    ensures NulFree(Encoding(x, fs))
    ensures Decoded(Encoding(x, fs), len) == x
  {
    EncodingNulFree(x, fs);
    AmpleBudget(Encoding(x, fs), len);
    WholeInverts(x, fs);
  }

  /** A budget that ends after the encoding of the first `k` bytes cuts the result there. */
  lemma DecodeCuts(x: seq<char>, fs: seq<Form>, k: nat)
    requires |fs| == |x| && forall i :: 0 <= i < |x| ==> Fits(x[i], fs[i])
    requires k <= |x| && |Encoding(x, fs)| < SIZE_MODULUS
    ensures |Encoding(x[..k], fs[..k])| < SIZE_MODULUS
    ensures Decoded(Encoding(x, fs), |Encoding(x[..k], fs[..k])|) == x[..k]
  {
    hide Whole, Decoded, Straddles, Encoding;
    var a, b := Encoding(x[..k], fs[..k]), Encoding(x[k..], fs[k..]);
    EncodingJoins(x, fs, k);
    NoStraddleAtEnd(x[..k], fs[..k], b);
    DecodedExact(a + b, |a|);
    assert UpTo(a + b, |a|) == a;
    WholeInverts(x[..k], fs[..k]);
  }

  lemma {:induction false} NoStraddleAtEnd(x: seq<char>, fs: seq<Form>, rest: seq<char>)
    requires |fs| == |x| && forall i :: 0 <= i < |x| ==> Fits(x[i], fs[i])
    ensures !Straddles(Encoding(x, fs) + rest, |Encoding(x, fs)|)
  {
    hide Written, Taken, EncodeByte;
    if x != [] {
      var c, tail := EncodeByte(x[0], fs[0]), Encoding(x[1..], fs[1..]);
      EncodedByte(x[0], fs[0], tail + rest);
      EncodedNonempty(x[0], fs[0]);
      assert Encoding(x, fs) + rest == c + (tail + rest);
      assert forall i :: 0 <= i < |x[1..]| ==> Fits(x[1..][i], fs[1..][i]);
      NoStraddleAtEnd(x[1..], fs[1..], rest);
    }
  }
}
