/** `memmemx`: substring search with a running window length (lib/utils.c). */
module Memmem {
  import opened CStrings

  /** `Overrun`: the search read past the memory that belongs to the caller. */
  datatype Search = Found(at: nat) | Missing | Overrun

  datatype Comparison = Equal | Differs | Beyond

  function Min(a: int, b: int): int {
    if a < b then a else b
  }

  /** `mem[q..]` and the needle agree on every byte that `mem` still has. */
  predicate Agrees(mem: seq<char>, needle: cstring, q: nat)
    requires q <= |mem|
  {
    var n := Min(|needle|, |mem| - q);
    mem[q..q + n] == needle[..n]
  }

  /** `strncmp(mem + q, needle, needle_len) == 0`, for a needle without NUL. */
  function Compare(mem: seq<char>, needle: cstring, q: nat): Comparison
    requires q <= |mem|
  {
    if !Agrees(mem, needle, q) then Differs
    else if q + |needle| <= |mem| then Equal
    else Beyond
  }

  /** The first offset of `c` from `pos` on, or `|mem|`. */
  function NextAt(mem: seq<char>, c: char, pos: nat): (q: nat)
    requires pos <= |mem|
    ensures pos <= q <= |mem|
    ensures q < |mem| ==> mem[q] == c
    ensures forall i :: pos <= i < q ==> mem[i] != c
    decreases |mem| - pos
  {
    if pos == |mem| || mem[pos] == c then pos else NextAt(mem, c, pos + 1)
  }

  /** `memchr(mem + pos, c, n)` */
  function Memchr(mem: seq<char>, c: char, pos: nat, n: nat): Search
    requires pos <= |mem|
  {
    var q := NextAt(mem, c, pos);
    if q - pos >= n then Missing
    else if q == |mem| then Overrun
    else Found(q)
  }

  function Shrink(n: int, used: int): nat {
    (n - used) % SIZE_MODULUS
  }

  /** The retry loop, started at `pos` with `n` bytes left in the running window. */
  function Scan(mem: seq<char>, needle: cstring, pos: nat, n: nat): (r: Search)
    requires pos <= |mem| && needle != []
    ensures r.Found? ==> pos <= r.at < |mem| && Compare(mem, needle, r.at).Equal?
    decreases |mem| - pos
  {
    var c := Memchr(mem, needle[0], pos, n);
    if !c.Found? then c
    else match Compare(mem, needle, c.at)
      case Equal => c
      case Beyond => Overrun
      case Differs => Scan(mem, needle, c.at + 1, Shrink(n, c.at + 1))
  }

  function Lookup(mem: seq<char>, len: nat, needle: cstring): (r: Search)
    requires len <= |mem|
    ensures r.Found? ==> r.at + |needle| <= |mem| && mem[r.at..r.at + |needle|] == needle
  {
    if needle == [] then Found(0)
    else if len < |needle| then Missing
    else Scan(mem, needle, 0, len)
  }

  /** The loop of lib/utils.c. `mem` runs from the haystack to the end of its allocation. */
  method Memmemx(mem: seq<char>, len: nat, needle: cstring) returns (r: Search)
    requires len <= |mem|
    ensures r == Lookup(mem, len, needle)
  {
    if |needle| == 0 {
      return Found(0);
    }
    if len < |needle| {
      return Missing;
    }
    var pos, n := 0, len;
    r := Memchr(mem, needle[0], pos, n);
    while r.Found?
      invariant pos <= |mem|
      invariant r == Memchr(mem, needle[0], pos, n)
      invariant Scan(mem, needle, 0, len) == Scan(mem, needle, pos, n)
      decreases |mem| - pos
    {
      var cmp := Compare(mem, needle, r.at);
      if cmp.Equal? {
        return;
      }
      if cmp.Beyond? {
        return Overrun;
      }
      pos := r.at + 1;
      n := Shrink(n, pos);
      r := Memchr(mem, needle[0], pos, n);
    }
  }

  // ---- what a substring search should return ------------------------------------------

  predicate Occurs(window: seq<char>, needle: cstring, i: nat) {
    i + |needle| <= |window| && window[i..i + |needle|] == needle
  }

  /** `r` is the first occurrence of the needle inside the window, or `Missing`. */
  ghost predicate IsFirst(window: seq<char>, needle: cstring, r: Search) {
    match r
    case Found(m) => Occurs(window, needle, m) && forall i :: 0 <= i < m ==> !Occurs(window, needle, i)
    case Missing => forall i: nat :: !Occurs(window, needle, i)
    case Overrun => false
  }

  // ---- when the code meets it ----------------------------------------------------------

  /** The first offset from `pos` on where the memory agrees with the needle, or its end. */
  function FirstAgreement(mem: seq<char>, needle: cstring, pos: nat): (m: nat)
    requires pos <= |mem|
    ensures pos <= m <= |mem|
    ensures forall i :: pos <= i < m ==> !Agrees(mem, needle, i)
    ensures m < |mem| ==> Agrees(mem, needle, m)
    decreases |mem| - pos
  {
    if pos == |mem| || Agrees(mem, needle, pos) then pos else FirstAgreement(mem, needle, pos + 1)
  }

  /** A candidate is an offset of the needle's first byte `c`. Each candidate up to `m` lies
      inside the running window when its turn comes. */
  predicate Reaches(mem: seq<char>, c: char, pos: nat, n: nat, m: nat)
    requires pos <= |mem| && m <= |mem|
    decreases |mem| - pos
  {
    var q := NextAt(mem, c, pos);
    q <= m && q - pos < n && (q == m || Reaches(mem, c, q + 1, Shrink(n, q + 1), m))
  }

  /** The condition, on the offsets of the needle's first byte: the first agreement, or the end
      of the memory, is reached exactly when it is a match inside the window. */
  predicate Sound(mem: seq<char>, len: nat, needle: cstring)
    requires len <= |mem| && needle != []
  {
    var m := FirstAgreement(mem, needle, 0);
    Reaches(mem, needle[0], 0, len, m) <==> m + |needle| <= len
  }

  lemma AgreesFirst(mem: seq<char>, needle: cstring, q: nat)
    requires q < |mem| && needle != [] && Agrees(mem, needle, q)
    ensures mem[q] == needle[0]
  {
    var n := Min(|needle|, |mem| - q);
    assert mem[q..q + n][0] == needle[..n][0];
  }

  /** What the loop returns once it reaches an agreement. */
  function Outcome(mem: seq<char>, needle: cstring, m: nat): Search {
    if m + |needle| <= |mem| then Found(m) else Overrun
  }

  /** `m` is the first agreement from `pos` on, or the end of the memory. */
  ghost predicate Stop(mem: seq<char>, needle: cstring, pos: nat, m: nat) {
    && pos <= m <= |mem|
    && (forall i :: pos <= i < m ==> !Agrees(mem, needle, i))
    && (m < |mem| ==> Agrees(mem, needle, m))
  }

  lemma NextBeforeStop(mem: seq<char>, needle: cstring, pos: nat, m: nat)
    requires needle != [] && Stop(mem, needle, pos, m)
    ensures var q := NextAt(mem, needle[0], pos);
      q <= m && (q < m ==> Stop(mem, needle, q + 1, m))
  {
    hide Agrees;
    if m < |mem| {
      AgreesFirst(mem, needle, m);
    }
  }

  /** One round of the loop, with `q` the next candidate. */
  lemma ScanStep(mem: seq<char>, needle: cstring, pos: nat, n: nat)
    requires pos <= |mem| && needle != []
    ensures var q := NextAt(mem, needle[0], pos);
      Scan(mem, needle, pos, n) ==
      if q - pos >= n then Missing
      else if q == |mem| then Overrun
      else if Agrees(mem, needle, q) then Outcome(mem, needle, q)
      else Scan(mem, needle, q + 1, Shrink(n, q + 1))
  {
    hide Agrees;
  }

  /** The loop from `pos` with `n` bytes left in the running window. */
  lemma {:induction false} ScanIs(mem: seq<char>, needle: cstring, pos: nat, n: nat, m: nat)
    requires needle != [] && Stop(mem, needle, pos, m)
    ensures Scan(mem, needle, pos, n) ==
            if Reaches(mem, needle[0], pos, n, m) then Outcome(mem, needle, m) else Missing
    decreases |mem| - pos
  {
    hide Agrees, Scan, NextAt;
    var q := NextAt(mem, needle[0], pos);
    ScanStep(mem, needle, pos, n);
    NextBeforeStop(mem, needle, pos, m);
    if q < m && q - pos < n {
      ScanIs(mem, needle, q + 1, Shrink(n, q + 1), m);
    }
  }

  lemma OccursAgrees(mem: seq<char>, len: nat, needle: cstring, i: nat)
    requires len <= |mem|
    ensures Occurs(mem[..len], needle, i) <==> i + |needle| <= len && Agrees(mem, needle, i)
  {
    if i + |needle| <= len {
      assert mem[..len][i..i + |needle|] == mem[i..i + |needle|];
      assert needle[..|needle|] == needle;
    }
  }

  /** `memmemx` returns the first occurrence inside the window, or null when there is none,
      exactly for the inputs that satisfy `Sound`. */
  lemma MemmemxExact(mem: seq<char>, len: nat, needle: cstring)
    requires len <= |mem|
    ensures IsFirst(mem[..len], needle, Lookup(mem, len, needle)) <==>
            needle == [] || len < |needle| || Sound(mem, len, needle)
  {
    hide Agrees, Scan, Reaches;
    if needle == [] {
      assert mem[..len][0..0] == needle;
    } else if |needle| <= len {
      var m := FirstAgreement(mem, needle, 0);
      ScanIs(mem, needle, 0, len, m);
      forall i: nat
        ensures Occurs(mem[..len], needle, i) <==> i + |needle| <= len && Agrees(mem, needle, i)
      {
        OccursAgrees(mem, len, needle, i);
      }
    }
  }

  lemma ReachesStep(mem: seq<char>, c: char, pos: nat, n: nat, m: nat)
    requires pos <= |mem| && m <= |mem|
    ensures var q := NextAt(mem, c, pos);
      Reaches(mem, c, pos, n, m) <==>
      q <= m && q - pos < n && (q == m || Reaches(mem, c, q + 1, Shrink(n, q + 1), m))
  {
    hide NextAt, Shrink;
  }

  /** With at most one candidate in front of `m` and of the window's end, the window says whether
      `m` is reached. */
  lemma ReachesWithin(mem: seq<char>, c: char, len: nat, m: nat)
    requires len <= |mem| < SIZE_MODULUS && m <= |mem|
    requires var q := NextAt(mem, c, 0);
      && q <= m && (q < m ==> NextAt(mem, c, q + 1) <= m)
      && (q < Min(m, len) ==> Min(m, len) <= NextAt(mem, c, q + 1))
    ensures Reaches(mem, c, 0, len, m) <==> m < len
  {
    hide NextAt, Reaches;
    var q := NextAt(mem, c, 0);
    ReachesStep(mem, c, 0, len, m);
    if q < m && q < len {
      assert Shrink(len, q + 1) == len - (q + 1);
      ReachesStep(mem, c, q + 1, len - (q + 1), m);
    }
  }

  /** No candidate search runs past the first agreement. */
  lemma NextReaches(mem: seq<char>, needle: cstring, pos: nat)
    requires needle != [] && pos <= FirstAgreement(mem, needle, 0)
    ensures NextAt(mem, needle[0], pos) <= FirstAgreement(mem, needle, 0)
  {
    hide Agrees, NextAt, FirstAgreement;
    var m := FirstAgreement(mem, needle, 0);
    if m < |mem| {
      AgreesFirst(mem, needle, m);
    }
  }

  /** At most one false candidate in front of the first agreement or of the window's end, and no
      match across that end. */
  lemma OneFalseCandidateIsSound(mem: seq<char>, len: nat, needle: cstring)
    requires len <= |mem| < SIZE_MODULUS && needle != []
    requires var m := FirstAgreement(mem, needle, 0);
      var q := NextAt(mem, needle[0], 0);
      && (q < Min(m, len) ==> Min(m, len) <= NextAt(mem, needle[0], q + 1))
      && (m < len ==> m + |needle| <= len)
    ensures IsFirst(mem[..len], needle, Lookup(mem, len, needle))
  {
    hide Agrees, NextAt, FirstAgreement, Lookup, IsFirst, Reaches, NulFree;
    var m := FirstAgreement(mem, needle, 0);
    var q := NextAt(mem, needle[0], 0);
    NextReaches(mem, needle, 0);
    if q < m {
      NextReaches(mem, needle, q + 1);
    }
    ReachesWithin(mem, needle[0], len, m);
    MemmemxExact(mem, len, needle);
  }

  // ---- the wrap -------------------------------------------------------------------------

  /** The window of a retry: the remainder of `n - used` modulo 2^64, so below zero it is huge. */
  lemma ShrinkIs(n: nat, used: nat)
    ensures 0 <= Shrink(n, used) < 0x1_0000_0000_0000_0000
    ensures (Shrink(n, used) - (n - used)) % 0x1_0000_0000_0000_0000 == 0
    ensures used <= n < 0x1_0000_0000_0000_0000 ==> Shrink(n, used) == n - used
    ensures n < used <= 0x1_0000_0000_0000_0000 ==> Shrink(n, used) == 0x1_0000_0000_0000_0000 + n - used
  {
    var d := n - used;
    assert d == SIZE_MODULUS * (d / SIZE_MODULUS) + d % SIZE_MODULUS;
    assert (d % SIZE_MODULUS - d) == SIZE_MODULUS * (-(d / SIZE_MODULUS));
  }

  /** With a wrapped window, and memory below 2^32 bytes, no later candidate is out of reach. */
  lemma {:induction false} ScanWrapped(mem: seq<char>, needle: cstring, pos: nat, n: nat, m: nat)
    requires needle != [] && |mem| < 0x1_0000_0000 && Stop(mem, needle, pos, m)
    requires 0x1_0000_0000_0000_0000 - pos * 0x1_0000_0000 <= n < 0x1_0000_0000_0000_0000
    ensures Scan(mem, needle, pos, n) == Outcome(mem, needle, m)
    decreases |mem| - pos
  {
    hide Agrees, Scan, NextAt, Shrink;
    var q := NextAt(mem, needle[0], pos);
    ScanStep(mem, needle, pos, n);
    NextBeforeStop(mem, needle, pos, m);
    if q < m {
      ShrinkIs(n, q + 1);
      ScanWrapped(mem, needle, q + 1, Shrink(n, q + 1), m);
    }
  }

  /** Two false candidates whose offsets together exceed the window: the search then returns the next
      agreement wherever it stands in the memory, or runs over its end. */
  lemma WrappedSearch(mem: seq<char>, len: nat, needle: cstring, q1: nat, q2: nat)
    requires needle != [] && |needle| <= len <= |mem| < 0x1_0000_0000
    requires q1 < q2 < len < q1 + q2 + 2 && mem[q1] == mem[q2] == needle[0]
    requires forall i :: 0 <= i < q2 && i != q1 ==> mem[i] != needle[0]
    requires !Agrees(mem, needle, q1) && !Agrees(mem, needle, q2)
    ensures var m := FirstAgreement(mem, needle, q2 + 1);
      Lookup(mem, len, needle) == if m + |needle| <= |mem| then Found(m) else Overrun
  {
    hide Agrees, Scan, NextAt, Shrink, FirstAgreement;
    NextAtIs(mem, needle[0], 0, q1);
    NextAtIs(mem, needle[0], q1 + 1, q2);
    ScanStep(mem, needle, 0, len);
    ShrinkIs(len, q1 + 1);
    ScanStep(mem, needle, q1 + 1, len - (q1 + 1));
    ShrinkIs(len - (q1 + 1), q2 + 1);
    ScanWrapped(mem, needle, q2 + 1, Shrink(len - (q1 + 1), q2 + 1), FirstAgreement(mem, needle, q2 + 1));
  }

  /** Two bare colons in a line: the search for ": " leaves the line and finds the next one's. */
  lemma TwoColons(a: seq<char>, b: seq<char>, c: seq<char>, d: seq<char>, len: nat)
    requires ':' !in a && ':' !in b && ':' !in c && b != [] && b[0] != ' ' && c != [] && c[0] != ' '
    requires |a| + |b| + 1 < len <= |a| + |b| + |c| + 2 && len < 2 * |a| + |b| + 3
    requires |a + [':'] + b + [':'] + c + ": " + d| < 0x1_0000_0000
    ensures Lookup(a + [':'] + b + [':'] + c + ": " + d, len, ": ") == Found(|a| + |b| + |c| + 2)
  {
    var needle: cstring := ": ";
    hide Lookup, Agrees, NulFree;
    var mem := a + [':'] + b + [':'] + c + ": " + d;
    var q1, q2, m := |a|, |a| + |b| + 1, |a| + |b| + |c| + 2;
    assert mem[q1] == ':' && mem[q1 + 1] == b[0] && mem[q2] == ':' && mem[q2 + 1] == c[0];
    assert mem[m] == ':' && mem[m + 1] == ' ';
    NoColons(a, b, c, d);
    SeparatorAgrees(mem, q1);
    SeparatorAgrees(mem, q2);
    SeparatorAgrees(mem, m);
    forall i | q2 < i < m ensures !Agrees(mem, needle, i) {
      SeparatorAgrees(mem, i);
    }
    WrappedSearch(mem, len, needle, q1, q2);
  }

  lemma NoColons(a: seq<char>, b: seq<char>, c: seq<char>, d: seq<char>)
    requires ':' !in a && ':' !in b && ':' !in c
    ensures var mem := a + [':'] + b + [':'] + c + ": " + d;
      forall i :: 0 <= i < |a| + |b| + |c| + 2 && i != |a| && i != |a| + |b| + 1 ==> mem[i] != ':'
  {
  }

  lemma SeparatorAgrees(mem: seq<char>, q: nat)
    requires q + 2 <= |mem|
    ensures Agrees(mem, ": ", q) <==> mem[q] == ':' && mem[q + 1] == ' '
  {
    AgreesTwo(mem, ": ", q);
  }

  function HostLine(): seq<char> {
    "Host" + [':'] + "localhost" + [':'] + "8080\r\nA" + ": " + "b\r\n\r\n"
  }

  /** `Host:localhost:8080` is nineteen bytes long; the match is in the line behind it. */
  lemma TwoColonsLeaveTheLine()
    ensures Lookup(HostLine(), 19, ": ") == Found(22)
  {
    TwoColons("Host", "localhost", "8080\r\nA", "b\r\n\r\n", 19);
  }

  lemma AgreesTwo(mem: seq<char>, needle: cstring, q: nat)
    requires |needle| == 2 && q + 2 <= |mem|
    ensures Agrees(mem, needle, q) <==> mem[q] == needle[0] && mem[q + 1] == needle[1]
  {
    assert needle[..2] == needle;
    assert mem[q..q + 2] == [mem[q], mem[q + 1]];
  }

  lemma NextAtIs(mem: seq<char>, c: char, pos: nat, q: nat)
    requires pos <= q < |mem| && mem[q] == c
    requires forall i :: pos <= i < q ==> mem[i] != c
    ensures NextAt(mem, c, pos) == q
  {
  }

  /** Two lone CRs before the CRLF: the running window has shrunk past the line end. */
  lemma TwoFalseCandidatesMiss(mem: seq<char>, needle: cstring)
    requires mem == "x\r\rab\r\n" && needle == "\r\n"
    ensures Occurs(mem, needle, 5) && Lookup(mem, |mem|, needle) == Missing
  {
    NextAtIs(mem, '\r', 0, 1);
    NextAtIs(mem, '\r', 2, 2);
    NextAtIs(mem, '\r', 3, 5);
    assert mem[1..3] != needle by { assert mem[1..3][1] == '\r'; }
    assert mem[2..4] != needle by { assert mem[2..4][1] == 'a'; }
    assert needle[..2] == needle;
    assert Shrink(7, 2) == 5 && Shrink(5, 3) == 2;
    assert Scan(mem, needle, 3, 2) == Missing;
    assert Scan(mem, needle, 2, 5) == Missing;
  }

  /** The first byte of the needle occurs first where the needle does: no false candidate.
      The match may reach beyond the window. */
  lemma LookupFirst(mem: seq<char>, len: nat, needle: cstring, at: nat)
    requires needle != [] && |needle| <= len && at < len <= |mem| && at + |needle| <= |mem|
    requires needle[0] !in mem[..at] && mem[at..at + |needle|] == needle
    ensures Lookup(mem, len, needle) == Found(at)
  {
    assert forall i :: 0 <= i < at ==> mem[i] == mem[..at][i];
    assert mem[at] == mem[at..at + |needle|][0];
    NextAtIs(mem, needle[0], 0, at);
    assert needle[..|needle|] == needle;
  }

  /** A false candidate on the window's last byte ends the search. */
  lemma LookupLastByte(mem: seq<char>, len: nat, needle: cstring)
    requires |needle| == 2 && 2 <= len < |mem|
    requires needle[0] !in mem[..len - 1] && mem[len - 1] == needle[0] && mem[len] != needle[1]
    ensures Lookup(mem, len, needle) == Missing
  {
    assert forall i :: 0 <= i < len - 1 ==> mem[i] == mem[..len - 1][i];
    NextAtIs(mem, needle[0], 0, len - 1);
    assert mem[len - 1..len + 1][1] == mem[len] && needle[..2][1] == needle[1];
    assert !Agrees(mem, needle, len - 1);
    assert Shrink(len, len) == 0;
    assert Scan(mem, needle, len, 0) == Missing;
  }

  /** A single candidate that is false, anywhere in the window. */
  lemma LookupOneFalse(mem: seq<char>, len: nat, needle: cstring, q: nat)
    requires needle != [] && |needle| <= len <= |mem| && len < SIZE_MODULUS
    requires q < len && mem[q] == needle[0] && !Agrees(mem, needle, q)
    requires forall i :: 0 <= i < len && i != q ==> mem[i] != needle[0]
    ensures Lookup(mem, len, needle) == Missing
  {
    hide Agrees, Scan, NextAt, Shrink;
    NextAtIs(mem, needle[0], 0, q);
    ScanStep(mem, needle, 0, len);
    ShrinkIs(len, q + 1);
    ScanStep(mem, needle, q + 1, len - (q + 1));
  }

  /** A false candidate on the last byte of the memory is compared beyond it. */
  lemma LookupMemoryEnd(mem: seq<char>, needle: cstring)
    requires |needle| == 2 <= |mem|
    requires needle[0] !in mem[..|mem| - 1] && mem[|mem| - 1] == needle[0]
    ensures Lookup(mem, |mem|, needle) == Overrun
  {
    var q := |mem| - 1;
    assert forall i :: 0 <= i < q ==> mem[i] == mem[..q][i];
    NextAtIs(mem, needle[0], 0, q);
    assert mem[q..q + 1] == needle[..1];
  }

  /** Without the needle's first byte in the window there is nothing to find. */
  lemma LookupNone(mem: seq<char>, len: nat, needle: cstring)
    requires needle != [] && len <= |mem| && needle[0] !in mem[..len]
    ensures Lookup(mem, len, needle) == Missing
  {
    assert forall i :: 0 <= i < len ==> mem[i] == mem[..len][i];
  }
}
