/** Bytes and NUL-terminated strings, as the C sources see them.
    A byte is a `char`; an array of bytes is a `seq<char>`. */
module CStrings {

  datatype Option<+T> = None | Some(value: T)

  const NUL: char := '\0'

  /** `size_t` arithmetic is modulo this. */
  const SIZE_MODULUS: int := 0x1_0000_0000_0000_0000

  predicate NulFree(s: seq<char>) {
    NUL !in s
  }

  /** The value of a `char *` that points at a terminated string. */
  type cstring = s: seq<char> | NulFree(s) witness []

  /** Offset of the first `c` in `s`, or `|s|` when there is none (`strchr`, `memchr`). */
  function IndexOf(s: seq<char>, c: char): (i: nat)
    ensures i <= |s|
    ensures forall k :: 0 <= k < i ==> s[k] != c
    ensures i < |s| ==> s[i] == c
  {
    if s == [] || s[0] == c then 0 else 1 + IndexOf(s[1..], c)
  }

  /** The string that starts where `s` starts: everything before the first NUL. */
  function CStr(s: seq<char>): (r: cstring)
    ensures |r| <= |s| && r == s[..|r|]
    ensures NulFree(s) ==> r == s
  {
    s[..IndexOf(s, NUL)]
  }

  /** The first `c` of `s + [c] + t` when `s` has none. */
  lemma IndexOfJoin(s: seq<char>, c: char, t: seq<char>)
    requires c !in s
    ensures IndexOf(s + [c] + t, c) == |s|
  {
    var u := s + [c] + t;
    assert u[|s|] == c;
    assert forall k :: 0 <= k < |s| ==> u[k] == s[k];
  }

  lemma CStrAt(s: seq<char>, n: nat)
    requires n < |s| && s[n] == NUL && NulFree(s[..n])
    ensures CStr(s) == s[..n]
  {
    assert forall k :: 0 <= k < n ==> s[k] == s[..n][k];
    assert IndexOf(s, NUL) == n;
  }

  lemma SliceOfSlice<T>(s: seq<T>, a: nat, b: nat, c: nat, d: nat)
    requires a <= b <= |s| && c <= d <= b - a
    ensures s[a..b][c..d] == s[a + c..a + d]
  {
    var t := s[a..b];
    forall i | 0 <= i < d - c ensures t[c..d][i] == s[a + c..a + d][i] {
      assert t[c..d][i] == t[c + i] == s[a + c + i];
    }
  }

  lemma TakeSlice<T>(s: seq<T>, k: nat, c: nat, d: nat)
    requires c <= d <= k <= |s|
    ensures s[..k][c..d] == s[c..d]
  {
    forall i | 0 <= i < d - c ensures s[..k][c..d][i] == s[c..d][i] {
      assert s[..k][c..d][i] == s[..k][c + i] == s[c + i];
    }
  }

  lemma DropSlice<T>(s: seq<T>, k: nat, c: nat, d: nat)
    requires k <= c <= d <= |s|
    ensures s[k..][c - k..d - k] == s[c..d]
  {
    forall i | 0 <= i < d - c ensures s[k..][c - k..d - k][i] == s[c..d][i] {
      assert s[k..][c - k..d - k][i] == s[k..][c - k + i] == s[c + i];
    }
  }

  lemma DropTwice<T>(s: seq<T>, m: nat, n: nat)
    requires m + n <= |s|
    ensures s[m..][n..] == s[m + n..]
  {
  }

  /** The memory `b` holds a string from `from` on that ends at `n`. */
  ghost predicate Terminated(b: seq<char>, from: nat, n: nat) {
    from <= n < |b| && b[n] == NUL && NulFree(b[from..n])
  }

  lemma SameSuffix(b: seq<char>, b': seq<char>, next: nat, n: nat)
    requires Terminated(b, next, n) && next <= |b'| && b'[next..] == b[next..]
    ensures Terminated(b', next, n) && b'[next..n] == b[next..n]
  {
    assert |b'| == |b|;
    DropSlice(b, next, next, n);
    DropSlice(b', next, next, n);
    assert b'[n] == b'[next..][n - next];
  }

  lemma SamePrefix(b: seq<char>, b': seq<char>, at: nat, n: nat, k: nat)
    requires Terminated(b, at, n) && n < k <= |b| && k <= |b'| && b'[..k] == b[..k]
    ensures Terminated(b', at, n) && b'[at..n] == b[at..n]
  {
    TakeSlice(b, k, at, n);
    TakeSlice(b', k, at, n);
    assert b'[n] == b'[..k][n];
  }

  lemma StringAt(b: seq<char>, at: nat, n: nat)
    requires Terminated(b, at, n)
    ensures CStr(b[at..]) == b[at..n]
  {
    assert b[at..][..n - at] == b[at..n];
    CStrAt(b[at..], n - at);
  }

  /** `strchr`: the offset of the first `c`, or of the end of the string. */
  method Seek(buf: array<char>, from: nat, ghost n: nat, c: char) returns (i: nat)
    requires Terminated(buf[..], from, n) && c != NUL
    ensures i == from + IndexOf(buf[..][from..n], c)
  {
    ghost var s := buf[..][from..n];
    assert forall k :: from <= k < n ==> buf[k] == s[k - from];
    i := from;
    while buf[i] != NUL && buf[i] != c
      invariant from <= i <= n
      invariant forall k :: from <= k < i ==> buf[k] != c
      decreases n - i
    {
      i := i + 1;
    }
    assert forall k :: 0 <= k < i - from ==> s[k] == buf[from + k];
  }

  method Strlen(buf: array<char>, from: nat, ghost n: nat) returns (len: nat)
    requires Terminated(buf[..], from, n)
    ensures from + len == n
  {
    ghost var s := buf[..][from..n];
    assert forall k :: from <= k < n ==> buf[k] == s[k - from];
    len := 0;
    while buf[from + len] != NUL
      invariant from + len <= n
      decreases n - len
    {
      len := len + 1;
    }
  }

  // ---- trimming -----------------------------------------------------------------------------

  function TrimLeft(s: seq<char>, blanks: set<char>): (r: seq<char>)
    ensures |r| <= |s| && (NulFree(s) ==> NulFree(r))
  {
    if s != [] && s[0] in blanks then TrimLeft(s[1..], blanks) else s
  }

  function TrimRight(s: seq<char>, blanks: set<char>): (r: seq<char>)
    ensures |r| <= |s| && (NulFree(s) ==> NulFree(r))
  {
    if s != [] && s[|s| - 1] in blanks then TrimRight(s[..|s| - 1], blanks) else s
  }

  lemma {:induction false} TrimLeftIs(s: seq<char>, blanks: set<char>, i: nat)
    requires i <= |s| && (forall k :: 0 <= k < i ==> s[k] in blanks) && (i < |s| ==> s[i] !in blanks)
    ensures TrimLeft(s, blanks) == s[i..]
  {
    if i > 0 {
      TrimLeftIs(s[1..], blanks, i - 1);
      assert s[1..][i - 1..] == s[i..];
    }
  }

  lemma {:induction false} TrimRightIs(s: seq<char>, blanks: set<char>, i: nat)
    requires i <= |s| && (forall k :: i <= k < |s| ==> s[k] in blanks) && (i > 0 ==> s[i - 1] !in blanks)
    ensures TrimRight(s, blanks) == s[..i]
  {
    if i < |s| {
      TrimRightIs(s[..|s| - 1], blanks, i);
      assert s[..|s| - 1][..i] == s[..i];
    } else {
      assert s[..i] == s;
    }
  }

  lemma TrimNothing(s: seq<char>, blanks: set<char>)
    requires s != [] && s[0] !in blanks && s[|s| - 1] !in blanks
    ensures TrimLeft(s, blanks) == s && TrimRight(s, blanks) == s
  {
  }
}
