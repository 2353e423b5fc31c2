/** The configuration loader (lib/config_loader.c): parsing each line in place. */
module ConfigLoader {
  import opened CStrings
  import opened ConfigFiles

  /** `str` moves over leading blanks. */
  method SkipBlanks(buf: array<char>, from: nat, ghost n: nat) returns (at: nat)
    requires Terminated(buf[..], from, n)
    ensures from <= at <= n && Terminated(buf[..], at, n)
    ensures NulFree(buf[from..n]) && buf[at..n] == TrimLeft(buf[from..n], BLANKS)
    ensures at < n ==> !IsBlank(buf[at])
  {
    assert buf[..][from..n] == buf[from..n];
    ghost var s: cstring := buf[from..n];
    at := from;
    while IsBlank(buf[at])
      invariant from <= at <= n
      invariant forall k :: from <= k < at ==> IsBlank(buf[k])
      decreases n - at
    {
      at := at + 1;
    }
    TrimLeftIs(s, BLANKS, at - from);
    assert s[at - from..] == buf[at..n] == buf[..][at..n];
  }

  /** `end` moves back over trailing blanks; the offset behind it. */
  method LastNonBlank(buf: array<char>, from: nat, n: nat) returns (stop: nat)
    requires Terminated(buf[..], from, n) && from < n && !IsBlank(buf[from])
    ensures from < stop <= n
    ensures NulFree(buf[from..n]) && buf[from..stop] == TrimRight(buf[from..n], BLANKS)
  {
    assert buf[..][from..n] == buf[from..n];
    ghost var s: cstring := buf[from..n];
    stop := n;
    while stop - 1 > from && IsBlank(buf[stop - 1])
      invariant from < stop <= n
      invariant forall k :: stop <= k < n ==> IsBlank(buf[k])
    {
      stop := stop - 1;
    }
    TrimRightIs(s, BLANKS, stop - from);
    assert s[..stop - from] == buf[from..stop];
  }

  /** Writing the terminator at `m`. */
  lemma Terminate(b: seq<char>, at: nat, m: nat, n: nat)
    requires Terminated(b, at, n) && at <= m <= n
    ensures var b' := b[m := NUL];
      Terminated(b', at, m) && b'[at..m] == b[at..m] && b'[m + 1..] == b[m + 1..] && b'[..at] == b[..at]
  {
    assert b[at..m] == b[at..n][..m - at];
    assert b[m := NUL][at..m] == b[at..m];
  }

  method TrimWhitespace(buf: array<char>, from: nat, ghost n: nat) returns (at: nat, ghost m: nat)
    requires Terminated(buf[..], from, n)
    modifies buf
    ensures from <= at <= m <= n && Terminated(buf[..], at, m)
    ensures old(NulFree(buf[from..n])) && buf[at..m] == Trim(old(buf[from..n]))
    ensures buf[n + 1..] == old(buf[n + 1..]) && buf[..from] == old(buf[..from])
  {
    hide TrimLeft, NulFree, IsBlank;
    at := SkipBlanks(buf, from, n);
    m := n;
    if buf[at] == NUL {
      return;
    }
    var len := Strlen(buf, at, n);
    var stop := LastNonBlank(buf, at, at + len);
    Terminate(buf[..], at, stop, n);
    buf[stop] := NUL;
    m := stop;
  }

  method RemoveQuotes(buf: array<char>, from: nat, ghost n: nat) returns (at: nat, ghost m: nat)
    requires Terminated(buf[..], from, n)
    modifies buf
    ensures at <= m <= n && Terminated(buf[..], at, m)
    ensures old(NulFree(buf[from..n])) && buf[at..m] == Unquote(old(buf[from..n]))
    ensures buf[..from] == old(buf[..from])
  {
    hide NulFree;
    ghost var s := buf[..][from..n];
    assert s == buf[from..n];
    var len := Strlen(buf, from, n);
    at, m := from, n;
    if len >= 2 && ((buf[from] == '"' && buf[from + len - 1] == '"') || (buf[from] == '\'' && buf[from + len - 1] == '\'')) {
      Unquoted(buf[..], from, n);
      Terminate(buf[..], from, n - 1, n);
      buf[from + len - 1] := NUL;
      at, m := from + 1, n - 1;
    }
  }

  lemma Unquoted(b: seq<char>, from: nat, n: nat)
    requires Terminated(b, from, n) && IsQuoted(b[from..n])
    ensures var b' := b[n - 1 := NUL];
      Terminated(b', from + 1, n - 1) && b'[from + 1..n - 1] == Unquote(b[from..n])
  {
    var s := b[from..n];
    assert b[n - 1 := NUL][from + 1..n - 1] == b[from + 1..n - 1];
    SliceOfSlice(b, from, n, 1, |s| - 1);
  }

  lemma LineTests(b: seq<char>, at: nat, n: nat)
    requires Terminated(b, at, n)
    ensures b[at] == '#' || b[at] == NUL <==> b[at..n] == [] || b[at..n][0] == '#'
    ensures var i := at + IndexOf(b[at..n], ':');
      b[i] == NUL <==> i == n
  {
    var line := b[at..n];
    assert at < n ==> line[0] == b[at];
    var i := IndexOf(line, ':');
    assert i < |line| ==> line[i] == b[at + i];
  }

  /** `*colon = '\0'` leaves two strings. */
  lemma CutAtColon(b: seq<char>, at: nat, colon: nat, n: nat)
    requires Terminated(b, at, n) && at <= colon < n
    ensures var b' := b[colon := NUL];
      && Terminated(b', at, colon) && b'[at..colon] == b[at..n][..colon - at]
      && Terminated(b', colon + 1, n) && b'[colon + 1..n] == b[at..n][colon - at + 1..]
  {
    var b' := b[colon := NUL];
    assert b'[at..colon] == b[at..n][..colon - at];
    assert b'[colon + 1..n] == b[at..n][colon - at + 1..];
  }

  /** Cuts the line at its first colon, in place: the key and the value, trimmed and unquoted. */
  method SplitLine(buf: array<char>, at: nat, ghost n: nat) returns (found: bool, key: nat, text: nat)
    requires Terminated(buf[..], at, n)
    modifies buf
    ensures var line := old(buf[at..n]);
      var i := IndexOf(line, ':');
      && NulFree(line) && key <= buf.Length && text <= buf.Length
      && (found <==> i < |line| && line[0] != '#')
      && (found ==> CStr(buf[key..]) == Trim(line[..i]) && CStr(buf[text..]) == Unquote(Trim(line[i + 1..])))
  {
    found, key, text := false, 0, 0;
    ghost var b0 := buf[..];
    assert b0[at..n] == buf[at..n];
    LineTests(b0, at, n);
    assert at <= n < buf.Length && NulFree(b0[at..n]);
    hide Trim, Unquote, NulFree, Terminated, IndexOf, CStr;
    if buf[at] == '#' || buf[at] == NUL {
      return;
    }
    var colon := Seek(buf, at, n, ':');
    if buf[colon] == NUL {
      return;
    }
    CutAtColon(b0, at, colon, n);
    buf[colon] := NUL;
    key, text := TakeParts(buf, at, colon, n);
    found := true;
  }

  /** `buf` holds the key from `at` and the value behind `colon`. */
  method TakeParts(buf: array<char>, at: nat, colon: nat, ghost n: nat) returns (key: nat, text: nat)
    requires Terminated(buf[..], at, colon) && Terminated(buf[..], colon + 1, n)
    modifies buf
    ensures key <= buf.Length && text <= buf.Length
    ensures old(NulFree(buf[at..colon])) && CStr(buf[key..]) == Trim(old(buf[at..colon]))
    ensures old(NulFree(buf[colon + 1..n])) && CStr(buf[text..]) == Unquote(Trim(old(buf[colon + 1..n])))
  {
    ghost var b1 := buf[..];
    assert b1[at..colon] == buf[at..colon] && b1[colon + 1..n] == buf[colon + 1..n];
    assert colon < n < buf.Length;
    hide Trim, Unquote, NulFree, CStr;
    ghost var k, t;
    key, k := TrimWhitespace(buf, at, colon);
    ghost var b2 := buf[..];
    assert b2[colon + 1..] == b1[colon + 1..];
    SameSuffix(b1, b2, colon + 1, n);
    text, t := TakeValue(buf, colon + 1, n);
    KeepString(b2, buf[..], key, k, colon + 1);
    StringAt(buf[..], text, t);
    assert buf[key..] == buf[..][key..] && buf[text..] == buf[..][text..];
  }

  lemma KeepString(b: seq<char>, b': seq<char>, at: nat, n: nat, k: nat)
    requires Terminated(b, at, n) && n < k <= |b| && k <= |b'| && b'[..k] == b[..k]
    ensures CStr(b'[at..]) == b[at..n]
  {
    SamePrefix(b, b', at, n, k);
    StringAt(b', at, n);
  }

  method TakeValue(buf: array<char>, from: nat, ghost n: nat) returns (at: nat, ghost m: nat)
    requires Terminated(buf[..], from, n)
    modifies buf
    ensures at <= m && Terminated(buf[..], at, m) && buf[..from] == old(buf[..from])
    ensures old(NulFree(buf[from..n])) && buf[..][at..m] == Unquote(Trim(old(buf[from..n])))
  {
    hide Trim, Unquote, NulFree;
    ghost var b := buf[..from];
    at, m := TrimWhitespace(buf, from, n);
    ghost var start := at;
    at, m := RemoveQuotes(buf, at, m);
    assert buf[..from] == buf[..start][..from] == b;
  }

  class ServerConfig {
    var port: int
    var threadNum: int
    var timeout: int
    var maxConnections: int
    var host: cstring
    var logFile: cstring
    var logLevel: int
    var bufferSize: int
    var keepAliveTimeout: int
    var maxRequestSize: int

    function Abs(): Config
      reads this
    {
      Config(port, threadNum, timeout, maxConnections, host, logFile, logLevel, bufferSize, keepAliveTimeout,
             maxRequestSize)
    }

    /** `config_new` */
    constructor ()
      ensures Abs() == Defaults()
      ensures port == 3000 && threadNum == 4 && timeout == 30 && maxConnections == 1024
      ensures host == "0.0.0.0" && logFile == "x-net.log" && logLevel == 1
      ensures bufferSize == 65535 && keepAliveTimeout == 60 && maxRequestSize == 10485760
    {
      port, threadNum, timeout, maxConnections := 3000, 4, 30, 1024;
      host, logFile, logLevel := "0.0.0.0", "x-net.log", 1;
      bufferSize, keepAliveTimeout, maxRequestSize := 65535, 60, 10485760;
    }

    /** The chain of key comparisons. */
    method Assign(key: cstring, value: cstring)
      modifies this
      ensures Abs() == match FieldNamed(key) case None => old(Abs()) case Some(f) => Set(old(Abs()), f, value)
    {
      hide Field.Key, Atoi, NulFree;
      if key == Port.Key() {
        port := Atoi(value);
      } else if key == ThreadNum.Key() {
        threadNum := Atoi(value);
      } else if key == Timeout.Key() {
        timeout := Atoi(value);
      } else if key == MaxConnections.Key() {
        maxConnections := Atoi(value);
      } else if key == Host.Key() {
        host := value;
      } else if key == LogFile.Key() {
        logFile := value;
      } else if key == LogLevel.Key() {
        logLevel := Atoi(value);
      } else if key == BufferSize.Key() {
        bufferSize := Atoi(value);
      } else if key == KeepAliveTimeout.Key() {
        keepAliveTimeout := Atoi(value);
      } else if key == MaxRequestSize.Key() {
        maxRequestSize := Atoi(value);
      }
    }

    /** `parse_config_line` */
    method ParseConfigLine(buf: array<char>, at: nat, ghost n: nat)
      requires Terminated(buf[..], at, n)
      modifies this, buf
      ensures old(NulFree(buf[at..n])) && Abs() == ParseLine(old(Abs()), old(buf[at..n]))
    {
      assert buf[..][at..n] == buf[at..n];
      hide Trim, Unquote, Set, FieldNamed, NulFree, Terminated, IndexOf, CStr, Abs;
      var found, key, text := SplitLine(buf, at, n);
      if found {
        Assign(CStr(buf[key..]), CStr(buf[text..]));
      }
    }
  
    /** `config_load_from_file`; `None` when the file cannot be opened. */
    method LoadFromFile(file: Option<seq<char>>) returns (r: int)
      modifies this
      ensures file.None? ==> r == -1 && Abs() == old(Abs())
      ensures file.Some? ==> r == 0 && Abs() == Load(old(Abs()), file.value)
    {
      if file.None? {
        return -1;
      }
      var line := new char[LINE_SIZE];
      var pos := 0;
      ghost var all := Load(Abs(), file.value);
      while pos < |file.value|
        invariant pos <= |file.value| && Load(Abs(), file.value[pos..]) == all
      {
        pos := LoadLine(line, file.value, pos);
      }
      assert file.value[pos..] == [];
      r := 0;
    }

    /** One round of the file loop. */
    method LoadLine(line: array<char>, file: seq<char>, pos: nat) returns (next: nat)
      requires line.Length == LINE_SIZE && pos < |file|
      modifies this, line
      ensures pos < next <= |file|
      ensures Load(Abs(), file[next..]) == old(Load(Abs(), file[pos..]))
    {
      hide ParseLine, Trim, Abs, ChunkLength, NulFree, CStr;
      var k := Fgets(line, file, pos);
      ghost var s := CStr(file[pos..][..k]);
      var trimmed, n := TrimWhitespace(line, 0, |s|);
      ParseConfigLine(line, trimmed, n);
      next := pos + k;
      assert file[pos..][k..] == file[next..];
    }

    method LoadFromEnv(env: map<cstring, cstring>) returns (r: int)
      modifies this
      ensures r == 0 && Abs() == Overlay(old(Abs()), env)
    {
      hide Atoi, NulFree, Lookup, NumberOr, TextOr;
      port := NumberOr(Lookup(env, Port), port);
      threadNum := NumberOr(Lookup(env, ThreadNum), threadNum);
      timeout := NumberOr(Lookup(env, Timeout), timeout);
      maxConnections := NumberOr(Lookup(env, MaxConnections), maxConnections);
      host := TextOr(Lookup(env, Host), host);
      logFile := TextOr(Lookup(env, LogFile), logFile);
      logLevel := NumberOr(Lookup(env, LogLevel), logLevel);
      bufferSize := NumberOr(Lookup(env, BufferSize), bufferSize);
      r := 0;
    }
  }

  /** The next line, or the next 511 bytes of it, with a terminator. */
  method Fgets(line: array<char>, file: seq<char>, pos: nat) returns (k: nat)
    requires line.Length == LINE_SIZE && pos < |file|
    modifies line
    ensures k == ChunkLength(file[pos..])
    ensures var s := CStr(file[pos..][..k]); Terminated(line[..], 0, |s|) && line[..|s|] == s
  {
    k := ChunkLength(file[pos..]);
    forall i | 0 <= i < k {
      line[i] := file[pos + i];
    }
    line[k] := NUL;
    ChunkTerminated(file[pos..][..k], line[..]);
  }

  lemma ChunkTerminated(chunk: seq<char>, line: seq<char>)
    requires |chunk| < |line| && line[..|chunk|] == chunk && line[|chunk|] == NUL
    ensures var s := CStr(chunk); Terminated(line, 0, |s|) && line[..|s|] == s
  {
    var s := CStr(chunk);
    assert line[..|s|] == line[..|chunk|][..|s|] == s;
    assert line[0..|s|] == s;
    assert |s| < |chunk| ==> chunk[|s|] == line[..|chunk|][|s|];
  }
}
