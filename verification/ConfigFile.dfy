/** What a configuration file means (lib/config_loader.c): lines, assignments, and the file that
    prints a configuration. */
module ConfigFiles {
  import opened CStrings
  import opened Decimals

  datatype Config = Config(
    port: int,
    threadNum: int,
    timeout: int,
    maxConnections: int,
    host: cstring,
    logFile: cstring,
    logLevel: int,
    bufferSize: int,
    keepAliveTimeout: int,
    maxRequestSize: int)

  function Defaults(): Config {
    Config(3000, 4, 30, 1024, "0.0.0.0", "x-net.log", 1, 65535, 60, 10485760)
  }

  datatype Field =
    | Port
    | ThreadNum
    | Timeout
    | MaxConnections
    | Host
    | LogFile
    | LogLevel
    | BufferSize
    | KeepAliveTimeout
    | MaxRequestSize
  {
    predicate IsText() {
      Host? || LogFile?
    }

    function Key(): cstring {
      match this
      case Port => "port"
      case ThreadNum => "thread_num"
      case Timeout => "timeout"
      case MaxConnections => "max_connections"
      case Host => "host"
      case LogFile => "log_file"
      case LogLevel => "log_level"
      case BufferSize => "buffer_size"
      case KeepAliveTimeout => "keep_alive_timeout"
      case MaxRequestSize => "max_request_size"
    }
  }

  function FieldNamed(key: cstring): Option<Field> {
    if key == Port.Key() then Some(Port)
    else if key == ThreadNum.Key() then Some(ThreadNum)
    else if key == Timeout.Key() then Some(Timeout)
    else if key == MaxConnections.Key() then Some(MaxConnections)
    else if key == Host.Key() then Some(Host)
    else if key == LogFile.Key() then Some(LogFile)
    else if key == LogLevel.Key() then Some(LogLevel)
    else if key == BufferSize.Key() then Some(BufferSize)
    else if key == KeepAliveTimeout.Key() then Some(KeepAliveTimeout)
    else if key == MaxRequestSize.Key() then Some(MaxRequestSize)
    else None
  }

  // ---- values ---------------------------------------------------------------------------------

  const BLANKS: set<char> := {' ', '\t', '\n', '\r'}

  predicate IsBlank(c: char) {
    c in BLANKS
  }

  /** `atoi`, on numbers that an `int` can hold: blanks, a sign, digits, anything. */
  function Atoi(s: seq<char>): int {
    if s == [] then 0
    else if IsBlank(s[0]) || s[0] == '\U{0b}' || s[0] == '\U{0c}' then Atoi(s[1..])
    else if s[0] == '-' then -(Value(Leading(s[1..])) as int)
    else if s[0] == '+' then Value(Leading(s[1..]))
    else Value(Leading(s))
  }

  /** The digits `s` begins with. */
  function Leading(s: seq<char>): (r: seq<char>)
    ensures AllDigits(r)
    ensures AllDigits(s) ==> r == s
  {
    if s == [] || !IsDigit(s[0]) then [] else [s[0]] + Leading(s[1..])
  }

  datatype Setting = Number(n: int) | Chars(s: cstring)

  /** What a value's text means for a field. */
  function Meaning(f: Field, text: cstring): Setting {
    if f.IsText() then Chars(text) else Number(Atoi(text))
  }

  function Get(c: Config, f: Field): Setting {
    match f
    case Port => Number(c.port)
    case ThreadNum => Number(c.threadNum)
    case Timeout => Number(c.timeout)
    case MaxConnections => Number(c.maxConnections)
    case Host => Chars(c.host)
    case LogFile => Chars(c.logFile)
    case LogLevel => Number(c.logLevel)
    case BufferSize => Number(c.bufferSize)
    case KeepAliveTimeout => Number(c.keepAliveTimeout)
    case MaxRequestSize => Number(c.maxRequestSize)
  }

  function Set(c: Config, f: Field, text: cstring): Config {
    match f
    case Port => c.(port := Atoi(text))
    case ThreadNum => c.(threadNum := Atoi(text))
    case Timeout => c.(timeout := Atoi(text))
    case MaxConnections => c.(maxConnections := Atoi(text))
    case Host => c.(host := text)
    case LogFile => c.(logFile := text)
    case LogLevel => c.(logLevel := Atoi(text))
    case BufferSize => c.(bufferSize := Atoi(text))
    case KeepAliveTimeout => c.(keepAliveTimeout := Atoi(text))
    case MaxRequestSize => c.(maxRequestSize := Atoi(text))
  }

  lemma SetGet(c: Config, f: Field, text: cstring, g: Field)
    ensures Get(Set(c, f, text), g) == if f == g then Meaning(f, text) else Get(c, g)
  {
    hide Atoi, NulFree;
  }

  lemma SameConfig(c: Config, d: Config)
    requires forall f :: Get(c, f) == Get(d, f)
    ensures c == d
  {
    hide NulFree;
    assert Get(c, Port) == Get(d, Port) && Get(c, ThreadNum) == Get(d, ThreadNum);
    assert Get(c, Timeout) == Get(d, Timeout) && Get(c, MaxConnections) == Get(d, MaxConnections);
    assert Get(c, Host) == Get(d, Host) && Get(c, LogFile) == Get(d, LogFile);
    assert Get(c, LogLevel) == Get(d, LogLevel) && Get(c, BufferSize) == Get(d, BufferSize);
    assert Get(c, KeepAliveTimeout) == Get(d, KeepAliveTimeout);
    assert Get(c, MaxRequestSize) == Get(d, MaxRequestSize);
  }

  // ---- lines ----------------------------------------------------------------------------------

  function Trim(s: cstring): cstring {
    TrimRight(TrimLeft(s, BLANKS), BLANKS)
  }

  predicate IsQuoted(s: seq<char>) {
    |s| >= 2 && s[0] == s[|s| - 1] && (s[0] == '"' || s[0] == '\'')
  }

  /** One pair of matching quotes is taken off. */
  function Unquote(s: cstring): cstring {
    if IsQuoted(s) then s[1..|s| - 1] else s
  }

  datatype Assignment = Assignment(field: Field, text: cstring)

  /** What a line assigns: nothing when it is a comment, has no colon or an unknown key. */
  function AssignmentOf(line: cstring): Option<Assignment> {
    var i := IndexOf(line, ':');
    if i == |line| || line[0] == '#' then None
    else match FieldNamed(Trim(line[..i]))
      case None => None
      case Some(f) => Some(Assignment(f, Unquote(Trim(line[i + 1..]))))
  }

  function ParseLine(c: Config, line: cstring): Config {
    match AssignmentOf(line)
    case None => c
    case Some(a) => Set(c, a.field, a.text)
  }

  const LINE_SIZE: nat := 512

  /** How many bytes `fgets` takes: through the newline, and at most 511. */
  function ChunkLength(file: seq<char>): (n: nat)
    ensures n <= |file| && n < LINE_SIZE
    ensures file != [] ==> n > 0
  {
    var i := IndexOf(file, '\n');
    var n := if i < |file| then i + 1 else |file|;
    if n < LINE_SIZE then n else LINE_SIZE - 1
  }

  /** The file loop. */
  function Load(c: Config, file: seq<char>): Config
    decreases |file|
  {
    if file == [] then c
    else
      var n := ChunkLength(file);
      Load(ParseLine(c, Trim(CStr(file[..n]))), file[n..])
  }

  // ---- a file is a list of assignments, and the last one wins -----------------------------------

  function Listed(a: Option<Assignment>): seq<Assignment> {
    if a.None? then [] else [a.value]
  }

  function Assignments(file: seq<char>): seq<Assignment> {
    if file == [] then []
    else
      var n := ChunkLength(file);
      Listed(AssignmentOf(Trim(CStr(file[..n])))) + Assignments(file[n..])
  }

  /** The text last assigned to a field. */
  function LastAssigned(xs: seq<Assignment>, f: Field): Option<cstring> {
    if xs == [] then None
    else
      var last := xs[|xs| - 1];
      if last.field == f then Some(last.text) else LastAssigned(xs[..|xs| - 1], f)
  }

  function Override(s: Setting, f: Field, text: Option<cstring>): Setting {
    if text.Some? then Meaning(f, text.value) else s
  }

  lemma {:induction false} LastAssignedJoins(a: seq<Assignment>, b: seq<Assignment>, f: Field)
    ensures LastAssigned(a + b, f) == if LastAssigned(b, f).Some? then LastAssigned(b, f) else LastAssigned(a, f)
  {
    hide NulFree;
    if b == [] {
      assert a + b == a;
    } else {
      assert (a + b)[..|a + b| - 1] == a + b[..|b| - 1];
      LastAssignedJoins(a, b[..|b| - 1], f);
    }
  }

  lemma OneAssigned(a: Option<Assignment>, f: Field)
    ensures LastAssigned(Listed(a), f) == if a.Some? && a.value.field == f then Some(a.value.text) else None
  {
    if a.Some? {
      assert [a.value][..0] == [];
    }
  }

  /** Loading a file gives each field the meaning of the last text assigned to it, and leaves the
      other fields alone. */
  lemma {:induction false} LoadIsFold(c: Config, file: seq<char>, f: Field)
    ensures Get(Load(c, file), f) == Override(Get(c, f), f, LastAssigned(Assignments(file), f))
    decreases |file|
  {
    hide Get, Set, Meaning, AssignmentOf, Trim, CStr, ChunkLength, NulFree, LastAssigned;
    if file == [] {
      OneAssigned(None, f);
    } else {
      var n := ChunkLength(file);
      var a := AssignmentOf(Trim(CStr(file[..n])));
      LoadIsFold(ParseLine(c, Trim(CStr(file[..n]))), file[n..], f);
      LastAssignedJoins(Listed(a), Assignments(file[n..]), f);
      OneAssigned(a, f);
      if a.Some? {
        SetGet(c, a.value.field, a.value.text, f);
      }
    }
  }

  // ---- trimming ---------------------------------------------------------------------------------

  /** Blanks at both ends go. */
  lemma TrimAround(a: cstring, s: cstring, b: cstring)
    requires s != [] && !IsBlank(s[0]) && !IsBlank(s[|s| - 1])
    requires (forall k :: 0 <= k < |a| ==> IsBlank(a[k])) && (forall k :: 0 <= k < |b| ==> IsBlank(b[k]))
    ensures Trim(a + s + b) == s
  {
    var t := a + s + b;
    TrimLeftIs(t, BLANKS, |a|);
    assert t[|a|..] == s + b;
    TrimRightIs(s + b, BLANKS, |s|);
    assert (s + b)[..|s|] == s;
  }

  // ---- printing a configuration -----------------------------------------------------------------

  /** Numbers in decimal, strings in double quotes. */
  function ValueText(c: Config, f: Field): cstring {
    match Get(c, f)
    case Number(n) => Decimal(n)
    case Chars(s) => "\"" + s + "\""
  }

  function LineOf(c: Config, f: Field): cstring {
    f.Key() + ": " + ValueText(c, f)
  }

  function Print(c: Config, fs: seq<Field>): cstring {
    if fs == [] then [] else LineOf(c, fs[0]) + "\n" + Print(c, fs[1..])
  }

  /** The line fits the loader's buffer and stays one line. */
  predicate Fits(c: Config, f: Field) {
    |LineOf(c, f)| < LINE_SIZE && '\n' !in ValueText(c, f)
  }

  predicate IsKeyChar(c: char) {
    'a' <= c <= 'z' || c == '_'
  }

  lemma KeyFacts(f: Field)
    ensures f.Key() != [] && forall i :: 0 <= i < |f.Key()| ==> IsKeyChar(f.Key()[i])
  {
  }

  lemma KeyNames(f: Field)
    ensures FieldNamed(f.Key()) == Some(f)
  {
    assert Port.Key()[0] == 'p' && Host.Key()[0] == 'h';
  }

  lemma DecimalFacts(i: int)
    ensures var s := Decimal(i);
      s != [] && (IsDigit(s[0]) || s[0] == '-') && IsDigit(s[|s| - 1])
      && forall k :: 0 <= k < |s| ==> IsDigit(s[k]) || s[k] == '-'
  {
    hide Digits;
  }

  lemma AtoiDecimal(i: int)
    ensures Atoi(Decimal(i)) == i
  {
    hide Digits, Value;
    var n: nat := if i < 0 then -i else i;
    DigitsRoundTrip(n);
    var d := Digits(n);
    assert IsDigit(d[0]);
    if i < 0 {
      assert ("-" + d)[1..] == d;
    }
  }

  /** What stands behind the colon is taken for the field's setting. */
  lemma ValueReads(c: Config, f: Field)
    ensures var v := ValueText(c, f);
      && v != [] && !IsBlank(v[0]) && !IsBlank(v[|v| - 1])
      && Meaning(f, Unquote(v)) == Get(c, f)
  {
    hide Decimal, Atoi, NulFree;
    match Get(c, f) {
      case Number(n) =>
        DecimalFacts(n);
        AtoiDecimal(n);
      case Chars(s) =>
        var v := "\"" + s + "\"";
        assert v[1..|v| - 1] == s;
    }
  }

  /** The line break goes. */
  lemma TrimmedLine(key: cstring, v: cstring, eol: cstring)
    requires key != [] && !IsBlank(key[0]) && v != [] && !IsBlank(v[|v| - 1])
    requires forall k :: 0 <= k < |eol| ==> IsBlank(eol[k])
    ensures var line: cstring := key + ": " + v; Trim(line + eol) == line
  {
    var none: cstring := [];
    hide Trim, NulFree, IsBlank;
    var line := key + ": " + v;
    assert none + line + eol == line + eol;
    TrimAround(none, line, eol);
  }

  /** Cutting `key: value` at the colon. */
  lemma CutLine(key: cstring, v: cstring)
    requires key != [] && forall i :: 0 <= i < |key| ==> IsKeyChar(key[i])
    requires v != [] && !IsBlank(v[0]) && !IsBlank(v[|v| - 1])
    ensures var line: cstring := key + ": " + v;
      && IndexOf(line, ':') == |key| && line[0] != '#' && |line| > |key|
      && Trim(line[..|key|]) == key && Trim(line[|key| + 1..]) == v
  {
    var none: cstring, space: cstring := [], " ";
    hide Trim, NulFree;
    var line, rest := key + ": " + v, space + v;
    assert line == key + [':'] + rest;
    IndexOfJoin(key, ':', rest);
    assert line[..|key|] == key && line[|key| + 1..] == rest;
    TrimNothing(key, BLANKS);
    assert rest == space + v + none;
    TrimAround(space, v, none);
  }

  /** A printed line, with or without its newline, is read back. */
  lemma LineReads(c: Config, f: Field, eol: cstring)
    requires eol <= "\n"
    ensures var a := AssignmentOf(Trim(LineOf(c, f) + eol));
      a.Some? && a.value.field == f && Meaning(f, a.value.text) == Get(c, f)
  {
    hide Trim, FieldNamed, Unquote, Get, Meaning, NulFree, Field.Key, ValueText;
    KeyFacts(f);
    KeyNames(f);
    ValueReads(c, f);
    TrimmedLine(f.Key(), ValueText(c, f), eol);
    CutLine(f.Key(), ValueText(c, f));
  }

  lemma LineHasNoNewline(c: Config, f: Field)
    requires Fits(c, f)
    ensures '\n' !in LineOf(c, f)
  {
    hide Field.Key, ValueText;
    KeyFacts(f);
  }

  lemma ChunkIs(line: seq<char>, rest: seq<char>)
    requires '\n' !in line && |line| < LINE_SIZE
    ensures ChunkLength(line + "\n" + rest) == if |line| + 1 < LINE_SIZE then |line| + 1 else |line|
  {
    IndexOfJoin(line, '\n', rest);
  }

  /** A line that fills the buffer leaves its newline behind as an empty line. */
  lemma LoneNewline(rest: seq<char>)
    ensures Assignments("\n" + rest) == Assignments(rest)
  {
    var newline: cstring := "\n";
    hide AssignmentOf, NulFree;
    ChunkIs([], rest);
    var s := "\n" + rest;
    assert s == [] + "\n" + rest;
    assert s[..1] == "\n" && s[1..] == rest;
    TrimLeftIs(newline, BLANKS, 1);
    assert Trim(CStr(newline)) == [];
    NoAssignment();
    assert [] + Assignments(rest) == Assignments(rest);
  }

  lemma NoAssignment()
    ensures AssignmentOf([]) == None
  {
  }

  lemma AssignmentsUnfold(file: seq<char>)
    requires file != []
    ensures var n := ChunkLength(file);
      Assignments(file) == Listed(AssignmentOf(Trim(CStr(file[..n])))) + Assignments(file[n..])
  {
    hide AssignmentOf, ChunkLength, Trim, CStr;
  }

  lemma PrintedLine(c: Config, f: Field, rest: seq<char>) returns (text: cstring)
    requires Fits(c, f)
    ensures Assignments(LineOf(c, f) + "\n" + rest) == [Assignment(f, text)] + Assignments(rest)
    ensures Meaning(f, text) == Get(c, f)
  {
    hide AssignmentOf, ChunkLength, Trim, Get, Meaning, LineOf, Assignments;
    var line := LineOf(c, f);
    var file := line + "\n" + rest;
    LineHasNoNewline(c, f);
    ChunkIs(line, rest);
    AssignmentsUnfold(file);
    if |line| + 1 < LINE_SIZE {
      LineReads(c, f, "\n");
      text := AssignmentOf(Trim(line + "\n")).value.text;
      assert file[..|line| + 1] == line + "\n" && file[|line| + 1..] == rest;
    } else {
      LineReads(c, f, []);
      assert line + [] == line;
      text := AssignmentOf(Trim(line)).value.text;
      assert file[..|line|] == line && file[|line|..] == "\n" + rest;
      LoneNewline(rest);
    }
  }

  lemma {:induction false} PrintedAssignments(c: Config, fs: seq<Field>, f: Field)
    requires forall g :: g in fs ==> Fits(c, g)
    ensures var t := LastAssigned(Assignments(Print(c, fs)), f);
      if f in fs then t.Some? && Meaning(f, t.value) == Get(c, f) else t == None
  {
    hide Fits, LineOf, Assignments, Get, Meaning, NulFree, LastAssigned;
    if fs == [] {
      NoAssignments(f);
    } else {
      var rest := Print(c, fs[1..]);
      var text := PrintedLine(c, fs[0], rest);
      PrintedAssignments(c, fs[1..], f);
      LastAssignedJoins([Assignment(fs[0], text)], Assignments(rest), f);
      OneAssigned(Some(Assignment(fs[0], text)), f);
    }
  }

  lemma NoAssignments(f: Field)
    ensures LastAssigned(Assignments([]), f) == None
  {
  }

  /** Printing any of the fields, in any order, and loading the file sets exactly those fields to
      what they were. */
  lemma LoadPrinted(c: Config, fs: seq<Field>, d: Config, f: Field)
    requires forall g :: g in fs ==> Fits(c, g)
    ensures Get(Load(d, Print(c, fs)), f) == Get(if f in fs then c else d, f)
  {
    hide Fits, Load, Print, Get, Meaning, NulFree;
    PrintedAssignments(c, fs, f);
    LoadIsFold(d, Print(c, fs), f);
  }

  /** A printed configuration is restored whatever the loader started from. */
  lemma ConfigRoundTrip(c: Config, fs: seq<Field>, d: Config)
    requires (forall f: Field :: f in fs) && forall f :: f in fs ==> Fits(c, f)
    ensures Load(d, Print(c, fs)) == c
  {
    hide Fits, Load, Print, Get;
    forall f ensures Get(Load(d, Print(c, fs)), f) == Get(c, f) {
      LoadPrinted(c, fs, d, f);
    }
    SameConfig(Load(d, Print(c, fs)), c);
  }

  // ---- what a line, a value and a chunk are -----------------------------------------------------

  /** The keys of a configuration file; `KeyNames` says that a line with the key is for the field. */
  lemma NamedKeys()
    ensures Port.Key() == "port" && ThreadNum.Key() == "thread_num" && Timeout.Key() == "timeout"
    ensures MaxConnections.Key() == "max_connections" && Host.Key() == "host" && LogFile.Key() == "log_file"
    ensures LogLevel.Key() == "log_level" && BufferSize.Key() == "buffer_size"
    ensures KeepAliveTimeout.Key() == "keep_alive_timeout" && MaxRequestSize.Key() == "max_request_size"
  {
  }

  /** A line `key: value` sets the field of that name; an unknown key sets nothing. */
  lemma LineSets(c: Config, key: cstring, v: cstring)
    requires key != [] && forall i :: 0 <= i < |key| ==> IsKeyChar(key[i])
    requires v != [] && !IsBlank(v[0]) && !IsBlank(v[|v| - 1])
    ensures ParseLine(c, key + ": " + v) ==
            match FieldNamed(key) case None => c case Some(f) => Set(c, f, Unquote(v))
  {
    hide Trim, FieldNamed, Unquote, Set, NulFree;
    CutLine(key, v);
  }

  lemma {:induction false} TrimLeftWithin(s: seq<char>, blanks: set<char>, c: char)
    requires c !in s
    ensures c !in TrimLeft(s, blanks)
  {
    if s != [] {
      TrimLeftWithin(s[1..], blanks, c);
    }
  }

  lemma {:induction false} TrimRightWithin(s: seq<char>, blanks: set<char>, c: char)
    requires c !in s
    ensures c !in TrimRight(s, blanks)
  {
    if s != [] {
      TrimRightWithin(s[..|s| - 1], blanks, c);
    }
  }

  /** Blank lines, comments and lines without a colon leave every field alone. */
  lemma LineIgnored(c: Config, line: cstring)
    requires ':' !in line || (var t := TrimLeft(line, BLANKS); t != [] && t[0] == '#')
    ensures ParseLine(c, Trim(line)) == c
  {
    var t := TrimLeft(line, BLANKS);
    if ':' !in line {
      TrimLeftWithin(line, BLANKS, ':');
      TrimRightWithin(t, BLANKS, ':');
    } else {
      FirstStays(t, BLANKS);
    }
  }

  lemma {:induction false} FirstStays(s: seq<char>, blanks: set<char>)
    requires s != [] && s[0] !in blanks
    ensures TrimRight(s, blanks) != [] && TrimRight(s, blanks)[0] == s[0]
  {
    if s[|s| - 1] in blanks {
      FirstStays(s[..|s| - 1], blanks);
    }
  }

  /** One pair of equal quotes, of either kind, is taken off; anything else stays. */
  lemma UnquoteIs(s: cstring, q: char)
    ensures q == '"' || q == '\'' ==> NulFree([q] + s + [q]) && Unquote([q] + s + [q]) == s
    ensures |s| < 2 || s[0] != s[|s| - 1] || (s[0] != '"' && s[0] != '\'') ==> Unquote(s) == s
  {
    assert ([q] + s + [q])[1..|s| + 1] == s;
  }

  lemma {:induction false} LeadingIs(d: seq<char>, rest: seq<char>)
    requires AllDigits(d) && (rest == [] || !IsDigit(rest[0]))
    ensures Leading(d + rest) == d
  {
    if d == [] {
      assert d + rest == rest;
    } else {
      assert (d + rest)[1..] == d[1..] + rest;
      LeadingIs(d[1..], rest);
    }
  }

  lemma AtoiFirst(c: char, t: seq<char>)
    ensures IsDigit(c) ==> Atoi([c] + t) == Value(Leading([c] + t))
    ensures c == '-' ==> Atoi([c] + t) == -(Value(Leading(t)) as int)
    ensures c == '+' ==> Atoi([c] + t) == Value(Leading(t))
  {
    hide Value, Leading, AllDigits;
    assert ([c] + t)[1..] == t;
  }

  lemma AtoiSigned(sign: seq<char>, d: seq<char>, rest: seq<char>)
    requires sign == [] || sign == ['+'] || sign == ['-']
    requires d != [] && AllDigits(d) && (rest == [] || !IsDigit(rest[0]))
    ensures Atoi(sign + d + rest) == if sign == ['-'] then -(Value(d) as int) else Value(d)
  {
    assert IsDigit(d[0]);
    hide Value, Leading, AllDigits, Atoi;
    LeadingIs(d, rest);
    if sign == [] {
      assert sign + d + rest == d + rest == [d[0]] + (d[1..] + rest);
      AtoiFirst(d[0], d[1..] + rest);
    } else {
      assert sign + d + rest == [sign[0]] + (d + rest);
      AtoiFirst(sign[0], d + rest);
    }
  }

  /** Blanks, a sign, digits: the number they stand for, whatever follows. */
  lemma {:induction false} AtoiReads(blanks: seq<char>, sign: seq<char>, d: seq<char>, rest: seq<char>)
    requires forall k :: 0 <= k < |blanks| ==> blanks[k] in {' ', '\t', '\n', '\U{0b}', '\U{0c}', '\r'}
    requires sign == [] || sign == ['+'] || sign == ['-']
    requires d != [] && AllDigits(d) && (rest == [] || !IsDigit(rest[0]))
    ensures Atoi(blanks + (sign + d + rest)) == if sign == ['-'] then -(Value(d) as int) else Value(d)
  {
    hide Value, Leading, AllDigits;
    var tail := sign + d + rest;
    var s := blanks + tail;
    if blanks == [] {
      AtoiSigned(sign, d, rest);
      assert s == tail;
    } else {
      assert s[0] == blanks[0] && s[1..] == blanks[1..] + tail;
      AtoiReads(blanks[1..], sign, d, rest);
    }
  }

  /** A chunk ends behind the first newline, at the end of the file, or after 511 bytes. */
  lemma ChunkLengthIs(file: seq<char>)
    requires file != []
    ensures var n := ChunkLength(file);
      && 0 < n <= 511 && n <= |file| && '\n' !in file[..n - 1]
      && (n == 511 || n == |file| || file[n - 1] == '\n')
  {
    var n := ChunkLength(file);
    assert forall k :: 0 <= k < n - 1 ==> file[..n - 1][k] == file[k];
  }

  // ---- the line buffer limits strings -----------------------------------------------------------

  lemma TrimShrinks(s: cstring)
    ensures |Trim(s)| <= |s|
  {
  }

  lemma TextFitsLine(line: cstring)
    requires |line| < LINE_SIZE
    ensures var a := AssignmentOf(line);
      a.Some? ==> |a.value.field.Key()| + |a.value.text| < LINE_SIZE - 1
  {
    var i := IndexOf(line, ':');
    if i < |line| {
      var left: cstring, right: cstring := line[..i], line[i + 1..];
      hide Trim, Unquote, Field.Key, NulFree, FieldNamed;
      TrimShrinks(left);
      TrimShrinks(right);
      UnquoteShrinks(Trim(right));
      KeyIs(Trim(left));
    }
  }

  lemma UnquoteShrinks(s: cstring)
    ensures |Unquote(s)| <= |s|
  {
  }

  lemma KeyIs(key: cstring)
    ensures FieldNamed(key).Some? ==> FieldNamed(key).value.Key() == key
  {
    hide Field.Key;
  }

  /** No file sets a string of more than 510 bytes less its key: a longer one stays as it was or
      is cut. */
  lemma {:induction false} LoadedTextFits(c: Config, file: seq<char>, f: Field)
    requires f.IsText()
    ensures var s := Get(Load(c, file), f);
      s == Get(c, f) || (s.Chars? && |f.Key()| + |s.s| < LINE_SIZE - 1)
    decreases |file|
  {
    hide Get, Set, AssignmentOf, Trim, CStr, ChunkLength, NulFree, Field.Key;
    if file != [] {
      var n := ChunkLength(file);
      var line := Trim(CStr(file[..n]));
      TrimShrinks(CStr(file[..n]));
      TextFitsLine(line);
      var a := AssignmentOf(line);
      if a.Some? {
        SetGet(c, a.value.field, a.value.text, f);
      }
      LoadedTextFits(ParseLine(c, line), file[n..], f);
    }
  }

  // ---- environment ------------------------------------------------------------------------------

  /** The variable that overrides a field; two fields have none. */
  function Variable(f: Field): Option<cstring> {
    match f
    case Port => Some("X_NET_PORT")
    case ThreadNum => Some("X_NET_THREAD_NUM")
    case Timeout => Some("X_NET_TIMEOUT")
    case MaxConnections => Some("X_NET_MAX_CONNECTIONS")
    case Host => Some("X_NET_HOST")
    case LogFile => Some("X_NET_LOG_FILE")
    case LogLevel => Some("X_NET_LOG_LEVEL")
    case BufferSize => Some("X_NET_BUFFER_SIZE")
    case KeepAliveTimeout => None
    case MaxRequestSize => None
  }

  predicate IsVariable(f: Field, name: seq<char>) {
    Variable(f).Some? && Variable(f).value == name
  }

  /** The environment variables; two fields have none. */
  lemma NamedVariables()
    ensures IsVariable(Port, "X_NET_PORT") && IsVariable(ThreadNum, "X_NET_THREAD_NUM")
    ensures IsVariable(Timeout, "X_NET_TIMEOUT") && IsVariable(MaxConnections, "X_NET_MAX_CONNECTIONS")
    ensures IsVariable(Host, "X_NET_HOST") && IsVariable(LogFile, "X_NET_LOG_FILE")
    ensures IsVariable(LogLevel, "X_NET_LOG_LEVEL") && IsVariable(BufferSize, "X_NET_BUFFER_SIZE")
    ensures Variable(KeepAliveTimeout) == None && Variable(MaxRequestSize) == None
  {
  }

  /** `getenv` */
  function Lookup(env: map<cstring, cstring>, f: Field): Option<cstring> {
    match Variable(f)
    case Some(v) => if v in env then Some(env[v]) else None
    case None => None
  }

  function NumberOr(text: Option<cstring>, n: int): int {
    if text.Some? then Atoi(text.value) else n
  }

  function TextOr(text: Option<cstring>, s: cstring): cstring {
    if text.Some? then text.value else s
  }

  /** `config_load_from_env` */
  function Overlay(c: Config, env: map<cstring, cstring>): Config {
    Config(NumberOr(Lookup(env, Port), c.port), NumberOr(Lookup(env, ThreadNum), c.threadNum),
           NumberOr(Lookup(env, Timeout), c.timeout), NumberOr(Lookup(env, MaxConnections), c.maxConnections),
           TextOr(Lookup(env, Host), c.host), TextOr(Lookup(env, LogFile), c.logFile),
           NumberOr(Lookup(env, LogLevel), c.logLevel), NumberOr(Lookup(env, BufferSize), c.bufferSize),
           c.keepAliveTimeout, c.maxRequestSize)
  }

  lemma OverlayGet(c: Config, env: map<cstring, cstring>, f: Field)
    ensures Get(Overlay(c, env), f) == Override(Get(c, f), f, Lookup(env, f))
  {
    hide Atoi, NulFree;
    assert Lookup(env, KeepAliveTimeout) == None && Lookup(env, MaxRequestSize) == None;
    hide Lookup;
  }

  /** Every field: the environment first, then the last line of the file that assigns it, then what
      the configuration held before. */
  lemma Layered(c: Config, file: seq<char>, env: map<cstring, cstring>, f: Field)
    ensures Get(Overlay(Load(c, file), env), f) ==
            Override(Override(Get(c, f), f, LastAssigned(Assignments(file), f)), f, Lookup(env, f))
  {
    hide Get, Load, Overlay, Meaning, Lookup, LastAssigned, NulFree;
    LoadIsFold(c, file, f);
    OverlayGet(Load(c, file), env, f);
  }
}
