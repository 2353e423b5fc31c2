/** The growable byte buffer (lib/buffer.c): a class over one array, and the FIFO it refines. */
module Buffers {
  import opened CStrings
  import opened Memmem

  const INIT_BUFFER_SIZE: nat := 65535
  const CRLF: cstring := "\r\n"
  const CR: char := '\r'

  // ---- the specification: a FIFO with the bookkeeping that decides when it grows --------

  /** `contents` are the readable bytes, `front` the spare bytes before them, `cap` the size. */
  datatype View = View(contents: seq<char>, front: nat, cap: nat) {
    predicate Ok() {
      front + |contents| <= cap
    }

    function Tail(): int {
      cap - front - |contents|
    }

    /** Space for `size` more bytes: nothing to do, compaction, or growth by `size`. */
    function Reserve(size: nat): View {
      if size <= Tail() then this
      else if size <= front + Tail() then this.(front := 0)
      else this.(cap := cap + size)
    }

    function Push(xs: seq<char>): View {
      Reserve(|xs|).(contents := contents + xs)
    }

    /** A two-part socket read: the tail first, the overflow appended afterwards. */
    function Arrive(xs: seq<char>): View
      requires Ok()
    {
      if |xs| <= Tail() then this.(contents := contents + xs)
      else this.(contents := contents + xs[..Tail()]).Push(xs[Tail()..])
    }

    function Pull(n: nat): View
      requires n <= |contents|
    {
      View(contents[n..], front + n, cap)
    }
  }

  const EMPTY := View([], 0, INIT_BUFFER_SIZE)

  datatype ReadResult = Failed | Bytes(bytes: seq<char>)

  /** A byte read through a signed `char`. */
  function Signed(c: char): (i: int)
    ensures IsSigned(i)
  {
    if 128 <= c as int < 256 then c as int - 256 else c as int
  }

  predicate IsSigned(i: int) {
    -128 <= i < 0xD800 || 0xE000 <= i < 0x11_0000
  }

  /** The cast back to `char`. */
  function Byte(i: int): char
    requires IsSigned(i)
  {
    if i < 0 then (i + 256) as char else i as char
  }

  class Buffer {
    var data: array<char>
    var readIndex: nat
    var writeIndex: nat

    ghost predicate Valid()
      reads this
    {
      readIndex <= writeIndex <= data.Length
    }

    ghost function Contents(): seq<char>
      requires Valid()
      reads this, data
    {
      data[readIndex..writeIndex]
    }

    /** What the memory holds behind the readable bytes: leftovers of earlier traffic. */
    ghost function Stale(): seq<char>
      requires Valid()
      reads this, data
    {
      data[writeIndex..]
    }

    ghost function Abs(): (v: View)
      requires Valid()
      reads this, data
      ensures v.Ok()
    {
      View(Contents(), readIndex, data.Length)
    }

    constructor ()
      ensures Valid() && fresh(data) && Abs() == EMPTY && data.Length == 65535
    {
      data := new char[INIT_BUFFER_SIZE];
      readIndex := 0;
      writeIndex := 0;
    }

    method MakeRoom(size: nat)
      requires Valid()
      modifies this, data
      ensures Valid() && (data == old(data) || fresh(data))
      ensures Abs() == old(Abs()).Reserve(size)
    {
      if data.Length - writeIndex >= size {
        return;
      }
      if readIndex + (data.Length - writeIndex) >= size {
        var readable := writeIndex - readIndex;
        for i := 0 to readable
          invariant Valid() && data == old(data) && readIndex == old(readIndex) && writeIndex == old(writeIndex)
          invariant data[..i] == old(data[readIndex..readIndex + i])
          invariant forall k :: i <= k < data.Length ==> data[k] == old(data[k])
        {
          data[i] := data[readIndex + i];
        }
        readIndex := 0;
        writeIndex := readable;
      } else {
        var tmp := new char[data.Length + size];
        forall i | 0 <= i < data.Length {
          tmp[i] := data[i];
        }
        data := tmp;
        assert data[readIndex..writeIndex] == old(data[readIndex..writeIndex]);
      }
    }

    /** `memcpy(data + at, xs, |xs|)` */
    method Store(at: nat, xs: seq<char>)
      requires at + |xs| <= data.Length
      modifies data
      ensures data[..] == old(data[..at]) + xs + old(data[at + |xs|..])
    {
      forall i | 0 <= i < |xs| {
        data[at + i] := xs[i];
      }
    }

    /** Bytes that fit go behind the readable ones. */
    method Fill(xs: seq<char>)
      requires Valid() && |xs| <= data.Length - writeIndex
      modifies this`writeIndex, data
      ensures Valid()
      ensures Abs() == old(Abs()).(contents := old(Contents()) + xs)
    {
      ghost var before := data[..];
      Store(writeIndex, xs);
      assert data[readIndex..writeIndex] == before[readIndex..writeIndex];
      writeIndex := writeIndex + |xs|;
    }

    method Append(xs: seq<char>) returns (n: int)
      requires Valid()
      modifies this, data
      ensures Valid() && (data == old(data) || fresh(data))
      ensures Abs() == old(Abs()).Push(xs)
      ensures n == if xs == [] then -1 else |xs|
    {
      if |xs| <= 0 {
        assert Contents() + xs == Contents();
        return -1;
      }
      MakeRoom(|xs|);
      Fill(xs);
      n := |xs|;
    }

    method AppendChar(c: char) returns (n: int)
      requires Valid()
      modifies this, data
      ensures Valid() && (data == old(data) || fresh(data))
      ensures Abs() == old(Abs()).Push([c]) && n == 1
    {
      MakeRoom(1);
      ghost var before := data[..];
      data[writeIndex] := c;
      assert data[readIndex..writeIndex] == before[readIndex..writeIndex];
      writeIndex := writeIndex + 1;
      n := 1;
    }

    method AppendString(s: cstring) returns (n: int)
      requires Valid()
      modifies this, data
      ensures Valid() && (data == old(data) || fresh(data))
      ensures Abs() == old(Abs()).Push(s) && n == if s == [] then -1 else |s|
    {
      n := Append(s);
    }

    /** `readv` into the tail and a stack buffer. `result` is what the kernel delivered. */
    method SocketRead(result: ReadResult) returns (n: int)
      requires Valid()
      requires result.Bytes? ==> |result.bytes| <= data.Length - writeIndex + INIT_BUFFER_SIZE
      modifies this, data
      ensures Valid() && (data == old(data) || fresh(data))
      ensures result.Failed? ==> n == -1 && Abs() == old(Abs())
      ensures result.Bytes? ==> n == |result.bytes| && Abs() == old(Abs()).Arrive(result.bytes)
    {
      var additional := new char[INIT_BUFFER_SIZE];
      var maxWritable := data.Length - writeIndex;
      if result.Failed? {
        return -1;
      }
      n := |result.bytes|;
      if n <= maxWritable {
        Fill(result.bytes);
      } else {
        Fill(result.bytes[..maxWritable]);
        forall i | 0 <= i < n - maxWritable {
          additional[i] := result.bytes[maxWritable + i];
        }
        assert additional[..n - maxWritable] == result.bytes[maxWritable..];
        var m := Append(additional[..n - maxWritable]);
      }
    }

    method Read(size: int) returns (n: int, out: seq<char>)
      requires Valid()
      modifies this
      ensures Valid() && data == old(data)
      ensures size <= 0 ==> n == -1 && out == [] && Abs() == old(Abs())
      ensures size > 0 ==> n == |out| == Min(size, |old(Contents())|)
      ensures old(Contents()) == out + Contents()
      ensures Abs() == old(Abs()).Pull(|out|)
    {
      out := [];
      if size <= 0 {
        return -1, out;
      }
      var readable := writeIndex - readIndex;
      if readable <= 0 {
        return 0, out;
      }
      n := if size < readable then size else readable;
      out := data[readIndex..readIndex + n];
      readIndex := readIndex + n;
    }

    method ReadChar() returns (c: int)
      requires Valid()
      modifies this`readIndex
      ensures Valid()
      ensures old(Contents()) == [] ==> c == -1 && Abs() == old(Abs())
      ensures old(Contents()) != [] ==> c == Signed(old(Contents()[0])) && Abs() == old(Abs()).Pull(1)
    {
      if writeIndex - readIndex <= 0 {
        return -1;
      }
      c := Signed(data[readIndex]);
      readIndex := readIndex + 1;
    }

    /** `Found(i)` stands for the pointer `data + readIndex + i`. */
    method FindCRLF() returns (r: Search)
      requires Valid()
      ensures r == Lookup(Contents() + Stale(), |Contents()|, CRLF)
    {
      assert data[readIndex..] == Contents() + Stale();
      r := Memmemx(data[readIndex..], writeIndex - readIndex, CRLF);
    }
  }

  // ---- whole runs ------------------------------------------------------------------------

  datatype Op =
    | Append(xs: seq<char>)
    | SocketRead(arrived: seq<char>)
    | Read(size: int)
    | ReadChar

  /** How many bytes an operation takes out. */
  function Taken(v: View, op: Op): (n: nat)
    ensures n <= |v.contents|
  {
    match op
    case Read(size) => if size <= 0 then 0 else Min(size, |v.contents|)
    case ReadChar => Min(1, |v.contents|)
    case _ => 0
  }

  function Put(op: Op): seq<char> {
    match op
    case Append(xs) => xs
    case SocketRead(xs) => xs
    case _ => []
  }

  function Step(v: View, op: Op): View
    requires v.Ok()
  {
    match op
    case Append(xs) => v.Push(xs)
    case SocketRead(xs) => v.Arrive(xs)
    case _ => v.Pull(Taken(v, op))
  }

  /** The state after a run, all bytes put in, all bytes taken out, and the largest readable size. */
  datatype Trace = Trace(view: View, put: seq<char>, taken: seq<char>, peak: nat)

  function Run(ops: seq<Op>): (t: Trace)
    ensures t.view.Ok()
    ensures t.taken + t.view.contents == t.put
    ensures |t.view.contents| <= t.peak
    ensures t.view.cap <= INIT_BUFFER_SIZE || t.view.cap < 2 * t.peak
  {
    if ops == [] then Trace(EMPTY, [], [], 0)
    else
      var t := Run(ops[..|ops| - 1]);
      var op := ops[|ops| - 1];
      StepKeeps(t, op);
      Extend(t, op)
  }

  function Extend(t: Trace, op: Op): Trace
    requires t.view.Ok()
  {
    var v := Step(t.view, op);
    Trace(v, t.put + Put(op), t.taken + t.view.contents[..Taken(t.view, op)],
          if |v.contents| > t.peak then |v.contents| else t.peak)
  }

  predicate Bounded(t: Trace) {
    && t.view.Ok()
    && t.taken + t.view.contents == t.put
    && |t.view.contents| <= t.peak
    && (t.view.cap <= INIT_BUFFER_SIZE || t.view.cap < 2 * t.peak)
  }

  predicate Grown(v: View, v': View) {
    v'.Ok() && (v'.cap == v.cap || v'.cap < 2 * |v'.contents|)
  }

  lemma PushGrows(v: View, xs: seq<char>)
    requires v.Ok()
    ensures Grown(v, v.Push(xs))
  {
  }

  lemma ArriveGrows(v: View, xs: seq<char>)
    requires v.Ok()
    ensures Grown(v, v.Arrive(xs)) && v.Arrive(xs).contents == v.contents + xs
  {
    if |xs| > v.Tail() {
      var head, rest := xs[..v.Tail()], xs[v.Tail()..];
      PushGrows(v.(contents := v.contents + head), rest);
      assert xs == head + rest;
    }
  }

  /** One operation: the bytes taken, then the bytes left, are the bytes held, then the bytes put. */
  lemma StepMoves(v: View, op: Op)
    requires v.Ok()
    ensures Grown(v, Step(v, op))
    ensures v.contents[..Taken(v, op)] + Step(v, op).contents == v.contents + Put(op)
  {
    match op {
      case Append(xs) =>
        PushGrows(v, xs);
      case SocketRead(xs) =>
        ArriveGrows(v, xs);
      case _ =>
    }
  }

  /** Every operation keeps the indices in range, the bytes in order and exactly once, and the
      capacity below twice the largest readable size. */
  lemma StepKeeps(t: Trace, op: Op)
    requires Bounded(t)
    ensures Bounded(Extend(t, op))
  {
    hide Step;
    var v, v', out := t.view, Step(t.view, op), t.view.contents[..Taken(t.view, op)];
    StepMoves(v, op);
    assert t.taken + out + v'.contents == t.taken + (out + v'.contents);
    assert t.taken + (v.contents + Put(op)) == t.taken + v.contents + Put(op);
  }

  function TotalPut(ops: seq<Op>): seq<char> {
    if ops == [] then [] else TotalPut(ops[..|ops| - 1]) + Put(ops[|ops| - 1])
  }

  /** Any sequence of operations is a FIFO: what was taken out, followed by what is still
      readable, is everything put in, in order; and the capacity stays bounded. */
  lemma {:induction false} FifoOverRuns(ops: seq<Op>)
    ensures var t := Run(ops);
      && t.put == TotalPut(ops)
      && t.taken + t.view.contents == TotalPut(ops)
      && t.view.cap <= (if 2 * t.peak > INIT_BUFFER_SIZE then 2 * t.peak else INIT_BUFFER_SIZE)
  {
    if ops != [] {
      FifoOverRuns(ops[..|ops| - 1]);
    }
  }

  /** When room is made: the size grows exactly if the bytes held and the bytes to come do not fit,
      and then by the bytes to come; the contents move to the front exactly if they fit only there. */
  lemma ReserveIs(v: View, size: nat)
    requires v.Ok()
    ensures var r := v.Reserve(size);
      && r.contents == v.contents && r.Tail() >= size && r.Ok()
      && r.cap == (if |v.contents| + size <= v.cap then v.cap else v.cap + size)
      && r.front == (if v.front + |v.contents| + size <= v.cap || |v.contents| + size > v.cap then v.front else 0)
  {
  }

  /** A socket read fills the tail first: only what overflows it makes room, and the size grows by
      that much. */
  lemma ArriveIs(v: View, xs: seq<char>)
    requires v.Ok()
    ensures var r := v.Arrive(xs);
      var overflow := v.front + |v.contents| + |xs| - v.cap;
      && r.contents == v.contents + xs
      && r.cap == (if overflow > v.front then v.cap + overflow else v.cap)
      && r.front == (if 0 < overflow <= v.front then 0 else v.front)
  {
    ArriveGrows(v, xs);
  }

  /** `buffer_read_char` reports "empty" with -1, which is also how the byte 0xFF reads. Every byte
      reads as the number in [-128, 127] that is congruent to it modulo 256. */
  lemma ReadCharAmbiguity(c: char)
    ensures Byte(Signed(c)) == c
    ensures Signed(c) == -1 <==> c as int == 255
    ensures c as int < 256 ==> -128 <= Signed(c) < 128 && (Signed(c) - c as int) % 256 == 0
  {
  }
}
