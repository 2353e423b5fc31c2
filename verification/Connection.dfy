/** The connection's output protocol (lib/tcp_connection.c). */
module Connections {
  import opened CStrings
  import opened Memmem
  import opened Buffers
  import opened Channels

  /** What `write` does with the bytes offered: takes at most `n` of them, or returns -1. */
  datatype WriteResult = Wrote(n: nat) | WriteFailed

  function Taking(w: WriteResult, size: nat): (n: nat)
    ensures n <= size
  {
    if w.Wrote? then Min(w.n, size) else 0
  }

  /** `wire` holds the bytes the kernel has taken, in order. */
  datatype State = State(input: seq<char>, output: seq<char>, events: bv8, updates: nat, wire: seq<char>) {

    /** A direct `write` is attempted only while nothing is buffered or watched. */
    predicate Direct() {
      !WriteEnabled(events) && output == []
    }

    function Watch(): State {
      if WriteEnabled(events) then this
      else this.(events := EnableWrite(events), updates := updates + 1)
    }

    function Enqueue(xs: seq<char>): State {
      if xs == [] then this else this.(output := output + xs).Watch()
    }

    /** `before` is the byte in front of `xs` in memory: `nwrited` is unsigned, so after a
        failed `write` the code appends `size + 1` bytes from `data - 1` on. */
    function Send(xs: seq<char>, before: char, w: WriteResult): State {
      if !Direct() then Enqueue(xs)
      else if w.WriteFailed? then Enqueue([before] + xs)
      else
        var n := Taking(w, |xs|);
        this.(wire := wire + xs[..n]).Enqueue(xs[n..])
    }

    /** `handle_write` */
    function Flush(w: WriteResult): State {
      var n := Taking(w, |output|);
      if n == 0 then this
      else
        var s := this.(wire := wire + output[..n], output := output[n..]);
        if s.output == [] then s.(events := DisableWrite(events), updates := updates + 1) else s
    }

    /** Unsent bytes are watched for writability, and only then. */
    predicate Watched() {
      WriteEnabled(events) <==> output != []
    }

    /** Everything handed to the connection: on the wire, or still buffered. */
    function Stream(): seq<char> {
      wire + output
    }
  }

  /** A direct write fails. */
  predicate Fails(s: State, w: WriteResult) {
    s.Direct() && w.WriteFailed?
  }

  lemma SendStream(s: State, xs: seq<char>, before: char, w: WriteResult)
    requires s.Watched()
    ensures s.Send(xs, before, w).Watched()
    ensures s.Send(xs, before, w).Stream() == s.Stream() + (if Fails(s, w) then [before] else []) + xs
  {
    if s.Direct() && w.Wrote? {
      var n := Taking(w, |xs|);
      assert xs == xs[..n] + xs[n..];
    }
  }

  lemma FlushStream(s: State, w: WriteResult)
    requires s.Watched()
    ensures s.Flush(w).Watched()
    ensures s.Flush(w).Stream() == s.Stream()
    ensures |s.Flush(w).output| == |s.output| - Taking(w, |s.output|)
  {
    var n := Taking(w, |s.output|);
    assert s.output == s.output[..n] + s.output[n..];
  }

  /** Where the bytes of a send go. While nothing is buffered or watched they are offered to the
      kernel, and what it takes is on the wire and nowhere else; otherwise nothing reaches the wire. */
  lemma SendSplits(s: State, xs: seq<char>, before: char, w: WriteResult)
    ensures var s' := s.Send(xs, before, w);
      var direct := s.events & EVENT_WRITE == 0 && s.output == [];
      && s'.input == s.input
      && (direct && w.Wrote? ==>
            var k := if w.n < |xs| then w.n else |xs|;
            s'.wire == s.wire + xs[..k] && s'.output == xs[k..])
      && (!(direct && w.Wrote?) ==>
            s'.wire == s.wire && s'.output == s.output + (if direct then [before] else []) + xs)
      && (if s'.output == s.output then s'.events == s.events && s'.updates == s.updates
          else && s'.events == s.events | EVENT_WRITE
               && s'.updates == s.updates + if s.events & EVENT_WRITE == 0 then 1 else 0)
  {
  }

  /** Where the bytes of a flush go: the kernel takes them from the front of the output. The last of
      them switches EVENT_WRITE off. */
  lemma FlushSplits(s: State, w: WriteResult)
    ensures var s' := s.Flush(w);
      var k := if w.WriteFailed? then 0 else if w.n < |s.output| then w.n else |s.output|;
      && s'.input == s.input && s'.wire == s.wire + s.output[..k] && s'.output == s.output[k..]
      && (if k > 0 && s'.output == [] then s'.events == s.events & !EVENT_WRITE && s'.updates == s.updates + 1
          else s'.events == s.events && s'.updates == s.updates)
  {
  }

  lemma NothingBuffered(s: State)
    ensures s.output == [] ==> s.wire == s.Stream()
  {
  }

  /** A flush of which the kernel takes at least one byte. */
  lemma FlushTakes(s: State, w: WriteResult)
    requires w.Wrote? && w.n > 0
    ensures var s' := s.Flush(w);
      && s'.input == s.input && s'.Stream() == s.Stream()
      && |s'.output| <= (if s.output == [] then 0 else |s.output| - 1)
      && (s'.output == [] ==> s'.wire == s.Stream())
  {
    FlushSplits(s, w);
  }

  // ---- runs -------------------------------------------------------------------------------

  /** What the loop reports for a connection. `result` is what the kernel delivers, `stale` what the
      input buffer's memory then holds behind the readable bytes, `before` the byte in front of the
      data sent, and `w` what the kernel does with a write. */
  datatype Event =
    | Readable(result: ReadResult, stale: seq<char>, before: char, w: WriteResult)
    | Writable(w: WriteResult)

  function Arrived(e: Event): seq<char> {
    if e.Readable? && e.result.Bytes? then e.result.bytes else []
  }

  function Received(es: seq<Event>): seq<char> {
    if es == [] then [] else Received(es[..|es| - 1]) + Arrived(es[|es| - 1])
  }

  /** One report of writability for each of `ws`. */
  function Writes(ws: seq<WriteResult>): (es: seq<Event>)
    ensures |es| == |ws| && forall i :: 0 <= i < |ws| ==> es[i] == Writable(ws[i])
  {
    seq(|ws|, i requires 0 <= i < |ws| => Writable(ws[i]))
  }

  lemma OneMoreWrite(es: seq<Event>, ws: seq<WriteResult>)
    requires ws != []
    ensures (es + Writes(ws))[..|es| + |ws| - 1] == es + Writes(ws[..|ws| - 1])
    ensures (es + Writes(ws))[|es| + |ws| - 1] == Writable(ws[|ws| - 1])
  {
  }

  const START := State([], [], EVENT_READ, 0, [])

  /** A stream that is as expected but for stray bytes, and grows by what is expected. */
  lemma StreamTally(stream: seq<char>, expected: seq<char>, failures: nat, extra: seq<char>, more: seq<char>)
    requires |stream| == |expected| + failures && (stream == expected <==> failures == 0)
    ensures |stream + extra + more| == |expected + more| + failures + |extra|
    ensures stream + extra + more == expected + more <==> failures + |extra| == 0
  {
  }

  class Connection {
    const input: Buffer
    const output: Buffer
    const channel: Channel
    ghost var wire: seq<char>

    ghost predicate Valid()
      reads this, input, output, channel
    {
      && input != output && input.data != output.data
      && input.Valid() && output.Valid()
    }

    ghost function Abs(): State
      requires Valid()
      reads this, input, output, channel, input.data, output.data
    {
      State(input.Contents(), output.Contents(), channel.events, channel.updates, wire)
    }

    constructor (fd: int)
      ensures Valid() && fresh(input) && fresh(output) && fresh(channel)
      ensures fresh(input.data) && fresh(output.data)
      ensures Abs() == START
    {
      input := new Buffer();
      output := new Buffer();
      channel := new Channel(fd, EVENT_READ, true, true);
      wire := [];
    }

    /** `tcp_connection_send_data`; `w` is the kernel's answer to the direct write. */
    method SendData(xs: seq<char>, before: char, w: WriteResult) returns (nwrited: int)
      requires Valid()
      modifies this, output, output.data, channel
      ensures Valid() && (output.data == old(output.data) || fresh(output.data))
      ensures Abs() == old(Abs()).Send(xs, before, w)
      ensures nwrited == if !old(Abs()).Direct() then 0 else if w.WriteFailed? then -1 else Taking(w, |xs|)
      ensures nwrited <= |xs| && wire == old(wire) + xs[..if nwrited >= 0 then nwrited else 0]
      ensures old(Abs()).Direct() && nwrited >= 0 ==> output.Contents() == xs[nwrited..]
    {
      SendSplits(Abs(), xs, before, w);
      nwrited := 0;
      var rest := xs;
      if channel.events & EVENT_WRITE == 0 && output.writeIndex - output.readIndex == 0 {
        if w.WriteFailed? {
          nwrited := -1;
          rest := [before] + xs;
        } else {
          nwrited := Taking(w, |xs|);
          wire := wire + xs[..nwrited];
          rest := xs[nwrited..];
        }
      }
      BufferRest(rest);
    }

    /** The tail of `tcp_connection_send_data`: buffer what is left and watch for writability. */
    method BufferRest(rest: seq<char>)
      requires Valid()
      modifies output, output.data, channel
      ensures Valid() && (output.data == old(output.data) || fresh(output.data))
      ensures Abs() == old(Abs()).Enqueue(rest)
    {
      if |rest| > 0 {
        var n := output.Append(rest);
        if channel.events & EVENT_WRITE == 0 {
          channel.WriteEventEnable();
        }
      }
    }

    /** `tcp_connection_send_buffer` */
    method SendBuffer(buffer: Buffer, before: char, w: WriteResult) returns (nwrited: int)
      requires Valid() && buffer.Valid()
      requires buffer != input && buffer != output
      requires buffer.data != input.data && buffer.data != output.data
      modifies this, output, output.data, channel, buffer`readIndex
      ensures Valid() && (output.data == old(output.data) || fresh(output.data))
      ensures buffer.Valid() && buffer.Contents() == []
      ensures Abs() == old(Abs()).Send(old(buffer.Contents()), before, w)
      ensures nwrited == if !old(Abs()).Direct() then 0
                         else if w.WriteFailed? then -1
                         else Taking(w, |old(buffer.Contents())|)
    {
      hide State.Send, State.Direct, Taking, NulFree;
      var size := buffer.writeIndex - buffer.readIndex;
      nwrited := SendData(buffer.data[buffer.readIndex..buffer.readIndex + size], before, w);
      buffer.readIndex := buffer.readIndex + size;
    }

    /** The first half of `handle_read`: true when the message callback is due. */
    method ReadInput(result: ReadResult) returns (due: bool)
      requires Valid()
      requires result.Bytes? ==> |result.bytes| <= input.data.Length - input.writeIndex + INIT_BUFFER_SIZE
      modifies input, input.data
      ensures Valid() && (input.data == old(input.data) || fresh(input.data))
      ensures due <==> result.Bytes? && result.bytes != []
      ensures Abs() == old(Abs()).(input := old(input.Contents()) + if result.Bytes? then result.bytes else [])
    {
      ghost var before := input.Abs();
      if result.Bytes? {
        ArriveGrows(before, result.bytes);
      }
      var n := input.SocketRead(result);
      due := n > 0;
    }

    /** `handle_write`; `due` when the write-completed callback is called. */
    method HandleWrite(w: WriteResult) returns (due: bool)
      requires Valid()
      modifies this, output, channel
      ensures Valid()
      ensures Abs() == old(Abs()).Flush(w)
      ensures due <==> Taking(w, |old(output.Contents())|) > 0
    {
      var nwrited := Taking(w, output.writeIndex - output.readIndex);
      due := nwrited > 0;
      if due {
        Deliver(nwrited);
        if output.writeIndex - output.readIndex == 0 {
          channel.WriteEventDisable();
        }
      }
    }

    /** The kernel takes `n` bytes of the output. */
    method Deliver(n: nat)
      requires Valid() && n <= |output.Contents()|
      modifies this, output
      ensures Valid()
      ensures Abs() == old(Abs()).(wire := old(wire + output.Contents()[..n]), output := old(output.Contents()[n..]))
    {
      ghost var held := output.Contents();
      assert output.data[output.readIndex..output.readIndex + n] == held[..n];
      wire := wire + output.data[output.readIndex..output.readIndex + n];
      output.readIndex := output.readIndex + n;
      assert output.Contents() == held[n..];
    }
  }
}
