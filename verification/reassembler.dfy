/**
  The per-connection line reassembler of `TcpServer.HandleClientAsync`: received
  text is appended to a buffer, and while the buffer holds a '\n' the text before
  it is cut off (terminator included), trimmed, and handed on unless it is blank.
  Chunks are the already-decoded text of each read.
*/
module LineReassembler {
  import opened Text

  const Newline: char := '\n'

  /** The complete lines of a buffer, in order, terminators excluded. */
  function Frames(buffer: string): seq<string> {
    Cut(Newline, [], buffer).closed
  }

  /** The incomplete tail that stays buffered until more data arrives. */
  function Pending(buffer: string): (r: string)
    ensures Newline !in r
  {
    CutPiecesFree(Newline, [], buffer);
    Cut(Newline, [], buffer).open
  }

  /** Nothing is lost or duplicated: the complete lines and the pending tail are the
      pieces of `String.Split('\n')`, and gluing them back gives the buffer. */
  lemma FramesAreSplitPieces(buffer: string)
    ensures Frames(buffer) + [Pending(buffer)] == Split(buffer, Newline)
    ensures Join(Frames(buffer) + [Pending(buffer)], Newline) == buffer
  {
    JoinSplit(buffer, Newline);
  }

  /** A buffer without a terminator is all pending. */
  lemma NoNewlineAllPending(buffer: string)
    requires Newline !in buffer
    ensures Frames(buffer) == [] && Pending(buffer) == buffer
  {
    CutPlain(Newline, [], buffer);
    assert [] + buffer == buffer;
  }

  /** Cutting at the first terminator: the line before it is the first frame, and the
      rest of the buffer supplies the remaining frames and the pending tail. */
  lemma FramesAtNewline(line: string, rest: string)
    requires Newline !in line
    ensures Frames(line + [Newline] + rest) == [line] + Frames(rest)
    ensures Pending(line + [Newline] + rest) == Pending(rest)
  {
    CutLine(Newline, [], line, rest);
    assert [] + line == line;
  }

  /** Scanning resumed from a pending tail is scanning that tail again. */
  lemma ResumeFromPending(pending: string, s: string)
    requires Newline !in pending
    ensures Cut(Newline, [], pending + s) == Cut(Newline, pending, s)
  {
    CutAppend(Newline, [], pending, s);
    CutPlain(Newline, [], pending);
    assert [] + pending == pending;
  }

  /** Appending text never disturbs the lines already complete: the basis of
      chunking invariance. */
  lemma FramesAppend(a: string, b: string)
    ensures Frames(a + b) == Frames(a) + Frames(Pending(a) + b)
    ensures Pending(a + b) == Pending(Pending(a) + b)
  {
    CutAppend(Newline, [], a, b);
    ResumeFromPending(Pending(a), b);
  }

  /** What one complete line contributes: its trimmed text, or nothing when it is blank. */
  function Keep(frame: string): (r: seq<string>)
    ensures r == [] <==> IsBlank(frame)
    ensures r != [] ==> r == [Trim(frame)] && Trim(frame) != []
  {
    var m := Trim(frame);
    if IsBlank(m) then [] else [m]
  }

  /** The trimmed, non-blank lines, in order: what reaches `ExtractData`. */
  function Messages(frames: seq<string>): (ms: seq<string>)
    ensures |ms| <= |frames|
  {
    if frames == [] then [] else Keep(frames[0]) + Messages(frames[1..])
  }

  lemma MessagesCons(frame: string, frames: seq<string>)
    ensures Messages([frame] + frames) == Keep(frame) + Messages(frames)
  {
    assert ([frame] + frames)[1..] == frames;
  }

  lemma {:induction false} MessagesAppend(a: seq<string>, b: seq<string>)
    ensures Messages(a + b) == Messages(a) + Messages(b)
  {
    if a == [] {
      assert a + b == b;
    } else {
      MessagesAppend(a[1..], b);
      MessagesAppendStep(a, b);
    }
  }

  lemma MessagesAppendStep(a: seq<string>, b: seq<string>)
    requires a != []
    requires Messages(a[1..] + b) == Messages(a[1..]) + Messages(b)
    ensures Messages(a + b) == Messages(a) + Messages(b)
  {
    HeadTail(a, b);
    MessagesCons(a[0], a[1..] + b);
    MessagesCons(a[0], a[1..]);
    Reassociate(Keep(a[0]), Messages(a[1..]), Messages(b));
  }

  lemma HeadTail<T>(a: seq<T>, b: seq<T>)
    requires a != []
    ensures a == [a[0]] + a[1..]
    ensures a + b == [a[0]] + (a[1..] + b)
  {
  }

  lemma Reassociate<T>(x: seq<T>, y: seq<T>, z: seq<T>)
    ensures x + (y + z) == (x + y) + z
  {
  }

  datatype Drained = Drained(messages: seq<string>, rest: string)

  /** One read: append the chunk, then drain every complete line. */
  function Receive(buffer: string, chunk: string): (d: Drained)
    ensures Newline !in d.rest
  {
    Drained(Messages(Frames(buffer + chunk)), Pending(buffer + chunk))
  }

  /** A sequence of reads on one connection, the buffer carried from read to read. */
  function ReceiveAll(buffer: string, chunks: seq<string>): Drained
    decreases |chunks|
  {
    if chunks == [] then Drained([], buffer)
    else
      var d := Receive(buffer, chunks[0]);
      var tail := ReceiveAll(d.rest, chunks[1..]);
      Drained(d.messages + tail.messages, tail.rest)
  }

  /** All chunks of a connection, in arrival order. */
  function Concat(chunks: seq<string>): string {
    if chunks == [] then [] else chunks[0] + Concat(chunks[1..])
  }

  /** Chunking invariance: whatever the split into reads, the messages produced
      and the text left buffered are those of the concatenated stream. */
  lemma {:induction false} ChunkingInvariance(buffer: string, chunks: seq<string>)
    requires Newline !in buffer
    ensures ReceiveAll(buffer, chunks)
      == Drained(Messages(Frames(buffer + Concat(chunks))), Pending(buffer + Concat(chunks)))
    decreases |chunks|
  {
    if chunks == [] {
      NoNewlineAllPending(buffer);
      assert buffer + Concat(chunks) == buffer;
    } else {
      var whole := buffer + chunks[0];
      ChunkingInvariance(Pending(whole), chunks[1..]);
      ChunkStep(buffer, chunks[0], Concat(chunks[1..]));
      assert Concat(chunks) == chunks[0] + Concat(chunks[1..]);
    }
  }

  /** One read followed by the rest of the stream drains like the whole stream at once. */
  lemma ChunkStep(buffer: string, chunk: string, later: string)
    ensures Messages(Frames(buffer + chunk)) + Messages(Frames(Pending(buffer + chunk) + later))
      == Messages(Frames(buffer + (chunk + later)))
    ensures Pending(Pending(buffer + chunk) + later) == Pending(buffer + (chunk + later))
  {
    var whole := buffer + chunk;
    FramesAppend(whole, later);
    MessagesAppend(Frames(whole), Frames(Pending(whole) + later));
    assert whole + later == buffer + (chunk + later);
  }

  /** Two connections that receive the same text in different chunks produce the same messages. */
  lemma SameStreamSameMessages(c1: seq<string>, c2: seq<string>)
    requires Concat(c1) == Concat(c2)
    ensures ReceiveAll([], c1) == ReceiveAll([], c2)
  {
    ChunkingInvariance([], c1);
    ChunkingInvariance([], c2);
  }

  /** A buffer holding one terminated line yields that line and leaves nothing pending. */
  lemma OneTerminatedLine(b: string)
    requires Newline !in b
    ensures Frames(b + [Newline]) == [b]
    ensures Pending(b + [Newline]) == []
  {
    FramesAtNewline(b, []);
    assert b + [Newline] + [] == b + [Newline];
    NoNewlineAllPending([]);
  }

  lemma TwoTerminatedLines(a: string, b: string)
    requires Newline !in a && Newline !in b
    ensures Frames(a + [Newline] + b + [Newline]) == [a, b]
    ensures Pending(a + [Newline] + b + [Newline]) == []
  {
    FramesAtNewline(a, b + [Newline]);
    OneTerminatedLine(b);
    assert a + [Newline] + b + [Newline] == a + [Newline] + (b + [Newline]);
  }

  /** Two newline-terminated lines in a single read give two messages, not one. */
  lemma TwoLinesInOneRead(a: string, b: string)
    requires Newline !in a && Newline !in b
    requires !IsBlank(a) && !IsBlank(b)
    ensures Receive([], a + [Newline] + b + [Newline]).messages == [Trim(a), Trim(b)]
    ensures Receive([], a + [Newline] + b + [Newline]).rest == []
  {
    var s := a + [Newline] + b + [Newline];
    assert [] + s == s;
    TwoTerminatedLines(a, b);
    MessagesCons(a, [b]);
    MessagesCons(b, []);
    assert [a] + [b] == [a, b];
  }

  /** The draining loop of the receive handler, statement for statement: find the
      first '\n', cut the trimmed line, drop it with its terminator, skip blanks. */
  method DrainBuffer(buffer: string) returns (messages: seq<string>, rest: string)
    ensures messages == Messages(Frames(buffer))
    ensures rest == Pending(buffer)
  {
    messages := [];
    rest := buffer;
    while true
      invariant Messages(Frames(buffer)) == messages + Messages(Frames(rest))
      invariant Pending(buffer) == Pending(rest)
      decreases |rest|
    {
      var newlineIndex := IndexOf(rest, Newline);
      if newlineIndex == -1 {
        NoNewlineAllPending(rest);
        break;
      }
      var complete := Trim(rest[..newlineIndex]);
      DrainIteration(Messages(Frames(buffer)), Pending(buffer), messages, rest, newlineIndex);
      rest := rest[newlineIndex + 1..];
      if IsBlank(complete) {
        continue;
      }
      messages := messages + [complete];
    }
  }

  /** One pass of the draining loop keeps its invariant: the line before the first
      terminator is either skipped (blank) or appended trimmed, and the rest of the
      buffer accounts for everything else. */
  lemma DrainIteration(total: seq<string>, pending: string, messages: seq<string>, rest: string, i: int)
    requires 0 <= i < |rest| && rest[i] == Newline && Newline !in rest[..i]
    requires total == messages + Messages(Frames(rest)) && pending == Pending(rest)
    ensures var complete := Trim(rest[..i]);
      total == (if IsBlank(complete) then messages else messages + [complete])
               + Messages(Frames(rest[i + 1..]))
    ensures pending == Pending(rest[i + 1..])
  {
    var line, after := rest[..i], rest[i + 1..];
    assert rest == line + [Newline] + after;
    FramesAtNewline(line, after);
    MessagesCons(line, Frames(after));
    Reassociate(messages, Keep(line), Messages(Frames(after)));
  }
}
