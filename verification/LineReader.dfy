/**
 A line-buffered reader: a reader task reads whole lines from a source that delivers them in arbitrary chunks and sends
 them through a channel; polls serve the lines in pieces of any size.
 */
module LineReader {
  import opened Arithmetic
  import opened ByteStrings
  import opened Options

  const NEWLINE: Byte := 10

  datatype Failure = SourceFailed | LineTooLong

  datatype Message = Line(bytes: Bytes) | Failed(failure: Failure)

  // ---------------------------------------------------------------- one line

  /** How many bytes the first line has, its newline included. */
  function LineLength(s: Bytes): (n: nat)
    ensures n <= |s| && (s != [] ==> n > 0)
  {
    if s == [] then 0 else if s[0] == NEWLINE then 1 else 1 + LineLength(s[1..])
  }

  predicate HasNewline(s: Bytes) {
    NEWLINE in s
  }

  /**
   What reading one line gives, whatever the chunks: nothing at the end. A failing source loses an unfinished line.
   */
  function NextMessage(source: Bytes, fails: bool, cap: nat): Option<Message> {
    var n := LineLength(source);
    if n > cap then Some(Failed(LineTooLong))
    else if !HasNewline(source) && fails then Some(Failed(SourceFailed))
    else if source == [] then None
    else Some(Line(source[..n]))
  }

  function Joined(chunks: seq<Bytes>): Bytes {
    if chunks == [] then [] else chunks[0] + Joined(chunks[1..])
  }

  lemma {:induction false} LineOfPrefix(a: Bytes, b: Bytes)
    ensures HasNewline(a) ==> LineLength(a + b) == LineLength(a) && a[LineLength(a) - 1] == NEWLINE
    ensures !HasNewline(a) ==> LineLength(a + b) == |a| + LineLength(b) && LineLength(a) == |a|
    ensures HasNewline(a + b) <==> HasNewline(a) || HasNewline(b)
  {
    if a == [] {
      assert a + b == b;
    } else {
      assert (a + b)[1..] == a[1..] + b && a == [a[0]] + a[1..];
      LineOfPrefix(a[1..], b);
    }
  }

  lemma LineEndsInNewline(s: Bytes)
    requires HasNewline(s)
    ensures LineLength(s) > 0 && s[LineLength(s) - 1] == NEWLINE
  {
    LineOfPrefix(s, []);
  }

  lemma NoNewlineIsWhole(s: Bytes)
    requires !HasNewline(s)
    ensures LineLength(s) == |s|
  {
    LineOfPrefix(s, []);
  }

  /** A source that hands out what it has in nonempty chunks and then ends or fails. */
  class ChunkedSource {
    var chunks: seq<Bytes>
    const fails: bool

    constructor (chunks: seq<Bytes>, fails: bool)
      requires forall k | 0 <= k < |chunks| :: chunks[k] != []
      ensures Valid() && this.chunks == chunks && this.fails == fails
    {
      this.chunks, this.fails := chunks, fails;
    }

    predicate Valid()
      reads this
    {
      forall k | 0 <= k < |chunks| :: chunks[k] != []
    }

    function Rest(): Bytes
      reads this
    {
      Joined(chunks)
    }

    /** What is buffered; nothing at the end; no value if the source fails here. */
    function FillBuf(): Option<Bytes>
      reads this
    {
      if chunks != [] then Some(chunks[0]) else if fails then None else Some([])
    }

    method Consume(n: nat)
      requires Valid() && chunks != [] && n <= |chunks[0]|
      modifies this
      ensures Valid() && old(Rest()) == old(chunks[0])[..n] + Rest()
      ensures Rest() == old(Rest())[n..]
    {
      ghost var tail := Joined(chunks[1..]);
      if n == |chunks[0]| {
        chunks := chunks[1..];
      } else {
        assert [chunks[0][n..]][1..] + chunks[1..] == chunks[1..];
        assert ([chunks[0][n..]] + chunks[1..])[1..] == chunks[1..];
        chunks := [chunks[0][n..]] + chunks[1..];
      }
    }
  }

  datatype LineResult = Got(n: nat) | Failure(failure: Failure)

  function ResultOf(message: Option<Message>): LineResult {
    match message
    case None => Got(0)
    case Some(Line(bytes)) => Got(|bytes|)
    case Some(Failed(failure)) => Failure(failure)
  }

  /** How much of a chunk belongs to the line. */
  function TakenFrom(chunk: Bytes): (n: nat)
    ensures n <= |chunk| && (chunk != [] ==> n > 0)
  {
    if HasNewline(chunk) then LineLength(chunk) else |chunk|
  }

  lemma AfterChunk(line: Bytes, chunk: Bytes, more: Bytes)
    requires !HasNewline(line)
    ensures var source, n := line + (chunk + more), TakenFrom(chunk);
            && LineLength(source) >= |line| + n
            && source == (line + chunk[..n]) + (chunk + more)[n..]
            && (HasNewline(chunk) ==> LineLength(source) == |line| + n && HasNewline(source))
            && (!HasNewline(chunk) ==> !HasNewline(line + chunk[..n]))
  {
    hide LineLength, HasNewline;
    LineOfPrefix(line, chunk + more);
    LineOfPrefix(chunk, more);
    LineOfPrefix(line, chunk);
    var n := TakenFrom(chunk);
    assert chunk + more == (chunk + more)[..n] + (chunk + more)[n..];
    assert (chunk + more)[..n] == chunk[..n];
    assert line + (chunk[..n] + (chunk + more)[n..]) == (line + chunk[..n]) + (chunk + more)[n..];
    assert !HasNewline(chunk) ==> chunk[..n] == chunk;
  }

  /** Reads up to and including a newline; the size is checked after each chunk. */
  method ReadLineCapped(reader: ChunkedSource, cap: nat) returns (r: LineResult, line: Bytes)
    requires reader.Valid()
    modifies reader
    ensures reader.Valid()
    ensures r == ResultOf(NextMessage(old(reader.Rest()), reader.fails, cap))
    ensures r.Got? ==> line + reader.Rest() == old(reader.Rest()) && r.n == |line| == LineLength(old(reader.Rest()))
  {
    hide LineLength, HasNewline, NextMessage, TakenFrom, Joined;
    ghost var source := reader.Rest();
    line := [];
    NextMessageIs(source, reader.fails, cap);
    assert source == line + reader.Rest();
    NothingHasNoNewline();
    while true
      invariant reader.Valid() && source == line + reader.Rest()
      invariant !HasNewline(line) && |line| <= cap
      decreases |reader.Rest()|
    {
      var available := reader.FillBuf();
      JoinedStep(reader.chunks);
      if available.None? || available.value == [] {
        assert line + [] == line;
        NoNewlineIsWhole(line);
        return if available.None? then Failure(SourceFailed) else Got(|line|), line;
      }
      var chunk := available.value;
      AfterChunk(line, chunk, Joined(reader.chunks[1..]));
      var consumed := TakenFrom(chunk);
      reader.Consume(consumed);
      line := line + chunk[..consumed];
      if |line| > cap {
        return Failure(LineTooLong), line;
      }
      if HasNewline(chunk) {
        return Got(|line|), line;
      }
    }
  }

  lemma JoinedStep(chunks: seq<Bytes>)
    ensures Joined(chunks) == if chunks == [] then [] else chunks[0] + Joined(chunks[1..])
  {
  }

  lemma NothingHasNoNewline()
    ensures !HasNewline([])
  {
  }

  lemma NextMessageIs(source: Bytes, fails: bool, cap: nat)
    ensures NextMessage(source, fails, cap) ==
            if LineLength(source) > cap then Some(Failed(LineTooLong))
            else if !HasNewline(source) && fails then Some(Failed(SourceFailed))
            else if source == [] then None
            else Some(Line(source[..LineLength(source)]))
    ensures source == [] ==> LineLength(source) == 0 && !HasNewline(source)
  {
  }

  lemma {:induction false} FirstLineIs(front: Bytes, more: Bytes)
    requires NEWLINE !in front
    ensures LineLength(front + [NEWLINE] + more) == |front| + 1
    ensures LineLength(front) == |front|
  {
    var s := front + [NEWLINE] + more;
    if front == [] {
      assert s[0] == NEWLINE;
    } else {
      assert s[1..] == front[1..] + [NEWLINE] + more;
      FirstLineIs(front[1..], more);
    }
  }

  /**
   A line that is ended by a newline comes with it and fails only by its length, whatever stands behind it. Without a
   newline the rest is a line of its own, unless it is too long, the source fails behind it, or nothing is left.
   */
  lemma WhatComesNext(front: Bytes, more: Bytes, fails: bool, cap: nat)
    requires NEWLINE !in front
    ensures NextMessage(front + [NEWLINE] + more, fails, cap) ==
            Some(if |front| + 1 <= cap then Line(front + [NEWLINE]) else Failed(LineTooLong))
    ensures NextMessage(front, fails, cap) ==
            if |front| > cap then Some(Failed(LineTooLong))
            else if fails then Some(Failed(SourceFailed))
            else if front == [] then None else Some(Line(front))
  {
    hide LineLength;
    FirstLineIs(front, more);
    var s := front + [NEWLINE] + more;
    assert s[|front|] == NEWLINE;
    assert s[..|front| + 1] == front + [NEWLINE];
    assert front[..|front|] == front;
    NextMessageIs(s, fails, cap);
    NextMessageIs(front, fails, cap);
  }

  // ---------------------------------------------------------------- the reader task, the channel and the polls

  /** What is being served, what is in the channel, whether the reader task has ended, and what it has not read yet. */
  datatype Conn = Conn(buf: Bytes, pos: nat, queue: seq<Message>, done: bool, source: Bytes)

  /** One round of the reader task: a line is sent, or an error and the end, or the end. */
  function Send(c: Conn, fails: bool, cap: nat): Conn {
    if c.done then c
    else
      match NextMessage(c.source, fails, cap)
      case None => c.(done := true)
      case Some(Failed(failure)) => c.(queue := c.queue + [Failed(failure)], done := true)
      case Some(Line(bytes)) => c.(queue := c.queue + [Line(bytes)], source := c.source[|bytes|..])
  }

  datatype PollResult = Pending | Ready(bytes: Bytes) | Error(failure: Failure)

  function Serve(c: Conn, size: nat): (Conn, PollResult)
    requires c.pos < |c.buf|
  {
    var n := Min(|c.buf| - c.pos, size);
    var rest := if c.pos + n >= |c.buf| then c.(buf := [], pos := 0) else c.(pos := c.pos + n);
    (rest, Ready(c.buf[c.pos..c.pos + n]))
  }

  /** One poll with a destination of the given size. */
  function Poll(c: Conn, size: nat): (Conn, PollResult) {
    if c.pos < |c.buf| then Serve(c, size)
    else if c.queue == [] then (c, if c.done then Ready([]) else Pending)
    else
      var next := c.(queue := c.queue[1..]);
      match c.queue[0]
      case Failed(failure) => (next, Error(failure))
      case Line(line) =>
        var n := Min(|line|, size);
        (if n < |line| then next.(buf := line, pos := n) else next, Ready(line[..n]))
  }

  datatype Step = TaskRuns | Polls(size: nat)

  function Start(source: Bytes): Conn {
    Conn([], 0, [], false, source)
  }

  function BytesOf(r: PollResult): Bytes {
    if r.Ready? then r.bytes else []
  }

  /** The connection after the steps, and everything delivered by then. */
  function Run(source: Bytes, fails: bool, cap: nat, steps: seq<Step>): (Conn, Bytes) {
    if steps == [] then (Start(source), [])
    else
      var (c, delivered) := Run(source, fails, cap, steps[..|steps| - 1]);
      match steps[|steps| - 1]
      case TaskRuns => (Send(c, fails, cap), delivered)
      case Polls(size) =>
        var (after, r) := Poll(c, size);
        (after, delivered + BytesOf(r))
  }

  // ---------------------------------------------------------------- the stream is preserved

  function LinesOf(queue: seq<Message>): Bytes {
    if queue == [] then [] else (if queue[0].Line? then queue[0].bytes else []) + LinesOf(queue[1..])
  }

  /** What has been read from the source but not delivered. */
  function Held(c: Conn): Bytes {
    (if c.pos < |c.buf| then c.buf[c.pos..] else []) + LinesOf(c.queue)
  }

  /** The read position stands behind a newline, or at either end of the source. */
  predicate AtBoundary(source: Bytes, rest: Bytes) {
    |rest| <= |source| && (rest == [] || |rest| == |source| || source[|source| - |rest| - 1] == NEWLINE)
  }

  predicate WellFormed(c: Conn, fails: bool, cap: nat) {
    && (c.pos < |c.buf| || (c.buf == [] && c.pos == 0))
    && (forall k | 0 <= k < |c.queue| && c.queue[k].Line? :: c.queue[k].bytes != [])
    && (c.done ==> match NextMessage(c.source, fails, cap) case None => true case Some(m) => m.Failed?)
  }

  predicate Preserved(source: Bytes, c: Conn, delivered: Bytes) {
    delivered + Held(c) + c.source == source && AtBoundary(source, c.source)
  }

  lemma {:induction false} LinesOfSnoc(queue: seq<Message>, m: Message)
    ensures LinesOf(queue + [m]) == LinesOf(queue) + if m.Line? then m.bytes else []
  {
    if queue == [] {
      assert queue + [m] == [m];
    } else {
      assert (queue + [m])[1..] == queue[1..] + [m];
      LinesOfSnoc(queue[1..], m);
    }
  }

  lemma HeldAfterSend(c: Conn, m: Message, rest: Bytes, done: bool)
    ensures Held(c.(queue := c.queue + [m], source := rest, done := done)) == Held(c) + if m.Line? then m.bytes else []
  {
    hide LinesOf;
    LinesOfSnoc(c.queue, m);
    var front := if c.pos < |c.buf| then c.buf[c.pos..] else [];
    var more := if m.Line? then m.bytes else [];
    assert front + (LinesOf(c.queue) + more) == front + LinesOf(c.queue) + more;
  }

  lemma SentLinePreserves(source: Bytes, c: Conn, delivered: Bytes)
    requires Preserved(source, c, delivered) && c.source != []
    ensures var n := LineLength(c.source);
            Preserved(source, c.(queue := c.queue + [Line(c.source[..n])], source := c.source[n..]), delivered)
  {
    hide LineLength, Held, AtBoundary;
    var n := LineLength(c.source);
    var after := c.(queue := c.queue + [Line(c.source[..n])], source := c.source[n..]);
    HeldAfterSend(c, Line(c.source[..n]), c.source[n..], c.done);
    PreservedIsSuffix(source, c, delivered);
    SentAtBoundary(source, c.source);
    assert after == c.(queue := after.queue, source := after.source, done := c.done);
    assert c.source == c.source[..n] + c.source[n..];
    assert delivered + (Held(c) + c.source[..n]) + c.source[n..] ==
           delivered + Held(c) + (c.source[..n] + c.source[n..]);
  }

  lemma FailurePreserves(source: Bytes, c: Conn, delivered: Bytes, failure: Failure)
    requires Preserved(source, c, delivered)
    ensures Preserved(source, c.(queue := c.queue + [Failed(failure)], done := true), delivered)
  {
    hide AtBoundary, Held;
    HeldAfterSend(c, Failed(failure), c.source, true);
    assert Held(c) + [] == Held(c);
  }

  lemma EndPreserves(source: Bytes, c: Conn, delivered: Bytes)
    requires Preserved(source, c, delivered)
    ensures Preserved(source, c.(done := true), delivered)
  {
    hide AtBoundary, LinesOf;
  }

  lemma SendPreserves(source: Bytes, c: Conn, delivered: Bytes, fails: bool, cap: nat)
    requires Preserved(source, c, delivered) && WellFormed(c, fails, cap)
    ensures Preserved(source, Send(c, fails, cap), delivered) && WellFormed(Send(c, fails, cap), fails, cap)
  {
    hide LineLength, HasNewline, Preserved, NextMessage;
    if !c.done {
      NextMessageIs(c.source, fails, cap);
      match NextMessage(c.source, fails, cap)
      case None => EndPreserves(source, c, delivered);
      case Some(Failed(failure)) => FailurePreserves(source, c, delivered, failure);
      case Some(Line(bytes)) => SentLinePreserves(source, c, delivered);
    }
  }

  lemma SentAtBoundary(source: Bytes, rest: Bytes)
    requires rest != [] && AtBoundary(source, rest) && rest == source[|source| - |rest|..]
    ensures AtBoundary(source, rest[LineLength(rest)..])
  {
    hide LineLength, HasNewline;
    if HasNewline(rest) {
      LineEndsInNewline(rest);
      assert rest[LineLength(rest) - 1] == source[|source| - |rest| + LineLength(rest) - 1];
    } else {
      NoNewlineIsWhole(rest);
    }
  }

  lemma PreservedIsSuffix(source: Bytes, c: Conn, delivered: Bytes)
    requires Preserved(source, c, delivered)
    ensures c.source == source[|source| - |c.source|..]
  {
    hide Held;
  }

  lemma PollPreserves(source: Bytes, c: Conn, delivered: Bytes, fails: bool, cap: nat, size: nat)
    requires Preserved(source, c, delivered) && WellFormed(c, fails, cap)
    ensures var (after, r) := Poll(c, size);
            Preserved(source, after, delivered + BytesOf(r)) && WellFormed(after, fails, cap)
  {
    hide NextMessage, AtBoundary, LinesOf;
    var (after, r) := Poll(c, size);
    PollTakesFromHeld(c, size);
    assert delivered + (BytesOf(r) + Held(after)) + c.source == delivered + BytesOf(r) + Held(after) + c.source;
    assert forall k | 0 <= k < |after.queue| :: after.queue[k] in c.queue;
  }

  lemma ServeTakesFromHeld(c: Conn, size: nat)
    requires c.pos < |c.buf|
    ensures var (after, r) := Serve(c, size); Held(c) == BytesOf(r) + Held(after) && after.source == c.source
  {
    hide LinesOf;
    var n := Min(|c.buf| - c.pos, size);
    var first, rest := c.buf[c.pos..c.pos + n], c.buf[c.pos + n..];
    assert c.buf[c.pos..] == first + rest;
    assert (first + rest) + LinesOf(c.queue) == first + (rest + LinesOf(c.queue));
  }

  lemma LineTakesFromHeld(c: Conn, line: Bytes, size: nat)
    requires c.pos >= |c.buf| && c.queue != [] && c.queue[0] == Line(line) && c.buf == [] && c.pos == 0
    ensures var (after, r) := Poll(c, size); Held(c) == BytesOf(r) + Held(after) && after.source == c.source
  {
    hide LinesOf;
    LinesOfHead(c.queue);
    var n := Min(|line|, size);
    var rest := LinesOf(c.queue[1..]);
    assert line == line[..n] + line[n..];
    assert (line[..n] + line[n..]) + rest == line[..n] + (line[n..] + rest);
    assert [] + (line + rest) == line + rest && [] + rest == rest;
    assert n == |line| ==> line[n..] == [];
  }

  /** A poll delivers the front of what is held. */
  lemma PollTakesFromHeld(c: Conn, size: nat)
    requires c.pos < |c.buf| || (c.buf == [] && c.pos == 0)
    ensures var (after, r) := Poll(c, size); Held(c) == BytesOf(r) + Held(after) && after.source == c.source
  {
    hide LinesOf;
    if c.pos < |c.buf| {
      ServeTakesFromHeld(c, size);
    } else if c.queue != [] && c.queue[0].Line? {
      LineTakesFromHeld(c, c.queue[0].bytes, size);
    } else {
      LinesOfHead(c.queue);
    }
  }

  lemma LinesOfHead(queue: seq<Message>)
    ensures LinesOf(queue) ==
            if queue == [] then [] else (if queue[0].Line? then queue[0].bytes else []) + LinesOf(queue[1..])
  {
  }

  /**
   Whatever the schedule and the sizes: what was delivered, what is held and what is unread make up the source, so the
   delivered bytes are a prefix of it, and the reader task has stopped behind a newline or at the end.
   */
  lemma {:induction false} RunPreservesStream(source: Bytes, fails: bool, cap: nat, steps: seq<Step>)
    ensures var (c, delivered) := Run(source, fails, cap, steps);
            Preserved(source, c, delivered) && WellFormed(c, fails, cap) && delivered <= source
  {
    hide Send, Poll, Preserved, WellFormed;
    if steps == [] {
      StartIsPreserved(source, fails, cap);
    } else {
      var before := steps[..|steps| - 1];
      RunPreservesStream(source, fails, cap, before);
      var (c, delivered) := Run(source, fails, cap, before);
      match steps[|steps| - 1] {
        case TaskRuns => SendPreserves(source, c, delivered, fails, cap);
        case Polls(size) => PollPreserves(source, c, delivered, fails, cap, size);
      }
    }
    PreservedIsPrefix(source, Run(source, fails, cap, steps).0, Run(source, fails, cap, steps).1);
  }

  lemma StartIsPreserved(source: Bytes, fails: bool, cap: nat)
    ensures Preserved(source, Start(source), []) && WellFormed(Start(source), fails, cap)
  {
    hide NextMessage;
    assert [] + Held(Start(source)) + source == source;
  }

  lemma PreservedIsPrefix(source: Bytes, c: Conn, delivered: Bytes)
    requires Preserved(source, c, delivered)
    ensures delivered <= source
  {
    hide Held;
    assert source == delivered + (Held(c) + c.source);
  }

  /** A poll is pending only when everything read has been delivered, up to a newline or to an end of the source. */
  lemma PendingOnlyAtBoundary(source: Bytes, fails: bool, cap: nat, steps: seq<Step>, size: nat)
    ensures var (c, delivered) := Run(source, fails, cap, steps);
            Poll(c, size).1 == Pending ==>
              !c.done && (delivered == [] || delivered == source || delivered[|delivered| - 1] == NEWLINE)
  {
    hide Run, NextMessage, LinesOf;
    RunPreservesStream(source, fails, cap, steps);
    var (c, delivered) := Run(source, fails, cap, steps);
    LinesOfHead(c.queue);
    if Poll(c, size).1 == Pending {
      assert Held(c) == [];
      assert delivered + [] + c.source == delivered + c.source;
      assert |c.source| == |source| - |delivered|;
      assert source[..|delivered|] == delivered;
    }
  }

  /** Every line fits the cap. */
  predicate LinesWithin(s: Bytes, cap: nat) {
    s == [] || (LineLength(s) <= cap && LinesWithin(s[LineLength(s)..], cap))
  }

  /**
   Reading nothing into a nonempty destination means the end: all of the source was delivered, or an error stopped
   the reader task.
   */
  lemma NothingReadMeansEnd(source: Bytes, fails: bool, cap: nat, steps: seq<Step>, size: nat)
    requires size > 0
    ensures var (c, delivered) := Run(source, fails, cap, steps);
            Poll(c, size).1 == Ready([]) ==>
              && c.done && delivered + c.source == source
              && (c.source != [] ==> NextMessage(c.source, fails, cap).value.Failed?)
  {
    hide Run, LineLength, HasNewline, LinesOf;
    RunPreservesStream(source, fails, cap, steps);
    var (c, delivered) := Run(source, fails, cap, steps);
    LinesOfHead(c.queue);
    if Poll(c, size).1 == Ready([]) {
      assert Held(c) == [];
      assert delivered + [] + c.source == delivered + c.source;
    }
  }

  /** With no line over the cap and a source that does not fail, an end of input comes only after every byte. */
  lemma {:induction false} EverythingArrives(source: Bytes, cap: nat, steps: seq<Step>, size: nat)
    requires size > 0 && LinesWithin(source, cap)
    ensures var (c, delivered) := Run(source, false, cap, steps);
            (Poll(c, size).1 == Ready([]) ==> delivered == source) && !Poll(c, size).1.Error?
  {
    hide Run, LineLength, HasNewline, LinesWithin, WellFormed, Preserved, Poll;
    NothingReadMeansEnd(source, false, cap, steps, size);
    NoErrorArises(source, cap, steps);
    var (c, delivered) := Run(source, false, cap, steps);
    LinesWithinStep(c.source, cap);
    NoErrorPolled(c, size);
  }

  lemma LinesWithinStep(s: Bytes, cap: nat)
    requires LinesWithin(s, cap)
    ensures LineLength(s) <= cap
    ensures s != [] ==> LinesWithin(s[LineLength(s)..], cap)
  {
  }

  lemma NoErrorPolled(c: Conn, size: nat)
    requires forall k | 0 <= k < |c.queue| :: c.queue[k].Line?
    ensures !Poll(c, size).1.Error?
  {
  }

  lemma {:induction false} NoErrorArises(source: Bytes, cap: nat, steps: seq<Step>)
    requires LinesWithin(source, cap)
    ensures var c := Run(source, false, cap, steps).0;
            LinesWithin(c.source, cap) && forall k | 0 <= k < |c.queue| :: c.queue[k].Line?
  {
    hide LineLength, HasNewline, LinesWithin;
    if steps != [] {
      var before := steps[..|steps| - 1];
      NoErrorArises(source, cap, before);
      LinesWithinStep(Run(source, false, cap, before).0.source, cap);
    }
  }

  // ---------------------------------------------------------------- the end is reached

  /** The lines in front of the first one that fails. */
  function Readable(source: Bytes, fails: bool, cap: nat): Bytes
    decreases |source|
  {
    match NextMessage(source, fails, cap)
    case Some(Line(bytes)) => bytes + Readable(source[LineLength(source)..], fails, cap)
    case _ => []
  }

  /** A whole line within the cap. */
  predicate IsGoodLine(line: Bytes, cap: nat) {
    0 < |line| <= cap && line[|line| - 1] == NEWLINE && NEWLINE !in line[..|line| - 1]
  }

  /** What is readable are the good lines in front of the first message that is no line. */
  lemma {:induction false} WhatIsReadable(lines: seq<Bytes>, rest: Bytes, fails: bool, cap: nat)
    requires forall k | 0 <= k < |lines| :: IsGoodLine(lines[k], cap)
    requires NextMessage(rest, fails, cap).None? || NextMessage(rest, fails, cap).value.Failed?
    ensures Readable(Joined(lines) + rest, fails, cap) == Joined(lines)
  {
    hide LineLength, HasNewline, NextMessage;
    if lines == [] {
      assert Joined(lines) + rest == rest;
    } else {
      var line := lines[0];
      var front := line[..|line| - 1];
      var more := Joined(lines[1..]) + rest;
      assert line == front + [NEWLINE];
      assert Joined(lines) + rest == front + [NEWLINE] + more;
      WhatComesNext(front, more, fails, cap);
      FirstLineIs(front, more);
      assert (front + [NEWLINE] + more)[|line|..] == more;
      WhatIsReadable(lines[1..], rest, fails, cap);
    }
  }

  /** How often the reader task runs. */
  function Runs(steps: seq<Step>): nat {
    if steps == [] then 0 else Runs(steps[..|steps| - 1]) + if steps[|steps| - 1].TaskRuns? then 1 else 0
  }

  /** How often something is asked for. */
  function Asks(steps: seq<Step>): nat {
    if steps == [] then 0
    else
      var last := steps[|steps| - 1];
      Asks(steps[..|steps| - 1]) + if last.Polls? && last.size > 0 then 1 else 0
  }

  function Failures(queue: seq<Message>): nat {
    if queue == [] then 0 else (if queue[0].Failed? then 1 else 0) + Failures(queue[1..])
  }

  /** What polls still have to fetch: the bytes held, and the error if there is one. */
  function Load(c: Conn): nat {
    |Held(c)| + Failures(c.queue)
  }

  lemma {:induction false} FailuresSnoc(queue: seq<Message>, m: Message)
    ensures Failures(queue + [m]) == Failures(queue) + if m.Failed? then 1 else 0
  {
    if queue == [] {
      assert queue + [m] == [m] && [m][1..] == [];
    } else {
      assert (queue + [m])[1..] == queue[1..] + [m];
      FailuresSnoc(queue[1..], m);
    }
  }

  lemma SendAdvances(c: Conn, fails: bool, cap: nat)
    ensures var after := Send(c, fails, cap);
            && (after.done || |after.source| < |c.source|)
            && (c.done ==> after == c)
            && Failures(after.queue) <= Failures(c.queue) + if !c.done && after.done then 1 else 0
  {
    hide LineLength, HasNewline, NextMessage, Failures;
    if !c.done {
      NextMessageIs(c.source, fails, cap);
      match NextMessage(c.source, fails, cap)
      case None =>
      case Some(m) => FailuresSnoc(c.queue, m);
    }
  }

  lemma FailuresHead(queue: seq<Message>)
    requires queue != []
    ensures Failures(queue) == Failures(queue[1..]) + if queue[0].Failed? then 1 else 0
  {
  }

  /** A poll that asks for something takes off some of the load, or there is none. */
  lemma PollLightens(c: Conn, size: nat)
    requires c.pos < |c.buf| || (c.buf == [] && c.pos == 0)
    requires forall k | 0 <= k < |c.queue| && c.queue[k].Line? :: c.queue[k].bytes != []
    ensures var (after, r) := Poll(c, size);
            && after.done == c.done && after.source == c.source
            && Load(after) <= Load(c) && Failures(after.queue) <= Failures(c.queue)
            && (size > 0 && Load(c) > 0 ==> Load(after) < Load(c))
            && (size > 0 && Load(c) == 0 ==> r == if c.done then Ready([]) else Pending)
  {
    hide Held, Failures, LinesOf;
    var (after, r) := Poll(c, size);
    PollTakesFromHeld(c, size);
    HeldIs(c);
    if c.pos >= |c.buf| && c.queue != [] {
      FailuresHead(c.queue);
    }
  }

  lemma HeldIs(c: Conn)
    ensures c.pos < |c.buf| || (c.queue != [] && c.queue[0].Line? && c.queue[0].bytes != []) ==> Held(c) != []
    ensures c.pos >= |c.buf| && c.queue == [] ==> Held(c) == [] && Load(c) == 0
  {
    LinesOfHead(c.queue);
  }

  /** Each run of the reader task reads on or is the last one; there is at most one error, sent at its end. */
  lemma {:induction false} TaskAdvances(source: Bytes, fails: bool, cap: nat, steps: seq<Step>)
    ensures var c := Run(source, fails, cap, steps).0;
            && (c.done || |c.source| + Runs(steps) <= |source|)
            && Failures(c.queue) <= if c.done then 1 else 0
  {
    hide Send, Poll, Failures, WellFormed, Preserved, Load;
    if steps == [] {
      assert Failures([]) == 0 by { NothingFailed(); }
    } else {
      var before := steps[..|steps| - 1];
      TaskAdvances(source, fails, cap, before);
      var c := Run(source, fails, cap, before).0;
      match steps[|steps| - 1] {
        case TaskRuns => SendAdvances(c, fails, cap);
        case Polls(size) =>
          RunPreservesStream(source, fails, cap, before);
          QueueIsRight(c, fails, cap);
          PollLightens(c, size);
      }
    }
  }

  lemma NothingFailed()
    ensures Failures([]) == 0
  {
  }

  lemma QueueIsRight(c: Conn, fails: bool, cap: nat)
    requires WellFormed(c, fails, cap)
    ensures c.pos < |c.buf| || (c.buf == [] && c.pos == 0)
    ensures forall k | 0 <= k < |c.queue| && c.queue[k].Line? :: c.queue[k].bytes != []
    ensures c.done ==> Readable(c.source, fails, cap) == []
  {
    hide NextMessage;
  }

  /** Once the reader task is done each poll that asks takes off some of the load. */
  lemma {:induction false} PollsDrain(source: Bytes, fails: bool, cap: nat, before: seq<Step>, after: seq<Step>)
    requires Run(source, fails, cap, before).0.done
    ensures var (c, d) := (Run(source, fails, cap, before).0, Run(source, fails, cap, before + after).0);
            d.done && Load(d) <= Minus(Load(c), Asks(after))
    decreases |after|
  {
    hide Send, Poll, WellFormed, Preserved, Load;
    if after == [] {
      assert before + after == before;
    } else {
      var (front, last) := (after[..|after| - 1], after[|after| - 1]);
      assert (before + after)[..|before + after| - 1] == before + front;
      PollsDrain(source, fails, cap, before, front);
      var d := Run(source, fails, cap, before + front).0;
      match last {
        case TaskRuns => SendAdvances(d, fails, cap);
        case Polls(size) =>
          RunPreservesStream(source, fails, cap, before + front);
          QueueIsRight(d, fails, cap);
          PollLightens(d, size);
      }
    }
  }

  lemma ReadableStep(source: Bytes, fails: bool, cap: nat)
    ensures Readable(source, fails, cap) ==
            match NextMessage(source, fails, cap)
            case Some(Line(bytes)) => bytes + Readable(source[LineLength(source)..], fails, cap)
            case _ => []
    ensures NextMessage(source, fails, cap).Some? && NextMessage(source, fails, cap).value.Line? ==>
              NextMessage(source, fails, cap).value.bytes == source[..LineLength(source)]
  {
  }

  lemma SendKeepsReadable(c: Conn, fails: bool, cap: nat)
    ensures var after := Send(c, fails, cap);
            Held(after) + Readable(after.source, fails, cap) == Held(c) + Readable(c.source, fails, cap)
  {
    hide LineLength, HasNewline, NextMessage, Held, Readable;
    if !c.done {
      ReadableStep(c.source, fails, cap);
      match NextMessage(c.source, fails, cap)
      case None => assert Held(c.(done := true)) == Held(c) by { DoneHoldsAlike(c); }
      case Some(Failed(failure)) =>
        HeldAfterSend(c, Failed(failure), c.source, true);
        assert Held(c) + [] == Held(c);
      case Some(Line(bytes)) =>
        var rest := c.source[|bytes|..];
        HeldAfterSend(c, Line(bytes), rest, c.done);
        assert Send(c, fails, cap) == c.(queue := c.queue + [Line(bytes)], source := rest, done := c.done);
        assert (Held(c) + bytes) + Readable(rest, fails, cap) == Held(c) + (bytes + Readable(rest, fails, cap));
    }
  }

  lemma DoneHoldsAlike(c: Conn)
    ensures Held(c.(done := true)) == Held(c)
  {
  }

  lemma {:induction false} RunKeepsReadable(source: Bytes, fails: bool, cap: nat, steps: seq<Step>)
    ensures var (c, delivered) := Run(source, fails, cap, steps);
            delivered + (Held(c) + Readable(c.source, fails, cap)) == Readable(source, fails, cap)
  {
    hide Send, Poll, Readable, Held, WellFormed, Preserved;
    if steps == [] {
      assert Held(Start(source)) == [] by { HeldIs(Start(source)); }
      assert [] + ([] + Readable(source, fails, cap)) == Readable(source, fails, cap);
    } else {
      var before := steps[..|steps| - 1];
      RunKeepsReadable(source, fails, cap, before);
      var (c, delivered) := Run(source, fails, cap, before);
      match steps[|steps| - 1] {
        case TaskRuns => SendKeepsReadable(c, fails, cap);
        case Polls(size) =>
          RunPreservesStream(source, fails, cap, before);
          QueueIsRight(c, fails, cap);
          PollTakesFromHeld(c, size);
          var (after, r) := Poll(c, size);
          var rest := Readable(c.source, fails, cap);
          assert delivered + ((BytesOf(r) + Held(after)) + rest) == (delivered + BytesOf(r)) + (Held(after) + rest);
      }
    }
  }

  lemma {:induction false} AllIsReadable(source: Bytes, cap: nat)
    requires LinesWithin(source, cap)
    ensures Readable(source, false, cap) == source
    decreases |source|
  {
    hide LineLength, HasNewline, NextMessage, Readable;
    LinesWithinStep(source, cap);
    ReadableStep(source, false, cap);
    NextMessageIs(source, false, cap);
    if source != [] {
      NonemptyLine(source);
      AllIsReadable(source[LineLength(source)..], cap);
      assert source == source[..LineLength(source)] + source[LineLength(source)..];
    }
  }

  lemma NonemptyLine(s: Bytes)
    requires s != []
    ensures LineLength(s) > 0
  {
  }

  /**
   The stream is delivered, not just preserved. However steps are scheduled: when the reader task has run once for each
   byte and once more, it is done; when after that bytes were asked for as often, everything in front of the first
   failing line has been delivered, and all that is left to read is the end. That is the whole source if no line is
   over the cap and the source does not fail.
   */
  lemma StreamIsDelivered(source: Bytes, fails: bool, cap: nat, before: seq<Step>, after: seq<Step>, size: nat)
    requires Runs(before) > |source| && Asks(after) > |source| && size > 0
    ensures Run(source, fails, cap, before).0.done
    ensures var (c, delivered) := Run(source, fails, cap, before + after);
            && delivered == Readable(source, fails, cap)
            && Poll(c, size).1 == Ready([])
            && (!fails && LinesWithin(source, cap) ==> delivered == source)
  {
    hide Run, Poll, Readable, Held, WellFormed, LinesWithin, Failures, Runs, Asks;
    TaskAdvances(source, fails, cap, before);
    RunPreservesStream(source, fails, cap, before);
    PollsDrain(source, fails, cap, before, after);
    RunPreservesStream(source, fails, cap, before + after);
    RunKeepsReadable(source, fails, cap, before + after);
    var (c, delivered) := Run(source, fails, cap, before + after);
    QueueIsRight(c, fails, cap);
    PollLightens(c, size);
    assert delivered + ([] + []) == delivered;
    if !fails && LinesWithin(source, cap) {
      AllIsReadable(source, cap);
    }
  }

  // ---------------------------------------------------------------- the reader itself

  class LineBufferedRead {
    const reader: ChunkedSource
    const cap: nat
    var buf: Bytes
    var pos: nat
    var queue: seq<Message>
    var done: bool
    /** What the reader task has not read; after an error it is not touched again. */
    ghost var unread: Bytes

    constructor (reader: ChunkedSource, cap: nat)
      requires reader.Valid()
      ensures this.reader == reader && this.cap == cap && Valid()
      ensures Contents() == Start(reader.Rest())
    {
      this.reader, this.cap := reader, cap;
      buf, pos, queue, done := [], 0, [], false;
      unread := reader.Rest();
    }

    ghost predicate Valid()
      reads this, reader
    {
      reader.Valid() && (!done ==> unread == reader.Rest())
    }

    ghost function Contents(): Conn
      reads this
    {
      Conn(buf, pos, queue, done, unread)
    }

    /** One round of the reader task. */
    method RunTaskOnce()
      requires Valid()
      modifies this, reader
      ensures Valid() && Contents() == Send(old(Contents()), reader.fails, cap)
    {
      hide LineLength, HasNewline, Joined;
      if done {
        return;
      }
      NextMessageIs(unread, reader.fails, cap);
      var r, line := ReadLineCapped(reader, cap);
      match r
      case Failure(failure) =>
        queue, done := queue + [Failed(failure)], true;
      case Got(n) =>
        if n == 0 {
          done := true;
        } else {
          assert unread == line + reader.Rest() && unread[..n] == line && unread[n..] == reader.Rest();
          queue, unread := queue + [Line(line)], reader.Rest();
        }
    }

    method PollRead(size: nat) returns (r: PollResult)
      requires Valid()
      modifies this
      ensures Valid() && (Contents(), r) == Poll(old(Contents()), size)
    {
      if pos < |buf| {
        var n := Min(|buf| - pos, size);
        r := Ready(buf[pos..pos + n]);
        pos := pos + n;
        if pos >= |buf| {
          buf, pos := [], 0;
        }
        return;
      }
      if queue == [] {
        return if done then Ready([]) else Pending;
      }
      var message := queue[0];
      queue := queue[1..];
      match message
      case Failed(failure) => r := Error(failure);
      case Line(line) =>
        var n := Min(|line|, size);
        r := Ready(line[..n]);
        if n < |line| {
          buf, pos := line, n;
        }
    }
  }
}
