/**
 * The cancel-safe line reader: a producer reads whole lines from a source that hands out its bytes in pieces of any
 * size, and a consumer is served from the queue of lines through buffers of any size.
 */
module LineReader {
  import opened Sequences
  import opened Conversation

  const NEWLINE: byte := 10
  const MAX_LINE_SIZE: nat := 64 * 1024 * 1024

  datatype ReadError = TooLong | Io
  datatype Result<T> = Ok(value: T) | Err(error: ReadError)

  /** What travels through the channel. */
  datatype Item = Line(bytes: Bytes) | Broken(error: ReadError)

  datatype Poll = Pending | Ready(count: nat) | Failed(error: ReadError)

  /** The first line of `s` with its newline, or all of `s` if it has none. */
  function NextLine(s: Bytes): Bytes {
    if s == [] then []
    else if s[0] == NEWLINE then [s[0]]
    else [s[0]] + NextLine(s[1..])
  }

  function NewlinePosition(s: Bytes): (r: Option<nat>)
    ensures r.Some? ==> r.value < |s| && s[r.value] == NEWLINE && NEWLINE !in s[..r.value]
    ensures r.None? ==> NEWLINE !in s
  {
    if s == [] then None
    else if s[0] == NEWLINE then Some(0)
    else
      var rest := NewlinePosition(s[1..]);
      if rest.Some? then Some(rest.value + 1) else None
  }

  /** At most one newline, at the end; none only for the last line of a source that does not end in one. */
  predicate IsLine(line: Bytes, rest: Bytes) {
    && line != []
    && NEWLINE !in line[..|line| - 1]
    && (line[|line| - 1] == NEWLINE || rest == [])
  }

  lemma {:induction false} NextLineIsLine(s: Bytes)
    requires s != []
    ensures NextLine(s) <= s && IsLine(NextLine(s), s[|NextLine(s)|..])
  {
    if s[0] != NEWLINE && |s| > 1 {
      var line := NextLine(s[1..]);
      NextLineIsLine(s[1..]);
      assert s == [s[0]] + s[1..];
      assert ([s[0]] + line)[..|line|] == [s[0]] + line[..|line| - 1];
    }
  }

  lemma {:induction false} LineGoesOn(a: Bytes, b: Bytes)
    requires NEWLINE !in a
    ensures NextLine(a + b) == a + NextLine(b)
    ensures NextLine(a) == a
  {
    if a == [] {
      assert a + b == b;
    } else {
      assert a[0] != NEWLINE && [a[0]] + a[1..] == a;
      LineGoesOn(a[1..], b);
      assert (a + b)[1..] == a[1..] + b;
      ConcatAssociates([a[0]], a[1..], NextLine(b));
    }
  }

  lemma LineEnds(a: Bytes, b: Bytes)
    requires NEWLINE !in a
    ensures NextLine(a + [NEWLINE] + b) == a + [NEWLINE]
  {
    assert a + [NEWLINE] + b == a + ([NEWLINE] + b);
    LineGoesOn(a, [NEWLINE] + b);
  }

  function Joined(items: seq<Item>): Bytes {
    if items == [] then []
    else (if items[0].Line? then items[0].bytes else []) + Joined(items[1..])
  }

  lemma {:induction false} JoinedThen(items: seq<Item>, item: Item)
    ensures Joined(items + [item]) == Joined(items) + (if item.Line? then item.bytes else [])
  {
    if items != [] {
      JoinedThen(items[1..], item);
      assert (items + [item])[1..] == items[1..] + [item];
    }
  }

  /** A buffered source: `rest` is what it has not been asked to give up yet, `failed` whether it has ever failed. */
  class Source {
    var rest: Bytes
    ghost var failed: bool

    constructor (bytes: Bytes)
      ensures rest == bytes && !failed
    {
      rest, failed := bytes, false;
    }

    /** Some piece of the rest, empty only at its end; or a failure at any time. */
    method FillBuf() returns (r: Result<Bytes>)
      modifies `failed
      ensures r.Err? ==> r.error == Io && failed
      ensures r.Ok? ==> failed == old(failed)
      ensures r.Ok? ==> r.value <= rest && (r.value == [] <==> rest == [])
    {
      if * {
        r := Err(Io);
        failed := true;
      } else {
        var n :| 0 <= n <= |rest| && (n == 0 <==> rest == []);
        r := Ok(rest[..n]);
      }
    }

    method Consume(n: nat)
      requires n <= |rest|
      modifies `rest
      ensures rest == old(rest)[n..]
    {
      rest := rest[n..];
    }
  }

  /**
   * Reading a line does not depend on how the source cuts its bytes: short of an I/O failure it gives the next line
   * if that is at most 64 MiB long, and fails if it is longer.
   */
  method ReadLineCapped(source: Source) returns (r: Result<Bytes>)
    modifies source
    ensures |source.rest| <= |old(source.rest)|
    ensures source.rest == old(source.rest)[|old(source.rest)| - |source.rest|..]
    ensures r.Ok? ==> old(source.rest) == r.value + source.rest && r.value == NextLine(old(source.rest))
    ensures r == Err(TooLong) ==> |NextLine(old(source.rest))| > MAX_LINE_SIZE
    ensures r.Ok? ==> |r.value| <= MAX_LINE_SIZE
    ensures if r == Err(Io) then source.failed else source.failed == old(source.failed)
  {
    hide NewlinePosition, NextLine;
    var line: Bytes := [];
    while true
      invariant line + source.rest == old(source.rest)
      invariant NEWLINE !in line
      invariant |line| <= MAX_LINE_SIZE
      invariant source.failed == old(source.failed)
      decreases |source.rest|
    {
      IsRest(line, source.rest);
      var available := source.FillBuf();
      if available.Err? {
        return Err(available.error);
      }
      if available.value == [] {
        LineGoesOn(line, []);
        assert line + source.rest == line;
        return Ok(line);
      }
      var done: bool;
      line, done := AddPiece(source, available.value, line);
      IsRest(line, source.rest);
      if |line| > MAX_LINE_SIZE {
        return Err(TooLong);
      }
      if done {
        return Ok(line);
      }
    }
  }

  /** Add what is available up to its first newline, and say whether there is one. */
  method AddPiece(source: Source, available: Bytes, line: Bytes) returns (longer: Bytes, done: bool)
    requires available != [] && available <= source.rest && NEWLINE !in line
    modifies source`rest
    ensures longer + source.rest == line + old(source.rest) && |source.rest| < |old(source.rest)|
    ensures if done then longer == NextLine(line + old(source.rest)) else NEWLINE !in longer
    ensures |NextLine(line + old(source.rest))| >= |longer|
  {
    hide NewlinePosition, NextLine;
    var pos := NewlinePosition(available);
    ghost var rest := source.rest;
    var consumed := if pos.Some? then pos.value + 1 else |available|;
    longer, done := line + available[..consumed], pos.Some?;
    source.Consume(consumed);
    TakenSoFar(line, rest, available, consumed);
    assert available[..|available|] == available;
  }

  lemma IsRest(taken: Bytes, rest: Bytes)
    ensures (taken + rest)[|taken + rest| - |rest|..] == rest
  {}

  /** What one piece adds to the line read so far. */
  lemma TakenSoFar(line: Bytes, rest: Bytes, available: Bytes, consumed: nat)
    requires NEWLINE !in line && available <= rest && 0 < consumed <= |available|
    requires NEWLINE !in available[..consumed - 1]
    requires consumed == |available| || available[consumed - 1] == NEWLINE
    ensures (line + available[..consumed]) + rest[consumed..] == line + rest
    ensures available[consumed - 1] == NEWLINE ==> NextLine(line + rest) == line + available[..consumed]
    ensures |NextLine(line + rest)| >= |line| + consumed
  {
    hide NextLine;
    var taken, last := available[..consumed - 1], [available[consumed - 1]];
    var behind := rest[consumed..];
    PieceOf(available, rest, consumed);
    ConcatAssociates(line, taken, last);
    ConcatAssociates(line, taken + last, behind);
    if last == [NEWLINE] {
      LineEnds(line + taken, behind);
    } else {
      LineGoesOn(line + taken + last, behind);
    }
  }

  lemma PieceOf(available: Bytes, rest: Bytes, n: nat)
    requires available <= rest && 0 < n <= |available|
    ensures available[..n] == available[..n - 1] + [available[n - 1]]
    ensures rest == available[..n] + rest[n..]
  {}

  /** Each item in the queue is a line in view of what comes after it, `tail` being what is behind the queue. */
  predicate QueueOfLines(items: seq<Item>, tail: Bytes) {
    items != [] ==>
      && (items[0].Line? ==> IsLine(items[0].bytes, Joined(items[1..]) + tail))
      && QueueOfLines(items[1..], tail)
  }

  lemma {:induction false} LineQueued(items: seq<Item>, item: Item, tail: Bytes)
    requires item.Line? ==> IsLine(item.bytes, tail)
    requires QueueOfLines(items, if item.Line? then item.bytes + tail else tail)
    ensures QueueOfLines(items + [item], tail)
  {
    if items == [] {
      assert [item][1..] == [];
    } else {
      var rest := items[1..];
      LineQueued(rest, item, tail);
      JoinedThen(rest, item);
      assert (items + [item])[1..] == rest + [item];
      if item.Line? {
        ConcatAssociates(Joined(rest), item.bytes, tail);
      } else {
        assert Joined(rest) + [] == Joined(rest);
      }
    }
  }

  /** No line is over the cap. */
  predicate LinesFit(s: Bytes)
    decreases |s|
  {
    s != [] ==>
      (NextLineIsLine(s); |NextLine(s)| <= MAX_LINE_SIZE && LinesFit(s[|NextLine(s)|..]))
  }

  lemma EmptyLineIsEnd(s: Bytes)
    ensures NextLine(s) == [] <==> s == []
  {}

  lemma TooLongDoesNotFit(s: Bytes)
    requires |NextLine(s)| > MAX_LINE_SIZE
    ensures !LinesFit(s)
  {}

  /** A failure at the end of the queue holds nothing. */
  lemma FailureQueued(items: seq<Item>, error: ReadError, tail: Bytes)
    requires QueueOfLines(items, tail)
    ensures QueueOfLines(items + [Broken(error)], tail)
    ensures Joined(items + [Broken(error)]) == Joined(items)
  {
    LineQueued(items, Broken(error), tail);
    JoinedThen(items, Broken(error));
    assert Joined(items) + [] == Joined(items);
  }

  /** The next line moves from the source to the end of the queue. */
  lemma Enqueued(items: seq<Item>, line: Bytes, before: Bytes, after: Bytes)
    requires before == line + after && line == NextLine(before) && before != []
    requires QueueOfLines(items, before)
    ensures QueueOfLines(items + [Line(line)], after)
    ensures Joined(items + [Line(line)]) + after == Joined(items) + before
    ensures LinesFit(before) ==> LinesFit(after)
    ensures |after| < |before|
  {
    hide QueueOfLines, Joined;
    NextLineIsLine(before);
    assert before[|line|..] == after;
    LineQueued(items, Line(line), after);
    JoinedThen(items, Line(line));
    ConcatAssociates(Joined(items), line, after);
  }

  predicate AtLineBoundary(delivered: Bytes) {
    delivered == [] || delivered[|delivered| - 1] == NEWLINE
  }

  /** A failure is the last thing in the channel, until the consumer has been told of it. */
  predicate FailureAtEnd(items: seq<Item>, failure: Option<ReadError>, reported: bool) {
    && (forall i | 0 <= i < |items| && items[i].Broken? :: failure == Some(items[i].error))
    && (failure.Some? && !reported ==> items != [] && items[|items| - 1].Broken?)
  }

  lemma FailureEnqueued(items: seq<Item>, item: Item, reported: bool)
    requires FailureAtEnd(items, None, reported)
    ensures FailureAtEnd(items + [item], if item.Broken? then Some(item.error) else None, reported)
  {
    assert forall i | 0 <= i < |items| :: (items + [item])[i] == items[i];
  }

  lemma FailureTaken(items: seq<Item>, failure: Option<ReadError>, reported: bool)
    requires items != [] && FailureAtEnd(items, failure, reported)
    ensures FailureAtEnd(items[1..], failure, reported || items[0].Broken?)
    ensures items[0].Broken? ==> failure == Some(items[0].error)
  {}

  lemma NoFailureLeft(failure: Option<ReadError>, reported: bool)
    requires FailureAtEnd([], failure, reported)
    ensures failure.None? || reported
  {}

  lemma QueueIsEmpty(tail: Bytes)
    ensures Joined([]) == [] && Joined([]) + tail == tail
  {}

  /** The first item leaves the queue: a line takes what was delivered before it to the next boundary. */
  lemma QueueTaken(delivered: Bytes, items: seq<Item>, tail: Bytes)
    requires items != [] && QueueOfLines(items, tail)
    ensures QueueOfLines(items[1..], tail)
    ensures items[0].Line? ==>
              && items[0].bytes != []
              && delivered + Joined(items) + tail == delivered + items[0].bytes + Joined(items[1..]) + tail
              && (AtLineBoundary(delivered + items[0].bytes) || Joined(items[1..]) + tail == [])
    ensures items[0].Broken? ==> Joined(items) == Joined(items[1..])
  {}

  /** Both ends of the channel: the producer's source and the consumer's buffer, with the queue in between. */
  class LineBufferedRead {
    const source: Source

    /** The channel, open as long as the producer runs. */
    var rx: seq<Item>
    var producing: bool

    /** The line being served and how much of it has been. */
    var buf: Bytes
    var pos: nat

    /** History: all bytes of the source, those delivered, and the failure that ended production, if any. */
    ghost const all: Bytes
    ghost var delivered: Bytes
    ghost var failure: Option<ReadError>

    /** Whether the consumer has been told of the failure. */
    ghost var reported: bool

    /** What the source held when the line now being read, or the one that failed, began. */
    ghost var unread: Bytes

    ghost predicate Valid() reads this, source {
      && pos <= |buf|
      && all == delivered + buf[pos..] + Joined(rx) + unread
      && (AtLineBoundary(delivered + buf[pos..]) || Joined(rx) + unread == [])
      && QueueOfLines(rx, unread)
      && (failure.None? ==> source.rest == unread)
      && (failure.None? && !producing ==> unread == [])
      && (failure.Some? ==> !producing)
      && (LinesFit(all) ==> LinesFit(unread))
      && (failure == Some(TooLong) ==> !LinesFit(unread))
      && (source.failed <==> failure == Some(Io))
      && FailureAtEnd(rx, failure, reported)
    }

    constructor (source: Source)
      requires !source.failed
      ensures Valid() && this.source == source && producing && delivered == [] && all == source.rest
      ensures !reported
    {
      this.source, producing, rx, buf, pos := source, true, [], [], 0;
      all, delivered, failure, reported, unread := source.rest, [], None, false, source.rest;
    }

    /** One round of the producer: a line goes into the channel, or the producer is done. */
    method Produce()
      requires Valid() && producing
      modifies this, source
      ensures Valid() && delivered == old(delivered) && reported == old(reported)
      ensures !producing || |unread| < |old(unread)|
      ensures producing ==> rx == old(rx) + [Line(NextLine(old(unread)))] && old(unread) == NextLine(old(unread)) + unread
      ensures failure.Some? ==> rx == old(rx) + [Broken(failure.value)] && unread == old(unread)
      ensures failure == Some(TooLong) ==> |NextLine(old(unread))| > MAX_LINE_SIZE
      ensures !producing && failure.None? ==> rx == old(rx) && unread == old(unread) == []
    {
      hide Joined, QueueOfLines, LinesFit, IsLine, NextLine, AtLineBoundary, FailureAtEnd;
      ConcatAssociates(delivered + buf[pos..], Joined(rx), unread);
      var line := ReadLineCapped(source);
      match line {
        case Ok(bytes) =>
          if bytes == [] {
            EmptyLineIsEnd(unread);
            producing := false;
          } else {
            Enqueued(rx, bytes, unread, source.rest);
            FailureEnqueued(rx, Line(bytes), reported);
            ConcatAssociates(delivered + buf[pos..], Joined(rx + [Line(bytes)]), source.rest);
            rx := rx + [Line(bytes)];
            unread := source.rest;
          }
        case Err(error) =>
          if error.TooLong? {
            TooLongDoesNotFit(unread);
          }
          FailureQueued(rx, error, unread);
          FailureEnqueued(rx, Broken(error), reported);
          rx := rx + [Broken(error)];
          producing := false;
          failure := Some(error);
      }
    }

    /** Serve bytes of the current line, else of the next one in the channel; wait only where there is neither. */
    method PollRead(out: array<byte>) returns (r: Poll)
      requires Valid()
      modifies this, out
      ensures Valid() && producing == old(producing) && unread == old(unread) && failure == old(failure)
      ensures r.Ready? ==> r.count <= out.Length && delivered == old(delivered) + out[..r.count]
      ensures r.Ready? ==> out[r.count..] == old(out[r.count..])
      ensures r.Ready? && r.count == 0 && out.Length > 0 ==> !producing && (delivered == all || reported)
      ensures r.Pending? || r.Failed? ==> delivered == old(delivered) && out[..] == old(out[..])
      ensures r.Pending? || r.Failed? ==> AtLineBoundary(delivered) || delivered == all
      ensures r.Pending? <==> old(pos) == |old(buf)| && old(rx) == [] && producing
      ensures r.Failed? <==> old(pos) == |old(buf)| && old(rx) != [] && old(rx)[0].Broken?
      ensures r.Failed? ==> failure == Some(r.error) && old(rx)[0].error == r.error && reported
      ensures !r.Failed? ==> reported == old(reported)
      ensures old(pos) < |old(buf)| || (old(rx) != [] && old(rx)[0].Line?) ==>
                var line := if old(pos) < |old(buf)| then old(buf)[old(pos)..] else old(rx)[0].bytes;
                && r.Ready? && r.count <= |line| && (r.count == |line| || r.count == out.Length)
                && out[..r.count] == line[..r.count] && pos <= |buf| && buf[pos..] == line[r.count..]
      ensures rx == if old(pos) == |old(buf)| && old(rx) != [] then old(rx)[1..] else old(rx)
    {
      hide Joined, QueueOfLines, LinesFit, IsLine, AtLineBoundary, FailureAtEnd;
      if pos < |buf| {
        var n := ServeRest(out);
        return Ready(n);
      }
      if rx != [] {
        r := ReceiveNext(out);
        return;
      }
      assert delivered + buf[pos..] == delivered;
      QueueIsEmpty(unread);
      NoFailureLeft(failure, reported);
      return if producing then Pending else Ready(0);
    }

    /** The first item of the channel, when no line is being served. */
    method ReceiveNext(out: array<byte>) returns (r: Poll)
      requires Valid() && pos == |buf| && rx != []
      modifies this, out
      ensures Valid() && producing == old(producing) && unread == old(unread) && failure == old(failure)
      ensures !r.Pending?
      ensures r.Ready? ==> r.count <= out.Length && delivered == old(delivered) + out[..r.count]
      ensures r.Ready? ==> out[r.count..] == old(out[r.count..])
      ensures r.Ready? && r.count == 0 ==> out.Length == 0
      ensures r.Failed? ==> delivered == old(delivered) && out[..] == old(out[..])
      ensures r.Failed? ==> AtLineBoundary(delivered) || delivered == all
      ensures r.Failed? <==> old(rx)[0].Broken?
      ensures r.Failed? ==> failure == Some(r.error) && old(rx)[0].error == r.error && reported
      ensures !r.Failed? ==> reported == old(reported)
      ensures old(rx)[0].Line? ==>
                var line := old(rx)[0].bytes;
                && r.Ready? && r.count <= |line| && (r.count == |line| || r.count == out.Length)
                && out[..r.count] == line[..r.count] && pos <= |buf| && buf[pos..] == line[r.count..]
      ensures rx == old(rx)[1..]
    {
      hide Joined, QueueOfLines, LinesFit, IsLine, AtLineBoundary, FailureAtEnd;
      var item := rx[0];
      assert delivered + buf[pos..] == delivered;
      QueueTaken(delivered, rx, unread);
      FailureTaken(rx, failure, reported);
      rx := rx[1..];
      match item {
        case Line(line) =>
          var n := ServeNew(out, line);
          r := Ready(n);
        case Broken(error) =>
          reported := true;
          r := Failed(error);
      }
    }

    /** Serve more of the line being served. */
    method ServeRest(out: array<byte>) returns (n: nat)
      requires pos < |buf|
      modifies `buf, `pos, `delivered, out
      ensures n <= out.Length && delivered == old(delivered) + out[..n] && out[n..] == old(out[n..])
      ensures n == 0 ==> out.Length == 0
      ensures n <= |old(buf)| - old(pos) && (n == |old(buf)| - old(pos) || n == out.Length)
      ensures out[..n] == old(buf)[old(pos)..][..n]
      ensures pos <= |buf| && buf[pos..] == old(buf)[old(pos)..][n..]
      ensures pos <= |buf| && delivered + buf[pos..] == old(delivered) + old(buf)[old(pos)..]
    {
      n := Serve(out, buf, pos);
      assert buf[pos + n..] == buf[pos..][n..] && buf[pos..pos + n] == buf[pos..][..n];
      pos := pos + n;
      if pos >= |buf| {
        buf, pos := [], 0;
      }
    }

    /** Serve a line just received, and keep what does not fit. */
    method ServeNew(out: array<byte>, line: Bytes) returns (n: nat)
      requires pos == |buf|
      modifies `buf, `pos, `delivered, out
      ensures n <= out.Length && delivered == old(delivered) + out[..n] && out[n..] == old(out[n..])
      ensures n == 0 && line != [] ==> out.Length == 0
      ensures n <= |line| && (n == |line| || n == out.Length) && out[..n] == line[..n]
      ensures pos <= |buf| && buf[pos..] == line[n..]
      ensures pos <= |buf| && delivered + buf[pos..] == old(delivered) + line
    {
      assert line[0..] == line;
      n := Serve(out, line, 0);
      if n < |line| {
        buf, pos := line, n;
      }
    }

    /** Copy what fits of the line from `from` on. */
    method Serve(out: array<byte>, line: Bytes, from: nat) returns (n: nat)
      requires from <= |line|
      modifies out, `delivered
      ensures n == if |line| - from < out.Length then |line| - from else out.Length
      ensures out[..n] == line[from..from + n]
      ensures out[n..] == old(out[n..])
      ensures delivered == old(delivered) + out[..n]
      ensures delivered + line[from + n..] == old(delivered) + line[from..]
    {
      n := if |line| - from < out.Length then |line| - from else out.Length;
      forall i | 0 <= i < n {
        out[i] := line[from + i];
      }
      assert line[from..] == out[..n] + line[from + n..];
      delivered := delivered + out[..n];
    }

    /**
     * Read until the end through buffers of any sizes but zero, the producer running whenever it likes and at the
     * latest when the reader has to wait.  What comes out is the source, or a prefix of it ending in a whole line.
     */
    method ReadToEnd() returns (data: Bytes, error: Option<ReadError>)
      requires Valid() && delivered == [] && !reported
      modifies this, source
      ensures data <= all
      ensures error.None? ==> data == all
      ensures error == Some(TooLong) ==> !LinesFit(all)
      ensures error == Some(Io) ==> source.failed
      ensures error.Some? ==> AtLineBoundary(data) || data == all
    {
      hide LinesFit, AtLineBoundary, QueueOfLines, Joined, FailureAtEnd;
      data, error := [], None;
      while true
        invariant Valid() && delivered == data && !reported
        decreases producing, |unread|, |all| - |data|
      {
        if * {
          if producing {
            Produce();
            continue;
          }
        }
        var size: nat :| size > 0;
        var out := new byte[size];
        var r := PollRead(out);
        match r {
          case Pending =>
            Produce();
          case Ready(n) =>
            data := data + out[..n];
            if n == 0 {
              return;
            }
          case Failed(e) =>
            error := Some(e);
            return;
        }
      }
    }
  }
}
