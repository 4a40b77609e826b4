/** The incremental `text/event-stream` parser (src/internal/sse.ts), against the interpretation of
    a whole stream in section 9.2.6 of the WHATWG HTML Living Standard. */
module EventStream {
  import opened Basics
  import opened Text

  datatype Event = Event(data: Text, event: Text)

  const DATA: Text := [0x64, 0x61, 0x74, 0x61]
  const EVENT: Text := [0x65, 0x76, 0x65, 0x6E, 0x74]
  const MESSAGE: Text := [0x6D, 0x65, 0x73, 0x73, 0x61, 0x67, 0x65]

  // ---- The standard's interpretation of a whole stream ------------------------

  predicate IsBreak(u: Unit) {
    u == LF || u == CR
  }

  /** The place of the first line break from a position, or the length. */
  function LineEnd(s: Text, from: nat): (end: nat)
    requires from <= |s|
    ensures from <= end <= |s| && forall i :: from <= i < end ==> !IsBreak(s[i])
    ensures end < |s| ==> IsBreak(s[end])
    decreases |s| - from
  {
    if from == |s| || IsBreak(s[from]) then from else LineEnd(s, from + 1)
  }

  /** Where the next line starts: CRLF, LF and CR each end one line. */
  function NextLine(s: Text, end: nat): (next: nat)
    requires end < |s|
    ensures end < next <= |s|
  {
    if s[end] == CR && end + 1 < |s| && s[end + 1] == LF then end + 2 else end + 1
  }

  /** What follows the last line break. */
  function UnfinishedFrom(s: Text, from: nat): Text
    requires from <= |s|
    decreases |s| - from
  {
    var end := LineEnd(s, from);
    if end == |s| then s[from..] else UnfinishedFrom(s, NextLine(s, end))
  }

  /** Runs `step` on every line that a line break ends, from a position. */
  function FoldLines<B>(step: (B, Text) -> B, b: B, s: Text, from: nat): B
    requires from <= |s|
    decreases |s| - from
  {
    var end := LineEnd(s, from);
    if end == |s| then b else FoldLines(step, step(b, s[from..end]), s, NextLine(s, end))
  }

  /** The decoded stream without one leading byte order mark. */
  function Body(text: Text): Text {
    if text != [] && text[0] == BOM then text[1..] else text
  }

  /** The standard's buffers: the data buffer ends every value with a line feed. */
  datatype Buffers = Buffers(data: Text, event: Text, dispatched: seq<Event>)

  function Dispatch(b: Buffers): Buffers {
    if b.data == [] then Buffers([], [], b.dispatched)
    else
      var data := if b.data[|b.data| - 1] == LF then b.data[..|b.data| - 1] else b.data;
      Buffers([], [], b.dispatched + [Event(data, if b.event == [] then MESSAGE else b.event)])
  }

  function ProcessField(b: Buffers, field: Text, value: Text): Buffers {
    if field == EVENT then b.(event := value)
    else if field == DATA then b.(data := b.data + value + [LF])
    else b
  }

  function ProcessLine(b: Buffers, line: Text): Buffers {
    if line == [] then Dispatch(b)
    else if line[0] == COLON then b
    else if COLON in line then
      var colon := IndexOf(line, COLON, 0);
      var value := line[colon + 1..];
      ProcessField(b, line[..colon], if value != [] && value[0] == SPACE then value[1..] else value)
    else ProcessField(b, line, [])
  }

  const NoBuffers := Buffers([], [], [])

  /** The events of a whole stream; an event no blank line ends is discarded. */
  function Interpret(text: Text): seq<Event> {
    FoldLines(ProcessLine, NoBuffers, Body(text), 0).dispatched
  }

  // ---- Lines of a longer text --------------------------------------------------

  /** Whether a text ends with a carriage return that a following line feed would join. */
  predicate EndsWithCR(s: Text) {
    s != [] && s[|s| - 1] == CR
  }

  /** A chunk without the line feed that completes the CRLF the text before it started. */
  function Continuation(before: Text, chunk: Text): Text {
    if EndsWithCR(before) && chunk != [] && chunk[0] == LF then chunk[1..] else chunk
  }

  lemma LineEndIs(s: Text, from: nat, end: nat)
    requires from <= end <= |s| && (forall i :: from <= i < end ==> !IsBreak(s[i])) && (end < |s| ==> IsBreak(s[end]))
    ensures LineEnd(s, from) == end
    decreases end - from
  {
    if from < end {
      LineEndIs(s, from + 1, end);
    }
  }

  /** The line from `from` to its break at `end`. */
  lemma TakeLine<B>(step: (B, Text) -> B, b: B, s: Text, from: nat, end: nat, next: nat)
    requires from <= end < |s| && IsBreak(s[end]) && forall i :: from <= i < end ==> !IsBreak(s[i])
    requires next == NextLine(s, end)
    ensures FoldLines(step, b, s, from) == FoldLines(step, step(b, s[from..end]), s, next)
    ensures UnfinishedFrom(s, from) == UnfinishedFrom(s, next)
  {
    LineEndIs(s, from, end);
  }

  lemma NoMoreLines<B>(step: (B, Text) -> B, b: B, s: Text, from: nat)
    requires from <= |s| && forall i :: from <= i < |s| ==> !IsBreak(s[i])
    ensures FoldLines(step, b, s, from) == b && UnfinishedFrom(s, from) == s[from..]
  {
    LineEndIs(s, from, |s|);
  }

  lemma {:induction false} FoldShift<B>(step: (B, Text) -> B, b: B, before: Text, s: Text, from: nat)
    requires from <= |s|
    ensures FoldLines(step, b, before + s, |before| + from) == FoldLines(step, b, s, from)
    ensures UnfinishedFrom(before + s, |before| + from) == UnfinishedFrom(s, from)
    decreases |s| - from
  {
    hide FoldLines, UnfinishedFrom, LineEnd;
    var end := LineEnd(s, from);
    var whole := before + s;
    assert forall i :: |before| <= i < |whole| ==> whole[i] == s[i - |before|];
    if end == |s| {
      NoMoreLines(step, b, s, from);
      NoMoreLines(step, b, whole, |before| + from);
      assert whole[|before| + from..] == s[from..];
    } else {
      var next := NextLine(s, end);
      TakeLine(step, b, s, from, end, next);
      TakeLine(step, b, whole, |before| + from, |before| + end, |before| + next);
      assert whole[|before| + from..|before| + end] == s[from..end];
      FoldShift(step, step(b, s[from..end]), before, s, next);
    }
  }

  /** The text after a last line break, followed by more. */
  lemma FoldAfterBreak<B>(step: (B, Text) -> B, b: B, s: Text, t: Text, end: nat)
    requires end < |s| && IsBreak(s[end]) && NextLine(s, end) == |s|
    ensures FoldLines(step, b, s + t, NextLine(s + t, end)) == FoldLines(step, b, Continuation(s, t), 0)
    ensures UnfinishedFrom(s + t, NextLine(s + t, end)) == UnfinishedFrom(Continuation(s, t), 0)
  {
    hide FoldLines, UnfinishedFrom, LineEnd;
    var next := NextLine(s + t, end);
    var taken, left := (s + t)[..next], Continuation(s, t);
    assert next == |s| + |t| - |left|;
    assert s + t == taken + left;
    FoldShift(step, b, taken, left, 0);
    assert FoldLines(step, b, taken + left, |taken| + 0) == FoldLines(step, b, left, 0);
  }

  /** Only the buffers, the unfinished line and a trailing carriage return matter to what follows. */
  lemma {:induction false} FoldAppend<B>(step: (B, Text) -> B, b: B, s: Text, t: Text, from: nat)
    requires from <= |s| && (from < |s| || !EndsWithCR(s))
    ensures FoldLines(step, b, s + t, from) == FoldLines(step, FoldLines(step, b, s, from), UnfinishedFrom(s, from) + Continuation(s, t), 0)
    ensures UnfinishedFrom(s + t, from) == UnfinishedFrom(UnfinishedFrom(s, from) + Continuation(s, t), 0)
    decreases |s| - from
  {
    hide FoldLines, UnfinishedFrom, LineEnd;
    var end := LineEnd(s, from);
    if end == |s| {
      NoMoreLines(step, b, s, from);
      assert s + t == s[..from] + (s[from..] + t);
      FoldShift(step, b, s[..from], s[from..] + t, 0);
      assert |s[..from]| + 0 == from;
    } else {
      var next := NextLine(s, end);
      TakeLine(step, b, s, from, end, next);
      TakeLine(step, b, s + t, from, end, NextLine(s + t, end));
      assert (s + t)[from..end] == s[from..end];
      if next == |s| {
        NoMoreLines(step, step(b, s[from..end]), s, next);
        FoldAfterBreak(step, step(b, s[from..end]), s, t, end);
        assert [] + Continuation(s, t) == Continuation(s, t);
      } else {
        FoldAppend(step, step(b, s[from..end]), s, t, next);
      }
    }
  }

  // ---- The incremental parser --------------------------------------------------

  /** What the parser keeps between chunks. */
  datatype Kept = Kept(buffer: Text, skipLineFeed: bool, buffers: Buffers)

  /** What it keeps after a text without its byte order mark. */
  function KeptAfter(body: Text): Kept {
    Kept(UnfinishedFrom(body, 0), EndsWithCR(body), FoldLines(ProcessLine, NoBuffers, body, 0))
  }

  /** What feeding `chunk` after `before` makes of it, from what was kept. */
  lemma Advance(before: Text, chunk: Text)
    ensures var kept, rest := KeptAfter(before), Continuation(before, chunk);
            var buffer := kept.buffer + rest;
            KeptAfter(before + chunk)
            == Kept(UnfinishedFrom(buffer, 0), if rest == [] then chunk == [] && kept.skipLineFeed else EndsWithCR(buffer),
                    FoldLines(ProcessLine, kept.buffers, buffer, 0))
  {
    hide ProcessLine, FoldLines, UnfinishedFrom, LineEnd;
    FoldAppend(ProcessLine, NoBuffers, before, chunk, 0);
  }

  /** A chunk without a line break only lengthens the unfinished line. */
  lemma AdvanceWithinLine(before: Text, chunk: Text)
    requires LF !in Continuation(before, chunk) && CR !in Continuation(before, chunk)
    ensures var kept, rest := KeptAfter(before), Continuation(before, chunk);
            KeptAfter(before + chunk) == Kept(kept.buffer + rest, chunk == [] && kept.skipLineFeed, kept.buffers)
  {
    var buffer := KeptAfter(before).buffer + Continuation(before, chunk);
    Advance(before, chunk);
    UnfinishedHasNoBreak(before, 0);
    NoMoreLines(ProcessLine, KeptAfter(before).buffers, buffer, 0);
  }

  lemma {:induction false} UnfinishedHasNoBreak(s: Text, from: nat)
    requires from <= |s|
    ensures forall u :: u in UnfinishedFrom(s, from) ==> !IsBreak(u)
    decreases |s| - from
  {
    var end := LineEnd(s, from);
    if end < |s| {
      UnfinishedHasNoBreak(s, NextLine(s, end));
    }
  }

  class Parser {
    var buffer: Text
    var started: bool
    var skipLineFeed: bool
    var data: Option<Text>
    var event: Text
    /** The events passed to `onEvent`, in order. */
    var emitted: seq<Event>
    /** All text fed so far. */
    ghost var consumed: Text

    /** Every field is a function of the text consumed so far. */
    ghost predicate Valid()
      reads this
    {
      started == (consumed != []) && Kept(buffer, skipLineFeed, Buffered()) == KeptAfter(Body(consumed))
    }

    /** The standard's buffers: `undefined` data is an empty buffer, other data lacks its last line feed. */
    ghost function Buffered(): Buffers
      reads this
    {
      Buffers(if data.Some? then data.value + [LF] else [], event, emitted)
    }

    constructor ()
      ensures Valid() && consumed == [] && emitted == [] == Interpret([])
    {
      buffer, started, skipLineFeed, data, event, emitted := [], false, false, None, [], [];
      consumed := [];
    }

    method ParseLine(line: Text)
      modifies this`data, this`event, this`emitted
      ensures Buffered() == ProcessLine(old(Buffered()), line)
    {
      if line == [] {
        if data.Some? {
          emitted := emitted + [Event(data.value, if event == [] then MESSAGE else event)];
        }
        data, event := None, [];
        return;
      }
      var colon := IndexOf(line, COLON, 0);
      assert colon == -1 <==> COLON !in line by {
        assert line[0..] == line;
      }
      if colon == 0 { return; }
      var field := if colon == -1 then line else line[..colon];
      if field != DATA && field != EVENT { return; }
      var value: Text := [];
      if colon != -1 {
        value := if colon + 1 < |line| && line[colon + 1] == SPACE then line[colon + 2..] else line[colon + 1..];
        assert line[colon + 1..] != [] ==> line[colon + 1..][1..] == line[colon + 2..];
      }
      if field == EVENT {
        event := value;
      } else {
        data := Some(if data.None? then value else data.value + [LF] + value);
      }
    }

    /** Parses every finished line of `whole` and keeps the rest. Scans with two cached positions. */
    method TakeLines(whole: Text)
      requires !skipLineFeed
      modifies this`buffer, this`skipLineFeed, this`data, this`event, this`emitted
      ensures Buffered() == FoldLines(ProcessLine, old(Buffered()), whole, 0)
      ensures buffer == UnfinishedFrom(whole, 0) && skipLineFeed == EndsWithCR(whole)
    {
      hide FoldLines, UnfinishedFrom, LineEnd, IndexOf;
      var start := 0;
      var lineFeed := IndexOf(whole, LF, 0);
      var carriageReturn := IndexOf(whole, CR, 0);
      while lineFeed != -1 || carriageReturn != -1
        invariant 0 <= start <= |whole|
        invariant lineFeed == IndexOf(whole, LF, start) && carriageReturn == IndexOf(whole, CR, start)
        invariant skipLineFeed <==> start == |whole| && EndsWithCR(whole)
        invariant FoldLines(ProcessLine, old(Buffered()), whole, 0) == FoldLines(ProcessLine, Buffered(), whole, start)
        invariant UnfinishedFrom(whole, 0) == UnfinishedFrom(whole, start)
        decreases |whole| - start
      {
        var end := if lineFeed == -1 then carriageReturn
                   else if carriageReturn == -1 then lineFeed else Min(lineFeed, carriageReturn);
        ghost var next := NextLine(whole, end);
        TakeLine(ProcessLine, Buffered(), whole, start, end, next);
        assert lineFeed == -1 || lineFeed >= end;
        assert whole[end] == CR && end + 1 < |whole| && whole[end + 1] == LF ==> lineFeed == end + 1;
        ParseLine(whole[start..end]);
        start := end + 1;
        if end == carriageReturn {
          if start == |whole| {
            skipLineFeed := true;
          } else if lineFeed == start {
            start := start + 1;
          }
          carriageReturn := IndexOf(whole, CR, start);
        }
        assert start == next;
        if lineFeed != -1 && lineFeed < start {
          lineFeed := IndexOf(whole, LF, start);
        }
      }
      NoMoreLines(ProcessLine, Buffered(), whole, start);
      buffer := whole[start..];
    }

    lemma BreaksComeWithAChunk(before: Text, chunk: Text)
      ensures chunk == [] ==> Continuation(before, chunk) == []
    {
    }

    /** Drops a leading byte order mark, and the line feed of a `\r\n` split across chunks. */
    method Accept(chunk: Text) returns (rest: Text, ghost fed: Text)
      requires Valid()
      modifies this`started, this`skipLineFeed, this`consumed
      ensures consumed == old(consumed) + chunk && started == (consumed != [])
      ensures Body(consumed) == Body(old(consumed)) + fed
      ensures rest == Continuation(Body(old(consumed)), fed)
      ensures skipLineFeed == (old(skipLineFeed) && fed == [])
    {
      hide FoldLines, UnfinishedFrom, LineEnd, ProcessLine;
      consumed := consumed + chunk;
      rest := chunk;
      if !started && rest != [] {
        started := true;
        if rest[0] == BOM { rest := rest[1..]; }
      }
      fed := rest;
      if skipLineFeed && rest != [] {
        skipLineFeed := false;
        if rest[0] == LF { rest := rest[1..]; }
      }
    }

    /** Parses the next chunk: afterwards exactly the events of the text so far have been emitted. */
    method Feed(chunk: Text)
      requires Valid()
      modifies this
      ensures Valid() && consumed == old(consumed) + chunk
      ensures emitted == Interpret(old(consumed) + chunk)
    {
      hide FoldLines, UnfinishedFrom, LineEnd, ProcessLine, Body, Continuation, EndsWithCR;
      ghost var before := Body(consumed);
      var rest, fed := Accept(chunk);
      BreaksComeWithAChunk(before, fed);
      buffer := buffer + rest;
      if LF !in rest && CR !in rest {
        AdvanceWithinLine(before, fed);
        return;
      }
      Advance(before, fed);
      TakeLines(buffer);
    }
  }

  function Joined(chunks: seq<Text>): Text {
    if chunks == [] then [] else chunks[0] + Joined(chunks[1..])
  }

  lemma {:induction false} JoinedAppend(chunks: seq<Text>, chunk: Text)
    ensures Joined(chunks + [chunk]) == Joined(chunks) + chunk
    decreases |chunks|
  {
    if chunks != [] {
      assert (chunks + [chunk])[1..] == chunks[1..] + [chunk];
      JoinedAppend(chunks[1..], chunk);
    }
  }

  /** However a text is cut into chunks, a new parser emits exactly the standard's events for it. */
  method ParseChunks(chunks: seq<Text>) returns (events: seq<Event>)
    ensures events == Interpret(Joined(chunks))
  {
    hide FoldLines, UnfinishedFrom, KeptAfter, ProcessLine, Interpret, Body, LineEnd;
    var parser := new Parser();
    for i := 0 to |chunks|
      invariant parser.Valid() && parser.consumed == Joined(chunks[..i])
      invariant parser.emitted == Interpret(Joined(chunks[..i]))
    {
      JoinedAppend(chunks[..i], chunks[i]);
      assert chunks[..i + 1] == chunks[..i] + [chunks[i]];
      parser.Feed(chunks[i]);
    }
    assert chunks[..|chunks|] == chunks;
    events := parser.emitted;
  }

  lemma {:induction false} ProcessingOnlyDispatches(b: Buffers, s: Text, from: nat)
    requires from <= |s|
    ensures b.dispatched <= FoldLines(ProcessLine, b, s, from).dispatched
    decreases |s| - from
  {
    var end := LineEnd(s, from);
    if end < |s| {
      ProcessingOnlyDispatches(ProcessLine(b, s[from..end]), s, NextLine(s, end));
    }
  }

  /** More text only adds events: none is withdrawn or changed, even when a leading mark is cut off
      or a carriage return turns out to start a CRLF. */
  lemma EventsAreNeverWithdrawn(text: Text, more: Text)
    ensures Interpret(text) <= Interpret(text + more)
  {
    if text == [] { return; }
    assert Body(text + more) == Body(text) + more;
    Advance(Body(text), more);
    ProcessingOnlyDispatches(FoldLines(ProcessLine, NoBuffers, Body(text), 0), UnfinishedFrom(Body(text), 0) + Continuation(Body(text), more), 0);
  }
}
