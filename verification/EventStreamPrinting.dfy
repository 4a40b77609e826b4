/** Events written out as a stream come back as they were (src/internal/sse.ts:1-40; section 9.2.6 of the
    WHATWG HTML Living Standard). */
module EventStreamPrinting {
  import opened Basics
  import opened Text
  import opened EventStream

  function Field(name: Text, value: Text): Text {
    name + [COLON, SPACE] + value
  }

  /** One `data` line for each line of the data. */
  function DataLines(data: Text): Text
    decreases |data|
  {
    var i := IndexOf(data, LF, 0);
    if i == -1 then Field(DATA, data) + [LF] else Field(DATA, data[..i]) + [LF] + DataLines(data[i + 1..])
  }

  function Printed(e: Event): Text {
    Field(EVENT, e.event) + [LF] + DataLines(e.data) + [LF]
  }

  function Stream(events: seq<Event>): Text {
    if events == [] then [] else Printed(events[0]) + Stream(events[1..])
  }

  /** What an event of a stream looks like: a type on one line, and data whose lines end in line feeds. */
  predicate Printable(e: Event) {
    e.event != [] && CR !in e.event && LF !in e.event && CR !in e.data
  }

  /** A finished line is processed, and the rest goes on from there. */
  lemma OneLine(b: Buffers, line: Text, rest: Text)
    requires CR !in line && LF !in line
    ensures FoldLines(ProcessLine, b, line + [LF] + rest, 0) == FoldLines(ProcessLine, ProcessLine(b, line), rest, 0)
  {
    hide FoldLines, UnfinishedFrom, LineEnd, ProcessLine;
    var whole := line + [LF] + rest;
    assert forall i :: 0 <= i < |line| ==> whole[i] == line[i] && line[i] in line;
    assert whole[|line|] == LF;
    TakeLine(ProcessLine, b, whole, 0, |line|, |line| + 1);
    assert whole[0..|line|] == line;
    FoldShift(ProcessLine, ProcessLine(b, line), line + [LF], rest, 0);
    assert |line + [LF]| + 0 == |line| + 1;
  }

  /** Where the name of a printed field ends, and the value it leaves. */
  lemma FieldSplits(name: Text, value: Text)
    requires COLON !in name
    ensures var line := Field(name, value);
            COLON in line && IndexOf(line, COLON, 0) == |name| && line[..|name|] == name && line[|name| + 1..] == [SPACE] + value
  {
    var line := Field(name, value);
    assert line[|name|] == COLON;
    assert forall k :: 0 <= k < |name| ==> line[k] == name[k] && name[k] in name;
  }

  lemma FieldLine(b: Buffers, name: Text, value: Text)
    requires name == EVENT || name == DATA
    ensures ProcessLine(b, Field(name, value)) == ProcessField(b, name, value)
  {
    FieldSplits(name, value);
    assert ([SPACE] + value)[1..] == value;
    assert Field(name, value)[0] == name[0];
    hide ProcessField, Field, IndexOf;
  }

  /** A comment, or a field that is neither `data` nor `event`, changes nothing. */
  lemma OtherLinesAreIgnored(b: Buffers, name: Text, value: Text)
    requires name != EVENT && name != DATA && COLON !in name
    ensures ProcessLine(b, name + [COLON] + value) == b
    ensures name != [] ==> ProcessLine(b, name) == b
  {
    var line := name + [COLON] + value;
    assert line[|name|] == COLON;
    assert forall k :: 0 <= k < |name| ==> line[k] == name[k] && name[k] in name;
    assert IndexOf(line, COLON, 0) == |name|;
    assert line[..|name|] == name;
    assert name != [] ==> name[0] in name;
  }

  /** A type without data is forgotten at the blank line; a bare field name sets or adds an empty value. */
  lemma ShortLines(b: Buffers)
    ensures b.data == [] ==> ProcessLine(b, []) == Buffers([], [], b.dispatched)
    ensures ProcessLine(b, EVENT) == b.(event := [])
    ensures ProcessLine(b, DATA) == b.(data := b.data + [LF])
  {
    assert COLON !in EVENT && COLON !in DATA;
    assert b.data + [] + [LF] == b.data + [LF];
  }

  /** Only one space after the colon is dropped, and it may be missing. */
  lemma OneSpaceIsDropped(b: Buffers, value: Text)
    ensures value != [] && value[0] != SPACE ==>
              ProcessLine(b, DATA + [COLON] + value) == ProcessLine(b, DATA + [COLON, SPACE] + value)
    ensures ProcessLine(b, DATA + [COLON, SPACE] + value) == b.(data := b.data + value + [LF])
  {
    FieldLine(b, DATA, value);
    assert Field(DATA, value) == DATA + [COLON, SPACE] + value;
    var line := DATA + [COLON] + value;
    assert line[4] == COLON && IndexOf(line, COLON, 0) == 4;
    assert line[..4] == DATA && line[5..] == value && line[0] == DATA[0];
  }

  /** The first line of the data, and the data after it. */
  lemma FirstDataLine(data: Text)
    requires CR !in data
    ensures var i := IndexOf(data, LF, 0);
            var first := if i == -1 then data else data[..i];
            && CR !in first && LF !in first
            && (i != -1 ==> i < |data| && data == first + [LF] + data[i + 1..])
  {
    var i := IndexOf(data, LF, 0);
    assert data[0..] == data;
    if i != -1 {
      assert data[0..i] == data[..i];
      assert data == data[..i] + [data[i]] + data[i + 1..];
    }
  }

  lemma DataLinesAre(data: Text, rest: Text)
    ensures var i := IndexOf(data, LF, 0);
            var first := if i == -1 then data else data[..i];
            DataLines(data) + rest == Field(DATA, first) + [LF] + (if i == -1 then rest else DataLines(data[i + 1..]) + rest)
  {
    hide Field, IndexOf;
    var i := IndexOf(data, LF, 0);
    if i != -1 {
      var line, lines := Field(DATA, data[..i]) + [LF], DataLines(data[i + 1..]);
      assert line + lines + rest == line + (lines + rest);
    }
  }

  lemma DataLineIsCollected(b: Buffers, first: Text, rest: Text)
    requires CR !in first && LF !in first
    ensures FoldLines(ProcessLine, b, Field(DATA, first) + [LF] + rest, 0)
         == FoldLines(ProcessLine, b.(data := b.data + first + [LF]), rest, 0)
  {
    hide FoldLines, ProcessLine;
    FieldLine(b, DATA, first);
    OneLine(b, Field(DATA, first), rest);
  }

  lemma {:induction false} DataIsCollected(b: Buffers, data: Text, rest: Text)
    requires CR !in data
    ensures FoldLines(ProcessLine, b, DataLines(data) + rest, 0)
         == FoldLines(ProcessLine, b.(data := b.data + data + [LF]), rest, 0)
    decreases |data|
  {
    hide FoldLines, ProcessLine, DataLines, Field, IndexOf;
    var i := IndexOf(data, LF, 0);
    FirstDataLine(data);
    DataLinesAre(data, rest);
    if i == -1 {
      DataLineIsCollected(b, data, rest);
    } else {
      var first, left := data[..i], data[i + 1..];
      var next := b.(data := b.data + first + [LF]);
      assert forall u :: u in left ==> u in data;
      DataLineIsCollected(b, first, DataLines(left) + rest);
      DataIsCollected(next, left, rest);
      assert next.data + left + [LF] == b.data + (first + [LF] + left) + [LF];
    }
  }

  lemma PrintedIs(e: Event, rest: Text)
    ensures Printed(e) + rest == Field(EVENT, e.event) + [LF] + (DataLines(e.data) + ([] + [LF] + rest))
  {
    hide Field, DataLines;
    assert [] + [LF] + rest == [LF] + rest;
    var first, second := Field(EVENT, e.event) + [LF], DataLines(e.data);
    assert first + second + [LF] + rest == first + (second + ([LF] + rest));
  }

  lemma TypeIsTaken(dispatched: seq<Event>, name: Text, rest: Text)
    requires CR !in name && LF !in name
    ensures FoldLines(ProcessLine, Buffers([], [], dispatched), Field(EVENT, name) + [LF] + rest, 0)
         == FoldLines(ProcessLine, Buffers([], name, dispatched), rest, 0)
  {
    hide FoldLines, ProcessLine;
    FieldLine(Buffers([], [], dispatched), EVENT, name);
    OneLine(Buffers([], [], dispatched), Field(EVENT, name), rest);
  }

  lemma EventIsDispatched(dispatched: seq<Event>, e: Event, rest: Text)
    requires Printable(e)
    ensures FoldLines(ProcessLine, Buffers([], [], dispatched), Printed(e) + rest, 0)
         == FoldLines(ProcessLine, Buffers([], [], dispatched + [e]), rest, 0)
  {
    hide FoldLines, ProcessLine, DataLines, Printed, Field;
    PrintedIs(e, rest);
    TypeIsTaken(dispatched, e.event, DataLines(e.data) + ([] + [LF] + rest));
    DataIsCollected(Buffers([], e.event, dispatched), e.data, [] + [LF] + rest);
    assert [] + e.data + [LF] == e.data + [LF];
    BlankLine(dispatched, e);
    OneLine(Buffers(e.data + [LF], e.event, dispatched), [], rest);
  }

  lemma BlankLine(dispatched: seq<Event>, e: Event)
    requires e.event != []
    ensures ProcessLine(Buffers(e.data + [LF], e.event, dispatched), []) == Buffers([], [], dispatched + [e])
  {
    assert (e.data + [LF])[..|e.data|] == e.data;
  }

  lemma {:induction false} StreamIsDispatched(dispatched: seq<Event>, events: seq<Event>)
    requires forall e :: e in events ==> Printable(e)
    ensures FoldLines(ProcessLine, Buffers([], [], dispatched), Stream(events), 0)
         == Buffers([], [], dispatched + events)
    decreases |events|
  {
    hide FoldLines, Printed, Printable;
    if events == [] {
      NoMoreLines(ProcessLine, Buffers([], [], dispatched), [], 0);
      assert dispatched + [] == dispatched;
    } else {
      EventIsDispatched(dispatched, events[0], Stream(events[1..]));
      StreamIsDispatched(dispatched + [events[0]], events[1..]);
      assert dispatched + [events[0]] + events[1..] == dispatched + events;
    }
  }

  /** Events written out as a stream, types and many-lined data included, are the events of the stream. */
  lemma PrintedEventsComeBack(events: seq<Event>)
    requires forall e :: e in events ==> Printable(e)
    ensures Interpret(Stream(events)) == events
  {
    StreamIsDispatched([], events);
    assert [] + events == events;
    NoByteOrderMark(events);
    hide FoldLines, Stream;
  }

  lemma NoByteOrderMark(events: seq<Event>)
    ensures Body(Stream(events)) == Stream(events)
  {
    if events != [] {
      assert Stream(events)[0] == EVENT[0];
    }
  }

  /** A parser fed such a stream, however it is cut, emits exactly the events written. */
  method PrintAndParse(events: seq<Event>, chunks: seq<Text>) returns (emitted: seq<Event>)
    requires forall e :: e in events ==> Printable(e)
    requires Joined(chunks) == Stream(events)
    ensures emitted == events
  {
    PrintedEventsComeBack(events);
    emitted := ParseChunks(chunks);
  }
}
