/** The server's printing of events, and its reading back by the client
    (a2a-server/src/sse.rs, a2a-client/src/jsonrpc.rs). */
module SseRoundTrip {
  import opened Wrappers
  import opened Types
  import opened Decimal
  import opened Sse

  // ---------------------------------------------------------------------
  // Printing
  // ---------------------------------------------------------------------

  function Ascii(s: string): (bytes: Bytes)
    requires forall i :: 0 <= i < |s| ==> s[i] as int < 128
    ensures |bytes| == |s| && forall i :: 0 <= i < |s| ==> bytes[i] as int == s[i] as int
  {
    seq(|s|, i requires 0 <= i < |s| => s[i] as int as Byte)
  }

  const ID: Bytes := [0x69, 0x64, 0x3A, 0x20]  // "id: "
  const COLON: Byte := 0x3A

  /** The pieces between line feeds, empty ones included. */
  function Split(data: Bytes): (pieces: seq<Bytes>)
    ensures pieces != []
    ensures forall k :: 0 <= k < |pieces| ==> LF !in pieces[k]
    decreases |data|
  {
    var i := LineEnd(data);
    if i == |data| then [data] else [data[..i]] + Split(data[i + 1..])
  }

  function IdLine(id: nat): Bytes {
    ID + Ascii(Printed(id))
  }

  /** The lines of an event: its id, then its data line by line. */
  function EventLines(id: nat, data: Bytes): (lines: seq<Bytes>)
    ensures |lines| == 1 + |Split(data)|
  {
    [IdLine(id)] + seq(|Split(data)|, k requires 0 <= k < |Split(data)| => DATA_SPACE + Split(data)[k])
  }

  function Joined(lines: seq<Bytes>): Bytes
    decreases |lines|
  {
    if lines == [] then []
    else if |lines| == 1 then lines[0]
    else lines[0] + [LF] + Joined(lines[1..])
  }

  lemma {:induction false} JoinedSnoc(lines: seq<Bytes>, last: Bytes)
    requires lines != []
    ensures Joined(lines + [last]) == Joined(lines) + [LF] + last
    decreases |lines|
  {
    var all := lines + [last];
    assert all[1..] == lines[1..] + [last];
    if |lines| > 1 {
      JoinedSnoc(lines[1..], last);
      assert lines[0] + [LF] + (Joined(lines[1..]) + [LF] + last) == lines[0] + [LF] + Joined(lines[1..]) + [LF] + last;
    }
  }

  function EventText(id: nat, data: Bytes): Bytes {
    Joined(EventLines(id, data))
  }

  /** Numbers the events of one response, counting from 1. */
  class EventPrinter {
    var eventId: nat

    constructor ()
      ensures eventId == 0
    {
      eventId := 0;
    }

    /** `next_event_id` and the event built with it, each field on a line of its
        own and an empty line last. */
    method Print(data: Bytes) returns (bytes: Bytes)
      modifies this
      ensures eventId == old(eventId) + 1
      ensures bytes == EventText(eventId, data) + [LF, LF]
    {
      eventId := eventId + 1;
      bytes := ID + Ascii(Printed(eventId)) + [LF];
      var pieces := Split(data);
      ghost var lines := EventLines(eventId, data);
      assert lines[..1] == [IdLine(eventId)];
      var k := 0;
      while k < |pieces|
        invariant 0 <= k <= |pieces| && eventId == old(eventId) + 1
        invariant bytes == Joined(lines[..k + 1]) + [LF]
      {
        assert lines[..k + 2] == lines[..k + 1] + [DATA_SPACE + pieces[k]];
        JoinedSnoc(lines[..k + 1], DATA_SPACE + pieces[k]);
        bytes := bytes + DATA_SPACE + pieces[k] + [LF];
        k := k + 1;
      }
      assert lines[..k + 1] == lines;
      bytes := bytes + [LF];
    }
  }

  // ---------------------------------------------------------------------
  // One event
  // ---------------------------------------------------------------------

  /** Text that no separator can begin in. */
  ghost predicate Solid(text: Bytes) {
    && text != [] && text[0] != LF && text[|text| - 1] != LF && CR !in text
    && forall i :: 0 <= i < |text| - 1 ==> !(text[i] == LF && text[i + 1] == LF)
  }

  lemma SolidEndsAtSeparator(text: Bytes, rest: Bytes)
    requires Solid(text)
    ensures FirstBoundary(text + [LF, LF] + rest) == Some(Boundary(|text|, |text| + 2))
  {
    var all := text + [LF, LF] + rest;
    assert forall k :: 0 <= k < |text| ==> all[k] == text[k];
    assert all[|text|] == LF && all[|text| + 1] == LF;
    forall i: nat | i < |text| ensures SeparatorEnd(all, i) == 0 {
      assert all[i] != CR;
    }
    FirstIsUnique(all, Some(Boundary(|text|, |text| + 2)));
  }

  lemma SolidDrains(text: Bytes, rest: Bytes)
    requires Solid(text)
    ensures Drain(text + [LF, LF] + rest)
         == Drained([Frame(text, [LF, LF])] + Drain(rest).frames, Drain(rest).rest)
  {
    SolidEndsAtSeparator(text, rest);
    var all := text + [LF, LF] + rest;
    assert all[..|text|] == text && all[|text|..|text| + 2] == [LF, LF] && all[|text| + 2..] == rest;
  }

  /** A non-empty line with no line break in it. */
  ghost predicate PlainLine(line: Bytes) {
    line != [] && LF !in line && CR !in line
  }

  lemma LineBeforeSolid(line: Bytes, later: Bytes)
    requires PlainLine(line) && Solid(later)
    ensures Solid(line + [LF] + later)
  {
    var text := line + [LF] + later;
    assert forall i :: 0 <= i < |line| ==> text[i] == line[i];
    assert forall i :: 0 <= i < |later| ==> text[|line| + 1 + i] == later[i];
    assert text[|line|] == LF;
  }

  lemma {:induction false} JoinedIsSolid(lines: seq<Bytes>)
    requires lines != [] && forall k :: 0 <= k < |lines| ==> PlainLine(lines[k])
    ensures Solid(Joined(lines))
    decreases |lines|
  {
    if |lines| > 1 {
      JoinedIsSolid(lines[1..]);
      LineBeforeSolid(lines[0], Joined(lines[1..]));
    }
  }

  lemma LineEndOfPlain(line: Bytes, later: Bytes)
    requires LF !in line
    ensures LineEnd(line) == |line| && LineEnd(line + [LF] + later) == |line|
  {
    var text := line + [LF] + later;
    assert forall i :: 0 <= i < |line| ==> text[i] == line[i];
    assert text[|line|] == LF;
  }

  lemma FirstLine(line: Bytes, later: Bytes)
    requires PlainLine(line)
    ensures Lines(line + [LF] + later) == [line] + Lines(later)
    ensures Lines(line) == [line]
  {
    var text := line + [LF] + later;
    LineEndOfPlain(line, later);
    assert text[|line| - 1] == line[|line| - 1];
    assert text[..|line|] == line && text[|line| + 1..] == later;
  }

  lemma {:induction false} LinesOfJoined(lines: seq<Bytes>)
    requires forall k :: 0 <= k < |lines| ==> PlainLine(lines[k])
    ensures Lines(Joined(lines)) == lines
    decreases |lines|
  {
    if lines != [] {
      FirstLine(lines[0], Joined(lines[1..]));
      LinesOfJoined(lines[1..]);
    }
  }

  lemma EventLinesArePlain(id: nat, data: Bytes)
    requires CR !in data
    ensures forall k :: 0 <= k < |EventLines(id, data)| ==> PlainLine(EventLines(id, data)[k])
  {
    var lines := EventLines(id, data);
    SplitHasNoOther(data, CR);
    forall k | 0 <= k < |lines| ensures PlainLine(lines[k]) {
      if k == 0 {
        var digits := Ascii(Printed(id));
        assert forall i :: 0 <= i < |digits| ==> digits[i] as int == Printed(id)[i] as int && IsDigit(Printed(id)[i]);
      } else {
        assert lines[k] == DATA_SPACE + Split(data)[k - 1];
      }
    }
  }

  lemma {:induction false} SplitHasNoOther(data: Bytes, b: Byte)
    requires b !in data
    ensures forall k :: 0 <= k < |Split(data)| ==> b !in Split(data)[k]
    decreases |data|
  {
    var i := LineEnd(data);
    if i < |data| { SplitHasNoOther(data[i + 1..], b); }
  }

  /** The printed event is one frame, with its id on the first line. */
  lemma EventIsOneFrame(id: nat, data: Bytes, rest: Bytes)
    requires CR !in data
    ensures Drain(EventText(id, data) + [LF, LF] + rest)
         == Drained([Frame(EventText(id, data), [LF, LF])] + Drain(rest).frames, Drain(rest).rest)
    ensures Lines(EventText(id, data)) == EventLines(id, data)
    ensures Lines(EventText(id, data))[0] == ID + Ascii(Printed(id))
  {
    EventLinesArePlain(id, data);
    JoinedIsSolid(EventLines(id, data));
    SolidDrains(EventText(id, data), rest);
    LinesOfJoined(EventLines(id, data));
  }

  function WithoutLeadingBreaks(data: Bytes): Bytes {
    if data != [] && data[0] == LF then WithoutLeadingBreaks(data[1..]) else data
  }

  function DataLines(data: Bytes): seq<Bytes> {
    seq(|Split(data)|, k requires 0 <= k < |Split(data)| => DATA_SPACE + Split(data)[k])
  }

  function Pieced(acc: Bytes, piece: Bytes): Bytes {
    (if acc == [] then [] else acc + [LF]) + piece
  }

  lemma FirstDataLine(acc: Bytes, data: Bytes)
    ensures var i := LineEnd(data);
            DataFrom(acc, DataLines(data))
            == if i == |data| then Pieced(acc, data) else DataFrom(Pieced(acc, data[..i]), DataLines(data[i + 1..]))
  {
    var i := LineEnd(data);
    var lines := DataLines(data);
    assert lines[0] == DATA_SPACE + data[..i] && lines[0][6..] == data[..i];
    assert lines[1..] == if i == |data| then [] else DataLines(data[i + 1..]);
    assert Appended(acc, lines[0]) == Pieced(acc, data[..i]);
    assert DataFrom(acc, lines) == DataFrom(Appended(acc, lines[0]), lines[1..]);
    if i == |data| { assert data[..i] == data; }
  }

  lemma DataAround(data: Bytes, i: nat)
    requires i < |data| && data[i] == LF
    ensures data == data[..i] + [LF] + data[i + 1..]
  {
  }

  lemma Regrouped(acc: Bytes, line: Bytes, later: Bytes)
    ensures acc + [LF] + line + [LF] + later == acc + [LF] + (line + [LF] + later)
  {
  }

  /** Once there is data, the remaining lines come back with their breaks. */
  lemma {:induction false} DataLinesJoin(acc: Bytes, data: Bytes)
    requires acc != []
    ensures DataFrom(acc, DataLines(data)) == acc + [LF] + data
    decreases |data|
  {
    var i := LineEnd(data);
    FirstDataLine(acc, data);
    if i < |data| {
      DataAround(data, i);
      DataLinesJoin(acc + [LF] + data[..i], data[i + 1..]);
      Regrouped(acc, data[..i], data[i + 1..]);
    }
  }

  lemma FirstDataLineAlone(data: Bytes)
    ensures var i := LineEnd(data);
            DataFrom([], DataLines(data)) == if i == |data| then data else DataFrom(data[..i], DataLines(data[i + 1..]))
  {
    FirstDataLine([], data);
    assert forall piece :: Pieced([], piece) == piece;
  }

  lemma {:induction false} DataLinesFromNothing(data: Bytes)
    ensures DataFrom([], DataLines(data)) == WithoutLeadingBreaks(data)
    decreases |data|
  {
    var i := LineEnd(data);
    FirstDataLineAlone(data);
    if i < |data| {
      DataAround(data, i);
      if i == 0 {
        DataLinesFromNothing(data[1..]);
      } else {
        DataLinesJoin(data[..i], data[i + 1..]);
      }
    }
  }

  /** The client reads back the data without its leading line breaks: exactly
      what was printed if and only if it does not start with a line break. */
  lemma DataComesBack(id: nat, data: Bytes)
    requires CR !in data
    ensures DataOf(EventText(id, data)) == WithoutLeadingBreaks(data)
    ensures DataOf(EventText(id, data)) == data <==> data == [] || data[0] != LF
  {
    EventIsOneFrame(id, data, []);
    var lines := EventLines(id, data);
    assert lines[1..] == DataLines(data);
    assert Payload(lines[0]).None? by { assert lines[0][0] == 0x69; }
    DataLinesFromNothing(data);
    BreaksShorten(data);
  }

  lemma {:induction false} BreaksShorten(data: Bytes)
    ensures |WithoutLeadingBreaks(data)| <= |data|
    ensures data != [] && data[0] == LF ==> |WithoutLeadingBreaks(data)| < |data|
  {
    if data != [] && data[0] == LF { BreaksShorten(data[1..]); }
  }

  // ---------------------------------------------------------------------
  // A whole response
  // ---------------------------------------------------------------------

  /** What the server sends: an event with its data, or a keep-alive comment. */
  datatype Sent = Event(data: Bytes) | Comment(note: Bytes)

  predicate Sendable(part: Sent) {
    match part
    case Event(data) => CR !in data && Utf8(data)
    case Comment(note) => LF !in note && CR !in note && Utf8(note)
  }

  function Count(part: Sent, count: nat): nat {
    if part.Event? then count + 1 else count
  }

  function TextOf(part: Sent, id: nat): Bytes {
    match part
    case Event(data) => EventText(id, data)
    case Comment(note) => [COLON] + note
  }

  /** The bytes of the response, `count` events having been sent before. */
  function Body(parts: seq<Sent>, count: nat): Bytes {
    if parts == [] then []
    else TextOf(parts[0], count + 1) + [LF, LF] + Body(parts[1..], Count(parts[0], count))
  }

  lemma BodyGoesOn(parts: seq<Sent>, k: nat, count: nat, sent: Bytes)
    requires k < |parts|
    ensures sent + Body(parts[k..], count)
         == (sent + (TextOf(parts[k], count + 1) + [LF, LF])) + Body(parts[k + 1..], Count(parts[k], count))
  {
    assert parts[k..][1..] == parts[k + 1..];
  }

  /** A response as the server streams it: `sse_jsonrpc_stream` maps each item to
      an event, and the keep-alive puts comments in between. */
  method Respond(parts: seq<Sent>) returns (bytes: Bytes)
    ensures bytes == Body(parts, 0)
  {
    var printer := new EventPrinter();
    bytes := [];
    var k := 0;
    while k < |parts|
      invariant 0 <= k <= |parts|
      invariant bytes + Body(parts[k..], printer.eventId) == Body(parts, 0)
    {
      ghost var count := printer.eventId;
      var event: Bytes;
      match parts[k] {
        case Event(data) => event := printer.Print(data);
        case Comment(note) => event := [COLON] + note + [LF, LF];
      }
      BodyGoesOn(parts, k, count, bytes);
      bytes := bytes + event;
      k := k + 1;
    }
    assert bytes + [] == bytes;
  }

  function Frames(parts: seq<Sent>, count: nat): seq<Frame> {
    if parts == [] then []
    else [Frame(TextOf(parts[0], count + 1), [LF, LF])] + Frames(parts[1..], Count(parts[0], count))
  }

  lemma CommentIsSolid(note: Bytes)
    requires LF !in note && CR !in note
    ensures Solid([COLON] + note) && Lines([COLON] + note) == [[COLON] + note] && DataOf([COLON] + note) == []
  {
    var text := [COLON] + note;
    JoinedIsSolid([text]);
    FirstLine(text, []);
    assert text[0] == COLON;
    assert Payload(text).None?;
    assert DataFrom([], [text]) == DataFrom([], [text][1..]);
  }

  /** Every event and every comment is one frame, and nothing is left over. */
  lemma {:induction false} BodyDrains(parts: seq<Sent>, count: nat)
    requires forall k :: 0 <= k < |parts| ==> Sendable(parts[k])
    ensures Drain(Body(parts, count)) == Drained(Frames(parts, count), [])
    decreases |parts|
  {
    if parts != [] {
      var rest := Body(parts[1..], Count(parts[0], count));
      BodyDrains(parts[1..], Count(parts[0], count));
      match parts[0]
      case Event(data) => EventIsOneFrame(count + 1, data, rest);
      case Comment(note) => CommentIsSolid(note); SolidDrains([COLON] + note, rest);
    }
  }

  // ---------------------------------------------------------------------
  // Printed text is valid text
  // ---------------------------------------------------------------------

  lemma {:induction false} AsciiIsUtf8(s: Bytes)
    requires forall i :: 0 <= i < |s| ==> s[i] < 0x80
    ensures Utf8(s)
  {
    if s != [] { AsciiIsUtf8(s[1..]); }
  }

  lemma {:induction false} SplitIsUtf8(data: Bytes)
    requires Utf8(data)
    ensures forall k :: 0 <= k < |Split(data)| ==> Utf8(Split(data)[k])
    decreases |data|
  {
    var i := LineEnd(data);
    if i < |data| {
      assert data == data[..i] + [LF] + data[i + 1..];
      Utf8Split(data[..i], LF, data[i + 1..]);
      SplitIsUtf8(data[i + 1..]);
    }
  }

  lemma {:induction false} JoinedIsUtf8(lines: seq<Bytes>)
    requires forall k :: 0 <= k < |lines| ==> Utf8(lines[k])
    ensures Utf8(Joined(lines))
    decreases |lines|
  {
    if |lines| > 1 {
      JoinedIsUtf8(lines[1..]);
      AsciiIsUtf8([LF]);
      Utf8Concat(lines[0], [LF]);
      Utf8Concat(lines[0] + [LF], Joined(lines[1..]));
    }
  }

  lemma TextIsUtf8(part: Sent, id: nat)
    requires Sendable(part)
    ensures Utf8(TextOf(part, id))
  {
    match part
    case Comment(note) =>
      AsciiIsUtf8([COLON]);
      Utf8Concat([COLON], note);
    case Event(data) =>
      SplitIsUtf8(data);
      AsciiIsUtf8(IdLine(id));
      AsciiIsUtf8(DATA_SPACE);
      var lines := EventLines(id, data);
      forall k | 0 <= k < |lines| ensures Utf8(lines[k]) {
        if k > 0 { Utf8Concat(DATA_SPACE, Split(data)[k - 1]); }
      }
      JoinedIsUtf8(lines);
  }

  // ---------------------------------------------------------------------
  // The round trip
  // ---------------------------------------------------------------------

  /** What the binding makes of an event's data; a comment is nothing. */
  function Reading<T>(binding: Binding<T>, part: Sent): seq<Item<T>> {
    if part.Event? then AsSeq(Wrapped(binding.event(part.data))) else []
  }

  /** What the binding makes of each event's data, in order. */
  function Readings<T>(binding: Binding<T>, parts: seq<Sent>): seq<Item<T>> {
    if parts == [] then [] else Reading(binding, parts[0]) + Readings(binding, parts[1..])
  }

  predicate FirstLineNotEmpty(data: Bytes) {
    data != [] && data[0] != LF
  }

  lemma FrameIsReading<T>(binding: Binding<T>, part: Sent, id: nat)
    requires Sendable(part) && (part.Event? ==> FirstLineNotEmpty(part.data))
    ensures AsSeq(FrameItem(binding, Frame(TextOf(part, id), [LF, LF]))) == Reading(binding, part)
  {
    TextIsUtf8(part, id);
    match part
    case Event(data) => DataComesBack(id, data);
    case Comment(note) => CommentIsSolid(note);
  }

  lemma {:induction false} FramesAreReadings<T>(binding: Binding<T>, parts: seq<Sent>, count: nat)
    requires forall k :: 0 <= k < |parts| ==>
               Sendable(parts[k]) && (parts[k].Event? ==> FirstLineNotEmpty(parts[k].data))
    ensures FrameItems(binding, Frames(parts, count)) == Readings(binding, parts)
    decreases |parts|
  {
    if parts != [] {
      FrameIsReading(binding, parts[0], count + 1);
      FirstFrameItems(binding, Frame(TextOf(parts[0], count + 1), [LF, LF]),
                      Frames(parts[1..], Count(parts[0], count)));
      FramesAreReadings(binding, parts[1..], Count(parts[0], count));
    }
  }

  /** Events whose data has no carriage return and a first line that is not
      empty, with comments among them, cut anywhere on the way: the client
      yields its reading of each one's data, exactly and in order. */
  lemma EventsRoundTrip<T>(binding: Binding<T>, parts: seq<Sent>, chunks: seq<Chunk>)
    requires forall k :: 0 <= k < |parts| ==>
               Sendable(parts[k]) && (parts[k].Event? ==> FirstLineNotEmpty(parts[k].data))
    requires BytesOf(chunks) == Body(parts, 0) && forall k :: 0 <= k < |chunks| ==> chunks[k].Chunk?
    ensures StreamItems(binding, chunks, []) == Readings(binding, parts)
  {
    ChunksDoNotMatter(binding, chunks);
    BodyDrains(parts, 0);
    FramesAreReadings(binding, parts, 0);
    assert TailItem(binding, []).None?;
  }

  /** The ids of the events among the frames, as printed. */
  function IdsOf(frames: seq<Frame>): seq<Bytes> {
    if frames == [] then []
    else
      var lines := Lines(frames[0].text);
      (if lines != [] && ID <= lines[0] then [lines[0][4..]] else []) + IdsOf(frames[1..])
  }

  function EventCount(parts: seq<Sent>): nat {
    if parts == [] then 0 else (if parts[0].Event? then 1 else 0) + EventCount(parts[1..])
  }

  /** The numbers after `count`, printed. */
  function Numbers(count: nat, n: nat): seq<Bytes>
    decreases n
  {
    if n == 0 then [] else [Ascii(Printed(count + 1))] + Numbers(count + 1, n - 1)
  }

  lemma FirstLineOf(part: Sent, id: nat)
    requires Sendable(part)
    ensures Lines(TextOf(part, id)) != []
    ensures var line := Lines(TextOf(part, id))[0];
            if part.Event? then ID <= line && line[4..] == Ascii(Printed(id)) else !(ID <= line)
  {
    match part
    case Event(data) => EventIsOneFrame(id, data, []);
    case Comment(note) => CommentIsSolid(note); assert Lines(TextOf(part, id))[0][0] == COLON;
  }

  /** The events of a response are numbered 1, 2, 3 and so on, with no gap. */
  lemma {:induction false} IdsCountUp(parts: seq<Sent>, count: nat)
    requires forall k :: 0 <= k < |parts| ==> Sendable(parts[k])
    ensures IdsOf(Frames(parts, count)) == Numbers(count, EventCount(parts))
    decreases |parts|
  {
    if parts != [] {
      FirstLineOf(parts[0], count + 1);
      assert Frames(parts, count)[1..] == Frames(parts[1..], Count(parts[0], count));
      IdsCountUp(parts[1..], Count(parts[0], count));
    }
  }

  // ---------------------------------------------------------------------
  // Lines that end in a carriage return and a line feed
  // ---------------------------------------------------------------------

  /** The lines, each but the last ended by CR LF. */
  function JoinedCrLf(lines: seq<Bytes>): Bytes
    decreases |lines|
  {
    if lines == [] then []
    else if |lines| == 1 then lines[0]
    else lines[0] + [CR, LF] + JoinedCrLf(lines[1..])
  }

  lemma FirstCrLfLine(line: Bytes, later: Bytes)
    requires PlainLine(line)
    ensures Lines(line + [CR, LF] + later) == [line] + Lines(later)
  {
    var text := line + [CR, LF] + later;
    LineEndOfPlain(line + [CR], later);
    assert text == (line + [CR]) + [LF] + later;
    assert LineEnd(text) == |line| + 1;
    assert text[|line|] == CR && text[..|line|] == line && text[|line| + 2..] == later;
  }

  /** Lines come out the same whether CR LF or LF ends them, and so does the data
      of an event. */
  lemma {:induction false} CrLfReadsAlike(lines: seq<Bytes>)
    requires forall k :: 0 <= k < |lines| ==> PlainLine(lines[k])
    ensures Lines(JoinedCrLf(lines)) == lines
    ensures DataOf(JoinedCrLf(lines)) == DataOf(Joined(lines))
    decreases |lines|
  {
    LinesOfJoined(lines);
    if |lines| == 1 {
      FirstLine(lines[0], []);
    } else if lines != [] {
      FirstCrLfLine(lines[0], JoinedCrLf(lines[1..]));
      CrLfReadsAlike(lines[1..]);
    }
  }

  /** A text in which no separator can begin is a frame of its own before any of
      the three separators. */
  lemma AnySeparatorEndsTheEvent(text: Bytes, separator: Bytes, rest: Bytes)
    requires Solid(text) && IsSeparator(separator)
    ensures Drain(text + separator + rest)
         == Drained([Frame(text, separator)] + Drain(rest).frames, Drain(rest).rest)
  {
    var all := text + separator + rest;
    var end := |text| + |separator|;
    assert forall k :: 0 <= k < |text| ==> all[k] == text[k];
    assert all[|text|..end] == separator;
    SeparatorsAre(all, |text|, end);
    forall i: nat | i < |text| ensures SeparatorEnd(all, i) == 0 {
      assert all[i] != CR;
      assert all[i] == LF ==> i + 1 < |text|;
    }
    FirstIsUnique(all, Some(Boundary(|text|, end)));
    assert all[..|text|] == text && all[end..] == rest;
    DrainStep(all);
  }

  /** The fields and line ends as they are written. */
  lemma FieldsAreNamed()
    ensures ID == Ascii("id: ") && DATA == Ascii("data:") && DATA_SPACE == Ascii("data: ")
    ensures [LF] == Ascii("\n") && [CR] == Ascii("\r") && [COLON] == Ascii(":")
  {
  }
}
