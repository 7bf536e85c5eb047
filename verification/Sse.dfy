/** The client's incremental parser of server-sent events, and the one-shot
    parse of the whole byte string it agrees with however the bytes are cut
    (a2a-client/src/jsonrpc.rs; sections 9.2.5 and 9.2.6 of the WHATWG HTML
    standard). */
module Sse {
  import opened Wrappers
  import opened Types

  type Bytes = seq<Byte>

  const LF: Byte := 10
  const CR: Byte := 13

  // ---------------------------------------------------------------------
  // Event boundaries
  // ---------------------------------------------------------------------

  /** The end of the event separator at i, 0 when there is none. */
  function SeparatorEnd(buf: Bytes, i: nat): (end: nat)
    ensures end != 0 ==> i + 2 <= end <= |buf|
  {
    if i + 1 < |buf| && buf[i] == LF && buf[i + 1] == LF then i + 2
    else if i + 1 < |buf| && buf[i] == CR && buf[i + 1] == CR then i + 2
    else if i + 3 < |buf| && buf[i] == CR && buf[i + 1] == LF && buf[i + 2] == CR && buf[i + 3] == LF then i + 4
    else 0
  }

  /** Start and end of a separator. */
  datatype Boundary = Boundary(start: nat, end: nat)

  /** The separator with the earliest start is the answer; None when there is none. */
  ghost predicate IsFirstBoundary(buf: Bytes, found: Option<Boundary>) {
    match found
    case None => forall i: nat :: i < |buf| ==> SeparatorEnd(buf, i) == 0
    case Some(Boundary(start, end)) =>
      && end != 0 && SeparatorEnd(buf, start) == end
      && forall i: nat :: i < start ==> SeparatorEnd(buf, i) == 0
  }

  function FirstFrom(buf: Bytes, i: nat): Option<Boundary>
    requires i <= |buf|
    decreases |buf| - i
  {
    if i == |buf| then None
    else if SeparatorEnd(buf, i) != 0 then Some(Boundary(i, SeparatorEnd(buf, i)))
    else FirstFrom(buf, i + 1)
  }

  function FirstBoundary(buf: Bytes): Option<Boundary> {
    FirstFrom(buf, 0)
  }

  lemma {:induction false} FirstFromIsFirst(buf: Bytes, i: nat)
    requires i <= |buf| && forall j: nat :: j < i ==> SeparatorEnd(buf, j) == 0
    ensures IsFirstBoundary(buf, FirstFrom(buf, i))
    decreases |buf| - i
  {
    if i < |buf| && SeparatorEnd(buf, i) == 0 { FirstFromIsFirst(buf, i + 1); }
  }

  lemma FirstIsUnique(buf: Bytes, found: Option<Boundary>)
    requires IsFirstBoundary(buf, found)
    ensures FirstBoundary(buf) == found
  {
    FirstFromIsFirst(buf, 0);
    var first := FirstBoundary(buf);
    if first.Some? && found.Some? {
      assert first.value.start >= found.value.start;
      assert found.value.start >= first.value.start;
    }
  }

  /** `find_event_boundary`. */
  method FindEventBoundary(buf: Bytes) returns (found: Option<Boundary>)
    ensures found == FirstBoundary(buf) && IsFirstBoundary(buf, found)
  {
    var i := 0;
    while i + 1 < |buf|
      invariant 0 <= i <= |buf|
      invariant forall j: nat :: j < i ==> SeparatorEnd(buf, j) == 0
    {
      if buf[i] == LF && buf[i + 1] == LF {
        found := Some(Boundary(i, i + 2));
        FirstIsUnique(buf, found);
        return;
      }
      if buf[i] == CR && buf[i + 1] == CR {
        found := Some(Boundary(i, i + 2));
        FirstIsUnique(buf, found);
        return;
      }
      if i + 3 < |buf| && buf[i] == CR && buf[i + 1] == LF && buf[i + 2] == CR && buf[i + 3] == LF {
        found := Some(Boundary(i, i + 4));
        FirstIsUnique(buf, found);
        return;
      }
      i := i + 1;
    }
    found := None;
    FirstIsUnique(buf, found);
  }

  /** The earliest boundary of a prefix is the earliest of any extension. */
  lemma BoundaryOfPrefix(buf: Bytes, more: Bytes)
    requires FirstBoundary(buf).Some?
    ensures FirstBoundary(buf + more) == FirstBoundary(buf)
  {
    FirstFromIsFirst(buf, 0);
    var Boundary(start, end) := FirstBoundary(buf).value;
    var all := buf + more;
    assert forall k :: 0 <= k < |buf| ==> all[k] == buf[k];
    forall i: nat | i < start ensures SeparatorEnd(all, i) == 0 {
      // A separator past the end of the buffer would leave no room for the one at start.
      assert SeparatorEnd(buf, i) == 0;
      assert i + 3 >= |buf| ==> start == i + 1;
    }
    assert SeparatorEnd(all, start) == end;
    FirstIsUnique(all, Some(Boundary(start, end)));
  }

  // ---------------------------------------------------------------------
  // Draining a buffer
  // ---------------------------------------------------------------------

  datatype Frame = Frame(text: Bytes, separator: Bytes)

  datatype Drained = Drained(frames: seq<Frame>, rest: Bytes)

  /** All complete frames of a buffer and what is left. */
  function Drain(buf: Bytes): Drained
    decreases |buf|
  {
    FirstFromIsFirst(buf, 0);
    match FirstBoundary(buf)
    case None => Drained([], buf)
    case Some(Boundary(start, end)) =>
      var later := Drain(buf[end..]);
      Drained([Frame(buf[..start], buf[start..end])] + later.frames, later.rest)
  }

  function Before(frame: Frame, later: Drained): Drained {
    Drained([frame] + later.frames, later.rest)
  }

  lemma DrainStep(buf: Bytes)
    requires FirstBoundary(buf).Some?
    ensures var Boundary(start, end) := FirstBoundary(buf).value;
            start < end <= |buf| && Drain(buf) == Before(Frame(buf[..start], buf[start..end]), Drain(buf[end..]))
  {
    FirstFromIsFirst(buf, 0);
  }

  function Rejoined(frames: seq<Frame>): Bytes {
    if frames == [] then [] else frames[0].text + frames[0].separator + Rejoined(frames[1..])
  }

  /** Nothing is lost or made up: frames, their separators and the residue are
      the input. */
  lemma {:induction false} DrainConserves(buf: Bytes)
    ensures Rejoined(Drain(buf).frames) + Drain(buf).rest == buf
    decreases |buf|
  {
    if FirstBoundary(buf).Some? {
      DrainStep(buf);
      var Boundary(start, end) := FirstBoundary(buf).value;
      DrainConserves(buf[end..]);
      RejoinedCons(Frame(buf[..start], buf[start..end]), Drain(buf[end..]).frames);
      assert buf == buf[..start] + buf[start..end] + buf[end..];
    }
  }

  lemma RejoinedCons(frame: Frame, frames: seq<Frame>)
    ensures Rejoined([frame] + frames) == frame.text + frame.separator + Rejoined(frames)
  {
  }

  /** A first frame stays the first frame whatever comes next. */
  lemma DrainFirst(buf: Bytes, more: Bytes)
    requires FirstBoundary(buf).Some?
    ensures var Boundary(start, end) := FirstBoundary(buf).value;
            && start < end <= |buf|
            && Drain(buf + more) == Before(Frame(buf[..start], buf[start..end]), Drain(buf[end..] + more))
  {
    FirstFromIsFirst(buf, 0);
    var Boundary(start, end) := FirstBoundary(buf).value;
    BoundaryOfPrefix(buf, more);
    var all := buf + more;
    assert all[end..] == buf[end..] + more && all[..start] == buf[..start] && all[start..end] == buf[start..end];
  }

  /** Draining what has come so far and then the residue with what comes next
      is draining it all at once. */
  lemma {:induction false} DrainInStages(buf: Bytes, more: Bytes)
    ensures var first := Drain(buf);
            var second := Drain(first.rest + more);
            Drain(buf + more) == Drained(first.frames + second.frames, second.rest)
    decreases |buf|
  {
    if FirstBoundary(buf).Some? {
      DrainStep(buf);
      var Boundary(start, end) := FirstBoundary(buf).value;
      var frame := Frame(buf[..start], buf[start..end]);
      DrainFirst(buf, more);
      var later := Drain(buf[end..]);
      DrainInStages(buf[end..], more);
      var second := Drain(later.rest + more);
      assert [frame] + (later.frames + second.frames) == ([frame] + later.frames) + second.frames;
    } else {
      assert Drain(buf) == Drained([], buf);
    }
  }

  // ---------------------------------------------------------------------
  // Text
  // ---------------------------------------------------------------------

  predicate Within(b: Byte, low: Byte, high: Byte) {
    low <= b <= high
  }

  /** Bytes of the first character of a UTF-8 string, 0 when it is not one. */
  function CharLength(s: Bytes): (n: nat)
    ensures n <= |s|
  {
    if s == [] then 0
    else if s[0] < 0x80 then 1
    else if |s| >= 2 && Within(s[0], 0xC2, 0xDF) && Within(s[1], 0x80, 0xBF) then 2
    else if |s| >= 3 && Within(s[2], 0x80, 0xBF)
         && ((s[0] == 0xE0 && Within(s[1], 0xA0, 0xBF))
             || ((Within(s[0], 0xE1, 0xEC) || Within(s[0], 0xEE, 0xEF)) && Within(s[1], 0x80, 0xBF))
             || (s[0] == 0xED && Within(s[1], 0x80, 0x9F))) then 3
    else if |s| >= 4 && Within(s[2], 0x80, 0xBF) && Within(s[3], 0x80, 0xBF)
         && ((s[0] == 0xF0 && Within(s[1], 0x90, 0xBF))
             || (Within(s[0], 0xF1, 0xF3) && Within(s[1], 0x80, 0xBF))
             || (s[0] == 0xF4 && Within(s[1], 0x80, 0x8F))) then 4
    else 0
  }

  predicate Utf8(s: Bytes) {
    s == [] || (CharLength(s) > 0 && Utf8(s[CharLength(s)..]))
  }

  lemma CharLengthOfPrefix(a: Bytes, b: Bytes)
    requires CharLength(a) > 0
    ensures CharLength(a + b) == CharLength(a)
  {
    assert forall i :: 0 <= i < |a| ==> (a + b)[i] == a[i];
  }

  lemma {:induction false} Utf8Concat(a: Bytes, b: Bytes)
    requires Utf8(a) && Utf8(b)
    ensures Utf8(a + b)
    decreases |a|
  {
    if a == [] {
      assert a + b == b;
    } else {
      var n := CharLength(a);
      CharLengthOfPrefix(a, b);
      assert (a + b)[n..] == a[n..] + b;
      Utf8Concat(a[n..], b);
    }
  }

  /** An ASCII byte splits valid text into valid text. */
  lemma {:induction false} Utf8Split(a: Bytes, c: Byte, b: Bytes)
    requires c < 0x80 && Utf8(a + [c] + b)
    ensures Utf8(a) && Utf8(b)
    decreases |a|
  {
    var all := a + [c] + b;
    var n := CharLength(all);
    if a == [] {
      assert all[1..] == b;
    } else {
      assert all[|a|] == c;
      assert n <= |a|;
      assert CharLength(a) == n;
      assert all[n..] == a[n..] + [c] + b;
      Utf8Split(a[n..], c, b);
    }
  }

  /** Position of the first line feed, the length when there is none. */
  function LineEnd(text: Bytes): (i: nat)
    ensures i <= |text|
    ensures i < |text| ==> text[i] == LF
    ensures forall j :: 0 <= j < i ==> text[j] != LF
  {
    if text == [] || text[0] == LF then 0 else 1 + LineEnd(text[1..])
  }

  /** Rust's `str::lines`: split at line feeds, with one carriage return before
      a line feed removed, and no empty line after the last one. */
  function Lines(text: Bytes): seq<Bytes>
    decreases |text|
  {
    if text == [] then []
    else
      var i := LineEnd(text);
      if i == |text| then [text]
      else
        var line := if i > 0 && text[i - 1] == CR then text[..i - 1] else text[..i];
        [line] + Lines(text[i + 1..])
  }

  const DATA: Bytes := [0x64, 0x61, 0x74, 0x61, 0x3A]  // data:
  const DATA_SPACE: Bytes := DATA + [0x20]

  /** What a line contributes to the event's data. */
  function Payload(line: Bytes): Option<Bytes> {
    if DATA_SPACE <= line then Some(line[6..])
    else if DATA <= line then Some(line[5..])
    else None
  }

  /** A line feed goes between pieces, but not before the first non-empty one. */
  function Appended(data: Bytes, line: Bytes): Bytes {
    match Payload(line)
    case None => data
    case Some(piece) => (if data == [] then [] else data + [LF]) + piece
  }

  function DataFrom(data: Bytes, lines: seq<Bytes>): Bytes
    decreases |lines|
  {
    if lines == [] then data else DataFrom(Appended(data, lines[0]), lines[1..])
  }

  /** The data of an event's text. */
  function DataOf(text: Bytes): Bytes {
    DataFrom([], Lines(text))
  }

  /** The `data:` extraction loop of both bindings. */
  method ExtractData(text: Bytes) returns (data: Bytes)
    ensures data == DataOf(text)
  {
    data := [];
    var lines := Lines(text);
    var i := 0;
    while i < |lines|
      invariant 0 <= i <= |lines|
      invariant DataFrom(data, lines[i..]) == DataOf(text)
    {
      var line := lines[i];
      if DATA_SPACE <= line {
        if data != [] { data := data + [LF]; }
        data := data + line[6..];
      } else if DATA <= line {
        if data != [] { data := data + [LF]; }
        data := data + line[5..];
      }
      i := i + 1;
    }
  }

  /** Bytes of the first character if it is white space, as Rust's `trim` has it. */
  function SpaceLength(s: Bytes): (n: nat)
    ensures n <= |s|
  {
    if s == [] then 0
    else if 0x09 <= s[0] <= 0x0D || s[0] == 0x20 then 1
    else if |s| >= 2 && s[0] == 0xC2 && (s[1] == 0x85 || s[1] == 0xA0) then 2
    else if |s| >= 3 && s[0] == 0xE1 && s[1] == 0x9A && s[2] == 0x80 then 3
    else if |s| >= 3 && s[0] == 0xE2 && s[1] == 0x80
         && (Within(s[2], 0x80, 0x8A) || s[2] == 0xA8 || s[2] == 0xA9 || s[2] == 0xAF) then 3
    else if |s| >= 3 && s[0] == 0xE2 && s[1] == 0x81 && s[2] == 0x9F then 3
    else if |s| >= 3 && s[0] == 0xE3 && s[1] == 0x80 && s[2] == 0x80 then 3
    else 0
  }

  predicate Blank(s: Bytes) {
    s == [] || (SpaceLength(s) > 0 && Blank(s[SpaceLength(s)..]))
  }

  // ---------------------------------------------------------------------
  // Items
  // ---------------------------------------------------------------------

  /** What the stream yields: what the binding makes of an event's data, or one
      of the parser's own errors. */
  datatype Item<T> = Parsed(result: T) | BadUtf8 | Broken | CutOff(bytes: nat)

  /** A binding: its reading of an event's data (None skips the event) and of a
      plain body at the end of the stream. */
  datatype Binding<!T> = Binding(event: Bytes -> Option<T>, body: Bytes -> Option<T>)

  function Wrapped<T>(result: Option<T>): Option<Item<T>> {
    if result.None? then None else Some(Parsed(result.value))
  }

  /** Events without data are skipped. */
  function EventItem<T>(binding: Binding<T>, text: Bytes): Option<Item<T>> {
    if DataOf(text) == [] then None else Wrapped(binding.event(DataOf(text)))
  }

  function FrameItem<T>(binding: Binding<T>, frame: Frame): Option<Item<T>> {
    if !Utf8(frame.text) then Some(BadUtf8) else EventItem(binding, frame.text)
  }

  function AsSeq<T>(item: Option<T>): seq<T> {
    if item.None? then [] else [item.value]
  }

  function FrameItems<T>(binding: Binding<T>, frames: seq<Frame>): seq<Item<T>> {
    if frames == [] then []
    else FrameItems(binding, frames[..|frames| - 1]) + AsSeq(FrameItem(binding, frames[|frames| - 1]))
  }

  predicate HasDataLine(text: Bytes) {
    exists k :: 0 <= k < |Lines(text)| && DATA <= Lines(text)[k]
  }

  /** `parse_stream_tail`: what the bytes after the last boundary amount to. */
  function TailItem<T>(binding: Binding<T>, tail: Bytes): Option<Item<T>> {
    if !Utf8(tail) then Some(BadUtf8)
    else if Blank(tail) then None
    else if HasDataLine(tail) then EventItem(binding, tail)
    else if binding.body(tail).Some? then Wrapped(binding.body(tail))
    else Some(CutOff(|tail|))
  }

  /** The one-shot parse of a whole byte string. */
  function OneShot<T>(binding: Binding<T>, bytes: Bytes): seq<Item<T>> {
    FrameItems(binding, Drain(bytes).frames) + AsSeq(TailItem(binding, Drain(bytes).rest))
  }

  // ---------------------------------------------------------------------
  // The incremental parse
  // ---------------------------------------------------------------------

  /** What the transport delivers: bytes, or an error. */
  datatype Chunk = Chunk(bytes: Bytes) | Failure

  /** What is yielded for the chunks to come, with `buf` left over so far. */
  function StreamItems<T>(binding: Binding<T>, chunks: seq<Chunk>, buf: Bytes): seq<Item<T>> {
    if chunks == [] then AsSeq(TailItem(binding, buf))
    else
      match chunks[0]
      case Failure => [Broken] + StreamItems(binding, chunks[1..], buf)
      case Chunk(bytes) =>
        FrameItems(binding, Drain(buf + bytes).frames) + StreamItems(binding, chunks[1..], Drain(buf + bytes).rest)
  }

  lemma {:induction false} FrameItemsConcat<T>(binding: Binding<T>, first: seq<Frame>, second: seq<Frame>)
    ensures FrameItems(binding, first + second) == FrameItems(binding, first) + FrameItems(binding, second)
  {
    if second == [] {
      assert first + second == first;
    } else {
      var init := second[..|second| - 1];
      assert (first + second)[..|first + second| - 1] == first + init;
      FrameItemsConcat(binding, first, init);
    }
  }

  /** The first frame's item, then those of the other frames. */
  lemma DrainGoesOn<T>(binding: Binding<T>, buf: Bytes, pending: seq<Item<T>>)
    requires FirstBoundary(buf).Some?
    ensures var Boundary(start, end) := FirstBoundary(buf).value;
            && start < end <= |buf|
            && pending + FrameItems(binding, Drain(buf).frames)
               == (pending + AsSeq(FrameItem(binding, Frame(buf[..start], buf[start..end]))))
                  + FrameItems(binding, Drain(buf[end..]).frames)
            && Drain(buf).rest == Drain(buf[end..]).rest
  {
    DrainStep(buf);
    var Boundary(start, end) := FirstBoundary(buf).value;
    var frame := Frame(buf[..start], buf[start..end]);
    FirstFrameItems(binding, frame, Drain(buf[end..]).frames);
  }

  lemma FirstFrameItems<T>(binding: Binding<T>, frame: Frame, later: seq<Frame>)
    ensures FrameItems(binding, [frame] + later) == AsSeq(FrameItem(binding, frame)) + FrameItems(binding, later)
  {
    FrameItemsConcat(binding, [frame], later);
    assert [frame][..0] == [];
    assert FrameItems(binding, [frame]) == [] + AsSeq(FrameItem(binding, frame));
  }

  /** The parser object: `parse_sse_bytes` between two polls. */
  class SseParser<T> {
    const binding: Binding<T>
    const chunks: seq<Chunk>
    var position: nat  // chunks taken from the transport
    var buf: Bytes
    var pending: seq<Item<T>>

    predicate Valid()
      reads this
    {
      position <= |chunks|
    }

    /** Everything still to be yielded. */
    ghost function Remaining(): seq<Item<T>>
      requires Valid()
      reads this
    {
      pending + StreamItems(binding, chunks[position..], buf)
    }

    constructor (binding: Binding<T>, chunks: seq<Chunk>)
      ensures Valid() && Remaining() == StreamItems(binding, chunks, [])
    {
      this.binding, this.chunks := binding, chunks;
      position, buf, pending := 0, [], [];
      new;
      assert this.chunks[0..] == chunks;
    }

    /** Moves every complete frame of the buffer into the pending queue. */
    method DrainBuffer()
      requires Valid()
      modifies this`buf, this`pending
      ensures pending == old(pending) + FrameItems(binding, Drain(old(buf)).frames)
      ensures buf == Drain(old(buf)).rest
    {
      var found := FindEventBoundary(buf);
      while found.Some?
        invariant found == FirstBoundary(buf)
        invariant Drain(buf).rest == Drain(old(buf)).rest
        invariant pending + FrameItems(binding, Drain(buf).frames)
               == old(pending) + FrameItems(binding, Drain(old(buf)).frames)
        decreases |buf|
      {
        DrainGoesOn(binding, buf, pending);
        var Boundary(start, end) := found.value;
        var event := buf[..end];
        assert event[..start] == buf[..start];
        PushEvent(event[..start], Frame(buf[..start], buf[start..end]));
        buf := buf[end..];
        found := FindEventBoundary(buf);
      }
      assert Drain(buf) == Drained([], buf);
      assert pending == pending + FrameItems(binding, []);
    }

    /** Puts what one event's text amounts to into the pending queue. */
    method PushEvent(text: Bytes, ghost frame: Frame)
      requires frame.text == text
      modifies this`pending
      ensures pending == old(pending) + AsSeq(FrameItem(binding, frame))
    {
      if !Utf8(text) {
        pending := pending + [BadUtf8];
      } else {
        var item := ParseEvent(text);
        if item.Some? { pending := pending + [item.value]; }
      }
    }

    /** The binding's callback: the data of an event's text, read. */
    method ParseEvent(text: Bytes) returns (item: Option<Item<T>>)
      ensures item == EventItem(binding, text)
    {
      var data := ExtractData(text);
      if data == [] { return None; }
      return Wrapped(binding.event(data));
    }

    /** Takes one chunk from the transport. */
    method Receive()
      requires Valid() && pending == [] && position < |chunks|
      modifies this
      ensures Valid() && position == old(position) + 1 && Remaining() == old(Remaining())
    {
      var chunk := chunks[position];
      assert chunks[position..][1..] == chunks[position + 1..];
      position := position + 1;
      match chunk
      case Failure =>
        pending := [Broken];
      case Chunk(bytes) =>
        buf := buf + bytes;
        DrainBuffer();
        assert pending == FrameItems(binding, Drain(old(buf) + bytes).frames);
    }

    /** One poll: what is pending first, then the transport, then the tail. The
        item returned is the next of those still to come. */
    method Next() returns (item: Option<Item<T>>)
      requires Valid()
      modifies this
      ensures Valid()
      ensures match item
              case Some(next) => old(Remaining()) == [next] + Remaining()
              case None => old(Remaining()) == [] && Remaining() == []
    {
      while pending == [] && position < |chunks|
        invariant Valid() && Remaining() == old(Remaining())
        decreases |chunks| - position
      {
        Receive();
      }
      if pending != [] {
        item := Some(pending[0]);
        pending := pending[1..];
        return;
      }
      var tail := buf;
      buf := [];
      return TailItem(binding, tail);
    }
  }

  // ---------------------------------------------------------------------
  // However the bytes are cut
  // ---------------------------------------------------------------------

  function BytesOf(chunks: seq<Chunk>): Bytes {
    if chunks == [] then []
    else (if chunks[0].Chunk? then chunks[0].bytes else []) + BytesOf(chunks[1..])
  }

  /** The items that are not reports of a transport failure. */
  function WithoutBroken<T(==)>(items: seq<Item<T>>): seq<Item<T>> {
    if items == [] then []
    else (if items[0].Broken? then [] else [items[0]]) + WithoutBroken(items[1..])
  }

  lemma {:induction false} NothingBroken<T>(items: seq<Item<T>>)
    requires forall k :: 0 <= k < |items| ==> !items[k].Broken?
    ensures WithoutBroken(items) == items
  {
    if items != [] { NothingBroken(items[1..]); }
  }

  lemma {:induction false} WithoutBrokenConcat<T>(a: seq<Item<T>>, b: seq<Item<T>>)
    ensures WithoutBroken(a + b) == WithoutBroken(a) + WithoutBroken(b)
  {
    if a == [] {
      assert a + b == b;
    } else {
      assert (a + b)[1..] == a[1..] + b;
      WithoutBrokenConcat(a[1..], b);
    }
  }

  lemma {:induction false} FramesNotBroken<T>(binding: Binding<T>, frames: seq<Frame>)
    ensures forall k :: 0 <= k < |FrameItems(binding, frames)| ==> !FrameItems(binding, frames)[k].Broken?
  {
    if frames != [] { FramesNotBroken(binding, frames[..|frames| - 1]); }
  }

  lemma OneShotInStages<T>(binding: Binding<T>, buf: Bytes, more: Bytes)
    ensures OneShot(binding, buf + more)
         == FrameItems(binding, Drain(buf).frames) + OneShot(binding, Drain(buf).rest + more)
  {
    var first := Drain(buf);
    var second := Drain(first.rest + more);
    DrainInStages(buf, more);
    FrameItemsConcat(binding, first.frames, second.frames);
  }

  lemma WithoutBrokenFrames<T>(binding: Binding<T>, frames: seq<Frame>, items: seq<Item<T>>)
    ensures WithoutBroken(FrameItems(binding, frames) + items) == FrameItems(binding, frames) + WithoutBroken(items)
  {
    FramesNotBroken(binding, frames);
    NothingBroken(FrameItems(binding, frames));
    WithoutBrokenConcat(FrameItems(binding, frames), items);
  }

  lemma OneShotOfTail<T>(binding: Binding<T>, buf: Bytes)
    requires Drain(buf).frames == []
    ensures OneShot(binding, buf) == AsSeq(TailItem(binding, buf)) == WithoutBroken(AsSeq(TailItem(binding, buf)))
  {
    NothingBroken(AsSeq(TailItem(binding, buf)));
  }

  lemma ChunkIsStage<T>(binding: Binding<T>, all: Bytes, items: seq<Item<T>>, later: Bytes)
    requires WithoutBroken(items) == OneShot(binding, Drain(all).rest + later)
    ensures WithoutBroken(FrameItems(binding, Drain(all).frames) + items) == OneShot(binding, all + later)
  {
    OneShotInStages(binding, all, later);
    WithoutBrokenFrames(binding, Drain(all).frames, items);
  }

  lemma FirstChunkBytes(chunks: seq<Chunk>, buf: Bytes)
    requires chunks != []
    ensures buf + BytesOf(chunks)
         == (buf + if chunks[0].Chunk? then chunks[0].bytes else []) + BytesOf(chunks[1..])
  {
    Regroup(buf, if chunks[0].Chunk? then chunks[0].bytes else [], BytesOf(chunks[1..]));
  }

  lemma Regroup(a: Bytes, b: Bytes, c: Bytes)
    ensures a + (b + c) == (a + b) + c
  {
  }

  lemma FailureIsNoStage<T>(binding: Binding<T>, chunks: seq<Chunk>, buf: Bytes)
    requires chunks != [] && chunks[0].Failure?
    ensures WithoutBroken(StreamItems(binding, chunks, buf))
         == WithoutBroken(StreamItems(binding, chunks[1..], buf))
  {
    assert StreamItems(binding, chunks, buf)[1..] == StreamItems(binding, chunks[1..], buf);
  }

  lemma {:induction false} ChunksAreOneShot<T>(binding: Binding<T>, chunks: seq<Chunk>, buf: Bytes)
    requires Drain(buf).frames == []
    ensures WithoutBroken(StreamItems(binding, chunks, buf)) == OneShot(binding, buf + BytesOf(chunks))
    decreases |chunks|
  {
    if chunks == [] {
      assert buf + [] == buf;
      OneShotOfTail(binding, buf);
    } else if chunks[0].Failure? {
      FirstChunkBytes(chunks, buf);
      assert buf + [] == buf;
      ChunksAreOneShot(binding, chunks[1..], buf);
      FailureIsNoStage(binding, chunks, buf);
    } else {
      FirstChunkBytes(chunks, buf);
      var all := buf + chunks[0].bytes;
      RestIsDrained(all);
      ChunksAreOneShot(binding, chunks[1..], Drain(all).rest);
      ChunkIsStage(binding, all, StreamItems(binding, chunks[1..], Drain(all).rest), BytesOf(chunks[1..]));
    }
  }

  lemma {:induction false} NoFailureNothingBroken<T>(binding: Binding<T>, chunks: seq<Chunk>, buf: Bytes)
    requires forall k :: 0 <= k < |chunks| ==> chunks[k].Chunk?
    ensures forall k :: 0 <= k < |StreamItems(binding, chunks, buf)| ==> !StreamItems(binding, chunks, buf)[k].Broken?
  {
    if chunks != [] {
      var all := buf + chunks[0].bytes;
      FramesNotBroken(binding, Drain(all).frames);
      NoFailureNothingBroken(binding, chunks[1..], Drain(all).rest);
    }
  }

  /** However the bytes are cut into chunks, and whatever transport failures come
      in between, the items are those of the one-shot parse, in the same order;
      with no failure they are exactly those. */
  lemma ChunksDoNotMatter<T>(binding: Binding<T>, chunks: seq<Chunk>)
    ensures WithoutBroken(StreamItems(binding, chunks, [])) == OneShot(binding, BytesOf(chunks))
    ensures (forall k :: 0 <= k < |chunks| ==> chunks[k].Chunk?) ==>
              StreamItems(binding, chunks, []) == OneShot(binding, BytesOf(chunks))
  {
    ChunksAreOneShot(binding, chunks, []);
    assert [] + BytesOf(chunks) == BytesOf(chunks);
    if forall k :: 0 <= k < |chunks| ==> chunks[k].Chunk? {
      NoFailureNothingBroken(binding, chunks, []);
      NothingBroken(StreamItems(binding, chunks, []));
    }
  }

  lemma {:induction false} RestIsDrained(buf: Bytes)
    ensures Drain(Drain(buf).rest) == Drained([], Drain(buf).rest)
    decreases |buf|
  {
    FirstFromIsFirst(buf, 0);
    if FirstBoundary(buf).Some? { RestIsDrained(buf[FirstBoundary(buf).value.end..]); }
  }

  // ---------------------------------------------------------------------
  // Separators, line ends and the tail, one by one
  // ---------------------------------------------------------------------

  /** The event separators: two line feeds, two carriage returns, or two pairs. */
  predicate IsSeparator(bytes: Bytes) {
    bytes == [LF, LF] || bytes == [CR, CR] || bytes == [CR, LF, CR, LF]
  }

  /** A separator ends at `end` exactly when one of the three stands there. */
  lemma SeparatorsAre(buf: Bytes, i: nat, end: nat)
    requires end > 0
    ensures SeparatorEnd(buf, i) == end <==> i <= end <= |buf| && IsSeparator(buf[i..end])
  {
    if i + 2 <= |buf| { assert buf[i..i + 2] == [buf[i], buf[i + 1]]; }
    if i + 4 <= |buf| { assert buf[i..i + 4] == [buf[i], buf[i + 1], buf[i + 2], buf[i + 3]]; }
    if i <= end <= |buf| && IsSeparator(buf[i..end]) { assert end == i + 2 || end == i + 4; }
  }

  /** Both forms of a data line carry the same data; other lines carry none. */
  lemma DataLinesReadAlike(data: Bytes)
    ensures Payload(DATA_SPACE + data) == Some(data)
    ensures data == [] || data[0] != 0x20 ==> Payload(DATA + data) == Some(data)
    ensures !(DATA <= data) ==> Payload(data).None?
  {
    assert (DATA_SPACE + data)[6..] == data && DATA_SPACE <= DATA_SPACE + data;
    assert (DATA + data)[5..] == data && DATA <= DATA + data;
    if DATA_SPACE <= data { assert DATA == DATA_SPACE[..5] && data[..5] == DATA; }
    if |data| > 0 && data[0] != 0x20 { assert (DATA + data)[5] == data[0]; }
  }

  /** A final event that no separator ends is read as it would have been with one,
      if it has a data line. */
  lemma UnterminatedEventIsRead<T>(binding: Binding<T>, text: Bytes, separator: Bytes)
    requires !Utf8(text) || (HasDataLine(text) && !Blank(text))
    ensures TailItem(binding, text) == FrameItem(binding, Frame(text, separator))
  {
  }

  /** Any other tail that is not blank is reported, as a plain body or as cut off:
      the stream ends silently only on white space, or on an event that carries no
      data or that the binding skips. */
  lemma SilentEndExactly<T>(binding: Binding<T>, tail: Bytes)
    ensures TailItem(binding, tail).None?
            <==> && Utf8(tail)
                 && (Blank(tail)
                     || (HasDataLine(tail) && (DataOf(tail) == [] || binding.event(DataOf(tail)).None?)))
    ensures Utf8(tail) && !Blank(tail) && !HasDataLine(tail) ==>
              TailItem(binding, tail)
              == if binding.body(tail).Some? then Some(Parsed(binding.body(tail).value)) else Some(CutOff(|tail|))
  {
  }

  /** A frame that is not UTF-8 is reported; one that is gives what the binding
      makes of its data, if it has any. */
  lemma FrameIsReadExactly<T>(binding: Binding<T>, frame: Frame)
    ensures FrameItem(binding, frame)
         == if !Utf8(frame.text) then Some(BadUtf8)
            else if DataOf(frame.text) == [] || binding.event(DataOf(frame.text)).None? then None
            else Some(Parsed(binding.event(DataOf(frame.text)).value))
  {
  }

  function Failures(chunks: seq<Chunk>): nat {
    if chunks == [] then 0 else (if chunks[0].Failure? then 1 else 0) + Failures(chunks[1..])
  }

  function BrokenIn<T(==)>(items: seq<Item<T>>): nat {
    if items == [] then 0 else (if items[0].Broken? then 1 else 0) + BrokenIn(items[1..])
  }

  lemma {:induction false} BrokenConcat<T>(a: seq<Item<T>>, b: seq<Item<T>>)
    ensures BrokenIn(a + b) == BrokenIn(a) + BrokenIn(b)
  {
    if a == [] {
      assert a + b == b;
    } else {
      assert (a + b)[1..] == a[1..] + b;
      BrokenConcat(a[1..], b);
    }
  }

  lemma {:induction false} NoneBrokenCountNone<T>(items: seq<Item<T>>)
    requires forall k :: 0 <= k < |items| ==> !items[k].Broken?
    ensures BrokenIn(items) == 0
  {
    if items != [] { NoneBrokenCountNone(items[1..]); }
  }

  /** Each failure of the transport is reported, once. */
  lemma {:induction false} FailuresAreReported<T>(binding: Binding<T>, chunks: seq<Chunk>, buf: Bytes)
    ensures BrokenIn(StreamItems(binding, chunks, buf)) == Failures(chunks)
    decreases |chunks|
  {
    if chunks == [] {
      NoneBrokenCountNone(AsSeq(TailItem(binding, buf)));
    } else if chunks[0].Failure? {
      FailuresAreReported(binding, chunks[1..], buf);
      BrokenConcat([Broken], StreamItems(binding, chunks[1..], buf));
    } else {
      var drained := Drain(buf + chunks[0].bytes);
      FailuresAreReported(binding, chunks[1..], drained.rest);
      FramesNotBroken(binding, drained.frames);
      NoneBrokenCountNone(FrameItems(binding, drained.frames));
      BrokenConcat(FrameItems(binding, drained.frames), StreamItems(binding, chunks[1..], drained.rest));
    }
  }

  /** A text has a data line exactly when some line of it carries data. */
  lemma DataLineCarriesData(text: Bytes)
    ensures HasDataLine(text) <==> exists k :: 0 <= k < |Lines(text)| && Payload(Lines(text)[k]).Some?
  {
    forall k | 0 <= k < |Lines(text)| ensures DATA <= Lines(text)[k] <==> Payload(Lines(text)[k]).Some? {
      var line := Lines(text)[k];
      if DATA_SPACE <= line { assert DATA == DATA_SPACE[..5] && line[..5] == DATA; }
    }
  }
}
