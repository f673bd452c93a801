/** The client side of the host's model stream: server-sent frames read from arbitrary chunks. */
module ModelStream {
  import opened Prelude
  import opened Text

  const LF: byte := 10

  datatype Event =
    | TextDelta(requestId: string, delta: string)
    | Completed(requestId: string)
    | Failed(requestId: string, code: string, message: string)

  datatype StreamError = Transport(message: string) | Protocol(message: string)

  datatype Item = Event(event: Event) | Error(error: StreamError)

  /** What the transport delivers: bytes, or an error that ends the response. */
  datatype Chunk = Bytes(bytes: seq<byte>) | Broken(message: string)

  /** How the response ended. */
  datatype End = Eof | Cut(message: string)

  /** What a JSON reader makes of a frame's data: a stream event, an error object or anything else. */
  datatype Reading = StreamEvent(event: Event) | ProviderError | Other

  /** UTF-8 decoding and JSON reading, left open. */
  datatype Codec = Codec(utf8: seq<byte> -> Option<string>, json: string -> Option<Reading>)

  datatype Parsed = Yield(event: Event) | Skip | Bad(error: StreamError)

  // ---- One frame --------------------------------------------------------------

  function LineEnd(s: string): nat
    ensures LineEnd(s) <= |s|
  {
    if s == "" || s[0] == '\n' then 0 else 1 + LineEnd(s[1..])
  }

  /** The first line's data, then the next line's: lines end at LF, with an optional CR before it. */
  function FirstData(text: string): string
    decreases |text|
  {
    if text == "" then ""
    else
      var n := LineEnd(text);
      var line := if n < |text| && n > 0 && text[n - 1] == '\r' then text[..n - 1] else text[..n];
      if "data:" <= line then Trim(line[5..])
      else if n < |text| then FirstData(text[n + 1..])
      else ""
  }

  /** `parse_model_stream_frame`. */
  function ParseFrame(codec: Codec, frame: seq<byte>, requestId: string): Parsed {
    match codec.utf8(frame)
    case None => Bad(Protocol("stream frame is not UTF-8"))
    case Some(text) =>
      var data := FirstData(text);
      if data == "" then Skip
      else if data == "[DONE]" then Yield(Completed(requestId))
      else
        match codec.json(data)
        case None => Bad(Protocol("stream frame is not valid JSON"))
        case Some(StreamEvent(event)) => Yield(event)
        case Some(ProviderError) => Yield(Failed(requestId, "providerError", "model stream failed"))
        case Some(Other) => Skip
  }

  /** `find_sse_frame_boundary`: the first blank line. */
  function FindBoundary(buffer: seq<byte>): (r: Option<nat>)
    ensures r.Some? ==> r.value + 2 <= |buffer| && buffer[r.value] == buffer[r.value + 1] == LF
    ensures r.Some? ==> forall i :: 0 <= i < r.value ==> !(buffer[i] == buffer[i + 1] == LF)
    ensures r.None? ==> forall i :: 0 <= i < |buffer| - 1 ==> !(buffer[i] == buffer[i + 1] == LF)
  {
    if |buffer| < 2 then None
    else if buffer[0] == buffer[1] == LF then Some(0)
    else
      match FindBoundary(buffer[1..])
      case None =>
        assert forall i :: 1 <= i < |buffer| - 1 ==> buffer[i] == buffer[1..][i - 1];
        None
      case Some(p) =>
        assert forall i :: 1 <= i <= p + 2 ==> buffer[i] == buffer[1..][i - 1];
        Some(p + 1)
  }

  // ---- The whole response, as one string of bytes -------------------------------

  predicate IsTerminal(item: Item) {
    item.Error? || item.event.Completed? || item.event.Failed?
  }

  function EndItem(end: End): Item {
    match end
    case Eof => Error(Protocol("stream ended without a terminal event"))
    case Cut(message) => Error(Transport(message))
  }

  /** The items after a first frame, given the items of the bytes behind it. */
  function AfterFrame(parsed: Parsed, rest: seq<Item>): seq<Item>
    requires |rest| > 0
    ensures |AfterFrame(parsed, rest)| > 0
  {
    match parsed
    case Skip => rest
    case Bad(error) => [Error(error)]
    case Yield(event) => if IsTerminal(Event(event)) then [Event(event)] else [Event(event)] + rest
  }

  /** The items of a response with body `bytes` that ended with `end`. */
  function Items(codec: Codec, requestId: string, bytes: seq<byte>, end: End): (items: seq<Item>)
    ensures |items| > 0
    decreases |bytes|
  {
    match FindBoundary(bytes)
    case None => [EndItem(end)]
    case Some(p) =>
      AfterFrame(ParseFrame(codec, bytes[..p], requestId), Items(codec, requestId, bytes[p + 2..], end))
  }

  /** The bytes of a response before the transport failed, if it did. */
  function Payload(chunks: seq<Chunk>): seq<byte> {
    if chunks == [] || chunks[0].Broken? then [] else chunks[0].bytes + Payload(chunks[1..])
  }

  function EndOf(chunks: seq<Chunk>): End {
    if chunks == [] then Eof
    else if chunks[0].Broken? then Cut(chunks[0].message)
    else EndOf(chunks[1..])
  }

  /** Text deltas, then exactly one terminal item. */
  ghost predicate IsConversation(items: seq<Item>) {
    && |items| > 0
    && IsTerminal(items[|items| - 1])
    && forall i :: 0 <= i < |items| - 1 ==> items[i].Event? && items[i].event.TextDelta?
  }

  lemma DeltaThenConversation(event: Event, rest: seq<Item>)
    requires event.TextDelta? && IsConversation(rest)
    ensures IsConversation([Event(event)] + rest)
  {
    var items := [Event(event)] + rest;
    forall i | 0 <= i < |items| - 1 ensures items[i].Event? && items[i].event.TextDelta? {
      if i > 0 { assert items[i] == rest[i - 1]; }
    }
  }

  lemma {:induction false} ItemsAreAConversation(codec: Codec, requestId: string, bytes: seq<byte>, end: End)
    ensures IsConversation(Items(codec, requestId, bytes, end))
    decreases |bytes|
  {
    var boundary := FindBoundary(bytes);
    if boundary.Some? {
      var rest := bytes[boundary.value + 2..];
      ItemsAreAConversation(codec, requestId, rest, end);
      var parsed := ParseFrame(codec, bytes[..boundary.value], requestId);
      if parsed.Yield? && parsed.event.TextDelta? {
        DeltaThenConversation(parsed.event, Items(codec, requestId, rest, end));
      }
    }
  }

  /** A frame boundary found early stays the first one when more bytes arrive, and so do the
      frame and what follows it. */
  lemma BoundaryIsStable(a: seq<byte>, b: seq<byte>)
    requires FindBoundary(a).Some?
    ensures FindBoundary(a + b) == FindBoundary(a)
    ensures var p := FindBoundary(a).value;
            (a + b)[..p] == a[..p] && (a + b)[p + 2..] == a[p + 2..] + b
  {
    var p := FindBoundary(a).value;
    var q := FindBoundary(a + b);
    assert (a + b)[p] == a[p] && (a + b)[p + 1] == a[p + 1];
    assert q.Some?;
    assert forall i :: 0 <= i < |a| ==> (a + b)[i] == a[i];
  }

  /** `early` is what a reader has when `full` is still to come: nothing of it but its end marker
      may change. */
  ghost predicate Extends(early: seq<Item>, full: seq<Item>, marker: Item)
    requires |early| > 0
  {
    early == full || (early[|early| - 1] == marker && early[..|early| - 1] <= full)
  }

  lemma ConsExtends(item: Item, early: seq<Item>, full: seq<Item>, marker: Item)
    requires |early| > 0 && Extends(early, full, marker)
    ensures Extends([item] + early, [item] + full, marker)
  {
    var e := [item] + early;
    assert e[..|e| - 1] == [item] + early[..|early| - 1];
  }

  /** What was delivered from the bytes so far is never taken back, and nothing after a terminal
      item is looked at. */
  lemma {:induction false} DeliveredIsFinal(
      codec: Codec, requestId: string, a: seq<byte>, b: seq<byte>, end: End, later: End)
    ensures Extends(Items(codec, requestId, a, end), Items(codec, requestId, a + b, later), EndItem(end))
    decreases |a|
  {
    var boundary := FindBoundary(a);
    if boundary.Some? {
      var p := boundary.value;
      BoundaryIsStable(a, b);
      DeliveredIsFinal(codec, requestId, a[p + 2..], b, end, later);
      AfterFrameExtends(ParseFrame(codec, a[..p], requestId), Items(codec, requestId, a[p + 2..], end),
                        Items(codec, requestId, a[p + 2..] + b, later), EndItem(end));
    }
  }

  lemma AfterFrameExtends(parsed: Parsed, early: seq<Item>, full: seq<Item>, marker: Item)
    requires |early| > 0 && |full| > 0 && Extends(early, full, marker)
    ensures Extends(AfterFrame(parsed, early), AfterFrame(parsed, full), marker)
  {
    if parsed.Yield? && !IsTerminal(Event(parsed.event)) {
      ConsExtends(Event(parsed.event), early, full, marker);
    }
  }

  /** A complete frame in the buffer is the first frame of everything to come. */
  lemma FrameComesFirst(codec: Codec, requestId: string, buffer: seq<byte>, later: seq<byte>, end: End)
    requires FindBoundary(buffer).Some?
    ensures var p := FindBoundary(buffer).value;
      Items(codec, requestId, buffer + later, end)
      == AfterFrame(ParseFrame(codec, buffer[..p], requestId), Items(codec, requestId, buffer[p + 2..] + later, end))
  {
    hide ParseFrame;
    BoundaryIsStable(buffer, later);
  }

  lemma NoFrameLeft(codec: Codec, requestId: string, buffer: seq<byte>, end: End)
    requires FindBoundary(buffer).None?
    ensures Items(codec, requestId, buffer, end) == [EndItem(end)]
  {
  }

  lemma NothingComplete()
    ensures FindBoundary([]).None?
  {
  }

  // ---- The read loop -------------------------------------------------------------

  /** The read loop of `ModelStreamClient::stream`: its items depend only on the bytes received
      and on how the response ended, never on where the transport cut it. */
  method Stream(codec: Codec, requestId: string, chunks: seq<Chunk>) returns (items: seq<Item>)
    ensures items == Items(codec, requestId, Payload(chunks), EndOf(chunks))
    ensures IsConversation(items)
  {
    hide Items, FindBoundary, IsConversation;
    items := [];
    var buffer: seq<byte> := [];
    var terminal := false;
    NothingComplete();
    ghost var wanted := Items(codec, requestId, Payload(chunks), EndOf(chunks));
    ItemsAreAConversation(codec, requestId, Payload(chunks), EndOf(chunks));
    var n := 0;
    assert [] + Payload(chunks) == Payload(chunks);
    assert chunks[0..] == chunks;
    while n < |chunks| && !terminal
      invariant 0 <= n <= |chunks|
      invariant terminal ==> items == wanted
      invariant !terminal ==> EndOf(chunks[n..]) == EndOf(chunks)
      invariant !terminal ==> FindBoundary(buffer).None?
      invariant !terminal ==>
        items + Items(codec, requestId, buffer + Payload(chunks[n..]), EndOf(chunks)) == wanted
    {
      var chunk := chunks[n];
      assert chunks[n..][1..] == chunks[n + 1..];
      if chunk.Broken? {
        assert buffer + Payload(chunks[n..]) == buffer;
        NoFrameLeft(codec, requestId, buffer, EndOf(chunks));
        items := items + [Error(Transport(chunk.message))];
        terminal := true;
        break;
      }
      ghost var later := Payload(chunks[n + 1..]);
      assert buffer + Payload(chunks[n..]) == buffer + chunk.bytes + later;
      buffer := buffer + chunk.bytes;
      items, buffer, terminal := DrainFrames(codec, requestId, items, buffer, later, EndOf(chunks));
      n := n + 1;
    }
    if !terminal {
      assert chunks[|chunks|..] == [];
      assert buffer + Payload([]) == buffer;
      NoFrameLeft(codec, requestId, buffer, EndOf(chunks));
      items := items + [Error(Protocol("stream ended without a terminal event"))];
    }
  }

  /** The inner loop: every complete frame in the buffer is taken out and parsed. */
  method DrainFrames(codec: Codec, requestId: string, before: seq<Item>, start: seq<byte>,
                     ghost later: seq<byte>, ghost end: End)
    returns (items: seq<Item>, buffer: seq<byte>, terminal: bool)
    ensures terminal ==> items == before + Items(codec, requestId, start + later, end)
    ensures !terminal ==> FindBoundary(buffer).None?
    ensures !terminal ==>
      items + Items(codec, requestId, buffer + later, end) == before + Items(codec, requestId, start + later, end)
  {
    hide Items, FindBoundary, ParseFrame;
    items, buffer, terminal := before, start, false;
    ghost var wanted := before + Items(codec, requestId, start + later, end);
    var boundary := FindBoundary(buffer);
    while boundary.Some? && !terminal
      invariant boundary == FindBoundary(buffer)
      invariant terminal ==> items == wanted
      invariant !terminal ==> items + Items(codec, requestId, buffer + later, end) == wanted
      decreases |buffer|
    {
      var p := boundary.value;
      FrameComesFirst(codec, requestId, buffer, later, end);
      var frame := buffer[..p];
      ghost var rest := Items(codec, requestId, buffer[p + 2..] + later, end);
      buffer := buffer[p + 2..];
      match ParseFrame(codec, frame, requestId) {
        case Skip =>
        case Bad(error) =>
          items := items + [Error(error)];
          terminal := true;
        case Yield(event) =>
          terminal := event.Completed? || event.Failed?;
          assert (items + [Event(event)]) + rest == items + ([Event(event)] + rest);
          items := items + [Event(event)];
      }
      boundary := FindBoundary(buffer);
    }
  }

  // ---- What a sender of frames gets across ----------------------------------------------------------

  /** A line of a frame. */
  predicate IsLine(s: string) { '\n' !in s }

  function Lines(lines: seq<string>): string {
    if lines == [] then "" else lines[0] + "\n" + Lines(lines[1..])
  }

  lemma {:induction false} LineEndIs(line: string, rest: string)
    requires IsLine(line) && (rest == "" || rest[0] == '\n')
    ensures LineEnd(line + rest) == |line|
  {
    if line == "" {
      assert line + rest == rest;
    } else {
      assert (line + rest)[1..] == line[1..] + rest;
      LineEndIs(line[1..], rest);
    }
  }

  /** A line without the carriage return before its line feed. */
  function Chomped(line: string): string {
    if line != "" && line[|line| - 1] == '\r' then line[..|line| - 1] else line
  }

  lemma FirstLine(line: string, rest: string)
    requires IsLine(line) && (rest == "" || rest[0] == '\n')
    ensures var head := if rest == "" then line else Chomped(line);
      FirstData(line + rest)
      == if "data:" <= head then Trim(head[5..]) else if rest == "" then "" else FirstData(rest[1..])
  {
    LineEndIs(line, rest);
    var text := line + rest;
    assert text[..|line|] == line;
    if line != "" { assert text[..|line| - 1] == line[..|line| - 1]; }
    if rest != "" { assert text[|line| + 1..] == rest[1..]; }
  }

  lemma DropsLine(line: string, rest: string)
    requires IsLine(line) && !("data:" <= line)
    ensures FirstData(line + "\n" + rest) == FirstData(rest)
  {
    FirstLine(line, "\n" + rest);
    assert line + "\n" + rest == line + ("\n" + rest) && ("\n" + rest)[1..] == rest;
  }

  /** The data of a frame is what stands on its first line that begins with `data:`, without the white space
      around it, whatever comes before that line and after it. */
  lemma {:induction false} FirstDataIs(before: seq<string>, line: string, rest: string)
    requires forall s :: s in before ==> IsLine(s) && !("data:" <= s)
    requires IsLine(line) && (rest == "" || rest[0] == '\n')
    ensures FirstData(Lines(before) + ("data:" + line + rest)) == Trim(line)
  {
    hide FirstData, Trim;
    if before == [] {
      var text := "data:" + line + rest;
      assert Lines(before) + text == text;
      OwnData(line, rest);
    } else {
      var text := Lines(before[1..]) + ("data:" + line + rest);
      assert before[0] in before;
      assert Lines(before) + ("data:" + line + rest) == before[0] + "\n" + text;
      DropsLine(before[0], text);
      FirstDataIs(before[1..], line, rest);
    }
  }

  lemma OwnData(line: string, rest: string)
    requires IsLine(line) && (rest == "" || rest[0] == '\n')
    ensures FirstData("data:" + line + rest) == Trim(line)
  {
    hide FirstData, Trim;
    var own := "data:" + line;
    assert IsLine(own);
    FirstLine(own, rest);
    assert own + rest == "data:" + line + rest && own[5..] == line;
    if rest != "" {
      assert Chomped(own) == "data:" + Chomped(line) && Chomped(own)[5..] == Chomped(line);
      if Chomped(line) != line { TrimDropsReturn(line); }
    }
  }

  lemma TrimDropsReturn(line: string)
    requires line != "" && line[|line| - 1] == '\r'
    ensures Trim(line[..|line| - 1]) == Trim(line)
  {
    TrimBoth(line[..|line| - 1], "\r");
    assert line == line[..|line| - 1] + "\r";
  }

  lemma {:induction false} TrimBoth(s: string, t: string)
    requires t == "\r"
    ensures Trim(s + t) == Trim(s)
  {
    if s == "" {
      assert s + t == t && t[1..] == "" && TrimStart(t) == TrimStart("") == "";
    } else if IsSpace(s[0]) {
      assert (s + t)[1..] == s[1..] + t;
      TrimBoth(s[1..], t);
    } else {
      assert (s + t)[..|s|] == s;
    }
  }

  /** A frame without such a line has no data. */
  lemma {:induction false} NoData(lines: seq<string>)
    requires forall s :: s in lines ==> IsLine(s) && !("data:" <= s)
    ensures FirstData(Lines(lines)) == ""
  {
    if lines != [] {
      DropsLine(lines[0], Lines(lines[1..]));
      NoData(lines[1..]);
    }
  }

  /** What a frame says: its first data line is the end mark, or JSON of an event or of an error, or of
      nothing to report; a frame that cannot be read ends the stream. */
  lemma ParsesExactly(codec: Codec, frame: seq<byte>, requestId: string, before: seq<string>, line: string, rest: string)
    requires forall s :: s in before ==> IsLine(s) && !("data:" <= s)
    requires IsLine(line) && (rest == "" || rest[0] == '\n')
    requires codec.utf8(frame) == Some(Lines(before) + ("data:" + line + rest))
    ensures var data, parsed := Trim(line), ParseFrame(codec, frame, requestId);
      && (data == "" ==> parsed.Skip?)
      && (data == "[DONE]" ==> parsed == Yield(Completed(requestId)))
      && (data != "" && data != "[DONE]" ==>
            match codec.json(data)
            case None => parsed.Bad? && parsed.error.Protocol?
            case Some(StreamEvent(event)) => parsed == Yield(event)
            case Some(ProviderError) =>
              parsed.Yield? && parsed.event.Failed? && parsed.event.requestId == requestId
              && parsed.event.code == "providerError"
            case Some(Other) => parsed.Skip?)
  {
    FirstDataIs(before, line, rest);
    hide Trim, FirstData;
  }

  /** Bytes that hold no blank line and do not end in a line feed. */
  predicate IsFrame(f: seq<byte>) {
    (f == [] || f[|f| - 1] != 10) && forall i :: 0 <= i < |f| - 1 ==> !(f[i] == f[i + 1] == 10)
  }

  function Framed(frames: seq<seq<byte>>): seq<byte> {
    if frames == [] then [] else frames[0] + [10, 10] + Framed(frames[1..])
  }

  lemma BoundaryIsFrameEnd(f: seq<byte>, rest: seq<byte>)
    requires IsFrame(f)
    ensures var bytes := f + [10, 10] + rest;
      FindBoundary(bytes) == Some(|f|) && bytes[..|f|] == f && bytes[|f| + 2..] == rest
  {
    var bytes := f + [10, 10] + rest;
    assert bytes[|f|] == bytes[|f| + 1] == 10;
    forall i | 0 <= i < |f| ensures !(bytes[i] == bytes[i + 1] == 10) {
      if i < |f| - 1 { assert bytes[i] == f[i] && bytes[i + 1] == f[i + 1]; }
    }
  }

  /** A sender that frames its deltas and then a last event, with frames that say nothing anywhere before,
      gets across exactly these, in order, whatever it sends afterwards and however the response ends. */
  lemma {:induction false} FramesAreDelivered(
      codec: Codec, requestId: string, frames: seq<seq<byte>>, last: seq<byte>, event: Event, more: seq<byte>, end: End)
    requires (forall f :: f in frames ==>
        IsFrame(f) && match ParseFrame(codec, f, requestId)
                      case Yield(e) => e.TextDelta?
                      case Skip => true
                      case Bad(_) => false)
    requires IsFrame(last) && ParseFrame(codec, last, requestId) == Yield(event) && !event.TextDelta?
    ensures Items(codec, requestId, Framed(frames) + (last + [10, 10] + more), end)
         == Deltas(codec, requestId, frames) + [Event(event)]
  {
    hide ParseFrame, FindBoundary, IsFrame, Items;
    var tail := last + [10, 10] + more;
    if frames == [] {
      assert Framed(frames) + tail == tail;
      BoundaryIsFrameEnd(last, more);
      ItemsStep(codec, requestId, tail, end);
    } else {
      var rest := Framed(frames[1..]) + tail;
      assert Framed(frames) + tail == frames[0] + [10, 10] + rest;
      assert frames[0] in frames;
      BoundaryIsFrameEnd(frames[0], rest);
      ItemsStep(codec, requestId, frames[0] + [10, 10] + rest, end);
      FramesAreDelivered(codec, requestId, frames[1..], last, event, more, end);
    }
  }

  lemma ItemsStep(codec: Codec, requestId: string, bytes: seq<byte>, end: End)
    requires FindBoundary(bytes).Some?
    ensures var p := FindBoundary(bytes).value;
      Items(codec, requestId, bytes, end)
      == AfterFrame(ParseFrame(codec, bytes[..p], requestId), Items(codec, requestId, bytes[p + 2..], end))
  {
    hide ParseFrame, FindBoundary;
  }

  /** The deltas that frames say. */
  function Deltas(codec: Codec, requestId: string, frames: seq<seq<byte>>): seq<Item> {
    if frames == [] then []
    else
      (match ParseFrame(codec, frames[0], requestId)
       case Yield(e) => [Event(e)]
       case _ => [])
      + Deltas(codec, requestId, frames[1..])
  }
}
