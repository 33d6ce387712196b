/** The wire path of `%output`: bytes on the pty, lines, classified events
    (src/tmux/control_mode.rs reader, src/tmux/parser.rs, src/tmux/escape.rs). */
module Wire {
  import opened Bytes
  import opened Text
  import opened Parser
  import Escape

  // ---- The reader's side ----

  /** Bytes one `read_until(b'\n')` takes: through the first LF, or all that is left. */
  function ReadLen(stream: seq<byte>): (n: nat)
    requires stream != []
    ensures 1 <= n <= |stream|
  {
    var i := IndexOf(stream, LF);
    if i < |stream| then i + 1 else |stream|
  }

  function StripEol(buf: seq<byte>): (line: Line)
    ensures |line| <= |buf|
  {
    if buf == [] || buf[|buf| - 1] != LF then buf
    else if |buf| >= 2 && buf[|buf| - 2] == CR then buf[..|buf| - 2]
    else buf[..|buf| - 1]
  }

  /** `buf` is the line and the line end it was sent with. */
  predicate EndsLine(buf: seq<byte>, line: Line, eol: seq<byte>) {
    && buf == line + eol
    && (eol == [] || eol == [LF] || eol == [CR, LF])
    // The longest line end there is, and no more.
    && (eol == [] ==> line == [] || line[|line| - 1] != LF)
    && (eol == [LF] ==> line == [] || line[|line| - 1] != CR)
  }

  /** Exactly the line end goes: whatever line was written with whatever line end, that line is
      what is left. */
  method StripLineEnd(buf: seq<byte>) returns (line: Line)
    ensures exists eol :: EndsLine(buf, line, eol)
    ensures forall other, eol :: EndsLine(buf, other, eol) ==> other == line
    ensures line == StripEol(buf)
  {
    StripEolMeaning(buf);
    if buf != [] && buf[|buf| - 1] == LF {
      var end := |buf| - 1;
      if end > 0 && buf[end - 1] == CR {
        end := end - 1;
      }
      line := buf[..end];
    } else {
      line := buf;
    }
  }

  lemma StripEolMeaning(buf: seq<byte>)
    ensures EndsLine(buf, StripEol(buf), buf[|StripEol(buf)|..])
    ensures forall other, eol :: EndsLine(buf, other, eol) ==> other == StripEol(buf)
  {
    hide StripEol, EndsLine;
    StripEolEnds(buf);
    forall other, eol | EndsLine(buf, other, eol) ensures other == StripEol(buf) {
      OneLineEnd(buf, other, eol);
    }
  }

  lemma StripEolEnds(buf: seq<byte>)
    ensures EndsLine(buf, StripEol(buf), buf[|StripEol(buf)|..])
  {
    var line := StripEol(buf);
    assert buf == line + buf[|line|..];
  }

  lemma OneLineEnd(buf: seq<byte>, line: Line, eol: seq<byte>)
    requires EndsLine(buf, line, eol)
    ensures line == StripEol(buf)
  {
    assert buf[..|line|] == line && buf[|line|..] == eol;
    assert forall i :: 0 <= i < |line| ==> line[i] == buf[i];
  }

  function Lines(stream: seq<byte>): seq<Line>
    decreases |stream|
  {
    if stream == [] then [] else [StripEol(stream[..ReadLen(stream)])] + Lines(stream[ReadLen(stream)..])
  }

  /** Everything the classifier says about a byte stream read from the start. */
  function EventsRead(stream: seq<byte>): seq<ControlEvent> {
    FeedAll(Outside, Lines(stream)).1
  }

  // ---- tmux's side ----

  datatype Chunk = Chunk(pane: seq<byte>, data: seq<byte>)

  predicate IsPane(pane: seq<byte>) {
    [PERCENT] <= pane && SPACE !in pane && LF !in pane
  }

  function OutputLine(escaped: set<byte>, c: Chunk): Line {
    Ascii("%output ") + c.pane + [SPACE] + Escape.Encoded(escaped, c.data)
  }

  function Sent(escaped: set<byte>, chunks: seq<Chunk>): seq<byte> {
    if chunks == [] then []
    else OutputLine(escaped, chunks[0]) + [CR, LF] + Sent(escaped, chunks[1..])
  }

  function Parsed(escaped: set<byte>, c: Chunk): seq<ControlEvent> {
    if ValidUtf8(OutputLine(escaped, c)) then [Output(c.pane, c.data)] else []
  }

  function Delivered(escaped: set<byte>, chunks: seq<Chunk>): seq<ControlEvent> {
    if chunks == [] then []
    else Parsed(escaped, chunks[0]) + Delivered(escaped, chunks[1..])
  }

  // ---- The refinement ----

  lemma {:induction false} EncodedHasNo(escaped: set<byte>, data: seq<byte>, b: byte)
    requires b in escaped && b !in Escape.Octal(b) && b < 0x30
    ensures b !in Escape.Encoded(escaped, data)
  {
    if data != [] {
      EncodedHasNo(escaped, data[1..], b);
      assert forall i :: 0 <= i < 4 ==> Escape.Octal(data[0])[i] != b;
    }
  }

  lemma LinesStep(line: Line, rest: seq<byte>)
    requires LF !in line
    ensures Lines(line + [CR, LF] + rest) == [line] + Lines(rest)
  {
    var stream := line + [CR, LF] + rest;
    var before := line + [CR];
    assert stream == before + [LF] + rest;
    IndexOfPrefix(before, LF, rest);
    assert ReadLen(stream) == |line| + 2;
    var buf := stream[..|line| + 2];
    assert buf == line + [CR, LF] && buf[..|line|] == line;
    assert stream[|line| + 2..] == rest;
  }

  /** One `%output` line gives its chunk back, or nothing when it is not valid UTF-8. */
  lemma OutputLineFeeds(escaped: set<byte>, c: Chunk)
    requires BACKSLASH in escaped && IsPane(c.pane)
    ensures FeedOutside(OutputLine(escaped, c))
         == (Outside, if ValidUtf8(OutputLine(escaped, c)) then Some(Output(c.pane, c.data)) else None)
  {
    var line := OutputLine(escaped, c);
    var rest := c.pane + [SPACE] + Escape.Encoded(escaped, c.data);
    assert line[|OUTPUT|..] == rest;
    IndexOfPrefix(c.pane, SPACE, Escape.Encoded(escaped, c.data));
    assert rest[..|c.pane|] == c.pane && rest[|c.pane| + 1..] == Escape.Encoded(escaped, c.data);
    Escape.DecodeInvertsEncode(escaped, c.data);
  }

  /** Wire refinement: whatever is sent, the reader sees exactly the chunks whose line is
      valid UTF-8, unchanged and in order. Nothing is ever delivered altered. */
  lemma {:induction false} WireRefinement(escaped: set<byte>, chunks: seq<Chunk>)
    requires BACKSLASH in escaped && LF in escaped
    requires forall i :: 0 <= i < |chunks| ==> IsPane(chunks[i].pane)
    ensures EventsRead(Sent(escaped, chunks)) == Delivered(escaped, chunks)
  {
    SentFeeds(escaped, chunks);
  }

  lemma {:induction false} SentFeeds(escaped: set<byte>, chunks: seq<Chunk>)
    requires BACKSLASH in escaped && LF in escaped
    requires forall i :: 0 <= i < |chunks| ==> IsPane(chunks[i].pane)
    ensures FeedAll(Outside, Lines(Sent(escaped, chunks))) == (Outside, Delivered(escaped, chunks))
    decreases |chunks|
  {
    if chunks != [] {
      var c := chunks[0];
      var line := OutputLine(escaped, c);
      EncodedHasNo(escaped, c.data, LF);
      assert LF !in OUTPUT;
      LinesStep(line, Sent(escaped, chunks[1..]));
      OutputLineFeeds(escaped, c);
      SentFeeds(escaped, chunks[1..]);
      var rest := Lines(Sent(escaped, chunks[1..]));
      FeedSingle(Outside, line);
      FeedAllConcat(Outside, [line], rest);
    }
  }

  // ---- Whole transcripts ----

  /** Lines as tmux writes them to its pty. */
  function Written(lines: seq<Line>): seq<byte> {
    if lines == [] then [] else lines[0] + [CR, LF] + Written(lines[1..])
  }

  /** What is left without a line end, at the end of the stream, is a line too. */
  lemma LastLine(line: Line)
    requires line != [] && LF !in line
    ensures Lines(line) == [line]
  {
    assert IndexOf(line, LF) == |line|;
    assert line[..|line|] == line && line[|line|..] == [];
  }

  lemma {:induction false} WrittenReadBack(lines: seq<Line>)
    requires forall i :: 0 <= i < |lines| ==> LF !in lines[i]
    ensures Lines(Written(lines)) == lines
    decreases |lines|
  {
    if lines != [] {
      LinesStep(lines[0], Written(lines[1..]));
      WrittenReadBack(lines[1..]);
    }
  }

  /** No newline inside a notification or a content line. */
  predicate OneLiners(item: Item) {
    match item
    case Notification(event) => LF !in NoticeLine(event)
    case Notice(line) => LF !in line
    case Block(_, _, _, body, _, _, _) => forall i :: 0 <= i < |body| ==> LF !in body[i]
  }

  lemma {:induction false} RenderedOneLiners(items: seq<Item>)
    requires forall i :: 0 <= i < |items| ==> OneLiners(items[i])
    ensures forall i :: 0 <= i < |Render(items)| ==> LF !in Render(items)[i]
    decreases |items|
  {
    if items != [] {
      ItemOneLiners(items[0]);
      RenderedOneLiners(items[1..]);
    }
  }

  lemma ItemOneLiners(item: Item)
    requires OneLiners(item)
    ensures forall i :: 0 <= i < |RenderItem(item)| ==> LF !in RenderItem(item)[i]
  {
    if item.Block? {
      assert LF !in BEGIN && LF !in END && LF !in ERROR;
      MarkerIsOneLine(BEGIN, item.ts, item.cmdNum, item.flags);
      MarkerIsOneLine(if item.ok then END else ERROR, item.closeTs, item.cmdNum, item.closeFlags);
      hide Marker;
    }
  }

  lemma MarkerIsOneLine(verb: seq<byte>, ts: nat, cmdNum: nat, flags: nat)
    requires LF !in verb
    ensures LF !in Marker(verb, ts, cmdNum, flags)
  {
  }

  /** From bytes to events: any mix of notifications and blocks, written line by line with CR
      LF and read back from the byte stream, gives exactly its events. */
  lemma TranscriptReadBack(items: seq<Item>)
    requires forall i :: 0 <= i < |items| ==> WellFormed(items[i]) && OneLiners(items[i])
    ensures EventsRead(Written(Render(items))) == Events(items)
  {
    hide WellFormed, OneLiners, Render, Events, Lines, Written, FeedAll;
    RenderedOneLiners(items);
    WrittenReadBack(Render(items));
    FramingRoundTrip(items);
  }

  /** Under the policy tmux itself follows (controls and backslash, nothing above 0x7F),
      a chunk gets through exactly when its own bytes are valid UTF-8. A chunk that ends
      in the middle of a multi-byte character is dropped whole. */
  lemma SurvivesIffValid(escaped: set<byte>, c: Chunk)
    requires forall b :: b in escaped ==> b < 0x80
    requires ValidUtf8(c.pane)
    ensures ValidUtf8(OutputLine(escaped, c)) <==> ValidUtf8(c.data)
  {
    var enc := Escape.Encoded(escaped, c.data);
    AsciiIsValid(OUTPUT);
    AsciiIsValid([SPACE]);
    ValidConcat(OUTPUT, c.pane);
    ValidConcat(OUTPUT + c.pane, [SPACE]);
    ValidConcat(OUTPUT + c.pane + [SPACE], enc);
    EncodedValidity(escaped, c.data);
  }

  lemma {:induction false} EncodedValidity(escaped: set<byte>, data: seq<byte>)
    requires forall b :: b in escaped ==> b < 0x80
    ensures ValidUtf8(Escape.Encoded(escaped, data)) <==> ValidUtf8(data)
    decreases |data|
  {
    var enc := Escape.Encoded(escaped, data);
    if data == [] {
    } else if data[0] < 0x80 {
      var head := if data[0] in escaped then Escape.Octal(data[0]) else [data[0]];
      AsciiIsValid(head);
      ValidConcat(head, Escape.Encoded(escaped, data[1..]));
      EncodedValidity(escaped, data[1..]);
    } else if CharLen(data) > 0 {
      var n := CharLen(data);
      HighPrefixKept(escaped, data, n);
      CharLenPrefix(data);
      CharLenExtend(data[..n], Escape.Encoded(escaped, data[n..]));
      EncodedValidity(escaped, data[n..]);
    } else if CharLen(enc) > 0 {
      BadHeadStaysBad(escaped, data);
    }
  }

  lemma BadHeadStaysBad(escaped: set<byte>, data: seq<byte>)
    requires forall b :: b in escaped ==> b < 0x80
    requires data != [] && data[0] >= 0x80
    ensures CharLen(Escape.Encoded(escaped, data)) > 0 ==> CharLen(data) > 0
  {
    var enc := Escape.Encoded(escaped, data);
    var n := CharLen(enc);
    if n > 0 {
      HighBytesAreData(escaped, data, n);
      CharLenPrefix(enc);
      CharLenExtend(data[..n], data[n..]);
      assert data == data[..n] + data[n..];
    }
  }

  lemma {:induction false} HighPrefixKept(escaped: set<byte>, data: seq<byte>, n: nat)
    requires forall b :: b in escaped ==> b < 0x80
    requires n <= |data| && forall i :: 0 <= i < n ==> data[i] >= 0x80
    ensures Escape.Encoded(escaped, data) == data[..n] + Escape.Encoded(escaped, data[n..])
    decreases n
  {
    if n > 0 {
      HighPrefixKept(escaped, data[1..], n - 1);
      Regroup([data[0]], data[1..n], Escape.Encoded(escaped, data[n..]));
      assert data[1..][..n - 1] == data[1..n] && data[1..][n - 1..] == data[n..];
      assert data[..n] == [data[0]] + data[1..n];
    }
  }

  lemma {:induction false} HighBytesAreData(escaped: set<byte>, data: seq<byte>, n: nat)
    requires n <= |Escape.Encoded(escaped, data)|
    requires forall i :: 0 <= i < n ==> Escape.Encoded(escaped, data)[i] >= 0x80
    ensures n <= |data| && Escape.Encoded(escaped, data)[..n] == data[..n]
    decreases n
  {
    if n > 0 {
      var enc := Escape.Encoded(escaped, data);
      var rest := Escape.Encoded(escaped, data[1..]);
      assert enc[0] == data[0];
      assert enc[1..] == rest;
      assert forall i :: 0 <= i < n - 1 ==> rest[i] == enc[i + 1];
      HighBytesAreData(escaped, data[1..], n - 1);
      assert enc[..n] == [enc[0]] + rest[..n - 1];
      assert data[..n] == [data[0]] + data[1..][..n - 1];
    }
  }

  /** A policy that also escapes every byte above 0x7F never loses a chunk. */
  lemma AsciiPolicyLosesNothing(escaped: set<byte>, c: Chunk)
    requires forall b: byte | 0x80 <= b < 256 :: b in escaped
    requires IsAscii(c.pane)
    ensures ValidUtf8(OutputLine(escaped, c))
  {
    EncodedIsAscii(escaped, c.data);
    AsciiIsValid(OutputLine(escaped, c));
  }

  lemma {:induction false} EncodedIsAscii(escaped: set<byte>, data: seq<byte>)
    requires forall b: byte | 0x80 <= b < 256 :: b in escaped
    ensures IsAscii(Escape.Encoded(escaped, data))
  {
    if data != [] {
      EncodedIsAscii(escaped, data[1..]);
    }
  }
}
