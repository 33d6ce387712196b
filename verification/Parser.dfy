/** The control-mode line classifier (src/tmux/parser.rs, src/tmux/events.rs). */
module Parser {
  import opened Bytes
  import Numbers
  import opened Text
  import Escape

  type Line = seq<byte>

  datatype ControlEvent =
    | Output(pane: seq<byte>, data: seq<byte>)
    | BeginBlock(cmdNum: nat, flags: nat)
    | EndBlock(cmdNum: nat, flags: nat)
    | ErrorBlock(cmdNum: nat, flags: nat)
    | SessionChanged(sessionId: seq<byte>, name: seq<byte>)
    | SessionsChanged
    | WindowAdd(windowId: seq<byte>)
    | WindowClose(windowId: seq<byte>)
    | WindowRenamed(windowId: seq<byte>, name: seq<byte>)
    | WindowPaneChanged(windowId: seq<byte>, pane: seq<byte>)
    | LayoutChange(windowId: seq<byte>, layout: seq<byte>)
    | PaneModeChanged(pane: seq<byte>)
    | ClientDetached
    | Exit(code: Option<int>)
    | BlockLine(cmdNum: nat, line: Line)
    | Ignored(kind: seq<byte>, raw: Line)

  datatype State = Outside | InsideBlock(cmdNum: nat, flags: nat)

  const OUTPUT: seq<byte> := Ascii("%output ")
  const BEGIN: seq<byte> := Ascii("%begin ")
  const END: seq<byte> := Ascii("%end ")
  const ERROR: seq<byte> := Ascii("%error ")
  const SESSION_CHANGED: seq<byte> := Ascii("%session-changed ")
  const SESSIONS_CHANGED_LINE: seq<byte> := Ascii("%sessions-changed")
  const WINDOW_ADD: seq<byte> := Ascii("%window-add ")
  const WINDOW_CLOSE: seq<byte> := Ascii("%window-close ")
  const WINDOW_RENAMED: seq<byte> := Ascii("%window-renamed ")
  const WINDOW_PANE_CHANGED: seq<byte> := Ascii("%window-pane-changed ")
  const LAYOUT_CHANGE: seq<byte> := Ascii("%layout-change ")
  const PANE_MODE_CHANGED: seq<byte> := Ascii("%pane-mode-changed ")
  const CLIENT_DETACHED_LINE: seq<byte> := Ascii("%client-detached")
  const CLIENT_DETACHED: seq<byte> := Ascii("%client-detached ")
  const EXIT_LINE: seq<byte> := Ascii("%exit")
  const EXIT: seq<byte> := Ascii("%exit ")
  const PERCENT: byte := 0x25

  // ---- Pure parsers ----

  /** `splitn(2, ' ')`: the first word, and the rest or nothing. */
  function SplitWord(s: seq<byte>): (seq<byte>, seq<byte>) {
    var i := IndexOf(s, SPACE);
    if i < |s| then (s[..i], s[i + 1..]) else (s, [])
  }

  function ParseOutput(rest: seq<byte>): Option<ControlEvent> {
    var i := IndexOf(rest, SPACE);
    if i == |rest| || !([PERCENT] <= rest[..i]) then None
    else Some(Output(rest[..i], Escape.Decoded(rest[i + 1..])))
  }

  /** `<ts> <cmd_num> <flags>`; anything after the third field is not looked at. */
  function ParseBlockHeader(rest: seq<byte>): Option<(nat, nat)> {
    var fields := Fields(rest);
    if |fields| < 3 then None
    else
      match (Numbers.ParseU32(fields[1]), Numbers.ParseU32(fields[2]))
      case (Some(cmdNum), Some(flags)) => Some((cmdNum, flags))
      case _ => None
  }

  function ParsePaneChanged(rest: seq<byte>): Option<ControlEvent> {
    var fields := Fields(rest);
    if |fields| < 2 then None else Some(WindowPaneChanged(fields[0], fields[1]))
  }

  /** Everything outside a block that is neither `%output` nor `%begin`. */
  function ParseNotification(line: Line): Option<ControlEvent> {
    if SESSION_CHANGED <= line then
      var (sid, name) := SplitWord(line[|SESSION_CHANGED|..]);
      Some(SessionChanged(sid, name))
    else if line == SESSIONS_CHANGED_LINE then Some(SessionsChanged)
    else if WINDOW_ADD <= line then Some(WindowAdd(line[|WINDOW_ADD|..]))
    else if WINDOW_CLOSE <= line then Some(WindowClose(line[|WINDOW_CLOSE|..]))
    else if WINDOW_RENAMED <= line then
      var (wid, name) := SplitWord(line[|WINDOW_RENAMED|..]);
      Some(WindowRenamed(wid, name))
    else if WINDOW_PANE_CHANGED <= line then ParsePaneChanged(line[|WINDOW_PANE_CHANGED|..])
    else if LAYOUT_CHANGE <= line then
      var (wid, layout) := SplitWord(line[|LAYOUT_CHANGE|..]);
      Some(LayoutChange(wid, layout))
    else if PANE_MODE_CHANGED <= line then Some(PaneModeChanged(line[|PANE_MODE_CHANGED|..]))
    else if line == CLIENT_DETACHED_LINE || CLIENT_DETACHED <= line then Some(ClientDetached)
    else if line == EXIT_LINE || EXIT <= line then Some(Exit(None))
    else if [PERCENT] <= line then Some(Ignored(SplitWord(line).0, line))
    else None
  }

  /** The line closes block `cmdNum` with this verb. */
  predicate Closes(line: Line, verb: seq<byte>, cmdNum: nat) {
    && ValidUtf8(line)
    && verb <= line
    && ParseBlockHeader(line[|verb|..]).Some?
    && ParseBlockHeader(line[|verb|..]).value.0 == cmdNum
  }

  // ---- The state machine ----

  function FeedOutside(line: Line): (State, Option<ControlEvent>) {
    if !ValidUtf8(line) then (Outside, None)
    else if OUTPUT <= line then (Outside, ParseOutput(line[|OUTPUT|..]))
    else if BEGIN <= line then
      match ParseBlockHeader(line[|BEGIN|..])
      case Some((cmdNum, flags)) => (InsideBlock(cmdNum, flags), Some(BeginBlock(cmdNum, flags)))
      case None => (Outside, None)
    else (Outside, ParseNotification(line))
  }

  function FeedInside(cmdNum: nat, flags: nat, line: Line): (State, Option<ControlEvent>) {
    if Closes(line, END, cmdNum) then (Outside, Some(EndBlock(cmdNum, flags)))
    else if Closes(line, ERROR, cmdNum) then (Outside, Some(ErrorBlock(cmdNum, flags)))
    else (InsideBlock(cmdNum, flags), Some(BlockLine(cmdNum, line)))
  }

  function Feed(state: State, line: Line): (State, Option<ControlEvent>) {
    match state
    case Outside => FeedOutside(line)
    case InsideBlock(cmdNum, flags) => FeedInside(cmdNum, flags, line)
  }

  class LineClassifier {
    var state: State

    constructor ()
      ensures state == Outside
    {
      state := Outside;
    }

    method FeedLine(line: Line) returns (event: Option<ControlEvent>)
      modifies this
      ensures (state, event) == Feed(old(state), line)
    {
      match state
      case Outside => event := ClassifyOutside(line);
      case InsideBlock(cmdNum, flags) => event := ClassifyInside(line, cmdNum, flags);
    }

    method ClassifyOutside(line: Line) returns (event: Option<ControlEvent>)
      requires state.Outside?
      modifies this
      ensures (state, event) == FeedOutside(line)
    {
      if !ValidUtf8(line) { return None; }
      var output := StripPrefix(line, OUTPUT);
      if output.Some? { return ParseOutput(output.value); }
      var begin := StripPrefix(line, BEGIN);
      if begin.Some? {
        var header := ParseBlockHeader(begin.value);
        if header.None? { return None; }
        var (cmdNum, flags) := header.value;
        state := InsideBlock(cmdNum, flags);
        return Some(BeginBlock(cmdNum, flags));
      }
      return ParseNotification(line);
    }

    method ClassifyInside(line: Line, cmdNum: nat, flags: nat) returns (event: Option<ControlEvent>)
      requires state == InsideBlock(cmdNum, flags)
      modifies this
      ensures (state, event) == FeedInside(cmdNum, flags, line)
    {
      if ValidUtf8(line) {
        var end := StripPrefix(line, END);
        if end.Some? {
          var header := ParseBlockHeader(end.value);
          if header.Some? && header.value.0 == cmdNum {
            state := Outside;
            return Some(EndBlock(cmdNum, flags));
          }
        }
        var error := StripPrefix(line, ERROR);
        if error.Some? {
          var header := ParseBlockHeader(error.value);
          if header.Some? && header.value.0 == cmdNum {
            state := Outside;
            return Some(ErrorBlock(cmdNum, flags));
          }
        }
      }
      return Some(BlockLine(cmdNum, line));
    }
  }

  // ---- What one line can do ----

  /** A begin event only ever comes out of the outside state, a close event and a content
      line only out of a block, and a close carries the number and flags of its begin. */
  lemma EventMatchesState(state: State, line: Line)
    ensures var (next, event) := Feed(state, line);
      && (event.Some? && event.value.BeginBlock? ==>
            state.Outside? && next == InsideBlock(event.value.cmdNum, event.value.flags))
      && (event.Some? && (event.value.EndBlock? || event.value.ErrorBlock?) ==>
            state == InsideBlock(event.value.cmdNum, event.value.flags) && next.Outside?)
      && (event.Some? && event.value.BlockLine? ==>
            state.InsideBlock? && next == state && event.value.line == line)
      && (state.InsideBlock? ==>
            && event.Some?
            && (event.value.EndBlock? || event.value.ErrorBlock? || event.value.BlockLine?))
      && (state.Outside? && (event.None? || !event.value.BeginBlock?) ==> next.Outside?)
  {
    hide FeedOutside, FeedInside;
    OutsideEvents(line);
    if state.InsideBlock? {
      InsideEvents(state.cmdNum, state.flags, line);
    }
  }

  predicate IsBlockEvent(e: ControlEvent) { e.BeginBlock? || e.EndBlock? || e.ErrorBlock? || e.BlockLine? }

  lemma OutsideEvents(line: Line)
    ensures var (next, event) := FeedOutside(line);
      && (event.Some? && IsBlockEvent(event.value) ==>
            event.value.BeginBlock? && next == InsideBlock(event.value.cmdNum, event.value.flags))
      && (event.None? || !event.value.BeginBlock? ==> next.Outside?)
  {
    hide Ascii, ValidUtf8, ParseBlockHeader, ParseNotification, Escape.Decoded;
    NotificationsAreNoBlocks(line);
  }

  lemma NotificationsAreNoBlocks(line: Line)
    ensures ParseNotification(line).Some? ==> !IsBlockEvent(ParseNotification(line).value)
    ensures ParseNotification(line).Some? && ParseNotification(line).value.Exit? ==>
      ParseNotification(line).value == Exit(None)
  {
    hide Ascii, SplitWord, Fields;
  }

  lemma InsideEvents(cmdNum: nat, flags: nat, line: Line)
    ensures var (next, event) := FeedInside(cmdNum, flags, line);
      && event.Some?
      && ((event.value == EndBlock(cmdNum, flags) && next.Outside?)
          || (event.value == ErrorBlock(cmdNum, flags) && next.Outside?)
          || (event.value == BlockLine(cmdNum, line) && next == InsideBlock(cmdNum, flags)))
  {
    hide Closes;
  }

  // ---- Notifications, written out ----

  /** The line of a notification, as tmux writes it. */
  function NoticeLine(e: ControlEvent): Line {
    match e
    case SessionChanged(sessionId, name) => Ascii("%session-changed ") + sessionId + [SPACE] + name
    case SessionsChanged => Ascii("%sessions-changed")
    case WindowAdd(windowId) => Ascii("%window-add ") + windowId
    case WindowClose(windowId) => Ascii("%window-close ") + windowId
    case WindowRenamed(windowId, name) => Ascii("%window-renamed ") + windowId + [SPACE] + name
    case WindowPaneChanged(windowId, pane) => Ascii("%window-pane-changed ") + windowId + [SPACE] + pane
    case LayoutChange(windowId, layout) => Ascii("%layout-change ") + windowId + [SPACE] + layout
    case PaneModeChanged(pane) => Ascii("%pane-mode-changed ") + pane
    case ClientDetached => Ascii("%client-detached")
    case Exit(_) => Ascii("%exit")
    case _ => []
  }

  /** The notifications whose line says all there is to say. An id ends at the first blank; a
      name or layout may hold anything, blanks included. */
  predicate IsNotice(e: ControlEvent) {
    match e
    case SessionChanged(sessionId, name) => SPACE !in sessionId && ValidUtf8(sessionId) && ValidUtf8(name)
    case WindowRenamed(windowId, name) => SPACE !in windowId && ValidUtf8(windowId) && ValidUtf8(name)
    case LayoutChange(windowId, layout) => SPACE !in windowId && ValidUtf8(windowId) && ValidUtf8(layout)
    case WindowPaneChanged(windowId, pane) => IsGraphic(windowId) && IsGraphic(pane) && windowId != [] && pane != []
    case WindowAdd(windowId) => ValidUtf8(windowId)
    case WindowClose(windowId) => ValidUtf8(windowId)
    case PaneModeChanged(pane) => ValidUtf8(pane)
    case Exit(code) => code.None?
    case SessionsChanged => true
    case ClientDetached => true
    case _ => false
  }

  /** What tells the verbs apart: their second and ninth bytes. */
  lemma VerbBytes()
    ensures |OUTPUT| == 8 && OUTPUT[0] == PERCENT && OUTPUT[1] == 0x6F
    ensures |BEGIN| == 7 && BEGIN[0] == PERCENT && BEGIN[1] == 0x62
    ensures |SESSION_CHANGED| == 17 && SESSION_CHANGED[0] == PERCENT && SESSION_CHANGED[1] == 0x73
      && SESSION_CHANGED[8] == 0x2D
    ensures |SESSIONS_CHANGED_LINE| == 17 && SESSIONS_CHANGED_LINE[0] == PERCENT && SESSIONS_CHANGED_LINE[1] == 0x73
      && SESSIONS_CHANGED_LINE[8] == 0x73
    ensures |WINDOW_ADD| == 12 && WINDOW_ADD[0] == PERCENT && WINDOW_ADD[1] == 0x77 && WINDOW_ADD[8] == 0x61
    ensures |WINDOW_CLOSE| == 14 && WINDOW_CLOSE[0] == PERCENT && WINDOW_CLOSE[1] == 0x77 && WINDOW_CLOSE[8] == 0x63
    ensures |WINDOW_RENAMED| == 16 && WINDOW_RENAMED[0] == PERCENT && WINDOW_RENAMED[1] == 0x77
      && WINDOW_RENAMED[8] == 0x72
    ensures |WINDOW_PANE_CHANGED| == 21 && WINDOW_PANE_CHANGED[0] == PERCENT && WINDOW_PANE_CHANGED[1] == 0x77
      && WINDOW_PANE_CHANGED[8] == 0x70
    ensures |LAYOUT_CHANGE| == 15 && LAYOUT_CHANGE[0] == PERCENT && LAYOUT_CHANGE[1] == 0x6C && LAYOUT_CHANGE[8] == 0x63
    ensures |PANE_MODE_CHANGED| == 19 && PANE_MODE_CHANGED[0] == PERCENT && PANE_MODE_CHANGED[1] == 0x70
      && PANE_MODE_CHANGED[8] == 0x64
    ensures |CLIENT_DETACHED_LINE| == 16 && CLIENT_DETACHED_LINE[0] == PERCENT && CLIENT_DETACHED_LINE[1] == 0x63
      && CLIENT_DETACHED_LINE[8] == 0x64
    ensures |CLIENT_DETACHED| == 17 && CLIENT_DETACHED[0] == PERCENT && CLIENT_DETACHED[1] == 0x63
      && CLIENT_DETACHED[8] == 0x64
    ensures |EXIT_LINE| == 5 && EXIT_LINE[0] == PERCENT && EXIT_LINE[1] == 0x65
    ensures |EXIT| == 6 && EXIT[0] == PERCENT && EXIT[1] == 0x65
  {
  }

  lemma SplitWordMeaning(word: seq<byte>, rest: seq<byte>)
    requires SPACE !in word
    ensures SplitWord(word + [SPACE] + rest) == (word, rest)
    ensures SplitWord(word) == (word, [])
  {
    IndexOfPrefix(word, SPACE, rest);
    var s := word + [SPACE] + rest;
    assert s[..|word|] == word && s[|word| + 1..] == rest;
  }

  lemma PaneChangedMeaning(windowId: seq<byte>, pane: seq<byte>)
    requires IsGraphic(windowId) && IsGraphic(pane) && windowId != [] && pane != []
    ensures ParsePaneChanged(windowId + [SPACE] + pane) == Some(WindowPaneChanged(windowId, pane))
    ensures ParsePaneChanged(windowId).None?
  {
    hide Fields;
    FieldsStep(windowId, pane);
    FieldsLast(windowId);
    FieldsLast(pane);
  }

  /** What each verb's rest gives. */
  lemma VerbMeaning(line: Line)
    requires ValidUtf8(line)
    ensures SESSION_CHANGED <= line ==>
      var (id, name) := SplitWord(line[|SESSION_CHANGED|..]);
      FeedOutside(line) == (Outside, Some(SessionChanged(id, name)))
    ensures line == SESSIONS_CHANGED_LINE ==> FeedOutside(line) == (Outside, Some(SessionsChanged))
    ensures WINDOW_ADD <= line ==> FeedOutside(line) == (Outside, Some(WindowAdd(line[|WINDOW_ADD|..])))
    ensures WINDOW_CLOSE <= line ==> FeedOutside(line) == (Outside, Some(WindowClose(line[|WINDOW_CLOSE|..])))
    ensures WINDOW_RENAMED <= line ==>
      var (id, name) := SplitWord(line[|WINDOW_RENAMED|..]);
      FeedOutside(line) == (Outside, Some(WindowRenamed(id, name)))
    ensures WINDOW_PANE_CHANGED <= line ==>
      FeedOutside(line) == (Outside, ParsePaneChanged(line[|WINDOW_PANE_CHANGED|..]))
    ensures LAYOUT_CHANGE <= line ==>
      var (id, layout) := SplitWord(line[|LAYOUT_CHANGE|..]);
      FeedOutside(line) == (Outside, Some(LayoutChange(id, layout)))
    ensures PANE_MODE_CHANGED <= line ==>
      FeedOutside(line) == (Outside, Some(PaneModeChanged(line[|PANE_MODE_CHANGED|..])))
    ensures line == CLIENT_DETACHED_LINE || CLIENT_DETACHED <= line ==>
      FeedOutside(line) == (Outside, Some(ClientDetached))
    ensures line == EXIT_LINE || EXIT <= line ==> FeedOutside(line) == (Outside, Some(Exit(None)))
  {
    hide Ascii, ValidUtf8, SplitWord, ParsePaneChanged, ParseOutput, ParseBlockHeader;
    hide OUTPUT, BEGIN, SESSION_CHANGED, SESSIONS_CHANGED_LINE, WINDOW_ADD, WINDOW_CLOSE, WINDOW_RENAMED;
    hide WINDOW_PANE_CHANGED, LAYOUT_CHANGE, PANE_MODE_CHANGED, CLIENT_DETACHED_LINE, CLIENT_DETACHED, EXIT_LINE, EXIT;
    VerbBytes();
  }

  lemma ValidNotice(verb: seq<byte>, id: seq<byte>, rest: seq<byte>)
    requires IsAscii(verb) && ValidUtf8(id) && ValidUtf8(rest)
    ensures ValidUtf8(verb) && ValidUtf8(verb + id) && ValidUtf8(verb + id + [SPACE] + rest)
    ensures (verb + id)[|verb|..] == id && (verb + id + [SPACE] + rest)[|verb|..] == id + [SPACE] + rest
  {
    hide ValidUtf8;
    AsciiIsValid(verb);
    AsciiIsValid([SPACE]);
    ValidConcat(verb, id);
    ValidConcat(verb + id, [SPACE]);
    ValidConcat(verb + id + [SPACE], rest);
  }

  /** Every notification tmux writes is read back as itself. */
  lemma NoticeRoundTrip(e: ControlEvent)
    requires IsNotice(e)
    ensures FeedOutside(NoticeLine(e)) == (Outside, Some(e))
  {
    hide FeedOutside, ValidUtf8, SplitWord, ParsePaneChanged, Ascii;
    AsciiIsValid([]);
    VerbsAscii();
    match e
    case SessionChanged(id, name) => WordNotice(SESSION_CHANGED, id, name);
    case WindowRenamed(id, name) => WordNotice(WINDOW_RENAMED, id, name);
    case LayoutChange(id, layout) => WordNotice(LAYOUT_CHANGE, id, layout);
    case WindowPaneChanged(id, pane) => PaneNotice(id, pane);
    case WindowAdd(id) => IdNotice(WINDOW_ADD, id);
    case WindowClose(id) => IdNotice(WINDOW_CLOSE, id);
    case PaneModeChanged(id) => IdNotice(PANE_MODE_CHANGED, id);
    case SessionsChanged => IdNotice(SESSIONS_CHANGED_LINE, []);
    case ClientDetached => IdNotice(CLIENT_DETACHED_LINE, []);
    case Exit(_) => IdNotice(EXIT_LINE, []);
  }

  lemma VerbsAscii()
    ensures IsAscii(SESSION_CHANGED) && IsAscii(WINDOW_RENAMED) && IsAscii(LAYOUT_CHANGE)
    ensures IsAscii(WINDOW_PANE_CHANGED) && IsAscii(WINDOW_ADD) && IsAscii(WINDOW_CLOSE)
    ensures IsAscii(PANE_MODE_CHANGED) && IsAscii(SESSIONS_CHANGED_LINE) && IsAscii(CLIENT_DETACHED_LINE)
    ensures IsAscii(EXIT_LINE)
  {
    WordVerbsAscii();
    IdVerbsAscii();
    PaneVerbsAscii();
    WholeLinesAscii();
    hide Ascii, IsAscii;
    hide SESSION_CHANGED, WINDOW_RENAMED, LAYOUT_CHANGE, WINDOW_PANE_CHANGED, WINDOW_ADD, WINDOW_CLOSE;
    hide PANE_MODE_CHANGED, SESSIONS_CHANGED_LINE, CLIENT_DETACHED_LINE, EXIT_LINE;
  }

  lemma WordVerbsAscii()
    ensures IsAscii(SESSION_CHANGED) && IsAscii(WINDOW_RENAMED) && IsAscii(LAYOUT_CHANGE)
  {
  }

  lemma IdVerbsAscii()
    ensures IsAscii(WINDOW_ADD) && IsAscii(WINDOW_CLOSE)
  {
  }

  lemma PaneVerbsAscii()
    ensures IsAscii(WINDOW_PANE_CHANGED) && IsAscii(PANE_MODE_CHANGED)
  {
  }

  lemma WholeLinesAscii()
    ensures IsAscii(SESSIONS_CHANGED_LINE) && IsAscii(CLIENT_DETACHED_LINE) && IsAscii(EXIT_LINE)
  {
  }

  lemma PaneNotice(id: seq<byte>, pane: seq<byte>)
    requires IsGraphic(id) && IsGraphic(pane) && id != [] && pane != []
    ensures FeedOutside(WINDOW_PANE_CHANGED + id + [SPACE] + pane) == (Outside, Some(WindowPaneChanged(id, pane)))
    // Without a second id there is no event.
    ensures FeedOutside(WINDOW_PANE_CHANGED + id) == (Outside, None)
  {
    hide FeedOutside, ValidUtf8, ParsePaneChanged, Ascii;
    VerbsAscii();
    PaneChangedMeaning(id, pane);
    AsciiIsValid(id);
    AsciiIsValid(pane);
    ValidNotice(WINDOW_PANE_CHANGED, id, pane);
    VerbMeaning(WINDOW_PANE_CHANGED + id + [SPACE] + pane);
    VerbMeaning(WINDOW_PANE_CHANGED + id);
  }

  lemma WordNotice(verb: seq<byte>, id: seq<byte>, rest: seq<byte>)
    requires IsAscii(verb) && ValidUtf8(id) && ValidUtf8(rest) && SPACE !in id
    requires verb == SESSION_CHANGED || verb == WINDOW_RENAMED || verb == LAYOUT_CHANGE
    ensures var line := verb + id + [SPACE] + rest;
      && (verb == SESSION_CHANGED ==> FeedOutside(line) == (Outside, Some(SessionChanged(id, rest))))
      && (verb == WINDOW_RENAMED ==> FeedOutside(line) == (Outside, Some(WindowRenamed(id, rest))))
      && (verb == LAYOUT_CHANGE ==> FeedOutside(line) == (Outside, Some(LayoutChange(id, rest))))
    // Without a blank there is no name.
    ensures verb == SESSION_CHANGED ==> FeedOutside(verb + id) == (Outside, Some(SessionChanged(id, [])))
    ensures verb == WINDOW_RENAMED ==> FeedOutside(verb + id) == (Outside, Some(WindowRenamed(id, [])))
    ensures verb == LAYOUT_CHANGE ==> FeedOutside(verb + id) == (Outside, Some(LayoutChange(id, [])))
  {
    hide FeedOutside, ValidUtf8, SplitWord, Ascii;
    ValidNotice(verb, id, rest);
    SplitWordMeaning(id, rest);
    VerbMeaning(verb + id + [SPACE] + rest);
    VerbMeaning(verb + id);
  }

  lemma IdNotice(verb: seq<byte>, id: seq<byte>)
    requires IsAscii(verb) && ValidUtf8(id)
    ensures verb == WINDOW_ADD ==> FeedOutside(verb + id) == (Outside, Some(WindowAdd(id)))
    ensures verb == WINDOW_CLOSE ==> FeedOutside(verb + id) == (Outside, Some(WindowClose(id)))
    ensures verb == PANE_MODE_CHANGED ==> FeedOutside(verb + id) == (Outside, Some(PaneModeChanged(id)))
    ensures verb == SESSIONS_CHANGED_LINE ==> FeedOutside(verb) == (Outside, Some(SessionsChanged))
    ensures verb == CLIENT_DETACHED_LINE ==> FeedOutside(verb) == (Outside, Some(ClientDetached))
    ensures verb == EXIT_LINE ==> FeedOutside(verb) == (Outside, Some(Exit(None)))
  {
    hide FeedOutside, ValidUtf8, Ascii;
    AsciiIsValid([]);
    ValidNotice(verb, id, []);
    VerbMeaning(verb + id);
    VerbMeaning(verb);
  }

  /** Exactly these lines say that the client has been detached, and that tmux exits. */
  lemma DetachedAndExit(line: Line)
    ensures FeedOutside(line).1 == Some(ClientDetached) <==>
      ValidUtf8(line) && (line == Ascii("%client-detached") || Ascii("%client-detached ") <= line)
    ensures FeedOutside(line).1 == Some(Exit(None)) <==>
      ValidUtf8(line) && (line == Ascii("%exit") || Ascii("%exit ") <= line)
  {
    if ValidUtf8(line) {
      VerbMeaning(line);
    }
    hide Ascii, ValidUtf8, SplitWord, Fields, ParseBlockHeader, Escape.Decoded;
  }

  /** The line is none that the classifier knows. */
  predicate IsUnknown(line: Line) {
    && !(OUTPUT <= line) && !(BEGIN <= line)
    && !(SESSION_CHANGED <= line) && line != SESSIONS_CHANGED_LINE
    && !(WINDOW_ADD <= line) && !(WINDOW_CLOSE <= line)
    && !(WINDOW_RENAMED <= line) && !(WINDOW_PANE_CHANGED <= line)
    && !(LAYOUT_CHANGE <= line) && !(PANE_MODE_CHANGED <= line)
    && line != CLIENT_DETACHED_LINE && !(CLIENT_DETACHED <= line)
    && line != EXIT_LINE && !(EXIT <= line)
  }

  /** An unknown line is surfaced, with its first word, when it starts with `%`, and dropped
      otherwise. A line that is not UTF-8 is dropped. */
  lemma UnknownLines(line: Line)
    ensures !ValidUtf8(line) ==> FeedOutside(line) == (Outside, None)
    ensures ValidUtf8(line) && IsUnknown(line) ==>
      FeedOutside(line) == (Outside, if [PERCENT] <= line then Some(Ignored(SplitWord(line).0, line)) else None)
  {
    hide Ascii, ValidUtf8, SplitWord, ParsePaneChanged, ParseOutput, ParseBlockHeader;
  }

  /** An `%output` line without a pane id, or without a blank after it, is dropped. */
  lemma OutputNeedsPane(pane: seq<byte>, data: seq<byte>)
    requires SPACE !in pane
    ensures FeedOutside(Ascii("%output ") + pane) == (Outside, None)
    ensures !([PERCENT] <= pane) ==> FeedOutside(Ascii("%output ") + pane + [SPACE] + data) == (Outside, None)
  {
    hide Ascii, ValidUtf8, ParseNotification, ParseBlockHeader, Escape.Decoded;
    var verb := Ascii("%output ");
    assert verb == OUTPUT;
    assert (verb + pane)[|verb|..] == pane;
    assert (verb + pane + [SPACE] + data)[|verb|..] == pane + [SPACE] + data;
    IndexOfPrefix(pane, SPACE, data);
    assert (pane + [SPACE] + data)[..|pane|] == pane;
  }

  /** Inside a block a line that starts with neither closer is content, whatever else it
      starts with. */
  lemma OtherLinesAreContent(line: Line, cmdNum: nat, flags: nat)
    requires !(Ascii("%end ") <= line) && !(Ascii("%error ") <= line)
    ensures FeedInside(cmdNum, flags, line) == (InsideBlock(cmdNum, flags), Some(BlockLine(cmdNum, line)))
  {
    hide Ascii, ValidUtf8, ParseBlockHeader;
  }

  // ---- Rendering blocks, and reading them back ----

  /** `<verb><ts> <cmd_num> <flags>` */
  function Marker(verb: seq<byte>, ts: nat, cmdNum: nat, flags: nat): Line {
    verb + Numbers.PrintDecimal(ts) + [SPACE] + Numbers.PrintDecimal(cmdNum) + [SPACE]
      + Numbers.PrintDecimal(flags)
  }

  lemma MarkerHeader(ts: nat, cmdNum: nat, flags: nat)
    requires cmdNum < Numbers.U32_LIMIT && flags < Numbers.U32_LIMIT
    ensures ParseBlockHeader(Marker([], ts, cmdNum, flags)) == Some((cmdNum, flags))
  {
    hide Fields, Numbers.Print, Numbers.Parse;
    MarkerFields(ts, cmdNum, flags);
    Numbers.PrintParse(cmdNum, 10, Numbers.U32_LIMIT);
    Numbers.PrintParse(flags, 10, Numbers.U32_LIMIT);
  }

  lemma MarkerFields(ts: nat, cmdNum: nat, flags: nat)
    ensures Fields(Marker([], ts, cmdNum, flags))
         == [Numbers.PrintDecimal(ts), Numbers.PrintDecimal(cmdNum), Numbers.PrintDecimal(flags)]
  {
    hide Fields, Numbers.Print;
    var a, b, c := Numbers.PrintDecimal(ts), Numbers.PrintDecimal(cmdNum), Numbers.PrintDecimal(flags);
    var tail := b + [SPACE] + c;
    assert Marker([], ts, cmdNum, flags) == a + [SPACE] + tail;
    FieldsStep(a, tail);
    FieldsStep(b, c);
    FieldsLast(c);
  }

  /** A rendered marker is valid UTF-8, starts with its verb, and parses back. */
  lemma MarkerParses(verb: seq<byte>, ts: nat, cmdNum: nat, flags: nat)
    requires cmdNum < Numbers.U32_LIMIT && flags < Numbers.U32_LIMIT && IsAscii(verb)
    ensures var line := Marker(verb, ts, cmdNum, flags);
      && ValidUtf8(line) && verb <= line
      && ParseBlockHeader(line[|verb|..]) == Some((cmdNum, flags))
  {
    var line := Marker(verb, ts, cmdNum, flags);
    AsciiIsValid(line);
    assert line[|verb|..] == Marker([], ts, cmdNum, flags);
    MarkerHeader(ts, cmdNum, flags);
  }

  /** A closer for a block closes that block and no other: for any other number it is
      content, like every other line that starts with `%`. */
  lemma CloserClosesOnlyItsOwn(ts: nat, closer: nat, closerFlags: nat, cmdNum: nat, flags: nat)
    requires closer < Numbers.U32_LIMIT && closerFlags < Numbers.U32_LIMIT
    ensures var line := Marker(END, ts, closer, closerFlags);
      Feed(InsideBlock(cmdNum, flags), line)
        == if closer == cmdNum then (Outside, Some(EndBlock(cmdNum, flags)))
           else (InsideBlock(cmdNum, flags), Some(BlockLine(cmdNum, line)))
    ensures var line := Marker(ERROR, ts, closer, closerFlags);
      Feed(InsideBlock(cmdNum, flags), line)
        == if closer == cmdNum then (Outside, Some(ErrorBlock(cmdNum, flags)))
           else (InsideBlock(cmdNum, flags), Some(BlockLine(cmdNum, line)))
  {
    hide Marker, ValidUtf8, ParseBlockHeader, Ascii;
    MarkerParses(END, ts, closer, closerFlags);
    MarkerParses(ERROR, ts, closer, closerFlags);
    VerbsDiffer(Marker(ERROR, ts, closer, closerFlags));
  }

  lemma VerbsDiffer(line: Line)
    ensures ERROR <= line ==> !(END <= line)
  {
    assert END[2] == 0x6E && ERROR[2] == 0x72;
  }

  /** A transcript is made of notifications, blocks, and any other lines outside a block. */
  datatype Item =
    | Notification(event: ControlEvent)
    | Notice(line: Line)
    | Block(ts: nat, cmdNum: nat, flags: nat, body: seq<Line>, ok: bool, closeTs: nat, closeFlags: nat)

  predicate WellFormed(item: Item) {
    match item
    case Notification(event) => IsNotice(event)
    case Notice(line) => FeedOutside(line).0.Outside?
    case Block(_, cmdNum, flags, body, _, _, closeFlags) =>
      && cmdNum < Numbers.U32_LIMIT && flags < Numbers.U32_LIMIT && closeFlags < Numbers.U32_LIMIT
      && forall i :: 0 <= i < |body| ==> IsContent(body[i], cmdNum)
  }

  predicate IsContent(line: Line, cmdNum: nat) {
    !Closes(line, END, cmdNum) && !Closes(line, ERROR, cmdNum)
  }

  function RenderItem(item: Item): seq<Line> {
    match item
    case Notification(event) => [NoticeLine(event)]
    case Notice(line) => [line]
    case Block(ts, cmdNum, flags, body, ok, closeTs, closeFlags) =>
      var close := if ok then Ascii("%end ") else Ascii("%error ");
      [Marker(Ascii("%begin "), ts, cmdNum, flags)] + body + [Marker(close, closeTs, cmdNum, closeFlags)]
  }

  function Render(items: seq<Item>): seq<Line> {
    if items == [] then [] else RenderItem(items[0]) + Render(items[1..])
  }

  function ContentEvents(cmdNum: nat, body: seq<Line>): seq<ControlEvent> {
    if body == [] then [] else [BlockLine(cmdNum, body[0])] + ContentEvents(cmdNum, body[1..])
  }

  function ItemEvents(item: Item): seq<ControlEvent> {
    match item
    case Notification(event) => [event]
    case Notice(line) => Listed(FeedOutside(line).1)
    case Block(_, cmdNum, flags, body, ok, _, _) =>
      [BeginBlock(cmdNum, flags)] + ContentEvents(cmdNum, body)
        + [if ok then EndBlock(cmdNum, flags) else ErrorBlock(cmdNum, flags)]
  }

  function Events(items: seq<Item>): seq<ControlEvent> {
    if items == [] then [] else ItemEvents(items[0]) + Events(items[1..])
  }

  function Listed(event: Option<ControlEvent>): seq<ControlEvent> {
    if event.Some? then [event.value] else []
  }

  /** Feed every line in turn. */
  function FeedAll(state: State, lines: seq<Line>): (State, seq<ControlEvent>)
    decreases |lines|
  {
    if lines == [] then (state, [])
    else
      var (next, event) := Feed(state, lines[0]);
      var (last, events) := FeedAll(next, lines[1..]);
      (last, Listed(event) + events)
  }

  lemma {:induction false} FeedAllConcat(state: State, a: seq<Line>, b: seq<Line>)
    ensures FeedAll(state, a + b)
         == (FeedAll(FeedAll(state, a).0, b).0, FeedAll(state, a).1 + FeedAll(FeedAll(state, a).0, b).1)
    decreases |a|
  {
    if a == [] {
      assert a + b == b;
      assert [] + FeedAll(state, b).1 == FeedAll(state, b).1;
    } else {
      assert (a + b)[1..] == a[1..] + b;
      var (next, event) := Feed(state, a[0]);
      FeedAllConcat(next, a[1..], b);
      var (mid, first) := FeedAll(next, a[1..]);
      var (last, second) := FeedAll(mid, b);
      assert Listed(event) + (first + second) == (Listed(event) + first) + second;
    }
  }

  lemma {:induction false} FeedBody(cmdNum: nat, flags: nat, body: seq<Line>)
    requires forall i :: 0 <= i < |body| ==> IsContent(body[i], cmdNum)
    ensures FeedAll(InsideBlock(cmdNum, flags), body) == (InsideBlock(cmdNum, flags), ContentEvents(cmdNum, body))
    decreases |body|
  {
    if body != [] {
      assert IsContent(body[0], cmdNum);
      FeedBody(cmdNum, flags, body[1..]);
    }
  }

  lemma FeedSingle(state: State, line: Line)
    ensures FeedAll(state, [line]) == (Feed(state, line).0, Listed(Feed(state, line).1))
  {
    assert [line][1..] == [];
    var (next, event) := Feed(state, line);
    assert FeedAll(next, []) == (next, []);
    assert Listed(event) + [] == Listed(event);
  }

  lemma BeginFeeds(ts: nat, cmdNum: nat, flags: nat)
    requires cmdNum < Numbers.U32_LIMIT && flags < Numbers.U32_LIMIT
    ensures Feed(Outside, Marker(BEGIN, ts, cmdNum, flags))
         == (InsideBlock(cmdNum, flags), Some(BeginBlock(cmdNum, flags)))
  {
    MarkerParses(BEGIN, ts, cmdNum, flags);
    var line := Marker(BEGIN, ts, cmdNum, flags);
    assert line[1] == BEGIN[1] == 0x62 && OUTPUT[1] == 0x6F;
  }

  lemma FeedItem(item: Item)
    requires WellFormed(item)
    ensures FeedAll(Outside, RenderItem(item)) == (Outside, ItemEvents(item))
  {
    match item
    case Notification(event) =>
      NoticeRoundTrip(event);
      FeedSingle(Outside, NoticeLine(event));
    case Notice(line) =>
      FeedSingle(Outside, line);
    case Block(ts, cmdNum, flags, body, ok, closeTs, closeFlags) =>
      var first := Marker(BEGIN, ts, cmdNum, flags);
      var last := Marker(if ok then END else ERROR, closeTs, cmdNum, closeFlags);
      var inside := InsideBlock(cmdNum, flags);
      BeginFeeds(ts, cmdNum, flags);
      FeedSingle(Outside, first);
      FeedBody(cmdNum, flags, body);
      CloserClosesOnlyItsOwn(closeTs, cmdNum, closeFlags, cmdNum, flags);
      FeedSingle(inside, last);
      FeedAllConcat(Outside, [first], body);
      FeedAllConcat(Outside, [first] + body, [last]);
  }

  /** Block framing round trip: whatever mix of notifications and blocks is rendered, the
      classifier returns exactly its events and ends outside a block. */
  lemma {:induction false} FramingRoundTrip(items: seq<Item>)
    requires forall i :: 0 <= i < |items| ==> WellFormed(items[i])
    ensures FeedAll(Outside, Render(items)) == (Outside, Events(items))
    decreases |items|
  {
    if items != [] {
      assert WellFormed(items[0]);
      FeedItem(items[0]);
      FramingRoundTrip(items[1..]);
      FeedAllConcat(Outside, RenderItem(items[0]), Render(items[1..]));
    }
  }
}
