# A Dafny model of tmonks

tmonks serves tmux sessions to a browser. It drives `tmux -CC` over a pty, turns tmux's
control-mode lines into events and command replies, filters terminal bytes in both
directions, polls session status, and checks who may connect. This project models that core
and proves what each part promises.

Texts are byte sequences (`seq<byte>`), so UTF-8, white space, decimal, octal and hex are all
spelled out rather than assumed.

| file | what it models |
|---|---|
| `Bytes`, `Numbers`, `Text` | bytes, number texts with the source's integer limits, UTF-8, white space |
| `Escape`, `Parser`, `Wire` | `%output` payloads, the line classifier, and the whole path from pty bytes to events |
| `Protocol` | the control-mode driver as a labelled step system: callers, writer, reader, supervisor, tmux, event consumer |
| `ProtocolInvariant`, `ProtocolTheorems`, `ProtocolRuns` | its inductive invariant, what follows for every run, and concrete runs |
| `TaskLoops` | the tasks' own loops with their fields updated in place, proved against the step functions |
| `VtParser`, `VtPrinter` | a reference automaton for terminal bytes (ECMA-48) and the filters' printers |
| `Outbound`, `OutboundMeaning`, `Inbound` | the two filters and what their output means to the parser behind them |
| `PaneSession`, `PaneInput` | both halves of a focused-pane session |
| `Poller`, `Dashboard` | the status poller's loop and the dashboard's set of pollers |
| `Commands`, `Hosts` | tmux command lines under shell quoting, and the Host header check |

## How the driver is modelled

Reply slots are numbered in the order in which the command channel accepts their commands. A
step (`Protocol.Label`) is what one task does between two points at which another task can
run, so a sequence of labels is an interleaving and a theorem over all label sequences is a
theorem over all interleavings. Timeouts, cancellation, failed writes, a full or closed event
channel and an exiting child are steps that may happen at any time. tmux may write any lines
at all, subject to one promise: it never begins more flags=1 blocks than it has been sent
command lines (`TmuxEmit`). The invariant is a conjunction of parts, each over only the
fields it needs.

The deque's lock is part of the model. A supervisor that reports still holds it, and a reader
that has read the begin of a flags=1 block, or has left its loop, waits for it without looking
at the token.

The classes of `Parser`, `TaskLoops`, `Outbound`, `Inbound`, `PaneSession`, `PaneInput` and
`Dashboard` update their fields as the source does. Each method is proved against a function
of its old state, and the theorems are about those functions.

## Where the code does less than its comments say

- Replies are matched by order alone, and the supervisor's drain of the shared deque upsets
  the order. It does no harm only because the supervisor holds the deque's lock until after it
  has cancelled the token: no block that claims a slot after the drain is ever finished
  (`ProtocolTheorems.DrainEndsReplies`), so every reply given is the caller's own
  (`ProtocolTheorems.RepliesInOrder`). But a caller can be told that the reader exited in the
  middle of its block when the block was another command's (`ProtocolRuns.LateClaimFails`).
- A line outside a block that is not valid UTF-8 is dropped whole, so an `%output` chunk that
  ends in the middle of a character is lost (`Wire.SurvivesIffValid`).
- `\400` to `\777` in an `%output` payload wrap modulo 256 (`Escape.EscapeWraps`).
- `forward_or_coalesce` never merges events; it only tries again (`TaskLoops.ForwardOrCoalesce`).
- Apart from `%output`, the reader and the supervisor send events without a time limit, the
  supervisor with the deque's lock held. After cancellation the tasks can rest unfinished only
  there, on a full channel whose consumer neither reads nor hangs up
  (`ProtocolTheorems.ShutdownEnds`), and there is a run that does
  (`ProtocolRuns.ConsumerStall`).
- The inbound filter prints CSI intermediates before the parameters, so a sequence such as
  DECSCUSR with a parameter does not survive it (`Inbound.CsiArrivesIff`). It writes C1
  controls as raw bytes (`Inbound.C1Garbled`), forgets that intermediates were lost
  (`Inbound.OverflowForgotten`), and passes on the `ESC \` that ends a dropped OSC string
  (`Inbound.TerminatorIsPassed`).
- The inbound chunk limit is applied by the one-shot `filter` and not by the pane session,
  which feeds the parser itself (`Inbound.LimitDropsPaste`, `PaneInput.LongPasteIsTyped`).
- Before its main loop the pane session throws away every parked event. A parked pane change
  leaves it routing by the old pane (`PaneSession.ParkedEventsMatter`). A parked detachment or
  exit does not end it (`PaneSession.ParkedEndsMatter`): unless another such event follows, it
  goes on until the driver has dropped its end of the channel, and the browser gets neither a
  reason nor a close code (`PaneSession.ParkedEventsLost`).
- A first session list that names a session twice leaves a poller that the dashboard does not
  stop when the browser leaves; only the server's shutdown, whose token is every poller's
  parent, does (`Dashboard.DashboardTask.Run`). tmux itself never lists a session id twice, so
  it takes a faulty list.
- Number texts may carry a `+`, so `+127.1` is an address although `inet_aton` refuses it
  (`Hosts.SignIsAccepted`). A four-part address with an octal part is refused and an
  IPv4-mapped IPv6 address is not loopback (`Hosts.OctalQuadRefused`, `Hosts.V6Accepted`),
  contrary to the list above `parse_ip_with_legacy_forms`.

## Model

| member | source | states |
|---|---|---|
| `ProtocolTheorems.RunInv` | src/tmux/control_mode.rs:249-425 | the invariant holds after every interleaving of callers, writer, reader, supervisor, tmux and consumer |
| `ProtocolTheorems.RepliesInOrder` | src/tmux/control_mode.rs:262-271 | in every run the k-th finished flags=1 block answers the k-th command sent, whose line is the k-th on the pty: with its content, each line plus a newline, or with its trimmed error text; the caller has it unless it had gone, and then the send was refused |
| `ProtocolTheorems.NoFalseReplies` | src/tmux/control_mode.rs:411-424 | in every run nobody is told anything else: whatever a slot is answered with is the result of its own finished block, or that the reader exited mid-block, that the reader exited or that the supervisor exited, or nothing at all |
| `Protocol.ErrorTextMeaning` | src/tmux/control_mode.rs:375-379 | the error text is the block's text without the white space around it: all of that, at both ends, and nothing else |
| `ProtocolTheorems.NoUnclaimedBlock` | src/tmux/control_mode.rs:332-351 | before the supervisor's drain a reader that gets the lock for a block finds a slot in the deque or the registration channel, so the branch for no pending caller is unreachable |
| `ProtocolTheorems.ClaimAfterDrain` | src/tmux/control_mode.rs:332-351 | after the drain the reader gets the lock only once the token is cancelled and reads no further line; the branch is then taken iff no command was registered since the drain |
| `ProtocolTheorems.DrainEndsReplies` | src/tmux/control_mode.rs:513-520 | after the drain only blocks that had claimed their slots before it, each its own, can ever be finished; at most one more claims, gets the first slot the drain left, its own iff the drain failed none, and that slot is only ever failed as mid-block |
| `ProtocolRuns.LateClaimFails` | src/tmux/control_mode.rs:513-520 | a concrete run, for any three command lines, in which the second command's block claims the third caller's slot after the drain, and that caller is told that the reader exited mid-block |
| `ProtocolRuns.TranscriptAnswers` | src/tmux/control_mode.rs:331-382 | in every run in which tmux writes any transcript of notifications and blocks, the commands answered with blocks so far hold exactly the transcript's first flags=1 blocks, in order |
| `ProtocolTheorems.SlotsConserved` | src/tmux/control_mode.rs:249-281 | every slot ever sent is in exactly one of command channel, writer, registration channel, deque, in flight and answers, and there once |
| `ProtocolTheorems.AllResolvedAtEnd` | src/tmux/control_mode.rs:411-424 | once writer and reader have ended, in whatever order and with or without a drain, every slot is resolved exactly once |
| `ProtocolTheorems.TimeoutsInvisible` | src/tmux/control_mode.rs:121-142 | deleting every caller timeout from a run leaves a run to the same state, except that nobody has gone and every reply that was refused is received; so a timeout never shifts a later reply |
| `ProtocolTheorems.InFlightCoupled` | src/tmux/control_mode.rs:331-364 | a reply is in flight only inside a flags=1 block and holds exactly its content so far; no line can then start another block or add other bytes |
| `ProtocolTheorems.BackPressure` | src/tmux/control_mode.rs:201-203 | before the drain, while the writer waits on a full registration channel, the reader can empty it at once, or every sender in it has its command on the pty and its block not yet begun, so tmux still owes at least 64 blocks |
| `ProtocolTheorems.EventsArePrefix` | src/tmux/control_mode.rs:383-401 | the events put on the channel are a prefix, without loss or duplication, of the forwardable events of the lines consumed, and all of them while the consumer listens and the reader reads |
| `ProtocolTheorems.ConsumerReceives` | src/tmux/control_mode.rs:383-401 | the channel is first in, first out: what the consumer has taken and then what is still in the channel is, while it listens, exactly what the reader put there and at most one exit of the supervisor's, which carries the child's code; and what it has taken, but for that exit, is always a prefix of the forwardable events of the lines consumed |
| `ProtocolTheorems.NothingReadAfterExit` | src/tmux/control_mode.rs:391-394 | tmux's own `%exit` line is the last line the reader ever reads |
| `ProtocolTheorems.EndsIff` | src/tmux/control_mode.rs:249-281 | in every run the writer has stopped iff it was cancelled, its channel closed, or a write, flush or registration failed; the reader has left its loop iff it was told to, output could not be forwarded, or the last line read was `%exit`; and nothing else ends either |
| `ProtocolTheorems.QueuesBounded` | src/tmux/control_mode.rs:201-203 | the command, registration and event channels never hold more than 64, 64 and 1024 items |
| `ProtocolTheorems.ShutdownAdvances` | src/tmux/control_mode.rs:476-521 | after cancellation every step of a task lowers a rank |
| `ProtocolTheorems.ShutdownIsBounded` | src/tmux/control_mode.rs:476-521 | from a cancelled state the tasks take, over any run, at most as many steps as that rank, whatever callers, tmux and the consumer do meanwhile |
| `ProtocolTheorems.ShutdownEnds` | src/tmux/control_mode.rs:476-521 | after cancellation the tasks rest only when all have ended, with every slot resolved once, or when one waits for an event consumer that neither reads nor closes, with the reader possibly waiting for the lock behind it |
| `ProtocolRuns.ConsumerStall` | src/tmux/control_mode.rs:391-401 | a concrete run to a cancelled state where the 1024-slot event channel is full, no task can take a step, and reader and supervisor have not ended |
| `TaskLoops.WriterTask.WriterLoop` | src/tmux/control_mode.rs:249-281 | slots registered and lines written are the commands received, in order, up to the first failure; a slot is registered before its line is written |
| `TaskLoops.ReaderTask.HandleLine` | src/tmux/control_mode.rs:329-402 | the loop body, updating the task's fields, does exactly the step that the theorems are about, up to its next await |
| `TaskLoops.ReaderTask.ClaimSlot` | src/tmux/control_mode.rs:333-350 | with the lock, the first pending slot, of the deque and then of the channel, goes in flight with an empty buffer, if there is one |
| `TaskLoops.ReaderTask.ReceiveRegistrations` | src/tmux/control_mode.rs:333-337 | every registration that has arrived moves to the deque's end, in order |
| `TaskLoops.ReaderTask.Leave` | src/tmux/control_mode.rs:411-424 | on exit the reply in flight, then the deque, then the channel are failed, each slot once, and nothing is left |
| `TaskLoops.ReaderTask.FailAll` | src/tmux/control_mode.rs:513-517 | the whole deque is failed in order with the given reason |
| `TaskLoops.ForwardOrCoalesce` | src/tmux/control_mode.rs:438-468 | the event is sent once or not at all; which attempt decides is stated, and a failing forward on an open channel took exactly 33 tries and 32 waits |
| `Escape.Decode` | src/tmux/escape.rs:21-43 | the loop computes the decoding that the next lemmas are about |
| `Escape.DecodeInvertsEncode` | src/tmux/escape.rs:21-43 | decoding undoes every encoder that escapes the backslash and any other bytes |
| `Escape.DecodeInvertsIff` | src/tmux/escape.rs:21-43 | decoding undoes an encoder on all data iff the encoder escapes the backslash or all eight octal digits |
| `Escape.PlainEscapeIsLost` | src/tmux/escape.rs:24-39 | for any other encoder, four data bytes that come back as one |
| `Escape.EscapeWraps` | src/tmux/escape.rs:31-34 | an escape decodes to the number it spells iff its first digit is at most 3, and otherwise to what the escape 256 below decodes to |
| `Escape.DecodedLength` | src/tmux/escape.rs:21-43 | input length is output length plus three for every escape decoded |
| `Escape.DecodeSplits` | src/tmux/escape.rs:21-43 | decoding distributes over a cut exactly at token boundaries |
| `Parser.LineClassifier.FeedLine` | src/tmux/parser.rs:48-53 | one line moves the classifier's state and yields an event as the transition function says, in both states; the next lemmas say what that function means |
| `Parser.NoticeRoundTrip` | src/tmux/parser.rs:75-147 | every notification, written as tmux writes it, is read back as itself: each id and name in its own place |
| `Parser.WordNotice` | src/tmux/parser.rs:75-131 | an id ends at the first blank and the name or layout is all the rest; without a blank it is empty |
| `Parser.PaneNotice` | src/tmux/parser.rs:112-121 | `%window-pane-changed @w %p` makes `%p` the pane of `@w`; without a second id there is no event |
| `Parser.DetachedAndExit` | src/tmux/parser.rs:139-147 | exactly which lines say that the client has been detached and that tmux exits |
| `Parser.UnknownLines` | src/tmux/parser.rs:57-178 | a line with an unknown verb is surfaced with its first word, any other unknown line and any line that is not UTF-8 is dropped |
| `Parser.OutputNeedsPane` | src/tmux/parser.rs:207-218 | an `%output` line without a pane id and a blank is dropped |
| `Parser.OtherLinesAreContent` | src/tmux/parser.rs:180-204 | inside a block every line that starts with neither closer is content |
| `Parser.EventMatchesState` | src/tmux/parser.rs:57-204 | begins come only from outside a block, closes and content only from inside; a close carries the number and flags of its begin |
| `Parser.CloserClosesOnlyItsOwn` | src/tmux/parser.rs:180-204 | `%end` or `%error` closes a block iff it carries that block's number, and is content otherwise |
| `Parser.MarkerParses` | src/tmux/parser.rs:221-227 | a rendered block marker parses back to its number and flags |
| `Parser.FramingRoundTrip` | src/tmux/parser.rs:48-68 | rendering any mix of notifications, blocks whose content does not close them, and other lines outside a block, then classifying line by line, gives back exactly their events: for a notification the event it was written for |
| `Wire.StripLineEnd` | src/tmux/control_mode.rs:319-327 | what remains is the line, and the only one, that `buf` is when its longest line end (nothing, LF or CR LF) is taken off |
| `Wire.LastLine` | src/tmux/control_mode.rs:307-327 | what is left at the end of the stream without a line end is a line too |
| `Text.ValidMeaning` | src/tmux/parser.rs:57-62 | the valid texts are exactly the UTF-8 encodings of the sequences of scalar values |
| `Wire.WireRefinement` | src/tmux/control_mode.rs:307-329 | for any chunks and any escaping of at least backslash and LF, encode, write as `%output` lines, split, strip, classify and decode gives back exactly the chunks whose line is valid UTF-8, in order and unaltered |
| `Wire.TranscriptReadBack` | src/tmux/control_mode.rs:307-402 | from bytes to events: any mix of notifications and blocks written line by line with CR LF and read back from the byte stream gives exactly its events, notifications as what they were written for |
| `Wire.SurvivesIffValid` | src/tmux/parser.rs:57-62 | when nothing above 0x7F is escaped, a chunk's line survives iff the chunk's own bytes are valid UTF-8 |
| `Wire.AsciiPolicyLosesNothing` | src/tmux/parser.rs:57-62 | when every byte above 0x7F is escaped no chunk is lost |
| `VtPrinter.PrintParams` | src/vt_filter/outbound.rs:302-324 | the nested printing loops produce the parameter text that is read back below |
| `VtPrinter.ParamsRoundTrip` | src/vt_filter/outbound.rs:302-324 | printing then parsing CSI parameters is the identity on every non-empty list of non-empty groups, the single default printed as nothing included |
| `VtPrinter.ParamTextInjective` | src/vt_filter/outbound.rs:302-324 | no two parameter lists print the same |
| `VtPrinter.CsiTextReparses` | src/vt_filter/outbound.rs:302-324 | a printed CSI sequence with at most a private marker is read back as itself |
| `VtPrinter.OscReparses` | src/vt_filter/outbound.rs:326-337 | a printed OSC string is read back as the same fields, then its terminator |
| `VtPrinter.EscReparses` | src/vt_filter/outbound.rs:276-298 | a printed ESC sequence is read back as itself |
| `VtPrinter.TextReparses` | src/vt_filter/outbound.rs:106-110 | a printed character is read back as itself |
| `Outbound.CollectSurviving` | src/vt_filter/outbound.rs:196-225 | the modes kept from a mode switch, in order |
| `Outbound.OutboundFilter.Perform` | src/vt_filter/outbound.rs:105-299 | every callback appends to the buffer exactly what the policy writes for its action |
| `Outbound.OutboundStream.Feed` | src/vt_filter/outbound.rs:53-55 | a chunk moves the parser on and appends what its actions write |
| `OutboundMeaning.EmitMeaning` | src/vt_filter/outbound.rs:105-337 | what is written for one action is read back as exactly what an independently stated allowlist keeps of it |
| `OutboundMeaning.Tables` | src/vt_filter/outbound.rs:65-299 | the tables of modes, finals, escapes, character sets and OSC codes in the code are those of the independently stated allowlist |
| `OutboundMeaning.ModesTable` | src/vt_filter/outbound.rs:203-225 | the modes kept are, in order, the first numbers of the groups that are none of 1000, 1002 to 1006 and 1015 |
| `OutboundMeaning.FilterIsExact` | src/vt_filter/outbound.rs:24-32 | the parser behind the filter sees the admitted actions of the input, all of them, in order and nothing else, and ends outside every sequence |
| `OutboundMeaning.FilterIdempotent` | src/vt_filter/outbound.rs:24-32 | filtering twice equals filtering once, byte for byte |
| `OutboundMeaning.OutputAdmitted` | src/vt_filter/outbound.rs:112-298 | every action read from filtered output is admitted, apart from the terminators of OSC strings |
| `OutboundMeaning.OutputHarmless` | src/vt_filter/outbound.rs:65-73 | no clipboard write, unsafe link, mouse or focus mode, mouse report or control string reaches the browser, whatever the pane prints |
| `OutboundMeaning.ChunkIndependence` | src/vt_filter/outbound.rs:34-60 | for every cut of the input the pieces taken after each feed join up to the one-shot filter of the whole |
| `OutboundMeaning.FilterChunks` | src/vt_filter/outbound.rs:45-60 | the stream object does this |
| `Inbound.InboundFilter.Perform` | src/vt_filter/inbound.rs:78-157 | every callback appends exactly what is written for its action |
| `Inbound.CsiArrivesIff` | src/vt_filter/inbound.rs:116-146 | a CSI sequence passed on arrives as itself iff it has at most a private marker or default parameters |
| `Inbound.ArrivesIff` | src/vt_filter/inbound.rs:78-157 | any parser action is read back from the output as itself iff it is a printed character, a C0 control, an escape sequence whose intermediates all fitted, or a CSI sequence as above |
| `Inbound.C1Garbled` | src/vt_filter/inbound.rs:85-91 | U+009B is written as one raw byte and read as a bad character |
| `Inbound.OverflowForgotten` | src/vt_filter/inbound.rs:148-156 | an escape sequence with three intermediates arrives as a complete one with two |
| `Inbound.StreamMeaning` | src/vt_filter/inbound.rs:78-157 | what is read from the filter's output is, action by action and for input of any length, the action itself, its misreading (a C1 control as U+FFFD, an overflowed escape sequence as complete), or nothing |
| `Inbound.NoStringsGetThrough` | src/vt_filter/inbound.rs:93-114 | no OSC, DCS, SOS, PM or APC string gets through, whatever the browser sends and however much, and the output ends outside every sequence |
| `Inbound.TerminatorIsPassed` | src/vt_filter/inbound.rs:148-156 | a dropped OSC string ended by ST leaves its `ESC \` |
| `Inbound.LimitDropsPaste` | src/vt_filter/inbound.rs:33-54 | plain text above the chunk limit is dropped whole by the one-shot filter and passes unchanged through the parser that the pane session feeds |
| `PaneSession.CapScrollback` | src/ws_pane.rs:340-357 | oversized scrollback becomes exactly the limit: the marker and the newest bytes; the rest is untouched |
| `Text.TrimMeaning` | src/ws_pane.rs:377-384 | trimming takes off the white space at both ends of any text, all of it and nothing else |
| `Text.LossyMeaning` | src/tmux/control_mode.rs:375-379 | lossy decoding leaves well-formed text alone and makes one U+FFFD of a byte that no character starts with |
| `PaneSession.PaneIdMeaning` | src/ws_pane.rs:377-384 | for every reply that is text the pane is the reply without the white space around it, when that starts with `%`, and otherwise there is none |
| `PaneSession.PaneIdOfReply` | src/ws_pane.rs:377-384 | the reply tmux sends, an id and a newline, gives the id |
| `PaneSession.PaneAfterMeaning` | src/ws_pane.rs:295-300 | the active pane is the one that the last pane change named, or the first pane when there was no change |
| `PaneSession.FilterGrows` | src/vt_filter/outbound.rs:34-60 | more input only adds to the filter's output |
| `PaneSession.Session.HandleOutput` | src/ws_pane.rs:283-294 | other panes' output changes nothing; the active pane's goes through the parser state left by the chunks before it, and out as one frame tagged 0x02, or as none when nothing is left of it |
| `PaneSession.Session.HandleResponse` | src/ws_pane.rs:276-279 | a scrollback goes out as one frame tagged 0x13, a refusal as its reason |
| `PaneSession.Session.Turn` | src/ws_pane.rs:266-321 | which inputs end the loop and what the browser is told, what each contributes to the live stream, and that the shared pane follows the active one |
| `PaneSession.Session.Loop` | src/ws_pane.rs:266-321 | over any inputs the live payloads are a prefix of the streaming filter applied to the output of whichever pane was active at the time, across any pane changes, and equal to it while the loop runs |
| `PaneSession.Session.RunSession` | src/ws_pane.rs:86-327 | one seed frame, the filtered capture tagged 0x01, before everything else; or, when the connection, the pane or the capture fails, the reason for that and code 1011, and no binary frame at all; which pane the session starts with; and, while the browser listens, it ends iff some input ends it and says exactly the reasons and close codes of the inputs up to that one |
| `PaneSession.ParkedEventsMatter` | src/ws_pane.rs:147-152 | what the session routes, over all later input, is what it would have routed had it looked at the parked events iff they make no pane active or end on the one it asked for |
| `PaneSession.ParkedEndsMatter` | src/ws_pane.rs:147-152 | over all later input the session ends just when it would have had it looked at the parked events iff none of them is a detachment or an exit |
| `PaneSession.ParkedEventsLost` | src/ws_pane.rs:147-152 | a parked pane change and a parked exit are both lost: the really active pane's output is not shown, and the session goes on until the event channel is closed and then leaves without a reason or a close code |
| `PaneInput.InboundTask.Handle` | src/ws_pane.rs:179-258 | what each browser frame makes tmux be sent if the send gets through, and what the browser is told about a scrollback request: all of it, or the marker and its newest bytes, or why not |
| `PaneInput.FramesMean` | src/ws_pane.rs:201-258 | byte by byte, what a resize frame and a scrollback frame ask for; a resize frame of any other length asks for nothing |
| `PaneInput.InboundTask.RunTask` | src/ws_pane.rs:171-262 | tmux gets the lines of the frames before the first close, in order, less those whose send failed |
| `PaneInput.KeysArriveFiltered` | src/ws_pane.rs:184-200 | reading those lines as a shell does, the bytes typed, each with its pane, are those of the commands that got through, and when none is lost exactly the intended ones: each frame's keystrokes, filtered, in the pane active when the frame came |
| `PaneInput.IntendedIsFiltered` | src/ws_pane.rs:184-200 | panes apart, the intended bytes are the streaming inbound filter of all keystrokes, however cut into frames |
| `PaneInput.NoStringsTyped` | src/ws_pane.rs:184-200 | no control string is ever typed in any pane, whatever the browser sends, whichever lines are lost and however often the pane changes |
| `PaneInput.LongPasteIsTyped` | src/ws_pane.rs:184-200 | a paste above the one-shot filter's limit becomes one command, whole |
| `PaneInput.KeysTyped` | src/tmux/commands.rs:76-87 | a keystroke line types its own bytes in its own pane |
| `Poller.PollLoop` | src/status/poller.rs:85-133 | events attempted, memory and every sleep are those of a fold over the outcomes |
| `Poller.AttemptedAreCollapsedReports` | src/status/poller.rs:104-131 | attempted events are the history's statuses with repeats collapsed and each run of five or more failures as one error |
| `Poller.EventsAlternate` | src/status/poller.rs:104-131 | errors are never adjacent and adjacent status events differ |
| `Poller.MemoryMeaning` | src/status/poller.rs:117-129 | the error count is the length of the current failure run; backed off iff it is at least five, and then no status is remembered |
| `Poller.TotalSleepClosedForm` | src/status/poller.rs:34-42 | total sleep over k failures in closed form |
| `Poller.RunSleeps` | src/status/poller.rs:95-141 | in every failure run, at the start or after a success, the loop's sleeps never decrease, from 750 ms up to a minute, and those before its failing polls add up to that sum |
| `Dashboard.DashboardTask.SpawnInitial` | src/ws_dashboard.rs:75-77 | the first pollers cover the list, and none is lost track of iff no id repeats |
| `Dashboard.DashboardTask.RetainPresent` | src/ws_dashboard.rs:160-168 | pollers of vanished sessions are stopped and forgotten, the others keep their handles |
| `Dashboard.DashboardTask.Reconcile` | src/ws_dashboard.rs:151-176 | keys become the ids of the new list, surviving handles are unchanged, new handles are fresh, and every poller is in the map or stopped |
| `Dashboard.DashboardTask.SpawnMissing` | src/ws_dashboard.rs:169-175 | one poller is spawned for each new session, in the order of the list |
| `Dashboard.DashboardTask.Turn` | src/ws_dashboard.rs:83-128 | keys equal the ids of the last list at every loop head; the frame sent, if any, which pollers are spawned, and when the loop ends |
| `Dashboard.DashboardTask.Run` | src/ws_dashboard.rs:63-134 | while it runs, `lastSessions` is the last list that a tick found, or the first, and the pollers are those of its sessions; while the browser listens, it gets the first list, every list that differs from the one found before it, and every poller's report under that poller's own session, in order, and the loop ends only for shutdown or a close; every report names a session from an earlier list; and when the loop has ended every poller ever spawned is stopped iff the first list had distinct ids or shutdown ended the loop |
| `Commands.SendKeysHex` | src/tmux/commands.rs:76-87 | the loop builds the line that is read back below |
| `Commands.QuotingRoundTrip` | src/tmux/commands.rs:89-91 | the shell reads a quoted string as one word equal to the string |
| `Commands.DisplayMessageWords` | src/tmux/commands.rs:13-16 | the shell reads the format as one argument |
| `Commands.DisplayForPaneWords` | src/tmux/commands.rs:18-25 | with a pane, `-t` and the pane follow the format |
| `Commands.CapturePaneWords` | src/tmux/commands.rs:27-40 | `capture-pane` names its pane, and with `-S` the line to start from, or all of them |
| `Commands.DimsWords` | src/tmux/commands.rs:47-51 | `refresh-client -C` gets columns, `x`, rows |
| `Commands.ListSessionsWords` | src/tmux/commands.rs:58-61 | `list-sessions` carries its format as one argument |
| `Commands.SendKeysLiteralWords` | src/tmux/commands.rs:63-70 | so it does any literal text |
| `Commands.SendKeysHexWords` | src/tmux/commands.rs:76-87 | four words, then one hex word for each byte |
| `Commands.HexWordsParse` | src/tmux/commands.rs:76-87 | every hex word parses to its byte |
| `Commands.QuotingBuildersMakeOneLine` | src/tmux/commands.rs:13-70 | exactly one newline, at the end, when the arguments hold none |
| `Commands.PlainBuildersMakeOneLine` | src/tmux/commands.rs:29-87 | so do the other builders |
| `Hosts.CombineIsPositional` | src/auth.rs:265-286 | shifts and ors equal the sum by place value exactly when the parts are in range, and are refused otherwise |
| `Hosts.PartMeaning` | src/auth.rs:291-303 | for every text: the value of a part is that of `inet_aton`, except that a sign is skipped, and `inet_aton` refuses every signed part |
| `Hosts.SpellingsAgree` | src/auth.rs:291-303 | decimal, hexadecimal and octal numerals of equal value agree, with any leading zeros, letter case and `x` or `X`, up to the u32 limit |
| `Hosts.LegacyValue` | src/auth.rs:247-289 | any text of at most three parts without a colon is an address iff every part has a value and all are in range, and then the address by place value |
| `Hosts.LegacyIsInetAton` | src/auth.rs:247-289 | it is the address `inet_aton` reads iff no part is signed or the parts name no address here either |
| `Hosts.SignIsAccepted` | src/auth.rs:291-303 | `+127.1` is read as 127.0.0.1, which `inet_aton` refuses |
| `Hosts.HeaderSplits` | src/auth.rs:324-352 | a header is split into the host part and port that it was written with: bare, with a port, bracketed, or bracketed with a port; without a port it is 80 |
| `Hosts.EveryHeader` | src/auth.rs:324-352 | every header that can be split at all was written in one of these ways |
| `Hosts.MalformedRefused` | src/auth.rs:324-352 | no header, an unclosed bracket, or a bracket followed by a colon and no port is refused |
| `Hosts.PortMeaning` | src/auth.rs:324-352 | a port is a number below 65536 with one optional `+`, and holds no colon |
| `Hosts.TrimDotsMeaning` | src/auth.rs:210-214 | trailing dots are taken off, all of them and nothing else |
| `Hosts.LegacyHostAccepted` | src/auth.rs:210-245 | whatever trailing dots and port or brackets a header is written with, a host without a colon is accepted iff it is `localhost` in any letter case or names an address whose top octet is 127 |
| `Hosts.OctetMeaning` | src/auth.rs:247-289 | an octet is exactly the decimal text, as printed, of a number below 256 |
| `Hosts.FourParts` | src/auth.rs:247-289 | four parts are an address only as a canonical dotted quad, and then by place value |
| `Hosts.OctalQuadRefused` | src/auth.rs:283-285 | `0177.0.0.1` is refused |
| `Hosts.V6Accepted` | src/auth.rs:210-245 | written in any of the same ways and in any letter case, a host with a colon is accepted iff it is the IPv6 address ::1 |
| `Numbers.PrintParse` | src/tmux/parser.rs:221-227 | a printed number parses back, or overflows exactly at the limit |
| `Numbers.ParseMeaning` | src/auth.rs:291-303 | on any text, the number parser reads what follows one optional `+` as a numeral below the limit, and refuses all else |

## Left out

- Process and pty set-up, signals, sockets, HTTP routing and the browser client: their effects are inputs of the modelled loops.
- Wall-clock time: a timeout is a step that may happen at any time; only the poller's intervals and the bounds on retries are numbers.
- Dashboard.DashboardTask.Turn: a poller counts as stopped once its token is cancelled; the poll it may be in the middle of is not modelled.
- The supervisor's two-second wait and kill: its drain may happen at any moment while it watches.
- What tmux answers: any lines, as long as it begins no more flags=1 blocks than it was sent command lines.
- Protocol.Step: claiming a slot is one step once the lock is held, because no other task touches the deque then and a registration that arrives in between only joins the same queue.
- Protocol.Enabled: a failed forward of `%output` is one step that can happen whenever there is no room; that it follows 33 tries and 32 waits is `TaskLoops.ForwardOrCoalesce`.
- ProtocolTheorems.ShutdownEnds: a write to the pty is taken to return, with success or failure; the writer does not look at the token while it writes.
- VtParser.Run: the automaton has none of the limits of the vte crate on CSI parameters, OSC bytes and OSC fields, and does not distinguish the kinds of control strings it skips.
- Inbound.StreamMeaning: speaks of the filter without its chunk limit, as the pane session uses it.
- Poller.AttemptedAreCollapsedReports: speaks of attempted events; the channel may be full and lose one, and the poller does not look.
- PaneSession.Session.RunSession: close frames carry their code; the short reason text inside a close frame is not modelled.
- PaneInput.InboundTask.RunTask: which sends get through is an arbitrary function; that after one failure all later ones fail too is not used.
- PaneInput.KeysArriveFiltered: needs pane ids without blanks or quotes; ids from tmux are `%` and digits.
- Commands.QuotingRoundTrip: reads lines by section 2.2 of the POSIX Shell Command Language; expansions are not modelled because nothing outside single quotes asks for one.
- URL scheme parsing and IPv6 parsing are parameters of the filter and of the Host check.
- Status text matchers are an arbitrary function; session ids of poller events are the poller's own.
- Hosts.LegacyHostAccepted: `inet_aton` also ignores text after white space, which a Host header does not hold.
- Tokens, cookies, Origin comparison, version probing, CLI and templates.
