/** The control-mode driver as a step system (src/tmux/control_mode.rs).

    Three tasks share a command channel, a registration channel, a deque of reply slots and
    an event channel. A step is what one task does between two points where another task
    can run; every interleaving of the tasks, the callers, the event consumer and tmux is a
    sequence of labels. Reply slots are numbered in the order the command channel accepted
    their commands. */
module Protocol {
  import opened Bytes
  import opened Parser
  import Text

  const COMMAND_CAPACITY: nat := 64
  const REGISTRATION_CAPACITY: nat := 64
  const EVENT_CAPACITY: nat := 1024

  type Slot = nat

  datatype BlockResult = Ok(data: seq<byte>) | Err(text: seq<byte>)

  /** What became of a one-shot reply slot: its sender was used and the caller was there, or
      was used when the caller had gone (the send fails and the error is dropped), or was
      dropped unused. */
  datatype Resolution = Sent(result: BlockResult) | Refused(result: BlockResult) | Dropped

  const MID_BLOCK: seq<byte> := Ascii("control-mode reader exited mid-block")
  const READER_EXITED: seq<byte> := Ascii("control-mode reader exited")
  const SUPERVISOR_EXITED: seq<byte> := Ascii("control-mode supervisor exited")

  // ---- Replies as tmux writes them ----

  /** A complete flags=1 block: how it closed, and its content lines. */
  datatype Reply = Reply(ok: bool, lines: seq<Line>)

  /** Each line followed by a newline. */
  function Content(lines: seq<Line>): seq<byte> {
    if lines == [] then [] else Content(lines[..|lines| - 1]) + lines[|lines| - 1] + [LF]
  }

  function ErrorText(buf: seq<byte>): seq<byte> { Text.Trim(Text.Lossy(buf)) }

  /** The error a caller sees is the block's text without the white space around it. */
  lemma ErrorTextMeaning(before: seq<nat>, text: seq<nat>, after: seq<nat>)
    requires Text.AllScalar(before) && Text.AllScalar(text) && Text.AllScalar(after)
    requires Text.AllWhite(before) && Text.AllWhite(after) && Text.IsTrimmed(text)
    ensures ErrorText(Text.Encode(before) + Text.Encode(text) + Text.Encode(after)) == Text.Encode(text)
  {
    hide Text.Lossy, Text.Trim, Text.Encode, Text.IsWhite;
    var all := before + text + after;
    Text.EncodeConcat(before, text);
    Text.EncodeConcat(before + text, after);
    Text.LossyMeaning(all, []);
    Text.LossyNothing();
    assert Text.Encode(all) + [] == Text.Encode(all);
    Text.TrimMeaning(before, text, after);
  }

  function ResultOf(r: Reply): BlockResult {
    if r.ok then Ok(Content(r.lines)) else Err(ErrorText(Content(r.lines)))
  }

  /** What a sequence of lines holds when read as the protocol: the classifier state at its
      end, the content of the flags=1 block still open, and the finished flags=1 blocks. */
  datatype View = View(clf: Parser.State, open: seq<Line>, replies: seq<Reply>)

  predicate InOwnBlock(clf: Parser.State) { clf.InsideBlock? && clf.flags == 1 }

  function ObserveEvent(v: View, next: Parser.State, event: Option<ControlEvent>): View {
    match event
    case Some(BeginBlock(_, flags)) => View(next, [], v.replies)
    case Some(BlockLine(_, content)) =>
      View(next, if InOwnBlock(v.clf) then v.open + [content] else v.open, v.replies)
    case Some(EndBlock(_, flags)) =>
      View(next, [], if flags == 1 then v.replies + [Reply(true, v.open)] else v.replies)
    case Some(ErrorBlock(_, flags)) =>
      View(next, [], if flags == 1 then v.replies + [Reply(false, v.open)] else v.replies)
    case _ => v.(clf := next)
  }

  function Observe(v: View, line: Line): View {
    var (next, event) := Feed(v.clf, line);
    ObserveEvent(v, next, event)
  }

  function ViewOf(lines: seq<Line>): View {
    if lines == [] then View(Outside, [], [])
    else Observe(ViewOf(lines[..|lines| - 1]), lines[|lines| - 1])
  }

  /** Number of flags=1 blocks begun. */
  function Begun(v: View): nat { |v.replies| + if InOwnBlock(v.clf) then 1 else 0 }

  predicate BeginsOwn(event: Option<ControlEvent>) {
    event.Some? && event.value.BeginBlock? && event.value.flags == 1
  }

  lemma ObserveGrows(v: View, line: Line)
    ensures v.replies <= Observe(v, line).replies
    ensures Begun(Observe(v, line)) == Begun(v) + if BeginsOwn(Feed(v.clf, line).1) then 1 else 0
  {
    hide Feed;
    EventMatchesState(v.clf, line);
  }

  lemma ViewOfNext(lines: seq<Line>, i: nat)
    requires i < |lines|
    ensures ViewOf(lines[..i + 1]) == Observe(ViewOf(lines[..i]), lines[i])
  {
    assert lines[..i + 1][..i] == lines[..i];
  }

  lemma {:induction false} ViewOfGrows(lines: seq<Line>, i: nat)
    requires i <= |lines|
    ensures ViewOf(lines[..i]).replies <= ViewOf(lines).replies
    ensures Begun(ViewOf(lines[..i])) <= Begun(ViewOf(lines))
    decreases |lines| - i
  {
    if i < |lines| {
      ViewOfNext(lines, i);
      ObserveGrows(ViewOf(lines[..i]), lines[i]);
      ViewOfGrows(lines, i + 1);
    } else {
      assert lines[..i] == lines;
    }
  }

  // ---- What the reader does with one line ----

  datatype InFlight = InFlight(slot: Slot, buf: seq<byte>)

  datatype Core = Core(clf: Parser.State, inFlight: Option<InFlight>, autoBuf: seq<byte>,
                       deque: seq<Slot>, regQ: seq<Slot>)

  /** What is left to do after the line: answer a slot, wait for the deque's lock to claim a
      slot for the flags=1 block that has begun, or hand an event to the channel. `Offer` gives
      up the connection when the channel fails, `Notify` does not look, `Finish` leaves the
      loop afterwards. */
  datatype Effect =
    | Quiet
    | Answer(slot: Slot, result: BlockResult)
    | AwaitLock
    | Offer(event: ControlEvent)
    | Notify(event: ControlEvent)
    | Finish(event: ControlEvent)

  function OnEvent(c: Core, event: Option<ControlEvent>): (Core, Effect) {
    match event
    case Some(BeginBlock(_, flags)) => if flags == 1 then (c, AwaitLock) else (c.(autoBuf := []), Quiet)
    case Some(BlockLine(_, line)) =>
      if c.inFlight.Some? then
        var f := c.inFlight.value;
        (c.(inFlight := Some(f.(buf := f.buf + line + [LF]))), Quiet)
      else (c.(autoBuf := c.autoBuf + line + [LF]), Quiet)
    case Some(EndBlock(_, flags)) =>
      if flags != 1 then (c.(autoBuf := []), Quiet)
      else if c.inFlight.None? then (c, Quiet)
      else (c.(inFlight := None), Answer(c.inFlight.value.slot, Ok(c.inFlight.value.buf)))
    case Some(ErrorBlock(_, flags)) =>
      if flags != 1 then (c.(autoBuf := []), Quiet)
      else if c.inFlight.None? then (c, Quiet)
      else (c.(inFlight := None), Answer(c.inFlight.value.slot, Err(ErrorText(c.inFlight.value.buf))))
    case Some(Output(_, _)) => (c, Offer(event.value))
    case Some(Exit(_)) => (c, Finish(Exit(None)))
    case Some(ev) => (c, Notify(ev))
    case None => (c, Quiet)
  }

  function OnLine(c: Core, line: Line): (Core, Effect) {
    var (next, event) := Feed(c.clf, line);
    OnEvent(c.(clf := next), event)
  }

  /** Under the lock: merge the registrations that have arrived and take the first slot, if
      any is pending. */
  function Claim(c: Core): Core {
    var q := c.deque + c.regQ;
    if q == [] then c.(deque := [], regQ := [])
    else c.(deque := q[1..], regQ := [], inFlight := Some(InFlight(q[0], [])))
  }

  // ---- The whole system ----

  datatype Command = Command(line: Line, slot: Slot)

  datatype Writer = Idle | Registering(cmd: Command) | Writing(cmd: Command) | Flushing | Stopped

  /** `Reading`, `Claiming`, `Offering` and `Notifying` are inside the reader's loop; `Claiming`
      waits for the deque's lock and does not look at the token. The rest is its exit: fail the
      reply in flight, wait for the lock, drain under it, drop the receiver. */
  datatype Reader =
    | Reading
    | Claiming
    | Offering(event: ControlEvent)
    | Notifying(event: ControlEvent, lastly: bool)
    | Leaving
    | Locking
    | Draining
    | Drained
    | Closed

  /** `Reporting` still holds the deque's lock: the guard lives to the end of the task, across
      the send of the exit event and the cancellation. */
  datatype Supervisor = Watching | Reporting | Done

  /** The supervisor's drain: how many flags=1 blocks the reader had claimed slots for, and how
      many slots it failed. */
  datatype Drain = Drain(at: nat, count: nat)

  /** The supervisor's exit event: where in the channel's stream it is, and its code. */
  datatype Exited = Exited(at: nat, code: Option<int>)

  /** Nothing in the history is read by a task. `pairs[b]` is the slot the reader gave the
      b-th flags=1 block to, `None` when no caller was pending; `received` is what the consumer
      has taken, and `exited` the exit the supervisor put in the channel's stream. */
  datatype History = History(
    issued: seq<Line>,
    registered: nat,
    taken: nat,
    read: nat,
    pairs: seq<Option<Slot>>,
    drain: Option<Drain>,
    forwardable: seq<ControlEvent>,
    put: seq<ControlEvent>,
    received: seq<ControlEvent>,
    exited: Option<Exited>)

  datatype System = System(
    cmdQ: seq<Command>,
    writer: Writer,
    pty: seq<Line>,
    emitted: seq<Line>,
    reader: Reader,
    core: Core,
    supervisor: Supervisor,
    cancelled: bool,
    eventQ: seq<ControlEvent>,
    listening: bool,
    answers: map<Slot, seq<Resolution>>,
    gone: set<Slot>,
    h: History)

  function Init(): System {
    System([], Idle, [], [], Reading, Core(Outside, None, [], [], []), Watching, false, [], true, map[], {},
          History([], 0, 0, 0, [], None, [], [], [], None))
  }

  datatype Label =
    | CallerSend(line: Line)
    | CallerGone(slot: Slot)
    | Cancel
    | WriterReceive
    | WriterRegister
    | WriterRefused
    | WriterWrite(ok: bool)
    | WriterFlush(ok: bool)
    | WriterStop
    | TmuxEmit(line: Line)
    | ReaderLine
    | ReaderClaim
    | ReaderStop
    | OfferSent
    | OfferFailed
    | NotifySent
    | NotifyLost
    | FailInFlight
    | ReaderLock
    | DrainOne
    | DrainAll
    | ReaderClose
    | SupervisorDrain
    | SupervisorReport(code: Option<int>)
    | ConsumerTake
    | ConsumerClose

  predicate HasRoom(s: System) { s.listening && |s.eventQ| < EVENT_CAPACITY }

  predicate Enabled(s: System, l: Label) {
    match l
    // The command channel takes a command while the writer lives and there is room.
    case CallerSend(_) => !s.writer.Stopped? && |s.cmdQ| < COMMAND_CAPACITY
    // A caller stops waiting for a reply it has not got.
    case CallerGone(slot) => slot < |s.h.issued| && slot !in s.gone && slot !in s.answers
    case Cancel => true
    // The writer looks at the token first, so it receives nothing once cancelled.
    case WriterReceive => s.writer.Idle? && !s.cancelled && s.cmdQ != []
    case WriterRegister => s.writer.Registering? && !s.reader.Closed? && |s.core.regQ| < REGISTRATION_CAPACITY
    case WriterRefused => s.writer.Registering? && s.reader.Closed?
    case WriterWrite(_) => s.writer.Writing?
    case WriterFlush(_) => s.writer.Flushing?
    // Cancelled, or every handle to the command channel is gone.
    case WriterStop => s.writer.Idle?
    // tmux begins at most one flags=1 block for each command line it was sent.
    case TmuxEmit(line) => Begun(ViewOf(s.emitted + [line])) <= |s.pty|
    case ReaderLine => s.reader.Reading? && !s.cancelled && s.h.read < |s.emitted|
    case ReaderClaim => s.reader.Claiming? && !s.supervisor.Reporting?
    // Cancelled, end of file, or a read error.
    case ReaderStop => s.reader.Reading?
    case OfferSent => s.reader.Offering? && HasRoom(s)
    // The channel is closed, or was still full at the last attempt.
    case OfferFailed => s.reader.Offering? && !HasRoom(s)
    case NotifySent => s.reader.Notifying? && HasRoom(s)
    case NotifyLost => s.reader.Notifying? && !s.listening
    case FailInFlight => s.reader.Leaving?
    case ReaderLock => s.reader.Locking? && !s.supervisor.Reporting?
    case DrainOne => s.reader.Draining? && s.core.regQ != []
    case DrainAll => s.reader.Draining? && s.core.regQ == []
    case ReaderClose => s.reader.Drained?
    // Cancelled or the child exited; needs the deque's lock.
    case SupervisorDrain => s.supervisor.Watching? && !s.reader.Draining?
    case SupervisorReport(_) => s.supervisor.Reporting? && (HasRoom(s) || !s.listening)
    case ConsumerTake => s.eventQ != []
    case ConsumerClose => s.listening
  }

  /** Sending on a slot whose caller has gone fails. */
  function Arrives(gone: set<Slot>, slot: Slot, r: Resolution): Resolution {
    if r.Sent? && slot in gone then Refused(r.result) else r
  }

  function Resolve(answers: map<Slot, seq<Resolution>>, gone: set<Slot>, slot: Slot, r: Resolution)
    : map<Slot, seq<Resolution>>
  {
    answers[slot := (if slot in answers then answers[slot] else []) + [Arrives(gone, slot, r)]]
  }

  function ResolveAll(answers: map<Slot, seq<Resolution>>, gone: set<Slot>, slots: seq<Slot>, r: Resolution)
    : map<Slot, seq<Resolution>>
    decreases |slots|
  {
    if slots == [] then answers else ResolveAll(Resolve(answers, gone, slots[0], r), gone, slots[1..], r)
  }

  function SlotsOf(cmds: seq<Command>): seq<Slot> {
    seq(|cmds|, i requires 0 <= i < |cmds| => cmds[i].slot)
  }

  /** The writer task returns: the command channel closes and what it held is dropped. */
  function StopWriter(s: System): System {
    s.(writer := Stopped, cmdQ := [], answers := ResolveAll(s.answers, s.gone, SlotsOf(s.cmdQ), Dropped))
  }

  function RegisterStep(s: System): System
    requires Enabled(s, WriterRegister)
  {
    s.(writer := Writing(s.writer.cmd),
       core := s.core.(regQ := s.core.regQ + [s.writer.cmd.slot]),
       h := s.h.(registered := s.h.registered + 1))
  }

  function ReaderLineStep(s: System): System
    requires Enabled(s, ReaderLine)
  {
    var (next, event) := Feed(s.core.clf, s.emitted[s.h.read]);
    ReaderEventStep(s, next, event)
  }

  function ReaderEventStep(s: System, next: Parser.State, event: Option<ControlEvent>): System {
    var (core, effect) := OnEvent(s.core.(clf := next), event);
    AfterEffect(s, core, effect, s.h.(read := s.h.read + 1))
  }

  function AfterEffect(s: System, core: Core, effect: Effect, h: History): System {
    match effect
    case Answer(slot, result) => s.(core := core, h := h, answers := Resolve(s.answers, s.gone, slot, Sent(result)))
    case AwaitLock => s.(core := core, h := h, reader := Claiming)
    case Offer(ev) => s.(core := core, h := h.(forwardable := h.forwardable + [ev]), reader := Offering(ev))
    case Notify(ev) => s.(core := core, h := h.(forwardable := h.forwardable + [ev]), reader := Notifying(ev, false))
    case Finish(ev) => s.(core := core, h := h.(forwardable := h.forwardable + [ev]), reader := Notifying(ev, true))
    case Quiet => s.(core := core, h := h)
  }

  /** The reader has got the lock for the block it has begun. */
  function ReaderClaimStep(s: System): System {
    var q := s.core.deque + s.core.regQ;
    s.(reader := Reading, core := Claim(s.core),
       h := s.h.(taken := s.h.taken + if q == [] then 0 else 1,
                 pairs := s.h.pairs + [if q == [] then None else Some(q[0])]))
  }

  /** The reader puts its event on the channel. */
  function PutStep(s: System, event: ControlEvent, next: Reader): System {
    s.(eventQ := s.eventQ + [event], reader := next, h := s.h.(put := s.h.put + [event]))
  }

  function AfterNotify(s: System): Reader
    requires s.reader.Notifying?
  {
    if s.reader.lastly then Leaving else Reading
  }

  function FailInFlightStep(s: System): System {
    if s.core.inFlight.None? then s.(reader := Locking)
    else s.(reader := Locking, core := s.core.(inFlight := None),
            answers := Resolve(s.answers, s.gone, s.core.inFlight.value.slot, Sent(Err(MID_BLOCK))))
  }

  function DrainAllStep(s: System): System {
    s.(reader := Drained, core := s.core.(deque := []),
       answers := ResolveAll(s.answers, s.gone, s.core.deque, Sent(Err(READER_EXITED))),
       h := s.h.(taken := s.h.taken + |s.core.deque|))
  }

  function ReaderCloseStep(s: System): System {
    s.(reader := Closed, core := s.core.(regQ := []),
       answers := ResolveAll(s.answers, s.gone, s.core.regQ, Dropped),
       h := s.h.(taken := s.h.taken + |s.core.regQ|))
  }

  function SupervisorDrainStep(s: System): System {
    s.(supervisor := Reporting, core := s.core.(deque := []),
       answers := ResolveAll(s.answers, s.gone, s.core.deque, Sent(Err(SUPERVISOR_EXITED))),
       h := s.h.(taken := s.h.taken + |s.core.deque|,
                 drain := Some(Drain(|s.h.pairs|, |s.core.deque|))))
  }

  /** The exit event goes on the channel unless the consumer has hung up. */
  function SupervisorReportStep(s: System, code: Option<int>): System {
    if HasRoom(s) then
      s.(supervisor := Done, cancelled := true, eventQ := s.eventQ + [Exit(code)],
         h := s.h.(exited := Some(Exited(|s.h.received| + |s.eventQ|, code))))
    else s.(supervisor := Done, cancelled := true)
  }

  function Step(s: System, l: Label): System
    requires Enabled(s, l)
  {
    match l
    case CallerSend(line) =>
      s.(cmdQ := s.cmdQ + [Command(line, |s.h.issued|)], h := s.h.(issued := s.h.issued + [line]))
    case CallerGone(slot) => s.(gone := s.gone + {slot})
    case Cancel => s.(cancelled := true)
    case WriterReceive => s.(writer := Registering(s.cmdQ[0]), cmdQ := s.cmdQ[1..])
    case WriterRegister => RegisterStep(s)
    case WriterRefused => StopWriter(s.(answers := Resolve(s.answers, s.gone, s.writer.cmd.slot, Dropped)))
    case WriterWrite(ok) => if ok then s.(writer := Flushing, pty := s.pty + [s.writer.cmd.line]) else StopWriter(s)
    case WriterFlush(ok) => if ok then s.(writer := Idle) else StopWriter(s)
    case WriterStop => StopWriter(s)
    case TmuxEmit(line) => s.(emitted := s.emitted + [line])
    case ReaderLine => ReaderLineStep(s)
    case ReaderClaim => ReaderClaimStep(s)
    case ReaderStop => s.(reader := Leaving)
    case OfferSent => PutStep(s, s.reader.event, Reading)
    case OfferFailed => s.(reader := Leaving)
    case NotifySent => PutStep(s, s.reader.event, AfterNotify(s))
    case NotifyLost => s.(reader := AfterNotify(s))
    case FailInFlight => FailInFlightStep(s)
    case ReaderLock => s.(reader := Draining)
    case DrainOne => s.(core := s.core.(deque := s.core.deque + [s.core.regQ[0]], regQ := s.core.regQ[1..]))
    case DrainAll => DrainAllStep(s)
    case ReaderClose => ReaderCloseStep(s)
    case SupervisorDrain => SupervisorDrainStep(s)
    case SupervisorReport(code) => SupervisorReportStep(s, code)
    case ConsumerTake => s.(eventQ := s.eventQ[1..], h := s.h.(received := s.h.received + [s.eventQ[0]]))
    case ConsumerClose => s.(listening := false, eventQ := [])
  }

  /** Run a whole interleaving; `None` when some label was not enabled in its turn. */
  function Exec(s: System, labels: seq<Label>): Option<System> {
    if labels == [] then Some(s)
    else
      var before := Exec(s, labels[..|labels| - 1]);
      var l := labels[|labels| - 1];
      if before.Some? && Enabled(before.value, l) then Some(Step(before.value, l)) else None
  }
}
