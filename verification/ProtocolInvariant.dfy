/** The inductive invariant of the control-mode step system. Each part speaks only of the
    fields it depends on, so a step keeps every part whose fields it leaves alone. */
module ProtocolInvariant {
  import opened Bytes
  import opened Parser
  import opened Protocol

  // ---- Queues: every queue holds the next slots in send order ----

  ghost predicate Consecutive(slots: seq<Slot>, first: Slot) {
    forall i :: 0 <= i < |slots| ==> slots[i] == first + i
  }

  ghost predicate CommandsFrom(cmds: seq<Command>, issued: seq<Line>, first: Slot) {
    && first + |cmds| == |issued|
    && forall i :: 0 <= i < |cmds| ==> cmds[i] == Command(issued[first + i], first + i)
  }

  /** The lines on the pty are the first ones sent, in send order, each written after its
      own slot was registered. */
  ghost predicate WriterInv(writer: Writer, cmdQ: seq<Command>, pty: seq<Line>, issued: seq<Line>, registered: nat) {
    && registered <= |issued|
    && |cmdQ| <= COMMAND_CAPACITY
    && match writer
       case Registering(cmd) =>
         && pty == issued[..registered]
         && registered < |issued|
         && cmd == Command(issued[registered], registered)
         && CommandsFrom(cmdQ, issued, registered + 1)
       case Writing(cmd) =>
         && registered > 0
         && pty == issued[..registered - 1]
         && cmd == Command(issued[registered - 1], registered - 1)
         && CommandsFrom(cmdQ, issued, registered)
       case Stopped =>
         && cmdQ == []
         && |pty| <= registered <= |pty| + 1
         && pty == issued[..|pty|]
       case _ => pty == issued[..registered] && CommandsFrom(cmdQ, issued, registered)
  }

  ghost predicate QueueInv(deque: seq<Slot>, regQ: seq<Slot>, taken: nat, registered: nat) {
    && Consecutive(deque, taken)
    && Consecutive(regQ, taken + |deque|)
    && taken + |deque| + |regQ| == registered
    && |regQ| <= REGISTRATION_CAPACITY
  }

  // ---- Slots: resolved exactly once, or still somewhere ----

  /** The slot has left every queue and is not in flight. */
  ghost predicate Settled(k: Slot, inFlight: Option<Slot>, taken: nat, stopped: bool, registered: nat, sent: nat) {
    || (k < taken && inFlight != Some(k))
    || (stopped && registered <= k < sent)
  }

  ghost function FlightSlot(core: Core): Option<Slot> {
    if core.inFlight.Some? then Some(core.inFlight.value.slot) else None
  }

  ghost predicate AnswerInv(answers: map<Slot, seq<Resolution>>, inFlight: Option<Slot>, taken: nat,
                            stopped: bool, registered: nat, sent: nat)
  {
    && taken <= registered <= sent
    && (forall k: Slot :: k in answers <==> Settled(k, inFlight, taken, stopped, registered, sent))
    && (forall k: Slot :: k in answers ==> |answers[k]| == 1)
    && (inFlight.Some? ==> inFlight.value < taken)
  }

  ghost predicate ExitInv(reader: Reader, core: Core, supervisor: Supervisor, drain: Option<Drain>) {
    && (reader.Locking? || reader.Draining? || reader.Drained? || reader.Closed? ==> core.inFlight.None?)
    && (reader.Drained? || reader.Closed? ==> core.deque == [])
    && (reader.Closed? ==> core.regQ == [])
    && (drain.Some? <==> !supervisor.Watching?)
  }

  // ---- Pairing of blocks with slots ----

  ghost predicate InLoop(r: Reader) { r.Reading? || r.Claiming? || r.Offering? || r.Notifying? }

  /** Blocks that had claimed a slot by the supervisor's drain, or all of them before it. */
  ghost function OnTime(pairs: seq<Option<Slot>>, drain: Option<Drain>): nat {
    if drain.Some? then drain.value.at else |pairs|
  }

  /** The reader has claimed for one more block since. */
  ghost predicate Late(pairs: seq<Option<Slot>>, drain: Option<Drain>) {
    drain.Some? && |pairs| == drain.value.at + 1
  }

  /** How many slots have left the queues while the reader is in its loop. */
  ghost function TakenBy(pairs: seq<Option<Slot>>, drain: Option<Drain>): nat {
    if drain.None? then |pairs|
    else drain.value.at + drain.value.count + if Late(pairs, drain) && pairs[|pairs| - 1].Some? then 1 else 0
  }

  /** Before the drain the b-th block has the b-th slot. At most one block claims after it, and
      gets the first slot the drain left, if there is one. */
  ghost predicate PairInv(pairs: seq<Option<Slot>>, drain: Option<Drain>, taken: nat, inLoop: bool) {
    && OnTime(pairs, drain) <= |pairs|
    && (forall b: nat :: b < OnTime(pairs, drain) ==> pairs[b] == Some(b))
    && (drain.Some? ==> |pairs| == drain.value.at || Late(pairs, drain))
    && (Late(pairs, drain) && pairs[|pairs| - 1].Some? ==>
          pairs[|pairs| - 1].value == drain.value.at + drain.value.count)
    && (inLoop ==> taken == TakenBy(pairs, drain))
  }

  /** No block is finished after the drain that had not claimed its slot before it. The lock
      comes free only after cancellation, so a late claim is the last thing the reader does in
      its loop, and the slot it took is failed as mid-block. */
  ghost predicate LateInv(replies: nat, pairs: seq<Option<Slot>>, drain: Option<Drain>, inFlight: Option<Slot>,
                          answers: map<Slot, seq<Resolution>>, gone: set<Slot>, reader: Reader, cancelled: bool)
  {
    && (drain.Some? ==> replies <= drain.value.at)
    && (Late(pairs, drain) ==> cancelled && !reader.Claiming?)
    && (Late(pairs, drain) && pairs[|pairs| - 1].Some? ==>
          var k := pairs[|pairs| - 1].value;
          inFlight == Some(k) || (k in answers && answers[k] == [Arrives(gone, k, Sent(Err(MID_BLOCK)))]))
  }

  /** What the lines the reader has consumed hold. */
  ghost function Told(s: System): View
    requires s.h.read <= |s.emitted|
  {
    ViewOf(s.emitted[..s.h.read])
  }

  /** A reply is in flight only inside a flags=1 block, holds that block's content so far and
      belongs to the slot the block was paired with. A reader that waits for the lock has read
      the begin of a block that is not paired yet. */
  ghost predicate CouplingInv(told: View, core: Core, pairs: seq<Option<Slot>>, reader: Reader) {
    && core.clf == told.clf
    && |pairs| + (if reader.Claiming? then 1 else 0) == Begun(told)
    && (reader.Claiming? ==> InOwnBlock(core.clf) && core.inFlight.None? && told.open == [])
    && (core.inFlight.Some? ==>
          && InOwnBlock(core.clf)
          && pairs[|pairs| - 1] == Some(core.inFlight.value.slot)
          && core.inFlight.value.buf == Content(told.open))
    && (InLoop(reader) && !reader.Claiming? && InOwnBlock(core.clf) && core.inFlight.None? ==>
          pairs[|pairs| - 1].None?)
  }

  /** Every finished block answered the slot it was paired with, with its own content. */
  ghost predicate ReplyInv(replies: seq<Reply>, pairs: seq<Option<Slot>>, answers: map<Slot, seq<Resolution>>,
                           gone: set<Slot>)
  {
    && |replies| <= |pairs|
    && forall b :: 0 <= b < |replies| && pairs[b].Some? ==>
         && pairs[b].value in answers
         && answers[pairs[b].value] == [Arrives(gone, pairs[b].value, Sent(ResultOf(replies[b])))]
  }

  // ---- Events ----

  ghost predicate EventInv(put: seq<ControlEvent>, forwardable: seq<ControlEvent>, reader: Reader,
                           listening: bool, eventQ: seq<ControlEvent>)
  {
    && put <= forwardable
    && (listening && (reader.Reading? || reader.Claiming?) ==> put == forwardable)
    && (reader.Offering? || reader.Notifying? ==>
          && |forwardable| > 0
          && forwardable[|forwardable| - 1] == reader.event
          && put <= forwardable[..|forwardable| - 1]
          && (listening ==> put == forwardable[..|forwardable| - 1]))
    && |eventQ| <= EVENT_CAPACITY
    && (!listening ==> eventQ == [])
  }

  /** The answers that are no block's: a dropped slot, or one of three messages. */
  ghost predicate Failed(k: Slot, rs: seq<Resolution>, gone: set<Slot>) {
    || rs == [Dropped]
    || rs == [Arrives(gone, k, Sent(Err(MID_BLOCK)))]
    || rs == [Arrives(gone, k, Sent(Err(READER_EXITED)))]
    || rs == [Arrives(gone, k, Sent(Err(SUPERVISOR_EXITED)))]
  }

  /** Nobody is told anything but the result of their own finished block, or a failure. */
  ghost predicate HonestInv(replies: seq<Reply>, answers: map<Slot, seq<Resolution>>, gone: set<Slot>) {
    forall k: Slot :: k in answers ==>
      || Failed(k, answers[k], gone)
      || (k < |replies| && answers[k] == [Arrives(gone, k, Sent(ResultOf(replies[k])))])
  }

  /** A stream of events without the supervisor's one exit. */
  ghost function Without(events: seq<ControlEvent>, exited: Option<Exited>): seq<ControlEvent> {
    if exited.Some? && exited.value.at < |events| then
      events[..exited.value.at] + events[exited.value.at + 1..]
    else events
  }

  /** The channel is first in, first out: what the consumer has taken and then what is still
      in the channel is what the reader has put there, and the supervisor's exit. */
  ghost predicate ChannelInv(put: seq<ControlEvent>, received: seq<ControlEvent>, eventQ: seq<ControlEvent>,
                             exited: Option<Exited>, listening: bool, done: bool)
  {
    && (exited.Some? ==> done)
    && (listening ==>
          && Without(received + eventQ, exited) == put
          && (exited.Some? ==>
                && exited.value.at < |received + eventQ|
                && (received + eventQ)[exited.value.at] == Exit(exited.value.code)))
    && Without(received, exited) <= put
    && (exited.Some? && exited.value.at < |received| ==> received[exited.value.at] == Exit(exited.value.code))
  }

  ghost predicate Inv(s: System) {
    && s.h.read <= |s.emitted|
    && Begun(ViewOf(s.emitted)) <= |s.pty|
    && WriterInv(s.writer, s.cmdQ, s.pty, s.h.issued, s.h.registered)
    && QueueInv(s.core.deque, s.core.regQ, s.h.taken, s.h.registered)
    && AnswerInv(s.answers, FlightSlot(s.core), s.h.taken, s.writer.Stopped?, s.h.registered, |s.h.issued|)
    && ExitInv(s.reader, s.core, s.supervisor, s.h.drain)
    && PairInv(s.h.pairs, s.h.drain, s.h.taken, InLoop(s.reader))
    && LateInv(|Told(s).replies|, s.h.pairs, s.h.drain, FlightSlot(s.core), s.answers, s.gone, s.reader, s.cancelled)
    && (s.supervisor.Done? ==> s.cancelled)
    && CouplingInv(Told(s), s.core, s.h.pairs, s.reader)
    && ReplyInv(Told(s).replies, s.h.pairs, s.answers, s.gone)
    && HonestInv(Told(s).replies, s.answers, s.gone)
    && EventInv(s.h.put, s.h.forwardable, s.reader, s.listening, s.eventQ)
    && ChannelInv(s.h.put, s.h.received, s.eventQ, s.h.exited, s.listening, s.supervisor.Done?)
  }

  // ---- Small facts the step proofs use ----

  lemma ContentAppend(lines: seq<Line>, line: Line)
    ensures Content(lines + [line]) == Content(lines) + line + [LF]
  {
    assert (lines + [line])[..|lines|] == lines;
  }

  /** Failing a run of consecutive, unresolved slots resolves each of them once and touches
      nothing else. */
  lemma {:induction false} ResolveRun(answers: map<Slot, seq<Resolution>>, gone: set<Slot>, slots: seq<Slot>,
                                      first: Slot, r: Resolution)
    requires Consecutive(slots, first)
    requires forall k :: first <= k < first + |slots| ==> k !in answers
    ensures var a := ResolveAll(answers, gone, slots, r);
      && (forall k: Slot :: k in a <==> k in answers || first <= k < first + |slots|)
      && (forall k: Slot :: k in answers ==> a[k] == answers[k])
      && (forall k: Slot :: first <= k < first + |slots| ==> a[k] == [Arrives(gone, k, r)])
    decreases |slots|
  {
    if slots != [] {
      var one := Resolve(answers, gone, slots[0], r);
      assert slots[0] == first;
      assert Consecutive(slots[1..], first + 1) by {
        assert forall i :: 0 <= i < |slots[1..]| ==> slots[1..][i] == slots[i + 1];
      }
      ResolveRun(one, gone, slots[1..], first + 1, r);
    }
  }

  /** Failing the next registered slots keeps the account of answers. */
  lemma RunAnswered(s: System, slots: seq<Slot>, r: Resolution)
    requires var h := s.h;
      && AnswerInv(s.answers, FlightSlot(s.core), h.taken, s.writer.Stopped?, h.registered, |h.issued|)
      && Consecutive(slots, h.taken) && h.taken + |slots| <= h.registered
    ensures var h := s.h; var after := ResolveAll(s.answers, s.gone, slots, r);
      && AnswerInv(after, FlightSlot(s.core), h.taken + |slots|, s.writer.Stopped?, h.registered, |h.issued|)
      && (forall k: Slot :: k in s.answers ==> k in after && after[k] == s.answers[k])
      && (forall k: Slot :: k in after && k !in s.answers ==> after[k] == [Arrives(s.gone, k, r)])
  {
    ResolveRun(s.answers, s.gone, slots, s.h.taken, r);
  }

  /** So does resolving the slot in flight. */
  lemma InFlightAnswered(s: System, r: Resolution)
    requires s.core.inFlight.Some?
    requires AnswerInv(s.answers, FlightSlot(s.core), s.h.taken, s.writer.Stopped?, s.h.registered, |s.h.issued|)
    ensures var after := Resolve(s.answers, s.gone, s.core.inFlight.value.slot, r);
      && AnswerInv(after, None, s.h.taken, s.writer.Stopped?, s.h.registered, |s.h.issued|)
      && s.core.inFlight.value.slot in after
      && after[s.core.inFlight.value.slot] == [Arrives(s.gone, s.core.inFlight.value.slot, r)]
      && (forall k: Slot :: k in s.answers ==> k in after && after[k] == s.answers[k])
      && (forall k: Slot :: k in after && k !in s.answers ==> k == s.core.inFlight.value.slot)
  {
  }

  lemma PairsAfterDrain(pairs: seq<Option<Slot>>, taken: nat, count: nat, inLoop: bool)
    requires PairInv(pairs, None, taken, inLoop)
    ensures PairInv(pairs, Some(Drain(|pairs|, count)), taken + count, inLoop)
  {
  }

  /** Once the reader has left its loop the pairing no longer depends on what it takes. */
  lemma PairsOutside(pairs: seq<Option<Slot>>, drain: Option<Drain>, taken: nat, after: nat)
    requires PairInv(pairs, drain, taken, false)
    ensures PairInv(pairs, drain, after, false)
  {
  }

  /** The coupling looks at the classifier and the reply in flight only, and of the reader only
      whether it is in its loop and claiming. */
  lemma CouplingKept(told: View, core: Core, after: Core, pairs: seq<Option<Slot>>, reader: Reader, next: Reader)
    requires CouplingInv(told, core, pairs, reader)
    requires after.clf == core.clf && after.inFlight == core.inFlight
    requires reader.Claiming? == next.Claiming? && (InLoop(next) ==> InLoop(reader))
    ensures CouplingInv(told, after, pairs, next)
  {
  }

  /** Late claims keep their account when other slots are resolved, the token is cancelled, or
      the reader moves on without claiming. */
  lemma LateKept(replies: nat, pairs: seq<Option<Slot>>, drain: Option<Drain>, inFlight: Option<Slot>,
                 before: map<Slot, seq<Resolution>>, after: map<Slot, seq<Resolution>>, gone: set<Slot>,
                 reader: Reader, next: Reader, cancelled: bool, later: bool)
    requires LateInv(replies, pairs, drain, inFlight, before, gone, reader, cancelled)
    requires forall k: Slot :: k in before ==> k in after && after[k] == before[k]
    requires (next.Claiming? ==> reader.Claiming?) && (cancelled ==> later)
    ensures LateInv(replies, pairs, drain, inFlight, after, gone, next, later)
  {
  }

  /** Replies already given stay as they are when other slots are resolved. */
  lemma RepliesKept(replies: seq<Reply>, pairs: seq<Option<Slot>>, before: map<Slot, seq<Resolution>>,
                    after: map<Slot, seq<Resolution>>, gone: set<Slot>)
    requires ReplyInv(replies, pairs, before, gone)
    requires forall k: Slot :: k in before ==> k in after && after[k] == before[k]
    ensures ReplyInv(replies, pairs, after, gone)
  {
  }

  lemma HonestKept(replies: seq<Reply>, before: map<Slot, seq<Resolution>>, after: map<Slot, seq<Resolution>>,
                   gone: set<Slot>)
    requires HonestInv(replies, before, gone)
    requires forall k: Slot :: k in after ==> (k in before && after[k] == before[k]) || Failed(k, after[k], gone)
    ensures HonestInv(replies, after, gone)
  {
    hide Failed, ResultOf, Arrives;
  }

  // ---- The invariant holds at the start ----

  lemma InitInv()
    ensures Inv(Init())
  {
    assert Init().emitted[..0] == [];
  }

  // ---- Steps of callers, tmux, the consumer ----

  lemma SendStep(s: System, line: Line)
    requires Inv(s) && Enabled(s, CallerSend(line))
    ensures Inv(Step(s, CallerSend(line)))
  {
    hide ViewOf, Feed, Observe, WriterInv, QueueInv, AnswerInv, ExitInv;
    hide PairInv, LateInv, CouplingInv, ReplyInv, HonestInv, EventInv, ChannelInv;
    CommandSent(s.writer, s.cmdQ, s.pty, s.h.issued, s.h.registered, line);
    SlotSent(s.answers, FlightSlot(s.core), s.h.taken, s.h.registered, |s.h.issued|);
  }

  lemma CommandSent(writer: Writer, cmdQ: seq<Command>, pty: seq<Line>, issued: seq<Line>, registered: nat, line: Line)
    requires WriterInv(writer, cmdQ, pty, issued, registered) && !writer.Stopped? && |cmdQ| < COMMAND_CAPACITY
    ensures WriterInv(writer, cmdQ + [Command(line, |issued|)], pty, issued + [line], registered)
  {
    var after := issued + [line];
    assert after[..registered] == issued[..registered];
    if writer.Writing? {
      assert after[..registered - 1] == issued[..registered - 1];
    }
  }

  /** A new slot is not settled while the writer lives. */
  lemma SlotSent(answers: map<Slot, seq<Resolution>>, inFlight: Option<Slot>, taken: nat, registered: nat, sent: nat)
    requires AnswerInv(answers, inFlight, taken, false, registered, sent)
    ensures AnswerInv(answers, inFlight, taken, false, registered, sent + 1)
  {
  }

  /** A caller only leaves before its slot is resolved, so no resolution changes. */
  lemma GoneStep(s: System, slot: Slot)
    requires Inv(s) && Enabled(s, CallerGone(slot))
    ensures Inv(Step(s, CallerGone(slot)))
  {
    hide ViewOf, Feed, Observe, WriterInv, QueueInv, AnswerInv, ExitInv, PairInv, CouplingInv, EventInv;
    hide ResultOf, ChannelInv;
  }

  lemma OutsideSteps(s: System, l: Label)
    requires Inv(s) && Enabled(s, l)
    requires l.Cancel? || l.ConsumerTake? || l.ConsumerClose?
    ensures Inv(Step(s, l))
  {
    hide ViewOf, Feed, Observe, WriterInv, QueueInv, AnswerInv, ExitInv, PairInv, LateInv, CouplingInv, ReplyInv;
    hide HonestInv, ChannelInv;
    LateStep(s, s.answers, s.reader, Step(s, l).cancelled);
    ChannelOutside(s.h.put, s.h.received, s.eventQ, s.h.exited, s.listening, s.supervisor.Done?);
  }

  /** The consumer takes the oldest event, or hangs up. */
  lemma ChannelOutside(put: seq<ControlEvent>, received: seq<ControlEvent>, eventQ: seq<ControlEvent>,
                       exited: Option<Exited>, listening: bool, done: bool)
    requires ChannelInv(put, received, eventQ, exited, listening, done) && (!listening ==> eventQ == [])
    ensures eventQ != [] ==> ChannelInv(put, received + [eventQ[0]], eventQ[1..], exited, listening, done)
    ensures ChannelInv(put, received, [], exited, false, done)
  {
    if eventQ != [] {
      var all, more := received + eventQ, received + [eventQ[0]];
      assert more + eventQ[1..] == all && all[..|more|] == more;
      WithoutPrefix(all, more, exited);
    }
  }

  lemma WithoutPrefix(all: seq<ControlEvent>, part: seq<ControlEvent>, exited: Option<Exited>)
    requires part <= all
    ensures Without(part, exited) <= Without(all, exited)
  {
  }

  lemma EmitStep(s: System, line: Line)
    requires Inv(s) && Enabled(s, TmuxEmit(line))
    ensures Inv(Step(s, TmuxEmit(line)))
  {
    hide ViewOf, Feed, Observe, WriterInv, QueueInv, AnswerInv, ExitInv;
    hide PairInv, LateInv, CouplingInv, ReplyInv, HonestInv, EventInv, ChannelInv;
    assert (s.emitted + [line])[..s.h.read] == s.emitted[..s.h.read];
  }

  // ---- Writer steps ----

  lemma WriterSteps(s: System, l: Label)
    requires Inv(s) && Enabled(s, l)
    requires l.WriterReceive? || (l.WriterWrite? && l.ok) || (l.WriterFlush? && l.ok)
    ensures Inv(Step(s, l))
  {
    hide ViewOf, Feed, Observe, WriterInv, QueueInv, AnswerInv, ExitInv;
    hide PairInv, LateInv, CouplingInv, ReplyInv, HonestInv, EventInv, ChannelInv;
    WriterMoves(s.writer, s.cmdQ, s.pty, s.h.issued, s.h.registered);
  }

  /** Receiving, writing and flushing keep the order of commands. */
  lemma WriterMoves(writer: Writer, cmdQ: seq<Command>, pty: seq<Line>, issued: seq<Line>, registered: nat)
    requires WriterInv(writer, cmdQ, pty, issued, registered)
    ensures writer.Idle? && cmdQ != [] ==> WriterInv(Registering(cmdQ[0]), cmdQ[1..], pty, issued, registered)
    ensures writer.Writing? ==> WriterInv(Flushing, cmdQ, pty + [writer.cmd.line], issued, registered)
    ensures writer.Flushing? ==> WriterInv(Idle, cmdQ, pty, issued, registered)
  {
    if writer.Writing? {
      assert issued[..registered - 1] + [issued[registered - 1]] == issued[..registered];
    }
  }

  lemma RegisterKeeps(s: System)
    requires Inv(s) && Enabled(s, WriterRegister)
    ensures Inv(Step(s, WriterRegister))
  {
    hide ViewOf, Feed, Observe, WriterInv, QueueInv, AnswerInv, PairInv, LateInv, CouplingInv, ReplyInv, HonestInv;
    hide EventInv, ChannelInv;
    SlotRegistered(s);
    CouplingKept(Told(s), s.core, Step(s, WriterRegister).core, s.h.pairs, s.reader, s.reader);
  }

  lemma SlotRegistered(s: System)
    requires s.writer.Registering? && |s.core.regQ| < REGISTRATION_CAPACITY
    requires WriterInv(s.writer, s.cmdQ, s.pty, s.h.issued, s.h.registered)
    requires QueueInv(s.core.deque, s.core.regQ, s.h.taken, s.h.registered)
    requires AnswerInv(s.answers, FlightSlot(s.core), s.h.taken, false, s.h.registered, |s.h.issued|)
    ensures WriterInv(Writing(s.writer.cmd), s.cmdQ, s.pty, s.h.issued, s.h.registered + 1)
    ensures QueueInv(s.core.deque, s.core.regQ + [s.writer.cmd.slot], s.h.taken, s.h.registered + 1)
    ensures AnswerInv(s.answers, FlightSlot(s.core), s.h.taken, false, s.h.registered + 1, |s.h.issued|)
  {
  }

  /** What the writer holds and has not registered. */
  function Unregistered(s: System, refused: bool): seq<Slot>
    requires refused ==> s.writer.Registering?
  {
    if refused then [s.writer.cmd.slot] + SlotsOf(s.cmdQ) else SlotsOf(s.cmdQ)
  }

  lemma UnregisteredSlots(s: System, refused: bool)
    requires WriterInv(s.writer, s.cmdQ, s.pty, s.h.issued, s.h.registered) && !s.writer.Stopped?
    requires refused <==> s.writer.Registering?
    ensures var slots := Unregistered(s, refused);
      Consecutive(slots, s.h.registered) && s.h.registered + |slots| == |s.h.issued|
    ensures WriterInv(Stopped, [], s.pty, s.h.issued, s.h.registered)
  {
  }

  lemma WriterStops(s: System, l: Label)
    requires Inv(s) && Enabled(s, l)
    requires l.WriterRefused? || l.WriterStop? || (l.WriterWrite? && !l.ok) || (l.WriterFlush? && !l.ok)
    ensures Inv(Step(s, l))
  {
    hide ViewOf, Feed, Observe, WriterInv, QueueInv, AnswerInv, ExitInv;
    hide PairInv, LateInv, CouplingInv, ReplyInv, HonestInv, EventInv, ChannelInv;
    hide Step, Enabled, Unregistered;
    StopStep(s, l);
    UnregisteredSlots(s, l.WriterRefused?);
    AllDropped(s, Unregistered(s, l.WriterRefused?));
    RepliesKept(Told(s).replies, s.h.pairs, s.answers, Step(s, l).answers, s.gone);
    HonestKept(Told(s).replies, s.answers, Step(s, l).answers, s.gone);
    LateStep(s, Step(s, l).answers, s.reader, s.cancelled);
  }

  lemma StopStep(s: System, l: Label)
    requires Enabled(s, l)
    requires l.WriterRefused? || l.WriterStop? || (l.WriterWrite? && !l.ok) || (l.WriterFlush? && !l.ok)
    ensures !s.writer.Stopped? && (l.WriterRefused? <==> s.writer.Registering?)
    ensures Step(s, l) == s.(writer := Stopped, cmdQ := [],
                             answers := ResolveAll(s.answers, s.gone, Unregistered(s, l.WriterRefused?), Dropped))
  {
    hide ViewOf;
    if l.WriterRefused? {
      var queued := SlotsOf(s.cmdQ);
      assert ([s.writer.cmd.slot] + queued)[1..] == queued;
    }
  }

  /** When the writer stops, every command that was not registered is dropped. */
  lemma AllDropped(s: System, slots: seq<Slot>)
    requires !s.writer.Stopped?
    requires AnswerInv(s.answers, FlightSlot(s.core), s.h.taken, false, s.h.registered, |s.h.issued|)
    requires Consecutive(slots, s.h.registered) && s.h.registered + |slots| == |s.h.issued|
    ensures var after := ResolveAll(s.answers, s.gone, slots, Dropped);
      && AnswerInv(after, FlightSlot(s.core), s.h.taken, true, s.h.registered, |s.h.issued|)
      && (forall k: Slot :: k in s.answers ==> k in after && after[k] == s.answers[k])
      && (forall k: Slot :: k in after && k !in s.answers ==> after[k] == [Dropped])
  {
    ResolveRun(s.answers, s.gone, slots, s.h.registered, Dropped);
  }

  // ---- Supervisor and the reader's exit ----

  lemma SupervisorDrains(s: System)
    requires Inv(s) && Enabled(s, SupervisorDrain)
    ensures Inv(Step(s, SupervisorDrain))
  {
    hide ViewOf, Feed, Observe, ResolveAll, WriterInv, AnswerInv, PairInv, LateInv, CouplingInv, ReplyInv, HonestInv;
    hide EventInv, ChannelInv;
    var count := |s.core.deque|;
    RunAnswered(s, s.core.deque, Sent(Err(SUPERVISOR_EXITED)));
    PairsAfterDrain(s.h.pairs, s.h.taken, count, InLoop(s.reader));
    CouplingKept(Told(s), s.core, Step(s, SupervisorDrain).core, s.h.pairs, s.reader, s.reader);
    RepliesKept(Told(s).replies, s.h.pairs, s.answers, Step(s, SupervisorDrain).answers, s.gone);
    HonestKept(Told(s).replies, s.answers, Step(s, SupervisorDrain).answers, s.gone);
    NothingLate(Step(s, SupervisorDrain), Told(s).replies);
  }

  /** While no block has claimed since the drain there is nothing to account for. */
  lemma NothingLate(s: System, replies: seq<Reply>)
    requires ReplyInv(replies, s.h.pairs, s.answers, s.gone)
    requires s.h.drain.Some? ==> |s.h.pairs| == s.h.drain.value.at
    ensures LateInv(|replies|, s.h.pairs, s.h.drain, FlightSlot(s.core), s.answers, s.gone, s.reader, s.cancelled)
  {
    hide ResultOf;
  }

  lemma LateStep(s: System, after: map<Slot, seq<Resolution>>, next: Reader, later: bool)
    requires s.h.read <= |s.emitted|
    requires LateInv(|Told(s).replies|, s.h.pairs, s.h.drain, FlightSlot(s.core), s.answers, s.gone, s.reader,
                     s.cancelled)
    requires forall k: Slot :: k in s.answers ==> k in after && after[k] == s.answers[k]
    requires (next.Claiming? ==> s.reader.Claiming?) && (s.cancelled ==> later)
    ensures LateInv(|Told(s).replies|, s.h.pairs, s.h.drain, FlightSlot(s.core), after, s.gone, next, later)
  {
    hide LateInv, ViewOf;
    LateKept(|Told(s).replies|, s.h.pairs, s.h.drain, FlightSlot(s.core), s.answers, after, s.gone, s.reader, next,
             s.cancelled, later);
  }

  lemma SupervisorReports(s: System, l: Label)
    requires Inv(s) && Enabled(s, l) && l.SupervisorReport?
    ensures Inv(Step(s, l))
  {
    hide ViewOf, Feed, Observe, WriterInv, QueueInv, AnswerInv, PairInv, LateInv, CouplingInv, ReplyInv, HonestInv;
    hide ChannelInv;
    LateStep(s, s.answers, s.reader, true);
    ChannelExit(s.h.put, s.h.received, s.eventQ, s.h.exited, s.listening, l.code);
  }

  lemma ReaderExitSteps(s: System, l: Label)
    requires Inv(s) && Enabled(s, l) && (l.ReaderStop? || l.ReaderLock? || l.DrainOne?)
    ensures Inv(Step(s, l))
  {
    hide ViewOf, Feed, Observe, WriterInv, AnswerInv, PairInv, LateInv, CouplingInv, ReplyInv, HonestInv, ChannelInv;
    var t := Step(s, l);
    PairsLeave(s.h.pairs, s.h.drain, s.h.taken, InLoop(s.reader));
    CouplingKept(Told(s), s.core, t.core, s.h.pairs, s.reader, t.reader);
    LateStep(s, s.answers, t.reader, s.cancelled);
  }

  lemma PairsLeave(pairs: seq<Option<Slot>>, drain: Option<Drain>, taken: nat, inLoop: bool)
    requires PairInv(pairs, drain, taken, inLoop)
    ensures PairInv(pairs, drain, taken, false)
  {
  }

  lemma InFlightFails(s: System)
    requires Inv(s) && Enabled(s, FailInFlight)
    ensures Inv(Step(s, FailInFlight))
  {
    hide ViewOf, Feed, Observe, Resolve, WriterInv, QueueInv, AnswerInv, PairInv, LateInv, CouplingInv, ReplyInv;
    hide HonestInv, ChannelInv;
    if s.core.inFlight.Some? {
      InFlightAnswered(s, Sent(Err(MID_BLOCK)));
      LateFails(s, Step(s, FailInFlight).answers);
    } else {
      LateStep(s, s.answers, Locking, s.cancelled);
    }
    CouplingLeaves(Told(s), s.core, s.h.pairs, s.reader);
    RepliesKept(Told(s).replies, s.h.pairs, s.answers, Step(s, FailInFlight).answers, s.gone);
    HonestKept(Told(s).replies, s.answers, Step(s, FailInFlight).answers, s.gone);
  }

  /** A late claim's slot that is in flight is failed as mid-block. */
  lemma LateFails(s: System, after: map<Slot, seq<Resolution>>)
    requires s.h.read <= |s.emitted| && s.core.inFlight.Some?
    requires LateInv(|Told(s).replies|, s.h.pairs, s.h.drain, FlightSlot(s.core), s.answers, s.gone, s.reader,
                     s.cancelled)
    requires forall k: Slot :: k in s.answers ==> k in after && after[k] == s.answers[k]
    requires var k := s.core.inFlight.value.slot; k in after && after[k] == [Arrives(s.gone, k, Sent(Err(MID_BLOCK)))]
    ensures LateInv(|Told(s).replies|, s.h.pairs, s.h.drain, None, after, s.gone, Locking, s.cancelled)
  {
    hide ViewOf;
  }

  lemma CouplingLeaves(told: View, core: Core, pairs: seq<Option<Slot>>, reader: Reader)
    requires CouplingInv(told, core, pairs, reader) && !reader.Claiming?
    ensures CouplingInv(told, core.(inFlight := None), pairs, Locking)
  {
  }

  lemma ReaderDrains(s: System)
    requires Inv(s) && Enabled(s, DrainAll)
    ensures Inv(Step(s, DrainAll))
  {
    hide ViewOf, Feed, Observe, ResolveAll, WriterInv, AnswerInv, PairInv, LateInv, CouplingInv, ReplyInv, HonestInv;
    hide ChannelInv;
    PairsOutside(s.h.pairs, s.h.drain, s.h.taken, s.h.taken + |s.core.deque|);
    CouplingKept(Told(s), s.core, Step(s, DrainAll).core, s.h.pairs, s.reader, Drained);
    RunAnswered(s, s.core.deque, Sent(Err(READER_EXITED)));
    RepliesKept(Told(s).replies, s.h.pairs, s.answers, Step(s, DrainAll).answers, s.gone);
    HonestKept(Told(s).replies, s.answers, Step(s, DrainAll).answers, s.gone);
    LateStep(s, Step(s, DrainAll).answers, Drained, s.cancelled);
  }

  lemma ReaderCloses(s: System)
    requires Inv(s) && Enabled(s, ReaderClose)
    ensures Inv(Step(s, ReaderClose))
  {
    hide ViewOf, Feed, Observe, ResolveAll, WriterInv, AnswerInv, PairInv, LateInv, CouplingInv, ReplyInv, HonestInv;
    hide ChannelInv;
    PairsOutside(s.h.pairs, s.h.drain, s.h.taken, s.h.taken + |s.core.regQ|);
    CouplingKept(Told(s), s.core, Step(s, ReaderClose).core, s.h.pairs, s.reader, Closed);
    RunAnswered(s, s.core.regQ, Dropped);
    RepliesKept(Told(s).replies, s.h.pairs, s.answers, Step(s, ReaderClose).answers, s.gone);
    HonestKept(Told(s).replies, s.answers, Step(s, ReaderClose).answers, s.gone);
    LateStep(s, Step(s, ReaderClose).answers, Closed, s.cancelled);
  }

  lemma ForwardSteps(s: System, l: Label)
    requires Inv(s) && Enabled(s, l)
    requires l.OfferSent? || l.OfferFailed? || l.NotifySent? || l.NotifyLost?
    ensures Inv(Step(s, l))
  {
    hide ViewOf, Feed, Observe, WriterInv, QueueInv, AnswerInv, PairInv, LateInv, CouplingInv, ReplyInv, HonestInv;
    hide EventInv, ChannelInv;
    var next := Step(s, l).reader;
    EventLeaves(s.h.put, s.h.forwardable, s.reader, s.listening, s.eventQ);
    ChannelPut(s.h.put, s.h.received, s.eventQ, s.h.exited, s.supervisor.Done?, s.reader.event);
    PairsLeave(s.h.pairs, s.h.drain, s.h.taken, InLoop(s.reader));
    CouplingKept(Told(s), s.core, s.core, s.h.pairs, s.reader, next);
    LateStep(s, s.answers, next, s.cancelled);
  }

  /** A put goes to the end. */
  lemma ChannelPut(put: seq<ControlEvent>, received: seq<ControlEvent>, eventQ: seq<ControlEvent>,
                   exited: Option<Exited>, done: bool, e: ControlEvent)
    ensures ChannelInv(put, received, eventQ, exited, true, done) ==>
      ChannelInv(put + [e], received, eventQ + [e], exited, true, done)
  {
    if ChannelInv(put, received, eventQ, exited, true, done) {
      var all := received + eventQ;
      assert received + (eventQ + [e]) == all + [e];
      assert Without(all + [e], exited) == Without(all, exited) + [e];
    }
  }

  lemma ChannelExit(put: seq<ControlEvent>, received: seq<ControlEvent>, eventQ: seq<ControlEvent>,
                    exited: Option<Exited>, listening: bool, code: Option<int>)
    requires ChannelInv(put, received, eventQ, exited, listening, false)
    ensures listening ==>
      ChannelInv(put, received, eventQ + [Exit(code)], Some(Exited(|received| + |eventQ|, code)), true, true)
    ensures ChannelInv(put, received, eventQ, exited, listening, true)
  {
    var all := received + eventQ;
    if listening {
      assert received + (eventQ + [Exit(code)]) == all + [Exit(code)];
      assert Without(all + [Exit(code)], Some(Exited(|all|, code))) == all;
      assert all[..|received|] == received;
    }
  }

  /** The event waiting in the reader goes on the channel, or the reader gives it up. */
  lemma EventLeaves(put: seq<ControlEvent>, forwardable: seq<ControlEvent>, reader: Reader, listening: bool,
                    eventQ: seq<ControlEvent>)
    requires EventInv(put, forwardable, reader, listening, eventQ) && (reader.Offering? || reader.Notifying?)
    ensures listening && |eventQ| < EVENT_CAPACITY ==>
      && EventInv(put + [reader.event], forwardable, Reading, listening, eventQ + [reader.event])
      && EventInv(put + [reader.event], forwardable, Leaving, listening, eventQ + [reader.event])
    ensures EventInv(put, forwardable, Leaving, listening, eventQ)
    ensures !listening ==> EventInv(put, forwardable, Reading, listening, eventQ)
  {
    var n := |forwardable| - 1;
    assert forwardable[..n] + [forwardable[n]] == forwardable;
  }

  // ---- Claiming a slot ----

  /** With the lock the reader gives the block it has begun the next registered slot, or finds
      none. */
  lemma ReaderClaims(s: System)
    requires Inv(s) && Enabled(s, ReaderClaim)
    ensures Inv(Step(s, ReaderClaim))
  {
    hide ViewOf, Feed, Observe, WriterInv, QueueInv, AnswerInv, PairInv, LateInv, CouplingInv, ReplyInv, HonestInv;
    hide EventInv, ChannelInv;
    var q := s.core.deque + s.core.regQ;
    var p := if q == [] then None else Some(q[0]);
    ClaimFacts(s);
    if q == [] {
      QueuesEmpty(s);
      assert s.h.taken + 0 == s.h.taken;
    } else {
      QueuesPop(s);
    }
    PairClaims(s.h.pairs, s.h.drain, s.h.taken, p, s.h.registered);
    CouplingClaims(Told(s), s.core, s.h.pairs);
    RepliesWiden(Told(s).replies, s.h.pairs, s.answers, s.gone);
    ClaimLate(s, p);
    EventsClaimed(s.h.put, s.h.forwardable, s.listening, s.eventQ);
  }

  lemma EventsClaimed(put: seq<ControlEvent>, forwardable: seq<ControlEvent>, listening: bool,
                      eventQ: seq<ControlEvent>)
    requires EventInv(put, forwardable, Claiming, listening, eventQ)
    ensures EventInv(put, forwardable, Reading, listening, eventQ)
  {
  }

  /** When the reader gets the lock it has not claimed since the drain, and after a drain the
      token is cancelled. */
  lemma ClaimFacts(s: System)
    requires Inv(s) && Enabled(s, ReaderClaim)
    ensures s.core.inFlight.None? && !Late(s.h.pairs, s.h.drain)
    ensures s.h.drain.Some? ==> s.supervisor.Done? && s.cancelled
    ensures |s.h.pairs| < s.h.registered
  {
    hide ViewOf, QueueInv, AnswerInv, PairInv, ReplyInv, HonestInv, EventInv, ChannelInv;
    ViewOfGrows(s.emitted, s.h.read);
  }

  lemma PairClaims(pairs: seq<Option<Slot>>, drain: Option<Drain>, taken: nat, p: Option<Slot>, registered: nat)
    requires PairInv(pairs, drain, taken, true) && !Late(pairs, drain) && |pairs| < registered
    requires p.Some? ==> p.value == taken
    requires p.None? ==> taken == registered
    ensures PairInv(pairs + [p], drain, taken + if p.None? then 0 else 1, true)
    ensures p.None? ==> drain.Some?
  {
  }

  lemma CouplingClaims(told: View, core: Core, pairs: seq<Option<Slot>>)
    requires CouplingInv(told, core, pairs, Claiming)
    ensures var q := core.deque + core.regQ;
      CouplingInv(told, Claim(core), pairs + [if q == [] then None else Some(q[0])], Reading)
  {
  }

  lemma ClaimLate(s: System, p: Option<Slot>)
    requires s.h.read <= |s.emitted| && !Late(s.h.pairs, s.h.drain) && (s.h.drain.Some? ==> s.cancelled)
    requires LateInv(|Told(s).replies|, s.h.pairs, s.h.drain, FlightSlot(s.core), s.answers, s.gone, s.reader,
                     s.cancelled)
    ensures LateInv(|Told(s).replies|, s.h.pairs + [p], s.h.drain, p, s.answers, s.gone, Reading, s.cancelled)
  {
    hide ViewOf;
  }

  lemma QueuesEmpty(s: System)
    requires QueueInv(s.core.deque, s.core.regQ, s.h.taken, s.h.registered)
    requires s.core.deque + s.core.regQ == []
    ensures QueueInv([], [], s.h.taken, s.h.registered) && s.h.taken == s.h.registered
  {
    assert |s.core.deque + s.core.regQ| == 0;
  }

  /** Popping the merged queues yields the next slot, which becomes the one in flight. */
  lemma QueuesPop(s: System)
    requires QueueInv(s.core.deque, s.core.regQ, s.h.taken, s.h.registered)
    requires AnswerInv(s.answers, None, s.h.taken, s.writer.Stopped?, s.h.registered, |s.h.issued|)
    requires s.core.deque + s.core.regQ != []
    ensures var q := s.core.deque + s.core.regQ;
      && q[0] == s.h.taken
      && QueueInv(q[1..], [], s.h.taken + 1, s.h.registered)
      && AnswerInv(s.answers, Some(s.h.taken), s.h.taken + 1, s.writer.Stopped?, s.h.registered, |s.h.issued|)
  {
  }

  lemma RepliesWiden(replies: seq<Reply>, pairs: seq<Option<Slot>>, answers: map<Slot, seq<Resolution>>,
                     gone: set<Slot>)
    requires ReplyInv(replies, pairs, answers, gone)
    ensures forall p: Option<Slot> :: ReplyInv(replies, pairs + [p], answers, gone)
  {
    hide ResultOf, Arrives;
  }

  // ---- One line through the reader ----

  /** What `EventMatchesState` says about a line's event, without the line. */
  ghost predicate Coherent(clf: Parser.State, next: Parser.State, event: Option<ControlEvent>) {
    match event
    case Some(BeginBlock(cmdNum, flags)) => clf.Outside? && next == InsideBlock(cmdNum, flags)
    case Some(EndBlock(cmdNum, flags)) => clf == InsideBlock(cmdNum, flags) && next.Outside?
    case Some(ErrorBlock(cmdNum, flags)) => clf == InsideBlock(cmdNum, flags) && next.Outside?
    case Some(BlockLine(_, _)) => clf.InsideBlock? && next == clf
    case _ => clf.Outside? && next.Outside?
  }

  /** The slot was answered with the last block of `told`, which it was paired with. */
  ghost predicate ByClose(k: Slot, t: System, told: View) {
    var n := |told.replies|;
    && 0 < n <= |t.h.pairs| && t.h.pairs[n - 1] == Some(k)
    && k in t.answers && t.answers[k] == [Arrives(t.gone, k, Sent(ResultOf(told.replies[n - 1])))]
  }

  /** The invariant after one event, with the line itself out of sight. */
  ghost predicate AfterEvent(s: System, t: System, told: View) {
    && WriterInv(t.writer, t.cmdQ, t.pty, t.h.issued, t.h.registered)
    && QueueInv(t.core.deque, t.core.regQ, t.h.taken, t.h.registered)
    && AnswerInv(t.answers, FlightSlot(t.core), t.h.taken, t.writer.Stopped?, t.h.registered, |t.h.issued|)
    && ExitInv(t.reader, t.core, t.supervisor, t.h.drain)
    && PairInv(t.h.pairs, t.h.drain, t.h.taken, InLoop(t.reader))
    && CouplingInv(told, t.core, t.h.pairs, t.reader)
    && ReplyInv(told.replies, t.h.pairs, t.answers, t.gone)
    && EventInv(t.h.put, t.h.forwardable, t.reader, t.listening, t.eventQ)
    && t.emitted == s.emitted && t.pty == s.pty && t.h.read == s.h.read + 1
    && t.gone == s.gone && s.h.read <= |s.emitted| && Told(s).replies <= told.replies
    && (forall k: Slot :: k in t.answers ==> (k in s.answers && t.answers[k] == s.answers[k]) || ByClose(k, t, told))
    && t.h.pairs == s.h.pairs && t.h.drain == s.h.drain && t.cancelled == s.cancelled && t.supervisor == s.supervisor
    && t.h.put == s.h.put && t.h.received == s.h.received && t.h.exited == s.h.exited
    && t.eventQ == s.eventQ && t.listening == s.listening
  }

  /** A flags=1 begin makes the reader wait for the lock. */
  lemma BeginOwnEvent(s: System, next: Parser.State, event: Option<ControlEvent>)
    requires Inv(s) && s.reader.Reading? && BeginsOwn(event) && Coherent(s.core.clf, next, event)
    ensures AfterEvent(s, ReaderEventStep(s, next, event), ObserveEvent(Told(s), next, event))
  {
    hide ViewOf, Feed, WriterInv, QueueInv, AnswerInv, PairInv, LateInv, ReplyInv, Content;
  }

  /** Content lines grow the reply in flight. */
  lemma ContentEvent(s: System, next: Parser.State, event: Option<ControlEvent>)
    requires Inv(s) && s.reader.Reading? && Coherent(s.core.clf, next, event)
    requires event.Some? && event.value.BlockLine?
    ensures AfterEvent(s, ReaderEventStep(s, next, event), ObserveEvent(Told(s), next, event))
  {
    hide ViewOf, Feed, WriterInv, QueueInv, AnswerInv, PairInv, LateInv, EventInv, ErrorText;
    hide Content;
    ContentAppend(Told(s).open, event.value.line);
  }

  /** The begin and end of other blocks do not. */
  lemma QuietEvent(s: System, next: Parser.State, event: Option<ControlEvent>)
    requires Inv(s) && s.reader.Reading? && Coherent(s.core.clf, next, event)
    requires event.None? || (event.value.BeginBlock? && event.value.flags != 1)
      || ((event.value.EndBlock? || event.value.ErrorBlock?) && (event.value.flags != 1 || s.core.inFlight.None?))
    ensures AfterEvent(s, ReaderEventStep(s, next, event), ObserveEvent(Told(s), next, event))
  {
    hide ViewOf, Feed, WriterInv, QueueInv, AnswerInv, PairInv, LateInv, EventInv, ErrorText, Content;
  }

  /** The close of an own block answers the slot in flight with the block's result. */
  lemma CloseEvent(s: System, next: Parser.State, event: Option<ControlEvent>)
    requires Inv(s) && s.reader.Reading? && Coherent(s.core.clf, next, event)
    requires event.Some? && (event.value.EndBlock? || event.value.ErrorBlock?)
    requires event.value.flags == 1 && s.core.inFlight.Some?
    ensures AfterEvent(s, ReaderEventStep(s, next, event), ObserveEvent(Told(s), next, event))
  {
    hide ViewOf, Feed, WriterInv, QueueInv, AnswerInv, PairInv, LateInv, EventInv, Content, ErrorText;
    var told := Told(s);
    var reply := Reply(event.value.EndBlock?, told.open);
    InFlightAnswered(s, Sent(ResultOf(reply)));
    var after := Resolve(s.answers, s.gone, s.core.inFlight.value.slot, Sent(ResultOf(reply)));
    RepliesKept(told.replies, s.h.pairs, s.answers, after, s.gone);
  }

  /** Any other event leaves the replies alone and is handed on. */
  lemma ForwardShape(s: System, next: Parser.State, event: Option<ControlEvent>)
    requires s.h.read <= |s.emitted|
    requires event.Some? && !event.value.BeginBlock? && !event.value.BlockLine?
    requires !event.value.EndBlock? && !event.value.ErrorBlock?
    ensures var t := ReaderEventStep(s, next, event);
      && (t.reader.Offering? || t.reader.Notifying?)
      && t == s.(core := s.core.(clf := next), reader := t.reader,
                 h := s.h.(read := s.h.read + 1, forwardable := s.h.forwardable + [t.reader.event]))
    ensures ObserveEvent(Told(s), next, event) == Told(s).(clf := next)
  {
    hide ViewOf, Content, ErrorText;
  }

  lemma EventOffered(put: seq<ControlEvent>, forwardable: seq<ControlEvent>, reader: Reader, listening: bool,
                     eventQ: seq<ControlEvent>)
    requires EventInv(put, forwardable, Reading, listening, eventQ) && (reader.Offering? || reader.Notifying?)
    ensures EventInv(put, forwardable + [reader.event], reader, listening, eventQ)
  {
    assert (forwardable + [reader.event])[..|forwardable|] == forwardable;
  }

  lemma ForwardEvent(s: System, next: Parser.State, event: Option<ControlEvent>)
    requires Inv(s) && s.reader.Reading? && Coherent(s.core.clf, next, event)
    requires event.Some? && !event.value.BeginBlock? && !event.value.BlockLine?
    requires !event.value.EndBlock? && !event.value.ErrorBlock?
    ensures AfterEvent(s, ReaderEventStep(s, next, event), ObserveEvent(Told(s), next, event))
  {
    hide ViewOf, Feed, WriterInv, QueueInv, AnswerInv, PairInv, LateInv, ReplyInv, EventInv, Content;
    hide ReaderEventStep, ObserveEvent;
    ForwardShape(s, next, event);
    EventOffered(s.h.put, s.h.forwardable, ReaderEventStep(s, next, event).reader, s.listening, s.eventQ);
  }

  lemma ReadEvent(s: System, next: Parser.State, event: Option<ControlEvent>)
    requires Inv(s) && s.reader.Reading? && Coherent(s.core.clf, next, event)
    ensures AfterEvent(s, ReaderEventStep(s, next, event), ObserveEvent(Told(s), next, event))
  {
    hide *;
    if BeginsOwn(event) {
      BeginOwnEvent(s, next, event);
    } else if event.Some? && event.value.BlockLine? {
      ContentEvent(s, next, event);
    } else if event.None? || event.value.BeginBlock? {
      hide *;
      BeginsOther(event);
      QuietEvent(s, next, event);
    } else if event.value.EndBlock? || event.value.ErrorBlock? {
      if event.value.flags == 1 && s.core.inFlight.Some? {
        CloseEvent(s, next, event);
      } else {
        QuietEvent(s, next, event);
      }
    } else {
      ForwardEvent(s, next, event);
    }
  }

  lemma BeginsOther(event: Option<ControlEvent>)
    requires !BeginsOwn(event)
    ensures event.Some? && event.value.BeginBlock? ==> event.value.flags != 1
  {
  }

  lemma LineFacts(s: System)
    requires Inv(s) && Enabled(s, ReaderLine)
    ensures var line := s.emitted[s.h.read]; var (next, event) := Feed(s.core.clf, line);
      && Coherent(s.core.clf, next, event)
      && ViewOf(s.emitted[..s.h.read + 1]) == ObserveEvent(Told(s), next, event)
  {
    hide ViewOf, Feed, QueueInv, AnswerInv, ExitInv, PairInv, LateInv, ReplyInv, EventInv, ObserveEvent;
    var line := s.emitted[s.h.read];
    EventMatchesState(s.core.clf, line);
    ViewOfNext(s.emitted, s.h.read);
    assert Told(s).clf == s.core.clf;
    var (next, event) := Feed(s.core.clf, line);
    assert Coherent(s.core.clf, next, event);
    assert ViewOf(s.emitted[..s.h.read + 1]) == Observe(Told(s), line);
    assert Observe(Told(s), line) == ObserveEvent(Told(s), next, event);
  }

  lemma ReaderLineStepInv(s: System)
    requires Inv(s) && Enabled(s, ReaderLine)
    ensures Inv(Step(s, ReaderLine))
  {
    hide ViewOf, Feed, WriterInv, QueueInv, AnswerInv, ExitInv, PairInv, LateInv, CouplingInv, ReplyInv, HonestInv;
    hide EventInv, ChannelInv;
    hide ReaderEventStep, ObserveEvent, Coherent, ByClose;
    var (next, event) := Feed(s.core.clf, s.emitted[s.h.read]);
    LineFacts(s);
    ReadEvent(s, next, event);
    NotLate(s);
    NothingLate(Step(s, ReaderLine), Told(Step(s, ReaderLine)).replies);
    HonestLine(s, Step(s, ReaderLine));
  }

  /** A block that finishes has its own slot, as the reader has not claimed since the drain. */
  lemma HonestLine(s: System, t: System)
    requires s.h.read <= |s.emitted| && t.h.read <= |t.emitted| && t.gone == s.gone
    requires HonestInv(Told(s).replies, s.answers, s.gone) && Told(s).replies <= Told(t).replies
    requires PairInv(t.h.pairs, t.h.drain, t.h.taken, InLoop(t.reader))
    requires t.h.drain.Some? ==> |t.h.pairs| == t.h.drain.value.at
    requires forall k: Slot :: k in t.answers ==>
      (k in s.answers && t.answers[k] == s.answers[k]) || ByClose(k, t, Told(t))
    ensures HonestInv(Told(t).replies, t.answers, t.gone)
  {
    hide ViewOf, Failed, ResultOf;
  }

  /** A reader that still reads lines has not claimed since the drain. */
  lemma NotLate(s: System)
    requires s.h.read <= |s.emitted| && !s.cancelled
    requires PairInv(s.h.pairs, s.h.drain, s.h.taken, InLoop(s.reader))
    requires LateInv(|Told(s).replies|, s.h.pairs, s.h.drain, FlightSlot(s.core), s.answers, s.gone, s.reader,
                     s.cancelled)
    ensures s.h.drain.Some? ==> |s.h.pairs| == s.h.drain.value.at
  {
    hide ViewOf;
  }
}
