/** What every run of the control-mode driver keeps: replies in order, no slot lost or
    answered twice, and a shutdown that always ends. */
module ProtocolTheorems {
  import opened Bytes
  import opened Parser
  import opened Protocol
  import opened ProtocolInvariant

  /** The labels are a run from the start that ends in `s`. */
  predicate Reaches(labels: seq<Label>, s: System) { Exec(Init(), labels) == Some(s) }

  lemma StepInv(s: System, l: Label)
    requires Inv(s) && Enabled(s, l)
    ensures Inv(Step(s, l))
  {
    hide *;
    match l
    case CallerSend(line) => SendStep(s, line);
    case CallerGone(slot) => GoneStep(s, slot);
    case Cancel => OutsideSteps(s, l);
    case WriterReceive => WriterSteps(s, l);
    case WriterRegister => RegisterKeeps(s);
    case WriterRefused => WriterStops(s, l);
    case WriterWrite(ok) => if ok { WriterSteps(s, l); } else { WriterStops(s, l); }
    case WriterFlush(ok) => if ok { WriterSteps(s, l); } else { WriterStops(s, l); }
    case WriterStop => WriterStops(s, l);
    case TmuxEmit(line) => EmitStep(s, line);
    case ReaderLine => ReaderLineStepInv(s);
    case ReaderClaim => ReaderClaims(s);
    case ReaderStop => ReaderExitSteps(s, l);
    case OfferSent => ForwardSteps(s, l);
    case OfferFailed => ForwardSteps(s, l);
    case NotifySent => ForwardSteps(s, l);
    case NotifyLost => ForwardSteps(s, l);
    case FailInFlight => InFlightFails(s);
    case ReaderLock => ReaderExitSteps(s, l);
    case DrainOne => ReaderExitSteps(s, l);
    case DrainAll => ReaderDrains(s);
    case ReaderClose => ReaderCloses(s);
    case SupervisorDrain => SupervisorDrains(s);
    case SupervisorReport(_) => SupervisorReports(s, l);
    case ConsumerTake => OutsideSteps(s, l);
    case ConsumerClose => OutsideSteps(s, l);
  }

  /** The invariant holds in every reachable state. */
  lemma {:induction false} RunInv(labels: seq<Label>, s: System)
    requires Reaches(labels, s)
    ensures Inv(s)
    decreases |labels|
  {
    hide Inv, Step, Enabled;
    if labels == [] {
      InitInv();
    } else {
      var before := Exec(Init(), labels[..|labels| - 1]).value;
      RunInv(labels[..|labels| - 1], before);
      StepInv(before, labels[|labels| - 1]);
    }
  }

  // ---- Replies in order ----

  /** What a caller that waits on slot `k` has: nothing yet, its reply, or a dropped slot. */
  datatype Outcome = Waiting | TimedOut | Disconnected | Replied(result: BlockResult)

  function CallerOutcome(s: System, k: Slot): Outcome {
    if k in s.gone then TimedOut
    else if k !in s.answers || s.answers[k] == [] then Waiting
    else match s.answers[k][0]
         case Sent(result) => Replied(result)
         case Refused(_) => TimedOut
         case Dropped => Disconnected
  }

  /** In every run, at every moment, the k-th finished flags=1 block answers the k-th command:
      the slot that was registered k-th and whose line went k-th to the pty. */
  lemma RepliesInOrder(labels: seq<Label>, s: System, k: nat)
    requires Reaches(labels, s)
    requires s.h.read <= |s.emitted| && k < |Told(s).replies|
    ensures k < |s.pty| && k < |s.h.issued| && s.pty[k] == s.h.issued[k]
    ensures k in s.answers && s.answers[k] == [Arrives(s.gone, k, Sent(ResultOf(Told(s).replies[k])))]
    ensures k !in s.gone ==> CallerOutcome(s, k) == Replied(ResultOf(Told(s).replies[k]))
  {
    hide ViewOf, ResultOf, QueueInv, AnswerInv, ExitInv, PairInv, LateInv, EventInv, Enabled, Step, Exec;
    RunInv(labels, s);
    ViewOfGrows(s.emitted, s.h.read);
    FinishedInOrder(s, k);
  }

  /** And in every run nobody is told anything else: whatever a slot has been answered with is
      the result of its own finished block, or one of three failures, or nothing at all. */
  lemma NoFalseReplies(labels: seq<Label>, s: System, k: Slot)
    requires Reaches(labels, s) && k in s.answers
    ensures s.h.read <= |s.emitted|
    ensures
      || s.answers[k] == [Dropped]
      || (k < |Told(s).replies| && s.answers[k] == [Arrives(s.gone, k, Sent(ResultOf(Told(s).replies[k])))])
      || s.answers[k] == [Arrives(s.gone, k, Sent(Err(MID_BLOCK)))]
      || s.answers[k] == [Arrives(s.gone, k, Sent(Err(READER_EXITED)))]
      || s.answers[k] == [Arrives(s.gone, k, Sent(Err(SUPERVISOR_EXITED)))]
  {
    hide ViewOf, ResultOf, WriterInv, QueueInv, AnswerInv, ExitInv, PairInv, LateInv, CouplingInv, ReplyInv, EventInv;
    hide ChannelInv, Enabled, Step, Exec, Ascii;
    RunInv(labels, s);
  }

  /** A finished block has claimed its own slot. */
  lemma FinishedInOrder(s: System, k: nat)
    requires s.h.read <= |s.emitted| && k < |Told(s).replies|
    requires PairInv(s.h.pairs, s.h.drain, s.h.taken, InLoop(s.reader))
    requires LateInv(|Told(s).replies|, s.h.pairs, s.h.drain, FlightSlot(s.core), s.answers, s.gone, s.reader,
                     s.cancelled)
    requires ReplyInv(Told(s).replies, s.h.pairs, s.answers, s.gone)
    ensures k < |s.h.pairs| && s.h.pairs[k] == Some(k)
  {
    hide ViewOf, ResultOf;
  }

  /** Before the drain, a reader that gets the lock for a block always finds a caller in the
      deque or in the registration channel. */
  lemma NoUnclaimedBlock(labels: seq<Label>, s: System)
    requires Reaches(labels, s) && s.h.drain.None? && Enabled(s, ReaderClaim)
    ensures s.core.deque + s.core.regQ != []
  {
    hide *;
    RunInv(labels, s);
    ClaimFinds(s);
  }

  lemma ClaimFinds(s: System)
    requires Inv(s) && Enabled(s, ReaderClaim)
    ensures s.h.drain.None? ==> s.core.deque + s.core.regQ != []
    ensures s.h.drain.Some? ==>
      (s.core.deque + s.core.regQ == [] <==> s.h.registered == s.h.drain.value.at + s.h.drain.value.count)
  {
    hide ViewOf, WriterInv, QueueInv, AnswerInv, LateInv, CouplingInv, ReplyInv, HonestInv, EventInv, ChannelInv;
    ClaimFacts(s);
    if s.core.deque + s.core.regQ == [] {
      QueuesEmpty(s);
    } else {
      QueuesPop(s);
    }
  }

  /** The reader gets the lock for a block after the supervisor's drain only once the token is
      cancelled, so it will read no further line. It finds no pending caller exactly when no
      command has been registered since the drain. */
  lemma ClaimAfterDrain(labels: seq<Label>, s: System)
    requires Reaches(labels, s) && s.h.drain.Some? && Enabled(s, ReaderClaim)
    ensures s.cancelled && !Enabled(Step(s, ReaderClaim), ReaderLine)
    ensures s.core.deque + s.core.regQ == [] <==> s.h.registered == s.h.drain.value.at + s.h.drain.value.count
  {
    hide ViewOf, Inv, Exec, Claim;
    RunInv(labels, s);
    ClaimFacts(s);
    ClaimFinds(s);
  }

  /** What the supervisor's drain does to the pairing, in every run. The blocks that had
      claimed by then have their own slots, and only they can ever be finished. At most one
      more block claims. It gets the first slot the drain left, which is its own exactly when
      the drain failed none, and that slot is never answered with a block: once resolved, it is
      failed as mid-block. */
  lemma DrainEndsReplies(labels: seq<Label>, s: System)
    requires Reaches(labels, s) && s.h.drain.Some?
    ensures var (at, count) := (s.h.drain.value.at, s.h.drain.value.count);
      && s.h.read <= |s.emitted| && |Told(s).replies| <= at
      && at <= |s.h.pairs| <= at + 1
      && (forall b: nat :: b < at ==> s.h.pairs[b] == Some(b))
      && (|s.h.pairs| > at && s.h.pairs[at].Some? ==>
            var k := s.h.pairs[at].value;
            && k == at + count && (k == at <==> count == 0)
            && (k in s.answers ==> s.answers[k] == [Arrives(s.gone, k, Sent(Err(MID_BLOCK)))]))
  {
    hide ViewOf, WriterInv, QueueInv, ExitInv, CouplingInv, ReplyInv, HonestInv, EventInv, ChannelInv, Enabled, Step;
    hide Exec;
    RunInv(labels, s);
  }

  /** The channels never hold more than they may. */
  lemma QueuesBounded(labels: seq<Label>, s: System)
    requires Reaches(labels, s)
    ensures |s.cmdQ| <= 64 && |s.core.regQ| <= 64 && |s.eventQ| <= 1024
  {
    hide ViewOf, AnswerInv, ExitInv, PairInv, LateInv, CouplingInv, ReplyInv, HonestInv, ChannelInv, Enabled, Step;
    hide Exec;
    RunInv(labels, s);
  }

  // ---- Slots are conserved ----

  lemma {:induction false} OccursOnce(slots: seq<Slot>, first: Slot, k: Slot)
    requires Consecutive(slots, first)
    ensures multiset(slots)[k] == if first <= k < first + |slots| then 1 else 0
    decreases |slots|
  {
    if slots != [] {
      assert slots == [slots[0]] + slots[1..];
      OccursOnce(slots[1..], first + 1, k);
    }
  }

  function Here(b: bool): nat { if b then 1 else 0 }

  /** How often slot `k` occurs in the command channel, with the writer, in the registration
      channel, in the deque, in flight, and among the answers. */
  ghost function Occurrences(s: System, k: Slot): nat {
    multiset(SlotsOf(s.cmdQ))[k]
    + Here(s.writer.Registering? && s.writer.cmd.slot == k)
    + multiset(s.core.regQ)[k]
    + multiset(s.core.deque)[k]
    + Here(FlightSlot(s.core) == Some(k))
    + if k in s.answers then |s.answers[k]| else 0
  }

  /** Every slot ever sent is in exactly one place, exactly once: none is lost, none is
      queued twice, none is answered twice. */
  lemma SlotsConserved(labels: seq<Label>, s: System, k: Slot)
    requires Reaches(labels, s)
    ensures Occurrences(s, k) == if k < |s.h.issued| then 1 else 0
  {
    hide ViewOf, PairInv, LateInv, CouplingInv, ReplyInv, HonestInv, EventInv, ChannelInv, Enabled, Step;
    RunInv(labels, s);
    OccursOnce(s.core.deque, s.h.taken, k);
    OccursOnce(s.core.regQ, s.h.taken + |s.core.deque|, k);
    var next := if s.writer.Registering? then s.h.registered + 1 else s.h.registered;
    OccursOnce(SlotsOf(s.cmdQ), next, k);
  }

  /** Once the writer and the reader have ended, whichever stopped first and whatever the
      supervisor did, every slot is resolved. */
  lemma AllResolvedAtEnd(labels: seq<Label>, s: System, k: Slot)
    requires Reaches(labels, s) && s.writer.Stopped? && s.reader.Closed? && k < |s.h.issued|
    ensures k in s.answers && |s.answers[k]| == 1
  {
    hide ViewOf, PairInv, LateInv, CouplingInv, ReplyInv, HonestInv, EventInv, ChannelInv, Enabled, Step;
    RunInv(labels, s);
  }

  // ---- Timeouts ----

  /** The resolution as it would have been had the caller stayed. */
  function Stayed(r: Resolution): Resolution {
    match r
    case Refused(result) => Sent(result)
    case _ => r
  }

  function AllStayed(rs: seq<Resolution>): seq<Resolution> {
    seq(|rs|, i requires 0 <= i < |rs| => Stayed(rs[i]))
  }

  function StayedAnswers(answers: map<Slot, seq<Resolution>>): map<Slot, seq<Resolution>> {
    map k | k in answers :: AllStayed(answers[k])
  }

  /** The same state with every caller still waiting: what was refused has been received. */
  function Forget(s: System): System { s.(gone := {}, answers := StayedAnswers(s.answers)) }

  function WithoutTimeouts(labels: seq<Label>): seq<Label> {
    if labels == [] then []
    else
      var l := labels[|labels| - 1];
      WithoutTimeouts(labels[..|labels| - 1]) + if l.CallerGone? then [] else [l]
  }

  lemma ResolveStayed(answers: map<Slot, seq<Resolution>>, gone: set<Slot>, slot: Slot, r: Resolution)
    requires !r.Refused?
    ensures StayedAnswers(Resolve(answers, gone, slot, r)) == Resolve(StayedAnswers(answers), {}, slot, r)
  {
    var before := if slot in answers then answers[slot] else [];
    assert AllStayed(before + [Arrives(gone, slot, r)]) == AllStayed(before) + [r];
  }

  lemma {:induction false} ResolveAllStayed(answers: map<Slot, seq<Resolution>>, gone: set<Slot>, slots: seq<Slot>,
                                            r: Resolution)
    requires !r.Refused?
    ensures StayedAnswers(ResolveAll(answers, gone, slots, r)) == ResolveAll(StayedAnswers(answers), {}, slots, r)
    decreases |slots|
  {
    hide StayedAnswers, Resolve;
    if slots != [] {
      ResolveStayed(answers, gone, slots[0], r);
      ResolveAllStayed(Resolve(answers, gone, slots[0], r), gone, slots[1..], r);
    }
  }

  predicate OfReader(l: Label) {
    || l.ReaderLine? || l.ReaderStop? || l.OfferSent? || l.OfferFailed? || l.NotifySent? || l.NotifyLost?
    || l.ReaderClaim? || l.FailInFlight? || l.ReaderLock? || l.DrainOne? || l.DrainAll? || l.ReaderClose?
  }

  /** Any other step does the same whether or not callers have gone, except that what it
      sends them is refused. */
  lemma StepForgets(s: System, l: Label)
    requires Enabled(s, l) && !l.CallerGone?
    ensures Enabled(Forget(s), l) && Step(Forget(s), l) == Forget(Step(s, l))
  {
    hide *;
    if l.ReaderLine? {
      ReaderLineForgets(s);
    } else if OfReader(l) {
      ReaderStepForgets(s, l);
    } else {
      OtherStepForgets(s, l);
    }
  }

  lemma ReaderLineForgets(s: System)
    requires Enabled(s, ReaderLine)
    ensures Enabled(Forget(s), ReaderLine) && Step(Forget(s), ReaderLine) == Forget(Step(s, ReaderLine))
  {
    hide ViewOf, Feed, ReaderEventStep, StayedAnswers;
    var (next, event) := Feed(s.core.clf, s.emitted[s.h.read]);
    ReaderEventForgets(s, next, event);
  }

  lemma ReaderEventForgets(s: System, next: Parser.State, event: Option<ControlEvent>)
    ensures ReaderEventStep(Forget(s), next, event) == Forget(ReaderEventStep(s, next, event))
  {
    hide OnEvent, AfterEffect, StayedAnswers;
    var (core, effect) := OnEvent(s.core.(clf := next), event);
    EffectForgets(s, core, effect, s.h.(read := s.h.read + 1));
  }

  lemma EffectForgets(s: System, core: Core, effect: Effect, h: History)
    ensures AfterEffect(Forget(s), core, effect, h) == Forget(AfterEffect(s, core, effect, h))
  {
    hide Resolve, StayedAnswers;
    if effect.Answer? {
      ResolveStayed(s.answers, s.gone, effect.slot, Sent(effect.result));
    }
  }

  lemma ReaderStepForgets(s: System, l: Label)
    requires Enabled(s, l) && OfReader(l) && !l.ReaderLine?
    ensures Enabled(Forget(s), l) && Step(Forget(s), l) == Forget(Step(s, l))
  {
    hide Enabled, Step, Forget;
    if l.FailInFlight? {
      InFlightForgets(s);
    } else if l.DrainAll? {
      DrainForgets(s);
    } else if l.ReaderClose? {
      CloseForgets(s);
    } else if l.ReaderClaim? {
      ClaimForgets(s);
    } else {
      MoveForgets(s, l);
    }
  }

  lemma InFlightForgets(s: System)
    requires Enabled(s, FailInFlight)
    ensures Enabled(Forget(s), FailInFlight) && Step(Forget(s), FailInFlight) == Forget(Step(s, FailInFlight))
  {
    hide ViewOf, Resolve, StayedAnswers;
    if s.core.inFlight.Some? {
      ResolveStayed(s.answers, s.gone, s.core.inFlight.value.slot, Sent(Err(MID_BLOCK)));
    }
  }

  lemma DrainForgets(s: System)
    requires Enabled(s, DrainAll)
    ensures Enabled(Forget(s), DrainAll) && Step(Forget(s), DrainAll) == Forget(Step(s, DrainAll))
  {
    hide ViewOf, ResolveAll, StayedAnswers;
    ResolveAllStayed(s.answers, s.gone, s.core.deque, Sent(Err(READER_EXITED)));
  }

  lemma CloseForgets(s: System)
    requires Enabled(s, ReaderClose)
    ensures Enabled(Forget(s), ReaderClose) && Step(Forget(s), ReaderClose) == Forget(Step(s, ReaderClose))
  {
    hide ViewOf, ResolveAll, StayedAnswers;
    ResolveAllStayed(s.answers, s.gone, s.core.regQ, Dropped);
  }

  lemma ClaimForgets(s: System)
    requires Enabled(s, ReaderClaim)
    ensures Enabled(Forget(s), ReaderClaim) && Step(Forget(s), ReaderClaim) == Forget(Step(s, ReaderClaim))
  {
    hide ViewOf, Claim, StayedAnswers;
  }

  /** Steps that resolve nothing. */
  lemma MoveForgets(s: System, l: Label)
    requires Enabled(s, l)
    requires l.ReaderStop? || l.OfferSent? || l.OfferFailed? || l.NotifySent? || l.NotifyLost?
      || l.ReaderLock? || l.DrainOne?
    ensures Enabled(Forget(s), l) && Step(Forget(s), l) == Forget(Step(s, l))
  {
    hide ViewOf, StayedAnswers, Resolve, ResolveAll;
  }

  predicate StopsWriter(l: Label) {
    l.WriterRefused? || l.WriterStop? || (l.WriterWrite? && !l.ok) || (l.WriterFlush? && !l.ok)
  }

  lemma OtherStepForgets(s: System, l: Label)
    requires Enabled(s, l) && !OfReader(l) && !l.CallerGone?
    ensures Enabled(Forget(s), l) && Step(Forget(s), l) == Forget(Step(s, l))
  {
    hide *;
    if StopsWriter(l) {
      StopForgets(s, l);
    } else if l.SupervisorDrain? {
      SupervisorForgets(s);
    } else {
      RestForgets(s, l);
    }
  }

  lemma StopForgets(s: System, l: Label)
    requires Enabled(s, l) && StopsWriter(l)
    ensures Enabled(Forget(s), l) && Step(Forget(s), l) == Forget(Step(s, l))
  {
    hide Step, ResolveAll, StayedAnswers, ViewOf;
    StopStep(s, l);
    StopStep(Forget(s), l);
    ResolveAllStayed(s.answers, s.gone, Unregistered(s, l.WriterRefused?), Dropped);
  }

  lemma SupervisorForgets(s: System)
    requires Enabled(s, SupervisorDrain)
    ensures Enabled(Forget(s), SupervisorDrain) && Step(Forget(s), SupervisorDrain) == Forget(Step(s, SupervisorDrain))
  {
    hide ViewOf, ResolveAll, StayedAnswers;
    ResolveAllStayed(s.answers, s.gone, s.core.deque, Sent(Err(SUPERVISOR_EXITED)));
  }

  lemma RestForgets(s: System, l: Label)
    requires Enabled(s, l) && !OfReader(l) && !l.CallerGone? && !StopsWriter(l) && !l.SupervisorDrain?
    ensures Enabled(Forget(s), l) && Step(Forget(s), l) == Forget(Step(s, l))
  {
    hide ViewOf, Feed, Resolve, ResolveAll, ReaderEventStep, StayedAnswers;
  }

  lemma ExecNext(start: System, labels: seq<Label>, s: System, l: Label)
    requires Exec(start, labels) == Some(s) && Enabled(s, l)
    ensures Exec(start, labels + [l]) == Some(Step(s, l))
  {
    hide Step, Enabled;
    assert (labels + [l])[..|labels|] == labels;
  }

  /** A caller that times out never shifts anything: deleting every timeout from a run leaves
      a run, and it ends in the very same state but for who still waits; every reply that was
      refused because its caller had gone is then received by that caller. */
  lemma {:induction false} TimeoutsInvisible(labels: seq<Label>, s: System)
    requires Reaches(labels, s)
    ensures Reaches(WithoutTimeouts(labels), Forget(s))
    decreases |labels|
  {
    hide Step, Enabled, Forget;
    if labels == [] {
      StartForgets();
    } else {
      var l := labels[|labels| - 1];
      var before := Exec(Init(), labels[..|labels| - 1]).value;
      TimeoutsInvisible(labels[..|labels| - 1], before);
      var kept := WithoutTimeouts(labels[..|labels| - 1]);
      if l.CallerGone? {
        GoneForgets(before, l);
        assert kept + [] == kept;
      } else {
        StepForgets(before, l);
        ExecNext(Init(), kept, Forget(before), l);
      }
    }
  }

  lemma StartForgets()
    ensures Forget(Init()) == Init()
  {
  }

  lemma GoneForgets(s: System, l: Label)
    requires l.CallerGone? && Enabled(s, l)
    ensures Forget(Step(s, l)) == Forget(s)
  {
  }

  // ---- Reader and classifier ----

  /** A reply is in flight only inside a flags=1 block and holds exactly that block's content
      so far, so a flags=0 block never adds to it; and no line can begin a block while one is
      in flight, so it is never overwritten. */
  lemma InFlightCoupled(labels: seq<Label>, s: System, line: Line)
    requires Reaches(labels, s) && s.core.inFlight.Some?
    ensures s.h.read <= |s.emitted|
    ensures InOwnBlock(s.core.clf) && s.core.inFlight.value.buf == Content(Told(s).open)
    ensures var after := OnLine(s.core, line).0;
      && (after.inFlight.Some? ==> after.inFlight.value.slot == s.core.inFlight.value.slot)
      && (after.inFlight.Some? ==> after.inFlight.value.buf == s.core.inFlight.value.buf + line + [LF])
  {
    hide ViewOf, Feed, WriterInv, QueueInv, AnswerInv, ExitInv, PairInv, LateInv, ReplyInv, HonestInv, EventInv;
    hide ChannelInv, Enabled, Step;
    RunInv(labels, s);
    EventMatchesState(s.core.clf, line);
  }

  /** Before the drain, while the writer waits on a full registration channel, either the
      reader can take the lock and empty the channel, or every sender in it has its command on
      the pty and its block not yet begun, so tmux owes at least that many blocks: the two tasks
      never wait only on each other. */
  lemma BackPressure(labels: seq<Label>, s: System, i: nat)
    requires Reaches(labels, s) && s.h.drain.None? && InLoop(s.reader)
    requires s.writer.Registering? && |s.core.regQ| == REGISTRATION_CAPACITY
    requires i < |s.core.regQ|
    ensures s.h.read <= |s.emitted|
    ensures s.reader.Claiming? ==> Enabled(s, ReaderClaim)
    ensures !s.reader.Claiming? ==>
      && Begun(Told(s)) <= s.core.regQ[i] < |s.pty| <= |s.h.issued|
      && s.pty[s.core.regQ[i]] == s.h.issued[s.core.regQ[i]]
      && |s.pty| - Begun(Told(s)) >= REGISTRATION_CAPACITY
  {
    hide ViewOf, AnswerInv, LateInv, ReplyInv, HonestInv, EventInv, ChannelInv, Step, Exec;
    RunInv(labels, s);
  }

  // ---- Events ----

  /** The events that go to the event channel rather than to a reply. */
  predicate Forwarded(e: ControlEvent) {
    !e.BeginBlock? && !e.EndBlock? && !e.ErrorBlock? && !e.BlockLine?
  }

  function Forwards(events: seq<ControlEvent>): seq<ControlEvent> {
    if events == [] then []
    else (if Forwarded(events[0]) then [events[0]] else []) + Forwards(events[1..])
  }

  lemma {:induction false} ForwardsConcat(a: seq<ControlEvent>, b: seq<ControlEvent>)
    ensures Forwards(a + b) == Forwards(a) + Forwards(b)
    decreases |a|
  {
    if a == [] {
      assert a + b == b;
    } else {
      assert (a + b)[1..] == a[1..] + b;
      ForwardsConcat(a[1..], b);
      Regroup(if Forwarded(a[0]) then [a[0]] else [], Forwards(a[1..]), Forwards(b));
    }
  }

  /** The classifier has been fed exactly the consumed lines, and every event it forwards
      has been offered to the channel. */
  ghost predicate Classified(s: System) {
    && s.h.read <= |s.emitted|
    && FeedAll(Outside, s.emitted[..s.h.read]).0 == s.core.clf
    && s.h.forwardable == Forwards(FeedAll(Outside, s.emitted[..s.h.read]).1)
  }

  lemma ClassifiedStep(s: System, l: Label)
    requires Classified(s) && Enabled(s, l)
    ensures Classified(Step(s, l))
  {
    hide ViewOf, Feed, FeedAll, Forwards, ResolveAll;
    var t := Step(s, l);
    if l.ReaderLine? {
      ClassifiedLine(s);
    } else if l.TmuxEmit? {
      assert t.emitted[..s.h.read] == s.emitted[..s.h.read];
    }
  }

  lemma ClassifiedLine(s: System)
    requires Classified(s) && Enabled(s, ReaderLine)
    ensures Classified(ReaderLineStep(s))
  {
    hide Feed, FeedAll, ViewOf;
    var done, line := s.emitted[..s.h.read], s.emitted[s.h.read];
    var (next, event) := Feed(s.core.clf, line);
    assert s.emitted[..s.h.read + 1] == done + [line];
    FeedAllConcat(Outside, done, [line]);
    FeedSingle(s.core.clf, line);
    ForwardsConcat(FeedAll(Outside, done).1, Listed(event));
    ExitHasNoCode(s.core.clf, line);
    ForwardedOne(event);
    ForwardableGrows(s, next, event);
  }

  lemma ForwardedOne(event: Option<ControlEvent>)
    ensures Forwards(Listed(event)) == if event.Some? && Forwarded(event.value) then [event.value] else []
  {
    if event.Some? {
      assert Forwards([event.value][1..]) == [];
    }
  }

  lemma ForwardableGrows(s: System, next: Parser.State, event: Option<ControlEvent>)
    requires event.Some? && event.value.Exit? ==> event.value == Exit(None)
    ensures var t := ReaderEventStep(s, next, event);
      && t.h.read == s.h.read + 1 && t.emitted == s.emitted && t.core.clf == next
      && t.h.forwardable == s.h.forwardable + if event.Some? && Forwarded(event.value) then [event.value] else []
  {
    hide OnEvent, BeginsOwn, Resolve, Forwarded;
    var forwardable := s.h.forwardable;
    assert forwardable + [] == forwardable;
    ForwardedEffect(s.core.(clf := next), event);
    match OnEvent(s.core.(clf := next), event).1
    case Offer(_) =>
    case Notify(_) =>
    case Finish(_) =>
    case _ => assert ReaderEventStep(s, next, event).h.forwardable == forwardable;
  }

  /** The reader hands on exactly the events that are not part of a block. */
  lemma ForwardedEffect(c: Core, event: Option<ControlEvent>)
    requires event.Some? && event.value.Exit? ==> event.value == Exit(None)
    ensures var (after, effect) := OnEvent(c, event);
      && after.clf == c.clf
      && (effect.Offer? || effect.Notify? || effect.Finish? <==> event.Some? && Forwarded(event.value))
      && (effect.Offer? || effect.Notify? || effect.Finish? ==> effect.event == event.value)
  {
    hide ErrorText;
  }

  lemma ExitHasNoCode(clf: Parser.State, line: Line)
    ensures var event := Feed(clf, line).1; event.Some? && event.value.Exit? ==> event.value == Exit(None)
  {
    hide Ascii, ParseNotification, ParseBlockHeader, Closes;
    NotificationsAreNoBlocks(line);
  }

  lemma {:induction false} RunClassified(labels: seq<Label>, s: System)
    requires Reaches(labels, s)
    ensures Classified(s)
    decreases |labels|
  {
    hide Step, Enabled;
    if labels == [] {
      assert Init().emitted[..0] == [];
    } else {
      var before := Exec(Init(), labels[..|labels| - 1]).value;
      RunClassified(labels[..|labels| - 1], before);
      ClassifiedStep(before, labels[|labels| - 1]);
    }
  }

  /** What the reader has put on the event channel is a prefix, in order and without loss or
      duplication, of the forwardable events it has classified; while the consumer listens
      and the reader waits for a line, it is all of them. */
  lemma EventsArePrefix(labels: seq<Label>, s: System)
    requires Reaches(labels, s)
    ensures s.h.read <= |s.emitted|
    ensures s.h.put <= Forwards(FeedAll(Outside, s.emitted[..s.h.read]).1)
    ensures s.listening && s.reader.Reading? ==>
      s.h.put == Forwards(FeedAll(Outside, s.emitted[..s.h.read]).1)
  {
    hide ViewOf, FeedAll, Forwards, WriterInv, QueueInv, AnswerInv, ExitInv;
    hide PairInv, LateInv, CouplingInv, ReplyInv, Enabled, Step;
    RunInv(labels, s);
    RunClassified(labels, s);
  }

  /** The consumer gets the reader's events first in, first out. What it has taken and then what
      is still in the channel is, while it listens, exactly what the reader has put there and
      at most one exit of the supervisor's; and what it has taken, but for that exit, is always
      a prefix of the forwardable events classified. */
  lemma ConsumerReceives(labels: seq<Label>, s: System)
    requires Reaches(labels, s)
    ensures s.h.read <= |s.emitted|
    ensures s.listening ==> Without(s.h.received + s.eventQ, s.h.exited) == s.h.put
    ensures Without(s.h.received, s.h.exited) <= Forwards(FeedAll(Outside, s.emitted[..s.h.read]).1)
    ensures s.h.exited.Some? && s.h.exited.value.at < |s.h.received| ==>
      s.h.received[s.h.exited.value.at] == Exit(s.h.exited.value.code)
  {
    hide ViewOf, FeedAll, Forwards, Without, WriterInv, QueueInv, AnswerInv, ExitInv, Exec;
    hide PairInv, LateInv, CouplingInv, ReplyInv, EventInv, Enabled, Step;
    RunInv(labels, s);
    EventsArePrefix(labels, s);
  }

  // ---- The end of the stream ----

  /** The reader has handed on the exit event, or is about to, and will read no more. */
  predicate PastExit(r: Reader) {
    || r.Leaving? || r.Locking? || r.Draining? || r.Drained? || r.Closed?
    || (r.Notifying? && r.lastly)
  }

  /** Line `i` says that tmux exits, where it stands. */
  predicate SaysExit(lines: seq<Line>, i: nat)
    requires i < |lines|
  {
    Feed(FeedAll(Outside, lines[..i]).0, lines[i]).1 == Some(Exit(None))
  }

  ghost predicate StopsAtExit(s: System) {
    && s.h.read <= |s.emitted|
    && forall i: nat :: i < s.h.read && SaysExit(s.emitted, i) ==> i + 1 == s.h.read && PastExit(s.reader)
  }

  /** Nothing but a line moves the reader on in the stream, and past the exit it stays. */
  lemma PastExitStays(s: System, l: Label)
    requires Enabled(s, l) && !l.ReaderLine?
    ensures var t := Step(s, l);
      && t.h.read == s.h.read && s.emitted <= t.emitted && (PastExit(s.reader) ==> PastExit(t.reader))
  {
    hide ViewOf, Begun, Resolve, ResolveAll, Claim, SlotsOf, ReaderLineStep;
    match l
    case TmuxEmit(_) =>
    case _ => hide Begun;
  }

  lemma ExitLine(s: System)
    requires Classified(s) && Enabled(s, ReaderLine)
    ensures var t := ReaderLineStep(s);
      && t.h.read == s.h.read + 1 && t.emitted == s.emitted && !PastExit(s.reader)
      && (SaysExit(s.emitted, s.h.read) <==> PastExit(t.reader))
  {
    hide Feed, FeedAll, Forwards, PastExit, ReaderEventStep;
    var (next, event) := Feed(s.core.clf, s.emitted[s.h.read]);
    ExitHasNoCode(s.core.clf, s.emitted[s.h.read]);
    ExitEvent(s, next, event);
    ReadingOn(s.reader);
  }

  lemma ReadingOn(r: Reader)
    ensures r.Reading? ==> !PastExit(r)
  {
  }

  /** Only an exit makes the reader finish. */
  lemma ExitEvent(s: System, next: Parser.State, event: Option<ControlEvent>)
    requires s.reader.Reading?
    requires event.Some? && event.value.Exit? ==> event.value == Exit(None)
    ensures var t := ReaderEventStep(s, next, event);
      && t.h.read == s.h.read + 1 && t.emitted == s.emitted
      && (event == Some(Exit(None)) <==> PastExit(t.reader))
  {
    hide OnEvent, Resolve;
    OnlyExitFinishes(s.core.(clf := next), event);
  }

  lemma OnlyExitFinishes(c: Core, event: Option<ControlEvent>)
    requires event.Some? && event.value.Exit? ==> event.value == Exit(None)
    ensures OnEvent(c, event).1.Finish? <==> event == Some(Exit(None))
  {
    hide ErrorText;
  }

  lemma StopsAtExitLine(s: System)
    requires StopsAtExit(s) && Classified(s) && Enabled(s, ReaderLine)
    ensures StopsAtExit(ReaderLineStep(s))
  {
    hide Feed, FeedAll, Forwards, SaysExit, PastExit, ReaderLineStep;
    ExitLine(s);
    var t := ReaderLineStep(s);
    assert t.emitted == s.emitted;
  }

  lemma StopsAtExitStep(s: System, l: Label)
    requires StopsAtExit(s) && Classified(s) && Enabled(s, l)
    ensures StopsAtExit(Step(s, l))
  {
    hide Feed, FeedAll, Forwards, SaysExit, PastExit, Enabled, ReaderLineStep;
    var t := Step(s, l);
    if l.ReaderLine? {
      StopsAtExitLine(s);
    } else {
      PastExitStays(s, l);
      forall i: nat | i < s.h.read && SaysExit(t.emitted, i) ensures SaysExit(s.emitted, i) {
        SameLine(s.emitted, t.emitted, i);
      }
    }
  }

  lemma SameLine(lines: seq<Line>, more: seq<Line>, i: nat)
    requires i < |lines| && lines <= more
    ensures SaysExit(lines, i) == SaysExit(more, i)
  {
    hide Feed, FeedAll;
    assert lines[..i] == more[..i];
  }

  /** tmux's own exit line is the last that is read. */
  lemma NothingReadAfterExit(labels: seq<Label>, s: System, i: nat)
    requires Reaches(labels, s) && i < s.h.read
    ensures s.h.read <= |s.emitted|
    ensures SaysExit(s.emitted, i) ==> i + 1 == s.h.read && PastExit(s.reader)
  {
    RunStopsAtExit(labels, s);
    hide SaysExit, PastExit, Enabled, Step;
  }

  lemma {:induction false} RunStopsAtExit(labels: seq<Label>, s: System)
    requires Reaches(labels, s)
    ensures StopsAtExit(s)
    decreases |labels|
  {
    hide Step, Enabled, SaysExit;
    if labels != [] {
      var before := Exec(Init(), labels[..|labels| - 1]).value;
      RunClassified(labels[..|labels| - 1], before);
      RunStopsAtExit(labels[..|labels| - 1], before);
      StopsAtExitStep(before, labels[|labels| - 1]);
    }
  }

  // ---- What ends a task, and nothing else ----

  predicate EndsWriter(l: Label) {
    l.WriterRefused? || l == WriterWrite(false) || l == WriterFlush(false) || l.WriterStop?
  }

  predicate EndsReader(l: Label) { l.ReaderStop? || l.OfferFailed? }

  predicate Cancels(l: Label) { l.Cancel? || l.SupervisorReport? }

  predicate HangsUp(l: Label) { l.ConsumerClose? }

  predicate Happened(labels: seq<Label>, kind: Label -> bool) {
    exists i :: 0 <= i < |labels| && kind(labels[i])
  }

  lemma HappenedNext(labels: seq<Label>, kind: Label -> bool)
    requires labels != []
    ensures Happened(labels, kind) <==> Happened(labels[..|labels| - 1], kind) || kind(labels[|labels| - 1])
  {
    var n := |labels| - 1;
    if Happened(labels, kind) && !kind(labels[n]) {
      var i :| 0 <= i < |labels| && kind(labels[i]);
      assert labels[..n][i] == labels[i];
    }
    if Happened(labels[..n], kind) {
      var i :| 0 <= i < n && kind(labels[..n][i]);
      assert labels[i] == labels[..n][i];
    }
  }

  /** The last line read says that tmux exits. */
  predicate AtExit(s: System) { 0 < s.h.read <= |s.emitted| && SaysExit(s.emitted, s.h.read - 1) }

  predicate OfWriter(l: Label) {
    l.WriterReceive? || l.WriterRegister? || l.WriterWrite? || l.WriterFlush? || EndsWriter(l)
  }

  lemma WriterEnds(s: System, l: Label)
    requires Enabled(s, l) && OfWriter(l)
    ensures Step(s, l).writer.Stopped? <==> EndsWriter(l)
    ensures !s.writer.Stopped?
  {
    hide ViewOf, Begun, Resolve, ResolveAll, Claim, SlotsOf, ReaderLineStep;
  }

  lemma WriterLeftAlone(s: System, l: Label)
    requires Enabled(s, l) && !OfWriter(l) && !l.ReaderLine?
    ensures Step(s, l).writer == s.writer
  {
    hide ViewOf, Begun, Resolve, ResolveAll, Claim, SlotsOf, ReaderLineStep;
  }

  lemma OthersEnd(s: System, l: Label)
    requires Enabled(s, l) && !l.ReaderLine?
    ensures var t := Step(s, l);
      && (t.cancelled <==> s.cancelled || Cancels(l))
      && (t.listening <==> s.listening && !HangsUp(l))
  {
    hide ViewOf, Begun, Resolve, ResolveAll, Claim, SlotsOf, ReaderLineStep;
  }

  lemma ReaderEnds(s: System, l: Label)
    requires Enabled(s, l) && !l.ReaderLine?
    ensures PastExit(Step(s, l).reader) <==> PastExit(s.reader) || EndsReader(l)
  {
    hide ViewOf, Begun, Resolve, ResolveAll, Claim, SlotsOf, ReaderLineStep;
  }

  lemma LineEnds(s: System)
    requires Enabled(s, ReaderLine)
    ensures var t := ReaderLineStep(s);
      t.writer == s.writer && t.cancelled == s.cancelled && t.listening == s.listening
  {
    hide Feed, OnEvent, Resolve;
  }

  lemma LineAtExit(s: System)
    requires Enabled(s, ReaderLine) && Classified(s)
    ensures var t := ReaderLineStep(s); !PastExit(s.reader) && (PastExit(t.reader) <==> AtExit(t))
  {
    hide Feed, FeedAll, Forwards, SaysExit, PastExit, ReaderLineStep;
    ExitLine(s);
  }

  /** In every run: the writer stops for cancellation, a closed channel or a failed write, flush
      or registration; the reader leaves its loop when told to, when output could not be
      forwarded or after tmux's own exit line; and neither for anything else, nor comes back. */
  lemma {:induction false} EndsIff(labels: seq<Label>, s: System)
    requires Reaches(labels, s)
    ensures s.writer.Stopped? <==> Happened(labels, EndsWriter)
    ensures PastExit(s.reader) <==> Happened(labels, EndsReader) || AtExit(s)
    ensures s.cancelled <==> Happened(labels, Cancels)
    ensures !s.listening <==> Happened(labels, HangsUp)
    decreases |labels|
  {
    hide Step, Enabled, SaysExit, PastExit, Happened, EndsWriter, EndsReader, Cancels, HangsUp;
    if labels == [] {
      NothingEnded();
    } else {
      var n := |labels| - 1;
      var before := Exec(Init(), labels[..n]).value;
      EndsIff(labels[..n], before);
      RunClassified(labels[..n], before);
      HappenedNext(labels, EndsWriter);
      HappenedNext(labels, EndsReader);
      HappenedNext(labels, Cancels);
      HappenedNext(labels, HangsUp);
      EndsNext(before, labels[n]);
    }
  }

  lemma NothingEnded()
    ensures var s := Init(); !s.writer.Stopped? && !PastExit(s.reader) && !s.cancelled && s.listening && !AtExit(s)
    ensures !Happened([], EndsWriter) && !Happened([], EndsReader)
    ensures !Happened([], Cancels) && !Happened([], HangsUp)
  {
  }

  lemma StillAtExit(s: System, t: System)
    requires s.h.read <= |s.emitted| && s.emitted <= t.emitted && t.h.read == s.h.read
    ensures AtExit(t) == AtExit(s)
  {
    hide SaysExit;
    if 0 < s.h.read {
      SameLine(s.emitted, t.emitted, s.h.read - 1);
    }
  }

  lemma EndsNext(s: System, l: Label)
    requires Enabled(s, l) && Classified(s)
    ensures var t := Step(s, l);
      && (t.writer.Stopped? <==> s.writer.Stopped? || EndsWriter(l))
      && (t.cancelled <==> s.cancelled || Cancels(l))
      && (t.listening <==> s.listening && !HangsUp(l))
      && (if l.ReaderLine? then !PastExit(s.reader) && !EndsReader(l) && (PastExit(t.reader) <==> AtExit(t))
          else (AtExit(t) <==> AtExit(s)) && (PastExit(t.reader) <==> PastExit(s.reader) || EndsReader(l)))
  {
    hide Feed, FeedAll, Forwards, SaysExit, PastExit, ReaderLineStep, Enabled, AtExit;
    if l.ReaderLine? {
      LineAtExit(s);
      LineEnds(s);
    } else {
      if OfWriter(l) {
        WriterEnds(s, l);
      } else {
        WriterLeftAlone(s, l);
      }
      OthersEnd(s, l);
      ReaderEnds(s, l);
      PastExitStays(s, l);
      StillAtExit(s, Step(s, l));
    }
  }

  // ---- Shutdown ----

  /** The steps of the three tasks themselves. */
  predicate OfTask(l: Label) {
    !l.CallerSend? && !l.CallerGone? && !l.Cancel? && !l.TmuxEmit? && !l.ConsumerTake? && !l.ConsumerClose?
  }

  function WriterRank(w: Writer): nat {
    match w
    case Registering(_) => 4
    case Writing(_) => 3
    case Flushing => 2
    case Idle => 1
    case Stopped => 0
  }

  function ReaderRank(r: Reader): nat {
    match r
    case Claiming => 6
    case Offering(_) => 6
    case Notifying(_, _) => 6
    case Reading => 5
    case Leaving => 4
    case Locking => 3
    case Draining => 2
    case Drained => 1
    case Closed => 0
  }

  function SupervisorRank(sup: Supervisor): nat {
    match sup
    case Watching => 2
    case Reporting => 1
    case Done => 0
  }

  function Rank(s: System): nat {
    2 * WriterRank(s.writer) + ReaderRank(s.reader) + SupervisorRank(s.supervisor) + |s.core.regQ|
  }

  /** After cancellation every task step brings the end closer. */
  lemma ShutdownAdvances(s: System, l: Label)
    requires s.cancelled && OfTask(l) && Enabled(s, l)
    ensures Step(s, l).cancelled && Rank(Step(s, l)) < Rank(s)
  {
    hide Step, Enabled, Rank;
    if OfReader(l) {
      ReaderAdvances(s, l);
    } else {
      OthersAdvance(s, l);
    }
  }

  lemma ReaderAdvances(s: System, l: Label)
    requires s.cancelled && OfReader(l) && Enabled(s, l)
    ensures Step(s, l).cancelled && Rank(Step(s, l)) < Rank(s)
  {
    hide Step, Enabled, Rank;
    if l.ReaderClaim? {
      ClaimAdvances(s);
    } else if l.FailInFlight? || l.ReaderLock? || l.DrainOne? || l.DrainAll? || l.ReaderClose? {
      ExitAdvances(s, l);
    } else {
      LoopAdvances(s, l);
    }
  }

  /** A reader that was waiting for the lock still claims its slot. */
  lemma ClaimAdvances(s: System)
    requires s.cancelled && Enabled(s, ReaderClaim)
    ensures Step(s, ReaderClaim).cancelled && Rank(Step(s, ReaderClaim)) < Rank(s)
  {
    hide ViewOf;
  }

  lemma ExitAdvances(s: System, l: Label)
    requires s.cancelled && Enabled(s, l)
    requires l.FailInFlight? || l.ReaderLock? || l.DrainOne? || l.DrainAll? || l.ReaderClose?
    ensures Step(s, l).cancelled && Rank(Step(s, l)) < Rank(s)
  {
    hide ViewOf, Resolve, ResolveAll, ReaderLineStep, Claim;
  }

  lemma LoopAdvances(s: System, l: Label)
    requires s.cancelled && Enabled(s, l)
    requires l.ReaderLine? || l.ReaderStop? || l.OfferSent? || l.OfferFailed? || l.NotifySent? || l.NotifyLost?
    ensures Step(s, l).cancelled && Rank(Step(s, l)) < Rank(s)
  {
    hide ViewOf, Resolve, ResolveAll, ReaderLineStep, Claim;
  }

  lemma OthersAdvance(s: System, l: Label)
    requires s.cancelled && OfTask(l) && !OfReader(l) && Enabled(s, l)
    ensures Step(s, l).cancelled && Rank(Step(s, l)) < Rank(s)
  {
    hide ViewOf, Feed, Resolve, ResolveAll;
  }

  /** Nobody else can undo that: no step of a caller, tmux or the consumer revokes the
      cancellation or gives the tasks more to do. */
  lemma OthersKeepRank(s: System, l: Label)
    requires s.cancelled && !OfTask(l) && Enabled(s, l)
    ensures Step(s, l).cancelled && Rank(Step(s, l)) == Rank(s)
  {
    hide ViewOf, Feed, ResolveAll;
  }

  function TaskSteps(labels: seq<Label>): nat {
    if labels == [] then 0
    else TaskSteps(labels[..|labels| - 1]) + if OfTask(labels[|labels| - 1]) then 1 else 0
  }

  /** From a cancelled state the tasks take at most `Rank` steps between them, over any run
      and whatever callers, tmux and the consumer do meanwhile. */
  lemma {:induction false} ShutdownIsBounded(s: System, labels: seq<Label>, t: System)
    requires s.cancelled && Exec(s, labels) == Some(t)
    ensures t.cancelled && TaskSteps(labels) + Rank(t) <= Rank(s)
    decreases |labels|
  {
    hide Step, Enabled, Rank, OfTask;
    if labels != [] {
      var l := labels[|labels| - 1];
      var before := Exec(s, labels[..|labels| - 1]).value;
      ShutdownIsBounded(s, labels[..|labels| - 1], before);
      if OfTask(l) {
        ShutdownAdvances(before, l);
      } else {
        OthersKeepRank(before, l);
      }
    }
  }

  predicate AllEnded(s: System) { s.writer.Stopped? && s.reader.Closed? && s.supervisor.Done? }

  /** A task waits, without a time limit, for room in a full event channel; the reader may be
      waiting behind it for the deque's lock. */
  predicate WaitsForConsumer(s: System) {
    && s.listening && |s.eventQ| == EVENT_CAPACITY
    && (s.reader.Notifying? || s.supervisor.Reporting?)
  }

  /** No task can take a step. */
  ghost predicate Stuck(s: System) { forall l :: OfTask(l) ==> !Enabled(s, l) }

  /** After cancellation the tasks can only come to rest by all ending, or because the event
      consumer neither reads nor hangs up. When they have ended nothing is unresolved. */
  lemma ShutdownEnds(labels: seq<Label>, s: System)
    requires Reaches(labels, s) && s.cancelled
    requires Stuck(s)
    ensures AllEnded(s) || WaitsForConsumer(s)
    ensures AllEnded(s) ==> forall k: Slot :: k < |s.h.issued| ==> k in s.answers && |s.answers[k]| == 1
  {
    hide ViewOf, WriterInv, AnswerInv, ExitInv, PairInv, LateInv, CouplingInv, ReplyInv, Step, Exec;
    RunInv(labels, s);
    if AllEnded(s) {
      forall k: Slot | k < |s.h.issued|
        ensures k in s.answers && |s.answers[k]| == 1
      {
        AllResolvedAtEnd(labels, s, k);
      }
    }
    TasksBlocked(s);
  }

  lemma Blocked(s: System, l: Label)
    requires Stuck(s) && OfTask(l)
    ensures !Enabled(s, l)
  {
  }

  lemma TasksBlocked(s: System)
    requires Stuck(s)
    ensures !s.writer.Idle? && !s.writer.Writing? && !s.writer.Flushing?
    ensures s.writer.Registering? ==> !s.reader.Closed?
    ensures s.reader.Closed? || s.reader.Notifying? || s.supervisor.Reporting?
    ensures s.supervisor.Done? || s.supervisor.Reporting?
    ensures s.reader.Notifying? || s.supervisor.Reporting? ==> s.listening && |s.eventQ| >= EVENT_CAPACITY
  {
    hide ViewOf, Stuck;
    Blocked(s, WriterStop);
    Blocked(s, WriterWrite(true));
    Blocked(s, WriterFlush(true));
    Blocked(s, WriterRefused);
    Blocked(s, ReaderClaim);
    Blocked(s, ReaderStop);
    Blocked(s, OfferSent);
    Blocked(s, OfferFailed);
    Blocked(s, NotifySent);
    Blocked(s, NotifyLost);
    Blocked(s, FailInFlight);
    Blocked(s, ReaderLock);
    Blocked(s, DrainOne);
    Blocked(s, DrainAll);
    Blocked(s, ReaderClose);
    Blocked(s, SupervisorDrain);
    Blocked(s, SupervisorReport(None));
  }
}
