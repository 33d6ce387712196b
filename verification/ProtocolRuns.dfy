/** The driver against whole tmux transcripts: rendered blocks reach their own commands. And two
    runs at its edges: a block that claims a slot after the supervisor's drain, and a shutdown
    that stalls. */
module ProtocolRuns {
  import opened Bytes
  import opened Parser
  import opened Protocol
  import opened ProtocolInvariant
  import opened ProtocolTheorems
  import Numbers
  import Text

  // ---- Rendered transcripts ----

  function ItemReplies(item: Item): seq<Reply> {
    match item
    case Notification(_) => []
    case Notice(_) => []
    case Block(_, _, flags, body, ok, _, _) => if flags == 1 then [Reply(ok, body)] else []
  }

  /** The flags=1 blocks of a transcript, in order. */
  function Replies(items: seq<Item>): seq<Reply> {
    if items == [] then [] else ItemReplies(items[0]) + Replies(items[1..])
  }

  function ObserveAll(v: View, lines: seq<Line>): View
    decreases |lines|
  {
    if lines == [] then v else ObserveAll(Observe(v, lines[0]), lines[1..])
  }

  lemma {:induction false} ObserveAllConcat(v: View, a: seq<Line>, b: seq<Line>)
    ensures ObserveAll(v, a + b) == ObserveAll(ObserveAll(v, a), b)
    decreases |a|
  {
    hide Observe;
    if a == [] {
      assert a + b == b;
    } else {
      assert (a + b)[1..] == a[1..] + b;
      ObserveAllConcat(Observe(v, a[0]), a[1..], b);
    }
  }

  lemma {:induction false} ViewIsFold(lines: seq<Line>)
    ensures ViewOf(lines) == ObserveAll(View(Outside, [], []), lines)
    decreases |lines|
  {
    hide Observe;
    if lines != [] {
      var a, b := lines[..|lines| - 1], lines[|lines| - 1];
      ViewIsFold(a);
      ObserveAllConcat(View(Outside, [], []), a, [b]);
      assert a + [b] == lines;
      ObserveOne(ViewOf(a), b);
    }
  }

  lemma {:induction false} ObserveBody(v: View, body: seq<Line>)
    requires v.clf.InsideBlock? && forall i :: 0 <= i < |body| ==> IsContent(body[i], v.clf.cmdNum)
    ensures ObserveAll(v, body) == if v.clf.flags == 1 then v.(open := v.open + body) else v
    decreases |body|
  {
    if body == [] {
      assert v.open + body == v.open;
    } else {
      assert IsContent(body[0], v.clf.cmdNum);
      ObserveBody(Observe(v, body[0]), body[1..]);
      assert v.open + body == (v.open + [body[0]]) + body[1..];
    }
  }

  lemma ObserveOne(v: View, line: Line)
    ensures ObserveAll(v, [line]) == Observe(v, line)
  {
    hide Observe;
    var one: seq<Line> := [line];
    assert one[1..] == [];
    assert ObserveAll(Observe(v, line), one[1..]) == Observe(v, line);
  }

  lemma ObserveBegin(v: View, ts: nat, cmdNum: nat, flags: nat)
    requires v.clf.Outside? && cmdNum < Numbers.U32_LIMIT && flags < Numbers.U32_LIMIT
    ensures Observe(v, Marker(BEGIN, ts, cmdNum, flags)) == View(InsideBlock(cmdNum, flags), [], v.replies)
  {
    hide Feed, Marker;
    BeginFeeds(ts, cmdNum, flags);
  }

  lemma ObserveClose(v: View, ok: bool, ts: nat, closeFlags: nat)
    requires v.clf.InsideBlock? && v.clf.cmdNum < Numbers.U32_LIMIT && closeFlags < Numbers.U32_LIMIT
    ensures Observe(v, Marker(if ok then END else ERROR, ts, v.clf.cmdNum, closeFlags))
         == View(Outside, [], v.replies + if v.clf.flags == 1 then [Reply(ok, v.open)] else [])
  {
    hide Feed, Marker;
    CloserClosesOnlyItsOwn(ts, v.clf.cmdNum, closeFlags, v.clf.cmdNum, v.clf.flags);
  }

  lemma ObserveNotice(v: View, line: Line)
    requires v.clf.Outside? && WellFormed(Notice(line))
    ensures ObserveAll(v, [line]).clf.Outside? && ObserveAll(v, [line]).replies == v.replies
  {
    hide FeedOutside, ObserveAll;
    ObserveOne(v, line);
    EventMatchesState(Outside, line);
  }

  lemma ObserveItem(v: View, item: Item)
    requires v.clf.Outside? && WellFormed(item)
    ensures var after := ObserveAll(v, RenderItem(item));
      after.clf.Outside? && after.replies == v.replies + ItemReplies(item)
  {
    hide Observe, ObserveAll, Marker;
    match item
    case Notification(event) =>
      NoticeRoundTrip(event);
      ObserveNotice(v, NoticeLine(event));
    case Notice(line) => ObserveNotice(v, line);
    case Block(ts, cmdNum, flags, body, ok, closeTs, closeFlags) =>
      var first := Marker(BEGIN, ts, cmdNum, flags);
      var last := Marker(if ok then END else ERROR, closeTs, cmdNum, closeFlags);
      var inside := View(InsideBlock(cmdNum, flags), [], v.replies);
      ObserveBegin(v, ts, cmdNum, flags);
      ObserveOne(v, first);
      ObserveBody(inside, body);
      assert [] + body == body;
      ObserveClose(ObserveAll(inside, body), ok, closeTs, closeFlags);
      ObserveOne(ObserveAll(inside, body), last);
      ObserveAllConcat(v, [first], body);
      ObserveAllConcat(v, [first] + body, [last]);
  }

  lemma {:induction false} ObserveItems(v: View, items: seq<Item>)
    requires v.clf.Outside? && forall i :: 0 <= i < |items| ==> WellFormed(items[i])
    ensures ObserveAll(v, Render(items)).replies == v.replies + Replies(items)
    decreases |items|
  {
    hide Observe, RenderItem, ItemReplies, WellFormed;
    if items != [] {
      ObserveItem(v, items[0]);
      ObserveItems(ObserveAll(v, RenderItem(items[0])), items[1..]);
      ObserveAllConcat(v, RenderItem(items[0]), Render(items[1..]));
      Regroup(v.replies, ItemReplies(items[0]), Replies(items[1..]));
    }
  }

  /** When tmux writes any transcript of notifications and blocks, then at every moment of
      every run, the commands whose blocks have been read to their ends have exactly
      the first blocks of the transcript, in order, each with its own lines. */
  lemma TranscriptAnswers(labels: seq<Label>, s: System, items: seq<Item>, k: nat)
    requires Reaches(labels, s)
    requires forall i :: 0 <= i < |items| ==> WellFormed(items[i])
    requires s.emitted <= Render(items)
    requires s.h.read <= |s.emitted| && k < |Told(s).replies|
    ensures k < |Replies(items)|
    ensures k in s.answers && s.answers[k] == [Arrives(s.gone, k, Sent(ResultOf(Replies(items)[k])))]
  {
    hide *;
    RepliesInOrder(labels, s, k);
    TranscriptViews(s, items);
  }

  lemma TranscriptViews(s: System, items: seq<Item>)
    requires forall i :: 0 <= i < |items| ==> WellFormed(items[i])
    requires s.h.read <= |s.emitted| && s.emitted <= Render(items)
    ensures Told(s).replies <= Replies(items)
  {
    hide Render, Replies, WellFormed, ViewOf, ObserveAll;
    var all := Render(items);
    assert all[..s.h.read] == s.emitted[..s.h.read];
    ViewOfGrows(all, s.h.read);
    ViewIsFold(all);
    ObserveItems(View(Outside, [], []), items);
    assert [] + Replies(items) == Replies(items);
  }

  // ---- A run where a block claims after the drain ----

  /** Send one command and let the writer register and write it. */
  lemma SendAndWrite(labels: seq<Label>, s: System, line: Line) returns (after: seq<Label>, t: System)
    requires Reaches(labels, s)
    requires s.writer.Idle? && s.cmdQ == [] && !s.cancelled && !s.reader.Closed?
    requires |s.core.regQ| < REGISTRATION_CAPACITY
    ensures Reaches(after, t)
    ensures t == s.(pty := s.pty + [line],
                    core := s.core.(regQ := s.core.regQ + [|s.h.issued|]),
                    h := s.h.(issued := s.h.issued + [line], registered := s.h.registered + 1))
  {
    hide ViewOf, Exec;
    var cmd := Command(line, |s.h.issued|);
    var s1 := Step(s, CallerSend(line));
    ExecNext(Init(), labels, s, CallerSend(line));
    var s2 := Step(s1, WriterReceive);
    ExecNext(Init(), labels + [CallerSend(line)], s1, WriterReceive);
    var s3 := Step(s2, WriterRegister);
    ExecNext(Init(), labels + [CallerSend(line)] + [WriterReceive], s2, WriterRegister);
    var s4 := Step(s3, WriterWrite(true));
    ExecNext(Init(), labels + [CallerSend(line)] + [WriterReceive] + [WriterRegister], s3, WriterWrite(true));
    ExecNext(Init(), labels + [CallerSend(line)] + [WriterReceive] + [WriterRegister] + [WriterWrite(true)],
             s4, WriterFlush(true));
    after := labels + [CallerSend(line)] + [WriterReceive] + [WriterRegister] + [WriterWrite(true)]
      + [WriterFlush(true)];
    t := Step(s4, WriterFlush(true));
  }

  /** tmux writes one line and the reader handles it. */
  lemma EmitAndRead(labels: seq<Label>, s: System, line: Line) returns (after: seq<Label>, t: System)
    requires Reaches(labels, s) && s.reader.Reading? && !s.cancelled && s.h.read == |s.emitted|
    requires Begun(Observe(ViewOf(s.emitted), line)) <= |s.pty|
    ensures Reaches(after, t)
    ensures var (next, event) := Feed(s.core.clf, line);
      t == ReaderEventStep(s.(emitted := s.emitted + [line]), next, event)
    ensures ViewOf(s.emitted + [line]) == Observe(ViewOf(s.emitted), line)
  {
    hide Exec, Feed, Observe, ViewOf, ReaderEventStep;
    var all := s.emitted + [line];
    assert all[..|s.emitted|] == s.emitted && all[..|s.emitted| + 1] == all;
    ViewOfNext(all, |s.emitted|);
    var s1 := Step(s, TmuxEmit(line));
    ExecNext(Init(), labels, s, TmuxEmit(line));
    ExecNext(Init(), labels + [TmuxEmit(line)], s1, ReaderLine);
    after := labels + [TmuxEmit(line)] + [ReaderLine];
    t := Step(s1, ReaderLine);
  }

  /** tmux begins an own block and the reader waits for the lock. */
  lemma BeginRead(labels: seq<Label>, s: System, cmdNum: nat) returns (after: seq<Label>, t: System)
    requires Reaches(labels, s) && s.reader.Reading? && !s.cancelled && s.h.read == |s.emitted|
    requires ViewOf(s.emitted).clf == s.core.clf == Outside && cmdNum < Numbers.U32_LIMIT
    requires |ViewOf(s.emitted).replies| < |s.pty|
    ensures Reaches(after, t)
    ensures var line := Marker(BEGIN, 0, cmdNum, 1);
      && t == s.(emitted := s.emitted + [line], reader := Claiming,
                 core := s.core.(clf := InsideBlock(cmdNum, 1)), h := s.h.(read := s.h.read + 1))
      && ViewOf(t.emitted) == View(InsideBlock(cmdNum, 1), [], ViewOf(s.emitted).replies)
  {
    hide Feed, Observe, ViewOf, Marker, Exec;
    var line := Marker(BEGIN, 0, cmdNum, 1);
    BeginFeeds(0, cmdNum, 1);
    ObserveBegin(ViewOf(s.emitted), 0, cmdNum, 1);
    after, t := EmitAndRead(labels, s, line);
  }

  /** It gets the lock and finds a caller. */
  lemma BlockClaimed(labels: seq<Label>, s: System) returns (after: seq<Label>, t: System)
    requires Reaches(labels, s) && s.reader.Claiming? && !s.supervisor.Reporting?
    requires s.core.deque + s.core.regQ != []
    ensures Reaches(after, t)
    ensures var q := s.core.deque + s.core.regQ;
      t == s.(reader := Reading, core := Core(s.core.clf, Some(InFlight(q[0], [])), s.core.autoBuf, q[1..], []),
              h := s.h.(taken := s.h.taken + 1, pairs := s.h.pairs + [Some(q[0])]))
  {
    hide Exec, ViewOf;
    ExecNext(Init(), labels, s, ReaderClaim);
    after, t := labels + [ReaderClaim], Step(s, ReaderClaim);
  }

  /** tmux ends the block in flight and the reader answers its slot. */
  lemma EndAnswered(labels: seq<Label>, s: System) returns (after: seq<Label>, t: System)
    requires Reaches(labels, s) && s.reader.Reading? && !s.cancelled && s.h.read == |s.emitted|
    requires ViewOf(s.emitted).clf == s.core.clf && InOwnBlock(s.core.clf) && s.core.inFlight.Some?
    requires s.core.clf.cmdNum < Numbers.U32_LIMIT
    requires |ViewOf(s.emitted).replies| < |s.pty|
    ensures Reaches(after, t)
    ensures var f := s.core.inFlight.value; var view := ViewOf(s.emitted);
      && t == s.(emitted := s.emitted + [Marker(END, 0, s.core.clf.cmdNum, 1)],
                 core := s.core.(clf := Outside, inFlight := None),
                 answers := Resolve(s.answers, s.gone, f.slot, Sent(Ok(f.buf))),
                 h := s.h.(read := s.h.read + 1))
      && ViewOf(t.emitted) == View(Outside, [], view.replies + [Reply(true, view.open)])
  {
    hide Feed, Observe, ViewOf, Marker, Exec;
    var line := Marker(END, 0, s.core.clf.cmdNum, 1);
    CloserClosesOnlyItsOwn(0, s.core.clf.cmdNum, 1, s.core.clf.cmdNum, 1);
    ObserveClose(ViewOf(s.emitted), true, 0, 1);
    after, t := EmitAndRead(labels, s, line);
  }

  /** The supervisor reports, cancels and lets go of the lock. */
  lemma Reported(labels: seq<Label>, s: System) returns (after: seq<Label>, t: System)
    requires Reaches(labels, s) && s.supervisor.Reporting? && HasRoom(s)
    ensures Reaches(after, t)
    ensures t == s.(supervisor := Done, cancelled := true, eventQ := s.eventQ + [Exit(None)],
                    h := s.h.(exited := Some(Exited(|s.h.received| + |s.eventQ|, None))))
  {
    hide Exec, ViewOf;
    ExecNext(Init(), labels, s, SupervisorReport(None));
    after, t := labels + [SupervisorReport(None)], Step(s, SupervisorReport(None));
  }

  /** The cancelled reader leaves its loop and fails the reply in flight. */
  lemma LeftMidBlock(labels: seq<Label>, s: System) returns (after: seq<Label>, t: System)
    requires Reaches(labels, s) && s.reader.Reading? && s.core.inFlight.Some?
    requires s.gone == {} && s.core.inFlight.value.slot !in s.answers
    ensures Reaches(after, t)
    ensures t == s.(reader := Locking, core := s.core.(inFlight := None),
                    answers := s.answers[s.core.inFlight.value.slot := [Sent(Err(MID_BLOCK))]])
  {
    hide Exec, ViewOf;
    ResolvedKeys(s.answers, s.core.inFlight.value.slot, Sent(Err(MID_BLOCK)));
    ExecNext(Init(), labels, s, ReaderStop);
    ExecNext(Init(), labels + [ReaderStop], Step(s, ReaderStop), FailInFlight);
    after, t := labels + [ReaderStop] + [FailInFlight], Step(Step(s, ReaderStop), FailInFlight);
  }

  /** A drain that catches a queued slot while the reader waits for the lock pairs a block with
      another command, and no reply goes astray. Three commands are written and tmux answers
      one and begins the second block; the drain fails the second caller; the reader gets the
      lock after cancellation and gives the second block to the third caller, who is then told
      that the reader exited mid-block. */
  lemma LateClaimFails(a: Line, b: Line, c: Line) returns (labels: seq<Label>, s: System)
    ensures Reaches(labels, s) && s.pty == [a, b, c]
    ensures s.h.drain == Some(Drain(1, 1))
    ensures s.h.pairs == [Some(0), Some(2)]
    ensures s.answers.Keys == {0, 1, 2}
    ensures s.answers[0] == [Sent(Ok([]))] && s.answers[1] == [Sent(Err(SUPERVISOR_EXITED))]
    ensures s.answers[2] == [Sent(Err(MID_BLOCK))]
  {
    hide Step, Enabled, Exec, ViewOf, Marker, Resolve;
    var s0, s1, s2, s3, s4, s5, s6, s7, s8, s9, s10;
    labels, s0 := [], Init();
    StartView();
    labels, s1 := SendAndWrite(labels, s0, a);
    labels, s2 := SendAndWrite(labels, s1, b);
    labels, s3 := BeginRead(labels, s2, 7);
    labels, s4 := BlockClaimed(labels, s3);
    labels, s5 := EndAnswered(labels, s4);
    ResolvedKeys(s4.answers, 0, Sent(Ok([])));
    labels, s6 := BeginRead(labels, s5, 8);
    labels, s7 := DrainOneQueued(labels, s6);
    labels, s8 := SendAndWrite(labels, s7, c);
    labels, s9 := Reported(labels, s8);
    labels, s10 := BlockClaimed(labels, s9);
    labels, s := LeftMidBlock(labels, s10);
  }

  lemma StartView()
    ensures Reaches([], Init()) && ViewOf(Init().emitted) == View(Outside, [], [])
  {
  }

  lemma ResolvedKeys(answers: map<Slot, seq<Resolution>>, k: Slot, r: Resolution)
    requires k !in answers
    ensures Resolve(answers, {}, k, r) == answers[k := [r]]
  {
    assert [] + [r] == [r];
  }

  lemma DrainOneQueued(labels: seq<Label>, s: System) returns (after: seq<Label>, t: System)
    requires Reaches(labels, s) && s.supervisor.Watching? && !s.reader.Draining?
    requires |s.core.deque| == 1 && s.core.deque[0] !in s.answers && s.gone == {}
    ensures Reaches(after, t)
    ensures t == s.(supervisor := Reporting, core := s.core.(deque := []),
                    answers := s.answers[s.core.deque[0] := [Sent(Err(SUPERVISOR_EXITED))]],
                    h := s.h.(taken := s.h.taken + 1, drain := Some(Drain(|s.h.pairs|, 1))))
  {
    hide Exec, ViewOf;
    var r := Sent(Err(SUPERVISOR_EXITED));
    ResolvedKeys(s.answers, s.core.deque[0], r);
    assert s.core.deque[1..] == [];
    var one := Resolve(s.answers, s.gone, s.core.deque[0], r);
    assert ResolveAll(one, s.gone, [], r) == one;
    ExecNext(Init(), labels, s, SupervisorDrain);
    after, t := labels + [SupervisorDrain], Step(s, SupervisorDrain);
  }

  // ---- A run that never ends ----

  /** Nothing but notifications has happened, and all of them are on the event channel. */
  ghost predicate OnlyNotices(s: System, n: nat) {
    && s.writer.Idle? && s.reader.Reading? && s.supervisor.Watching? && !s.cancelled && s.listening
    && s.core == Core(Outside, None, [], [], []) && s.h.read == |s.emitted|
    && ViewOf(s.emitted) == View(Outside, [], [])
    && |s.eventQ| == n
  }

  /** The shortest notification, which the classifier surfaces as unknown. */
  const NOTICE: Line := [PERCENT]

  lemma NoticeFeeds()
    ensures Feed(Outside, NOTICE) == (Outside, Some(Ignored(NOTICE, NOTICE)))
    ensures Observe(View(Outside, [], []), NOTICE) == View(Outside, [], [])
  {
    Text.AsciiIsValid(NOTICE);
    assert |OUTPUT| > 1 && |BEGIN| > 1 && |SESSION_CHANGED| > 1 && |SESSIONS_CHANGED_LINE| > 1 && |WINDOW_ADD| > 1;
    assert |WINDOW_CLOSE| > 1 && |WINDOW_RENAMED| > 1 && |WINDOW_PANE_CHANGED| > 1 && |LAYOUT_CHANGE| > 1;
    assert |PANE_MODE_CHANGED| > 1 && |CLIENT_DETACHED| > 1 && |CLIENT_DETACHED_LINE| > 1;
    assert |EXIT| > 1 && |EXIT_LINE| > 1;
    assert SplitWord(NOTICE) == (NOTICE, []);
    hide Text.ValidUtf8, ParsePaneChanged, ParseOutput, ParseBlockHeader, Ascii, SplitWord;
  }

  /** tmux writes a notification and the reader classifies it. */
  lemma NoticeRead(labels: seq<Label>, s: System, n: nat) returns (after: seq<Label>, t: System)
    requires Reaches(labels, s) && OnlyNotices(s, n)
    ensures Reaches(after, t)
    ensures t.reader == Notifying(Ignored(NOTICE, NOTICE), false) && OnlyNotices(t.(reader := Reading), n)
  {
    hide Exec, Feed, Observe, ViewOf;
    NoticeFeeds();
    after, t := EmitAndRead(labels, s, NOTICE);
  }

  lemma {:induction false} FillChannel(n: nat) returns (labels: seq<Label>, s: System)
    requires n <= EVENT_CAPACITY
    ensures Reaches(labels, s) && OnlyNotices(s, n)
    decreases n
  {
    if n == 0 {
      labels, s := [], Init();
      StartView();
    } else {
      var before, full;
      before, full := FillChannel(n - 1);
      before, full := NoticeRead(before, full, n - 1);
      hide Exec, ViewOf;
      ExecNext(Init(), before, full, NotifySent);
      labels, s := before + [NotifySent], Step(full, NotifySent);
    }
  }

  /** Shutdown can wait for ever: tmux fills the event channel with 1024 notifications and
      writes one more, the consumer neither reads nor hangs up, and after cancellation no task
      can take a step although reader and supervisor have not ended. */
  lemma ConsumerStall() returns (labels: seq<Label>, s: System)
    ensures Reaches(labels, s) && s.cancelled
    ensures Stuck(s) && !AllEnded(s) && WaitsForConsumer(s)
  {
    hide Exec, ViewOf;
    var run0, s0 := FillChannel(EVENT_CAPACITY);
    var run1, s1 := NoticeRead(run0, s0, EVENT_CAPACITY);
    ExecNext(Init(), run1, s1, Cancel);
    var s2 := Step(s1, Cancel);
    ExecNext(Init(), run1 + [Cancel], s2, WriterStop);
    var s3 := Step(s2, WriterStop);
    ExecNext(Init(), run1 + [Cancel] + [WriterStop], s3, SupervisorDrain);
    labels, s := run1 + [Cancel] + [WriterStop] + [SupervisorDrain], Step(s3, SupervisorDrain);
  }
}
