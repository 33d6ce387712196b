/** The tasks' own code, with their fields updated in place, proved against the step functions
    of the driver (src/tmux/control_mode.rs, `writer_loop`, `reader_loop`,
    `forward_or_coalesce`, `supervisor_loop`). */
module TaskLoops {
  import opened Bytes
  import opened Parser
  import opened Protocol

  class WriterTask {
    /** The slots it has put on the registration channel, and the lines it has written. */
    var registered: seq<Slot>
    var pty: seq<Line>

    constructor ()
      ensures registered == [] && pty == []
    {
      registered, pty := [], [];
    }

    /** `received` is what the command channel yields before it closes or the token is
        cancelled. Whether the n-th registration, write and flush succeed is up to `open`,
        `writes` and `flushes`. The first failure ends the loop, and a slot is always
        registered before its line is written. */
    method WriterLoop(received: seq<Command>, open: nat -> bool, writes: nat -> bool, flushes: nat -> bool)
      returns (handled: nat)
      requires registered == [] && pty == []
      modifies this
      ensures handled <= |received|
      ensures forall i :: 0 <= i < handled ==> open(i) && writes(i) && flushes(i)
      ensures handled < |received| ==> !(open(handled) && writes(handled) && flushes(handled))
      ensures var r := handled + if handled < |received| && open(handled) then 1 else 0;
        |registered| == r && forall i :: 0 <= i < r ==> registered[i] == received[i].slot
      ensures var w := handled + if handled < |received| && open(handled) && writes(handled) then 1 else 0;
        |pty| == w && forall i :: 0 <= i < w ==> pty[i] == received[i].line
    {
      handled := 0;
      while handled < |received|
        invariant handled <= |received| && |registered| == handled && |pty| == handled
        invariant forall i :: 0 <= i < handled ==>
          && open(i) && writes(i) && flushes(i)
          && registered[i] == received[i].slot && pty[i] == received[i].line
        decreases |received| - handled
      {
        var req := received[handled];
        if !open(handled) { return; }
        registered := registered + [req.slot];
        if !writes(handled) { return; }
        pty := pty + [req.line];
        if !flushes(handled) { return; }
        handled := handled + 1;
      }
    }
  }

  /** `pending` is the shared deque, `pendingRx` what the registration channel holds. */
  class ReaderTask {
    const clf: LineClassifier
    var inFlight: Option<InFlight>
    var autoBuf: seq<byte>
    var pending: seq<Slot>
    var pendingRx: seq<Slot>

    constructor ()
      ensures Fields() == Core(Outside, None, [], [], []) && fresh(clf)
    {
      clf := new LineClassifier();
      inFlight, autoBuf, pending, pendingRx := None, [], [], [];
    }

    function Fields(): Core
      reads this, clf
    {
      Core(clf.state, inFlight, autoBuf, pending, pendingRx)
    }

    /** Move every registration that has arrived to the deque, in order. */
    method ReceiveRegistrations()
      modifies this`pending, this`pendingRx
      ensures pending == old(pending) + old(pendingRx) && pendingRx == []
    {
      while pendingRx != []
        invariant pending + pendingRx == old(pending) + old(pendingRx)
        decreases |pendingRx|
      {
        assert pendingRx == [pendingRx[0]] + pendingRx[1..];
        pending := pending + [pendingRx[0]];
        pendingRx := pendingRx[1..];
      }
      assert pending + [] == pending;
    }

    /** One line through the body of the loop. What the effect asks for is the next await. */
    method HandleLine(line: Line) returns (effect: Effect)
      modifies this, clf
      ensures (Fields(), effect) == OnLine(old(Fields()), line)
    {
      hide Feed, OnEvent;
      var event := clf.FeedLine(line);
      effect := HandleEvent(event);
    }

    /** With the lock, after `AwaitLock`. */
    method ClaimSlot() returns (claimed: bool)
      modifies this
      ensures Fields() == Claim(old(Fields())) && claimed == (old(pending) + old(pendingRx) != [])
    {
      ReceiveRegistrations();
      claimed := pending != [];
      if claimed {
        inFlight := Some(InFlight(pending[0], []));
        pending := pending[1..];
      }
    }

    method HandleEvent(event: Option<ControlEvent>) returns (effect: Effect)
      modifies this
      ensures (Fields(), effect) == OnEvent(old(Fields()), event)
    {
      hide ErrorText;
      effect := Quiet;
      match event
      case Some(BeginBlock(_, flags)) =>
        if flags == 1 {
          effect := AwaitLock;
        } else {
          autoBuf := [];
        }
      case Some(BlockLine(_, content)) =>
        if inFlight.Some? {
          var f := inFlight.value;
          inFlight := Some(InFlight(f.slot, f.buf + content + [LF]));
        } else {
          autoBuf := autoBuf + content + [LF];
        }
      case Some(EndBlock(_, flags)) =>
        if flags == 1 {
          if inFlight.Some? {
            effect := Answer(inFlight.value.slot, Ok(inFlight.value.buf));
            inFlight := None;
          }
        } else {
          autoBuf := [];
        }
      case Some(ErrorBlock(_, flags)) =>
        if flags == 1 {
          if inFlight.Some? {
            effect := Answer(inFlight.value.slot, Err(ErrorText(inFlight.value.buf)));
            inFlight := None;
          }
        } else {
          autoBuf := [];
        }
      case Some(Output(_, _)) => effect := Offer(event.value);
      case Some(Exit(_)) => effect := Finish(Exit(None));
      case Some(ev) => effect := Notify(ev);
      case None =>
    }

    /** After the loop: everything in flight or queued is failed, in that order, and nothing
        is left behind. */
    method Leave() returns (failed: seq<(Slot, BlockResult)>)
      modifies this
      ensures inFlight.None? && pending == [] && pendingRx == []
      ensures var f := old(inFlight); var q := old(pending) + old(pendingRx);
        && |failed| == |q| + (if f.Some? then 1 else 0)
        && (f.Some? ==> failed[0] == (f.value.slot, Err(MID_BLOCK)))
        && forall i :: 0 <= i < |q| ==> failed[|failed| - |q| + i] == (q[i], Err(READER_EXITED))
    {
      failed := [];
      if inFlight.Some? {
        failed := [(inFlight.value.slot, Err(MID_BLOCK))];
        inFlight := None;
      }
      ReceiveRegistrations();
      var drained := FailAll(READER_EXITED);
      failed := failed + drained;
    }

    /** `for sender in q.drain(..)`, as the reader and the supervisor run it. */
    method FailAll(reason: seq<byte>) returns (failed: seq<(Slot, BlockResult)>)
      modifies this`pending
      ensures pending == []
      ensures |failed| == |old(pending)|
      ensures forall i :: 0 <= i < |failed| ==> failed[i] == (old(pending)[i], Err(reason))
    {
      failed := [];
      while pending != []
        invariant |failed| + |pending| == |old(pending)|
        invariant pending == old(pending)[|failed|..]
        invariant forall i :: 0 <= i < |failed| ==> failed[i] == (old(pending)[i], Err(reason))
        decreases |pending|
      {
        failed := failed + [(pending[0], Err(reason))];
        pending := pending[1..];
      }
    }
  }

  // ---- Handing an Output event to a channel that may be full ----

  const COALESCE_LIMIT: nat := 32

  /** What an attempt finds: room, a full channel (or no room within 100 ms), or a channel
      whose receiver is gone. */
  datatype Probe = Room | Full | Gone

  /** `tries(i)` is what the i-th `try_send` finds and `waits(i)` how the i-th timed wait for
      room ends. The event is sent once or not at all, at the first attempt that finds room;
      the first attempt that finds the channel gone ends it; and otherwise it ends after
      exactly 33 attempts and 32 waits, none of which found room. */
  method ForwardOrCoalesce(event: ControlEvent, tries: nat -> Probe, waits: nat -> Probe)
    returns (ok: bool, sent: seq<ControlEvent>, tried: nat, waited: nat)
    ensures sent == if ok then [event] else []
    ensures 1 <= tried <= COALESCE_LIMIT + 1 && waited <= COALESCE_LIMIT
    ensures tried == waited || tried == waited + 1
    ensures forall i: nat :: i < tried - 1 ==> tries(i).Full?
    ensures forall i: nat :: i < waited - 1 ==> waits(i).Full?
    ensures tried == waited ==> tries(tried - 1).Full? && !waits(waited - 1).Full? && ok == waits(waited - 1).Room?
    ensures tried > waited ==> (waited > 0 ==> waits(waited - 1).Full?) && ok == tries(tried - 1).Room?
    ensures tried > waited && tries(tried - 1).Full? ==> tried == COALESCE_LIMIT + 1
  {
    sent, tried, waited := [], 1, 0;
    match tries(0) {
      case Room => return true, [event], 1, 0;
      case Gone => return false, [], 1, 0;
      case Full =>
    }
    for n := 0 to COALESCE_LIMIT
      invariant tried == n + 1 && waited == n && sent == []
      invariant forall i: nat :: i < tried ==> tries(i).Full?
      invariant forall i: nat :: i < waited ==> waits(i).Full?
    {
      waited := waited + 1;
      match waits(n) {
        case Room => return true, [event], tried, waited;
        case Gone => return false, [], tried, waited;
        case Full =>
      }
      tried := tried + 1;
      match tries(n + 1) {
        case Room => return true, [event], tried, waited;
        case Gone => return false, [], tried, waited;
        case Full =>
      }
    }
    ok := false;
  }
}
