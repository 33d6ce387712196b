/** The per-session status poller (src/status/poller.rs). */
module Poller {
  import opened Bytes
  import Numbers

  const BASE_INTERVAL: nat := 750
  const ERROR_THRESHOLD: nat := 5
  const BACKOFFS: seq<nat> := [3000, 9000, 27000, 60000]
  const MAX_ERRORS: nat := Numbers.U32_LIMIT - 1

  datatype Status = Idle | Working | NeedsInput | IdleNotify | Unknown

  /** What one poll finds: the pane's command and screen, or an error message. */
  datatype Outcome = Polled(command: seq<byte>, screen: seq<byte>) | Failed(message: seq<byte>)

  datatype PollerEvent = StatusChanged(status: Status, command: seq<byte>) | Error(message: seq<byte>)

  /** The screen matcher is any function. */
  type Matcher = (seq<byte>, seq<byte>) -> Status

  /** Milliseconds slept before the next poll. */
  function IntervalFor(errors: nat): nat {
    if errors < ERROR_THRESHOLD then BASE_INTERVAL
    else if errors - ERROR_THRESHOLD < |BACKOFFS| then BACKOFFS[errors - ERROR_THRESHOLD]
    else BACKOFFS[|BACKOFFS| - 1]
  }

  // ---- The loop ----

  datatype Memory = Memory(last: Option<Status>, errors: nat, backedOff: bool)

  const START: Memory := Memory(None, 0, false)

  function After(matcher: Matcher, m: Memory, o: Outcome): (Memory, seq<PollerEvent>) {
    match o
    case Polled(command, screen) =>
      var status := matcher(command, screen);
      if m.backedOff || m.last != Some(status) then
        (Memory(Some(status), 0, false), [StatusChanged(status, command)])
      else (Memory(m.last, 0, false), [])
    case Failed(message) =>
      var errors := if m.errors < MAX_ERRORS then m.errors + 1 else MAX_ERRORS;
      if errors == ERROR_THRESHOLD then (Memory(None, errors, true), [Error(message)])
      else (m.(errors := errors), [])
  }

  function Loop(matcher: Matcher, m: Memory, outcomes: seq<Outcome>): (Memory, seq<PollerEvent>)
    decreases |outcomes|
  {
    if outcomes == [] then (m, [])
    else
      var (next, first) := After(matcher, m, outcomes[0]);
      var (last, rest) := Loop(matcher, next, outcomes[1..]);
      (last, first + rest)
  }

  /** Milliseconds slept before each poll. */
  function Slept(matcher: Matcher, outcomes: seq<Outcome>): (slept: seq<nat>)
    ensures |slept| == |outcomes|
  {
    seq(|outcomes|, i requires 0 <= i < |outcomes| => IntervalFor(Loop(matcher, START, outcomes[..i]).0.errors))
  }

  /** `poll_loop`, cancelled after these outcomes. `attempted` is what it passes to
      `try_send`; whether the channel takes an event changes nothing here. */
  method PollLoop(matcher: Matcher, outcomes: seq<Outcome>)
    returns (attempted: seq<PollerEvent>, slept: seq<nat>, memory: Memory)
    ensures (memory, attempted) == Loop(matcher, START, outcomes)
    ensures slept == Slept(matcher, outcomes)
  {
    var lastStatus: Option<Status>, consecutiveErrors: nat, backedOff: bool := None, 0, false;
    attempted, slept := [], [];
    for i := 0 to |outcomes|
      invariant |slept| == i
      invariant Loop(matcher, START, outcomes[..i]) == (Memory(lastStatus, consecutiveErrors, backedOff), attempted)
      invariant forall j :: 0 <= j < i ==> slept[j] == IntervalFor(Loop(matcher, START, outcomes[..j]).0.errors)
    {
      slept := slept + [IntervalFor(consecutiveErrors)];
      LoopNext(matcher, START, outcomes, i);
      assert attempted + [] == attempted;
      match outcomes[i] {
        case Polled(command, screen) =>
          var status := matcher(command, screen);
          var mustEmit := backedOff || lastStatus != Some(status);
          if mustEmit {
            attempted := attempted + [StatusChanged(status, command)];
            lastStatus := Some(status);
          }
          consecutiveErrors := 0;
          backedOff := false;
        case Failed(message) =>
          consecutiveErrors := if consecutiveErrors < MAX_ERRORS then consecutiveErrors + 1 else MAX_ERRORS;
          if consecutiveErrors == ERROR_THRESHOLD {
            attempted := attempted + [Error(message)];
            lastStatus := None;
            backedOff := true;
          }
      }
    }
    assert outcomes[..|outcomes|] == outcomes;
    memory := Memory(lastStatus, consecutiveErrors, backedOff);
  }

  lemma {:induction false} LoopConcat(matcher: Matcher, m: Memory, a: seq<Outcome>, b: seq<Outcome>)
    ensures var (mid, first) := Loop(matcher, m, a); var (last, second) := Loop(matcher, mid, b);
      Loop(matcher, m, a + b) == (last, first + second)
    decreases |a|
  {
    hide After;
    if a == [] {
      assert a + b == b;
      assert [] + Loop(matcher, m, b).1 == Loop(matcher, m, b).1;
    } else {
      assert (a + b)[1..] == a[1..] + b;
      var (next, head) := After(matcher, m, a[0]);
      LoopConcat(matcher, next, a[1..], b);
      var (mid, first) := Loop(matcher, next, a[1..]);
      var (last, second) := Loop(matcher, mid, b);
      assert head + (first + second) == (head + first) + second;
    }
  }

  lemma LoopNext(matcher: Matcher, start: Memory, outcomes: seq<Outcome>, i: nat)
    requires i < |outcomes|
    ensures var (m, events) := Loop(matcher, start, outcomes[..i]);
      var (next, more) := After(matcher, m, outcomes[i]);
      Loop(matcher, start, outcomes[..i + 1]) == (next, events + more)
  {
    hide After;
    var one := [outcomes[i]];
    assert outcomes[..i + 1] == outcomes[..i] + one;
    LoopConcat(matcher, start, outcomes[..i], one);
    var (m, events) := Loop(matcher, start, outcomes[..i]);
    var (next, more) := After(matcher, m, outcomes[i]);
    assert Loop(matcher, next, one[1..]) == (next, []);
    assert more + [] == more;
  }

  // ---- What the events are, without the loop's memory ----

  /** Length of the run of failures at the front. */
  function LeadingFailures(outcomes: seq<Outcome>): (n: nat)
    ensures n <= |outcomes|
    ensures forall i :: 0 <= i < n ==> outcomes[i].Failed?
    ensures n < |outcomes| ==> outcomes[n].Polled?
  {
    if outcomes == [] || outcomes[0].Polled? then 0 else 1 + LeadingFailures(outcomes[1..])
  }

  /** The history read as status reports and outages: every success is a report, and every
      unbroken run of at least five failures one error, with the fifth failure's message. */
  function Reports(matcher: Matcher, outcomes: seq<Outcome>): seq<PollerEvent>
    decreases |outcomes|
  {
    if outcomes == [] then []
    else if outcomes[0].Polled? then
      [StatusChanged(matcher(outcomes[0].command, outcomes[0].screen), outcomes[0].command)]
        + Reports(matcher, outcomes[1..])
    else
      var n := LeadingFailures(outcomes);
      (if n >= ERROR_THRESHOLD then [Error(outcomes[ERROR_THRESHOLD - 1].message)] else [])
        + Reports(matcher, outcomes[n..])
  }

  /** Drop every report that repeats the status just before it; an error separates. */
  function Collapse(previous: Option<Status>, events: seq<PollerEvent>): seq<PollerEvent>
    decreases |events|
  {
    if events == [] then []
    else match events[0]
         case Error(_) => [events[0]] + Collapse(None, events[1..])
         case StatusChanged(status, _) =>
           (if previous == Some(status) then [] else [events[0]]) + Collapse(Some(status), events[1..])
  }

  /** A run of `n` failures from a state without errors. */
  lemma {:induction false} FailureRun(matcher: Matcher, last: Option<Status>, outcomes: seq<Outcome>, n: nat)
    requires n <= |outcomes| && forall i :: 0 <= i < n ==> outcomes[i].Failed?
    ensures Loop(matcher, Memory(last, 0, false), outcomes[..n])
         == (Memory(if n >= ERROR_THRESHOLD then None else last,
                    if n < MAX_ERRORS then n else MAX_ERRORS, n >= ERROR_THRESHOLD),
             if n >= ERROR_THRESHOLD then [Error(outcomes[ERROR_THRESHOLD - 1].message)] else [])
    decreases n
  {
    if n > 0 {
      FailureRun(matcher, last, outcomes, n - 1);
      LoopNext(matcher, Memory(last, 0, false), outcomes, n - 1);
      hide Loop;
      var first := Loop(matcher, Memory(last, 0, false), outcomes[..n - 1]).1;
      var e := [Error(outcomes[n - 1].message)];
      assert first + [] == first && [] + e == e;
    } else {
      assert outcomes[..n] == [];
    }
  }

  /** The poller attempts exactly the history's reports with repeats collapsed. */
  lemma {:induction false} LoopCollapses(matcher: Matcher, last: Option<Status>, outcomes: seq<Outcome>)
    ensures Loop(matcher, Memory(last, 0, false), outcomes).1 == Collapse(last, Reports(matcher, outcomes))
    decreases |outcomes|
  {
    if outcomes == [] {
    } else if outcomes[0].Polled? {
      var status := matcher(outcomes[0].command, outcomes[0].screen);
      LoopCollapses(matcher, Some(status), outcomes[1..]);
      var event := StatusChanged(status, outcomes[0].command);
      CollapseHead(last, event, Reports(matcher, outcomes[1..]));
    } else {
      var n := LeadingFailures(outcomes);
      FailureRun(matcher, last, outcomes, n);
      assert outcomes[..n] + outcomes[n..] == outcomes;
      LoopConcat(matcher, Memory(last, 0, false), outcomes[..n], outcomes[n..]);
      AfterRun(matcher, last, outcomes, n);
    }
  }

  lemma CollapseHead(previous: Option<Status>, event: PollerEvent, rest: seq<PollerEvent>)
    ensures Collapse(previous, [event] + rest)
         == (if event.StatusChanged? && previous == Some(event.status) then [] else [event])
            + Collapse(if event.StatusChanged? then Some(event.status) else None, rest)
  {
    assert ([event] + rest)[1..] == rest;
  }

  /** After a run of failures the rest goes on as from a fresh state that remembers the last
      status only when the run was short. */
  lemma AfterRun(matcher: Matcher, last: Option<Status>, outcomes: seq<Outcome>, n: nat)
    requires 0 < n == LeadingFailures(outcomes)
    ensures var (mid, first) := Loop(matcher, Memory(last, 0, false), outcomes[..n]);
      first + Loop(matcher, mid, outcomes[n..]).1 == Collapse(last, Reports(matcher, outcomes))
    decreases |outcomes|, 0
  {
    FailureRun(matcher, last, outcomes, n);
    var mid := Loop(matcher, Memory(last, 0, false), outcomes[..n]).0;
    var rest := outcomes[n..];
    var remembered := if n >= ERROR_THRESHOLD then None else last;
    if n >= ERROR_THRESHOLD {
      CollapseHead(last, Error(outcomes[ERROR_THRESHOLD - 1].message), Reports(matcher, rest));
    } else {
      assert [] + Reports(matcher, rest) == Reports(matcher, rest);
    }
    if rest != [] {
      LoopCollapses(matcher, remembered, rest);
      SameFromSuccess(matcher, mid, remembered, rest);
    }
  }

  lemma SameFromSuccess(matcher: Matcher, m: Memory, last: Option<Status>, rest: seq<Outcome>)
    requires rest != [] && rest[0].Polled? && m.last == last && (m.backedOff ==> last.None?)
    ensures Loop(matcher, m, rest).1 == Loop(matcher, Memory(last, 0, false), rest).1
  {
    hide Loop;
    assert After(matcher, m, rest[0]) == After(matcher, Memory(last, 0, false), rest[0]);
    LoopHead(matcher, m, rest);
    LoopHead(matcher, Memory(last, 0, false), rest);
  }

  lemma LoopHead(matcher: Matcher, m: Memory, outcomes: seq<Outcome>)
    requires outcomes != []
    ensures var (next, first) := After(matcher, m, outcomes[0]);
      Loop(matcher, m, outcomes).1 == first + Loop(matcher, next, outcomes[1..]).1
  {
    hide After;
  }

  /** From the start: attempted events are the collapsed reports. */
  lemma AttemptedAreCollapsedReports(matcher: Matcher, outcomes: seq<Outcome>)
    ensures Loop(matcher, START, outcomes).1 == Collapse(None, Reports(matcher, outcomes))
  {
    LoopCollapses(matcher, None, outcomes);
  }

  // ---- Neighbouring events ----

  predicate MayFollow(a: PollerEvent, b: PollerEvent) {
    match (a, b)
    case (Error(_), Error(_)) => false
    case (StatusChanged(s, _), StatusChanged(t, _)) => s != t
    case _ => true
  }

  predicate Alternates(events: seq<PollerEvent>) {
    forall i :: 0 <= i < |events| - 1 ==> MayFollow(events[i], events[i + 1])
  }

  predicate NoDoubleError(events: seq<PollerEvent>) {
    forall i :: 0 <= i < |events| - 1 ==> !(events[i].Error? && events[i + 1].Error?)
  }

  lemma {:induction false} ReportsHaveNoDoubleError(matcher: Matcher, outcomes: seq<Outcome>)
    ensures NoDoubleError(Reports(matcher, outcomes))
    ensures outcomes != [] && outcomes[0].Polled? ==>
      Reports(matcher, outcomes) != [] && Reports(matcher, outcomes)[0].StatusChanged?
    ensures outcomes == [] ==> Reports(matcher, outcomes) == []
    decreases |outcomes|
  {
    if outcomes == [] {
    } else if outcomes[0].Polled? {
      ReportsHaveNoDoubleError(matcher, outcomes[1..]);
    } else {
      var n := LeadingFailures(outcomes);
      ReportsHaveNoDoubleError(matcher, outcomes[n..]);
    }
  }

  /** The first event after `previous` may follow it. */
  lemma {:induction false} CollapseAlternates(previous: Option<Status>, events: seq<PollerEvent>)
    requires NoDoubleError(events)
    ensures Alternates(Collapse(previous, events))
    ensures var c := Collapse(previous, events);
      && (c != [] && c[0].StatusChanged? ==> previous != Some(c[0].status))
      && (c != [] && c[0].Error? && previous.None? ==> events[0].Error?)
    decreases |events|
  {
    if events != [] {
      var tail := events[1..];
      assert forall i :: 0 <= i < |tail| ==> tail[i] == events[i + 1];
      match events[0]
      case Error(_) => CollapseAlternates(None, events[1..]);
      case StatusChanged(status, _) => CollapseAlternates(Some(status), events[1..]);
    }
  }

  /** Two errors are never next to each other, and neighbouring status events differ. */
  lemma EventsAlternate(matcher: Matcher, outcomes: seq<Outcome>)
    ensures Alternates(Loop(matcher, START, outcomes).1)
  {
    AttemptedAreCollapsedReports(matcher, outcomes);
    ReportsHaveNoDoubleError(matcher, outcomes);
    CollapseAlternates(None, Reports(matcher, outcomes));
  }

  // ---- The memory ----

  /** Length of the run of failures at the end. */
  function TrailingFailures(outcomes: seq<Outcome>): (n: nat)
    ensures n <= |outcomes|
  {
    if outcomes == [] || outcomes[|outcomes| - 1].Polled? then 0
    else 1 + TrailingFailures(outcomes[..|outcomes| - 1])
  }

  /** The error count is the length of the current failure run (saturating), the poller is
      backed off exactly from the fifth failure on, and then remembers no status. */
  lemma {:induction false} MemoryMeaning(matcher: Matcher, outcomes: seq<Outcome>)
    ensures var m := Loop(matcher, START, outcomes).0; var n := TrailingFailures(outcomes);
      && m.errors == (if n < MAX_ERRORS then n else MAX_ERRORS)
      && (m.backedOff <==> m.errors >= ERROR_THRESHOLD)
      && (m.backedOff ==> m.last.None?)
    decreases |outcomes|
  {
    if outcomes != [] {
      var k := |outcomes| - 1;
      MemoryMeaning(matcher, outcomes[..k]);
      LoopNext(matcher, START, outcomes, k);
      assert outcomes[..k + 1] == outcomes;
    }
  }

  // ---- Sleeping ----

  /** The ladder never steps down. */
  lemma IntervalsGrow(a: nat, b: nat)
    requires a <= b
    ensures BASE_INTERVAL <= IntervalFor(a) <= IntervalFor(b) <= 60000
  {
  }

  /** Time slept before each of the first `k` polls of an unbroken failure run. */
  function TotalSleep(k: nat): nat {
    if k == 0 then 0 else TotalSleep(k - 1) + IntervalFor(k - 1)
  }

  /** Its closed form: five base intervals, the three steps of the ladder, then a minute
      each. */
  lemma {:induction false} TotalSleepClosedForm(k: nat)
    ensures TotalSleep(k) ==
      if k <= 5 then 750 * k
      else if k == 6 then 6750
      else if k == 7 then 15750
      else 42750 + 60000 * (k - 8)
  {
    if k > 0 {
      TotalSleepClosedForm(k - 1);
    }
  }

  /** `k` failures in a row from position `p`, where the history starts or a success has just
      come. */
  predicate FailureRunAt(outcomes: seq<Outcome>, p: nat, k: nat) {
    && p + k <= |outcomes|
    && (p == 0 || outcomes[p - 1].Polled?)
    && forall i :: p <= i < p + k ==> outcomes[i].Failed?
  }

  lemma {:induction false} RunTrails(outcomes: seq<Outcome>, p: nat, i: nat)
    requires FailureRunAt(outcomes, p, i)
    ensures TrailingFailures(outcomes[..p + i]) == i
    decreases i
  {
    if i > 0 {
      assert outcomes[..p + i][..p + i - 1] == outcomes[..p + i - 1];
      RunTrails(outcomes, p, i - 1);
    }
  }

  function Sum(ns: seq<nat>): nat { if ns == [] then 0 else Sum(ns[..|ns| - 1]) + ns[|ns| - 1] }

  lemma SumNext(ns: seq<nat>, p: nat, k: nat)
    requires 0 < k && p + k <= |ns|
    ensures Sum(ns[p..p + k]) == Sum(ns[p..p + k - 1]) + ns[p + k - 1]
  {
    assert ns[p..p + k][..k - 1] == ns[p..p + k - 1];
  }

  lemma SleptInRun(matcher: Matcher, outcomes: seq<Outcome>, p: nat, k: nat, i: nat)
    requires FailureRunAt(outcomes, p, k) && i <= k && p + i < |outcomes|
    ensures Slept(matcher, outcomes)[p + i] == IntervalFor(i)
  {
    MemoryMeaning(matcher, outcomes[..p + i]);
    RunTrails(outcomes, p, i);
  }

  lemma {:induction false} RunSum(matcher: Matcher, outcomes: seq<Outcome>, p: nat, k: nat)
    requires FailureRunAt(outcomes, p, k)
    ensures Sum(Slept(matcher, outcomes)[p..p + k]) == TotalSleep(k)
    decreases k
  {
    hide Slept, Loop, IntervalFor;
    if k > 0 {
      assert TotalSleep(k) == TotalSleep(k - 1) + IntervalFor(k - 1);
      assert FailureRunAt(outcomes, p, k - 1);
      hide *;
      RunSum(matcher, outcomes, p, k - 1);
      SleptInRun(matcher, outcomes, p, k, k - 1);
      SumNext(Slept(matcher, outcomes), p, k);
    }
  }

  lemma RunGrows(matcher: Matcher, outcomes: seq<Outcome>, p: nat, k: nat, i: nat, j: nat)
    requires FailureRunAt(outcomes, p, k) && i <= j <= k && p + j < |outcomes|
    ensures BASE_INTERVAL <= Slept(matcher, outcomes)[p + i] <= Slept(matcher, outcomes)[p + j] <= 60000
  {
    hide Slept, IntervalFor, FailureRunAt;
    SleptInRun(matcher, outcomes, p, k, i);
    SleptInRun(matcher, outcomes, p, k, j);
    IntervalsGrow(i, j);
  }

  /** In every failure run, whatever came before it, the loop's sleeps before the polls that
      fail never decrease, from 750 ms up to a minute, and add up to the closed form; the
      sleep after the run goes on from there. */
  lemma RunSleeps(matcher: Matcher, outcomes: seq<Outcome>, p: nat, k: nat)
    requires FailureRunAt(outcomes, p, k)
    ensures Sum(Slept(matcher, outcomes)[p..p + k]) == TotalSleep(k)
    ensures forall i, j :: p <= i <= j <= p + k && j < |outcomes| ==>
      BASE_INTERVAL <= Slept(matcher, outcomes)[i] <= Slept(matcher, outcomes)[j] <= 60000
  {
    hide *;
    RunSum(matcher, outcomes, p, k);
    forall i, j | p <= i <= j <= p + k && j < |outcomes|
      ensures BASE_INTERVAL <= Slept(matcher, outcomes)[i] <= Slept(matcher, outcomes)[j] <= 60000
    {
      RunGrows(matcher, outcomes, p, k, i - p, j - p);
    }
  }
}
