/** The focused-pane session (src/ws_pane.rs): one seed frame, then live frames of the
    active pane's filtered output. */
module PaneSession {
  import opened Bytes
  import Parser
  import Text
  import VtParser
  import Outbound

  const TAG_SEED: byte := 0x01
  const TAG_LIVE: byte := 0x02
  const TAG_SCROLLBACK_RESPONSE: byte := 0x13
  const SCROLLBACK_MAX: nat := 5 * 1024 * 1024

  type Pane = seq<byte>

  /** What goes to the browser: a tagged binary frame, a JSON error, or a close code. */
  datatype Frame = Binary(bytes: seq<byte>) | ErrorText(reason: seq<byte>) | Close(code: nat)

  /** What the inbound task queues for the browser. */
  datatype Response = Scrollback(bytes: seq<byte>) | ScrollbackFailed(reason: seq<byte>)

  /** One turn of the main loop. */
  datatype Input =
    | Shutdown
    | Queued(response: Response)
    | QueueClosed
    | Event(event: Parser.ControlEvent)
    | EventsClosed

  /** How the steps before the loop went; `parked` events are thrown away. */
  datatype Setup =
    | ConnectFailed
    | PaneQueryFailed
    | CaptureFailed(paneReply: seq<byte>, reason: seq<byte>)
    | Ready(paneReply: seq<byte>, seed: seq<byte>, parked: seq<Parser.ControlEvent>)

  /** The pane the session starts with, when tmux named one. */
  function SessionPane(setup: Setup): Option<Pane> {
    if setup.CaptureFailed? || setup.Ready? then ParsePaneId(setup.paneReply) else None
  }

  /** Why the browser is turned away before there is a screen to show. */
  function Refusal(setup: Setup): seq<byte> {
    if setup.ConnectFailed? then Ascii("session not found")
    else if SessionPane(setup).None? then Ascii("could not determine active pane")
    else if setup.CaptureFailed? then setup.reason
    else []
  }

  function ResponseFrame(response: Response): Frame {
    match response
    case Scrollback(bytes) => Binary(BuildFrame(TAG_SCROLLBACK_RESPONSE, bytes))
    case ScrollbackFailed(reason) => ErrorText(reason)
  }

  /** What the browser is told when a turn ends the session by itself. */
  function LastWords(input: Input): seq<Frame> {
    match input
    case Shutdown => [Close(1001)]
    case Event(ClientDetached) => [ErrorText(Ascii("detached")), Close(1011)]
    case Event(Exit(_)) => [ErrorText(Ascii("tmux child exited")), Close(1011)]
    case _ => []
  }

  function BuildFrame(tag: byte, payload: seq<byte>): seq<byte> { [tag] + payload }

  /** The pane id in a `display-message` reply. */
  function ParsePaneId(reply: seq<byte>): Option<Pane> {
    if !Text.ValidUtf8(reply) || !([Parser.PERCENT] <= Text.Trim(reply)) then None
    else Some(Text.Trim(reply))
  }

  /** For every reply that is text: the pane is the reply without the white space around it,
      when that starts with `%`. For any other reply there is none. */
  lemma PaneIdMeaning(before: seq<nat>, text: seq<nat>, after: seq<nat>)
    requires Text.AllScalar(before) && Text.AllScalar(text) && Text.AllScalar(after)
    requires Text.AllWhite(before) && Text.AllWhite(after) && Text.IsTrimmed(text)
    ensures ParsePaneId(Text.Encode(before) + Text.Encode(text) + Text.Encode(after))
         == if text != [] && text[0] == 0x25 then Some(Text.Encode(text)) else None
  {
    hide Text.Trim, Text.ValidUtf8, Text.IsWhite;
    Text.TrimMeaning(before, text, after);
    Text.EncodeIsValid(before);
    Text.EncodeIsValid(text);
    Text.EncodeIsValid(after);
    Text.ValidConcat(Text.Encode(before), Text.Encode(text));
    Text.ValidConcat(Text.Encode(before) + Text.Encode(text), Text.Encode(after));
    if text != [] {
      FirstByte(text[0], Text.Encode(text[1..]));
    }
  }

  lemma FirstByte(c: nat, rest: seq<byte>)
    requires Text.IsScalar(c)
    ensures [Parser.PERCENT] <= Text.Utf8(c) + rest <==> c == 0x25
  {
    assert (Text.Utf8(c) + rest)[0] == Text.Utf8(c)[0];
  }

  lemma PaneIdNeedsText(reply: seq<byte>)
    requires !Text.ValidUtf8(reply)
    ensures ParsePaneId(reply).None?
  {
  }

  /** What tmux sends: the id and a newline. */
  lemma PaneIdOfReply(pane: Pane)
    requires Text.IsGraphic(pane) && [Parser.PERCENT] <= pane
    ensures ParsePaneId(pane + [LF]) == Some(pane)
  {
    hide ParsePaneId;
    var text := seq(|pane|, i requires 0 <= i < |pane| => pane[i] as nat);
    Text.AsciiEncoded(pane, text);
    Text.AsciiEncoded([LF], [0x0A]);
    Text.EncodeNothing();
    assert [] + pane == pane;
    PaneIdMeaning([], text, [0x0A]);
  }

  const MARKER: seq<byte> := Ascii("[scrollback truncated to last 5 MiB]\n")

  /** Oversized scrollback is cut to exactly the limit: the marker, then the newest bytes. */
  method CapScrollback(input: seq<byte>) returns (out: seq<byte>)
    ensures |input| <= 5_242_880 ==> out == input
    ensures |input| > 5_242_880 ==>
      var marker := Ascii("[scrollback truncated to last 5 MiB]\n");
      |out| == 5_242_880 && out == marker + input[|input| - (5_242_880 - |marker|)..]
  {
    var bytes := input;
    if |bytes| <= SCROLLBACK_MAX { return bytes; }
    var keep := SCROLLBACK_MAX - |MARKER|;
    var dropCount := |bytes| - keep;
    bytes := bytes[dropCount..];
    out := [];
    out := out + MARKER;
    out := out + bytes;
  }

  // ---- What the browser should see ----

  predicate IsLive(f: Frame) { f.Binary? && |f.bytes| > 0 && f.bytes[0] == 0x02 }

  predicate IsSeed(f: Frame) { f.Binary? && |f.bytes| > 0 && f.bytes[0] == 0x01 }

  /** The payloads of the live frames, joined. */
  function LivePayload(frames: seq<Frame>): seq<byte> {
    if frames == [] then []
    else
      var last := frames[|frames| - 1];
      LivePayload(frames[..|frames| - 1]) + if IsLive(last) then last.bytes[1..] else []
  }

  /** The pane that is active after these turns. */
  function PaneAfter(pane: Pane, inputs: seq<Input>): Pane {
    if inputs == [] then pane else NextPane(PaneAfter(pane, inputs[..|inputs| - 1]), inputs[|inputs| - 1])
  }

  function NextPane(pane: Pane, input: Input): Pane {
    if input.Event? && input.event.WindowPaneChanged? then input.event.pane else pane
  }

  predicate ChangesPane(input: Input) { input.Event? && input.event.WindowPaneChanged? }

  /** The active pane is the one that the last pane change named, whatever its window, or the
      first pane when there was no change. */
  lemma {:induction false} PaneAfterMeaning(pane: Pane, inputs: seq<Input>, k: nat, window: seq<byte>, named: Pane)
    requires k <= |inputs| && forall i :: k < i < |inputs| ==> !ChangesPane(inputs[i])
    ensures k < |inputs| && inputs[k] == Event(Parser.WindowPaneChanged(window, named)) ==>
      PaneAfter(pane, inputs) == named
    ensures (forall i :: 0 <= i < |inputs| ==> !ChangesPane(inputs[i])) ==> PaneAfter(pane, inputs) == pane
    decreases |inputs|
  {
    if inputs != [] {
      var n := |inputs| - 1;
      PaneAfterMeaning(pane, inputs[..n], if k < n then k else n, window, named);
    }
  }

  /** What one turn contributes while `pane` is active. */
  function RoutedPart(pane: Pane, input: Input): seq<byte> {
    if input.Event? && input.event.Output? && input.event.pane == pane then input.event.data else []
  }

  /** The output bytes of whichever pane was active when each of them came. */
  function RoutedBytes(pane: Pane, inputs: seq<Input>): seq<byte> {
    if inputs == [] then []
    else
      var before := inputs[..|inputs| - 1];
      RoutedBytes(pane, before) + RoutedPart(PaneAfter(pane, before), inputs[|inputs| - 1])
  }

  predicate Ends(input: Input) {
    match input
    case Shutdown => true
    case QueueClosed => true
    case EventsClosed => true
    case Event(event) => event.ClientDetached? || event.Exit?
    case Queued(_) => false
  }

  /** What the browser is told in words: reasons and close codes. */
  function Words(frames: seq<Frame>): seq<Frame> {
    if frames == [] then []
    else
      var last := frames[|frames| - 1];
      Words(frames[..|frames| - 1]) + if last.Binary? then [] else [last]
  }

  /** The words that one turn has for it. */
  function WordsFor(input: Input): seq<Frame> {
    match input
    case Queued(ScrollbackFailed(reason)) => [ErrorText(reason)]
    case Shutdown => [Close(1001)]
    case Event(ClientDetached) => [ErrorText(Ascii("detached")), Close(1011)]
    case Event(Exit(_)) => [ErrorText(Ascii("tmux child exited")), Close(1011)]
    case _ => []
  }

  function AllWordsFor(inputs: seq<Input>): seq<Frame> {
    if inputs == [] then [] else AllWordsFor(inputs[..|inputs| - 1]) + WordsFor(inputs[|inputs| - 1])
  }

  lemma {:induction false} WordsConcat(a: seq<Frame>, b: seq<Frame>)
    ensures Words(a + b) == Words(a) + Words(b)
    decreases |b|
  {
    if b == [] {
      assert a + b == a;
    } else {
      var n := |b| - 1;
      assert (a + b)[..|a| + n] == a + b[..n];
      WordsConcat(a, b[..n]);
      Regroup(Words(a), Words(b[..n]), if b[n].Binary? then [] else [b[n]]);
    }
  }

  lemma {:induction false} NoWords(frames: seq<Frame>)
    requires forall i :: 0 <= i < |frames| ==> frames[i].Binary?
    ensures Words(frames) == []
    decreases |frames|
  {
    if frames != [] {
      NoWords(frames[..|frames| - 1]);
    }
  }

  predicate SomeEnd(inputs: seq<Input>) { exists i :: 0 <= i < |inputs| && Ends(inputs[i]) }

  /** The inputs up to and including the first that ends the session. */
  function UntilEnd(inputs: seq<Input>): seq<Input> {
    if inputs == [] then []
    else if Ends(inputs[0]) then [inputs[0]]
    else [inputs[0]] + UntilEnd(inputs[1..])
  }

  lemma LivePayloadAppend(frames: seq<Frame>, f: Frame)
    ensures LivePayload(frames + [f]) == LivePayload(frames) + if IsLive(f) then f.bytes[1..] else []
  {
    assert (frames + [f])[..|frames|] == frames;
  }

  lemma RoutedNext(pane: Pane, inputs: seq<Input>, k: nat)
    requires k < |inputs|
    ensures PaneAfter(pane, inputs[..k + 1]) == NextPane(PaneAfter(pane, inputs[..k]), inputs[k])
    ensures RoutedBytes(pane, inputs[..k + 1])
         == RoutedBytes(pane, inputs[..k]) + RoutedPart(PaneAfter(pane, inputs[..k]), inputs[k])
    ensures RoutedPart(PaneAfter(pane, inputs[..k]), inputs[k]) == [] ==>
      RoutedBytes(pane, inputs[..k + 1]) == RoutedBytes(pane, inputs[..k])
  {
    assert inputs[..k + 1][..k] == inputs[..k];
  }

  lemma {:induction false} RoutedGrows(pane: Pane, inputs: seq<Input>, k: nat)
    requires k <= |inputs|
    ensures RoutedBytes(pane, inputs[..k]) <= RoutedBytes(pane, inputs)
    decreases |inputs| - k
  {
    if k < |inputs| {
      RoutedNext(pane, inputs, k);
      RoutedGrows(pane, inputs, k + 1);
    } else {
      assert inputs[..k] == inputs;
    }
  }

  lemma FilterGrows(parse: Outbound.UrlParser, a: seq<byte>, b: seq<byte>)
    requires a <= b
    ensures Outbound.Filter(parse, a) <= Outbound.Filter(parse, b)
  {
    hide VtParser.Run, Outbound.EmitAll;
    assert a + b[|a|..] == b;
    VtParser.RunConcat(VtParser.START, a, b[|a|..]);
    var (st, actions) := VtParser.Run(VtParser.START, a);
    Outbound.EmitAllConcat(parse, actions, VtParser.Run(st, b[|a|..]).1);
  }

  // ---- The session ----

  class Session {
    const parse: Outbound.UrlParser
    const outFilter: Outbound.OutboundStream
    /** Whether the n-th send reaches the browser. */
    const accepts: nat -> bool
    var activePane: Pane
    var sharedPane: Pane
    var sent: seq<Frame>
    var attempts: nat

    constructor (parse: Outbound.UrlParser, accepts: nat -> bool)
      ensures this.parse == parse && this.accepts == accepts && Fresh() && sent == [] && attempts == 0
      ensures fresh(outFilter) && fresh(outFilter.perform)
    {
      this.parse := parse;
      this.accepts := accepts;
      outFilter := new Outbound.OutboundStream(parse);
      activePane, sharedPane, sent, attempts := [], [], [], 0;
    }

    ghost predicate Fresh()
      reads this, outFilter, outFilter.perform
    {
      outFilter.parser == VtParser.START && outFilter.perform.out == [] && outFilter.perform.parse == parse
    }

    method Send(frame: Frame) returns (ok: bool)
      modifies this`sent, this`attempts
      ensures ok == accepts(old(attempts)) && attempts == old(attempts) + 1
      ensures sent == if ok then old(sent) + [frame] else old(sent)
    {
      ok := accepts(attempts);
      attempts := attempts + 1;
      if ok {
        sent := sent + [frame];
      }
    }

    /** `frames` as far as the browser still takes them, from the n-th send on. */
    ghost function Accepted(frames: seq<Frame>, n: nat): seq<Frame>
      decreases |frames|
    {
      if frames == [] then []
      else (if accepts(n) then [frames[0]] else []) + Accepted(frames[1..], n + 1)
    }

    /** The browser never hangs up. */
    ghost predicate AllAccepted() { forall n: nat :: accepts(n) }

    lemma AcceptedNone(n: nat)
      ensures Accepted([], n) == []
    {
    }

    lemma AcceptedOne(f: Frame, n: nat)
      ensures Accepted([f], n) == if accepts(n) then [f] else []
    {
      var one := [f];
      assert Accepted(one[1..], n + 1) == [];
    }

    lemma AcceptedTwo(f: Frame, g: Frame, n: nat)
      ensures accepts(n) && accepts(n + 1) ==> Accepted([f, g], n) == [f] + [g]
      ensures accepts(n) && !accepts(n + 1) ==> Accepted([f, g], n) == [f]
      ensures !accepts(n) && accepts(n + 1) ==> Accepted([f, g], n) == [g]
      ensures !accepts(n) && !accepts(n + 1) ==> Accepted([f, g], n) == []
    {
      assert [f, g][1..] == [g];
      AcceptedOne(g, n + 1);
    }

    /** The last words before leaving: a reason and a close code, if they get through. */
    method Goodbye(reason: seq<byte>, code: nat)
      modifies this`sent, this`attempts
      ensures LivePayload(sent) == LivePayload(old(sent))
      ensures sent == old(sent) + Accepted([ErrorText(reason), Close(code)], old(attempts))
      ensures old(sent) <= sent && forall i :: |old(sent)| <= i < |sent| ==> !sent[i].Binary?
    {
      hide LivePayload, Accepted;
      AcceptedTwo(ErrorText(reason), Close(code), attempts);
      var first := Send(ErrorText(reason));
      LivePayloadAppend(old(sent), ErrorText(reason));
      ghost var mid := sent;
      var second := Send(Close(code));
      LivePayloadAppend(mid, Close(code));
    }

    /** An `%output` event: other panes are skipped, the active pane's bytes go through the
        streaming filter, and what comes out is one live frame. */
    method HandleOutput(pane: Pane, data: seq<byte>) returns (ok: bool)
      requires outFilter.perform.out == []
      modifies this`sent, this`attempts, outFilter, outFilter.perform`out
      ensures outFilter.perform.out == []
      ensures AllAccepted() ==> ok
      ensures pane != sharedPane ==> ok && sent == old(sent) && outFilter.parser == old(outFilter.parser)
      // What comes out is one frame, or none when nothing does.
      ensures AllAccepted() && pane == sharedPane ==>
        var filtered := Outbound.EmitAll(outFilter.perform.parse, VtParser.Run(old(outFilter.parser), data).1);
        sent == old(sent) + if filtered == [] then [] else [Binary([0x02] + filtered)]
      ensures pane == sharedPane ==>
        var (next, actions) := VtParser.Run(old(outFilter.parser), data);
        && outFilter.parser == next
        && (ok ==> LivePayload(sent) == LivePayload(old(sent)) + Outbound.EmitAll(outFilter.perform.parse, actions))
        && (!ok ==> sent == old(sent))
      ensures old(sent) <= sent && forall i :: |old(sent)| <= i < |sent| ==> IsLive(sent[i])
    {
      hide VtParser.Run, Outbound.EmitAll, LivePayload;
      assert LivePayload(sent) + [] == LivePayload(sent) && sent + [] == sent;
      ok := true;
      if pane != sharedPane { return; }
      outFilter.Feed(data);
      var filtered := outFilter.Take();
      assert [] + filtered == filtered;
      assert filtered == Outbound.EmitAll(outFilter.perform.parse, VtParser.Run(old(outFilter.parser), data).1);
      if filtered != [] {
        var frame := Binary(BuildFrame(TAG_LIVE, filtered));
        LivePayloadAppend(sent, frame);
        ok := Send(frame);
        assert frame == Binary([0x02] + filtered);
      }
    }

    method HandleResponse(response: Response) returns (ok: bool)
      modifies this`sent, this`attempts
      ensures ok == accepts(old(attempts))
      ensures sent == old(sent) + if ok then [ResponseFrame(response)] else []
      ensures ok && response.Scrollback? ==> sent[|sent| - 1] == Binary([0x13] + response.bytes)
      ensures ok && response.ScrollbackFailed? ==> sent[|sent| - 1] == ErrorText(response.reason)
      ensures LivePayload(sent) == LivePayload(old(sent))
      ensures old(sent) <= sent && forall i :: |old(sent)| <= i < |sent| ==> !IsSeed(sent[i])
    {
      var frame := ResponseFrame(response);
      LivePayloadAppend(sent, frame);
      ok := Send(frame);
    }

    /** One turn of the main loop. */
    method Turn(input: Input) returns (ended: bool)
      requires outFilter.perform.out == [] && activePane == sharedPane
      modifies this, outFilter, outFilter.perform`out
      ensures outFilter.perform.out == [] && activePane == sharedPane
      ensures Ends(input) ==> ended && sent == old(sent) + Accepted(LastWords(input), old(attempts))
      ensures !Ends(input) && AllAccepted() ==> !ended
      ensures input.Queued? ==> sent == old(sent) + Accepted([ResponseFrame(input.response)], old(attempts))
      ensures !Ends(input) && !input.Queued? ==> forall i :: |old(sent)| <= i < |sent| ==> IsLive(sent[i])
      ensures ended ==> LivePayload(sent) == LivePayload(old(sent))
      ensures !ended ==>
        var (next, actions) := VtParser.Run(old(outFilter.parser), RoutedPart(old(sharedPane), input));
        && outFilter.parser == next
        && LivePayload(sent) == LivePayload(old(sent)) + Outbound.EmitAll(outFilter.perform.parse, actions)
        && sharedPane == NextPane(old(sharedPane), input)
      ensures old(sent) <= sent && forall i :: |old(sent)| <= i < |sent| ==> !IsSeed(sent[i])
    {
      hide VtParser.Run, Outbound.EmitAll, LivePayload, Accepted, Ascii, BuildFrame, ResponseFrame;
      QuietTurn(outFilter.perform.parse, outFilter.parser);
      assert LivePayload(sent) + [] == LivePayload(sent) && sent + [] == sent;
      AcceptedNone(attempts);
      ended := true;
      match input
      case Shutdown =>
        AcceptedOne(Close(1001), attempts);
        LivePayloadAppend(sent, Close(1001));
        var ok := Send(Close(1001));
      case QueueClosed =>
      case EventsClosed =>
      case Queued(response) =>
        AcceptedOne(ResponseFrame(response), attempts);
        var ok := HandleResponse(response);
        ended := !ok;
      case Event(event) => ended := HandleEvent(event);
    }

    /** A control-mode event. */
    method HandleEvent(event: Parser.ControlEvent) returns (ended: bool)
      requires outFilter.perform.out == [] && activePane == sharedPane
      modifies this, outFilter, outFilter.perform`out
      ensures outFilter.perform.out == [] && activePane == sharedPane
      ensures Ends(Event(event)) ==> ended && sent == old(sent) + Accepted(LastWords(Event(event)), old(attempts))
      ensures !Ends(Event(event)) && AllAccepted() ==> !ended
      ensures !Ends(Event(event)) ==> forall i :: |old(sent)| <= i < |sent| ==> IsLive(sent[i])
      ensures ended ==> LivePayload(sent) == LivePayload(old(sent))
      ensures !ended ==>
        var (next, actions) := VtParser.Run(old(outFilter.parser), RoutedPart(old(sharedPane), Event(event)));
        && outFilter.parser == next
        && LivePayload(sent) == LivePayload(old(sent)) + Outbound.EmitAll(outFilter.perform.parse, actions)
        && sharedPane == NextPane(old(sharedPane), Event(event))
      ensures old(sent) <= sent && forall i :: |old(sent)| <= i < |sent| ==> !IsSeed(sent[i])
    {
      hide VtParser.Run, Outbound.EmitAll, LivePayload, Accepted, Ascii, BuildFrame, AllAccepted;
      QuietTurn(outFilter.perform.parse, outFilter.parser);
      assert LivePayload(sent) + [] == LivePayload(sent);
      ended := false;
      if event.Output? {
        var ok := HandleOutput(event.pane, event.data);
        ended := !ok;
      } else if event.WindowPaneChanged? {
        sharedPane := event.pane;
        activePane := event.pane;
      } else if event.ClientDetached? {
        Goodbye(Ascii("detached"), 1011);
        ended := true;
      } else if event.Exit? {
        Goodbye(Ascii("tmux child exited"), 1011);
        ended := true;
      }
    }

    /** The main loop. What the live frames carry is a prefix of the streaming filter applied
        to the routed output, and all of it while nothing has ended the loop. */
    method Loop(inputs: seq<Input>) returns (ended: bool, handled: nat)
      requires Fresh() && LivePayload(sent) == [] && activePane == sharedPane
      modifies this, outFilter, outFilter.perform`out
      ensures handled <= |inputs| && activePane == sharedPane
      ensures LivePayload(sent) <= Outbound.Filter(parse, RoutedBytes(old(activePane), inputs))
      ensures !ended ==>
        && handled == |inputs|
        && LivePayload(sent) == Outbound.Filter(parse, RoutedBytes(old(activePane), inputs))
        && activePane == PaneAfter(old(activePane), inputs)
      ensures ended ==> handled > 0 && (AllAccepted() ==> Ends(inputs[handled - 1]))
      ensures AllAccepted() ==> Words(sent) == Words(old(sent)) + AllWordsFor(inputs[..handled])
      ensures forall i :: 0 <= i < (if ended then handled - 1 else handled) ==> !Ends(inputs[i])
      ensures old(sent) <= sent && forall i :: |old(sent)| <= i < |sent| ==> !IsSeed(sent[i])
    {
      hide VtParser.Run, Outbound.EmitAll, Outbound.Filter, LivePayload, Ends, NextPane, RoutedPart;
      hide Accepted, LastWords, AllAccepted;
      hide Words, AllWordsFor, WordsFor;
      ghost var pane := activePane;
      ended, handled := false, 0;
      StartsEmpty(parse);
      NothingSaid(inputs);
      assert Words(sent) + [] == Words(sent);
      while handled < |inputs| && !ended
        invariant handled <= |inputs| && activePane == sharedPane
        invariant outFilter.perform.out == [] && outFilter.perform.parse == parse
        invariant !ended ==> activePane == PaneAfter(pane, inputs[..handled])
        invariant !ended ==> outFilter.parser == VtParser.Run(VtParser.START, RoutedBytes(pane, inputs[..handled])).0
        invariant !ended ==> LivePayload(sent) == Outbound.Filter(parse, RoutedBytes(pane, inputs[..handled]))
        invariant ended ==> handled > 0 && (AllAccepted() ==> Ends(inputs[handled - 1]))
        invariant AllAccepted() ==> Words(sent) == Words(old(sent)) + AllWordsFor(inputs[..handled])
        invariant ended ==> LivePayload(sent) <= Outbound.Filter(parse, RoutedBytes(pane, inputs))
        invariant forall i :: 0 <= i < (if ended then handled - 1 else handled) ==> !Ends(inputs[i])
        invariant old(sent) <= sent && forall i :: |old(sent)| <= i < |sent| ==> !IsSeed(sent[i])
        decreases |inputs| - handled
      {
        RoutedNext(pane, inputs, handled);
        RoutedGrows(pane, inputs, handled);
        FilterGrows(parse, RoutedBytes(pane, inputs[..handled]), RoutedBytes(pane, inputs));
        FilterNext(parse, RoutedBytes(pane, inputs[..handled]), RoutedPart(activePane, inputs[handled]));
        ghost var before, attempted := sent, attempts;
        ended := Turn(inputs[handled]);
        TurnTells(before, sent, inputs[handled], attempted);
        AllWordsNext(inputs, handled, Words(old(sent)));
        handled := handled + 1;
      }
      assert inputs[..|inputs|] == inputs;
    }

    /** One turn tells the browser what its input calls for. */
    lemma TurnTells(before: seq<Frame>, after: seq<Frame>, input: Input, n: nat)
      requires before <= after
      requires Ends(input) ==> after == before + Accepted(LastWords(input), n)
      requires input.Queued? ==> after == before + Accepted([ResponseFrame(input.response)], n)
      requires !Ends(input) && !input.Queued? ==> forall i :: |before| <= i < |after| ==> IsLive(after[i])
      ensures AllAccepted() ==> Words(after) == Words(before) + WordsFor(input)
    {
      hide Words, Accepted, Ascii, BuildFrame;
      if AllAccepted() {
        var more := after[|before|..];
        assert after == before + more;
        WordsConcat(before, more);
        if Ends(input) || input.Queued? {
          var frames := if Ends(input) then LastWords(input) else [ResponseFrame(input.response)];
          assert more == Accepted(frames, n);
          AllGetThrough(frames, n);
          FramesSay(input);
        } else {
          NoWords(more);
        }
      }
    }

    lemma {:induction false} AllGetThrough(frames: seq<Frame>, n: nat)
      requires AllAccepted()
      ensures Accepted(frames, n) == frames
      decreases |frames|
    {
      if frames != [] {
        AllGetThrough(frames[1..], n + 1);
      }
    }

    lemma FramesSay(input: Input)
      ensures Ends(input) ==> Words(LastWords(input)) == WordsFor(input)
      ensures input.Queued? ==> Words([ResponseFrame(input.response)]) == WordsFor(input)
    {
      hide Ascii, Words;
      var words := LastWords(input);
      if |words| == 2 {
        WordsOfFew(words[0], words[1]);
      } else {
        WordsOfFew(Close(1001), Close(1001));
      }
      if input.Queued? {
        WordsOfFew(ResponseFrame(input.response), Close(1001));
      }
    }

    /** The whole session from a fresh connection. */
    method RunSession(setup: Setup, inputs: seq<Input>) returns (seeded: bool, ended: bool)
      requires Fresh() && sent == []
      modifies this, outFilter, outFilter.perform`out
      // Exactly one seed frame, and it comes before everything else.
      ensures seeded ==>
        && setup.Ready? && |sent| > 0
        && sent[0] == Binary([0x01] + Outbound.Filter(parse, setup.seed))
        && (forall i :: 1 <= i < |sent| ==> !IsSeed(sent[i]))
        && SessionPane(setup).Some?
        && LivePayload(sent) <= Outbound.Filter(parse, RoutedBytes(SessionPane(setup).value, inputs))
      ensures seeded && !ended ==>
        && LivePayload(sent) == Outbound.Filter(parse, RoutedBytes(SessionPane(setup).value, inputs))
        && activePane == PaneAfter(SessionPane(setup).value, inputs)
      ensures seeded && AllAccepted() ==> (ended <==> SomeEnd(inputs))
      // The words it ends with are those of the inputs it has handled.
      ensures seeded && AllAccepted() ==> Words(sent) == AllWordsFor(UntilEnd(inputs))
      // Without it there is nothing but an error and a close code.
      ensures !seeded ==> ended && forall i :: 0 <= i < |sent| ==> !sent[i].Binary?
      ensures !seeded && AllAccepted() ==> sent == [ErrorText(Refusal(setup)), Close(1011)]
      ensures seeded <==> setup.Ready? && SessionPane(setup).Some? && accepts(old(attempts))
    {
      hide ParsePaneId, Ends, Outbound.Filter, RoutedBytes, PaneAfter, LivePayload, AllAccepted;
      hide Words, AllWordsFor, UntilEnd, SomeEnd;
      ended := true;
      seeded := Seed(setup);
      if seeded {
        var handled;
        ended, handled := Loop(inputs);
        SomeEnds(inputs, ended, handled);
        assert [] + AllWordsFor(inputs[..handled]) == AllWordsFor(inputs[..handled]);
      }
    }

    /** Everything before the loop. */
    method Seed(setup: Setup) returns (seeded: bool)
      requires sent == []
      modifies this
      ensures seeded <==> setup.Ready? && SessionPane(setup).Some? && accepts(old(attempts))
      ensures seeded ==>
        && sent == [Binary([0x01] + Outbound.Filter(parse, setup.seed))]
        && LivePayload(sent) == [] && Words(sent) == []
        && activePane == sharedPane == SessionPane(setup).value
      ensures !seeded ==> forall i :: 0 <= i < |sent| ==> !sent[i].Binary?
      ensures !seeded && AllAccepted() ==> sent == [ErrorText(Refusal(setup)), Close(1011)]
    {
      hide ParsePaneId, Outbound.Filter, Ascii, LivePayload, Words, Accepted;
      if AllAccepted() {
        AllGetThrough([ErrorText(Refusal(setup)), Close(1011)], attempts);
      }
      assert sent + [ErrorText(Refusal(setup)), Close(1011)] == [ErrorText(Refusal(setup)), Close(1011)];
      seeded := false;
      match setup
      case ConnectFailed => Goodbye(Ascii("session not found"), 1011);
      case PaneQueryFailed => Goodbye(Ascii("could not determine active pane"), 1011);
      case CaptureFailed(paneReply, reason) =>
        var pane := ParsePaneId(paneReply);
        Goodbye(if pane.None? then Ascii("could not determine active pane") else reason, 1011);
      case Ready(paneReply, seed, parked) =>
        var pane := ParsePaneId(paneReply);
        if pane.None? {
          Goodbye(Ascii("could not determine active pane"), 1011);
          return;
        }
        activePane := pane.value;
        var frame := Binary(BuildFrame(TAG_SEED, Outbound.Filter(parse, seed)));
        SeedIsNotLive(frame);
        seeded := Send(frame);
        sharedPane := activePane;
    }

    lemma SomeEnds(inputs: seq<Input>, ended: bool, handled: nat)
      requires handled <= |inputs| && (!ended ==> handled == |inputs|)
      requires ended ==> handled > 0 && (AllAccepted() ==> Ends(inputs[handled - 1]))
      requires forall i :: 0 <= i < (if ended then handled - 1 else handled) ==> !Ends(inputs[i])
      ensures AllAccepted() ==> (ended <==> SomeEnd(inputs))
      ensures AllAccepted() ==> UntilEnd(inputs) == inputs[..handled]
    {
      hide Ends, AllAccepted;
      if AllAccepted() {
        UntilFirstEnd(inputs, if ended then handled - 1 else handled);
        assert inputs[..|inputs|] == inputs;
      }
    }
  }

  lemma {:induction false} UntilFirstEnd(inputs: seq<Input>, n: nat)
    requires n <= |inputs| && (forall i :: 0 <= i < n ==> !Ends(inputs[i])) && (n < |inputs| ==> Ends(inputs[n]))
    ensures UntilEnd(inputs) == if n < |inputs| then inputs[..n + 1] else inputs
    decreases |inputs|
  {
    hide Ends;
    if n > 0 {
      var rest := inputs[1..];
      assert forall i :: 0 <= i < |rest| ==> rest[i] == inputs[i + 1];
      UntilFirstEnd(rest, n - 1);
    }
  }

  lemma WordsOfFew(f: Frame, g: Frame)
    ensures Words([]) == [] && Words([f]) == (if f.Binary? then [] else [f])
    ensures !f.Binary? && !g.Binary? ==> Words([f, g]) == [f, g]
  {
    assert [f][..0] == [] && [f, g][..1] == [f];
  }

  lemma NothingSaid(inputs: seq<Input>)
    ensures AllWordsFor(inputs[..0]) == []
  {
  }

  lemma AllWordsNext(inputs: seq<Input>, k: nat, before: seq<Frame>)
    requires k < |inputs|
    ensures before + AllWordsFor(inputs[..k]) + WordsFor(inputs[k]) == before + AllWordsFor(inputs[..k + 1])
  {
    hide WordsFor;
    assert inputs[..k + 1][..k] == inputs[..k];
  }

  lemma SeedIsNotLive(seed: Frame)
    requires IsSeed(seed)
    ensures LivePayload([]) == [] && LivePayload([seed]) == [] && Words([seed]) == []
  {
    WordsOfFew(seed, seed);
    LivePayloadAppend([], seed);
    assert [] + [seed] == [seed];
  }

  // ---- The parked events ----

  function AsInputs(events: seq<Parser.ControlEvent>): seq<Input> {
    seq(|events|, i requires 0 <= i < |events| => Event(events[i]))
  }

  /** The pane that the last of these events makes active, if any does. */
  function LastPaneChange(events: seq<Parser.ControlEvent>): Option<Pane> {
    if events == [] then None
    else
      var last := events[|events| - 1];
      if last.WindowPaneChanged? then Some(last.pane) else LastPaneChange(events[..|events| - 1])
  }

  lemma {:induction false} PaneAfterEvents(pane: Pane, events: seq<Parser.ControlEvent>)
    ensures PaneAfter(pane, AsInputs(events)) == match LastPaneChange(events) case Some(p) => p case None => pane
    decreases |events|
  {
    if events != [] {
      var init := events[..|events| - 1];
      assert AsInputs(events)[..|events| - 1] == AsInputs(init);
      PaneAfterEvents(pane, init);
    }
  }

  /** The session routes by the pane it asked for before the parked events. What it routes,
      over every later input, is what it would route had it looked at them exactly when they
      make no pane active or end on the same one. */
  lemma ParkedEventsMatter(pane: Pane, parked: seq<Parser.ControlEvent>)
    ensures (forall inputs :: RoutedBytes(PaneAfter(pane, AsInputs(parked)), inputs) == RoutedBytes(pane, inputs))
      <==> (LastPaneChange(parked).None? || LastPaneChange(parked) == Some(pane))
  {
    hide PaneAfter, LastPaneChange;
    var actual := PaneAfter(pane, AsInputs(parked));
    PaneAfterEvents(pane, parked);
    if actual != pane {
      var inputs := [Event(Parser.Output(pane, [0x61]))];
      RoutedSingle(pane, pane, [0x61]);
      RoutedSingle(actual, pane, [0x61]);
      assert RoutedBytes(actual, inputs) != RoutedBytes(pane, inputs);
    }
  }

  lemma RoutedSingle(pane: Pane, from: Pane, data: seq<byte>)
    ensures RoutedBytes(pane, [Event(Parser.Output(from, data))]) == if from == pane then data else []
  {
    var inputs := [Event(Parser.Output(from, data))];
    RoutedNext(pane, inputs, 0);
    assert inputs[..1] == inputs && inputs[..0] == [];
  }

  /** The session ends, over all later inputs, just when it would have ended had it looked at
      the parked events exactly when no detachment and no exit is among them. */
  lemma ParkedEndsMatter(parked: seq<Parser.ControlEvent>)
    ensures (forall inputs :: SomeEnd(AsInputs(parked) + inputs) <==> SomeEnd(inputs))
      <==> (forall i :: 0 <= i < |parked| ==> !parked[i].ClientDetached? && !parked[i].Exit?)
  {
    if forall i :: 0 <= i < |parked| ==> !parked[i].ClientDetached? && !parked[i].Exit? {
      forall inputs ensures SomeEnd(AsInputs(parked) + inputs) <==> SomeEnd(inputs) {
        EndsAfter(AsInputs(parked), inputs);
      }
    } else {
      var i :| 0 <= i < |parked| && (parked[i].ClientDetached? || parked[i].Exit?);
      var none: seq<Input> := [];
      assert Ends((AsInputs(parked) + none)[i]) && !SomeEnd(none);
    }
  }

  lemma EndsAfter(before: seq<Input>, inputs: seq<Input>)
    requires forall i :: 0 <= i < |before| ==> !Ends(before[i])
    ensures SomeEnd(before + inputs) <==> SomeEnd(inputs)
  {
    hide Ends;
    var all := before + inputs;
    if SomeEnd(inputs) {
      var i :| 0 <= i < |inputs| && Ends(inputs[i]);
      assert all[|before| + i] == inputs[i];
    }
    if SomeEnd(all) {
      var i :| 0 <= i < |all| && Ends(all[i]);
      assert i >= |before| && inputs[i - |before|] == all[i];
    }
  }

  /** A pane change and an exit that were parked are both lost. The output of the pane that is
      really active is not shown. The session goes on until the driver's end of the event
      channel is closed, and then leaves without a reason and without a close code. */
  method ParkedEventsLost(parse: Outbound.UrlParser, paneReply: seq<byte>, other: Pane, data: seq<byte>, closed: bool)
    returns (live: seq<byte>, words: seq<Frame>, ended: bool)
    requires ParsePaneId(paneReply).Some? && ParsePaneId(paneReply).value != other
    ensures live == [] && words == [] && ended == closed
  {
    hide ParsePaneId, Outbound.Filter, RoutedBytes, LivePayload, Words, AllWordsFor, UntilEnd, SomeEnd;
    var session := new Session(parse, n => true);
    var parked := [Parser.WindowPaneChanged([], other), Parser.Exit(None)];
    var output := Event(Parser.Output(other, data));
    var inputs := if closed then [output, EventsClosed] else [output];
    var seeded;
    seeded, ended := session.RunSession(Ready(paneReply, [], parked), inputs);
    OutputThenClosed(ParsePaneId(paneReply).value, other, data);
    StartsEmpty(parse);
    assert session.AllAccepted();
    live, words := LivePayload(session.sent), Words(session.sent);
  }

  lemma OutputThenClosed(pane: Pane, from: Pane, data: seq<byte>)
    requires pane != from
    ensures var output := Event(Parser.Output(from, data));
      && !SomeEnd([output]) && SomeEnd([output, EventsClosed])
      && RoutedBytes(pane, [output]) == [] && RoutedBytes(pane, [output, EventsClosed]) == []
      && AllWordsFor(UntilEnd([output])) == [] && AllWordsFor(UntilEnd([output, EventsClosed])) == []
  {
    hide RoutedBytes, UntilEnd, AllWordsFor;
    var output := Event(Parser.Output(from, data));
    var one, two := [output], [output, EventsClosed];
    RoutedSingle(pane, from, data);
    RoutedNext(pane, two, 1);
    assert two[..1] == one && two[..2] == two && one[..1] == one;
    assert Ends(two[1]);
    UntilFirstEnd(one, 1);
    UntilFirstEnd(two, 1);
    NothingSaid(one);
    AllWordsNext(one, 0, []);
    AllWordsNext(two, 1, []);
    assert one[..0] == [] && [] + AllWordsFor(one) == AllWordsFor(one) && [] + AllWordsFor(two) == AllWordsFor(two);
    assert [] + AllWordsFor(one[..0]) + WordsFor(output) == [];
    assert [] + AllWordsFor(one) + WordsFor(EventsClosed) == [];
  }

  lemma QuietTurn(parse: Outbound.UrlParser, st: VtParser.State)
    ensures VtParser.Run(st, []) == (st, []) && Outbound.EmitAll(parse, []) == []
  {
  }

  lemma StartsEmpty(parse: Outbound.UrlParser)
    ensures VtParser.Run(VtParser.START, []) == (VtParser.START, []) && Outbound.Filter(parse, []) == []
  {
  }

  lemma FilterNext(parse: Outbound.UrlParser, before: seq<byte>, data: seq<byte>)
    ensures var (st, actions) := VtParser.Run(VtParser.START, before);
      && VtParser.Run(VtParser.START, before + data).0 == VtParser.Run(st, data).0
      && Outbound.Filter(parse, before + data)
           == Outbound.Filter(parse, before) + Outbound.EmitAll(parse, VtParser.Run(st, data).1)
  {
    hide VtParser.Run, Outbound.EmitAll;
    VtParser.RunConcat(VtParser.START, before, data);
    var (st, actions) := VtParser.Run(VtParser.START, before);
    Outbound.EmitAllConcat(parse, actions, VtParser.Run(st, data).1);
  }
}
