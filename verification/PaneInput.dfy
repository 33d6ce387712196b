/** The other half of the pane session (src/ws_pane.rs, the inbound task): from the browser's
    binary frames to the command lines tmux reads. */
module PaneInput {
  import opened Bytes
  import opened VtParser
  import Inbound
  import Commands
  import Numbers
  import PaneSession

  type Pane = seq<byte>

  const TAG_STDIN: byte := 0x10
  const TAG_RESIZE: byte := 0x11
  const TAG_REQUEST_SCROLLBACK: byte := 0x12

  /** Pings, pongs and text frames are `Other`. */
  datatype Message = Binary(payload: seq<byte>) | Other | Close

  datatype Reply = Captured(bytes: seq<byte>) | Refused(reason: seq<byte>)

  /** A message, the pane that is active when it is handled, and what tmux answers if the
      message asks for the scrollback. */
  datatype Input = Input(message: Message, pane: Pane, reply: Reply)

  datatype Command = Keys(pane: Pane, bytes: seq<byte>) | Dims(cols: nat, rows: nat) | Capture(pane: Pane)

  function LineOf(c: Command): seq<byte> {
    match c
    case Keys(pane, bytes) => Commands.KeysHex(pane, bytes)
    case Dims(cols, rows) => Commands.RefreshClientDims(cols, rows)
    case Capture(pane) => Commands.CapturePaneAll(pane)
  }

  predicate HasTag(m: Message, tag: byte) { m.Binary? && m.payload != [] && m.payload[0] == tag }

  /** The keystrokes a message carries. */
  function Keystrokes(m: Message): seq<byte> {
    if HasTag(m, TAG_STDIN) then m.payload[1..] else []
  }

  /** `u16::from_be_bytes` */
  function BigEndian(hi: byte, lo: byte): nat { hi as int * 0x100 + lo as int }

  /** What one message makes the task send, with the parser in state `st`. */
  function CommandFor(st: State, input: Input): seq<Command> {
    var m := input.message;
    if HasTag(m, TAG_STDIN) then
      var filtered := Inbound.EmitAll(Run(st, m.payload[1..]).1);
      if filtered == [] then [] else [Keys(input.pane, filtered)]
    else if HasTag(m, TAG_RESIZE) && |m.payload| == 5 then
      [Dims(BigEndian(m.payload[1], m.payload[2]), BigEndian(m.payload[3], m.payload[4]))]
    else if HasTag(m, TAG_REQUEST_SCROLLBACK) then [Capture(input.pane)]
    else []
  }

  function CommandsFor(st: State, inputs: seq<Input>): seq<Command>
    decreases |inputs|
  {
    if inputs == [] then []
    else CommandFor(st, inputs[0]) + CommandsFor(Run(st, Keystrokes(inputs[0].message)).0, inputs[1..])
  }

  function LinesOf(commands: seq<Command>): seq<seq<byte>> {
    seq(|commands|, i requires 0 <= i < |commands| => LineOf(commands[i]))
  }

  /** A close frame ends the task; what follows it is never looked at. */
  function BeforeClose(inputs: seq<Input>): seq<Input> {
    if inputs == [] || inputs[0].message.Close? then [] else [inputs[0]] + BeforeClose(inputs[1..])
  }

  function AllKeystrokes(inputs: seq<Input>): seq<byte> {
    if inputs == [] then [] else Keystrokes(inputs[0].message) + AllKeystrokes(inputs[1..])
  }

  // ---- The task ----

  const WRITER_GONE: seq<byte> := Ascii("control-mode writer has shut down")

  /** The whole scrollback, or a marker line and as many of its newest bytes as 5 MiB hold. */
  function Newest(bytes: seq<byte>): seq<byte> {
    var marker := Ascii("[scrollback truncated to last 5 MiB]\n");
    if |bytes| <= 5_242_880 then bytes else marker + bytes[|bytes| - (5_242_880 - |marker|)..]
  }

  /** What the browser is told about a scrollback request whose line got through or not. */
  predicate Answers(response: PaneSession.Response, reply: Reply, delivered: bool) {
    match reply
    case Refused(reason) => response == PaneSession.ScrollbackFailed(reason)
    case Captured(bytes) =>
      if !delivered then response == PaneSession.ScrollbackFailed(WRITER_GONE)
      else
        && response.Scrollback?
        && response.bytes == Newest(bytes)
  }

  class InboundTask {
    const filter: Inbound.InboundFilter
    /** Whether the n-th line sent gets through to tmux. A failed send is not looked at. */
    const delivers: nat -> bool
    var parser: State
    var sends: nat
    /** The command lines that got through, and the answers queued for the browser. */
    var lines: seq<seq<byte>>
    var queued: seq<PaneSession.Response>

    constructor (delivers: nat -> bool)
      ensures this.delivers == delivers && parser == START && filter.out == [] && sends == 0
      ensures lines == [] && queued == [] && fresh(filter)
    {
      this.delivers := delivers;
      filter := new Inbound.InboundFilter();
      parser, sends, lines, queued := START, 0, [], [];
    }

    method SendLine(line: seq<byte>) returns (ok: bool)
      modifies this`sends, this`lines
      ensures sends == old(sends) + 1 && ok == delivers(old(sends))
      ensures lines == old(lines) + if ok then [line] else []
    {
      ok := delivers(sends);
      sends := sends + 1;
      if ok {
        lines := lines + [line];
      }
    }

    /** A keystroke frame: filtered with the parser state of the frames before it. */
    method Stdin(body: seq<byte>, pane: Pane)
      requires filter.out == []
      modifies this`parser, this`sends, this`lines, filter
      ensures filter.out == [] && parser == Run(old(parser), body).0
      ensures var filtered := Inbound.EmitAll(Run(old(parser), body).1);
        if filtered == [] then lines == old(lines) && sends == old(sends)
        else
          && sends == old(sends) + 1
          && lines == old(lines) + if delivers(old(sends)) then [Commands.KeysHex(pane, filtered)] else []
    {
      hide Run, Inbound.EmitAll, Commands.KeysHex;
      QuietFrame(parser);
      if body == [] { return; }
      var (next, actions) := Run(parser, body);
      filter.PerformAll(actions);
      assert [] + Inbound.EmitAll(actions) == Inbound.EmitAll(actions);
      parser := next;
      var filtered := filter.Take();
      if filtered != [] {
        var line := Commands.SendKeysHex(pane, filtered);
        var ok := SendLine(line);
      }
    }

    method Scrollback(input: Input)
      modifies this`sends, this`lines, this`queued
      ensures sends == old(sends) + 1
      ensures lines == old(lines) + if delivers(old(sends)) then [Commands.CapturePaneAll(input.pane)] else []
      ensures |queued| == |old(queued)| + 1 && old(queued) <= queued
      ensures Answers(queued[|queued| - 1], input.reply, delivers(old(sends)))
    {
      var ok := SendLine(Commands.CapturePaneAll(input.pane));
      match input.reply {
        case Captured(bytes) =>
          if ok {
            var capped := PaneSession.CapScrollback(bytes);
            queued := queued + [PaneSession.Scrollback(capped)];
          } else {
            queued := queued + [PaneSession.ScrollbackFailed(WRITER_GONE)];
          }
        case Refused(reason) => queued := queued + [PaneSession.ScrollbackFailed(reason)];
      }
    }

    /** One frame. */
    method Handle(input: Input) returns (ended: bool)
      requires filter.out == []
      modifies this`parser, this`sends, this`lines, this`queued, filter
      ensures filter.out == [] && ended == input.message.Close?
      ensures parser == Run(old(parser), Keystrokes(input.message)).0
      ensures var commands := CommandFor(old(parser), input);
        && sends == old(sends) + |commands|
        && lines == old(lines) + LinesOf(Delivered(commands, delivers, old(sends)))
      ensures !HasTag(input.message, TAG_REQUEST_SCROLLBACK) ==> queued == old(queued)
      ensures HasTag(input.message, TAG_REQUEST_SCROLLBACK) ==>
        && |queued| == |old(queued)| + 1 && old(queued) <= queued
        && Answers(queued[|queued| - 1], input.reply, delivers(old(sends)))
    {
      hide Run, Inbound.EmitAll, LineOf, Answers, Commands.KeysHex, Commands.RefreshClientDims, Commands.CapturePaneAll;
      QuietFrame(parser);
      LineOfEach(input, Inbound.EmitAll(Run(parser, Keystrokes(input.message)).1));
      DeliveredOne(CommandFor(parser, input), delivers, sends);
      hide Delivered, LinesOf;
      ended := false;
      match input.message
      case Other =>
      case Close => ended := true;
      case Binary(payload) =>
        if payload == [] { return; }
        var tag, body := payload[0], payload[1..];
        if tag == TAG_STDIN {
          Stdin(body, input.pane);
        } else if tag == TAG_RESIZE {
          if |body| != 4 { return; }
          var ok := SendLine(Commands.RefreshClientDims(BigEndian(body[0], body[1]), BigEndian(body[2], body[3])));
        } else if tag == TAG_REQUEST_SCROLLBACK {
          Scrollback(input);
        }
    }

    /** Tmux gets exactly the lines of the frames before the first close, in order, less those
        whose send failed. */
    method RunTask(inputs: seq<Input>)
      requires filter.out == [] && parser == START && lines == [] && sends == 0
      modifies this`parser, this`sends, this`lines, this`queued, filter
      ensures lines == LinesOf(Delivered(CommandsFor(START, BeforeClose(inputs)), delivers, 0))
    {
      hide Run, CommandFor, LinesOf, BeforeClose, CommandsFor, Delivered;
      ghost var commands: seq<Command> := [];
      var i, ended := 0, false;
      NoCommands(inputs, delivers);
      while i < |inputs| && !ended
        invariant i <= |inputs| && filter.out == []
        invariant sends == |commands| && lines == LinesOf(Delivered(commands, delivers, 0))
        invariant CommandsFor(START, BeforeClose(inputs))
               == commands + if ended then [] else CommandsFor(parser, BeforeClose(inputs[i..]))
        decreases |inputs| - i
      {
        assert inputs[i..][1..] == inputs[i + 1..];
        NextCommands(parser, inputs[i..]);
        ghost var more := CommandFor(parser, inputs[i]);
        DeliveredAppend(commands, more, delivers, 0);
        LinesOfAppend(Delivered(commands, delivers, 0), Delivered(more, delivers, sends));
        ghost var next := Run(parser, Keystrokes(inputs[i].message)).0;
        Regroup(commands, more,
                if inputs[i].message.Close? then [] else CommandsFor(next, BeforeClose(inputs[i + 1..])));
        commands := commands + more;
        ended := Handle(inputs[i]);
        i := i + 1;
      }
      NoCommands(inputs, delivers);
      assert commands + [] == commands;
    }
  }

  /** The commands that get through, when the first of them is the n-th send. */
  function Delivered(commands: seq<Command>, delivers: nat -> bool, n: nat): seq<Command>
    decreases |commands|
  {
    if commands == [] then []
    else (if delivers(n) then [commands[0]] else []) + Delivered(commands[1..], delivers, n + 1)
  }

  lemma {:induction false} DeliveredAppend(a: seq<Command>, b: seq<Command>, delivers: nat -> bool, n: nat)
    ensures Delivered(a + b, delivers, n) == Delivered(a, delivers, n) + Delivered(b, delivers, n + |a|)
    decreases |a|
  {
    if a == [] {
      assert a + b == b;
    } else {
      assert (a + b)[1..] == a[1..] + b;
      DeliveredAppend(a[1..], b, delivers, n + 1);
    }
  }

  lemma DeliveredOne(commands: seq<Command>, delivers: nat -> bool, n: nat)
    requires |commands| <= 1
    ensures LinesOf(Delivered(commands, delivers, n))
         == if commands != [] && delivers(n) then [LineOf(commands[0])] else []
  {
    hide LineOf;
    if commands != [] {
      assert Delivered(commands[1..], delivers, n + 1) == [];
    }
  }

  /** Sends that all get through lose nothing. */
  lemma {:induction false} DeliveredAll(commands: seq<Command>, delivers: nat -> bool, n: nat)
    requires forall i: nat :: delivers(i)
    ensures Delivered(commands, delivers, n) == commands
    decreases |commands|
  {
    if commands != [] {
      DeliveredAll(commands[1..], delivers, n + 1);
    }
  }

  lemma LineOfEach(input: Input, filtered: seq<byte>)
    ensures LineOf(Keys(input.pane, filtered)) == Commands.KeysHex(input.pane, filtered)
    ensures LineOf(Capture(input.pane)) == Commands.CapturePaneAll(input.pane)
    ensures forall cols, rows :: LineOf(Dims(cols, rows)) == Commands.RefreshClientDims(cols, rows)
  {
  }

  lemma NoCommands(inputs: seq<Input>, delivers: nat -> bool)
    ensures Delivered([], delivers, 0) == []
    ensures LinesOf([]) == [] && inputs[0..] == inputs
    ensures forall st :: CommandsFor(st, BeforeClose(inputs[|inputs|..])) == []
  {
  }

  lemma LinesOfAppend(a: seq<Command>, b: seq<Command>)
    ensures LinesOf(a + b) == LinesOf(a) + LinesOf(b)
  {
    hide LineOf;
  }

  lemma QuietFrame(st: State)
    ensures Run(st, []) == (st, []) && Inbound.EmitAll([]) == []
  {
  }

  lemma NextCommands(st: State, inputs: seq<Input>)
    requires inputs != []
    ensures CommandsFor(st, BeforeClose(inputs)) == CommandFor(st, inputs[0])
      + if inputs[0].message.Close? then []
        else CommandsFor(Run(st, Keystrokes(inputs[0].message)).0, BeforeClose(inputs[1..]))
  {
    hide Run;
    var kept := BeforeClose(inputs);
    if !inputs[0].message.Close? {
      hide CommandFor;
      assert kept[0] == inputs[0] && kept[1..] == BeforeClose(inputs[1..]);
    }
  }

  // ---- What tmux types ----

  /** The bytes of a list of hex words. */
  function HexBytes(words: seq<seq<byte>>): seq<byte> {
    if words == [] then []
    else match Numbers.Parse(words[0], 16, 256)
         case Some(b) => if b < 256 then [b] + HexBytes(words[1..]) else []
         case None => []
  }

  const SEND_KEYS: seq<byte> := Ascii("send-keys")
  const TARGET: seq<byte> := Ascii("-t")
  const HEX: seq<byte> := Ascii("-H")

  /** What a command line types, and where: the words of `send-keys -t <pane> -H <hex>...`. */
  function Typed(line: seq<byte>): Option<(Pane, seq<byte>)> {
    if line == [] then None
    else match Commands.Words(line[..|line| - 1])
         case None => None
         case Some(w) =>
           if |w| >= 4 && w[0] == SEND_KEYS && w[1] == TARGET && w[3] == HEX then Some((w[2], HexBytes(w[4..])))
           else None
  }

  /** Every byte typed, with the pane it is typed in. */
  type Keystroke = (Pane, byte)

  function InPane(pane: Pane, bytes: seq<byte>): seq<Keystroke> {
    seq(|bytes|, i requires 0 <= i < |bytes| => (pane, bytes[i]))
  }

  function TypedKeys(lines: seq<seq<byte>>): seq<Keystroke> {
    if lines == [] then []
    else (match Typed(lines[0]) case Some((pane, bytes)) => InPane(pane, bytes) case None => []) + TypedKeys(lines[1..])
  }

  lemma {:induction false} HexBytesBack(bytes: seq<byte>)
    ensures HexBytes(Commands.HexWords(bytes)) == bytes
    decreases |bytes|
  {
    if bytes != [] {
      Commands.HexWordsParse(bytes, 0);
      assert Commands.HexWords(bytes)[1..] == Commands.HexWords(bytes[1..]);
      HexBytesBack(bytes[1..]);
    }
  }

  /** A keystroke command types its own bytes in its own pane. */
  lemma KeysTyped(pane: Pane, bytes: seq<byte>)
    requires Commands.IsPlainWord(pane)
    ensures Typed(LineOf(Keys(pane, bytes))) == Some((pane, bytes))
  {
    hide Commands.Words, Commands.HexWords, Commands.KeysHex, HexBytes;
    Commands.SendKeysHexWords(pane, bytes);
    HexBytesBack(bytes);
    var head := [SEND_KEYS, TARGET, pane, HEX];
    assert (head + Commands.HexWords(bytes))[4..] == Commands.HexWords(bytes);
    Commands.PlainBuildersMakeOneLine(pane, bytes, None, 0, 0);
  }

  lemma OtherWordTypesNothing(word: seq<byte>, head: seq<byte>, a: seq<byte>, b: seq<byte>, c: seq<byte>)
    requires Commands.IsPlainWord(word) && word != SEND_KEYS && word + [SPACE] <= head
    ensures Typed(head + a + b + c + [LF]).None?
  {
    hide Commands.Words;
    var line := head + a + b + c;
    assert (line + [LF])[..|line|] == line;
    assert line[..|word| + 1] == word + [SPACE];
    assert line == word + [SPACE] + line[|word| + 1..];
    Commands.FirstWord(word, line[|word| + 1..]);
  }

  /** The other commands type nothing. */
  lemma OthersTypeNothing(c: Command)
    requires !c.Keys?
    ensures Typed(LineOf(c)).None?
  {
    hide Typed, LineOf;
    match c
    case Dims(cols, rows) => DimsTypeNothing(cols, rows);
    case Capture(pane) => CaptureTypesNothing(pane);
  }

  lemma DimsTypeNothing(cols: nat, rows: nat)
    ensures Typed(LineOf(Dims(cols, rows))).None?
  {
    hide Typed, Numbers.Print;
    var word, head := Ascii("refresh-client"), Ascii("refresh-client -C ");
    assert SEND_KEYS[0] == 0x73 && word[0] == 0x72;
    assert word + [SPACE] <= head && Commands.IsPlainWord(word);
    OtherWordTypesNothing(word, head, Numbers.PrintDecimal(cols), [0x78], Numbers.PrintDecimal(rows));
  }

  lemma CaptureTypesNothing(pane: Pane)
    ensures Typed(LineOf(Capture(pane))).None?
  {
    hide Typed;
    var word, head := Ascii("capture-pane"), Ascii("capture-pane -p -e -t ");
    assert SEND_KEYS[0] == 0x73 && word[0] == 0x63;
    assert word + [SPACE] <= head && Commands.IsPlainWord(word);
    OtherWordTypesNothing(word, head, pane, Ascii(" -S -"), []);
    Commands.NothingAdded(head + pane + Ascii(" -S -"));
  }

  // ---- Keys from the browser ----

  /** What one command types. */
  function KeysOf(c: Command): seq<Keystroke> { if c.Keys? then InPane(c.pane, c.bytes) else [] }

  function AllKeysOf(commands: seq<Command>): seq<Keystroke> {
    if commands == [] then [] else KeysOf(commands[0]) + AllKeysOf(commands[1..])
  }

  /** What the browser's frames should type: each frame's keystrokes, filtered by the parser
      that has seen those before it, in the pane that is active when the frame comes. */
  function Intended(st: State, inputs: seq<Input>): seq<Keystroke>
    decreases |inputs|
  {
    if inputs == [] then []
    else
      var (next, actions) := Run(st, Keystrokes(inputs[0].message));
      InPane(inputs[0].pane, Inbound.EmitAll(actions)) + Intended(next, inputs[1..])
  }

  predicate PlainPanes(commands: seq<Command>) {
    forall i :: 0 <= i < |commands| && commands[i].Keys? ==> Commands.IsPlainWord(commands[i].pane)
  }

  /** Tmux, reading any of the task's lines, types exactly what each command says. */
  lemma {:induction false} LinesType(commands: seq<Command>)
    requires PlainPanes(commands)
    ensures TypedKeys(LinesOf(commands)) == AllKeysOf(commands)
    decreases |commands|
  {
    hide Typed, LineOf;
    if commands != [] {
      assert LinesOf(commands)[1..] == LinesOf(commands[1..]);
      LinesType(commands[1..]);
      if commands[0].Keys? {
        KeysTyped(commands[0].pane, commands[0].bytes);
      } else {
        OthersTypeNothing(commands[0]);
      }
    }
  }

  lemma {:induction false} AllKeysAppend(a: seq<Command>, b: seq<Command>)
    ensures AllKeysOf(a + b) == AllKeysOf(a) + AllKeysOf(b)
    decreases |a|
  {
    if a == [] {
      assert a + b == b;
    } else {
      assert (a + b)[1..] == a[1..] + b;
      AllKeysAppend(a[1..], b);
    }
  }

  lemma CommandKeys(st: State, input: Input)
    ensures AllKeysOf(CommandFor(st, input))
         == InPane(input.pane, Inbound.EmitAll(Run(st, Keystrokes(input.message)).1))
    ensures |CommandFor(st, input)| <= 1
    ensures Commands.IsPlainWord(input.pane) ==> PlainPanes(CommandFor(st, input))
  {
    hide Run, Inbound.EmitAll;
    QuietFrame(st);
    var commands := CommandFor(st, input);
    if commands != [] {
      assert commands == [commands[0]] && commands[1..] == [];
    }
  }

  lemma {:induction false} CommandsType(st: State, inputs: seq<Input>)
    ensures AllKeysOf(CommandsFor(st, inputs)) == Intended(st, inputs)
    ensures (forall i :: 0 <= i < |inputs| ==> Commands.IsPlainWord(inputs[i].pane)) ==>
      PlainPanes(CommandsFor(st, inputs))
    decreases |inputs|
  {
    hide Run, CommandFor, InPane, KeysOf, Inbound.EmitAll, Keystrokes, Commands.IsPlainWord;
    if inputs != [] {
      var next := Run(st, Keystrokes(inputs[0].message)).0;
      CommandKeys(st, inputs[0]);
      CommandsType(next, inputs[1..]);
      AllKeysAppend(CommandFor(st, inputs[0]), CommandsFor(next, inputs[1..]));
    }
  }

  lemma DeliveredPlain(commands: seq<Command>, delivers: nat -> bool, n: nat)
    requires PlainPanes(commands)
    ensures PlainPanes(Delivered(commands, delivers, n))
    decreases |commands|
  {
    hide Commands.IsPlainWord;
    if commands != [] {
      assert forall i :: 0 <= i < |commands[1..]| ==> commands[1..][i] == commands[i + 1];
      DeliveredPlain(commands[1..], delivers, n + 1);
    }
  }

  /** End to end: reading the task's command lines as tmux does, what is typed is what was
      intended, key by key and pane by pane, less the commands whose send failed; and when
      none fails nothing is missing. */
  lemma KeysArriveFiltered(inputs: seq<Input>, delivers: nat -> bool)
    requires forall i :: 0 <= i < |inputs| ==> Commands.IsPlainWord(inputs[i].pane)
    ensures var typed := TypedKeys(LinesOf(Delivered(CommandsFor(START, inputs), delivers, 0)));
      && typed == AllKeysOf(Delivered(CommandsFor(START, inputs), delivers, 0))
      && ((forall i: nat :: delivers(i)) ==> typed == Intended(START, inputs))
  {
    hide TypedKeys, LinesOf, Delivered, CommandsFor, AllKeysOf, Intended, PlainPanes, Commands.IsPlainWord;
    var commands := CommandsFor(START, inputs);
    CommandsType(START, inputs);
    DeliveredPlain(commands, delivers, 0);
    LinesType(Delivered(commands, delivers, 0));
    if forall i: nat :: delivers(i) {
      DeliveredAll(commands, delivers, 0);
    }
  }

  function BytesOf(keys: seq<Keystroke>): seq<byte> { seq(|keys|, i requires 0 <= i < |keys| => keys[i].1) }

  /** The keys intended are, pane apart, the streaming inbound filter of all the keystrokes,
      however they were cut into frames and whatever other frames came between. */
  lemma {:induction false} IntendedIsFiltered(st: State, inputs: seq<Input>)
    ensures BytesOf(Intended(st, inputs)) == Inbound.EmitAll(Run(st, AllKeystrokes(inputs)).1)
    decreases |inputs|
  {
    hide Run, Inbound.EmitAll, Keystrokes;
    QuietFrame(st);
    if inputs != [] {
      var (next, actions) := Run(st, Keystrokes(inputs[0].message));
      IntendedIsFiltered(next, inputs[1..]);
      var piece := Inbound.EmitAll(actions);
      RunConcat(st, Keystrokes(inputs[0].message), AllKeystrokes(inputs[1..]));
      Inbound.EmitAllConcat(actions, Run(next, AllKeystrokes(inputs[1..])).1);
      assert BytesOf(Intended(st, inputs)) == piece + BytesOf(Intended(next, inputs[1..]));
    }
  }

  // ---- Nothing dangerous is typed ----

  /** The bytes typed in one pane. */
  function TypedIn(pane: Pane, keys: seq<Keystroke>): seq<byte> {
    if keys == [] then [] else (if keys[0].0 == pane then [keys[0].1] else []) + TypedIn(pane, keys[1..])
  }

  lemma {:induction false} TypedInAppend(pane: Pane, a: seq<Keystroke>, b: seq<Keystroke>)
    ensures TypedIn(pane, a + b) == TypedIn(pane, a) + TypedIn(pane, b)
    decreases |a|
  {
    if a == [] {
      assert a + b == b;
    } else {
      assert (a + b)[0] == a[0] && (a + b)[1..] == a[1..] + b;
      TypedInAppend(pane, a[1..], b);
      Regroup(if a[0].0 == pane then [a[0].1] else [], TypedIn(pane, a[1..]), TypedIn(pane, b));
    }
  }

  lemma {:induction false} TypedInPane(pane: Pane, other: Pane, bytes: seq<byte>)
    ensures TypedIn(pane, InPane(other, bytes)) == if other == pane then bytes else []
    decreases |bytes|
  {
    if bytes != [] {
      assert InPane(other, bytes)[1..] == InPane(other, bytes[1..]);
      TypedInPane(pane, other, bytes[1..]);
    }
  }

  lemma {:induction false} KeysAreClean(st: State, inputs: seq<Input>, delivers: nat -> bool, n: nat, pane: Pane)
    requires StateOk(st)
    ensures Inbound.Clean(TypedIn(pane, AllKeysOf(Delivered(CommandsFor(st, inputs), delivers, n))))
    decreases |inputs|
  {
    assert Inbound.Clean([]) by {
      assert ActionsOk([]) && Inbound.EmitAll([]) == [];
    }
    if inputs != [] {
      var input, commands := inputs[0], CommandFor(st, inputs[0]);
      var (next, actions) := Run(st, Keystrokes(input.message));
      RunOk(st, Keystrokes(input.message));
      hide Run, CommandFor, TypedIn, AllKeysOf, Delivered, Inbound.Clean, StateOk, ActionOk, Keystrokes;
      KeysAreClean(next, inputs[1..], delivers, n + |commands|, pane);
      var rest := Delivered(CommandsFor(next, inputs[1..]), delivers, n + |commands|);
      DeliveredAppend(commands, CommandsFor(next, inputs[1..]), delivers, n);
      AllKeysAppend(Delivered(commands, delivers, n), rest);
      TypedInAppend(pane, AllKeysOf(Delivered(commands, delivers, n)), AllKeysOf(rest));
      CommandIsClean(st, input, delivers, n, pane);
      Inbound.CleanConcat(TypedIn(pane, AllKeysOf(Delivered(commands, delivers, n))), TypedIn(pane, AllKeysOf(rest)));
    }
  }

  lemma CommandIsClean(st: State, input: Input, delivers: nat -> bool, n: nat, pane: Pane)
    requires StateOk(st)
    ensures Inbound.Clean(TypedIn(pane, AllKeysOf(Delivered(CommandFor(st, input), delivers, n))))
  {
    var commands, actions := CommandFor(st, input), Run(st, Keystrokes(input.message)).1;
    assert Inbound.Clean([]) by {
      assert ActionsOk([]) && Inbound.EmitAll([]) == [];
    }
    RunOk(st, Keystrokes(input.message));
    assert Inbound.Clean(Inbound.EmitAll(actions));
    CommandKeys(st, input);
    hide Run, CommandFor, AllKeysOf, Inbound.Clean, Keystrokes, InPane;
    NoKeys(pane);
    if commands == [] {
      assert Delivered(commands, delivers, n) == [];
    } else {
      assert Delivered(commands[1..], delivers, n + 1) == [];
      assert commands == [commands[0]];
      TypedInPane(pane, input.pane, Inbound.EmitAll(actions));
    }
  }

  lemma NoKeys(pane: Pane)
    ensures AllKeysOf([]) == [] && TypedIn(pane, []) == []
  {
  }

  /** No control string is ever typed in any pane, whatever the browser sends, whichever
      commands are lost and however often the active pane changes. */
  lemma NoStringsTyped(inputs: seq<Input>, delivers: nat -> bool, pane: Pane)
    requires forall i :: 0 <= i < |inputs| ==> Commands.IsPlainWord(inputs[i].pane)
    ensures var bytes := TypedIn(pane, TypedKeys(LinesOf(Delivered(CommandsFor(START, inputs), delivers, 0))));
      && Run(START, bytes).0 == START
      && forall i :: 0 <= i < |Run(START, bytes).1| ==> !Inbound.IsString(Run(START, bytes).1[i])
  {
    assert StateOk(START);
    hide *;
    KeysArriveFiltered(inputs, delivers);
    KeysAreClean(START, inputs, delivers, 0, pane);
    Inbound.CleanHasNoStrings(TypedIn(pane, AllKeysOf(Delivered(CommandsFor(START, inputs), delivers, 0))));
  }

  /** The one-shot filter's chunk limit plays no part: a long paste of plain text is one
      command, whole. */
  lemma LongPasteIsTyped(text: seq<byte>, pane: Pane, reply: Reply)
    requires Inbound.IsPrintable(text) && |text| > 4096
    ensures CommandsFor(START, [Input(Binary([0x10] + text), pane, reply)]) == [Keys(pane, text)]
    ensures Inbound.Filter(text) == []
  {
    hide Run, Inbound.EmitAll;
    var input := Input(Binary([0x10] + text), pane, reply);
    assert ([0x10] + text)[1..] == text;
    Inbound.LimitDropsPaste(text);
    assert [input][1..] == [];
  }

  /** What the other frames ask for, by their bytes. A resize frame holds columns and rows as
      big-endian 16-bit numbers, and one of any other length is ignored. */
  lemma FramesMean(st: State, cols: nat, rows: nat, other: seq<byte>, pane: Pane, reply: Reply)
    requires cols < 65536 && rows < 65536 && |other| != 4
    ensures CommandFor(st, Input(Binary([0x11, cols / 256, cols % 256, rows / 256, rows % 256]), pane, reply))
         == [Dims(cols, rows)]
    ensures CommandFor(st, Input(Binary([0x11] + other), pane, reply)) == []
    ensures CommandFor(st, Input(Binary([0x12] + other), pane, reply)) == [Capture(pane)]
    ensures HasTag(Binary([0x12] + other), TAG_REQUEST_SCROLLBACK)
    ensures CommandFor(st, Input(Binary([]), pane, reply)) == []
  {
    hide Run, Inbound.EmitAll;
  }

  lemma UnknownTags(st: State, payload: seq<byte>, pane: Pane, reply: Reply)
    requires payload != [] && !(0x10 <= payload[0] <= 0x12)
    ensures CommandFor(st, Input(Binary(payload), pane, reply)) == []
    ensures CommandFor(st, Input(Other, pane, reply)) == [] && CommandFor(st, Input(Close, pane, reply)) == []
  {
    hide Run, Inbound.EmitAll;
  }
}
