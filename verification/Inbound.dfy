/** The inbound (browser to tmux) filter (src/vt_filter/inbound.rs). */
module Inbound {
  import opened Bytes
  import opened VtParser
  import opened VtPrinter
  import Text

  const MAX_INBOUND_CHUNK_BYTES: nat := 4096

  /** Intermediates are printed before the parameters, wherever they stood. */
  function Emit(a: Action): seq<byte> {
    match a
    case Print(c) => c
    case Execute(b) => [b]
    case CsiDispatch(params, inter, ignore, final) =>
      if ignore then [] else CsiBytes(inter, ParamText(params), final)
    case EscDispatch(inter, _, final) => EscBytes(inter, final)
    case OscDispatch(_, _) => []
    case StringOpened(_) => []
  }

  function EmitAll(actions: seq<Action>): seq<byte> {
    if actions == [] then [] else Emit(actions[0]) + EmitAll(actions[1..])
  }

  /** The one-shot `filter`: an oversized chunk is dropped whole. */
  function Filter(input: seq<byte>): seq<byte> {
    if |input| > MAX_INBOUND_CHUNK_BYTES then [] else EmitAll(Run(START, input).1)
  }

  class InboundFilter {
    var out: seq<byte>

    constructor ()
      ensures out == []
    {
      out := [];
    }

    method Take() returns (bytes: seq<byte>)
      modifies this
      ensures bytes == old(out) && out == []
    {
      bytes := out;
      out := [];
    }

    method Perform(a: Action)
      modifies this
      ensures out == old(out) + Emit(a)
    {
      match a
      case Print(c) => out := out + c;
      case Execute(b) => out := out + [b];
      case CsiDispatch(params, inter, ignore, final) =>
        if ignore { return; }
        var buf := CSI + inter;
        var text := PrintParams(params);
        buf := buf + text + [final];
        out := out + buf;
      case EscDispatch(inter, _, final) =>
        var buf := [ESC];
        buf := buf + inter;
        buf := buf + [final];
        out := out + buf;
      case OscDispatch(_, _) =>
      case StringOpened(_) =>
    }

    /** One input can make several actions. */
    method PerformAll(actions: seq<Action>)
      modifies this
      ensures out == old(out) + EmitAll(actions)
    {
      assert EmitAll(actions[..0]) == [];
      hide Emit, EmitAll;
      for k := 0 to |actions|
        invariant out == old(out) + EmitAll(actions[..k])
      {
        Regroup(old(out), EmitAll(actions[..k]), Emit(actions[k]));
        EmitNext(actions, k);
        Perform(actions[k]);
      }
      assert actions[..|actions|] == actions;
    }
  }

  lemma EmitNext(actions: seq<Action>, k: nat)
    requires k < |actions|
    ensures EmitAll(actions[..k + 1]) == EmitAll(actions[..k]) + Emit(actions[k])
  {
    hide Emit;
    var one := [actions[k]];
    assert actions[..k + 1] == actions[..k] + one;
    EmitAllConcat(actions[..k], one);
    assert EmitAll(one[1..]) == [];
  }

  lemma {:induction false} EmitAllConcat(a: seq<Action>, b: seq<Action>)
    ensures EmitAll(a + b) == EmitAll(a) + EmitAll(b)
    decreases |a|
  {
    hide Emit;
    if a == [] {
      assert a + b == b;
    } else {
      assert (a + b)[1..] == a[1..] + b;
      EmitAllConcat(a[1..], b);
    }
  }

  // ---- How a printed CSI sequence is read back ----

  /** Parameter bytes are digits, colons and semicolons. */
  predicate IsParamText(text: seq<byte>) {
    forall i :: 0 <= i < |text| ==> 0x30 <= text[i] <= SEMICOLON
  }

  lemma {:induction false} GroupBytesShape(group: seq<Param>)
    requires group != []
    ensures IsParamText(GroupBytes(group)) && GroupBytes(group) != []
    decreases |group|
  {
    if |group| > 1 {
      GroupBytesShape(group[..|group| - 1]);
    }
  }

  lemma {:induction false} ParamBytesShape(params: Params)
    requires params != [] && GroupsOk(params)
    ensures IsParamText(ParamBytes(params)) && ParamBytes(params) != []
    decreases |params|
  {
    GroupBytesShape(params[|params| - 1]);
    if |params| > 1 {
      ParamBytesShape(params[..|params| - 1]);
    }
  }

  lemma {:induction false} RunIgnored(st: State, text: seq<byte>)
    requires st.Csi? && st.phase.Ignored? && IsParamText(text)
    ensures Run(st, text) == (st, [])
    decreases |text|
  {
    if text != [] {
      var one := [text[0]];
      RunOne(st, text[0]);
      RunIgnored(st, text[1..]);
      RunThen(st, one, st, text[1..]);
      assert one + text[1..] == text;
    }
  }

  /** The automaton after the intermediates of a sequence printed intermediates-first. */
  function AfterInter(inter: seq<byte>): State {
    Csi(if inter == [] then Entry else if Leading(inter) then Parameter else Intermediate,
        inter, false, [], [], 0)
  }

  lemma RunInter(inter: seq<byte>)
    requires InterOk(inter, false)
    ensures Run(AfterInter([]), inter) == (AfterInter(inter), [])
  {
    if |inter| == 1 {
      RunOne(AfterInter([]), inter[0]);
      assert inter == [inter[0]] && [] + [inter[0]] == inter;
    } else if |inter| == 2 {
      var a, b := [inter[0]], [inter[1]];
      assert [] + a == a && a + b == inter;
      RunOne(AfterInter([]), inter[0]);
      RunOne(AfterInter(a), inter[1]);
      RunThen(AfterInter([]), a, AfterInter(a), b);
    }
  }

  /** After a real intermediate, parameters make the automaton ignore the sequence. */
  lemma RunMisplaced(inter: seq<byte>, text: seq<byte>, final: byte)
    requires InterOk(inter, false) && !Leading(inter) && IsParamText(text) && text != []
    requires 0x40 <= final < 0x7F
    ensures Run(AfterInter(inter), text + [final]) == (START, [])
  {
    var st := AfterInter(inter);
    var ignored := st.(phase := Ignored);
    RunOne(st, text[0]);
    RunIgnored(ignored, text[1..]);
    RunThen(st, [text[0]], ignored, text[1..]);
    assert [text[0]] + text[1..] == text;
    RunThen(st, text, ignored, [final]);
    RunOne(ignored, final);
  }

  /** What the reader of the filter's output sees of one action. */
  function Seen(a: Action): seq<Action> {
    match a
    case Print(_) => [a]
    case Execute(b) => if b < 0x20 then [a] else [Print(Text.REPLACEMENT)]
    case CsiDispatch(params, inter, ignore, final) =>
      if !ignore && (Leading(inter) || IsDefault(params)) then [a] else []
    case EscDispatch(inter, _, final) => [EscDispatch(inter, false, final)]
    case OscDispatch(_, _) => []
    case StringOpened(_) => []
  }

  function SeenAll(actions: seq<Action>): seq<Action> {
    if actions == [] then [] else Seen(actions[0]) + SeenAll(actions[1..])
  }

  lemma RunNothing()
    ensures Run(START, []) == (START, [])
  {
  }

  lemma CsiSeen(a: Action)
    requires a.CsiDispatch? && ActionOk(a)
    ensures Run(START, Emit(a)) == (START, Seen(a))
  {
    hide Run, VtParser.Step, ParamBytes;
    if a.ignore {
      RunNothing();
    } else if Leading(a.inter) {
      CsiTextReparses(a.inter, a.params, a.final);
    } else {
      var text := ParamText(a.params);
      RunCsiOpens();
      RunInter(a.inter);
      RunThen(START, CSI, AfterInter([]), a.inter);
      RunThen(START, CSI + a.inter, AfterInter(a.inter), text + [a.final]);
      assert CSI + a.inter + (text + [a.final]) == CsiBytes(a.inter, text, a.final);
      if IsDefault(a.params) {
        RunFinal(AfterInter(a.inter), a.params, a.final);
      } else {
        ParamBytesShape(a.params);
        RunMisplaced(a.inter, text, a.final);
      }
    }
  }

  lemma RunFinal(st: State, params: Params, final: byte)
    requires st.Csi? && !st.phase.Ignored? && st.done == [] && st.group == [] && st.value == 0
    requires IsDefault(params) && 0x40 <= final < 0x7F
    ensures Run(st, [] + [final]) == (START, [CsiDispatch(params, st.inter, st.ignore, final)])
  {
    assert [] + [final] == [final];
    assert st.group + [st.value] == params[0] && st.done + [params[0]] == params;
    RunOne(st, final);
  }

  /** A CSI sequence that is passed on reaches the other side as itself exactly when it has
      no intermediates beyond a private marker, or no parameters; otherwise, printed
      intermediates-first, it is ignored there. */
  lemma CsiArrivesIff(a: Action)
    requires a.CsiDispatch? && ActionOk(a) && !a.ignore
    ensures Run(START, Emit(a)).1 == [a] <==> Leading(a.inter) || IsDefault(a.params)
    ensures Run(START, Emit(a)).0 == START
  {
    CsiSeen(a);
  }

  lemma EmitSeen(a: Action)
    requires ActionOk(a)
    ensures Run(START, Emit(a)) == (START, Seen(a))
  {
    match a
    case Print(c) => TextReparses(c);
    case Execute(b) => if b < 0x20 { ControlReparses(b); } else { RunOne(START, b); }
    case CsiDispatch(_, _, _, _) => CsiSeen(a);
    case EscDispatch(inter, ignore, final) => EscReparses(inter, final);
    case OscDispatch(_, _) => RunNothing();
    case StringOpened(_) => RunNothing();
  }

  lemma {:induction false} EmitAllSeen(actions: seq<Action>)
    requires ActionsOk(actions)
    ensures Run(START, EmitAll(actions)) == (START, SeenAll(actions))
    decreases |actions|
  {
    hide Emit, Seen, ActionOk;
    if actions == [] {
      RunNothing();
    } else {
      hide Run;
      EmitSeen(actions[0]);
      EmitAllSeen(actions[1..]);
      RunConcat(START, Emit(actions[0]), EmitAll(actions[1..]));
    }
  }

  /** The actions that reach the other side as themselves: text and C0 controls, escape
      sequences whose intermediates all fitted, and CSI sequences that also have at most a
      private marker or no parameters. */
  predicate ArrivesAsItself(a: Action) {
    match a
    case Print(_) => true
    case Execute(b) => b < 0x20
    case CsiDispatch(params, inter, ignore, _) => !ignore && (Leading(inter) || IsDefault(params))
    case EscDispatch(_, ignore, _) => !ignore
    case OscDispatch(_, _) => false
    case StringOpened(_) => false
  }

  /** Any action at all is read back as itself exactly when it is one of those. */
  lemma ArrivesIff(a: Action)
    requires ActionOk(a)
    ensures Run(START, Emit(a)).1 == [a] <==> ArrivesAsItself(a)
  {
    hide Run;
    EmitSeen(a);
  }

  /** U+009B, a C1 control, is written as one raw byte, which is read as a bad character. */
  lemma C1Garbled()
    ensures var actions := Run(START, [0xC2, 0x9B]).1;
      actions == [Execute(0x9B)] && EmitAll(actions) == [0x9B] && Run(START, [0x9B]).1 == [Print(Text.REPLACEMENT)]
  {
    var lead, tail: seq<byte> := [0xC2], [0x9B];
    assert lead + tail == [0xC2, 0x9B];
    RunOne(START, 0xC2);
    RunOne(Ground(lead), 0x9B);
    RunThen(START, lead, Ground(lead), tail);
    RunOne(START, 0x9B);
    EmitAllOne(Execute(0x9B));
  }

  /** An escape sequence with three intermediates arrives with two, as if it were complete. */
  lemma OverflowForgotten()
    ensures var actions := Run(START, [ESC, 0x28, 0x28, 0x28, 0x42]).1;
      && actions == [EscDispatch([0x28, 0x28], true, 0x42)]
      && Run(START, EmitAll(actions)).1 == [EscDispatch([0x28, 0x28], false, 0x42)]
  {
    hide Run, Emit;
    var a := EscDispatch([0x28, 0x28], true, 0x42);
    assert [] + [0x28] == [0x28] && [0x28] + [0x28] == [0x28, 0x28];
    RunOne(START, ESC);
    RunOne(Escape([], false), 0x28);
    RunOne(Escape([0x28], false), 0x28);
    RunOne(Escape([0x28, 0x28], false), 0x28);
    RunOne(Escape([0x28, 0x28], true), 0x42);
    RunThen(START, [ESC], Escape([], false), [0x28]);
    RunThen(START, [ESC] + [0x28], Escape([0x28], false), [0x28]);
    RunThen(START, [ESC] + [0x28] + [0x28], Escape([0x28, 0x28], false), [0x28]);
    RunThen(START, [ESC] + [0x28] + [0x28] + [0x28], Escape([0x28, 0x28], true), [0x42]);
    assert [ESC] + [0x28] + [0x28] + [0x28] + [0x42] == [ESC, 0x28, 0x28, 0x28, 0x42];
    EmitAllOne(a);
    EmitSeen(a);
  }

  lemma EmitAllOne(a: Action)
    ensures EmitAll([a]) == Emit(a)
  {
    var one := [a];
    assert EmitAll(one[1..]) == [];
  }

  // ---- Whole inputs ----

  /** Bytes that some sequence of parser actions was written as. */
  ghost predicate Clean(bytes: seq<byte>) {
    exists actions :: ActionsOk(actions) && bytes == EmitAll(actions)
  }

  /** What tmux's side reads from the filter's output, exactly: no chunk limit, as in the
      pane session. */
  lemma StreamMeaning(input: seq<byte>)
    ensures Run(START, EmitAll(Run(START, input).1)).1 == SeenAll(Run(START, input).1)
  {
    hide Run;
    RunOk(START, input);
    EmitAllSeen(Run(START, input).1);
  }

  lemma {:induction false} SeenAllPlain(actions: seq<Action>)
    ensures forall i :: 0 <= i < |SeenAll(actions)| ==> !IsString(SeenAll(actions)[i])
    decreases |actions|
  {
    if actions != [] {
      SeenAllPlain(actions[1..]);
    }
  }

  /** OSC, DCS, SOS, PM and APC strings. */
  predicate IsString(a: Action) { a.OscDispatch? || a.StringOpened? }

  /** Clean bytes hold no control string and leave their reader outside every sequence. */
  lemma CleanHasNoStrings(bytes: seq<byte>)
    requires Clean(bytes)
    ensures Run(START, bytes).0 == START
    ensures forall i :: 0 <= i < |Run(START, bytes).1| ==> !IsString(Run(START, bytes).1[i])
  {
    var actions :| ActionsOk(actions) && bytes == EmitAll(actions);
    hide Run;
    EmitAllSeen(actions);
    SeenAllPlain(actions);
  }

  lemma CleanConcat(a: seq<byte>, b: seq<byte>)
    requires Clean(a) && Clean(b)
    ensures Clean(a + b)
  {
    var first :| ActionsOk(first) && a == EmitAll(first);
    var second :| ActionsOk(second) && b == EmitAll(second);
    EmitAllConcat(first, second);
    assert ActionsOk(first + second);
  }

  /** No OSC, DCS, SOS, PM or APC string gets through, whatever the browser sends and however
      much of it, and the output never leaves the reader inside a sequence. */
  lemma NoStringsGetThrough(input: seq<byte>)
    ensures var output := EmitAll(Run(START, input).1);
      && Run(START, output).0 == START
      && forall i :: 0 <= i < |Run(START, output).1| ==> !IsString(Run(START, output).1[i])
  {
    hide Run;
    RunOk(START, input);
    CleanHasNoStrings(EmitAll(Run(START, input).1));
  }

  /** A dropped OSC string is not dropped to the last byte: ended by ST, its terminator is
      passed on as an escape sequence of its own. */
  lemma TerminatorIsPassed(fields: seq<seq<byte>>)
    requires fields != [] && FieldsOk(fields)
    ensures EmitAll(Run(START, OscBytes(fields)).1) == ST
  {
    hide Run, OscBytes;
    OscReparses(fields);
    var osc, end := [OscDispatch(fields, false)], [TERMINATOR];
    assert osc + end == [OscDispatch(fields, false), TERMINATOR];
    EmitAllConcat(osc, end);
    assert EmitAll(osc[1..]) == [] && EmitAll(end[1..]) == [];
    assert EscBytes([], 0x5C) == ST;
  }

  // ---- The chunk limit ----

  predicate IsPrintable(text: seq<byte>) { forall i :: 0 <= i < |text| ==> 0x20 <= text[i] < 0x80 }

  lemma {:induction false} TextPasses(text: seq<byte>)
    requires IsPrintable(text)
    ensures Run(START, text).0 == START && EmitAll(Run(START, text).1) == text
    decreases |text|
  {
    if text != [] {
      var n := |text| - 1;
      var c := text[n];
      TextPasses(text[..n]);
      RunOne(START, c);
      assert text == text[..n] + [c];
      RunConcat(START, text[..n], [c]);
      EmitAllConcat(Run(START, text[..n]).1, [Print([c])]);
      EmitAllOne(Print([c]));
      hide Run, EmitAll;
    }
  }

  /** A long paste of plain text is dropped whole by the one-shot `filter` and passes
      unchanged, as one chunk, through the parser that the pane session feeds. */
  lemma LimitDropsPaste(text: seq<byte>)
    requires IsPrintable(text) && |text| > 4096
    ensures Filter(text) == [] != EmitAll(Run(START, text).1) == text
  {
    hide Run, EmitAll;
    TextPasses(text);
  }
}
