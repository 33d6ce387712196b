/** The outbound (tmux to browser) filter: an allowlist of parser actions that are printed
    back as bytes (src/vt_filter/outbound.rs). */
module Outbound {
  import opened Bytes
  import opened VtParser
  import opened VtPrinter
  import Text
  import Numbers

  /** URL parsing is a parameter: the scheme of a well-formed URL. */
  type UrlParser = seq<byte> -> Option<seq<byte>>

  predicate SafeScheme(scheme: seq<byte>) {
    || Lower(scheme) == Ascii("http")
    || Lower(scheme) == Ascii("https")
    || Lower(scheme) == Ascii("mailto")
  }

  /** The URL of an OSC 8 hyperlink may be empty (it ends the link) or must be UTF-8, parse,
      and have one of three schemes. */
  predicate SafeUrl(parse: UrlParser, url: seq<byte>) {
    url == [] || (Text.ValidUtf8(url) && parse(url).Some? && SafeScheme(parse(url).value))
  }

  function UrlField(fields: seq<seq<byte>>): seq<byte> { if |fields| > 2 then fields[2] else [] }

  predicate BenignOsc(code: seq<byte>) {
    || code == Ascii("0") || code == Ascii("1") || code == Ascii("2") || code == Ascii("4") || code == Ascii("7")
    || code == Ascii("10") || code == Ascii("11") || code == Ascii("12")
    || code == Ascii("104") || code == Ascii("110") || code == Ascii("111") || code == Ascii("112")
  }

  const CLIPBOARD: seq<byte> := Ascii("52")
  const HYPERLINK: seq<byte> := Ascii("8")

  predicate IsBannedMode(n: nat) {
    n == 1000 || n == 1002 || n == 1003 || n == 1004 || n == 1005 || n == 1006 || n == 1015
  }

  /** A group stands for its first value; a banned one for nothing. */
  function FirstAllowed(group: seq<Param>): seq<Param> {
    var first: Param := if group == [] then 0 else group[0];
    if IsBannedMode(first) then [] else [first]
  }

  function Surviving(params: Params): seq<Param> {
    if params == [] then [] else FirstAllowed(params[0]) + Surviving(params[1..])
  }

  lemma {:induction false} SurvivingAppend(params: Params, group: seq<Param>)
    ensures Surviving(params + [group]) == Surviving(params) + FirstAllowed(group)
    decreases |params|
  {
    hide FirstAllowed;
    if params == [] {
      var one: Params := [group];
      assert params + one == one && Surviving(one[1..]) == [];
    } else {
      assert (params + [group])[1..] == params[1..] + [group];
      SurvivingAppend(params[1..], group);
    }
  }

  function Singles(ns: seq<Param>): Params { seq(|ns|, i requires 0 <= i < |ns| => [ns[i]]) }

  predicate AllZero(params: Params) {
    forall i, j :: 0 <= i < |params| && 0 <= j < |params[i]| ==> params[i][j] == 0
  }

  const QUESTION: seq<byte> := [0x3F]
  const LESS: seq<byte> := [0x3C]

  predicate IsStandard(final: byte) {
    final as char in {'A', 'B', 'C', 'D', 'E', 'F', 'G', 'H', 'f', 'I', 'Z', 'd', 'e', '`', 'a', 'J', 'K', 'L',
                      'M', 'P', 'X', 'S', 'T', '@', 'm', 'r', 's', 'u', 'h', 'l', 'n', 'c', 't'}
  }

  predicate IsModeSwitch(inter: seq<byte>, final: byte) {
    inter == QUESTION && (final == 0x68 || final == 0x6C)
  }

  // ---- What the code writes for one action ----

  function CsiOut(params: Params, inter: seq<byte>, ignore: bool, final: byte): seq<byte> {
    if ignore then []
    else if IsModeSwitch(inter, final) then
      if Surviving(params) == [] then []
      else CsiBytes(inter, ParamBytes(Singles(Surviving(params))), final)
    else if inter == [] && final == 0x4D then
      if AllZero(params) then [] else CsiBytes(inter, ParamText(params), final)
    else if inter == LESS && (final == 0x4D || final == 0x6D) then []
    else if (inter == [] && IsStandard(final)) || (inter == QUESTION && (final == 0x73 || final == 0x75)) then
      CsiBytes(inter, ParamText(params), final)
    else []
  }

  predicate SelectsCharset(inter: seq<byte>) {
    inter == [0x28] || inter == [0x29] || inter == [0x2A] || inter == [0x2B]
  }

  /** DECSC, DECRC, RIS, keypad modes, IND, NEL, HTS, RI */
  predicate IsSimpleEscape(final: byte) {
    final as char in {'7', '8', 'c', '=', '>', 'D', 'E', 'H', 'M'}
  }

  function EscOut(inter: seq<byte>, final: byte): seq<byte> {
    if SelectsCharset(inter) then EscBytes(inter, final)
    else if inter == [] && IsSimpleEscape(final) then [ESC, final]
    else []
  }

  function OscOut(parse: UrlParser, fields: seq<seq<byte>>): seq<byte> {
    if fields == [] || fields[0] == CLIPBOARD then []
    else if fields[0] == HYPERLINK then
      if SafeUrl(parse, UrlField(fields)) then OscBytes(fields) else []
    else if BenignOsc(fields[0]) then OscBytes(fields)
    else []
  }

  function Emit(parse: UrlParser, a: Action): seq<byte> {
    match a
    case Print(c) => c
    case Execute(b) => if 0x07 <= b <= 0x0D || b == ESC then [b] else []
    case CsiDispatch(params, inter, ignore, final) => CsiOut(params, inter, ignore, final)
    case EscDispatch(inter, _, final) => EscOut(inter, final)
    case OscDispatch(fields, _) => OscOut(parse, fields)
    case StringOpened(_) => []
  }

  function EmitAll(parse: UrlParser, actions: seq<Action>): seq<byte> {
    if actions == [] then [] else Emit(parse, actions[0]) + EmitAll(parse, actions[1..])
  }

  /** The one-shot `filter`. */
  function Filter(parse: UrlParser, input: seq<byte>): seq<byte> {
    EmitAll(parse, Run(START, input).1)
  }

  // ---- The same code, updating its buffer in place ----

  method CollectSurviving(params: Params) returns (surviving: seq<Param>)
    ensures surviving == Surviving(params)
  {
    surviving := [];
    for i := 0 to |params|
      invariant surviving == Surviving(params[..i])
    {
      var first: Param := if params[i] == [] then 0 else params[i][0];
      if !IsBannedMode(first) {
        surviving := surviving + [first];
      }
      SurvivingAppend(params[..i], params[i]);
      assert params[..i] + [params[i]] == params[..i + 1];
    }
    assert params[..|params|] == params;
  }

  method PrintModes(modes: seq<Param>) returns (buf: seq<byte>)
    ensures buf == ParamBytes(Singles(modes))
  {
    hide ParamBytes, Singles, Numbers.Print;
    buf := [];
    NoModes();
    for i := 0 to |modes|
      invariant buf == ParamBytes(Singles(modes[..i]))
    {
      if i > 0 {
        buf := buf + [SEMICOLON];
      }
      buf := buf + Numbers.PrintDecimal(modes[i]);
      SinglesAppend(modes[..i], modes[i]);
      assert modes[..i] + [modes[i]] == modes[..i + 1];
    }
    assert modes[..|modes|] == modes;
  }

  lemma NoModes()
    ensures ParamBytes(Singles([])) == []
  {
  }

  class OutboundFilter {
    const parse: UrlParser
    var out: seq<byte>

    constructor (parse: UrlParser)
      ensures this.parse == parse && out == []
    {
      this.parse := parse;
      out := [];
    }

    method Take() returns (bytes: seq<byte>)
      modifies this`out
      ensures bytes == old(out) && out == []
    {
      bytes := out;
      out := [];
    }

    method EmitCsi(params: Params, inter: seq<byte>, final: byte)
      modifies this`out
      ensures out == old(out) + CsiBytes(inter, ParamText(params), final)
    {
      var buf := CSI + inter;
      var text := PrintParams(params);
      buf := buf + text + [final];
      out := out + buf;
    }

    method EmitModes(params: Params, final: byte)
      modifies this`out
      ensures out == old(out)
        + if Surviving(params) == [] then [] else CsiBytes(QUESTION, ParamBytes(Singles(Surviving(params))), final)
    {
      var surviving := CollectSurviving(params);
      if surviving == [] { return; }
      var text := PrintModes(surviving);
      var buf := CSI + QUESTION + text + [final];
      out := out + buf;
    }

    method Csi(params: Params, inter: seq<byte>, ignore: bool, final: byte)
      modifies this`out
      ensures out == old(out) + CsiOut(params, inter, ignore, final)
    {
      if ignore { return; }
      if inter == QUESTION && (final == 0x68 || final == 0x6C) {
        EmitModes(params, final);
        return;
      }
      if inter == [] && final == 0x4D {
        if forall i | 0 <= i < |params| :: forall j | 0 <= j < |params[i]| :: params[i][j] == 0 { return; }
        EmitCsi(params, inter, final);
        return;
      }
      if inter == LESS && (final == 0x4D || final == 0x6D) { return; }
      var decSaveRestore := inter == QUESTION && (final == 0x73 || final == 0x75);
      if (inter == [] && IsStandard(final)) || decSaveRestore {
        EmitCsi(params, inter, final);
      }
    }

    method Osc(fields: seq<seq<byte>>)
      modifies this`out
      ensures out == old(out) + OscOut(parse, fields)
    {
      if fields == [] { return; }
      var code := fields[0];
      if code == CLIPBOARD { return; }
      if code == HYPERLINK {
        var url := if |fields| > 2 then fields[2] else [];
        if url != [] {
          if !Text.ValidUtf8(url) { return; }
          var scheme := parse(url);
          if scheme.None? || !SafeScheme(scheme.value) { return; }
        }
        EmitOsc(fields);
        return;
      }
      if BenignOsc(code) {
        EmitOsc(fields);
      }
    }

    method EmitOsc(fields: seq<seq<byte>>)
      modifies this`out
      ensures out == old(out) + OscBytes(fields)
    {
      var body := PrintFields(fields);
      var buf := OSC + body + ST;
      out := out + buf;
    }

    /** The automaton calls the method that its action names. */
    method Perform(a: Action)
      modifies this`out
      ensures out == old(out) + Emit(parse, a)
    {
      match a
      case Print(c) => out := out + c;
      case Execute(b) =>
        if 0x07 <= b <= 0x0D || b == ESC {
          out := out + [b];
        }
      case CsiDispatch(params, inter, ignore, final) => Csi(params, inter, ignore, final);
      case EscDispatch(inter, _, final) =>
        if SelectsCharset(inter) {
          out := out + ([ESC] + inter + [final]);
        } else if inter == [] && IsSimpleEscape(final) {
          out := out + [ESC, final];
        }
      case OscDispatch(fields, _) => Osc(fields);
      case StringOpened(_) =>
    }

    /** One byte can make several actions. */
    method PerformAll(actions: seq<Action>)
      modifies this`out
      ensures out == old(out) + EmitAll(parse, actions)
    {
      assert EmitAll(parse, actions[..0]) == [];
      hide Emit, EmitAll;
      for k := 0 to |actions|
        invariant out == old(out) + EmitAll(parse, actions[..k])
      {
        Regroup(old(out), EmitAll(parse, actions[..k]), Emit(parse, actions[k]));
        EmitNext(parse, actions, k);
        Perform(actions[k]);
      }
      assert actions[..|actions|] == actions;
    }
  }

  lemma SinglesAppend(ns: seq<Param>, n: Param)
    ensures ParamBytes(Singles(ns + [n]))
         == ParamBytes(Singles(ns)) + (if ns == [] then [] else [SEMICOLON]) + Numbers.PrintDecimal(n)
  {
    var all := Singles(ns + [n]);
    assert all[..|ns|] == Singles(ns);
    assert all[|ns|] == [n] && GroupBytes([n]) == Numbers.PrintDecimal(n);
  }

  /** A parser and a filter that keep their state from one chunk to the next. */
  class OutboundStream {
    var parser: State
    const perform: OutboundFilter

    constructor (parse: UrlParser)
      ensures parser == START && perform.out == [] && perform.parse == parse && fresh(perform)
    {
      parser := START;
      perform := new OutboundFilter(parse);
    }

    method Feed(input: seq<byte>)
      modifies this, perform`out
      ensures parser == Run(old(parser), input).0
      ensures perform.out == old(perform.out) + EmitAll(perform.parse, Run(old(parser), input).1)
    {
      ghost var parse := perform.parse;
      assert Run(parser, input[..0]) == (parser, []) && EmitAll(parse, []) == [];
      hide VtParser.Step, EmitAll, Run;
      for i := 0 to |input|
        invariant Run(old(parser), input[..i]).0 == parser
        invariant perform.out == old(perform.out) + EmitAll(parse, Run(old(parser), input[..i]).1)
      {
        ghost var done := Run(old(parser), input[..i]).1;
        RunNext(old(parser), input, i);
        var (next, actions) := VtParser.Step(parser, input[i]);
        EmitAllConcat(parse, done, actions);
        Regroup(old(perform.out), EmitAll(parse, done), EmitAll(parse, actions));
        perform.PerformAll(actions);
        parser := next;
      }
      assert input[..|input|] == input;
    }

    method Take() returns (bytes: seq<byte>)
      modifies perform`out
      ensures bytes == old(perform.out) && perform.out == []
    {
      bytes := perform.Take();
    }
  }

  lemma {:induction false} EmitAllConcat(parse: UrlParser, a: seq<Action>, b: seq<Action>)
    ensures EmitAll(parse, a + b) == EmitAll(parse, a) + EmitAll(parse, b)
    decreases |a|
  {
    hide Emit;
    if a == [] {
      assert a + b == b;
    } else {
      assert (a + b)[1..] == a[1..] + b;
      EmitAllConcat(parse, a[1..], b);
    }
  }

  lemma EmitNext(parse: UrlParser, actions: seq<Action>, k: nat)
    requires k < |actions|
    ensures EmitAll(parse, actions[..k + 1]) == EmitAll(parse, actions[..k]) + Emit(parse, actions[k])
  {
    assert actions[..k + 1] == actions[..k] + [actions[k]];
    EmitAllAppend(parse, actions[..k], actions[k]);
  }

  lemma EmitAllAppend(parse: UrlParser, actions: seq<Action>, a: Action)
    ensures EmitAll(parse, actions + [a]) == EmitAll(parse, actions) + Emit(parse, a)
  {
    hide Emit;
    EmitAllConcat(parse, actions, [a]);
    var one := [a];
    assert EmitAll(parse, one[1..]) == [];
  }
}
