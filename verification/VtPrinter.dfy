/** Printing parsed sequences back as bytes, and what the reference automaton makes of the
    printed bytes. Both filters print this way. */
module VtPrinter {
  import opened Bytes
  import opened VtParser
  import Text
  import Numbers

  // ---- Parameters ----

  function GroupBytes(group: seq<Param>): seq<byte> {
    if group == [] then []
    else if |group| == 1 then Numbers.PrintDecimal(group[0])
    else GroupBytes(group[..|group| - 1]) + [COLON] + Numbers.PrintDecimal(group[|group| - 1])
  }

  function ParamBytes(params: Params): seq<byte> {
    if params == [] then []
    else if |params| == 1 then GroupBytes(params[0])
    else ParamBytes(params[..|params| - 1]) + [SEMICOLON] + GroupBytes(params[|params| - 1])
  }

  /** `is_default_params`: the single default that a sequence without parameters reports. */
  predicate IsDefault(params: Params) { params == [[0]] }

  /** What the filters print between the intermediates and the final byte. */
  function ParamText(params: Params): seq<byte> {
    if IsDefault(params) then [] else ParamBytes(params)
  }

  /** The nested loops of the emitters, run over any parameters. */
  method PrintParams(params: Params) returns (buf: seq<byte>)
    ensures buf == ParamText(params)
  {
    hide ParamBytes, GroupBytes, Numbers.Print;
    NothingPrinted();
    buf := [];
    if IsDefault(params) { return; }
    var first := true;
    for k := 0 to |params|
      invariant buf == ParamBytes(params[..k]) && first == (k == 0)
    {
      ParamsNext(params, k);
      if !first {
        buf := buf + [SEMICOLON];
      }
      ghost var start := buf;
      var sub := params[k];
      for i := 0 to |sub|
        invariant buf == start + GroupBytes(sub[..i])
      {
        if i > 0 {
          buf := buf + [COLON];
        }
        buf := buf + Numbers.PrintDecimal(sub[i]);
        GroupNext(start, sub, i);
      }
      assert sub[..|sub|] == sub;
      first := false;
    }
    assert params[..|params|] == params;
  }

  lemma NothingPrinted()
    ensures ParamBytes([]) == [] && GroupBytes([]) == []
  {
  }

  lemma ParamsNext(params: Params, k: nat)
    requires k < |params|
    ensures ParamBytes(params[..k + 1])
         == ParamBytes(params[..k]) + (if k == 0 then [] else [SEMICOLON]) + GroupBytes(params[k])
  {
    hide GroupBytes;
    assert params[..k + 1][..k] == params[..k];
  }

  lemma GroupNext(start: seq<byte>, sub: seq<Param>, i: nat)
    requires i < |sub|
    ensures start + GroupBytes(sub[..i + 1])
         == start + GroupBytes(sub[..i]) + (if i == 0 then [] else [COLON]) + Numbers.PrintDecimal(sub[i])
  {
    hide Numbers.Print;
    assert sub[..i + 1][..i] == sub[..i];
  }

  // ---- Reading parameters back ----

  /** The automaton is at a place where parameters may come. */
  predicate AtParams(st: State) { st.Csi? && (st.phase.Entry? || st.phase.Parameter?) }

  lemma {:induction false} RunDigits(st: State, n: nat)
    requires AtParams(st) && st.value == 0 && n <= MAX_PARAM
    ensures Run(st, Numbers.PrintDecimal(n)) == (st.(phase := Parameter, value := n), [])
    decreases n
  {
    if n < 10 {
      assert Numbers.PrintDecimal(n) == [0x30 + n];
      RunOne(st, 0x30 + n);
    } else {
      Numbers.PrintSmaller(n, 10);
      RunDigits(st, n / 10);
      var head, digit := Numbers.PrintDecimal(n / 10), Numbers.DigitByte(n % 10);
      assert Numbers.PrintDecimal(n) == head + [digit];
      var mid := st.(phase := Parameter, value := n / 10);
      RunThen(st, head, mid, [digit]);
      RunOne(mid, digit);
      assert n / 10 * 10 + n % 10 == n;
    }
  }

  lemma {:induction false} RunGroup(st: State, group: seq<Param>)
    requires AtParams(st) && st.value == 0 && st.group == [] && group != []
    ensures Run(st, GroupBytes(group))
         == (st.(phase := Parameter, group := group[..|group| - 1], value := group[|group| - 1]), [])
    decreases |group|
  {
    var n := |group| - 1;
    if n == 0 {
      RunDigits(st, group[0]);
    } else {
      hide Run, Numbers.Print;
      var init := group[..n];
      RunGroup(st, init);
      var s1 := st.(phase := Parameter, group := init[..n - 1], value := init[n - 1]);
      var s2 := st.(phase := Parameter, group := init, value := 0);
      assert init[..n - 1] + [init[n - 1]] == init;
      RunOne(s1, COLON);
      RunDigits(s2, group[n]);
      RunThen(st, GroupBytes(init), s1, [COLON]);
      RunThen(st, GroupBytes(init) + [COLON], s2, Numbers.PrintDecimal(group[n]));
    }
  }

  /** The automaton after it has read `params`, before the final byte. */
  function Holding(st: State, params: Params): State
    requires st.Csi? && params != [] && GroupsOk(params)
  {
    var last := params[|params| - 1];
    st.(phase := Parameter, done := params[..|params| - 1], group := last[..|last| - 1], value := last[|last| - 1])
  }

  predicate Fresh(st: State) { AtParams(st) && st.done == [] && st.group == [] && st.value == 0 }

  lemma HoldingSeparates(st: State, params: Params)
    requires Fresh(st) && params != [] && GroupsOk(params)
    ensures Run(Holding(st, params), [SEMICOLON]) == (st.(phase := Parameter, done := params), [])
  {
    var n, last := |params| - 1, params[|params| - 1];
    assert last[..|last| - 1] + [last[|last| - 1]] == last;
    assert params[..n] + [params[n]] == params;
    RunOne(Holding(st, params), SEMICOLON);
  }

  lemma {:induction false} RunParams(st: State, params: Params)
    requires Fresh(st) && params != [] && GroupsOk(params)
    ensures Run(st, ParamBytes(params)) == (Holding(st, params), [])
    decreases |params|
  {
    var n := |params| - 1;
    if n == 0 {
      RunGroup(st, params[0]);
    } else {
      hide Run, GroupBytes;
      var init := params[..n];
      RunParams(st, init);
      var s1 := Holding(st, init);
      var s2 := st.(phase := Parameter, done := init);
      HoldingSeparates(st, init);
      RunGroup(s2, params[n]);
      RunThen(st, ParamBytes(init), s1, [SEMICOLON]);
      RunThen(st, ParamBytes(init) + [SEMICOLON], s2, GroupBytes(params[n]));
    }
  }

  /** The parameters a CSI sequence with this text reports (ECMA-48 section 5.4). */
  function ReadParams(text: seq<byte>): Option<Params> {
    var (st, actions) := Run(Csi(Entry, [], false, [], [], 0), text);
    if AtParams(st) && actions == [] then Some(st.done + [st.group + [st.value]]) else None
  }

  /** Printing then parsing parameters is the identity on every non-empty list of non-empty
      groups, the single default that is printed as nothing included. */
  lemma ParamsRoundTrip(params: Params)
    requires params != [] && GroupsOk(params)
    ensures ReadParams(ParamText(params)) == Some(params)
  {
    var st := Csi(Entry, [], false, [], [], 0);
    if IsDefault(params) {
      assert Run(st, []) == (st, []);
      assert st.group + [st.value] == params[0] && st.done + [params[0]] == params;
    } else {
      hide Run;
      RunParams(st, params);
      HoldingDispatch(st, params);
    }
  }

  lemma HoldingDispatch(st: State, params: Params)
    requires st.Csi? && params != [] && GroupsOk(params)
    ensures var h := Holding(st, params); h.done + [h.group + [h.value]] == params
  {
    var last := params[|params| - 1];
    assert last[..|last| - 1] + [last[|last| - 1]] == last;
  }

  /** So no two different parameter lists print the same. */
  lemma ParamTextInjective(p: Params, q: Params)
    requires p != [] && GroupsOk(p) && q != [] && GroupsOk(q)
    requires ParamText(p) == ParamText(q)
    ensures p == q
  {
    ParamsRoundTrip(p);
    ParamsRoundTrip(q);
  }

  // ---- CSI sequences ----

  const CSI: seq<byte> := [ESC, 0x5B]

  function CsiBytes(inter: seq<byte>, text: seq<byte>, final: byte): seq<byte> {
    CSI + inter + text + [final]
  }

  lemma RunCsiOpens()
    ensures Run(START, CSI) == (Csi(Entry, [], false, [], [], 0), [])
  {
    RunOne(START, ESC);
    RunOne(Escape([], false), 0x5B);
    RunThen(START, [ESC], Escape([], false), [0x5B]);
  }

  /** Private markers are collected without leaving the place where parameters may come. */
  predicate Leading(inter: seq<byte>) { |inter| == 0 || (|inter| == 1 && IsPrivate(inter[0])) }

  lemma RunLeading(inter: seq<byte>)
    requires Leading(inter)
    ensures Run(Csi(Entry, [], false, [], [], 0), inter)
         == (Csi(if inter == [] then Entry else Parameter, inter, false, [], [], 0), [])
  {
    if inter != [] {
      assert inter == [inter[0]] && [] + [inter[0]] == inter;
      RunOne(Csi(Entry, [], false, [], [], 0), inter[0]);
    }
  }

  /** A printed sequence with at most a private marker is read back as the same sequence. */
  lemma CsiReparses(inter: seq<byte>, params: Params, final: byte, explicit: bool)
    requires Leading(inter) && params != [] && GroupsOk(params) && 0x40 <= final < 0x7F
    requires explicit || IsDefault(params)
    ensures Run(START, CsiBytes(inter, if explicit then ParamBytes(params) else [], final))
         == (START, [CsiDispatch(params, inter, false, final)])
  {
    hide ParamBytes, Run, Step;
    var text := if explicit then ParamBytes(params) else [];
    var entered := Csi(Entry, [], false, [], [], 0);
    var marked := Csi(if inter == [] then Entry else Parameter, inter, false, [], [], 0);
    RunCsiOpens();
    RunLeading(inter);
    RunThen(START, CSI, entered, inter);
    RunFinal(marked, params, final, explicit);
    RunThen(START, CSI + inter, marked, text + [final]);
    assert CSI + inter + (text + [final]) == CsiBytes(inter, text, final);
  }

  lemma RunFinal(st: State, params: Params, final: byte, explicit: bool)
    requires Fresh(st) && params != [] && GroupsOk(params) && 0x40 <= final < 0x7F
    requires explicit || IsDefault(params)
    ensures Run(st, (if explicit then ParamBytes(params) else []) + [final])
         == (START, [CsiDispatch(params, st.inter, st.ignore, final)])
  {
    hide ParamBytes, Run;
    if explicit {
      RunParams(st, params);
      HoldingDispatch(st, params);
      RunThen(st, ParamBytes(params), Holding(st, params), [final]);
      RunOne(Holding(st, params), final);
    } else {
      assert [] + [final] == [final];
      assert [] + [[0]] == params && [] + [0] == params[0];
      RunOne(st, final);
    }
  }

  /** `emit_csi` omits the default. */
  lemma CsiTextReparses(inter: seq<byte>, params: Params, final: byte)
    requires Leading(inter) && params != [] && GroupsOk(params) && 0x40 <= final < 0x7F
    ensures Run(START, CsiBytes(inter, ParamText(params), final))
         == (START, [CsiDispatch(params, inter, false, final)])
  {
    CsiReparses(inter, params, final, !IsDefault(params));
  }

  // ---- ESC sequences ----

  function EscBytes(inter: seq<byte>, final: byte): seq<byte> { [ESC] + inter + [final] }

  lemma {:induction false} RunEscInter(inter: seq<byte>)
    requires EscInterOk(inter, false)
    ensures Run(START, [ESC] + inter) == (Escape(inter, false), [])
    decreases |inter|
  {
    if inter == [] {
      RunOne(START, ESC);
      assert [ESC] + inter == [ESC];
    } else {
      var n := |inter| - 1;
      RunEscInter(inter[..n]);
      RunThen(START, [ESC] + inter[..n], Escape(inter[..n], false), [inter[n]]);
      RunOne(Escape(inter[..n], false), inter[n]);
      assert [ESC] + inter == ([ESC] + inter[..n]) + [inter[n]];
      assert inter[..n] + [inter[n]] == inter;
    }
  }

  lemma EscReparses(inter: seq<byte>, final: byte)
    requires EscInterOk(inter, false) && 0x30 <= final < 0x7F
    requires inter == [] ==> !OpensString(final) && final != 0x5B && final != 0x5D
    ensures Run(START, EscBytes(inter, final)) == (START, [EscDispatch(inter, false, final)])
  {
    RunEscInter(inter);
    RunThen(START, [ESC] + inter, Escape(inter, false), [final]);
    RunOne(Escape(inter, false), final);
  }

  // ---- OSC strings ----

  const OSC: seq<byte> := [ESC, 0x5D]
  const ST: seq<byte> := [ESC, 0x5C]

  /** What the automaton reports for the terminator itself. */
  const TERMINATOR: Action := EscDispatch([], false, 0x5C)

  function FieldBytes(fields: seq<seq<byte>>): seq<byte> {
    if fields == [] then []
    else if |fields| == 1 then fields[0]
    else FieldBytes(fields[..|fields| - 1]) + [SEMICOLON] + fields[|fields| - 1]
  }

  /** The field loop of `emit_osc`. */
  method PrintFields(fields: seq<seq<byte>>) returns (buf: seq<byte>)
    ensures buf == FieldBytes(fields)
  {
    buf := [];
    for i := 0 to |fields|
      invariant buf == FieldBytes(fields[..i])
    {
      if i > 0 {
        buf := buf + [SEMICOLON];
      }
      buf := buf + fields[i];
      assert fields[..i + 1][..i] == fields[..i];
    }
    assert fields[..|fields|] == fields;
  }

  function OscBytes(fields: seq<seq<byte>>): seq<byte> { OSC + FieldBytes(fields) + ST }

  lemma {:induction false} RunField(st: State, field: seq<byte>)
    requires st.Osc? && FieldOk(field)
    ensures Run(st, field) == (st.(field := st.field + field), [])
    decreases |field|
  {
    if field == [] {
      assert st.field + field == st.field;
    } else {
      var n := |field| - 1;
      RunField(st, field[..n]);
      RunThen(st, field[..n], st.(field := st.field + field[..n]), [field[n]]);
      RunOne(st.(field := st.field + field[..n]), field[n]);
      assert field[..n] + [field[n]] == field;
      assert st.field + field[..n] + [field[n]] == st.field + field;
    }
  }

  lemma {:induction false} RunFields(fields: seq<seq<byte>>)
    requires fields != [] && FieldsOk(fields)
    ensures Run(Osc([], []), FieldBytes(fields)) == (Osc(fields[..|fields| - 1], fields[|fields| - 1]), [])
    decreases |fields|
  {
    hide Run, FieldOk;
    var n := |fields| - 1;
    if n == 0 {
      RunField(Osc([], []), fields[0]);
      assert [] + fields[0] == fields[0];
    } else {
      var init := fields[..n];
      RunFields(init);
      NextField(init, fields[n]);
      assert init[..n - 1] + [init[n - 1]] == init;
      RunThen(Osc([], []), FieldBytes(init), Osc(init[..n - 1], init[n - 1]), [SEMICOLON] + fields[n]);
      assert FieldBytes(init) + ([SEMICOLON] + fields[n]) == FieldBytes(fields);
    }
  }

  /** A semicolon ends the field before it; what follows is the next. */
  lemma NextField(before: seq<seq<byte>>, field: seq<byte>)
    requires before != [] && FieldOk(field)
    ensures var n := |before| - 1;
      Run(Osc(before[..n], before[n]), [SEMICOLON] + field) == (Osc(before, field), [])
  {
    hide Run, FieldOk;
    var n := |before| - 1;
    assert before[..n] + [before[n]] == before && [] + field == field;
    RunOne(Osc(before[..n], before[n]), SEMICOLON);
    RunField(Osc(before, []), field);
    RunThen(Osc(before[..n], before[n]), [SEMICOLON], Osc(before, []), field);
  }

  /** A printed OSC string is read back as the same fields, then its terminator. */
  lemma OscReparses(fields: seq<seq<byte>>)
    requires fields != [] && FieldsOk(fields)
    ensures Run(START, OscBytes(fields)) == (START, [OscDispatch(fields, false), TERMINATOR])
  {
    hide FieldBytes, Run;
    var n := |fields| - 1;
    var st := Osc(fields[..n], fields[n]);
    RunOne(START, ESC);
    RunOne(Escape([], false), 0x5D);
    RunThen(START, [ESC], Escape([], false), [0x5D]);
    assert OSC == [ESC] + [0x5D];
    RunFields(fields);
    RunThen(START, OSC, Osc([], []), FieldBytes(fields));
    RunTerminator(fields);
    RunThen(START, OSC + FieldBytes(fields), st, ST);
  }

  lemma RunTerminator(fields: seq<seq<byte>>)
    requires fields != []
    ensures Run(Osc(fields[..|fields| - 1], fields[|fields| - 1]), ST)
         == (START, [OscDispatch(fields, false), TERMINATOR])
  {
    hide Run;
    var st := Osc(fields[..|fields| - 1], fields[|fields| - 1]);
    assert fields[..|fields| - 1] + [fields[|fields| - 1]] == fields;
    RunOne(st, ESC);
    RunOne(Escape([], false), 0x5C);
    RunConcat(st, [ESC], [0x5C]);
    assert ST == [ESC] + [0x5C];
    assert [OscDispatch(fields, false)] + [TERMINATOR] == [OscDispatch(fields, false), TERMINATOR];
  }

  // ---- Text ----

  /** A printed character is read back as itself. */
  lemma TextReparses(c: seq<byte>)
    requires ActionOk(Print(c))
    ensures Run(START, c) == (START, [Print(c)])
  {
    if |c| == 1 {
      assert c == [c[0]];
      RunOne(START, c[0]);
    } else {
      RunPartial(c, |c| - 1);
      var p := c[..|c| - 1];
      assert p + [c[|c| - 1]] == c;
      RunThen(START, p, Ground(p), [c[|c| - 1]]);
      RunOne(Ground(p), c[|c| - 1]);
    }
  }

  lemma {:induction false} RunPartial(c: seq<byte>, n: nat)
    requires IsMultiByte(c) && 1 <= n < |c|
    ensures Run(START, c[..n]) == (Ground(c[..n]), [])
    decreases n
  {
    if n == 1 {
      assert c[..1] == [c[0]];
      RunOne(START, c[0]);
    } else {
      RunPartial(c, n - 1);
      assert c[..n] == c[..n - 1] + [c[n - 1]];
      RunThen(START, c[..n - 1], Ground(c[..n - 1]), [c[n - 1]]);
      PrefixCouldStart(c, n);
      RunOne(Ground(c[..n - 1]), c[n - 1]);
    }
  }

  lemma PrefixCouldStart(c: seq<byte>, n: nat)
    requires IsMultiByte(c) && 2 <= n < |c|
    ensures CouldStart(c[..n]) && Text.CharLen(c[..n]) != n
  {
  }

  lemma ControlReparses(b: byte)
    requires b < 0x20 && b != ESC
    ensures Run(START, [b]) == (START, [Execute(b)])
  {
    RunOne(START, b);
  }
}
