/** A reference byte automaton for terminal input: text, C0 controls, ESC sequences, CSI
    sequences (ECMA-48 section 5.4), OSC strings, and the other control strings. It stands
    for the parser the filters are driven by. */
module VtParser {
  import opened Bytes
  import Text

  const CAN: byte := 0x18
  const SUB: byte := 0x1A
  const BEL: byte := 0x07
  const COLON: byte := 0x3A
  const SEMICOLON: byte := 0x3B
  const MAX_INTERMEDIATES: nat := 2
  const MAX_PARAM: nat := 65535

  type Param = n: nat | n <= MAX_PARAM
  /** Parameters are groups of sub-parameters: `1;38:5:9` is `[[1], [38, 5, 9]]`. */
  type Params = seq<seq<Param>>

  datatype Action =
    | Print(scalar: seq<byte>)
    | Execute(control: byte)
    | CsiDispatch(params: Params, inter: seq<byte>, ignore: bool, final: byte)
    | EscDispatch(inter: seq<byte>, ignore: bool, final: byte)
    | OscDispatch(fields: seq<seq<byte>>, bell: bool)
    | StringOpened(kind: byte)

  datatype Phase = Entry | Parameter | Intermediate | Ignored

  /** `Ground` holds the bytes of an unfinished UTF-8 character. */
  datatype State =
    | Ground(partial: seq<byte>)
    | Escape(inter: seq<byte>, ignore: bool)
    | Csi(phase: Phase, inter: seq<byte>, ignore: bool, done: Params, group: seq<Param>, value: Param)
    | Osc(fields: seq<seq<byte>>, field: seq<byte>)
    | Swallow

  const START: State := Ground([])

  // ---- Text ----

  /** A proper prefix of some well-formed multi-byte character. */
  predicate CouldStart(p: seq<byte>) {
    || (|p| == 1 && (Text.IsLead2(p[0]) || 0xE0 <= p[0] <= 0xF4))
    || (|p| == 2 && (Text.IsLead3(p[0], p[1]) || Text.IsLead4(p[0], p[1])))
    || (|p| == 3 && Text.IsLead4(p[0], p[1]) && Text.IsTail(p[2]))
  }

  predicate IsMultiByte(c: seq<byte>) { |c| >= 2 && Text.CharLen(c) == |c| }

  /** U+0080..U+009F */
  predicate IsC1(c: seq<byte>) { |c| == 2 && c[0] == 0xC2 && c[1] < 0xA0 }

  /** C1 characters are controls, the others are printed. */
  function CharAction(c: seq<byte>): Action
    requires |c| >= 2
  {
    if IsC1(c) then Execute(c[1]) else Print(c)
  }

  function GroundByte(b: byte): (State, seq<Action>) {
    if b == ESC then (Escape([], false), [])
    else if b < 0x20 then (START, [Execute(b)])
    else if b < 0x80 then (START, [Print([b])])
    else if CouldStart([b]) then (Ground([b]), [])
    else (START, [Print(Text.REPLACEMENT)])
  }

  function StepGround(partial: seq<byte>, b: byte): (State, seq<Action>) {
    var c := partial + [b];
    if partial == [] then GroundByte(b)
    else if Text.CharLen(c) == |c| then (START, [CharAction(c)])
    else if CouldStart(c) then (Ground(c), [])
    else
      var (next, actions) := GroundByte(b);
      (next, [Print(Text.REPLACEMENT)] + actions)
  }

  // ---- Sequences ----

  /** CAN, SUB and ESC end every sequence; the other C0 controls act inside it. */
  function StepControl(st: State, b: byte): (State, seq<Action>)
    requires b < 0x20
  {
    if b == ESC then (Escape([], false), [])
    else if b == CAN || b == SUB then (START, [Execute(b)])
    else (st, [Execute(b)])
  }

  function Collect(inter: seq<byte>, ignore: bool, b: byte): (seq<byte>, bool) {
    if |inter| == MAX_INTERMEDIATES then (inter, true) else (inter + [b], ignore)
  }

  /** P, X, ^ and _ open a DCS, SOS, PM or APC string. */
  predicate OpensString(b: byte) { b == 0x50 || b == 0x58 || b == 0x5E || b == 0x5F }

  function StepEscape(st: State, b: byte): (State, seq<Action>)
    requires st.Escape?
  {
    if b < 0x20 then StepControl(st, b)
    else if b < 0x30 then
      var (inter, ignore) := Collect(st.inter, st.ignore, b);
      (Escape(inter, ignore), [])
    else if b >= 0x7F then (st, [])
    else if st.inter != [] then (START, [EscDispatch(st.inter, st.ignore, b)])
    else if OpensString(b) then (Swallow, [StringOpened(b)])
    else if b == 0x5B then (Csi(Entry, [], false, [], [], 0), [])
    else if b == 0x5D then (Osc([], []), [])
    else (START, [EscDispatch([], st.ignore, b)])
  }

  function AddDigit(value: Param, b: byte): Param
    requires 0x30 <= b <= 0x39
  {
    var n := value * 10 + (b - 0x30) as int;
    if n > MAX_PARAM then MAX_PARAM else n
  }

  function StepCsi(st: State, b: byte): (State, seq<Action>)
    requires st.Csi?
  {
    if b < 0x20 then StepControl(st, b)
    else if b >= 0x7F then (st, [])
    else if b >= 0x40 then
      if st.phase.Ignored? then (START, [])
      else (START, [CsiDispatch(st.done + [st.group + [st.value]], st.inter, st.ignore, b)])
    else if st.phase.Ignored? then (st, [])
    else if b < 0x30 then
      var (inter, ignore) := Collect(st.inter, st.ignore, b);
      (st.(phase := Intermediate, inter := inter, ignore := ignore), [])
    else if st.phase.Intermediate? then (st.(phase := Ignored), [])
    else if b <= 0x39 then (st.(phase := Parameter, value := AddDigit(st.value, b)), [])
    else if b == COLON then (st.(phase := Parameter, group := st.group + [st.value], value := 0), [])
    else if b == SEMICOLON then
      (st.(phase := Parameter, done := st.done + [st.group + [st.value]], group := [], value := 0), [])
    else if st.phase.Entry? then
      var (inter, ignore) := Collect(st.inter, st.ignore, b);
      (st.(phase := Parameter, inter := inter, ignore := ignore), [])
    else (st.(phase := Ignored), [])
  }

  function StepOsc(st: State, b: byte): (State, seq<Action>)
    requires st.Osc?
  {
    var fields := st.fields + [st.field];
    if b == BEL then (START, [OscDispatch(fields, true)])
    else if b == ESC then (Escape([], false), [OscDispatch(fields, false)])
    else if b == CAN || b == SUB then (START, [OscDispatch(fields, false), Execute(b)])
    else if b < 0x20 then (st, [])
    else if b == SEMICOLON then (Osc(fields, []), [])
    else (st.(field := st.field + [b]), [])
  }

  function StepSwallow(b: byte): (State, seq<Action>) {
    if b == ESC || b == CAN || b == SUB then StepControl(Swallow, b) else (Swallow, [])
  }

  function Step(st: State, b: byte): (State, seq<Action>) {
    match st
    case Ground(partial) => StepGround(partial, b)
    case Escape(_, _) => StepEscape(st, b)
    case Csi(_, _, _, _, _, _) => StepCsi(st, b)
    case Osc(_, _) => StepOsc(st, b)
    case Swallow => StepSwallow(b)
  }

  function Run(st: State, input: seq<byte>): (State, seq<Action>)
    decreases |input|
  {
    if input == [] then (st, [])
    else
      var (next, actions) := Step(st, input[0]);
      var (last, more) := Run(next, input[1..]);
      (last, actions + more)
  }

  /** What one part of the input does does not depend on where it was cut off. */
  lemma {:induction false} RunConcat(st: State, a: seq<byte>, b: seq<byte>)
    ensures Run(st, a + b) == (Run(Run(st, a).0, b).0, Run(st, a).1 + Run(Run(st, a).0, b).1)
    decreases |a|
  {
    hide Step;
    if a == [] {
      assert a + b == b;
      assert [] + Run(st, b).1 == Run(st, b).1;
    } else {
      assert (a + b)[1..] == a[1..] + b;
      var (next, actions) := Step(st, a[0]);
      RunConcat(next, a[1..], b);
      var (mid, first) := Run(next, a[1..]);
      var (last, second) := Run(mid, b);
      assert actions + (first + second) == (actions + first) + second;
    }
  }

  /** A quiet part followed by another part. */
  lemma RunThen(st: State, a: seq<byte>, mid: State, b: seq<byte>)
    requires Run(st, a) == (mid, [])
    ensures Run(st, a + b) == Run(mid, b)
  {
    hide Run;
    RunConcat(st, a, b);
    assert [] + Run(mid, b).1 == Run(mid, b).1;
  }

  lemma RunOne(st: State, b: byte)
    ensures Run(st, [b]) == Step(st, b)
  {
    hide Step;
    var one := [b];
    var (next, actions) := Step(st, b);
    assert Run(next, one[1..]) == (next, []);
    assert actions + [] == actions;
  }

  lemma RunNext(st: State, input: seq<byte>, i: nat)
    requires i < |input|
    ensures var (mid, first) := Run(st, input[..i]); var (next, actions) := Step(mid, input[i]);
      Run(st, input[..i + 1]) == (next, first + actions)
  {
    hide Step, Run;
    assert input[..i + 1] == input[..i] + [input[i]];
    RunConcat(st, input[..i], [input[i]]);
    RunOne(Run(st, input[..i]).0, input[i]);
  }

  // ---- What the automaton can produce ----

  predicate IsIntermediate(b: byte) { 0x20 <= b <= 0x2F }

  predicate IsPrivate(b: byte) { 0x3C <= b <= 0x3F }

  /** A private marker can only come first. */
  predicate InterOk(inter: seq<byte>, ignore: bool) {
    && |inter| <= MAX_INTERMEDIATES
    && (ignore ==> |inter| == MAX_INTERMEDIATES)
    && forall i :: 0 <= i < |inter| ==> IsIntermediate(inter[i]) || (i == 0 && IsPrivate(inter[i]))
  }

  predicate GroupsOk(params: Params) { forall i :: 0 <= i < |params| ==> params[i] != [] }

  predicate FieldOk(field: seq<byte>) {
    forall i :: 0 <= i < |field| ==> field[i] >= 0x20 && field[i] != SEMICOLON
  }

  predicate FieldsOk(fields: seq<seq<byte>>) { forall i :: 0 <= i < |fields| ==> FieldOk(fields[i]) }

  predicate EscInterOk(inter: seq<byte>, ignore: bool) {
    InterOk(inter, ignore) && forall i :: 0 <= i < |inter| ==> IsIntermediate(inter[i])
  }

  predicate StateOk(st: State) {
    match st
    case Ground(partial) => partial == [] || CouldStart(partial)
    case Escape(inter, ignore) => EscInterOk(inter, ignore)
    case Csi(phase, inter, ignore, done, group, _) =>
      && InterOk(inter, ignore) && GroupsOk(done)
      && (phase.Entry? ==> inter == [] && !ignore)
      && (phase.Parameter? ==> !ignore && |inter| <= 1 && forall i :: 0 <= i < |inter| ==> IsPrivate(inter[i]))
    case Osc(done, field) => FieldsOk(done) && FieldOk(field)
    case Swallow => true
  }

  predicate ActionOk(a: Action) {
    match a
    case Print(c) => (|c| == 1 && 0x20 <= c[0] < 0x80) || (IsMultiByte(c) && !IsC1(c))
    case Execute(b) => (b < 0x20 && b != ESC) || 0x80 <= b < 0xA0
    case CsiDispatch(params, inter, ignore, final) =>
      params != [] && GroupsOk(params) && InterOk(inter, ignore) && 0x40 <= final < 0x7F
    case EscDispatch(inter, ignore, final) =>
      && EscInterOk(inter, ignore) && 0x30 <= final < 0x7F
      && (inter == [] ==> !OpensString(final) && final != 0x5B && final != 0x5D)
    case OscDispatch(fields, _) => fields != [] && FieldsOk(fields)
    case StringOpened(kind) => OpensString(kind)
  }

  predicate ActionsOk(actions: seq<Action>) { forall i :: 0 <= i < |actions| ==> ActionOk(actions[i]) }

  lemma GroundOk(partial: seq<byte>, b: byte)
    requires StateOk(Ground(partial))
    ensures StateOk(StepGround(partial, b).0) && ActionsOk(StepGround(partial, b).1)
  {
    assert Text.CharLen(Text.REPLACEMENT) == 3;
  }

  lemma CsiOk(st: State, b: byte)
    requires st.Csi? && StateOk(st)
    ensures StateOk(StepCsi(st, b).0) && ActionsOk(StepCsi(st, b).1)
  {
  }

  lemma OscOk(st: State, b: byte)
    requires st.Osc? && StateOk(st)
    ensures StateOk(StepOsc(st, b).0) && ActionsOk(StepOsc(st, b).1)
  {
  }

  /** Everything the automaton ever reports has the shape the printers rely on. */
  lemma {:induction false} RunOk(st: State, input: seq<byte>)
    requires StateOk(st)
    ensures StateOk(Run(st, input).0) && ActionsOk(Run(st, input).1)
    decreases |input|
  {
    if input != [] {
      StepOk(st, input[0]);
      hide Step, StateOk, ActionOk;
      RunOk(Step(st, input[0]).0, input[1..]);
    }
  }

  lemma StepOk(st: State, b: byte)
    requires StateOk(st)
    ensures StateOk(Step(st, b).0) && ActionsOk(Step(st, b).1)
  {
    match st
    case Ground(partial) => GroundOk(partial, b);
    case Csi(_, _, _, _, _, _) => CsiOk(st, b);
    case Osc(_, _) => OscOk(st, b);
    case _ =>
  }
}
