/** What the outbound filter's output means to the parser on the other side. */
module OutboundMeaning {
  import opened Bytes
  import opened VtParser
  import opened VtPrinter
  import opened Outbound
  import Text

  // ---- The policy, written out ----

  /** Mouse and focus tracking. */
  predicate MouseMode(n: nat) { n in {1000, 1002, 1003, 1004, 1005, 1006, 1015} }

  predicate AllowedFinal(final: byte) { final as char in "@ABCDEFGHIJKLMPSTXZ`acdefhlmnrstu" }

  predicate AllowedEscape(final: byte) { final as char in "78=>DEHMc" }

  predicate Charset(inter: seq<byte>) { |inter| == 1 && inter[0] as char in "()*+" }

  predicate AllowedOsc(code: seq<byte>) {
    code in {Ascii("0"), Ascii("1"), Ascii("2"), Ascii("4"), Ascii("7"), Ascii("10"), Ascii("11"), Ascii("12"),
             Ascii("104"), Ascii("110"), Ascii("111"), Ascii("112")}
  }

  /** The third field of an OSC 8 string is missing or empty, or a URL with a safe scheme. */
  predicate SafeLink(parse: UrlParser, fields: seq<seq<byte>>) {
    |fields| < 3 || fields[2] == [] ||
    (Text.ValidUtf8(fields[2]) && parse(fields[2]).Some?
     && Lower(parse(fields[2]).value) in {Ascii("http"), Ascii("https"), Ascii("mailto")})
  }

  predicate NoNumbers(params: Params) { forall i, j :: 0 <= i < |params| && 0 <= j < |params[i]| ==> params[i][j] == 0 }

  /** `CSI ? ... h` and `CSI ? ... l` */
  predicate SetsModes(inter: seq<byte>, final: byte) {
    inter == [0x3F] && (final as char == 'h' || final as char == 'l')
  }

  predicate AdmittedMode(params: Params) {
    exists i :: 0 <= i < |params| && params[i] != [] && !MouseMode(params[i][0])
  }

  predicate AdmittedCsi(params: Params, inter: seq<byte>, final: byte) {
    if SetsModes(inter, final) then AdmittedMode(params)
    else if inter == [0x3F] then final as char == 's' || final as char == 'u'
    else inter == [] && AllowedFinal(final) && !(final as char == 'M' && NoNumbers(params))
  }

  predicate Admitted(parse: UrlParser, a: Action) {
    match a
    case Print(_) => true
    case Execute(b) => 0x07 <= b <= 0x0D
    case CsiDispatch(params, inter, ignore, final) => !ignore && AdmittedCsi(params, inter, final)
    case EscDispatch(inter, _, final) => Charset(inter) || (inter == [] && AllowedEscape(final))
    case OscDispatch(fields, _) =>
      fields != [] && (AllowedOsc(fields[0]) || (fields[0] == Ascii("8") && SafeLink(parse, fields)))
    case StringOpened(_) => false
  }

  /** The modes that are kept, each without its sub-parameters. */
  function KeptModes(params: Params): Params {
    if params == [] then []
    else (if params[0] == [] || MouseMode(params[0][0]) then [] else [[params[0][0]]]) + KeptModes(params[1..])
  }

  /** An admitted action as the other side sees it: mode switches lose their banned modes and
      their sub-parameters, OSC strings end with ST. */
  function Normal(a: Action): seq<Action> {
    match a
    case CsiDispatch(params, inter, _, final) =>
      if SetsModes(inter, final) then [CsiDispatch(KeptModes(params), inter, false, final)] else [a]
    case EscDispatch(inter, _, final) => [EscDispatch(inter, false, final)]
    case OscDispatch(fields, _) => [OscDispatch(fields, false), TERMINATOR]
    case _ => [a]
  }

  /** The tables of the code say the same. */
  lemma Tables()
    ensures forall n: nat :: IsBannedMode(n) <==> MouseMode(n)
    ensures AllowedFinal(0x4D) && forall b: byte :: IsStandard(b) <==> AllowedFinal(b)
    ensures forall b: byte :: IsSimpleEscape(b) <==> AllowedEscape(b)
    ensures forall inter: seq<byte> :: SelectsCharset(inter) <==> Charset(inter)
    ensures forall code: seq<byte> :: BenignOsc(code) <==> AllowedOsc(code)
    ensures forall inter: seq<byte>, b: byte :: IsModeSwitch(inter, b) <==> SetsModes(inter, b)
    ensures forall params: Params :: AllZero(params) <==> NoNumbers(params)
    ensures HYPERLINK == Ascii("8") && CLIPBOARD == Ascii("52")
  {
    hide Ascii, IsStandard, AllowedFinal, IsSimpleEscape, AllowedEscape, SelectsCharset, Charset;
    FinalTable();
    EscapeTable();
    CharsetTable();
  }

  lemma FinalTable()
    ensures AllowedFinal(0x4D) && forall b: byte :: IsStandard(b) <==> AllowedFinal(b)
  {
  }

  lemma EscapeTable()
    ensures forall b: byte :: IsSimpleEscape(b) <==> AllowedEscape(b)
  {
  }

  lemma CharsetTable()
    ensures forall inter: seq<byte> :: SelectsCharset(inter) <==> Charset(inter)
  {
    forall inter: seq<byte> ensures SelectsCharset(inter) <==> Charset(inter) {
      if Charset(inter) {
        assert inter == [inter[0]];
      }
    }
  }

  lemma LinkTable(parse: UrlParser, fields: seq<seq<byte>>)
    ensures SafeUrl(parse, UrlField(fields)) <==> SafeLink(parse, fields)
  {
    hide Ascii, Lower;
  }

  lemma {:induction false} ModesTable(params: Params)
    requires GroupsOk(params)
    ensures Singles(Surviving(params)) == KeptModes(params)
    decreases |params|
  {
    if params != [] {
      Tables();
      ModesTable(params[1..]);
    }
  }

  function Kept(parse: UrlParser, a: Action): seq<Action> {
    if Admitted(parse, a) then Normal(a) else []
  }

  function KeptAll(parse: UrlParser, actions: seq<Action>): seq<Action> {
    if actions == [] then [] else Kept(parse, actions[0]) + KeptAll(parse, actions[1..])
  }

  // ---- One action ----

  lemma {:induction false} SurvivingFacts(params: Params)
    requires GroupsOk(params)
    ensures Surviving(params) != [] <==> AdmittedMode(params)
    ensures forall i :: 0 <= i < |Surviving(params)| ==> !IsBannedMode(Surviving(params)[i])
    decreases |params|
  {
    if params != [] {
      SurvivingFacts(params[1..]);
      if AdmittedMode(params[1..]) {
        var i :| 0 <= i < |params[1..]| && params[1..][i] != [] && !IsBannedMode(params[1..][i][0]);
        assert params[i + 1] == params[1..][i];
      }
      if AdmittedMode(params) && IsBannedMode(params[0][0]) {
        var i :| 0 <= i < |params| && params[i] != [] && !IsBannedMode(params[i][0]);
        assert params[1..][i - 1] == params[i];
      }
    }
  }

  lemma {:induction false} SurvivingSingles(ns: seq<Param>)
    requires forall i :: 0 <= i < |ns| ==> !IsBannedMode(ns[i])
    ensures Surviving(Singles(ns)) == ns
    decreases |ns|
  {
    if ns != [] {
      assert Singles(ns)[1..] == Singles(ns[1..]);
      SurvivingSingles(ns[1..]);
    }
  }

  lemma CsiMeaning(parse: UrlParser, a: Action)
    requires a.CsiDispatch? && ActionOk(a)
    ensures Run(START, Emit(parse, a)) == (START, Kept(parse, a))
  {
    hide Run, ParamBytes, ParamText, Surviving, KeptModes, Singles;
    hide IsBannedMode, MouseMode, IsStandard, AllowedFinal, IsSimpleEscape, AllowedEscape, SelectsCharset, Charset;
    hide BenignOsc, AllowedOsc, AllZero, NoNumbers, SafeUrl, SafeLink, Ascii;
    Tables();
    SurvivingFacts(a.params);
    ModesTable(a.params);
    SinglesOk(a.params);
    if !a.ignore && IsModeSwitch(a.inter, a.final) && Surviving(a.params) != [] {
      CsiReparses(a.inter, Singles(Surviving(a.params)), a.final, true);
    } else if Admitted(parse, a) {
      CsiTextReparses(a.inter, a.params, a.final);
    } else {
      RunNothing();
    }
  }

  lemma SinglesOk(params: Params)
    ensures GroupsOk(Singles(Surviving(params))) && |Singles(Surviving(params))| == |Surviving(params)|
  {
    hide Surviving;
  }

  lemma RunNothing()
    ensures Run(START, []) == (START, [])
  {
  }

  lemma OscMeaning(parse: UrlParser, a: Action)
    requires a.OscDispatch? && ActionOk(a)
    ensures Run(START, Emit(parse, a)) == (START, Kept(parse, a))
  {
    hide Run, BenignOsc, AllowedOsc, SafeUrl, SafeLink, Ascii, IsStandard, AllowedFinal, MouseMode, IsBannedMode;
    Tables();
    CodesDiffer();
    LinkTable(parse, a.fields);
    if Admitted(parse, a) {
      OscReparses(a.fields);
    } else {
      RunNothing();
    }
  }

  /** What is written for one action is read back as exactly what the policy keeps of it. */
  lemma EmitMeaning(parse: UrlParser, a: Action)
    requires ActionOk(a)
    ensures Run(START, Emit(parse, a)) == (START, Kept(parse, a))
  {
    match a
    case Print(c) => TextReparses(c);
    case Execute(b) =>
      RunNothing();
      if 0x07 <= b <= 0x0D { ControlReparses(b); }
    case CsiDispatch(_, _, _, _) => CsiMeaning(parse, a);
    case EscDispatch(inter, _, final) =>
      RunNothing();
      if Admitted(parse, a) { EscReparses(inter, final); }
    case OscDispatch(_, _) => OscMeaning(parse, a);
    case StringOpened(_) => RunNothing();
  }

  /** Filtering what was kept writes the same bytes again. */
  lemma KeptEmitsSame(parse: UrlParser, a: Action)
    requires ActionOk(a)
    ensures EmitAll(parse, Kept(parse, a)) == Emit(parse, a)
  {
    match a
    case CsiDispatch(_, _, _, _) => KeptCsiEmitsSame(parse, a);
    case OscDispatch(_, _) => KeptOscEmitsSame(parse, a);
    case EscDispatch(inter, _, final) => KeptEscEmitsSame(parse, a);
    case Print(_) => EmitAllOne(parse, a);
    case Execute(_) => EmitAllOne(parse, a);
    case StringOpened(_) =>
  }

  lemma KeptEscEmitsSame(parse: UrlParser, a: Action)
    requires a.EscDispatch?
    ensures EmitAll(parse, Kept(parse, a)) == Emit(parse, a)
  {
    hide IsBannedMode, MouseMode, IsStandard, AllowedFinal, IsSimpleEscape, AllowedEscape, SelectsCharset, Charset;
    hide BenignOsc, AllowedOsc, AllZero, NoNumbers, SafeUrl, SafeLink, Ascii;
    Tables();
    EmitAllOne(parse, EscDispatch(a.inter, false, a.final));
  }

  lemma KeptCsiEmitsSame(parse: UrlParser, a: Action)
    requires a.CsiDispatch? && ActionOk(a)
    ensures EmitAll(parse, Kept(parse, a)) == Emit(parse, a)
  {
    hide ParamBytes, ParamText, Surviving, KeptModes, Singles, EmitAll;
    hide IsBannedMode, MouseMode, IsStandard, AllowedFinal, IsSimpleEscape, AllowedEscape, SelectsCharset, Charset;
    hide BenignOsc, AllowedOsc, AllZero, NoNumbers, SafeUrl, SafeLink, Ascii;
    Tables();
    SurvivingFacts(a.params);
    ModesTable(a.params);
    SurvivingSingles(Surviving(a.params));
    SinglesOk(a.params);
    EmitNone(parse);
    if Admitted(parse, a) {
      EmitAllOne(parse, Normal(a)[0]);
    }
  }

  lemma EmitNone(parse: UrlParser)
    ensures EmitAll(parse, []) == []
  {
  }

  lemma EmitAllOne(parse: UrlParser, a: Action)
    ensures EmitAll(parse, [a]) == Emit(parse, a)
  {
    EmitAllAppend(parse, [], a);
    assert [] + [a] == [a];
  }

  lemma KeptOscEmitsSame(parse: UrlParser, a: Action)
    requires a.OscDispatch? && ActionOk(a)
    ensures EmitAll(parse, Kept(parse, a)) == Emit(parse, a)
  {
    hide BenignOsc, AllowedOsc, SafeUrl, SafeLink, Ascii, OscBytes, IsStandard, AllowedFinal, MouseMode, IsBannedMode;
    Tables();
    CodesDiffer();
    LinkTable(parse, a.fields);
    if Admitted(parse, a) {
      var b := OscDispatch(a.fields, false);
      EmitAllOne(parse, b);
      EmitAllAppend(parse, [b], TERMINATOR);
      assert [b] + [TERMINATOR] == [b, TERMINATOR];
    }
  }

  // ---- Whole inputs ----

  lemma {:induction false} EmitAllMeaning(parse: UrlParser, actions: seq<Action>)
    requires ActionsOk(actions)
    ensures Run(START, EmitAll(parse, actions)) == (START, KeptAll(parse, actions))
    ensures EmitAll(parse, KeptAll(parse, actions)) == EmitAll(parse, actions)
    decreases |actions|
  {
    hide Emit, Kept, ActionOk;
    if actions == [] {
      RunNothing();
    } else {
      hide Run;
      EmitMeaning(parse, actions[0]);
      KeptEmitsSame(parse, actions[0]);
      EmitAllMeaning(parse, actions[1..]);
      RunConcat(START, Emit(parse, actions[0]), EmitAll(parse, actions[1..]));
      EmitAllConcat(parse, Kept(parse, actions[0]), KeptAll(parse, actions[1..]));
    }
  }

  /** The filter is exact: the other side's parser ends outside every sequence and sees the
      admitted actions of the input, all of them, in order, and nothing else. */
  lemma FilterIsExact(parse: UrlParser, input: seq<byte>)
    ensures Run(START, Filter(parse, input)) == (START, KeptAll(parse, Run(START, input).1))
  {
    hide Run;
    RunOk(START, input);
    EmitAllMeaning(parse, Run(START, input).1);
  }

  /** Filtering twice is filtering once, byte for byte. */
  lemma FilterIdempotent(parse: UrlParser, input: seq<byte>)
    ensures Filter(parse, Filter(parse, input)) == Filter(parse, input)
  {
    hide Run;
    FilterIsExact(parse, input);
    RunOk(START, input);
    EmitAllMeaning(parse, Run(START, input).1);
  }

  // ---- The output is closed under the allowlist ----

  lemma KeptIsAdmitted(parse: UrlParser, a: Action)
    requires ActionOk(a)
    ensures forall i :: 0 <= i < |Kept(parse, a)| ==>
      Kept(parse, a)[i] == TERMINATOR || Admitted(parse, Kept(parse, a)[i])
  {
    hide MouseMode, AllowedFinal, AllowedEscape, Charset, AllowedOsc, SafeLink, Ascii;
    if a.CsiDispatch? && Admitted(parse, a) && SetsModes(a.inter, a.final) {
      KeptModesFacts(a.params);
    }
  }

  lemma {:induction false} KeptModesFacts(params: Params)
    ensures forall i :: 0 <= i < |KeptModes(params)| ==>
      |KeptModes(params)[i]| == 1 && !MouseMode(KeptModes(params)[i][0])
    ensures AdmittedMode(params) ==> KeptModes(params) != [] && AdmittedMode(KeptModes(params))
    decreases |params|
  {
    hide MouseMode;
    if params != [] {
      KeptModesFacts(params[1..]);
      if AdmittedMode(params) && (params[0] == [] || MouseMode(params[0][0])) {
        var i :| 0 <= i < |params| && params[i] != [] && !MouseMode(params[i][0]);
        assert params[1..][i - 1] == params[i];
      }
      if AdmittedMode(params) {
        assert KeptModes(params)[0] != [] && !MouseMode(KeptModes(params)[0][0]);
      }
    }
  }

  lemma {:induction false} KeptAllAdmitted(parse: UrlParser, actions: seq<Action>)
    requires ActionsOk(actions)
    ensures forall i :: 0 <= i < |KeptAll(parse, actions)| ==>
      KeptAll(parse, actions)[i] == TERMINATOR || Admitted(parse, KeptAll(parse, actions)[i])
    decreases |actions|
  {
    hide Kept, Admitted, ActionOk;
    if actions != [] {
      KeptIsAdmitted(parse, actions[0]);
      KeptAllAdmitted(parse, actions[1..]);
    }
  }

  /** Everything the other side reads from filtered output is something the filter admits,
      apart from the terminators of OSC strings. */
  lemma OutputAdmitted(parse: UrlParser, input: seq<byte>, i: nat)
    requires i < |Run(START, Filter(parse, input)).1|
    ensures var a := Run(START, Filter(parse, input)).1[i]; a == TERMINATOR || Admitted(parse, a)
  {
    hide Admitted;
    hide Run;
    FilterIsExact(parse, input);
    RunOk(START, input);
    KeptAllAdmitted(parse, Run(START, input).1);
  }

  /** The sequences the filter exists to stop. */
  predicate Hazard(parse: UrlParser, a: Action) {
    match a
    // Clipboard writes, and hyperlinks to an unsafe scheme.
    case OscDispatch(fields, _) =>
      fields != [] && (fields[0] == Ascii("52") || (fields[0] == Ascii("8") && !SafeLink(parse, fields)))
    // Mouse and focus modes, and mouse reports.
    case CsiDispatch(params, inter, _, final) =>
      || (SetsModes(inter, final) && exists i :: 0 <= i < |params| && params[i] != [] && MouseMode(params[i][0]))
      || (inter == [0x3C] && (final as char == 'M' || final as char == 'm'))
      || (inter == [] && final as char == 'M' && NoNumbers(params))
    // DCS, SOS, PM and APC strings.
    case StringOpened(_) => true
    case _ => false
  }

  lemma {:induction false} KeptAllHarmless(parse: UrlParser, actions: seq<Action>)
    requires ActionsOk(actions)
    ensures forall i :: 0 <= i < |KeptAll(parse, actions)| ==> !Hazard(parse, KeptAll(parse, actions)[i])
    decreases |actions|
  {
    hide Kept, Hazard, ActionOk;
    if actions != [] {
      KeptIsHarmless(parse, actions[0]);
      KeptAllHarmless(parse, actions[1..]);
    }
  }

  lemma KeptIsHarmless(parse: UrlParser, a: Action)
    requires ActionOk(a)
    ensures forall i :: 0 <= i < |Kept(parse, a)| ==> !Hazard(parse, Kept(parse, a)[i])
  {
    hide MouseMode, AllowedEscape, Charset, AllowedOsc, SafeLink, Ascii;
    CodesDiffer();
    if a.CsiDispatch? {
      KeptModesFacts(a.params);
    }
  }

  lemma CodesDiffer()
    ensures !AllowedOsc(Ascii("52")) && !AllowedOsc(Ascii("8")) && Ascii("52") != Ascii("8")
  {
    assert Ascii("52")[0] == 0x35 && Ascii("8")[0] == 0x38;
  }

  /** No clipboard write, unsafe link, mouse or focus mode, mouse report or control string
      ever reaches the browser, whatever bytes the pane produces. */
  lemma OutputHarmless(parse: UrlParser, input: seq<byte>, i: nat)
    requires i < |Run(START, Filter(parse, input)).1|
    ensures !Hazard(parse, Run(START, Filter(parse, input)).1[i])
  {
    hide Hazard;
    FilterIsExact(parse, input);
    RunOk(START, input);
    hide Run;
    KeptAllHarmless(parse, Run(START, input).1);
  }

  // ---- Chunks ----

  /** What `take` returns after each `feed`, the parser state carried along. */
  function Taken(parse: UrlParser, st: State, chunks: seq<seq<byte>>): seq<seq<byte>>
    decreases |chunks|
  {
    if chunks == [] then []
    else
      var (next, actions) := Run(st, chunks[0]);
      [EmitAll(parse, actions)] + Taken(parse, next, chunks[1..])
  }

  lemma {:induction false} TakenConcat(parse: UrlParser, st: State, chunks: seq<seq<byte>>)
    ensures Concat(Taken(parse, st, chunks)) == EmitAll(parse, Run(st, Concat(chunks)).1)
    decreases |chunks|
  {
    if chunks != [] {
      hide Run, EmitAll;
      var (next, actions) := Run(st, chunks[0]);
      TakenConcat(parse, next, chunks[1..]);
      RunConcat(st, chunks[0], Concat(chunks[1..]));
      EmitAllConcat(parse, actions, Run(next, Concat(chunks[1..])).1);
    }
  }

  /** However the input is cut into chunks, the pieces taken after each feed join up to the
      one-shot filter of the whole. */
  lemma ChunkIndependence(parse: UrlParser, chunks: seq<seq<byte>>)
    ensures Concat(Taken(parse, START, chunks)) == Filter(parse, Concat(chunks))
  {
    TakenConcat(parse, START, chunks);
  }

  /** The stream itself does this. */
  method FilterChunks(parse: UrlParser, chunks: seq<seq<byte>>) returns (taken: seq<seq<byte>>)
    ensures taken == Taken(parse, START, chunks)
    ensures Concat(taken) == Filter(parse, Concat(chunks))
  {
    hide Run, EmitAll;
    var stream := new OutboundStream(parse);
    taken := [];
    for i := 0 to |chunks|
      invariant stream.perform.out == [] && stream.perform.parse == parse && fresh(stream) && fresh(stream.perform)
      invariant Taken(parse, START, chunks) == taken + Taken(parse, stream.parser, chunks[i..])
    {
      assert chunks[i..][1..] == chunks[i + 1..];
      ghost var fed := EmitAll(parse, Run(stream.parser, chunks[i]).1);
      stream.Feed(chunks[i]);
      assert [] + fed == fed;
      var bytes := stream.Take();
      taken := taken + [bytes];
    }
    ChunkIndependence(parse, chunks);
  }
}
