/** The tmux command lines (src/tmux/commands.rs), and the shell rules that read them
    (section 2.2 of the POSIX Shell Command Language). */
module Commands {
  import opened Bytes
  import Numbers

  type Pane = seq<byte>

  const QUOTE: byte := 0x27
  const DOUBLE_QUOTE: byte := 0x22
  const TAB: byte := 0x09

  // ---- Builders ----

  /** `s.replace('\'', "'\\''")` */
  function Escaped(s: seq<byte>): seq<byte> {
    if s == [] then []
    else (if s[0] == QUOTE then [QUOTE, BACKSLASH, QUOTE, QUOTE] else [s[0]]) + Escaped(s[1..])
  }

  function Quoted(s: seq<byte>): seq<byte> { [QUOTE] + Escaped(s) + [QUOTE] }

  function DisplayMessage(fmt: seq<byte>): seq<byte> {
    Ascii("display-message -p -F ") + Quoted(fmt) + [LF]
  }

  function DisplayMessageForPane(fmt: seq<byte>, pane: Pane): seq<byte> {
    Ascii("display-message -p -F ") + Quoted(fmt) + Ascii(" -t ") + pane + [LF]
  }

  function PrintInt(n: int): seq<byte> {
    if n < 0 then [0x2D] + Numbers.PrintDecimal(-n) else Numbers.PrintDecimal(n)
  }

  function CapturePane(pane: Pane, start: Option<int>): seq<byte> {
    match start
    case Some(s) => Ascii("capture-pane -p -e -t ") + pane + Ascii(" -S ") + PrintInt(s) + [LF]
    case None => Ascii("capture-pane -p -e -t ") + pane + [LF]
  }

  function CapturePaneAll(pane: Pane): seq<byte> {
    Ascii("capture-pane -p -e -t ") + pane + Ascii(" -S -") + [LF]
  }

  function SelectPane(pane: Pane): seq<byte> { Ascii("select-pane -t ") + pane + [LF] }

  function RefreshClientDims(cols: nat, rows: nat): seq<byte> {
    Ascii("refresh-client -C ") + Numbers.PrintDecimal(cols) + [0x78] + Numbers.PrintDecimal(rows) + [LF]
  }

  function DetachClient(): seq<byte> { Ascii("detach-client") + [LF] }

  function ListSessions(fmt: seq<byte>): seq<byte> { Ascii("list-sessions -F ") + Quoted(fmt) + [LF] }

  function SendKeysLiteral(pane: Pane, text: seq<byte>): seq<byte> {
    Ascii("send-keys -t ") + pane + Ascii(" -l ") + Quoted(text) + [LF]
  }

  /** `{b:02x}` */
  function HexByte(b: byte): seq<byte> { [Numbers.DigitByte(b / 16), Numbers.DigitByte(b % 16)] }

  function HexList(bytes: seq<byte>): seq<byte> {
    if bytes == [] then [] else HexList(bytes[..|bytes| - 1]) + [SPACE] + HexByte(bytes[|bytes| - 1])
  }

  function KeysHex(pane: Pane, bytes: seq<byte>): seq<byte> {
    Ascii("send-keys -t ") + pane + Ascii(" -H") + HexList(bytes) + [LF]
  }

  method SendKeysHex(pane: Pane, bytes: seq<byte>) returns (out: seq<byte>)
    ensures out == KeysHex(pane, bytes)
  {
    out := Ascii("send-keys -t ") + pane + Ascii(" -H");
    ghost var head := out;
    for i := 0 to |bytes|
      invariant out == head + HexList(bytes[..i])
    {
      out := out + [SPACE];
      out := out + HexByte(bytes[i]);
      assert bytes[..i + 1][..i] == bytes[..i];
    }
    assert bytes[..|bytes|] == bytes;
    out := out + [LF];
  }

  // ---- The shell's reading ----

  /** Where the reader is: between words, in one, or in one of the kinds of quoting. */
  datatype Mode = Gap | Word | Escape | Single | Double | DoubleEscape

  datatype Reader = Reader(mode: Mode, word: seq<byte>, words: seq<seq<byte>>)

  predicate IsBlank(b: byte) { b == SPACE || b == TAB || b == LF }

  /** Inside double quotes a backslash only escapes these. */
  predicate EscapableInDouble(b: byte) {
    b == 0x24 || b == 0x60 || b == DOUBLE_QUOTE || b == BACKSLASH || b == LF
  }

  function Read(r: Reader, b: byte): Reader {
    match r.mode
    case Single => if b == QUOTE then r.(mode := Word) else r.(word := r.word + [b])
    case Escape => r.(mode := Word, word := if b == LF then r.word else r.word + [b])
    case Double =>
      if b == DOUBLE_QUOTE then r.(mode := Word)
      else if b == BACKSLASH then r.(mode := DoubleEscape)
      else r.(word := r.word + [b])
    case DoubleEscape =>
      r.(mode := Double,
         word := if b == LF then r.word else if EscapableInDouble(b) then r.word + [b] else r.word + [BACKSLASH, b])
    case _ =>
      if b == QUOTE then r.(mode := Single)
      else if b == DOUBLE_QUOTE then r.(mode := Double)
      else if b == BACKSLASH then r.(mode := Escape)
      else if !IsBlank(b) then r.(mode := Word, word := r.word + [b])
      else if r.mode.Gap? then r
      else Reader(Gap, [], r.words + [r.word])
  }

  function ReadAll(r: Reader, s: seq<byte>): Reader
    decreases |s|
  {
    if s == [] then r else ReadAll(Read(r, s[0]), s[1..])
  }

  /** The words of a complete line; none when a quote is left open. */
  function Words(line: seq<byte>): Option<seq<seq<byte>>> {
    var r := ReadAll(Reader(Gap, [], []), line);
    match r.mode
    case Gap => Some(r.words)
    case Word => Some(r.words + [r.word])
    case _ => None
  }

  lemma {:induction false} ReadAllConcat(r: Reader, a: seq<byte>, b: seq<byte>)
    ensures ReadAll(r, a + b) == ReadAll(ReadAll(r, a), b)
    decreases |a|
  {
    hide Read;
    if a == [] {
      assert a + b == b;
    } else {
      assert (a + b)[1..] == a[1..] + b;
      ReadAllConcat(Read(r, a[0]), a[1..], b);
    }
  }

  lemma ReadOne(r: Reader, b: byte)
    ensures ReadAll(r, [b]) == Read(r, b)
  {
    hide Read;
    var one := [b];
    assert ReadAll(Read(r, b), one[1..]) == Read(r, b);
  }

  predicate IsPlain(w: seq<byte>) {
    forall i :: 0 <= i < |w| ==> !IsBlank(w[i]) && w[i] != QUOTE && w[i] != DOUBLE_QUOTE && w[i] != BACKSLASH
  }

  lemma {:induction false} ReadPlain(r: Reader, w: seq<byte>)
    requires IsPlain(w) && (r.mode.Word? || (r.mode.Gap? && w != []))
    ensures ReadAll(r, w) == r.(mode := Word, word := r.word + w)
    decreases |w|
  {
    if w == [] {
      assert r.word + w == r.word;
    } else {
      var next := Read(r, w[0]);
      ReadPlain(next, w[1..]);
      assert r.word + w == (r.word + [w[0]]) + w[1..];
    }
  }

  /** A plain word and a blank. */
  lemma ReadWord(words: seq<seq<byte>>, w: seq<byte>)
    requires IsPlain(w) && w != []
    ensures ReadAll(Reader(Gap, [], words), w + [SPACE]) == Reader(Gap, [], words + [w])
  {
    var r := Reader(Gap, [], words);
    ReadPlain(r, w);
    assert [] + w == w;
    ReadAllConcat(r, w, [SPACE]);
    ReadOne(r.(mode := Word, word := w), SPACE);
  }

  lemma {:induction false} ReadEscaped(r: Reader, s: seq<byte>)
    requires r.mode.Single?
    ensures ReadAll(r, Escaped(s)) == r.(word := r.word + s)
    decreases |s|
  {
    if s == [] {
      assert r.word + s == r.word;
    } else {
      var head := if s[0] == QUOTE then [QUOTE, BACKSLASH, QUOTE, QUOTE] else [s[0]];
      ReadEscapedByte(r, s[0]);
      ReadAllConcat(r, head, Escaped(s[1..]));
      ReadEscaped(r.(word := r.word + [s[0]]), s[1..]);
      assert r.word + s == (r.word + [s[0]]) + s[1..];
    }
  }

  lemma ReadEscapedByte(r: Reader, b: byte)
    requires r.mode.Single?
    ensures ReadAll(r, if b == QUOTE then [QUOTE, BACKSLASH, QUOTE, QUOTE] else [b]) == r.(word := r.word + [b])
  {
    if b == QUOTE {
      var r1 := r.(mode := Word);
      var r2 := r.(mode := Escape);
      var r3 := r1.(word := r.word + [QUOTE]);
      ReadOne(r, QUOTE);
      ReadOne(r1, BACKSLASH);
      ReadOne(r2, QUOTE);
      ReadOne(r3, QUOTE);
      ReadAllConcat(r, [QUOTE], [BACKSLASH]);
      ReadAllConcat(r, [QUOTE] + [BACKSLASH], [QUOTE]);
      ReadAllConcat(r, [QUOTE] + [BACKSLASH] + [QUOTE], [QUOTE]);
      assert [QUOTE] + [BACKSLASH] + [QUOTE] + [QUOTE] == [QUOTE, BACKSLASH, QUOTE, QUOTE];
    } else {
      ReadOne(r, b);
    }
  }

  /** A quoted argument reads as the argument itself, whatever bytes it holds. */
  lemma ReadQuoted(words: seq<seq<byte>>, s: seq<byte>)
    ensures ReadAll(Reader(Gap, [], words), Quoted(s)) == Reader(Word, s, words)
  {
    var r := Reader(Gap, [], words);
    ReadOne(r, QUOTE);
    ReadEscaped(r.(mode := Single), s);
    assert [] + s == s;
    ReadOne(Reader(Single, s, words), QUOTE);
    ReadAllConcat(r, [QUOTE], Escaped(s));
    ReadAllConcat(r, [QUOTE] + Escaped(s), [QUOTE]);
  }

  /** Reading on never changes the words already complete. */
  lemma {:induction false} WordsGrow(r: Reader, s: seq<byte>)
    ensures r.words <= ReadAll(r, s).words
    decreases |s|
  {
    if s != [] {
      WordsGrow(Read(r, s[0]), s[1..]);
    }
  }

  lemma FirstWord(a: seq<byte>, rest: seq<byte>)
    requires IsPlain(a) && a != []
    ensures Words(a + [SPACE] + rest).Some? ==>
      Words(a + [SPACE] + rest).value != [] && Words(a + [SPACE] + rest).value[0] == a
  {
    hide ReadAll;
    var start, r := Reader(Gap, [], []), Reader(Gap, [], [a]);
    ReadWord([], a);
    assert [] + [a] == [a];
    ReadAllConcat(start, a + [SPACE], rest);
    WordsGrow(r, rest);
  }

  /** Quoting is undone by the shell: one word, equal to the string. */
  lemma QuotingRoundTrip(s: seq<byte>)
    ensures Words(Quoted(s)) == Some([s])
  {
    hide ReadAll, Quoted;
    ReadQuoted([], s);
    assert [] + [s] == [s];
  }

  // ---- Whole commands ----

  /** Plain words, each followed by a blank. */
  function Prefix(ws: seq<seq<byte>>): seq<byte> {
    if ws == [] then [] else Prefix(ws[..|ws| - 1]) + (ws[|ws| - 1] + [SPACE])
  }

  lemma {:induction false} ReadPrefix(ws: seq<seq<byte>>)
    requires forall i :: 0 <= i < |ws| ==> IsPlain(ws[i]) && ws[i] != []
    ensures ReadAll(Reader(Gap, [], []), Prefix(ws)) == Reader(Gap, [], ws)
    decreases |ws|
  {
    if ws != [] {
      hide ReadAll, IsPlain;
      var init, last := ws[..|ws| - 1], ws[|ws| - 1];
      ReadPrefix(init);
      ReadWord(init, last);
      ReadAllConcat(Reader(Gap, [], []), Prefix(init), last + [SPACE]);
      assert init + [last] == ws;
    }
  }

  /** A line of plain words with one quoted argument at the end. */
  lemma PrefixQuoted(ws: seq<seq<byte>>, s: seq<byte>)
    requires forall i :: 0 <= i < |ws| ==> IsPlain(ws[i]) && ws[i] != []
    ensures Words(Prefix(ws) + Quoted(s)) == Some(ws + [s])
  {
    hide ReadAll, Quoted, Prefix, IsPlain;
    ReadPrefix(ws);
    ReadQuoted(ws, s);
    ReadAllConcat(Reader(Gap, [], []), Prefix(ws), Quoted(s));
  }

  lemma PrefixTwo(a: seq<byte>, b: seq<byte>)
    ensures Prefix([a, b]) == a + [SPACE] + b + [SPACE]
  {
    var one := [a];
    assert [a, b][..1] == one && one[..0] == [];
    assert Prefix(one) == [] + (a + [SPACE]);
  }

  lemma PrefixAppend(ws: seq<seq<byte>>, w: seq<byte>)
    ensures Prefix(ws + [w]) == Prefix(ws) + w + [SPACE]
  {
    assert (ws + [w])[..|ws|] == ws;
  }

  /** `display-message` carries its format as one argument. */
  lemma DisplayMessageWords(fmt: seq<byte>)
    ensures DisplayMessage(fmt) == DisplayMessage(fmt)[..|DisplayMessage(fmt)| - 1] + [LF]
    ensures Words(DisplayMessage(fmt)[..|DisplayMessage(fmt)| - 1])
         == Some([Ascii("display-message"), Ascii("-p"), Ascii("-F"), fmt])
  {
    hide Words, Quoted, Prefix, Ascii;
    var a, b, c := Ascii("display-message"), Ascii("-p"), Ascii("-F");
    PrefixTwo(a, b);
    PrefixAppend([a, b], c);
    assert [a, b] + [c] == [a, b, c];
    assert Ascii("display-message -p -F ") == a + [SPACE] + b + [SPACE] + c + [SPACE];
    PlainWords();
    PrefixQuoted([a, b, c], fmt);
    assert [a, b, c] + [fmt] == [a, b, c, fmt];
    var line := Prefix([a, b, c]) + Quoted(fmt);
    assert DisplayMessage(fmt) == line + [LF] && (line + [LF])[..|line|] == line;
  }

  predicate IsPlainWord(w: seq<byte>) { IsPlain(w) && w != [] }

  lemma PlainWords()
    ensures IsPlainWord(Ascii("display-message")) && IsPlainWord(Ascii("-p")) && IsPlainWord(Ascii("-F"))
    ensures IsPlainWord(Ascii("send-keys")) && IsPlainWord(Ascii("-t")) && IsPlainWord(Ascii("-l"))
    ensures IsPlainWord(Ascii("-H"))
  {
  }

  /** `send-keys -l` carries arbitrary text as one argument, for any plain pane id. */
  lemma SendKeysLiteralWords(pane: Pane, text: seq<byte>)
    requires IsPlain(pane) && pane != []
    ensures Words(SendKeysLiteral(pane, text)[..|SendKeysLiteral(pane, text)| - 1])
         == Some([Ascii("send-keys"), Ascii("-t"), pane, Ascii("-l"), text])
  {
    hide Words, Quoted, Prefix, Ascii, IsPlain;
    var a, b, d := Ascii("send-keys"), Ascii("-t"), Ascii("-l");
    var s1, s2 := Ascii("send-keys -t "), Ascii(" -l ");
    PrefixTwo(a, b);
    assert s1 == a + [SPACE] + b + [SPACE];
    assert s2 == [SPACE] + d + [SPACE];
    PlainWords();
    PrefixAppend([a, b], pane);
    PrefixAppend([a, b] + [pane], d);
    var ws := [a, b] + [pane] + [d];
    assert forall i :: 0 <= i < |ws| ==> ws[i] in {a, b, pane, d};
    PrefixQuoted(ws, text);
    assert ws + [text] == [a, b, pane, d, text];
    var line := Prefix(ws) + Quoted(text);
    assert s1 + pane + s2 == Prefix(ws);
    assert SendKeysLiteral(pane, text) == line + [LF] && (line + [LF])[..|line|] == line;
  }

  // ---- Hex ----

  function HexWords(bytes: seq<byte>): seq<seq<byte>> { seq(|bytes|, i requires 0 <= i < |bytes| => HexByte(bytes[i])) }

  lemma HexByteParses(b: byte)
    ensures IsPlain(HexByte(b)) && Numbers.Parse(HexByte(b), 16, 256) == Some(b)
  {
    var s := HexByte(b);
    assert Numbers.DigitValue(s[0]) == b / 16 && Numbers.DigitValue(s[1]) == b % 16;
    assert Numbers.ReadDigits(s[1..][1..], 16, 256, b) == Some(b);
    assert Numbers.ReadDigits(s[1..], 16, 256, b / 16) == Some(b);
  }

  lemma ReadGap(r: Reader)
    requires r.mode.Word?
    ensures ReadAll(r, [SPACE]) == Reader(Gap, [], r.words + [r.word])
  {
    ReadOne(r, SPACE);
  }

  /** The words of the hex list, after a word that is still open. */
  lemma {:induction false} ReadHexList(r: Reader, bytes: seq<byte>)
    requires r.mode.Word?
    ensures var all := r.words + [r.word] + HexWords(bytes);
      ReadAll(r, HexList(bytes)) == Reader(Word, all[|all| - 1], all[..|all| - 1])
    decreases |bytes|
  {
    if bytes == [] {
      assert r.words + [r.word] + HexWords(bytes) == r.words + [r.word];
      assert (r.words + [r.word])[..|r.words|] == r.words;
    } else {
      hide Read, IsPlain, HexByte, ReadAll;
      var n := |bytes| - 1;
      var init := bytes[..n];
      var hex := HexByte(bytes[n]);
      ReadHexList(r, init);
      HexByteParses(bytes[n]);
      var all := r.words + [r.word] + HexWords(init);
      var mid := Reader(Word, all[|all| - 1], all[..|all| - 1]);
      assert all[..|all| - 1] + [all[|all| - 1]] == all;
      ReadGap(mid);
      ReadPlain(Reader(Gap, [], all), hex);
      assert [] + hex == hex;
      ReadAllConcat(r, HexList(init), [SPACE]);
      ReadAllConcat(r, HexList(init) + [SPACE], hex);
      assert HexWords(bytes) == HexWords(init) + [hex];
      var whole := r.words + [r.word] + HexWords(bytes);
      assert whole == all + [hex] && whole[..|whole| - 1] == all;
    }
  }

  /** Plain words, a last plain word, and a hex list after it. */
  lemma PrefixHex(ws: seq<seq<byte>>, last: seq<byte>, bytes: seq<byte>)
    requires (forall i :: 0 <= i < |ws| ==> IsPlain(ws[i]) && ws[i] != []) && IsPlainWord(last)
    ensures Words(Prefix(ws) + last + HexList(bytes)) == Some(ws + [last] + HexWords(bytes))
  {
    hide ReadAll, Prefix, IsPlain, HexList, HexWords;
    ReadPrefix(ws);
    ReadPlain(Reader(Gap, [], ws), last);
    assert [] + last == last;
    ReadHexList(Reader(Word, last, ws), bytes);
    ReadAllConcat(Reader(Gap, [], []), Prefix(ws), last);
    ReadAllConcat(Reader(Gap, [], []), Prefix(ws) + last, HexList(bytes));
    var all := ws + [last] + HexWords(bytes);
    assert all[..|all| - 1] + [all[|all| - 1]] == all;
  }

  // ---- The other commands read back ----

  /** Plain words and a last plain word. */
  lemma PlainLine(ws: seq<seq<byte>>, last: seq<byte>)
    requires (forall i :: 0 <= i < |ws| ==> IsPlainWord(ws[i])) && IsPlainWord(last)
    ensures Words(Prefix(ws) + last) == Some(ws + [last])
  {
    hide Words, Prefix, IsPlain, HexList, HexWords;
    PrefixHex(ws, last, []);
    NoHex();
    assert Prefix(ws) + last + [] == Prefix(ws) + last && ws + [last] + [] == ws + [last];
  }

  lemma NoHex()
    ensures HexList([]) == [] && HexWords([]) == []
  {
  }

  lemma WithoutLineEnd(line: seq<byte>)
    ensures (line + [LF])[..|line + [LF]| - 1] == line
  {
  }

  lemma CapturePlain()
    ensures IsPlainWord(Ascii("capture-pane")) && IsPlainWord(Ascii("-e")) && IsPlainWord(Ascii("-S"))
    ensures IsPlainWord(Ascii("-p")) && IsPlainWord(Ascii("-t")) && IsPlainWord(Ascii("-"))
  {
  }

  /** `capture-pane -p -e -t ` in words. */
  lemma CapturePrefix()
    ensures Ascii("capture-pane -p -e -t ")
         == Prefix([Ascii("capture-pane"), Ascii("-p"), Ascii("-e"), Ascii("-t")])
  {
    hide Ascii;
    var a, b, c, d := Ascii("capture-pane"), Ascii("-p"), Ascii("-e"), Ascii("-t");
    PrefixTwo(a, b);
    PrefixAppend([a, b], c);
    PrefixAppend([a, b] + [c], d);
    assert [a, b] + [c] + [d] == [a, b, c, d];
    assert Ascii("capture-pane -p -e -t ") == a + [SPACE] + b + [SPACE] + c + [SPACE] + d + [SPACE];
  }

  lemma NumberIsPlain(n: int)
    ensures IsPlainWord(PrintInt(n))
    ensures PrintInt(n) == if n < 0 then [0x2D] + Numbers.PrintDecimal(-n) else Numbers.PrintDecimal(n)
  {
  }

  /** `capture-pane` names its pane, and with `-S` the line to start from, or all of them. */
  lemma CapturePaneWords(pane: Pane, n: int)
    requires IsPlainWord(pane)
    ensures var words := [Ascii("capture-pane"), Ascii("-p"), Ascii("-e"), Ascii("-t"), pane];
      && LineWords(CapturePane(pane, None)) == Some(words)
      && LineWords(CapturePane(pane, Some(n))) == Some(words + [Ascii("-S"), PrintInt(n)])
      && LineWords(CapturePaneAll(pane)) == Some(words + [Ascii("-S"), Ascii("-")])
  {
    hide Words, Prefix, Ascii, IsPlain, PrintInt, IsPlainWord;
    var head := [Ascii("capture-pane"), Ascii("-p"), Ascii("-e"), Ascii("-t")];
    var start := Ascii("-S");
    CapturePlain();
    CapturePrefix();
    NumberIsPlain(n);
    assert forall i :: 0 <= i < 4 ==> IsPlainWord(head[i]);
    PlainLine(head, pane);
    assert head + [pane] == [Ascii("capture-pane"), Ascii("-p"), Ascii("-e"), Ascii("-t"), pane];
    PrefixAppend(head, pane);
    PrefixAppend(head + [pane], start);
    var ws := head + [pane] + [start];
    assert forall i :: 0 <= i < 6 ==> IsPlainWord(ws[i]);
    PlainLine(ws, PrintInt(n));
    PlainLine(ws, Ascii("-"));
    SinceText();
    var c := Ascii("capture-pane -p -e -t ");
    assert c + pane + Ascii(" -S ") == Prefix(ws);
    assert c + pane + Ascii(" -S -") == Prefix(ws) + Ascii("-");
    WithoutLineEnd(c + pane);
    WithoutLineEnd(Prefix(ws) + PrintInt(n));
    WithoutLineEnd(Prefix(ws) + Ascii("-"));
    assert ws + [PrintInt(n)] == head + [pane] + [start, PrintInt(n)];
    assert ws + [Ascii("-")] == head + [pane] + [start, Ascii("-")];
  }

  lemma SinceText()
    ensures Ascii(" -S ") == [SPACE] + Ascii("-S") + [SPACE]
    ensures Ascii(" -S -") == [SPACE] + Ascii("-S") + [SPACE] + Ascii("-")
  {
  }

  /** The words of a line without its newline. */
  function LineWords(line: seq<byte>): Option<seq<seq<byte>>> {
    if line == [] then None else Words(line[..|line| - 1])
  }

  lemma DimsPlain(cols: nat, rows: nat)
    ensures IsPlainWord(Numbers.PrintDecimal(cols) + [0x78] + Numbers.PrintDecimal(rows))
    ensures IsPlainWord(Ascii("refresh-client")) && IsPlainWord(Ascii("-C")) && IsPlainWord(Ascii("select-pane"))
    ensures IsPlainWord(Ascii("detach-client")) && IsPlainWord(Ascii("-t"))
    ensures Ascii("refresh-client -C ") == Ascii("refresh-client") + [SPACE] + Ascii("-C") + [SPACE]
    ensures Ascii("select-pane -t ") == Ascii("select-pane") + [SPACE] + Ascii("-t") + [SPACE]
  {
  }

  /** The size is columns, `x`, rows. */
  lemma DimsWords(cols: nat, rows: nat)
    ensures LineWords(RefreshClientDims(cols, rows))
         == Some([Ascii("refresh-client"), Ascii("-C"),
           Numbers.PrintDecimal(cols) + [0x78] + Numbers.PrintDecimal(rows)])
  {
    hide Words, Prefix, Ascii, IsPlain, IsPlainWord, Numbers.Print;
    var a, b := Ascii("refresh-client"), Ascii("-C");
    var size := Numbers.PrintDecimal(cols) + [0x78] + Numbers.PrintDecimal(rows);
    DimsPlain(cols, rows);
    PrefixTwo(a, b);
    PlainLine([a, b], size);
    assert [a, b] + [size] == [a, b, size];
    assert RefreshClientDims(cols, rows) == Prefix([a, b]) + size + [LF];
    WithoutLineEnd(Prefix([a, b]) + size);
  }

  lemma SelectAndDetachWords(pane: Pane)
    requires IsPlainWord(pane)
    ensures LineWords(SelectPane(pane)) == Some([Ascii("select-pane"), Ascii("-t"), pane])
    ensures LineWords(DetachClient()) == Some([Ascii("detach-client")])
  {
    hide Words, Prefix, Ascii, IsPlain, IsPlainWord;
    var a, b, d := Ascii("select-pane"), Ascii("-t"), Ascii("detach-client");
    DimsPlain(0, 0);
    PrefixTwo(a, b);
    PlainLine([a, b], pane);
    assert [a, b] + [pane] == [a, b, pane];
    WithoutLineEnd(Prefix([a, b]) + pane);
    NoPrefix();
    PlainLine([], d);
    assert [] + d == d && [] + [d] == [d];
    WithoutLineEnd(d);
  }

  lemma NoPrefix()
    ensures Prefix([]) == []
  {
  }

  lemma ListPlain()
    ensures IsPlainWord(Ascii("list-sessions")) && IsPlainWord(Ascii("-F"))
    ensures Ascii("list-sessions -F ") == Ascii("list-sessions") + [SPACE] + Ascii("-F") + [SPACE]
  {
  }

  /** `list-sessions` carries its format as one argument. */
  lemma ListSessionsWords(fmt: seq<byte>)
    ensures LineWords(ListSessions(fmt)) == Some([Ascii("list-sessions"), Ascii("-F"), fmt])
  {
    hide Words, Prefix, Ascii, Quoted, IsPlain, IsPlainWord;
    var a, b := Ascii("list-sessions"), Ascii("-F");
    ListPlain();
    PrefixTwo(a, b);
    PlainAreWords([a, b]);
    PrefixQuoted([a, b], fmt);
    assert [a, b] + [fmt] == [a, b, fmt];
    WithoutLineEnd(Prefix([a, b]) + Quoted(fmt));
  }

  lemma PlainAreWords(ws: seq<seq<byte>>)
    requires forall i :: 0 <= i < |ws| ==> IsPlainWord(ws[i])
    ensures forall i :: 0 <= i < |ws| ==> IsPlain(ws[i]) && ws[i] != []
  {
    hide IsPlain;
  }

  /** With a pane, `display-message` names it after the format. */
  lemma DisplayForPaneWords(fmt: seq<byte>, pane: Pane)
    requires IsPlainWord(pane)
    ensures LineWords(DisplayMessageForPane(fmt, pane))
         == Some([Ascii("display-message"), Ascii("-p"), Ascii("-F"), fmt, Ascii("-t"), pane])
  {
    hide ReadAll, Prefix, Ascii, Quoted, IsPlain;
    var a, b, c, t := Ascii("display-message"), Ascii("-p"), Ascii("-F"), Ascii("-t");
    var ws, start := [a, b, c], Reader(Gap, [], []);
    PlainWords();
    PrefixTwo(a, b);
    PrefixAppend([a, b], c);
    assert [a, b] + [c] == ws;
    DisplayText();
    var head, tail := Prefix(ws) + Quoted(fmt), [SPACE] + (t + [SPACE]) + pane;
    ReadPrefix(ws);
    ReadQuoted(ws, fmt);
    ReadAllConcat(start, Prefix(ws), Quoted(fmt));
    TwoMoreWords(Reader(Word, fmt, ws), t, pane);
    ReadAllConcat(start, head, tail);
    assert DisplayMessageForPane(fmt, pane) == head + tail + [LF];
    WithoutLineEnd(head + tail);
    assert ws + [fmt] + [t] + [pane] == [a, b, c, fmt, t, pane];
  }

  lemma TwoMoreWords(r: Reader, first: seq<byte>, second: seq<byte>)
    requires r.mode.Word? && IsPlainWord(first) && IsPlainWord(second)
    ensures ReadAll(r, [SPACE] + (first + [SPACE]) + second) == Reader(Word, second, r.words + [r.word] + [first])
  {
    hide ReadAll, IsPlain;
    ReadGap(r);
    ReadWord(r.words + [r.word], first);
    ReadPlain(Reader(Gap, [], r.words + [r.word] + [first]), second);
    assert [] + second == second;
    ReadAllConcat(r, [SPACE], first + [SPACE]);
    ReadAllConcat(r, [SPACE] + (first + [SPACE]), second);
  }

  lemma DisplayText()
    ensures Ascii("display-message -p -F ")
         == Ascii("display-message") + [SPACE] + Ascii("-p") + [SPACE] + Ascii("-F") + [SPACE]
    ensures Ascii(" -t ") == [SPACE] + (Ascii("-t") + [SPACE])
  {
  }

  /** Reading `send-keys -H` back: four words, then one hex word per byte. */
  lemma SendKeysHexWords(pane: Pane, bytes: seq<byte>)
    requires IsPlainWord(pane)
    ensures var line := KeysHex(pane, bytes);
      Words(line[..|line| - 1]) == Some([Ascii("send-keys"), Ascii("-t"), pane, Ascii("-H")] + HexWords(bytes))
  {
    hide Words, Prefix, Ascii, IsPlain, HexList, HexWords;
    var a, b, d := Ascii("send-keys"), Ascii("-t"), Ascii("-H");
    var s1, s2 := Ascii("send-keys -t "), Ascii(" -H");
    PrefixTwo(a, b);
    assert s1 == a + [SPACE] + b + [SPACE];
    assert s2 == [SPACE] + d;
    PlainWords();
    PrefixAppend([a, b], pane);
    var ws := [a, b] + [pane];
    assert forall i :: 0 <= i < |ws| ==> ws[i] in {a, b, pane};
    PrefixHex(ws, d, bytes);
    var line := Prefix(ws) + d + HexList(bytes);
    assert s1 + pane + s2 == Prefix(ws) + d;
    assert KeysHex(pane, bytes) == line + [LF] && (line + [LF])[..|line|] == line;
    assert ws + [d] == [a, b, pane, d];
  }

  /** And each hex word parses to its byte, so the keys come out as they went in. */
  lemma HexWordsParse(bytes: seq<byte>, i: nat)
    requires i < |bytes|
    ensures Numbers.Parse(HexWords(bytes)[i], 16, 256) == Some(bytes[i])
  {
    HexByteParses(bytes[i]);
  }

  // ---- One line each ----

  /** Exactly one newline, at the end. */
  predicate OneLine(s: seq<byte>) { |s| > 0 && s[|s| - 1] == LF && LF !in s[..|s| - 1] }

  lemma {:induction false} EscapedHasNoNewline(s: seq<byte>)
    requires LF !in s
    ensures LF !in Escaped(s)
  {
    if s != [] {
      EscapedHasNoNewline(s[1..]);
    }
  }

  lemma {:induction false} HexListHasNoNewline(bytes: seq<byte>)
    ensures LF !in HexList(bytes)
    decreases |bytes|
  {
    if bytes != [] {
      HexListHasNoNewline(bytes[..|bytes| - 1]);
    }
  }

  lemma EndsLine(a: seq<byte>, b: seq<byte>, c: seq<byte>, d: seq<byte>)
    requires LF !in a && LF !in b && LF !in c && LF !in d
    ensures OneLine(a + b + c + d + [LF])
  {
    var body := a + b + c + d;
    assert (body + [LF])[..|body|] == body;
  }

  lemma QuotedHasNoNewline(s: seq<byte>)
    requires LF !in s
    ensures LF !in Quoted(s)
  {
    EscapedHasNoNewline(s);
  }

  lemma NothingAdded(s: seq<byte>)
    ensures s + [] == s
  {
  }

  /** The builders that quote an argument make exactly one line when their arguments hold no
      newline, so the writer sends one command for each. */
  lemma QuotingBuildersMakeOneLine(pane: Pane, text: seq<byte>)
    requires LF !in pane && LF !in text
    ensures OneLine(DisplayMessage(text)) && OneLine(DisplayMessageForPane(text, pane))
    ensures OneLine(ListSessions(text)) && OneLine(SendKeysLiteral(pane, text))
  {
    hide OneLine, Quoted, Ascii;
    QuotedHasNoNewline(text);
    var d, l, t := Ascii("display-message -p -F "), Ascii("list-sessions -F "), Ascii(" -t ");
    var k, m := Ascii("send-keys -t "), Ascii(" -l ");
    assert LF !in d && LF !in l && LF !in t && LF !in k && LF !in m;
    EndsLine(d, Quoted(text), [], []);
    EndsLine(l, Quoted(text), [], []);
    EndsLine(d, Quoted(text), t, pane);
    EndsLine(k, pane, m, Quoted(text));
    NothingAdded(d + Quoted(text));
    NothingAdded(l + Quoted(text));
  }

  lemma CaptureMakesOneLine(pane: Pane, start: Option<int>)
    requires LF !in pane
    ensures OneLine(CapturePane(pane, start)) && OneLine(CapturePaneAll(pane))
  {
    var c, n, a := Ascii("capture-pane -p -e -t "), Ascii(" -S "), Ascii(" -S -");
    assert LF !in c && LF !in n && LF !in a;
    var digits := if start.Some? then PrintInt(start.value) else [];
    assert LF !in digits;
    hide OneLine, Ascii, Numbers.Print, PrintInt;
    EndsLine(c, pane, n, digits);
    EndsLine(c, pane, [], []);
    EndsLine(c, pane, a, []);
    NothingAdded(c + pane);
    NothingAdded(c + pane + a);
  }

  lemma KeysMakeOneLine(pane: Pane, bytes: seq<byte>)
    requires LF !in pane
    ensures OneLine(KeysHex(pane, bytes))
  {
    hide OneLine, HexList, Ascii;
    HexListHasNoNewline(bytes);
    var k, h := Ascii("send-keys -t "), Ascii(" -H");
    assert LF !in k && LF !in h;
    EndsLine(k, pane, h, HexList(bytes));
  }

  lemma DimsMakeOneLine(cols: nat, rows: nat)
    ensures OneLine(RefreshClientDims(cols, rows))
  {
    hide OneLine, Ascii, Numbers.Print;
    var r := Ascii("refresh-client -C ");
    assert LF !in r;
    EndsLine(r, Numbers.PrintDecimal(cols), [0x78], Numbers.PrintDecimal(rows));
  }

  lemma ShortMakeOneLine(pane: Pane)
    requires LF !in pane
    ensures OneLine(SelectPane(pane)) && OneLine(DetachClient())
  {
    hide OneLine, Ascii;
    var p, d := Ascii("select-pane -t "), Ascii("detach-client");
    assert LF !in p && LF !in d;
    EndsLine(p, pane, [], []);
    EndsLine(d, [], [], []);
    NothingAdded(p + pane);
    NothingAdded(d);
  }

  /** So do the others. */
  lemma PlainBuildersMakeOneLine(pane: Pane, bytes: seq<byte>, start: Option<int>, cols: nat, rows: nat)
    requires LF !in pane
    ensures OneLine(CapturePane(pane, start)) && OneLine(CapturePaneAll(pane)) && OneLine(SelectPane(pane))
    ensures OneLine(RefreshClientDims(cols, rows)) && OneLine(DetachClient()) && OneLine(KeysHex(pane, bytes))
  {
    hide *;
    CaptureMakesOneLine(pane, start);
    KeysMakeOneLine(pane, bytes);
    DimsMakeOneLine(cols, rows);
    ShortMakeOneLine(pane);
  }
}
